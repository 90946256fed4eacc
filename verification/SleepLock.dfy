/**
 * sleeplock.c over sleep/wakeup: one sleep lock used by any number of processes, with its spinlock
 * and ptable.lock taken and dropped in separate steps, so every window between them is explored.
 */
module SleepLock {
  import opened Options

  /** Where a process stands in acquiresleep or releasesleep. */
  datatype Pc =
    | Out          // using neither
    | Spinning     // acquiresleep: wants lk->lk
    | Testing      // holds lk->lk, at the while test
    | Yielding     // saw locked; sleep() wants ptable.lock
    | Dropping     // sleep() holds both locks
    | Dozing       // sleep() dropped lk->lk, still holds ptable.lock
    | Asleep       // SLEEPING on the lock, holds nothing
    | Taking       // set locked, still holds lk->lk
    | Inside       // holds the sleep lock
    | Leaving      // releasesleep: wants lk->lk
    | Clearing     // holds lk->lk, about to clear locked
    | Waking       // cleared locked, wakeup() wants ptable.lock
    | Done         // woke the sleepers, about to drop lk->lk

  datatype State = State(spin: Option<nat>, ptable: Option<nat>, locked: bool, pid: Option<nat>, pcs: seq<Pc>)

  predicate HoldsSpin(pc: Pc) {
    pc == Testing || pc == Yielding || pc == Dropping || pc == Taking || pc == Clearing || pc == Waking || pc == Done
  }

  predicate HoldsTable(pc: Pc) {
    pc == Dropping || pc == Dozing
  }

  /** Holds the sleep lock: between setting and clearing locked. */
  predicate Owns(pc: Pc) {
    pc == Taking || pc == Inside || pc == Leaving || pc == Clearing
  }

  /** Has decided to sleep, or sleeps. */
  predicate Drowsy(pc: Pc) {
    pc == Yielding || pc == Dropping || pc == Dozing || pc == Asleep
  }

  function Woken(pc: Pc): Pc {
    if pc == Asleep then Spinning else pc
  }

  function WakeAll(pcs: seq<Pc>): (r: seq<Pc>)
    ensures |r| == |pcs| && forall i :: 0 <= i < |pcs| ==> r[i] == Woken(pcs[i])
  {
    seq(|pcs|, i requires 0 <= i < |pcs| => Woken(pcs[i]))
  }

  function At(s: State, i: nat, pc: Pc): State
    requires i < |s.pcs|
  {
    s.(pcs := s.pcs[i := pc])
  }

  /** Process i takes its next step, when it can. `kill` also wakes a sleeper, as kill() does. */
  function Next(s: State, i: nat): State
    requires i < |s.pcs|
  {
    match s.pcs[i]
    case Out => At(s, i, Spinning)
    case Spinning => if s.spin.None? then At(s, i, Testing).(spin := Some(i)) else s
    case Testing => if s.locked then At(s, i, Yielding) else At(s, i, Taking).(locked := true, pid := Some(i))
    case Yielding => if s.ptable.None? then At(s, i, Dropping).(ptable := Some(i)) else s
    case Dropping => At(s, i, Dozing).(spin := None)
    case Dozing => At(s, i, Asleep).(ptable := None)
    case Asleep => s
    case Taking => At(s, i, Inside).(spin := None)
    case Inside => At(s, i, Leaving)
    case Leaving => if s.spin.None? then At(s, i, Clearing).(spin := Some(i)) else s
    case Clearing => At(s, i, Waking).(locked := false, pid := None)
    case Waking => if s.ptable.None? then At(s.(pcs := WakeAll(s.pcs)), i, Done) else s
    case Done => At(s, i, Out).(spin := None)
  }

  /** kill() of a sleeper: it goes back to the spinlock and tests again. */
  function Killed(s: State, i: nat): State
    requires i < |s.pcs|
  {
    if s.ptable.None? then At(s, i, Woken(s.pcs[i])) else s
  }

  datatype Move = Move(i: nat, kill: bool)

  function Step(s: State, m: Move): State {
    if m.i >= |s.pcs| then s else if m.kill then Killed(s, m.i) else Next(s, m.i)
  }

  ghost predicate Init(s: State) {
    s.spin.None? && s.ptable.None? && !s.locked && s.pid.None? && forall i :: 0 <= i < |s.pcs| ==> s.pcs[i] == Out
  }

  function Run(s: State, moves: seq<Move>): State {
    if moves == [] then s else Step(Run(s, moves[..|moves| - 1]), moves[|moves| - 1])
  }

  ghost predicate SpinOk(s: State) {
    && (forall i :: 0 <= i < |s.pcs| ==> (HoldsSpin(s.pcs[i]) <==> s.spin == Some(i)))
    && (s.spin.Some? ==> s.spin.value < |s.pcs|)
  }

  ghost predicate TableOk(s: State) {
    forall i :: 0 <= i < |s.pcs| ==> (HoldsTable(s.pcs[i]) <==> s.ptable == Some(i))
  }

  ghost predicate OwnerOk(s: State) {
    && (forall i :: 0 <= i < |s.pcs| ==> (Owns(s.pcs[i]) <==> s.pid == Some(i)))
    && s.locked == s.pid.Some? && (s.pid.Some? ==> s.pid.value < |s.pcs|)
  }

  ghost predicate SomeWaking(pcs: seq<Pc>) {
    exists j :: 0 <= j < |pcs| && pcs[j] == Waking
  }

  /** A process that will sleep or sleeps still has a wakeup coming. */
  ghost predicate Expected(s: State) {
    forall i :: 0 <= i < |s.pcs| && Drowsy(s.pcs[i]) ==> s.locked || SomeWaking(s.pcs)
  }

  ghost predicate Inv(s: State) {
    SpinOk(s) && TableOk(s) && OwnerOk(s) && Expected(s)
  }

  lemma NextSpin(s: State, i: nat)
    requires SpinOk(s) && i < |s.pcs|
    ensures SpinOk(Next(s, i))
  {
  }

  lemma NextTable(s: State, i: nat)
    requires TableOk(s) && i < |s.pcs|
    ensures TableOk(Next(s, i))
  {
  }

  lemma NextOwner(s: State, i: nat)
    requires OwnerOk(s) && i < |s.pcs|
    ensures OwnerOk(Next(s, i))
  {
  }

  lemma NextExpected(s: State, i: nat)
    requires Inv(s) && i < |s.pcs|
    ensures Expected(Next(s, i))
  {
    var u := Next(s, i);
    if s.pcs[i] == Clearing {
      assert u.pcs[i] == Waking;
    } else if s.pcs[i] != Waking && SomeWaking(s.pcs) {
      var j :| 0 <= j < |s.pcs| && s.pcs[j] == Waking;
      assert u.pcs[j] == Waking;
    }
  }

  lemma StepInv(s: State, m: Move)
    requires Inv(s)
    ensures Inv(Step(s, m))
  {
    if m.i < |s.pcs| {
      if m.kill {
        var u := Killed(s, m.i);
        if SomeWaking(s.pcs) {
          var j :| 0 <= j < |s.pcs| && s.pcs[j] == Waking;
          assert u.pcs[j] == Waking;
        }
      } else {
        NextSpin(s, m.i);
        NextTable(s, m.i);
        NextOwner(s, m.i);
        NextExpected(s, m.i);
      }
    }
  }

  lemma {:induction false} RunInv(s: State, moves: seq<Move>)
    requires Init(s)
    ensures Inv(Run(s, moves))
  {
    if moves != [] {
      RunInv(s, moves[..|moves| - 1]);
      StepInv(Run(s, moves[..|moves| - 1]), moves[|moves| - 1]);
    }
  }

  /** At most one process is inside, in every interleaving, kills included. */
  lemma MutualExclusion(s: State, moves: seq<Move>, i: nat, j: nat)
    requires Init(s)
    requires i < |Run(s, moves).pcs| && j < |Run(s, moves).pcs|
    requires Run(s, moves).pcs[i] == Inside && Run(s, moves).pcs[j] == Inside
    ensures i == j
  {
    RunInv(s, moves);
  }

  /** No lost wakeup: when nobody is in the middle of an update, a sleeper means the lock is held. */
  lemma NoLostWakeup(s: State, moves: seq<Move>, i: nat)
    requires Init(s)
    requires i < |Run(s, moves).pcs| && Run(s, moves).pcs[i] == Asleep && Run(s, moves).spin.None?
    ensures Run(s, moves).locked
    ensures exists h :: Run(s, moves).pid == Some(h) && h < |Run(s, moves).pcs| && Owns(Run(s, moves).pcs[h])
  {
    RunInv(s, moves);
    var u := Run(s, moves);
    assert forall j :: 0 <= j < |u.pcs| ==> !HoldsSpin(u.pcs[j]);
  }
}
