/** Priority inheritance (sys_nice, sys_lock, sys_release) and priority dispatch over whole runs. */
module Priority {
  import opened Options
  import opened Processes
  import opened ProcessProofs

  function Min(a: int, b: int): int {
    if a < b then a else b
  }

  /** The least of a nice value and the priorities asked. */
  function Least(nice: int, asks: seq<int>): int {
    if asks == [] then nice else Min(Least(nice, asks[..|asks| - 1]), asks[|asks| - 1])
  }

  /** Least is below everything it ranges over, and is one of them. */
  lemma {:induction false} LeastMeaning(nice: int, asks: seq<int>)
    ensures Least(nice, asks) <= nice && forall i :: 0 <= i < |asks| ==> Least(nice, asks) <= asks[i]
    ensures Least(nice, asks) == nice || Least(nice, asks) in asks
  {
    if asks != [] {
      LeastMeaning(nice, asks[..|asks| - 1]);
    }
  }

  /** A process runs at the least of its nice value and what was asked of it, and remembers nice while boosted. */
  ghost predicate InheritsAt(p: Proc, asks: seq<int>) {
    p.nice >= 1 && p.priority == Least(p.nice, asks) && p.original == (if p.priority < p.nice then p.nice else -1)
  }

  ghost predicate Inherits(t: Table) {
    |t.asked| == |t.procs| && forall s :: 0 <= s < |t.procs| && t.procs[s].state != Unused ==> InheritsAt(t.procs[s], t.asked[s])
  }

  predicate SamePriority(p: Proc, q: Proc) {
    q.nice == p.nice && q.priority == p.priority && q.original == p.original && (p.state == Unused ==> q.state == Unused)
  }

  lemma SameInherits(t: Table, u: Table)
    requires Inherits(t) && |u.procs| == |t.procs| && u.asked == t.asked
    requires forall s :: 0 <= s < |t.procs| ==> SamePriority(t.procs[s], u.procs[s])
    ensures Inherits(u)
  {
    forall s | 0 <= s < |u.procs| && u.procs[s].state != Unused ensures InheritsAt(u.procs[s], u.asked[s]) {
      assert SamePriority(t.procs[s], u.procs[s]);
    }
  }

  lemma BoostInherits(p: Proc, asks: seq<int>, a: int)
    requires InheritsAt(p, asks)
    ensures InheritsAt(Boosted(p, a), asks + [a])
  {
    assert (asks + [a])[..|asks|] == asks;
    LeastMeaning(p.nice, asks);
  }

  lemma RestoreInherits(p: Proc, asks: seq<int>)
    requires InheritsAt(p, asks)
    ensures InheritsAt(Restored(p), []) && Restored(p).priority == p.nice
  {
    LeastMeaning(p.nice, asks);
  }

  /** sys_nice returns -1. */
  predicate NiceRefused(t: Table, pid: int, value: int) {
    value < 1 || value > 5 || First(t.procs, InUse(pid)) == |t.procs|
  }

  /** A nice call that keeps inheritance sound: refused, or on a process not boosted and not above what was asked of it. */
  ghost predicate NiceSafe(t: Table, pid: int, value: int)
    requires |t.asked| == |t.procs|
  {
    NiceRefused(t, pid, value) ||
      var k := First(t.procs, InUse(pid));
      t.procs[k].original == -1 && forall i :: 0 <= i < |t.asked[k]| ==> value <= t.asked[k][i]
  }

  /** What a caller can tell without the history: the process is not boosted and its nice value does not rise. */
  predicate NiceLowers(t: Table, pid: int, value: int) {
    NiceRefused(t, pid, value) ||
      var k := First(t.procs, InUse(pid));
      t.procs[k].original == -1 && value <= t.procs[k].nice
  }

  lemma LowersIsSafe(t: Table, pid: int, value: int)
    requires Inherits(t) && NiceLowers(t, pid, value)
    ensures NiceSafe(t, pid, value)
  {
    if !NiceRefused(t, pid, value) {
      var k := First(t.procs, InUse(pid));
      assert Holds(InUse(pid), t.procs[k]);
      LeastMeaning(t.procs[k].nice, t.asked[k]);
    }
  }

  /** Exactly the safe calls keep it. */
  lemma NiceInherits(t: Table, pid: int, value: int)
    requires Inherits(t)
    ensures Inherits(AfterNice(t, pid, value)) <==> NiceSafe(t, pid, value)
  {
    if !NiceRefused(t, pid, value) {
      var k, u := First(t.procs, InUse(pid)), AfterNice(t, pid, value);
      assert Holds(InUse(pid), t.procs[k]);
      hide First;
      LeastMeaning(value, t.asked[k]);
      assert u.procs[k].state != Unused && u.asked == t.asked;
      assert InheritsAt(u.procs[k], u.asked[k]) <==> NiceSafe(t, pid, value);
    }
  }

  lemma AllocInherits(t: Table, c: nat)
    requires Inherits(t) && OnCpu(t, c) && t.procs[Cur(t, c)].state == Running
    ensures Inherits(AfterForkAlloc(t, c))
  {
    var s, k, u := Cur(t, c), First(t.procs, IsUnused), AfterForkAlloc(t, c);
    if k < |t.procs| {
      assert Holds(IsUnused, t.procs[k]);
      hide First;
      assert InheritsAt(u.procs[k], []);
    }
  }

  lemma LockInherits(t: Table, c: nat, id: int)
    requires Inherits(t) && OnCpu(t, c)
    ensures Inherits(AfterLock(t, c, id))
  {
    if LockId(t, id) && t.locks[id].Some? && t.locks[id].value < |t.procs| {
      var h, a := t.locks[id].value, t.procs[Cur(t, c)].priority;
      if t.procs[h].state != Unused {
        BoostInherits(t.procs[h], t.asked[h], a);
      }
    }
  }

  lemma ReleaseInherits(t: Table, c: nat, id: int)
    requires Inherits(t) && OnCpu(t, c) && t.procs[Cur(t, c)].state == Running
    ensures Inherits(AfterRelease(t, c, id))
  {
    RestoreInherits(t.procs[Cur(t, c)], t.asked[Cur(t, c)]);
  }

  /** Every step keeps inheritance sound, a nice call that is not safe and nothing else excepted. */
  lemma StepInherits(t: Table, a: Step, u: Table)
    requires Inv(t) && Inherits(t) && Next(t, a, u)
    ensures Inherits(u) <==> (a.Nice? ==> NiceSafe(t, a.pid, a.value))
  {
    hide Inv, First, Any;
    match a
    case Nice(pid, value) => NiceInherits(t, pid, value);
    case Lock(c, id) => LockInherits(t, c, id);
    case Release(c, id) => CurRunning(t, c); ReleaseInherits(t, c, id);
    case ForkAlloc(c) => CurRunning(t, c); AllocInherits(t, c);
    case _ => OtherSteps(t, a, u); SameInherits(t, u);
  }

  ghost predicate AllSame(t: Table, u: Table) {
    && |u.procs| == |t.procs| && u.asked == t.asked
    && forall s :: 0 <= s < |t.procs| ==> SamePriority(t.procs[s], u.procs[s])
  }

  lemma ExitSame(t: Table, c: nat)
    requires OnCpu(t, c) && t.procs[Cur(t, c)].parent.Some? && t.procs[Cur(t, c)].state == Running
    ensures AllSame(t, AfterExit(t, c))
  {
    hide Any;
  }

  lemma ForkSame(t: Table, c: nat)
    requires Inv(t) && OnCpu(t, c) && t.procs[Cur(t, c)].np.Some?
    ensures t.procs[Cur(t, c)].np.value < |t.procs| && AllSame(t, AfterForkFail(t, c)) && AllSame(t, AfterForkDone(t, c))
  {
    var s, k := ForkOf(t, c);
    hide Inv;
  }

  lemma WaitSame(t: Table, c: nat)
    requires OnCpu(t, c) && t.procs[Cur(t, c)].state == Running
    ensures AllSame(t, AfterWait(t, c))
  {
    hide First;
  }

  lemma KillSame(t: Table, pid: int)
    ensures AllSame(t, AfterKill(t, pid))
  {
    hide First;
  }

  lemma OtherSteps(t: Table, a: Step, u: Table)
    requires Inv(t) && Next(t, a, u) && !a.Nice? && !a.Lock? && !a.Release? && !a.ForkAlloc?
    ensures AllSame(t, u)
  {
    hide Inv, First, Any;
    match a
    case Dispatch(c) =>
    case TakeTurn(c, k) =>
    case Wait(c) => CurRunning(t, c); WaitSame(t, c);
    case ForkDone(c) => ForkSame(t, c);
    case ForkFail(c) => ForkSame(t, c);
    case Exit(c) => CurRunning(t, c); ExitSame(t, c);
    case Yield(c) => CurRunning(t, c);
    case Sleep(c, _) => CurRunning(t, c);
    case Wakeup(_) =>
    case Kill(pid) => KillSame(t, pid);
  }

  ghost predicate SafeRun(ts: seq<Table>, steps: seq<Step>) {
    && Run(ts, steps) && Init(ts[0])
    && forall i :: 0 <= i < |steps| && steps[i].Nice? ==>
         |ts[i].asked| == |ts[i].procs| && NiceSafe(ts[i], steps[i].pid, steps[i].value)
  }

  /** Runs in which no effective nice call raises a value or meets a boosted process. */
  ghost predicate LoweringRun(ts: seq<Table>, steps: seq<Step>) {
    && Run(ts, steps) && Init(ts[0])
    && forall i :: 0 <= i < |steps| && steps[i].Nice? ==> NiceLowers(ts[i], steps[i].pid, steps[i].value)
  }

  lemma {:induction false} LoweringInherits(ts: seq<Table>, steps: seq<Step>, i: nat)
    requires LoweringRun(ts, steps) && i < |ts|
    ensures Inherits(ts[i])
  {
    if i > 0 {
      LoweringInherits(ts, steps, i - 1);
      RunInv(ts, steps, i - 1);
      hide Inv, Inherits, InheritsAt, NiceSafe, NiceLowers, Next, Init;
      if steps[i - 1].Nice? {
        LowersIsSafe(ts[i - 1], steps[i - 1].pid, steps[i - 1].value);
      }
      StepInherits(ts[i - 1], steps[i - 1], ts[i]);
    }
  }

  /** Such runs are safe. */
  lemma LoweringIsSafe(ts: seq<Table>, steps: seq<Step>)
    requires LoweringRun(ts, steps)
    ensures SafeRun(ts, steps)
  {
    forall i | 0 <= i < |steps| && steps[i].Nice?
      ensures |ts[i].asked| == |ts[i].procs| && NiceSafe(ts[i], steps[i].pid, steps[i].value)
    {
      LoweringInherits(ts, steps, i);
      LowersIsSafe(ts[i], steps[i].pid, steps[i].value);
    }
  }

  lemma {:induction false} RunInherits(ts: seq<Table>, steps: seq<Step>, i: nat)
    requires SafeRun(ts, steps) && i < |ts|
    ensures Inherits(ts[i])
  {
    if i > 0 {
      RunInherits(ts, steps, i - 1);
      RunInv(ts, steps, i - 1);
      hide Inv, Inherits, NiceSafe, Next, Init;
      StepInherits(ts[i - 1], steps[i - 1], ts[i]);
    }
  }

  /** sys_lock takes a free lock; on a held one the holder then runs at the better of its own and the
      caller's priority, the request is recorded, the value release restores is kept, and nothing else changes. */
  lemma LockLends(t: Table, c: nat, id: int, u: Table)
    requires Next(t, Lock(c, id), u)
    ensures !LockId(t, id) ==> u == t
    ensures LockId(t, id) && t.locks[id].None? ==> u == t.(locks := u.locks) && u.locks == t.locks[id := Some(Cur(t, c))]
    ensures LockId(t, id) && t.locks[id].Some? && t.locks[id].value < |t.procs| ==>
      var h, asks := t.locks[id].value, t.procs[Cur(t, c)].priority;
      && u == t.(procs := t.procs[h := u.procs[h]], asked := t.asked[h := u.asked[h]])
      && u.procs[h].priority == Min(t.procs[h].priority, asks) && u.asked[h] == t.asked[h] + [asks]
      && u.procs[h].original == (if asks < t.procs[h].priority && t.procs[h].original == -1 then t.procs[h].priority else t.procs[h].original)
      && u.procs[h] == t.procs[h].(priority := u.procs[h].priority, original := u.procs[h].original)
  {
  }

  /** The process in slot h answers to no earlier request after its effective release of a lock, or
      when it has just been allocated. */
  ghost predicate Resets(t: Table, a: Step, h: nat) {
    || (a.Release? && OnCpu(t, a.c) && Cur(t, a.c) == h && LockId(t, a.id) && t.locks[a.id] == Some(h))
    || (a.ForkAlloc? && First(t.procs, IsUnused) == h)
  }

  /** A request of a lock that is recorded to slot h. */
  predicate Requests(t: Table, a: Step, h: nat) {
    a.Lock? && OnCpu(t, a.c) && LockId(t, a.id) && t.locks[a.id] == Some(h)
  }

  /** The priorities of those who asked for a lock of h in the first i steps of a run, since the last reset. */
  ghost function Asks(ts: seq<Table>, steps: seq<Step>, i: nat, h: nat): seq<int>
    requires i <= |steps| < |ts|
  {
    if i == 0 then []
    else
      var t, a := ts[i - 1], steps[i - 1];
      if Resets(t, a, h) then []
      else if Requests(t, a, h) then Asks(ts, steps, i - 1, h) + [t.procs[Cur(t, a.c)].priority]
      else Asks(ts, steps, i - 1, h)
  }

  lemma AskedStep(t: Table, a: Step, u: Table, h: nat)
    requires Inv(t) && Next(t, a, u) && h < |t.procs|
    ensures |u.asked| == |u.procs| == |t.procs| == |t.asked|
    ensures u.asked[h] == if Resets(t, a, h) then []
                          else if Requests(t, a, h) then t.asked[h] + [t.procs[Cur(t, a.c)].priority] else t.asked[h]
  {
    hide Inv, First, Any;
    match a
    case Nice(pid, value) =>
    case Lock(c, id) => LockLends(t, c, id, u);
    case Release(c, id) =>
    case ForkAlloc(c) =>
    case _ => OtherSteps(t, a, u);
  }

  /** The recorded requests are those the run's own sys_lock calls made. */
  lemma {:induction false} AskedIsHistory(ts: seq<Table>, steps: seq<Step>, i: nat, h: nat)
    requires Run(ts, steps) && Init(ts[0]) && i <= |steps| && h < |ts[0].procs|
    ensures |ts[i].procs| == |ts[i].asked| == |ts[0].procs| && ts[i].asked[h] == Asks(ts, steps, i, h)
  {
    if i > 0 {
      AskedIsHistory(ts, steps, i - 1, h);
      RunInv(ts, steps, i - 1);
      assert Next(ts[i - 1], steps[i - 1], ts[i - 1 + 1]);
      hide Inv, Next, Init, Resets, Requests;
      AskedStep(ts[i - 1], steps[i - 1], ts[i], h);
    }
  }

  /** A request stays until the holder's next reset. */
  lemma {:induction false} RequestStays(ts: seq<Table>, steps: seq<Step>, i: nat, j: nat, h: nat)
    requires i < j <= |steps| < |ts| && Requests(ts[i], steps[i], h)
    requires forall m :: i <= m < j ==> !Resets(ts[m], steps[m], h)
    ensures ts[i].procs[Cur(ts[i], steps[i].c)].priority in Asks(ts, steps, j, h)
    decreases j
  {
    if j > i + 1 {
      RequestStays(ts, steps, i, j - 1, h);
    }
  }

  /** No inversion: someone calls sys_lock, in step i, for a lock recorded to h.  Until h next releases a
      lock, or its slot is allocated anew, no dispatch at which h is runnable picks a process worse than
      the caller was. */
  lemma NoInversion(ts: seq<Table>, steps: seq<Step>, i: nat, j: nat, h: nat)
    requires SafeRun(ts, steps) && i < j < |steps| && Requests(ts[i], steps[i], h)
    requires forall m :: i < m < j ==> !Resets(ts[m], steps[m], h)
    requires steps[j].Dispatch? && h < |ts[j].procs| && ts[j].procs[h].state == Runnable
    ensures steps[j].c < |ts[j].cpus|
    ensures exists k: nat :: Chosen(ts[j].procs, k) && ts[j + 1] == Dispatched(ts[j], steps[j].c, k)
              && ts[j].procs[k].priority <= ts[i].procs[Cur(ts[i], steps[i].c)].priority
  {
    RunSizes(ts, steps, j);
    AskedIsHistory(ts, steps, j, h);
    RequestStays(ts, steps, i, j, h);
    DispatchRespects(ts, steps, j, h, ts[i].procs[Cur(ts[i], steps[i].c)].priority);
  }

  lemma {:induction false} RunSizes(ts: seq<Table>, steps: seq<Step>, i: nat)
    requires Run(ts, steps) && Init(ts[0]) && i <= |steps|
    ensures |ts[i].procs| == |ts[0].procs|
  {
    if i > 0 {
      RunSizes(ts, steps, i - 1);
      RunInv(ts, steps, i - 1);
      assert Next(ts[i - 1], steps[i - 1], ts[i - 1 + 1]);
      assert |ts[0].procs| > 0;
      hide Inv, Next, Init, Resets, Requests;
      AskedStep(ts[i - 1], steps[i - 1], ts[i], 0);
    }
  }

  /** While a process is runnable, no dispatch picks one worse than anyone recorded to have asked it. */
  lemma DispatchRespects(ts: seq<Table>, steps: seq<Step>, i: nat, h: nat, r: int)
    requires SafeRun(ts, steps) && i < |steps| && steps[i].Dispatch?
    requires h < |ts[i].procs| && ts[i].procs[h].state == Runnable && h < |ts[i].asked| && r in ts[i].asked[h]
    ensures steps[i].c < |ts[i].cpus|
    ensures exists k: nat :: Chosen(ts[i].procs, k) && ts[i + 1] == Dispatched(ts[i], steps[i].c, k) && ts[i].procs[k].priority <= r
  {
    RunInherits(ts, steps, i);
    LeastMeaning(ts[i].procs[h].nice, ts[i].asked[h]);
    assert InheritsAt(ts[i].procs[h], ts[i].asked[h]);
    assert Next(ts[i], steps[i], ts[i + 1]);
    hide Inherits, InheritsAt, Init, Least;
    var k :| Chosen(ts[i].procs, k) && ts[i + 1] == Dispatched(ts[i], steps[i].c, k);
  }

  /** An effective release drops the whole boost, whatever other contested locks the process still holds. */
  lemma ReleaseDropsBoost(t: Table, c: nat, id: int)
    requires Inv(t) && Inherits(t) && OnCpu(t, c) && LockId(t, id) && t.locks[id] == Some(Cur(t, c))
    ensures var u := AfterRelease(t, c, id);
      && u.procs[Cur(t, c)].priority == t.procs[Cur(t, c)].nice && u.procs[Cur(t, c)].original == -1
      && u.locks[id].None? && forall j :: 0 <= j < NLOCK && j != id ==> u.locks[j] == t.locks[j]
  {
    CurRunning(t, c);
    hide Inv;
    RestoreInherits(t.procs[Cur(t, c)], t.asked[Cur(t, c)]);
  }

  /** sys_lock never waits: on a held lock the caller keeps its CPU and the holder its lock. */
  lemma LockDoesNotWait(t: Table, c: nat, id: int)
    requires Inv(t) && OnCpu(t, c) && LockId(t, id) && t.locks[id].Some?
    ensures var u := AfterLock(t, c, id);
      && u.cpus == t.cpus && u.locks == t.locks && u.procs[Cur(t, c)].state == Running
      && forall s :: 0 <= s < |t.procs| ==> u.procs[s].state == t.procs[s].state
  {
    CurRunning(t, c);
    hide Inv;
  }

  /**
   * A process that yields is dispatched again at once exactly when every other runnable process is worse,
   * or as good but in a higher slot: equals do not take turns.
   */
  lemma YieldThenDispatch(t: Table, u: Table, v: Table, c: nat)
    requires Inv(t) && Next(t, Yield(c), u) && Next(u, Dispatch(c), v)
    ensures v.cpus[c] == Some(Cur(t, c)) <==>
      forall j :: 0 <= j < |t.procs| && t.procs[j].state == Runnable ==>
        t.procs[Cur(t, c)].priority < t.procs[j].priority || (t.procs[Cur(t, c)].priority == t.procs[j].priority && Cur(t, c) < j)
  {
    var s := Cur(t, c);
    CurRunning(t, c);
    hide Inv;
    assert u.procs[s].state == Runnable;
    var k :| Chosen(u.procs, k) && v == Dispatched(u, c, k);
    assert forall j :: 0 <= j < |t.procs| && j != s ==> u.procs[j] == t.procs[j];
    if forall j :: 0 <= j < |t.procs| && t.procs[j].state == Runnable ==>
        t.procs[s].priority < t.procs[j].priority || (t.procs[s].priority == t.procs[j].priority && s < j) {
      assert k == s;
    }
  }

  /** A slot not in use carries no kill mark, so the next process made there starts unmarked. */
  ghost predicate Unmarked(t: Table) {
    forall s :: 0 <= s < |t.procs| && t.procs[s].state == Unused ==> !t.procs[s].killed
  }

  /** Steps that leave a mark behind: kill() of a pid found in an unused slot, a failed fork whose child was killed. */
  predicate LeavesMark(t: Table, a: Step) {
    match a
    case Kill(pid) => var k := First(t.procs, HasPid(pid)); k < |t.procs| && t.procs[k].state == Unused
    case ForkFail(c) =>
      OnCpu(t, c) && t.procs[Cur(t, c)].np.Some? && t.procs[Cur(t, c)].np.value < |t.procs|
      && t.procs[t.procs[Cur(t, c)].np.value].killed
    case _ => false
  }

  lemma AllMarks(t: Table, u: Table)
    requires Unmarked(t) && |u.procs| == |t.procs|
    requires forall s :: 0 <= s < |t.procs| && u.procs[s].state == Unused && u.procs[s].killed ==>
      t.procs[s].state == Unused && t.procs[s].killed
    ensures Unmarked(u)
  {
  }

  /** No other step leaves one. */
  lemma StepMarks(t: Table, a: Step, u: Table)
    requires Inv(t) && Unmarked(t) && Next(t, a, u)
    ensures Unmarked(u) <==> !LeavesMark(t, a)
  {
    hide Inv, First, Any;
    match a
    case Wait(c) => CurRunning(t, c); WaitMarks(t, c);
    case Exit(c) => CurRunning(t, c); ExitMarks(t, c);
    case Yield(c) => AllMarks(t, u);
    case Sleep(c, _) => CurRunning(t, c); AllMarks(t, u);
    case ForkAlloc(c) => CurRunning(t, c); AllMarks(t, u);
    case ForkDone(c) => ForkMarks(t, c);
    case ForkFail(c) => ForkMarks(t, c);
    case Lock(c, id) => LockMarks(t, c, id);
    case Release(c, id) => LockMarks(t, c, id);
    case Kill(pid) => KillMarks(t, pid);
    case Dispatch(c) => AllMarks(t, u);
    case TakeTurn(c, k) => AllMarks(t, u);
    case Wakeup(_) => AllMarks(t, u);
    case Nice(pid, value) => NiceMarks(t, pid, value);
  }

  lemma LockMarks(t: Table, c: nat, id: int)
    requires Unmarked(t) && OnCpu(t, c) && |t.asked| == |t.procs|
    ensures Unmarked(AfterLock(t, c, id)) && Unmarked(AfterRelease(t, c, id))
  {
  }

  lemma NiceMarks(t: Table, pid: int, value: int)
    requires Unmarked(t) && |t.asked| == |t.procs|
    ensures Unmarked(AfterNice(t, pid, value))
  {
    hide First;
  }

  lemma WaitMarks(t: Table, c: nat)
    requires Unmarked(t) && OnCpu(t, c)
    ensures Unmarked(AfterWait(t, c))
  {
    hide First;
  }

  lemma KillMarks(t: Table, pid: int)
    requires Unmarked(t)
    ensures Unmarked(AfterKill(t, pid)) <==> !LeavesMark(t, Kill(pid))
  {
    hide First;
    var k, u := First(t.procs, HasPid(pid)), AfterKill(t, pid);
    assert k < |t.procs| ==> u.procs[k].killed && (u.procs[k].state == Unused) == (t.procs[k].state == Unused);
  }

  lemma ExitMarks(t: Table, c: nat)
    requires Unmarked(t) && OnCpu(t, c) && t.procs[Cur(t, c)].parent.Some?
    ensures Unmarked(AfterExit(t, c))
  {
    hide Any;
    AllMarks(t, AfterExit(t, c));
  }

  lemma ForkMarks(t: Table, c: nat)
    requires Inv(t) && Unmarked(t) && OnCpu(t, c) && t.procs[Cur(t, c)].np.Some?
    ensures t.procs[Cur(t, c)].np.value < |t.procs|
    ensures Unmarked(AfterForkFail(t, c)) <==> !LeavesMark(t, ForkFail(c))
    ensures Unmarked(AfterForkDone(t, c))
  {
    var s, k := ForkOf(t, c);
    hide Inv;
    assert AfterForkFail(t, c).procs[k].killed == t.procs[k].killed;
  }

  /** kill(0) finds the first empty slot; init then starts. */
  lemma KillsEmpty(t: Table, c: nat) returns (t1: Table, t2: Table)
    requires Init(t) && |t.procs| > 1 && c < |t.cpus|
    ensures t1 == AfterKill(t, 0) && t2 == Dispatched(t1, c, INIT) && Next(t, Kill(0), t1) && Next(t1, Dispatch(c), t2)
    ensures |t2.procs| == |t2.asked| > 1 && t2.nextpid == 2 && c < |t2.cpus| && t2.cpus[c] == Some(INIT)
    ensures t2.procs[INIT].state == Running && t2.procs[INIT].np.None? && t2.procs[1].state == Unused && t2.procs[1].killed
  {
    t1 := AfterKill(t, 0);
    assert First(t.procs, HasPid(0)) == 1;
    assert t1.procs[1] == t.procs[1].(killed := true);
    assert Chosen(t1.procs, INIT);
    t2 := Dispatched(t1, c, INIT);
  }

  /** A fork into a marked slot makes a marked child. */
  lemma ForksMarked(t: Table, c: nat) returns (u: Table, v: Table)
    requires |t.procs| == |t.asked| > 1 && c < |t.cpus| && t.cpus[c] == Some(INIT)
    requires t.procs[INIT].state == Running && t.procs[INIT].np.None? && t.procs[1].state == Unused && t.procs[1].killed
    ensures u == AfterForkAlloc(t, c) && Next(t, ForkAlloc(c), u) && Next(u, ForkDone(c), v)
    ensures |v.procs| > 1 && v.procs[1].state == Runnable && v.procs[1].parent == Some(INIT) && v.procs[1].killed
  {
    assert First(t.procs, IsUnused) == 1;
    hide First;
    u := AfterForkAlloc(t, c);
    v := AfterForkDone(u, c);
  }

  lemma FourSteps(t0: Table, t1: Table, t2: Table, t3: Table, t4: Table, a0: Step, a1: Step, a2: Step, a3: Step)
    requires Next(t0, a0, t1) && Next(t1, a1, t2) && Next(t2, a2, t3) && Next(t3, a3, t4)
    ensures Run([t0, t1, t2, t3, t4], [a0, a1, a2, a3])
  {
    hide Next;
  }

  /** From the very start, kill(0) marks an empty slot, and the first fork's child is born killed. */
  lemma KillZero(t: Table, c: nat) returns (u: Table)
    requires Init(t) && |t.procs| > 1 && c < |t.cpus|
    ensures Run([t, AfterKill(t, 0), Dispatched(AfterKill(t, 0), c, INIT),
                 AfterForkAlloc(Dispatched(AfterKill(t, 0), c, INIT), c), u],
                [Kill(0), Dispatch(c), ForkAlloc(c), ForkDone(c)])
    ensures |u.procs| > 1 && u.procs[1].state == Runnable && u.procs[1].parent == Some(INIT) && u.procs[1].killed
  {
    var t1, t2 := KillsEmpty(t, c);
    var t3, t4 := ForksMarked(t2, c);
    u := t4;
    hide *;
    FourSteps(t, t1, t2, t3, t4, Kill(0), Dispatch(c), ForkAlloc(c), ForkDone(c));
  }
}
