/** Every run of the log protocol is crash-atomic, and its reservations suffice. */
module LogProofs {
  import opened Blocks
  import opened LogFormat
  import opened LogProtocol

  /** Boot: recovery starts on whatever well-formed disk is there; `base` is what it recovers to. */
  ghost predicate Init(l: Layout, base: seq<Block>, s: State) {
    && WellFormed(l, s.disk) && |base| == l.blocks
    && s == State(s.disk, s.disk.blocks, s.disk.header, 0, Recovering(0), map[], {}, {}, [], 0)
    && forall b: nat :: Home(l, b) ==> base[b] == Redo(l, s.disk, b)
  }

  lemma FoldSnoc(base: seq<Block>, es: seq<Event>, e: Event)
    requires forall i :: 0 <= i < |es| ==> es[i].bno < |base|
    requires e.bno < |base|
    ensures Fold(base, es + [e]) == Fold(base, es)[e.bno := e.data]
  {
    assert (es + [e])[..|es|] == es;
  }

  lemma InitInv(l: Layout, base: seq<Block>, s: State)
    requires Init(l, base, s)
    ensures Inv(l, base, s)
  {
  }

  lemma BeginInv(l: Layout, base: seq<Block>, s: State, op: nat)
    requires Inv(l, base, s) && Enabled(l, s, BeginOp(op))
    ensures Inv(l, base, Next(l, s, BeginOp(op)))
  {
    var t := Next(l, s, BeginOp(op));
    assert t.active.Keys == s.active.Keys + {op};
    assert t.hist == s.hist && t.disk == s.disk;
  }

  /** Inside a transaction no commit is in progress, so log_write only ever sees a running log. */
  lemma ActiveMeansRunning(l: Layout, base: seq<Block>, s: State, op: nat)
    requires Inv(l, base, s) && op in s.active
    ensures s.phase.Running? && s.outstanding >= 1
  {
  }

  lemma AppendInv(l: Layout, base: seq<Block>, s: State, op: nat, bno: nat, data: Block)
    requires Inv(l, base, s) && Enabled(l, s, LogAppend(op, bno, data)) && Appends(l, s, LogAppend(op, bno, data))
    ensures Inv(l, base, Next(l, s, LogAppend(op, bno, data)))
  {
    ActiveMeansRunning(l, base, s, op);
    hide Redo;
    var t := Next(l, s, LogAppend(op, bno, data));
    assert t.hist[..t.stable] == s.hist[..s.stable];
    assert Loggable(l, t.lh);
    assert t.active.Keys == s.active.Keys;
    assert Whole(t) && Events(l, t);
    assert Durable(l, base, t);
    assert Shows(l, base, t) by {
      FoldSnoc(base, s.hist, Event(op, bno, data));
    }
    assert Behind(l, t) && Pending(t);
  }

  lemma EndInv(l: Layout, base: seq<Block>, s: State, op: nat)
    requires Inv(l, base, s) && Enabled(l, s, EndOp(op))
    ensures Inv(l, base, Next(l, s, EndOp(op)))
  {
    ActiveMeansRunning(l, base, s, op);
    var t := Next(l, s, EndOp(op));
    assert t.active.Keys == s.active.Keys - {op};
    assert |t.active.Keys| == t.outstanding;
  }

  /** A disk write that keeps what is shown and what is recoverable needs only its phase checked. */
  lemma SameMeaning(l: Layout, base: seq<Block>, s: State, t: State)
    requires Inv(l, base, s) && Sound(l, t) && PhaseInv(l, t)
    requires t == s.(disk := t.disk, view := t.view, phase := t.phase)
    requires t.phase.Recovering? <==> s.phase.Recovering?
    requires forall b: nat :: Home(l, b) ==> Redo(l, t.disk, b) == Redo(l, s.disk, b)
    requires forall b: nat :: Home(l, b) && !s.phase.Recovering? ==> t.view[b] == s.view[b]
    ensures Inv(l, base, t)
  {
  }

  lemma SlotWriteInv(l: Layout, base: seq<Block>, s: State, w: Write)
    requires Inv(l, base, s) && s.phase.Committing? && s.phase.pc < |s.lh|
    requires w == Data(l.start + 1 + s.phase.pc, s.view[s.lh[s.phase.pc]])
    ensures Inv(l, base, AfterWrite(l, s, w, Committing(s.phase.pc + 1)))
  {
    hide Durable, Shows, Whole, Events, Redo;
    var t := AfterWrite(l, s, w, Committing(s.phase.pc + 1));
    SlotWrite(l, s.disk, w);
    assert forall b: nat :: Home(l, b) ==> t.view[b] == s.view[b] && t.disk.blocks[b] == s.disk.blocks[b];
    assert SlotsFilled(l, t, t.phase.pc);
    SameMeaning(l, base, s, t);
  }

  lemma CommitPointInv(l: Layout, base: seq<Block>, s: State, w: Write)
    requires Inv(l, base, s) && s.phase.Committing? && s.phase.pc == |s.lh| > 0 && w.Head? && w.list == s.lh
    ensures Inv(l, base, AfterWrite(l, s, w, Committing(s.phase.pc + 1)).(stable := |s.hist|))
  {
    var t := AfterWrite(l, s, w, Committing(s.phase.pc + 1)).(stable := |s.hist|);
    HeaderWrite(l, s.disk, w, s.view);
    assert t.hist[..t.stable] == s.hist;
    assert Sound(l, t) && Events(l, t);
    assert forall b: nat :: Home(l, b) ==> t.view[b] == s.view[b] && t.disk.blocks[b] == s.disk.blocks[b];
    assert Durable(l, base, t);
    assert SlotsFilled(l, t, |t.lh|) by {
      assert SlotsFilled(l, s, |s.lh|);
    }
    assert PhaseInv(l, t);
  }

  lemma InstallPhase(l: Layout, s: State, i: nat)
    requires Sound(l, s) && PhaseInv(l, s) && i < |s.lh| && s.phase == Committing(|s.lh| + 1 + i)
    ensures var t := AfterWrite(l, s, Data(s.lh[i], s.disk.blocks[l.start + 1 + i]), Committing(|s.lh| + 2 + i));
            Sound(l, t) && PhaseInv(l, t) && t.view == s.view
  {
    var t := AfterWrite(l, s, Data(s.lh[i], s.disk.blocks[l.start + 1 + i]), Committing(|s.lh| + 2 + i));
    assert t.view == s.view;
    assert SlotsFilled(l, t, |t.lh|);
    assert Installed(l, t, i + 1);
  }

  lemma InstallInv(l: Layout, base: seq<Block>, s: State, w: Write)
    requires Inv(l, base, s) && s.phase.Committing? && |s.lh| < s.phase.pc <= 2 * |s.lh|
    requires w == Data(s.lh[s.phase.pc - |s.lh| - 1], s.disk.blocks[l.start + s.phase.pc - |s.lh|])
    ensures Inv(l, base, AfterWrite(l, s, w, Committing(s.phase.pc + 1)))
  {
    var i := s.phase.pc - |s.lh| - 1;
    assert s.disk.header == s.lh;
    hide PhaseInv, Durable, Shows, Whole, Events, Redo, Apply;
    InstallPhase(l, s, i);
    InstallWrite(l, s.disk, i);
    var t := AfterWrite(l, s, w, Committing(s.phase.pc + 1));
    assert t.disk == Apply(l, s.disk, w) && t.view == s.view;
    hide WellFormed, Shape, Sound, Inv;
    SameMeaning(l, base, s, t);
  }

  lemma ClearInv(l: Layout, base: seq<Block>, s: State, w: Write)
    requires Inv(l, base, s) && s.phase.Committing? && s.phase.pc == 2 * |s.lh| + 1 && |s.lh| > 0 && w.Head? && w.list == []
    ensures Inv(l, base, AfterWrite(l, s, w, Committing(s.phase.pc + 1)))
  {
    var t := AfterWrite(l, s, w, Committing(s.phase.pc + 1));
    ClearWrite(l, s.disk, w);
    assert Durable(l, base, t);
    forall b: nat | Home(l, b) ensures t.view[b] == t.disk.blocks[b] {
      if b in s.lh {
        var i :| 0 <= i < |s.lh| && s.lh[i] == b;
      }
    }
  }

  lemma OtherCommitWriteInv(l: Layout, base: seq<Block>, s: State, w: Write)
    requires Inv(l, base, s) && Enabled(l, s, CommitWrite(w)) && s.phase.pc != |s.lh|
    ensures Inv(l, base, AfterWrite(l, s, w, Committing(s.phase.pc + 1)))
  {
    if s.phase.pc < |s.lh| {
      SlotWriteInv(l, base, s, w);
    } else if s.phase.pc <= 2 * |s.lh| {
      InstallInv(l, base, s, w);
    } else {
      ClearInv(l, base, s, w);
    }
  }

  lemma CommitWriteInv(l: Layout, base: seq<Block>, s: State, w: Write)
    requires Inv(l, base, s) && Enabled(l, s, CommitWrite(w))
    ensures Inv(l, base, Next(l, s, CommitWrite(w)))
  {
    var t := Next(l, s, CommitWrite(w));
    if s.phase.pc == |s.lh| {
      assert t == AfterWrite(l, s, w, Committing(s.phase.pc + 1)).(stable := |s.hist|);
      CommitPointInv(l, base, s, w);
    } else {
      assert t == AfterWrite(l, s, w, Committing(s.phase.pc + 1));
      OtherCommitWriteInv(l, base, s, w);
    }
  }

  lemma CommitDoneInv(l: Layout, base: seq<Block>, s: State)
    requires Inv(l, base, s) && Enabled(l, s, CommitDone)
    ensures Inv(l, base, Next(l, s, CommitDone))
    ensures Next(l, s, CommitDone).stable == |s.hist|
  {
    var next := if s.stable < |s.hist| then s.hist[s.stable].bno else 0;
    assert s.phase.pc <= |s.lh| && s.stable < |s.hist| ==> next in s.lh;
  }

  lemma RecoverInstallInv(l: Layout, base: seq<Block>, s: State)
    requires Inv(l, base, s) && s.phase.Recovering? && s.phase.pc < |s.lh|
    ensures Inv(l, base, AfterWrite(l, s, Data(s.lh[s.phase.pc], s.disk.blocks[l.start + 1 + s.phase.pc]),
                                    Recovering(s.phase.pc + 1)))
  {
    var i := s.phase.pc;
    var t := AfterWrite(l, s, Data(s.lh[i], s.disk.blocks[l.start + 1 + i]), Recovering(i + 1));
    InstallWrite(l, s.disk, i);
    assert Durable(l, base, t);
    assert Installed(l, t, i + 1);
  }

  lemma RecoverClearInv(l: Layout, base: seq<Block>, s: State, w: Write)
    requires Inv(l, base, s) && s.phase.Recovering? && s.phase.pc == |s.lh| && w.Head? && w.list == []
    ensures Inv(l, base, AfterWrite(l, s, w, Recovering(s.phase.pc + 1)))
  {
    var t := AfterWrite(l, s, w, Recovering(s.phase.pc + 1));
    ClearWrite(l, s.disk, w);
    assert Durable(l, base, t);
  }

  lemma RecoverWriteInv(l: Layout, base: seq<Block>, s: State, w: Write)
    requires Inv(l, base, s) && Enabled(l, s, RecoverWrite(w))
    ensures Inv(l, base, Next(l, s, RecoverWrite(w)))
  {
    if s.phase.pc < |s.lh| {
      RecoverInstallInv(l, base, s);
    } else {
      RecoverClearInv(l, base, s, w);
    }
  }

  /** A finished recovery has put every durable log_write home and emptied the log. */
  lemma RecoverDoneInv(l: Layout, base: seq<Block>, s: State)
    requires Inv(l, base, s) && Enabled(l, s, RecoverDone)
    ensures Inv(l, base, Next(l, s, RecoverDone))
    ensures s.disk.header == []
    ensures forall b: nat :: Home(l, b) ==> s.disk.blocks[b] == Fold(base, s.hist)[b]
  {
    assert s.hist[..s.stable] == s.hist;
  }

  lemma CrashInv(l: Layout, base: seq<Block>, s: State)
    requires Inv(l, base, s)
    ensures Inv(l, base, Next(l, s, Crash))
  {
    var t := Next(l, s, Crash);
    assert t.hist[..t.stable] == s.hist[..s.stable];
    assert Durable(l, base, t);
  }

  lemma CheckInv(l: Layout, base: seq<Block>, s: State, op: nat)
    requires Inv(l, base, s) && Enabled(l, s, LogCheck(op))
    ensures Inv(l, base, Next(l, s, LogCheck(op)))
  {
    var t := Next(l, s, LogCheck(op));
    assert t.hist == s.hist && t.disk == s.disk;
  }

  /** Every step keeps the invariant, an append that outgrows the log and nothing else excepted. */
  lemma StepInv(l: Layout, base: seq<Block>, s: State, step: Step)
    requires Inv(l, base, s) && Enabled(l, s, step)
    ensures Inv(l, base, Next(l, s, step)) <==> Appends(l, s, step)
  {
    match step
    case BeginOp(op) => BeginInv(l, base, s, op);
    case LogCheck(op) => CheckInv(l, base, s, op);
    case LogAppend(op, bno, data) =>
      if Appends(l, s, step) {
        AppendInv(l, base, s, op, bno, data);
      }
    case EndOp(op) => EndInv(l, base, s, op);
    case CommitWrite(w) => CommitWriteInv(l, base, s, w);
    case CommitDone => CommitDoneInv(l, base, s);
    case RecoverWrite(w) => RecoverWriteInv(l, base, s, w);
    case RecoverDone => RecoverDoneInv(l, base, s);
    case Crash => CrashInv(l, base, s);
  }

  // ---- whole runs ----

  ghost predicate Reaches(l: Layout, s: State, steps: seq<Step>, t: State)
    decreases |steps|
  {
    if steps == [] then s == t
    else Shape(l, s) && Enabled(l, s, steps[0]) && Reaches(l, Next(l, s, steps[0]), steps[1..], t)
  }

  /** No append of the run outgrows the log. */
  ghost predicate Fitting(l: Layout, s: State, steps: seq<Step>)
    decreases |steps|
  {
    steps != [] && Shape(l, s) && Enabled(l, s, steps[0]) ==>
      Appends(l, s, steps[0]) && Fitting(l, Next(l, s, steps[0]), steps[1..])
  }

  lemma {:induction false} RunInv(l: Layout, base: seq<Block>, s: State, steps: seq<Step>, t: State)
    requires Inv(l, base, s) && Reaches(l, s, steps, t) && Fitting(l, s, steps)
    ensures Inv(l, base, t)
    decreases |steps|
  {
    if steps != [] {
      StepInv(l, base, s, steps[0]);
      RunInv(l, base, Next(l, s, steps[0]), steps[1..], t);
    }
  }

  lemma {:induction false} ReachesThen(l: Layout, s: State, a: seq<Step>, m: State, b: seq<Step>, t: State)
    requires Reaches(l, s, a, m) && Reaches(l, m, b, t)
    ensures Reaches(l, s, a + b, t)
    decreases |a|
  {
    if a == [] {
      assert a + b == b;
    } else {
      assert (a + b)[1..] == a[1..] + b;
      ReachesThen(l, Next(l, s, a[0]), a[1..], m, b, t);
    }
  }

  lemma ReachesOne(l: Layout, s: State, step: Step)
    requires Shape(l, s) && Enabled(l, s, step)
    ensures Reaches(l, s, [step], Next(l, s, step))
  {
    assert [step][1..] == [];
  }

  /** The log is longer than the reservations it backs, and operations keep to theirs. */
  ghost predicate Provided(l: Layout, s: State, steps: seq<Step>) {
    l.size > LOGSIZE && Modest(l, s, steps)
  }

  /** In every interleaving that never outgrows the log, and so in every one with a long enough log
      and modest operations: what the disk would recover to is the effect of a set of whole,
      finished operations, and the cache shows the effect of all of them. */
  lemma CrashAtomicity(l: Layout, base: seq<Block>, s: State, steps: seq<Step>, t: State, op: nat)
    requires Init(l, base, s) && Reaches(l, s, steps, t) && (Fitting(l, s, steps) || Provided(l, s, steps))
    ensures Inv(l, base, t)
    ensures forall b: nat :: Home(l, b) ==> Redo(l, t.disk, b) == Fold(base, t.hist[..t.stable])[b]
    ensures !t.phase.Recovering? ==> forall b: nat :: Home(l, b) ==> t.view[b] == Fold(base, t.hist)[b]
    ensures (forall i :: 0 <= i < |t.hist| && t.hist[i].op == op ==> i < t.stable)
         || (forall i :: 0 <= i < |t.hist| && t.hist[i].op == op ==> t.stable <= i)
    ensures op in t.active ==> forall i :: 0 <= i < |t.hist| && t.hist[i].op == op ==> t.stable <= i
  {
    InitRun(l, base, s, steps, t);
  }

  lemma InitRun(l: Layout, base: seq<Block>, s: State, steps: seq<Step>, t: State)
    requires Init(l, base, s) && Reaches(l, s, steps, t) && (Fitting(l, s, steps) || Provided(l, s, steps))
    ensures Inv(l, base, t)
  {
    InitInv(l, base, s);
    if Fitting(l, s, steps) {
      RunInv(l, base, s, steps, t);
    } else {
      ReservationsSuffice(l, base, s, steps, t);
    }
  }

  /** Group commit: while committing no operation is outstanding, so end_op never panics and
      no log_write is possible; once commit() is over, the disk holds all that was shown. */
  lemma GroupCommit(l: Layout, base: seq<Block>, s: State, steps: seq<Step>, t: State)
    requires Init(l, base, s) && Reaches(l, s, steps, t) && (Fitting(l, s, steps) || Provided(l, s, steps))
    ensures Inv(l, base, t)
    ensures t.phase.Committing? ==> t.outstanding == 0 && t.active == map[] && t.checked == {}
    ensures forall op :: op in t.active ==> !EndOpPanics(t) && t.phase.Running?
    ensures t.phase.Running? && t.lh == [] ==>
              t.stable == |t.hist| && forall b: nat :: Home(l, b) ==> t.disk.blocks[b] == t.view[b]
  {
    InitRun(l, base, s, steps, t);
    var next := if t.stable < |t.hist| then t.hist[t.stable].bno else 0;
    assert t.phase.Running? && t.stable < |t.hist| ==> next in t.lh;
  }

  /** No log_write begins while another is between its test and its append. */
  ghost predicate Serial(l: Layout, s: State, steps: seq<Step>)
    decreases |steps|
  {
    steps != [] && Shape(l, s) && Enabled(l, s, steps[0]) ==>
      (steps[0].LogCheck? ==> s.checked == {}) && Serial(l, Next(l, s, steps[0]), steps[1..])
  }

  /** The tests of the one log_write in progress still hold. */
  ghost predicate StillTrue(l: Layout, s: State) {
    s.checked != {} ==> Room(l, |s.lh| + 1) && forall p, q :: p in s.checked && q in s.checked ==> p == q
  }

  /** Then its tests are enough, for any log and any operations. */
  lemma {:induction false} SerialFits(l: Layout, base: seq<Block>, s: State, steps: seq<Step>)
    requires Inv(l, base, s) && StillTrue(l, s) && Serial(l, s, steps)
    ensures Fitting(l, s, steps)
    decreases |steps|
  {
    if steps != [] && Enabled(l, s, steps[0]) {
      StepInv(l, base, s, steps[0]);
      SerialStep(l, base, s, steps[0]);
      SerialFits(l, base, Next(l, s, steps[0]), steps[1..]);
    }
  }

  lemma SerialStep(l: Layout, base: seq<Block>, s: State, step: Step)
    requires Inv(l, base, s) && StillTrue(l, s) && Enabled(l, s, step) && (step.LogCheck? ==> s.checked == {})
    ensures Appends(l, s, step) && StillTrue(l, Next(l, s, step))
  {
    hide Durable, Shows, Whole, Events, WellFormed, Listable;
    var t := Next(l, s, step);
    match step
    case LogAppend(op, _, _) => assert t.checked == {} by {
        assert forall p :: p in s.checked ==> p == op;
      }
    case CommitDone => assert s.checked == {};
    case RecoverDone => assert s.checked == {};
    case _ =>
  }

  /** Crashes, restarted recoveries, and nothing else. */
  predicate RecoveryOnly(steps: seq<Step>) {
    forall i :: 0 <= i < |steps| ==> steps[i].Crash? || steps[i].RecoverWrite? || steps[i].RecoverDone?
  }

  lemma {:induction false} RecoveryKeepsHistory(l: Layout, base: seq<Block>, s: State, steps: seq<Step>, t: State)
    requires Inv(l, base, s) && s.stable == |s.hist|
    requires Reaches(l, s, steps, t) && RecoveryOnly(steps)
    ensures Inv(l, base, t) && t.hist == s.hist && t.stable == s.stable
    decreases |steps|
  {
    if steps != [] {
      StepInv(l, base, s, steps[0]);
      assert s.hist[..s.stable] == s.hist;
      RecoveryKeepsHistory(l, base, Next(l, s, steps[0]), steps[1..], t);
    }
  }

  /** However often recovery itself is cut short, a run of it that completes leaves every home
      block at its durable value and the log empty. */
  lemma RepeatedRecovery(l: Layout, base: seq<Block>, s: State, steps: seq<Step>, t: State)
    requires Inv(l, base, s)
    requires Reaches(l, s, [Crash] + steps, t) && RecoveryOnly(steps) && t.phase.Running?
    ensures Inv(l, base, t) && t.disk.header == [] && t.hist == s.hist[..s.stable]
    ensures forall b: nat :: Home(l, b) ==> t.disk.blocks[b] == Fold(base, s.hist[..s.stable])[b]
  {
    CrashInv(l, base, s);
    assert ([Crash] + steps)[1..] == steps;
    RecoveryKeepsHistory(l, base, Next(l, s, Crash), steps, t);
    assert t.hist[..t.stable] == t.hist;
    forall b: nat | Home(l, b) ensures t.disk.blocks[b] == Redo(l, t.disk, b) {
      RedoMeaning(l, t.disk, b);
    }
  }

  predicate CommitOnly(steps: seq<Step>) {
    forall i :: 0 <= i < |steps| ==> steps[i].CommitWrite?
  }

  lemma {:induction false} CommitProgress(l: Layout, base: seq<Block>, s: State, steps: seq<Step>, t: State)
    requires Inv(l, base, s) && s.phase.Committing?
    requires Reaches(l, s, steps, t) && CommitOnly(steps)
    ensures Inv(l, base, t) && t.hist == s.hist && t.lh == s.lh
    ensures t.phase == Committing(s.phase.pc + |steps|)
    ensures t.stable == (if s.phase.pc <= |s.lh| < s.phase.pc + |steps| then |s.hist| else s.stable)
    ensures s.phase.pc + |steps| <= |s.lh| ==> forall b: nat :: Home(l, b) ==> t.disk.blocks[b] == s.disk.blocks[b]
    decreases |steps|
  {
    hide Inv, Enabled, Next, Shape;
    InvShape(l, base, s);
    if steps != [] {
      StepInv(l, base, s, steps[0]);
      CommitOne(l, base, s, steps[0]);
      CommitProgress(l, base, Next(l, s, steps[0]), steps[1..], t);
    }
  }

  lemma InvShape(l: Layout, base: seq<Block>, s: State)
    requires Inv(l, base, s)
    ensures Shape(l, s) && |s.disk.blocks| == l.blocks
  {
  }

  lemma CommitOne(l: Layout, base: seq<Block>, s: State, step: Step)
    requires Inv(l, base, s) && Enabled(l, s, step) && step.CommitWrite?
    ensures var m := Next(l, s, step);
      && m.hist == s.hist && m.lh == s.lh && m.phase == Committing(s.phase.pc + 1) && |m.disk.blocks| == |s.disk.blocks| == l.blocks
      && m.stable == (if s.phase.pc == |s.lh| then |s.hist| else s.stable)
      && (s.phase.pc < |s.lh| ==> forall b: nat :: Home(l, b) ==> m.disk.blocks[b] == s.disk.blocks[b])
  {
    hide Durable, Shows, Whole, Events, PhaseInv, Redo;
  }

  /** Crash inside commit(): with at most n of its 2n+2 writes done the next completed recovery
      gives every home block its old contents, with more it gives every one its new contents. */
  lemma CommitAllOrNothing(l: Layout, base: seq<Block>, s: State, writes: seq<Step>, c: State,
                           steps: seq<Step>, t: State)
    requires Inv(l, base, s) && s.phase == Committing(0) && s.lh != []
    requires Reaches(l, s, writes, c) && CommitOnly(writes)
    requires Reaches(l, c, [Crash] + steps, t) && RecoveryOnly(steps) && t.phase.Running?
    ensures Inv(l, base, t) && Inv(l, base, c) && t.disk.header == []
    ensures |writes| <= |s.lh| ==> forall b: nat :: Home(l, b) ==> t.disk.blocks[b] == c.disk.blocks[b] == s.disk.blocks[b]
    ensures |writes| > |s.lh| ==> forall b: nat :: Home(l, b) ==> t.disk.blocks[b] == s.view[b]
  {
    CommitProgress(l, base, s, writes, c);
    RepeatedRecovery(l, base, c, steps, t);
    assert s.hist[..|s.hist|] == s.hist;
    forall b: nat | Home(l, b) ensures Redo(l, s.disk, b) == s.disk.blocks[b] {
      RedoMeaning(l, s.disk, b);
    }
  }

  // ---- reservations ----

  /** Log entries the running operations may still add. */
  ghost function Unused(active: map<nat, nat>): nat
    decreases |active|
  {
    if active == map[] then 0
    else
      var op :| op in active;
      assert |active - {op}| < |active| by { assert (active - {op}).Keys == active.Keys - {op}; }
      Rest(active[op]) + Unused(active - {op})
  }

  ghost function Rest(k: nat): nat {
    if k <= MAXOPBLOCKS then MAXOPBLOCKS - k else 0
  }

  lemma {:induction false} UnusedSplit(active: map<nat, nat>, op: nat)
    requires op in active
    ensures Unused(active) == Rest(active[op]) + Unused(active - {op})
    decreases |active|
  {
    var x :| x in active && Unused(active) == Rest(active[x]) + Unused(active - {x});
    if x != op {
      assert (active - {x}).Keys == active.Keys - {x};
      UnusedSplit(active - {x}, op);
      assert (active - {op}).Keys == active.Keys - {op};
      UnusedSplit(active - {op}, x);
      assert active - {x} - {op} == active - {op} - {x};
    }
  }

  lemma {:induction false} UnusedBound(active: map<nat, nat>)
    ensures Unused(active) <= MAXOPBLOCKS * |active|
    decreases |active|
  {
    if active != map[] {
      var x :| x in active;
      UnusedSplit(active, x);
      assert (active - {x}).Keys == active.Keys - {x};
      UnusedBound(active - {x});
    }
  }

  lemma UnusedUpdate(active: map<nat, nat>, op: nat, k: nat)
    ensures Unused(active[op := k]) + (if op in active then Rest(active[op]) else 0) == Unused(active) + Rest(k)
  {
    UnusedSplit(active[op := k], op);
    assert active[op := k] - {op} == active - {op};
    if op in active {
      UnusedSplit(active, op);
    } else {
      assert active - {op} == active;
    }
  }

  /** Every operation adds at most MAXOPBLOCKS entries. */
  ghost predicate Modest(l: Layout, s: State, steps: seq<Step>)
    decreases |steps|
  {
    steps != [] && Shape(l, s) && Enabled(l, s, steps[0]) ==>
      Keeps(s, steps[0]) && Modest(l, Next(l, s, steps[0]), steps[1..])
  }

  predicate Keeps(s: State, step: Step) {
    step.LogAppend? && step.op in s.active && step.bno !in s.lh ==> s.active[step.op] < MAXOPBLOCKS
  }

  ghost predicate Reserved(s: State) {
    s.phase.Running? ==> |s.lh| + Unused(s.active) <= LOGSIZE
  }

  /** What the test of begin_op keeps for log_write, whatever the size of the log. */
  ghost predicate Counted(s: State) {
    && s.outstanding == |s.active| && s.active.Keys <= s.used && (s.active != map[] ==> s.phase.Running?)
    && |s.lh| <= LOGSIZE && Reserved(s)
  }

  lemma ShapeLengths(l: Layout, s: State)
    requires Shape(l, s)
    ensures |s.disk.blocks| == l.blocks && |s.disk.header| <= LOGSIZE
  {
  }

  lemma BeginCounted(l: Layout, s: State, op: nat)
    requires Shape(l, s) && Enabled(l, s, BeginOp(op)) && Counted(s)
    ensures Counted(Next(l, s, BeginOp(op)))
  {
    hide Unused, Shape;
    var t := Next(l, s, BeginOp(op));
    assert t.active.Keys == s.active.Keys + {op};
    UnusedBound(s.active);
    UnusedUpdate(s.active, op, 0);
  }

  /** A modest append has a reserved place, whatever passed its test meanwhile. */
  lemma AppendCounted(l: Layout, s: State, step: Step)
    requires Shape(l, s) && step.LogAppend? && Enabled(l, s, step) && Counted(s) && Keeps(s, step)
    ensures Counted(Next(l, s, step))
    ensures l.size > LOGSIZE ==> Appends(l, s, step)
  {
    hide Unused, Shape, Home;
    var op, k := step.op, Next(l, s, step).active[step.op];
    assert s.active[op := k].Keys == s.active.Keys;
    UnusedUpdate(s.active, op, k);
    UnusedSplit(s.active, op);
  }

  lemma EndCounted(l: Layout, s: State, op: nat)
    requires Shape(l, s) && Enabled(l, s, EndOp(op)) && Counted(s)
    ensures Counted(Next(l, s, EndOp(op)))
  {
    hide Unused, Shape;
    assert (s.active - {op}).Keys == s.active.Keys - {op};
    UnusedSplit(s.active, op);
  }

  lemma StepCounted(l: Layout, s: State, step: Step)
    requires Shape(l, s) && Enabled(l, s, step) && Counted(s) && Keeps(s, step)
    ensures Counted(Next(l, s, step))
    ensures l.size > LOGSIZE ==> Appends(l, s, step)
  {
    ShapeLengths(l, s);
    match step
    case BeginOp(op) => BeginCounted(l, s, op);
    case LogAppend(_, _, _) => AppendCounted(l, s, step);
    case EndOp(op) => EndCounted(l, s, op);
    case _ =>
      hide Unused, Shape, IsCommitWrite, IsRecoverWrite;
      UnusedBound(s.active);
  }

  /** lh.n plus all unused reservations never exceeds LOGSIZE: for a log of any size, in every
      interleaving of operations that keep to MAXOPBLOCKS, even one that has outgrown its log. */
  lemma {:induction false} ReservationBound(l: Layout, s: State, steps: seq<Step>, t: State)
    requires Counted(s) && Reaches(l, s, steps, t) && Modest(l, s, steps)
    ensures Counted(t)
    ensures |t.lh| <= LOGSIZE && (t.phase.Running? ==> |t.lh| + Unused(t.active) <= LOGSIZE)
    decreases |steps|
  {
    if steps != [] {
      StepCounted(l, s, steps[0]);
      ReservationBound(l, Next(l, s, steps[0]), steps[1..], t);
    }
  }

  lemma InvCounted(l: Layout, base: seq<Block>, s: State)
    requires Inv(l, base, s) && Reserved(s)
    ensures Counted(s)
  {
  }

  /** With more than LOGSIZE log blocks no interleaving of operations that keep to MAXOPBLOCKS
      outgrows the log, and none that has entries left is refused by log_write. */
  lemma {:induction false} ReservationsSuffice(l: Layout, base: seq<Block>, s: State, steps: seq<Step>, t: State)
    requires Inv(l, base, s) && Reserved(s) && Reaches(l, s, steps, t) && Provided(l, s, steps)
    ensures Inv(l, base, t) && Reserved(t) && Fitting(l, s, steps)
    ensures forall op :: op in t.active && t.active[op] < MAXOPBLOCKS ==> !LogWritePanics(l, t)
    decreases |steps|
  {
    if steps != [] {
      InvCounted(l, base, s);
      StepCounted(l, s, steps[0]);
      StepInv(l, base, s, steps[0]);
      ReservationsSuffice(l, base, Next(l, s, steps[0]), steps[1..], t);
    } else {
      forall op | op in t.active && t.active[op] < MAXOPBLOCKS ensures !LogWritePanics(l, t) {
        UnusedSplit(t.active, op);
      }
    }
  }
}
