/** The history the log protocol keeps is the run's own: which log_writes were made, which survive a
    crash, and how many entries each operation added. */
module LogHistory {
  import opened Blocks
  import opened LogFormat
  import opened LogProtocol
  import opened LogProofs

  /** Neither a log_write nor a crash. */
  predicate Quiet(step: Step) {
    !step.LogAppend? && !step.Crash?
  }

  /** The header write that makes the list durable. */
  predicate Commits(s: State, step: Step) {
    step.CommitWrite? && s.phase.Committing? && s.phase.pc == |s.lh|
  }

  /** What one step does to history and cache: a log_write is recorded and shown, a crash forgets what is
      not durable, and only the header write of commit() makes anything durable. */
  lemma HistoryStep(l: Layout, s: State, step: Step)
    requires Shape(l, s) && Enabled(l, s, step)
    ensures var t := Next(l, s, step);
      && (step.LogAppend? ==> t.hist == s.hist + [Event(step.op, step.bno, step.data)] && t.view == s.view[step.bno := step.data])
      && (step.Crash? ==> t.hist == s.hist[..s.stable] && t.view == s.disk.blocks)
      && (Quiet(step) ==> t.hist == s.hist)
      && t.stable == if Commits(s, step) then |s.hist| else s.stable
  {
  }

  /** A run as its states. */
  ghost predicate IsRun(l: Layout, ss: seq<State>, steps: seq<Step>) {
    |ss| == |steps| + 1
    && forall k :: 0 <= k < |steps| ==> Shape(l, ss[k]) && Enabled(l, ss[k], steps[k]) && ss[k + 1] == Next(l, ss[k], steps[k])
  }

  /** Every run has its states. */
  lemma {:induction false} RunStates(l: Layout, s: State, steps: seq<Step>, t: State) returns (ss: seq<State>)
    requires Reaches(l, s, steps, t)
    ensures IsRun(l, ss, steps) && ss[0] == s && ss[|steps|] == t
    decreases |steps|
  {
    if steps == [] {
      ss := [s];
    } else {
      var rest := RunStates(l, Next(l, s, steps[0]), steps[1..], t);
      ss := [s] + rest;
      forall k | 0 <= k < |steps| ensures Shape(l, ss[k]) && Enabled(l, ss[k], steps[k]) && ss[k + 1] == Next(l, ss[k], steps[k]) {
        if k > 0 {
          assert ss[k] == rest[k - 1] && steps[k] == steps[1..][k - 1] && ss[k + 1] == rest[k - 1 + 1];
        }
      }
    }
  }

  /** The history the first k steps should leave: every log_write since boot, less what each crash lost.
      What a crash keeps is what had been written when commit() last wrote its header. */
  ghost function Kept(ss: seq<State>, steps: seq<Step>, k: nat): seq<Event>
    requires k <= |steps| < |ss|
  {
    if k == 0 then []
    else
      var a, before := steps[k - 1], Kept(ss, steps, k - 1);
      if a.LogAppend? then before + [Event(a.op, a.bno, a.data)]
      else if a.Crash? then Saved(ss, steps, k - 1)
      else before
  }

  /** The history as it was when commit() last wrote its header. */
  ghost function Saved(ss: seq<State>, steps: seq<Step>, k: nat): seq<Event>
    requires k <= |steps| < |ss|
  {
    if k == 0 then []
    else if Commits(ss[k - 1], steps[k - 1]) then Kept(ss, steps, k - 1)
    else Saved(ss, steps, k - 1)
  }

  /** The protocol's history, and the part of it that is durable, are these. */
  lemma {:induction false} HistoryIsRun(l: Layout, base: seq<Block>, ss: seq<State>, steps: seq<Step>, k: nat)
    requires IsRun(l, ss, steps) && Init(l, base, ss[0]) && k <= |steps|
    ensures ss[k].hist == Kept(ss, steps, k)
    ensures ss[k].stable <= |ss[k].hist| && ss[k].hist[..ss[k].stable] == Saved(ss, steps, k)
    decreases k
  {
    if k > 0 {
      HistoryIsRun(l, base, ss, steps, k - 1);
      var s, a := ss[k - 1], steps[k - 1];
      assert ss[k - 1 + 1] == Next(l, s, a) && Shape(l, s);
      HistoryStep(l, s, a);
      hide IsRun, Init, Next, Shape, Enabled;
      var t := ss[k];
      assert s.hist[..|s.hist|] == s.hist;
      assert t.hist[..t.stable] == if Commits(s, a) then s.hist else s.hist[..s.stable];
    }
  }

  /** Whether step a of operation op lists a block that was not listed. */
  predicate AddsEntry(s: State, a: Step, op: nat) {
    a.LogAppend? && a.op == op && a.bno !in s.lh
  }

  /** The entries operation op has added since it began. */
  ghost function Entries(ss: seq<State>, steps: seq<Step>, k: nat, op: nat): nat
    requires k <= |steps| < |ss|
  {
    if k == 0 || steps[k - 1] == BeginOp(op) then 0
    else Entries(ss, steps, k - 1, op) + if AddsEntry(ss[k - 1], steps[k - 1], op) then 1 else 0
  }

  /** The count the protocol keeps of a running operation's entries is this. */
  lemma {:induction false} EntriesAreRun(l: Layout, base: seq<Block>, ss: seq<State>, steps: seq<Step>, k: nat, op: nat)
    requires IsRun(l, ss, steps) && Init(l, base, ss[0]) && k <= |steps| && op in ss[k].active
    ensures ss[k].active[op] == Entries(ss, steps, k, op)
    decreases k
  {
    if k > 0 {
      var s, a := ss[k - 1], steps[k - 1];
      assert ss[k - 1 + 1] == Next(l, s, a) && Shape(l, s) && Enabled(l, s, a);
      ActiveStep(l, s, a, op);
      hide IsRun, Init, Next, Shape, Enabled;
      if a != BeginOp(op) {
        EntriesAreRun(l, base, ss, steps, k - 1, op);
      }
    }
  }

  lemma ActiveStep(l: Layout, s: State, a: Step, op: nat)
    requires Shape(l, s) && Enabled(l, s, a) && op in Next(l, s, a).active
    ensures a == BeginOp(op) || op in s.active
    ensures Next(l, s, a).active[op] == if a == BeginOp(op) then 0 else s.active[op] + if AddsEntry(s, a, op) then 1 else 0
  {
  }

  /** Crash atomicity in the run's own terms: in every run from boot whose appends fit, or of modest
      operations on a long enough log, recovery would give each home block what the log_writes saved by
      the last commit leave there, and while no recovery is going on the cache shows all that are kept. */
  lemma RunAtomicity(l: Layout, base: seq<Block>, s: State, steps: seq<Step>, t: State) returns (ss: seq<State>)
    requires Init(l, base, s) && Reaches(l, s, steps, t) && (Fitting(l, s, steps) || Provided(l, s, steps))
    ensures IsRun(l, ss, steps) && ss[0] == s && ss[|steps|] == t && Inv(l, base, t)
    ensures t.hist == Kept(ss, steps, |steps|) && t.stable <= |t.hist| && t.hist[..t.stable] == Saved(ss, steps, |steps|)
    ensures forall b: nat :: Home(l, b) ==> Redo(l, t.disk, b) == Fold(base, t.hist[..t.stable])[b]
    ensures !t.phase.Recovering? ==> forall b: nat :: Home(l, b) ==> t.view[b] == Fold(base, t.hist)[b]
  {
    ss := RunStates(l, s, steps, t);
    HistoryIsRun(l, base, ss, steps, |steps|);
    CrashAtomicity(l, base, s, steps, t, 0);
    hide Reaches, Fitting, Provided, Init, IsRun, Kept, Saved;
  }
}
