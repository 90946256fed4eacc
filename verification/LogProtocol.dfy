/** Group commit and crash recovery (log.c) as a machine whose steps are the sections run under
    log.lock and the single block writes of commit() and recover_from_log().  log_write tests the
    list's length before it takes log.lock, so its test and its append are two steps.  A crash may
    fall between any two steps, recovery included. */
module LogProtocol {
  import opened Blocks
  import opened LogFormat

  /** One log_write: operation `op` gives block `bno` the contents `data`. */
  datatype Event = Event(op: nat, bno: nat, data: Block)

  /** `pc` counts the block writes already issued by commit() or recover_from_log(). */
  datatype Phase = Running | Committing(pc: nat) | Recovering(pc: nat)

  /** `view` is the block map the buffer cache shows; `active` maps each operation between
      begin_op and end_op to the number of log entries it added, and `checked` are those past the
      tests of a log_write that have not appended yet.  `used`, `hist` and `stable`
      are history: operation numbers handed out, the log_writes so far, and how many of those
      the last header write made durable. */
  datatype State = State(
    disk: Disk, view: seq<Block>, lh: seq<nat>, outstanding: nat, phase: Phase,
    active: map<nat, nat>, checked: set<nat>, used: set<nat>, hist: seq<Event>, stable: nat)

  datatype Step =
    | BeginOp(op: nat)
    | LogCheck(op: nat)
    | LogAppend(op: nat, bno: nat, data: Block)
    | EndOp(op: nat)
    | CommitWrite(w: Write)
    | CommitDone
    | RecoverWrite(w: Write)
    | RecoverDone
    | Crash

  // ---- the code ----

  /** begin_op sleeps unless this holds. */
  predicate MayBegin(s: State) {
    s.phase.Running? && |s.lh| + (s.outstanding + 1) * MAXOPBLOCKS <= LOGSIZE
  }

  /** The two panics of log_write. */
  predicate LogWritePanics(l: Layout, s: State) {
    |s.lh| >= LOGSIZE || |s.lh| >= l.size - 1 || s.outstanding < 1
  }

  predicate EndOpPanics(s: State) {
    s.phase.Committing?
  }

  /** Log absorption: a block already listed is not listed twice. */
  function Absorb(lh: seq<nat>, bno: nat): (r: seq<nat>)
    ensures bno in r
    ensures forall b :: b in r <==> b in lh || b == bno
  {
    if bno in lh then lh else lh + [bno]
  }

  function CommitLength(n: nat): nat {
    if n == 0 then 0 else 2 * n + 2
  }

  /** `w` is the pc-th block write of commit(): the log slots, the header, the home blocks, the
      empty header.  write_head keeps what the header block held beyond the list. */
  ghost predicate IsCommitWrite(l: Layout, disk: Disk, view: seq<Block>, lh: seq<nat>, pc: nat, w: Write)
    requires Fits(l) && |disk.blocks| == |view| == l.blocks && Listable(l, lh) && pc < CommitLength(|lh|)
  {
    var n := |lh|;
    if pc < n then w == Data(l.start + 1 + pc, view[lh[pc]])
    else if pc == n then w.Head? && w.list == lh
    else if pc <= 2 * n then l.start + pc - n < l.blocks && w == Data(lh[pc - n - 1], disk.blocks[l.start + pc - n])
    else w.Head? && w.list == []
  }

  /** `w` is the pc-th block write of recover_from_log(). */
  ghost predicate IsRecoverWrite(l: Layout, disk: Disk, lh: seq<nat>, pc: nat, w: Write)
    requires Fits(l) && |disk.blocks| == l.blocks && Listable(l, lh) && pc <= |lh|
  {
    if pc < |lh| then l.start + 1 + pc < l.blocks && w == Data(lh[pc], disk.blocks[l.start + 1 + pc])
    else w.Head? && w.list == []
  }

  /** What the steps need; the list may have outgrown the log. */
  ghost predicate Shape(l: Layout, s: State) {
    WellFormed(l, s.disk) && |s.view| == l.blocks && Listable(l, s.lh) && s.stable <= |s.hist|
  }

  /** log_write asks of its callers only that they sit between begin_op and end_op. */
  ghost predicate Enabled(l: Layout, s: State, step: Step)
    requires Shape(l, s)
  {
    match step
    case BeginOp(op) => MayBegin(s) && op !in s.used
    case LogCheck(op) => op in s.active && op !in s.checked && !LogWritePanics(l, s)
    case LogAppend(op, bno, _) => op in s.checked && op in s.active && Home(l, bno)
    case EndOp(op) => op in s.active && op !in s.checked && !EndOpPanics(s) && s.outstanding >= 1
    case CommitWrite(w) =>
      && s.phase.Committing? && s.phase.pc < CommitLength(|s.lh|)
      && IsCommitWrite(l, s.disk, s.view, s.lh, s.phase.pc, w) && Target(l, w) < l.blocks
    case CommitDone => s.phase.Committing? && s.phase.pc == CommitLength(|s.lh|)
    case RecoverWrite(w) =>
      && s.phase.Recovering? && s.phase.pc <= |s.lh|
      && IsRecoverWrite(l, s.disk, s.lh, s.phase.pc, w)
    case RecoverDone => s.phase.Recovering? && s.phase.pc == |s.lh| + 1
    case Crash => true
  }

  function AfterWrite(l: Layout, s: State, w: Write, phase: Phase): State
    requires Target(l, w) < |s.disk.blocks| == |s.view|
  {
    s.(disk := Apply(l, s.disk, w), view := s.view[Target(l, w) := w.data], phase := phase)
  }

  ghost function Next(l: Layout, s: State, step: Step): State
    requires Shape(l, s) && Enabled(l, s, step)
  {
    match step
    case BeginOp(op) =>
      s.(outstanding := s.outstanding + 1, active := s.active[op := 0], used := s.used + {op})
    case LogCheck(op) => s.(checked := s.checked + {op})
    case LogAppend(op, bno, data) =>
      var added := if bno in s.lh then 0 else 1;
      s.(lh := Absorb(s.lh, bno), view := s.view[bno := data],
         active := s.active[op := s.active[op] + added], checked := s.checked - {op},
         hist := s.hist + [Event(op, bno, data)])
    case EndOp(op) =>
      var t := s.(outstanding := s.outstanding - 1, active := s.active - {op});
      if t.outstanding == 0 then t.(phase := Committing(0)) else t
    case CommitWrite(w) =>
      var t := AfterWrite(l, s, w, Committing(s.phase.pc + 1));
      if s.phase.pc == |s.lh| then t.(stable := |s.hist|) else t
    case CommitDone => s.(phase := Running, lh := [])
    case RecoverWrite(w) =>
      AfterWrite(l, s, w, Recovering(s.phase.pc + 1))
    case RecoverDone => s.(phase := Running, lh := [])
    case Crash =>
      s.(view := s.disk.blocks, lh := s.disk.header, outstanding := 0, phase := Recovering(0),
         active := map[], checked := {}, hist := s.hist[..s.stable])
  }

  // ---- the meaning ----

  /** The list fits the log. */
  ghost predicate Sound(l: Layout, s: State) {
    Shape(l, s) && Loggable(l, s.lh)
  }

  /** An append leaves the list within the log. */
  predicate Appends(l: Layout, s: State, step: Step) {
    step.LogAppend? ==> Room(l, |Absorb(s.lh, step.bno)|)
  }

  /** The block map after a list of log_writes. */
  ghost function Fold(base: seq<Block>, es: seq<Event>): (d: seq<Block>)
    requires forall i :: 0 <= i < |es| ==> es[i].bno < |base|
    ensures |d| == |base|
  {
    if es == [] then base
    else var e := es[|es| - 1]; Fold(base, es[..|es| - 1])[e.bno := e.data]
  }

  ghost predicate Events(l: Layout, s: State) {
    forall i :: 0 <= i < |s.hist| ==> s.hist[i].bno < l.blocks && s.hist[i].op in s.used
  }

  /** No operation is split by the durable prefix, and no durable operation is still running. */
  ghost predicate Whole(s: State)
    requires s.stable <= |s.hist|
  {
    && (forall i :: 0 <= i < s.stable ==> s.hist[i].op !in s.active)
    && (forall i, j :: 0 <= i < s.stable <= j < |s.hist| ==> s.hist[i].op != s.hist[j].op)
  }

  /** Recovering the disk as it is now gives exactly the durable log_writes. */
  ghost predicate Durable(l: Layout, base: seq<Block>, s: State)
    requires Shape(l, s) && Events(l, s) && |base| == l.blocks
  {
    forall b: nat :: Home(l, b) ==> Redo(l, s.disk, b) == Fold(base, s.hist[..s.stable])[b]
  }

  /** The cache shows every log_write so far. */
  ghost predicate Shows(l: Layout, base: seq<Block>, s: State)
    requires Shape(l, s) && Events(l, s) && |base| == l.blocks
  {
    forall b: nat :: Home(l, b) ==> s.view[b] == Fold(base, s.hist)[b]
  }

  /** Only listed blocks differ between cache and disk. */
  ghost predicate Behind(l: Layout, s: State)
    requires Shape(l, s)
  {
    forall b: nat :: Home(l, b) && b !in s.lh ==> s.view[b] == s.disk.blocks[b]
  }

  /** Everything not yet durable is listed. */
  ghost predicate Pending(s: State)
    requires s.stable <= |s.hist|
  {
    forall j :: s.stable <= j < |s.hist| ==> s.hist[j].bno in s.lh
  }

  ghost predicate SlotsFilled(l: Layout, s: State, n: nat)
    requires Sound(l, s) && n <= |s.lh|
  {
    forall i :: 0 <= i < n ==> s.disk.blocks[l.start + 1 + i] == s.view[s.lh[i]]
  }

  ghost predicate Installed(l: Layout, s: State, n: nat)
    requires Sound(l, s) && n <= |s.lh|
  {
    forall i :: 0 <= i < n ==> s.disk.blocks[s.lh[i]] == s.disk.blocks[l.start + 1 + i]
  }

  ghost predicate PhaseInv(l: Layout, s: State)
    requires Sound(l, s)
  {
    var listed := s.disk.header;
    var n := |s.lh|;
    match s.phase
    case Running => listed == [] && Behind(l, s) && Pending(s)
    case Committing(pc) =>
      && s.active == map[] && Behind(l, s) && pc <= CommitLength(n)
      && (pc <= n ==> listed == [] && Pending(s) && SlotsFilled(l, s, pc))
      && (n < pc <= 2 * n + 1 ==>
            listed == s.lh && s.stable == |s.hist| && SlotsFilled(l, s, n) && Installed(l, s, pc - n - 1))
      && (pc == 2 * n + 2 ==> listed == [] && s.stable == |s.hist| && forall b: nat :: Home(l, b) ==> s.view[b] == s.disk.blocks[b])
    case Recovering(pc) =>
      && s.active == map[] && s.stable == |s.hist| && s.view == s.disk.blocks && pc <= n + 1
      && (pc <= n ==> listed == s.lh && Installed(l, s, pc))
      && (pc == n + 1 ==> listed == [])
  }

  ghost predicate Inv(l: Layout, base: seq<Block>, s: State) {
    && Sound(l, s) && |base| == l.blocks && Events(l, s)
    && s.outstanding == |s.active| && s.checked <= s.active.Keys <= s.used
    && Whole(s) && Durable(l, base, s) && PhaseInv(l, s)
    && (!s.phase.Recovering? ==> Shows(l, base, s))
  }
}
