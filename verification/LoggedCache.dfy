/** Buffer cache and log as one machine: any number of processes take and release buffers, fill
    them under log_write and read them, while commit() and recover_from_log() copy blocks from one
    held buffer to another.  Every run of it is a run of the log protocol on the blocks the cache
    shows, so what is proved of the protocol is what holders of buffers see. */
module LoggedCache {
  import opened Blocks
  import opened LogFormat
  import opened LogHeader
  import C = BufferRing
  import CP = BufferRingProofs
  import L = LogProtocol
  import LP = LogProofs

  datatype Pair = Pair(cache: C.Cache, log: L.State)

  /** Steps on buffers alone and on the log alone; a log_write; a loop body of write_log or
      install_trans, which copies between two held buffers and writes the copy out; write_head. */
  datatype Move =
    | Buffer(step: C.Step)
    | Log(own: L.Step)
    | Append(op: nat, ref: nat, data: Block)
    | Copy(to: nat, from: nat)
    | Header(ref: nat, data: Block)
    | Crash

  ghost predicate Shape(l: Layout, p: Pair) {
    C.Shape(p.cache) && L.Shape(l, p.log)
  }

  /** The process holds block b by reference `ref` and has read it. */
  ghost predicate Reads(c: C.Cache, ref: nat, b: nat)
    requires C.Shape(c)
  {
    && C.Holds(c.refs, ref) && c.refs[ref].dev == C.ROOTDEV && c.refs[ref].blockno == b
    && c.bufs[c.refs[ref].idx].valid
  }

  function Contents(c: C.Cache, ref: nat): Block
    requires C.Shape(c) && ref in c.refs
  {
    c.bufs[c.refs[ref].idx].data
  }

  /** The copy the loops of commit() and recover_from_log() make next. */
  ghost predicate Copies(l: Layout, s: L.State, to: nat, from: nat) {
    var n := |s.lh|;
    match s.phase
    case Running => false
    case Committing(pc) =>
      || (pc < n && to == l.start + 1 + pc && from == s.lh[pc])
      || (n < pc <= 2 * n && to == s.lh[pc - n - 1] && from == l.start + pc - n)
    case Recovering(pc) => pc < n && to == s.lh[pc] && from == l.start + 1 + pc
  }

  /** The list the header they write next holds. */
  ghost predicate Heads(s: L.State, list: seq<nat>) {
    var n := |s.lh|;
    match s.phase
    case Running => false
    case Committing(pc) => n > 0 && ((pc == n && list == s.lh) || (pc == 2 * n + 1 && list == []))
    case Recovering(pc) => pc == n && list == []
  }

  predicate OwnStep(step: L.Step) {
    step.BeginOp? || step.LogCheck? || step.EndOp? || step.CommitDone? || step.RecoverDone?
  }

  ghost predicate Enabled(l: Layout, p: Pair, move: Move)
    requires Shape(l, p)
  {
    match move
    case Buffer(step) => !step.SetDirty? && !step.WriteOut? && C.Enabled(p.cache, step)
    case Log(step) => OwnStep(step) && L.Enabled(l, p.log, step)
    case Append(op, ref, _) =>
      && op in p.log.checked && op in p.log.active && ref in p.cache.refs
      && Home(l, p.cache.refs[ref].blockno) && Reads(p.cache, ref, p.cache.refs[ref].blockno)
    case Copy(to, from) =>
      && to in p.cache.refs && from in p.cache.refs
      && Copies(l, p.log, p.cache.refs[to].blockno, p.cache.refs[from].blockno)
      && Reads(p.cache, to, p.cache.refs[to].blockno) && Reads(p.cache, from, p.cache.refs[from].blockno)
    case Header(ref, data) => Reads(p.cache, ref, l.start) && Readable(data) && Heads(p.log, Listed(data))
    case Crash => true
  }

  ghost function WriteStep(s: L.State, w: Write): L.Step {
    if s.phase.Recovering? then L.RecoverWrite(w) else L.CommitWrite(w)
  }

  /** What a move does to the log. */
  ghost function LogStep(l: Layout, p: Pair, move: Move): L.Step
    requires Shape(l, p) && Enabled(l, p, move) && !move.Buffer?
  {
    match move
    case Log(step) => step
    case Append(op, ref, data) => L.LogAppend(op, p.cache.refs[ref].blockno, data)
    case Copy(to, from) => WriteStep(p.log, Data(p.cache.refs[to].blockno, Contents(p.cache, from)))
    case Header(_, data) => WriteStep(p.log, Head(Listed(data), data))
    case Crash => L.Crash
  }

  /** The cache after binit, over whatever is on disk. */
  ghost function Empty(disk: seq<Block>): C.Cache {
    C.Cache(seq(C.NBUF, k => if 0 <= k < C.NBUF then C.NBUF - 1 - k else 0),
      seq(C.NBUF, _ => C.Buf(0, 0, false, false, 0, false, ZeroBlock())),
      seq(C.NBUF, k => k), C.NBUF, map[], disk, disk)
  }

  /** What it does to the cache. */
  ghost function CacheNext(l: Layout, p: Pair, move: Move): C.Cache
    requires Shape(l, p) && Enabled(l, p, move)
  {
    match move
    case Buffer(step) => C.Next(p.cache, step)
    case Log(_) => p.cache
    case Append(_, ref, data) => Step(p.cache, C.SetDirty(ref, data))
    case Copy(to, from) => Step(p.cache, C.WriteOut(to, Contents(p.cache, from)))
    case Header(ref, data) => Step(p.cache, C.WriteOut(ref, data))
    case Crash => Empty(p.cache.disk)
  }

  ghost function Step(c: C.Cache, step: C.Step): C.Cache
    requires C.Shape(c)
  {
    if C.Enabled(c, step) then C.Next(c, step) else c
  }

  ghost function Next(l: Layout, p: Pair, move: Move): Pair
    requires Shape(l, p) && Enabled(l, p, move)
  {
    Pair(CacheNext(l, p, move),
      if move.Buffer? || !L.Enabled(l, p.log, LogStep(l, p, move)) then p.log else L.Next(l, p.log, LogStep(l, p, move)))
  }

  ghost predicate Reaches(l: Layout, p: Pair, moves: seq<Move>, q: Pair)
    decreases |moves|
  {
    if moves == [] then p == q
    else Shape(l, p) && Enabled(l, p, moves[0]) && Reaches(l, Next(l, p, moves[0]), moves[1..], q)
  }

  /** The run of the log a run of the pair makes. */
  ghost function LogSteps(l: Layout, p: Pair, moves: seq<Move>): seq<L.Step>
    decreases |moves|
  {
    if moves == [] || !Shape(l, p) || !Enabled(l, p, moves[0]) then []
    else
      (if moves[0].Buffer? then [] else [LogStep(l, p, moves[0])]) + LogSteps(l, Next(l, p, moves[0]), moves[1..])
  }

  // ---- invariant ----

  /** Cache and log agree on the block map and on the disk, and the log area is never dirty. */
  ghost predicate Joined(l: Layout, p: Pair) {
    && p.cache.view == p.log.view && p.cache.disk == p.log.disk.blocks
    && |p.log.view| == |p.log.disk.blocks| == l.blocks
    && forall b: nat :: b < l.blocks && !Home(l, b) ==> p.log.view[b] == p.log.disk.blocks[b]
  }

  ghost predicate Inv(l: Layout, base: seq<Block>, p: Pair) {
    && C.Inv(p.cache) && C.Coherent(p.cache.bufs, p.cache.disk, p.cache.view)
    && L.Inv(l, base, p.log) && Joined(l, p)
  }

  ghost predicate Init(l: Layout, base: seq<Block>, p: Pair) {
    CP.Init(p.cache) && LP.Init(l, base, p.log) && p.cache.disk == p.log.disk.blocks
  }

  lemma InitInv(l: Layout, base: seq<Block>, p: Pair)
    requires Init(l, base, p)
    ensures Inv(l, base, p)
  {
    CP.InitCoherent(p.cache);
    LP.InitInv(l, base, p.log);
  }

  /** A buffer that is held and read shows the block map, and can be changed or written out. */
  lemma ReadsView(c: C.Cache, ref: nat, b: nat, data: Block)
    requires C.Inv(c) && C.Coherent(c.bufs, c.disk, c.view) && Reads(c, ref, b)
    ensures b < |c.view| == |c.disk| && Contents(c, ref) == c.view[b]
    ensures c.bufs[c.refs[ref].idx].blockno == b
    ensures C.Enabled(c, C.SetDirty(ref, data)) && C.Enabled(c, C.WriteOut(ref, data))
  {
    assert C.Is(c.bufs[c.refs[ref].idx], C.ROOTDEV, b);
  }

  /** A copy of what the cache shows is the block write the protocol expects next: where it comes
      from the log, cache and disk are the same. */
  lemma CopyStep(l: Layout, base: seq<Block>, s: L.State, to: nat, from: nat, data: Block)
    requires L.Inv(l, base, s) && Copies(l, s, to, from) && from < |s.view| == |s.disk.blocks| && data == s.view[from]
    requires !Home(l, from) ==> s.view[from] == s.disk.blocks[from]
    ensures L.Enabled(l, s, WriteStep(s, Data(to, data)))
  {
    hide L.Durable, L.Shows, L.Whole, L.Events;
  }

  lemma HeadStep(l: Layout, base: seq<Block>, s: L.State, hb: Block)
    requires L.Inv(l, base, s) && Heads(s, Listed(hb))
    ensures L.Enabled(l, s, WriteStep(s, Head(Listed(hb), hb)))
  {
    hide L.Durable, L.Shows, L.Whole, L.Events, Listed;
  }

  lemma CopyRefines(l: Layout, base: seq<Block>, p: Pair, to: nat, from: nat)
    requires Inv(l, base, p) && Shape(l, p) && Enabled(l, p, Copy(to, from))
    ensures L.Enabled(l, p.log, LogStep(l, p, Copy(to, from)))
  {
    hide C.Inv, C.Coherent, L.Inv, L.Shape, L.Enabled, Copies;
    ReadsView(p.cache, from, p.cache.refs[from].blockno, ZeroBlock());
    CopyStep(l, base, p.log, p.cache.refs[to].blockno, p.cache.refs[from].blockno, Contents(p.cache, from));
  }

  /** Every move that is not on buffers alone is a step the protocol allows. */
  lemma MoveRefines(l: Layout, base: seq<Block>, p: Pair, move: Move)
    requires Inv(l, base, p) && Shape(l, p) && Enabled(l, p, move) && !move.Buffer?
    ensures L.Enabled(l, p.log, LogStep(l, p, move))
  {
    hide C.Inv, C.Coherent, C.Enabled, L.Inv, Copies, Heads, Listed;
    match move
    case Copy(to, from) => CopyRefines(l, base, p, to, from);
    case Header(ref, data) => HeadStep(l, base, p.log, data);
    case _ =>
  }

  lemma EmptyCoherent(disk: seq<Block>)
    ensures C.Inv(Empty(disk)) && C.Coherent(Empty(disk).bufs, Empty(disk).disk, Empty(disk).view)
  {
    CP.InitCoherent(Empty(disk));
  }

  lemma CacheStep(c: C.Cache, step: C.Step)
    requires C.Inv(c) && C.Coherent(c.bufs, c.disk, c.view)
    ensures var d := Step(c, step); C.Inv(d) && C.Coherent(d.bufs, d.disk, d.view)
  {
    if C.Enabled(c, step) {
      CP.StepInv(c, step);
      CP.StepCoherent(c, step);
    }
  }

  lemma CacheKept(l: Layout, base: seq<Block>, p: Pair, move: Move)
    requires Inv(l, base, p) && Shape(l, p) && Enabled(l, p, move)
    ensures var d := CacheNext(l, p, move); C.Inv(d) && C.Coherent(d.bufs, d.disk, d.view)
  {
    hide C.Inv, C.Coherent, L.Inv, C.Enabled, C.Next;
    match move
    case Buffer(step) => CacheStep(p.cache, step);
    case Log(_) =>
    case Append(_, ref, data) => CacheStep(p.cache, C.SetDirty(ref, data));
    case Copy(to, from) => CacheStep(p.cache, C.WriteOut(to, Contents(p.cache, from)));
    case Header(ref, data) => CacheStep(p.cache, C.WriteOut(ref, data));
    case Crash => EmptyCoherent(p.cache.disk);
  }

  /** A step on buffers alone leaves disk and block map alone. */
  lemma BufferKeeps(c: C.Cache, step: C.Step)
    requires C.Shape(c) && C.Enabled(c, step) && !step.SetDirty? && !step.WriteOut?
    ensures C.Next(c, step).disk == c.disk && C.Next(c, step).view == c.view
  {
  }

  /** A block write goes to cache, disk and map alike. */
  lemma WriteJoined(l: Layout, base: seq<Block>, p: Pair, ref: nat, w: Write)
    requires Inv(l, base, p) && Shape(l, p) && Reads(p.cache, ref, Target(l, w))
    requires L.Enabled(l, p.log, WriteStep(p.log, w))
    ensures Joined(l, Pair(Step(p.cache, C.WriteOut(ref, w.data)), L.Next(l, p.log, WriteStep(p.log, w))))
  {
    hide C.Inv, C.Coherent, C.Enabled, L.Inv, L.Shape, L.IsCommitWrite, L.IsRecoverWrite, Reads, Contents, Home;
    ReadsView(p.cache, ref, Target(l, w), w.data);
  }

  lemma JoinedKept(l: Layout, base: seq<Block>, p: Pair, move: Move)
    requires Inv(l, base, p) && Shape(l, p) && Enabled(l, p, move)
    requires !move.Buffer? ==> L.Enabled(l, p.log, LogStep(l, p, move))
    ensures Joined(l, Next(l, p, move))
  {
    hide C.Inv, C.Coherent, L.Inv, Listed, Copies, Heads, L.IsCommitWrite, L.IsRecoverWrite, Loggable, Listable;
    match move
    case Buffer(step) => BufferKeeps(p.cache, step);
    case Log(_) =>
    case Append(_, ref, data) => ReadsView(p.cache, ref, p.cache.refs[ref].blockno, data);
    case Copy(to, from) => WriteJoined(l, base, p, to, Data(p.cache.refs[to].blockno, Contents(p.cache, from)));
    case Header(ref, data) => WriteJoined(l, base, p, ref, Head(Listed(data), data));
    case Crash =>
  }

  /** Every move keeps the invariant and is a step of the log protocol, or none at all. */
  lemma MoveInv(l: Layout, base: seq<Block>, p: Pair, move: Move)
    requires Inv(l, base, p) && Shape(l, p) && Enabled(l, p, move)
    requires move.Buffer? || L.Appends(l, p.log, LogStep(l, p, move))
    ensures Inv(l, base, Next(l, p, move))
    ensures move.Buffer? ==> Next(l, p, move).log == p.log
    ensures !move.Buffer? ==> L.Enabled(l, p.log, LogStep(l, p, move)) && Next(l, p, move).log == L.Next(l, p.log, LogStep(l, p, move))
  {
    if !move.Buffer? {
      MoveRefines(l, base, p, move);
      LP.StepInv(l, base, p.log, LogStep(l, p, move));
    }
    CacheKept(l, base, p, move);
    JoinedKept(l, base, p, move);
    hide *;
  }

  // ---- runs ----

  /** No append outgrows the log, or the log is long enough for operations that keep to theirs. */
  ghost predicate Sized(l: Layout, s: L.State, steps: seq<L.Step>) {
    LP.Fitting(l, s, steps) || (LP.Counted(s) && LP.Provided(l, s, steps))
  }

  lemma SizedStep(l: Layout, s: L.State, step: L.Step, rest: seq<L.Step>)
    requires L.Shape(l, s) && L.Enabled(l, s, step) && Sized(l, s, [step] + rest)
    ensures L.Appends(l, s, step) && Sized(l, L.Next(l, s, step), rest)
  {
    assert ([step] + rest)[1..] == rest;
    if !LP.Fitting(l, s, [step] + rest) {
      LP.StepCounted(l, s, step);
    }
  }

  /** Every run of cache and log together is a run of the log protocol. */
  lemma {:induction false} Refines(l: Layout, base: seq<Block>, p: Pair, moves: seq<Move>, q: Pair)
    requires Inv(l, base, p) && Reaches(l, p, moves, q) && Sized(l, p.log, LogSteps(l, p, moves))
    ensures Inv(l, base, q) && LP.Reaches(l, p.log, LogSteps(l, p, moves), q.log)
    decreases |moves|
  {
    hide Inv, Shape, Enabled, Next, LogStep, Sized, L.Shape, L.Enabled, L.Next;
    if moves != [] {
      var move, m := moves[0], Next(l, p, moves[0]);
      var rest := LogSteps(l, m, moves[1..]);
      LogShape(l, p);
      if move.Buffer? {
        assert LogSteps(l, p, moves) == rest;
        MoveInv(l, base, p, move);
      } else {
        MoveRefines(l, base, p, move);
        SizedStep(l, p.log, LogStep(l, p, move), rest);
        MoveInv(l, base, p, move);
      }
      Refines(l, base, m, moves[1..], q);
      if !move.Buffer? {
        LP.ReachesOne(l, p.log, LogStep(l, p, move));
        LP.ReachesThen(l, p.log, [LogStep(l, p, move)], m.log, rest, q.log);
      }
    }
  }

  lemma LogShape(l: Layout, p: Pair)
    requires Shape(l, p)
    ensures L.Shape(l, p.log)
  {
  }

  lemma Booting(l: Layout, base: seq<Block>, p: Pair)
    requires Init(l, base, p)
    ensures LP.Counted(p.log)
  {
    LP.InitInv(l, base, p.log);
    LP.InvCounted(l, base, p.log);
  }

  /** In every interleaving, crashes and recoveries included, whoever holds a home block and has read
      it sees every log_write so far; the disk would recover to the durable ones; and a block whose
      disk copy is behind is on the log's list and pinned in a dirty buffer. */
  lemma HoldersSeeLog(l: Layout, base: seq<Block>, p: Pair, moves: seq<Move>, q: Pair)
    requires Init(l, base, p) && Reaches(l, p, moves, q)
    requires LP.Fitting(l, p.log, LogSteps(l, p, moves)) || LP.Provided(l, p.log, LogSteps(l, p, moves))
    ensures Inv(l, base, q) && LP.Reaches(l, p.log, LogSteps(l, p, moves), q.log)
    ensures !q.log.phase.Recovering? ==> forall ref: nat, b: nat :: Reads(q.cache, ref, b) && Home(l, b) ==>
              Contents(q.cache, ref) == L.Fold(base, q.log.hist)[b]
    ensures q.cache.disk == q.log.disk.blocks
    ensures forall b: nat :: Home(l, b) ==> Redo(l, q.log.disk, b) == L.Fold(base, q.log.hist[..q.log.stable])[b]
    ensures forall b: nat :: b < l.blocks && q.cache.disk[b] != q.cache.view[b] ==>
              b in q.log.lh && exists i :: 0 <= i < |q.cache.bufs| && q.cache.bufs[i].dirty && q.cache.bufs[i].blockno == b
  {
    InitInv(l, base, p);
    Booting(l, base, p);
    Refines(l, base, p, moves, q);
    hide Reaches, LP.Reaches, LogSteps, Init, L.Whole, L.PhaseInv, Reads;
    forall ref: nat, b: nat | Reads(q.cache, ref, b) && Home(l, b) && !q.log.phase.Recovering?
      ensures Contents(q.cache, ref) == L.Fold(base, q.log.hist)[b]
    {
      ReadsView(q.cache, ref, b, ZeroBlock());
    }
    forall b: nat | b < l.blocks && q.cache.disk[b] != q.cache.view[b] ensures b in q.log.lh {
      OnlyListedBehind(l, base, q.log, b);
    }
  }

  lemma OnlyListedBehind(l: Layout, base: seq<Block>, s: L.State, b: nat)
    requires L.Inv(l, base, s) && b < l.blocks && s.view[b] != s.disk.blocks[b] && Home(l, b)
    ensures b in s.lh
  {
  }
}
