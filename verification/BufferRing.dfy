/** The buffer cache of bio.c as a machine: one step per section run under bcache.lock or a
    buffer's sleep lock, over any number of processes. */
module BufferRing {
  import opened Blocks

  const NBUF: nat := 30
  const ROOTDEV: nat := 1

  datatype Buf = Buf(dev: nat, blockno: nat, valid: bool, dirty: bool, refcnt: nat, locked: bool, data: Block)

  predicate Is(b: Buf, dev: nat, blockno: nat) {
    b.dev == dev && b.blockno == blockno
  }

  /** bget may recycle only unreferenced clean buffers. */
  predicate Free(b: Buf) {
    b.refcnt == 0 && !b.dirty
  }

  function Recycled(b: Buf, dev: nat, blockno: nat): Buf {
    b.(dev := dev, blockno := blockno, valid := false, dirty := false, refcnt := 1)
  }

  /** `order` lists buffer numbers from head.next on: most recently released first. */
  predicate Order(order: seq<nat>, bufs: seq<Buf>) {
    forall k :: 0 <= k < |order| ==> order[k] < |bufs|
  }

  /** bget's forward scan; -1 when it runs off the end. */
  function FirstMatch(order: seq<nat>, bufs: seq<Buf>, dev: nat, blockno: nat): (r: int)
    requires Order(order, bufs)
    ensures r == -1 ==> forall k :: 0 <= k < |order| ==> !Is(bufs[order[k]], dev, blockno)
    ensures r != -1 ==> 0 <= r && r in order && Is(bufs[r], dev, blockno)
  {
    if order == [] then -1
    else if Is(bufs[order[0]], dev, blockno) then order[0]
    else
      var r := FirstMatch(order[1..], bufs, dev, blockno);
      assert forall k :: 1 <= k < |order| ==> order[k] == order[1..][k - 1];
      r
  }

  /** bget's backward scan; -1 when it runs off the end. */
  function LastFree(order: seq<nat>, bufs: seq<Buf>): (r: int)
    requires Order(order, bufs)
    ensures r == -1 ==> forall k :: 0 <= k < |order| ==> !Free(bufs[order[k]])
    ensures r != -1 ==> exists k ::
      && 0 <= k < |order| && order[k] == r && Free(bufs[r])
      && forall j :: k < j < |order| ==> !Free(bufs[order[j]])
  {
    if order == [] then -1
    else if Free(bufs[order[|order| - 1]]) then
      assert order[|order| - 1] < |bufs|;
      order[|order| - 1]
    else LastFree(order[..|order| - 1], bufs)
  }

  /** The list without buffer i. */
  function Without(order: seq<nat>, i: nat): (r: seq<nat>)
    ensures i !in r
    ensures forall x :: x in r <==> x in order && x != i
  {
    if order == [] then []
    else if order[0] == i then Without(order[1..], i)
    else [order[0]] + Without(order[1..], i)
  }

  /** A reference handed out by bget.  It waits in acquiresleep, then holds the buffer, then is
      past releasesleep but not yet counted down. */
  datatype Stage = Waiting | Holding | Leaving
  datatype Ref = Ref(idx: nat, dev: nat, blockno: nat, stage: Stage)

  /** `stamp[i]` is when buffer i last dropped to no references; `refs` are the outstanding
      references of all processes.  `view` is the block map: what was last given to log_write or
      bwrite for each block. */
  datatype Cache = Cache(order: seq<nat>, bufs: seq<Buf>, stamp: seq<nat>, clock: nat, refs: map<nat, Ref>,
                         disk: seq<Block>, view: seq<Block>)

  datatype Step =
    | Get(ref: nat, dev: nat, blockno: nat)
    | Acquire(ref: nat)
    | Read(ref: nat)
    | SetDirty(ref: nat, data: Block)
    | WriteOut(ref: nat, data: Block)
    | Unlock(ref: nat)
    | Drop(ref: nat)

  predicate Shape(c: Cache) {
    && |c.order| == |c.bufs| == |c.stamp| == NBUF && Order(c.order, c.bufs)
    && forall t :: t in c.refs ==> c.refs[t].idx < NBUF
  }

  predicate Holds(refs: map<nat, Ref>, ref: nat) {
    ref in refs && refs[ref].stage.Holding?
  }

  /** iderw accepts the buffer's identity. */
  predicate OnDisk(c: Cache, b: Buf) {
    b.dev == ROOTDEV && b.blockno < |c.disk| == |c.view|
  }

  /** The buffer bget settles on: a cached one, else the one it recycles, else -1 (panic). */
  function Target(c: Cache, dev: nat, blockno: nat): int
    requires Shape(c)
  {
    var hit := FirstMatch(c.order, c.bufs, dev, blockno);
    if hit != -1 then hit else LastFree(c.order, c.bufs)
  }

  predicate Enabled(c: Cache, step: Step)
    requires Shape(c)
  {
    match step
    case Get(ref, dev, blockno) => ref !in c.refs && Target(c, dev, blockno) != -1
    case Acquire(ref) =>
      ref in c.refs && c.refs[ref].stage.Waiting? && !c.bufs[c.refs[ref].idx].locked
    case Drop(ref) =>
      ref in c.refs && c.refs[ref].stage.Leaving? && c.bufs[c.refs[ref].idx].refcnt >= 1
    case Read(ref) => Holds(c.refs, ref) && (c.bufs[c.refs[ref].idx].valid || OnDisk(c, c.bufs[c.refs[ref].idx]))
    case Unlock(ref) => Holds(c.refs, ref)
    case _ => Holds(c.refs, step.ref) && c.bufs[c.refs[step.ref].idx].valid && OnDisk(c, c.bufs[c.refs[step.ref].idx])
  }

  function Update(c: Cache, i: nat, b: Buf): Cache
    requires i < |c.bufs|
  {
    c.(bufs := c.bufs[i := b])
  }

  function Next(c: Cache, step: Step): Cache
    requires Shape(c) && Enabled(c, step)
  {
    match step
    case Get(ref, dev, blockno) =>
      var i := Target(c, dev, blockno);
      var b := c.bufs[i];
      var b' := if Is(b, dev, blockno) then b.(refcnt := b.refcnt + 1) else Recycled(b, dev, blockno);
      Update(c, i, b').(refs := c.refs[ref := Ref(i, dev, blockno, Waiting)])
    case Acquire(ref) =>
      var i := c.refs[ref].idx;
      Update(c, i, c.bufs[i].(locked := true)).(refs := c.refs[ref := c.refs[ref].(stage := Holding)])
    case Read(ref) =>
      var i := c.refs[ref].idx;
      Update(c, i, if c.bufs[i].valid then c.bufs[i] else c.bufs[i].(valid := true, data := c.disk[c.bufs[i].blockno]))
    case SetDirty(ref, data) =>
      var i := c.refs[ref].idx;
      Update(c, i, c.bufs[i].(dirty := true, data := data)).(view := c.view[c.bufs[i].blockno := data])
    case WriteOut(ref, data) =>
      var i := c.refs[ref].idx;
      Update(c, i, c.bufs[i].(valid := true, dirty := false, data := data))
        .(disk := c.disk[c.bufs[i].blockno := data], view := c.view[c.bufs[i].blockno := data])
    case Unlock(ref) =>
      var i := c.refs[ref].idx;
      Update(c, i, c.bufs[i].(locked := false)).(refs := c.refs[ref := c.refs[ref].(stage := Leaving)])
    case Drop(ref) =>
      var i := c.refs[ref].idx;
      var d := Update(c, i, c.bufs[i].(refcnt := c.bufs[i].refcnt - 1)).(refs := c.refs - {ref});
      if d.bufs[i].refcnt > 0 then d
      else d.(order := [i] + Without(c.order, i), stamp := c.stamp[i := c.clock], clock := c.clock + 1)
  }

  // ---- invariant ----

  /** The list visits every buffer exactly once. */
  ghost predicate Permutation(order: seq<nat>) {
    && |order| == NBUF
    && (forall k :: 0 <= k < NBUF ==> order[k] < NBUF)
    && (forall j, k :: 0 <= j < k < NBUF ==> order[j] != order[k])
    && (forall i: nat :: i < NBUF ==> i in order)
  }

  /** Most recently released first. */
  ghost predicate ByRelease(order: seq<nat>, stamp: seq<nat>, clock: nat)
    requires forall k :: 0 <= k < |order| ==> order[k] < |stamp|
  {
    && (forall j, k :: 0 <= j < k < |order| ==> stamp[order[j]] > stamp[order[k]])
    && (forall i :: 0 <= i < |stamp| ==> stamp[i] < clock)
  }

  /** No block is cached twice; the identity all buffers start with is exempt. */
  ghost predicate Unique(bufs: seq<Buf>) {
    forall i, j :: 0 <= i < j < |bufs| && Is(bufs[i], bufs[j].dev, bufs[j].blockno) ==> Is(bufs[i], 0, 0)
  }

  ghost function RefsTo(refs: map<nat, Ref>, i: nat): set<nat> {
    set t | t in refs && refs[t].idx == i
  }

  /** Buffers, disk and the block map they stand for: a clean block is the same in all three, a
      dirty one differs only on disk. */
  ghost predicate Coherent(bufs: seq<Buf>, disk: seq<Block>, view: seq<Block>) {
    && |disk| == |view|
    && (forall i :: 0 <= i < |bufs| && bufs[i].dirty ==> bufs[i].valid)
    && (forall i :: 0 <= i < |bufs| && bufs[i].valid ==>
          bufs[i].dev == ROOTDEV && bufs[i].blockno < |view| && bufs[i].data == view[bufs[i].blockno])
    && (forall b :: 0 <= b < |disk| && disk[b] != view[b] ==>
          exists i :: 0 <= i < |bufs| && bufs[i].dirty && bufs[i].blockno == b)
  }

  /** Every reference names a buffer that has the identity it asked for. */
  ghost predicate Named(bufs: seq<Buf>, refs: map<nat, Ref>) {
    forall t :: t in refs ==> refs[t].idx < |bufs| && Is(bufs[refs[t].idx], refs[t].dev, refs[t].blockno)
  }

  ghost predicate Counted(bufs: seq<Buf>, refs: map<nat, Ref>) {
    forall i :: 0 <= i < |bufs| ==> bufs[i].refcnt == |RefsTo(refs, i)|
  }

  /** A held buffer is locked, by one holder. */
  ghost predicate Exclusive(bufs: seq<Buf>, refs: map<nat, Ref>) {
    && (forall t :: Holds(refs, t) && refs[t].idx < |bufs| ==> bufs[refs[t].idx].locked)
    && (forall t, u :: Holds(refs, t) && Holds(refs, u) && refs[t].idx == refs[u].idx ==> t == u)
  }

  ghost predicate Inv(c: Cache) {
    && Shape(c) && Permutation(c.order) && ByRelease(c.order, c.stamp, c.clock)
    && Unique(c.bufs) && Named(c.bufs, c.refs) && Counted(c.bufs, c.refs) && Exclusive(c.bufs, c.refs)
  }
}
