/** bio.c over an in-memory disk (memide.c): the linked ring of buffers, kept coherent with a
    plain map from block number to contents. */
module Bio {
  import opened Blocks
  import opened BufferRing
  import Ring = BufferRingProofs

  /** The list head takes the place after the last buffer. */
  const HEAD: nat := NBUF

  /** prev/next links visit exactly the buffers of `o`, in both directions, from the head. */
  ghost predicate Linked(next: seq<nat>, prev: seq<nat>, o: seq<nat>) {
    && |next| == |prev| == NBUF + 1
    && next[HEAD] == At(o, 0) <= HEAD && prev[HEAD] == At(o, |o| - 1) <= HEAD
    && (forall k {:trigger LinkAt(next, prev, o, k)} :: 0 <= k < |o| ==> LinkAt(next, prev, o, k))
  }

  /** The k-th buffer's links. */
  ghost predicate LinkAt(next: seq<nat>, prev: seq<nat>, o: seq<nat>, k: nat)
    requires |next| == |prev| == NBUF + 1 && k < |o|
  {
    o[k] < NBUF && next[o[k]] == At(o, k + 1) && prev[o[k]] == At(o, k - 1)
  }

  /** The k-th buffer of the list; the head sits before the first and after the last. */
  ghost function At(o: seq<nat>, k: int): nat {
    if 0 <= k < |o| then o[k] else HEAD
  }

  lemma LinkFront(next: seq<nat>, prev: seq<nat>, o: seq<nat>, i: nat)
    requires Linked(next, prev, o) && i < NBUF && i !in o
    requires forall j, k :: 0 <= j < k < |o| ==> o[j] != o[k]
    ensures Linked(next[i := next[HEAD]][HEAD := i], prev[i := HEAD][next[HEAD] := i], [i] + o)
  {
    var o' := [i] + o;
    var next', prev' := next[i := next[HEAD]][HEAD := i], prev[i := HEAD][next[HEAD] := i];
    assert |o| > 0 ==> LinkAt(next, prev, o, 0);
    forall k | 0 <= k < |o'| ensures LinkAt(next', prev', o', k) {
      if k > 0 {
        assert LinkAt(next, prev, o, k - 1);
        assert o'[k] == o[k - 1] && o[k - 1] in o;
      }
    }
  }

  /** The list without its k-th buffer. */
  ghost function Out(o: seq<nat>, k: nat): (r: seq<nat>)
    requires k < |o|
    ensures |r| == |o| - 1
    ensures forall m :: 0 <= m < |r| ==> r[m] == o[if m < k then m else m + 1]
  {
    o[..k] + o[k + 1..]
  }

  lemma OutAt(o: seq<nat>, k: nat, m: int)
    requires k < |o| && -1 <= m < |o|
    ensures At(Out(o, k), m) == At(o, if m < k then m else m + 1)
  {
  }

  /** Unlinking the k-th buffer: what the m-th remaining buffer's links become. */
  lemma OutLinks(next: seq<nat>, prev: seq<nat>, o: seq<nat>, k: nat, m: nat)
    requires Linked(next, prev, o) && k < |o| && m < |o| - 1 && LinkAt(next, prev, o, k)
    requires prev[o[k]] < |next| && next[o[k]] < |prev|
    requires forall j, m :: 0 <= j < m < |o| ==> o[j] != o[m]
    ensures LinkAt(next[prev[o[k]] := next[o[k]]], prev[next[o[k]] := prev[o[k]]], Out(o, k), m)
  {
    var j := if m < k then m else m + 1;
    assert Out(o, k)[m] == o[j] && o[j] != o[k];
    assert LinkAt(next, prev, o, j);
    OutAt(o, k, m + 1);
    OutAt(o, k, m - 1);
    hide Linked, Out;
  }

  /** What the head's links become. */
  lemma OutHead(next: seq<nat>, prev: seq<nat>, o: seq<nat>, k: nat)
    requires Linked(next, prev, o) && k < |o| && LinkAt(next, prev, o, k)
    requires prev[o[k]] < |next| && next[o[k]] < |prev|
    ensures next[prev[o[k]] := next[o[k]]][HEAD] == At(Out(o, k), 0)
    ensures prev[next[o[k]] := prev[o[k]]][HEAD] == At(Out(o, k), |o| - 2)
  {
    OutAt(o, k, 0);
    OutAt(o, k, |o| - 2);
    assert k > 0 ==> LinkAt(next, prev, o, k - 1);
    assert k + 1 < |o| ==> LinkAt(next, prev, o, k + 1);
    hide Out;
  }

  lemma LinkOut(next: seq<nat>, prev: seq<nat>, o: seq<nat>, k: nat)
    requires Linked(next, prev, o) && k < |o|
    requires forall j, m :: 0 <= j < m < |o| ==> o[j] != o[m]
    ensures o[k] < NBUF && prev[o[k]] < |next| && next[o[k]] < |prev|
    ensures Linked(next[prev[o[k]] := next[o[k]]], prev[next[o[k]] := prev[o[k]]], o[..k] + o[k + 1..])
  {
    assert LinkAt(next, prev, o, k);
    assert k > 0 ==> LinkAt(next, prev, o, k - 1);
    assert k + 1 < |o| ==> LinkAt(next, prev, o, k + 1);
    var next', prev' := next[prev[o[k]] := next[o[k]]], prev[next[o[k]] := prev[o[k]]];
    forall m | 0 <= m < |o| - 1 ensures LinkAt(next', prev', Out(o, k), m) {
      OutLinks(next, prev, o, k, m);
    }
    OutHead(next, prev, o, k);
    assert Out(o, k) == o[..k] + o[k + 1..];
    hide LinkAt, At;
  }

  lemma {:induction false} FirstMatchAt(order: seq<nat>, bufs: seq<Buf>, dev: nat, blockno: nat, k: nat)
    requires Order(order, bufs) && k < |order| && Is(bufs[order[k]], dev, blockno)
    requires forall j :: 0 <= j < k ==> !Is(bufs[order[j]], dev, blockno)
    ensures FirstMatch(order, bufs, dev, blockno) == order[k]
  {
    if k > 0 {
      FirstMatchAt(order[1..], bufs, dev, blockno, k - 1);
    }
  }

  lemma {:induction false} LastFreeAt(order: seq<nat>, bufs: seq<Buf>, k: nat)
    requires Order(order, bufs) && k < |order| && Free(bufs[order[k]])
    requires forall j :: k < j < |order| ==> !Free(bufs[order[j]])
    ensures LastFree(order, bufs) == order[k]
  {
    if k < |order| - 1 {
      LastFreeAt(order[..|order| - 1], bufs, k);
    }
  }

  ghost predicate CacheInv(next: seq<nat>, prev: seq<nat>, order: seq<nat>, bufs: seq<Buf>, disk: seq<Block>, view: seq<Block>) {
    && |bufs| == NBUF && Permutation(order) && Linked(next, prev, order)
    && Unique(bufs) && Coherent(bufs, disk, view)
    && (forall i :: 0 <= i < NBUF && bufs[i].locked ==> bufs[i].refcnt > 0)
  }

  ghost predicate Dated(order: seq<nat>, stamp: seq<nat>, clock: nat) {
    Permutation(order) && |stamp| == NBUF && ByRelease(order, stamp, clock)
  }

  lemma Released(order: seq<nat>, b: nat, stamp: seq<nat>, clock: nat)
    requires Dated(order, stamp, clock) && b < NBUF
    ensures Dated([b] + Without(order, b), stamp[b := clock], clock + 1)
  {
    var k := Ring.Position(order, b);
    Ring.WithoutAt(order, k);
    assert [b] + Without(order, b) == Ring.Front(order, k);
    hide ByRelease;
    Ring.FrontPermutation(order, k);
    Ring.FrontByRelease(order, k, stamp, clock);
  }

  class MemDisk {
    var blocks: seq<Block>
    ghost const image: seq<Block>
    /** Every block write so far, oldest first. */
    ghost var writes: seq<Written>

    constructor (image: seq<Block>)
      ensures Sound() && blocks == image == this.image && writes == []
    {
      blocks, writes := image, [];
      this.image := image;
    }

    /** The disk holds its first image with every write applied. */
    ghost predicate Sound()
      reads this
    {
      Within(writes, |image|) && blocks == ApplyAll(image, writes)
    }

    /** iderw on a dirty buffer. */
    method Write(blockno: nat, data: Block)
      requires Sound() && blockno < |blocks|
      modifies this
      ensures Sound() && blocks == old(blocks)[blockno := data] && writes == old(writes) + [(blockno, data)]
    {
      ApplyOne(image, writes, (blockno, data));
      blocks := blocks[blockno := data];
      writes := writes + [(blockno, data)];
    }
  }

  class BufferCache {
    const disk: MemDisk
    const bufs: array<Buf>
    const next: array<nat>
    const prev: array<nat>
    ghost var order: seq<nat>
    ghost var view: seq<Block>
    /** When each buffer last dropped to no references, by a clock that ticks at every such release. */
    ghost var stamp: seq<nat>
    ghost var clock: nat

    ghost predicate Valid()
      reads this, disk, bufs, next, prev
    {
      && bufs.Length == NBUF && next.Length == prev.Length == NBUF + 1 && next != prev
      && CacheInv(next[..], prev[..], order, bufs[..], disk.blocks, view) && disk.Sound()
      && Dated(order, stamp, clock)
    }

    ghost function Repr(): set<object> {
      {this, disk, bufs, next, prev}
    }

    /** binit: every buffer is pushed in front of the list, so the last one ends up first. */
    constructor (disk: MemDisk)
      requires disk.Sound()
      ensures Valid() && this.disk == disk && fresh(Repr() - {disk})
      ensures view == disk.blocks
      ensures forall k :: 0 <= k < NBUF ==> order[k] == NBUF - 1 - k
      ensures forall i :: 0 <= i < NBUF ==> bufs[i] == Buf(0, 0, false, false, 0, false, ZeroBlock())
    {
      this.disk := disk;
      bufs := new Buf[NBUF](_ => Buf(0, 0, false, false, 0, false, ZeroBlock()));
      next := new nat[NBUF + 1](_ => HEAD);
      prev := new nat[NBUF + 1](_ => HEAD);
      order, view, stamp, clock := [], disk.blocks, seq(NBUF, i => i), NBUF;
      new;
      var b := 0;
      while b < NBUF
        invariant 0 <= b <= NBUF && |order| == b
        invariant forall k :: 0 <= k < b ==> order[k] == b - 1 - k
        invariant Linked(next[..], prev[..], order)
        invariant view == disk.blocks && stamp == seq(NBUF, i => i) && clock == NBUF
        invariant forall i :: 0 <= i < NBUF ==> bufs[i] == Buf(0, 0, false, false, 0, false, ZeroBlock())
      {
        PushFront(b);
        b := b + 1;
      }
      forall i: nat | i < NBUF ensures i in order {
        assert order[NBUF - 1 - i] == i;
      }
    }

    /** The four assignments that put buffer b first. */
    method PushFront(b: nat)
      requires next.Length == prev.Length == NBUF + 1 && next != prev
      requires b < NBUF && b !in order && Linked(next[..], prev[..], order)
      requires forall j, k :: 0 <= j < k < |order| ==> order[j] != order[k]
      modifies this`order, next, prev
      ensures order == [b] + old(order) && Linked(next[..], prev[..], order)
    {
      ghost var next0: seq<nat> := next[..];
      ghost var prev0: seq<nat> := prev[..];
      LinkFront(next0, prev0, order, b);
      next[b] := next[HEAD];
      prev[b] := HEAD;
      prev[next[HEAD]] := b;
      next[HEAD] := b;
      order := [b] + order;
      assert next[..] == next0[b := next0[HEAD]][HEAD := b];
      assert prev[..] == prev0[b := HEAD][next0[HEAD] := b];
    }

    /** The two assignments that take buffer b out of the list. */
    method Unlink(b: nat)
      requires Valid() && b < NBUF
      modifies this`order, next, prev
      ensures order == Without(old(order), b) && Linked(next[..], prev[..], order)
      ensures forall j, k :: 0 <= j < k < |order| ==> order[j] != order[k]
    {
      ghost var next0: seq<nat> := next[..];
      ghost var prev0: seq<nat> := prev[..];
      ghost var k := Ring.Position(order, b);
      LinkOut(next0, prev0, order, k);
      Ring.WithoutAt(order, k);
      var n, p := next[b], prev[b];
      prev[n] := p;
      next[p] := n;
      order := order[..k] + order[k + 1..];
      assert next[..] == next0[p := n];
      assert prev[..] == prev0[n := p];
    }

    /** bget's first loop: is the block already cached? */
    method FindCached(dev: nat, blockno: nat) returns (b: int)
      requires Valid()
      ensures -1 <= b < NBUF && b == FirstMatch(order, bufs[..], dev, blockno)
      ensures b != -1 ==> Is(bufs[b], dev, blockno)
    {
      b := next[HEAD];
      ghost var k := 0;
      while b != HEAD
        invariant 0 <= k <= NBUF && b == At(order, k)
        invariant forall j :: 0 <= j < k ==> !Is(bufs[order[j]], dev, blockno)
        decreases NBUF - k
      {
        if Is(bufs[b], dev, blockno) {
          FirstMatchAt(order, bufs[..], dev, blockno, k);
          return;
        }
        assert LinkAt(next[..], prev[..], order, k);
        b := next[b];
        k := k + 1;
      }
      b := -1;
    }

    /** bget's second loop: from the least recently used end, an unreferenced clean buffer. */
    method FindFree() returns (b: int)
      requires Valid()
      ensures -1 <= b < NBUF && b == LastFree(order, bufs[..])
      ensures b != -1 ==> Free(bufs[b])
    {
      b := prev[HEAD];
      ghost var k := NBUF;
      while b != HEAD
        invariant 0 <= k <= NBUF && b == At(order, k - 1)
        invariant forall j :: k <= j < NBUF ==> !Free(bufs[order[j]])
        decreases k
      {
        if Free(bufs[b]) {
          LastFreeAt(order, bufs[..], k - 1);
          return;
        }
        assert LinkAt(next[..], prev[..], order, k - 1);
        b := prev[b];
        k := k - 1;
      }
      b := -1;
    }

    /** bget up to the release of bcache.lock; -1 stands for its panic. */
    method Bget(dev: nat, blockno: nat) returns (b: int)
      requires Valid()
      modifies bufs
      ensures -1 <= b < NBUF
      ensures b == old(if FirstMatch(order, bufs[..], dev, blockno) != -1 then FirstMatch(order, bufs[..], dev, blockno)
                       else LastFree(order, bufs[..]))
      ensures b == -1 ==> bufs[..] == old(bufs[..])
      ensures b != -1 ==> bufs[..] == old(bufs[..])[b := bufs[b]] && Is(bufs[b], dev, blockno)
      ensures b != -1 && old(Is(bufs[b], dev, blockno)) ==> bufs[b] == old(bufs[b].(refcnt := bufs[b].refcnt + 1))
      ensures b != -1 && !old(Is(bufs[b], dev, blockno)) ==>
                old(Free(bufs[b])) && bufs[b] == old(Recycled(bufs[b], dev, blockno))
      ensures b != -1 && !old(Is(bufs[b], dev, blockno)) ==>
                forall i :: 0 <= i < NBUF && i != b && old(Free(bufs[i])) ==> stamp[b] < stamp[i]
      ensures Valid()
    {
      hide Linked, Unique, Coherent, Permutation, ByRelease, FirstMatch, LastFree;
      b := FindCached(dev, blockno);
      if b != -1 {
        bufs[b] := bufs[b].(refcnt := bufs[b].refcnt + 1);
        SameContents(old(bufs[..]), bufs[..], b);
        return;
      }
      b := FindFree();
      if b != -1 {
        Oldest(b);
        bufs[b] := Recycled(bufs[b], dev, blockno);
        Reuse(old(bufs[..]), bufs[..], b, dev, blockno);
      }
    }

    lemma Oldest(b: nat)
      requires Valid() && b == LastFree(order, bufs[..]) && b < NBUF
      ensures forall i :: 0 <= i < NBUF && i != b && Free(bufs[i]) ==> stamp[b] < stamp[i]
    {
      forall i | 0 <= i < NBUF && i != b && Free(bufs[i]) ensures stamp[b] < stamp[i] {
        Ring.OldestFree(order, bufs[..], stamp, clock, i);
      }
    }

    /** Changing counts or locks changes no contents. */
    lemma SameContents(was: seq<Buf>, now: seq<Buf>, i: nat)
      requires |was| == |now| == NBUF && i < NBUF && now == was[i := now[i]]
      requires now[i] == was[i].(refcnt := now[i].refcnt, locked := now[i].locked)
      requires Unique(was) && Coherent(was, disk.blocks, view)
      ensures Unique(now) && Coherent(now, disk.blocks, view)
    {
      Ring.KeepsDirty(was, now, disk.blocks, view);
    }

    /** Eviction never changes the block map: what is dropped is on disk. */
    lemma Reuse(was: seq<Buf>, now: seq<Buf>, i: nat, dev: nat, blockno: nat)
      requires |was| == |now| == NBUF && i < NBUF && now == was[i := now[i]]
      requires Free(was[i]) && now[i] == Recycled(was[i], dev, blockno)
      requires Permutation(order) && FirstMatch(order, was, dev, blockno) == -1
      requires Unique(was) && Coherent(was, disk.blocks, view)
      ensures Unique(now) && Coherent(now, disk.blocks, view)
    {
      forall j | 0 <= j < NBUF ensures !Is(was[j], dev, blockno) {
        var k := Ring.Position(order, j);
      }
      Ring.KeepsDirty(was, now, disk.blocks, view);
    }

    /** A clean cached block that is not loaded, or not cached at all, is current on disk. */
    lemma DiskIsCurrent(blockno: nat)
      requires Valid() && blockno < |view|
      requires forall i :: 0 <= i < NBUF && Is(bufs[i], ROOTDEV, blockno) ==> !bufs[i].dirty
      ensures disk.blocks[blockno] == view[blockno]
    {
      if disk.blocks[blockno] != view[blockno] {
        var i :| 0 <= i < |bufs[..]| && bufs[..][i].dirty && bufs[..][i].blockno == blockno;
        assert Is(bufs[i], ROOTDEV, blockno);
      }
    }

    /** bread, once the sleep lock is free: the buffer it returns shows the block map. */
    method Bread(blockno: nat) returns (b: int)
      requires Valid() && blockno < |view|
      requires forall i :: 0 <= i < NBUF && Is(bufs[i], ROOTDEV, blockno) ==> !bufs[i].locked
      modifies bufs
      ensures Valid() && -1 <= b < NBUF
      ensures b == -1 ==> bufs[..] == old(bufs[..])
      ensures b == -1 ==> forall i :: 0 <= i < NBUF ==> !Is(bufs[i], ROOTDEV, blockno) && !Free(bufs[i])
      ensures b != -1 ==> bufs[..] == old(bufs[..])[b := bufs[b]] && Is(bufs[b], ROOTDEV, blockno)
      ensures b != -1 ==> bufs[b].valid && bufs[b].locked && bufs[b].data == view[blockno]
      ensures b != -1 && old(Is(bufs[b], ROOTDEV, blockno)) ==>
                bufs[b].refcnt == old(bufs[b].refcnt) + 1 && bufs[b].dirty == old(bufs[b].dirty)
      ensures b != -1 && !old(Is(bufs[b], ROOTDEV, blockno)) ==>
                old(Free(bufs[b])) && bufs[b].refcnt == 1 && !bufs[b].dirty
    {
      hide Linked, Unique, Coherent, Permutation, Dated, FirstMatch, LastFree;
      NoneLeft(blockno);
      b := Bget(ROOTDEV, blockno);
      if b != -1 {
        AcquireSleep(b);
        if !bufs[b].valid {
          Load(b);
        } else {
          ShowsView(b);
        }
      }
    }

    lemma ShowsView(b: nat)
      requires Valid() && b < NBUF && bufs[b].valid
      ensures bufs[b].blockno < |view| && bufs[b].data == view[bufs[b].blockno]
    {
      assert bufs[..][b].valid;
    }

    /** What it takes for bget to panic. */
    lemma NoneLeft(blockno: nat)
      requires Valid()
      ensures Order(order, bufs[..])
      ensures FirstMatch(order, bufs[..], ROOTDEV, blockno) == -1 && LastFree(order, bufs[..]) == -1 ==>
                forall i :: 0 <= i < NBUF ==> !Is(bufs[i], ROOTDEV, blockno) && !Free(bufs[i])
    {
      forall i | 0 <= i < NBUF && FirstMatch(order, bufs[..], ROOTDEV, blockno) == -1 && LastFree(order, bufs[..]) == -1
        ensures !Is(bufs[i], ROOTDEV, blockno) && !Free(bufs[i])
      {
        var k := Ring.Position(order, i);
      }
    }

    /** acquiresleep once its wait is over. */
    method AcquireSleep(b: nat)
      requires Valid() && b < NBUF && !bufs[b].locked && bufs[b].refcnt > 0
      modifies bufs
      ensures Valid()
      ensures bufs[..] == old(bufs[..])[b := old(bufs[b].(locked := true))]
    {
      bufs[b] := bufs[b].(locked := true);
      SameContents(old(bufs[..]), bufs[..], b);
    }

    /** iderw on a buffer that holds nothing yet. */
    method Load(b: nat)
      requires Valid() && b < NBUF && !bufs[b].valid
      requires bufs[b].dev == ROOTDEV && bufs[b].blockno < |view|
      modifies bufs
      ensures Valid()
      ensures bufs[..] == old(bufs[..])[b := old(bufs[b].(valid := true, data := view[bufs[b].blockno]))]
    {
      assert forall i :: 0 <= i < NBUF && Is(bufs[..][i], ROOTDEV, bufs[b].blockno) ==> i == b;
      DiskIsCurrent(bufs[b].blockno);
      bufs[b] := bufs[b].(data := disk.blocks[bufs[b].blockno], valid := true);
      Loaded(old(bufs[..]), bufs[..], b);
    }

    lemma Loaded(was: seq<Buf>, now: seq<Buf>, i: nat)
      requires |was| == |now| == NBUF && i < NBUF && now == was[i := now[i]]
      requires !was[i].valid && was[i].dev == ROOTDEV && was[i].blockno < |view|
      requires now[i] == was[i].(valid := true, data := view[was[i].blockno])
      requires Unique(was) && Coherent(was, disk.blocks, view)
      ensures Unique(now) && Coherent(now, disk.blocks, view)
    {
      Ring.KeepsDirty(was, now, disk.blocks, view);
    }

    /** Filling b->data and bwrite: buffer, disk and map agree on the new contents. */
    method Bwrite(b: nat, data: Block)
      requires Valid() && b < NBUF && bufs[b].locked && bufs[b].valid
      modifies bufs, disk, this`view
      ensures Valid()
      ensures bufs[..] == old(bufs[..])[b := old(bufs[b].(dirty := false, data := data))]
      ensures view == old(view)[bufs[b].blockno := data]
      ensures disk.blocks == old(disk.blocks)[bufs[b].blockno := data]
      ensures disk.writes == old(disk.writes) + [(bufs[b].blockno, data)]
    {
      ghost var was, image, seen := bufs[..], disk.blocks, view;
      var blockno := bufs[b].blockno;
      bufs[b] := bufs[b].(dirty := false, data := data);
      disk.Write(blockno, data);
      view := view[blockno := data];
      Ring.WriteCoherent(was, image, seen, b, bufs[b], disk.blocks);
      assert bufs[..] == was[b := bufs[b]];
    }

    /** Filling b->data and setting B_DIRTY, as log_write does: only the disk stays behind. */
    method Pin(b: nat, data: Block)
      requires Valid() && b < NBUF && bufs[b].locked && bufs[b].valid
      modifies bufs, this`view
      ensures Valid()
      ensures bufs[..] == old(bufs[..])[b := old(bufs[b].(dirty := true, data := data))]
      ensures view == old(view)[bufs[b].blockno := data]
    {
      ghost var was, seen := bufs[..], view;
      bufs[b] := bufs[b].(dirty := true, data := data);
      view := view[bufs[b].blockno := data];
      Ring.WriteCoherent(was, disk.blocks, seen, b, bufs[b], disk.blocks);
      assert bufs[..] == was[b := bufs[b]];
    }

    /** The move to the front of the list in brelse. */
    method MoveToFront(b: nat)
      requires Valid() && b < NBUF
      modifies this`order, this`stamp, this`clock, next, prev
      ensures Valid()
      ensures order == [b] + Without(old(order), b) && stamp == old(stamp)[b := old(clock)]
    {
      hide Linked, Unique, Coherent, Permutation, ByRelease;
      Released(order, b, stamp, clock);
      Unlink(b);
      PushFront(b);
      stamp, clock := stamp[b := clock], clock + 1;
    }

    /** brelse: unlock, count down, and move to the front when nobody is left. */
    method Brelse(b: nat)
      requires Valid() && b < NBUF && bufs[b].locked
      modifies bufs, this`order, this`stamp, this`clock, next, prev
      ensures Valid()
      ensures bufs[..] == old(bufs[..])[b := old(bufs[b].(locked := false, refcnt := bufs[b].refcnt - 1))]
      ensures order == if bufs[b].refcnt == 0 then [b] + Without(old(order), b) else old(order)
      ensures stamp == if bufs[b].refcnt == 0 then old(stamp)[b := old(clock)] else old(stamp)
    {
      hide Linked, Unique, Coherent, Permutation, ByRelease, Without;
      bufs[b] := bufs[b].(locked := false, refcnt := bufs[b].refcnt - 1);
      SameContents(old(bufs[..]), bufs[..], b);
      if bufs[b].refcnt == 0 {
        MoveToFront(b);
      }
    }
  }
}
