/** What every run of the buffer cache keeps. */
module BufferRingProofs {
  import opened Blocks
  import opened BufferRing

  lemma {:induction false} WithoutAt(order: seq<nat>, k: nat)
    requires k < |order|
    requires forall i, j :: 0 <= i < j < |order| ==> order[i] != order[j]
    ensures Without(order, order[k]) == order[..k] + order[k + 1..]
  {
    if k == 0 {
      WithoutAbsent(order[1..], order[0]);
    } else {
      WithoutAt(order[1..], k - 1);
      Rejoin(order, k);
    }
  }

  lemma Rejoin(o: seq<nat>, k: nat)
    requires 0 < k < |o|
    ensures [o[0]] + (o[1..][..k - 1] + o[1..][k..]) == o[..k] + o[k + 1..]
  {
    assert o[..k] == [o[0]] + o[1..][..k - 1];
    assert o[1..][k..] == o[k + 1..];
  }

  lemma {:induction false} WithoutAbsent(order: seq<nat>, i: nat)
    requires i !in order
    ensures Without(order, i) == order
  {
    if order != [] {
      WithoutAbsent(order[1..], i);
    }
  }

  lemma Position(order: seq<nat>, i: nat) returns (k: nat)
    requires Permutation(order) && i < NBUF
    ensures k < NBUF && order[k] == i
  {
    assert i in order;
    k :| 0 <= k < |order| && order[k] == i;
  }

  /** bget recycles the least recently released buffer among the unreferenced clean ones, and
      gives up only when there is none. */
  lemma VictimIsOldest(c: Cache, i: nat)
    requires Inv(c) && i < NBUF && Free(c.bufs[i])
    ensures var v := LastFree(c.order, c.bufs);
            0 <= v < NBUF && Free(c.bufs[v]) && (v == i || c.stamp[v] < c.stamp[i])
  {
    OldestFree(c.order, c.bufs, c.stamp, c.clock, i);
  }

  lemma OldestFree(order: seq<nat>, bufs: seq<Buf>, stamp: seq<nat>, clock: nat, i: nat)
    requires |bufs| == |stamp| == NBUF && Permutation(order) && ByRelease(order, stamp, clock)
    requires i < NBUF && Free(bufs[i])
    ensures var v := LastFree(order, bufs);
            0 <= v < NBUF && Free(bufs[v]) && (v == i || stamp[v] < stamp[i])
  {
    var k := Position(order, i);
    var v := LastFree(order, bufs);
    assert v != -1;
    var m :| 0 <= m < |order| && order[m] == v && forall j :: m < j < |order| ==> !Free(bufs[order[j]]);
    assert k <= m;
  }

  /** A hit is the only buffer with that identity. */
  lemma HitIsUnique(c: Cache, dev: nat, blockno: nat, i: nat)
    requires Inv(c) && i < NBUF && Is(c.bufs[i], dev, blockno)
    ensures FirstMatch(c.order, c.bufs, dev, blockno) != -1
    ensures !(dev == 0 && blockno == 0) ==> FirstMatch(c.order, c.bufs, dev, blockno) == i
  {
    var k := Position(c.order, i);
  }

  // ---- one buffer changes ----

  lemma KeepIdentity(bufs: seq<Buf>, refs: map<nat, Ref>, i: nat, b: Buf)
    requires i < |bufs| && Is(b, bufs[i].dev, bufs[i].blockno)
    requires Unique(bufs) && Named(bufs, refs)
    ensures Unique(bufs[i := b]) && Named(bufs[i := b], refs)
  {
  }

  /** An unreferenced buffer changes identity without any reference noticing. */
  lemma NewIdentity(bufs: seq<Buf>, refs: map<nat, Ref>, i: nat, b: Buf)
    requires i < |bufs| && bufs[i].refcnt == 0
    requires forall j :: 0 <= j < |bufs| ==> !Is(bufs[j], b.dev, b.blockno)
    requires Unique(bufs) && Named(bufs, refs) && Counted(bufs, refs)
    ensures Unique(bufs[i := b]) && Named(bufs[i := b], refs)
  {
    assert RefsTo(refs, i) == {};
    forall t | t in refs ensures refs[t].idx != i {
      assert t !in RefsTo(refs, i);
    }
  }

  lemma AddCounted(bufs: seq<Buf>, refs: map<nat, Ref>, t: nat, r: Ref, b: Buf)
    requires t !in refs && r.idx < |bufs| && Counted(bufs, refs)
    requires b.refcnt == bufs[r.idx].refcnt + 1
    ensures Counted(bufs[r.idx := b], refs[t := r])
  {
    var bufs', refs' := bufs[r.idx := b], refs[t := r];
    forall j | 0 <= j < |bufs| ensures bufs'[j].refcnt == |RefsTo(refs', j)| {
      if j == r.idx {
        assert t !in RefsTo(refs, j);
        assert RefsTo(refs', j) == RefsTo(refs, j) + {t};
      } else {
        assert RefsTo(refs', j) == RefsTo(refs, j);
      }
    }
  }

  lemma AddExclusive(bufs: seq<Buf>, refs: map<nat, Ref>, t: nat, r: Ref, b: Buf)
    requires t !in refs && r.idx < |bufs| && !r.stage.Holding? && Exclusive(bufs, refs)
    requires b.locked == bufs[r.idx].locked
    ensures Exclusive(bufs[r.idx := b], refs[t := r])
  {
    var refs' := refs[t := r];
    assert forall u :: Holds(refs', u) ==> Holds(refs, u) && refs'[u] == refs[u];
  }

  lemma MoveRef(bufs: seq<Buf>, refs: map<nat, Ref>, t: nat, stage: Stage, b: Buf)
    requires t in refs && refs[t].idx < |bufs| && b.refcnt == bufs[refs[t].idx].refcnt
    requires stage.Holding? ==> b.locked
    requires Holds(refs, t) || !bufs[refs[t].idx].locked
    requires Counted(bufs, refs) && Exclusive(bufs, refs)
    ensures var refs' := refs[t := refs[t].(stage := stage)];
            Counted(bufs[refs[t].idx := b], refs') && Exclusive(bufs[refs[t].idx := b], refs')
  {
    var bufs', refs' := bufs[refs[t].idx := b], refs[t := refs[t].(stage := stage)];
    forall j | 0 <= j < |bufs| ensures bufs'[j].refcnt == |RefsTo(refs', j)| {
      assert RefsTo(refs', j) == RefsTo(refs, j);
    }
    assert forall u :: Holds(refs', u) && u != t ==> Holds(refs, u) && refs[u].idx != refs[t].idx;
  }

  lemma DropRef(bufs: seq<Buf>, refs: map<nat, Ref>, t: nat, b: Buf)
    requires t in refs && refs[t].idx < |bufs| && b.refcnt + 1 == bufs[refs[t].idx].refcnt
    requires b.locked == bufs[refs[t].idx].locked
    requires Counted(bufs, refs) && Exclusive(bufs, refs)
    ensures Counted(bufs[refs[t].idx := b], refs - {t}) && Exclusive(bufs[refs[t].idx := b], refs - {t})
  {
    var bufs', refs' := bufs[refs[t].idx := b], refs - {t};
    forall j | 0 <= j < |bufs| ensures bufs'[j].refcnt == |RefsTo(refs', j)| {
      assert RefsTo(refs', j) == RefsTo(refs, j) - {t};
    }
    assert forall u :: Holds(refs', u) ==> Holds(refs, u) && refs'[u] == refs[u];
  }

  // ---- one step ----

  lemma GetInv(c: Cache, ref: nat, dev: nat, blockno: nat)
    requires Inv(c) && Enabled(c, Get(ref, dev, blockno))
    ensures Inv(Next(c, Get(ref, dev, blockno)))
  {
    var i := Target(c, dev, blockno);
    var d := Next(c, Get(ref, dev, blockno));
    var b := d.bufs[i];
    if FirstMatch(c.order, c.bufs, dev, blockno) == -1 {
      forall j | 0 <= j < NBUF ensures !Is(c.bufs[j], dev, blockno) {
        var k := Position(c.order, j);
      }
      NewIdentity(c.bufs, c.refs, i, b);
    } else {
      KeepIdentity(c.bufs, c.refs, i, b);
    }
    AddCounted(c.bufs, c.refs, ref, d.refs[ref], b);
    AddExclusive(c.bufs, c.refs, ref, d.refs[ref], b);
  }

  lemma NamedStage(bufs: seq<Buf>, refs: map<nat, Ref>, t: nat, stage: Stage)
    requires Named(bufs, refs) && t in refs
    ensures Named(bufs, refs[t := refs[t].(stage := stage)])
  {
  }

  /** A reference moves on and its buffer changes, but neither identity nor count does. */
  lemma MoveInv(c: Cache, ref: nat, b: Buf, stage: Stage)
    requires Inv(c) && ref in c.refs && c.refs[ref].idx < |c.bufs|
    requires Is(b, c.bufs[c.refs[ref].idx].dev, c.bufs[c.refs[ref].idx].blockno) && b.refcnt == c.bufs[c.refs[ref].idx].refcnt
    requires (stage.Holding? ==> b.locked) && (Holds(c.refs, ref) || !c.bufs[c.refs[ref].idx].locked)
    ensures Inv(Update(c, c.refs[ref].idx, b).(refs := c.refs[ref := c.refs[ref].(stage := stage)]))
  {
    hide Permutation, ByRelease, Unique, Named, Counted, Exclusive;
    KeepIdentity(c.bufs, c.refs, c.refs[ref].idx, b);
    NamedStage(c.bufs[c.refs[ref].idx := b], c.refs, ref, stage);
    MoveRef(c.bufs, c.refs, ref, stage, b);
  }

  lemma StageInv(c: Cache, step: Step)
    requires Inv(c) && Enabled(c, step) && !step.Get? && !step.Drop?
    ensures Inv(Next(c, step))
  {
    var ref := step.ref;
    var i := c.refs[ref].idx;
    var d := Next(c, step);
    assert c.refs[ref := c.refs[ref].(stage := c.refs[ref].stage)] == c.refs;
    assert Holds(c.refs, ref) || !c.bufs[i].locked;
    assert d.refs[ref].stage.Holding? ==> d.bufs[i].locked;
    var e := Update(c, i, d.bufs[i]).(refs := c.refs[ref := c.refs[ref].(stage := d.refs[ref].stage)]);
    assert d == e.(disk := d.disk, view := d.view);
    hide Inv;
    MoveInv(c, ref, d.bufs[i], d.refs[ref].stage);
    Blind(e, d);
  }

  lemma Blind(c: Cache, d: Cache)
    requires Inv(c) && d == c.(disk := d.disk, view := d.view)
    ensures Inv(d)
  {
  }

  lemma NamedDrop(bufs: seq<Buf>, refs: map<nat, Ref>, t: nat)
    requires Named(bufs, refs)
    ensures Named(bufs, refs - {t})
  {
  }

  /** Everything about a drop but the list order. */
  lemma DropCount(c: Cache, ref: nat, b: Buf)
    requires Inv(c) && Enabled(c, Drop(ref)) && b == c.bufs[c.refs[ref].idx].(refcnt := c.bufs[c.refs[ref].idx].refcnt - 1)
    ensures Inv(Update(c, c.refs[ref].idx, b).(refs := c.refs - {ref}))
  {
    hide Permutation, ByRelease, Unique, Named, Counted, Exclusive;
    KeepIdentity(c.bufs, c.refs, c.refs[ref].idx, b);
    NamedDrop(c.bufs[c.refs[ref].idx := b], c.refs, ref);
    DropRef(c.bufs, c.refs, ref, b);
  }

  /** Moving a buffer to the front with a fresh stamp keeps the list ordered by release. */
  lemma FrontInv(c: Cache, i: nat)
    requires Inv(c) && i < NBUF
    ensures Inv(c.(order := [i] + Without(c.order, i), stamp := c.stamp[i := c.clock], clock := c.clock + 1))
  {
    var k := Position(c.order, i);
    WithoutAt(c.order, k);
    assert [c.order[k]] + Without(c.order, c.order[k]) == Front(c.order, k);
    hide ByRelease, Unique, Named, Counted, Exclusive;
    FrontPermutation(c.order, k);
    FrontByRelease(c.order, k, c.stamp, c.clock);
  }

  lemma DropInv(c: Cache, ref: nat)
    requires Inv(c) && Enabled(c, Drop(ref))
    ensures Inv(Next(c, Drop(ref)))
  {
    var i := c.refs[ref].idx;
    var b := c.bufs[i].(refcnt := c.bufs[i].refcnt - 1);
    var d := Update(c, i, b).(refs := c.refs - {ref});
    DropCount(c, ref, b);
    DropIs(c, ref, d);
    hide Inv, Next, Without, Update;
    if b.refcnt == 0 {
      FrontInv(d, i);
    }
  }

  lemma DropIs(c: Cache, ref: nat, d: Cache)
    requires Shape(c) && Enabled(c, Drop(ref))
    requires var i := c.refs[ref].idx; d == Update(c, i, c.bufs[i].(refcnt := c.bufs[i].refcnt - 1)).(refs := c.refs - {ref})
    ensures var i := c.refs[ref].idx;
      Next(c, Drop(ref)) == (if c.bufs[i].refcnt > 1 then d
                             else d.(order := [i] + Without(d.order, i), stamp := d.stamp[i := d.clock], clock := d.clock + 1))
  {
    hide Without;
  }

  ghost function Front(order: seq<nat>, k: nat): (o: seq<nat>)
    requires k < |order|
    ensures |o| == |order| && o[0] == order[k]
    ensures forall j :: 1 <= j <= k ==> o[j] == order[j - 1]
    ensures forall j :: k < j < |order| ==> o[j] == order[j]
  {
    [order[k]] + (order[..k] + order[k + 1..])
  }

  lemma FrontPermutation(order: seq<nat>, k: nat)
    requires Permutation(order) && k < NBUF
    ensures Permutation(Front(order, k))
  {
    var o := Front(order, k);
    forall i: nat | i < NBUF ensures i in o {
      var j := Position(order, i);
      assert i == o[if j == k then 0 else if j < k then j + 1 else j];
    }
  }

  lemma FrontByRelease(order: seq<nat>, k: nat, stamp: seq<nat>, clock: nat)
    requires Permutation(order) && k < NBUF == |stamp| && ByRelease(order, stamp, clock)
    ensures ByRelease(Front(order, k), stamp[order[k] := clock], clock + 1)
  {
    var o := Front(order, k);
    var st := stamp[order[k] := clock];
    assert forall j :: 1 <= j < NBUF ==> o[j] != order[k] && st[o[j]] == stamp[o[j]];
  }

  lemma StepInv(c: Cache, step: Step)
    requires Inv(c) && Enabled(c, step)
    ensures Inv(Next(c, step))
  {
    match step
    case Get(ref, dev, blockno) => GetInv(c, ref, dev, blockno);
    case Drop(ref) => DropInv(c, ref);
    case _ => StageInv(c, step);
  }

  ghost predicate Reaches(c: Cache, steps: seq<Step>, d: Cache)
    decreases |steps|
  {
    if steps == [] then c == d
    else Shape(c) && Enabled(c, steps[0]) && Reaches(Next(c, steps[0]), steps[1..], d)
  }

  /** After binit: buffer NBUF-1 in front, all with identity (0, 0). */
  ghost predicate Init(c: Cache) {
    && Shape(c) && c.clock == NBUF && c.refs == map[]
    && (forall k :: 0 <= k < NBUF ==> c.order[k] == NBUF - 1 - k && c.stamp[k] == k)
    && (forall i :: 0 <= i < NBUF ==> c.bufs[i] == Buf(0, 0, false, false, 0, false, ZeroBlock()))
    && c.view == c.disk
  }

  lemma InitInv(c: Cache)
    requires Init(c)
    ensures Inv(c)
  {
    assert forall i :: RefsTo(c.refs, i) == {};
    forall i: nat | i < NBUF ensures i in c.order {
      assert c.order[NBUF - 1 - i] == i;
    }
  }

  lemma {:induction false} RunInv(c: Cache, steps: seq<Step>, d: Cache)
    requires Inv(c) && Reaches(c, steps, d)
    ensures Inv(d)
    decreases |steps|
  {
    if steps != [] {
      StepInv(c, steps[0]);
      RunInv(Next(c, steps[0]), steps[1..], d);
    }
  }

  lemma IdentityStep(c: Cache, step: Step, ref: nat)
    requires Shape(c) && Enabled(c, step) && ref in c.refs && step != Drop(ref)
    ensures ref in Next(c, step).refs && Next(c, step).refs[ref].(stage := Waiting) == c.refs[ref].(stage := Waiting)
  {
  }

  lemma RefShows(c: Cache, ref: nat)
    requires Inv(c) && ref in c.refs
    ensures c.refs[ref].idx < |c.bufs| && Is(c.bufs[c.refs[ref].idx], c.refs[ref].dev, c.refs[ref].blockno)
    ensures c.bufs[c.refs[ref].idx].refcnt > 0
  {
    assert ref in RefsTo(c.refs, c.refs[ref].idx);
  }

  /** Whatever other processes do while a reference waits in acquiresleep or is held, it keeps
      naming the same buffer, and that buffer keeps the identity asked for. */
  lemma {:induction false} IdentityKept(c: Cache, steps: seq<Step>, d: Cache, ref: nat)
    requires Inv(c) && Reaches(c, steps, d) && ref in c.refs
    requires forall i :: 0 <= i < |steps| ==> steps[i] != Drop(ref)
    ensures Inv(d) && ref in d.refs && d.refs[ref].(stage := Waiting) == c.refs[ref].(stage := Waiting)
    ensures c.refs[ref].idx < |d.bufs| && Is(d.bufs[c.refs[ref].idx], c.refs[ref].dev, c.refs[ref].blockno)
    ensures d.bufs[c.refs[ref].idx].refcnt > 0
    decreases |steps|
  {
    hide Inv, Next, Enabled, Is;
    if steps == [] {
      RefShows(c, ref);
    } else {
      StepInv(c, steps[0]);
      IdentityStep(c, steps[0], ref);
      IdentityKept(Next(c, steps[0]), steps[1..], d, ref);
    }
  }

  // ---- contents ----

  /** Recycling a clean buffer loses nothing: what it held is on disk. */
  lemma GetCoherent(c: Cache, i: nat, b: Buf)
    requires Inv(c) && Coherent(c.bufs, c.disk, c.view) && i < NBUF
    requires (b.(refcnt := c.bufs[i].refcnt, locked := c.bufs[i].locked) == c.bufs[i]) || (!c.bufs[i].dirty && !b.valid && !b.dirty)
    ensures Coherent(c.bufs[i := b], c.disk, c.view)
  {
    KeepsDirty(c.bufs, c.bufs[i := b], c.disk, c.view);
  }

  /** Whatever is behind on disk still has its dirty buffer. */
  lemma KeepsDirty(bufs: seq<Buf>, now: seq<Buf>, disk: seq<Block>, view: seq<Block>)
    requires Coherent(bufs, disk, view) && |now| == |bufs|
    requires forall i :: 0 <= i < |bufs| && bufs[i].dirty ==> now[i].dirty && now[i].blockno == bufs[i].blockno
    ensures forall b :: 0 <= b < |disk| && disk[b] != view[b] ==> exists i :: 0 <= i < |now| && now[i].dirty && now[i].blockno == b
  {
    forall b | 0 <= b < |disk| && disk[b] != view[b] ensures exists i :: 0 <= i < |now| && now[i].dirty && now[i].blockno == b {
      var i :| 0 <= i < |bufs| && bufs[i].dirty && bufs[i].blockno == b;
      assert now[i].dirty && now[i].blockno == b;
    }
  }

  lemma ReadCoherent(c: Cache, i: nat)
    requires Inv(c) && Coherent(c.bufs, c.disk, c.view) && i < NBUF && !c.bufs[i].valid && OnDisk(c, c.bufs[i])
    ensures Coherent(c.bufs[i := c.bufs[i].(valid := true, data := c.disk[c.bufs[i].blockno])], c.disk, c.view)
  {
    var b := c.bufs[i].blockno;
    assert c.disk[b] == c.view[b] by {
      assert forall j :: 0 <= j < NBUF && c.bufs[j].dirty && c.bufs[j].blockno == b ==> Is(c.bufs[j], ROOTDEV, b);
    }
    KeepsDirty(c.bufs, c.bufs[i := c.bufs[i].(valid := true, data := c.disk[b])], c.disk, c.view);
  }

  /** A new value goes to the one buffer of its block. */
  lemma WriteCoherent(bufs: seq<Buf>, disk: seq<Block>, view: seq<Block>, i: nat, b: Buf, image: seq<Block>)
    requires Unique(bufs) && Coherent(bufs, disk, view) && i < |bufs| && bufs[i].valid
    requires b == bufs[i].(dirty := b.dirty, data := b.data)
    requires image == if b.dirty then disk else disk[b.blockno := b.data]
    ensures Unique(bufs[i := b]) && Coherent(bufs[i := b], image, view[b.blockno := b.data])
  {
    var now, seen := bufs[i := b], view[b.blockno := b.data];
    forall j | 0 <= j < |now| && now[j].valid ensures now[j].data == seen[now[j].blockno] {
      assert j != i ==> !Is(bufs[j], ROOTDEV, b.blockno);
    }
    forall x | 0 <= x < |image| && image[x] != seen[x] ensures exists j :: 0 <= j < |now| && now[j].dirty && now[j].blockno == x {
      if x == b.blockno {
        assert now[i].dirty;
      } else {
        var j :| 0 <= j < |bufs| && bufs[j].dirty && bufs[j].blockno == x;
        assert now[j].dirty && now[j].blockno == x;
      }
    }
  }

  /** In every interleaving buffers, disk and block map stay coherent. */
  lemma StepCoherent(c: Cache, step: Step)
    requires Inv(c) && Enabled(c, step) && Coherent(c.bufs, c.disk, c.view)
    ensures Coherent(Next(c, step).bufs, Next(c, step).disk, Next(c, step).view)
  {
    var d := Next(c, step);
    match step
    case Get(ref, dev, blockno) =>
      var i := Target(c, dev, blockno);
      hide Coherent, Inv;
      GetCoherent(c, i, d.bufs[i]);
    case Read(ref) =>
      var i := c.refs[ref].idx;
      hide Coherent, Inv;
      if c.bufs[i].valid {
        assert d.bufs == c.bufs;
      } else {
        ReadCoherent(c, i);
      }
    case SetDirty(ref, data) =>
      var i := c.refs[ref].idx;
      hide Coherent, Inv;
      WriteCoherent(c.bufs, c.disk, c.view, i, d.bufs[i], d.disk);
    case WriteOut(ref, data) =>
      var i := c.refs[ref].idx;
      hide Coherent, Inv;
      WriteCoherent(c.bufs, c.disk, c.view, i, d.bufs[i], d.disk);
    case Acquire(ref) => hide Coherent, Inv; GetCoherent(c, c.refs[ref].idx, d.bufs[c.refs[ref].idx]);
    case Unlock(ref) => hide Coherent, Inv; GetCoherent(c, c.refs[ref].idx, d.bufs[c.refs[ref].idx]);
    case Drop(ref) => hide Coherent, Inv; GetCoherent(c, c.refs[ref].idx, d.bufs[c.refs[ref].idx]);
  }

  /** So whoever holds a buffer that has been read sees the last value given to log_write or bwrite for
      its block, whatever was evicted, reread or written meanwhile; and where the disk is behind, a
      dirty buffer keeps the value. */
  lemma {:induction false} RunCoherent(c: Cache, steps: seq<Step>, d: Cache)
    requires Inv(c) && Coherent(c.bufs, c.disk, c.view) && Reaches(c, steps, d)
    ensures Inv(d) && Coherent(d.bufs, d.disk, d.view)
    ensures forall r :: Holds(d.refs, r) && d.bufs[d.refs[r].idx].valid ==>
      d.refs[r].blockno < |d.view| && d.bufs[d.refs[r].idx].data == d.view[d.refs[r].blockno]
    decreases |steps|
  {
    if steps != [] {
      StepInv(c, steps[0]);
      StepCoherent(c, steps[0]);
      RunCoherent(Next(c, steps[0]), steps[1..], d);
    }
  }

  lemma InitCoherent(c: Cache)
    requires Init(c)
    ensures Inv(c) && Coherent(c.bufs, c.disk, c.view)
  {
    InitInv(c);
  }
}
