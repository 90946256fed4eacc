/** The history the buffer cache machine keeps is the run's own: when each buffer was last released,
    and what each block was last given. */
module CacheHistory {
  import opened Blocks
  import opened BufferRing
  import opened BufferRingProofs

  ghost predicate IsRun(cs: seq<Cache>, steps: seq<Step>) {
    |cs| == |steps| + 1
    && forall k :: 0 <= k < |steps| ==> Shape(cs[k]) && Enabled(cs[k], steps[k]) && cs[k + 1] == Next(cs[k], steps[k])
  }

  /** The brelse that drops buffer b to no references. */
  predicate Releases(c: Cache, a: Step, b: nat) {
    a.Drop? && a.ref in c.refs && c.refs[a.ref].idx == b < |c.bufs| && c.bufs[b].refcnt == 1
  }

  /** The last of the first k steps that released b; before any, binit's order, the highest number last. */
  ghost function LastRelease(cs: seq<Cache>, steps: seq<Step>, k: nat, b: nat): (r: int)
    requires k <= |steps| < |cs| && b < NBUF
    ensures b - NBUF <= r < k
  {
    if k == 0 then b - NBUF
    else if Releases(cs[k - 1], steps[k - 1], b) then k - 1
    else LastRelease(cs, steps, k - 1, b)
  }

  lemma {:induction false} RunInvAt(cs: seq<Cache>, steps: seq<Step>, k: nat)
    requires IsRun(cs, steps) && Init(cs[0]) && k <= |steps|
    ensures Inv(cs[k])
  {
    if k == 0 {
      InitInv(cs[0]);
    } else {
      RunInvAt(cs, steps, k - 1);
      assert cs[k - 1 + 1] == Next(cs[k - 1], steps[k - 1]);
      StepInv(cs[k - 1], steps[k - 1]);
    }
  }

  lemma StampStep(c: Cache, a: Step, b: nat)
    requires Inv(c) && Enabled(c, a) && b < NBUF
    ensures |Next(c, a).stamp| == |c.stamp| == NBUF
    ensures Next(c, a).stamp[b] == if Releases(c, a, b) then c.clock else c.stamp[b]
    ensures forall x, y: nat :: Releases(c, a, x) && Releases(c, a, y) ==> x == y
  {
  }

  lemma StampBound(c: Cache, b: nat)
    requires Inv(c) && b < NBUF
    ensures c.stamp[b] < c.clock
  {
  }

  /** The stamps order buffers as the run's releases do. */
  lemma {:induction false} StampsAreReleases(cs: seq<Cache>, steps: seq<Step>, k: nat, a: nat, b: nat)
    requires IsRun(cs, steps) && Init(cs[0]) && k <= |steps| && a < NBUF && b < NBUF
    ensures |cs[k].stamp| == NBUF
    ensures cs[k].stamp[a] < cs[k].stamp[b] <==> LastRelease(cs, steps, k, a) < LastRelease(cs, steps, k, b)
    decreases k
  {
    if k > 0 {
      StampsAreReleases(cs, steps, k - 1, a, b);
      RunInvAt(cs, steps, k - 1);
      var c, step := cs[k - 1], steps[k - 1];
      assert cs[k - 1 + 1] == Next(c, step) && Enabled(c, step);
      hide IsRun, Init, Inv, Next, Enabled, Releases;
      StampStep(c, step, a);
      StampStep(c, step, b);
      StampBound(c, a);
      StampBound(c, b);
    }
  }

  /** In every run, the list has every buffer before those the run released earlier. */
  lemma ListByRelease(cs: seq<Cache>, steps: seq<Step>, k: nat, i: nat, j: nat)
    requires IsRun(cs, steps) && Init(cs[0]) && k <= |steps| && i < j < NBUF
    ensures |cs[k].order| == NBUF && cs[k].order[i] < NBUF && cs[k].order[j] < NBUF
    ensures LastRelease(cs, steps, k, cs[k].order[i]) > LastRelease(cs, steps, k, cs[k].order[j])
  {
    RunInvAt(cs, steps, k);
    var order := cs[k].order;
    StampsAreReleases(cs, steps, k, order[j], order[i]);
    hide IsRun, Init;
    assert cs[k].stamp[order[i]] > cs[k].stamp[order[j]];
  }

  /** So the buffer bget recycles is the free one that the run released longest ago. */
  lemma VictimReleasedFirst(cs: seq<Cache>, steps: seq<Step>, k: nat, i: nat)
    requires IsRun(cs, steps) && Init(cs[0]) && k <= |steps| && i < NBUF && |cs[k].bufs| == NBUF && Free(cs[k].bufs[i])
    ensures Order(cs[k].order, cs[k].bufs)
    ensures var v := LastFree(cs[k].order, cs[k].bufs);
      0 <= v < NBUF && Free(cs[k].bufs[v]) && (v == i || LastRelease(cs, steps, k, v) < LastRelease(cs, steps, k, i))
  {
    RunInvAt(cs, steps, k);
    VictimIsOldest(cs[k], i);
    StampsAreReleases(cs, steps, k, LastFree(cs[k].order, cs[k].bufs), i);
    hide IsRun, Init, LastRelease;
  }

  /** A step that gives block x new contents in the cache, and one that also writes them to disk. */
  predicate Gives(c: Cache, a: Step, x: nat) {
    (a.SetDirty? || a.WriteOut?) && a.ref in c.refs && c.refs[a.ref].blockno == x
  }

  predicate Puts(c: Cache, a: Step, x: nat) {
    a.WriteOut? && a.ref in c.refs && c.refs[a.ref].blockno == x
  }

  lemma ContentsStep(c: Cache, a: Step, x: nat)
    requires Inv(c) && Enabled(c, a) && x < |c.view| == |c.disk|
    ensures |Next(c, a).view| == |Next(c, a).disk| == |c.view|
    ensures Next(c, a).view[x] == if Gives(c, a, x) then a.data else c.view[x]
    ensures Next(c, a).disk[x] == if Puts(c, a, x) then a.data else c.disk[x]
  {
    hide Permutation, ByRelease, Unique, Counted, Exclusive, Target, Without;
  }

  /** What block x was last given in the first k steps, and what was last written to it. */
  ghost function LastGiven(cs: seq<Cache>, steps: seq<Step>, k: nat, x: nat): Block
    requires k <= |steps| < |cs| && x < |cs[0].view|
  {
    if k == 0 then cs[0].view[x]
    else if Gives(cs[k - 1], steps[k - 1], x) then steps[k - 1].data
    else LastGiven(cs, steps, k - 1, x)
  }

  ghost function LastPut(cs: seq<Cache>, steps: seq<Step>, k: nat, x: nat): Block
    requires k <= |steps| < |cs| && x < |cs[0].disk|
  {
    if k == 0 then cs[0].disk[x]
    else if Puts(cs[k - 1], steps[k - 1], x) then steps[k - 1].data
    else LastPut(cs, steps, k - 1, x)
  }

  lemma {:induction false} ContentsAreRun(cs: seq<Cache>, steps: seq<Step>, k: nat, x: nat)
    requires IsRun(cs, steps) && Init(cs[0]) && k <= |steps| && x < |cs[0].view|
    ensures |cs[k].view| == |cs[k].disk| == |cs[0].view| == |cs[0].disk|
    ensures cs[k].view[x] == LastGiven(cs, steps, k, x) && cs[k].disk[x] == LastPut(cs, steps, k, x)
    decreases k
  {
    if k > 0 {
      ContentsAreRun(cs, steps, k - 1, x);
      RunInvAt(cs, steps, k - 1);
      var c, step := cs[k - 1], steps[k - 1];
      assert cs[k - 1 + 1] == Next(c, step) && Enabled(c, step);
      hide IsRun, Init, Inv, Next, Enabled, Gives, Puts;
      ContentsStep(c, step, x);
    }
  }

  lemma {:induction false} RunCoherentAt(cs: seq<Cache>, steps: seq<Step>, k: nat)
    requires IsRun(cs, steps) && Init(cs[0]) && k <= |steps|
    ensures Inv(cs[k]) && Coherent(cs[k].bufs, cs[k].disk, cs[k].view)
    decreases k
  {
    if k == 0 {
      InitCoherent(cs[0]);
    } else {
      RunCoherentAt(cs, steps, k - 1);
      assert cs[k - 1 + 1] == Next(cs[k - 1], steps[k - 1]) && Enabled(cs[k - 1], steps[k - 1]);
      hide IsRun, Init, Coherent, Inv, Next, Enabled;
      StepInv(cs[k - 1], steps[k - 1]);
      StepCoherent(cs[k - 1], steps[k - 1]);
    }
  }

  /** In every run, whoever holds a buffer that has been read sees what its block was last given, by
      whichever process, evictions and rereads included. */
  lemma HolderSeesLastGiven(cs: seq<Cache>, steps: seq<Step>, k: nat, ref: nat)
    requires IsRun(cs, steps) && Init(cs[0]) && k <= |steps| && Holds(cs[k].refs, ref)
    requires cs[k].refs[ref].idx < |cs[k].bufs| && cs[k].bufs[cs[k].refs[ref].idx].valid
    ensures var x := cs[k].refs[ref].blockno;
      x < |cs[0].view| && cs[k].bufs[cs[k].refs[ref].idx].data == LastGiven(cs, steps, k, x)
  {
    RunCoherentAt(cs, steps, k);
    ViewSize(cs, steps, k);
    hide IsRun, Init;
    var r := cs[k].refs[ref];
    assert Is(cs[k].bufs[r.idx], r.dev, r.blockno);
    ContentsAreRun(cs, steps, k, r.blockno);
  }

  lemma {:induction false} ViewSize(cs: seq<Cache>, steps: seq<Step>, k: nat)
    requires IsRun(cs, steps) && Init(cs[0]) && k <= |steps|
    ensures |cs[k].view| == |cs[0].view|
    decreases k
  {
    if k > 0 {
      ViewSize(cs, steps, k - 1);
      assert cs[k - 1 + 1] == Next(cs[k - 1], steps[k - 1]);
      hide Target, Without;
    }
  }
}
