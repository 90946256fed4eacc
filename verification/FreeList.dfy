/** The K&R free list of umalloc.c as a value: blocks in address order, the static base first. */
module FreeList {

  /** A free block: header address and size, both in units of one header. */
  datatype Block = Block(addr: nat, size: nat)

  predicate Inside(b: Block, u: nat) {
    b.addr <= u < b.addr + b.size
  }

  /** Ascending, disjoint and fully coalesced: a gap follows every block. */
  ghost predicate Separated(f: seq<Block>) {
    && (forall k :: 0 < k < |f| ==> f[k].size > 0)
    && (forall j, k :: 0 <= j < k < |f| ==> f[j].addr + f[j].size < f[k].addr)
  }

  ghost predicate FreeUnit(f: seq<Block>, u: nat) {
    exists k :: 0 <= k < |f| && Inside(f[k], u)
  }

  /** Where address a belongs: after block k and before block k+1. */
  ghost predicate Place(f: seq<Block>, k: nat, a: nat) {
    k < |f| && f[k].addr < a && (k + 1 < |f| ==> a < f[k + 1].addr)
  }

  /** A block to be freed touches no free block's inside. */
  ghost predicate Apart(f: seq<Block>, b: Block) {
    forall k :: 0 <= k < |f| ==> f[k].addr + f[k].size <= b.addr || b.addr + b.size <= f[k].addr
  }

  predicate JoinsUp(f: seq<Block>, k: nat, b: Block)
    requires k < |f|
  {
    k + 1 < |f| && b.addr + b.size == f[k + 1].addr
  }

  predicate JoinsDown(f: seq<Block>, k: nat, b: Block)
    requires k < |f|
  {
    f[k].addr + f[k].size == b.addr
  }

  /** The block free() ends up with: b merged with the blocks it touches. */
  function Merged(f: seq<Block>, k: nat, b: Block): Block
    requires k < |f|
  {
    var up := if JoinsUp(f, k, b) then Block(b.addr, b.size + f[k + 1].size) else b;
    if JoinsDown(f, k, b) then Block(f[k].addr, f[k].size + up.size) else up
  }

  function Low(f: seq<Block>, k: nat, b: Block): nat
    requires k < |f|
  {
    if JoinsDown(f, k, b) then k else k + 1
  }

  function High(f: seq<Block>, k: nat, b: Block): nat
    requires k < |f|
  {
    if JoinsUp(f, k, b) then k + 2 else k + 1
  }

  /** Blocks lo..hi of the list replaced by m. */
  function Replaced(f: seq<Block>, lo: nat, hi: nat, m: Block): (g: seq<Block>)
    requires lo <= hi <= |f|
    ensures |g| == lo + 1 + |f| - hi
    ensures forall j :: 0 <= j < lo ==> g[j] == f[j]
    ensures g[lo] == m
    ensures forall j :: lo < j < |g| ==> g[j] == f[j - lo - 1 + hi]
  {
    f[..lo] + [m] + f[hi..]
  }

  /** The list after free(b), placed after block k. */
  function Freed(f: seq<Block>, k: nat, b: Block): seq<Block>
    requires k < |f|
  {
    Replaced(f, Low(f, k, b), High(f, k, b), Merged(f, k, b))
  }

  lemma ReplacedSeparated(f: seq<Block>, lo: nat, hi: nat, m: Block)
    requires Separated(f) && 0 < lo <= hi <= |f| && m.size > 0
    requires f[lo - 1].addr + f[lo - 1].size < m.addr
    requires hi < |f| ==> m.addr + m.size < f[hi].addr
    ensures Separated(Replaced(f, lo, hi, m))
  {
    var g := Replaced(f, lo, hi, m);
    assert forall j :: 0 <= j < lo ==> f[j].addr + f[j].size < m.addr;
    assert forall j :: hi <= j < |f| ==> m.addr + m.size < f[j].addr;
    hide Replaced;
    forall j, k | 0 <= j < k < |g| ensures g[j].addr + g[j].size < g[k].addr {
      if k < lo {
      } else if k == lo {
      } else {
        assert g[k] == f[k - lo - 1 + hi];
        if j > lo {
          assert g[j] == f[j - lo - 1 + hi];
        }
      }
    }
  }

  lemma ReplacedUnits(f: seq<Block>, lo: nat, hi: nat, m: Block, u: nat)
    requires lo <= hi <= |f|
    ensures FreeUnit(Replaced(f, lo, hi, m), u) <==>
      Inside(m, u) || exists j :: 0 <= j < |f| && !(lo <= j < hi) && Inside(f[j], u)
  {
    var g := Replaced(f, lo, hi, m);
    hide Replaced;
    if FreeUnit(g, u) && !Inside(m, u) {
      var j :| 0 <= j < |g| && Inside(g[j], u);
      var i := if j < lo then j else j - lo - 1 + hi;
      assert g[j] == f[i] && !(lo <= i < hi);
    }
    if Inside(m, u) {
      assert Inside(g[lo], u);
    }
    forall j | 0 <= j < |f| && !(lo <= j < hi) && Inside(f[j], u) ensures FreeUnit(g, u) {
      var i := if j < lo then j else j - hi + lo + 1;
      assert g[i] == f[j];
    }
  }

  lemma FreedSeparated(f: seq<Block>, k: nat, b: Block)
    requires Separated(f) && |f| > 0 && f[0].size == 0 && Place(f, k, b.addr) && Apart(f, b) && b.size > 0
    ensures Separated(Freed(f, k, b)) && Freed(f, k, b)[0] == f[0]
  {
    assert k > 0 ==> f[k - 1].addr + f[k - 1].size < f[k].addr;
    assert k + 1 < |f| ==> f[k].addr + f[k].size < f[k + 1].addr;
    assert k + 2 < |f| ==> f[k + 1].addr + f[k + 1].size < f[k + 2].addr;
    ReplacedSeparated(f, Low(f, k, b), High(f, k, b), Merged(f, k, b));
  }

  /** free() gives back exactly the units of the freed block. */
  lemma FreedUnits(f: seq<Block>, k: nat, b: Block, u: nat)
    requires Separated(f) && Place(f, k, b.addr) && Apart(f, b) && b.size > 0
    ensures FreeUnit(Freed(f, k, b), u) <==> FreeUnit(f, u) || Inside(b, u)
  {
    var lo, hi, m := Low(f, k, b), High(f, k, b), Merged(f, k, b);
    ReplacedUnits(f, lo, hi, m, u);
    assert Inside(m, u) <==> Inside(b, u) || (lo == k && Inside(f[k], u)) || (hi == k + 2 && Inside(f[k + 1], u));
    hide Replaced, Merged, Separated, Apart;
    if FreeUnit(f, u) {
      var j :| 0 <= j < |f| && Inside(f[j], u);
      assert lo <= j < hi ==> Inside(m, u);
    }
  }

  function Removed(f: seq<Block>, c: nat): (g: seq<Block>)
    requires c < |f|
    ensures |g| == |f| - 1
    ensures forall j :: 0 <= j < c ==> g[j] == f[j]
    ensures forall j :: c <= j < |g| ==> g[j] == f[j + 1]
  {
    f[..c] + f[c + 1..]
  }

  /** malloc's two ways of taking `units` from block c. */
  function Taken(f: seq<Block>, c: nat, units: nat): seq<Block>
    requires c < |f| && units <= f[c].size
  {
    if f[c].size == units then Removed(f, c) else f[c := Block(f[c].addr, f[c].size - units)]
  }

  /** The block malloc hands out: the tail end of block c. */
  function Handed(f: seq<Block>, c: nat, units: nat): Block
    requires c < |f| && units <= f[c].size
  {
    Block(f[c].addr + f[c].size - units, units)
  }

  lemma TakenSeparated(f: seq<Block>, c: nat, units: nat)
    requires Separated(f) && 0 < c < |f| && 0 < units <= f[c].size
    ensures Separated(Taken(f, c, units)) && |Taken(f, c, units)| > 0 && Taken(f, c, units)[0] == f[0]
    ensures Apart(Taken(f, c, units), Handed(f, c, units))
  {
    hide Removed;
    var g := Taken(f, c, units);
    if f[c].size == units {
      assert forall j :: 0 <= j < |g| ==> g[j] == f[if j < c then j else j + 1];
    }
  }

  lemma RemovedUnits(f: seq<Block>, c: nat, u: nat)
    requires c < |f|
    ensures FreeUnit(Removed(f, c), u) <==> exists j :: 0 <= j < |f| && j != c && Inside(f[j], u)
  {
    var g := Removed(f, c);
    hide Removed;
    if FreeUnit(g, u) {
      var j :| 0 <= j < |g| && Inside(g[j], u);
      var i := if j < c then j else j + 1;
      assert i != c && g[j] == f[i];
    }
    forall j | 0 <= j < |f| && j != c && Inside(f[j], u) ensures FreeUnit(g, u) {
      var i := if j < c then j else j - 1;
      assert g[i] == f[j];
    }
  }

  /** malloc takes exactly the units it hands out. */
  lemma TakenUnits(f: seq<Block>, c: nat, units: nat, u: nat)
    requires 0 < c < |f| && 0 < units <= f[c].size
    ensures FreeUnit(f, u) <==> FreeUnit(Taken(f, c, units), u) || Inside(Handed(f, c, units), u)
  {
    if f[c].size == units {
      RemovedUnits(f, c, u);
      hide Removed;
      assert Inside(Handed(f, c, units), u) <==> Inside(f[c], u);
    } else {
      var g := Taken(f, c, units);
      assert Inside(f[c], u) <==> Inside(g[c], u) || Inside(Handed(f, c, units), u);
      assert forall j :: 0 <= j < |f| && j != c ==> f[j] == g[j];
    }
  }

  /** Exactly one place in the list is right for an address above base. */
  lemma PlaceUnique(f: seq<Block>, k: nat, j: nat, a: nat)
    requires Separated(f) && Place(f, k, a) && Place(f, j, a)
    ensures k == j
  {
  }

  /** Freeing what malloc just handed out restores the list, merges included. */
  lemma TakeThenFree(f: seq<Block>, c: nat, units: nat, k: nat)
    requires Separated(f) && 0 < c < |f| && 0 < units <= f[c].size
    requires Place(Taken(f, c, units), k, Handed(f, c, units).addr)
    ensures Freed(Taken(f, c, units), k, Handed(f, c, units)) == f
  {
    var g, h := Taken(f, c, units), Handed(f, c, units);
    var at := if f[c].size == units then c - 1 else c;
    assert f[c - 1].addr + f[c - 1].size < f[c].addr;
    assert c + 1 < |f| ==> f[c].addr + f[c].size < f[c + 1].addr;
    TakenSeparated(f, c, units);
    assert Place(g, at, h.addr);
    PlaceUnique(g, k, at, h.addr);
    hide Separated, Place;
    assert Low(g, k, h) == c && !JoinsUp(g, k, h);
    assert Merged(g, k, h) == f[c];
    var back := Freed(g, k, h);
    assert |back| == |f|;
    forall j | 0 <= j < |f| ensures back[j] == f[j] {
    }
  }
}
