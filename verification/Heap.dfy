/** umalloc.c: malloc and free over a circular list of headers kept inside the memory they manage. */
module Heap {
  import opened FreeList

  /** morecore asks sbrk for at least this many units. */
  const MIN_CORE: nat := 4096

  /** KERNBASE, the top of user memory, in units. */
  const TOP: nat := 0x1000_0000

  /** One header-sized cell of memory (8 bytes); a payload cell holds the same two words. */
  datatype Cell = Cell(ptr: nat, size: nat)

  function Next(f: seq<Block>, k: nat): nat
    requires k < |f|
  {
    if k + 1 < |f| then k + 1 else 0
  }

  /** The header of block k holds its size and the address of the block after it. */
  ghost predicate Link(mem: map<nat, Cell>, f: seq<Block>, k: nat)
    requires k < |f|
  {
    f[k].addr in mem && mem[f[k].addr] == Cell(f[Next(f, k)].addr, f[k].size)
  }

  /** The headers in memory spell the list f, closed into a ring. */
  ghost predicate Linked(mem: map<nat, Cell>, f: seq<Block>) {
    forall k :: 0 <= k < |f| ==> Link(mem, f, k)
  }

  /** Unit u belongs to a block some caller holds. */
  ghost predicate LiveUnit(live: map<nat, nat>, u: nat) {
    exists a :: a in live && a <= u < a + live[a]
  }

  /** Held blocks lie above base, overlap neither each other nor a free block, and carry their size. */
  ghost predicate LiveOk(mem: map<nat, Cell>, f: seq<Block>, live: map<nat, nat>, base: nat) {
    && (forall a :: a in live ==> base < a && live[a] > 0 && a in mem && mem[a].size == live[a])
    && (forall a, b :: a in live && b in live && a < b ==> a + live[a] <= b)
    && (forall a :: a in live ==> Apart(f, Block(a, live[a])))
  }

  ghost predicate Accounted(f: seq<Block>, live: map<nat, nat>, owned: set<nat>) {
    forall u: nat :: u in owned <==> FreeUnit(f, u) || LiveUnit(live, u)
  }

  ghost predicate Bounds(mem: map<nat, Cell>, f: seq<Block>, owned: set<nat>, base: nat, brk: nat) {
    && |f| > 0 && f[0] == Block(base, 0) && 0 < base < brk && base in mem
    && (forall u :: u in owned ==> base < u < brk && u in mem)
  }

  /** Steps along the ring from index i to index e. */
  function Distance(n: nat, i: nat, e: nat): nat
    requires i < n && e < n
  {
    if i <= e then e - i else n - i + e
  }

  lemma LinkedReplaced(mem: map<nat, Cell>, after: map<nat, Cell>, f: seq<Block>, lo: nat, hi: nat, m: Block)
    requires Linked(mem, f) && 0 < lo <= hi <= |f|
    requires m.addr in after && after[m.addr] == Cell(if hi < |f| then f[hi].addr else f[0].addr, m.size)
    requires f[lo - 1].addr in after && after[f[lo - 1].addr] == Cell(m.addr, f[lo - 1].size)
    requires forall j :: 0 <= j < |f| && j != lo - 1 && !(lo <= j < hi) ==>
      f[j].addr in mem && f[j].addr in after && after[f[j].addr] == mem[f[j].addr]
    ensures Linked(after, Replaced(f, lo, hi, m))
  {
    var g := Replaced(f, lo, hi, m);
    hide Replaced;
    forall k | 0 <= k < |g| ensures Link(after, g, k) {
      if k < lo - 1 {
        assert Link(mem, f, k) && g[k] == f[k] && g[k + 1] == f[k + 1];
      } else if k > lo {
        var i := k - lo - 1 + hi;
        assert Link(mem, f, i) && g[k] == f[i] && g[Next(g, k)] == f[Next(f, i)];
      }
    }
  }

  lemma LinkedRemoved(mem: map<nat, Cell>, after: map<nat, Cell>, f: seq<Block>, c: nat)
    requires Linked(mem, f) && 0 < c < |f|
    requires f[c - 1].addr in after && after[f[c - 1].addr] == Cell(f[Next(f, c)].addr, f[c - 1].size)
    requires forall j :: 0 <= j < |f| && j != c - 1 && j != c ==>
      f[j].addr in mem && f[j].addr in after && after[f[j].addr] == mem[f[j].addr]
    ensures Linked(after, Removed(f, c))
  {
    var g := Removed(f, c);
    hide Removed;
    forall k | 0 <= k < |g| ensures Link(after, g, k) {
      if k < c - 1 {
        assert Link(mem, f, k) && g[k] == f[k] && g[k + 1] == f[k + 1];
      } else if k >= c {
        assert Link(mem, f, k + 1) && g[k] == f[k + 1] && g[Next(g, k)] == f[Next(f, k + 1)];
      }
    }
  }

  lemma {:induction false} PlaceExists(f: seq<Block>, a: nat, n: nat) returns (k: nat)
    requires Separated(f) && 0 < n <= |f| && f[0].addr < a
    requires n < |f| ==> a < f[n].addr
    requires forall j :: 0 <= j < |f| ==> f[j].addr != a
    ensures Place(f, k, a)
  {
    if f[n - 1].addr < a {
      k := n - 1;
    } else {
      k := PlaceExists(f, a, n - 1);
    }
  }

  /** What free() does to memory, list and held blocks keeps the whole invariant. */
  lemma FreeKeeps(mem: map<nat, Cell>, f: seq<Block>, live: map<nat, nat>, owned: set<nat>, base: nat, brk: nat,
                  after: map<nat, Cell>, k: nat, bp: nat)
    requires Bounds(mem, f, owned, base, brk) && Accounted(f, live, owned) && LiveOk(mem, f, live, base)
    requires Separated(f) && bp in live && Place(f, k, bp)
    requires mem.Keys <= after.Keys
    requires forall u :: u in mem && u != bp && u != f[k].addr ==> after[u] == mem[u]
    ensures Bounds(after, Freed(f, k, Block(bp, live[bp])), owned, base, brk)
    ensures Accounted(Freed(f, k, Block(bp, live[bp])), live - {bp}, owned)
    ensures LiveOk(after, Freed(f, k, Block(bp, live[bp])), live - {bp}, base)
    ensures Separated(Freed(f, k, Block(bp, live[bp])))
  {
    var b, rest := Block(bp, live[bp]), live - {bp};
    var g := Freed(f, k, b);
    FreedSeparated(f, k, b);
    FreeAccounts(f, live, owned, k, bp);
    forall a | a in rest ensures Apart(g, Block(a, live[a])) && after[a] == mem[a] {
      FreedApart(f, k, b, Block(a, live[a]));
      assert Apart(f, Block(a, live[a]));
    }
  }

  lemma FreeAccounts(f: seq<Block>, live: map<nat, nat>, owned: set<nat>, k: nat, bp: nat)
    requires Accounted(f, live, owned) && Separated(f) && bp in live && live[bp] > 0
    requires Place(f, k, bp) && Apart(f, Block(bp, live[bp]))
    ensures Accounted(Freed(f, k, Block(bp, live[bp])), live - {bp}, owned)
  {
    var b, rest := Block(bp, live[bp]), live - {bp};
    forall u: nat ensures u in owned <==> FreeUnit(Freed(f, k, b), u) || LiveUnit(rest, u) {
      FreedUnits(f, k, b, u);
      hide Freed, FreeUnit, Separated, Place, Apart;
      if LiveUnit(live, u) {
        var a :| a in live && a <= u < a + live[a];
        assert a == bp || a in rest;
      }
      if LiveUnit(rest, u) {
        var a :| a in rest && a <= u < a + rest[a];
        assert a in live;
      }
    }
  }

  lemma FreedApart(f: seq<Block>, k: nat, b: Block, d: Block)
    requires Separated(f) && Place(f, k, b.addr) && Apart(f, b) && Apart(f, d) && b.size > 0 && d.size > 0
    requires d.addr + d.size <= b.addr || b.addr + b.size <= d.addr
    ensures Apart(Freed(f, k, b), d)
  {
    var lo, hi, m := Low(f, k, b), High(f, k, b), Merged(f, k, b);
    assert m.addr + m.size <= d.addr || d.addr + d.size <= m.addr;
    var g := Replaced(f, lo, hi, m);
    hide Replaced, Separated, Merged;
    forall j | 0 <= j < |g| ensures g[j].addr + g[j].size <= d.addr || d.addr + d.size <= g[j].addr {
      if j > lo {
        assert g[j] == f[j - lo - 1 + hi];
      }
    }
  }

  /** A free block's header is no part of a held block. */
  lemma HeaderNotLive(mem: map<nat, Cell>, f: seq<Block>, live: map<nat, nat>, base: nat, k: nat)
    requires LiveOk(mem, f, live, base) && Separated(f) && k < |f| && f[0] == Block(base, 0)
    ensures !LiveUnit(live, f[k].addr)
  {
    assert k > 0 ==> f[k].size > 0;
    forall a | a in live ensures !(a <= f[k].addr < a + live[a]) {
      assert Apart(f, Block(a, live[a]));
    }
  }

  /** The part of block c that malloc hands out is no part of a held block. */
  lemma HandedNotLive(mem: map<nat, Cell>, f: seq<Block>, live: map<nat, nat>, base: nat, c: nat, u: nat)
    requires LiveOk(mem, f, live, base) && c < |f| && Inside(f[c], u)
    ensures !LiveUnit(live, u)
  {
    forall a | a in live ensures !(a <= u < a + live[a]) {
      assert Apart(f, Block(a, live[a]));
    }
  }

  lemma TakeAccounts(f: seq<Block>, live: map<nat, nat>, owned: set<nat>, c: nat, units: nat)
    requires Accounted(f, live, owned) && 0 < c < |f| && 0 < units <= f[c].size
    requires Handed(f, c, units).addr !in live
    ensures Accounted(Taken(f, c, units), live[Handed(f, c, units).addr := units], owned)
  {
    var h := Handed(f, c, units);
    var more := live[h.addr := units];
    forall u: nat ensures u in owned <==> FreeUnit(Taken(f, c, units), u) || LiveUnit(more, u) {
      TakenUnits(f, c, units, u);
      hide Taken, FreeUnit;
      if LiveUnit(live, u) {
        var a :| a in live && a <= u < a + live[a];
        assert a in more && more[a] == live[a];
      }
      if LiveUnit(more, u) {
        var a :| a in more && a <= u < a + more[a];
        assert a == h.addr || a in live;
      }
      if Inside(h, u) {
        assert h.addr in more;
      }
    }
  }

  lemma TakenApart(f: seq<Block>, c: nat, units: nat, d: Block)
    requires Apart(f, d) && 0 < c < |f| && 0 < units <= f[c].size && d.size > 0
    ensures Apart(Taken(f, c, units), d)
    ensures Handed(f, c, units).addr + units <= d.addr || d.addr + d.size <= Handed(f, c, units).addr
  {
    var g := Taken(f, c, units);
    hide Removed;
    forall j | 0 <= j < |g| ensures g[j].addr + g[j].size <= d.addr || d.addr + d.size <= g[j].addr {
      if f[c].size == units && j >= c {
        assert g[j] == f[j + 1];
      }
    }
  }

  /** What malloc's carving does to memory, list and held blocks keeps the whole invariant. */
  lemma TakeKeeps(mem: map<nat, Cell>, f: seq<Block>, live: map<nat, nat>, owned: set<nat>, base: nat, brk: nat,
                  after: map<nat, Cell>, c: nat, units: nat)
    requires Bounds(mem, f, owned, base, brk) && Accounted(f, live, owned) && LiveOk(mem, f, live, base)
    requires Separated(f) && 0 < c < |f| && 0 < units <= f[c].size
    requires mem.Keys <= after.Keys
    requires forall u :: u in mem && LiveUnit(live, u) ==> after[u] == mem[u]
    requires Handed(f, c, units).addr in after && after[Handed(f, c, units).addr].size == units
    ensures Bounds(after, Taken(f, c, units), owned, base, brk)
    ensures Accounted(Taken(f, c, units), live[Handed(f, c, units).addr := units], owned)
    ensures LiveOk(after, Taken(f, c, units), live[Handed(f, c, units).addr := units], base)
    ensures Separated(Taken(f, c, units)) && Handed(f, c, units).addr !in live
  {
    var h := Handed(f, c, units);
    var more := live[h.addr := units];
    HandedNotLive(mem, f, live, base, c, h.addr);
    assert h.addr in live ==> LiveUnit(live, h.addr);
    TakenSeparated(f, c, units);
    TakeAccounts(f, live, owned, c, units);
    forall a | a in live ensures Apart(Taken(f, c, units), Block(a, live[a])) && after[a] == mem[a]
      && (h.addr + units <= a || a + live[a] <= h.addr)
    {
      assert LiveUnit(live, a);
      TakenApart(f, c, units, Block(a, live[a]));
    }
    assert f[0].addr + f[0].size < f[c].addr;
    hide Taken, Apart, FreeUnit, Separated;
  }

  /** malloc's size computation, in 32-bit arithmetic: header plus payload rounded up. */
  function Units(nbytes: nat): (n: nat)
    requires nbytes < 0x1_0000_0000
    ensures 0 < n <= 0x2000_0000
  {
    (nbytes + 7) % 0x1_0000_0000 / 8 + 1
  }

  /** morecore's `nu * sizeof(Header)`, a uint, as the int that sbrk takes. */
  function SbrkArg(nu: nat): (n: int)
    requires nu <= 0x2000_0000
    ensures -0x8000_0000 <= n < 0x8000_0000 && n % 8 == 0
  {
    var bytes := nu * 8 % 0x1_0000_0000;
    if bytes < 0x8000_0000 then bytes else bytes - 0x1_0000_0000
  }

  /** The argument is the size asked for exactly below half the address space; otherwise it is not even positive. */
  lemma ArgMeaning(nu: nat)
    requires 0 < nu <= 0x2000_0000
    ensures SbrkArg(nu) == (if nu * 8 < 0x8000_0000 then nu * 8 else nu * 8 - 0x1_0000_0000)
    ensures SbrkArg(nu) > 0 <==> nu < TOP
  {
  }

  /** The requests that ask sbrk for what they need: up to 0x7FFF_FFF0 bytes, or so many that the sum wraps. */
  lemma RequestFits(nbytes: nat)
    requires nbytes < 0x1_0000_0000
    ensures Units(nbytes) < TOP <==> nbytes <= 0x7FFF_FFF0 || nbytes > 0xFFFF_FFF8
    ensures SbrkArg(Units(nbytes)) > 0 <==> nbytes <= 0x7FFF_FFF0 || nbytes > 0xFFFF_FFF8
  {
    ArgMeaning(Units(nbytes));
  }

  /** The first request for which it does not: sbrk is asked to give back all it can name. */
  lemma FirstBadRequest()
    ensures Units(0x7FFF_FFF1) * 8 == 0x8000_0000 && SbrkArg(Units(0x7FFF_FFF1)) == -0x8000_0000
    ensures forall nbytes: nat :: nbytes < 0x7FFF_FFF1 ==> SbrkArg(Units(nbytes)) > 0
  {
    forall nbytes: nat | nbytes < 0x7FFF_FFF1 ensures SbrkArg(Units(nbytes)) > 0 {
      RequestFits(nbytes);
    }
  }

  /** The payload holds nbytes exactly when the sum does not wrap. */
  lemma UnitsSuffice(nbytes: nat)
    requires nbytes < 0x1_0000_0000
    ensures nbytes <= 8 * (Units(nbytes) - 1) <==> nbytes <= 0x1_0000_0000 - 8 || nbytes == 0
    ensures nbytes <= 0x1_0000_0000 - 8 ==> 8 * (Units(nbytes) - 1) < nbytes + 8
  {
  }

  ghost predicate HeapInv(mem: map<nat, Cell>, f: seq<Block>, live: map<nat, nat>, owned: set<nat>, base: nat, brk: nat) {
    && Bounds(mem, f, owned, base, brk)
    && Accounted(f, live, owned)
    && LiveOk(mem, f, live, base)
    && Separated(f)
  }

  ghost predicate Fits(f: seq<Block>, units: nat) {
    exists c :: 0 <= c < |f| && f[c].size >= units
  }

  /** free()'s two stopping tests together hold at exactly one block: the one bp belongs after. */
  lemma SearchStops(f: seq<Block>, k: nat, target: nat, bp: nat)
    requires Separated(f) && k < |f| && f[0].addr < bp && Place(f, target, bp)
    ensures k == target <==>
      || (bp > f[k].addr && bp < f[Next(f, k)].addr)
      || (f[k].addr >= f[Next(f, k)].addr && (bp > f[k].addr || bp < f[Next(f, k)].addr))
    ensures k != target ==> Distance(|f|, Next(f, k), target) < Distance(|f|, k, target)
  {
    assert k + 1 < |f| ==> f[k].addr + f[k].size < f[k + 1].addr;
    assert k < target ==> f[k + 1].addr <= f[target].addr;
    assert target < k ==> f[target + 1].addr <= f[k].addr;
    assert k > 0 ==> f[0].addr < f[k].addr;
  }

  lemma LiveAbove(mem: map<nat, Cell>, f: seq<Block>, live: map<nat, nat>, base: nat, bp: nat) returns (target: nat)
    requires LiveOk(mem, f, live, base) && Separated(f) && |f| > 0 && f[0] == Block(base, 0) && bp in live
    ensures base < bp && Place(f, target, bp)
  {
    assert Apart(f, Block(bp, live[bp]));
    assert forall j :: 0 < j < |f| ==> f[j].size > 0;
    target := PlaceExists(f, bp, |f|);
  }

  /** The address of block k of the ring, index |f| standing for the first block again. */
  function Ring(f: seq<Block>, k: nat): nat
    requires |f| > 0 && k <= |f|
  {
    if k < |f| then f[k].addr else f[0].addr
  }

  /** The headers free() leaves behind: p's and, unless merged into p, the freed block's. */
  ghost predicate FreeStores(mem: map<nat, Cell>, after: map<nat, Cell>, f: seq<Block>, k: nat, b: Block)
    requires k < |f|
  {
    var p, m, next := f[k].addr, Merged(f, k, b), Ring(f, High(f, k, b));
    && p in mem && b.addr in mem && after.Keys == mem.Keys
    && after[p] == (if JoinsDown(f, k, b) then Cell(next, m.size) else Cell(b.addr, f[k].size))
    && (!JoinsDown(f, k, b) ==> after[b.addr] == Cell(next, m.size))
    && (forall u :: u in mem && u != p && u != b.addr ==> after[u] == mem[u])
  }

  lemma FreeLinks(mem: map<nat, Cell>, after: map<nat, Cell>, f: seq<Block>, k: nat, b: Block)
    requires Linked(mem, f) && Separated(f) && k < |f| && f[0].size == 0 && f[0].addr < b.addr
    requires forall j :: 0 <= j < |f| ==> f[j].addr != b.addr
    requires FreeStores(mem, after, f, k, b)
    ensures Linked(after, Freed(f, k, b))
  {
    var lo := Low(f, k, b);
    if lo == k {
      assert Link(mem, f, k - 1);
    }
    forall j | 0 <= j < |f| && j != lo - 1 && !(lo <= j < High(f, k, b))
      ensures f[j].addr in mem && f[j].addr in after && after[f[j].addr] == mem[f[j].addr]
    {
      assert Link(mem, f, j);
      assert f[j].addr != f[k].addr;
    }
    LinkedReplaced(mem, after, f, lo, High(f, k, b), Merged(f, k, b));
  }

  lemma HeldHeader(mem: map<nat, Cell>, f: seq<Block>, live: map<nat, nat>, owned: set<nat>, base: nat, brk: nat, bp: nat)
    requires HeapInv(mem, f, live, owned, base, brk) && bp in live
    ensures base < bp && bp in mem && mem[bp].size == live[bp] && |f| > 0 && f[0] == Block(base, 0)
    ensures forall j :: 0 <= j < |f| ==> f[j].addr != bp
  {
    assert Apart(f, Block(bp, live[bp]));
    assert forall j :: 0 < j < |f| ==> f[j].size > 0;
  }

  /** The cells of the blocks in `live` keep their contents. */
  ghost predicate Kept(mem: map<nat, Cell>, after: map<nat, Cell>, live: map<nat, nat>) {
    forall u :: LiveUnit(live, u) ==> u in mem && u in after && after[u] == mem[u]
  }

  lemma FreeKept(mem: map<nat, Cell>, after: map<nat, Cell>, f: seq<Block>, live: map<nat, nat>, base: nat,
                 k: nat, bp: nat, u: nat)
    requires LiveOk(mem, f, live, base) && Separated(f) && k < |f| && f[0] == Block(base, 0) && bp in live
    requires FreeStores(mem, after, f, k, Block(bp, live[bp])) && u in mem && LiveUnit(live - {bp}, u)
    ensures after[u] == mem[u]
  {
    HeaderNotLive(mem, f, live, base, k);
    var rest := live - {bp};
    var a :| a in rest && a <= u < a + rest[a];
    assert a in live && LiveUnit(live, u);
  }

  /** One call of free(), on values: invariant, ring, held cells. */
  lemma FreeStep(mem: map<nat, Cell>, after: map<nat, Cell>, f: seq<Block>, live: map<nat, nat>, owned: set<nat>,
                 base: nat, brk: nat, k: nat, bp: nat)
    requires HeapInv(mem, f, live, owned, base, brk) && Linked(mem, f) && bp in live && Place(f, k, bp)
    requires FreeStores(mem, after, f, k, Block(bp, live[bp]))
    ensures HeapInv(after, Freed(f, k, Block(bp, live[bp])), live - {bp}, owned, base, brk)
    ensures Linked(after, Freed(f, k, Block(bp, live[bp])))
    ensures Kept(mem, after, live - {bp}) && after.Keys == mem.Keys
    ensures |Freed(f, k, Block(bp, live[bp]))| > k && Freed(f, k, Block(bp, live[bp]))[k].addr == f[k].addr > 0
  {
    assert k > 0 ==> f[0].addr < f[k].addr;
    HeldHeader(mem, f, live, owned, base, brk, bp);
    FreeKeeps(mem, f, live, owned, base, brk, after, k, bp);
    FreeLinks(mem, after, f, k, Block(bp, live[bp]));
    var rest := live - {bp};
    forall u: nat | LiveUnit(rest, u) ensures u in mem && after[u] == mem[u] {
      var a :| a in rest && a <= u < a + rest[a];
      assert LiveUnit(live, u) by { assert a in live; }
      FreeKept(mem, after, f, live, base, k, bp, u);
    }
  }

  /** The units p, p+1, ... of a block of n units. */
  function Range(p: nat, n: nat): (s: set<nat>)
    ensures forall u: nat :: u in s <==> p <= u < p + n
  {
    if n == 0 then {} else Range(p, n - 1) + {p + n - 1}
  }

  /** The headers malloc writes when it takes `units` from block c. */
  ghost predicate TakeStores(mem: map<nat, Cell>, after: map<nat, Cell>, f: seq<Block>, c: nat, units: nat)
    requires 0 < c < |f| && units <= f[c].size
  {
    var prev, h := f[c - 1].addr, Handed(f, c, units).addr;
    && prev in mem && f[c].addr in mem && h in mem && after.Keys == mem.Keys
    && (if f[c].size == units
        then after == mem[prev := Cell(f[Next(f, c)].addr, f[c - 1].size)]
        else after == mem[f[c].addr := Cell(f[Next(f, c)].addr, f[c].size - units)][h := Cell(mem[h].ptr, units)])
  }

  lemma TakeKept(mem: map<nat, Cell>, after: map<nat, Cell>, f: seq<Block>, live: map<nat, nat>, base: nat, c: nat, units: nat)
    requires LiveOk(mem, f, live, base) && Separated(f) && 0 < c < |f| && f[0] == Block(base, 0) && 0 < units <= f[c].size
    requires TakeStores(mem, after, f, c, units)
    ensures forall u :: u in mem && LiveUnit(live, u) ==> after[u] == mem[u]
  {
    HeaderNotLive(mem, f, live, base, c - 1);
    HeaderNotLive(mem, f, live, base, c);
    HandedNotLive(mem, f, live, base, c, Handed(f, c, units).addr);
  }

  lemma TakeLinks(mem: map<nat, Cell>, after: map<nat, Cell>, f: seq<Block>, c: nat, units: nat)
    requires Linked(mem, f) && Separated(f) && 0 < c < |f| && 0 < units <= f[c].size && TakeStores(mem, after, f, c, units)
    ensures Linked(after, Taken(f, c, units))
  {
    var h := Handed(f, c, units).addr;
    assert Inside(f[c], h);
    forall j | 0 <= j < |f| && j != c && (f[c].size == units ==> j != c - 1)
      ensures f[j].addr in mem && f[j].addr in after && after[f[j].addr] == mem[f[j].addr]
    {
      assert Link(mem, f, j);
      assert j < c ==> f[j].addr + f[j].size < f[c].addr;
      assert c < j ==> f[c].addr + f[c].size < f[j].addr;
      assert j < c - 1 ==> f[j].addr + f[j].size < f[c - 1].addr;
      assert c - 1 < j ==> f[c - 1].addr + f[c - 1].size < f[j].addr;
    }
    if f[c].size == units {
      LinkedRemoved(mem, after, f, c);
    } else {
      var g := Taken(f, c, units);
      hide Separated;
      forall j | 0 <= j < |g| ensures Link(after, g, j) {
        assert Link(mem, f, j);
        assert g[Next(g, j)].addr == f[Next(f, j)].addr;
      }
    }
  }

  lemma HandedIn(mem: map<nat, Cell>, f: seq<Block>, live: map<nat, nat>, owned: set<nat>, base: nat, brk: nat, c: nat, units: nat)
    requires HeapInv(mem, f, live, owned, base, brk) && c < |f| && 0 < units <= f[c].size
    ensures Handed(f, c, units).addr in mem
  {
    assert Inside(f[c], Handed(f, c, units).addr);
    assert FreeUnit(f, Handed(f, c, units).addr);
  }

  lemma LiveOwned(f: seq<Block>, live: map<nat, nat>, owned: set<nat>, u: nat)
    requires Accounted(f, live, owned) && LiveUnit(live, u)
    ensures u in owned
  {
  }

  /** One successful malloc(), on values. */
  lemma TakeStep(mem: map<nat, Cell>, after: map<nat, Cell>, f: seq<Block>, live: map<nat, nat>, owned: set<nat>,
                 base: nat, brk: nat, c: nat, units: nat)
    requires HeapInv(mem, f, live, owned, base, brk) && Linked(mem, f) && 0 < c < |f| && 0 < units <= f[c].size
    requires TakeStores(mem, after, f, c, units)
    ensures HeapInv(after, Taken(f, c, units), live[Handed(f, c, units).addr := units], owned, base, brk)
    ensures Linked(after, Taken(f, c, units)) && Kept(mem, after, live) && Handed(f, c, units).addr !in live
    ensures |Taken(f, c, units)| >= c && Taken(f, c, units)[c - 1] == f[c - 1] && f[c - 1].addr > 0
  {
    BeforeTaken(f, c, units);
    TakenHeader(mem, after, f, c, units);
    hide Linked, Separated, LiveOk, Accounted, TakeStores, Taken, Handed, LiveUnit;
    TakeKept(mem, after, f, live, base, c, units);
    TakeLinks(mem, after, f, c, units);
    TakeKeeps(mem, f, live, owned, base, brk, after, c, units);
    forall u | LiveUnit(live, u) ensures u in mem {
      LiveOwned(f, live, owned, u);
    }
  }

  lemma BeforeTaken(f: seq<Block>, c: nat, units: nat)
    requires Separated(f) && 0 < c < |f| && 0 < units <= f[c].size
    ensures |Taken(f, c, units)| >= c && Taken(f, c, units)[c - 1] == f[c - 1] && f[0].addr <= f[c - 1].addr
  {
    assert c > 1 ==> f[0].addr < f[c - 1].addr;
  }

  lemma TakenHeader(mem: map<nat, Cell>, after: map<nat, Cell>, f: seq<Block>, c: nat, units: nat)
    requires Linked(mem, f) && Separated(f) && 0 < c < |f| && 0 < units <= f[c].size && TakeStores(mem, after, f, c, units)
    ensures Handed(f, c, units).addr in after && after[Handed(f, c, units).addr].size == units && after.Keys == mem.Keys
  {
    assert Link(mem, f, c);
  }

  /** Everything the allocator manages lies below the break. */
  lemma BelowBreak(mem: map<nat, Cell>, f: seq<Block>, live: map<nat, nat>, owned: set<nat>, base: nat, brk: nat)
    requires HeapInv(mem, f, live, owned, base, brk)
    ensures forall a :: a in live ==> a < brk && a + live[a] <= brk
    ensures forall k :: 0 <= k < |f| ==> f[k].addr < brk && f[k].addr + f[k].size <= brk
  {
    forall a | a in live ensures a < brk && a + live[a] <= brk {
      assert LiveUnit(live, a + live[a] - 1);
    }
    forall k | 0 <= k < |f| ensures f[k].addr < brk && f[k].addr + f[k].size <= brk {
      if k > 0 {
        assert f[k].size > 0;
        assert Inside(f[k], f[k].addr + f[k].size - 1);
        assert FreeUnit(f, f[k].addr + f[k].size - 1);
      }
    }
  }

  lemma GrowAccounts(f: seq<Block>, live: map<nat, nat>, owned: set<nat>, p: nat, n: nat)
    requires Accounted(f, live, owned) && p !in live && n > 0
    ensures Accounted(f, live[p := n], owned + Range(p, n))
  {
    var more := live[p := n];
    hide Range, FreeUnit;
    forall u: nat ensures u in owned + Range(p, n) <==> FreeUnit(f, u) || LiveUnit(more, u) {
      if LiveUnit(live, u) {
        var a :| a in live && a <= u < a + live[a];
        assert a in more && more[a] == live[a];
      }
      if LiveUnit(more, u) {
        var a :| a in more && a <= u < a + more[a];
        assert a == p || a in live;
      }
      if u in Range(p, n) {
        assert p in more;
      }
    }
  }

  /** The break moved: cells from p on are fresh, everything below is as it was. */
  ghost predicate Extended(mem: map<nat, Cell>, after: map<nat, Cell>, p: nat, n: nat) {
    && n > 0 && after.Keys == mem.Keys + Range(p, n) && after[p].size == n
    && forall u :: u in mem && u < p ==> after[u] == mem[u]
  }

  lemma GrowLive(mem: map<nat, Cell>, after: map<nat, Cell>, f: seq<Block>, live: map<nat, nat>, base: nat, p: nat, n: nat)
    requires LiveOk(mem, f, live, base) && Extended(mem, after, p, n) && base < p
    requires forall a :: a in live ==> a + live[a] <= p
    requires forall k :: 0 <= k < |f| ==> f[k].addr < p && f[k].addr + f[k].size <= p
    ensures LiveOk(after, f, live[p := n], base)
  {
    hide Range;
    var more := live[p := n];
    assert forall a :: a in live ==> a < p;
    assert Apart(f, Block(p, n));
    forall a | a in more ensures Apart(f, Block(a, more[a])) {
      assert a != p ==> Apart(f, Block(a, live[a]));
    }
  }

  lemma GrowLinks(mem: map<nat, Cell>, after: map<nat, Cell>, f: seq<Block>, p: nat, n: nat)
    requires Linked(mem, f) && Extended(mem, after, p, n)
    requires forall k :: 0 <= k < |f| ==> f[k].addr < p
    ensures Linked(after, f)
  {
    hide Range;
    forall k | 0 <= k < |f| ensures Link(after, f, k) {
      assert Link(mem, f, k);
    }
  }

  lemma GrowKept(mem: map<nat, Cell>, after: map<nat, Cell>, f: seq<Block>, live: map<nat, nat>, owned: set<nat>,
                 base: nat, brk: nat, p: nat, n: nat)
    requires Bounds(mem, f, owned, base, brk) && Accounted(f, live, owned) && Extended(mem, after, p, n) && p >= brk
    ensures Kept(mem, after, live) && Bounds(after, f, owned + Range(p, n), base, p + n)
  {
    hide Range;
    forall u: nat | LiveUnit(live, u) ensures u in mem && u < p {
      LiveOwned(f, live, owned, u);
    }
    hide Accounted, LiveUnit;
  }

  /** Cells fresh from sbrk join the heap as one held block. */
  lemma GrowStep(mem: map<nat, Cell>, after: map<nat, Cell>, f: seq<Block>, live: map<nat, nat>, owned: set<nat>,
                 base: nat, brk: nat, p: nat, n: nat)
    requires HeapInv(mem, f, live, owned, base, brk) && Linked(mem, f) && p >= brk && Extended(mem, after, p, n)
    ensures HeapInv(after, f, live[p := n], owned + Range(p, n), base, p + n)
    ensures Linked(after, f) && Kept(mem, after, live) && p !in live
  {
    hide Range;
    BelowBreak(mem, f, live, owned, base, brk);
    GrowAccounts(f, live, owned, p, n);
    GrowLive(mem, after, f, live, base, p, n);
    GrowLinks(mem, after, f, p, n);
    GrowKept(mem, after, f, live, owned, base, brk, p, n);
    hide Accounted, Linked, Separated, LiveOk, Kept;
  }

  lemma KeptSelf(mem: map<nat, Cell>, f: seq<Block>, live: map<nat, nat>, owned: set<nat>, base: nat, brk: nat)
    requires HeapInv(mem, f, live, owned, base, brk)
    ensures Kept(mem, mem, live)
  {
    forall u: nat | LiveUnit(live, u) ensures u in mem {
      LiveOwned(f, live, owned, u);
    }
  }

  lemma KeptTrans(mem: map<nat, Cell>, mid: map<nat, Cell>, after: map<nat, Cell>, live: map<nat, nat>)
    requires Kept(mem, mid, live) && Kept(mid, after, live)
    ensures Kept(mem, after, live)
  {
  }

  lemma FreedFits(f: seq<Block>, k: nat, b: Block, units: nat)
    requires k < |f| && b.size >= units
    ensures Fits(Freed(f, k, b), units)
  {
    assert Freed(f, k, b)[Low(f, k, b)] == Merged(f, k, b);
  }

  /** Every block large enough is still ahead: met no later than block e when walking from block i. */
  ghost predicate Ahead(f: seq<Block>, i: nat, e: nat, units: nat)
    requires i < |f| && e < |f|
  {
    forall c :: 0 <= c < |f| && f[c].size >= units ==> Distance(|f|, i, c) <= Distance(|f|, i, e)
  }

  lemma AheadStart(f: seq<Block>, e: nat, units: nat)
    requires e < |f|
    ensures Ahead(f, Next(f, e), e, units)
  {
  }

  lemma AheadStep(f: seq<Block>, i: nat, e: nat, units: nat)
    requires i < |f| && e < |f| && Ahead(f, i, e, units) && f[i].size < units && i != e
    ensures Ahead(f, Next(f, i), e, units) && Distance(|f|, Next(f, i), e) < Distance(|f|, i, e)
  {
  }

  lemma AheadEnd(f: seq<Block>, e: nat, units: nat)
    requires e < |f| && Ahead(f, e, e, units) && f[e].size < units
    ensures !Fits(f, units)
  {
  }

  lemma Walk(mem: map<nat, Cell>, f: seq<Block>, k: nat)
    requires Linked(mem, f) && k < |f|
    ensures f[k].addr in mem && mem[f[k].addr] == Cell(f[Next(f, k)].addr, f[k].size)
  {
    assert Link(mem, f, k);
  }

  lemma FirstEmpty(mem: map<nat, Cell>, f: seq<Block>, live: map<nat, nat>, owned: set<nat>, base: nat, brk: nat)
    requires HeapInv(mem, f, live, owned, base, brk)
    ensures |f| > 0 && f[0].size == 0
  {
  }

  lemma SameIndex(mem: map<nat, Cell>, f: seq<Block>, live: map<nat, nat>, owned: set<nat>, base: nat, brk: nat, i: nat, j: nat)
    requires HeapInv(mem, f, live, owned, base, brk) && i < |f| && j < |f| && f[i].addr == f[j].addr
    ensures i == j
  {
  }

  /** The heap only ever gains units, and only from above the break. */
  ghost predicate GrewAbove(was: set<nat>, owned: set<nat>, brk: nat) {
    was <= owned && forall u :: u in owned && u !in was ==> u >= brk
  }

  /** Nothing is mapped at or above the break, which stays below KERNBASE. */
  ghost predicate UnderBreak(mem: map<nat, Cell>, brk: nat) {
    brk < TOP && forall u :: u in mem ==> u < brk
  }

  lemma StillUnder(mem: map<nat, Cell>, after: map<nat, Cell>, brk: nat)
    requires UnderBreak(mem, brk) && after.Keys == mem.Keys
    ensures UnderBreak(after, brk)
  {
    assert forall u :: u in after ==> u in mem;
  }

  lemma GrownUnder(mem: map<nat, Cell>, after: map<nat, Cell>, brk: nat, p: nat, n: nat)
    requires UnderBreak(mem, brk) && brk <= p && p + n < TOP && after.Keys == mem.Keys + Range(p, n)
    ensures UnderBreak(after, p + n)
  {
    assert forall u :: u in after ==> u in mem || u in Range(p, n);
  }

  ghost predicate OnList(f: seq<Block>, freep: nat) {
    exists k :: 0 <= k < |f| && f[k].addr == freep
  }

  /** Before malloc's first call there is no list; from then on freep points into it. */
  ghost predicate Started(mem: map<nat, Cell>, f: seq<Block>, live: map<nat, nat>, freep: nat) {
    if freep == 0 then |f| == 1 && live == map[] else Linked(mem, f) && OnList(f, freep)
  }

  /** c is the first block after freep, in ring order, with at least `units` units. */
  ghost predicate FirstFit(f: seq<Block>, freep: nat, c: nat, units: nat) {
    && c < |f| && f[c].size >= units
    && exists e: nat :: e < |f| && f[e].addr == freep && Ahead(f, c, e, units)
  }

  /** Giving back `bytes` would leave nothing. */
  predicate GivesAll(brk: nat, bytes: int) {
    bytes < 0 && 8 * brk + bytes == 0
  }

  /** The break after sbrk(bytes) that does not grow: there may be less to give back than was named. */
  function Lowered(brk: nat, bytes: int): nat {
    if 8 * brk + bytes <= 0 || bytes >= 0 then brk else (8 * brk + bytes) / 8
  }

  /** sbrk, asked for n units too many for its int, answered hp: no cell from hp on exists, the break did not rise, and
      of the old `cells` exactly those below it are left, or none. */
  ghost predicate Unbacked(was: nat, cells: set<nat>, n: nat, brk: nat, mem: map<nat, Cell>, hp: nat) {
    && n <= 0x2000_0000 && brk == Lowered(was, SbrkArg(n)) <= was
    && hp == (if GivesAll(was, SbrkArg(n)) then 0 else was)
    && (forall u :: u in mem ==> u < was)
    && forall u :: u in mem <==> hp != 0 && u in cells && u < brk
  }

  class Allocator {
    var mem: map<nat, Cell>
    var freep: nat
    var brk: nat
    const base: nat
    ghost var free: seq<Block>
    ghost var live: map<nat, nat>
    ghost var owned: set<nat>

    ghost predicate Valid()
      reads this
    {
      HeapInv(mem, free, live, owned, base, brk) && Started(mem, free, live, freep) && UnderBreak(mem, brk)
    }

    constructor (base: nat, brk: nat)
      requires 0 < base < brk < TOP
      ensures Valid() && live == map[] && owned == {} && freep == 0
    {
      this.base, this.brk := base, brk;
      mem, freep := map[base := Cell(0, 0)], 0;
      free, live, owned := [Block(base, 0)], map[], {};
    }

    /** The search of free(): stop at the block after which bp belongs. */
    method FindPlace(bp: nat) returns (p: nat, ghost k: nat)
      requires Valid() && freep != 0 && bp in live
      ensures k < |free| && Place(free, k, bp) && free[k].addr == p
    {
      hide Separated, LiveOk, Accounted, Place;
      ghost var target := LiveAbove(mem, free, live, base, bp);
      p := freep;
      assert Linked(mem, free);
      k :| 0 <= k < |free| && free[k].addr == freep;
      assert Link(mem, free, k);
      while !(bp > p && bp < mem[p].ptr)
        invariant k < |free| && free[k].addr == p && p in mem
        decreases Distance(|free|, k, target)
      {
        assert Link(mem, free, k);
        SearchStops(free, k, target, bp);
        if p >= mem[p].ptr && (bp > p || bp < mem[p].ptr) {
          break;
        }
        p := mem[p].ptr;
        k := Next(free, k);
        assert Link(mem, free, k);
      }
      assert Link(mem, free, k);
      SearchStops(free, k, target, bp);
    }

    /** free()'s stores, once the place p for bp is known. */
    method Insert(p: nat, bp: nat, ghost k: nat)
      requires Linked(mem, free) && k < |free| && free[k].addr == p && bp in mem && p != bp
      requires base < bp && free[0] == Block(base, 0)
      requires k + 1 < |free| ==> free[k + 1].addr != bp
      modifies this`mem
      ensures FreeStores(old(mem), mem, free, k, Block(bp, old(mem[bp].size)))
    {
      assert Link(mem, free, k);
      assert Link(mem, free, Next(free, k));
      var next := mem[p].ptr;
      if bp + mem[bp].size == next {
        mem := mem[bp := Cell(mem[next].ptr, mem[bp].size + mem[next].size)];
      } else {
        mem := mem[bp := Cell(next, mem[bp].size)];
      }
      if p + mem[p].size == bp {
        mem := mem[p := Cell(mem[bp].ptr, mem[p].size + mem[bp].size)];
      } else {
        mem := mem[p := Cell(bp, mem[p].size)];
      }
    }

    /** free(ap): the block goes back to the list, merged with the free blocks it touches. */
    method Free(ap: nat) returns (ghost k: nat)
      requires Valid() && freep != 0 && ap > 0 && ap - 1 in live
      modifies this`mem, this`freep, this`free, this`live
      ensures Valid() && live == old(live) - {ap - 1} && Kept(old(mem), mem, live) && mem.Keys == old(mem.Keys)
      ensures Place(old(free), k, ap - 1) && free == Freed(old(free), k, Block(ap - 1, old(live[ap - 1])))
      ensures k < |free| && freep == free[k].addr == old(free)[k].addr && freep != 0
    {
      hide HeapInv, Bounds, Separated, Accounted, LiveOk, FreeStores, Kept, Linked, Place, Freed, UnderBreak;
      var bp := ap - 1;
      var p;
      p, k := FindPlace(bp);
      ghost var b := Block(bp, live[bp]);
      HeldHeader(mem, free, live, owned, base, brk, bp);
      Insert(p, bp, k);
      FreeStep(old(mem), mem, free, live, owned, base, brk, k, bp);
      StillUnder(old(mem), mem, brk);
      freep := p;
      free := Freed(free, k, b);
      live := live - {bp};
      assert 0 <= k < |free| && free[k].addr == freep;
    }

    /** malloc's last step: unlink block c, or cut `units` off its end. */
    method Take(prevp: nat, p: nat, units: nat, ghost c: nat) returns (r: nat)
      requires Valid() && freep != 0 && 0 < c < |free| && free[c].addr == p && free[c - 1].addr == prevp
      requires 0 < units <= free[c].size
      modifies this`mem, this`freep, this`free, this`live
      ensures Valid() && r > 0 && r - 1 == Handed(old(free), c, units).addr && r - 1 !in old(live)
      ensures live == old(live)[r - 1 := units] && free == Taken(old(free), c, units) && freep == prevp
      ensures Kept(old(mem), mem, old(live))
    {
      hide Separated, Accounted, LiveOk, Kept, Taken, UnderBreak;
      HandedIn(mem, free, live, owned, base, brk, c, units);
      hide Bounds, HeapInv;
      assert Link(mem, free, c) && Link(mem, free, c - 1);
      var h := p;
      if mem[p].size == units {
        mem := mem[prevp := Cell(mem[p].ptr, mem[prevp].size)];
      } else {
        mem := mem[p := Cell(mem[p].ptr, mem[p].size - units)];
        h := p + mem[p].size;
        mem := mem[h := Cell(mem[h].ptr, units)];
      }
      freep := prevp;
      TakeStep(old(mem), mem, free, live, owned, base, brk, c, units);
      TakenHeader(old(mem), mem, free, c, units);
      StillUnder(old(mem), mem, brk);
      hide Linked;
      live := live[h := units];
      free := Taken(free, c, units);
      assert 0 <= c - 1 < |free| && free[c - 1].addr == freep;
      r := h + 1;
    }

    /** sbrk(bytes), with growproc's result.  To grow: refuse, or return zeroed cells at or above the
        old break.  Otherwise it returns the old break, having lowered it if there is enough to give
        back; to give back everything unmaps all and fails. */
    method Sbrk(bytes: int) returns (p: nat)
      requires brk > 0 && UnderBreak(mem, brk) && bytes % 8 == 0
      modifies this`brk, this`mem
      ensures bytes > 0 && p == 0 ==> brk == old(brk) && mem == old(mem)
      ensures bytes > 0 && p != 0 ==> p >= old(brk) && brk == p + bytes / 8 < TOP
      ensures bytes > 0 && p != 0 ==> mem == old(mem) + (map u | u in Range(p, bytes / 8) :: Cell(0, 0))
      ensures bytes <= 0 ==> p == if GivesAll(old(brk), bytes) then 0 else old(brk)
      ensures bytes <= 0 ==> brk == Lowered(old(brk), bytes)
      ensures bytes <= 0 ==> mem == if GivesAll(old(brk), bytes) then map[] else (map u | u in old(mem) && u < brk :: old(mem)[u])
    {
      if bytes > 0 {
        if brk + bytes / 8 >= TOP {
          return 0;
        }
        if * {
          return 0;
        }
        p :| brk <= p && p + bytes / 8 < TOP;
        brk := p + bytes / 8;
        mem := mem + (map u | u in Range(p, bytes / 8) :: Cell(0, 0));
      } else if GivesAll(brk, bytes) {
        p := 0;
        mem := map[];
      } else {
        p := brk;
        brk := Lowered(brk, bytes);
        mem := map u | u in mem && u < brk :: mem[u];
      }
    }

    /** morecore's first half: the new cells, headed by their size, as a held block.  `ok` is false, and
        hp is what sbrk answered, when sbrk was not asked to grow: the header then has no cell. */
    method Extend(n: nat) returns (ok: bool, hp: nat)
      requires Valid() && freep != 0 && 0 < n <= 0x2000_0000
      modifies this`brk, this`mem, this`live, this`owned
      ensures ok <==> n < TOP
      ensures ok ==> Valid() && Kept(old(mem), mem, old(live))
      ensures ok && hp == 0 ==> brk == old(brk) && mem == old(mem) && live == old(live) && owned == old(owned)
      ensures ok && hp != 0 ==> hp >= old(brk) && hp !in old(live) && live == old(live)[hp := n] && owned == old(owned) + Range(hp, n)
      ensures !ok ==> live == old(live) && owned == old(owned) && Unbacked(old(brk), old(mem.Keys), n, brk, mem, hp)
    {
      hide LiveOk, Accounted, Separated, Linked, Kept, Range;
      ArgMeaning(n);
      hp := Sbrk(SbrkArg(n));
      ok := SbrkArg(n) > 0;
      if !ok {
        return;
      }
      KeptSelf(old(mem), free, live, owned, base, old(brk));
      if hp != 0 {
        mem := mem[hp := Cell(mem[hp].ptr, n)];
        assert Extended(old(mem), mem, hp, n);
        GrowStep(old(mem), mem, free, live, owned, base, old(brk), hp, n);
        GrownUnder(old(mem), mem, old(brk), hp, n);
        hide HeapInv, UnderBreak;
        live := live[hp := n];
        owned := owned + Range(hp, n);
      }
    }

    /** morecore(nu): ask for at least MIN_CORE units and free() them into the list. */
    method Morecore(nu: nat) returns (ok: bool, p: nat, ghost k: nat)
      requires Valid() && freep != 0 && 0 < nu <= 0x2000_0000
      modifies this
      ensures ok <==> nu < TOP
      ensures ok ==> Valid() && live == old(live) && Kept(old(mem), mem, live) && freep != 0
      ensures ok && p == 0 ==> free == old(free) && owned == old(owned) && brk == old(brk) && mem == old(mem) && freep == old(freep)
      ensures ok && p != 0 ==> p == freep && k < |free| && free[k].addr == p && Fits(free, nu)
      ensures ok ==> GrewAbove(old(owned), owned, old(brk))
      ensures !ok ==> live == old(live) && owned == old(owned) && free == old(free) && Unbacked(old(brk), old(mem.Keys), nu, brk, mem, p)
    {
      hide HeapInv, LiveOk, Accounted, Separated, Linked, Kept, Range, Fits, Freed, UnderBreak, Unbacked;
      var n := if nu < MIN_CORE then MIN_CORE else nu;
      var hp;
      k := 0;
      ok, hp := Extend(n);
      if !ok || hp == 0 {
        return ok, hp, 0;
      }
      ghost var grown := mem;
      k := Free(hp + 1);
      assert live == old(live);
      KeptTrans(old(mem), grown, mem, live);
      FreedFits(old(free), k, Block(hp, n), nu);
      p := freep;
    }

    /** malloc's first call makes the list of the one empty base block. */
    method Start()
      requires Valid()
      modifies this`mem, this`freep
      ensures Valid() && freep != 0 && Kept(old(mem), mem, live) && mem.Keys == old(mem.Keys)
      ensures old(freep) != 0 ==> mem == old(mem) && freep == old(freep)
    {
      KeptSelf(mem, free, live, owned, base, brk);
      if freep == 0 {
        mem := mem[base := Cell(base, 0)];
        freep := base;
        assert free[0].addr == freep;
      }
    }

    /** One turn of malloc's loop round the ring: the first block after freep that is large enough. */
    method Scan(nunits: nat) returns (found: bool, prevp: nat, p: nat, ghost c: nat)
      requires Valid() && freep != 0 && nunits > 0
      ensures found == Fits(free, nunits)
      ensures found ==> 0 < c < |free| && free[c].size >= nunits && free[c].addr == p && free[c - 1].addr == prevp
      ensures found ==> FirstFit(free, freep, c, nunits)
    {
      hide HeapInv, LiveOk, Accounted, Separated, Linked, Ahead, Distance;
      FirstEmpty(mem, free, live, owned, base, brk);
      prevp := freep;
      ghost var j: nat :| j < |free| && free[j].addr == freep;
      ghost var e: nat := j;
      Walk(mem, free, j);
      p := mem[prevp].ptr;
      c := Next(free, j);
      AheadStart(free, e, nunits);
      while true
        invariant c < |free| && j < |free| && c == Next(free, j)
        invariant free[c].addr == p && free[j].addr == prevp
        invariant Ahead(free, c, e, nunits)
        decreases Distance(|free|, c, e)
      {
        Walk(mem, free, c);
        if mem[p].size >= nunits {
          found := true;
          return;
        }
        if p == freep {
          SameIndex(mem, free, live, owned, base, brk, c, e);
          AheadEnd(free, e, nunits);
          found := false;
          return;
        }
        AheadStep(free, c, e, nunits);
        j := c;
        prevp := p;
        p := mem[p].ptr;
        c := Next(free, j);
      }
    }

    /** malloc's search: at most one morecore(), after a full turn found nothing. */
    method Find(nunits: nat) returns (ok: bool, found: bool, prevp: nat, p: nat, ghost c: nat)
      requires Valid() && freep != 0 && 0 < nunits <= 0x2000_0000
      modifies this
      ensures ok <==> Fits(old(free), nunits) || nunits < TOP
      ensures ok ==> Valid() && freep != 0 && live == old(live) && Kept(old(mem), mem, live) && GrewAbove(old(owned), owned, old(brk))
      ensures ok && found ==> 0 < c < |free| && free[c].size >= nunits && free[c].addr == p && free[c - 1].addr == prevp
      ensures ok && !found ==> !Fits(old(free), nunits) && free == old(free) && owned == old(owned)
      ensures Fits(old(free), nunits) ==> found && owned == old(owned) && free == old(free)
      ensures !ok ==> live == old(live) && owned == old(owned) && free == old(free) && Unbacked(old(brk), old(mem.Keys), nunits, brk, mem, p)
    {
      KeptSelf(mem, free, live, owned, base, brk);
      assert GrewAbove(old(owned), old(owned), old(brk));
      hide HeapInv, LiveOk, Accounted, Separated, Linked, Kept, GrewAbove, Fits, FirstFit, Started, UnderBreak, Unbacked;
      ok := true;
      found, prevp, p, c := Scan(nunits);
      if !found {
        var core;
        ok, core, c := Morecore(nunits);
        if !ok {
          p := core;
        } else if core != 0 {
          found, prevp, p, c := Scan(nunits);
        }
      }
    }

    /** malloc(nbytes): a block apart from every held one, or 0 when nothing fits and sbrk refuses.
        `ok` is false, and r the address of a header without a cell, when nothing fits and sbrk's int
        cannot say how much is needed. */
    method Malloc(nbytes: nat) returns (ok: bool, r: nat)
      requires Valid() && nbytes < 0x1_0000_0000
      modifies this
      ensures ok <==> Fits(old(free), Units(nbytes)) || Units(nbytes) < TOP
      ensures ok ==> Valid() && Kept(old(mem), mem, old(live)) && GrewAbove(old(owned), owned, old(brk))
      ensures ok && r == 0 ==> live == old(live) && free == old(free) && owned == old(owned) && !Fits(old(free), Units(nbytes))
      ensures ok && r != 0 ==> r - 1 !in old(live) && live == old(live)[r - 1 := Units(nbytes)]
      ensures Fits(old(free), Units(nbytes)) ==> r != 0 && owned == old(owned)
      ensures !ok ==> live == old(live) && owned == old(owned) && free == old(free) && Unbacked(old(brk), old(mem.Keys), Units(nbytes), brk, mem, r)
    {
      hide HeapInv, LiveOk, Accounted, Separated, Linked, Kept, GrewAbove, Fits, FirstFit, Started, Units, Handed, Taken, UnderBreak, Unbacked;
      var nunits := Units(nbytes);
      Start();
      ghost var started := mem;
      var found, prevp, p;
      ghost var c;
      ok, found, prevp, p, c := Find(nunits);
      if !ok {
        r := p;
        return;
      }
      KeptTrans(old(mem), started, mem, live);
      if !found {
        return ok, 0;
      }
      ghost var ready := mem;
      r := Take(prevp, p, nunits, c);
      KeptTrans(old(mem), ready, mem, old(live));
    }
  }
}
