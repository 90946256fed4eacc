/** How many frames growing or copying an address space takes (vm.c, walkpgdir and mappages). */
module FrameCost {
  import opened PageTables

  /** The directory entries of d that have a table. */
  ghost function Tabs(mem: Memory, d: nat): set<nat> {
    set i: nat | i < 1024 && Pde(mem, d, i).Present?
  }

  /** The directory entries that pages a to b go through. */
  ghost function TableRange(a: nat, b: nat): (r: set<nat>)
    ensures forall v :: a <= v < b ==> v / 1024 in r
    decreases b
  {
    if b <= a then {} else TableRange(a, b - 1) + {(b - 1) / 1024}
  }

  /** The one page v goes through. */
  ghost function TabOf(v: nat): set<nat> {
    {v / 1024}
  }

  lemma {:induction false} RangeGrows(a: nat, m: nat, b: nat)
    requires m <= b
    ensures TableRange(a, m) <= TableRange(a, b)
    decreases b
  {
    if m < b {
      RangeGrows(a, m, b - 1);
    }
  }

  /** From one state to another d gained tables for the entries in `tabs`, as far as it had none, and the
      free list paid one frame for each and `pages` more. */
  ghost predicate Paid(mem0: Memory, free0: seq<nat>, mem: Memory, free: seq<nat>, d: nat, tabs: set<nat>, pages: nat) {
    Tabs(mem, d) == Tabs(mem0, d) + tabs && |free| + |Tabs(mem, d)| + pages == |free0| + |Tabs(mem0, d)|
  }

  lemma PaidNothing(mem: Memory, free: seq<nat>, d: nat)
    ensures Paid(mem, free, mem, free, d, {}, 0)
  {
  }

  lemma PaidBoth(mem0: Memory, free0: seq<nat>, mem1: Memory, free1: seq<nat>, mem2: Memory, free2: seq<nat>, d: nat,
                 tabs1: set<nat>, pages1: nat, tabs2: set<nat>, pages2: nat)
    requires Paid(mem0, free0, mem1, free1, d, tabs1, pages1) && Paid(mem1, free1, mem2, free2, d, tabs2, pages2)
    ensures Paid(mem0, free0, mem2, free2, d, tabs1 + tabs2, pages1 + pages2)
  {
    hide Tabs;
  }

  lemma SetSizes(a: set<nat>, b: set<nat>)
    ensures |a + b| == |a| + |b - a|
    ensures b <= a ==> |b| <= |a|
  {
    assert a + b == a + (b - a);
    if b <= a {
      assert a == b + (a - b);
    }
  }

  /** The frames that tables for `tabs` and so many pages cost. */
  ghost function Cost(mem: Memory, d: nat, tabs: set<nat>, pages: nat): nat {
    pages + |tabs - Tabs(mem, d)|
  }

  /** What was paid was there. */
  lemma PaidCost(mem0: Memory, free0: seq<nat>, mem: Memory, free: seq<nat>, d: nat, tabs: set<nat>, pages: nat)
    requires Paid(mem0, free0, mem, free, d, tabs, pages)
    ensures |free0| >= Cost(mem0, d, tabs, pages) && |free| == |free0| - Cost(mem0, d, tabs, pages)
  {
    SetSizes(Tabs(mem0, d), tabs);
    hide Tabs;
  }

  lemma CostGrows(mem: Memory, d: nat, tabs: set<nat>, pages: nat, more: set<nat>, all: nat)
    requires tabs <= more && pages <= all
    ensures Cost(mem, d, tabs, pages) <= Cost(mem, d, more, all)
  {
    SetSizes(more - Tabs(mem, d), tabs - Tabs(mem, d));
    hide Tabs;
  }

  /** When the next step cannot be paid, the whole could not. */
  lemma TooFew(mem0: Memory, free0: seq<nat>, mem: Memory, free: seq<nat>, d: nat, tabs: set<nat>, pages: nat,
               next: set<nat>, one: nat, more: set<nat>, all: nat)
    requires Paid(mem0, free0, mem, free, d, tabs, pages) && |free| < Cost(mem, d, next, one)
    requires tabs + next <= more && pages + one <= all
    ensures |free0| < Cost(mem0, d, more, all)
  {
    var t0, t1 := Tabs(mem0, d), Tabs(mem, d);
    SetSizes(t0, tabs);
    SetSizes(t1, next);
    SetSizes(t0, tabs + next);
    assert t1 + next == t0 + (tabs + next);
    CostGrows(mem0, d, tabs + next, pages + one, more, all);
    hide Tabs;
  }

  /** A frame that is not the directory changes no directory entry. */
  lemma TabsKept(mem: Memory, d: nat, f: nat, page: Page)
    requires f != d
    ensures Tabs(mem[f := page], d) == Tabs(mem, d)
  {
    assert forall i: nat :: Pde(mem[f := page], d, i) == Pde(mem, d, i);
  }

  /** walkpgdir's new table. */
  lemma TabsLinked(mem: Memory, d: nat, t: nat, i: nat, page: Page, e: Pte)
    requires IsTable(mem, d) && t != d && i < 1024 && e.Present?
    ensures var mid := mem[t := page];
      IsTable(mid, d) && Tabs(mid[d := Table(mid[d].entries[i := e])], d) == Tabs(mem, d) + {i}
  {
    var mid := mem[t := page];
    var after := mid[d := Table(mid[d].entries[i := e])];
    assert forall x: nat :: x < 1024 ==> Pde(after, d, x) == if x == i then e else Pde(mem, d, x);
  }

  lemma PaidOne(mem0: Memory, free0: seq<nat>, mem: Memory, d: nat, i: nat)
    requires free0 != [] && i !in Tabs(mem0, d) && Tabs(mem, d) == Tabs(mem0, d) + {i}
    ensures Paid(mem0, free0, mem, free0[1..], d, {i}, 0)
  {
    hide Tabs;
  }

  lemma PaidFrame(mem0: Memory, free0: seq<nat>, mem: Memory, d: nat)
    requires free0 != [] && Tabs(mem, d) == Tabs(mem0, d)
    ensures Paid(mem0, free0, mem, free0[1..], d, {}, 1)
  {
    hide Tabs;
  }

  lemma PaidHad(mem0: Memory, free0: seq<nat>, d: nat, i: nat)
    requires i in Tabs(mem0, d)
    ensures Paid(mem0, free0, mem0, free0, d, {i}, 0)
  {
    hide Tabs;
    assert Tabs(mem0, d) + {i} == Tabs(mem0, d);
  }

  lemma CostOne(mem: Memory, d: nat, i: nat, pages: nat)
    requires i < 1024
    ensures Cost(mem, d, {i}, pages) == pages + if Pde(mem, d, i).Present? then 0 else 1
  {
    assert {i} - Tabs(mem, d) == if Pde(mem, d, i).Present? then {} else {i};
  }

  /** walkpgdir, when it makes a table. */
  lemma WalkPaid(mem: Memory, free: seq<nat>, own: Owners, d: nat, i: nat, t: nat, page: Page, e: Pte)
    requires Is(own, d, Dir) && Is(own, t, Free) && IsTable(mem, d) && i < 1024 && !Pde(mem, d, i).Present? && e.Present? && free != []
    ensures var mid := mem[t := page];
      IsTable(mid, d) && Paid(mem, free, mid[d := Table(mid[d].entries[i := e])], free[1..], d, {i}, 0)
  {
    TabsLinked(mem, d, t, i, page, e);
    PaidOne(mem, free, mem[t := page][d := Table(mem[t := page][d].entries[i := e])], d, i);
  }

  /** An entry set in one of the tables costs nothing. */
  lemma SetPaid(mem0: Memory, free0: seq<nat>, mem: Memory, free: seq<nat>, own: Owners, d: nat, tabs: set<nat>, pages: nat,
                t: nat, i: nat, j: nat, e: Pte)
    requires Paid(mem0, free0, mem, free, d, tabs, pages) && Is(own, d, Dir) && Is(own, t, TableOf(d, i)) && IsTable(mem, t) && j < 1024
    ensures Paid(mem0, free0, SetEntry(mem, t, j, e), free, d, tabs, pages)
  {
    TabsKept(mem, d, t, Table(mem[t].entries[j := e]));
    hide Tabs;
  }

  /** A frame taken and filled. */
  lemma TakePaid(mem: Memory, free: seq<nat>, own: Owners, d: nat, f: nat, page: Page)
    requires Is(own, d, Dir) && Is(own, f, Free) && free != []
    ensures Paid(mem, free, mem[f := page], free[1..], d, {}, 1)
  {
    TabsKept(mem, d, f, page);
    PaidFrame(mem, free, mem[f := page], d);
  }

  /** Page frames for n pages, where the pages need frames of their own. */
  function Fee(own: bool, n: nat): nat {
    if own then n else 0
  }

  /** Page a after pages from `first` on, of those up to `last` in all. */
  lemma NextPaid(mem0: Memory, free0: seq<nat>, mem1: Memory, free1: seq<nat>, mem: Memory, free: seq<nat>, d: nat,
                 first: nat, a: nat, last: nat, own: bool, ok: bool)
    requires first <= a < last && Paid(mem0, free0, mem1, free1, d, TableRange(first, a), Fee(own, a - first))
    requires if ok then Paid(mem1, free1, mem, free, d, TabOf(a), Fee(own, 1)) else |free1| < Cost(mem1, d, TabOf(a), Fee(own, 1))
    ensures if ok then Paid(mem0, free0, mem, free, d, TableRange(first, a + 1), Fee(own, a + 1 - first))
            else |free0| < Cost(mem0, d, TableRange(first, last), Fee(own, last - first))
  {
    hide TableRange, TabOf, Paid, Cost, Tabs;
    RangeNext(first, a);
    RangeGrows(first, a + 1, last);
    var paid, fee := Fee(own, a - first), Fee(own, 1);
    if ok {
      PaidBoth(mem0, free0, mem1, free1, mem, free, d, TableRange(first, a), paid, TabOf(a), fee);
    } else {
      TooFew(mem0, free0, mem1, free1, d, TableRange(first, a), paid, TabOf(a), fee, TableRange(first, last), Fee(own, last - first));
    }
  }

  lemma RangeNext(first: nat, a: nat)
    requires first <= a
    ensures TableRange(first, a + 1) == TableRange(first, a) + TabOf(a)
  {
  }

  lemma FirstPaid(mem: Memory, free: seq<nat>, d: nat, first: nat)
    ensures Paid(mem, free, mem, free, d, TableRange(first, first), 0)
  {
    PaidNothing(mem, free, d);
  }

  /** A page takes its frame and then its entry. */
  lemma PagePaid(mem0: Memory, free0: seq<nat>, mem1: Memory, free1: seq<nat>, mem: Memory, free: seq<nat>, d: nat, v: nat, ok: bool)
    requires Paid(mem0, free0, mem1, free1, d, {}, 1) && v < 0x10_0000
    requires ok <==> |free1| >= Cost(mem1, d, TabOf(v), 0)
    requires ok ==> Paid(mem1, free1, mem, free, d, TabOf(v), 0)
    ensures ok <==> |free0| >= Cost(mem0, d, TabOf(v), 1)
    ensures ok ==> Paid(mem0, free0, mem, free, d, TabOf(v), 1)
  {
    var none: set<nat> := {};
    assert none + TabOf(v) == TabOf(v) && Tabs(mem1, d) == Tabs(mem0, d);
    if ok {
      PaidBoth(mem0, free0, mem1, free1, mem, free, d, {}, 1, TabOf(v), 0);
    }
    hide Tabs;
  }

  lemma CostPositive(mem: Memory, d: nat, tabs: set<nat>, pages: nat)
    ensures Cost(mem, d, tabs, pages) >= pages
  {
  }

  lemma {:induction false} RangeIs(a: nat, b: nat)
    ensures forall x: nat :: x in TableRange(a, b) <==> a < b && a / 1024 <= x <= (b - 1) / 1024
    decreases b
  {
    if a < b {
      RangeIs(a, b - 1);
    }
  }

  /** The numbers from lo up to hi. */
  ghost function Between(lo: nat, hi: nat): (r: set<nat>)
    requires lo <= hi
    ensures |r| == hi - lo && forall b :: b in r <==> lo <= b < hi
    decreases hi
  {
    if lo == hi then {} else Between(lo, hi - 1) + {hi - 1}
  }

  /** Where the kernel's mappings go: 64 tables. */
  ghost function KernelTabs(): (r: set<nat>)
    ensures |r| == 64 && forall x :: x in r ==> 512 <= x < 1024
  {
    hide Between;
    var low, high := Between(512, 568), Between(1016, 1024);
    assert low * high == {};
    low + high
  }

  /** A new user space of n pages needs a frame for each, and a table for every 1024 of them. */
  lemma UserCost(mem: Memory, d: nat, n: nat)
    requires Tabs(mem, d) == KernelTabs() && n <= 0x8_0000
    ensures Cost(mem, d, TableRange(0, n), n) == n + (n + 1023) / 1024
  {
    hide Between, KernelTabs, TableRange;
    RangeIs(0, n);
    var tabs := TableRange(0, n) - Tabs(mem, d);
    assert tabs == Between(0, (n + 1023) / 1024);
  }
}
