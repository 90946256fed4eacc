/** vm.c and kalloc.c: frames are handed out, page tables are changed in place. */
module VirtualMemory {
  import opened Options
  import opened PageTables
  import opened PageSpaces
  import opened UserMemory
  import opened KernelMap
  import opened FrameCost

  /** Frames 0 to n - 1, each with the same contents. */
  function Memories(n: nat, page: Page): (m: Memory)
    ensures forall f: nat :: f in m <==> f < n
  {
    if n == 0 then map[] else Memories(n - 1, page)[n - 1 := page]
  }

  ghost function AllUsed(n: nat): (own: Owners)
    ensures forall f: nat :: (f in own <==> f < n) && (f in own ==> own[f] == Elsewhere)
  {
    if n == 0 then map[] else AllUsed(n - 1)[n - 1 := Elsewhere]
  }

  lemma NothingFree(mem: Memory, n: nat)
    requires mem.Keys == AllUsed(n).Keys
    ensures Inv(mem, [], AllUsed(n))
  {
  }

  lemma MemKeys(mem: Memory, own: Owners)
    requires Owned(mem, own)
    ensures mem.Keys == own.Keys
  {
  }

  lemma PagesOrder(sz: nat, more: nat)
    requires sz <= more
    ensures Pages(sz) <= Pages(more)
  {
  }

  lemma PagesAbove(a: nat, sz: nat)
    requires a * 4096 < sz
    ensures a < Pages(sz)
  {
  }

  lemma PagesStart(sz: nat, a: nat, more: nat)
    requires Pages(sz) <= a && a * 4096 < more
    ensures sz < more
  {
  }

  lemma PagesEnd(a: nat, sz: nat)
    requires a <= Pages(sz) && a * 4096 >= sz
    ensures a == Pages(sz) && (sz <= 0x8000_0000 ==> a <= 0x8_0000)
  {
  }

  /** The directory entries of the first k kmap rows. */
  ghost function RowTabs(data: nat, k: nat): set<nat>
    requires 0x100 < data < 0xE000 && k <= 4
  {
    if k == 0 then {} else RowTabs(data, k - 1) + TableRange(Kmap(data)[k - 1].v, Kmap(data)[k - 1].v + Kmap(data)[k - 1].count)
  }

  lemma {:induction false} RowsGrow(data: nat, k: nat, m: nat)
    requires 0x100 < data < 0xE000 && k <= m <= 4
    ensures RowTabs(data, k) <= RowTabs(data, m)
    decreases m
  {
    hide TableRange, Kmap;
    if k < m {
      RowsGrow(data, k, m - 1);
    }
  }

  lemma RowStep(data: nat, k: nat)
    requires 0x100 < data < 0xE000 && k < 4
    ensures RowTabs(data, 0) == {}
    ensures RowTabs(data, k + 1) == RowTabs(data, k) + TableRange(Kmap(data)[k].v, Kmap(data)[k].v + Kmap(data)[k].count)
  {
    hide TableRange, Kmap;
  }

  /** Together they go through the kernel's 64 tables. */
  lemma AllRows(data: nat)
    requires 0x100 < data < 0xE000
    ensures RowTabs(data, 4) == KernelTabs()
  {
    hide TableRange, Between, RowTabs;
    var rows := Kmap(data);
    RowStep(data, 0);
    RowStep(data, 1);
    RowStep(data, 2);
    RowStep(data, 3);
    RangeIs(rows[0].v, rows[0].v + rows[0].count);
    RangeIs(rows[1].v, rows[1].v + rows[1].count);
    RangeIs(rows[2].v, rows[2].v + rows[2].count);
    RangeIs(rows[3].v, rows[3].v + rows[3].count);
    forall x: nat ensures x in RowTabs(data, 4) <==> x in KernelTabs() {
      RowMembers(data, x);
    }
  }

  lemma RowMembers(data: nat, x: nat)
    requires 0x100 < data < 0xE000
    ensures 512 <= x < 568 || 1016 <= x < 1024 <==>
      || 0x8_0000 / 1024 <= x <= 0x8_00FF / 1024 || 0x8_0100 / 1024 <= x <= (0x8_0000 + data - 1) / 1024
      || (0x8_0000 + data) / 1024 <= x <= 0x8_DFFF / 1024 || 0xF_E000 / 1024 <= x <= 0xF_FFFF / 1024
  {
  }

  lemma NoTabs(mem: Memory, d: nat)
    ensures Tabs(mem[d := EmptyTable()], d) == {}
  {
  }

  lemma RowsCost(mem: Memory, d: nat, data: nat)
    requires 0x100 < data < 0xE000 && Tabs(mem, d) == {}
    ensures Cost(mem, d, RowTabs(data, 4), 0) == 64
  {
    hide RowTabs, KernelTabs, Tabs, Kmap;
    AllRows(data);
    assert RowTabs(data, 4) - {} == KernelTabs();
  }

  lemma RowsStart(mem: Memory, free: seq<nat>, d: nat, data: nat)
    requires 0x100 < data < 0xE000
    ensures Paid(mem, free, mem, free, d, RowTabs(data, 0), 0)
  {
    PaidNothing(mem, free, d);
  }

  lemma RowPaid(mem0: Memory, free0: seq<nat>, mem1: Memory, free1: seq<nat>, mem: Memory, free: seq<nat>, d: nat, data: nat, k: nat, ok: bool)
    requires 0x100 < data < 0xE000 && k < 4 && Paid(mem0, free0, mem1, free1, d, RowTabs(data, k), 0)
    requires var row := Kmap(data)[k]; var tabs := TableRange(row.v, row.v + row.count);
      if ok then Paid(mem1, free1, mem, free, d, tabs, 0) else |free1| < Cost(mem1, d, tabs, 0)
    ensures if ok then Paid(mem0, free0, mem, free, d, RowTabs(data, k + 1), 0) else |free0| < Cost(mem0, d, RowTabs(data, 4), 0)
  {
    hide Paid, Cost, TableRange, RowTabs, Kmap;
    RowStep(data, k);
    RowsGrow(data, k + 1, 4);
    var row := Kmap(data)[k];
    var tabs := TableRange(row.v, row.v + row.count);
    if ok {
      PaidBoth(mem0, free0, mem1, free1, mem, free, d, RowTabs(data, k), 0, tabs, 0);
    } else {
      TooFew(mem0, free0, mem1, free1, d, RowTabs(data, k), 0, tabs, 0, RowTabs(data, 4), 0);
    }
  }

  lemma RowsPaid(mem0: Memory, free0: seq<nat>, mem: Memory, free: seq<nat>, d: nat, data: nat)
    requires 0x100 < data < 0xE000 && Tabs(mem0, d) == {} && Paid(mem0, free0, mem, free, d, RowTabs(data, 4), 0)
    ensures |free0| >= 64 && |free| == |free0| - 64 && Tabs(mem, d) == KernelTabs()
  {
    hide Tabs, RowTabs, KernelTabs, Kmap;
    AllRows(data);
    assert {} + KernelTabs() == KernelTabs();
  }

  lemma ZeroIsData()
    ensures ZeroPage().Data?
  {
  }

  lemma TableMade(own: Owners, t: nat, d: nat, i: nat)
    requires Is(own, d, Dir) && Is(own, t, Free)
    ensures Is(own[t := TableOf(d, i)], t, TableOf(d, i)) && Is(own[t := TableOf(d, i)], d, Dir)
  {
  }

  class Frames {
    var mem: Memory
    var free: seq<nat>
    ghost var own: Owners

    ghost predicate Valid()
      reads this
    {
      Inv(mem, free, own)
    }

    /** Before kinit: all n frames of physical memory count as the kernel's own. */
    constructor (n: nat)
      ensures Valid() && free == [] && own == AllUsed(n)
    {
      mem := Memories(n, JunkPage());
      free, own := [], AllUsed(n);
      new;
      NothingFree(mem, n);
    }

    /** freerange, as kinit1 and kinit2 call it: every whole frame between the two addresses becomes free. */
    method Freerange(vstart: nat, vend: nat)
      requires Valid() && forall f: nat :: vstart <= f * 4096 && (f + 1) * 4096 <= vend ==> Is(own, f, Elsewhere)
      modifies this
      ensures Valid() && own.Keys == old(own).Keys
      ensures forall f :: f in own ==> own[f] == if vstart <= f * 4096 && (f + 1) * 4096 <= vend then Free else old(own)[f]
    {
      hide Owned, FreeOk, JunkPage;
      var p := (vstart + 4095) / 4096;
      while (p + 1) * 4096 <= vend
        invariant Valid() && own.Keys == old(own).Keys && vstart <= p * 4096
        invariant forall f :: f in own ==> own[f] == if vstart <= f * 4096 && f < p then Free else old(own)[f]
        invariant forall f: nat :: f < p && vstart <= f * 4096 ==> (f + 1) * 4096 <= vend
        decreases vend - p * 4096
      {
        assert Is(old(own), p, Elsewhere);
        MemKeys(mem, own);
        RoleOwned(mem, own, p, JunkPage(), Free);
        Kfree(p);
        p := p + 1;
      }
    }

    /** kalloc: the head of the free list. */
    method Kalloc() returns (f: Option<nat>)
      requires Valid()
      modifies this`free, this`own
      ensures Valid()
      ensures f.None? ==> free == old(free) == [] && own == old(own)
      ensures f.Some? ==> Is(old(own), f.value, Free) && own == old(own)[f.value := Elsewhere]
      ensures f.Some? ==> old(free) != [] && f.value == old(free)[0] && free == old(free)[1..]
    {
      assert mem.Keys == own.Keys;
      hide Owned, FreeOk;
      if free == [] {
        return None;
      }
      f := Some(free[0]);
      PopFree(free, own);
      RoleOwned(mem, own, free[0], mem[free[0]], Elsewhere);
      assert mem[free[0] := mem[free[0]]] == mem;
      own := own[free[0] := Elsewhere];
      free := free[1..];
    }

    /** kfree: the frame is filled with junk and put at the head. */
    method Kfree(f: nat)
      requires f in own && f in mem && !own[f].Free? && FreeOk(free, own)
      modifies this
      ensures FreeOk(free, own) && own == old(own)[f := Free] && mem == old(mem)[f := JunkPage()]
      ensures free == [f] + old(free)
    {
      PushFree(free, own, f);
      mem := mem[f := JunkPage()];
      own := own[f := Free];
      free := [f] + free;
    }

    /** walkpgdir without alloc: the table for directory entry i, if there is one. */
    method Peek(d: nat, i: nat) returns (t: Option<nat>)
      requires Valid() && Is(own, d, Dir) && i < 1024
      ensures t.Some? <==> Pde(mem, d, i).Present?
      ensures t.Some? ==> t.value == Pde(mem, d, i).frame && IsTable(mem, t.value)
    {
      DirFacts(mem, own, d, i);
      hide Inv;
      if mem[d].entries[i].Present? {
        return Some(mem[d].entries[i].frame);
      }
      return None;
    }

    /** walkpgdir with alloc: a missing table is made, when a frame is left. */
    method Walk(d: nat, i: nat) returns (t: Option<nat>)
      requires Valid() && Is(own, d, Dir) && i < 1024
      modifies this
      ensures Valid() && TablesOnly(old(own), own, d)
      ensures OthersSame(old(mem), mem, old(own), d) && SameSpace(old(mem), mem, d) && BytesKept(old(mem), mem, old(own))
      ensures t.Some? ==> Pde(mem, d, i).Present? && t.value == Pde(mem, d, i).frame && IsTable(mem, t.value)
      ensures t.None? ==> mem == old(mem) && free == old(free) == [] && own == old(own)
      ensures t.Some? <==> |old(free)| >= Cost(old(mem), d, {i}, 0)
      ensures t.Some? ==> Paid(old(mem), old(free), mem, free, d, {i}, 0) && Is(own, t.value, TableOf(d, i)) && Is(own, d, Dir)
    {
      hide Inv, Owned, FreeOk, OthersSame, BytesKept, SameSpace, TablesOnly, Pt, Is, Paid, Cost;
      CostOne(mem, d, i, 0);
      InvParts(mem, free, own);
      DirFacts(mem, own, d, i);
      SameSelf(mem, own, d);
      t := Peek(d, i);
      if t.Some? {
        PaidHad(mem, free, d, i);
        return;
      }
      t := Kalloc();
      if t.None? {
        return None;
      }
      InvParts(mem, free, own);
      TableSame(old(mem), old(own), t.value, d, i);
      Link(mem, free, old(own), t.value, d, i);
      WalkPaid(mem, old(free), old(own), d, i, t.value, EmptyTable(), Present(t.value, true, true));
      mem := mem[t.value := EmptyTable()];
      mem := mem[d := Table(mem[d].entries[i := Present(t.value, true, true)])];
      own := own[t.value := TableOf(d, i)];
      assert own == old(own)[t.value := TableOf(d, i)];
      TableMade(old(own), t.value, d, i);
    }

    /** mappages, for one user page: frame f becomes page v of d, unless no table can be made. */
    method MapUser(d: nat, v: nat, f: nat, w: bool, u: bool) returns (ok: bool)
      requires Valid() && Is(own, d, Dir) && v < 0x8_0000 && At(mem, d, v).Absent?
      requires Is(own, f, Elsewhere) && f in mem && mem[f].Data?
      modifies this
      ensures Valid() && OthersSame(old(mem), mem, old(own), d) && BytesKept(old(mem), mem, old(own))
      ensures ok ==> Mapped1(old(mem), mem, d, v, Present(f, w, u))
      ensures ok ==> TablesOnly(old(own)[f := UserOf(d, v / 1024, v % 1024)], own, d) && Is(own, f, UserOf(d, v / 1024, v % 1024))
      ensures !ok ==> mem == old(mem) && free == old(free) && own == old(own) && free == []
      ensures ok <==> |old(free)| >= Cost(old(mem), d, TabOf(v), 0)
      ensures ok ==> Paid(old(mem), old(free), mem, free, d, TabOf(v), 0)
    {
      hide Owned, FreeOk, OthersSame, BytesKept, TablesOnly, SameSpace, SetEntry, Paid, Cost;
      var t := Walk(d, v / 1024);
      if t.None? {
        return false;
      }
      ghost var i, j, p := v / 1024, v % 1024, Present(f, w, u);
      ghost var mid, mine := mem, own;
      assert Is(own, f, Elsewhere) && Is(own, d, Dir) by { Survive(old(own), own, d, f); Survive(old(own), own, d, d); }
      assert mem[f].Data? by { StillData(old(mem), mem, old(own), f); }
      assert Pt(mem, d, i, j).Absent? by { StillAbsent(old(mem), mem, d, i, j); }
      MapOwned(mem, own, d, i, j, p);
      EntrySame(mem, own, d, i, j, p);
      SameRoles(free, own, f, UserOf(d, i, j));
      SetPaid(old(mem), old(free), mem, free, own, d, {i}, 0, t.value, i, j, p);
      mem := SetEntry(mem, t.value, v % 1024, Present(f, w, u));
      own := own[f := UserOf(d, i, j)];
      MapEffect(old(mem), mid, mem, old(own), mine, d, v, f, p);
      return true;
    }

    /** deallocuvm's inner step: kfree the frame of page v and clear its entry. */
    method Unmap(d: nat, v: nat, t: nat)
      requires Valid() && Is(own, d, Dir) && v < 0x8_0000 && At(mem, d, v).Present? && t == Pde(mem, d, v / 1024).frame
      modifies this
      ensures Valid() && own == old(own)[At(old(mem), d, v).frame := Free] && Is(old(own), At(old(mem), d, v).frame, UserOf(d, v / 1024, v % 1024))
      ensures OthersSame(old(mem), mem, old(own), d) && BytesKept(old(mem), mem, own) && Mapped1(old(mem), mem, d, v, Absent)
    {
      ghost var i, j := v / 1024, v % 1024;
      UnmapSame(mem, own, d, i, j, JunkPage());
      UnmapOwned(mem, own, d, i, j, JunkPage());
      assert mem.Keys == own.Keys;
      hide Owned, OthersSame, BytesKept;
      var f := mem[t].entries[v % 1024].frame;
      Kfree(f);
      mem := SetEntry(mem, t, v % 1024, Absent);
    }

    /** deallocuvm: shrink from oldsz to newsz bytes, skipping 4 MB wherever a table is missing. */
    method DeallocUvm(d: nat, oldsz: nat, newsz: nat, ghost n: nat) returns (r: nat)
      requires Valid() && Is(own, d, Dir) && Prefix(mem, d, n) && n <= Pages(oldsz) && oldsz <= 0x8000_0000
      modifies this
      ensures Valid() && r == if newsz >= oldsz then oldsz else newsz
      ensures newsz >= oldsz ==> mem == old(mem) && free == old(free) && own == old(own)
      ensures newsz < oldsz ==> Trimmed(old(mem), old(own), mem, own, d, Pages(newsz), 0x8_0000)
    {
      if newsz >= oldsz {
        return oldsz;
      }
      hide Inv, Trimmed, Prefix, Pt, Pde, OthersSame, BytesKept, Mapped1;
      var a := Pages(newsz);
      TrimStart(mem, free, own, d, a);
      while a * 4096 < oldsz
        invariant Valid() && Pages(newsz) <= a && Is(own, d, Dir)
        invariant Trimmed(old(mem), old(own), mem, own, d, Pages(newsz), a)
      {
        ghost var mid, mine := mem, own;
        var t := Peek(d, a / 1024);
        if t.None? {
          NoTable(mem, d, a);
          TrimSkip(old(mem), old(free), old(own), mem, own, d, n, Pages(newsz), a, a + 1024);
          a := a + 1023;
        } else if TableEntry(mem, d, a, t.value).Present? {
          Unmap(d, a, t.value);
          TrimStep(old(mem), old(own), mid, mine, mem, own, d, Pages(newsz), a);
        } else {
          TrimSkip(old(mem), old(free), old(own), mem, own, d, n, Pages(newsz), a, a + 1);
        }
        a := a + 1;
      }
      TrimEnd(old(mem), old(free), old(own), mem, own, d, n, Pages(newsz), a);
      return newsz;
    }

    /** allocuvm, when the new page's frame cannot be mapped: cut back, then kfree the frame. */
    method GiveBack(d: nat, f: nat, oldsz: nat, newsz: nat, ghost a: nat, ghost mem0: Memory, ghost own0: Owners)
      requires Valid() && Is(own, d, Dir) && Prefix(mem, d, a) && a <= Pages(newsz) && oldsz < newsz <= 0x8000_0000
      requires Owned(mem0, own0) && Is(own0, f, Free) && Is(own0, d, Dir)
      requires mem == mem0[f := ZeroPage()] && own == own0[f := Elsewhere]
      modifies this
      ensures Valid() && Trimmed(mem0, own0, mem, own, d, Pages(oldsz), 0x8_0000)
    {
      hide Inv, Owned, FreeOk, Prefix, Trimmed, ZeroPage, JunkPage;
      var _ := DeallocUvm(d, newsz, oldsz, a);
      InvParts(mem, free, own);
      TrimmedHeld(mem0, own0, f, ZeroPage(), mem, own, JunkPage(), d, Pages(oldsz), 0x8_0000);
      FreeHeld(mem, own, f, JunkPage());
      Kfree(f);
      JoinInv(mem, free, own);
    }

    /** One round of allocuvm's loop: page a, or everything put back. */
    method AddPage(d: nat, a: nat, oldsz: nat, newsz: nat, ghost was: Memory, ghost wasFree: seq<nat>, ghost wasOwn: Owners)
      returns (ok: bool)
      requires Valid() && Is(own, d, Dir) && Inv(was, wasFree, wasOwn) && Is(wasOwn, d, Dir) && Prefix(was, d, Pages(oldsz))
      requires Grew(was, wasOwn, mem, own, d, Pages(oldsz), a) && Pages(oldsz) <= a && a * 4096 < newsz < 0x8000_0000 && oldsz < newsz
      modifies this
      ensures Valid() && Is(own, d, Dir)
      ensures ok ==> Grew(was, wasOwn, mem, own, d, Pages(oldsz), a + 1)
      ensures !ok ==> Undone(was, wasOwn, mem, own, d)
      ensures ok <==> |old(free)| >= Cost(old(mem), d, TabOf(a), 1)
      ensures ok ==> Paid(old(mem), old(free), mem, free, d, TabOf(a), 1)
    {
      hide Inv, Owned, Prefix, Grew, Undone, Trimmed, OthersSame, BytesKept, Mapped1, TablesOnly, Pt, ZeroPage, Paid, Cost, TabOf;
      ZeroIsData();
      CostPositive(mem, d, TabOf(a), 1);
      ghost var mem0, own0 := mem, own;
      InvParts(mem, free, own);
      PrefixOf(was, wasOwn, mem, own, d, Pages(oldsz), a);
      var m := Kalloc();
      if m.None? {
        var _ := DeallocUvm(d, newsz, oldsz, a);
        GrewUndone(was, wasFree, wasOwn, mem0, own0, mem, own, d, Pages(oldsz), a);
        return false;
      }
      var f := m.value;
      Fill(mem, free, own, f, ZeroPage(), d, a);
      SameAt(mem, mem[f := ZeroPage()], d, a);
      TakePaid(mem, old(free), own0, d, f, ZeroPage());
      mem := mem[f := ZeroPage()];
      ghost var mem1, free1 := mem, free;
      ok := MapUser(d, a, f, true, true);
      PagePaid(mem0, old(free), mem1, free1, mem, free, d, a, ok);
      if ok {
        Overwrite(own0, f, Elsewhere, UserOf(d, a / 1024, a % 1024));
        GrewStep(was, wasOwn, mem0, own0, mem1, mem, own, d, Pages(oldsz), a, f);
      } else {
        GiveBack(d, f, oldsz, newsz, a, mem0, own0);
        GrewUndone(was, wasFree, wasOwn, mem0, own0, mem, own, d, Pages(oldsz), a);
      }
    }

    /** allocuvm: grow from oldsz to newsz bytes, or put everything back but page tables. */
    method AllocUvm(d: nat, oldsz: nat, newsz: nat) returns (r: nat, ghost grown: bool)
      requires Valid() && Is(own, d, Dir) && Prefix(mem, d, Pages(oldsz))
      modifies this
      ensures Valid() && Is(own, d, Dir)
      ensures newsz >= 0x8000_0000 || newsz < oldsz ==>
        mem == old(mem) && free == old(free) && own == old(own) && r == if newsz >= 0x8000_0000 then 0 else oldsz
      ensures newsz < 0x8000_0000 && newsz >= oldsz ==> r == if grown then newsz else 0
      ensures newsz < 0x8000_0000 && newsz >= oldsz && grown ==>
        Grew(old(mem), old(own), mem, own, d, Pages(oldsz), Pages(newsz)) && Prefix(mem, d, Pages(newsz))
      ensures newsz < 0x8000_0000 && newsz >= oldsz && !grown ==> Undone(old(mem), old(own), mem, own, d)
      ensures newsz < 0x8000_0000 && newsz >= oldsz ==>
        (grown <==> |old(free)| >= Cost(old(mem), d, TableRange(Pages(oldsz), Pages(newsz)), Pages(newsz) - Pages(oldsz)))
    {
      hide Inv, Owned, Prefix, Grew, Undone, Paid, Cost, TableRange, TabOf, Pages;
      if newsz >= 0x8000_0000 {
        return 0, false;
      }
      if newsz < oldsz {
        return oldsz, false;
      }
      ghost var from, to := Pages(oldsz), Pages(newsz);
      PagesOrder(oldsz, newsz);
      FirstPaid(mem, free, d, from);
      var a := Pages(oldsz);
      InvParts(mem, free, own);
      GrewStart(mem, own, d, a);
      while a * 4096 < newsz
        invariant Valid() && Is(own, d, Dir) && from <= a <= to
        invariant Grew(old(mem), old(own), mem, own, d, Pages(oldsz), a)
        invariant Paid(old(mem), old(free), mem, free, d, TableRange(from, a), Fee(true, a - from))
      {
        ghost var mem1, free1 := mem, free;
        assert oldsz < newsz by { PagesStart(oldsz, a, newsz); }
        var ok := AddPage(d, a, oldsz, newsz, old(mem), old(free), old(own));
        PagesAbove(a, newsz);
        NextPaid(old(mem), old(free), mem1, free1, mem, free, d, from, a, to, true, ok);
        if !ok {
          return 0, false;
        }
        a := a + 1;
      }
      PagesEnd(a, newsz);
      PaidCost(old(mem), old(free), mem, free, d, TableRange(from, a), a - from);
      PrefixOf(old(mem), old(own), mem, own, d, Pages(oldsz), a);
      return newsz, true;
    }

    /** freevm: every page, then every table, then the directory goes back to the free list. */
    method FreeVm(d: nat, ghost n: nat)
      requires Valid() && Is(own, d, Dir) && Prefix(mem, d, n)
      modifies this
      ensures Valid() && Dropped(old(own), own, d)
      ensures OthersSame(old(mem), mem, old(own), d) && BytesKept(old(mem), mem, own)
    {
      hide Inv, Owned, FreeOk, Prefix, OthersSame, BytesKept, Cut, OwnCut, Emptied, OnlyFreed, Dropped, Pt, JunkPage;
      InvParts(mem, free, own);
      PrefixBound(mem, d, n);
      var _ := DeallocUvm(d, 0x8000_0000, 0, n);
      InvParts(mem, free, own);
      TrimmedDir(old(mem), old(own), mem, own, d);
      ghost var mem1, own1 := mem, own;
      EmptyStart(mem, own, d);
      var i := 0;
      while i < 1024
        invariant i <= 1024 && FreeOk(free, own) && Emptied(own1, own, d, i) && OnlyFreed(mem1, own1, mem, own)
      {
        EmptyDir(mem1, own1, mem, own, d, i);
        if mem[d].entries[i].Present? {
          EmptyStep(mem1, own1, mem, own, d, i, JunkPage());
          Kfree(mem[d].entries[i].frame);
        } else {
          EmptySkip(mem1, own1, own, d, i);
        }
        i := i + 1;
      }
      EmptyDir(mem1, own1, mem, own, d, 1024);
      EmptyAll(old(mem), old(own), mem1, own1, mem, own, d, JunkPage());
      Kfree(d);
      DropOwned(mem1, own1, mem, own, d);
      JoinInv(mem, free, own);
      FreeSame(old(mem), old(own), mem1, own1, mem, own, d);
    }

    /** mappages, for one kernel page. */
    method MapKernel(d: nat, v: nat, f: nat, w: bool) returns (ok: bool)
      requires Valid() && Is(own, d, Dir) && 0x8_0000 <= v < 0x10_0000 && At(mem, d, v).Absent?
      modifies this
      ensures Valid() && TablesOnly(old(own), own, d) && Is(own, d, Dir)
      ensures OthersSame(old(mem), mem, old(own), d) && BytesKept(old(mem), mem, old(own))
      ensures ok ==> Mapped1(old(mem), mem, d, v, Present(f, w, false))
      ensures !ok ==> free == []
      ensures ok <==> |old(free)| >= Cost(old(mem), d, TabOf(v), 0)
      ensures ok ==> Paid(old(mem), old(free), mem, free, d, TabOf(v), 0)
    {
      hide Inv, Owned, FreeOk, OthersSame, BytesKept, TablesOnly, SameSpace, Mapped1, SetEntry, Paid, Cost;
      InvParts(mem, free, own);
      DirFacts(mem, own, d, v / 1024);
      var t := Walk(d, v / 1024);
      KeepDir(old(own), own, d);
      if t.None? {
        return false;
      }
      ghost var mid := mem;
      InvParts(mem, free, own);
      KernelOwned(mem, own, d, v / 1024, v % 1024, Present(f, w, false));
      EntrySame(mem, own, d, v / 1024, v % 1024, Present(f, w, false));
      SetPaid(old(mem), old(free), mem, free, own, d, TabOf(v), 0, t.value, v / 1024, v % 1024, Present(f, w, false));
      mem := SetEntry(mem, t.value, v % 1024, Present(f, w, false));
      JoinInv(mem, free, own);
      KernelEffect(old(mem), mid, mem, old(own), own, d, v, Present(f, w, false));
      return true;
    }

    /** mappages over one kmap row. */
    method MapRow(d: nat, row: Region, data: nat) returns (ok: bool)
      requires Valid() && Is(own, d, Dir) && 0x8_0000 <= row.v && row.v + row.count <= 0x10_0000 && KernelUpTo(mem, d, data, row.v)
      requires RowOk(row, data)
      modifies this
      ensures Valid() && TablesOnly(old(own), own, d) && Is(own, d, Dir)
      ensures OthersSame(old(mem), mem, old(own), d) && BytesKept(old(mem), mem, old(own))
      ensures ok ==> KernelUpTo(mem, d, data, row.v + row.count)
      ensures !ok ==> free == []
      ensures ok <==> |old(free)| >= Cost(old(mem), d, TableRange(row.v, row.v + row.count), 0)
      ensures ok ==> Paid(old(mem), old(free), mem, free, d, TableRange(row.v, row.v + row.count), 0)
    {
      hide Inv, Owned, OthersSame, BytesKept, TablesOnly, Mapped1, KernelUpTo, KernelPte, Pt, Paid, Cost, TableRange, TabOf;
      ghost var first, last := row.v, row.v + row.count;
      FirstPaid(mem, free, d, first);
      InvParts(mem, free, own);
      DirFacts(mem, own, d, 0);
      SameSelf(mem, own, d);
      for x := 0 to row.count
        invariant Valid() && Is(own, d, Dir) && KernelUpTo(mem, d, data, row.v + x) && TablesOnly(old(own), own, d)
        invariant OthersSame(old(mem), mem, old(own), d) && BytesKept(old(mem), mem, old(own))
        invariant Paid(old(mem), old(free), mem, free, d, TableRange(first, row.v + x), Fee(false, x))
      {
        ghost var mid, mine, free1 := mem, own, free;
        NotYet(mem, d, data, row.v + x);
        ok := MapKernel(d, row.v + x, row.f + x, row.w);
        RowSame(old(mem), old(own), mid, mine, mem, own, d);
        NextPaid(old(mem), old(free), mid, free1, mem, free, d, first, row.v + x, last, false, ok);
        if !ok {
          return;
        }
        KernelStep(mid, mem, d, data, row.v + x);
      }
      PaidCost(old(mem), old(free), mem, free, d, TableRange(first, last), 0);
      return true;
    }

    /** setupkvm's start: an empty directory. */
    method NewSpace(data: nat) returns (r: Option<nat>)
      requires Valid()
      modifies this
      ensures Valid()
      ensures r.Some? ==> Building(old(mem), old(own), mem, own, r.value) && Is(own, r.value, Dir) && KernelUpTo(mem, r.value, data, 0x8_0000)
      ensures r.None? ==> free == [] && mem == old(mem) && own == old(own)
      ensures r.None? <==> |old(free)| == 0
      ensures r.Some? ==> |free| == |old(free)| - 1 && Tabs(mem, r.value) == {}
    {
      hide Inv, Owned, KernelUpTo, Building, EmptyTable, Pt, Tabs;
      r := Kalloc();
      if r.Some? {
        var d := r.value;
        InvParts(old(mem), old(free), old(own));
        BuildStart(mem, old(own), d);
        NewDir(mem, free, old(own), d);
        mem := mem[d := EmptyTable()];
        own := own[d := Dir];
        Overwrite(old(own), d, Elsewhere, Dir);
        KernelStart(mem, d, data);
        NoTabs(old(mem), d);
      }
    }

    /** setupkvm: a directory with the kernel's mappings, or nothing; what it took before failing stays taken. */
    method Setupkvm(data: nat) returns (r: Option<nat>, ghost lost: Option<nat>)
      requires Valid() && 0x100 < data < 0xE000
      modifies this
      ensures Valid()
      ensures r.Some? ==> Building(old(mem), old(own), mem, own, r.value) && Is(own, r.value, Dir) && KernelUpTo(mem, r.value, data, 0x10_0000)
      ensures r.None? ==> free == []
      ensures r.None? && lost.None? ==> mem == old(mem) && own == old(own)
      ensures r.None? && lost.Some? ==> Building(old(mem), old(own), mem, own, lost.value)
      ensures r.Some? <==> |old(free)| >= 65
      ensures r.Some? ==> |free| == |old(free)| - 65 && Tabs(mem, r.value) == KernelTabs()
    {
      hide Inv, OthersSame, BytesKept, TablesOnly, KernelUpTo, KernelPte, Building, RowOk, Gap, Kmap, Paid, Cost, Tabs, TableRange, RowTabs,
        KernelTabs, Is;
      r := NewSpace(data);
      if r.None? {
        return None, None;
      }
      var d := r.value;
      ghost var mem1, free1 := mem, free;
      RowsCost(mem, d, data);
      RowsStart(mem, free, d, data);
      for k := 0 to 4
        invariant Valid() && Is(own, d, Dir) && Building(old(mem), old(own), mem, own, d) && KernelUpTo(mem, d, data, Start(data, k))
        invariant Paid(mem1, free1, mem, free, d, RowTabs(data, k), 0)
      {
        ghost var mid, mine, free2 := mem, own, free;
        RowFacts(data, k);
        var ok := MapRow(d, Kmap(data)[k], data);
        BuildStep(old(mem), old(own), mid, mine, mem, own, d);
        RowPaid(mem1, free1, mid, free2, mem, free, d, data, k, ok);
        if !ok {
          return None, Some(d);
        }
        KernelGap(mem, d, data, Kmap(data)[k].v + Kmap(data)[k].count, Start(data, k + 1));
      }
      RowsPaid(mem1, free1, mem, free, d, data);
      return Some(d), None;
    }

    /** copyuvm's loop body: `lost` is the frame left unmapped when no table can be made for it. */
    method CopyPage(d: nat, e: nat, v: nat, data: nat, ghost was: Memory, ghost wasFree: seq<nat>, ghost wasOwn: Owners)
      returns (ok: bool, ghost lost: set<nat>)
      requires Valid() && Inv(was, wasFree, wasOwn) && Is(wasOwn, d, Dir) && Is(own, e, Dir)
      requires Made(was, wasOwn, mem, own, e) && Copied(was, mem, d, e, data, v) && v < 0x8_0000 && At(was, d, v).Present?
      modifies this
      ensures Valid() && Is(own, e, Dir)
      ensures ok ==> Made(was, wasOwn, mem, own, e) && Copied(was, mem, d, e, data, v + 1)
      ensures !ok ==> free == [] && Prefix(mem, e, v) && HeldOnly(old(own), own, lost) && |lost| <= 1
      ensures !ok ==> OthersSame(old(mem), mem, old(own), e) && BytesKept(old(mem), mem, old(own))
      ensures ok <==> |old(free)| >= Cost(old(mem), e, TabOf(v), 1)
      ensures ok ==> Paid(old(mem), old(free), mem, free, e, TabOf(v), 1)
    {
      hide Inv, Owned, Made, Copied, Prefix, OthersSame, BytesKept, HeldOnly, Mapped1, TablesOnly, Pt, Paid, Cost, TabOf;
      CostPositive(mem, e, TabOf(v), 1);
      ghost var mem0, own0 := mem, own;
      InvParts(mem, free, own);
      InvParts(was, wasFree, wasOwn);
      DirFacts(mem, own, e, 0);
      OriginalPage(was, wasOwn, mem, own, d, e, v);
      CopiedPrefix(was, mem, d, e, data, v);
      HoldNone(own);
      var t := Peek(d, v / 1024);
      assert t.Some? by { PresentTable(mem, d, v); }
      var pte := TableEntry(mem, d, v, t.value);
      var m := Kalloc();
      if m.None? {
        return false, {};
      }
      var f := m.value;
      HoldOne(own0, f);
      Fill(mem, free, own, f, mem[pte.frame], e, v);
      SameAt(mem, mem[f := mem[pte.frame]], e, v);
      FillKept(mem, own0, f, mem[pte.frame], e);
      TakePaid(mem, old(free), own0, e, f, mem[pte.frame]);
      mem := mem[f := mem[pte.frame]];
      ghost var mem1, free1 := mem, free;
      ok := MapUser(e, v, f, pte.w, pte.u);
      PagePaid(mem0, old(free), mem1, free1, mem, free, e, v, ok);
      if ok {
        Overwrite(own0, f, Elsewhere, UserOf(e, v / 1024, v % 1024));
        CopiedStep(was, mem0, own0, mem1, mem, d, e, data, v, f, pte);
        MadeStep(was, wasOwn, mem0, own0, mem1, mem, own, e, v, f, was[pte.frame]);
      }
      lost := {f};
    }

    /** copyuvm: a new space with the same pages, or the frames back; `lost` and `gone` name what is not given back. */
    method CopyUvm(d: nat, sz: nat, data: nat) returns (r: Option<nat>, ghost lost: set<nat>, ghost gone: Option<nat>)
      requires Valid() && Is(own, d, Dir) && Prefix(mem, d, Pages(sz)) && 0x100 < data < 0xE000
      modifies this
      ensures Valid()
      ensures r.Some? ==> Made(old(mem), old(own), mem, own, r.value) && Copied(old(mem), mem, d, r.value, data, Pages(sz))
      ensures r.None? ==> SpacesKept(old(mem), mem, old(own))
      ensures r.None? && gone.None? ==> HeldOnly(old(own), own, lost) && |lost| <= 1
      ensures r.None? && gone.Some? ==> Building(old(mem), old(own), mem, own, gone.value)
      ensures r.Some? <==> |old(free)| >= 65 + Pages(sz) + (Pages(sz) + 1023) / 1024
    {
      hide Inv, Owned, Made, Copied, Prefix, OthersSame, BytesKept, HeldOnly, SpacesKept, Building, KernelUpTo, Dropped, Pt,
        Paid, Cost, Tabs, TableRange, TabOf, KernelTabs, Pages;
      InvParts(mem, free, own);
      r, gone := Setupkvm(data);
      if r.None? {
        SetupFailed(old(mem), old(free), old(own), mem, own, d, gone);
        return None, {}, gone;
      }
      var e := r.value;
      CopyStart(old(mem), old(own), mem, own, d, e, data);
      PrefixBound(old(mem), d, Pages(sz));
      UserCost(mem, e, Pages(sz));
      ghost var mem2, free2 := mem, free;
      FirstPaid(mem, free, e, 0);
      var i := 0;
      while i * 4096 < sz
        invariant Valid() && Is(own, e, Dir) && i <= Pages(sz) && Made(old(mem), old(own), mem, own, e) && Copied(old(mem), mem, d, e, data, i)
        invariant Paid(mem2, free2, mem, free, e, TableRange(0, i), Fee(true, i))
      {
        ghost var mid, mine, free1 := mem, own, free;
        PagesAbove(i, sz);
        PrefixAt(old(mem), d, Pages(sz), i);
        var ok;
        ok, lost := CopyPage(d, e, i, data, old(mem), old(free), old(own));
        NextPaid(mem2, free2, mid, free1, mem, free, e, 0, i, Pages(sz), true, ok);
        if !ok {
          ghost var mem1, own1 := mem, own;
          FreeVm(e, i);
          Abandon(old(mem), old(own), mid, mine, mem1, own1, mem, own, e, lost);
          return None, lost, None;
        }
        i := i + 1;
      }
      PagesEnd(i, sz);
      PaidCost(mem2, free2, mem, free, e, TableRange(0, i), i);
      return Some(e), {}, None;
    }

    /**
     * growproc, on a process of sz bytes: the new size and the return value. Sizes are 32-bit, so a
     * shrink below zero wraps to a huge size, which deallocuvm ignores. A shrink to exactly zero
     * unmaps everything yet reports failure and keeps the old size: the one case in which the
     * mapped pages stop matching the size.
     */
    method Growproc(d: nat, sz: nat, n: int) returns (size: nat, r: int)
      requires Valid() && Is(own, d, Dir) && Prefix(mem, d, Pages(sz)) && sz < 0x8000_0000 && -0x8000_0000 <= n < 0x8000_0000
      modifies this
      ensures Valid() && Is(own, d, Dir) && (r == 0 || r == -1)
      ensures r == -1 ==> size == sz
      ensures r == 0 ==> size == if sz + n < 0 then sz else sz + n
      ensures Prefix(mem, d, Pages(size)) <==> !(n < 0 && sz > 0 && sz + n == 0)
      ensures n < 0 && sz > 0 && sz + n == 0 ==> r == -1 && Prefix(mem, d, 0)
      ensures n > 0 ==>
        (r == 0 <==>
          && sz + n < 0x8000_0000
          && |old(free)| >= Cost(old(mem), d, TableRange(Pages(sz), Pages(sz + n)), Pages(sz + n) - Pages(sz)))
      ensures n < 0 ==> (r == 0 <==> sz > 0 && sz + n != 0)
      ensures n == 0 ==> r == 0
    {
      hide Inv, Prefix, Grew, Undone, Trimmed, Cost, TableRange;
      var newsz := if sz + n < 0 then sz + n + 0x1_0000_0000 else sz + n;
      if n > 0 {
        ghost var grown;
        size, grown := AllocUvm(d, sz, newsz);
        if size == 0 {
          GrowFailed(old(mem), old(own), mem, own, d, Pages(sz));
          return sz, -1;
        }
      } else if n < 0 {
        size := DeallocUvm(d, sz, newsz, Pages(sz));
        if newsz < sz {
          Shrunk(old(mem), old(own), mem, own, d, Pages(sz), Pages(newsz));
        }
        if size == 0 {
          TwoPrefixes(mem, d, 0, Pages(sz));
          return sz, -1;
        }
      } else {
        size := sz;
      }
      return size, 0;
    }
  }
}
