/** setupkvm's fixed kernel mappings, and copying a space page by page, on values. */
module KernelMap {
  import opened Options
  import opened PageTables
  import opened PageSpaces
  import opened UserMemory

  /**
   * What every page table holds for kernel pages, in page numbers: low memory and kernel text from
   * KERNBASE (text read-only up to page `data`), memory up to PHYSTOP, devices at the top.
   */
  function KernelPte(data: nat, v: nat): Pte {
    if 0x8_0000 <= v < 0x8_0100 then Present(v - 0x8_0000, true, false)
    else if 0x8_0100 <= v < 0x8_0000 + data then Present(v - 0x8_0000, false, false)
    else if 0x8_0000 + data <= v < 0x8_E000 then Present(v - 0x8_0000, true, false)
    else if 0xF_E000 <= v < 0x10_0000 then Present(v, true, false)
    else Absent
  }

  /** One kmap row: count pages from page v mapped to frames from f. */
  datatype Region = Region(v: nat, f: nat, count: nat, w: bool)

  function Kmap(data: nat): (rows: seq<Region>)
    requires 0x100 < data < 0xE000
    ensures |rows| == 4 && rows[0].v == 0x8_0000
  {
    [Region(0x8_0000, 0, 0x100, true), Region(0x8_0100, 0x100, data - 0x100, false),
     Region(0x8_0000 + data, data, 0xE000 - data, true), Region(0xF_E000, 0xF_E000, 0x2000, true)]
  }

  /** The page where row k begins; the rows before it are mapped. */
  function Start(data: nat, k: nat): nat
    requires 0x100 < data < 0xE000 && k <= 4
  {
    if k < 4 then Kmap(data)[k].v else 0x10_0000
  }

  predicate RowOk(row: Region, data: nat) {
    forall v: nat :: row.v <= v < row.v + row.count ==> KernelPte(data, v) == Present(v - row.v + row.f, row.w, false)
  }

  predicate Gap(data: nat, a: nat, b: nat) {
    forall v: nat :: a <= v < b ==> KernelPte(data, v).Absent?
  }

  /** Pages below a are as the kernel map says, none above is mapped. */
  ghost predicate KernelUpTo(mem: Memory, d: nat, data: nat, a: nat) {
    forall v: nat :: v < 0x10_0000 ==> At(mem, d, v) == if v < a then KernelPte(data, v) else Absent
  }

  lemma KernelStart(mem: Memory, d: nat, data: nat)
    requires Bare(mem, d)
    ensures KernelUpTo(mem, d, data, 0x8_0000)
  {
    hide Pt;
    forall v: nat | v < 0x10_0000 ensures At(mem, d, v).Absent? {
      assert Pt(mem, d, v / 1024, v % 1024).Absent?;
    }
  }

  lemma KernelStep(mem: Memory, after: Memory, d: nat, data: nat, a: nat)
    requires KernelUpTo(mem, d, data, a) && a < 0x10_0000 && Mapped1(mem, after, d, a, KernelPte(data, a))
    ensures KernelUpTo(after, d, data, a + 1)
  {
    hide Pt, KernelPte;
    forall v: nat | v < 0x10_0000 ensures At(after, d, v) == if v < a + 1 then KernelPte(data, v) else Absent {
      assert v != a ==> !(v / 1024 == a / 1024 && v % 1024 == a % 1024);
      assert At(after, d, v) == if v == a then KernelPte(data, a) else At(mem, d, v);
    }
  }

  /** Between two rows there is nothing to map. */
  lemma KernelGap(mem: Memory, d: nat, data: nat, a: nat, b: nat)
    requires KernelUpTo(mem, d, data, a) && a <= b <= 0x10_0000
    requires Gap(data, a, b)
    ensures KernelUpTo(mem, d, data, b)
  {
    hide Pt, KernelPte;
  }

  /** A space d is being built: free frames became its directory and tables, nothing else happened. */
  ghost predicate Building(was: Memory, own0: Owners, mem: Memory, own: Owners, d: nat) {
    Is(own0, d, Free) && TablesOnly(own0[d := Dir], own, d) && OthersSame(was, mem, own0, d) && BytesKept(was, mem, own0)
  }

  lemma BuildStart(mem: Memory, own: Owners, d: nat)
    requires Owned(mem, own) && Is(own, d, Free)
    ensures Building(mem, own, mem[d := EmptyTable()], own[d := Dir], d)
  {
    var after := mem[d := EmptyTable()];
    forall e, i: nat, j: nat | Is(own, e, Dir) && e != d ensures Pt(after, e, i, j) == Pt(mem, e, i, j) {
      DataKeeps(mem, own, d, EmptyTable(), e, i, j);
    }
    hide Pt, EmptyTable;
  }

  lemma BuildStep(was: Memory, own0: Owners, mid: Memory, own1: Owners, mem: Memory, own: Owners, d: nat)
    requires Building(was, own0, mid, own1, d) && TablesOnly(own1, own, d)
    requires OthersSame(mid, mem, own1, d) && BytesKept(mid, mem, own1)
    ensures Building(was, own0, mem, own, d)
  {
    hide Pt;
    var base := own0[d := Dir];
    assert forall f :: f in own0 && f != d && !own0[f].Free? ==> base[f] == own0[f] && own1[f] == own0[f];
    OthersTrans(was, mid, mem, own0, own1, d);
    BuildOwn(base, own1, own, d);
  }

  lemma BuildOwn(base: Owners, own1: Owners, own: Owners, d: nat)
    requires TablesOnly(base, own1, d) && TablesOnly(own1, own, d)
    ensures TablesOnly(base, own, d)
  {
  }

  lemma KeepDir(own: Owners, after: Owners, d: nat)
    requires TablesOnly(own, after, d) && Is(own, d, Dir)
    ensures Is(after, d, Dir)
  {
  }

  lemma KernelEffect(mem: Memory, mid: Memory, after: Memory, own: Owners, mine: Owners, d: nat, v: nat, p: Pte)
    requires OthersSame(mem, mid, own, d) && SameSpace(mem, mid, d) && BytesKept(mem, mid, own) && TablesOnly(own, mine, d)
    requires OthersSame(mid, after, mine, d) && BytesKept(mid, after, mine)
    requires forall x: nat, y: nat :: Pt(after, d, x, y) == if x == v / 1024 && y == v % 1024 then p else Pt(mid, d, x, y)
    ensures OthersSame(mem, after, own, d) && BytesKept(mem, after, own) && Mapped1(mem, after, d, v, p)
  {
    hide Pt;
    OthersTrans(mem, mid, after, own, mine, d);
    forall g | g in own && (own[g].UserOf? || own[g].Elsewhere?) ensures g in mem && g in after && after[g] == mem[g] {
      assert g in mine && mine[g] == own[g];
    }
  }

  lemma RowSame(mem: Memory, own0: Owners, mid: Memory, mine: Owners, after: Memory, own: Owners, d: nat)
    requires OthersSame(mem, mid, own0, d) && BytesKept(mem, mid, own0) && TablesOnly(own0, mine, d)
    requires OthersSame(mid, after, mine, d) && BytesKept(mid, after, mine) && TablesOnly(mine, own, d)
    ensures OthersSame(mem, after, own0, d) && BytesKept(mem, after, own0) && TablesOnly(own0, own, d)
  {
    hide Pt;
    OthersTrans(mem, mid, after, own0, mine, d);
    BuildOwn(own0, mine, own, d);
    forall g | g in own0 && (own0[g].UserOf? || own0[g].Elsewhere?) ensures g in mem && g in after && after[g] == mem[g] {
      assert g in mine && mine[g] == own0[g];
    }
  }

  lemma NotYet(mem: Memory, d: nat, data: nat, a: nat)
    requires KernelUpTo(mem, d, data, a) && a < 0x10_0000
    ensures At(mem, d, a).Absent?
  {
  }

  lemma NewDir(mem: Memory, free: seq<nat>, own0: Owners, d: nat)
    requires Inv(mem, free, own0[d := Elsewhere]) && Is(own0, d, Free)
    ensures Inv(mem[d := EmptyTable()], free, own0[d := Dir]) && Bare(mem[d := EmptyTable()], d)
  {
    var own := own0[d := Elsewhere];
    DirOwned(mem, own, d);
    SameRoles(free, own, d, Dir);
    Overwrite(own0, d, Elsewhere, Dir);
  }

  lemma RowFacts(data: nat, k: nat)
    requires 0x100 < data < 0xE000 && k < 4
    ensures var row := Kmap(data)[k];
      && 0x8_0000 <= row.v == Start(data, k) && row.v + row.count <= Start(data, k + 1) <= 0x10_0000
      && RowOk(row, data) && Gap(data, row.v + row.count, Start(data, k + 1))
  {
  }

  /** Entry q of the copy stands for entry p of the original: same flags, same bytes. */
  predicate CopyOf(was: Memory, mem: Memory, p: Pte, q: Pte) {
    && p.Present? && q.Present? && q.w == p.w && q.u == p.u
    && p.frame in was && q.frame in mem && mem[q.frame] == was[p.frame]
  }

  /** The first n pages of e are copies of those of d, followed by nothing but the kernel's pages. */
  ghost predicate Copied(was: Memory, mem: Memory, d: nat, e: nat, data: nat, n: nat) {
    forall v: nat :: v < 0x10_0000 ==>
      if v < n then CopyOf(was, mem, At(was, d, v), At(mem, e, v)) else At(mem, e, v) == KernelPte(data, v)
  }

  /** Space e took only free frames, and no other space noticed. */
  ghost predicate Made(was: Memory, own0: Owners, mem: Memory, own: Owners, e: nat) {
    Is(own0, e, Free) && GrewOwn(own0[e := Dir], own, e, 0) && OthersSame(was, mem, own0, e) && BytesKept(was, mem, own0)
  }

  lemma CopyStart(was: Memory, own0: Owners, mem: Memory, own: Owners, d: nat, e: nat, data: nat)
    requires Building(was, own0, mem, own, e) && KernelUpTo(mem, e, data, 0x10_0000)
    ensures Made(was, own0, mem, own, e) && Copied(was, mem, d, e, data, 0)
  {
    hide Pt, OthersSame, BytesKept;
  }

  lemma CopiedPrefix(was: Memory, mem: Memory, d: nat, e: nat, data: nat, n: nat)
    requires Copied(was, mem, d, e, data, n) && n <= 0x8_0000
    ensures Prefix(mem, e, n) && (n < 0x8_0000 ==> At(mem, e, n).Absent?)
  {
    hide Pt;
    forall v: nat | v < 0x8_0000 ensures At(mem, e, v).Present? <==> v < n {
      assert v < n ==> CopyOf(was, mem, At(was, d, v), At(mem, e, v));
    }
  }

  lemma CopiedStep(was: Memory, mem: Memory, own: Owners, mem1: Memory, mem2: Memory, d: nat, e: nat, data: nat, a: nat, f: nat, p: Pte)
    requires Copied(was, mem, d, e, data, a) && Owned(mem, own) && Is(own, e, Dir) && Is(own, f, Free) && a < 0x8_0000
    requires At(was, d, a) == p && p.Present? && p.frame in was && mem1 == mem[f := was[p.frame]]
    requires Mapped1(mem1, mem2, e, a, Present(f, p.w, p.u)) && BytesKept(mem1, mem2, own[f := Elsewhere])
    ensures Copied(was, mem2, d, e, data, a + 1)
  {
    FillSame(mem, own, f, was[p.frame], e);
    forall v: nat | v < 0x10_0000
      ensures if v < a + 1 then CopyOf(was, mem2, At(was, d, v), At(mem2, e, v)) else At(mem2, e, v) == KernelPte(data, v) {
      hide Pt, KernelPte;
      assert v != a ==> !(v / 1024 == a / 1024 && v % 1024 == a % 1024);
      SameAt(mem, mem1, e, v);
      assert At(mem2, e, v) == if v == a then Present(f, p.w, p.u) else At(mem, e, v);
      assert Is(own[f := Elsewhere], f, Elsewhere);
      if v < a {
        PageFrame(mem, own, e, v);
      }
    }
  }

  lemma MadeStep(was: Memory, own0: Owners, mem: Memory, own: Owners, mem1: Memory, mem2: Memory, own2: Owners, e: nat, a: nat, f: nat, p: Page)
    requires Made(was, own0, mem, own, e) && Owned(mem, own) && Is(own, e, Dir) && Is(own, f, Free) && mem1 == mem[f := p]
    requires OthersSame(mem1, mem2, own[f := Elsewhere], e) && BytesKept(mem1, mem2, own[f := Elsewhere])
    requires TablesOnly(own[f := UserOf(e, a / 1024, a % 1024)], own2, e)
    ensures Made(was, own0, mem2, own2, e) && Is(own2, e, Dir)
  {
    assert Is(own2, e, Dir);
    var base := own0[e := Dir];
    FillSame(mem, own, f, p, e);
    hide Pt, Owned;
    GrewOwnStep(base, own, own2, e, 0, a, f);
    hide GrewOwn, TablesOnly;
    MadeBase(was, mem, own0, e);
    GrewOthers(was, base, mem, own, mem1, mem2, e, f, 0);
    GrewBytes(was, base, mem, own, mem1, mem2, e, f, 0);
    MadeBase(was, mem2, own0, e);
  }

  lemma MadeBase(was: Memory, mem: Memory, own0: Owners, e: nat)
    requires Is(own0, e, Free)
    ensures OthersSame(was, mem, own0, e) <==> OthersSame(was, mem, own0[e := Dir], e)
    ensures BytesKept(was, mem, own0) <==> BytesKept(was, mem, own0[e := Dir])
  {
    hide Pt;
    var base := own0[e := Dir];
    assert forall f :: f in own0 && f != e ==> base[f] == own0[f];
    assert forall x :: Is(base, x, Dir) && x != e <==> Is(own0, x, Dir) && x != e;
  }

  /** While e is made, space d still reads as at the start. */
  lemma OriginalPage(was: Memory, own0: Owners, mem: Memory, own: Owners, d: nat, e: nat, v: nat)
    requires Made(was, own0, mem, own, e) && Owned(was, own0) && Is(own0, d, Dir) && v < 0x8_0000 && At(was, d, v).Present?
    ensures d != e && Is(own, d, Dir) && At(mem, d, v) == At(was, d, v)
    ensures At(was, d, v).frame in was && At(was, d, v).frame in mem && mem[At(was, d, v).frame] == was[At(was, d, v).frame]
    ensures was[At(was, d, v).frame].Data? && Is(own, At(was, d, v).frame, UserOf(d, v / 1024, v % 1024))
  {
    PageFrame(was, own0, d, v);
    var f := At(was, d, v).frame;
    assert FrameOk(was, own0, f);
    hide Pt, Owned;
    assert own0[e := Dir][d] == own0[d] && own0[e := Dir][f] == own0[f];
  }

  lemma DropMade(was: Memory, own0: Owners, mem: Memory, own: Owners, after: Owners, e: nat, lost: set<nat>)
    requires Made(was, own0, mem, own, e) && Owned(was, own0)
    requires forall f :: f in lost ==> Is(own, f, Free)
    requires own.Keys == after.Keys
    requires forall f :: f in own ==> after[f] == (if f in lost then Elsewhere else if f == e || OfSpace(own[f], e) then Free else own[f])
    ensures HeldOnly(own0, after, lost)
  {
    hide OthersSame, BytesKept, Pt;
    var base := own0[e := Dir];
    forall f | f in own0 ensures if f in lost then own0[f].Free? && after[f].Elsewhere? else after[f] == own0[f] {
      assert FrameOk(was, own0, f);
      assert !OfSpace(own0[f], e);
      assert own[f] == base[f] || (base[f].Free? && NewIn(own[f], e, 0));
    }
  }

  lemma DropSame(was: Memory, own0: Owners, mid: Memory, own1: Owners, mem: Memory, own: Owners, e: nat, lost: set<nat>)
    requires OthersSame(was, mid, own0, e) && BytesKept(was, mid, own0) && OthersSame(mid, mem, own1, e) && BytesKept(mid, mem, own)
    requires HeldOnly(own0, own, lost) && Is(own0, e, Free)
    requires forall f :: f in own0 && !own0[f].Free? ==> f in own1 && own1[f] == own0[f]
    ensures OthersSame(was, mem, own0, e) && BytesKept(was, mem, own0)
  {
    hide Pt;
    OthersTrans(was, mid, mem, own0, own1, e);
    forall f | f in own0 && (own0[f].UserOf? || own0[f].Elsewhere?) ensures f in was && f in mem && mem[f] == was[f] {
      assert f !in lost;
      assert own[f] == own0[f];
    }
  }

  /** The frames in `lost` moved from the free list to the kernel's hands, nothing else. */
  ghost predicate HeldOnly(own0: Owners, own: Owners, lost: set<nat>) {
    && own0.Keys == own.Keys && lost <= own0.Keys
    && forall f :: f in own0 ==> if f in lost then own0[f].Free? && own[f].Elsewhere? else own[f] == own0[f]
  }

  /** Every space translates as before and every held frame keeps its contents. */
  ghost predicate SpacesKept(was: Memory, mem: Memory, own0: Owners) {
    && (forall x, i: nat, j: nat :: Is(own0, x, Dir) ==> Pt(mem, x, i, j) == Pt(was, x, i, j))
    && BytesKept(was, mem, own0)
  }

  lemma AllSpaces(was: Memory, mem: Memory, own0: Owners, e: nat)
    requires OthersSame(was, mem, own0, e) && BytesKept(was, mem, own0) && !Is(own0, e, Dir)
    ensures SpacesKept(was, mem, own0)
  {
    hide Pt;
  }

  lemma HoldOne(own0: Owners, f: nat)
    requires Is(own0, f, Free)
    ensures HeldOnly(own0, own0[f := Elsewhere], {f})
  {
  }

  lemma HoldNone(own0: Owners)
    ensures HeldOnly(own0, own0, {})
  {
  }

  /** copyuvm's failure path: freevm gives back all of the unfinished copy, but not a frame never mapped. */
  lemma Abandon(was: Memory, own0: Owners, mem: Memory, own: Owners, mid: Memory, own1: Owners, after: Memory, own2: Owners, e: nat, lost: set<nat>)
    requires Made(was, own0, mem, own, e) && Owned(was, own0) && HeldOnly(own, own1, lost) && Dropped(own1, own2, e)
    requires OthersSame(mem, mid, own, e) && BytesKept(mem, mid, own)
    requires OthersSame(mid, after, own1, e) && BytesKept(mid, after, own2) && Is(own, e, Dir)
    ensures HeldOnly(own0, own2, lost) && SpacesKept(was, after, own0)
  {
    hide Pt, OthersSame, BytesKept, Owned;
    forall f | f in own ensures own2[f] == (if f in lost then Elsewhere else if f == e || OfSpace(own[f], e) then Free else own[f]) {
      assert own2[f] == if f == e || OfSpace(own1[f], e) then Free else own1[f];
    }
    DropMade(was, own0, mem, own, own2, e, lost);
    hide Dropped, HeldOnly;
    MadeHeld(own0, own, e);
    HeldKept(own, own1, lost);
    OthersTwice(was, own0, mem, own, mid, e);
    DropSame(was, own0, mid, own1, after, own2, e, lost);
    AllSpaces(was, after, own0, e);
  }

  lemma MadeHeld(own0: Owners, own: Owners, e: nat)
    requires Is(own0, e, Free) && GrewOwn(own0[e := Dir], own, e, 0)
    ensures forall f :: f in own0 && !own0[f].Free? ==> f in own && own[f] == own0[f]
  {
    var base := own0[e := Dir];
    forall f | f in own0 && !own0[f].Free? ensures f in own && own[f] == own0[f] {
      assert base[f] == own0[f];
    }
  }

  lemma HeldKept(own: Owners, own1: Owners, lost: set<nat>)
    requires HeldOnly(own, own1, lost)
    ensures forall f :: f in own && !own[f].Free? ==> f in own1 && own1[f] == own[f]
  {
  }

  lemma OthersTwice(was: Memory, own0: Owners, mem: Memory, own: Owners, mid: Memory, e: nat)
    requires OthersSame(was, mem, own0, e) && BytesKept(was, mem, own0) && OthersSame(mem, mid, own, e) && BytesKept(mem, mid, own)
    requires forall f :: f in own0 && !own0[f].Free? ==> f in own && own[f] == own0[f]
    ensures OthersSame(was, mid, own0, e) && BytesKept(was, mid, own0)
  {
    hide Pt;
    OthersTrans(was, mem, mid, own0, own, e);
  }

  lemma PresentTable(mem: Memory, d: nat, v: nat)
    requires At(mem, d, v).Present?
    ensures Pde(mem, d, v / 1024).Present?
  {
  }

  lemma FillKept(mem: Memory, own: Owners, f: nat, p: Page, e: nat)
    requires Owned(mem, own) && Is(own, f, Free) && Is(own, e, Dir)
    ensures OthersSame(mem, mem[f := p], own, e) && BytesKept(mem, mem[f := p], own)
  {
    FillSame(mem, own, f, p, e);
    hide Pt, Owned;
  }

  lemma PrefixAt(mem: Memory, d: nat, n: nat, v: nat)
    requires Prefix(mem, d, n) && v < n
    ensures v < 0x8_0000 && At(mem, d, v).Present?
  {
  }

  lemma SetupFailed(was: Memory, free0: seq<nat>, own0: Owners, mem: Memory, own: Owners, d: nat, gone: Option<nat>)
    requires Inv(was, free0, own0) && Is(own0, d, Dir)
    requires gone.None? ==> mem == was && own == own0
    requires gone.Some? ==> Building(was, own0, mem, own, gone.value)
    ensures SpacesKept(was, mem, own0) && (gone.None? ==> HeldOnly(own0, own, {}))
  {
    DirFacts(was, own0, d, 0);
    if gone.Some? {
      AllSpaces(was, mem, own0, gone.value);
    }
  }
}
