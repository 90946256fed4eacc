/** What allocuvm, copyuvm and freevm do to a space and to everybody's frames, on values. */
module UserMemory {
  import opened PageTables
  import opened PageSpaces

  /** Pages lo..a are new in d, zeroed, writable and user-accessible; its other pages as they were. */
  ghost predicate Grown(was: Memory, mem: Memory, d: nat, lo: nat, a: nat) {
    forall v: nat :: v < 0x10_0000 ==>
      if lo <= v < a then Fresh(mem, At(mem, d, v)) else At(mem, d, v) == At(was, d, v)
  }

  predicate Fresh(mem: Memory, p: Pte) {
    p.Present? && p.w && p.u && p.frame in mem && mem[p.frame] == ZeroPage()
  }

  predicate NewIn(o: Owner, d: nat, lo: nat) {
    (o.TableOf? && o.d == d) || (o.UserOf? && o.d == d && lo <= o.i * 1024 + o.j)
  }

  /** Only free frames changed hands: to tables of d and to its pages from lo on. */
  ghost predicate GrewOwn(own0: Owners, own: Owners, d: nat, lo: nat) {
    && own0.Keys == own.Keys
    && forall f :: f in own0 && own[f] != own0[f] ==> own0[f].Free? && NewIn(own[f], d, lo)
  }

  ghost predicate Grew(was: Memory, own0: Owners, mem: Memory, own: Owners, d: nat, lo: nat, a: nat) {
    && Grown(was, mem, d, lo, a) && GrewOwn(own0, own, d, lo)
    && OthersSame(was, mem, own0, d) && BytesKept(was, mem, own0)
  }

  lemma GrewStart(mem: Memory, own: Owners, d: nat, lo: nat)
    requires Owned(mem, own) && Is(own, d, Dir)
    ensures Grew(mem, own, mem, own, d, lo, lo)
  {
    DirFacts(mem, own, d, 0);
  }

  /** Filling a free frame changes no translation and no held contents. */
  lemma FillSame(mem: Memory, own: Owners, f: nat, p: Page, d: nat)
    requires Owned(mem, own) && Idle(own, f) && Is(own, d, Dir)
    ensures OthersSame(mem, mem[f := p], own, d) && SameSpace(mem, mem[f := p], d)
    ensures forall g :: g in own && g != f ==> g in mem && mem[f := p][g] == mem[g]
  {
    var after := mem[f := p];
    forall e, i: nat, j: nat | Is(own, e, Dir) ensures Pt(after, e, i, j) == Pt(mem, e, i, j) {
      DataKeeps(mem, own, f, p, e, i, j);
    }
    hide Pt;
  }

  /** The user frames of d before the loop keep their contents, the new one is zero. */
  lemma GrownStep(was: Memory, mem: Memory, mem1: Memory, mem2: Memory, own: Owners, d: nat, lo: nat, a: nat, f: nat)
    requires Grown(was, mem, d, lo, a) && Owned(mem, own) && Is(own, d, Dir) && Is(own, f, Free)
    requires mem1 == mem[f := ZeroPage()] && lo <= a < 0x8_0000
    requires Mapped1(mem1, mem2, d, a, Present(f, true, true)) && BytesKept(mem1, mem2, own[f := Elsewhere])
    ensures Grown(was, mem2, d, lo, a + 1)
  {
    FillSame(mem, own, f, ZeroPage(), d);
    forall v: nat | v < 0x10_0000
      ensures if lo <= v < a + 1 then Fresh(mem2, At(mem2, d, v)) else At(mem2, d, v) == At(was, d, v) {
      hide Pt, ZeroPage;
      assert v != a ==> !(v / 1024 == a / 1024 && v % 1024 == a % 1024);
      assert At(mem2, d, v) == if v == a then Present(f, true, true) else At(mem, d, v);
      assert Is(own[f := Elsewhere], f, Elsewhere);
      if lo <= v < a {
        PageFrame(mem, own, d, v);
      }
    }
  }

  lemma PageFrame(mem: Memory, own: Owners, d: nat, v: nat)
    requires Owned(mem, own) && Is(own, d, Dir) && v < 0x8_0000 && At(mem, d, v).Present?
    ensures Is(own, At(mem, d, v).frame, UserOf(d, v / 1024, v % 1024))
  {
    assert DirOk(mem, own, d);
  }

  lemma GrewOwnStep(own0: Owners, own: Owners, own2: Owners, d: nat, lo: nat, a: nat, f: nat)
    requires GrewOwn(own0, own, d, lo) && Is(own, f, Free) && lo <= a
    requires TablesOnly(own[f := UserOf(d, a / 1024, a % 1024)], own2, d)
    ensures GrewOwn(own0, own2, d, lo)
  {
    assert a / 1024 * 1024 + a % 1024 == a;
    var w := own[f := UserOf(d, a / 1024, a % 1024)];
    forall g | g in own0 && own2[g] != own0[g] ensures own0[g].Free? && NewIn(own2[g], d, lo) {
      assert own2[g] == w[g] || (w[g].Free? && own2[g].TableOf? && own2[g].d == d);
    }
  }

  /** A frame free before or in space d now: nobody else can have held it. */
  lemma GrewHeld(own0: Owners, own: Owners, d: nat, lo: nat)
    requires GrewOwn(own0, own, d, lo)
    ensures forall f :: f in own0 && !own0[f].Free? ==> f in own && own[f] == own0[f]
  {
  }

  lemma GrewOthers(was: Memory, own0: Owners, mem: Memory, own: Owners, mem1: Memory, mem2: Memory, d: nat, f: nat, lo: nat)
    requires OthersSame(was, mem, own0, d) && OthersSame(mem, mem1, own, d) && OthersSame(mem1, mem2, own[f := Elsewhere], d)
    requires GrewOwn(own0, own, d, lo) && Is(own, f, Free)
    ensures OthersSame(was, mem2, own0, d)
  {
    GrewHeld(own0, own, d, lo);
    hide GrewOwn, Pt;
    OthersTrans(was, mem, mem1, own0, own, d);
    OthersTrans(was, mem1, mem2, own0, own[f := Elsewhere], d);
  }

  lemma GrewBytes(was: Memory, own0: Owners, mem: Memory, own: Owners, mem1: Memory, mem2: Memory, d: nat, f: nat, lo: nat)
    requires BytesKept(was, mem, own0) && BytesKept(mem1, mem2, own[f := Elsewhere]) && GrewOwn(own0, own, d, lo) && Is(own, f, Free)
    requires forall g :: g in own && g != f ==> g in mem && g in mem1 && mem1[g] == mem[g]
    ensures BytesKept(was, mem2, own0)
  {
    GrewHeld(own0, own, d, lo);
    hide GrewOwn;
    var w := own[f := Elsewhere];
    forall g | g in own0 && (own0[g].UserOf? || own0[g].Elsewhere?) ensures g in was && g in mem2 && mem2[g] == was[g] {
      assert g in own && own[g] == own0[g] && g != f && w[g] == own0[g];
    }
  }

  lemma GrewStep(was: Memory, own0: Owners, mem: Memory, own: Owners, mem1: Memory, mem2: Memory, own2: Owners, d: nat, lo: nat, a: nat, f: nat)
    requires Grew(was, own0, mem, own, d, lo, a) && Owned(mem, own) && Is(own, d, Dir) && Is(own, f, Free)
    requires mem1 == mem[f := ZeroPage()] && lo <= a < 0x8_0000
    requires Mapped1(mem1, mem2, d, a, Present(f, true, true)) && BytesKept(mem1, mem2, own[f := Elsewhere])
    requires OthersSame(mem1, mem2, own[f := Elsewhere], d)
    requires TablesOnly(own[f := UserOf(d, a / 1024, a % 1024)], own2, d)
    ensures Grew(was, own0, mem2, own2, d, lo, a + 1) && Is(own2, d, Dir)
  {
    assert Is(own2, d, Dir);
    hide Pt, ZeroPage, Owned, Grown, Mapped1, GrewOwn, OthersSame, BytesKept, TablesOnly;
    GrownStep(was, mem, mem1, mem2, own, d, lo, a, f);
    FillSame(mem, own, f, ZeroPage(), d);
    GrewOwnStep(own0, own, own2, d, lo, a, f);
    GrewOthers(was, own0, mem, own, mem1, mem2, d, f, lo);
    GrewBytes(was, own0, mem, own, mem1, mem2, d, f, lo);
  }

  /** After any number of rounds the user pages are still a prefix. */
  lemma GrewPrefix(was: Memory, mem: Memory, d: nat, lo: nat, a: nat)
    requires Prefix(was, d, lo) && Grown(was, mem, d, lo, a) && lo <= a <= 0x8_0000
    ensures Prefix(mem, d, a)
  {
    hide Pt;
    forall v: nat | v < 0x8_0000 ensures At(mem, d, v).Present? <==> v < a {
      assert lo <= v < a ==> Fresh(mem, At(mem, d, v));
    }
  }

  lemma AllPages(was: Memory, mem: Memory, d: nat)
    requires forall v: nat :: v < 0x10_0000 ==> At(mem, d, v) == At(was, d, v)
    ensures SameSpace(was, mem, d)
  {
    forall i: nat, j: nat ensures Pt(mem, d, i, j) == Pt(was, d, i, j) {
      if i < 1024 && j < 1024 {
        Index(i, j, i * 1024 + j);
        assert At(mem, d, i * 1024 + j) == At(was, d, i * 1024 + j);
      }
    }
  }

  /** Growing and cutting back leaves the space as it was; only tables stay behind. */
  lemma GrewBack(was: Memory, free0: seq<nat>, own0: Owners, mem: Memory, own: Owners, after: Memory, own2: Owners, d: nat, lo: nat, a: nat)
    requires Inv(was, free0, own0) && Prefix(was, d, lo) && Grew(was, own0, mem, own, d, lo, a) && lo <= a <= 0x8_0000
    requires Owned(mem, own) && Trimmed(mem, own, after, own2, d, lo, 0x8_0000)
    ensures SameSpace(was, after, d) && TablesOnly(own0, own2, d) && OthersSame(was, after, own0, d) && BytesKept(was, after, own0)
  {
    BackSpace(was, mem, after, d, lo, a);
    BackOwn(was, own0, mem, own, own2, d, lo);
    GrewHeld(own0, own, d, lo);
    hide Pt, Inv, Grown, GrewOwn, Cut, OwnCut, Prefix;
    OthersTrans(was, mem, after, own0, own, d);
    hide OthersSame;
    forall g | g in own0 && (own0[g].UserOf? || own0[g].Elsewhere?) ensures g in was && g in after && after[g] == was[g] {
      assert own2[g] == own0[g];
    }
  }

  lemma BackSpace(was: Memory, mem: Memory, after: Memory, d: nat, lo: nat, a: nat)
    requires Prefix(was, d, lo) && Grown(was, mem, d, lo, a) && lo <= a <= 0x8_0000 && Cut(mem, after, d, lo, 0x8_0000)
    ensures SameSpace(was, after, d)
  {
    forall v: nat | v < 0x10_0000 ensures At(after, d, v) == At(was, d, v) {
      hide Pt;
      assert At(after, d, v) == if lo <= v < 0x8_0000 then Absent else At(mem, d, v);
      assert lo <= v < 0x8_0000 ==> At(was, d, v).Absent?;
    }
    hide Prefix, Grown, Cut;
    AllPages(was, after, d);
  }

  /** In a space that is a prefix of n pages, every user frame is one of those. */
  lemma PrefixOwner(was: Memory, own0: Owners, d: nat, n: nat, f: nat)
    requires Owned(was, own0) && Prefix(was, d, n) && f in own0 && own0[f].UserOf? && own0[f].d == d
    ensures own0[f].i * 1024 + own0[f].j < n
  {
    assert FrameOk(was, own0, f);
    var v := own0[f].i * 1024 + own0[f].j;
    Index(own0[f].i, own0[f].j, v);
    assert At(was, d, v).Present?;
  }

  lemma BackOwn(was: Memory, own0: Owners, mem: Memory, own: Owners, own2: Owners, d: nat, lo: nat)
    requires Owned(was, own0) && Prefix(was, d, lo) && Owned(mem, own)
    requires GrewOwn(own0, own, d, lo) && OwnCut(own, own2, d, lo, 0x8_0000)
    ensures TablesOnly(own0, own2, d)
  {
    hide Prefix;
    forall f | f in own0 && own2[f] != own0[f] ensures own0[f].Free? && own2[f].TableOf? && own2[f].d == d {
      assert FrameOk(mem, own, f);
      assert own2[f] == if UserPage(own[f], d, lo, 0x8_0000) then Free else own[f];
      if own0[f].UserOf? && own0[f].d == d {
        PrefixOwner(was, own0, d, lo, f);
      }
    }
  }

  lemma SameAt(mem: Memory, after: Memory, d: nat, v: nat)
    requires SameSpace(mem, after, d)
    ensures At(after, d, v) == At(mem, d, v)
  {
  }

  lemma HeldCut(mem: Memory, mem1: Memory, after: Memory, after2: Memory, d: nat, lo: nat, top: nat)
    requires SameSpace(mem, mem1, d) && SameSpace(after, after2, d) && Cut(mem1, after, d, lo, top)
    ensures Cut(mem, after2, d, lo, top)
  {
    hide Pt;
    forall v: nat | v < 0x10_0000 ensures At(after2, d, v) == if lo <= v < top && v < 0x8_0000 then Absent else At(mem, d, v) {
      SameAt(mem, mem1, d, v);
      SameAt(after, after2, d, v);
    }
  }

  lemma HeldOwn(own: Owners, f: nat, own2: Owners, d: nat, lo: nat, top: nat)
    requires OwnCut(own[f := Elsewhere], own2, d, lo, top) && Is(own, f, Free)
    ensures Is(own2, f, Elsewhere) && OwnCut(own, own2[f := Free], d, lo, top)
    ensures forall e :: Is(own, e, Dir) ==> Is(own2, e, Dir)
  {
    var own1 := own[f := Elsewhere];
    assert own2[f] == own1[f];
    forall e | Is(own, e, Dir) ensures Is(own2, e, Dir) {
      assert own2[e] == own1[e];
    }
  }

  lemma HeldBytes(mem: Memory, own: Owners, f: nat, mem1: Memory, after: Memory, own2: Owners, after2: Memory)
    requires BytesKept(mem1, after, own2) && own2.Keys == own.Keys && f in own
    requires forall g :: g in own && g != f ==> g in mem && g in mem1 && mem1[g] == mem[g]
    requires forall g :: g in own2 && g != f ==> g in after && g in after2 && after2[g] == after[g]
    ensures BytesKept(mem, after2, own2[f := Free])
  {
  }

  /** Cutting back while holding one more frame, then freeing it, is cutting back. */
  lemma TrimmedHeld(mem: Memory, own: Owners, f: nat, p: Page, after: Memory, own2: Owners, q: Page, d: nat, lo: nat, top: nat)
    requires Owned(mem, own) && Is(own, f, Free) && Is(own, d, Dir)
    requires Trimmed(mem[f := p], own[f := Elsewhere], after, own2, d, lo, top) && Owned(after, own2)
    ensures Is(own2, f, Elsewhere) && Trimmed(mem, own, after[f := q], own2[f := Free], d, lo, top)
  {
    hide Pt, Cut, OwnCut, OthersSame, BytesKept, Owned, SameSpace;
    var mem1, after2 := mem[f := p], after[f := q];
    HeldOwn(own, f, own2, d, lo, top);
    FillSame(mem, own, f, p, d);
    FillSame(after, own2, f, q, d);
    HeldCut(mem, mem1, after, after2, d, lo, top);
    HeldOthers(mem, own, f, mem1, after, own2, after2, d, lo, top);
    SameKeys(own, f, own2, d, lo, top);
    HeldBytes(mem, own, f, mem1, after, own2, after2);
  }

  lemma SameKeys(own: Owners, f: nat, own2: Owners, d: nat, lo: nat, top: nat)
    requires OwnCut(own[f := Elsewhere], own2, d, lo, top) && f in own
    ensures own.Keys == own2.Keys
  {
  }

  /** Everything is as before, but for frames that became tables of d. */
  ghost predicate Undone(was: Memory, own0: Owners, mem: Memory, own: Owners, d: nat) {
    SameSpace(was, mem, d) && TablesOnly(own0, own, d) && OthersSame(was, mem, own0, d) && BytesKept(was, mem, own0)
  }

  lemma HeldOthers(mem: Memory, own: Owners, f: nat, mem1: Memory, after: Memory, own2: Owners, after2: Memory, d: nat, lo: nat, top: nat)
    requires OthersSame(mem, mem1, own, d) && OthersSame(mem1, after, own[f := Elsewhere], d) && OthersSame(after, after2, own2, d)
    requires Is(own, f, Free) && OwnCut(own[f := Elsewhere], own2, d, lo, top)
    ensures OthersSame(mem, after2, own, d)
  {
    hide Pt;
    OthersTrans(mem, mem1, after, own, own[f := Elsewhere], d);
    OthersTrans(mem, after, after2, own, own2, d);
  }

  lemma PrefixOf(was: Memory, own0: Owners, mem: Memory, own: Owners, d: nat, lo: nat, a: nat)
    requires Grew(was, own0, mem, own, d, lo, a) && Prefix(was, d, lo) && lo <= a <= 0x8_0000
    ensures Prefix(mem, d, a) && (a < 0x8_0000 ==> At(mem, d, a).Absent?)
  {
    GrewPrefix(was, mem, d, lo, a);
  }

  lemma GrewUndone(was: Memory, free0: seq<nat>, own0: Owners, mem: Memory, own: Owners, after: Memory, own2: Owners, d: nat, lo: nat, a: nat)
    requires Inv(was, free0, own0) && Prefix(was, d, lo) && Grew(was, own0, mem, own, d, lo, a) && lo <= a <= 0x8_0000
    requires Owned(mem, own) && Trimmed(mem, own, after, own2, d, lo, 0x8_0000)
    ensures Undone(was, own0, after, own2, d) && (Is(own0, d, Dir) ==> Is(own2, d, Dir))
  {
    GrewBack(was, free0, own0, mem, own, after, own2, d, lo, a);
  }

  /** Writing to a frame the kernel holds keeps the invariant and every translation. */
  lemma Fill(mem: Memory, free: seq<nat>, own: Owners, f: nat, p: Page, d: nat, a: nat)
    requires Inv(mem, free, own) && Is(own, f, Elsewhere) && Is(own, d, Dir) && Prefix(mem, d, a)
    ensures Inv(mem[f := p], free, own) && Prefix(mem[f := p], d, a) && f in mem
    ensures SameSpace(mem, mem[f := p], d)
  {
    RoleOwned(mem, own, f, p, Elsewhere);
    assert own[f := Elsewhere] == own;
    FillSame(mem, own, f, p, d);
    PrefixSame(mem, mem[f := p], d, a);
  }

  lemma PrefixSame(mem: Memory, after: Memory, d: nat, n: nat)
    requires SameSpace(mem, after, d) && Prefix(mem, d, n)
    ensures Prefix(after, d, n)
  {
    hide Pt;
    forall v: nat | v < 0x8_0000 ensures At(after, d, v).Present? <==> v < n {
      SameAt(mem, after, d, v);
    }
  }

  lemma FreeHeld(mem: Memory, own: Owners, f: nat, p: Page)
    requires Owned(mem, own) && Is(own, f, Elsewhere)
    ensures f in mem && Owned(mem[f := p], own[f := Free])
  {
    RoleOwned(mem, own, f, p, Free);
  }

  lemma Overwrite(own: Owners, f: nat, o: Owner, q: Owner)
    ensures own[f := o][f := q] == own[f := q]
  {
  }

  /** The directory, its tables and its pages are all free; nobody else's frames changed hands. */
  ghost predicate Dropped(own0: Owners, own: Owners, d: nat) {
    && own0.Keys == own.Keys
    && forall f :: f in own0 ==> own[f] == if f == d || OfSpace(own0[f], d) then Free else own0[f]
  }

  /** Frames that did not become free keep their contents. */
  ghost predicate OnlyFreed(was: Memory, own0: Owners, mem: Memory, own: Owners) {
    mem.Keys == was.Keys == own.Keys && forall f :: f in own0 && f in own && own[f] == own0[f] && !own[f].Free? ==> f in was && f in mem && mem[f] == was[f]
  }

  lemma DroppedPt(was: Memory, own0: Owners, mem: Memory, own: Owners, d: nat, e: nat, i: nat, j: nat)
    requires Owned(was, own0) && Is(own0, d, Dir) && Dropped(own0, own, d) && OnlyFreed(was, own0, mem, own)
    requires Is(own0, e, Dir) && e != d
    ensures Is(own, e, Dir) && Pt(mem, e, i, j) == Pt(was, e, i, j) && Pde(mem, e, i) == Pde(was, e, i)
  {
    assert FrameOk(was, own0, e) && DirOk(was, own0, e);
    assert own[e] == own0[e];
    assert Pde(was, e, i).Present? ==> Is(own0, Pde(was, e, i).frame, TableOf(e, i)) && own[Pde(was, e, i).frame] == own0[Pde(was, e, i).frame];
  }

  /** Giving up a whole space leaves the others whole. */
  lemma DropOwned(was: Memory, own0: Owners, mem: Memory, own: Owners, d: nat)
    requires Owned(was, own0) && Is(own0, d, Dir) && Dropped(own0, own, d) && OnlyFreed(was, own0, mem, own)
    ensures Owned(mem, own) && OthersSame(was, mem, own0, d) && BytesKept(was, mem, own)
  {
    forall e, i: nat, j: nat | Is(own0, e, Dir) && e != d
      ensures Is(own, e, Dir) && Pt(mem, e, i, j) == Pt(was, e, i, j) && Pde(mem, e, i) == Pde(was, e, i) {
      DroppedPt(was, own0, mem, own, d, e, i, j);
    }
    forall f | f in own ensures FrameOk(mem, own, f) {
      assert FrameOk(was, own0, f);
      assert own[f] == if f == d || OfSpace(own0[f], d) then Free else own0[f];
      if f != d && !OfSpace(own0[f], d) {
        match own0[f]
        case TableOf(e, i) => DroppedPt(was, own0, mem, own, d, e, i, 0);
        case UserOf(e, i, j) => DroppedPt(was, own0, mem, own, d, e, i, j);
        case _ =>
      }
    }
    forall e | Is(own, e, Dir) ensures DirOk(mem, own, e) {
      DropDir(was, own0, mem, own, d, e);
    }
  }

  lemma DropDir(was: Memory, own0: Owners, mem: Memory, own: Owners, d: nat, e: nat)
    requires Owned(was, own0) && Is(own0, d, Dir) && Dropped(own0, own, d) && OnlyFreed(was, own0, mem, own) && Is(own, e, Dir)
    ensures DirOk(mem, own, e)
  {
    assert own[e] == if e == d || OfSpace(own0[e], d) then Free else own0[e];
    assert DirOk(was, own0, e);
    forall i: nat, j: nat ensures Pt(mem, e, i, j) == Pt(was, e, i, j) && Pde(mem, e, i) == Pde(was, e, i) {
      DroppedPt(was, own0, mem, own, d, e, i, j);
    }
    hide Pt, Pde, Owned, OnlyFreed;
  }

  predicate EarlyTable(o: Owner, d: nat, i: nat) {
    o.TableOf? && o.d == d && o.i < i
  }

  /** freevm's loop so far: the tables of entries below i are free. */
  ghost predicate Emptied(own0: Owners, own: Owners, d: nat, i: nat) {
    && own0.Keys == own.Keys
    && forall f :: f in own0 ==> own[f] == if EarlyTable(own0[f], d, i) then Free else own0[f]
  }

  lemma EmptyStart(mem: Memory, own: Owners, d: nat)
    requires mem.Keys == own.Keys
    ensures Emptied(own, own, d, 0) && OnlyFreed(mem, own, mem, own)
  {
  }

  lemma EmptySkip(was: Memory, own0: Owners, own: Owners, d: nat, i: nat)
    requires Owned(was, own0) && Emptied(own0, own, d, i) && Pde(was, d, i).Absent?
    ensures Emptied(own0, own, d, i + 1)
  {
    forall f | f in own0 ensures EarlyTable(own0[f], d, i) == EarlyTable(own0[f], d, i + 1) {
      assert FrameOk(was, own0, f);
    }
  }

  lemma OneMoreFreed(was: Memory, own0: Owners, mem: Memory, own: Owners, t: nat, p: Page)
    requires OnlyFreed(was, own0, mem, own) && t in own
    ensures t in mem && OnlyFreed(was, own0, mem[t := p], own[t := Free])
  {
    var m, w := mem[t := p], own[t := Free];
    assert m.Keys == mem.Keys && w.Keys == own.Keys;
    forall f | f in own0 && f in w && w[f] == own0[f] && !w[f].Free? ensures f in was && f in m && m[f] == was[f] {
      assert f != t && own[f] == own0[f];
    }
  }

  lemma EmptyStep(was: Memory, own0: Owners, mem: Memory, own: Owners, d: nat, i: nat, p: Page)
    requires Owned(was, own0) && Is(own0, d, Dir) && Emptied(own0, own, d, i) && OnlyFreed(was, own0, mem, own) && Pde(was, d, i).Present?
    ensures var t := Pde(was, d, i).frame;
      && t in own && t in mem && !own[t].Free? && Emptied(own0, own[t := Free], d, i + 1)
      && OnlyFreed(was, own0, mem[t := p], own[t := Free])
  {
    hide OnlyFreed;
    var t := Pde(was, d, i).frame;
    assert DirOk(was, own0, d);
    assert Is(own0, t, TableOf(d, i));
    forall f | f in own0 && f != t ensures EarlyTable(own0[f], d, i) == EarlyTable(own0[f], d, i + 1) {
      assert FrameOk(was, own0, f);
    }
    hide Owned, DirOk, Pt, Pde;
    OneMoreFreed(was, own0, mem, own, t, p);
  }

  lemma EmptyDir(was: Memory, own0: Owners, mem: Memory, own: Owners, d: nat, i: nat)
    requires Owned(was, own0) && Is(own0, d, Dir) && Emptied(own0, own, d, i) && OnlyFreed(was, own0, mem, own)
    ensures d in was && d in mem && mem[d] == was[d] && IsTable(was, d) && Is(own, d, Dir)
  {
    assert FrameOk(was, own0, d);
    assert own[d] == own0[d];
  }

  lemma EmptyRest(mid: Memory, own1: Owners, mem: Memory, own: Owners, d: nat, p: Page)
    requires Emptied(own1, own, d, 1024) && OnlyFreed(mid, own1, mem, own) && Owned(mid, own1) && d in own1
    requires forall f :: f in own1 ==> !(own1[f].UserOf? && own1[f].d == d)
    ensures Dropped(own1, own[d := Free], d) && OnlyFreed(mid, own1, mem[d := p], own[d := Free])
  {
    hide OnlyFreed;
    OneMoreFreed(mid, own1, mem, own, d, p);
    forall f | f in own1 ensures EarlyTable(own1[f], d, 1024) == OfSpace(own1[f], d) {
      assert FrameOk(mid, own1, f);
    }
    hide Owned;
  }

  /** After the pages, the tables and the directory: exactly the frames of d were given back. */
  lemma EmptyAll(was: Memory, own0: Owners, mid: Memory, own1: Owners, mem: Memory, own: Owners, d: nat, p: Page)
    requires Owned(was, own0) && Owned(mid, own1) && Is(own1, d, Dir)
    requires OwnCut(own0, own1, d, 0, 0x8_0000) && Emptied(own1, own, d, 1024) && OnlyFreed(mid, own1, mem, own)
    ensures Dropped(own0, own[d := Free], d) && Dropped(own1, own[d := Free], d) && OnlyFreed(mid, own1, mem[d := p], own[d := Free])
  {
    forall f | f in own1 ensures !(own1[f].UserOf? && own1[f].d == d) {
      NoUser(was, own0, own1, d, f);
    }
    hide Emptied, OnlyFreed, Pt, Pde;
    EmptyRest(mid, own1, mem, own, d, p);
    var w := own[d := Free];
    forall f | f in own0 ensures w[f] == if f == d || OfSpace(own0[f], d) then Free else own0[f] {
      assert w[f] == if f == d || OfSpace(own1[f], d) then Free else own1[f];
      assert own1[f] == if UserPage(own0[f], d, 0, 0x8_0000) then Free else own0[f];
      assert FrameOk(was, own0, f);
    }
  }

  lemma NoUser(was: Memory, own0: Owners, own1: Owners, d: nat, f: nat)
    requires Owned(was, own0) && OwnCut(own0, own1, d, 0, 0x8_0000) && f in own1
    ensures !(own1[f].UserOf? && own1[f].d == d)
  {
    assert FrameOk(was, own0, f);
  }

  lemma PrefixBound(mem: Memory, d: nat, n: nat)
    requires Prefix(mem, d, n)
    ensures n <= 0x8_0000
  {
  }

  lemma TrimmedDir(was: Memory, own0: Owners, mem: Memory, own: Owners, d: nat)
    requires Trimmed(was, own0, mem, own, d, 0, 0x8_0000) && Owned(mem, own) && Is(own0, d, Dir)
    ensures OwnCut(own0, own, d, 0, 0x8_0000) && mem.Keys == own.Keys && Is(own, d, Dir)
  {
  }

  lemma FreeSame(was: Memory, own0: Owners, mid: Memory, own1: Owners, mem: Memory, own: Owners, d: nat)
    requires Trimmed(was, own0, mid, own1, d, 0, 0x8_0000) && OthersSame(mid, mem, own1, d) && BytesKept(mid, mem, own)
    requires Dropped(own0, own, d) && Dropped(own1, own, d)
    ensures OthersSame(was, mem, own0, d) && BytesKept(was, mem, own)
  {
    hide Pt, Cut;
    OthersTrans(was, mid, mem, own0, own1, d);
    forall f | f in own && (own[f].UserOf? || own[f].Elsewhere?) ensures f in was && f in mem && mem[f] == was[f] {
      assert own[f] == own1[f];
    }
  }

  /** A space has one length. */
  lemma TwoPrefixes(mem: Memory, d: nat, n: nat, m: nat)
    requires Prefix(mem, d, n)
    ensures Prefix(mem, d, m) <==> m == n
  {
    hide Pt;
    if m != n && m <= 0x8_0000 {
      var v := if m < n then m else n;
      assert v < 0x8_0000 && (At(mem, d, v).Present? <==> v < n);
    }
  }

  lemma Shrunk(was: Memory, own0: Owners, mem: Memory, own: Owners, d: nat, n: nat, k: nat)
    requires Prefix(was, d, n) && Trimmed(was, own0, mem, own, d, k, 0x8_0000) && k <= n
    ensures Prefix(mem, d, k) && (Is(own0, d, Dir) ==> Is(own, d, Dir))
  {
    hide Pt, OthersSame, BytesKept;
    forall v: nat | v < 0x8_0000 ensures At(mem, d, v).Present? <==> v < k {
      assert At(mem, d, v) == if k <= v < 0x8_0000 then Absent else At(was, d, v);
    }
  }

  lemma GrowFailed(was: Memory, own0: Owners, mem: Memory, own: Owners, d: nat, n: nat)
    requires Prefix(was, d, n) && (Undone(was, own0, mem, own, d) || mem == was)
    ensures Prefix(mem, d, n)
  {
    if mem != was {
      PrefixSame(was, mem, d, n);
    }
  }
}
