/** Lemmas about page-table spaces and the free list: what the steps of vm.c keep. */
module PageSpaces {
  import opened PageTables

  lemma PopFree(free: seq<nat>, own: Owners)
    requires FreeOk(free, own) && free != []
    ensures Is(own, free[0], Free) && FreeOk(free[1..], own[free[0] := Elsewhere])
  {
    var w := own[free[0] := Elsewhere];
    assert free[0] in free;
    forall f ensures f in free[1..] <==> Is(w, f, Free) {
      if f in free[1..] {
        var k :| 0 <= k < |free| - 1 && free[1..][k] == f;
        assert free[k + 1] == f && Is(own, free[k + 1], Free);
      }
      if Is(w, f, Free) {
        assert Is(own, f, Free);
        var k :| 0 <= k < |free| && free[k] == f;
        assert free[1..][k - 1] == f;
      }
    }
  }

  lemma PushFree(free: seq<nat>, own: Owners, f: nat)
    requires FreeOk(free, own) && f in own && !own[f].Free?
    ensures FreeOk([f] + free, own[f := Free])
  {
    var w := own[f := Free];
    assert f !in free;
    forall g ensures g in [f] + free <==> Is(w, g, Free) {
    }
  }

  lemma SameRoles(free: seq<nat>, own: Owners, f: nat, o: Owner)
    requires FreeOk(free, own) && f in own && !own[f].Free? && !o.Free?
    ensures FreeOk(free, own[f := o])
  {
    var w := own[f := o];
    forall g ensures Is(w, g, Free) <==> Is(own, g, Free) {
    }
  }

  lemma InvParts(mem: Memory, free: seq<nat>, own: Owners)
    requires Inv(mem, free, own)
    ensures Owned(mem, own) && FreeOk(free, own)
  {
  }

  lemma JoinInv(mem: Memory, free: seq<nat>, own: Owners)
    requires Owned(mem, own) && FreeOk(free, own)
    ensures Inv(mem, free, own)
  {
  }

  lemma Link(mem: Memory, free: seq<nat>, own0: Owners, t: nat, d: nat, i: nat)
    requires Inv(mem, free, own0[t := Elsewhere]) && Is(own0, t, Free) && Is(own0, d, Dir) && i < 1024 && Pde(mem, d, i).Absent?
    ensures IsTable(mem[t := EmptyTable()], d)
    ensures var after := SetEntry(mem[t := EmptyTable()], d, i, Present(t, true, true));
      && Inv(after, free, own0[t := TableOf(d, i)])
      && Pde(after, d, i) == Present(t, true, true) && IsTable(after, t)
  {
    var own := own0[t := Elsewhere];
    TableOwned(mem, own, t, d, i);
    SameRoles(free, own, t, TableOf(d, i));
    assert own[t := TableOf(d, i)] == own0[t := TableOf(d, i)];
    hide Owned, FreeOk;
    TableKeeps(mem, own, t, d, i, d, i, 0);
  }

  lemma SameSelf(mem: Memory, own: Owners, d: nat)
    ensures SameSpace(mem, mem, d) && TablesOnly(own, own, d)
  {
  }

  lemma Survive(own: Owners, after: Owners, d: nat, f: nat)
    requires TablesOnly(own, after, d) && f in own && (own[f].Elsewhere? || own[f].Dir?)
    ensures f in after && after[f] == own[f]
  {
  }

  lemma StillData(mem: Memory, after: Memory, own: Owners, f: nat)
    requires BytesKept(mem, after, own) && Is(own, f, Elsewhere)
    ensures f in mem && f in after && after[f] == mem[f]
  {
  }

  lemma StillAbsent(mem: Memory, after: Memory, d: nat, i: nat, j: nat)
    requires SameSpace(mem, after, d)
    ensures Pt(after, d, i, j) == Pt(mem, d, i, j)
  {
  }

  lemma MapEffect(mem: Memory, mid: Memory, after: Memory, own: Owners, mine: Owners, d: nat, v: nat, f: nat, p: Pte)
    requires OthersSame(mem, mid, own, d) && SameSpace(mem, mid, d) && BytesKept(mem, mid, own) && TablesOnly(own, mine, d)
    requires OthersSame(mid, after, mine, d) && BytesKept(mid, after, mine) && Is(own, f, Elsewhere)
    requires forall x: nat, y: nat :: Pt(after, d, x, y) == if x == v / 1024 && y == v % 1024 then p else Pt(mid, d, x, y)
    ensures OthersSame(mem, after, own, d) && BytesKept(mem, after, own) && Mapped1(mem, after, d, v, p)
    ensures TablesOnly(own[f := UserOf(d, v / 1024, v % 1024)], mine[f := UserOf(d, v / 1024, v % 1024)], d)
  {
    hide Pt;
    OthersTrans(mem, mid, after, own, mine, d);
    forall g | g in own && (own[g].UserOf? || own[g].Elsewhere?) ensures g in mem && g in after && after[g] == mem[g] {
      assert g in mine && mine[g] == own[g];
    }
  }

  lemma DirFacts(mem: Memory, own: Owners, d: nat, i: nat)
    requires Owned(mem, own) && Is(own, d, Dir) && i < 1024
    ensures IsTable(mem, d)
    ensures Pde(mem, d, i).Present? ==> IsTable(mem, Pde(mem, d, i).frame) && Is(own, Pde(mem, d, i).frame, TableOf(d, i))
    ensures OthersSame(mem, mem, own, d) && BytesKept(mem, mem, own)
  {
    assert FrameOk(mem, own, d) && DirOk(mem, own, d);
    assert Pde(mem, d, i).Present? ==> Is(own, Pde(mem, d, i).frame, TableOf(d, i)) && FrameOk(mem, own, Pde(mem, d, i).frame);
  }

  /** The single page v of d now translates to p; every other page of d as before. */
  ghost predicate Mapped1(mem: Memory, after: Memory, d: nat, v: nat, p: Pte) {
    forall x: nat, y: nat :: Pt(after, d, x, y) == if x == v / 1024 && y == v % 1024 then p else Pt(mem, d, x, y)
  }

  function Pages(sz: nat): nat {
    (sz + 4095) / 4096
  }

  /** The user pages mapped in d are exactly the first n. */
  ghost predicate Prefix(mem: Memory, d: nat, n: nat) {
    n <= 0x8_0000 && forall v: nat :: v < 0x8_0000 ==> (At(mem, d, v).Present? <==> v < n)
  }

  /** User pages k..a are gone from d, all its other pages as they were. */
  ghost predicate Cut(was: Memory, mem: Memory, d: nat, k: nat, a: nat) {
    forall v: nat :: v < 0x10_0000 ==> At(mem, d, v) == if k <= v < a && v < 0x8_0000 then Absent else At(was, d, v)
  }

  predicate UserPage(o: Owner, d: nat, k: nat, a: nat) {
    o.UserOf? && o.d == d && k <= o.i * 1024 + o.j < a
  }

  /** Exactly the frames of user pages k..a of d were freed. */
  ghost predicate OwnCut(own0: Owners, own: Owners, d: nat, k: nat, a: nat) {
    && own0.Keys == own.Keys
    && forall f :: f in own0 ==> own[f] == if UserPage(own0[f], d, k, a) then Free else own0[f]
  }

  /** The entry walkpgdir's caller reads in table t. */
  function TableEntry(mem: Memory, d: nat, v: nat, t: nat): (p: Pte)
    requires IsTable(mem, t) && Pde(mem, d, v / 1024).Present? && t == Pde(mem, d, v / 1024).frame
    ensures p == At(mem, d, v)
  {
    mem[t].entries[v % 1024]
  }

  /** deallocuvm's effect so far: pages k..a of d and their frames are gone, nothing else is touched. */
  ghost predicate Trimmed(was: Memory, own0: Owners, mem: Memory, own: Owners, d: nat, k: nat, a: nat) {
    Cut(was, mem, d, k, a) && OwnCut(own0, own, d, k, a) && OthersSame(was, mem, own0, d) && BytesKept(was, mem, own)
  }

  lemma NoTable(mem: Memory, d: nat, v: nat)
    requires Pde(mem, d, v / 1024).Absent?
    ensures At(mem, d, v).Absent?
  {
  }

  lemma TrimStart(mem: Memory, free: seq<nat>, own: Owners, d: nat, k: nat)
    requires Inv(mem, free, own) && Is(own, d, Dir)
    ensures Trimmed(mem, own, mem, own, d, k, k)
  {
    DirFacts(mem, own, d, 0);
  }

  lemma CutStep(was: Memory, mid: Memory, mem: Memory, d: nat, k: nat, a: nat)
    requires Cut(was, mid, d, k, a) && k <= a < 0x8_0000 && Mapped1(mid, mem, d, a, Absent)
    ensures Cut(was, mem, d, k, a + 1)
  {
    hide Pt;
    forall v: nat | v < 0x10_0000
      ensures At(mem, d, v) == if k <= v < a + 1 && v < 0x8_0000 then Absent else At(was, d, v) {
      assert v != a ==> !(v / 1024 == a / 1024 && v % 1024 == a % 1024);
      assert At(mem, d, v) == if v == a then Absent else At(mid, d, v);
    }
  }

  lemma OnePage(mem: Memory, own: Owners, d: nat, a: nat, g: nat)
    requires Owned(mem, own) && g in own && UserPage(own[g], d, a, a + 1)
    ensures own[g] == UserOf(d, a / 1024, a % 1024) && At(mem, d, a).Present? && g == At(mem, d, a).frame
  {
    assert FrameOk(mem, own, g);
    Index(own[g].i, own[g].j, a);
  }

  lemma OwnStep(mid: Memory, own0: Owners, mine: Owners, d: nat, k: nat, a: nat)
    requires OwnCut(own0, mine, d, k, a) && k <= a && Owned(mid, mine) && At(mid, d, a).Present?
    requires Is(mine, At(mid, d, a).frame, UserOf(d, a / 1024, a % 1024))
    ensures OwnCut(own0, mine[At(mid, d, a).frame := Free], d, k, a + 1)
  {
    hide At, Owned, UserPage;
    var f := At(mid, d, a).frame;
    ThisPage(d, a);
    forall g | g in own0
      ensures mine[f := Free][g] == if UserPage(own0[g], d, k, a + 1) then Free else own0[g]
    {
      NextPage(own0[g], d, k, a);
      if UserPage(own0[g], d, a, a + 1) {
        OnePage(mid, mine, d, a, g);
      }
    }
  }

  lemma ThisPage(d: nat, a: nat)
    ensures UserPage(UserOf(d, a / 1024, a % 1024), d, a, a + 1)
  {
  }

  /** Page a is in no range that ends there, and is all that one more page adds. */
  lemma NextPage(o: Owner, d: nat, k: nat, a: nat)
    requires k <= a
    ensures UserPage(o, d, k, a + 1) <==> UserPage(o, d, k, a) || UserPage(o, d, a, a + 1)
    ensures !(UserPage(o, d, k, a) && UserPage(o, d, a, a + 1)) && !UserPage(Free, d, a, a + 1)
  {
  }

  lemma Index(i: nat, j: nat, v: nat)
    requires j < 1024 && i * 1024 + j == v
    ensures i == v / 1024 && j == v % 1024
  {
  }

  lemma TrimStep(was: Memory, own0: Owners, mid: Memory, mine: Owners, mem: Memory, own: Owners, d: nat, k: nat, a: nat)
    requires Trimmed(was, own0, mid, mine, d, k, a) && k <= a < 0x8_0000
    requires Mapped1(mid, mem, d, a, Absent) && At(mid, d, a).Present? && Owned(mid, mine)
    requires Is(mine, At(mid, d, a).frame, UserOf(d, a / 1024, a % 1024)) && own == mine[At(mid, d, a).frame := Free]
    requires OthersSame(mid, mem, mine, d) && BytesKept(mid, mem, own)
    ensures Trimmed(was, own0, mem, own, d, k, a + 1)
  {
    hide Pt, Owned;
    CutStep(was, mid, mem, d, k, a);
    OwnStep(mid, own0, mine, d, k, a);
    OthersTrans(was, mid, mem, own0, mine, d);
  }

  /** Past an unmapped page of a prefix nothing is mapped, so any skip is safe. */
  lemma TrimSkip(was: Memory, free0: seq<nat>, own0: Owners, mem: Memory, own: Owners, d: nat, n: nat, k: nat, a: nat, b: nat)
    requires Prefix(was, d, n) && Inv(was, free0, own0)
    requires Trimmed(was, own0, mem, own, d, k, a) && k <= a < 0x8_0000 && a <= b && At(mem, d, a).Absent?
    ensures Trimmed(was, own0, mem, own, d, k, b)
  {
    assert At(was, d, a).Absent? && n <= a by { hide Pt, Inv; }
    TrimPast(was, free0, own0, mem, own, d, n, k, a, b);
  }

  lemma TrimPast(was: Memory, free0: seq<nat>, own0: Owners, mem: Memory, own: Owners, d: nat, n: nat, k: nat, a: nat, b: nat)
    requires Prefix(was, d, n) && Inv(was, free0, own0) && n <= a <= b
    requires Trimmed(was, own0, mem, own, d, k, a)
    ensures Trimmed(was, own0, mem, own, d, k, b)
  {
    forall g | g in own0 ensures !UserPage(own0[g], d, a, b) {
      assert FrameOk(was, own0, g);
      if own0[g].UserOf? && own0[g].d == d {
        var v := own0[g].i * 1024 + own0[g].j;
        Index(own0[g].i, own0[g].j, v);
        assert At(was, d, v).Present?;
      }
    }
    hide Pt, Inv, OthersSame, BytesKept;
  }

  lemma TrimEnd(was: Memory, free0: seq<nat>, own0: Owners, mem: Memory, own: Owners, d: nat, n: nat, k: nat, a: nat)
    requires Prefix(was, d, n) && Inv(was, free0, own0) && n <= a
    requires Trimmed(was, own0, mem, own, d, k, a)
    ensures Trimmed(was, own0, mem, own, d, k, 0x8_0000)
  {
    if a <= 0x8_0000 {
      TrimPast(was, free0, own0, mem, own, d, n, k, a, 0x8_0000);
    } else {
      forall g | g in own0 ensures UserPage(own0[g], d, k, a) == UserPage(own0[g], d, k, 0x8_0000) {
        assert FrameOk(was, own0, g);
      }
      hide Pt, Inv, OthersSame, BytesKept;
    }
  }
}
