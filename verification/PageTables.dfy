/**
 * Physical frames and two-level page tables (vm.c, kalloc.c) as values. Frames are numbered; a page
 * number v is looked up as directory index v / 1024 and table index v % 1024; directory entries
 * below 512 belong to user memory (KERNBASE).
 */
module PageTables {
  import opened Sequences
  import opened Blocks

  datatype Pte = Absent | Present(frame: nat, w: bool, u: bool)

  datatype Page = Data(bytes: seq<Byte>) | Table(entries: seq<Pte>)

  /** What a frame is in use for. `Elsewhere` covers kernel stacks, pipe buffers and frames in transit. */
  datatype Owner = Free | Dir | TableOf(d: nat, i: nat) | UserOf(d: nat, i: nat, j: nat) | Elsewhere

  type Memory = map<nat, Page>
  type Owners = map<nat, Owner>

  predicate IsTable(mem: Memory, f: nat) {
    f in mem && mem[f].Table? && |mem[f].entries| == 1024
  }

  /** The entry that walkpgdir leads to; absent when the table is. */
  function Pt(mem: Memory, d: nat, i: nat, j: nat): Pte {
    if IsTable(mem, d) && i < 1024 && j < 1024 && mem[d].entries[i].Present? && IsTable(mem, mem[d].entries[i].frame)
    then mem[mem[d].entries[i].frame].entries[j]
    else Absent
  }

  function Pde(mem: Memory, d: nat, i: nat): Pte {
    if IsTable(mem, d) && i < 1024 then mem[d].entries[i] else Absent
  }

  predicate Is(own: Owners, f: nat, o: Owner) {
    f in own && own[f] == o
  }

  /** The free list holds each free frame once and nothing else. */
  ghost predicate FreeOk(free: seq<nat>, own: Owners) {
    Distinct(free) && forall f :: f in free <==> Is(own, f, Free)
  }

  /** A frame in use is of the kind its use needs, and is where its owner says. */
  ghost predicate FrameOk(mem: Memory, own: Owners, f: nat)
    requires f in own
  {
    match own[f]
    case Free => true
    case Elsewhere => true
    case Dir => IsTable(mem, f)
    case TableOf(d, i) => IsTable(mem, f) && Is(own, d, Dir) && i < 1024 && Pde(mem, d, i).Present? && Pde(mem, d, i).frame == f
    case UserOf(d, i, j) =>
      f in mem && mem[f].Data? && Is(own, d, Dir) && i < 512 && j < 1024 && Pt(mem, d, i, j).Present? && Pt(mem, d, i, j).frame == f
  }

  /** Directory entries point to tables of that directory, user entries to frames of that space. */
  ghost predicate DirOk(mem: Memory, own: Owners, d: nat) {
    && (forall i: nat :: Pde(mem, d, i).Present? ==> Is(own, Pde(mem, d, i).frame, TableOf(d, i)))
    && (forall i: nat, j: nat :: i < 512 && Pt(mem, d, i, j).Present? ==> Is(own, Pt(mem, d, i, j).frame, UserOf(d, i, j)))
  }

  ghost predicate Owned(mem: Memory, own: Owners) {
    && mem.Keys == own.Keys
    && (forall f :: f in own ==> FrameOk(mem, own, f))
    && (forall d :: Is(own, d, Dir) ==> DirOk(mem, own, d))
  }

  ghost predicate Inv(mem: Memory, free: seq<nat>, own: Owners) {
    FreeOk(free, own) && Owned(mem, own)
  }

  function EmptyTable(): (p: Page)
    ensures p.Table? && |p.entries| == 1024 && forall j :: 0 <= j < 1024 ==> p.entries[j] == Absent
  {
    Table(seq(1024, _ => Absent))
  }

  function ZeroPage(): Page {
    Data(seq(4096, _ => 0))
  }

  function JunkPage(): Page {
    Data(seq(4096, _ => 1))
  }

  /** What memory looks like after entry j of table t is set. */
  function SetEntry(mem: Memory, t: nat, j: nat, e: Pte): Memory
    requires IsTable(mem, t) && j < 1024
  {
    mem[t := Table(mem[t].entries[j := e])]
  }

  /** The translation of page v in space d. */
  function At(mem: Memory, d: nat, v: nat): Pte {
    Pt(mem, d, v / 1024, v % 1024)
  }

  predicate OfSpace(o: Owner, d: nat) {
    (o.TableOf? || o.UserOf?) && o.d == d
  }

  /** Only free frames changed hands, and they became tables of d. */
  ghost predicate TablesOnly(own: Owners, after: Owners, d: nat) {
    && own.Keys == after.Keys
    && forall f :: f in own && own[f] != after[f] ==> own[f].Free? && after[f].TableOf? && after[f].d == d
  }

  /** No space but d notices: translations and frame contents of the others are as before. */
  ghost predicate OthersSame(mem: Memory, after: Memory, own: Owners, d: nat) {
    && (forall e, i: nat, j: nat :: Is(own, e, Dir) && e != d ==> Pt(after, e, i, j) == Pt(mem, e, i, j))
    && (forall f :: f in own && own[f].UserOf? && own[f].d != d ==> f in mem && f in after && after[f] == mem[f])
  }

  /** Space d translates as before. */
  ghost predicate SameSpace(mem: Memory, after: Memory, d: nat) {
    forall i: nat, j: nat :: Pt(after, d, i, j) == Pt(mem, d, i, j)
  }

  /** Frames that are mapped, or that the kernel holds, keep their contents. */
  ghost predicate BytesKept(mem: Memory, after: Memory, own: Owners) {
    forall f :: f in own && (own[f].UserOf? || own[f].Elsewhere?) ==> f in mem && f in after && after[f] == mem[f]
  }

  /** A frame that is neither directory nor table can be overwritten without changing any translation. */
  lemma DataKeeps(mem: Memory, own: Owners, f: nat, p: Page, e: nat, i: nat, j: nat)
    requires Owned(mem, own) && f in own && !own[f].Dir? && !own[f].TableOf? && Is(own, e, Dir)
    ensures Pt(mem[f := p], e, i, j) == Pt(mem, e, i, j) && Pde(mem[f := p], e, i) == Pde(mem, e, i)
  {
    assert FrameOk(mem, own, e) && DirOk(mem, own, e);
    assert Pde(mem, e, i).Present? ==> Is(own, Pde(mem, e, i).frame, TableOf(e, i));
  }

  /** Setting entry j of d's table i changes that one translation and no other. */
  lemma EntryKeeps(mem: Memory, own: Owners, d: nat, i: nat, j: nat, p: Pte, e: nat, x: nat, y: nat)
    requires Owned(mem, own) && Is(own, d, Dir) && Pde(mem, d, i).Present? && j < 1024 && Is(own, e, Dir)
    ensures IsTable(mem, Pde(mem, d, i).frame)
    ensures var after := SetEntry(mem, Pde(mem, d, i).frame, j, p);
      && Pt(after, e, x, y) == (if e == d && x == i && y == j then p else Pt(mem, e, x, y))
      && Pde(after, e, x) == Pde(mem, e, x)
  {
    var t := Pde(mem, d, i).frame;
    assert FrameOk(mem, own, d) && DirOk(mem, own, d) && FrameOk(mem, own, e) && DirOk(mem, own, e);
    assert Is(own, t, TableOf(d, i)) && FrameOk(mem, own, t);
    assert Pde(mem, e, x).Present? ==> Is(own, Pde(mem, e, x).frame, TableOf(e, x)) && FrameOk(mem, own, Pde(mem, e, x).frame);
  }

  /** Linking an empty table into d changes no translation. */
  lemma TableKeeps(mem: Memory, own: Owners, t: nat, d: nat, i: nat, e: nat, x: nat, y: nat)
    requires Owned(mem, own) && Is(own, d, Dir) && i < 1024 && Pde(mem, d, i).Absent? && Is(own, e, Dir)
    requires t in own && (own[t].Free? || own[t].Elsewhere?)
    ensures IsTable(mem[t := EmptyTable()], d)
    ensures var after := SetEntry(mem[t := EmptyTable()], d, i, Present(t, true, true));
      && Pt(after, e, x, y) == Pt(mem, e, x, y)
      && Pde(after, e, x) == (if e == d && x == i then Present(t, true, true) else Pde(mem, e, x))
  {
    hide EmptyTable;
    assert FrameOk(mem, own, d) && DirOk(mem, own, d) && FrameOk(mem, own, e) && DirOk(mem, own, e);
    assert Pde(mem, e, x).Present? ==> Is(own, Pde(mem, e, x).frame, TableOf(e, x)) && FrameOk(mem, own, Pde(mem, e, x).frame);
  }

  predicate Idle(own: Owners, f: nat) {
    Is(own, f, Free) || Is(own, f, Elsewhere)
  }

  /** A frame outside all spaces may be rewritten and change hands between the allocator and the kernel. */
  lemma RoleOwned(mem: Memory, own: Owners, f: nat, p: Page, o: Owner)
    requires Owned(mem, own) && Idle(own, f) && (o.Free? || o.Elsewhere?)
    ensures Owned(mem[f := p], own[f := o])
  {
    var m, w := mem[f := p], own[f := o];
    forall g | g in w ensures FrameOk(m, w, g) {
      assert FrameOk(mem, own, g);
      if g != f {
        match own[g]
        case TableOf(d, i) => DataKeeps(mem, own, f, p, d, i, 0);
        case UserOf(d, i, j) => DataKeeps(mem, own, f, p, d, i, j);
        case _ =>
      }
    }
    forall d | Is(w, d, Dir) ensures DirOk(m, w, d) {
      RoleDir(mem, own, f, p, o, d);
    }
  }

  lemma RoleDir(mem: Memory, own: Owners, f: nat, p: Page, o: Owner, d: nat)
    requires Owned(mem, own) && Idle(own, f) && (o.Free? || o.Elsewhere?) && Is(own, d, Dir)
    ensures DirOk(mem[f := p], own[f := o], d)
  {
    var m, w := mem[f := p], own[f := o];
    assert DirOk(mem, own, d);
    forall i: nat | Pde(m, d, i).Present? ensures Is(w, Pde(m, d, i).frame, TableOf(d, i)) {
      DataKeeps(mem, own, f, p, d, i, 0);
    }
    forall i: nat, j: nat | i < 512 && Pt(m, d, i, j).Present? ensures Is(w, Pt(m, d, i, j).frame, UserOf(d, i, j)) {
      DataKeeps(mem, own, f, p, d, i, j);
    }
  }

  /** Nothing at all is mapped. */
  ghost predicate Bare(mem: Memory, d: nat) {
    forall i: nat, j: nat :: Pt(mem, d, i, j).Absent?
  }

  lemma DirOwned(mem: Memory, own: Owners, f: nat)
    requires Owned(mem, own) && Idle(own, f)
    ensures Owned(mem[f := EmptyTable()], own[f := Dir])
    ensures Bare(mem[f := EmptyTable()], f)
  {
    var p := EmptyTable();
    var m, w := mem[f := p], own[f := Dir];
    hide EmptyTable;
    forall g | g in w ensures FrameOk(m, w, g) {
      assert FrameOk(mem, own, g);
      if g != f {
        match own[g]
        case TableOf(d, i) => DataKeeps(mem, own, f, p, d, i, 0);
        case UserOf(d, i, j) => DataKeeps(mem, own, f, p, d, i, j);
        case _ =>
      }
    }
    forall d | Is(w, d, Dir) ensures DirOk(m, w, d) {
      if d != f {
        assert DirOk(mem, own, d);
        forall i: nat, j: nat ensures Pt(m, d, i, j) == Pt(mem, d, i, j) && Pde(m, d, i) == Pde(mem, d, i) {
          DataKeeps(mem, own, f, p, d, i, j);
        }
      }
    }
  }

  /** walkpgdir with alloc: a new table joins directory d. */
  lemma TableOwned(mem: Memory, own: Owners, t: nat, d: nat, i: nat)
    requires Owned(mem, own) && Is(own, d, Dir) && i < 1024 && Pde(mem, d, i).Absent? && Idle(own, t)
    ensures IsTable(mem[t := EmptyTable()], d)
    ensures Owned(SetEntry(mem[t := EmptyTable()], d, i, Present(t, true, true)), own[t := TableOf(d, i)])
  {
    TableKeeps(mem, own, t, d, i, d, 0, 0);
    var m, w := SetEntry(mem[t := EmptyTable()], d, i, Present(t, true, true)), own[t := TableOf(d, i)];
    forall g | g in w ensures FrameOk(m, w, g) {
      assert FrameOk(mem, own, g);
      match w[g]
      case TableOf(e, x) => TableKeeps(mem, own, t, d, i, e, x, 0);
      case UserOf(e, x, y) => TableKeeps(mem, own, t, d, i, e, x, y);
      case _ =>
    }
    hide EmptyTable;
    forall e | Is(w, e, Dir) ensures DirOk(m, w, e) {
      TableDir(mem, own, t, d, i, e);
    }
  }

  lemma TableDir(mem: Memory, own: Owners, t: nat, d: nat, i: nat, e: nat)
    requires Owned(mem, own) && Is(own, d, Dir) && i < 1024 && Pde(mem, d, i).Absent? && Idle(own, t) && Is(own, e, Dir)
    ensures IsTable(mem[t := EmptyTable()], d)
    ensures DirOk(SetEntry(mem[t := EmptyTable()], d, i, Present(t, true, true)), own[t := TableOf(d, i)], e)
  {
    TableKeeps(mem, own, t, d, i, d, 0, 0);
    var m, w := SetEntry(mem[t := EmptyTable()], d, i, Present(t, true, true)), own[t := TableOf(d, i)];
    assert DirOk(mem, own, e);
    forall x: nat, y: nat ensures Pt(m, e, x, y) == Pt(mem, e, x, y)
      && Pde(m, e, x) == (if e == d && x == i then Present(t, true, true) else Pde(mem, e, x)) {
      TableKeeps(mem, own, t, d, i, e, x, y);
    }
    hide Pt, Pde, SetEntry;
  }

  /** mappages on a user page: frame f joins the space at (i, j). */
  lemma MapOwned(mem: Memory, own: Owners, d: nat, i: nat, j: nat, p: Pte)
    requires Owned(mem, own) && Is(own, d, Dir) && i < 512 && j < 1024 && Pde(mem, d, i).Present? && Pt(mem, d, i, j).Absent?
    requires p.Present? && Is(own, p.frame, Elsewhere) && mem[p.frame].Data?
    ensures IsTable(mem, Pde(mem, d, i).frame)
    ensures Owned(SetEntry(mem, Pde(mem, d, i).frame, j, p), own[p.frame := UserOf(d, i, j)])
  {
    EntryKeeps(mem, own, d, i, j, p, d, i, j);
    var m, w := SetEntry(mem, Pde(mem, d, i).frame, j, p), own[p.frame := UserOf(d, i, j)];
    assert DirOk(mem, own, d);
    forall g | g in w ensures FrameOk(m, w, g) {
      assert FrameOk(mem, own, g);
      match w[g]
      case TableOf(e, x) => EntryKeeps(mem, own, d, i, j, p, e, x, 0);
      case UserOf(e, x, y) => EntryKeeps(mem, own, d, i, j, p, e, x, y);
      case _ =>
    }
    forall e | Is(w, e, Dir) ensures DirOk(m, w, e) {
      assert DirOk(mem, own, e);
      forall x: nat, y: nat ensures Pt(m, e, x, y) == (if e == d && x == i && y == j then p else Pt(mem, e, x, y))
        && Pde(m, e, x) == Pde(mem, e, x) {
        EntryKeeps(mem, own, d, i, j, p, e, x, y);
      }
      hide Pt, Pde, SetEntry;
    }
  }

  /** mappages on a kernel page: the frame stays whatever it is. */
  lemma KernelOwned(mem: Memory, own: Owners, d: nat, i: nat, j: nat, p: Pte)
    requires Owned(mem, own) && Is(own, d, Dir) && 512 <= i < 1024 && j < 1024 && Pde(mem, d, i).Present?
    ensures IsTable(mem, Pde(mem, d, i).frame)
    ensures Owned(SetEntry(mem, Pde(mem, d, i).frame, j, p), own)
  {
    EntryKeeps(mem, own, d, i, j, p, d, i, j);
    var m := SetEntry(mem, Pde(mem, d, i).frame, j, p);
    forall g | g in own ensures FrameOk(m, own, g) {
      assert FrameOk(mem, own, g);
      match own[g]
      case TableOf(e, x) => EntryKeeps(mem, own, d, i, j, p, e, x, 0);
      case UserOf(e, x, y) => EntryKeeps(mem, own, d, i, j, p, e, x, y);
      case _ =>
    }
    forall e | Is(own, e, Dir) ensures DirOk(m, own, e) {
      assert DirOk(mem, own, e);
      forall x: nat, y: nat ensures Pt(m, e, x, y) == (if e == d && x == i && y == j then p else Pt(mem, e, x, y))
        && Pde(m, e, x) == Pde(mem, e, x) {
        EntryKeeps(mem, own, d, i, j, p, e, x, y);
      }
      hide Pt, Pde, SetEntry;
    }
  }

  /** deallocuvm on one page: the entry goes and its frame is free. */
  lemma UnmapOwned(mem: Memory, own: Owners, d: nat, i: nat, j: nat, page: Page)
    requires Owned(mem, own) && Is(own, d, Dir) && i < 512 && j < 1024 && Pt(mem, d, i, j).Present?
    ensures var f := Pt(mem, d, i, j).frame;
      && Is(own, f, UserOf(d, i, j)) && IsTable(mem[f := page], Pde(mem, d, i).frame)
      && Owned(SetEntry(mem[f := page], Pde(mem, d, i).frame, j, Absent), own[f := Free])
  {
    var f, t := Pt(mem, d, i, j).frame, Pde(mem, d, i).frame;
    EntryKeeps(mem, own, d, i, j, Absent, d, i, j);
    assert DirOk(mem, own, d);
    assert Is(own, f, UserOf(d, i, j)) && Is(own, t, TableOf(d, i));
    var m0, w := SetEntry(mem, t, j, Absent), own[f := Free];
    var m := SetEntry(mem[f := page], t, j, Absent);
    assert m == m0[f := page];
    UnmapEntry(mem, own, d, i, j);
    RoleOwned(m0, w, f, page, Free);
    assert w[f := Free] == w;
  }

  lemma UnmapEntry(mem: Memory, own: Owners, d: nat, i: nat, j: nat)
    requires Owned(mem, own) && Is(own, d, Dir) && i < 512 && j < 1024 && Pt(mem, d, i, j).Present?
    ensures IsTable(mem, Pde(mem, d, i).frame)
    ensures Owned(SetEntry(mem, Pde(mem, d, i).frame, j, Absent), own[Pt(mem, d, i, j).frame := Free])
  {
    var f := Pt(mem, d, i, j).frame;
    EntryKeeps(mem, own, d, i, j, Absent, d, i, j);
    assert DirOk(mem, own, d);
    var m, w := SetEntry(mem, Pde(mem, d, i).frame, j, Absent), own[f := Free];
    forall g | g in w ensures FrameOk(m, w, g) {
      assert FrameOk(mem, own, g);
      match w[g]
      case TableOf(e, x) => EntryKeeps(mem, own, d, i, j, Absent, e, x, 0);
      case UserOf(e, x, y) => EntryKeeps(mem, own, d, i, j, Absent, e, x, y);
      case _ =>
    }
    forall e | Is(w, e, Dir) ensures DirOk(m, w, e) {
      assert DirOk(mem, own, e);
      forall x: nat, y: nat ensures Pt(m, e, x, y) == (if e == d && x == i && y == j then Absent else Pt(mem, e, x, y))
        && Pde(m, e, x) == Pde(mem, e, x) {
        EntryKeeps(mem, own, d, i, j, Absent, e, x, y);
      }
      hide Pt, Pde, SetEntry;
    }
  }

  lemma OthersTrans(mem: Memory, mid: Memory, after: Memory, own: Owners, own2: Owners, d: nat)
    requires OthersSame(mem, mid, own, d) && OthersSame(mid, after, own2, d)
    requires forall f :: f in own && !own[f].Free? && !OfSpace(own[f], d) ==> f in own2 && own2[f] == own[f]
    ensures OthersSame(mem, after, own, d)
  {
    assert forall e :: Is(own, e, Dir) ==> Is(own2, e, Dir);
  }

  /** What linking a new table leaves as it was. */
  lemma TableSame(mem: Memory, own: Owners, t: nat, d: nat, i: nat)
    requires Owned(mem, own) && Is(own, d, Dir) && i < 1024 && Pde(mem, d, i).Absent? && Is(own, t, Free)
    ensures IsTable(mem[t := EmptyTable()], d)
    ensures var after := SetEntry(mem[t := EmptyTable()], d, i, Present(t, true, true));
      && OthersSame(mem, after, own, d) && SameSpace(mem, after, d) && BytesKept(mem, after, own)
      && TablesOnly(own, own[t := TableOf(d, i)], d)
  {
    TableKeeps(mem, own, t, d, i, d, 0, 0);
    var after := SetEntry(mem[t := EmptyTable()], d, i, Present(t, true, true));
    forall e, x: nat, y: nat | Is(own, e, Dir) ensures Pt(after, e, x, y) == Pt(mem, e, x, y) {
      TableKeeps(mem, own, t, d, i, e, x, y);
    }
    hide Pt, Pde, EmptyTable;
  }

  /** What setting one entry leaves as it was. */
  lemma EntrySame(mem: Memory, own: Owners, d: nat, i: nat, j: nat, p: Pte)
    requires Owned(mem, own) && Is(own, d, Dir) && Pde(mem, d, i).Present? && j < 1024
    ensures IsTable(mem, Pde(mem, d, i).frame)
    ensures var after := SetEntry(mem, Pde(mem, d, i).frame, j, p);
      && OthersSame(mem, after, own, d) && BytesKept(mem, after, own)
      && forall x: nat, y: nat :: Pt(after, d, x, y) == if x == i && y == j then p else Pt(mem, d, x, y)
  {
    EntryKeeps(mem, own, d, i, j, p, d, i, j);
    var t := Pde(mem, d, i).frame;
    assert DirOk(mem, own, d);
    assert Is(own, t, TableOf(d, i));
    var after := SetEntry(mem, t, j, p);
    forall e, x: nat, y: nat | Is(own, e, Dir)
      ensures Pt(after, e, x, y) == if e == d && x == i && y == j then p else Pt(mem, e, x, y) {
      EntryKeeps(mem, own, d, i, j, p, e, x, y);
    }
    hide Pt, Pde;
  }

  /** What taking page (i, j) out of d leaves as it was. */
  lemma UnmapSame(mem: Memory, own: Owners, d: nat, i: nat, j: nat, page: Page)
    requires Owned(mem, own) && Is(own, d, Dir) && i < 512 && j < 1024 && Pt(mem, d, i, j).Present?
    ensures var f := Pt(mem, d, i, j).frame;
      && Is(own, f, UserOf(d, i, j)) && IsTable(mem[f := page], Pde(mem, d, i).frame)
      && var after := SetEntry(mem[f := page], Pde(mem, d, i).frame, j, Absent);
      && OthersSame(mem, after, own, d) && BytesKept(mem, after, own[f := Free])
      && forall x: nat, y: nat :: Pt(after, d, x, y) == if x == i && y == j then Absent else Pt(mem, d, x, y)
  {
    var f, t := Pt(mem, d, i, j).frame, Pde(mem, d, i).frame;
    EntrySame(mem, own, d, i, j, Absent);
    UnmapEntry(mem, own, d, i, j);
    assert DirOk(mem, own, d);
    assert Is(own, f, UserOf(d, i, j)) && Is(own, t, TableOf(d, i));
    var m0, w := SetEntry(mem, t, j, Absent), own[f := Free];
    var after := SetEntry(mem[f := page], t, j, Absent);
    assert after == m0[f := page];
    forall e, x: nat, y: nat | Is(own, e, Dir) ensures Pt(after, e, x, y) == Pt(m0, e, x, y) {
      assert Is(w, e, Dir);
      DataKeeps(m0, w, f, page, e, x, y);
    }
    hide Pt, Pde, SetEntry, Owned, DirOk, IsTable;
  }
}
