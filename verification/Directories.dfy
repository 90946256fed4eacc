/** Directories as lists of entries (fs.c): lookup, linking and clearing against a map of names. */
module Directories {
  import opened Options

  const DIRSIZ: nat := 14

  /** struct dirent; inum 0 marks an empty slot. */
  datatype Entry = Entry(inum: nat, name: string)

  /** What a name becomes when stored: at most 14 bytes. */
  function Cut(name: string): string {
    if |name| <= DIRSIZ then name else name[..DIRSIZ]
  }

  predicate Live(e: Entry) {
    e.inum != 0
  }

  predicate Names(e: Entry, name: string) {
    Live(e) && e.name == Cut(name)
  }

  /** Slot k is the first to hold the name; |ents| when none does. */
  function Slot(ents: seq<Entry>, name: string, from: nat := 0): (k: nat)
    requires from <= |ents|
    ensures from <= k <= |ents| && (k < |ents| ==> Names(ents[k], name)) && forall j :: from <= j < k ==> !Names(ents[j], name)
    decreases |ents| - from
  {
    if from == |ents| || Names(ents[from], name) then from else Slot(ents, name, from + 1)
  }

  function EmptySlot(ents: seq<Entry>, from: nat := 0): (k: nat)
    requires from <= |ents|
    ensures from <= k <= |ents| && (k < |ents| ==> !Live(ents[k])) && forall j :: from <= j < k ==> Live(ents[j])
    decreases |ents| - from
  {
    if from == |ents| || !Live(ents[from]) then from else EmptySlot(ents, from + 1)
  }

  /** dirlink's write: the first empty slot, or one more at the end. */
  function Linked(ents: seq<Entry>, name: string, inum: nat): seq<Entry> {
    var k := EmptySlot(ents);
    if k < |ents| then ents[k := Entry(inum, Cut(name))] else ents + [Entry(inum, Cut(name))]
  }

  /** unlink's write: the slot zeroed. */
  function Cleared(ents: seq<Entry>, k: nat): seq<Entry>
    requires k < |ents|
  {
    ents[k := Entry(0, "")]
  }

  /** Live names are distinct and fit. */
  ghost predicate Proper(ents: seq<Entry>) {
    && (forall j :: 0 <= j < |ents| && Live(ents[j]) ==> |ents[j].name| <= DIRSIZ)
    && (forall j, k :: 0 <= j < k < |ents| && Live(ents[j]) && Live(ents[k]) ==> ents[j].name != ents[k].name)
  }

  /** The directory as a partial map from names to inode numbers. */
  function Find(ents: seq<Entry>, name: string): Option<nat> {
    var k := Slot(ents, name);
    if k < |ents| then Some(ents[k].inum) else None
  }

  /** In a proper directory a name has one slot. */
  lemma OneSlot(ents: seq<Entry>, name: string, k: nat)
    requires Proper(ents) && k < |ents| && Names(ents[k], name)
    ensures Slot(ents, name) == k
  {
    var j := Slot(ents, name);
    assert Names(ents[j], name);
  }

  lemma LinkedShape(ents: seq<Entry>, name: string, inum: nat)
    requires Proper(ents) && Find(ents, name).None? && inum != 0
    ensures Proper(Linked(ents, name, inum))
    ensures var after := Linked(ents, name, inum);
      EmptySlot(ents) < |after| && after[EmptySlot(ents)] == Entry(inum, Cut(name))
      && forall j :: 0 <= j < |ents| && j != EmptySlot(ents) ==> after[j] == ents[j]
  {
    var k, after := EmptySlot(ents), Linked(ents, name, inum);
    assert Slot(ents, name) == |ents|;
    assert forall j :: 0 <= j < |ents| ==> !Names(ents[j], name);
    hide Slot, EmptySlot;
    assert |after| == if k < |ents| then |ents| else |ents| + 1;
  }

  /** dirlink adds one binding to the map and changes no other. */
  lemma LinkFind(ents: seq<Entry>, name: string, inum: nat, x: string)
    requires Proper(ents) && Find(ents, name).None? && inum != 0
    ensures Find(Linked(ents, name, inum), x) == if Cut(x) == Cut(name) then Some(inum) else Find(ents, x)
  {
    var k, after := EmptySlot(ents), Linked(ents, name, inum);
    LinkedShape(ents, name, inum);
    if Cut(x) == Cut(name) {
      OneSlot(after, x, k);
    } else {
      var j := Slot(ents, x);
      if j < |ents| {
        OneSlot(after, x, j);
      } else {
        hide Linked;
        forall i | 0 <= i < |after| ensures !Names(after[i], x) {
          assert i < |ents| && i != k ==> after[i] == ents[i];
        }
      }
    }
  }

  /** unlink removes one binding from the map and changes no other. */
  lemma ClearFind(ents: seq<Entry>, name: string, x: string)
    requires Proper(ents) && Find(ents, name).Some?
    ensures Proper(Cleared(ents, Slot(ents, name)))
    ensures Find(Cleared(ents, Slot(ents, name)), x) == if Cut(x) == Cut(name) then None else Find(ents, x)
  {
    var k := Slot(ents, name);
    var after := Cleared(ents, k);
    if Cut(x) == Cut(name) {
      assert forall i :: 0 <= i < |ents| && Names(ents[i], name) ==> i == k;
    } else {
      var j := Slot(ents, x);
      if j < |ents| {
        OneSlot(after, x, j);
      }
    }
  }

  /** dirlookup: the inode number and the slot of a name. */
  method Lookup(ents: seq<Entry>, name: string) returns (inum: Option<nat>, slot: nat)
    ensures inum == Find(ents, name) && slot == Slot(ents, name)
  {
    slot := 0;
    while slot < |ents|
      invariant 0 <= slot <= |ents| && Slot(ents, name) == Slot(ents, name, slot)
    {
      if ents[slot].inum != 0 {
        if ents[slot].name == Cut(name) {
          return Some(ents[slot].inum), slot;
        }
      }
      slot := slot + 1;
    }
    return None, slot;
  }

  /** dirlink: the entries after it, unchanged when the name is present. */
  method LinkEntry(ents: seq<Entry>, name: string, inum: nat) returns (r: int, after: seq<Entry>)
    ensures r == if Find(ents, name).Some? then -1 else 0
    ensures after == if r == 0 then Linked(ents, name, inum) else ents
  {
    var present, _ := Lookup(ents, name);
    if present.Some? {
      return -1, ents;
    }
    var off := 0;
    while off < |ents|
      invariant 0 <= off <= |ents| && EmptySlot(ents) == EmptySlot(ents, off)
    {
      if ents[off].inum == 0 {
        break;
      }
      off := off + 1;
    }
    var de := Entry(inum, Cut(name));
    return 0, if off < |ents| then ents[off := de] else ents + [de];
  }

  /** isdirempty: nothing but the first two slots. */
  method IsEmpty(ents: seq<Entry>) returns (r: bool)
    ensures r <==> forall k :: 2 <= k < |ents| ==> !Live(ents[k])
  {
    var off := 2;
    while off < |ents|
      invariant 2 <= off && forall k :: 2 <= k < off && k < |ents| ==> !Live(ents[k])
    {
      if ents[off].inum != 0 {
        return false;
      }
      off := off + 1;
    }
    return true;
  }
}
