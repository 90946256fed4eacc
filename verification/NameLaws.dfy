/** What create, mkdir, link and unlink do to names: one binding changes and nothing else. */
module NameLaws {
  import opened Options
  import opened Directories
  import opened LinkCounts

  /** Every directory, removed or not, binds a name once. */
  lemma DirProper(nodes: seq<Node>, d: nat)
    requires Inv(nodes) && d < |nodes| && nodes[d].kind == Dir
    ensures Proper(nodes[d].ents)
  {
    if LiveDir(nodes[d]) {
      assert UpOk(nodes, d);
    } else {
      assert GoneOk(nodes, d);
    }
  }

  /** In directory dp the name now stands for `now`, and every other name for what it did. */
  ghost predicate Rebinds(was: seq<Entry>, ents: seq<Entry>, name: string, now: Option<nat>) {
    forall x :: Find(ents, x) == if Cut(x) == Cut(name) then now else Find(was, x)
  }

  lemma AddsName(ents: seq<Entry>, name: string, inum: nat)
    requires Proper(ents) && Find(ents, name).None? && inum != 0
    ensures Rebinds(ents, Linked(ents, name, inum), name, Some(inum))
  {
    forall x ensures Find(Linked(ents, name, inum), x) == if Cut(x) == Cut(name) then Some(inum) else Find(ents, x) {
      LinkFind(ents, name, inum, x);
    }
  }

  lemma DropsName(ents: seq<Entry>, name: string)
    requires Proper(ents) && Find(ents, name).Some?
    ensures Rebinds(ents, Cleared(ents, Slot(ents, name)), name, None)
  {
    forall x ensures Find(Cleared(ents, Slot(ents, name)), x) == if Cut(x) == Cut(name) then None else Find(ents, x) {
      ClearFind(ents, name, x);
    }
  }

  /** create makes a node of the kind asked for, with one link and no entries, under the name. */
  lemma CreateLaw(nodes: seq<Node>, dp: nat, name: string, ip: nat, kind: Kind)
    requires Inv(nodes) && Enabled(nodes, Create(dp, name, ip, kind))
    ensures var after := Next(nodes, Create(dp, name, ip, kind));
      && |after| == |nodes| && ip != dp && Rebinds(nodes[dp].ents, after[dp].ents, name, Some(ip))
      && after[ip].kind == kind && after[ip].nlink == 1 && after[ip].ents == []
      && after[dp].kind == Dir && after[dp].nlink == nodes[dp].nlink
      && forall i :: 0 <= i < |nodes| && i != dp && i != ip ==> after[i] == nodes[i]
  {
    DirProper(nodes, dp);
    AddsName(nodes[dp].ents, name, ip);
    hide Inv, Linked, Rebinds;
  }

  /** mkdir makes a directory with one link whose dots lead to itself and its parent, under the name, and
      the parent gains a link. */
  lemma MkdirLaw(nodes: seq<Node>, dp: nat, name: string, ip: nat)
    requires Inv(nodes) && Enabled(nodes, Mkdir(dp, name, ip))
    ensures var after := Next(nodes, Mkdir(dp, name, ip));
      && |after| == |nodes| && ip != dp && Rebinds(nodes[dp].ents, after[dp].ents, name, Some(ip))
      && after[ip] == Node(Dir, 1, [Entry(ip, "."), Entry(dp, "..")])
      && after[dp].kind == Dir && after[dp].nlink == nodes[dp].nlink + 1
      && forall i :: 0 <= i < |nodes| && i != dp && i != ip ==> after[i] == nodes[i]
  {
    DirProper(nodes, dp);
    AddsName(nodes[dp].ents, name, ip);
    DotsAre(ip, dp);
    hide Inv, Linked, Rebinds, Dots;
  }

  /** link gives a file one more name and one more link, or nothing if the name is taken. */
  lemma LinkLaw(nodes: seq<Node>, ip: nat, dp: nat, name: string)
    requires Inv(nodes) && Enabled(nodes, Link(ip, dp, name))
    ensures var after := Next(nodes, Link(ip, dp, name));
      && ip != dp && (Find(nodes[dp].ents, name).Some? ==> after == nodes)
      && (Find(nodes[dp].ents, name).None? ==>
            && |after| == |nodes| && Rebinds(nodes[dp].ents, after[dp].ents, name, Some(ip))
            && after[ip].nlink == nodes[ip].nlink + 1 && after[ip].kind == nodes[ip].kind && after[ip].ents == nodes[ip].ents
            && after[dp].kind == Dir && after[dp].nlink == nodes[dp].nlink
            && forall i :: 0 <= i < |nodes| && i != dp && i != ip ==> after[i] == nodes[i])
  {
    DirProper(nodes, dp);
    if Find(nodes[dp].ents, name).None? {
      AddsName(nodes[dp].ents, name, ip);
    } else {
      assert LinkMade(nodes, ip, dp, name) == nodes;
    }
    hide Inv, Linked, Rebinds, Find;
  }

  /** unlink removes the name; what it stood for loses a link, and so does the parent of a directory. */
  lemma UnlinkLaw(nodes: seq<Node>, dp: nat, name: string)
    requires Inv(nodes) && Enabled(nodes, Unlink(dp, name))
    ensures var after, c := Next(nodes, Unlink(dp, name)), Find(nodes[dp].ents, name).value;
      && |after| == |nodes| && c != dp && Rebinds(nodes[dp].ents, after[dp].ents, name, None)
      && after[c].nlink == nodes[c].nlink - 1 && after[c].kind == nodes[c].kind && after[c].ents == nodes[c].ents
      && after[dp].kind == Dir && after[dp].nlink == nodes[dp].nlink - (if nodes[c].kind == Dir then 1 else 0)
      && forall i :: 0 <= i < |nodes| && i != dp && i != c ==> after[i] == nodes[i]
  {
    var k := Slot(nodes[dp].ents, name);
    Victim(nodes, dp, name, k);
    DirProper(nodes, dp);
    DropsName(nodes[dp].ents, name);
    hide Inv, Rebinds, Slot, Cleared;
  }

  /** Two states in which every name leads to the same inode and every inode has the same kind and links. */
  ghost predicate SameNames(nodes: seq<Node>, after: seq<Node>) {
    && |after| == |nodes|
    && forall i :: 0 <= i < |nodes| ==>
         && after[i].kind == nodes[i].kind && after[i].nlink == nodes[i].nlink
         && forall x :: Find(after[i].ents, x) == Find(nodes[i].ents, x)
  }

  lemma Restores(was: seq<Entry>, mid: seq<Entry>, ents: seq<Entry>, name: string, ip: nat)
    requires Find(was, name).None? && Rebinds(was, mid, name, Some(ip)) && Rebinds(mid, ents, name, None)
    ensures forall x :: Find(ents, x) == Find(was, x)
  {
    hide Find;
    forall x ensures Find(ents, x) == Find(was, x) {
      assert Cut(x) == Cut(name) ==> Find(was, x) == Find(was, name) by {
        SameCut(was, x, name);
      }
    }
  }

  lemma {:induction false} SameSlot(ents: seq<Entry>, x: string, y: string, from: nat)
    requires Cut(x) == Cut(y) && from <= |ents|
    ensures Slot(ents, x, from) == Slot(ents, y, from)
    decreases |ents| - from
  {
    if from < |ents| {
      SameSlot(ents, x, y, from + 1);
    }
  }

  lemma SameCut(ents: seq<Entry>, x: string, y: string)
    ensures Cut(x) == Cut(y) ==> Find(ents, x) == Find(ents, y)
  {
    if Cut(x) == Cut(y) {
      SameSlot(ents, x, y, 0);
    }
  }

  /** unlink undoes link: every name, kind and count is as before. */
  lemma LinkThenUnlink(nodes: seq<Node>, ip: nat, dp: nat, name: string)
    requires Inv(nodes) && Enabled(nodes, Link(ip, dp, name)) && LiveDir(nodes[dp]) && Find(nodes[dp].ents, name).None?
    ensures var mid := Next(nodes, Link(ip, dp, name));
      Inv(mid) && Enabled(mid, Unlink(dp, name)) && SameNames(nodes, Next(mid, Unlink(dp, name)))
  {
    var mid := Next(nodes, Link(ip, dp, name));
    LinkLaw(nodes, ip, dp, name);
    LinkExact(nodes, ip, dp, name);
    Bound(nodes, mid, dp, name, ip);
    UnlinkLaw(mid, dp, name);
    Restores(nodes[dp].ents, mid[dp].ents, Next(mid, Unlink(dp, name))[dp].ents, name, ip);
    hide Inv, Next, Find, Rebinds;
  }

  /** The new name can be unlinked again: it is no dot, and it leads to the file. */
  lemma Bound(nodes: seq<Node>, mid: seq<Node>, dp: nat, name: string, ip: nat)
    requires Inv(nodes) && dp < |nodes| == |mid| && LiveDir(nodes[dp]) && Find(nodes[dp].ents, name).None? && mid[dp].kind == Dir
    requires 0 < dp && ip < |nodes| && ip != dp && mid[ip].kind != Dir && Rebinds(nodes[dp].ents, mid[dp].ents, name, Some(ip))
    ensures Find(mid[dp].ents, name) == Some(ip) && Enabled(mid, Unlink(dp, name))
  {
    assert UpOk(nodes, dp);
    NotDots(nodes[dp].ents, name);
    hide Inv, Find;
  }

  /** unlink and the reclaiming of the inode undo create. */
  lemma CreateThenUnlink(nodes: seq<Node>, dp: nat, name: string, ip: nat, kind: Kind)
    requires Inv(nodes) && Enabled(nodes, Create(dp, name, ip, kind)) && LiveDir(nodes[dp])
    ensures var mid := Next(nodes, Create(dp, name, ip, kind));
      && Inv(mid) && Enabled(mid, Unlink(dp, name))
      && var late := Next(mid, Unlink(dp, name));
         Enabled(late, Reclaim(ip)) && SameNames(nodes, Next(late, Reclaim(ip)))
  {
    var mid := Next(nodes, Create(dp, name, ip, kind));
    CreateLaw(nodes, dp, name, ip, kind);
    CreateExact(nodes, dp, name, ip, kind);
    Bound(nodes, mid, dp, name, ip);
    UnlinkLaw(mid, dp, name);
    var late := Next(mid, Unlink(dp, name));
    Restores(nodes[dp].ents, mid[dp].ents, late[dp].ents, name, ip);
    assert NodeOk(nodes[ip]);
    Undone(nodes, late, dp, ip);
  }

  lemma Undone(nodes: seq<Node>, late: seq<Node>, dp: nat, ip: nat)
    requires |late| == |nodes| && 0 < ip < |nodes| && dp < |nodes| && ip != dp
    requires nodes[ip] == Node(Free, 0, []) && late[ip].nlink == 0
    requires late[dp].kind == nodes[dp].kind && late[dp].nlink == nodes[dp].nlink
    requires forall x :: Find(late[dp].ents, x) == Find(nodes[dp].ents, x)
    requires forall i :: 0 <= i < |nodes| && i != dp && i != ip ==> late[i] == nodes[i]
    ensures Enabled(late, Reclaim(ip)) && SameNames(nodes, Next(late, Reclaim(ip)))
  {
    hide Find;
  }
}
