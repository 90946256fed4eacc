/** Link counts and the directory tree under create, link and unlink (sysfile.c). */
module LinkCounts {
  import opened Options
  import opened Directories

  const ROOT: nat := 1

  datatype Kind = Free | Dir | File | Device

  /** An inode: its link count and, for a directory, its entries. */
  datatype Node = Node(kind: Kind, nlink: int, ents: seq<Entry>)

  predicate LiveDir(n: Node) {
    n.kind == Dir && n.nlink > 0
  }

  predicate Counts(e: Entry, i: nat) {
    e.inum == i && e.name != "."
  }

  /** How many entries other than "." name inode i. */
  function NamesIn(ents: seq<Entry>, i: nat): nat {
    if ents == [] then 0 else NamesIn(ents[..|ents| - 1], i) + (if Counts(ents[|ents| - 1], i) then 1 else 0)
  }

  function Weight(n: Node, i: nat): nat {
    if LiveDir(n) then NamesIn(n.ents, i) else 0
  }

  /** The same over all directories that still have links. */
  function Sum(nodes: seq<Node>, i: nat): nat {
    if nodes == [] then 0 else Sum(nodes[..|nodes| - 1], i) + Weight(nodes[|nodes| - 1], i)
  }

  lemma {:induction false} NamesUpdate(ents: seq<Entry>, k: nat, e: Entry, i: nat)
    requires k < |ents|
    ensures NamesIn(ents[k := e], i) == NamesIn(ents, i) - (if Counts(ents[k], i) then 1 else 0) + (if Counts(e, i) then 1 else 0)
  {
    var n := |ents| - 1;
    if k == n {
      assert ents[k := e][..n] == ents[..n];
    } else {
      NamesUpdate(ents[..n], k, e, i);
      assert ents[k := e][..n] == ents[..n][k := e];
    }
  }

  lemma {:induction false} SumUpdate(nodes: seq<Node>, k: nat, n: Node, i: nat)
    requires k < |nodes|
    ensures Sum(nodes[k := n], i) == Sum(nodes, i) - Weight(nodes[k], i) + Weight(n, i)
  {
    var m := |nodes| - 1;
    if k == m {
      assert nodes[k := n][..m] == nodes[..m];
    } else {
      SumUpdate(nodes[..m], k, n, i);
      assert nodes[k := n][..m] == nodes[..m][k := n];
    }
  }

  lemma LinkNames(ents: seq<Entry>, name: string, inum: nat, i: nat)
    requires i != 0
    ensures NamesIn(Linked(ents, name, inum), i) == NamesIn(ents, i) + (if inum == i && Cut(name) != "." then 1 else 0)
  {
    var k, e := EmptySlot(ents), Entry(inum, Cut(name));
    if k < |ents| {
      NamesUpdate(ents, k, e, i);
    } else {
      assert (ents + [e])[..|ents|] == ents;
    }
  }

  lemma {:induction false} NamesZero(ents: seq<Entry>, i: nat)
    ensures NamesIn(ents, i) == 0 <==> forall k :: 0 <= k < |ents| ==> !Counts(ents[k], i)
  {
    if ents != [] {
      var init := ents[..|ents| - 1];
      NamesZero(init, i);
      assert forall k :: 0 <= k < |init| ==> ents[k] == init[k];
    }
  }

  lemma {:induction false} SumZero(nodes: seq<Node>, i: nat)
    ensures Sum(nodes, i) == 0 <==> forall d :: 0 <= d < |nodes| ==> Weight(nodes[d], i) == 0
  {
    if nodes != [] {
      var init := nodes[..|nodes| - 1];
      SumZero(init, i);
      assert forall k :: 0 <= k < |init| ==> nodes[k] == init[k];
    }
  }

  /** An inode named once: in slot k and nowhere else. */
  lemma NamesOne(ents: seq<Entry>, k: nat, i: nat)
    requires k < |ents| && Counts(ents[k], i) && forall j :: 0 <= j < |ents| && j != k ==> !Counts(ents[j], i)
    requires i != 0
    ensures NamesIn(ents, i) == 1
  {
    NamesUpdate(ents, k, Entry(0, ""), i);
    NamesZero(ents[k := Entry(0, "")], i);
  }

  lemma SumOne(nodes: seq<Node>, d: nat, i: nat)
    requires d < |nodes| && Weight(nodes[d], i) == 1 && forall x :: 0 <= x < |nodes| && x != d ==> Weight(nodes[x], i) == 0
    ensures Sum(nodes, i) == 1
  {
    var none := Node(Free, 0, []);
    SumUpdate(nodes, d, none, i);
    SumZero(nodes[d := none], i);
  }

  /** Some entry beyond the first two names c. */
  ghost predicate NamedIn(ents: seq<Entry>, c: nat) {
    exists k :: 2 <= k < |ents| && ents[k].inum == c
  }

  /** ".." leads to a live directory that names d, except that the root's leads to itself. */
  ghost predicate UpOk(nodes: seq<Node>, d: nat)
    requires d < |nodes|
  {
    && Proper(nodes[d].ents) && |nodes[d].ents| >= 2
    && nodes[d].ents[0] == Entry(d, ".") && nodes[d].ents[1].name == ".."
    && var p := nodes[d].ents[1].inum;
    && 0 < p < |nodes| && LiveDir(nodes[p])
    && (if d == ROOT then p == ROOT else p != d && NamedIn(nodes[p].ents, d))
  }

  /** Entry k of d names an inode; if that is a directory, it is d's own child and named only here. */
  ghost predicate DownOk(nodes: seq<Node>, d: nat, k: nat)
    requires d < |nodes| && 2 <= k < |nodes[d].ents|
  {
    var c := nodes[d].ents[k].inum;
    c != 0 ==>
      && c < |nodes|
      && (nodes[c].kind == Dir ==>
            && c != ROOT && c != d && |nodes[c].ents| >= 2 && nodes[c].ents[1].inum == d
            && forall j :: 2 <= j < |nodes[d].ents| && j != k ==> nodes[d].ents[j].inum != c)
  }

  predicate EmptyDir(n: Node) {
    n.kind == Dir && forall k :: 2 <= k < |n.ents| ==> !Live(n.ents[k])
  }

  /** A removed directory is empty; its ".." still names the inode that was its parent. */
  ghost predicate GoneOk(nodes: seq<Node>, d: nat)
    requires d < |nodes|
  {
    && EmptyDir(nodes[d]) && |nodes[d].ents| >= 2 && nodes[d].ents[0] == Entry(d, ".") && nodes[d].ents[1].name == ".."
    && 0 < nodes[d].ents[1].inum < |nodes| && nodes[d].ents[1].inum != d
  }

  predicate NodeOk(n: Node) {
    n.kind != Dir ==> n.ents == [] && (n.kind == Free ==> n.nlink == 0)
  }

  ghost predicate Tree(nodes: seq<Node>) {
    && |nodes| > ROOT && nodes[0] == Node(Free, 0, []) && LiveDir(nodes[ROOT])
    && (forall d {:trigger UpOk(nodes, d)} :: 0 <= d < |nodes| && LiveDir(nodes[d]) ==> UpOk(nodes, d))
    && (forall d, k {:trigger DownOk(nodes, d, k)} :: 0 <= d < |nodes| && LiveDir(nodes[d]) && 2 <= k < |nodes[d].ents| ==> DownOk(nodes, d, k))
    && (forall d {:trigger GoneOk(nodes, d)} :: 0 <= d < |nodes| && nodes[d].kind == Dir && !LiveDir(nodes[d]) ==> GoneOk(nodes, d))
    && (forall d :: 0 <= d < |nodes| ==> NodeOk(nodes[d]))
  }

  /** Every link count is the number of entries, other than ".", that name the inode in directories with links. */
  ghost predicate Links(nodes: seq<Node>) {
    forall i :: 0 < i < |nodes| ==> nodes[i].nlink == Sum(nodes, i)
  }

  ghost predicate Inv(nodes: seq<Node>) {
    Tree(nodes) && Links(nodes)
  }

  /** Entries, in use or not, of all directories that still have links. */
  function Total(nodes: seq<Node>): nat {
    if nodes == [] then 0
    else Total(nodes[..|nodes| - 1]) + if LiveDir(nodes[|nodes| - 1]) then |nodes[|nodes| - 1].ents| else 0
  }

  lemma {:induction false} NamesBound(ents: seq<Entry>, i: nat)
    ensures NamesIn(ents, i) <= |ents|
  {
    if ents != [] {
      NamesBound(ents[..|ents| - 1], i);
    }
  }

  lemma {:induction false} SumBound(nodes: seq<Node>, i: nat)
    ensures Sum(nodes, i) <= Total(nodes)
  {
    if nodes != [] {
      SumBound(nodes[..|nodes| - 1], i);
      NamesBound(nodes[|nodes| - 1].ents, i);
    }
  }

  /** While the directories hold at most 32767 entries, every exact count fits the `short` that stores it. */
  lemma CountsFit(nodes: seq<Node>, i: nat)
    requires Inv(nodes) && 0 < i < |nodes| && Total(nodes) <= 0x7FFF
    ensures 0 <= nodes[i].nlink <= 0x7FFF
  {
    SumBound(nodes, i);
    assert nodes[i].nlink == Sum(nodes, i);
  }

  /** An inode named in a live directory has links. */
  lemma NamedLives(nodes: seq<Node>, d: nat, k: nat)
    requires Links(nodes) && d < |nodes| && LiveDir(nodes[d]) && k < |nodes[d].ents|
    requires 0 < nodes[d].ents[k].inum < |nodes| && nodes[d].ents[k].name != "."
    ensures nodes[nodes[d].ents[k].inum].nlink > 0
  {
    var i := nodes[d].ents[k].inum;
    assert Counts(nodes[d].ents[k], i);
    NamesZero(nodes[d].ents, i);
    SumZero(nodes, i);
    assert Weight(nodes[d], i) > 0;
    assert nodes[i].nlink == Sum(nodes, i);
  }

  /** A free inode is named nowhere that counts. */
  lemma FreeUnnamed(nodes: seq<Node>, i: nat, d: nat, k: nat)
    requires Links(nodes) && 0 < i < |nodes| && nodes[i].nlink == 0
    requires d < |nodes| && LiveDir(nodes[d]) && k < |nodes[d].ents| && nodes[d].ents[k].inum == i
    ensures nodes[d].ents[k].name == "."
  {
    if nodes[d].ents[k].name != "." {
      NamedLives(nodes, d, k);
    }
  }

  /** create, for anything but a directory */
  function Created(nodes: seq<Node>, dp: nat, name: string, ip: nat, kind: Kind): seq<Node>
    requires dp < |nodes| && ip < |nodes|
  {
    nodes[ip := Node(kind, 1, [])][dp := nodes[dp].(ents := Linked(nodes[dp].ents, name, ip))]
  }

  /** The entries of a new directory. */
  function Dots(ip: nat, dp: nat): seq<Entry> {
    Linked(Linked([], ".", ip), "..", dp)
  }

  /** create, for a directory: the parent gains a link for ".." */
  function MadeDir(nodes: seq<Node>, dp: nat, name: string, ip: nat): seq<Node>
    requires dp < |nodes| && ip < |nodes|
  {
    nodes[ip := Node(Dir, 1, Dots(ip, dp))]
         [dp := nodes[dp].(nlink := nodes[dp].nlink + 1, ents := Linked(nodes[dp].ents, name, ip))]
  }

  /** sys_link: the count goes up first, and down again if the name cannot be added. */
  function LinkMade(nodes: seq<Node>, ip: nat, dp: nat, name: string): seq<Node>
    requires dp < |nodes| && ip < |nodes| && ip != dp
  {
    var up := nodes[ip := nodes[ip].(nlink := nodes[ip].nlink + 1)];
    if Find(up[dp].ents, name).Some? then up[ip := up[ip].(nlink := up[ip].nlink - 1)]
    else up[dp := up[dp].(ents := Linked(up[dp].ents, name, ip))]
  }

  /** sys_unlink of the name in slot k of dp */
  function Unlinked(nodes: seq<Node>, dp: nat, k: nat): seq<Node>
    requires dp < |nodes| && k < |nodes[dp].ents| && nodes[dp].ents[k].inum < |nodes|
  {
    var c := nodes[dp].ents[k].inum;
    var down := if nodes[c].kind == Dir then 1 else 0;
    var after := nodes[dp := nodes[dp].(nlink := nodes[dp].nlink - down, ents := Cleared(nodes[dp].ents, k))];
    after[c := after[c].(nlink := after[c].nlink - 1)]
  }

  /** iput of the last reference to an inode without links. */
  function Reclaimed(nodes: seq<Node>, i: nat): seq<Node>
    requires i < |nodes|
  {
    nodes[i := Node(Free, 0, [])]
  }

  /** Adding entries to a live directory and keeping the old ones keeps what points to it. */
  lemma LinkedKeeps(ents: seq<Entry>, name: string, inum: nat)
    requires Proper(ents) && Find(ents, name).None? && inum != 0 && |ents| >= 2 && Live(ents[0]) && Live(ents[1])
    ensures var after := Linked(ents, name, inum); var k := EmptySlot(ents);
      && Proper(after) && 2 <= k < |after| && |after| >= |ents| && after[k] == Entry(inum, Cut(name))
      && (forall j :: 0 <= j < |after| && j != k ==> j < |ents| && after[j] == ents[j])
      && (forall c :: c != 0 && NamedIn(ents, c) ==> NamedIn(after, c))
  {
    LinkedShape(ents, name, inum);
    var after, k := Linked(ents, name, inum), EmptySlot(ents);
    hide Linked, EmptySlot;
    forall c | c != 0 && NamedIn(ents, c) ensures NamedIn(after, c) {
      var j :| 2 <= j < |ents| && ents[j].inum == c;
      assert after[j] == ents[j];
    }
  }

  lemma NotDots(ents: seq<Entry>, name: string)
    requires |ents| >= 2 && Live(ents[0]) && Live(ents[1]) && ents[0].name == "." && ents[1].name == ".." && Find(ents, name).None?
    ensures Cut(name) != "." && Cut(name) != ".."
  {
    assert !Names(ents[0], name) && !Names(ents[1], name);
  }

  /** One step adds the name of inode ip to live directory dp; n and m are what the two become. */
  ghost predicate Adds(nodes: seq<Node>, dp: nat, name: string, ip: nat, n: Node, m: Node) {
    && 0 < dp < |nodes| && 0 < ip < |nodes| && ip != dp && LiveDir(nodes[dp]) && Find(nodes[dp].ents, name).None?
    && LiveDir(m) && m.ents == Linked(nodes[dp].ents, name, ip) && n.kind != Free
    && (if n.kind == Dir then nodes[ip].kind == Free && n == Node(Dir, 1, Dots(ip, dp)) else n.ents == [] && nodes[ip].kind != Dir)
  }

  function With(nodes: seq<Node>, ip: nat, n: Node, dp: nat, m: Node): seq<Node>
    requires ip < |nodes| && dp < |nodes|
  {
    nodes[ip := n][dp := m]
  }

  lemma DotsAre(ip: nat, dp: nat)
    requires ip != 0 && dp != 0
    ensures Dots(ip, dp) == [Entry(ip, "."), Entry(dp, "..")] && Proper(Dots(ip, dp))
  {
    assert Linked([], ".", ip) == [Entry(ip, ".")];
    assert EmptySlot([Entry(ip, ".")]) == 1;
  }

  lemma AddUp(nodes: seq<Node>, dp: nat, name: string, ip: nat, n: Node, m: Node, d: nat)
    requires Tree(nodes) && Adds(nodes, dp, name, ip, n, m) && d < |nodes| && LiveDir(With(nodes, ip, n, dp, m)[d])
    ensures UpOk(With(nodes, ip, n, dp, m), d)
  {
    assert UpOk(nodes, dp);
    LinkedKeeps(nodes[dp].ents, name, ip);
    DotsAre(ip, dp);
    hide Linked, EmptySlot, Find, Proper, Dots, DownOk;
    if d == ip {
      var e := EmptySlot(nodes[dp].ents);
      assert m.ents[e].inum == ip;
    } else {
      assert UpOk(nodes, d);
    }
  }

  lemma AddDown(nodes: seq<Node>, dp: nat, name: string, ip: nat, n: Node, m: Node, d: nat, k: nat)
    requires Tree(nodes) && Links(nodes) && Adds(nodes, dp, name, ip, n, m) && d < |nodes|
    requires LiveDir(With(nodes, ip, n, dp, m)[d]) && 2 <= k < |With(nodes, ip, n, dp, m)[d].ents|
    ensures DownOk(With(nodes, ip, n, dp, m), d, k)
  {
    assert UpOk(nodes, dp);
    LinkedKeeps(nodes[dp].ents, name, ip);
    DotsAre(ip, dp);
    var e := EmptySlot(nodes[dp].ents);
    hide Linked, EmptySlot, Find, Dots, Links;
    if nodes[ip].kind == Free {
      Unnamed(nodes, ip, d);
    }
    assert d == ip ==> |n.ents| <= 2;
    if d == dp && k == e {
    } else {
      assert DownOk(nodes, d, k);
    }
  }

  /** A free inode is in no slot of a live directory. */
  lemma Unnamed(nodes: seq<Node>, i: nat, d: nat)
    requires Tree(nodes) && Links(nodes) && 0 < i < |nodes| && nodes[i].kind == Free && d < |nodes| && LiveDir(nodes[d])
    ensures forall k :: 2 <= k < |nodes[d].ents| ==> nodes[d].ents[k].inum != i
  {
    assert UpOk(nodes, d);
    forall k | 2 <= k < |nodes[d].ents| ensures nodes[d].ents[k].inum != i {
      if nodes[d].ents[k].inum == i {
        FreeUnnamed(nodes, i, d, k);
      }
    }
  }

  lemma AddTree(nodes: seq<Node>, dp: nat, name: string, ip: nat, n: Node, m: Node)
    requires Tree(nodes) && Links(nodes) && Adds(nodes, dp, name, ip, n, m)
    ensures Tree(With(nodes, ip, n, dp, m))
  {
    var after := With(nodes, ip, n, dp, m);
    forall d | 0 <= d < |after| && LiveDir(after[d]) ensures UpOk(after, d) {
      AddUp(nodes, dp, name, ip, n, m, d);
    }
    forall d, k | 0 <= d < |after| && LiveDir(after[d]) && 2 <= k < |after[d].ents| ensures DownOk(after, d, k) {
      AddDown(nodes, dp, name, ip, n, m, d, k);
    }
    forall d | 0 <= d < |after| && after[d].kind == Dir && !LiveDir(after[d]) ensures GoneOk(after, d) {
      assert GoneOk(nodes, d);
    }
    hide UpOk, DownOk, Links, GoneOk;
  }

  lemma DotNames(ip: nat, dp: nat, i: nat)
    requires ip != 0 && dp != 0 && i != 0
    ensures NamesIn(Dots(ip, dp), i) == if i == dp then 1 else 0
  {
    LinkNames([], ".", ip, i);
    LinkNames(Linked([], ".", ip), "..", dp, i);
  }

  lemma AddSum(nodes: seq<Node>, dp: nat, name: string, ip: nat, n: Node, m: Node, i: nat)
    requires Tree(nodes) && Adds(nodes, dp, name, ip, n, m) && i != 0
    ensures Sum(With(nodes, ip, n, dp, m), i) == Sum(nodes, i) + (if i == ip then 1 else 0) + (if n.kind == Dir && i == dp then 1 else 0)
  {
    assert UpOk(nodes, dp);
    NotDots(nodes[dp].ents, name);
    SumUpdate(nodes, ip, n, i);
    SumUpdate(nodes[ip := n], dp, m, i);
    LinkNames(nodes[dp].ents, name, ip, i);
    DotNames(ip, dp, i);
    hide Sum, NamesIn, Linked, Find, Dots;
  }

  lemma AddInv(nodes: seq<Node>, dp: nat, name: string, ip: nat, n: Node, m: Node)
    requires Inv(nodes) && Adds(nodes, dp, name, ip, n, m)
    requires n.nlink == nodes[ip].nlink + 1 && m.nlink == nodes[dp].nlink + (if n.kind == Dir then 1 else 0)
    ensures Inv(With(nodes, ip, n, dp, m))
  {
    AddTree(nodes, dp, name, ip, n, m);
    var after := With(nodes, ip, n, dp, m);
    forall i | 0 < i < |after| ensures after[i].nlink == Sum(after, i) {
      AddSum(nodes, dp, name, ip, n, m, i);
      hide Sum, Tree, Adds;
    }
    hide Tree, Adds, Sum;
  }

  lemma CreateInv(nodes: seq<Node>, dp: nat, name: string, ip: nat, kind: Kind)
    requires Inv(nodes) && 0 < dp < |nodes| && 0 < ip < |nodes| && LiveDir(nodes[dp]) && nodes[ip].kind == Free
    requires Find(nodes[dp].ents, name).None? && kind != Dir && kind != Free
    ensures Inv(Created(nodes, dp, name, ip, kind))
  {
    assert NodeOk(nodes[ip]);
    AddInv(nodes, dp, name, ip, Node(kind, 1, []), nodes[dp].(ents := Linked(nodes[dp].ents, name, ip)));
  }

  lemma MkdirInv(nodes: seq<Node>, dp: nat, name: string, ip: nat)
    requires Inv(nodes) && 0 < dp < |nodes| && 0 < ip < |nodes| && LiveDir(nodes[dp]) && nodes[ip].kind == Free
    requires Find(nodes[dp].ents, name).None?
    ensures Inv(MadeDir(nodes, dp, name, ip))
  {
    assert NodeOk(nodes[ip]);
    AddInv(nodes, dp, name, ip, Node(Dir, 1, Dots(ip, dp)), nodes[dp].(nlink := nodes[dp].nlink + 1, ents := Linked(nodes[dp].ents, name, ip)));
  }

  /** A link call keeps the counts whether or not the name can be added. */
  lemma LinkInv(nodes: seq<Node>, ip: nat, dp: nat, name: string)
    requires Inv(nodes) && 0 < dp < |nodes| && 0 < ip < |nodes| && LiveDir(nodes[dp]) && nodes[ip].kind != Free && nodes[ip].kind != Dir
    ensures Inv(LinkMade(nodes, ip, dp, name))
  {
    var up := nodes[ip].(nlink := nodes[ip].nlink + 1);
    if Find(nodes[dp].ents, name).Some? {
      assert LinkMade(nodes, ip, dp, name) == nodes;
    } else {
      assert NodeOk(nodes[ip]);
      AddInv(nodes, dp, name, ip, up, nodes[dp].(ents := Linked(nodes[dp].ents, name, ip)));
    }
  }

  /** In a directory without links a new name does not count: created there, an inode's count is wrong from the start. */
  lemma CreateInRemoved(nodes: seq<Node>, dp: nat, name: string, ip: nat, kind: Kind)
    requires Inv(nodes) && 0 < dp < |nodes| && 0 < ip < |nodes| && nodes[dp].kind == Dir && !LiveDir(nodes[dp])
    requires nodes[ip].kind == Free && kind != Dir && kind != Free
    ensures !Links(Created(nodes, dp, name, ip, kind))
  {
    var mid, after := nodes[ip := Node(kind, 1, [])], Created(nodes, dp, name, ip, kind);
    assert NodeOk(nodes[ip]);
    SumUpdate(nodes, ip, mid[ip], ip);
    SumUpdate(mid, dp, after[dp], ip);
    assert nodes[ip].nlink == Sum(nodes, ip);
    hide Sum, Tree;
    assert after[ip].nlink == 1 && Sum(after, ip) == 0;
  }

  /** A second name made there raises a count that no directory with links backs. */
  lemma LinkInRemoved(nodes: seq<Node>, ip: nat, dp: nat, name: string)
    requires Inv(nodes) && 0 < dp < |nodes| && 0 < ip < |nodes| && nodes[dp].kind == Dir && !LiveDir(nodes[dp])
    requires nodes[ip].kind != Free && nodes[ip].kind != Dir && Find(nodes[dp].ents, name).None?
    ensures !Links(LinkMade(nodes, ip, dp, name))
  {
    var up := nodes[ip := nodes[ip].(nlink := nodes[ip].nlink + 1)];
    var after := LinkMade(nodes, ip, dp, name);
    SumUpdate(nodes, ip, up[ip], ip);
    SumUpdate(up, dp, after[dp], ip);
    assert nodes[ip].nlink == Sum(nodes, ip);
    hide Sum, Tree;
    assert after[ip].nlink == Sum(after, ip) + 1;
  }

  /** A directory made there gives the removed one a link again, and with it counts its ".." a second time. */
  lemma MkdirInRemoved(nodes: seq<Node>, dp: nat, name: string, ip: nat)
    requires Inv(nodes) && 0 < dp < |nodes| && 0 < ip < |nodes| && nodes[dp].kind == Dir && !LiveDir(nodes[dp])
    requires nodes[ip].kind == Free && Find(nodes[dp].ents, name).None?
    ensures LiveDir(MadeDir(nodes, dp, name, ip)[dp]) && !Links(MadeDir(nodes, dp, name, ip))
  {
    var mid, after := nodes[ip := Node(Dir, 1, Dots(ip, dp))], MadeDir(nodes, dp, name, ip);
    assert GoneOk(nodes, dp) && NodeOk(nodes[ip]);
    assert nodes[dp].nlink == Sum(nodes, dp);
    var q := nodes[dp].ents[1].inum;
    assert nodes[q].nlink == Sum(nodes, q);
    hide Tree, Links;
    NotDots(nodes[dp].ents, name);
    assert Counts(nodes[dp].ents[1], q);
    NamesZero(nodes[dp].ents, q);
    LinkNames(nodes[dp].ents, name, ip, q);
    DotNames(ip, dp, q);
    SumUpdate(nodes, ip, mid[ip], q);
    SumUpdate(mid, dp, after[dp], q);
    hide Sum, NamesIn, Linked, Find, Dots;
    assert Sum(after, q) > after[q].nlink;
    SumNot(after, q);
  }

  lemma SumNot(nodes: seq<Node>, q: nat)
    requires 0 < q < |nodes| && nodes[q].nlink != Sum(nodes, q)
    ensures !Links(nodes)
  {
  }

  lemma SumTwo(nodes: seq<Node>, x: nat, y: nat, i: nat)
    requires x < |nodes| && y < |nodes| && x != y && Weight(nodes[x], i) > 0 && Weight(nodes[y], i) > 0
    ensures Sum(nodes, i) >= 2
  {
    var none := Node(Free, 0, []);
    SumUpdate(nodes, x, none, i);
    SumZero(nodes[x := none], i);
    assert nodes[x := none][y] == nodes[y];
  }

  /** The name in slot k of dp may be removed: not a dot, and not of a directory that holds anything. */
  ghost predicate MayUnlink(nodes: seq<Node>, dp: nat, k: nat) {
    && 0 < dp < |nodes| && LiveDir(nodes[dp]) && 2 <= k < |nodes[dp].ents| && Live(nodes[dp].ents[k])
    && nodes[dp].ents[k].inum < |nodes|
    && (nodes[nodes[dp].ents[k].inum].kind == Dir ==> EmptyDir(nodes[nodes[dp].ents[k].inum]))
  }

  /** What is known of a directory about to be removed. */
  lemma ChildOf(nodes: seq<Node>, dp: nat, k: nat) returns (c: nat)
    requires Inv(nodes) && MayUnlink(nodes, dp, k)
    ensures c == nodes[dp].ents[k].inum && 0 < c < |nodes| && c != dp && nodes[dp].ents[k].name != "." && nodes[c].nlink > 0
    ensures nodes[c].kind == Dir ==> c != ROOT && LiveDir(nodes[c]) && UpOk(nodes, c) && nodes[c].ents[1].inum == dp
  {
    c := nodes[dp].ents[k].inum;
    assert UpOk(nodes, dp) && DownOk(nodes, dp, k);
    NamedLives(nodes, dp, k);
    hide Links;
    assert nodes[c].kind == Dir ==> UpOk(nodes, c);
  }

  /** No live directory but dp holds an entry for the empty directory c, and dp holds one. */
  lemma OnlyHere(nodes: seq<Node>, dp: nat, k: nat, c: nat, d: nat, j: nat)
    requires Inv(nodes) && MayUnlink(nodes, dp, k) && c == nodes[dp].ents[k].inum && nodes[c].kind == Dir
    requires d < |nodes| && LiveDir(nodes[d]) && j < |nodes[d].ents| && Counts(nodes[d].ents[j], c)
    ensures d == dp && j == k
  {
    var c1 := ChildOf(nodes, dp, k);
    assert UpOk(nodes, d) && DownOk(nodes, dp, k);
    hide Links;
    if j >= 2 {
      assert DownOk(nodes, d, j);
    }
  }

  lemma ChildOnce(nodes: seq<Node>, dp: nat, k: nat, c: nat)
    requires Inv(nodes) && MayUnlink(nodes, dp, k) && c == nodes[dp].ents[k].inum && nodes[c].kind == Dir
    ensures nodes[c].nlink == 1
  {
    var c1 := ChildOf(nodes, dp, k);
    forall d, j | 0 <= d < |nodes| && LiveDir(nodes[d]) && 0 <= j < |nodes[d].ents| && Counts(nodes[d].ents[j], c) ensures d == dp && j == k {
      OnlyHere(nodes, dp, k, c, d, j);
    }
    hide Tree, UpOk, Sum, NamesIn;
    NamesOne(nodes[dp].ents, k, c);
    forall x | 0 <= x < |nodes| && x != dp ensures Weight(nodes[x], c) == 0 {
      NamesZero(nodes[x].ents, c);
    }
    SumOne(nodes, dp, c);
  }

  lemma DotDot(n: Node, c: nat, dp: nat, i: nat)
    requires EmptyDir(n) && |n.ents| >= 2 && n.ents[0] == Entry(c, ".") && n.ents[1] == Entry(dp, "..") && i != 0
    ensures NamesIn(n.ents, i) == if i == dp then 1 else 0
  {
    if i == dp {
      NamesOne(n.ents, 1, i);
    } else {
      NamesZero(n.ents, i);
    }
  }

  /** Losing a subdirectory does not remove the parent. */
  lemma ParentStays(nodes: seq<Node>, dp: nat, k: nat, c: nat)
    requires Inv(nodes) && MayUnlink(nodes, dp, k) && c == nodes[dp].ents[k].inum && nodes[c].kind == Dir
    ensures nodes[dp].nlink >= 2
  {
    var c1 := ChildOf(nodes, dp, k);
    assert UpOk(nodes, dp);
    DotDot(nodes[c], c, dp, dp);
    var p := nodes[dp].ents[1].inum;
    hide Tree, DownOk, Sum, NamesIn;
    NamesZero(nodes[p].ents, dp);
    if dp == ROOT {
      assert Counts(nodes[ROOT].ents[1], ROOT);
    } else {
      var j :| 2 <= j < |nodes[p].ents| && nodes[p].ents[j].inum == dp;
      NotDotSlot(nodes, p, j);
      assert Counts(nodes[p].ents[j], dp);
    }
    assert p != c;
    SumTwo(nodes, c, p, dp);
  }

  lemma NotDotSlot(nodes: seq<Node>, p: nat, j: nat)
    requires Tree(nodes) && p < |nodes| && LiveDir(nodes[p]) && 2 <= j < |nodes[p].ents| && Live(nodes[p].ents[j])
    ensures nodes[p].ents[j].name != "."
  {
    assert UpOk(nodes, p);
  }

  lemma UnlinkSum(nodes: seq<Node>, dp: nat, k: nat, i: nat)
    requires Inv(nodes) && MayUnlink(nodes, dp, k) && 0 < i < |nodes|
    ensures Unlinked(nodes, dp, k)[i].nlink == Sum(Unlinked(nodes, dp, k), i)
  {
    var c := ChildOf(nodes, dp, k);
    var after := Unlinked(nodes, dp, k);
    assert nodes[i].nlink == Sum(nodes, i);
    assert NodeOk(nodes[c]);
    if nodes[c].kind == Dir {
      ChildOnce(nodes, dp, k, c);
      ParentStays(nodes, dp, k, c);
      DotDot(nodes[c], c, dp, i);
    }
    SumUpdate(nodes, dp, after[dp], i);
    SumUpdate(nodes[dp := after[dp]], c, after[c], i);
    NamesUpdate(nodes[dp].ents, k, Entry(0, ""), i);
    hide Sum, NamesIn, Tree, Links, UpOk;
  }

  lemma UnlinkUp(nodes: seq<Node>, dp: nat, k: nat, d: nat)
    requires Inv(nodes) && MayUnlink(nodes, dp, k) && d < |nodes| && LiveDir(Unlinked(nodes, dp, k)[d])
    ensures UpOk(Unlinked(nodes, dp, k), d)
  {
    var c := ChildOf(nodes, dp, k);
    var after := Unlinked(nodes, dp, k);
    if nodes[c].kind == Dir {
      ChildOnce(nodes, dp, k, c);
      ParentStays(nodes, dp, k, c);
    }
    hide Links, Sum;
    assert UpOk(nodes, d);
    var p := nodes[d].ents[1].inum;
    if d != ROOT {
      var j :| 2 <= j < |nodes[p].ents| && nodes[p].ents[j].inum == d;
      assert after[p].ents[j].inum == d;
    }
  }

  lemma UnlinkDown(nodes: seq<Node>, dp: nat, k: nat, d: nat, j: nat)
    requires Inv(nodes) && MayUnlink(nodes, dp, k) && d < |nodes|
    requires LiveDir(Unlinked(nodes, dp, k)[d]) && 2 <= j < |Unlinked(nodes, dp, k)[d].ents|
    ensures DownOk(Unlinked(nodes, dp, k), d, j)
  {
    var c := ChildOf(nodes, dp, k);
    hide Links, UpOk;
    assert DownOk(nodes, d, j);
  }

  lemma UnlinkGone(nodes: seq<Node>, dp: nat, k: nat, d: nat)
    requires Inv(nodes) && MayUnlink(nodes, dp, k) && d < |nodes|
    requires Unlinked(nodes, dp, k)[d].kind == Dir && !LiveDir(Unlinked(nodes, dp, k)[d])
    ensures GoneOk(Unlinked(nodes, dp, k), d)
  {
    var c := ChildOf(nodes, dp, k);
    if nodes[c].kind == Dir {
      ParentStays(nodes, dp, k, c);
    }
    hide Links, DownOk;
    if d != c {
      assert GoneOk(nodes, d);
    }
  }

  lemma UnlinkBasics(nodes: seq<Node>, dp: nat, k: nat)
    requires Inv(nodes) && MayUnlink(nodes, dp, k)
    ensures var after := Unlinked(nodes, dp, k);
      && |after| == |nodes| > ROOT && after[0] == Node(Free, 0, []) && LiveDir(after[ROOT])
      && forall d :: 0 <= d < |after| ==> NodeOk(after[d])
  {
    var c := ChildOf(nodes, dp, k);
    if nodes[c].kind == Dir {
      ParentStays(nodes, dp, k, c);
    }
    hide UpOk, DownOk, GoneOk, Links;
    assert NodeOk(nodes[c]) && NodeOk(nodes[0]);
  }

  lemma UnlinkInv(nodes: seq<Node>, dp: nat, k: nat)
    requires Inv(nodes) && MayUnlink(nodes, dp, k)
    ensures Inv(Unlinked(nodes, dp, k))
  {
    hide UpOk, DownOk, GoneOk, NodeOk, Sum, EmptyDir, Unlinked;
    var after := Unlinked(nodes, dp, k);
    UnlinkBasics(nodes, dp, k);
    forall i | 0 < i < |after| ensures after[i].nlink == Sum(after, i) {
      UnlinkSum(nodes, dp, k, i);
    }
    forall d | 0 <= d < |after| && LiveDir(after[d]) ensures UpOk(after, d) {
      UnlinkUp(nodes, dp, k, d);
    }
    forall d, j | 0 <= d < |after| && LiveDir(after[d]) && 2 <= j < |after[d].ents| ensures DownOk(after, d, j) {
      UnlinkDown(nodes, dp, k, d, j);
    }
    forall d | 0 <= d < |after| && after[d].kind == Dir && !LiveDir(after[d]) ensures GoneOk(after, d) {
      UnlinkGone(nodes, dp, k, d);
    }
  }

  lemma ReclaimUp(nodes: seq<Node>, i: nat, d: nat)
    requires Tree(nodes) && i < |nodes| && nodes[i].nlink == 0 && d < |nodes| && d != i && LiveDir(nodes[d])
    ensures UpOk(Reclaimed(nodes, i), d)
  {
    assert UpOk(nodes, d);
    hide Proper;
  }

  lemma ReclaimDown(nodes: seq<Node>, i: nat, d: nat, k: nat)
    requires Tree(nodes) && i < |nodes| && nodes[i].nlink == 0 && d < |nodes| && d != i && LiveDir(nodes[d]) && 2 <= k < |nodes[d].ents|
    ensures DownOk(Reclaimed(nodes, i), d, k)
  {
    assert DownOk(nodes, d, k);
    hide UpOk;
  }

  lemma ReclaimInv(nodes: seq<Node>, i: nat)
    requires Inv(nodes) && 0 < i < |nodes| && nodes[i].nlink == 0
    ensures Inv(Reclaimed(nodes, i))
  {
    var after := Reclaimed(nodes, i);
    hide UpOk, DownOk, NamesIn;
    forall x | 0 < x < |after| ensures after[x].nlink == Sum(after, x) {
      SumUpdate(nodes, i, after[i], x);
    }
    hide Sum;
    forall d | 0 <= d < |after| && LiveDir(after[d]) ensures UpOk(after, d) {
      ReclaimUp(nodes, i, d);
    }
    forall d, k | 0 <= d < |after| && LiveDir(after[d]) && 2 <= k < |after[d].ents| ensures DownOk(after, d, k) {
      ReclaimDown(nodes, i, d, k);
    }
    forall d | 0 <= d < |after| && after[d].kind == Dir && !LiveDir(after[d]) ensures GoneOk(after, d) {
      assert GoneOk(nodes, d);
    }
  }

  datatype Step =
    | Create(dp: nat, name: string, ip: nat, kind: Kind)
    | Mkdir(dp: nat, name: string, ip: nat)
    | Link(ip: nat, dp: nat, name: string)
    | Unlink(dp: nat, name: string)
    | Reclaim(i: nat)

  /** Calls that get past the source's checks. */
  ghost predicate Enabled(nodes: seq<Node>, a: Step) {
    match a
    case Create(dp, name, ip, kind) =>
      0 < dp < |nodes| && 0 < ip < |nodes| && nodes[dp].kind == Dir && Find(nodes[dp].ents, name).None? && nodes[ip].kind == Free
      && (kind == File || kind == Device)
    case Mkdir(dp, name, ip) =>
      0 < dp < |nodes| && 0 < ip < |nodes| && nodes[dp].kind == Dir && Find(nodes[dp].ents, name).None? && nodes[ip].kind == Free
    case Link(ip, dp, name) =>
      0 < dp < |nodes| && 0 < ip < |nodes| && nodes[dp].kind == Dir && nodes[ip].kind != Free && nodes[ip].kind != Dir
    case Unlink(dp, name) =>
      0 < dp < |nodes| && nodes[dp].kind == Dir && Cut(name) != "." && Cut(name) != ".." && Find(nodes[dp].ents, name).Some?
      && Find(nodes[dp].ents, name).value < |nodes|
      && (nodes[Find(nodes[dp].ents, name).value].kind == Dir ==> EmptyDir(nodes[Find(nodes[dp].ents, name).value]))
    case Reclaim(i) => 0 < i < |nodes| && nodes[i].nlink == 0
  }

  /** The call adds no name to a removed directory. */
  ghost predicate Exact(nodes: seq<Node>, a: Step)
    requires Enabled(nodes, a)
  {
    match a
    case Create(dp, _, _, _) => LiveDir(nodes[dp])
    case Mkdir(dp, _, _) => LiveDir(nodes[dp])
    case Link(_, dp, name) => LiveDir(nodes[dp]) || Find(nodes[dp].ents, name).Some?
    case _ => true
  }

  function Next(nodes: seq<Node>, a: Step): seq<Node> {
    match a
    case Create(dp, name, ip, kind) => if dp < |nodes| && ip < |nodes| then Created(nodes, dp, name, ip, kind) else nodes
    case Mkdir(dp, name, ip) => if dp < |nodes| && ip < |nodes| then MadeDir(nodes, dp, name, ip) else nodes
    case Link(ip, dp, name) => if dp < |nodes| && ip < |nodes| && ip != dp then LinkMade(nodes, ip, dp, name) else nodes
    case Unlink(dp, name) =>
      if dp < |nodes| && Slot(nodes[dp].ents, name) < |nodes[dp].ents| && nodes[dp].ents[Slot(nodes[dp].ents, name)].inum < |nodes|
      then Unlinked(nodes, dp, Slot(nodes[dp].ents, name)) else nodes
    case Reclaim(i) => if i < |nodes| then Reclaimed(nodes, i) else nodes
  }

  /** A removed directory holds no name to unlink. */
  lemma UnlinkLives(nodes: seq<Node>, dp: nat, name: string)
    requires Inv(nodes) && Enabled(nodes, Unlink(dp, name))
    ensures LiveDir(nodes[dp])
  {
    var k := Slot(nodes[dp].ents, name);
    assert Names(nodes[dp].ents[k], name);
    assert !LiveDir(nodes[dp]) ==> GoneOk(nodes, dp);
  }

  /** Every call keeps the counts exact and the tree a tree, one that adds a name to a removed directory and nothing else excepted. */
  lemma StepInv(nodes: seq<Node>, a: Step)
    requires Inv(nodes) && Enabled(nodes, a)
    ensures Inv(Next(nodes, a)) <==> Exact(nodes, a)
  {
    match a
    case Create(dp, name, ip, kind) => CreateExact(nodes, dp, name, ip, kind);
    case Mkdir(dp, name, ip) => MkdirExact(nodes, dp, name, ip);
    case Link(ip, dp, name) => LinkExact(nodes, ip, dp, name);
    case Unlink(dp, name) =>
      UnlinkLives(nodes, dp, name);
      assert UpOk(nodes, dp);
      UnlinkInv(nodes, dp, Slot(nodes[dp].ents, name));
    case Reclaim(i) => ReclaimInv(nodes, i);
  }

  lemma CreateExact(nodes: seq<Node>, dp: nat, name: string, ip: nat, kind: Kind)
    requires Inv(nodes) && Enabled(nodes, Create(dp, name, ip, kind))
    ensures Inv(Created(nodes, dp, name, ip, kind)) <==> LiveDir(nodes[dp])
  {
    if LiveDir(nodes[dp]) {
      CreateInv(nodes, dp, name, ip, kind);
    } else {
      CreateInRemoved(nodes, dp, name, ip, kind);
    }
  }

  lemma MkdirExact(nodes: seq<Node>, dp: nat, name: string, ip: nat)
    requires Inv(nodes) && Enabled(nodes, Mkdir(dp, name, ip))
    ensures Inv(MadeDir(nodes, dp, name, ip)) <==> LiveDir(nodes[dp])
  {
    if LiveDir(nodes[dp]) {
      MkdirInv(nodes, dp, name, ip);
    } else {
      MkdirInRemoved(nodes, dp, name, ip);
    }
  }

  /** A link call keeps the counts exactly when the parent has links or already has the name. */
  lemma LinkExact(nodes: seq<Node>, ip: nat, dp: nat, name: string)
    requires Inv(nodes) && Enabled(nodes, Link(ip, dp, name))
    ensures Inv(LinkMade(nodes, ip, dp, name)) <==> LiveDir(nodes[dp]) || Find(nodes[dp].ents, name).Some?
  {
    if LiveDir(nodes[dp]) {
      LinkInv(nodes, ip, dp, name);
    } else if Find(nodes[dp].ents, name).Some? {
      assert LinkMade(nodes, ip, dp, name) == nodes;
    } else {
      LinkInRemoved(nodes, ip, dp, name);
    }
  }

  /** What mkfs writes: a root that is its own parent, no other inode in use. */
  ghost predicate Init(nodes: seq<Node>) {
    && |nodes| > ROOT && nodes[ROOT] == Node(Dir, 1, [Entry(ROOT, "."), Entry(ROOT, "..")])
    && forall i :: 0 <= i < |nodes| && i != ROOT ==> nodes[i] == Node(Free, 0, [])
  }

  lemma InitInv(nodes: seq<Node>)
    requires Init(nodes)
    ensures Inv(nodes)
  {
    var root := nodes[ROOT];
    assert UpOk(nodes, ROOT);
    forall i | 0 < i < |nodes| ensures nodes[i].nlink == Sum(nodes, i) {
      if i == ROOT {
        NamesOne(root.ents, 1, i);
        SumOne(nodes, ROOT, i);
      } else {
        NamesZero(root.ents, i);
        SumZero(nodes, i);
      }
    }
    hide Sum, NamesIn;
  }

  ghost predicate IsRun(states: seq<seq<Node>>, steps: seq<Step>) {
    |states| == |steps| + 1
    && forall i :: 0 <= i < |steps| ==>
         Enabled(states[i], steps[i]) && Exact(states[i], steps[i]) && states[i + 1] == Next(states[i], steps[i])
  }

  /** Over every sequence of calls that adds no name to a removed directory, link counts are exact and the directories stay a tree. */
  lemma {:induction false} RunInv(states: seq<seq<Node>>, steps: seq<Step>, i: nat)
    requires IsRun(states, steps) && Init(states[0]) && i < |states|
    ensures Inv(states[i])
  {
    if i == 0 {
      InitInv(states[0]);
    } else {
      RunInv(states, steps, i - 1);
      assert Enabled(states[i - 1], steps[i - 1]) && Exact(states[i - 1], steps[i - 1]);
      assert states[i - 1 + 1] == Next(states[i - 1], steps[i - 1]);
      hide Inv, Enabled, Exact, Next;
      StepInv(states[i - 1], steps[i - 1]);
    }
  }

  /** The inodes as sysfile.c updates them. `None` stands for a path that does not resolve. */
  class Inodes {
    const node: array<Node>

    constructor (n: nat)
      requires n > ROOT
      ensures node.Length == n && Init(node[..]) && Inv(node[..])
    {
      node := new Node[n](i => if i == ROOT then Node(Dir, 1, [Entry(ROOT, "."), Entry(ROOT, "..")]) else Node(Free, 0, []));
      new;
      InitInv(node[..]);
    }

    /** ialloc: the first free inode; None is its panic. */
    method Ialloc() returns (r: Option<nat>)
      ensures r.Some? ==> 0 < r.value < node.Length && node[r.value].kind == Free && forall i :: 0 < i < r.value ==> node[i].kind != Free
      ensures r.None? ==> forall i :: 0 < i < node.Length ==> node[i].kind != Free
    {
      var i := 1;
      while i < node.Length
        invariant 1 <= i && forall j :: 0 < j < i && j < node.Length ==> node[j].kind != Free
      {
        if node[i].kind == Free {
          return Some(i);
        }
        i := i + 1;
      }
      return None;
    }

    /** sys_link */
    method SysLink(ip: Option<nat>, dp: Option<nat>, name: string) returns (r: int)
      requires Inv(node[..]) && (ip.Some? ==> 0 < ip.value < node.Length && node[ip.value].kind != Free)
      requires dp.Some? ==> 0 < dp.value < node.Length && node[dp.value].kind == Dir
      modifies node
      ensures Inv(node[..]) <==> (r == 0 && dp.Some? ==> LiveDir(old(node[dp.value])))
      ensures r == if ip.Some? && dp.Some? && old(node[ip.value].kind) != Dir && old(Find(node[dp.value].ents, name)).None? then 0 else -1
      ensures node[..] == if r == 0 then Next(old(node[..]), Link(ip.value, dp.value, name)) else old(node[..])
    {
      hide Inv, Find, Linked;
      if ip.None? {
        return -1;
      }
      var i := ip.value;
      if node[i].kind == Dir {
        return -1;
      }
      ghost var was := node[..];
      node[i] := node[i].(nlink := node[i].nlink + 1);
      if dp.Some? {
        LinkExact(was, i, dp.value, name);
        var linked, after := LinkEntry(node[dp.value].ents, name, i);
        if linked == 0 {
          node[dp.value] := node[dp.value].(ents := after);
          assert node[..] == LinkMade(was, i, dp.value, name);
          return 0;
        }
      }
      node[i] := node[i].(nlink := node[i].nlink - 1);
      assert node[..] == was;
      return -1;
    }

    /** sys_unlink, from the lookup on: the link count is never below 1 here, so its panic cannot happen. */
    method SysUnlink(dp: Option<nat>, name: string) returns (r: int)
      requires Inv(node[..]) && (dp.Some? ==> 0 < dp.value < node.Length && node[dp.value].kind == Dir)
      modifies node
      ensures Inv(node[..]) && (r == 0 || r == -1)
      ensures r == 0 <==> dp.Some? && Enabled(old(node[..]), Unlink(dp.value, name))
      ensures node[..] == if r == 0 then Next(old(node[..]), Unlink(dp.value, name)) else old(node[..])
    {
      hide Inv, Slot;
      if dp.None? {
        return -1;
      }
      var d := dp.value;
      if Cut(name) == "." || Cut(name) == ".." {
        return -1;
      }
      var found, k := Lookup(node[d].ents, name);
      if found.None? {
        return -1;
      }
      var c := found.value;
      ghost var was := node[..];
      Victim(was, d, name, k);
      assert node[c].nlink >= 1;
      if node[c].kind == Dir {
        var empty := IsEmpty(node[c].ents);
        if !empty {
          return -1;
        }
      }
      UnlinkInv(was, d, k);
      node[d] := node[d].(ents := node[d].ents[k := Entry(0, "")]);
      if node[c].kind == Dir {
        node[d] := node[d].(nlink := node[d].nlink - 1);
      }
      node[c] := node[c].(nlink := node[c].nlink - 1);
      assert node[..] == Unlinked(was, d, k);
      return 0;
    }

    /** create's tail for a file or device */
    method NewFile(d: nat, name: string, ip: nat, kind: Kind)
      requires Inv(node[..]) && Enabled(node[..], Create(d, name, ip, kind))
      modifies node
      ensures Inv(node[..]) <==> LiveDir(old(node[d]))
      ensures node[..] == Next(old(node[..]), Create(d, name, ip, kind))
    {
      CreateExact(node[..], d, name, ip, kind);
      hide Inv, Find, Linked;
      node[ip] := Node(kind, 1, []);
      var _, after := LinkEntry(node[d].ents, name, ip);
      node[d] := node[d].(ents := after);
      assert node[..] == Created(old(node[..]), d, name, ip, kind);
    }

    /** create: the "." and ".." entries; its panic cannot happen. */
    method MakeDots(ip: nat, d: nat) returns (dots: seq<Entry>)
      ensures dots == Dots(ip, d)
    {
      var r1, dot := LinkEntry([], ".", ip);
      assert dot == [Entry(ip, ".")];
      var r2;
      r2, dots := LinkEntry(dot, "..", d);
      assert r1 == 0 && r2 == 0;
    }

    /** create's tail for a directory */
    method NewDir(d: nat, name: string, ip: nat)
      requires Inv(node[..]) && Enabled(node[..], Mkdir(d, name, ip))
      modifies node
      ensures Inv(node[..]) <==> LiveDir(old(node[d]))
      ensures node[..] == Next(old(node[..]), Mkdir(d, name, ip))
    {
      MkdirExact(node[..], d, name, ip);
      hide Inv;
      node[d] := node[d].(nlink := node[d].nlink + 1);
      hide Find, Linked, Dots;
      var dots := MakeDots(ip, d);
      node[ip] := Node(Dir, 1, dots);
      var _, after := LinkEntry(node[d].ents, name, ip);
      node[d] := node[d].(ents := after);
      assert node[..] == MadeDir(old(node[..]), d, name, ip);
    }

    /** create: the inode to use, new or (for files) already there; None when there is none. */
    method MakeNode(dp: Option<nat>, name: string, kind: Kind) returns (r: Option<nat>, ghost made: bool)
      requires Inv(node[..]) && (dp.Some? ==> 0 < dp.value < node.Length && node[dp.value].kind == Dir) && kind != Free
      modifies node
      ensures Inv(node[..]) <==> (made && dp.Some? ==> LiveDir(old(node[dp.value])))
      ensures !made ==> node[..] == old(node[..])
      ensures !made && r.Some? ==> dp.Some? && kind == File && r == Find(old(node[dp.value].ents), name)
      ensures !made && r.Some? ==> r.value < node.Length && node[r.value].kind == File
      ensures r.None? ==>
        || dp.None? || (Find(old(node[dp.value].ents), name).None? && forall i :: 0 < i < node.Length ==> node[i].kind != Free)
        || (var found := Find(old(node[dp.value].ents), name);
            (found.Some? && found.value < node.Length && (kind != File || node[found.value].kind != File)))
      ensures made ==> r.Some? && dp.Some? && Find(old(node[dp.value].ents), name).None?
      ensures made && kind == Dir ==> node[..] == Next(old(node[..]), Mkdir(dp.value, name, r.value))
      ensures made && kind != Dir ==> node[..] == Next(old(node[..]), Create(dp.value, name, r.value, kind))
    {
      hide Inv, Next;
      if dp.None? {
        return None, false;
      }
      var d := dp.value;
      var found, k := Lookup(node[d].ents, name);
      if found.Some? {
        Target(node[..], d, k);
        if kind == File && node[found.value].kind == File {
          return found, false;
        }
        return None, false;
      }
      hide Find, Slot;
      r := Ialloc();
      if r.None? {
        return None, false;
      }
      if kind == Dir {
        NewDir(d, name, r.value);
      } else {
        NewFile(d, name, r.value, kind);
      }
      made := true;
    }
  }

  /** Entries of directories name existing inodes. */
  lemma Target(nodes: seq<Node>, d: nat, k: nat)
    requires Inv(nodes) && d < |nodes| && nodes[d].kind == Dir && k < |nodes[d].ents| && Live(nodes[d].ents[k])
    ensures nodes[d].ents[k].inum < |nodes|
  {
    if !LiveDir(nodes[d]) {
      assert GoneOk(nodes, d);
    } else {
      assert UpOk(nodes, d);
      if k >= 2 {
        assert DownOk(nodes, d, k);
      }
    }
  }

  /** What unlink finds under a name that is not a dot. */
  lemma Victim(nodes: seq<Node>, d: nat, name: string, k: nat)
    requires Inv(nodes) && 0 < d < |nodes| && nodes[d].kind == Dir && k < |nodes[d].ents| && Names(nodes[d].ents[k], name)
    requires Cut(name) != "." && Cut(name) != ".."
    ensures LiveDir(nodes[d]) && 2 <= k && nodes[d].ents[k].inum < |nodes| && nodes[d].ents[k].inum != d && nodes[nodes[d].ents[k].inum].nlink >= 1
  {
    assert !LiveDir(nodes[d]) ==> GoneOk(nodes, d);
    assert UpOk(nodes, d) && DownOk(nodes, d, k);
    NamedLives(nodes, d, k);
  }
}
