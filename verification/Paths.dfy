/** Path names (fs.c): skipelem and namex against the list of a path's components. */
module Paths {
  import opened Options
  import opened Directories
  import opened LinkCounts

  function SkipSlashes(path: string, i: nat): (j: nat)
    requires i <= |path|
    ensures i <= j <= |path| && (j < |path| ==> path[j] != '/') && forall k :: i <= k < j ==> path[k] == '/'
    decreases |path| - i
  {
    if i < |path| && path[i] == '/' then SkipSlashes(path, i + 1) else i
  }

  function ElemEnd(path: string, i: nat): (j: nat)
    requires i <= |path|
    ensures i <= j <= |path| && (j < |path| ==> path[j] == '/') && forall k :: i <= k < j ==> path[k] != '/'
    decreases |path| - i
  {
    if i < |path| && path[i] != '/' then ElemEnd(path, i + 1) else i
  }

  /** The non-empty slash-separated components from position i on, cut to 14 bytes. */
  function Components(path: string, i: nat): seq<string>
    requires i <= |path|
    decreases |path| - i
  {
    var j := SkipSlashes(path, i);
    if j == |path| then [] else [Cut(path[j..ElemEnd(path, j)])] + Components(path, ElemEnd(path, j))
  }

  lemma {:induction false} SlashesTwice(path: string, i: nat, j: nat)
    requires i <= j <= |path| && forall k :: i <= k < j ==> path[k] == '/'
    ensures SkipSlashes(path, i) == SkipSlashes(path, j)
    decreases j - i
  {
    if i < j {
      SlashesTwice(path, i + 1, j);
    }
  }

  lemma {:induction false} EndIs(path: string, i: nat, e: nat)
    requires i <= e <= |path| && (e < |path| ==> path[e] == '/') && forall k :: i <= k < e ==> path[k] != '/'
    ensures ElemEnd(path, i) == e
    decreases e - i
  {
    if i < e {
      EndIs(path, i + 1, e);
    }
  }

  predicate PlainName(c: string) {
    0 < |c| <= DIRSIZ && '/' !in c
  }

  /** Components written out as a path. */
  function Join(cs: seq<string>): string {
    if cs == [] then "" else "/" + cs[0] + Join(cs[1..])
  }

  lemma JoinSlash(cs: seq<string>)
    ensures Join(cs) != "" ==> Join(cs)[0] == '/'
  {
  }

  lemma HeadTail(cs: seq<string>)
    requires cs != []
    ensures [cs[0]] + cs[1..] == cs
  {
  }

  lemma OneElem(path: string, i: nat, e: nat, c: string)
    requires i + 1 <= e <= |path| && path[i] == '/' && path[i + 1..e] == c && PlainName(c) && (e < |path| ==> path[e] == '/')
    ensures Components(path, i) == [c] + Components(path, e)
  {
    forall k | i + 1 <= k < e ensures path[k] != '/' {
      assert path[k] == c[k - i - 1];
    }
    EndIs(path, i + 1, e);
    assert SkipSlashes(path, i) == SkipSlashes(path, i + 1) == i + 1;
  }

  /** Where the first name of a joined path ends. */
  lemma FirstPiece(path: string, i: nat, cs: seq<string>) returns (e: nat)
    requires i <= |path| && path[i..] == Join(cs) && cs != []
    ensures i + 1 <= e <= |path| && path[i] == '/' && path[i + 1..e] == cs[0] && path[e..] == Join(cs[1..])
    ensures e < |path| ==> path[e] == '/'
  {
    var rest := Join(cs[1..]);
    e := i + 1 + |cs[0]|;
    JoinSlash(cs[1..]);
    Piece(path, i, cs[0], rest);
    hide Join;
    assert e < |path| ==> path[e] == rest[0];
  }

  /** Every list of plain names is the component list of its path. */
  lemma {:induction false} JoinBack(path: string, i: nat, cs: seq<string>)
    requires i <= |path| && path[i..] == Join(cs) && forall k :: 0 <= k < |cs| ==> PlainName(cs[k])
    ensures Components(path, i) == cs
    decreases |cs|
  {
    if cs != [] {
      var e := FirstPiece(path, i, cs);
      hide *;
      OneElem(path, i, e, cs[0]);
      JoinBack(path, e, cs[1..]);
      HeadTail(cs);
    }
  }

  lemma Piece(path: string, i: nat, c: string, rest: string)
    requires i <= |path| && path[i..] == "/" + c + rest
    ensures i + 1 + |c| <= |path| && path[i] == '/' && path[i + 1..i + 1 + |c|] == c && path[i + 1 + |c|..] == rest
  {
    var t := path[i..];
    assert path[i] == t[0];
    assert path[i + 1..i + 1 + |c|] == t[1..1 + |c|];
    assert path[i + 1 + |c|..] == t[1 + |c|..];
  }

  lemma CompStep(path: string, i: nat, s: nat, e: nat, p: nat)
    requires i <= |path| && s == SkipSlashes(path, i) && s < |path| && e == ElemEnd(path, s) <= p <= |path|
    requires (forall k :: e <= k < p ==> path[k] == '/') && (p < |path| ==> path[p] != '/')
    ensures Components(path, i) == [Cut(path[s..e])] + Components(path, p)
    ensures s < e && (p == |path| <==> Components(path, p) == [])
  {
    SlashesTwice(path, e, p);
    assert SkipSlashes(path, p) == p;
  }

  /** skipelem: the next component and where the one after it starts; None when there is none. */
  method SkipElem(path: string, i: nat) returns (r: Option<nat>, name: string)
    requires i <= |path|
    ensures r.None? <==> Components(path, i) == []
    ensures r.Some? ==> i < r.value <= |path| && name == Components(path, i)[0] && Components(path, r.value) == Components(path, i)[1..]
    ensures r.Some? ==> (r.value == |path| <==> |Components(path, i)| == 1)
  {
    var p := i;
    assert SkipSlashes(path, i) == |path| ==> Components(path, i) == [];
    hide Components;
    while p < |path| && path[p] == '/'
      invariant i <= p <= |path| && SkipSlashes(path, p) == SkipSlashes(path, i)
    {
      p := p + 1;
    }
    if p == |path| {
      return None, "";
    }
    var s := p;
    while p < |path| && path[p] != '/'
      invariant s <= p <= |path| && ElemEnd(path, p) == ElemEnd(path, s)
    {
      p := p + 1;
    }
    var len := p - s;
    name := if len >= DIRSIZ then path[s..s + DIRSIZ] else path[s..p];
    assert name == Cut(path[s..p]);
    ghost var e := p;
    while p < |path| && path[p] == '/'
      invariant e <= p <= |path| && forall k :: e <= k < p ==> path[k] == '/'
    {
      p := p + 1;
    }
    CompStep(path, i, s, e, p);
    return Some(p), name;
  }

  /** Folding lookup over components, from inode i. */
  function Resolve(nodes: seq<Node>, i: nat, cs: seq<string>): Option<nat>
    decreases |cs|
  {
    if i >= |nodes| then None
    else if cs == [] then Some(i)
    else if nodes[i].kind != Dir then None
    else match Find(nodes[i].ents, cs[0])
         case None => None
         case Some(j) => Resolve(nodes, j, cs[1..])
  }

  /** All but the last component, which must lead to a directory. */
  function ResolveParent(nodes: seq<Node>, i: nat, cs: seq<string>): Option<nat> {
    if cs == [] then None
    else match Resolve(nodes, i, cs[..|cs| - 1])
         case None => None
         case Some(p) => if p < |nodes| && nodes[p].kind == Dir then Some(p) else None
  }

  /** What namei or nameiparent should answer. */
  function Answer(nodes: seq<Node>, parent: bool, i: nat, cs: seq<string>): Option<nat> {
    if parent then ResolveParent(nodes, i, cs) else Resolve(nodes, i, cs)
  }

  lemma Arrived(nodes: seq<Node>, parent: bool, i: nat)
    requires i < |nodes|
    ensures Answer(nodes, parent, i, []) == if parent then None else Some(i)
  {
  }

  lemma AtLast(nodes: seq<Node>, i: nat, cs: seq<string>)
    requires i < |nodes| && |cs| == 1
    ensures Answer(nodes, true, i, cs) == if nodes[i].kind == Dir then Some(i) else None
  {
    assert cs[..0] == [];
  }

  /** One component further. */
  lemma Onward(nodes: seq<Node>, parent: bool, i: nat, cs: seq<string>)
    requires i < |nodes| && cs != [] && (parent ==> |cs| >= 2)
    ensures Answer(nodes, parent, i, cs) ==
      (if nodes[i].kind != Dir || Find(nodes[i].ents, cs[0]).None? then None
       else Answer(nodes, parent, Find(nodes[i].ents, cs[0]).value, cs[1..]))
  {
    if parent {
      assert cs[..|cs| - 1][1..] == cs[1..][..|cs| - 2];
    }
  }

  lemma FoundInRange(nodes: seq<Node>, i: nat, name: string)
    requires InRange(nodes) && i < |nodes|
    ensures Find(nodes[i].ents, name).Some? ==> Find(nodes[i].ents, name).value < |nodes|
  {
  }

  /** The last component of what is left is the last of all. */
  ghost predicate SameLast(cs: seq<string>, all: seq<string>) {
    cs != [] ==> all != [] && cs[|cs| - 1] == all[|all| - 1]
  }

  lemma LastTail(cs: seq<string>, all: seq<string>)
    requires cs != [] && SameLast(cs, all)
    ensures SameLast(cs[1..], all) && (|cs| == 1 ==> all != [] && all[|all| - 1] == cs[0])
  {
  }

  /** Every entry names an inode of the disk. */
  ghost predicate InRange(nodes: seq<Node>) {
    forall d, k :: 0 <= d < |nodes| && 0 <= k < |nodes[d].ents| ==> nodes[d].ents[k].inum < |nodes|
  }

  /** Beyond base, one reference is held, to r, or none. */
  ghost predicate Holding(base: multiset<nat>, refs: multiset<nat>, r: Option<nat>) {
    refs == base + (if r.Some? then multiset{r.value} else multiset{})
  }

  /** The inode cache as a bag of references, over a fixed disk. */
  class Cache {
    const nodes: seq<Node>
    var refs: multiset<nat>

    /** iget and idup */
    method Get(i: nat)
      modifies this
      ensures refs == old(refs) + multiset{i}
    {
      refs := refs + multiset{i};
    }

    /** iput */
    method Put(i: nat)
      requires i in refs
      modifies this
      ensures refs == old(refs) - multiset{i}
    {
      refs := refs - multiset{i};
    }

    /** Drop the one reference held beyond base. */
    method Release(i: nat, ghost base: multiset<nat>)
      requires Holding(base, refs, Some(i))
      modifies this
      ensures Holding(base, refs, None)
    {
      Put(i);
    }

    /** namex's step: trade the reference to directory ip for one to what it calls name, or drop it. */
    method Descend(ip: nat, name: string, ghost base: multiset<nat>) returns (next: Option<nat>)
      requires InRange(nodes) && ip < |nodes| && Holding(base, refs, Some(ip))
      modifies this
      ensures next == Find(nodes[ip].ents, name) && (next.Some? ==> next.value < |nodes|)
      ensures Holding(base, refs, next)
    {
      FoundInRange(nodes, ip, name);
      hide Find, InRange;
      var slot;
      next, slot := Lookup(nodes[ip].ents, name);
      if next.Some? {
        Get(next.value);
      }
      Put(ip);
    }

    /** namex: what the fold says, holding one reference to the result and to nothing else taken on the way. */
    method Namex(path: string, parent: bool, cwd: nat) returns (r: Option<nat>, name: string)
      requires InRange(nodes) && cwd < |nodes| && ROOT < |nodes|
      modifies this
      ensures r == Answer(nodes, parent, if path != "" && path[0] == '/' then ROOT else cwd, Components(path, 0))
      ensures parent && r.Some? ==> Components(path, 0) != [] && name == Components(path, 0)[|Components(path, 0)| - 1]
      ensures Holding(old(refs), refs, r)
    {
      assert SameLast(Components(path, 0), Components(path, 0));
      var ip: nat := if path != "" && path[0] == '/' then ROOT else cwd;
      Get(ip);
      assert Holding(old(refs), refs, Some(ip));
      hide Components, Answer, Find, SameLast, InRange, Holding;
      ghost var start, all := ip, Components(path, 0);
      var at := 0;
      while true
        invariant at <= |path| && ip < |nodes| && Holding(old(refs), refs, Some(ip))
        invariant Answer(nodes, parent, ip, Components(path, at)) == Answer(nodes, parent, start, all)
        invariant SameLast(Components(path, at), all)
        decreases |path| - at
      {
        ghost var cs := Components(path, at);
        var rest;
        rest, name := SkipElem(path, at);
        if rest.None? {
          Arrived(nodes, parent, ip);
          break;
        }
        LastTail(cs, all);
        if parent && rest.value == |path| {
          AtLast(nodes, ip, cs);
        } else {
          Onward(nodes, parent, ip, cs);
        }
        if nodes[ip].kind != Dir {
          Release(ip, old(refs));
          return None, name;
        }
        if parent && rest.value == |path| {
          return Some(ip), name;
        }
        var next := Descend(ip, name, old(refs));
        if next.None? {
          return None, name;
        }
        ip := next.value;
        at := rest.value;
      }
      if parent {
        Release(ip, old(refs));
        return None, name;
      }
      return Some(ip), name;
    }
  }
}
