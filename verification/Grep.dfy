/** grep.c's matcher against a declarative meaning of its patterns. */
module Grep {

  /** A pattern element; in Star, as in a single element, '.' stands for any character. */
  datatype Item = One(c: char) | Star(c: char)

  predicate Fits(c: char, x: char) {
    c == '.' || c == x
  }

  /** A star follows a character; a lone '$' at the end is an anchor; everything else is itself. */
  function Body(re: string): seq<Item> {
    if re == "" || re == "$" then []
    else if |re| >= 2 && re[1] == '*' then [Star(re[0])] + Body(re[2..])
    else [One(re[0])] + Body(re[1..])
  }

  predicate EndAnchored(re: string) {
    if re == "" then false
    else if re == "$" then true
    else if |re| >= 2 && re[1] == '*' then EndAnchored(re[2..])
    else EndAnchored(re[1..])
  }

  /** The strings one element stands for. */
  predicate Means(item: Item, s: string) {
    match item
    case One(c) => |s| == 1 && Fits(c, s[0])
    case Star(c) => forall i :: 0 <= i < |s| ==> Fits(c, s[i])
  }

  /** s is the concatenation of strings its elements stand for. */
  ghost predicate Denotes(items: seq<Item>, s: string)
    decreases |items|
  {
    if items == [] then s == ""
    else exists k :: 0 <= k <= |s| && Means(items[0], s[..k]) && Denotes(items[1..], s[k..])
  }

  /** Some prefix of the text, the whole text if anchored at its end, is denoted. */
  ghost predicate StartsWith(items: seq<Item>, anchored: bool, text: string) {
    exists j :: 0 <= j <= |text| && Denotes(items, text[..j]) && (anchored ==> j == |text|)
  }

  ghost predicate Here(re: string, text: string) {
    StartsWith(Body(re), EndAnchored(re), text)
  }

  /** The pattern matches at some position, the first one if it begins with '^'. */
  ghost predicate Matches(re: string, text: string) {
    if re != "" && re[0] == '^' then Here(re[1..], text)
    else exists i :: 0 <= i <= |text| && Here(re, text[i..])
  }

  lemma NothingLeft(anchored: bool, text: string)
    ensures StartsWith([], anchored, text) <==> (anchored ==> text == "")
  {
    if anchored ==> text == "" {
      assert Denotes([], text[..0]);
    }
  }

  /** One character off the text for a single element. */
  lemma OneStep(c: char, items: seq<Item>, anchored: bool, text: string)
    ensures StartsWith([One(c)] + items, anchored, text) <==>
      text != "" && Fits(c, text[0]) && StartsWith(items, anchored, text[1..])
  {
    var all := [One(c)] + items;
    assert all[1..] == items;
    if StartsWith(all, anchored, text) {
      var j :| 0 <= j <= |text| && Denotes(all, text[..j]) && (anchored ==> j == |text|);
      var k := Split(all, text[..j]);
      assert |text[..j][..k]| == 1 && text[..j][..k][0] == text[0];
      assert k == 1 && j >= 1;
      assert text[..j][1..] == text[1..][..j - 1];
    }
    if text != "" && Fits(c, text[0]) && StartsWith(items, anchored, text[1..]) {
      var j :| 0 <= j <= |text| - 1 && Denotes(items, text[1..][..j]) && (anchored ==> j == |text| - 1);
      var s := text[..j + 1];
      assert s[1..] == text[1..][..j] && s[..1] == [text[0]];
      assert Means(all[0], s[..1]) && Denotes(all[1..], s[1..]);
      assert Denotes(all, s);
    }
  }

  lemma Join(items: seq<Item>, s: string, k: nat)
    requires items != [] && k <= |s| && Means(items[0], s[..k]) && Denotes(items[1..], s[k..])
    ensures Denotes(items, s)
  {
  }

  lemma Split(items: seq<Item>, s: string) returns (k: nat)
    requires items != [] && Denotes(items, s)
    ensures k <= |s| && Means(items[0], s[..k]) && Denotes(items[1..], s[k..])
  {
    k :| 0 <= k <= |s| && Means(items[0], s[..k]) && Denotes(items[1..], s[k..]);
  }

  lemma StarSkips(all: seq<Item>, anchored: bool, text: string)
    requires all != [] && all[0].Star? && StartsWith(all[1..], anchored, text)
    ensures StartsWith(all, anchored, text)
  {
    hide Denotes;
    var j :| 0 <= j <= |text| && Denotes(all[1..], text[..j]) && (anchored ==> j == |text|);
    assert text[..j][0..] == text[..j];
    Join(all, text[..j], 0);
  }

  lemma StarStays(all: seq<Item>, anchored: bool, text: string)
    requires all != [] && all[0].Star? && text != "" && Fits(all[0].c, text[0]) && StartsWith(all, anchored, text[1..])
    ensures StartsWith(all, anchored, text)
  {
    hide Denotes;
    var j :| 0 <= j <= |text| - 1 && Denotes(all, text[1..][..j]) && (anchored ==> j == |text| - 1);
    var t, s := text[1..][..j], text[..j + 1];
    var k := Split(all, t);
    assert s == [text[0]] + t;
    assert s[..k + 1] == [text[0]] + t[..k];
    assert s[k + 1..] == t[k..];
    Join(all, s, k + 1);
  }

  lemma StarTakes(all: seq<Item>, anchored: bool, text: string)
    requires all != [] && all[0].Star? && StartsWith(all, anchored, text)
    ensures StartsWith(all[1..], anchored, text) || (text != "" && Fits(all[0].c, text[0]) && StartsWith(all, anchored, text[1..]))
  {
    hide Denotes;
    var j :| 0 <= j <= |text| && Denotes(all, text[..j]) && (anchored ==> j == |text|);
    var s := text[..j];
    var k := Split(all, s);
    if k == 0 {
      assert s[0..] == s;
    } else {
      var t := text[1..][..j - 1];
      assert text[0] == s[..k][0] && t[..k - 1] == s[..k][1..] && t[k - 1..] == s[k..];
      Join(all, t, k - 1);
    }
  }

  /** A star takes nothing, or one character and stays. */
  lemma StarStep(c: char, items: seq<Item>, anchored: bool, text: string)
    ensures StartsWith([Star(c)] + items, anchored, text) <==>
      StartsWith(items, anchored, text) || (text != "" && Fits(c, text[0]) && StartsWith([Star(c)] + items, anchored, text[1..]))
  {
    hide StartsWith;
    var all := [Star(c)] + items;
    assert all[1..] == items;
    if StartsWith(all, anchored, text) {
      StarTakes(all, anchored, text);
    }
    if StartsWith(items, anchored, text) {
      StarSkips(all, anchored, text);
    }
    if text != "" && Fits(c, text[0]) && StartsWith(all, anchored, text[1..]) {
      StarStays(all, anchored, text);
    }
  }

  /** match */
  method Match(re: string, text: string) returns (found: bool)
    ensures found == Matches(re, text)
  {
    if re != "" && re[0] == '^' {
      found := MatchHere(re[1..], text);
      return;
    }
    var i := 0;
    while true
      invariant i <= |text| && forall k :: 0 <= k < i ==> !Here(re, text[k..])
      decreases |text| - i
    {
      found := MatchHere(re, text[i..]);
      if found {
        return;
      }
      if i == |text| {
        return;
      }
      i := i + 1;
    }
  }

  /** matchhere */
  method MatchHere(re: string, text: string) returns (found: bool)
    ensures found == Here(re, text)
    decreases |re|, |text| + 1
  {
    if re == "" {
      NothingLeft(false, text);
      return true;
    }
    if |re| >= 2 && re[1] == '*' {
      found := MatchStar(re[0], re[2..], text);
      return;
    }
    if re[0] == '$' && |re| == 1 {
      NothingLeft(true, text);
      return text == "";
    }
    OneStep(re[0], Body(re[1..]), EndAnchored(re[1..]), text);
    if text != "" && (re[0] == '.' || re[0] == text[0]) {
      found := MatchHere(re[1..], text[1..]);
      return;
    }
    return false;
  }

  /** matchstar */
  method MatchStar(c: char, re: string, text: string) returns (found: bool)
    ensures found == StartsWith([Star(c)] + Body(re), EndAnchored(re), text)
    decreases |re| + 1, |text|
  {
    ghost var all, anchored := [Star(c)] + Body(re), EndAnchored(re);
    var i := 0;
    while true
      invariant i <= |text|
      invariant StartsWith(all, anchored, text) == StartsWith(all, anchored, text[i..])
      decreases |text| - i
    {
      StarStep(c, Body(re), anchored, text[i..]);
      found := MatchHere(re, text[i..]);
      if found {
        return;
      }
      if i == |text| || !(text[i] == c || c == '.') {
        return;
      }
      assert text[i..][1..] == text[i + 1..];
      i := i + 1;
    }
  }
}
