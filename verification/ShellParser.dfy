/** sh.c's recursive-descent parser: a position that only moves forward, words kept as spans of the buffer. */
module ShellParser {
  import opened Options
  import opened ShellGrammar
  import opened ShellLexer

  /** A word in the buffer: argv[i] and eargv[i], or file and efile. */
  datatype Span = Span(q: nat, eq: nat)

  function Sub(s: string, w: Span): string {
    if w.q <= w.eq <= |s| then s[w.q..w.eq] else ""
  }

  /** A word as gettoken delimits it: word characters up to one that is not, or to the end. */
  ghost predicate WordSpan(s: string, w: Span) {
    && w.q < w.eq <= |s| && (forall k :: w.q <= k < w.eq ==> WordChar(s[k]))
    && (w.eq < |s| ==> Space(s[w.eq]) || Symbol(s[w.eq]))
  }

  function Subs(s: string, ws: seq<Span>): (r: seq<string>)
    ensures |r| == |ws| && forall k :: 0 <= k < |ws| ==> r[k] == Sub(s, ws[k])
  {
    seq(|ws|, k requires 0 <= k < |ws| => Sub(s, ws[k]))
  }

  /** The command with its spans read as text. */
  function View(s: string, c: Cmd<Span>): Cmd<string> {
    match c
    case Exec(argv) => Exec(Subs(s, argv))
    case Redir(d, file, mode) => Redir(View(s, d), Sub(s, file), mode)
    case Pipe(l, r) => Pipe(View(s, l), View(s, r))
    case List(l, r) => List(View(s, l), View(s, r))
    case Back(d) => Back(View(s, d))
  }

  ghost predicate Spans(s: string, c: Cmd<Span>) {
    match c
    case Exec(argv) => forall k :: 0 <= k < |argv| ==> WordSpan(s, argv[k])
    case Redir(d, file, _) => Spans(s, d) && WordSpan(s, file)
    case Pipe(l, r) => Spans(s, l) && Spans(s, r)
    case List(l, r) => Spans(s, l) && Spans(s, r)
    case Back(d) => Spans(s, d)
  }

  function RedSubs(s: string, rs: seq<(Span, Mode)>): (r: seq<(string, Mode)>)
    ensures |r| == |rs| && forall k :: 0 <= k < |rs| ==> r[k] == (Sub(s, rs[k].0), rs[k].1)
  {
    seq(|rs|, k requires 0 <= k < |rs| => (Sub(s, rs[k].0), rs[k].1))
  }

  lemma {:induction false} WrapView(s: string, c: Cmd<Span>, rs: seq<(Span, Mode)>)
    requires Spans(s, c) && forall k :: 0 <= k < |rs| ==> WordSpan(s, rs[k].0)
    ensures View(s, Wrap(c, rs)) == Wrap(View(s, c), RedSubs(s, rs)) && Spans(s, Wrap(c, rs))
    decreases |rs|
  {
    if rs != [] {
      var init := rs[..|rs| - 1];
      WrapView(s, c, init);
      assert RedSubs(s, rs)[..|rs| - 1] == RedSubs(s, init);
    }
  }

  lemma RedSnoc(s: string, rs: seq<(Span, Mode)>, w: Span, mode: Mode)
    ensures RedSubs(s, rs + [(w, mode)]) == RedSubs(s, rs) + [(Sub(s, w), mode)]
  {
  }

  lemma RedStep(reds: seq<(string, Mode)>, ts: seq<Token>)
    requires |ts| >= 2 && Ahead(ts, "<>+") && ts[1].Word?
    ensures ParseRedirs(reds, ts) == ParseRedirs(reds + [(ts[1].w, if ts[0].c == '<' then In else Out)], ts[2..])
  {
  }

  lemma RedEnd(reds: seq<(string, Mode)>, ts: seq<Token>)
    ensures !Ahead(ts, "<>+") ==> ParseRedirs(reds, ts) == Reds(reds, ts)
    ensures Ahead(ts, "<>+") && (|ts| < 2 || !ts[1].Word?) ==> ParseRedirs(reds, ts).NoFile?
  {
  }

  /** Whether the character-level test of peek is the token-level one. */
  function Wide(cs: string): string {
    if '>' in cs then cs + "+" else cs
  }

  lemma PeekIsAhead(s: string, j: nat, cs: string)
    requires j <= |s| && (j < |s| ==> !Space(s[j])) && forall c :: c in cs ==> Symbol(c)
    ensures Ahead(TokensOf(s, j), Wide(cs)) <==> j < |s| && s[j] in cs
  {
    assert SkipSpace(s, j) == j;
    assert '+' !in cs by { assert !Symbol('+'); }
  }

  /** What gettoken returns for a token. */
  function TokenChar(t: Token): char {
    if t.Sym? then t.c else 'a'
  }

  lemma NoTokens(s: string)
    ensures TokensOf(s, |s|) == []
  {
  }

  lemma TokenHere(s: string, q: nat)
    requires q < |s| && !Space(s[q]) && Line(s)
    ensures TokensOf(s, q) == [TokenAt(s, q)] + TokensOf(s, TokenEnd(s, q))
    ensures var t := TokenAt(s, q); var w := Span(q, TokenEnd(s, q));
            && (t.Sym? ==> TokenChar(t) == t.c && t.c != 'a' && t.c != '\0')
            && (t.Word? ==> TokenChar(t) == 'a' && WordSpan(s, w) && Sub(s, w) == t.w)
  {
    assert SkipSpace(s, q) == q;
  }

  /** What a parsing routine reports: agreement with the grammar on the remaining tokens. */
  ghost predicate Agrees(s: string, r: Option<Cmd<Span>>, pos: nat, spec: Result<string>) {
    && pos <= |s| && (r.None? <==> spec.Fail?)
    && (r.Some? ==> spec.Ok? && View(s, r.value) == spec.cmd && Spans(s, r.value) && TokensOf(s, pos) == spec.rest)
  }

  class Parser {
    const s: string
    var pos: nat

    ghost predicate Valid()
      reads this
    {
      pos <= |s| && Line(s)
    }

    ghost function Rest(): seq<Token>
      requires Valid()
      reads this
    {
      TokensOf(s, pos)
    }

    constructor (s: string)
      requires Line(s)
      ensures Valid() && this.s == s && pos == 0
    {
      this.s := s;
      pos := 0;
    }

    /** The loop over whitespace in gettoken and peek. */
    method Skip()
      requires Valid()
      modifies this
      ensures Valid() && pos == SkipSpace(s, old(pos)) && Rest() == old(Rest())
    {
      while pos < |s| && Space(s[pos])
        invariant Valid() && old(pos) <= pos && SkipSpace(s, pos) == SkipSpace(s, old(pos))
        invariant forall k :: old(pos) <= k < pos ==> Space(s[k])
      {
        pos := pos + 1;
      }
      SameTokens(s, old(pos), pos);
    }

    /** peek */
    method Peek(cs: string) returns (r: bool)
      requires Valid() && forall c :: c in cs ==> Symbol(c)
      modifies this
      ensures Valid() && Rest() == old(Rest()) && r == Ahead(Rest(), Wide(cs)) && (Rest() == [] <==> pos == |s|)
    {
      Skip();
      r := pos < |s| && s[pos] in cs;
      PeekIsAhead(s, pos, cs);
    }

    /** gettoken's loop over the characters of a word. */
    method WordRun()
      requires Valid()
      modifies this
      ensures Valid() && pos == WordEnd(s, old(pos))
    {
      while pos < |s| && !Space(s[pos]) && !Symbol(s[pos])
        invariant Valid() && old(pos) <= pos && WordEnd(s, pos) == WordEnd(s, old(pos))
      {
        pos := pos + 1;
      }
    }

    /** gettoken's switch on the first character of a token. */
    method OneToken() returns (tok: char)
      requires Valid() && pos < |s| && !Space(s[pos])
      modifies this
      ensures Valid() && pos == TokenEnd(s, old(pos)) && tok == TokenChar(TokenAt(s, old(pos)))
    {
      if s[pos] == '>' {
        tok := '>';
        pos := pos + 1;
        if pos < |s| && s[pos] == '>' {
          tok := '+';
          pos := pos + 1;
        }
      } else if Symbol(s[pos]) {
        tok := s[pos];
        pos := pos + 1;
      } else {
        tok := 'a';
        WordRun();
      }
    }

    /** gettoken: 0 at the end, 'a' for a word, the symbol otherwise. */
    method GetToken() returns (tok: char, w: Span)
      requires Valid()
      modifies this
      ensures Valid()
      ensures old(Rest()) == [] ==> tok == '\0' && Rest() == []
      ensures old(Rest()) != [] ==> Rest() == old(Rest())[1..]
      ensures old(Rest()) != [] && old(Rest())[0].Sym? ==> tok == old(Rest())[0].c && tok != 'a' && tok != '\0'
      ensures old(Rest()) != [] && old(Rest())[0].Word? ==> tok == 'a' && WordSpan(s, w) && Sub(s, w) == old(Rest())[0].w
    {
      hide TokensOf, TokenEnd, TokenAt, TokenChar, WordSpan, Sub, SkipSpace;
      Skip();
      var q := pos;
      if pos == |s| {
        NoTokens(s);
        return '\0', Span(q, q);
      }
      TokenHere(s, q);
      tok := OneToken();
      w := Span(q, pos);
      Skip();
    }

    /** parseredirs */
    method Redirs(reds: seq<(Span, Mode)>) returns (r: Option<seq<(Span, Mode)>>)
      requires Valid() && forall k :: 0 <= k < |reds| ==> WordSpan(s, reds[k].0)
      modifies this
      ensures Valid()
      ensures var spec := ParseRedirs(RedSubs(s, reds), old(Rest()));
        && (r.None? <==> spec.NoFile?)
        && (r.Some? ==> RedSubs(s, r.value) == spec.reds && Rest() == spec.rest && forall k :: 0 <= k < |r.value| ==> WordSpan(s, r.value[k].0))
    {
      hide TokensOf, ParseRedirs;
      var rs := reds;
      while true
        invariant Valid() && (forall k :: 0 <= k < |rs| ==> WordSpan(s, rs[k].0))
        invariant ParseRedirs(RedSubs(s, rs), Rest()) == ParseRedirs(RedSubs(s, reds), old(Rest()))
        decreases |Rest()|
      {
        var more := Peek("<>");
        ghost var ts := Rest();
        RedEnd(RedSubs(s, rs), ts);
        if !more {
          return Some(rs);
        }
        var tok, _ := GetToken();
        var kind, w := GetToken();
        if kind != 'a' {
          assert |ts| < 2 || !ts[1].Word?;
          return None;
        }
        ghost var before := rs;
        var mode := if tok == '<' then In else Out;
        rs := rs + [(w, mode)];
        RedSnoc(s, before, w, mode);
        RedStep(RedSubs(s, before), ts);
        assert ts[2..] == ts[1..][1..];
      }
    }

    /** parseexec, when no bracket is ahead */
    method Args() returns (r: Option<Cmd<Span>>)
      requires Valid()
      modifies this
      ensures Valid() && Agrees(s, r, pos, ParseArgs([], [], old(Rest())))
    {
      hide TokensOf, ParseRedirs;
      var argv: seq<Span>, reds: seq<(Span, Mode)> := [], [];
      assert Subs(s, argv) == [] && RedSubs(s, reds) == [];
      while true
        invariant Valid() && (forall k :: 0 <= k < |argv| ==> WordSpan(s, argv[k])) && (forall k :: 0 <= k < |reds| ==> WordSpan(s, reds[k].0))
        invariant ParseArgs(Subs(s, argv), RedSubs(s, reds), Rest()) == ParseArgs([], [], old(Rest()))
        decreases |Rest()|
      {
        var m := Redirs(reds);
        if m.None? {
          return None;
        }
        reds := m.value;
        var stop := Peek("|)&;");
        ghost var ts := Rest();
        if stop {
          WrapView(s, Exec(argv), reds);
          return Some(Wrap(Exec(argv), reds));
        }
        var tok, w := GetToken();
        if tok == '\0' {
          WrapView(s, Exec(argv), reds);
          return Some(Wrap(Exec(argv), reds));
        }
        if tok != 'a' || |argv| + 1 >= MAXARGS {
          return None;
        }
        ghost var before := argv;
        argv := argv + [w];
        assert Subs(s, argv) == Subs(s, before) + [ts[0].w];
      }
    }

    /** parseexec and parseblock */
    method ExecOrBlock() returns (r: Option<Cmd<Span>>)
      requires Valid()
      modifies this
      ensures Valid() && Agrees(s, r, pos, ParseExec(old(Rest())))
      decreases |Rest()|, 0
    {
      hide TokensOf, ParseRedirs, ParseArgs, ParsePipe;
      var block := Peek("(");
      if !block {
        r := Args();
        return;
      }
      var _, _ := GetToken();
      r := LineCmd();
      if r.None? {
        return;
      }
      var closed := Peek(")");
      if !closed {
        return None;
      }
      var _, _ := GetToken();
      assert RedSubs(s, []) == [];
      var m := Redirs([]);
      if m.None? {
        return None;
      }
      WrapView(s, r.value, m.value);
      r := Some(Wrap(r.value, m.value));
    }

    /** parsepipe */
    method PipeCmd() returns (r: Option<Cmd<Span>>)
      requires Valid()
      modifies this
      ensures Valid() && Agrees(s, r, pos, ParsePipe(old(Rest())))
      decreases |Rest()|, 1
    {
      hide TokensOf, ParseExec;
      r := ExecOrBlock();
      if r.None? {
        return;
      }
      var more := Peek("|");
      if more {
        var _, _ := GetToken();
        var right := PipeCmd();
        if right.None? {
          return None;
        }
        r := Some(Pipe(r.value, right.value));
      }
    }

    /** parseline */
    method LineCmd() returns (r: Option<Cmd<Span>>)
      requires Valid()
      modifies this
      ensures Valid() && Agrees(s, r, pos, ParseLine(old(Rest())))
      decreases |Rest()|, 2
    {
      hide TokensOf, ParsePipe;
      r := PipeCmd();
      if r.None? {
        return;
      }
      ghost var first, after := View(s, r.value), Rest();
      var c := r.value;
      var more := Peek("&");
      while more
        invariant Valid() && Spans(s, c) && more == Ahead(Rest(), "&")
        invariant |Rest()| <= |old(Rest())| && ParseBacks(View(s, c), Rest()) == ParseBacks(first, after)
        decreases |Rest()|
      {
        var _, _ := GetToken();
        c := Back(c);
        more := Peek("&");
      }
      more := Peek(";");
      if more {
        var _, _ := GetToken();
        var right := LineCmd();
        if right.None? {
          return None;
        }
        return Some(List(c, right.value));
      }
      return Some(c);
    }
  }

  /** Where nulterminate writes. */
  function Ends(c: Cmd<Span>): set<nat> {
    match c
    case Exec(argv) => set k | 0 <= k < |argv| :: argv[k].eq
    case Redir(d, file, _) => Ends(d) + {file.eq}
    case Pipe(l, r) => Ends(l) + Ends(r)
    case List(l, r) => Ends(l) + Ends(r)
    case Back(d) => Ends(d)
  }

  /** w is an argument or a file name of c. */
  ghost predicate Has(c: Cmd<Span>, w: Span) {
    match c
    case Exec(argv) => w in argv
    case Redir(d, file, _) => w == file || Has(d, w)
    case Pipe(l, r) => Has(l, w) || Has(r, w)
    case List(l, r) => Has(l, w) || Has(r, w)
    case Back(d) => Has(d, w)
  }

  lemma {:induction false} HasSpan(s: string, c: Cmd<Span>, w: Span)
    requires Spans(s, c) && Has(c, w)
    ensures WordSpan(s, w) && w.eq in Ends(c)
  {
    match c
    case Exec(argv) =>
      var k :| 0 <= k < |argv| && argv[k] == w;
      assert argv[k].eq in Ends(c);
    case Redir(d, file, _) => if w != file { HasSpan(s, d, w); }
    case Pipe(l, r) => if Has(l, w) { HasSpan(s, l, w); } else { HasSpan(s, r, w); }
    case List(l, r) => if Has(l, w) { HasSpan(s, l, w); } else { HasSpan(s, r, w); }
    case Back(d) => HasSpan(s, d, w);
  }

  /** No word ends inside a word. */
  lemma {:induction false} EndsOutside(s: string, c: Cmd<Span>, e: nat)
    requires Spans(s, c) && e in Ends(c)
    ensures e <= |s| && (e < |s| ==> !WordChar(s[e]))
  {
    match c
    case Exec(argv) =>
      var k :| 0 <= k < |argv| && argv[k].eq == e;
      assert WordSpan(s, argv[k]);
    case Redir(d, file, _) => if e != file.eq { EndsOutside(s, d, e); }
    case Pipe(l, r) => if e in Ends(l) { EndsOutside(s, l, e); } else { EndsOutside(s, r, e); }
    case List(l, r) => if e in Ends(l) { EndsOutside(s, l, e); } else { EndsOutside(s, r, e); }
    case Back(d) => EndsOutside(s, d, e);
  }

  /** At q the buffer holds the C string w. */
  ghost predicate CString(b: seq<char>, q: nat, w: string) {
    q + |w| < |b| && b[q..q + |w|] == w && b[q + |w|] == '\0' && forall k :: 0 <= k < |w| ==> w[k] != '\0'
  }

  /** The terminators cut every word off exactly at its end and damage none. */
  lemma Terminated(s: string, b: seq<char>, c: Cmd<Span>, w: Span)
    requires Spans(s, c) && Has(c, w) && |s| < |b|
    requires forall k :: 0 <= k < |b| && k in Ends(c) ==> b[k] == '\0'
    requires forall k :: 0 <= k < |s| && k !in Ends(c) ==> b[k] == s[k]
    ensures CString(b, w.q, Sub(s, w))
  {
    HasSpan(s, c, w);
    forall k | w.q <= k < w.eq ensures b[k] == s[k] {
      assert WordChar(s[k]);
      if k in Ends(c) {
        EndsOutside(s, c, k);
      }
    }
    assert b[w.q..w.eq] == s[w.q..w.eq];
  }

  /** nulterminate */
  method Nulterminate(buf: array<char>, c: Cmd<Span>, ghost s: string)
    requires Spans(s, c) && |s| < buf.Length
    modifies buf
    ensures forall k :: 0 <= k < buf.Length ==> buf[k] == if k in Ends(c) then '\0' else old(buf[k])
  {
    match c
    case Exec(argv) =>
      var i := 0;
      while i < |argv|
        invariant 0 <= i <= |argv|
        invariant forall k :: 0 <= k < buf.Length ==>
          buf[k] == if k in (set j | 0 <= j < i :: argv[j].eq) then '\0' else old(buf[k])
      {
        assert WordSpan(s, argv[i]);
        buf[argv[i].eq] := '\0';
        i := i + 1;
      }
    case Redir(d, file, _) =>
      Nulterminate(buf, d, s);
      buf[file.eq] := '\0';
    case Pipe(l, r) =>
      Nulterminate(buf, l, s);
      Nulterminate(buf, r, s);
    case List(l, r) =>
      Nulterminate(buf, l, s);
      Nulterminate(buf, r, s);
    case Back(d) =>
      Nulterminate(buf, d, s);
  }

  /** parsecmd: the tree of the grammar, every word of it a C string in the buffer; None is a panic. */
  method ParseCmd(buf: array<char>, n: nat) returns (r: Option<Cmd<Span>>)
    requires n < buf.Length && buf[n] == '\0' && forall k :: 0 <= k < n ==> buf[k] != '\0'
    modifies buf
    ensures var spec := Parse(TokensOf(old(buf[..n]), 0));
      && (r.None? <==> spec.Fail?)
      && (r.Some? ==> spec.Ok? && View(old(buf[..n]), r.value) == spec.cmd)
    ensures r.Some? ==> forall w :: Has(r.value, w) ==> CString(buf[..], w.q, Sub(old(buf[..n]), w))
  {
    var s := buf[..n];
    var p := new Parser(s);
    r := p.LineCmd();
    if r.None? {
      return;
    }
    hide TokensOf, ParseLine, View;
    var _ := p.Peek("");
    if p.pos != |s| {
      return None;
    }
    Nulterminate(buf, r.value, s);
    forall w | Has(r.value, w) ensures CString(buf[..], w.q, Sub(s, w)) {
      Terminated(s, buf[..], r.value, w);
    }
  }
}
