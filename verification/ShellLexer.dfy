/** sh.c's gettoken, on strings: where tokens begin and end. */
module ShellLexer {
  import opened ShellGrammar

  predicate Space(c: char) {
    c == ' ' || c == '\t' || c == '\r' || c == '\n' || c == 11 as char
  }

  predicate Symbol(c: char) {
    c in "<|>&;()"
  }

  predicate WordChar(c: char) {
    !Space(c) && !Symbol(c) && c != '\0'
  }

  /** The contents of a C string. */
  ghost predicate Line(s: string) {
    forall i :: 0 <= i < |s| ==> s[i] != '\0'
  }

  function SkipSpace(s: string, i: nat): (j: nat)
    requires i <= |s|
    ensures i <= j <= |s| && (j < |s| ==> !Space(s[j])) && forall k :: i <= k < j ==> Space(s[k])
    decreases |s| - i
  {
    if i < |s| && Space(s[i]) then SkipSpace(s, i + 1) else i
  }

  function WordEnd(s: string, i: nat): (j: nat)
    requires i <= |s|
    ensures i <= j <= |s| && (j < |s| ==> Space(s[j]) || Symbol(s[j])) && forall k :: i <= k < j ==> !Space(s[k]) && !Symbol(s[k])
    decreases |s| - i
  {
    if i < |s| && !Space(s[i]) && !Symbol(s[i]) then WordEnd(s, i + 1) else i
  }

  /** Where the token that starts at j ends, and which token it is. */
  function TokenEnd(s: string, j: nat): (e: nat)
    requires j < |s| && !Space(s[j])
    ensures j < e <= |s|
  {
    if s[j] == '>' && j + 1 < |s| && s[j + 1] == '>' then j + 2
    else if Symbol(s[j]) then j + 1
    else WordEnd(s, j)
  }

  function TokenAt(s: string, j: nat): Token
    requires j < |s| && !Space(s[j])
  {
    if s[j] == '>' && j + 1 < |s| && s[j + 1] == '>' then Sym('+')
    else if Symbol(s[j]) then Sym(s[j])
    else Word(s[j..WordEnd(s, j)])
  }

  /** The tokens from position i on. */
  function TokensOf(s: string, i: nat): seq<Token>
    requires i <= |s|
    decreases |s| - i
  {
    var j := SkipSpace(s, i);
    if j == |s| then [] else [TokenAt(s, j)] + TokensOf(s, TokenEnd(s, j))
  }

  lemma {:induction false} SkipTwice(s: string, i: nat, j: nat)
    requires i <= j <= |s| && forall k :: i <= k < j ==> Space(s[k])
    ensures SkipSpace(s, i) == SkipSpace(s, j)
    decreases j - i
  {
    if i < j {
      SkipTwice(s, i + 1, j);
    }
  }

  /** Spaces before a token do not matter. */
  lemma SameTokens(s: string, i: nat, j: nat)
    requires i <= j <= |s| && forall k :: i <= k < j ==> Space(s[k])
    ensures TokensOf(s, i) == TokensOf(s, j)
  {
    SkipTwice(s, i, j);
  }

  /** A token that can be written down: a word of word characters, or a symbol of the grammar. */
  predicate Plain(t: Token) {
    match t
    case Word(w) => w != "" && forall i :: 0 <= i < |w| ==> WordChar(w[i])
    case Sym(c) => Symbol(c) || c == '+'
  }

  function Text(t: Token): string {
    if t.Word? then t.w else if t.c == '+' then ">>" else [t.c]
  }

  /** Tokens written out, each followed by a space. */
  function Render(ts: seq<Token>): string {
    if ts == [] then "" else Text(ts[0]) + " " + Render(ts[1..])
  }

  ghost predicate AllPlain(ts: seq<Token>) {
    forall k :: 0 <= k < |ts| ==> Plain(ts[k])
  }

  lemma {:induction false} WordEndIs(s: string, i: nat, e: nat)
    requires i <= e <= |s| && (e < |s| ==> Space(s[e]) || Symbol(s[e])) && forall k :: i <= k < e ==> !Space(s[k]) && !Symbol(s[k])
    ensures WordEnd(s, i) == e
    decreases e - i
  {
    if i < e {
      WordEndIs(s, i + 1, e);
    }
  }

  /** The token written at i, followed by a space, is found there. */
  lemma FirstToken(s: string, i: nat, t: Token)
    requires i <= |s| && Plain(t) && |Text(t)| < |s| - i && s[i..i + |Text(t)|] == Text(t) && s[i + |Text(t)|] == ' '
    ensures !Space(s[i]) && TokenAt(s, i) == t && TokenEnd(s, i) == i + |Text(t)|
  {
    var e := i + |Text(t)|;
    assert forall k :: i <= k < e ==> s[k] == Text(t)[k - i];
    if t.Word? {
      assert WordChar(t.w[0]);
      WordEndIs(s, i, e);
    }
  }

  lemma Pieces(s: string, i: nat, a: string, rest: string)
    requires i <= |s| && s[i..] == a + " " + rest
    ensures |a| < |s| - i && s[i..i + |a|] == a && s[i + |a|] == ' ' && s[i + |a| + 1..] == rest
  {
    var t := s[i..];
    assert s[i..i + |a|] == t[..|a|];
    assert s[i + |a|] == t[|a|];
    assert s[i + |a| + 1..] == t[|a| + 1..];
  }

  /** Lexing finds again what was rendered. */
  lemma {:induction false} Lexed(s: string, i: nat, ts: seq<Token>)
    requires i <= |s| && s[i..] == Render(ts) && AllPlain(ts)
    ensures TokensOf(s, i) == ts
    decreases |ts|
  {
    hide Text, Plain, Render, TokensOf, TokenAt, TokenEnd;
    if ts == [] {
      NothingWritten(s, i);
    } else {
      var e := i + |Text(ts[0])|;
      RenderFirst(ts);
      Pieces(s, i, Text(ts[0]), Render(ts[1..]));
      FirstToken(s, i, ts[0]);
      Lexed(s, e + 1, ts[1..]);
      SameTokens(s, e, e + 1);
      TokensFirst(s, i);
    }
  }

  lemma RenderFirst(ts: seq<Token>)
    requires ts != []
    ensures Render(ts) == Text(ts[0]) + " " + Render(ts[1..])
  {
  }

  lemma NothingWritten(s: string, i: nat)
    requires i <= |s| && s[i..] == Render([])
    ensures TokensOf(s, i) == []
  {
    assert |s[i..]| == 0;
  }

  lemma TokensFirst(s: string, i: nat)
    requires i < |s| && !Space(s[i])
    ensures TokensOf(s, i) == [TokenAt(s, i)] + TokensOf(s, TokenEnd(s, i))
  {
  }

  /** The words of a command are plain. */
  ghost predicate PlainWords(c: Cmd<string>) {
    match c
    case Exec(argv) => forall k :: 0 <= k < |argv| ==> Plain(Word(argv[k]))
    case Redir(d, file, _) => PlainWords(d) && Plain(Word(file))
    case Pipe(l, r) => PlainWords(l) && PlainWords(r)
    case List(l, r) => PlainWords(l) && PlainWords(r)
    case Back(d) => PlainWords(d)
  }

  lemma {:induction false} PlainTokens(argv: seq<string>)
    requires forall k :: 0 <= k < |argv| ==> Plain(Word(argv[k]))
    ensures AllPlain(Words(argv))
  {
    if argv != [] {
      PlainTokens(argv[1..]);
    }
  }

  lemma PlainSymbols()
    ensures forall c :: c in "<|>&;()+" ==> Plain(Sym(c))
  {
  }

  lemma {:induction false} PlainPrint(c: Cmd<string>)
    requires PlainWords(c)
    ensures AllPlain(PrintExec(c)) && AllPlain(PrintPipe(c)) && AllPlain(PrintBack(c)) && AllPlain(PrintLine(c))
  {
    PlainSymbols();
    hide Plain;
    match c
    case Exec(argv) => PlainTokens(argv);
    case Redir(d, _, _) => PlainPrint(d);
    case Pipe(l, r) => PlainPrint(l); PlainPrint(r);
    case List(l, r) => PlainPrint(l); PlainPrint(r);
    case Back(d) => PlainPrint(d);
  }

  /** For every command tree of plain words and small commands, parsing its printed line gives it back. */
  lemma RoundTrip(c: Cmd<string>)
    requires Small(c) && PlainWords(c)
    ensures Parse(TokensOf(Render(PrintLine(c)), 0)) == Ok(c, [])
  {
    PlainPrint(c);
    assert Render(PrintLine(c))[0..] == Render(PrintLine(c));
    Lexed(Render(PrintLine(c)), 0, PrintLine(c));
    TokenRoundTrip(c);
  }

  predicate PlainItem(item: Item) {
    match item
    case Arg(w) => Plain(Word(w))
    case To(sym, file) => sym in "<>+" && Plain(Word(file))
  }

  lemma {:induction false} ItemsPlain(items: seq<Item>)
    requires forall k :: 0 <= k < |items| ==> PlainItem(items[k])
    ensures AllPlain(ItemTokens(items)) && !Ahead(ItemTokens(items), "(")
  {
    if items != [] {
      ItemsPlain(items[1..]);
    }
  }

  /** The line `ls > f -l >> g` and its like: words and redirections in any order, as text. */
  lemma SimpleLine(items: seq<Item>)
    requires forall k :: 0 <= k < |items| ==> PlainItem(items[k])
    ensures Parse(TokensOf(Render(ItemTokens(items)), 0)) ==
      if |ArgsOf(items)| < MAXARGS then Ok(Wrap(Exec(ArgsOf(items)), FilesOf(items)), []) else Fail
  {
    hide ParseArgs, Wrap, ArgsOf, FilesOf, ItemTokens, TokensOf, Render, Plain;
    var ts := ItemTokens(items);
    ItemsPlain(items);
    assert Render(ts)[0..] == Render(ts);
    Lexed(Render(ts), 0, ts);
    AnyOrder([], [], items, []);
    assert ts + [] == ts && [] + ArgsOf(items) == ArgsOf(items) && [] + FilesOf(items) == FilesOf(items);
    NoBracket(ts);
  }

  lemma NoBracket(ts: seq<Token>)
    requires !Ahead(ts, "(") && (ParseArgs([], [], ts).Ok? ==> ParseArgs([], [], ts).rest == [])
    ensures Parse(ts) == ParseArgs([], [], ts)
  {
    assert ParseExec(ts) == ParseArgs([], [], ts);
    hide ParseArgs, ParseExec;
    assert ParsePipe(ts) == ParseExec(ts);
    hide ParsePipe;
    assert ParseLine(ts) == ParsePipe(ts);
    hide ParseLine;
  }
}
