/** sh.c's grammar on token lists, and a printed form that it parses back. */
module ShellGrammar {

  const MAXARGS: nat := 10

  /** What redircmd stores: reading on descriptor 0, or writing and creating on 1 (both > and >>). */
  datatype Mode = In | Out

  /** A parsed command; W is a word: text, or a span of the input buffer. */
  datatype Cmd<W> =
    | Exec(argv: seq<W>)
    | Redir(cmd: Cmd<W>, file: W, mode: Mode)
    | Pipe(left: Cmd<W>, right: Cmd<W>)
    | List(left: Cmd<W>, right: Cmd<W>)
    | Back(cmd: Cmd<W>)

  /** gettoken's results: a word, or a symbol; '+' stands for >>. */
  datatype Token = Word(w: string) | Sym(c: char)

  /** A command and the tokens left over, or the shell's panic. */
  datatype Result<W> = Ok(cmd: Cmd<W>, rest: seq<Token>) | Fail

  predicate Ahead(ts: seq<Token>, cs: string) {
    ts != [] && ts[0].Sym? && ts[0].c in cs
  }

  /** Redirections in the order written; the last one is outermost. */
  function Wrap<W>(c: Cmd<W>, reds: seq<(W, Mode)>): Cmd<W> {
    if reds == [] then c else Redir(Wrap(c, reds[..|reds| - 1]), reds[|reds| - 1].0, reds[|reds| - 1].1)
  }

  datatype Reds = Reds(reds: seq<(string, Mode)>, rest: seq<Token>) | NoFile

  /** parseredirs */
  function ParseRedirs(reds: seq<(string, Mode)>, ts: seq<Token>): (r: Reds)
    ensures r.Reds? ==> |r.rest| <= |ts| && !Ahead(r.rest, "<>+")
    decreases |ts|
  {
    if !Ahead(ts, "<>+") then Reds(reds, ts)
    else if |ts| < 2 || !ts[1].Word? then NoFile
    else ParseRedirs(reds + [(ts[1].w, if ts[0].c == '<' then In else Out)], ts[2..])
  }

  /** parseexec's loop, after argv and the redirections so far */
  function ParseArgs(argv: seq<string>, reds: seq<(string, Mode)>, ts: seq<Token>): (r: Result<string>)
    ensures r.Ok? ==> |r.rest| <= |ts|
    decreases |ts|
  {
    match ParseRedirs(reds, ts)
    case NoFile => Fail
    case Reds(more, rest) =>
      if rest == [] || Ahead(rest, "|)&;") then Ok(Wrap(Exec(argv), more), rest)
      else if rest[0].Sym? || |argv| + 1 >= MAXARGS then Fail
      else ParseArgs(argv + [rest[0].w], more, rest[1..])
  }

  /** parseexec and parseblock */
  function ParseExec(ts: seq<Token>): (r: Result<string>)
    ensures r.Ok? ==> |r.rest| <= |ts|
    decreases |ts|, 0
  {
    if !Ahead(ts, "(") then ParseArgs([], [], ts)
    else
      match ParseLine(ts[1..])
      case Fail => Fail
      case Ok(c, rest) =>
        if !Ahead(rest, ")") then Fail
        else match ParseRedirs([], rest[1..])
             case NoFile => Fail
             case Reds(reds, more) => Ok(Wrap(c, reds), more)
  }

  /** parsepipe */
  function ParsePipe(ts: seq<Token>): (r: Result<string>)
    ensures r.Ok? ==> |r.rest| <= |ts|
    decreases |ts|, 1
  {
    match ParseExec(ts)
    case Fail => Fail
    case Ok(c, rest) =>
      if !Ahead(rest, "|") then Ok(c, rest)
      else match ParsePipe(rest[1..])
           case Fail => Fail
           case Ok(d, more) => Ok(Pipe(c, d), more)
  }

  /** parseline's loop over & */
  function ParseBacks(c: Cmd<string>, ts: seq<Token>): (r: Result<string>)
    ensures r.Ok? && |r.rest| <= |ts| && !Ahead(r.rest, "&")
    decreases |ts|
  {
    if Ahead(ts, "&") then ParseBacks(Back(c), ts[1..]) else Ok(c, ts)
  }

  /** parseline */
  function ParseLine(ts: seq<Token>): (r: Result<string>)
    ensures r.Ok? ==> |r.rest| <= |ts|
    decreases |ts|, 2
  {
    match ParsePipe(ts)
    case Fail => Fail
    case Ok(c, rest) =>
      var b := ParseBacks(c, rest);
      if !Ahead(b.rest, ";") then b
      else match ParseLine(b.rest[1..])
           case Fail => Fail
           case Ok(d, more) => Ok(List(b.cmd, d), more)
  }

  /** parsecmd: a line and nothing after it */
  function Parse(ts: seq<Token>): Result<string> {
    var r := ParseLine(ts);
    if r.Ok? && r.rest != [] then Fail else r
  }

  function Words(argv: seq<string>): seq<Token> {
    if argv == [] then [] else [Word(argv[0])] + Words(argv[1..])
  }

  function RedirSym(m: Mode): Token {
    Sym(if m == In then '<' else '>')
  }

  /** How a command is written where parseexec reads it; everything but words and redirections is bracketed. */
  function PrintExec(c: Cmd<string>): seq<Token>
    decreases c, 1
  {
    match c
    case Exec(argv) => Words(argv)
    case Redir(d, file, mode) => PrintExec(d) + [RedirSym(mode), Word(file)]
    case _ => [Sym('(')] + Inner(c) + [Sym(')')]
  }

  /** What stands between the brackets. */
  function Inner(c: Cmd<string>): seq<Token>
    requires c.Pipe? || c.List? || c.Back?
    decreases c, 0
  {
    match c
    case Pipe(l, r) => PrintExec(l) + [Sym('|')] + PrintPipe(r)
    case List(l, r) => PrintBack(l) + [Sym(';')] + PrintLine(r)
    case Back(d) => PrintBack(d) + [Sym('&')]
  }

  /** Where parsepipe reads it. */
  function PrintPipe(c: Cmd<string>): seq<Token>
    decreases c, 2
  {
    if c.Pipe? then Inner(c) else PrintExec(c)
  }

  /** Before parseline's & loop is done. */
  function PrintBack(c: Cmd<string>): seq<Token>
    decreases c, 3
  {
    if c.Back? then Inner(c) else PrintPipe(c)
  }

  /** Where parseline reads it. */
  function PrintLine(c: Cmd<string>): seq<Token>
    decreases c, 4
  {
    if c.List? then Inner(c) else PrintBack(c)
  }

  /** No command has more than 9 arguments. */
  ghost predicate Small(c: Cmd<string>) {
    match c
    case Exec(argv) => |argv| < MAXARGS
    case Redir(d, _, _) => Small(d)
    case Pipe(l, r) => Small(l) && Small(r)
    case List(l, r) => Small(l) && Small(r)
    case Back(d) => Small(d)
  }

  predicate Stop(ts: seq<Token>, cs: string) {
    ts == [] || Ahead(ts, cs)
  }

  function RedTokens(reds: seq<(string, Mode)>): seq<Token> {
    if reds == [] then [] else [RedirSym(reds[0].1), Word(reds[0].0)] + RedTokens(reds[1..])
  }

  lemma {:induction false} RedsBack(reds0: seq<(string, Mode)>, reds: seq<(string, Mode)>, rest: seq<Token>)
    requires !Ahead(rest, "<>+")
    ensures ParseRedirs(reds0, RedTokens(reds) + rest) == Reds(reds0 + reds, rest)
    decreases |reds|
  {
    if reds == [] {
      assert reds0 + reds == reds0 && RedTokens(reds) + rest == rest;
    } else {
      hide ParseRedirs;
      Assoc([RedirSym(reds[0].1), Word(reds[0].0)], RedTokens(reds[1..]), rest);
      RedirFirst(reds0, reds[0], RedTokens(reds[1..]) + rest);
      RedsBack(reds0 + [reds[0]], reds[1..], rest);
      Shift(reds0, reds);
    }
  }

  lemma RedirFirst(reds0: seq<(string, Mode)>, red: (string, Mode), ts: seq<Token>)
    ensures ParseRedirs(reds0, [RedirSym(red.1), Word(red.0)] + ts) == ParseRedirs(reds0 + [red], ts)
  {
    assert ([RedirSym(red.1), Word(red.0)] + ts)[2..] == ts;
  }

  lemma Assoc<T>(a: seq<T>, b: seq<T>, c: seq<T>)
    ensures a + b + c == a + (b + c)
  {
  }

  lemma NilLeft<T>(a: seq<T>)
    ensures [] + a == a
  {
  }

  lemma Shift<T>(a: seq<T>, b: seq<T>)
    requires b != []
    ensures a + [b[0]] + b[1..] == a + b
  {
  }

  lemma OneWord(done: seq<string>, ts: seq<Token>)
    requires ts != [] && ts[0].Word? && |done| + 1 < MAXARGS
    ensures ParseArgs(done, [], ts) == ParseArgs(done + [ts[0].w], [], ts[1..])
  {
    assert ParseRedirs([], ts) == Reds([], ts);
    hide ParseRedirs;
  }

  lemma {:induction false} WordsBack(done: seq<string>, argv: seq<string>, ts: seq<Token>)
    requires |done| + |argv| < MAXARGS
    ensures ParseArgs(done, [], Words(argv) + ts) == ParseArgs(done + argv, [], ts)
    decreases |argv|
  {
    hide ParseArgs;
    if argv == [] {
      assert done + argv == done && Words(argv) + ts == ts;
    } else {
      var all := Words(argv) + ts;
      assert all[0] == Word(argv[0]) && all[1..] == Words(argv[1..]) + ts;
      OneWord(done, all);
      WordsBack(done + [argv[0]], argv[1..], ts);
      Shift(done, argv);
    }
  }

  /** The command under the redirections, and the redirections. */
  function Base(c: Cmd<string>): Cmd<string> {
    if c.Redir? then Base(c.cmd) else c
  }

  function RedsOf(c: Cmd<string>): seq<(string, Mode)> {
    if c.Redir? then RedsOf(c.cmd) + [(c.file, c.mode)] else []
  }

  lemma {:induction false} RedTokensAppend(reds: seq<(string, Mode)>, r: (string, Mode))
    ensures RedTokens(reds + [r]) == RedTokens(reds) + [RedirSym(r.1), Word(r.0)]
  {
    if reds == [] {
      assert reds + [r] == [r];
    } else {
      RedTokensAppend(reds[1..], r);
      assert (reds + [r])[1..] == reds[1..] + [r];
    }
  }

  lemma {:induction false} Unwrap(c: Cmd<string>)
    ensures !Base(c).Redir? && c == Wrap(Base(c), RedsOf(c)) && PrintExec(c) == PrintExec(Base(c)) + RedTokens(RedsOf(c))
    ensures Small(c) == Small(Base(c))
  {
    if c.Redir? {
      Unwrap(c.cmd);
      RedTokensAppend(RedsOf(c.cmd), (c.file, c.mode));
      assert RedsOf(c)[..|RedsOf(c)| - 1] == RedsOf(c.cmd);
    } else {
      assert PrintExec(c) + [] == PrintExec(c);
    }
  }

  lemma EndArgs(argv: seq<string>, reds: seq<(string, Mode)>, rest: seq<Token>)
    requires Stop(rest, "|)&;")
    ensures ParseArgs(argv, [], RedTokens(reds) + rest) == Ok(Wrap(Exec(argv), reds), rest)
  {
    RedsBack([], reds, rest);
    NilLeft(reds);
    hide ParseRedirs, Wrap, RedTokens;
  }

  lemma {:induction false} NoBracket(argv: seq<string>, reds: seq<(string, Mode)>, rest: seq<Token>)
    requires Stop(rest, "|)&;")
    ensures !Ahead(Words(argv) + RedTokens(reds) + rest, "(")
  {
    if argv != [] {
      assert (Words(argv) + RedTokens(reds) + rest)[0] == Word(argv[0]);
    } else if reds != [] {
      assert (Words(argv) + RedTokens(reds) + rest)[0] == RedirSym(reds[0].1);
    } else {
      assert Words(argv) + RedTokens(reds) + rest == rest;
    }
  }

  lemma ExecIsArgs(ts: seq<Token>)
    requires !Ahead(ts, "(")
    ensures ParseExec(ts) == ParseArgs([], [], ts)
  {
    hide ParseArgs, ParseLine, ParseRedirs;
  }

  /** Words, then redirections, then a stop. */
  lemma ArgsBack(argv: seq<string>, reds: seq<(string, Mode)>, rest: seq<Token>)
    requires |argv| < MAXARGS && Stop(rest, "|)&;")
    ensures ParseExec(Words(argv) + RedTokens(reds) + rest) == Ok(Wrap(Exec(argv), reds), rest)
  {
    NoBracket(argv, reds, rest);
    hide Words, RedTokens, Wrap, ParseArgs, ParseExec, Ahead;
    var ws, rs := Words(argv), RedTokens(reds);
    Assoc(ws, rs, rest);
    ExecIsArgs(ws + (rs + rest));
    WordsBack([], argv, rs + rest);
    NilLeft(argv);
    EndArgs(argv, reds, rest);
  }

  /** A bracketed line, then redirections. */
  lemma BlockBack(body: seq<Token>, c: Cmd<string>, reds: seq<(string, Mode)>, rest: seq<Token>)
    requires ParseLine(body) == Ok(c, [Sym(')')] + (RedTokens(reds) + rest)) && !Ahead(rest, "<>+")
    ensures ParseExec([Sym('(')] + body) == Ok(Wrap(c, reds), rest)
  {
    RedsBack([], reds, rest);
    NilLeft(reds);
    hide ParseLine, ParseRedirs, Wrap, RedTokens;
    var ts := [Sym('(')] + body;
    assert ts[1..] == body;
    var after := [Sym(')')] + (RedTokens(reds) + rest);
    assert after[1..] == RedTokens(reds) + rest;
  }

  lemma {:induction false} ExecBack(c: Cmd<string>, rest: seq<Token>)
    requires Small(c) && Stop(rest, "|)&;")
    ensures ParseExec(PrintExec(c) + rest) == Ok(c, rest)
    decreases c, 1
  {
    Unwrap(c);
    var b, reds := Base(c), RedsOf(c);
    if b.Exec? {
      ArgsBack(b.argv, reds, rest);
    } else {
      BaseSmaller(c);
      var tail := [Sym(')')] + (RedTokens(reds) + rest);
      InnerBack(b, tail);
      hide ParseExec, ParseLine, Wrap, Inner, RedTokens, RedsOf, Base;
      BlockBack(Inner(b) + tail, b, reds, rest);
      Brackets(Inner(b), RedTokens(reds), rest);
    }
  }

  lemma Brackets(body: seq<Token>, reds: seq<Token>, rest: seq<Token>)
    ensures [Sym('(')] + body + [Sym(')')] + reds + rest == [Sym('(')] + (body + ([Sym(')')] + (reds + rest)))
  {
  }

  lemma {:induction false} BaseSmaller(c: Cmd<string>)
    ensures Base(c) == c || Base(c) < c
  {
    if c.Redir? {
      BaseSmaller(c.cmd);
    }
  }

  /** What stands between brackets is read back by parseline. */
  lemma {:induction false} InnerBack(c: Cmd<string>, rest: seq<Token>)
    requires (c.Pipe? || c.List? || c.Back?) && Small(c) && Stop(rest, ")")
    ensures ParseLine(Inner(c) + rest) == Ok(c, rest)
    decreases c, 0
  {
    match c
    case Pipe(l, r) =>
      var tail := [Sym('|')] + (PrintPipe(r) + rest);
      assert Inner(c) + rest == PrintExec(l) + tail;
      ExecBack(l, tail);
      PipeBack(r, rest);
      assert tail[1..] == PrintPipe(r) + rest;
      hide ParseExec, PrintExec, PrintPipe, Inner;
      assert ParsePipe(PrintExec(l) + tail) == Ok(c, rest);
    case List(l, r) =>
      var tail := [Sym(';')] + (PrintLine(r) + rest);
      assert Inner(c) + rest == PrintBack(l) + tail;
      BackBack(l, tail);
      LineBack(r, rest);
      assert tail[1..] == PrintLine(r) + rest;
      hide ParsePipe, PrintBack, PrintLine, Inner;
    case Back(d) =>
      var tail := [Sym('&')] + rest;
      assert Inner(c) + rest == PrintBack(d) + tail;
      BackBack(d, tail);
      assert tail[1..] == rest;
      hide ParsePipe, PrintBack, Inner;
  }

  lemma {:induction false} PipeBack(c: Cmd<string>, rest: seq<Token>)
    requires Small(c) && Stop(rest, ")&;")
    ensures ParsePipe(PrintPipe(c) + rest) == Ok(c, rest)
    decreases c, 2
  {
    if c.Pipe? {
      var tail := [Sym('|')] + (PrintPipe(c.right) + rest);
      assert PrintPipe(c) + rest == PrintExec(c.left) + tail;
      ExecBack(c.left, tail);
      PipeBack(c.right, rest);
      assert tail[1..] == PrintPipe(c.right) + rest;
    } else {
      ExecBack(c, rest);
    }
    hide ParseExec, PrintExec;
  }

  /** Reading on from a command printed before its &s is the same as having read it. */
  lemma {:induction false} BackBack(c: Cmd<string>, rest: seq<Token>)
    requires Small(c) && Stop(rest, ")&;")
    ensures ParsePipe(PrintBack(c) + rest).Ok?
    ensures var r := ParsePipe(PrintBack(c) + rest); ParseBacks(r.cmd, r.rest) == ParseBacks(c, rest)
    decreases c, 3
  {
    if c.Back? {
      var tail := [Sym('&')] + rest;
      assert PrintBack(c) + rest == PrintBack(c.cmd) + tail;
      BackBack(c.cmd, tail);
      assert tail[1..] == rest;
      hide ParsePipe, PrintPipe;
    } else {
      PipeBack(c, rest);
    }
  }

  lemma {:induction false} LineBack(c: Cmd<string>, rest: seq<Token>)
    requires Small(c) && Stop(rest, ")")
    ensures ParseLine(PrintLine(c) + rest) == Ok(c, rest)
    decreases c, 4
  {
    if c.List? {
      InnerBack(c, rest);
    } else {
      BackBack(c, rest);
      hide ParsePipe, PrintBack;
    }
  }

  /** Every command tree with at most 9 arguments per command is what its printed form parses to. */
  lemma TokenRoundTrip(c: Cmd<string>)
    requires Small(c)
    ensures Parse(PrintLine(c)) == Ok(c, [])
  {
    LineBack(c, []);
    assert PrintLine(c) + [] == PrintLine(c);
  }

  // ---- words and redirections in any order ----

  /** An element of a simple command; `sym` is '<', '>' or '+' for >>. */
  datatype Item = Arg(w: string) | To(sym: char, file: string)

  function ItemTokens(items: seq<Item>): seq<Token> {
    if items == [] then []
    else (if items[0].Arg? then [Word(items[0].w)] else [Sym(items[0].sym), Word(items[0].file)]) + ItemTokens(items[1..])
  }

  /** The words, in order. */
  function ArgsOf(items: seq<Item>): seq<string> {
    if items == [] then [] else (if items[0].Arg? then [items[0].w] else []) + ArgsOf(items[1..])
  }

  /** The redirections, in order: reading for '<', writing for the others. */
  function FilesOf(items: seq<Item>): seq<(string, Mode)> {
    if items == [] then []
    else (if items[0].Arg? then [] else [(items[0].file, if items[0].sym == '<' then In else Out)]) + FilesOf(items[1..])
  }

  lemma OneRedir(argv: seq<string>, reds: seq<(string, Mode)>, c: char, file: string, ts: seq<Token>)
    requires c in "<>+"
    ensures ParseArgs(argv, reds, [Sym(c), Word(file)] + ts) == ParseArgs(argv, reds + [(file, if c == '<' then In else Out)], ts)
  {
    assert ([Sym(c), Word(file)] + ts)[2..] == ts;
  }

  lemma OneArg(argv: seq<string>, reds: seq<(string, Mode)>, w: string, ts: seq<Token>)
    ensures ParseArgs(argv, reds, [Word(w)] + ts) == if |argv| + 1 >= MAXARGS then Fail else ParseArgs(argv + [w], reds, ts)
  {
    assert ([Word(w)] + ts)[1..] == ts;
  }

  /** A simple command reads as all its words, before, between and after its redirections, under all its
      redirections in the order written; it fails exactly when it has ten words or more. */
  lemma {:induction false} AnyOrder(argv: seq<string>, reds: seq<(string, Mode)>, items: seq<Item>, rest: seq<Token>)
    requires Stop(rest, "|)&;") && (forall k :: 0 <= k < |items| && items[k].To? ==> items[k].sym in "<>+") && |argv| < MAXARGS
    ensures ParseArgs(argv, reds, ItemTokens(items) + rest) ==
      if |argv| + |ArgsOf(items)| < MAXARGS then Ok(Wrap(Exec(argv + ArgsOf(items)), reds + FilesOf(items)), rest) else Fail
    decreases |items|
  {
    hide Wrap, ParseArgs, ArgsOf, FilesOf, ItemTokens;
    ItemParts(argv, reds, items, rest);
    if items == [] {
      ArgsEnd(argv, reds, rest);
    } else {
      var tail := ItemTokens(items[1..]) + rest;
      if items[0].Arg? {
        OneArg(argv, reds, items[0].w, tail);
        if |argv| + 1 < MAXARGS {
          AnyOrder(argv + [items[0].w], reds, items[1..], rest);
        }
      } else {
        OneRedir(argv, reds, items[0].sym, items[0].file, tail);
        AnyOrder(argv, reds + [(items[0].file, if items[0].sym == '<' then In else Out)], items[1..], rest);
      }
    }
  }

  lemma ItemParts(argv: seq<string>, reds: seq<(string, Mode)>, items: seq<Item>, rest: seq<Token>)
    ensures items == [] ==> ItemTokens(items) + rest == rest && argv + ArgsOf(items) == argv && reds + FilesOf(items) == reds
    ensures items != [] && items[0].Arg? ==>
      && ItemTokens(items) + rest == [Word(items[0].w)] + (ItemTokens(items[1..]) + rest)
      && argv + ArgsOf(items) == (argv + [items[0].w]) + ArgsOf(items[1..]) && FilesOf(items) == FilesOf(items[1..])
      && |ArgsOf(items)| == 1 + |ArgsOf(items[1..])|
    ensures items != [] && items[0].To? ==>
      && ItemTokens(items) + rest == [Sym(items[0].sym), Word(items[0].file)] + (ItemTokens(items[1..]) + rest)
      && reds + FilesOf(items) == (reds + [(items[0].file, if items[0].sym == '<' then In else Out)]) + FilesOf(items[1..])
      && ArgsOf(items) == ArgsOf(items[1..])
  {
    ItemFirst(items);
    hide ItemTokens, ArgsOf, FilesOf;
    if items == [] {
    } else if items[0].Arg? {
      Assoc([Word(items[0].w)], ItemTokens(items[1..]), rest);
      Assoc(argv, [items[0].w], ArgsOf(items[1..]));
    } else {
      Assoc([Sym(items[0].sym), Word(items[0].file)], ItemTokens(items[1..]), rest);
      Assoc(reds, [(items[0].file, if items[0].sym == '<' then In else Out)], FilesOf(items[1..]));
    }
  }

  lemma ItemFirst(items: seq<Item>)
    ensures items == [] ==> ItemTokens(items) == [] && ArgsOf(items) == [] && FilesOf(items) == []
    ensures items != [] && items[0].Arg? ==>
      && ItemTokens(items) == [Word(items[0].w)] + ItemTokens(items[1..])
      && ArgsOf(items) == [items[0].w] + ArgsOf(items[1..]) && FilesOf(items) == FilesOf(items[1..])
    ensures items != [] && items[0].To? ==>
      && ItemTokens(items) == [Sym(items[0].sym), Word(items[0].file)] + ItemTokens(items[1..])
      && FilesOf(items) == [(items[0].file, if items[0].sym == '<' then In else Out)] + FilesOf(items[1..])
      && ArgsOf(items) == ArgsOf(items[1..])
  {
    assert items != [] && items[0].Arg? ==> [] + FilesOf(items[1..]) == FilesOf(items[1..]);
    assert items != [] && items[0].To? ==> [] + ArgsOf(items[1..]) == ArgsOf(items[1..]);
  }

  lemma ArgsEnd(argv: seq<string>, reds: seq<(string, Mode)>, rest: seq<Token>)
    requires Stop(rest, "|)&;")
    ensures ParseArgs(argv, reds, rest) == Ok(Wrap(Exec(argv), reds), rest)
  {
  }
}
