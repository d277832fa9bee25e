/**
 * The trees the shell's parser can give are exactly the well-formed ones, and printing one and parsing
 * the result gives it back.
 */
module ShellProofs {
  import opened ShellSpec

  predicate GoodToken(t: Token) {
    match t
    case Word(w) => GoodWord(w)
    case Sym(c) => Symbol(c)
    case Append => true
  }

  predicate GoodTokens(toks: seq<Token>) {
    forall i | 0 <= i < |toks| :: GoodToken(toks[i])
  }

  // ------------------------------------------------------------------ tokens and text

  lemma {:induction false} LexGood(text: string, s: nat)
    requires s <= |text| && NUL !in text
    ensures GoodTokens(Lex(text, s))
    decreases |text| - s
  {
    var q := SkipWhite(text, s);
    if q < |text| {
      LexGood(text, TokenEnd(text, q));
      if !Symbol(text[q]) {
        assert GoodWord(text[q..WordEnd(text, q)]);
      }
    }
  }

  lemma {:induction false} WordEndAt(text: string, s: nat, e: nat)
    requires s <= e < |text| && !WordChar(text[e]) && forall i | s <= i < e :: WordChar(text[i])
    ensures WordEnd(text, s) == e
    decreases e - s
  {
    if s < e {
      WordEndAt(text, s + 1, e);
    }
  }

  lemma LexWhite(text: string, s: nat)
    requires s < |text| && White(text[s])
    ensures Lex(text, s) == Lex(text, s + 1)
  {
  }

  lemma LexStep(text: string, s: nat)
    requires s < |text| && !White(text[s])
    ensures Lex(text, s) == [TokenAt(text, s)] + Lex(text, TokenEnd(text, s))
  {
  }

  /** A token in front and the tokens behind it make the tokens of the text. */
  lemma LexCons(pre: string, t: Token, post: string, toks: seq<Token>)
    requires GoodToken(t) && t != Append && Lex(pre + Spell(t) + " " + post, |pre + Spell(t)| + 1) == toks
    ensures Lex(pre + Spell(t) + " " + post, |pre|) == [t] + toks
  {
    LexFirst(pre, t, post);
    hide Lex, TokenAt, TokenEnd, Spell, GoodToken;
    var text := pre + Spell(t) + " " + post;
    assert text[|pre + Spell(t)|] == ' ';
    LexWhite(text, |pre + Spell(t)|);
    LexStep(text, |pre|);
  }

  /** Tokens written out with blanks between them are read back. */
  lemma {:induction false} LexRender(pre: string, toks: seq<Token>)
    requires GoodTokens(toks) && Append !in toks
    ensures Lex(pre + Render(toks), |pre|) == toks
    decreases |toks|
  {
    hide Lex, Spell, GoodToken;
    if toks == [] {
      LexEnd(pre + Render(toks));
    } else {
      var t, post := Spell(toks[0]), Render(toks[1..]);
      assert pre + Render(toks) == pre + t + " " + post;
      LexRender(pre + t + " ", toks[1..]);
      assert |pre + t + " "| == |pre + t| + 1;
      LexCons(pre, toks[0], post, toks[1..]);
    }
  }

  lemma LexEnd(text: string)
    ensures Lex(text, |text|) == []
  {
  }

  lemma LexFirst(pre: string, t: Token, post: string)
    requires GoodToken(t) && t != Append
    ensures var text := pre + Spell(t) + " " + post;
            && !White(text[|pre|])
            && TokenAt(text, |pre|) == t && TokenEnd(text, |pre|) == |pre + Spell(t)|
  {
    var text := pre + Spell(t) + " " + post;
    var e := |pre + Spell(t)|;
    assert text[e] == ' ' && text[|pre|..e] == Spell(t);
    if t.Word? {
      forall i | |pre| <= i < e
        ensures WordChar(text[i])
      {
        assert text[i] == t.word[i - |pre|];
      }
      WordEndAt(text, |pre|, e);
    } else {
      assert text[|pre|] == t.c;
    }
  }

  // ------------------------------------------------------------------ what a parse gives

  predicate GoodRedirs(list: seq<Redirection<string>>) {
    forall i | 0 <= i < |list| :: GoodWord(list[i].file) && GoodMode(list[i].mode, list[i].fd)
  }

  predicate GoodParse(r: Parsed) {
    r.Ok? ==> WellFormed(r.cmd) && GoodTokens(r.rest)
  }

  lemma {:induction false} WrapGood(cmd: Cmd<string>, list: seq<Redirection<string>>)
    requires WellFormed(cmd) && GoodRedirs(list)
    ensures WellFormed(Wrap(cmd, list))
    decreases |list|
  {
    if list != [] {
      WrapGood(cmd, list[..|list| - 1]);
    }
  }

  lemma {:induction false} RedirListGood(toks: seq<Token>)
    requires GoodTokens(toks)
    ensures var r := RedirList(toks); r.Redirs? ==> GoodRedirs(r.list) && GoodTokens(r.rest)
    decreases |toks|
  {
    if |toks| >= 2 && RedirOp(toks[0]) {
      RedirListGood(toks[2..]);
      assert GoodToken(toks[1]);
    }
  }

  lemma {:induction false} ArgListGood(toks: seq<Token>, argv: seq<string>, redirs: seq<Redirection<string>>)
    requires GoodTokens(toks) && WellFormed(Exec(argv)) && GoodRedirs(redirs)
    ensures GoodParse(ArgList(toks, argv, redirs))
    decreases |toks|
  {
    if EndsExec(toks) {
      WrapGood(Exec(argv), redirs);
    } else if toks[0].Word? && |argv| + 1 < MAXARGS {
      assert GoodToken(toks[0]);
      RedirListGood(toks[1..]);
      var r := RedirList(toks[1..]);
      if r.Redirs? {
        ArgListGood(r.rest, argv + [toks[0].word], redirs + r.list);
      }
    }
  }

  lemma {:induction false} BlockGood(toks: seq<Token>)
    requires GoodTokens(toks) && |toks| > 0 && toks[0] == Sym('(')
    ensures GoodParse(Block(toks))
    decreases |toks|, 0
  {
    LineGood(toks[1..]);
    var r := Line(toks[1..]);
    if r.Ok? && r.rest != [] {
      RedirListGood(r.rest[1..]);
      var rs := RedirList(r.rest[1..]);
      if rs.Redirs? {
        WrapGood(r.cmd, rs.list);
      }
    }
  }

  lemma {:induction false} SimpleGood(toks: seq<Token>)
    requires GoodTokens(toks)
    ensures GoodParse(Simple(toks))
    decreases |toks|, 1
  {
    if toks != [] && toks[0] == Sym('(') {
      BlockGood(toks);
    } else {
      RedirListGood(toks);
      var r := RedirList(toks);
      if r.Redirs? {
        ArgListGood(r.rest, [], r.list);
      }
    }
  }

  lemma {:induction false} PipelineGood(toks: seq<Token>)
    requires GoodTokens(toks)
    ensures GoodParse(Pipeline(toks))
    decreases |toks|, 2
  {
    SimpleGood(toks);
    var r := Simple(toks);
    if r.Ok? && r.rest != [] {
      PipelineGood(r.rest[1..]);
    }
  }

  lemma {:induction false} BacksGood(cmd: Cmd<string>, toks: seq<Token>)
    requires WellFormed(cmd) && GoodTokens(toks)
    ensures WellFormed(Backs(cmd, toks).0) && GoodTokens(Backs(cmd, toks).1)
    decreases |toks|
  {
    if toks != [] && toks[0] == Sym('&') {
      BacksGood(Back(cmd), toks[1..]);
    }
  }

  lemma {:induction false} LineGood(toks: seq<Token>)
    requires GoodTokens(toks)
    ensures GoodParse(Line(toks))
    decreases |toks|, 3
  {
    PipelineGood(toks);
    var r := Pipeline(toks);
    if r.Ok? {
      BacksGood(r.cmd, r.rest);
      var (left, rest) := Backs(r.cmd, r.rest);
      if rest != [] {
        LineGood(rest[1..]);
      }
    }
  }

  // ------------------------------------------------------------------ printing and parsing

  function ShowRedirs(list: seq<Redirection<string>>): seq<Token> {
    if list == [] then []
    else [if list[0].fd == 0 then Sym('<') else Sym('>'), Word(list[0].file)] + ShowRedirs(list[1..])
  }

  lemma RedirListStep(toks: seq<Token>, r: Redirection<string>, list: seq<Redirection<string>>, rest: seq<Token>)
    requires |toks| >= 2 && toks[1] == Word(r.file) && GoodMode(r.mode, r.fd)
    requires toks[0] == if r.fd == 0 then Sym('<') else Sym('>')
    requires RedirList(toks[2..]) == Redirs(list, rest)
    ensures RedirList(toks) == Redirs([r] + list, rest)
  {
  }

  lemma {:induction false} RedirListShow(list: seq<Redirection<string>>, rest: seq<Token>)
    requires GoodRedirs(list) && (rest == [] || !RedirOp(rest[0]))
    ensures RedirList(ShowRedirs(list) + rest) == Redirs(list, rest)
    decreases |list|
  {
    if list != [] {
      RedirListShow(list[1..], rest);
      var toks := ShowRedirs(list) + rest;
      assert toks[2..] == ShowRedirs(list[1..]) + rest;
      hide RedirList;
      RedirListStep(toks, list[0], list[1..], rest);
    } else {
      assert ShowRedirs(list) + rest == rest;
    }
  }

  lemma {:induction false} WrapFront(cmd: Cmd<string>, r: Redirection<string>, list: seq<Redirection<string>>)
    ensures Wrap(cmd, [r] + list) == Wrap(Redir(cmd, r.file, r.mode, r.fd), list)
    decreases |list|
  {
    if list == [] {
      assert [r] + list == [r];
    } else {
      WrapFront(cmd, r, list[..|list| - 1]);
      assert ([r] + list)[..|list|] == [r] + list[..|list| - 1];
    }
  }

  lemma ArgListStep(toks: seq<Token>, argv: seq<string>, list: seq<Redirection<string>>, after: seq<Token>)
    requires |toks| > 0 && toks[0].Word? && |argv| + 1 < MAXARGS
    requires RedirList(toks[1..]) == Redirs(list, after)
    ensures ArgList(toks, argv, []) == ArgList(after, argv + [toks[0].word], list)
  {
    assert [] + list == list;
  }

  /** Words, then redirections, then something that ends a simple command. */
  lemma {:induction false} ArgListShow(done: seq<string>, argv: seq<string>, list: seq<Redirection<string>>, rest: seq<Token>)
    requires |done + argv| < MAXARGS && argv != [] && GoodRedirs(list) && EndsExec(rest)
    ensures ArgList(Words(argv) + ShowRedirs(list) + rest, done, []) == Ok(Wrap(Exec(done + argv), list), rest)
    decreases |argv|
  {
    var toks := Words(argv) + ShowRedirs(list) + rest;
    assert toks[0] == Word(argv[0]);
    if |argv| == 1 {
      assert toks[1..] == ShowRedirs(list) + rest;
      RedirListShow(list, rest);
      ArgListStep(toks, done, list, rest);
      assert argv == [argv[0]];
    } else {
      var after := Words(argv[1..]) + ShowRedirs(list) + rest;
      assert toks[1..] == after;
      assert after[0] == Word(argv[1]);
      ArgListStep(toks, done, [], after);
      hide ArgList, Wrap, ShowRedirs, Words;
      assert done + [argv[0]] + argv[1..] == done + argv;
      ArgListShow(done + [argv[0]], argv[1..], list, rest);
    }
  }

  lemma ExecShow(argv: seq<string>, list: seq<Redirection<string>>, rest: seq<Token>)
    requires |argv| < MAXARGS && GoodRedirs(list) && EndsExec(rest)
    ensures Simple(Words(argv) + ShowRedirs(list) + rest) == Ok(Wrap(Exec(argv), list), rest)
  {
    var toks := Words(argv) + ShowRedirs(list) + rest;
    if argv == [] {
      assert toks == ShowRedirs(list) + rest;
      RedirListShow(list, rest);
      assert list != [] ==> RedirOp(toks[0]);
    } else {
      assert toks[0] == Word(argv[0]);
      ArgListShow([], argv, list, rest);
      assert [] + argv == argv;
    }
  }

  lemma BlockParse(toks: seq<Token>, c: Cmd<string>, after: seq<Token>, list: seq<Redirection<string>>, rest: seq<Token>)
    requires toks != [] && toks[0] == Sym('(') && Line(toks[1..]) == Ok(c, after)
    requires after != [] && after[0] == Sym(')') && RedirList(after[1..]) == Redirs(list, rest)
    ensures Simple(toks) == Ok(Wrap(c, list), rest)
  {
    hide Line, RedirList, Wrap;
  }

  lemma Parenthesized(toks: seq<Token>, redirs: seq<Token>, rest: seq<Token>)
    ensures ([Sym('(')] + toks + [Sym(')')] + redirs + rest)[1..] == toks + ([Sym(')')] + (redirs + rest))
    ensures ([Sym(')')] + (redirs + rest))[1..] == redirs + rest
  {
  }

  lemma BlockShow(c: Cmd<string>, toks: seq<Token>, list: seq<Redirection<string>>, rest: seq<Token>)
    requires GoodRedirs(list) && EndsExec(rest)
    requires Line(toks + ([Sym(')')] + (ShowRedirs(list) + rest))) == Ok(c, [Sym(')')] + (ShowRedirs(list) + rest))
    ensures Simple([Sym('(')] + toks + [Sym(')')] + ShowRedirs(list) + rest) == Ok(Wrap(c, list), rest)
  {
    RedirListShow(list, rest);
    hide Line, Simple, RedirList, ShowRedirs, Wrap, GoodRedirs, EndsExec;
    Parenthesized(toks, ShowRedirs(list), rest);
    BlockParse([Sym('(')] + toks + [Sym(')')] + ShowRedirs(list) + rest, c, [Sym(')')] + (ShowRedirs(list) + rest), list, rest);
  }

  lemma {:induction false} SimpleShow(c: Cmd<string>, list: seq<Redirection<string>>, rest: seq<Token>)
    requires WellFormed(c) && GoodRedirs(list) && EndsExec(rest)
    ensures Simple(ShowSimple(c) + ShowRedirs(list) + rest) == Ok(Wrap(c, list), rest)
    decreases c, Rank(c, 0), 0
  {
    match c
    case Exec(argv) =>
      ExecShow(argv, list, rest);
    case Redir(cmd, file, mode, fd) =>
      var r := Redirection(file, mode, fd);
      assert ([r] + list)[1..] == list;
      assert ShowSimple(c) + ShowRedirs(list) == ShowSimple(cmd) + ShowRedirs([r] + list);
      SimpleShow(cmd, [r] + list, rest);
      WrapFront(cmd, r, list);
    case _ =>
      LineShow(c, [Sym(')')] + (ShowRedirs(list) + rest));
      BlockShow(c, ShowLine(c), list, rest);
  }

  predicate EndsPipeline(rest: seq<Token>) {
    rest == [] || rest[0] in {Sym(')'), Sym('&'), Sym(';')}
  }

  lemma SimpleShowAlone(c: Cmd<string>, rest: seq<Token>)
    requires WellFormed(c) && EndsExec(rest)
    ensures Simple(ShowSimple(c) + rest) == Ok(c, rest)
    decreases c, Rank(c, 0), 1
  {
    SimpleShow(c, [], rest);
    assert Wrap(c, []) == c && ShowRedirs([]) == [];
    hide Simple, ShowSimple, WellFormed, Wrap, ShowRedirs, EndsExec;
    assert ShowSimple(c) + [] + rest == ShowSimple(c) + rest;
  }

  lemma {:induction false} PipelineShow(c: Cmd<string>, rest: seq<Token>)
    requires WellFormed(c) && EndsPipeline(rest)
    ensures Pipeline(ShowPipeline(c) + rest) == Ok(c, rest)
    decreases c, Rank(c, 1)
  {
    if c.Pipe? {
      var after := [Sym('|')] + (ShowPipeline(c.right) + rest);
      assert ShowPipeline(c) + rest == ShowSimple(c.left) + after;
      SimpleShowAlone(c.left, after);
      assert after[1..] == ShowPipeline(c.right) + rest;
      PipelineShow(c.right, rest);
    } else {
      SimpleShowAlone(c, rest);
    }
  }

  lemma {:induction false} BacksShow(c: Cmd<string>, rest: seq<Token>)
    requires WellFormed(c) && EndsPipeline(rest)
    ensures var r := Pipeline(ShowBacks(c) + rest); r.Ok? && Backs(r.cmd, r.rest) == Backs(c, rest)
    decreases c, Rank(c, 2)
  {
    if c.Back? {
      assert ShowBacks(c) + rest == ShowBacks(c.cmd) + ([Sym('&')] + rest);
      BacksShow(c.cmd, [Sym('&')] + rest);
      assert ([Sym('&')] + rest)[1..] == rest;
    } else {
      PipelineShow(c, rest);
    }
  }

  lemma {:induction false} LineShow(c: Cmd<string>, rest: seq<Token>)
    requires WellFormed(c) && (rest == [] || rest[0] == Sym(')'))
    ensures Line(ShowLine(c) + rest) == Ok(c, rest)
    decreases c, Rank(c, 3)
  {
    if c.List? {
      var after := [Sym(';')] + (ShowLine(c.right) + rest);
      assert ShowLine(c) + rest == ShowBacks(c.left) + after;
      BacksShow(c.left, after);
      assert after[1..] == ShowLine(c.right) + rest;
      LineShow(c.right, rest);
    } else {
      BacksShow(c, rest);
    }
  }

  predicate Printable(toks: seq<Token>) {
    GoodTokens(toks) && Append !in toks
  }

  lemma {:induction false} ShowGood(c: Cmd<string>)
    requires WellFormed(c)
    ensures Printable(ShowSimple(c)) && Printable(ShowPipeline(c)) && Printable(ShowBacks(c)) && Printable(ShowLine(c))
  {
    match c
    case Exec(argv) =>
    case Redir(cmd, file, mode, fd) =>
      ShowGood(cmd);
    case Pipe(left, right) =>
      ShowGood(left);
      ShowGood(right);
      assert Printable(ShowPipeline(c));
      assert Printable(ShowLine(c));
    case List(left, right) =>
      ShowGood(left);
      ShowGood(right);
      assert Printable(ShowLine(c));
      assert Printable(ShowSimple(c));
    case Back(cmd) =>
      ShowGood(cmd);
      assert Printable(ShowBacks(c));
      assert Printable(ShowLine(c));
  }

  lemma {:induction false} RenderNoNul(toks: seq<Token>)
    requires GoodTokens(toks)
    ensures NUL !in Render(toks)
    decreases |toks|
  {
    if toks != [] {
      RenderNoNul(toks[1..]);
      assert GoodToken(toks[0]);
    }
  }

  /** Printing a tree gives a C string, and parsing it gives the tree. */
  lemma PrintThenParse(c: Cmd<string>)
    requires WellFormed(c)
    ensures NUL !in Print(c) && Command(Print(c)) == Ok(c, [])
  {
    ShowGood(c);
    RenderNoNul(ShowLine(c));
    LexRender("", ShowLine(c));
    assert "" + Render(ShowLine(c)) == Print(c);
    LineShow(c, []);
    assert ShowLine(c) + [] == ShowLine(c);
  }

  /** Every tree the parse of a C string gives is well formed, so parsing is stable under printing. */
  lemma ParseThenPrint(text: string)
    requires NUL !in text
    ensures var r := Command(text); r.Ok? ==> WellFormed(r.cmd) && Command(Print(r.cmd)) == r
  {
    LexGood(text, 0);
    LineGood(Lex(text, 0));
    var r := Command(text);
    if r.Ok? {
      PrintThenParse(r.cmd);
    }
  }

  /** The parser's image on C strings is exactly the well-formed trees. */
  lemma Image(c: Cmd<string>)
    ensures WellFormed(c) <==> exists text :: NUL !in text && Command(text) == Ok(c, [])
  {
    if WellFormed(c) {
      PrintThenParse(c);
    }
    if exists text :: NUL !in text && Command(text) == Ok(c, []) {
      var text :| NUL !in text && Command(text) == Ok(c, []);
      ParseThenPrint(text);
    }
  }

  // ------------------------------------------------------------------ >> is >

  function PlainToken(t: Token): Token {
    if t == Append then Sym('>') else t
  }

  /** The tokens with every >> written as >. */
  function Plain(toks: seq<Token>): (r: seq<Token>)
    ensures |r| == |toks|
  {
    seq(|toks|, i requires 0 <= i < |toks| => PlainToken(toks[i]))
  }

  function PlainParse(r: Parsed): Parsed {
    match r
    case Fail(e) => Fail(e)
    case Ok(cmd, rest) => Ok(cmd, Plain(rest))
  }

  function PlainRedirs(r: Redirs): Redirs {
    match r
    case NoFile => NoFile
    case Redirs(list, rest) => Redirs(list, Plain(rest))
  }

  lemma PlainTail(toks: seq<Token>, n: nat)
    requires n <= |toks|
    ensures Plain(toks[n..]) == Plain(toks)[n..]
  {
  }

  lemma {:induction false} PlainRedirList(toks: seq<Token>)
    ensures RedirList(Plain(toks)) == PlainRedirs(RedirList(toks))
    decreases |toks|
  {
    if |toks| >= 2 && RedirOp(toks[0]) {
      PlainTail(toks, 2);
      PlainRedirList(toks[2..]);
    }
  }

  lemma {:induction false} PlainArgList(toks: seq<Token>, argv: seq<string>, redirs: seq<Redirection<string>>)
    ensures ArgList(Plain(toks), argv, redirs) == PlainParse(ArgList(toks, argv, redirs))
    decreases |toks|
  {
    if !EndsExec(toks) && toks[0].Word? && |argv| + 1 < MAXARGS {
      PlainTail(toks, 1);
      PlainRedirList(toks[1..]);
      var r := RedirList(toks[1..]);
      if r.Redirs? {
        PlainArgList(r.rest, argv + [toks[0].word], redirs + r.list);
      }
    }
  }

  lemma {:induction false} PlainSimple(toks: seq<Token>)
    ensures Simple(Plain(toks)) == PlainParse(Simple(toks))
    decreases |toks|, 0
  {
    if toks != [] && toks[0] == Sym('(') {
      PlainTail(toks, 1);
      PlainLine(toks[1..]);
      var r := Line(toks[1..]);
      if r.Ok? && r.rest != [] {
        PlainTail(r.rest, 1);
        PlainRedirList(r.rest[1..]);
      }
    } else {
      PlainRedirList(toks);
      var r := RedirList(toks);
      if r.Redirs? {
        PlainArgList(r.rest, [], r.list);
      }
    }
  }

  lemma {:induction false} PlainPipeline(toks: seq<Token>)
    ensures Pipeline(Plain(toks)) == PlainParse(Pipeline(toks))
    decreases |toks|, 1
  {
    PlainSimple(toks);
    var r := Simple(toks);
    if r.Ok? && r.rest != [] {
      PlainTail(r.rest, 1);
      PlainPipeline(r.rest[1..]);
    }
  }

  lemma {:induction false} PlainBacks(cmd: Cmd<string>, toks: seq<Token>)
    ensures Backs(cmd, Plain(toks)) == (Backs(cmd, toks).0, Plain(Backs(cmd, toks).1))
    decreases |toks|
  {
    if toks != [] && toks[0] == Sym('&') {
      PlainTail(toks, 1);
      PlainBacks(Back(cmd), toks[1..]);
    }
  }

  lemma {:induction false} PlainLine(toks: seq<Token>)
    ensures Line(Plain(toks)) == PlainParse(Line(toks))
    decreases |toks|, 2
  {
    PlainPipeline(toks);
    var r := Pipeline(toks);
    if r.Ok? {
      PlainBacks(r.cmd, r.rest);
      var (left, rest) := Backs(r.cmd, r.rest);
      if rest != [] {
        PlainTail(rest, 1);
        PlainLine(rest[1..]);
      }
    }
  }

  /** Two lines that differ only in which of > and >> they have are the same command, or the same error. */
  lemma AppendLikeOutput(text: string, text': string)
    requires Plain(Lex(text, 0)) == Plain(Lex(text', 0))
    ensures Command(text) == Command(text')
  {
    PlainLine(Lex(text, 0));
    PlainLine(Lex(text', 0));
  }
}
