/**
 * The shell's parser as it runs: a cursor moving over the input line, words kept as places in the line,
 * and a last pass that ends every word with a NUL in the line itself.
 */
module Shell {
  import opened ShellSpec
  import opened ShellProofs

  datatype Span = Span(q: nat, eq: nat)

  datatype Result<T> = Done(value: T) | Panic(error: Error)

  /** The words and redirections of a simple command read so far. */
  datatype Args = Args(argv: seq<Span>, redirs: seq<Redirection<Span>>)

  // ------------------------------------------------------------------ words as places

  /** The place of a whole word of the text. */
  ghost predicate WordSpan(text: string, w: Span) {
    && w.q < w.eq <= |text|
    && (forall i | w.q <= i < w.eq :: WordChar(text[i]))
    && (w.eq < |text| ==> !WordChar(text[w.eq]))
  }

  ghost function Str(text: string, w: Span): string {
    if w.q <= w.eq <= |text| then text[w.q..w.eq] else ""
  }

  ghost function Strs(text: string, ws: seq<Span>): (r: seq<string>)
    ensures |r| == |ws|
  {
    seq(|ws|, i requires 0 <= i < |ws| => Str(text, ws[i]))
  }

  ghost function StrRedir(text: string, r: Redirection<Span>): Redirection<string> {
    Redirection(Str(text, r.file), r.mode, r.fd)
  }

  ghost function StrRedirs(text: string, rs: seq<Redirection<Span>>): (r: seq<Redirection<string>>)
    ensures |r| == |rs|
  {
    seq(|rs|, i requires 0 <= i < |rs| => StrRedir(text, rs[i]))
  }

  /** The tree with its words read off the text. */
  ghost function Meaning(text: string, c: Cmd<Span>): Cmd<string> {
    match c
    case Exec(argv) => Exec(Strs(text, argv))
    case Redir(cmd, file, mode, fd) => Redir(Meaning(text, cmd), Str(text, file), mode, fd)
    case Pipe(left, right) => Pipe(Meaning(text, left), Meaning(text, right))
    case List(left, right) => List(Meaning(text, left), Meaning(text, right))
    case Back(cmd) => Back(Meaning(text, cmd))
  }

  ghost predicate AllSpans(text: string, ws: seq<Span>) {
    forall i | 0 <= i < |ws| :: WordSpan(text, ws[i])
  }

  ghost predicate RedirSpans(text: string, rs: seq<Redirection<Span>>) {
    forall i | 0 <= i < |rs| :: WordSpan(text, rs[i].file)
  }

  ghost predicate TreeSpans(text: string, c: Cmd<Span>) {
    match c
    case Exec(argv) => AllSpans(text, argv)
    case Redir(cmd, file, mode, fd) => TreeSpans(text, cmd) && WordSpan(text, file)
    case Pipe(left, right) => TreeSpans(text, left) && TreeSpans(text, right)
    case List(left, right) => TreeSpans(text, left) && TreeSpans(text, right)
    case Back(cmd) => TreeSpans(text, cmd)
  }

  lemma {:induction false} WrapMeaning(text: string, c: Cmd<Span>, rs: seq<Redirection<Span>>)
    requires TreeSpans(text, c) && RedirSpans(text, rs)
    ensures Meaning(text, Wrap(c, rs)) == Wrap(Meaning(text, c), StrRedirs(text, rs))
    ensures TreeSpans(text, Wrap(c, rs))
    decreases |rs|
  {
    if rs != [] {
      var front := rs[..|rs| - 1];
      WrapMeaning(text, c, front);
      assert StrRedirs(text, rs)[..|rs| - 1] == StrRedirs(text, front);
    }
  }

  lemma LexSkip(text: string, s: nat)
    requires s <= |text|
    ensures Lex(text, SkipWhite(text, s)) == Lex(text, s)
  {
    var q := SkipWhite(text, s);
    assert SkipWhite(text, q) == q;
  }

  /** The letter gettoken gives for a token. */
  function Code(t: Token): char {
    match t
    case Word(_) => 'a'
    case Sym(c) => c
    case Append => '+'
  }

  function FirstChar(t: Token): char {
    match t
    case Word(_) => 'a'
    case Sym(c) => c
    case Append => '>'
  }

  predicate Symbols(toks: string) {
    forall i | 0 <= i < |toks| :: Symbol(toks[i])
  }

  /** What gettoken gives at a position. */
  ghost predicate TokenIs(text: string, from: nat, to: nat, tok: char, q: nat, eq: nat) {
    && from <= to <= |text|
    && (if Lex(text, from) == [] then tok == NUL && Lex(text, to) == []
        else
          && tok == Code(Lex(text, from)[0]) && tok != NUL && from < to && Lex(text, to) == Lex(text, from)[1..]
          && (tok == 'a' <==> Lex(text, from)[0].Word?)
          && (tok == 'a' ==> WordSpan(text, Span(q, eq)) && Str(text, Span(q, eq)) == Lex(text, from)[0].word))
  }

  ghost function Prepend(list: seq<Redirection<string>>, r: Redirs): Redirs {
    match r
    case NoFile => NoFile
    case Redirs(more, rest) => Redirs(list + more, rest)
  }

  /** One more redirection read moves it from the tokens to the list. */
  lemma OneRedir(text: string, rs: seq<Redirection<Span>>, redir: Redirection<Span>, toks: seq<Token>)
    requires |toks| >= 2 && RedirOp(toks[0]) && toks[1].Word? && StrRedir(text, redir) == Redirect(toks[0], toks[1].word)
    ensures Prepend(StrRedirs(text, rs), RedirList(toks)) == Prepend(StrRedirs(text, rs + [redir]), RedirList(toks[2..]))
  {
    var r := RedirList(toks[2..]);
    if r.Redirs? {
      assert StrRedirs(text, rs) + ([StrRedir(text, redir)] + r.list) == StrRedirs(text, rs + [redir]) + r.list;
    }
  }

  lemma PrependNone(r: Redirs)
    ensures Prepend(StrRedirs("", []), r) == r && forall text :: StrRedirs(text, []) == StrRedirs("", [])
  {
    if r.Redirs? {
      assert StrRedirs("", []) + r.list == r.list;
    }
  }

  lemma NoRedir(text: string, rs: seq<Redirection<Span>>, toks: seq<Token>)
    requires |toks| > 0 && RedirOp(toks[0]) && (|toks| < 2 || !toks[1].Word?)
    ensures Prepend(StrRedirs(text, rs), RedirList(toks)) == NoFile
  {
  }

  lemma EndRedirs(text: string, rs: seq<Redirection<Span>>, toks: seq<Token>)
    requires toks == [] || !RedirOp(toks[0])
    ensures Prepend(StrRedirs(text, rs), RedirList(toks)) == Redirs(StrRedirs(text, rs), toks)
  {
    assert StrRedirs(text, rs) + [] == StrRedirs(text, rs);
  }

  /** The redirection an operator and a file name give. */
  function RedirOf(tok: char, file: Span): Redirection<Span> {
    if tok == '<' then Redirection(file, O_RDONLY, 0) else Redirection(file, O_CREATE_WRONLY, 1)
  }

  /** The redirections spec are those of rs, and then those of the text from a position on. */
  ghost predicate RedirsFrom(text: string, spec: Redirs, rs: seq<Redirection<Span>>, s: nat) {
    s <= |text| && RedirSpans(text, rs) && spec == Prepend(StrRedirs(text, rs), RedirList(Lex(text, s)))
  }

  lemma RedirFile(text: string, rs: seq<Redirection<Span>>, tok: char, w: Span, toks: seq<Token>)
    requires |toks| >= 2 && RedirOp(toks[0]) && tok == Code(toks[0]) && toks[1] == Word(Str(text, w)) && WordSpan(text, w)
    requires RedirSpans(text, rs)
    ensures RedirSpans(text, rs + [RedirOf(tok, w)])
    ensures Prepend(StrRedirs(text, rs), RedirList(toks)) == Prepend(StrRedirs(text, rs + [RedirOf(tok, w)]), RedirList(toks[2..]))
  {
    hide RedirList, StrRedirs, Prepend, WordSpan;
    OneRedir(text, rs, RedirOf(tok, w), toks);
  }

  /** An operator and the token behind it: one more redirection, or none at all. */
  lemma RedirTokens(text: string, spec: Redirs, rs: seq<Redirection<Span>>, from: nat, mid: nat, to: nat,
                    tok: char, w0: Span, t: char, w: Span)
    requires RedirsFrom(text, spec, rs, from) && Lex(text, from) != [] && RedirOp(Lex(text, from)[0])
    requires TokenIs(text, from, mid, tok, w0.q, w0.eq) && TokenIs(text, mid, to, t, w.q, w.eq)
    ensures from < to <= |text|
    ensures t != 'a' ==> spec == NoFile
    ensures t == 'a' ==> RedirsFrom(text, spec, rs + [RedirOf(tok, w)], to)
  {
    var toks := Lex(text, from);
    hide Lex, RedirList, StrRedirs, Prepend, RedirSpans, WordSpan;
    if t == 'a' {
      assert toks[1..][1..] == toks[2..];
      RedirFile(text, rs, tok, w, toks);
    } else {
      NoRedir(text, rs, toks);
    }
  }

  /** What the argument loop does with the token in front of it. */
  lemma OneArg(toks: seq<Token>, argv: seq<string>, redirs: seq<Redirection<string>>)
    requires toks != [] && !EndsExec(toks)
    ensures !toks[0].Word? ==> ArgList(toks, argv, redirs) == Fail(Syntax)
    ensures toks[0].Word? && |argv| + 1 >= MAXARGS ==> ArgList(toks, argv, redirs) == Fail(TooManyArgs)
    ensures toks[0].Word? && |argv| + 1 < MAXARGS ==>
              var r := RedirList(toks[1..]);
              ArgList(toks, argv, redirs) ==
                if r.NoFile? then Fail(MissingFile) else ArgList(r.rest, argv + [toks[0].word], redirs + r.list)
  {
  }

  /** What parseexec's loop peeks for. */
  lemma PeekEnds(toks: seq<Token>)
    requires toks != []
    ensures !toks[0].Word? && FirstChar(toks[0]) in "|)&;" <==> EndsExec(toks)
    ensures Symbols("|)&;")
  {
  }

  lemma StrsAppend(text: string, argv: seq<Span>, w: Span, rs: seq<Redirection<Span>>, more: seq<Redirection<Span>>)
    requires AllSpans(text, argv) && WordSpan(text, w) && RedirSpans(text, rs) && RedirSpans(text, more)
    ensures AllSpans(text, argv + [w]) && RedirSpans(text, rs + more)
    ensures Strs(text, argv + [w]) == Strs(text, argv) + [Str(text, w)]
    ensures StrRedirs(text, rs + more) == StrRedirs(text, rs) + StrRedirs(text, more)
  {
  }

  lemma LastArg(text: string, argv: seq<Span>, rs: seq<Redirection<Span>>, toks: seq<Token>)
    requires EndsExec(toks) && AllSpans(text, argv) && RedirSpans(text, rs)
    ensures ArgList(toks, Strs(text, argv), StrRedirs(text, rs)) == Ok(Meaning(text, Wrap(Exec(argv), rs)), toks)
    ensures TreeSpans(text, Wrap(Exec(argv), rs))
  {
    WrapMeaning(text, Exec(argv), rs);
  }

  class Parser {
    const text: string
    var s: nat

    ghost predicate Valid()
      reads this
    {
      s <= |text| && NUL !in text
    }

    constructor (text: string)
      requires NUL !in text
      ensures Valid() && this.text == text && s == 0 && fresh(this)
    {
      this.text := text;
      s := 0;
    }

    ghost function Left(): seq<Token>
      requires Valid()
      reads this
    {
      Lex(text, s)
    }

    function Char(i: nat): char {
      if i < |text| then text[i] else NUL
    }

    method SkipBlanks()
      requires Valid()
      modifies this
      ensures Valid() && s == SkipWhite(text, old(s)) && Left() == old(Left())
    {
      while s < |text| && White(text[s])
        invariant s <= |text| && SkipWhite(text, s) == SkipWhite(text, old(s))
      {
        s := s + 1;
      }
      LexSkip(text, old(s));
    }

    /** gettoken: one token is consumed, and a word comes with its place. */
    method GetToken() returns (tok: char, q: nat, eq: nat)
      requires Valid()
      modifies this
      ensures Valid() && TokenIs(text, old(s), s, tok, q, eq)
    {
      SkipBlanks();
      q := s;
      tok := Char(s);
      if tok == NUL {
      } else if tok in {'|', '(', ')', ';', '&', '<'} {
        s := s + 1;
      } else if tok == '>' {
        s := s + 1;
        if Char(s) == '>' {
          tok := '+';
          s := s + 1;
        }
      } else {
        tok := 'a';
        while s < |text| && !White(text[s]) && !Symbol(text[s])
          invariant q <= s <= |text| && WordEnd(text, s) == WordEnd(text, q)
        {
          s := s + 1;
        }
      }
      eq := s;
      SkipBlanks();
    }

    /** peek: blanks are skipped, and the next token is looked at. */
    method Peek(toks: string) returns (b: bool)
      requires Valid() && Symbols(toks)
      modifies this
      ensures Valid() && old(s) <= s && Left() == old(Left())
      ensures b <==> Left() != [] && !Left()[0].Word? && FirstChar(Left()[0]) in toks
      ensures s == |text| <==> Left() == []
    {
      SkipBlanks();
      b := Char(s) != NUL && Char(s) in toks;
    }

    /** The result of a parse is what the grammar says of the tokens, and the cursor is behind what was read. */
    ghost predicate Matches(spec: Parsed, r: Result<Cmd<Span>>)
      requires Valid()
      reads this
    {
      match spec
      case Fail(e) => r == Panic(e)
      case Ok(c, rest) => r.Done? && Meaning(text, r.value) == c && TreeSpans(text, r.value) && Left() == rest
    }

    ghost predicate MatchesRedirs(spec: Redirs, r: Result<seq<Redirection<Span>>>)
      requires Valid()
      reads this
    {
      match spec
      case NoFile => r == Panic(MissingFile)
      case Redirs(list, rest) =>
        r.Done? && StrRedirs(text, r.value) == list && RedirSpans(text, r.value) && Left() == rest
    }

    /** The body of parseredirs' loop. */
    method ParseRedir(rs: seq<Redirection<Span>>, ghost spec: Redirs) returns (r: Result<seq<Redirection<Span>>>)
      requires Valid() && RedirsFrom(text, spec, rs, s) && Left() != [] && RedirOp(Left()[0])
      modifies this
      ensures Valid() && old(s) < s
      ensures r.Panic? ==> r.error == MissingFile && spec == NoFile
      ensures r.Done? ==> RedirsFrom(text, spec, r.value, s)
    {
      hide Lex, TokenIs, RedirOf, RedirsFrom;
      var tok, q0, eq0 := GetToken();
      ghost var mid := s;
      var t, q, eq := GetToken();
      RedirTokens(text, spec, rs, old(s), mid, s, tok, Span(q0, eq0), t, Span(q, eq));
      if t != 'a' {
        return Panic(MissingFile);
      }
      return Done(rs + [RedirOf(tok, Span(q, eq))]);
    }

    method ParseRedirs() returns (r: Result<seq<Redirection<Span>>>)
      requires Valid()
      modifies this
      ensures Valid() && old(s) <= s && MatchesRedirs(RedirList(old(Left())), r)
    {
      var rs: seq<Redirection<Span>> := [];
      ghost var spec := RedirList(Left());
      PrependNone(spec);
      hide Lex, RedirList, StrRedirs, Prepend;
      var more := Peek("<>");
      while more
        invariant Valid() && old(s) <= s && RedirsFrom(text, spec, rs, s)
        invariant more <==> Left() != [] && RedirOp(Left()[0])
        decreases |text| - s
      {
        r := ParseRedir(rs, spec);
        if r.Panic? {
          return;
        }
        rs := r.value;
        more := Peek("<>");
      }
      EndRedirs(text, rs, Left());
      return Done(rs);
    }

    /** What is left to parse is what the grammar says of a command with these words and redirections already read. */
    ghost predicate Reading(spec: Parsed, args: Args)
      requires Valid()
      reads this
    {
      && |args.argv| < MAXARGS && AllSpans(text, args.argv) && RedirSpans(text, args.redirs)
      && spec == ArgList(Left(), Strs(text, args.argv), StrRedirs(text, args.redirs))
    }

    /** The body of parseexec's loop: one more word, and the redirections behind it. */
    method ParseArg(args: Args, ghost spec: Parsed) returns (none: bool, r: Result<Args>)
      requires Valid() && Reading(spec, args) && (Left() == [] || !EndsExec(Left()))
      modifies this
      ensures Valid() && old(s) <= s && (none <==> old(Left()) == [])
      ensures none ==> Left() == []
      ensures !none && r.Panic? ==> spec == Fail(r.error)
      ensures !none && r.Done? ==> old(s) < s && Reading(spec, r.value)
    {
      ghost var toks := Left();
      hide Lex, ArgList, StrRedirs, Strs, Str, WordSpan, AllSpans, RedirSpans;
      var tok, q, eq := GetToken();
      none := tok == NUL;
      if none {
        return none, Done(args);
      }
      OneArg(toks, Strs(text, args.argv), StrRedirs(text, args.redirs));
      if tok != 'a' {
        return none, Panic(Syntax);
      }
      if |args.argv| + 1 >= MAXARGS {
        return none, Panic(TooManyArgs);
      }
      var more := ParseRedirs();
      if more.Panic? {
        return none, Panic(more.error);
      }
      StrsAppend(text, args.argv, Span(q, eq), args.redirs, more.value);
      r := Done(Args(args.argv + [Span(q, eq)], args.redirs + more.value));
    }

    /** peek(ps, es, "|)&;") */
    method PeekEnd() returns (b: bool)
      requires Valid()
      modifies this
      ensures Valid() && old(s) <= s && Left() == old(Left()) && (b <==> Left() != [] && EndsExec(Left()))
    {
      hide Lex, EndsExec, FirstChar, Symbols;
      if Left() != [] {
        PeekEnds(Left());
      }
      PeekEnds([Sym('|')]);
      b := Peek("|)&;");
    }

    /** The loop of parseexec: words and redirections until something ends the command. */
    method ParseArgs(redirs: seq<Redirection<Span>>) returns (r: Result<Cmd<Span>>)
      requires Valid() && RedirSpans(text, redirs)
      modifies this
      ensures Valid() && old(s) <= s && Matches(ArgList(old(Left()), [], StrRedirs(text, redirs)), r)
    {
      var args := Args([], redirs);
      ghost var spec := ArgList(Left(), [], StrRedirs(text, redirs));
      assert Strs(text, args.argv) == [];
      assert Reading(spec, args);
      hide Lex, ArgList, StrRedirs, Strs, Meaning, TreeSpans, AllSpans, RedirSpans, EndsExec, FirstChar, Symbols, Reading;
      var stop := PeekEnd();
      while !stop
        invariant Valid() && old(s) <= s && Reading(spec, args)
        invariant stop <==> Left() != [] && EndsExec(Left())
        decreases |text| - s
      {
        var none, more := ParseArg(args, spec);
        if none {
          break;
        }
        if more.Panic? {
          return Panic(more.error);
        }
        args := more.value;
        stop := PeekEnd();
      }
      LastArg(text, args.argv, args.redirs, Left());
      return Done(Wrap(Exec(args.argv), args.redirs));
    }

    method ParseExec() returns (r: Result<Cmd<Span>>)
      requires Valid()
      modifies this
      ensures Valid() && old(s) <= s && Matches(Simple(old(Left())), r)
      decreases |text| - s, 1
    {
      hide Lex, ArgList, StrRedirs, WordSpan, Meaning, TreeSpans, Block, RedirList;
      ghost var toks := Left();
      var b := Peek("(");
      if b {
        r := ParseBlock();
        return;
      }
      var rs := ParseRedirs();
      if rs.Panic? {
        return Panic(rs.error);
      }
      r := ParseArgs(rs.value);
    }

    method ParseBlock() returns (r: Result<Cmd<Span>>)
      requires Valid() && Left() != [] && Left()[0] == Sym('(')
      modifies this
      ensures Valid() && old(s) <= s && Matches(Block(old(Left())), r)
      decreases |text| - s, 0
    {
      hide Lex, StrRedirs, WordSpan, Meaning, TreeSpans, RedirList, Line;
      var tok, q, eq := GetToken();
      r := ParseLine();
      if r.Panic? {
        return;
      }
      var b := Peek(")");
      if !b {
        return Panic(MissingParen);
      }
      tok, q, eq := GetToken();
      var rs := ParseRedirs();
      if rs.Panic? {
        return Panic(rs.error);
      }
      WrapMeaning(text, r.value, rs.value);
      return Done(Wrap(r.value, rs.value));
    }

    method ParsePipe() returns (r: Result<Cmd<Span>>)
      requires Valid()
      modifies this
      ensures Valid() && old(s) <= s && Matches(Pipeline(old(Left())), r)
      decreases |text| - s, 2
    {
      hide Lex, Simple;
      r := ParseExec();
      if r.Panic? {
        return;
      }
      var b := Peek("|");
      if b {
        var tok, q, eq := GetToken();
        var right := ParsePipe();
        if right.Panic? {
          return right;
        }
        return Done(Pipe(r.value, right.value));
      }
    }

    method ParseLine() returns (r: Result<Cmd<Span>>)
      requires Valid()
      modifies this
      ensures Valid() && old(s) <= s && Matches(Line(old(Left())), r)
      decreases |text| - s, 3
    {
      hide Lex, Pipeline;
      r := ParsePipe();
      if r.Panic? {
        return;
      }
      var cmd := r.value;
      ghost var spec := Backs(Meaning(text, cmd), Left());
      var b := Peek("&");
      while b
        invariant Valid() && old(s) <= s && TreeSpans(text, cmd)
        invariant b <==> Left() != [] && Left()[0] == Sym('&')
        invariant spec == Backs(Meaning(text, cmd), Left())
        decreases |text| - s
      {
        var tok, q, eq := GetToken();
        cmd := Back(cmd);
        b := Peek("&");
      }
      b := Peek(";");
      if b {
        var tok, q, eq := GetToken();
        var right := ParseLine();
        if right.Panic? {
          return right;
        }
        return Done(List(cmd, right.value));
      }
      return Done(cmd);
    }
  }

  // ------------------------------------------------------------------ the line itself

  /** The C string that starts at a position. */
  ghost function CStr(buf: seq<char>, q: nat): string
    requires q <= |buf|
    decreases |buf| - q
  {
    if q < |buf| && buf[q] != NUL then [buf[q]] + CStr(buf, q + 1) else ""
  }

  lemma {:induction false} CStrIs(buf: seq<char>, q: nat, e: nat)
    requires q <= e < |buf| && buf[e] == NUL && forall i | q <= i < e :: buf[i] != NUL
    ensures CStr(buf, q) == buf[q..e]
    decreases e - q
  {
    if q < e {
      CStrIs(buf, q + 1, e);
    }
  }

  ghost function CWord(buf: seq<char>, w: Span): string {
    if w.q <= |buf| then CStr(buf, w.q) else ""
  }

  /** The tree with its words read off the buffer as C strings. */
  ghost function CMeaning(buf: seq<char>, c: Cmd<Span>): Cmd<string> {
    match c
    case Exec(argv) => Exec(seq(|argv|, i requires 0 <= i < |argv| => CWord(buf, argv[i])))
    case Redir(cmd, file, mode, fd) => Redir(CMeaning(buf, cmd), CWord(buf, file), mode, fd)
    case Pipe(left, right) => Pipe(CMeaning(buf, left), CMeaning(buf, right))
    case List(left, right) => List(CMeaning(buf, left), CMeaning(buf, right))
    case Back(cmd) => Back(CMeaning(buf, cmd))
  }

  /** Where the words of a tree end. */
  ghost predicate EndOf(c: Cmd<Span>, e: nat) {
    match c
    case Exec(argv) => exists i | 0 <= i < |argv| :: argv[i].eq == e
    case Redir(cmd, file, mode, fd) => EndOf(cmd, e) || file.eq == e
    case Pipe(left, right) => EndOf(left, e) || EndOf(right, e)
    case List(left, right) => EndOf(left, e) || EndOf(right, e)
    case Back(cmd) => EndOf(cmd, e)
  }

  /** The buffer holds the text, but for NULs at places outside words, which include the ends of the tree's words. */
  ghost predicate Cut(text: string, buf: seq<char>, c: Cmd<Span>) {
    && |buf| > |text| && buf[|text|] == NUL && NUL !in text
    && (forall i | 0 <= i < |text| && WordChar(text[i]) :: buf[i] == text[i])
    && (forall e: nat | EndOf(c, e) && e < |text| :: buf[e] == NUL)
  }

  lemma CWordIs(text: string, buf: seq<char>, w: Span)
    requires |buf| > |text| && buf[|text|] == NUL && NUL !in text && WordSpan(text, w)
    requires forall i | 0 <= i < |text| && WordChar(text[i]) :: buf[i] == text[i]
    requires w.eq < |text| ==> buf[w.eq] == NUL
    ensures CWord(buf, w) == Str(text, w)
  {
    CStrIs(buf, w.q, w.eq);
  }

  /** After the cuts, every word of the tree reads as its C string. */
  lemma {:induction false} CutMeaning(text: string, buf: seq<char>, c: Cmd<Span>)
    requires TreeSpans(text, c) && Cut(text, buf, c)
    ensures CMeaning(buf, c) == Meaning(text, c)
  {
    match c
    case Exec(argv) =>
      forall i | 0 <= i < |argv|
        ensures CWord(buf, argv[i]) == Str(text, argv[i])
      {
        assert EndOf(c, argv[i].eq);
        CWordIs(text, buf, argv[i]);
      }
    case Redir(cmd, file, mode, fd) =>
      assert EndOf(c, file.eq);
      CWordIs(text, buf, file);
      assert forall e: nat | EndOf(cmd, e) :: EndOf(c, e);
      CutMeaning(text, buf, cmd);
    case Pipe(left, right) =>
      assert forall e: nat | EndOf(left, e) || EndOf(right, e) :: EndOf(c, e);
      CutMeaning(text, buf, left);
      CutMeaning(text, buf, right);
    case List(left, right) =>
      assert forall e: nat | EndOf(left, e) || EndOf(right, e) :: EndOf(c, e);
      CutMeaning(text, buf, left);
      CutMeaning(text, buf, right);
    case Back(cmd) =>
      assert forall e: nat | EndOf(cmd, e) :: EndOf(c, e);
      CutMeaning(text, buf, cmd);
  }

  ghost predicate EndsWithin(c: Cmd<Span>, n: nat) {
    forall e: nat | EndOf(c, e) :: e < n
  }

  /** nulterminate: a NUL at the end of every word, and nothing else written. */
  method NulTerminate(buf: array<char>, c: Cmd<Span>)
    requires EndsWithin(c, buf.Length)
    modifies buf
    ensures forall i | 0 <= i < buf.Length :: buf[i] == if EndOf(c, i) then NUL else old(buf[i])
    decreases c
  {
    match c
    case Exec(argv) =>
      var i := 0;
      while i < |argv|
        invariant i <= |argv|
        invariant forall k | 0 <= k < buf.Length ::
                    buf[k] == if exists j :: 0 <= j < i && argv[j].eq == k then NUL else old(buf[k])
      {
        assert EndOf(c, argv[i].eq);
        buf[argv[i].eq] := NUL;
        i := i + 1;
      }
    case Redir(cmd, file, mode, fd) =>
      assert EndOf(c, file.eq) && forall e: nat | EndOf(cmd, e) :: EndOf(c, e);
      NulTerminate(buf, cmd);
      buf[file.eq] := NUL;
    case Pipe(left, right) =>
      assert forall e: nat | EndOf(left, e) || EndOf(right, e) :: EndOf(c, e);
      NulTerminate(buf, left);
      NulTerminate(buf, right);
    case List(left, right) =>
      assert forall e: nat | EndOf(left, e) || EndOf(right, e) :: EndOf(c, e);
      NulTerminate(buf, left);
      NulTerminate(buf, right);
    case Back(cmd) =>
      assert forall e: nat | EndOf(cmd, e) :: EndOf(c, e);
      NulTerminate(buf, cmd);
  }

  lemma {:induction false} EndsAt(text: string, c: Cmd<Span>, e: nat)
    requires TreeSpans(text, c) && EndOf(c, e)
    ensures e <= |text| && (e < |text| ==> !WordChar(text[e]))
  {
    match c
    case Exec(argv) =>
      var i :| 0 <= i < |argv| && argv[i].eq == e;
      assert WordSpan(text, argv[i]);
    case Redir(cmd, file, mode, fd) =>
      if EndOf(cmd, e) {
        EndsAt(text, cmd, e);
      }
    case Pipe(left, right) =>
      if EndOf(left, e) {
        EndsAt(text, left, e);
      } else {
        EndsAt(text, right, e);
      }
    case List(left, right) =>
      if EndOf(left, e) {
        EndsAt(text, left, e);
      } else {
        EndsAt(text, right, e);
      }
    case Back(cmd) =>
      EndsAt(text, cmd, e);
  }

  method StrLen(buf: array<char>) returns (n: nat)
    requires NUL in buf[..]
    ensures n < buf.Length && buf[n] == NUL && NUL !in buf[..n] && CStr(buf[..], 0) == buf[..n]
  {
    n := 0;
    while buf[n] != NUL
      invariant n < buf.Length && NUL !in buf[..n]
      decreases buf.Length - n
    {
      n := n + 1;
    }
    CStrIs(buf[..], 0, n);
  }

  /** parsecmd: the grammar decides, and the words of the tree are C strings in the line. */
  method ParseCmd(buf: array<char>) returns (r: Result<Cmd<Span>>)
    requires NUL in buf[..]
    modifies buf
    ensures var spec := Command(CStr(old(buf[..]), 0));
            if spec.Fail? then r == Panic(spec.error) && buf[..] == old(buf[..])
            else r.Done? && CMeaning(buf[..], r.value) == spec.cmd
  {
    var n := StrLen(buf);
    var text := buf[..n];
    var parser := new Parser(text);
    r := parser.ParseLine();
    if r.Panic? {
      return;
    }
    var b := parser.Peek("");
    if parser.s != n {
      return Panic(Leftovers);
    }
    hide Lex, Line;
    forall e: nat | EndOf(r.value, e)
      ensures e <= n && (e < n ==> !WordChar(text[e]))
    {
      EndsAt(text, r.value, e);
    }
    NulTerminate(buf, r.value);
    CutMeaning(text, buf[..], r.value);
  }
}
