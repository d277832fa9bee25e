/**
 * The shell's command language: tokens, the grammar its recursive-descent parser accepts, and a printer.
 */
module ShellSpec {
  const NUL := '\0'
  const MAXARGS := 10
  const O_RDONLY := 0
  const O_CREATE_WRONLY := 0x201

  /** A parsed command; words are strings here and places in the input buffer in the parser. */
  datatype Cmd<W> =
    | Exec(argv: seq<W>)
    | Redir(cmd: Cmd<W>, file: W, mode: nat, fd: nat)
    | Pipe(left: Cmd<W>, right: Cmd<W>)
    | List(left: Cmd<W>, right: Cmd<W>)
    | Back(cmd: Cmd<W>)

  datatype Token = Word(word: string) | Sym(c: char) | Append

  datatype Error = MissingFile | MissingParen | Syntax | TooManyArgs | Leftovers

  // ------------------------------------------------------------------ tokens

  predicate White(c: char) {
    c in {' ', '\t', '\r', '\n', '\U{000B}'}
  }

  predicate Symbol(c: char) {
    c in {'<', '|', '>', '&', ';', '(', ')'}
  }

  predicate WordChar(c: char) {
    !White(c) && !Symbol(c)
  }

  function SkipWhite(text: string, s: nat): (r: nat)
    requires s <= |text|
    ensures s <= r <= |text|
    ensures r < |text| ==> !White(text[r])
    decreases |text| - s
  {
    if s < |text| && White(text[s]) then SkipWhite(text, s + 1) else s
  }

  function WordEnd(text: string, s: nat): (r: nat)
    requires s <= |text|
    ensures s <= r <= |text|
    ensures forall i | s <= i < r :: WordChar(text[i])
    ensures r < |text| ==> !WordChar(text[r])
    decreases |text| - s
  {
    if s < |text| && WordChar(text[s]) then WordEnd(text, s + 1) else s
  }

  function TokenEnd(text: string, s: nat): (r: nat)
    requires s < |text| && !White(text[s])
    ensures s < r <= |text|
  {
    if text[s] == '>' && s + 1 < |text| && text[s + 1] == '>' then s + 2
    else if Symbol(text[s]) then s + 1
    else WordEnd(text, s)
  }

  function TokenAt(text: string, s: nat): Token
    requires s < |text| && !White(text[s])
  {
    if text[s] == '>' && s + 1 < |text| && text[s + 1] == '>' then Append
    else if Symbol(text[s]) then Sym(text[s])
    else Word(text[s..WordEnd(text, s)])
  }

  /** The tokens of the text from a position on. */
  function Lex(text: string, s: nat): seq<Token>
    requires s <= |text|
    decreases |text| - s
  {
    var q := SkipWhite(text, s);
    if q == |text| then [] else [TokenAt(text, q)] + Lex(text, TokenEnd(text, q))
  }

  // ------------------------------------------------------------------ the grammar

  datatype Redirection<W> = Redirection(file: W, mode: nat, fd: nat)

  datatype Parsed = Ok(cmd: Cmd<string>, rest: seq<Token>) | Fail(error: Error)
  datatype Redirs = Redirs(list: seq<Redirection<string>>, rest: seq<Token>) | NoFile

  function Wrap<W>(cmd: Cmd<W>, list: seq<Redirection<W>>): Cmd<W> {
    if list == [] then cmd
    else
      var last := list[|list| - 1];
      Redir(Wrap(cmd, list[..|list| - 1]), last.file, last.mode, last.fd)
  }

  predicate RedirOp(t: Token) {
    t == Sym('<') || t == Sym('>') || t == Append
  }

  function Redirect(t: Token, file: string): Redirection<string> {
    if t == Sym('<') then Redirection(file, O_RDONLY, 0) else Redirection(file, O_CREATE_WRONLY, 1)
  }

  function RedirList(toks: seq<Token>): (r: Redirs)
    ensures r.Redirs? ==> |r.rest| <= |toks|
  {
    if toks == [] || !RedirOp(toks[0]) then Redirs([], toks)
    else if |toks| < 2 || !toks[1].Word? then NoFile
    else
      match RedirList(toks[2..])
      case NoFile => NoFile
      case Redirs(list, rest) => Redirs([Redirect(toks[0], toks[1].word)] + list, rest)
  }

  predicate EndsExec(toks: seq<Token>) {
    toks == [] || toks[0] in {Sym('|'), Sym(')'), Sym('&'), Sym(';')}
  }

  /** Words and redirections in any order, the words so far and redirections so far given. */
  function ArgList(toks: seq<Token>, argv: seq<string>, redirs: seq<Redirection<string>>): (r: Parsed)
    ensures r.Ok? ==> |r.rest| <= |toks|
    decreases |toks|
  {
    if EndsExec(toks) then Ok(Wrap(Exec(argv), redirs), toks)
    else if !toks[0].Word? then Fail(Syntax)
    else if |argv| + 1 >= MAXARGS then Fail(TooManyArgs)
    else
      match RedirList(toks[1..])
      case NoFile => Fail(MissingFile)
      case Redirs(list, rest) => ArgList(rest, argv + [toks[0].word], redirs + list)
  }

  function Block(toks: seq<Token>): (r: Parsed)
    requires |toks| > 0 && toks[0] == Sym('(')
    ensures r.Ok? ==> |r.rest| < |toks|
    decreases |toks|, 0
  {
    match Line(toks[1..])
    case Fail(e) => Fail(e)
    case Ok(cmd, rest) =>
      if rest == [] || rest[0] != Sym(')') then Fail(MissingParen)
      else
        match RedirList(rest[1..])
        case NoFile => Fail(MissingFile)
        case Redirs(list, rest') => Ok(Wrap(cmd, list), rest')
  }

  function Simple(toks: seq<Token>): (r: Parsed)
    ensures r.Ok? ==> |r.rest| <= |toks|
    decreases |toks|, 1
  {
    if toks != [] && toks[0] == Sym('(') then Block(toks)
    else
      match RedirList(toks)
      case NoFile => Fail(MissingFile)
      case Redirs(list, rest) => ArgList(rest, [], list)
  }

  function Pipeline(toks: seq<Token>): (r: Parsed)
    ensures r.Ok? ==> |r.rest| <= |toks|
    decreases |toks|, 2
  {
    match Simple(toks)
    case Fail(e) => Fail(e)
    case Ok(left, rest) =>
      if rest == [] || rest[0] != Sym('|') then Ok(left, rest)
      else
        match Pipeline(rest[1..])
        case Fail(e) => Fail(e)
        case Ok(right, rest') => Ok(Pipe(left, right), rest')
  }

  function Backs(cmd: Cmd<string>, toks: seq<Token>): (r: (Cmd<string>, seq<Token>))
    ensures |r.1| <= |toks|
    decreases |toks|
  {
    if toks != [] && toks[0] == Sym('&') then Backs(Back(cmd), toks[1..]) else (cmd, toks)
  }

  function Line(toks: seq<Token>): (r: Parsed)
    ensures r.Ok? ==> |r.rest| <= |toks|
    decreases |toks|, 3
  {
    match Pipeline(toks)
    case Fail(e) => Fail(e)
    case Ok(first, rest) =>
      var (left, rest') := Backs(first, rest);
      if rest' == [] || rest'[0] != Sym(';') then Ok(left, rest')
      else
        match Line(rest'[1..])
        case Fail(e) => Fail(e)
        case Ok(right, rest'') => Ok(List(left, right), rest'')
  }

  /** A whole command line. */
  function Command(text: string): (r: Parsed) {
    match Line(Lex(text, 0))
    case Fail(e) => Fail(e)
    case Ok(cmd, rest) => if rest == [] then Ok(cmd, []) else Fail(Leftovers)
  }

  // ------------------------------------------------------------------ the printer

  /** The trees a parse can give: words are words, argument lists fit, and redirections have the modes the parser uses. */
  predicate GoodWord(w: string) {
    w != "" && NUL !in w && forall i | 0 <= i < |w| :: WordChar(w[i])
  }

  predicate GoodMode(mode: nat, fd: nat) {
    (mode == O_RDONLY && fd == 0) || (mode == O_CREATE_WRONLY && fd == 1)
  }

  predicate WellFormed(c: Cmd<string>) {
    match c
    case Exec(argv) => |argv| < MAXARGS && forall i | 0 <= i < |argv| :: GoodWord(argv[i])
    case Redir(cmd, file, mode, fd) => WellFormed(cmd) && GoodWord(file) && GoodMode(mode, fd)
    case Pipe(left, right) => WellFormed(left) && WellFormed(right)
    case List(left, right) => WellFormed(left) && WellFormed(right)
    case Back(cmd) => WellFormed(cmd)
  }

  function Words(argv: seq<string>): seq<Token> {
    seq(|argv|, i requires 0 <= i < |argv| => Word(argv[i]))
  }

  /** Which printers pass a tree on unchanged: a tree of one kind reaches its own printer last. */
  function Rank(c: Cmd<string>, level: nat): nat {
    var own := match c case Exec(_) => 0 case Redir(_, _, _, _) => 0 case Pipe(_, _) => 1 case Back(_) => 2 case List(_, _) => 3;
    if level >= own then level - own else level + 4 - own
  }

  function ShowSimple(c: Cmd<string>): seq<Token>
    decreases c, Rank(c, 0)
  {
    match c
    case Exec(argv) => Words(argv)
    case Redir(cmd, file, mode, fd) => ShowSimple(cmd) + [if fd == 0 then Sym('<') else Sym('>'), Word(file)]
    case _ => [Sym('(')] + ShowLine(c) + [Sym(')')]
  }

  function ShowPipeline(c: Cmd<string>): seq<Token>
    decreases c, Rank(c, 1)
  {
    match c
    case Pipe(left, right) => ShowSimple(left) + [Sym('|')] + ShowPipeline(right)
    case _ => ShowSimple(c)
  }

  function ShowBacks(c: Cmd<string>): seq<Token>
    decreases c, Rank(c, 2)
  {
    match c
    case Back(cmd) => ShowBacks(cmd) + [Sym('&')]
    case _ => ShowPipeline(c)
  }

  /** A tree as tokens, with parentheses only where the grammar needs them. */
  function ShowLine(c: Cmd<string>): seq<Token>
    decreases c, Rank(c, 3)
  {
    match c
    case List(left, right) => ShowBacks(left) + [Sym(';')] + ShowLine(right)
    case _ => ShowBacks(c)
  }

  function Spell(t: Token): string {
    match t
    case Word(w) => w
    case Sym(c) => [c]
    case Append => ">>"
  }

  function Render(toks: seq<Token>): string {
    if toks == [] then "" else Spell(toks[0]) + " " + Render(toks[1..])
  }

  function Print(c: Cmd<string>): string {
    Render(ShowLine(c))
  }
}
