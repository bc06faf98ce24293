/** The shell's command language (sh.c): tokens, the parser as functions of buffer and position, and the
    way back from a command tree to text. The buffer is what precedes the terminating zero. */
module Grammar {

  /** A token's place: from q up to, not including, eq. */
  datatype Span = Span(q: nat, eq: nat)

  /** Command trees, with words as places in a buffer or as strings. */
  datatype Cmd<W> =
    | Exec(argv: seq<W>)
    | Redir(cmd: Cmd<W>, file: W, output: bool)
    | Pipe(left: Cmd<W>, right: Cmd<W>)
    | List(left: Cmd<W>, right: Cmd<W>)
    | Back(cmd: Cmd<W>)

  /** One redirection: its file, and whether it is for output (> and >>) rather than input. */
  datatype Redirection<W> = Redirection(file: W, output: bool)

  const MAXARGS: nat := 10

  predicate White(c: char) {
    c == ' ' || c == '\t' || c == '\r' || c == '\n' || c == '\U{000B}'
  }

  predicate Symbol(c: char) {
    c == '<' || c == '|' || c == '>' || c == '&' || c == ';' || c == '(' || c == ')'
  }

  predicate WordChar(c: char) {
    !White(c) && !Symbol(c) && c != '\0'
  }

  predicate NoNul(b: string) {
    forall k :: 0 <= k < |b| ==> b[k] != '\0'
  }

  /** *s: the terminating zero at the end of the buffer. */
  function At(b: string, s: nat): char {
    if s < |b| then b[s] else '\0'
  }

  // ----- tokens -----

  function Skip(b: string, s: nat): (t: nat)
    requires s <= |b|
    ensures s <= t <= |b| && !White(At(b, t))
    decreases |b| - s
  {
    if s < |b| && White(b[s]) then Skip(b, s + 1) else s
  }

  function WordEnd(b: string, s: nat): (t: nat)
    requires s <= |b|
    ensures s <= t <= |b|
    ensures s < |b| && !White(b[s]) && !Symbol(b[s]) ==> s < t
    decreases |b| - s
  {
    if s < |b| && !White(b[s]) && !Symbol(b[s]) then WordEnd(b, s + 1) else s
  }

  /** A token: what gettoken returns, its place, and where the next one starts. ret is 'a' for a word,
      '+' for >> and '\0' at the end. */
  datatype Token = Token(ret: char, q: nat, eq: nat, s: nat)

  function GetToken(b: string, s: nat): (t: Token)
    requires s <= |b|
    ensures s <= t.q <= t.eq <= t.s <= |b| && t.s == Skip(b, t.eq)
    ensures t.q < |b| && b[t.q] != '\0' ==> t.q < t.eq
    ensures t.ret == 'a' ==> t.q < t.eq
  {
    var q := Skip(b, s);
    var c := At(b, q);
    if c == '\0' then Token(c, q, q, Skip(b, q))
    else if c == '>' then
      if At(b, q + 1) == '>' then Token('+', q, q + 2, Skip(b, q + 2)) else Token('>', q, q + 1, Skip(b, q + 1))
    else if Symbol(c) then Token(c, q, q + 1, Skip(b, q + 1))
    else Token('a', q, WordEnd(b, q), Skip(b, WordEnd(b, q)))
  }

  lemma {:induction false} WordEndMeans(b: string, s: nat)
    requires s <= |b| && NoNul(b)
    ensures forall k :: s <= k < WordEnd(b, s) ==> WordChar(b[k])
    ensures !WordChar(At(b, WordEnd(b, s)))
    decreases |b| - s
  {
    if s < |b| && !White(b[s]) && !Symbol(b[s]) { WordEndMeans(b, s + 1); }
  }

  /** A place that holds a word and ends where the word ends. */
  predicate IsWord(b: string, w: Span) {
    && w.q < w.eq <= |b|
    && (forall k :: w.q <= k < w.eq ==> WordChar(b[k]))
    && !WordChar(At(b, w.eq))
  }

  predicate Peek(b: string, s: nat, toks: string)
    requires s <= |b|
  {
    Skip(b, s) < |b| && b[Skip(b, s)] in toks
  }

  // ----- the parser -----

  function Wrap<W>(c: Cmd<W>, rs: seq<Redirection<W>>): (d: Cmd<W>)
    decreases |rs|
  {
    if |rs| == 0 then c else Wrap(Redir(c, rs[0].file, rs[0].output), rs[1..])
  }

  /** What a parsing function leaves: a tree and the position behind it, or a panic. */
  datatype Parsed = Ok(cmd: Cmd<Span>, s: nat) | Panic

  datatype Redirs = Redirs(rs: seq<Redirection<Span>>, s: nat) | NoFile

  datatype Args = Args(argv: seq<Span>, rs: seq<Redirection<Span>>, s: nat) | BadArgs

  function ParseRedirs(b: string, s: nat, rs: seq<Redirection<Span>>): (r: Redirs)
    requires s <= |b| && NoNul(b)
    ensures r.Redirs? ==> s <= r.s <= |b| && Skip(b, r.s) == r.s
    decreases |b| - s
  {
    if Peek(b, s, "<>") then
      var tok := GetToken(b, Skip(b, s));
      var f := GetToken(b, tok.s);
      if f.ret != 'a' then NoFile
      else ParseRedirs(b, f.s, rs + [Redirection(Span(f.q, f.eq), tok.ret != '<')])
    else Redirs(rs, Skip(b, s))
  }

  function ParseArgs(b: string, s: nat, argv: seq<Span>, rs: seq<Redirection<Span>>): (r: Args)
    requires s <= |b| && NoNul(b)
    ensures r.Args? ==> s <= r.s <= |b| && Skip(b, r.s) == r.s
    decreases |b| - s
  {
    if Peek(b, s, "|)&;") then Args(argv, rs, Skip(b, s))
    else
      var t := GetToken(b, s);
      if t.ret == '\0' then Args(argv, rs, t.s)
      else if t.ret != 'a' || |argv| + 1 >= MAXARGS then BadArgs
      else
        match ParseRedirs(b, t.s, rs)
        case NoFile => BadArgs
        case Redirs(rs', s') => ParseArgs(b, s', argv + [Span(t.q, t.eq)], rs')
  }

  function ParseExec(b: string, s: nat): (r: Parsed)
    requires s <= |b| && NoNul(b)
    ensures r.Ok? ==> s <= r.s <= |b| && Skip(b, r.s) == r.s
    decreases |b| - s, 1
  {
    if Peek(b, s, "(") then ParseBlock(b, s)
    else
      match ParseRedirs(b, s, [])
      case NoFile => Panic
      case Redirs(rs, s1) =>
        match ParseArgs(b, s1, [], rs)
        case BadArgs => Panic
        case Args(argv, rs', s2) => Ok(Wrap(Exec(argv), rs'), s2)
  }

  function ParseBlock(b: string, s: nat): (r: Parsed)
    requires s <= |b| && NoNul(b)
    ensures r.Ok? ==> s <= r.s <= |b| && Skip(b, r.s) == r.s
    decreases |b| - s, 0
  {
    if !Peek(b, s, "(") then Panic
    else
      match ParseLine(b, GetToken(b, Skip(b, s)).s)
      case Panic => Panic
      case Ok(cmd, s1) =>
        if !Peek(b, s1, ")") then Panic
        else
          match ParseRedirs(b, GetToken(b, Skip(b, s1)).s, [])
          case NoFile => Panic
          case Redirs(rs, s2) => Ok(Wrap(cmd, rs), s2)
  }

  function ParsePipe(b: string, s: nat): (r: Parsed)
    requires s <= |b| && NoNul(b)
    ensures r.Ok? ==> s <= r.s <= |b| && Skip(b, r.s) == r.s
    decreases |b| - s, 2
  {
    match ParseExec(b, s)
    case Panic => Panic
    case Ok(left, s1) =>
      if !Peek(b, s1, "|") then Ok(left, s1)
      else
        match ParsePipe(b, GetToken(b, Skip(b, s1)).s)
        case Panic => Panic
        case Ok(right, s2) => Ok(Pipe(left, right), s2)
  }

  /** The loop over '&' in parseline. */
  function ParseBacks(b: string, s: nat, cmd: Cmd<Span>): (r: Parsed)
    requires s <= |b| && NoNul(b)
    ensures r.Ok? && s <= r.s <= |b| && Skip(b, r.s) == r.s
    decreases |b| - s
  {
    if Peek(b, s, "&") then ParseBacks(b, GetToken(b, Skip(b, s)).s, Back(cmd)) else Ok(cmd, Skip(b, s))
  }

  function ParseLine(b: string, s: nat): (r: Parsed)
    requires s <= |b| && NoNul(b)
    ensures r.Ok? ==> s <= r.s <= |b| && Skip(b, r.s) == r.s
    decreases |b| - s, 3
  {
    match ParsePipe(b, s)
    case Panic => Panic
    case Ok(cmd, s1) =>
      var backs := ParseBacks(b, s1, cmd);
      if !Peek(b, backs.s, ";") then backs
      else
        match ParseLine(b, GetToken(b, Skip(b, backs.s)).s)
        case Panic => Panic
        case Ok(right, s2) => Ok(List(backs.cmd, right), s2)
  }

  /** parsecmd without nulterminate: the whole buffer must be one line. */
  function ParseCmd(b: string): (r: Parsed)
    requires NoNul(b)
  {
    var r := ParseLine(b, 0);
    if r.Ok? && Skip(b, r.s) == |b| then r else Panic
  }

  // ----- printing -----

  function PrintRedir(r: Redirection<string>): string {
    (if r.output then ">" else "<") + r.file
  }

  function PrintRedirs(rs: seq<Redirection<string>>): string {
    if |rs| == 0 then "" else PrintRedir(rs[0]) + PrintRedirs(rs[1..])
  }

  function PrintWords(ws: seq<string>): string {
    if |ws| == 0 then "" else " " + ws[0] + PrintWords(ws[1..])
  }

  /** A command as parseexec reads it; pipes, lists and background commands go into parentheses. */
  function PrintExec(c: Cmd<string>): string
    decreases c, if c.Exec? || c.Redir? then 0 else 4
  {
    match c
    case Exec(argv) => PrintWords(argv)
    case Redir(cmd, file, output) => PrintExec(cmd) + PrintRedir(Redirection(file, output))
    case _ => "(" + PrintLine(c) + ")"
  }

  function PrintPipe(c: Cmd<string>): string
    decreases c, if c.Exec? || c.Redir? || c.Pipe? then 1 else 5
  {
    if c.Pipe? then PrintExec(c.left) + "|" + PrintPipe(c.right) else PrintExec(c)
  }

  function PrintBacks(c: Cmd<string>): string
    decreases c, if c.List? then 6 else 2
  {
    if c.Back? then PrintBacks(c.cmd) + "&" else PrintPipe(c)
  }

  function PrintLine(c: Cmd<string>): string
    decreases c, 3
  {
    if c.List? then PrintBacks(c.left) + ";" + PrintLine(c.right) else PrintBacks(c)
  }

  predicate LegalWord(w: string) {
    |w| > 0 && forall k :: 0 <= k < |w| ==> WordChar(w[k])
  }

  /** Trees that can be typed: proper words, and no more of them in a command than argv has room for. */
  predicate Legal(c: Cmd<string>) {
    match c
    case Exec(argv) => |argv| < MAXARGS && forall k :: 0 <= k < |argv| ==> LegalWord(argv[k])
    case Redir(cmd, file, _) => Legal(cmd) && LegalWord(file)
    case Pipe(l, r) => Legal(l) && Legal(r)
    case List(l, r) => Legal(l) && Legal(r)
    case Back(cmd) => Legal(cmd)
  }
}
