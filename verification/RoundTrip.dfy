/** Printing a command tree and parsing the text gives the tree back. */
module RoundTrip {
  import opened Grammar

  // ----- reading a tree's words off the buffer -----

  function TextOf(b: string, w: Span): string {
    if w.q <= w.eq <= |b| then b[w.q..w.eq] else ""
  }

  function Words(b: string, ws: seq<Span>): (r: seq<string>) {
    seq(|ws|, k requires 0 <= k < |ws| => TextOf(b, ws[k]))
  }

  function Files(b: string, rs: seq<Redirection<Span>>): (r: seq<Redirection<string>>) {
    seq(|rs|, k requires 0 <= k < |rs| => Redirection(TextOf(b, rs[k].file), rs[k].output))
  }

  function Text(b: string, c: Cmd<Span>): (d: Cmd<string>) {
    match c
    case Exec(argv) => Exec(Words(b, argv))
    case Redir(cmd, file, output) => Redir(Text(b, cmd), TextOf(b, file), output)
    case Pipe(l, r) => Pipe(Text(b, l), Text(b, r))
    case List(l, r) => List(Text(b, l), Text(b, r))
    case Back(cmd) => Back(Text(b, cmd))
  }

  lemma {:induction false} TextWrap(b: string, c: Cmd<Span>, rs: seq<Redirection<Span>>)
    ensures Text(b, Wrap(c, rs)) == Wrap(Text(b, c), Files(b, rs))
    decreases |rs|
  {
    if |rs| > 0 {
      TextWrap(b, Redir(c, rs[0].file, rs[0].output), rs[1..]);
      assert Files(b, rs)[1..] == Files(b, rs[1..]);
    }
  }

  // ----- tokens -----

  /** The text from position s on is `t`. */
  predicate Reads(b: string, s: nat, t: string) {
    s <= |b| && b[s..] == t
  }

  lemma ReadsOn(b: string, s: nat, t: string, u: string)
    requires Reads(b, s, t + u)
    ensures s + |t| <= |b| && Reads(b, s + |t|, u)
    ensures |t| > 0 ==> At(b, s) == t[0]
    ensures |t| == 0 && |u| > 0 ==> At(b, s) == u[0]
    ensures |t + u| == 0 ==> s == |b|
  {
    assert b[s..][|t|..] == u;
    assert forall k :: 0 <= k < |t + u| ==> b[s + k] == (t + u)[k];
  }

  lemma Associate(t: string, u: string, v: string)
    ensures t + u + v == t + (u + v)
  {}

  /** What starts at s, after white space, is not white: position s itself. */
  lemma NoSkip(b: string, s: nat)
    requires s <= |b| && !White(At(b, s))
    ensures Skip(b, s) == s
  {}

  /** What may follow a word: nothing, a space or a symbol. */
  predicate EndsWord(u: string) {
    |u| > 0 ==> !WordChar(u[0]) && u[0] != '\0'
  }

  lemma {:induction false} WordEndIs(b: string, s: nat, w: string, u: string)
    requires Reads(b, s, w + u) && EndsWord(u) && forall k :: 0 <= k < |w| ==> WordChar(w[k])
    ensures WordEnd(b, s) == s + |w|
    decreases |w|
  {
    ReadsOn(b, s, w, u);
    if |w| > 0 {
      assert w + u == [w[0]] + (w[1..] + u);
      ReadsOn(b, s, [w[0]], w[1..] + u);
      WordEndIs(b, s + 1, w[1..], u);
    }
  }

  /** gettoken on a word, with or without a space before it. */
  lemma WordToken(b: string, s: nat, s0: nat, w: string, u: string)
    requires s <= |b| && Reads(b, s0, w + u) && LegalWord(w) && EndsWord(u) && Skip(b, s) == Skip(b, s0)
    ensures var t := GetToken(b, s);
      && t.ret == 'a' && t.s == Skip(b, s0 + |w|) && TextOf(b, Span(t.q, t.eq)) == w
  {
    ReadsOn(b, s0, w, u);
    NoSkip(b, s0);
    WordEndIs(b, s0, w, u);
    assert b[s0..s0 + |w|] == b[s0..][..|w|];
  }

  /** gettoken on a symbol other than '>'. */
  lemma SymbolToken(b: string, s: nat, c: char, u: string)
    requires Reads(b, s, [c] + u) && Symbol(c) && c != '>'
    ensures Skip(b, s) == s && GetToken(b, s).ret == c && GetToken(b, s).s == Skip(b, s + 1)
    ensures s < |b| && b[s] == c && Reads(b, s + 1, u)
  {
    ReadsOn(b, s, [c], u);
    NoSkip(b, s);
  }

  // ----- redirections -----

  /** What may follow a whole command: nothing, or a symbol that parseexec stops at. */
  predicate Follows(u: string) {
    |u| > 0 ==> u[0] == '|' || u[0] == ')' || u[0] == '&' || u[0] == ';'
  }

  predicate LegalRedirs(rs: seq<Redirection<string>>) {
    forall k :: 0 <= k < |rs| ==> LegalWord(rs[k].file)
  }

  lemma RedirsEnd(rs: seq<Redirection<string>>, u: string)
    requires Follows(u)
    ensures EndsWord(PrintRedirs(rs) + u)
  {}

  lemma NoRedirs(b: string, s: nat, rs: seq<Redirection<Span>>)
    requires s <= |b| && NoNul(b) && At(b, Skip(b, s)) != '<' && At(b, Skip(b, s)) != '>'
    ensures ParseRedirs(b, s, rs) == Redirs(rs, Skip(b, s))
  {}

  /** One turn of parseredirs on a printed redirection. */
  lemma RedirStep(b: string, s: nat, s0: nat, before: seq<Redirection<Span>>, r: Redirection<string>, u: string)
    returns (next: Redirection<Span>)
    requires NoNul(b) && s <= |b| && Reads(b, s0, PrintRedir(r) + u) && Skip(b, s) == Skip(b, s0) && LegalWord(r.file)
    requires EndsWord(u)
    ensures Redirection(TextOf(b, next.file), next.output) == r
    ensures s0 + |PrintRedir(r)| <= |b| && Reads(b, s0 + |PrintRedir(r)|, u)
    ensures ParseRedirs(b, s, before) == ParseRedirs(b, Skip(b, s0 + |PrintRedir(r)|), before + [next])
  {
    hide Reads, Skip, GetToken, TextOf, LegalWord, EndsWord, Peek, At;
    Associate(if r.output then ">" else "<", r.file, u);
    MarkToken(b, s, s0, r.output, r.file, u);
    ReadsOn(b, s0 + 1, r.file, u);
    var tok := GetToken(b, Skip(b, s));
    WordToken(b, tok.s, s0 + 1, r.file, u);
    var f := GetToken(b, tok.s);
    next := Redirection(Span(f.q, f.eq), tok.ret != '<');
  }

  /** gettoken on a redirection sign in front of a file name. */
  lemma MarkToken(b: string, s: nat, s0: nat, output: bool, w: string, u: string)
    requires s <= |b| && Reads(b, s0, (if output then ">" else "<") + (w + u)) && Skip(b, s) == Skip(b, s0)
    requires LegalWord(w)
    ensures s0 + 1 <= |b| && Reads(b, s0 + 1, w + u) && Skip(b, s) == s0 && Peek(b, s, "<>")
    ensures var tok := GetToken(b, Skip(b, s)); tok.s == s0 + 1 == Skip(b, s0 + 1) && (tok.ret != '<' <==> output)
  {
    ReadsOn(b, s0, if output then ">" else "<", w + u);
    NoSkip(b, s0);
    ReadsOn(b, s0 + 1, w, u);
    NoSkip(b, s0 + 1);
  }

  /** parseredirs reads the redirections that were printed, up to what follows them. */
  lemma {:induction false} RedirsBack(b: string, s: nat, s0: nat, before: seq<Redirection<Span>>,
                                      rs: seq<Redirection<string>>, u: string)
    requires NoNul(b) && s <= |b| && Reads(b, s0, PrintRedirs(rs) + u) && Skip(b, s) == Skip(b, s0) && LegalRedirs(rs)
    requires Follows(u)
    ensures var r := ParseRedirs(b, s, before);
      && r.Redirs? && r.s == s0 + |PrintRedirs(rs)| && Files(b, r.rs) == Files(b, before) + rs
    decreases |rs|
  {
    if |rs| == 0 {
      ReadsOn(b, s0, PrintRedirs(rs), u);
      NoSkip(b, s0);
      NoRedirs(b, s, before);
      assert Files(b, before) + rs == Files(b, before);
    } else {
      RedirsMore(b, s, s0, before, rs, u);
    }
  }

  lemma RedirsMore(b: string, s: nat, s0: nat, before: seq<Redirection<Span>>, rs: seq<Redirection<string>>, u: string)
    requires NoNul(b) && s <= |b| && Reads(b, s0, PrintRedirs(rs) + u) && Skip(b, s) == Skip(b, s0) && LegalRedirs(rs)
    requires Follows(u)
    requires |rs| > 0
    ensures var r := ParseRedirs(b, s, before);
      && r.Redirs? && r.s == s0 + |PrintRedirs(rs)| && Files(b, r.rs) == Files(b, before) + rs
    decreases |rs|, 0
  {
    hide PrintRedir, Files, TextOf, Follows, EndsWord, Skip, ParseRedirs, Reads, LegalWord;
    RedirsEnd(rs[1..], u);
    Associate(PrintRedir(rs[0]), PrintRedirs(rs[1..]), u);
    var next := RedirStep(b, s, s0, before, rs[0], PrintRedirs(rs[1..]) + u);
    var s1 := s0 + |PrintRedir(rs[0])|;
    SkipTwice(b, s1);
    RedirsBack(b, Skip(b, s1), s1, before + [next], rs[1..], u);
    FilesMore(b, before, next, rs);
  }

  lemma SkipTwice(b: string, s: nat)
    requires s <= |b|
    ensures Skip(b, Skip(b, s)) == Skip(b, s) <= |b|
  {}

  lemma FilesMore(b: string, before: seq<Redirection<Span>>, next: Redirection<Span>, rs: seq<Redirection<string>>)
    requires |rs| > 0 && Redirection(TextOf(b, next.file), next.output) == rs[0]
    ensures Files(b, before + [next]) + rs[1..] == Files(b, before) + rs
  {
    assert Files(b, before + [next]) == Files(b, before) + [rs[0]];
    assert Files(b, before) + [rs[0]] + rs[1..] == Files(b, before) + rs;
  }

  // ----- simple commands -----

  predicate LegalWords(ws: seq<string>) {
    forall k :: 0 <= k < |ws| ==> LegalWord(ws[k])
  }

  /** The loop of parseexec reads the words and redirections that were printed. */
  lemma {:induction false} ArgsBack(b: string, s: nat, s0: nat, argv: seq<Span>, before: seq<Redirection<Span>>,
                                    ws: seq<string>, rs: seq<Redirection<string>>, u: string)
    requires NoNul(b) && s <= |b| && Reads(b, s0, PrintWords(ws) + (PrintRedirs(rs) + u)) && Skip(b, s) == Skip(b, s0)
    requires LegalWords(ws) && LegalRedirs(rs) && Follows(u) && |argv| + |ws| < MAXARGS && (|ws| == 0 ==> |rs| == 0)
    ensures var r := ParseArgs(b, s, argv, before);
      && r.Args? && r.s == s0 + |PrintWords(ws)| + |PrintRedirs(rs)|
      && Words(b, r.argv) == Words(b, argv) + ws && Files(b, r.rs) == Files(b, before) + rs
    decreases |ws|
  {
    if |ws| == 0 {
      assert PrintWords(ws) + (PrintRedirs(rs) + u) == "" + u;
      ReadsOn(b, s0, "", u);
      NoSkip(b, s0);
      assert Words(b, argv) + ws == Words(b, argv) && Files(b, before) + rs == Files(b, before);
    } else {
      ArgsStep(b, s, s0, argv, before, ws, rs, u);
    }
  }

  /** One turn of the loop of parseexec on a printed word. */
  lemma ArgStep(b: string, s: nat, s0: nat, argv: seq<Span>, before: seq<Redirection<Span>>, w: string, u: string)
    returns (next: Span)
    requires NoNul(b) && s <= |b| && Reads(b, s0, " " + w + u) && Skip(b, s) == Skip(b, s0) && LegalWord(w)
    requires EndsWord(u)
    requires |argv| + 1 < MAXARGS
    ensures TextOf(b, next) == w && s0 + 1 + |w| <= |b| && Reads(b, s0 + 1 + |w|, u)
    ensures ParseArgs(b, s, argv, before) ==
      match ParseRedirs(b, Skip(b, s0 + 1 + |w|), before)
      case NoFile => BadArgs
      case Redirs(rs, s') => ParseArgs(b, s', argv + [next], rs)
  {
    hide Reads, Skip, GetToken, TextOf, LegalWord, EndsWord, Peek, ParseRedirs;
    ArgToken(b, s, s0, w, u);
    next := Span(GetToken(b, s).q, GetToken(b, s).eq);
  }

  lemma ArgToken(b: string, s: nat, s0: nat, w: string, u: string)
    requires s <= |b| && Reads(b, s0, " " + w + u) && Skip(b, s) == Skip(b, s0) && LegalWord(w) && EndsWord(u)
    ensures !Peek(b, s, "|)&;") && s0 + 1 + |w| <= |b| && Reads(b, s0 + 1 + |w|, u)
    ensures var t := GetToken(b, s); t.ret == 'a' && t.s == Skip(b, s0 + 1 + |w|) && TextOf(b, Span(t.q, t.eq)) == w
  {
    Associate(" ", w, u);
    ReadsOn(b, s0, " ", w + u);
    ReadsOn(b, s0 + 1, w, u);
    NoSkip(b, s0 + 1);
    WordToken(b, s, s0 + 1, w, u);
  }

  lemma ArgsStep(b: string, s: nat, s0: nat, argv: seq<Span>, before: seq<Redirection<Span>>,
                 ws: seq<string>, rs: seq<Redirection<string>>, u: string)
    requires NoNul(b) && s <= |b| && Reads(b, s0, PrintWords(ws) + (PrintRedirs(rs) + u)) && Skip(b, s) == Skip(b, s0)
    requires LegalWords(ws) && LegalRedirs(rs) && Follows(u) && |argv| + |ws| < MAXARGS && |ws| > 0
    ensures var r := ParseArgs(b, s, argv, before);
      && r.Args? && r.s == s0 + |PrintWords(ws)| + |PrintRedirs(rs)|
      && Words(b, r.argv) == Words(b, argv) + ws && Files(b, r.rs) == Files(b, before) + rs
    decreases |ws|, 0
  {
    hide Files, Words, TextOf, WordChar, Skip, At, Reads, EndsWord, Follows, ParseRedirs, ParseArgs, PrintRedirs,
      LegalWord;
    var rest := PrintWords(ws[1..]) + (PrintRedirs(rs) + u);
    Associate(" " + ws[0], PrintWords(ws[1..]), PrintRedirs(rs) + u);
    RestEnds(ws[1..], rs, u);
    var next := ArgStep(b, s, s0, argv, before, ws[0], rest);
    var s1 := s0 + 1 + |ws[0]|;
    SkipTwice(b, s1);
    WordsMore(b, argv, next, ws);
    if |ws| == 1 {
      assert rest == PrintRedirs(rs) + u;
      RedirsBack(b, Skip(b, s1), s1, before, rs, u);
      LastArg(b, s1, argv + [next], before, rs, u);
      assert ws[1..] == [] && Words(b, argv + [next]) + [] == Words(b, argv + [next]);
    } else {
      NextIsWord(b, s1, ws[1..], PrintRedirs(rs) + u);
      NoRedirs(b, Skip(b, s1), before);
      ArgsBack(b, Skip(b, s1), s1, argv + [next], before, ws[1..], rs, u);
    }
  }

  lemma RestEnds(ws: seq<string>, rs: seq<Redirection<string>>, u: string)
    requires Follows(u)
    ensures EndsWord(PrintWords(ws) + (PrintRedirs(rs) + u))
  {
    RedirsEnd(rs, u);
  }

  lemma WordsMore(b: string, argv: seq<Span>, next: Span, ws: seq<string>)
    requires |ws| > 0 && TextOf(b, next) == ws[0]
    ensures Words(b, argv + [next]) + ws[1..] == Words(b, argv) + ws
  {
    assert Words(b, argv + [next]) == Words(b, argv) + [ws[0]];
    assert Words(b, argv) + [ws[0]] + ws[1..] == Words(b, argv) + ws;
  }

  /** Before another word there is a space and then no redirection. */
  lemma NextIsWord(b: string, s: nat, ws: seq<string>, u: string)
    requires Reads(b, s, PrintWords(ws) + u) && |ws| > 0 && LegalWord(ws[0])
    ensures s < |b| && At(b, Skip(b, Skip(b, s))) != '<' && At(b, Skip(b, Skip(b, s))) != '>'
  {
    Associate(" " + ws[0], PrintWords(ws[1..]), u);
    Associate(" ", ws[0], PrintWords(ws[1..]) + u);
    ReadsOn(b, s, " ", ws[0] + (PrintWords(ws[1..]) + u));
    ReadsOn(b, s + 1, ws[0], PrintWords(ws[1..]) + u);
    NoSkip(b, s + 1);
  }

  lemma LastArg(b: string, s: nat, argv: seq<Span>, before: seq<Redirection<Span>>, rs: seq<Redirection<string>>,
                u: string)
    requires NoNul(b) && Reads(b, s, PrintRedirs(rs) + u) && Follows(u)
    requires ParseRedirs(b, Skip(b, s), before).Redirs? && ParseRedirs(b, Skip(b, s), before).s == s + |PrintRedirs(rs)|
    ensures var r := ParseRedirs(b, Skip(b, s), before);
      ParseArgs(b, r.s, argv, r.rs) == Args(argv, r.rs, r.s)
  {
    ReadsOn(b, s, PrintRedirs(rs), u);
    var r := ParseRedirs(b, Skip(b, s), before);
    hide ParseRedirs;
    ReadsOn(b, r.s, "", u);
    NoSkip(b, r.s);
  }

  // ----- one turn of each parsing function -----

  /** A symbol at the position where the parser stands. */
  lemma Sees(b: string, s: nat, c: char, u: string)
    requires Reads(b, s, [c] + u) && Symbol(c) && c != '<' && c != '>'
    ensures s < |b| && Skip(b, s) == s && b[s] == c && Reads(b, s + 1, u)
    ensures GetToken(b, s).s == Skip(b, s + 1) <= |b| && Skip(b, GetToken(b, s).s) == GetToken(b, s).s
  {
    SymbolToken(b, s, c, u);
  }

  /** What the parser sees where a command ends. */
  lemma SeesEnd(b: string, s: nat, u: string)
    requires Reads(b, s, u) && Follows(u)
    ensures Skip(b, s) == s && (|u| > 0 ==> s < |b| && b[s] == u[0]) && (|u| == 0 ==> s == |b|)
  {
    ReadsOn(b, s, "", u);
    NoSkip(b, s);
  }

  lemma ExecTurn(b: string, s: nat, rs: seq<Redirection<Span>>, s1: nat, argv: seq<Span>, rs': seq<Redirection<Span>>,
                 s2: nat)
    requires NoNul(b) && s <= |b| && !Peek(b, s, "(") && ParseRedirs(b, s, []) == Redirs(rs, s1)
    requires s1 <= |b| && ParseArgs(b, s1, [], rs) == Args(argv, rs', s2)
    ensures ParseExec(b, s) == Ok(Wrap(Exec(argv), rs'), s2)
  {}

  lemma BlockTurn(b: string, s: nat, cmd: Cmd<Span>, s1: nat, rs: seq<Redirection<Span>>, s2: nat)
    requires NoNul(b) && s <= |b| && Peek(b, s, "(") && ParseLine(b, GetToken(b, Skip(b, s)).s) == Ok(cmd, s1)
    requires s1 < |b| && Skip(b, s1) == s1 && b[s1] == ')' && ParseRedirs(b, GetToken(b, s1).s, []) == Redirs(rs, s2)
    ensures ParseExec(b, s) == Ok(Wrap(cmd, rs), s2)
  {}

  lemma PipeTurn(b: string, s: nat, left: Cmd<Span>, s1: nat)
    requires NoNul(b) && s <= |b| && ParseExec(b, s) == Ok(left, s1)
    ensures s1 <= |b| && Skip(b, s1) == s1
    ensures (s1 < |b| ==> b[s1] != '|') ==> ParsePipe(b, s) == Ok(left, s1)
    ensures s1 < |b| && b[s1] == '|' && ParsePipe(b, GetToken(b, s1).s).Ok? ==>
      ParsePipe(b, s) == Ok(Pipe(left, ParsePipe(b, GetToken(b, s1).s).cmd), ParsePipe(b, GetToken(b, s1).s).s)
  {}

  lemma BacksTurn(b: string, s: nat, cmd: Cmd<Span>)
    requires NoNul(b) && s <= |b| && Skip(b, s) == s
    ensures (s < |b| ==> b[s] != '&') ==> ParseBacks(b, s, cmd) == Ok(cmd, s)
    ensures s < |b| && b[s] == '&' ==> ParseBacks(b, s, cmd) == ParseBacks(b, GetToken(b, s).s, Back(cmd))
  {}

  lemma LineTurn(b: string, s: nat, first: Cmd<Span>, s1: nat, left: Cmd<Span>, s2: nat)
    requires NoNul(b) && s <= |b| && ParsePipe(b, s) == Ok(first, s1) && s1 <= |b|
    requires ParseBacks(b, s1, first) == Ok(left, s2)
    ensures s2 <= |b| && Skip(b, s2) == s2
    ensures (s2 < |b| ==> b[s2] != ';') ==> ParseLine(b, s) == Ok(left, s2)
    ensures s2 < |b| && b[s2] == ';' && ParseLine(b, GetToken(b, s2).s).Ok? ==>
      ParseLine(b, s) == Ok(List(left, ParseLine(b, GetToken(b, s2).s).cmd), ParseLine(b, GetToken(b, s2).s).s)
  {}

  // ----- commands of every form -----

  function Amps(k: nat): (t: string)
    ensures |t| == k
  {
    if k == 0 then "" else "&" + Amps(k - 1)
  }

  function BackN(c: Cmd<string>, k: nat): Cmd<string>
    decreases k
  {
    if k == 0 then c else BackN(Back(c), k - 1)
  }

  /** What may follow a pipeline, and what may follow a line. */
  predicate FollowsPipe(u: string) { Follows(u) && (|u| > 0 ==> u[0] != '|') }

  predicate FollowsBacks(u: string) { FollowsPipe(u) && (|u| > 0 ==> u[0] != '&') }

  predicate FollowsLine(u: string) { FollowsBacks(u) && (|u| > 0 ==> u[0] != ';') }

  /** A simple command: its words, then the redirections. */
  lemma SimpleBack(b: string, s: nat, s0: nat, argv: seq<string>, rs: seq<Redirection<string>>, u: string)
    requires NoNul(b) && s <= |b| && Reads(b, s0, PrintWords(argv) + (PrintRedirs(rs) + u)) && Skip(b, s) == Skip(b, s0)
    requires Legal(Exec(argv)) && LegalRedirs(rs) && Follows(u)
    ensures var r := ParseExec(b, s);
      && r.Ok? && r.s == s0 + |PrintWords(argv)| + |PrintRedirs(rs)| && Text(b, r.cmd) == Wrap(Exec(argv), rs)
  {
    hide Reads, Skip, ParseRedirs, ParseArgs, PrintWords, PrintRedirs, LegalWord, Follows, Files, Words, TextOf,
      ParseExec, Peek, At;
    NoParenthesis(b, s, s0, argv, rs, u);
    if |argv| == 0 {
      EmptyWords(b, s, s0, rs, u);
      RedirsBack(b, s, s0, [], rs, u);
      SkipTwice(b, s0);
      RedirsFrom(b, s, s0, rs, u);
      LastArg(b, s0, [], [], rs, u);
      var r := ParseRedirs(b, s, []);
      ExecTurn(b, s, r.rs, r.s, [], r.rs, r.s);
      TextWrap(b, Exec([]), r.rs);
      NoFiles(b, r.rs, rs, argv);
    } else {
      NextIsWord(b, s0, argv, PrintRedirs(rs) + u);
      SkipTwice(b, s0);
      NoRedirs(b, s, []);
      ArgsBack(b, Skip(b, s0), s0, [], [], argv, rs, u);
      var a := ParseArgs(b, Skip(b, s0), [], []);
      ExecTurn(b, s, [], Skip(b, s0), a.argv, a.rs, a.s);
      TextWrap(b, Exec(a.argv), a.rs);
      NoFilesArgs(b, a.argv, a.rs, argv, rs);
    }
  }

  lemma EmptyWords(b: string, s: nat, s0: nat, rs: seq<Redirection<string>>, u: string)
    requires Reads(b, s0, PrintWords([]) + (PrintRedirs(rs) + u))
    ensures Reads(b, s0, PrintRedirs(rs) + u) && PrintWords([]) == ""
  {
    assert "" + (PrintRedirs(rs) + u) == PrintRedirs(rs) + u;
  }

  lemma RedirsFrom(b: string, s: nat, s0: nat, rs: seq<Redirection<string>>, u: string)
    requires NoNul(b) && s <= |b| && s0 <= |b| && Skip(b, s) == Skip(b, s0)
    ensures ParseRedirs(b, s, []) == ParseRedirs(b, Skip(b, s0), [])
  {
    SkipTwice(b, s0);
  }

  lemma NoFiles(b: string, rs: seq<Redirection<Span>>, rs': seq<Redirection<string>>, argv: seq<string>)
    requires Files(b, rs) == Files(b, []) + rs' && |argv| == 0
    ensures Files(b, rs) == rs' && Exec(Words(b, [])) == Exec(argv)
  {
    assert Files(b, []) + rs' == rs' && Words(b, []) == argv;
  }

  lemma NoFilesArgs(b: string, argv: seq<Span>, rs: seq<Redirection<Span>>, argv': seq<string>,
                    rs': seq<Redirection<string>>)
    requires Files(b, rs) == Files(b, []) + rs' && Words(b, argv) == Words(b, []) + argv'
    ensures Files(b, rs) == rs' && Words(b, argv) == argv'
  {
    assert Files(b, []) + rs' == rs' && Words(b, []) + argv' == argv';
  }

  lemma NoParenthesis(b: string, s: nat, s0: nat, argv: seq<string>, rs: seq<Redirection<string>>, u: string)
    requires s <= |b| && Reads(b, s0, PrintWords(argv) + (PrintRedirs(rs) + u)) && Skip(b, s) == Skip(b, s0)
    requires Legal(Exec(argv)) && LegalRedirs(rs) && Follows(u)
    ensures !Peek(b, s, "(")
  {
    if |argv| > 0 {
      NextNoParenthesis(b, s0, argv, PrintRedirs(rs) + u);
    } else {
      assert "" + (PrintRedirs(rs) + u) == PrintRedirs(rs) + u;
      ReadsOn(b, s0, PrintRedirs(rs), u);
      NoSkip(b, s0);
    }
  }

  lemma NextNoParenthesis(b: string, s: nat, ws: seq<string>, u: string)
    requires Reads(b, s, PrintWords(ws) + u) && |ws| > 0 && LegalWord(ws[0])
    ensures s < |b| && At(b, Skip(b, s)) != '('
  {
    Associate(" " + ws[0], PrintWords(ws[1..]), u);
    Associate(" ", ws[0], PrintWords(ws[1..]) + u);
    ReadsOn(b, s, " ", ws[0] + (PrintWords(ws[1..]) + u));
    ReadsOn(b, s + 1, ws[0], PrintWords(ws[1..]) + u);
    NoSkip(b, s + 1);
  }

  lemma {:induction false} ExecBack(b: string, s: nat, s0: nat, c: Cmd<string>, rs: seq<Redirection<string>>, u: string)
    requires NoNul(b) && s <= |b| && Reads(b, s0, PrintExec(c) + (PrintRedirs(rs) + u)) && Skip(b, s) == Skip(b, s0)
    requires Legal(c) && LegalRedirs(rs) && Follows(u)
    ensures var r := ParseExec(b, s);
      && r.Ok? && r.s == s0 + |PrintExec(c)| + |PrintRedirs(rs)| && Text(b, r.cmd) == Wrap(c, rs)
    decreases c, if c.Exec? || c.Redir? then 0 else 4
  {
    hide Reads, Skip, PrintRedirs, PrintWords, Text, TextOf, ParseExec, LegalWord, Follows, PrintLine;
    match c {
      case Exec(argv) => SimpleBack(b, s, s0, argv, rs, u);
      case Redir(cmd, file, output) =>
        var r := Redirection(file, output);
        RedirsCons(r, rs, u);
        Associate(PrintExec(cmd), PrintRedir(r), PrintRedirs(rs) + u);
        ExecBack(b, s, s0, cmd, [r] + rs, u);
        assert ([r] + rs)[1..] == rs;
      case _ => BlockBack(b, s, s0, c, rs, u);
    }
  }

  lemma RedirsCons(r: Redirection<string>, rs: seq<Redirection<string>>, u: string)
    ensures PrintRedirs([r] + rs) + u == PrintRedir(r) + (PrintRedirs(rs) + u)
    ensures |PrintRedirs([r] + rs)| == |PrintRedir(r)| + |PrintRedirs(rs)|
  {
    assert ([r] + rs)[1..] == rs;
    Associate(PrintRedir(r), PrintRedirs(rs), u);
  }

  lemma BlockBack(b: string, s: nat, s0: nat, c: Cmd<string>, rs: seq<Redirection<string>>, u: string)
    requires NoNul(b) && s <= |b| && Reads(b, s0, PrintExec(c) + (PrintRedirs(rs) + u)) && Skip(b, s) == Skip(b, s0)
    requires Legal(c) && LegalRedirs(rs) && Follows(u) && !c.Exec? && !c.Redir?
    ensures var r := ParseExec(b, s);
      && r.Ok? && r.s == s0 + |PrintExec(c)| + |PrintRedirs(rs)| && Text(b, r.cmd) == Wrap(c, rs)
    decreases c, 4, 0
  {
    hide Reads, Skip, PrintRedirs, PrintWords, Text, TextOf, ParseExec, ParseLine, ParseRedirs, LegalWord, Legal,
      Follows, PrintLine, GetToken, Files;
    var rest := PrintRedirs(rs) + u;
    BlockShape(b, s0, c, rest);
    AfterBlock(rest);
    LineBack(b, GetToken(b, s0).s, s0 + 1, c, ")" + rest);
    var s1 := s0 + 1 + |PrintLine(c)|;
    RedirsBack(b, GetToken(b, s1).s, s1 + 1, [], rs, u);
    var l, r := ParseLine(b, GetToken(b, s0).s), ParseRedirs(b, GetToken(b, s1).s, []);
    BlockTurn(b, s, l.cmd, s1, r.rs, r.s);
    TextWrap(b, l.cmd, r.rs);
    NoFiles(b, r.rs, rs, []);
  }

  /** Where the parentheses of a block are. */
  lemma BlockShape(b: string, s0: nat, c: Cmd<string>, rest: string)
    requires Reads(b, s0, PrintExec(c) + rest) && !c.Exec? && !c.Redir?
    ensures |PrintExec(c)| == |PrintLine(c)| + 2 && Reads(b, s0 + 1, PrintLine(c) + (")" + rest))
    ensures s0 < |b| && Skip(b, s0) == s0 && b[s0] == '('
    ensures GetToken(b, s0).s == Skip(b, s0 + 1) <= |b| && Skip(b, GetToken(b, s0).s) == GetToken(b, s0).s
    ensures var s1 := s0 + 1 + |PrintLine(c)|;
      && s1 < |b| && Skip(b, s1) == s1 && b[s1] == ')' && Reads(b, s1 + 1, rest)
      && GetToken(b, s1).s == Skip(b, s1 + 1) <= |b| && Skip(b, GetToken(b, s1).s) == GetToken(b, s1).s
  {
    hide Reads, Skip, PrintLine, GetToken;
    Associate("(", PrintLine(c) + ")", rest);
    Associate("(", PrintLine(c), ")");
    Associate(PrintLine(c), ")", rest);
    Sees(b, s0, '(', PrintLine(c) + (")" + rest));
    ReadsOn(b, s0 + 1, PrintLine(c), ")" + rest);
    Sees(b, s0 + 1 + |PrintLine(c)|, ')', rest);
  }

  lemma AfterBlock(rest: string)
    ensures FollowsLine(")" + rest)
  {}

  lemma {:induction false} PipeBack(b: string, s: nat, s0: nat, c: Cmd<string>, u: string)
    requires NoNul(b) && s <= |b| && Reads(b, s0, PrintPipe(c) + u) && Skip(b, s) == Skip(b, s0) && Legal(c)
    requires FollowsPipe(u)
    ensures var r := ParsePipe(b, s); r.Ok? && r.s == s0 + |PrintPipe(c)| && Text(b, r.cmd) == c
    decreases c, if c.Exec? || c.Redir? || c.Pipe? then 1 else 5
  {
    hide Reads, Skip, ParseExec, ParsePipe, PrintExec, TextOf, GetToken;
    if c.Pipe? {
      var rest := "|" + (PrintPipe(c.right) + u);
      Associate(PrintExec(c.left), "|", PrintPipe(c.right));
      Associate(PrintExec(c.left), "|" + PrintPipe(c.right), u);
      Associate("|", PrintPipe(c.right), u);
      EmptyRedirs(rest);
      ExecBack(b, s, s0, c.left, [], rest);
      var l := ParseExec(b, s);
      ReadsOn(b, s0, PrintExec(c.left), rest);
      Sees(b, l.s, '|', PrintPipe(c.right) + u);
      PipeBack(b, GetToken(b, l.s).s, l.s + 1, c.right, u);
      PipeTurn(b, s, l.cmd, l.s);
    } else {
      EmptyRedirs(u);
      ExecBack(b, s, s0, c, [], u);
      var l := ParseExec(b, s);
      ReadsOn(b, s0, PrintExec(c), u);
      SeesEnd(b, l.s, u);
      PipeTurn(b, s, l.cmd, l.s);
    }
  }

  lemma EmptyRedirs(u: string)
    ensures PrintRedirs([]) + u == u && PrintRedirs([]) == ""
  {}

  /** The loop over '&' reads as many as were printed. */
  lemma {:induction false} AmpsBack(b: string, s: nat, s0: nat, cmd: Cmd<Span>, k: nat, u: string)
    requires NoNul(b) && s <= |b| && Reads(b, s0, Amps(k) + u) && Skip(b, s) == s == Skip(b, s0) && FollowsBacks(u)
    ensures var r := ParseBacks(b, s, cmd); r.s == s0 + k && Text(b, r.cmd) == BackN(Text(b, cmd), k)
    decreases k
  {
    hide Reads, Skip, ParseBacks, TextOf, GetToken;
    if k == 0 {
      assert "" + u == u;
      SeesEnd(b, s0, u);
      BacksTurn(b, s, cmd);
    } else {
      Associate("&", Amps(k - 1), u);
      Sees(b, s0, '&', Amps(k - 1) + u);
      BacksTurn(b, s, cmd);
      AmpsBack(b, GetToken(b, s).s, s0 + 1, Back(cmd), k - 1, u);
    }
  }

  lemma {:induction false} BacksBack(b: string, s: nat, s0: nat, c: Cmd<string>, k: nat, u: string)
    requires NoNul(b) && s <= |b| && Reads(b, s0, PrintBacks(c) + (Amps(k) + u)) && Skip(b, s) == Skip(b, s0)
    requires Legal(c) && FollowsBacks(u)
    ensures ParsePipe(b, s).Ok? && ParsePipe(b, s).s <= |b|
    ensures var t := ParseBacks(b, ParsePipe(b, s).s, ParsePipe(b, s).cmd);
      t.s == s0 + |PrintBacks(c)| + k && Text(b, t.cmd) == BackN(c, k)
    decreases c, if c.List? then 6 else 2
  {
    hide Reads, Skip, ParsePipe, ParseBacks, TextOf, GetToken, PrintPipe;
    if c.Back? {
      Associate(PrintBacks(c.cmd), "&", Amps(k) + u);
      Associate("&", Amps(k), u);
      BacksBack(b, s, s0, c.cmd, k + 1, u);
    } else {
      AmpsFollow(k, u);
      PipeBack(b, s, s0, c, Amps(k) + u);
      var r := ParsePipe(b, s);
      ReadsOn(b, s0, PrintPipe(c), Amps(k) + u);
      SeesEnd(b, r.s, Amps(k) + u);
      AmpsBack(b, r.s, r.s, r.cmd, k, u);
    }
  }

  lemma AmpsFollow(k: nat, u: string)
    requires FollowsBacks(u)
    ensures FollowsPipe(Amps(k) + u)
  {}

  lemma {:induction false} LineBack(b: string, s: nat, s0: nat, c: Cmd<string>, u: string)
    requires NoNul(b) && s <= |b| && Reads(b, s0, PrintLine(c) + u) && Skip(b, s) == Skip(b, s0) && Legal(c)
    requires FollowsLine(u)
    ensures var r := ParseLine(b, s); r.Ok? && r.s == s0 + |PrintLine(c)| && Text(b, r.cmd) == c
    decreases c, 3
  {
    hide Reads, Skip, ParseLine, Text, TextOf, PrintBacks, FollowsLine;
    if c.List? { ListBack(b, s, s0, c, u); } else { LastBack(b, s, s0, c, u); }
  }

  lemma ListBack(b: string, s: nat, s0: nat, c: Cmd<string>, u: string)
    requires NoNul(b) && s <= |b| && Reads(b, s0, PrintLine(c) + u) && Skip(b, s) == Skip(b, s0) && Legal(c)
    requires FollowsLine(u) && c.List?
    ensures var r := ParseLine(b, s); r.Ok? && r.s == s0 + |PrintLine(c)| && Text(b, r.cmd) == c
    decreases c, 3, 0
  {
    hide Reads, Skip, ParsePipe, ParseBacks, ParseLine, Text, TextOf, GetToken, PrintBacks, PrintLine, Legal, Amps;
    hide FollowsLine, FollowsPipe, Follows, FollowsBacks, IsRest;
    var rest := ListText(c, u);
    FirstBack(b, s, s0, c.left, rest);
    var s2 := s0 + |PrintBacks(c.left)|;
    ListMiddle(b, s0, c, u, rest);
    LineBack(b, GetToken(b, s2).s, s2 + 1, c.right, u);
    ListTurn(b, s, s2, c);
  }

  /** The text of a list: its first part, and the rest from the semicolon on. */
  lemma ListText(c: Cmd<string>, u: string) returns (rest: string)
    requires c.List? && Legal(c)
    ensures PrintLine(c) + u == PrintBacks(c.left) + rest && FollowsBacks(rest)
    ensures IsRest(c, u, rest)
    ensures |PrintLine(c)| == |PrintBacks(c.left)| + 1 + |PrintLine(c.right)|
    ensures Legal(c.left) && Legal(c.right)
  {
    Associate(PrintBacks(c.left), ";", PrintLine(c.right));
    Associate(PrintBacks(c.left), ";" + PrintLine(c.right), u);
    Associate(";", PrintLine(c.right), u);
    rest := ";" + (PrintLine(c.right) + u);
  }

  predicate IsRest(c: Cmd<string>, u: string, rest: string) {
    c.List? && rest == ";" + (PrintLine(c.right) + u)
  }

  lemma ListMiddle(b: string, s0: nat, c: Cmd<string>, u: string, rest: string)
    requires IsRest(c, u, rest) && Reads(b, s0, PrintBacks(c.left) + rest)
    ensures var s2 := s0 + |PrintBacks(c.left)|;
      && s2 < |b| && b[s2] == ';' && Reads(b, s2 + 1, PrintLine(c.right) + u)
      && GetToken(b, s2).s == Skip(b, s2 + 1) <= |b| && Skip(b, GetToken(b, s2).s) == GetToken(b, s2).s
  {
    hide Skip, GetToken, PrintLine, PrintBacks, Reads;
    SemicolonAfter(b, s0, PrintBacks(c.left), PrintLine(c.right) + u, rest);
  }

  lemma SemicolonAfter(b: string, s0: nat, t: string, u: string, rest: string)
    requires rest == ";" + u && Reads(b, s0, t + rest)
    ensures var s2 := s0 + |t|;
      && s2 < |b| && b[s2] == ';' && Reads(b, s2 + 1, u)
      && GetToken(b, s2).s == Skip(b, s2 + 1) <= |b| && Skip(b, GetToken(b, s2).s) == GetToken(b, s2).s
  {
    ReadsOn(b, s0, t, rest);
    hide Reads, GetToken, Skip;
    Sees(b, s0 + |t|, ';', u);
  }

  lemma FirstBack(b: string, s: nat, s0: nat, c: Cmd<string>, u: string)
    requires NoNul(b) && s <= |b| && Reads(b, s0, PrintBacks(c) + u) && Skip(b, s) == Skip(b, s0) && Legal(c)
    requires FollowsBacks(u)
    ensures ParsePipe(b, s).Ok? && ParsePipe(b, s).s <= |b|
    ensures var t := ParseBacks(b, ParsePipe(b, s).s, ParsePipe(b, s).cmd);
      t.s == s0 + |PrintBacks(c)| && Text(b, t.cmd) == c
    decreases c, if c.List? then 7 else 3, 0
  {
    hide Reads, Skip, ParsePipe, ParseBacks, Text, TextOf, PrintBacks, FollowsBacks, Legal;
    assert Amps(0) + u == u;
    BacksBack(b, s, s0, c, 0, u);
  }

  /** parseline on a list whose two parts have been read back. */
  lemma ListTurn(b: string, s: nat, s2: nat, c: Cmd<string>)
    requires NoNul(b) && s <= |b| && c.List? && s2 < |b| && b[s2] == ';'
    requires ParsePipe(b, s).Ok? && ParsePipe(b, s).s <= |b|
    requires var t := ParseBacks(b, ParsePipe(b, s).s, ParsePipe(b, s).cmd); t.s == s2 && Text(b, t.cmd) == c.left
    requires ParseLine(b, GetToken(b, s2).s).Ok? && Text(b, ParseLine(b, GetToken(b, s2).s).cmd) == c.right
    ensures ParseLine(b, s).Ok? && ParseLine(b, s).s == ParseLine(b, GetToken(b, s2).s).s
    ensures Text(b, ParseLine(b, s).cmd) == c
  {
    hide Skip, ParsePipe, ParseBacks, ParseLine, Text, GetToken;
    var r := ParsePipe(b, s);
    var t := ParseBacks(b, r.s, r.cmd);
    LineTurn(b, s, r.cmd, r.s, t.cmd, t.s);
    TextList(b, t.cmd, ParseLine(b, GetToken(b, s2).s).cmd);
  }

  lemma TextList(b: string, l: Cmd<Span>, r: Cmd<Span>)
    ensures Text(b, List(l, r)) == List(Text(b, l), Text(b, r))
  {}

  lemma LastBack(b: string, s: nat, s0: nat, c: Cmd<string>, u: string)
    requires NoNul(b) && s <= |b| && Reads(b, s0, PrintBacks(c) + u) && Skip(b, s) == Skip(b, s0) && Legal(c)
    requires FollowsLine(u) && !c.List?
    ensures var r := ParseLine(b, s); r.Ok? && r.s == s0 + |PrintBacks(c)| && Text(b, r.cmd) == c
    decreases c, 3, 1
  {
    hide Reads, Skip, ParsePipe, ParseBacks, ParseLine, Text, TextOf, PrintBacks, Legal;
    FirstBack(b, s, s0, c, u);
    var r := ParsePipe(b, s);
    var t := ParseBacks(b, r.s, r.cmd);
    ReadsOn(b, s0, PrintBacks(c), u);
    SeesEnd(b, t.s, u);
    LineTurn(b, s, r.cmd, r.s, t.cmd, t.s);
  }

  // ----- the whole command line -----

  /** Parsing the text of a command tree gives back the tree. */
  lemma ParsePrint(c: Cmd<string>)
    requires Legal(c)
    ensures NoNul(PrintLine(c))
    ensures ParseCmd(PrintLine(c)).Ok? && Text(PrintLine(c), ParseCmd(PrintLine(c)).cmd) == c
  {
    PrintedNoNul(c);
    var b := PrintLine(c);
    assert b == b + "" && b[0..] == b;
    LineBack(b, 0, 0, c, "");
    var r := ParseLine(b, 0);
    NoSkip(b, r.s);
  }

  /** No zero byte is printed. */
  lemma PrintedNoNul(c: Cmd<string>)
    requires Legal(c)
    ensures NoNul(PrintLine(c)) && NoNul(PrintBacks(c)) && NoNul(PrintPipe(c)) && NoNul(PrintExec(c))
  {
    match c {
      case Exec(argv) =>
        WordsNoNul(argv);
        assert NoNul(PrintExec(c)) && NoNul(PrintPipe(c)) && NoNul(PrintBacks(c));
      case Redir(cmd, _, _) =>
        PrintedNoNul(cmd);
        assert NoNul(PrintExec(c)) && NoNul(PrintPipe(c)) && NoNul(PrintBacks(c));
      case Pipe(l, r) =>
        PrintedNoNul(l);
        PrintedNoNul(r);
        assert NoNul(PrintPipe(c)) && NoNul(PrintBacks(c)) && NoNul(PrintLine(c));
      case List(l, r) =>
        PrintedNoNul(l);
        PrintedNoNul(r);
        assert NoNul(PrintLine(c)) && NoNul(PrintExec(c)) && NoNul(PrintPipe(c));
      case Back(cmd) =>
        PrintedNoNul(cmd);
        assert NoNul(PrintBacks(c)) && NoNul(PrintLine(c)) && NoNul(PrintExec(c)) && NoNul(PrintPipe(c));
    }
  }

  lemma WordsNoNul(ws: seq<string>)
    requires LegalWords(ws)
    ensures NoNul(PrintWords(ws))
  {}
}
