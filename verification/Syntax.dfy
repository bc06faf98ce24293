/** The shell's command language as a grammar over tokens, and the parser against it: parsecmd accepts
    exactly the lines of the grammar, with the tree that the grammar gives. */
module Syntax {
  import opened Grammar

  // ----- tokens -----

  const Whitespace: string := " \t\r\n\U{000B}"
  const Symbols: string := "<|>&;()"

  predicate IsBlank(c: char) { c in Whitespace }

  predicate IsSymbol(c: char) { c in Symbols }

  predicate Plain(c: char) { c != '\0' && !IsBlank(c) && !IsSymbol(c) }

  /** A token and its place. kind is the symbol itself, '+' for >>, and 'a' for a word. */
  datatype Tok = Tok(kind: char, q: nat, eq: nat)

  function Place(t: Tok): (w: Span) { Span(t.q, t.eq) }

  /** A word goes as far as it can, and so does the sign >>. */
  predicate IsTok(b: string, t: Tok) {
    if t.kind == 'a' then
      t.q < t.eq <= |b| && (forall k :: t.q <= k < t.eq ==> Plain(b[k])) && (t.eq < |b| ==> !Plain(b[t.eq]))
    else if t.kind == '+' then t.eq == t.q + 2 <= |b| && b[t.q] == '>' && b[t.q + 1] == '>'
    else
      && t.eq == t.q + 1 <= |b| && b[t.q] == t.kind && IsSymbol(t.kind)
      && (t.kind == '>' && t.eq < |b| ==> b[t.eq] != '>')
  }

  predicate Blank(b: string, from: nat, to: nat)
    requires to <= |b|
  {
    forall k :: from <= k < to ==> IsBlank(b[k])
  }

  /** From s on, the buffer is these tokens with white space between, before and behind them, or none. */
  predicate Scans(b: string, s: nat, ts: seq<Tok>)
    requires s <= |b|
    decreases |ts|
  {
    if |ts| == 0 then Blank(b, s, |b|)
    else s <= ts[0].q && IsTok(b, ts[0]) && Blank(b, s, ts[0].q) && ts[0].eq <= |b| && Scans(b, ts[0].eq, ts[1..])
  }

  // ----- the grammar -----

  /** Redirections: a sign and a word each, < for input, > and >> for output. */
  predicate IsRedir(sign: Tok, word: Tok, r: Redirection<Span>) {
    && word.kind == 'a' && r.file == Place(word)
    && ((sign.kind == '<' && !r.output) || (sign.kind == '>' && r.output) || (sign.kind == '+' && r.output))
  }

  /** One thing after the other in a simple command. */
  datatype Item = Argument(w: Span) | Redirecting(r: Redirection<Span>)

  predicate IsItems(ts: seq<Tok>, items: seq<Item>)
    decreases |items|
  {
    if |items| == 0 then ts == []
    else
      match items[0]
      case Argument(w) => |ts| > 0 && ts[0].kind == 'a' && w == Place(ts[0]) && IsItems(ts[1..], items[1..])
      case Redirecting(r) => |ts| > 1 && IsRedir(ts[0], ts[1], r) && IsItems(ts[2..], items[1..])
  }

  function Arguments(items: seq<Item>): (ws: seq<Span>) {
    if |items| == 0 then []
    else (if items[0].Argument? then [items[0].w] else []) + Arguments(items[1..])
  }

  function Redirections(items: seq<Item>): (rs: seq<Redirection<Span>>) {
    if |items| == 0 then []
    else (if items[0].Redirecting? then [items[0].r] else []) + Redirections(items[1..])
  }

  /** c is the command `core` under these redirections, the last of them outermost. */
  predicate Under(c: Cmd<Span>, core: Cmd<Span>, rs: seq<Redirection<Span>>)
    decreases |rs|
  {
    if |rs| == 0 then c == core
    else
      var r := rs[|rs| - 1];
      c.Redir? && c.file == r.file && c.output == r.output && Under(c.cmd, core, rs[..|rs| - 1])
  }

  /** Arguments, at most nine, and redirections, in any order. */
  ghost predicate IsSimple(ts: seq<Tok>, c: Cmd<Span>) {
    exists items :: SimpleWith(ts, c, items)
  }

  predicate SimpleWith(ts: seq<Tok>, c: Cmd<Span>, items: seq<Item>) {
    IsItems(ts, items) && |Arguments(items)| <= 9 && Under(c, Exec(Arguments(items)), Redirections(items))
  }

  predicate IsRedirs(ts: seq<Tok>, rs: seq<Redirection<Span>>)
    decreases |rs|
  {
    if |rs| == 0 then ts == [] else |ts| > 1 && IsRedir(ts[0], ts[1], rs[0]) && IsRedirs(ts[2..], rs[1..])
  }

  /** A line in parentheses, and redirections behind it. */
  ghost predicate IsBlock(ts: seq<Tok>, c: Cmd<Span>)
    decreases |ts|, 1
  {
    exists i, core, rs :: BlockWith(ts, c, i, core, rs)
  }

  ghost predicate BlockWith(ts: seq<Tok>, c: Cmd<Span>, i: int, core: Cmd<Span>, rs: seq<Redirection<Span>>)
    decreases |ts|, 0
  {
    && 0 < i < |ts| && ts[0].kind == '(' && ts[i].kind == ')'
    && IsLine(ts[1..i], core) && IsRedirs(ts[i + 1..], rs) && Under(c, core, rs)
  }

  ghost predicate IsExec(ts: seq<Tok>, c: Cmd<Span>)
    decreases |ts|, 2
  {
    IsSimple(ts, c) || IsBlock(ts, c)
  }

  /** Commands with | between them. */
  ghost predicate IsPipe(ts: seq<Tok>, c: Cmd<Span>)
    decreases |ts|, 3
  {
    || IsExec(ts, c)
    || exists i :: PipeAt(ts, c, i)
  }

  ghost predicate PipeAt(ts: seq<Tok>, c: Cmd<Span>, i: int)
    decreases |ts|, 2
  {
    && 0 <= i < |ts| && ts[i].kind == '|' && c.Pipe?
    && IsExec(ts[..i], c.left) && IsPipe(ts[i + 1..], c.right)
  }

  /** A pipe with any number of & behind it. */
  ghost predicate IsBacks(ts: seq<Tok>, c: Cmd<Span>)
    decreases |ts|, 4
  {
    || IsPipe(ts, c)
    || (c.Back? && |ts| > 0 && ts[|ts| - 1].kind == '&' && IsBacks(ts[..|ts| - 1], c.cmd))
  }

  /** Those with ; between them. */
  ghost predicate IsLine(ts: seq<Tok>, c: Cmd<Span>)
    decreases |ts|, 5
  {
    || IsBacks(ts, c)
    || exists i :: ListAt(ts, c, i)
  }

  ghost predicate ListAt(ts: seq<Tok>, c: Cmd<Span>, i: int)
    decreases |ts|, 4
  {
    && 0 <= i < |ts| && ts[i].kind == ';' && c.List?
    && IsBacks(ts[..i], c.left) && IsLine(ts[i + 1..], c.right)
  }

  /** b is a command line, and c is its tree. */
  ghost predicate InLanguage(b: string, c: Cmd<Span>) {
    exists ts :: Scans(b, 0, ts) && IsLine(ts, c)
  }

  // ----- the parser's view of tokens -----

  lemma Classes()
    ensures forall c :: White(c) == IsBlank(c)
    ensures forall c :: Symbol(c) == IsSymbol(c)
    ensures forall c :: WordChar(c) == Plain(c)
  {}

  lemma {:induction false} SkipBlank(b: string, s: nat, t: nat)
    requires s <= t <= |b| && Blank(b, s, t) && !White(At(b, t))
    ensures Skip(b, s) == t
    decreases t - s
  {
    Classes();
    hide IsBlank;
    if s < t { SkipBlank(b, s + 1, t); }
  }

  lemma {:induction false} SkipIsBlank(b: string, s: nat)
    requires s <= |b|
    ensures Blank(b, s, Skip(b, s))
    decreases |b| - s
  {
    Classes();
    hide IsBlank;
    if s < |b| && White(b[s]) { SkipIsBlank(b, s + 1); }
  }

  lemma {:induction false} WordEndIs(b: string, s: nat, t: nat)
    requires s <= t <= |b| && (forall k :: s <= k < t ==> WordChar(b[k])) && !WordChar(At(b, t)) && NoNul(b)
    ensures WordEnd(b, s) == t
    decreases t - s
  {
    if s < t { WordEndIs(b, s + 1, t); }
  }

  /** White space before the first token does not matter. */
  lemma ScansSkip(b: string, s: nat, ts: seq<Tok>)
    requires s <= |b| && NoNul(b) && Scans(b, s, ts)
    ensures Skip(b, s) == (if |ts| == 0 then |b| else ts[0].q) && Scans(b, Skip(b, s), ts)
  {
    if |ts| == 0 { SkipBlank(b, s, |b|); } else { SkipBlank(b, s, ts[0].q); }
  }

  lemma TokAt(b: string, s: nat, t: Tok)
    requires s <= |b| && NoNul(b) && IsTok(b, t) && t.eq <= |b| && Skip(b, s) == t.q
    ensures GetToken(b, s) == Token(t.kind, t.q, t.eq, Skip(b, t.eq))
    ensures GetToken(b, Skip(b, s)) == GetToken(b, s)
  {
    assert Skip(b, t.q) == t.q;
    hide Skip;
    if t.kind == 'a' { WordEndIs(b, t.q, t.eq); }
  }

  /** What gettoken finds. */
  lemma NextTok(b: string, s: nat, ts: seq<Tok>)
    requires s <= |b| && NoNul(b) && Scans(b, s, ts)
    ensures |ts| == 0 ==> GetToken(b, s) == Token('\0', |b|, |b|, |b|)
    ensures |ts| > 0 ==>
      && ts[0].eq <= |b| && GetToken(b, s) == Token(ts[0].kind, ts[0].q, ts[0].eq, Skip(b, ts[0].eq))
      && Scans(b, GetToken(b, s).s, ts[1..])
    ensures GetToken(b, Skip(b, s)) == GetToken(b, s)
  {
    ScansSkip(b, s, ts);
    if |ts| > 0 {
      ScansSkip(b, ts[0].eq, ts[1..]);
      TokAt(b, s, ts[0]);
    }
  }

  /** What peek finds. */
  lemma PeekTok(b: string, s: nat, ts: seq<Tok>)
    requires s <= |b| && NoNul(b) && Scans(b, s, ts)
    ensures Peek(b, s, "(") <==> |ts| > 0 && ts[0].kind == '('
    ensures Peek(b, s, ")") <==> |ts| > 0 && ts[0].kind == ')'
    ensures Peek(b, s, "|") <==> |ts| > 0 && ts[0].kind == '|'
    ensures Peek(b, s, "&") <==> |ts| > 0 && ts[0].kind == '&'
    ensures Peek(b, s, ";") <==> |ts| > 0 && ts[0].kind == ';'
    ensures Peek(b, s, "<>") <==> |ts| > 0 && IsSign(ts[0])
    ensures Peek(b, s, "|)&;") <==> |ts| > 0 && Stops(ts[0])
  {
    ScansSkip(b, s, ts);
  }

  predicate IsSign(t: Tok) { t.kind == '<' || t.kind == '>' || t.kind == '+' }

  predicate Stops(t: Tok) { t.kind == '|' || t.kind == ')' || t.kind == '&' || t.kind == ';' }

  /** The tokens that the parser sees. */
  function Lex(b: string, s: nat): (ts: seq<Tok>)
    requires s <= |b| && NoNul(b)
    decreases |b| - s
  {
    var t := GetToken(b, s);
    if t.ret == '\0' then [] else assert t.q < |b|; [Tok(t.ret, t.q, t.eq)] + Lex(b, t.eq)
  }

  lemma {:induction false} LexScans(b: string, s: nat)
    requires s <= |b| && NoNul(b)
    ensures Scans(b, s, Lex(b, s))
    decreases |b| - s
  {
    var t := GetToken(b, s);
    SkipIsBlank(b, s);
    TokenIsTok(b, s);
    hide GetToken, Skip, IsTok;
    if t.ret != '\0' {
      LexScans(b, t.eq);
      var ts := Lex(b, s);
      assert ts[1..] == Lex(b, t.eq);
    }
  }

  lemma TokenIsTok(b: string, s: nat)
    requires s <= |b| && NoNul(b)
    ensures var t := GetToken(b, s);
      && t.q == Skip(b, s)
      && if t.ret == '\0' then t.q == |b| else t.q < |b| && IsTok(b, Tok(t.ret, t.q, t.eq))
  {
    hide Skip;
    WordEndMeans(b, Skip(b, s));
  }

  // ----- the parser at a token -----

  /** Position s is behind token i - 1 and not behind token i. */
  predicate OnTok(b: string, us: seq<Tok>, i: nat, s: nat) {
    s <= |b| && i <= |us| && Scans(b, s, us[i..])
  }

  /** Where token i starts. */
  function From(b: string, us: seq<Tok>, i: nat): nat {
    if i < |us| then us[i].q else |b|
  }

  predicate Sees(us: seq<Tok>, i: nat, kind: char) {
    i < |us| && us[i].kind == kind
  }

  lemma Here(b: string, us: seq<Tok>, i: nat, s: nat)
    requires NoNul(b) && OnTok(b, us, i, s)
    ensures Skip(b, s) == From(b, us, i) && OnTok(b, us, i, From(b, us, i))
    ensures GetToken(b, Skip(b, s)) == GetToken(b, s)
    ensures i == |us| ==> GetToken(b, s).ret == '\0' && GetToken(b, s).s == |b|
    ensures i < |us| ==>
      && GetToken(b, s) == Token(us[i].kind, us[i].q, us[i].eq, From(b, us, i + 1))
      && OnTok(b, us, i + 1, From(b, us, i + 1)) && us[i].kind != '\0' && us[i].q < |b|
  {
    hide GetToken, Skip, Peek;
    ScansSkip(b, s, us[i..]);
    NextTok(b, s, us[i..]);
    if i < |us| {
      assert us[i..][1..] == us[i + 1..];
      ScansSkip(b, us[i].eq, us[i + 1..]);
    }
  }

  lemma Ahead(b: string, us: seq<Tok>, i: nat, s: nat)
    requires NoNul(b) && OnTok(b, us, i, s)
    ensures Peek(b, s, "(") <==> Sees(us, i, '(')
    ensures Peek(b, s, ")") <==> Sees(us, i, ')')
    ensures Peek(b, s, "|") <==> Sees(us, i, '|')
    ensures Peek(b, s, "&") <==> Sees(us, i, '&')
    ensures Peek(b, s, ";") <==> Sees(us, i, ';')
    ensures Peek(b, s, "<>") <==> i < |us| && IsSign(us[i])
    ensures Peek(b, s, "|)&;") <==> i < |us| && Stops(us[i])
  {
    hide Peek, Scans;
    PeekTok(b, s, us[i..]);
  }

  // ----- redirections -----

  lemma {:induction false} UnderIs(c: Cmd<Span>, core: Cmd<Span>, rs: seq<Redirection<Span>>)
    ensures Under(c, core, rs) <==> c == Wrap(core, rs)
    decreases |rs|
  {
    if |rs| > 0 {
      var n := |rs| - 1;
      WrapLast(core, rs[..n], rs[n]);
      assert rs == rs[..n] + [rs[n]];
      if c.Redir? { UnderIs(c.cmd, core, rs[..n]); }
    }
  }

  lemma {:induction false} WrapLast(core: Cmd<Span>, rs: seq<Redirection<Span>>, r: Redirection<Span>)
    ensures Wrap(core, rs + [r]) == Redir(Wrap(core, rs), r.file, r.output)
    decreases |rs|
  {
    if |rs| > 0 {
      assert (rs + [r])[1..] == rs[1..] + [r];
      WrapLast(Redir(core, rs[0].file, rs[0].output), rs[1..], r);
    }
  }

  /** parseredirs at a sign. */
  lemma RedirTurn(b: string, us: seq<Tok>, i: nat, s: nat, rs: seq<Redirection<Span>>)
    requires NoNul(b) && OnTok(b, us, i, s)
    ensures !(i < |us| && IsSign(us[i])) ==> ParseRedirs(b, s, rs) == Redirs(rs, From(b, us, i))
    ensures i < |us| && IsSign(us[i]) && !Sees(us, i + 1, 'a') ==> ParseRedirs(b, s, rs) == NoFile
    ensures i < |us| && IsSign(us[i]) && Sees(us, i + 1, 'a') ==>
      && OnTok(b, us, i + 2, From(b, us, i + 2))
      && ParseRedirs(b, s, rs) == ParseRedirs(b, From(b, us, i + 2), rs + [RedirOf(us, i)])
  {
    hide Peek, GetToken, Skip, Scans;
    Ahead(b, us, i, s);
    Here(b, us, i, s);
    if i < |us| && IsSign(us[i]) { Here(b, us, i + 1, From(b, us, i + 1)); }
  }

  function RedirOf(us: seq<Tok>, i: nat): (r: Redirection<Span>)
    requires i + 1 < |us|
    ensures us[i + 1].kind == 'a' && IsSign(us[i]) ==> IsRedir(us[i], us[i + 1], r)
  {
    Redirection(Place(us[i + 1]), us[i].kind != '<')
  }

  lemma {:induction false} RedirsComplete(b: string, us: seq<Tok>, i: nat, k: nat, s: nat,
    rs: seq<Redirection<Span>>, more: seq<Redirection<Span>>)
    requires NoNul(b) && OnTok(b, us, i, s) && i <= k <= |us|
    requires IsRedirs(us[i..k], more) && (k < |us| ==> !IsSign(us[k]))
    ensures ParseRedirs(b, s, rs) == Redirs(rs + more, From(b, us, k))
    decreases |more|
  {
    hide ParseRedirs, Scans, OnTok;
    RedirTurn(b, us, i, s, rs);
    if |more| > 0 {
      assert us[i..k][2..] == us[i + 2..k];
      assert RedirOf(us, i) == more[0];
      assert rs + more == rs + [more[0]] + more[1..];
      RedirsComplete(b, us, i + 2, k, From(b, us, i + 2), rs + [more[0]], more[1..]);
    } else {
      assert rs + more == rs;
    }
  }

  lemma {:induction false} RedirsSound(b: string, us: seq<Tok>, i: nat, s: nat, rs: seq<Redirection<Span>>)
    returns (k: nat, more: seq<Redirection<Span>>)
    requires NoNul(b) && OnTok(b, us, i, s) && ParseRedirs(b, s, rs).Redirs?
    ensures i <= k <= |us| && IsRedirs(us[i..k], more)
    ensures ParseRedirs(b, s, rs) == Redirs(rs + more, From(b, us, k)) && OnTok(b, us, k, From(b, us, k))
    decreases |us| - i
  {
    hide ParseRedirs, Scans;
    RedirTurn(b, us, i, s, rs);
    Here(b, us, i, s);
    if i < |us| && IsSign(us[i]) {
      k, more := RedirsSound(b, us, i + 2, From(b, us, i + 2), rs + [RedirOf(us, i)]);
      assert us[i..k][2..] == us[i + 2..k];
      assert rs + [RedirOf(us, i)] + more == rs + ([RedirOf(us, i)] + more);
      more := [RedirOf(us, i)] + more;
    } else {
      k, more := i, [];
      assert rs + more == rs;
    }
  }

  // ----- simple commands -----

  /** parseexec from its first parseredirs on. */
  function Words(b: string, s: nat, argv: seq<Span>, rs: seq<Redirection<Span>>): (r: Args)
    requires s <= |b| && NoNul(b)
  {
    match ParseRedirs(b, s, rs)
    case NoFile => BadArgs
    case Redirs(rs', s') => ParseArgs(b, s', argv, rs')
  }

  lemma WordsTurn(b: string, us: seq<Tok>, i: nat, s: nat, argv: seq<Span>, rs: seq<Redirection<Span>>)
    requires NoNul(b) && OnTok(b, us, i, s)
    ensures i == |us| || Stops(us[i]) ==> Words(b, s, argv, rs) == Args(argv, rs, From(b, us, i))
    ensures i < |us| && IsSign(us[i]) && !Sees(us, i + 1, 'a') ==> Words(b, s, argv, rs) == BadArgs
    ensures i < |us| && IsSign(us[i]) && Sees(us, i + 1, 'a') ==>
      && OnTok(b, us, i + 2, From(b, us, i + 2))
      && Words(b, s, argv, rs) == Words(b, From(b, us, i + 2), argv, rs + [RedirOf(us, i)])
    ensures i < |us| && us[i].kind == 'a' && |argv| < 9 ==>
      && OnTok(b, us, i + 1, From(b, us, i + 1))
      && Words(b, s, argv, rs) == Words(b, From(b, us, i + 1), argv + [Place(us[i])], rs)
    ensures i < |us| && !IsSign(us[i]) && !Stops(us[i]) && (us[i].kind != 'a' || |argv| >= 9) ==>
      Words(b, s, argv, rs) == BadArgs
  {
    hide Peek, GetToken, Skip, Scans, ParseRedirs;
    RedirTurn(b, us, i, s, rs);
    Here(b, us, i, s);
    var f := From(b, us, i);
    if !(i < |us| && IsSign(us[i])) {
      Ahead(b, us, i, f);
      Here(b, us, i, f);
    }
  }

  lemma {:induction false} WordsComplete(b: string, us: seq<Tok>, i: nat, k: nat, s: nat, argv: seq<Span>,
    rs: seq<Redirection<Span>>, items: seq<Item>)
    requires NoNul(b) && OnTok(b, us, i, s) && i <= k <= |us|
    requires IsItems(us[i..k], items) && |argv| + |Arguments(items)| <= 9 && (k < |us| ==> Stops(us[k]))
    ensures Words(b, s, argv, rs) == Args(argv + Arguments(items), rs + Redirections(items), From(b, us, k))
    decreases |items|
  {
    hide Words, Scans, OnTok;
    WordsTurn(b, us, i, s, argv, rs);
    if |items| == 0 {
      assert argv + Arguments(items) == argv && rs + Redirections(items) == rs;
    } else {
      match items[0] {
        case Argument(w) =>
          assert us[i..k][1..] == us[i + 1..k];
          WordsComplete(b, us, i + 1, k, From(b, us, i + 1), argv + [w], rs, items[1..]);
        case Redirecting(r) =>
          assert us[i..k][2..] == us[i + 2..k];
          assert RedirOf(us, i) == r;
          WordsComplete(b, us, i + 2, k, From(b, us, i + 2), argv, rs + [r], items[1..]);
      }
      ItemsNext(items, argv, rs);
    }
  }

  lemma ItemsNext(items: seq<Item>, argv: seq<Span>, rs: seq<Redirection<Span>>)
    requires |items| > 0
    ensures items[0].Argument? ==>
      && argv + [items[0].w] + Arguments(items[1..]) == argv + Arguments(items)
      && rs + Redirections(items[1..]) == rs + Redirections(items)
      && |Arguments(items)| == 1 + |Arguments(items[1..])|
    ensures items[0].Redirecting? ==>
      && argv + Arguments(items[1..]) == argv + Arguments(items)
      && rs + [items[0].r] + Redirections(items[1..]) == rs + Redirections(items)
      && |Arguments(items)| == |Arguments(items[1..])|
  {
    var ws, qs := Arguments(items[1..]), Redirections(items[1..]);
    Associate(argv, if items[0].Argument? then [items[0].w] else [], ws);
    Associate(rs, if items[0].Redirecting? then [items[0].r] else [], qs);
  }

  lemma FromEmpty<T>(x: seq<T>)
    ensures [] + x == x
  {}

  lemma Associate<T>(x: seq<T>, y: seq<T>, z: seq<T>)
    ensures (x + y) + z == x + (y + z) && [] + z == z
  {}

  lemma {:induction false} WordsSound(b: string, us: seq<Tok>, i: nat, s: nat, argv: seq<Span>,
    rs: seq<Redirection<Span>>)
    returns (k: nat, items: seq<Item>)
    requires NoNul(b) && OnTok(b, us, i, s) && Words(b, s, argv, rs).Args? && |argv| <= 9
    ensures i <= k <= |us| && IsItems(us[i..k], items) && |argv| + |Arguments(items)| <= 9
    ensures Words(b, s, argv, rs) == Args(argv + Arguments(items), rs + Redirections(items), From(b, us, k))
    ensures OnTok(b, us, k, From(b, us, k))
    decreases |us| - i
  {
    hide Words, Scans;
    WordsTurn(b, us, i, s, argv, rs);
    Here(b, us, i, s);
    if i == |us| || Stops(us[i]) {
      k, items := i, [];
      assert argv + Arguments(items) == argv && rs + Redirections(items) == rs;
    } else if IsSign(us[i]) {
      var rest;
      k, rest := WordsSound(b, us, i + 2, From(b, us, i + 2), argv, rs + [RedirOf(us, i)]);
      items := [Redirecting(RedirOf(us, i))] + rest;
      assert items[1..] == rest && us[i..k][2..] == us[i + 2..k];
      ItemsNext(items, argv, rs);
    } else {
      var rest;
      k, rest := WordsSound(b, us, i + 1, From(b, us, i + 1), argv + [Place(us[i])], rs);
      items := [Argument(Place(us[i]))] + rest;
      assert items[1..] == rest && us[i..k][1..] == us[i + 1..k];
      ItemsNext(items, argv, rs);
    }
  }

  // ----- commands -----

  /** What may stand behind a command, a pipe, a line. */
  predicate AfterExec(us: seq<Tok>, k: nat) { k < |us| ==> Stops(us[k]) }
  predicate AfterPipe(us: seq<Tok>, k: nat) { k < |us| ==> Stops(us[k]) && us[k].kind != '|' }
  predicate AfterLine(us: seq<Tok>, k: nat) { k < |us| ==> us[k].kind == ')' }

  function OkArgs(a: Args): Parsed {
    if a.Args? then Ok(Wrap(Exec(a.argv), a.rs), a.s) else Panic
  }

  function OkRedirs(core: Cmd<Span>, r: Redirs): Parsed {
    if r.Redirs? then Ok(Wrap(core, r.rs), r.s) else Panic
  }

  function OkPipe(left: Cmd<Span>, r: Parsed): Parsed {
    if r.Ok? then Ok(Pipe(left, r.cmd), r.s) else Panic
  }

  function OkList(left: Cmd<Span>, r: Parsed): Parsed {
    if r.Ok? then Ok(List(left, r.cmd), r.s) else Panic
  }

  /** parseexec, parseblock, parsepipe and parseline at a token. */
  lemma ExecTurn(b: string, us: seq<Tok>, i: nat, s: nat)
    requires NoNul(b) && OnTok(b, us, i, s)
    ensures Sees(us, i, '(') ==> ParseExec(b, s) == ParseBlock(b, s)
    ensures !Sees(us, i, '(') ==> ParseExec(b, s) == OkArgs(Words(b, s, [], []))
  {
    hide Peek, Scans, ParseBlock, ParseRedirs, ParseArgs, Wrap;
    Ahead(b, us, i, s);
  }

  lemma BlockTurn(b: string, us: seq<Tok>, i: nat, j: nat, s: nat, core: Cmd<Span>)
    requires NoNul(b) && OnTok(b, us, i, s) && Sees(us, i, '(')
    ensures OnTok(b, us, i + 1, From(b, us, i + 1))
    ensures ParseBlock(b, s).Ok? ==> ParseLine(b, From(b, us, i + 1)).Ok?
    ensures OnTok(b, us, j, From(b, us, j)) && ParseLine(b, From(b, us, i + 1)) == Ok(core, From(b, us, j)) ==>
      if !Sees(us, j, ')') then ParseBlock(b, s) == Panic
      else (
        && OnTok(b, us, j + 1, From(b, us, j + 1))
        && ParseBlock(b, s) == OkRedirs(core, ParseRedirs(b, From(b, us, j + 1), [])))
  {
    hide Peek, Scans, ParseLine, ParseRedirs, GetToken, Skip, Wrap;
    Ahead(b, us, i, s);
    Here(b, us, i, s);
    if OnTok(b, us, j, From(b, us, j)) {
      Ahead(b, us, j, From(b, us, j));
      Here(b, us, j, From(b, us, j));
    }
  }

  lemma PipeTurn(b: string, us: seq<Tok>, j: nat, s: nat, left: Cmd<Span>)
    requires NoNul(b) && s <= |b| && OnTok(b, us, j, From(b, us, j)) && ParseExec(b, s) == Ok(left, From(b, us, j))
    ensures !Sees(us, j, '|') ==> ParsePipe(b, s) == Ok(left, From(b, us, j))
    ensures Sees(us, j, '|') ==>
      && OnTok(b, us, j + 1, From(b, us, j + 1))
      && ParsePipe(b, s) == OkPipe(left, ParsePipe(b, From(b, us, j + 1)))
  {
    hide Peek, Scans, ParseExec, GetToken, Skip;
    Ahead(b, us, j, From(b, us, j));
    Here(b, us, j, From(b, us, j));
  }

  lemma BacksTurn(b: string, us: seq<Tok>, j: nat, cmd: Cmd<Span>)
    requires NoNul(b) && OnTok(b, us, j, From(b, us, j))
    ensures !Sees(us, j, '&') ==> ParseBacks(b, From(b, us, j), cmd) == Ok(cmd, From(b, us, j))
    ensures Sees(us, j, '&') ==>
      && OnTok(b, us, j + 1, From(b, us, j + 1))
      && ParseBacks(b, From(b, us, j), cmd) == ParseBacks(b, From(b, us, j + 1), Back(cmd))
  {
    hide Peek, Scans, GetToken, Skip;
    Ahead(b, us, j, From(b, us, j));
    Here(b, us, j, From(b, us, j));
  }

  lemma LineTurn(b: string, us: seq<Tok>, j: nat, s: nat, left: Cmd<Span>)
    requires NoNul(b) && s <= |b| && OnTok(b, us, j, From(b, us, j)) && ParsePipe(b, s).Ok?
    requires ParseBacks(b, ParsePipe(b, s).s, ParsePipe(b, s).cmd) == Ok(left, From(b, us, j))
    ensures !Sees(us, j, ';') ==> ParseLine(b, s) == Ok(left, From(b, us, j))
    ensures Sees(us, j, ';') ==>
      && OnTok(b, us, j + 1, From(b, us, j + 1))
      && ParseLine(b, s) == OkList(left, ParseLine(b, From(b, us, j + 1)))
  {
    hide Peek, Scans, ParsePipe, ParseBacks, GetToken, Skip;
    Ahead(b, us, j, From(b, us, j));
    Here(b, us, j, From(b, us, j));
  }

  // ----- everything in the grammar is accepted -----

  lemma {:induction false} ExecComplete(b: string, us: seq<Tok>, i: nat, k: nat, s: nat, c: Cmd<Span>)
    requires NoNul(b) && OnTok(b, us, i, s) && i <= k <= |us| && IsExec(us[i..k], c) && AfterExec(us, k)
    ensures ParseExec(b, s) == Ok(c, From(b, us, k)) && OnTok(b, us, k, From(b, us, k))
    decreases k - i, 1
  {
    hide Scans, ParseExec, Wrap, IsSimple, IsBlock, OnTok;
    ExecTurn(b, us, i, s);
    Advance(b, us, i, k, s);
    if IsSimple(us[i..k], c) {
      SimpleComplete(b, us, i, k, s, c);
    } else {
      BlockComplete(b, us, i, k, s, c);
    }
  }

  lemma SimpleComplete(b: string, us: seq<Tok>, i: nat, k: nat, s: nat, c: Cmd<Span>)
    requires NoNul(b) && OnTok(b, us, i, s) && i <= k <= |us| && IsSimple(us[i..k], c) && AfterExec(us, k)
    ensures !Sees(us, i, '(') && OkArgs(Words(b, s, [], [])) == Ok(c, From(b, us, k))
  {
    hide Scans, Words, Wrap, OnTok, IsItems, Arguments, Redirections, Under;
    var items :| SimpleWith(us[i..k], c, items);
    ItemsFirst(us[i..k], items);
    assert !Sees(us, i, '(');
    hide AfterExec;
    WordsComplete(b, us, i, k, s, [], [], items);
    FromEmpty(Arguments(items));
    FromEmpty(Redirections(items));
    UnderIs(c, Exec(Arguments(items)), Redirections(items));
  }

  lemma ItemsFirst(ts: seq<Tok>, items: seq<Item>)
    requires IsItems(ts, items)
    ensures |ts| > 0 ==> ts[0].kind != '('
  {}

  lemma {:induction false} Advance(b: string, us: seq<Tok>, i: nat, k: nat, s: nat)
    requires NoNul(b) && OnTok(b, us, i, s) && i <= k <= |us|
    ensures OnTok(b, us, k, From(b, us, k))
    decreases k - i
  {
    hide OnTok, Scans;
    Here(b, us, i, s);
    if i < k { Advance(b, us, i + 1, k, From(b, us, i + 1)); }
  }

  lemma Slices(us: seq<Tok>, i: nat, k: nat, m: nat, n: nat)
    requires i <= k <= |us| && m <= n <= k - i
    ensures us[i..k][m..n] == us[i + m..i + n] && (n == k - i ==> us[i..k][m..] == us[i + m..k])
  {
    var ts := us[i..k];
    assert |ts| == k - i;
    forall p | 0 <= p < n - m ensures ts[m..n][p] == us[i + m..i + n][p] {}
    assert ts[m..n] == us[i + m..i + n];
    if n == k - i { assert ts[m..] == ts[m..n]; }
  }

  lemma {:induction false} BlockComplete(b: string, us: seq<Tok>, i: nat, k: nat, s: nat, c: Cmd<Span>)
    requires NoNul(b) && OnTok(b, us, i, s) && i <= k <= |us| && IsBlock(us[i..k], c) && AfterExec(us, k)
    ensures Sees(us, i, '(') && ParseBlock(b, s) == Ok(c, From(b, us, k))
    decreases k - i, 0
  {
    hide Scans, OnTok, ParseBlock, ParseLine, ParseRedirs, IsLine, Wrap;
    var m, core, rs :| BlockWith(us[i..k], c, m, core, rs);
    var j := i + m;
    Slices(us, i, k, 1, m);
    Slices(us, i, k, m + 1, k - i);
    Here(b, us, i, s);
    LineComplete(b, us, i + 1, j, From(b, us, i + 1), core);
    BlockTurn(b, us, i, j, s, core);
    RedirsComplete(b, us, j + 1, k, From(b, us, j + 1), [], rs);
    FromEmpty(rs);
    UnderIs(c, core, rs);
  }

  lemma {:induction false} PipeComplete(b: string, us: seq<Tok>, i: nat, k: nat, s: nat, c: Cmd<Span>)
    requires NoNul(b) && OnTok(b, us, i, s) && i <= k <= |us| && IsPipe(us[i..k], c) && AfterPipe(us, k)
    ensures ParsePipe(b, s) == Ok(c, From(b, us, k)) && OnTok(b, us, k, From(b, us, k))
    decreases k - i, 2
  {
    hide Scans, OnTok, ParsePipe, ParseExec, IsExec;
    if IsExec(us[i..k], c) {
      ExecComplete(b, us, i, k, s, c);
      PipeTurn(b, us, k, s, c);
    } else {
      var m :| PipeAt(us[i..k], c, m);
      var j := i + m;
      assert us[i..k][..m] == us[i..j] && us[i..k][m + 1..] == us[j + 1..k];
      ExecComplete(b, us, i, j, s, c.left);
      PipeTurn(b, us, j, s, c.left);
      PipeComplete(b, us, j + 1, k, From(b, us, j + 1), c.right);
    }
  }

  lemma {:induction false} BacksComplete(b: string, us: seq<Tok>, i: nat, k: nat, s: nat, c: Cmd<Span>)
    requires NoNul(b) && OnTok(b, us, i, s) && i <= k <= |us| && IsBacks(us[i..k], c) && AfterPipe(us, k)
    ensures OnTok(b, us, k, From(b, us, k))
    ensures var p := ParsePipe(b, s);
      p.Ok? && ParseBacks(b, p.s, p.cmd) == ParseBacks(b, From(b, us, k), c)
    decreases k - i, 3
  {
    hide Scans, OnTok, ParsePipe, ParseBacks, IsPipe;
    if IsPipe(us[i..k], c) {
      PipeComplete(b, us, i, k, s, c);
    } else {
      var n := k - 1;
      assert us[i..k][..|us[i..k]| - 1] == us[i..n];
      BacksComplete(b, us, i, n, s, c.cmd);
      BacksTurn(b, us, n, c.cmd);
    }
  }

  lemma {:induction false} LineComplete(b: string, us: seq<Tok>, i: nat, k: nat, s: nat, c: Cmd<Span>)
    requires NoNul(b) && OnTok(b, us, i, s) && i <= k <= |us| && IsLine(us[i..k], c) && AfterLine(us, k)
    ensures ParseLine(b, s) == Ok(c, From(b, us, k)) && OnTok(b, us, k, From(b, us, k))
    decreases k - i, 4
  {
    hide Scans, OnTok, ParsePipe, ParseBacks, ParseLine, IsBacks;
    if IsBacks(us[i..k], c) {
      BacksComplete(b, us, i, k, s, c);
      BacksTurn(b, us, k, c);
      LineTurn(b, us, k, s, c);
    } else {
      var m :| ListAt(us[i..k], c, m);
      var j := i + m;
      assert us[i..k][..m] == us[i..j] && us[i..k][m + 1..] == us[j + 1..k];
      BacksComplete(b, us, i, j, s, c.left);
      BacksTurn(b, us, j, c.left);
      LineTurn(b, us, j, s, c.left);
      LineComplete(b, us, j + 1, k, From(b, us, j + 1), c.right);
    }
  }

  // ----- everything accepted is in the grammar -----

  lemma {:induction false} ExecSound(b: string, us: seq<Tok>, i: nat, s: nat) returns (k: nat)
    requires NoNul(b) && OnTok(b, us, i, s) && ParseExec(b, s).Ok?
    ensures i <= k <= |us| && ParseExec(b, s).s == From(b, us, k) && IsExec(us[i..k], ParseExec(b, s).cmd)
    ensures OnTok(b, us, k, From(b, us, k))
    decreases |us| - i, 1
  {
    hide Scans, OnTok, ParseExec, ParseBlock, Words, Wrap, IsItems, IsBlock;
    ExecTurn(b, us, i, s);
    if Sees(us, i, '(') {
      k := BlockSound(b, us, i, s);
    } else {
      var items;
      k, items := WordsSound(b, us, i, s, [], []);
      FromEmpty(Arguments(items));
      FromEmpty(Redirections(items));
      var c := ParseExec(b, s).cmd;
      UnderIs(c, Exec(Arguments(items)), Redirections(items));
      assert SimpleWith(us[i..k], c, items);
    }
  }

  lemma {:induction false} BlockSound(b: string, us: seq<Tok>, i: nat, s: nat) returns (k: nat)
    requires NoNul(b) && OnTok(b, us, i, s) && Sees(us, i, '(') && ParseBlock(b, s).Ok?
    ensures i <= k <= |us| && ParseBlock(b, s).s == From(b, us, k) && IsBlock(us[i..k], ParseBlock(b, s).cmd)
    ensures OnTok(b, us, k, From(b, us, k))
    decreases |us| - i, 0
  {
    hide Scans, OnTok, ParseBlock, ParseLine, ParseRedirs, IsLine, Wrap;
    BlockTurn(b, us, i, i, s, Exec([]));
    var j := LineSound(b, us, i + 1, From(b, us, i + 1));
    var core := ParseLine(b, From(b, us, i + 1)).cmd;
    BlockTurn(b, us, i, j, s, core);
    var rs;
    k, rs := RedirsSound(b, us, j + 1, From(b, us, j + 1), []);
    FromEmpty(rs);
    BlockMade(us, i, j, k, ParseBlock(b, s).cmd, core, rs);
  }

  lemma BlockMade(us: seq<Tok>, i: nat, j: nat, k: nat, c: Cmd<Span>, core: Cmd<Span>, rs: seq<Redirection<Span>>)
    requires i < j < k <= |us| && Sees(us, i, '(') && Sees(us, j, ')')
    requires IsLine(us[i + 1..j], core) && IsRedirs(us[j + 1..k], rs) && c == Wrap(core, rs)
    ensures IsBlock(us[i..k], c)
  {
    hide IsLine, IsRedirs, Wrap;
    UnderIs(c, core, rs);
    Slices(us, i, k, 1, j - i);
    Slices(us, i, k, j - i + 1, k - i);
    assert BlockWith(us[i..k], c, j - i, core, rs);
  }

  lemma {:induction false} PipeSound(b: string, us: seq<Tok>, i: nat, s: nat) returns (k: nat)
    requires NoNul(b) && OnTok(b, us, i, s) && ParsePipe(b, s).Ok?
    ensures i <= k <= |us| && ParsePipe(b, s).s == From(b, us, k) && IsPipe(us[i..k], ParsePipe(b, s).cmd)
    ensures OnTok(b, us, k, From(b, us, k))
    decreases |us| - i, 2
  {
    hide Scans, OnTok, ParseExec, IsExec;
    var j := ExecSound(b, us, i, s);
    hide ParsePipe;
    PipeTurn(b, us, j, s, ParseExec(b, s).cmd);
    k := j;
    if Sees(us, j, '|') {
      k := PipeSound(b, us, j + 1, From(b, us, j + 1));
      var m := j - i;
      assert us[i..k][..m] == us[i..j] && us[i..k][m + 1..] == us[j + 1..k];
      assert PipeAt(us[i..k], ParsePipe(b, s).cmd, m);
    }
  }

  lemma {:induction false} BacksSound(b: string, us: seq<Tok>, i: nat, j: nat, cmd: Cmd<Span>) returns (k: nat)
    requires NoNul(b) && i <= j && OnTok(b, us, j, From(b, us, j)) && IsBacks(us[i..j], cmd)
    ensures var r := ParseBacks(b, From(b, us, j), cmd);
      i <= k <= |us| && r.s == From(b, us, k) && IsBacks(us[i..k], r.cmd)
    ensures OnTok(b, us, k, From(b, us, k))
    decreases |us| - j
  {
    hide Scans, ParseBacks, IsPipe;
    BacksTurn(b, us, j, cmd);
    k := j;
    if Sees(us, j, '&') {
      assert us[i..j + 1][..|us[i..j + 1]| - 1] == us[i..j];
      k := BacksSound(b, us, i, j + 1, Back(cmd));
    }
  }

  lemma {:induction false} LineSound(b: string, us: seq<Tok>, i: nat, s: nat) returns (k: nat)
    requires NoNul(b) && OnTok(b, us, i, s) && ParseLine(b, s).Ok?
    ensures i <= k <= |us| && ParseLine(b, s).s == From(b, us, k) && IsLine(us[i..k], ParseLine(b, s).cmd)
    ensures OnTok(b, us, k, From(b, us, k))
    decreases |us| - i, 3
  {
    hide Scans, OnTok, ParsePipe, ParseBacks, IsPipe;
    var p := PipeSound(b, us, i, s);
    var j := BacksSound(b, us, i, p, ParsePipe(b, s).cmd);
    hide ParseLine, IsBacks;
    var left := ParseBacks(b, From(b, us, p), ParsePipe(b, s).cmd).cmd;
    LineTurn(b, us, j, s, left);
    k := j;
    if Sees(us, j, ';') {
      k := LineSound(b, us, j + 1, From(b, us, j + 1));
      var m := j - i;
      assert us[i..k][..m] == us[i..j] && us[i..k][m + 1..] == us[j + 1..k];
      assert ListAt(us[i..k], ParseLine(b, s).cmd, m);
    }
  }

  // ----- the whole line -----

  /** parsecmd accepts b with the tree c if and only if b is a line of the grammar and c is its tree. */
  lemma ParseIff(b: string, c: Cmd<Span>)
    requires NoNul(b)
    ensures ParseCmd(b).Ok? && ParseCmd(b).cmd == c <==> InLanguage(b, c)
  {
    hide Scans, IsLine, ParseLine, OnTok;
    if InLanguage(b, c) {
      var ts :| Scans(b, 0, ts) && IsLine(ts, c);
      assert ts[0..|ts|] == ts && ts[0..] == ts;
      OnStart(b, ts);
      LineComplete(b, ts, 0, |ts|, 0, c);
      Here(b, ts, |ts|, |b|);
    }
    if ParseCmd(b).Ok? && ParseCmd(b).cmd == c {
      var ts := Lex(b, 0);
      LexScans(b, 0);
      assert ts[0..] == ts;
      OnStart(b, ts);
      var k := LineSound(b, ts, 0, 0);
      Here(b, ts, k, From(b, ts, k));
      assert ts[0..k] == ts;
    }
  }

  lemma Accepted(b: string)
    requires NoNul(b)
    ensures forall c :: (ParseCmd(b).Ok? && ParseCmd(b).cmd == c) <==> InLanguage(b, c)
  {
    forall c ensures (ParseCmd(b).Ok? && ParseCmd(b).cmd == c) <==> InLanguage(b, c) { ParseIff(b, c); }
  }

  lemma OnStart(b: string, ts: seq<Tok>)
    requires Scans(b, 0, ts)
    ensures OnTok(b, ts, 0, 0)
  {
    assert ts[0..] == ts;
  }
}
