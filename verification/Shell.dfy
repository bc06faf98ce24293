/** The shell's parser as it runs (sh.c: gettoken to nulterminate): a cursor moving over the command
    line, which is cut into strings in place at the end. */
module Shell {
  import opened Grammar
  import Syntax

  // ----- the words of a tree -----

  /** All words of the tree lie in the buffer as words, each up to its end. */
  predicate Good(b: string, c: Cmd<Span>) {
    match c
    case Exec(argv) => forall k :: 0 <= k < |argv| ==> IsWord(b, argv[k])
    case Redir(cmd, file, _) => Good(b, cmd) && IsWord(b, file)
    case Pipe(l, r) => Good(b, l) && Good(b, r)
    case List(l, r) => Good(b, l) && Good(b, r)
    case Back(cmd) => Good(b, cmd)
  }

  predicate GoodRedirs(b: string, rs: seq<Redirection<Span>>) {
    forall k :: 0 <= k < |rs| ==> IsWord(b, rs[k].file)
  }

  predicate GoodWords(b: string, ws: seq<Span>) {
    forall k :: 0 <= k < |ws| ==> IsWord(b, ws[k])
  }

  /** Position k ends a word of the tree. */
  ghost predicate IsEnd(c: Cmd<Span>, k: int) {
    match c
    case Exec(argv) => exists i :: 0 <= i < |argv| && argv[i].eq == k
    case Redir(cmd, file, _) => IsEnd(cmd, k) || file.eq == k
    case Pipe(l, r) => IsEnd(l, k) || IsEnd(r, k)
    case List(l, r) => IsEnd(l, k) || IsEnd(r, k)
    case Back(cmd) => IsEnd(cmd, k)
  }

  /** w is a word of the tree. */
  ghost predicate IsIn(c: Cmd<Span>, w: Span) {
    match c
    case Exec(argv) => exists i :: 0 <= i < |argv| && argv[i] == w
    case Redir(cmd, file, _) => IsIn(cmd, w) || file == w
    case Pipe(l, r) => IsIn(l, w) || IsIn(r, w)
    case List(l, r) => IsIn(l, w) || IsIn(r, w)
    case Back(cmd) => IsIn(cmd, w)
  }

  lemma {:induction false} GoodWrap(b: string, c: Cmd<Span>, rs: seq<Redirection<Span>>)
    requires Good(b, c) && GoodRedirs(b, rs)
    ensures Good(b, Wrap(c, rs))
    decreases |rs|
  {
    if |rs| > 0 { GoodWrap(b, Redir(c, rs[0].file, rs[0].output), rs[1..]); }
  }

  lemma WordTokenGood(b: string, s: nat)
    requires s <= |b| && NoNul(b) && GetToken(b, s).ret == 'a'
    ensures IsWord(b, Span(GetToken(b, s).q, GetToken(b, s).eq))
  {
    WordEndMeans(b, Skip(b, s));
  }

  lemma {:induction false} RedirsGood(b: string, s: nat, rs: seq<Redirection<Span>>)
    requires s <= |b| && NoNul(b) && GoodRedirs(b, rs) && ParseRedirs(b, s, rs).Redirs?
    ensures GoodRedirs(b, ParseRedirs(b, s, rs).rs)
    decreases |b| - s
  {
    if Peek(b, s, "<>") {
      var tok := GetToken(b, Skip(b, s));
      var f := GetToken(b, tok.s);
      WordTokenGood(b, tok.s);
      hide GetToken, IsWord;
      RedirsGood(b, f.s, rs + [Redirection(Span(f.q, f.eq), tok.ret != '<')]);
    }
  }

  lemma {:induction false} ArgsGood(b: string, s: nat, argv: seq<Span>, rs: seq<Redirection<Span>>)
    requires s <= |b| && NoNul(b) && GoodWords(b, argv) && GoodRedirs(b, rs) && ParseArgs(b, s, argv, rs).Args?
    ensures GoodWords(b, ParseArgs(b, s, argv, rs).argv) && GoodRedirs(b, ParseArgs(b, s, argv, rs).rs)
    decreases |b| - s
  {
    hide IsWord, GoodRedirs;
    var t := GetToken(b, s);
    if !Peek(b, s, "|)&;") && t.ret != '\0' {
      WordTokenGood(b, s);
      RedirsGood(b, t.s, rs);
      var r := ParseRedirs(b, t.s, rs);
      ArgsGood(b, r.s, argv + [Span(t.q, t.eq)], r.rs);
    }
  }

  lemma {:induction false} ExecGood(b: string, s: nat)
    requires s <= |b| && NoNul(b) && ParseExec(b, s).Ok?
    ensures Good(b, ParseExec(b, s).cmd)
    decreases |b| - s, 1
  {
    hide IsWord, GetToken;
    if Peek(b, s, "(") {
      var s0 := GetToken(b, Skip(b, s)).s;
      var l := ParseLine(b, s0);
      LineGood(b, s0);
      var s2 := GetToken(b, Skip(b, l.s)).s;
      RedirsGood(b, s2, []);
      GoodWrap(b, l.cmd, ParseRedirs(b, s2, []).rs);
    } else {
      RedirsGood(b, s, []);
      var r := ParseRedirs(b, s, []);
      ArgsGood(b, r.s, [], r.rs);
      var a := ParseArgs(b, r.s, [], r.rs);
      GoodWrap(b, Exec(a.argv), a.rs);
    }
  }

  lemma {:induction false} PipeGood(b: string, s: nat)
    requires s <= |b| && NoNul(b) && ParsePipe(b, s).Ok?
    ensures Good(b, ParsePipe(b, s).cmd)
    decreases |b| - s, 2
  {
    hide IsWord, GetToken;
    ExecGood(b, s);
    var l := ParseExec(b, s);
    if Peek(b, l.s, "|") { PipeGood(b, GetToken(b, Skip(b, l.s)).s); }
  }

  lemma {:induction false} BacksGood(b: string, s: nat, cmd: Cmd<Span>)
    requires s <= |b| && NoNul(b) && Good(b, cmd)
    ensures Good(b, ParseBacks(b, s, cmd).cmd)
    decreases |b| - s
  {
    if Peek(b, s, "&") { BacksGood(b, GetToken(b, Skip(b, s)).s, Back(cmd)); }
  }

  /** Whatever the parser accepts, its words are words of the buffer. */
  lemma {:induction false} LineGood(b: string, s: nat)
    requires s <= |b| && NoNul(b) && ParseLine(b, s).Ok?
    ensures Good(b, ParseLine(b, s).cmd)
    decreases |b| - s, 3
  {
    hide IsWord, GetToken;
    PipeGood(b, s);
    var l := ParsePipe(b, s);
    BacksGood(b, l.s, l.cmd);
    var t := ParseBacks(b, l.s, l.cmd);
    if Peek(b, t.s, ";") { LineGood(b, GetToken(b, Skip(b, t.s)).s); }
  }

  lemma {:induction false} GoodMeans(b: string, c: Cmd<Span>, w: Span, k: int)
    requires Good(b, c)
    ensures IsIn(c, w) ==> IsWord(b, w)
    ensures IsEnd(c, k) ==> 0 <= k <= |b| && !WordChar(At(b, k))
    ensures IsIn(c, w) ==> IsEnd(c, w.eq)
  {
    match c {
      case Exec(argv) =>
      case Redir(cmd, _, _) => GoodMeans(b, cmd, w, k);
      case Pipe(l, r) => GoodMeans(b, l, w, k); GoodMeans(b, r, w, k);
      case List(l, r) => GoodMeans(b, l, w, k); GoodMeans(b, r, w, k);
      case Back(cmd) => GoodMeans(b, cmd, w, k);
    }
  }

  // ----- strings in the buffer -----

  /** The C string at q. */
  function CString(m: seq<char>, q: nat): (s: string)
    decreases |m| - q
  {
    if q >= |m| || m[q] == '\0' then "" else [m[q]] + CString(m, q + 1)
  }

  lemma {:induction false} CStringIs(m: seq<char>, q: nat, eq: nat)
    requires q <= eq < |m| && m[eq] == '\0' && forall k :: q <= k < eq ==> m[k] != '\0'
    ensures CString(m, q) == m[q..eq]
    decreases eq - q
  {
    if q < eq { CStringIs(m, q + 1, eq); }
  }

  /** Writing a zero at the end of every word clobbers no word: each argv string is its token. */
  lemma NoneClobbered(b: string, c: Cmd<Span>, m: seq<char>, w: Span)
    requires NoNul(b) && Good(b, c) && IsIn(c, w) && |m| == |b| + 1
    requires forall k :: 0 <= k < |m| ==> m[k] == if IsEnd(c, k) then '\0' else At(b, k)
    ensures w.q < w.eq <= |b| && CString(m, w.q) == b[w.q..w.eq]
  {
    GoodMeans(b, c, w, w.eq);
    forall k | w.q <= k < w.eq ensures m[k] == b[k] { GoodMeans(b, c, w, k); }
    CStringIs(m, w.q, w.eq);
    assert m[w.q..w.eq] == b[w.q..w.eq];
  }

  // ----- the parser as it runs -----

  class Parser {
    const buf: array<char>
    const es: nat
    var ps: nat

    /** The buffer holds the line b and its terminating zero; the cursor is in it. */
    ghost predicate On(b: string)
      reads this, buf
    {
      && es == |b| && buf.Length == es + 1 && ps <= es && NoNul(b)
      && forall k :: 0 <= k <= es ==> buf[k] == At(b, k)
    }

    constructor (buf: array<char>)
      requires buf.Length > 0 && buf[buf.Length - 1] == '\0' && NoNul(buf[..buf.Length - 1])
      ensures On(buf[..buf.Length - 1]) && ps == 0 && this.buf == buf
    {
      this.buf, es, ps := buf, buf.Length - 1, 0;
    }

    method SkipWhite(from: nat, ghost b: string) returns (s: nat)
      requires On(b) && from <= es
      ensures s == Skip(b, from)
    {
      s := from;
      while s < es && White(buf[s])
        invariant s <= es && Skip(b, s) == Skip(b, from)
      {
        s := s + 1;
      }
    }

    method Gettoken(ghost b: string) returns (ret: char, q: nat, eq: nat)
      requires On(b)
      modifies this`ps
      ensures On(b) && Token(ret, q, eq, ps) == GetToken(b, old(ps))
    {
      var s := SkipWhite(ps, b);
      q := s;
      ret := buf[s];
      if ret == '\0' {
      } else if ret == '|' || ret == '(' || ret == ')' || ret == ';' || ret == '&' || ret == '<' {
        s := s + 1;
      } else if ret == '>' {
        s := s + 1;
        if buf[s] == '>' {
          ret := '+';
          s := s + 1;
        }
      } else {
        ret := 'a';
        while s < es && !White(buf[s]) && !Symbol(buf[s])
          invariant q <= s <= es && WordEnd(b, s) == WordEnd(b, q)
        {
          s := s + 1;
        }
      }
      eq := s;
      ps := SkipWhite(s, b);
    }

    method PeekFor(toks: string, ghost b: string) returns (r: bool)
      requires On(b)
      modifies this`ps
      ensures On(b) && r == Peek(b, old(ps), toks) && ps == Skip(b, old(ps))
    {
      ps := SkipWhite(ps, b);
      r := buf[ps] != '\0' && buf[ps] in toks;
    }

    /** parseredirs; false is the panic for a missing file name. */
    method Parseredirs(before: seq<Redirection<Span>>, ghost b: string) returns (ok: bool, rs: seq<Redirection<Span>>)
      requires On(b)
      modifies this`ps
      ensures On(b) && ps >= old(ps)
      ensures if ok then ParseRedirs(b, old(ps), before) == Redirs(rs, ps)
        else ParseRedirs(b, old(ps), before) == NoFile
    {
      rs := before;
      var more := PeekFor("<>", b);
      PeekAgain(b, old(ps), "<>");
      while more
        invariant On(b) && ps >= old(ps) && Skip(b, ps) == ps && more == Peek(b, ps, "<>")
        invariant ParseRedirs(b, ps, rs) == ParseRedirs(b, old(ps), before)
        decreases es - ps
      {
        var tok, _, _ := Gettoken(b);
        var f, q, eq := Gettoken(b);
        if f != 'a' { return false, rs; }
        rs := rs + [Redirection(Span(q, eq), tok != '<')];
        ghost var here := ps;
        more := PeekFor("<>", b);
        PeekAgain(b, here, "<>");
      }
      ok := true;
    }

    method Parseexec(ghost b: string) returns (r: Parsed)
      requires On(b)
      modifies this`ps
      ensures On(b) && r == ParseExec(b, old(ps)) && (r.Ok? ==> ps == r.s)
      decreases es - ps, 1
    {
      ghost var start := ps;
      var block := PeekFor("(", b);
      PeekAgain(b, start, "(");
      ExecSkip(b, start);
      if block {
        r := Parseblock(b);
        return;
      }
      var ok, rs := Parseredirs([], b);
      if !ok { return Panic; }
      var argv: seq<Span> := [];
      ghost var s1, rs1 := ps, rs;
      var stop := PeekFor("|)&;", b);
      ArgsSkip(b, s1, argv, rs);
      while !stop
        invariant On(b) && ps >= start && Skip(b, ps) == ps && stop == Peek(b, ps, "|)&;") && |argv| < MAXARGS
        invariant ParseArgs(b, ps, argv, rs) == ParseArgs(b, s1, [], rs1)
        decreases es - ps, !stop
      {
        var tok, q, eq := Gettoken(b);
        if tok == '\0' { break; }
        if tok != 'a' { return Panic; }
        if |argv| + 1 >= MAXARGS { return Panic; }
        argv := argv + [Span(q, eq)];
        var good, rs2 := Parseredirs(rs, b);
        if !good { return Panic; }
        rs := rs2;
        ghost var here := ps;
        stop := PeekFor("|)&;", b);
        ArgsSkip(b, here, argv, rs);
      }
      r := Ok(Wrap(Exec(argv), rs), ps);
    }

    method Parseblock(ghost b: string) returns (r: Parsed)
      requires On(b) && Peek(b, ps, "(")
      modifies this`ps
      ensures On(b) && r == ParseBlock(b, old(ps)) && (r.Ok? ==> ps == r.s)
      decreases es - ps, 0
    {
      var open := PeekFor("(", b);
      if !open { return Panic; }
      var _, _, _ := Gettoken(b);
      r := Parseline(b);
      if r.Panic? { return; }
      var close := PeekFor(")", b);
      if !close { return Panic; }
      var _, _, _ := Gettoken(b);
      var ok, rs := Parseredirs([], b);
      if !ok { return Panic; }
      r := Ok(Wrap(r.cmd, rs), ps);
    }

    method Parsepipe(ghost b: string) returns (r: Parsed)
      requires On(b)
      modifies this`ps
      ensures On(b) && r == ParsePipe(b, old(ps)) && (r.Ok? ==> ps == r.s)
      decreases es - ps, 2
    {
      r := Parseexec(b);
      if r.Panic? { return; }
      var more := PeekFor("|", b);
      if more {
        var _, _, _ := Gettoken(b);
        var right := Parsepipe(b);
        if right.Panic? { return Panic; }
        r := Ok(Pipe(r.cmd, right.cmd), ps);
      }
    }

    method Parseline(ghost b: string) returns (r: Parsed)
      requires On(b)
      modifies this`ps
      ensures On(b) && r == ParseLine(b, old(ps)) && (r.Ok? ==> ps == r.s)
      decreases es - ps, 3
    {
      ghost var start := ps;
      r := Parsepipe(b);
      if r.Panic? { return; }
      var cmd := r.cmd;
      ghost var s1, cmd1 := ps, cmd;
      var back := PeekFor("&", b);
      while back
        invariant On(b) && ps >= s1 && Skip(b, ps) == ps && back == Peek(b, ps, "&")
        invariant ParseBacks(b, ps, cmd) == ParseBacks(b, s1, cmd1)
        decreases es - ps
      {
        var _, _, _ := Gettoken(b);
        cmd := Back(cmd);
        back := PeekFor("&", b);
      }
      var more := PeekFor(";", b);
      if more {
        var _, _, _ := Gettoken(b);
        r := Parseline(b);
        if r.Panic? { return; }
        r := Ok(List(cmd, r.cmd), ps);
      } else {
        r := Ok(cmd, ps);
      }
    }

    /** nulterminate: a zero at the end of every word of the tree. */
    method Nulterminate(c: Cmd<Span>)
      requires forall k :: IsEnd(c, k) ==> 0 <= k < buf.Length
      modifies buf
      ensures forall k :: 0 <= k < buf.Length ==> buf[k] == if IsEnd(c, k) then '\0' else old(buf[k])
      decreases c
    {
      match c {
        case Exec(argv) =>
          var i := 0;
          while i < |argv|
            invariant 0 <= i <= |argv|
            invariant forall k :: 0 <= k < buf.Length ==> buf[k] == if Ended(argv, i, k) then '\0' else old(buf[k])
          {
            assert IsEnd(c, argv[i].eq);
            buf[argv[i].eq] := '\0';
            i := i + 1;
          }
        case Redir(cmd, file, _) =>
          assert forall k :: IsEnd(cmd, k) ==> IsEnd(c, k);
          assert IsEnd(c, file.eq);
          Nulterminate(cmd);
          buf[file.eq] := '\0';
        case Pipe(left, right) =>
          assert forall k :: IsEnd(left, k) || IsEnd(right, k) ==> IsEnd(c, k);
          Nulterminate(left);
          Nulterminate(right);
        case List(left, right) =>
          assert forall k :: IsEnd(left, k) || IsEnd(right, k) ==> IsEnd(c, k);
          Nulterminate(left);
          Nulterminate(right);
        case Back(cmd) =>
          assert forall k :: IsEnd(cmd, k) ==> IsEnd(c, k);
          Nulterminate(cmd);
      }
    }

    /** parsecmd. It returns if the line is in the grammar, with the grammar's tree, and at every word's place
        there is a C string that is exactly that word. */
    method Parsecmd(ghost b: string) returns (r: Parsed)
      requires On(b) && ps == 0
      modifies this`ps, buf
      ensures r.Ok? <==> ParseCmd(b).Ok?
      ensures r.Ok? ==> r.cmd == ParseCmd(b).cmd
      ensures forall c :: (r.Ok? && r.cmd == c) <==> Syntax.InLanguage(b, c)
      ensures r.Ok? ==> forall w :: IsIn(r.cmd, w) ==> w.q < w.eq <= |b| && CString(buf[..], w.q) == b[w.q..w.eq]
    {
      hide Syntax.InLanguage;
      Syntax.Accepted(b);
      r := Parseline(b);
      if r.Panic? { return; }
      var _ := PeekFor("", b);
      if ps != es { return Panic; }
      LineGood(b, 0);
      ghost var c := r.cmd;
      forall k | IsEnd(c, k) ensures 0 <= k < buf.Length { GoodMeans(b, c, Span(0, 0), k); }
      Nulterminate(r.cmd);
      forall w | IsIn(c, w) ensures w.q < w.eq <= |b| && CString(buf[..], w.q) == b[w.q..w.eq] {
        NoneClobbered(b, c, buf[..], w);
      }
    }
  }

  ghost predicate Ended(argv: seq<Span>, n: nat, k: int) {
    exists i :: 0 <= i < n && i < |argv| && argv[i].eq == k
  }

  /** Looking past white space first changes nothing for the parsing functions. */
  lemma PeekAgain(b: string, s: nat, toks: string)
    requires s <= |b| && NoNul(b)
    ensures Skip(b, Skip(b, s)) == Skip(b, s) && Peek(b, Skip(b, s), toks) == Peek(b, s, toks)
    ensures forall rs :: ParseRedirs(b, Skip(b, s), rs) == ParseRedirs(b, s, rs)
  {}

  lemma ArgsSkip(b: string, s: nat, argv: seq<Span>, rs: seq<Redirection<Span>>)
    requires s <= |b| && NoNul(b)
    ensures Skip(b, Skip(b, s)) == Skip(b, s)
    ensures ParseArgs(b, Skip(b, s), argv, rs) == ParseArgs(b, s, argv, rs)
  {}

  lemma ExecSkip(b: string, s: nat)
    requires s <= |b| && NoNul(b)
    ensures ParseExec(b, Skip(b, s)) == ParseExec(b, s)
  {
    PeekAgain(b, s, "(");
  }
}
