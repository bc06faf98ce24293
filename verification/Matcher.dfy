/** The pattern matcher of grep (grep.c: match, matchhere, matchstar). A string is what precedes its
    terminating zero. */
module Matcher {

  /** One item of a pattern: a character or '.', or such an item starred. */
  datatype Item = One(c: char) | Many(c: char) {
    ghost predicate Accepts(s: string) {
      match this
      case One(c) => |s| == 1 && Fits(c, s[0])
      case Many(c) => AllFit(c, s)
    }
  }

  /** The items in order, and whether the match must end where the text ends. */
  datatype Pattern = Pattern(items: seq<Item>, toEnd: bool)

  predicate Fits(c: char, t: char) { c == '.' || c == t }

  ghost predicate AllFit(c: char, s: string) {
    forall k :: 0 <= k < |s| ==> Fits(c, s[k])
  }

  /** What a pattern without its leading '^' means. */
  function Parse(re: string): (p: Pattern) {
    if |re| == 0 then Pattern([], false)
    else if |re| >= 2 && re[1] == '*' then
      Pattern([Many(re[0])] + Parse(re[2..]).items, Parse(re[2..]).toEnd)
    else if re == "$" then Pattern([], true)
    else Pattern([One(re[0])] + Parse(re[1..]).items, Parse(re[1..]).toEnd)
  }

  function Concat(pieces: seq<string>): string {
    if |pieces| == 0 then "" else pieces[0] + Concat(pieces[1..])
  }

  ghost predicate Pieces(items: seq<Item>, s: string, pieces: seq<string>) {
    && |pieces| == |items| && Concat(pieces) == s
    && forall k :: 0 <= k < |items| ==> items[k].Accepts(pieces[k])
  }

  /** s is in the language of the items: it can be cut into pieces, one for each item, that the items
      accept. */
  ghost predicate InLanguage(items: seq<Item>, s: string) {
    exists pieces :: Pieces(items, s, pieces)
  }

  /** text[i..j] is a match: in the language, from the start of the text if the pattern begins with
      '^', up to its end if the pattern ends with '$'. */
  ghost predicate MatchAt(re: string, text: string, i: int, j: int) {
    && 0 <= i <= j <= |text|
    && var atStart := |re| > 0 && re[0] == '^';
    && var p := Parse(if atStart then re[1..] else re);
    && (atStart ==> i == 0) && (p.toEnd ==> j == |text|)
    && InLanguage(p.items, text[i..j])
  }

  // ----- the language, item by item -----

  lemma EmptyLanguage(s: string)
    ensures InLanguage([], s) <==> s == ""
  {
    assert Pieces([], "", []);
  }

  /** The first item takes a prefix, the others the rest. */
  lemma FirstItem(x: Item, rest: seq<Item>, s: string)
    ensures InLanguage([x] + rest, s) <==> exists k :: 0 <= k <= |s| && x.Accepts(s[..k]) && InLanguage(rest, s[k..])
  {
    var items := [x] + rest;
    if InLanguage(items, s) {
      var pieces :| Pieces(items, s, pieces);
      var k := |pieces[0]|;
      assert s[..k] == pieces[0] && s[k..] == Concat(pieces[1..]);
      assert forall n :: 0 <= n < |rest| ==> items[n + 1] == rest[n];
      assert Pieces(rest, s[k..], pieces[1..]);
      assert items[0] == x;
    }
    if k :| 0 <= k <= |s| && x.Accepts(s[..k]) && InLanguage(rest, s[k..]) {
      var pieces :| Pieces(rest, s[k..], pieces);
      var all := [s[..k]] + pieces;
      assert all[1..] == pieces && s == s[..k] + s[k..];
      assert forall n :: 0 < n < |items| ==> items[n] == rest[n - 1] && all[n] == pieces[n - 1];
      assert Pieces(items, s, all);
    }
  }

  /** A match of the pattern that begins where the text begins. */
  ghost predicate Here(re: string, text: string) {
    exists j :: HereTo(re, text, j)
  }

  ghost predicate HereTo(re: string, text: string, j: int) {
    0 <= j <= |text| && (Parse(re).toEnd ==> j == |text|) && InLanguage(Parse(re).items, text[..j])
  }

  lemma HereEmpty(text: string)
    ensures Here("", text)
    ensures Here("$", text) <==> text == ""
  {
    EmptyLanguage(text[..0]);
    assert HereTo("", text, 0);
    if Here("$", text) {
      var j :| HereTo("$", text, j);
      EmptyLanguage(text[..j]);
    }
    if text == "" {
      assert HereTo("$", text, 0);
    }
  }

  /** A plain item consumes one character that it fits. */
  lemma HereOne(re: string, text: string)
    requires |re| > 0 && !(|re| >= 2 && re[1] == '*') && re != "$"
    ensures Here(re, text) <==> |text| > 0 && Fits(re[0], text[0]) && Here(re[1..], text[1..])
  {
    var p, q := Parse(re), Parse(re[1..]);
    if Here(re, text) {
      var j :| HereTo(re, text, j);
      FirstItem(One(re[0]), q.items, text[..j]);
      var k :| 0 <= k <= j && One(re[0]).Accepts(text[..j][..k]) && InLanguage(q.items, text[..j][k..]);
      assert text[..j][1..] == text[1..][..j - 1];
      assert HereTo(re[1..], text[1..], j - 1);
    }
    if |text| > 0 && Fits(re[0], text[0]) && Here(re[1..], text[1..]) {
      var j :| HereTo(re[1..], text[1..], j);
      assert text[..j + 1][1..] == text[1..][..j] && text[..j + 1][..1] == [text[0]];
      FirstItem(One(re[0]), q.items, text[..j + 1]);
      assert HereTo(re, text, j + 1);
    }
  }

  /** A starred item consumes any number of characters that it fits. */
  ghost predicate HereAfter(c: char, re: string, text: string, k: int) {
    0 <= k <= |text| && AllFit(c, text[..k]) && Here(re, text[k..])
  }

  lemma HereStar(re: string, text: string)
    requires |re| >= 2 && re[1] == '*'
    ensures Here(re, text) <==> exists k :: HereAfter(re[0], re[2..], text, k)
  {
    var q := Parse(re[2..]);
    if Here(re, text) {
      var j :| HereTo(re, text, j);
      FirstItem(Many(re[0]), q.items, text[..j]);
      var k :| 0 <= k <= j && Many(re[0]).Accepts(text[..j][..k]) && InLanguage(q.items, text[..j][k..]);
      assert text[..j][k..] == text[k..][..j - k] && text[..j][..k] == text[..k];
      assert HereTo(re[2..], text[k..], j - k);
      assert HereAfter(re[0], re[2..], text, k);
    }
    if k :| HereAfter(re[0], re[2..], text, k) {
      var j :| HereTo(re[2..], text[k..], j);
      assert text[..k + j][k..] == text[k..][..j] && text[..k + j][..k] == text[..k];
      FirstItem(Many(re[0]), q.items, text[..k + j]);
      assert HereTo(re, text, k + j);
    }
  }

  // ----- the program -----

  /** matchhere: finds a match that begins where the text begins, if there is one. */
  method MatchHere(re: string, text: string) returns (r: bool)
    ensures r <==> Here(re, text)
    decreases |re|, 0
  {
    HereEmpty(text);
    if |re| == 0 {
      return true;
    }
    if |re| >= 2 && re[1] == '*' {
      HereStar(re, text);
      r := MatchStar(re[0], re[2..], text);
      return;
    }
    if re[0] == '$' && |re| == 1 {
      assert re == "$";
      return |text| == 0;
    }
    HereOne(re, text);
    if |text| > 0 && (re[0] == '.' || re[0] == text[0]) {
      r := MatchHere(re[1..], text[1..]);
      return;
    }
    return false;
  }

  /** matchstar: a match of c* followed by re. */
  method MatchStar(c: char, re: string, text: string) returns (r: bool)
    ensures r <==> exists k :: HereAfter(c, re, text, k)
    decreases |re|, 1
  {
    var i := 0;
    while true
      invariant 0 <= i <= |text| && AllFit(c, text[..i])
      invariant forall k :: 0 <= k < i ==> !HereAfter(c, re, text, k)
      decreases |text| - i
    {
      var here := MatchHere(re, text[i..]);
      if here {
        assert HereAfter(c, re, text, i);
        return true;
      }
      if !(i < |text| && (text[i] == c || c == '.')) {
        assert forall k :: i < k <= |text| ==> text[..k][i] == text[i];
        return false;
      }
      i := i + 1;
    }
    r := false;
  }

  /** match: true exactly if some stretch of the text is a match. */
  method Match(re: string, text: string) returns (r: bool)
    ensures r <==> exists i, j :: MatchAt(re, text, i, j)
  {
    if |re| > 0 && re[0] == '^' {
      r := MatchHere(re[1..], text);
      AnchoredMatch(re, text);
      return;
    }
    var t := 0;
    while true
      invariant 0 <= t <= |text|
      invariant forall i :: 0 <= i < t ==> !Here(re, text[i..])
      decreases |text| - t
    {
      var here := MatchHere(re, text[t..]);
      if here {
        FreeMatch(re, text, t);
        return true;
      }
      if t == |text| {
        forall i, j ensures !MatchAt(re, text, i, j) {
          if 0 <= i <= |text| { FreeMatch(re, text, i); }
        }
        return false;
      }
      t := t + 1;
    }
    r := false;
  }

  lemma AnchoredMatch(re: string, text: string)
    requires |re| > 0 && re[0] == '^'
    ensures Here(re[1..], text) <==> exists i, j :: MatchAt(re, text, i, j)
  {
    if Here(re[1..], text) {
      var j :| HereTo(re[1..], text, j);
      assert text[0..j] == text[..j];
      assert MatchAt(re, text, 0, j);
    }
    if i, j :| MatchAt(re, text, i, j) {
      assert text[0..j] == text[..j];
      assert HereTo(re[1..], text, j);
    }
  }

  lemma FreeMatch(re: string, text: string, i: nat)
    requires !(|re| > 0 && re[0] == '^') && i <= |text|
    ensures Here(re, text[i..]) <==> exists j :: MatchAt(re, text, i, j)
  {
    if Here(re, text[i..]) {
      var j :| HereTo(re, text[i..], j);
      assert text[i..][..j] == text[i..i + j];
      assert MatchAt(re, text, i, i + j);
    }
    if j :| MatchAt(re, text, i, j) {
      assert text[i..][..j - i] == text[i..j];
      assert HereTo(re, text[i..], j - i);
    }
  }
}
