/** Path names (fs.c: skipelem, namex): cutting a path into its components, and following them from
    directory to directory. */
module Paths {
  import opened Blocks
  import opened Layout
  import opened FileData
  import opened FileSystem
  import opened Directory

  const SLASH: Byte := 47
  const ROOTINO: nat := 1

  type Path = seq<Byte>

  // ----- components -----

  /** The pieces between slashes, empty ones included. */
  function Split(path: Path): (ps: seq<Path>)
    ensures |ps| > 0
  {
    if |path| == 0 then [[]]
    else
      var rest := Split(path[1..]);
      if path[0] == SLASH then [[]] + rest else [[path[0]] + rest[0]] + rest[1..]
  }

  /** The nonempty pieces, each cut to 14 bytes. */
  function Components(ps: seq<Path>): (r: seq<Path>) {
    if |ps| == 0 then []
    else (if |ps[0]| == 0 then [] else [First(ps[0])]) + Components(ps[1..])
  }

  function First(s: Path): (r: Path) { if |s| >= DIRSIZ then s[..DIRSIZ] else s }

  // ----- skipelem -----

  function SkipSlashes(path: Path): (r: Path)
    ensures |r| <= |path| && (|r| > 0 ==> r[0] != SLASH)
  {
    if |path| > 0 && path[0] == SLASH then SkipSlashes(path[1..]) else path
  }

  function ElemLength(path: Path): (n: nat)
    ensures n <= |path| && (n < |path| ==> path[n] == SLASH)
    ensures |path| > 0 && path[0] != SLASH ==> n > 0
  {
    if |path| == 0 || path[0] == SLASH then 0 else 1 + ElemLength(path[1..])
  }

  /** All that skipelem gives when it is called on its own results until it returns 0. */
  function Elems(path: Path): (r: seq<Path>)
    decreases |path|
  {
    var s := SkipSlashes(path);
    if |s| == 0 then [] else [First(s[..ElemLength(s)])] + Elems(SkipSlashes(s[ElemLength(s)..]))
  }

  /** while(*path == '/') path++; */
  method PastSlashes(path: Path, from: nat) returns (i: nat)
    requires from <= |path|
    ensures from <= i <= |path| && path[i..] == SkipSlashes(path[from..])
  {
    i := from;
    while i < |path| && path[i] == SLASH
      invariant from <= i <= |path| && SkipSlashes(path[i..]) == SkipSlashes(path[from..])
    {
      assert path[i..][1..] == path[i + 1..];
      i := i + 1;
    }
  }

  /** while(*path != '/' && *path != 0) path++; */
  method PastElem(path: Path, from: nat) returns (i: nat)
    requires from <= |path|
    ensures i == from + ElemLength(path[from..]) && i <= |path|
  {
    i := from;
    while i < |path| && path[i] != SLASH
      invariant from <= i <= |path| && ElemLength(path[from..]) == i - from + ElemLength(path[i..])
    {
      assert path[i..][1..] == path[i + 1..];
      i := i + 1;
    }
  }

  /** skipelem: the next element, cut to 14 bytes, and the path behind it without leading slashes; or
      nothing if there is no further element. */
  method Skipelem(path: Path) returns (more: bool, name: Path, rest: Path)
    ensures more <==> Elems(path) != []
    ensures !more ==> Elems(path) == []
    ensures more ==> Elems(path) == [name] + Elems(rest) && |rest| < |path|
    ensures more ==> (|rest| == 0 <==> Elems(rest) == [])
  {
    var i := PastSlashes(path, 0);
    assert path[0..] == path;
    if i == |path| { return false, [], []; }
    var end := PastElem(path, i);
    var len := end - i;
    name := if len >= DIRSIZ then path[i..i + DIRSIZ] else path[i..end];
    var j := PastSlashes(path, end);
    more, rest := true, path[j..];
    ElemsStep(path, i, end, j);
  }

  lemma ElemsStep(path: Path, i: nat, end: nat, j: nat)
    requires i < |path| && end <= |path| && j <= |path| && path[i..] == SkipSlashes(path)
    requires end == i + ElemLength(path[i..]) && path[j..] == SkipSlashes(path[end..])
    ensures end > i && Elems(path) == [First(path[i..end])] + Elems(path[j..])
    ensures First(path[i..end]) == if end - i >= DIRSIZ then path[i..i + DIRSIZ] else path[i..end]
    ensures j < |path| <==> Elems(path[j..]) != []
    ensures j > i
  {
    hide SkipSlashes, Elems, ElemLength, First;
    Slices(path, i, end);
    ElemsUnfold(path, path[i..], path[j..]);
    NoMoreElems(path[end..], path[j..]);
  }

  lemma Slices(path: Path, i: nat, end: nat)
    requires i <= end <= |path|
    ensures path[i..][..end - i] == path[i..end] && path[i..][end - i..] == path[end..]
    ensures First(path[i..end]) == if end - i >= DIRSIZ then path[i..i + DIRSIZ] else path[i..end]
  {}

  lemma ElemsUnfold(path: Path, s: Path, rest: Path)
    requires s == SkipSlashes(path) && |s| > 0 && rest == SkipSlashes(s[ElemLength(s)..])
    ensures Elems(path) == [First(s[..ElemLength(s)])] + Elems(rest)
    ensures |rest| <= |s| - ElemLength(s) && ElemLength(s) > 0
  {}

  lemma NoMoreElems(path: Path, rest: Path)
    requires rest == SkipSlashes(path)
    ensures Elems(rest) == [] <==> |rest| == 0
  {}

  /** Iterating skipelem yields exactly the nonempty slash-separated components, cut to 14 bytes. */
  lemma {:induction false} ElemsAreComponents(path: Path)
    ensures Elems(path) == Components(Split(path))
    decreases |path|
  {
    SlashesAdd(path);
    var s := SkipSlashes(path);
    if |s| == 0 {
      assert Split(s) == [[]];
    } else {
      var n := ElemLength(s);
      SplitElem(s);
      ElemsAreComponents(SkipSlashes(s[n..]));
      SlashesAdd(s[n..]);
    }
  }

  /** Leading slashes add no component. */
  lemma {:induction false} SlashesAdd(path: Path)
    ensures Components(Split(path)) == Components(Split(SkipSlashes(path)))
    decreases |path|
  {
    if |path| > 0 && path[0] == SLASH {
      SlashesAdd(path[1..]);
      assert Split(path)[1..] == Split(path[1..]);
    }
  }

  /** The first component of a path that begins with one. */
  lemma {:induction false} SplitElem(s: Path)
    requires |s| > 0 && s[0] != SLASH
    ensures var n := ElemLength(s); Components(Split(s)) == [First(s[..n])] + Components(Split(s[n..]))
  {
    var n := ElemLength(s);
    SplitFirst(s);
    var ps := Split(s);
    assert ps[0] == s[..n] && n > 0;
    if n < |s| {
      assert Split(s[n..]) == [[]] + Split(s[n..][1..]);
      assert Components(Split(s[n..])) == Components(Split(s[n..])[1..]);
    } else {
      assert s[n..] == [] && Split(s[n..]) == [[]] && Components([[]]) == [] + Components([]);
    }
  }

  lemma {:induction false} SplitFirst(s: Path)
    ensures var n := ElemLength(s);
      Split(s)[0] == s[..n] && Split(s)[1..] == (if n < |s| then Split(s[n..])[1..] else [])
    decreases |s|
  {
    var n := ElemLength(s);
    if |s| > 0 && s[0] != SLASH {
      SplitFirst(s[1..]);
      assert s[1..][n - 1..] == s[n..] && [s[0]] + s[1..][..n - 1] == s[..n];
      assert Split(s)[1..] == Split(s[1..])[1..];
    } else if |s| > 0 {
      assert s[0..] == s;
    }
  }

  // ----- namex -----

  /** Every directory is made of whole entries with different names, and its entries name inodes. */
  ghost predicate AllDirs(m: Image) {
    forall i :: 0 <= i < |m.inodes| && m.inodes[i].kind == T_DIR ==>
      IsDir(m, i) && Unique(EntriesOf(m, i)) && forall k :: 0 <= k < |EntriesOf(m, i)| ==>
        EntriesOf(m, i)[k].inum < |m.inodes|
  }

  /** Lookup in inode i as a map; nothing is found in what is not a directory. */
  ghost function Lookup(m: Image, i: nat, name: Path): (r: int)
    requires AllDirs(m) && i < |m.inodes|
    ensures -1 <= r < |m.inodes|
  {
    if m.inodes[i].kind != T_DIR then -1
    else
      var names := Names(EntriesOf(m, i));
      if Key(name) in names && names[Key(name)] < |m.inodes| then names[Key(name)] else -1
  }

  /** Following the components one after the other; -1 if one of them is not found. */
  ghost function Follow(m: Image, i: int, elems: seq<Path>): (r: int)
    requires AllDirs(m) && -1 <= i < |m.inodes|
    ensures -1 <= r < |m.inodes|
    decreases |elems|
  {
    if i == -1 || |elems| == 0 then i else Follow(m, Lookup(m, i, elems[0]), elems[1..])
  }

  /** The directory that holds the last component; -1 if there is none. */
  ghost function FollowParent(m: Image, i: int, elems: seq<Path>): (r: int)
    requires AllDirs(m) && -1 <= i < |m.inodes|
    ensures -1 <= r < |m.inodes|
  {
    if |elems| == 0 then -1
    else
      var d := Follow(m, i, elems[..|elems| - 1]);
      if d != -1 && m.inodes[d].kind == T_DIR then d else -1
  }

  /** nameiparent and a lookup of the last component make namei. */
  lemma ParentThenLast(m: Image, i: nat, elems: seq<Path>)
    requires AllDirs(m) && i < |m.inodes| && |elems| > 0
    ensures var d := FollowParent(m, i, elems);
      Follow(m, i, elems) == if d == -1 then -1 else Lookup(m, d, elems[|elems| - 1])
  {
    var n := |elems| - 1;
    assert elems == elems[..n] + [elems[n]];
    FollowOn(m, i, elems[..n], elems[n]);
  }

  lemma {:induction false} FollowOn(m: Image, i: nat, elems: seq<Path>, last: Path)
    requires AllDirs(m) && i < |m.inodes|
    ensures var d := Follow(m, i, elems);
      Follow(m, i, elems + [last]) == if d == -1 then -1 else Lookup(m, d, last)
    decreases |elems|
  {
    var all := elems + [last];
    if |elems| == 0 {
      assert all[1..] == [];
    } else {
      assert all[1..] == elems[1..] + [last];
      var next := Lookup(m, i, elems[0]);
      hide AllDirs, Lookup;
      if next == -1 {
        NothingFollows(m, elems[1..]);
        NothingFollows(m, all[1..]);
      } else {
        FollowOn(m, next, elems[1..], last);
      }
    }
  }

  /** dirlookup in a directory is lookup. */
  lemma LookupIs(m: Image, i: nat, name: Path, inum: nat, k: nat)
    requires AllDirs(m) && i < |m.inodes| && m.inodes[i].kind == T_DIR && IsDir(m, i)
    requires LookedUp(EntriesOf(m, i), Key(name), inum, k)
    ensures Lookup(m, i, name) == if inum == 0 then -1 else inum
    ensures inum < |m.inodes|
  {
    assert Unique(EntriesOf(m, i));
    LookupRefinesMap(EntriesOf(m, i), Key(name), inum, k);
    hide Unique, Names, Key;
  }

  lemma FollowStep(m: Image, i: nat, elems: seq<Path>)
    requires AllDirs(m) && i < |m.inodes| && |elems| > 0
    ensures Follow(m, i, elems) == Follow(m, Lookup(m, i, elems[0]), elems[1..])
    ensures |elems| > 1 ==> FollowParent(m, i, elems) == FollowParent(m, Lookup(m, i, elems[0]), elems[1..])
    ensures |elems| == 1 ==> FollowParent(m, i, elems) == if m.inodes[i].kind == T_DIR then i else -1
    ensures m.inodes[i].kind != T_DIR ==> Follow(m, i, elems) == -1 == FollowParent(m, i, elems)
  {
    if |elems| > 1 {
      assert elems[..|elems| - 1][1..] == elems[1..][..|elems| - 2];
    }
    NothingFollows(m, elems[1..]);
    NothingFollows(m, elems[1..][..|elems[1..]| - if |elems| > 1 then 1 else 0]);
  }

  lemma NothingFollows(m: Image, elems: seq<Path>)
    requires AllDirs(m)
    ensures Follow(m, -1, elems) == -1
  {}

  /** namex: the inode at the end of the path, or the directory that holds its last component and that
      component's name; -1 for a null pointer. It is the fold of lookup over the path's components,
      from the root or from the current directory. */
  method Namex(fs: Fs, path: Path, parent: bool, cwd: nat) returns (ip: int, name: Path)
    requires fs.Valid() && AllDirs(fs.Now()) && cwd < fs.g.ninodes && ROOTINO < fs.g.ninodes
    modifies fs`blocks, fs`inodes, fs`owner, fs`logged
    ensures unchanged(fs)
    ensures fs.g.ninodes == |fs.inodes|
    ensures var elems := Components(Split(path)); var start := if |path| > 0 && path[0] == SLASH then ROOTINO else cwd;
      ip == if parent then FollowParent(fs.Now(), start, elems) else Follow(fs.Now(), start, elems)
    ensures parent && ip != -1 ==>
      Components(Split(path)) != [] && name == Components(Split(path))[|Components(Split(path))| - 1]
  {
    ghost var m := fs.Now();
    ElemsAreComponents(path);
    hide Good, NonePending, AllDirs, Split, Components, Elems, OnPath, Lookup;
    ip := if |path| > 0 && path[0] == SLASH then ROOTINO else cwd;
    ghost var start := ip;
    ghost var all := Elems(path);
    var p := path;
    name := [];
    StartOfPath(m, start, all, parent);
    while true
      invariant unchanged(fs`blocks) && unchanged(fs`inodes) && unchanged(fs`owner) && unchanged(fs`logged)
      invariant 0 <= ip < |m.inodes| == fs.g.ninodes && AllDirs(m) && OnPath(m, start, all, parent, ip, Elems(p))
      decreases |p|
    {
      var more, elem, rest := Skipelem(p);
      if !more { break; }
      name := elem;
      PathStep(m, start, all, parent, ip, Elems(p), elem, Elems(rest));
      if fs.inodes[ip].kind != T_DIR { return -1, name; }
      if parent && |rest| == 0 { return; }
      var next := Visit(fs, ip, elem);
      if next == -1 { return -1, name; }
      ip, p := next, rest;
    }
    EndOfPath(m, start, all, parent, ip);
    if parent { ip := -1; }
  }

  /** One turn of namex: dirlookup in the directory ip. */
  method Visit(fs: Fs, ip: nat, name: Path) returns (next: int)
    requires fs.Valid() && AllDirs(fs.Now()) && ip < fs.g.ninodes && ip < |fs.inodes| && fs.inodes[ip].kind == T_DIR
    modifies fs`blocks, fs`inodes, fs`owner, fs`logged
    ensures unchanged(fs) && ip < |fs.inodes| && next == Lookup(fs.Now(), ip, name)
  {
    DirIs(fs.Now(), ip);
    ghost var m := fs.Now();
    hide Good, NonePending, AllDirs, Lookup, Key;
    var inum, _, k := Dirlookup(fs, ip, name);
    LookupIs(m, ip, name, inum, k);
    next := if inum == 0 then -1 else inum;
  }

  /** What is left to follow from ip leads where the whole path leads. */
  ghost predicate OnPath(m: Image, start: nat, all: seq<Path>, parent: bool, ip: nat, left: seq<Path>)
    requires AllDirs(m) && start < |m.inodes| && ip < |m.inodes|
  {
    && (if parent then FollowParent(m, start, all) == FollowParent(m, ip, left)
        else Follow(m, start, all) == Follow(m, ip, left))
    && Suffix(left, all) && (parent && left == [] ==> all == [])
  }

  lemma StartOfPath(m: Image, start: nat, all: seq<Path>, parent: bool)
    requires AllDirs(m) && start < |m.inodes|
    ensures OnPath(m, start, all, parent, start, all)
  {}

  lemma PathStep(m: Image, start: nat, all: seq<Path>, parent: bool, ip: nat, left: seq<Path>, elem: Path,
                 rest: seq<Path>)
    requires AllDirs(m) && start < |m.inodes| && ip < |m.inodes| && OnPath(m, start, all, parent, ip, left)
    requires left == [elem] + rest
    ensures m.inodes[ip].kind != T_DIR || (Lookup(m, ip, elem) == -1 && (rest != [] || !parent)) ==>
      -1 == if parent then FollowParent(m, start, all) else Follow(m, start, all)
    ensures m.inodes[ip].kind == T_DIR && parent && rest == [] ==> FollowParent(m, start, all) == ip
    ensures Lookup(m, ip, elem) != -1 && (rest != [] || !parent) ==>
      OnPath(m, start, all, parent, Lookup(m, ip, elem), rest)
    ensures all != [] && (rest == [] ==> all[|all| - 1] == elem)
  {
    hide AllDirs, Lookup, Follow, FollowParent, Suffix;
    assert left[1..] == rest && left[0] == elem && |left| == |rest| + 1 && (rest == [] <==> |rest| == 0);
    FollowStep(m, ip, left);
    SuffixStep(left, all);
    NothingAtAll(m, rest);
  }

  predicate Suffix(s: seq<Path>, all: seq<Path>) { |s| <= |all| && all[|all| - |s|..] == s }

  lemma SuffixStep(s: seq<Path>, all: seq<Path>)
    requires Suffix(s, all) && |s| > 0
    ensures Suffix(s[1..], all)
    ensures |all| > 0 && (|s| == 1 ==> all[|all| - 1] == s[0])
  {}

  lemma DirIs(m: Image, i: nat)
    requires AllDirs(m) && i < |m.inodes| && m.inodes[i].kind == T_DIR
    ensures IsDir(m, i)
  {}

  lemma NothingAtAll(m: Image, elems: seq<Path>)
    requires AllDirs(m)
    ensures Follow(m, -1, elems) == -1 == FollowParent(m, -1, elems)
  {
    NothingFollows(m, elems);
    if |elems| > 0 { NothingFollows(m, elems[..|elems| - 1]); }
  }

  lemma EndOfPath(m: Image, start: nat, all: seq<Path>, parent: bool, ip: nat)
    requires AllDirs(m) && start < |m.inodes| && ip < |m.inodes| && OnPath(m, start, all, parent, ip, [])
    ensures if parent then FollowParent(m, start, all) == -1 else Follow(m, start, all) == ip
  {}
}
