/** Link counts (sysfile.c: sys_link, sys_unlink, create; fs.c: iput): every inode's nlink against the
    directory entries that name it, while link operations of several processes are under way. */
module Links {
  import opened Sets

  type Name = string

  const DOT: Name := "."
  const DOTDOT: Name := ".."
  const ROOT: nat := 1
  const T_DIR: int := 1

  /** An inode with its in-memory reference count and, for a directory, its entries as a map. `pending`
      counts the calls of sys_link that have raised nlink and not yet made the entry. */
  datatype Node = Node(kind: int, nlink: int, entries: map<Name, nat>, refs: int, pending: nat)

  predicate Dots(n: Name) { n == DOT || n == DOTDOT }

  // ----- entries that count -----

  /** Directory d is itself still linked. */
  predicate Linked(s: seq<Node>, d: nat)
    requires d < |s|
  {
    s[d].kind == T_DIR && s[d].nlink > 0
  }

  /** Entry n of directory d names inode i, and it counts: the directory is linked, the entry is not ".". */
  predicate Counts(s: seq<Node>, d: int, n: Name, i: int) {
    0 <= d < |s| && Linked(s, d) && n in s[d].entries && n != DOT && s[d].entries[n] == i
  }

  ghost function Refs(s: seq<Node>, i: nat): set<(int, Name)> {
    set d, n | 0 <= d < |s| && n in s[d].entries && Counts(s, d, n, i) :: (d, n)
  }

  /** nlink is the number of entries that count and of links under way. */
  ghost predicate CountOk(s: seq<Node>, i: nat)
    requires i < |s|
  {
    s[i].nlink == |Refs(s, i)| + s[i].pending
  }

  /** What holds of one inode besides its count. */
  predicate NodeOk(s: seq<Node>, i: nat)
    requires i < |s|
  {
    var x := s[i];
    && x.refs >= x.pending
    && (x.kind == 0 ==> x.nlink == 0 && x.refs == 0 && x.entries == map[])
    && (x.kind != 0 ==> x.nlink > 0 || x.refs > 0)
    && (x.kind != T_DIR ==> x.entries == map[])
    && (x.kind == T_DIR ==> x.pending == 0)
    && (forall n :: n in x.entries ==> x.entries[n] < |s|)
  }

  /** A linked directory names itself and its parent, and its parent, which is linked, names it. */
  ghost predicate TreeOk(s: seq<Node>, d: nat)
    requires d < |s|
  {
    Linked(s, d) ==>
      && DOT in s[d].entries && s[d].entries[DOT] == d
      && DOTDOT in s[d].entries
      && (d == ROOT ==> s[d].entries[DOTDOT] == ROOT)
      && (d != ROOT ==> exists n :: !Dots(n) && Counts(s, s[d].entries[DOTDOT], n, d))
  }

  /** No directory has two names, the root has none, ".." names directories only, and only the root names
      itself otherwise than by ".". */
  ghost predicate NamesOk(s: seq<Node>) {
    && (forall d, n, e, m, i ::
          Counts(s, d, n, i) && Counts(s, e, m, i) && !Dots(n) && !Dots(m) && 0 <= i < |s| && s[i].kind == T_DIR ==>
          d == e && n == m)
    && (forall d, n :: Counts(s, d, n, ROOT) ==> Dots(n))
    && (forall d, i :: Counts(s, d, DOTDOT, i) && 0 <= i < |s| ==> s[i].kind == T_DIR)
    && (forall d, n :: Counts(s, d, n, d) ==> d == ROOT)
  }

  ghost predicate Inv(s: seq<Node>) {
    && |s| > ROOT && Linked(s, ROOT)
    && (forall i :: 0 <= i < |s| ==> CountOk(s, i))
    && (forall i :: 0 <= i < |s| ==> NodeOk(s, i))
    && (forall d :: 0 <= d < |s| ==> TreeOk(s, d))
    && NamesOk(s)
  }

  // ----- the operations -----

  /** iput: at the last reference an inode without links is truncated and freed. */
  function Iput(x: Node): (y: Node) {
    if x.nlink == 0 && x.refs == 1 then Node(0, 0, map[], 0, x.pending) else x.(refs := x.refs - 1)
  }

  function Iget(x: Node): (y: Node) { x.(refs := x.refs + 1) }

  /** sys_link up to iunlock(ip): the inode, not a directory, is held and its nlink raised. */
  function LinkStart(s: seq<Node>, i: nat): (t: seq<Node>)
    requires i < |s|
  {
    s[i := s[i].(refs := s[i].refs + 1, nlink := s[i].nlink + 1, pending := s[i].pending + 1)]
  }

  /** sys_link from nameiparent on, when the entry is made. */
  function LinkDone(s: seq<Node>, i: nat, d: nat, n: Name): (t: seq<Node>)
    requires i < |s| && d < |s| && i != d
  {
    var pending := if s[i].pending > 0 then s[i].pending - 1 else s[i].pending;
    s[d := s[d].(entries := s[d].entries[n := i])][i := Iput(s[i].(pending := pending))]
  }

  /** sys_link at `bad`: nlink is lowered again. */
  function LinkBad(s: seq<Node>, i: nat): (t: seq<Node>)
    requires i < |s|
  {
    s[i := Iput(s[i].(nlink := s[i].nlink - 1, pending := s[i].pending - if s[i].pending > 0 then 1 else 0))]
  }

  /** sys_unlink once all checks are passed; i is the inode that dirlookup has got. */
  function Unlinked(s: seq<Node>, d: nat, n: Name, i: nat): (t: seq<Node>)
    requires d < |s| && i < |s| && i != d
  {
    var dp := s[d].(entries := s[d].entries - {n}, nlink := s[d].nlink - if s[i].kind == T_DIR then 1 else 0);
    s[d := dp][i := Iput(Iget(s[i]).(nlink := s[i].nlink - 1))]
  }

  /** create of a name that is not there, with the inode that ialloc has found. */
  function Created(s: seq<Node>, d: nat, n: Name, i: nat, kind: int): (t: seq<Node>)
    requires d < |s| && i < |s| && i != d
  {
    var entries := if kind == T_DIR then map[DOT := i, DOTDOT := d] else map[];
    var dp := s[d].(entries := s[d].entries[n := i], nlink := s[d].nlink + if kind == T_DIR then 1 else 0);
    s[d := dp][i := Node(kind, 1, entries, 1, 0)]
  }

  /** No inode but these two has changed. */
  predicate Touched(s: seq<Node>, t: seq<Node>, i: int, j: int) {
    |t| == |s| && forall k :: 0 <= k < |s| && k != i && k != j ==> t[k] == s[k]
  }

  /** Entry n of directory d is gone, a subdirectory's ".." no longer counts, and inode i has a link less; without
      links and references it is free. */
  predicate EntryRemoved(s: seq<Node>, t: seq<Node>, d: nat, n: Name, i: nat) {
    && d < |s| && i < |s| && i != d && Touched(s, t, d, i)
    && t[d] == s[d].(entries := s[d].entries - {n}, nlink := t[d].nlink)
    && t[d].nlink == s[d].nlink - (if s[i].kind == 1 then 1 else 0)
    && t[i].nlink == s[i].nlink - 1 && t[i].refs == s[i].refs
    && t[i].kind == if t[i].nlink == 0 && t[i].refs == 0 then 0 else s[i].kind
  }

  /** One more link, on the way, and the reference that comes with it. */
  predicate LinkedOnce(x: Node, y: Node) {
    && y.nlink == x.nlink + 1 && y.refs == x.refs + 1 && y.pending == x.pending + 1
    && y.kind == x.kind && y.entries == x.entries
  }

  // ----- counting -----

  /** If the entries that count for i are those of s without `gone` and with `more`, so is their number. */
  lemma RefsChange(s: seq<Node>, t: seq<Node>, i: nat, gone: set<(int, Name)>, more: set<(int, Name)>)
    requires forall d, n :: Counts(t, d, n, i) <==> (Counts(s, d, n, i) && (d, n) !in gone) || (d, n) in more
    requires gone <= Refs(s, i) && more !! Refs(s, i)
    ensures |Refs(t, i)| == |Refs(s, i)| - |gone| + |more|
  {
    forall x: (int, Name) ensures x in Refs(t, i) <==> x in (Refs(s, i) - gone) + more {
      InRefs(s, x.0, x.1, i);
      InRefs(t, x.0, x.1, i);
    }
    assert Refs(t, i) == (Refs(s, i) - gone) + more;
  }

  lemma InRefs(s: seq<Node>, d: int, n: Name, i: nat)
    ensures (d, n) in Refs(s, i) <==> Counts(s, d, n, i)
  {}

  /** What no counted entry names is named by none. */
  lemma NoneNames(s: seq<Node>, i: nat)
    requires |Refs(s, i)| == 0
    ensures forall d, n :: !Counts(s, d, n, i)
  {
    forall d, n ensures !Counts(s, d, n, i) { InRefs(s, d, n, i); }
  }

  lemma SameRefs(s: seq<Node>, t: seq<Node>, i: nat)
    requires forall d, n :: Counts(t, d, n, i) <==> Counts(s, d, n, i)
    ensures |Refs(t, i)| == |Refs(s, i)|
  {
    forall x: (int, Name) ensures x in Refs(t, i) <==> x in Refs(s, i) {
      InRefs(s, x.0, x.1, i);
      InRefs(t, x.0, x.1, i);
    }
    assert Refs(t, i) == Refs(s, i);
  }

  // ----- references and links -----

  /** Changing one inode that is not a linked directory, and keeping its kind or freeing it, changes no
      entry that counts. */
  lemma SameCounts(s: seq<Node>, t: seq<Node>, i: nat, y: Node)
    requires i < |s| && t == s[i := y] && (s[i].kind != T_DIR ==> y.kind != T_DIR)
    requires s[i].kind == T_DIR ==>
      (y.kind == T_DIR && (y.nlink > 0 <==> s[i].nlink > 0) && y.entries == s[i].entries)
        || (s[i].nlink <= 0 && (y.kind != T_DIR || y.nlink <= 0))
    ensures forall d, n, k :: Counts(t, d, n, k) <==> Counts(s, d, n, k)
  {}

  /** An inode changes in its counters only. */
  lemma OneNode(s: seq<Node>, i: nat, y: Node)
    requires Inv(s) && i < |s| && NodeOk(s[i := y], i)
    requires y.nlink - y.pending == s[i].nlink - s[i].pending
    requires (y.kind == s[i].kind && y.entries == s[i].entries && (y.kind == T_DIR ==> y.nlink == s[i].nlink))
      || (y.kind == 0 && s[i].nlink - s[i].pending == 0 && i != ROOT && (s[i].kind == T_DIR ==> s[i].nlink == 0))
    ensures Inv(s[i := y])
  {
    var t := s[i := y];
    SameCounts(s, t, i, y);
    forall k | 0 <= k < |t| ensures CountOk(t, k) {
      assert CountOk(s, k);
      SameRefs(s, t, k);
    }
    forall k | 0 <= k < |t| ensures NodeOk(t, k) { assert NodeOk(s, k); }
    forall d | 0 <= d < |t| ensures TreeOk(t, d) {
      assert TreeOk(s, d);
    }
    if y.kind != s[i].kind {
      assert CountOk(s, i);
      NoneNames(s, i);
    }
  }

  lemma LinkStartKeeps(s: seq<Node>, i: nat)
    requires Inv(s) && i < |s| && s[i].kind != T_DIR && s[i].kind != 0
    ensures Inv(LinkStart(s, i))
  {
    assert NodeOk(s, i);
    OneNode(s, i, LinkStart(s, i)[i]);
  }

  lemma LinkBadKeeps(s: seq<Node>, i: nat)
    requires Inv(s) && i < |s| && s[i].kind != T_DIR && s[i].pending > 0
    ensures Inv(LinkBad(s, i))
  {
    assert NodeOk(s, i) && CountOk(s, i);
    OneNode(s, i, LinkBad(s, i)[i]);
  }

  /** Opening and closing: a reference that is no link's is taken or given back. */
  lemma RefsKeep(s: seq<Node>, i: nat)
    requires Inv(s) && i < |s| && s[i].kind != 0
    ensures Inv(s[i := Iget(s[i])])
    ensures s[i].refs > s[i].pending ==> Inv(s[i := Iput(s[i])])
  {
    assert NodeOk(s, i) && CountOk(s, i) && NodeOk(s, ROOT) && CountOk(s, ROOT);
    OneNode(s, i, Iget(s[i]));
    if s[i].refs > s[i].pending { OneNode(s, i, Iput(s[i])); }
  }

  // ----- making an entry -----

  /** The entry for i in the linked directory d is new; otherwise only counters change. */
  lemma LinkDoneKeeps(s: seq<Node>, i: nat, d: nat, n: Name)
    requires Inv(s) && i < |s| && d < |s| && s[i].kind != T_DIR && s[i].pending > 0 && Linked(s, d)
    requires n !in s[d].entries
    ensures Inv(LinkDone(s, i, d, n))
  {
    assert TreeOk(s, d);
    LinkDoneCounts(s, i, d, n);
    LinkDoneNodes(s, i, d, n);
    var t := LinkDone(s, i, d, n);
    forall k | 0 <= k < |t| ensures CountOk(t, k) { LinkDoneCountOk(s, i, d, n, k); }
    assert NamesOk(t) by { LinkDoneNames(s, i, d, n); }
    hide CountOk, NodeOk, NamesOk;
    forall e | 0 <= e < |t| ensures TreeOk(t, e) { StillTree(s, t, e); }
  }

  lemma LinkDoneCounts(s: seq<Node>, i: nat, d: nat, n: Name)
    requires Inv(s) && i < |s| && d < |s| && s[i].kind != T_DIR && s[i].pending > 0 && Linked(s, d)
    requires n !in s[d].entries
    ensures i != d
    ensures forall e, m, k :: Counts(LinkDone(s, i, d, n), e, m, k) <==>
      Counts(s, e, m, k) || (e == d && m == n && k == i)
    ensures !Dots(n) && !Counts(s, d, n, i)
  {
    assert TreeOk(s, d);
    hide CountOk, NodeOk, NamesOk;
  }

  lemma LinkDoneNodes(s: seq<Node>, i: nat, d: nat, n: Name)
    requires Inv(s) && i < |s| && d < |s| && s[i].kind != T_DIR && s[i].pending > 0 && Linked(s, d)
    requires n !in s[d].entries
    ensures i != d && Linked(LinkDone(s, i, d, n), ROOT)
    ensures forall k :: 0 <= k < |s| ==> NodeOk(LinkDone(s, i, d, n), k)
  {
    var t := LinkDone(s, i, d, n);
    assert NodeOk(s, i) && NodeOk(s, d) && CountOk(s, i);
    hide CountOk, TreeOk, NamesOk;
    forall k | 0 <= k < |t| ensures NodeOk(t, k) { assert NodeOk(s, k); }
  }

  lemma LinkDoneCountOk(s: seq<Node>, i: nat, d: nat, n: Name, k: nat)
    requires Inv(s) && i < |s| && d < |s| && s[i].kind != T_DIR && s[i].pending > 0 && Linked(s, d)
    requires n !in s[d].entries && k < |s|
    ensures i != d && CountOk(LinkDone(s, i, d, n), k)
  {
    LinkDoneCounts(s, i, d, n);
    var t := LinkDone(s, i, d, n);
    assert CountOk(s, k) && NodeOk(s, i);
    hide NodeOk, TreeOk, NamesOk;
    if k == i {
      InRefs(s, d, n, i);
      RefsChange(s, t, k, {}, {(d as int, n)});
    } else {
      SameRefs(s, t, k);
    }
  }

  lemma LinkDoneNames(s: seq<Node>, i: nat, d: nat, n: Name)
    requires Inv(s) && i < |s| && d < |s| && s[i].kind != T_DIR && s[i].pending > 0 && Linked(s, d)
    requires n !in s[d].entries
    ensures i != d && NamesOk(LinkDone(s, i, d, n))
  {
    LinkDoneCounts(s, i, d, n);
    hide CountOk, NodeOk, TreeOk;
    var t := LinkDone(s, i, d, n);
    assert forall k :: 0 <= k < |s| && k != i ==> t[k].kind == s[k].kind;
  }

  /** A directory whose own entries for itself and its parent are as before stays in the tree when no
      counted entry has gone. */
  lemma StillTree(s: seq<Node>, t: seq<Node>, e: nat)
    requires e < |s| == |t| && TreeOk(s, e) && (Linked(t, e) ==> Linked(s, e))
    requires forall d, n, k :: Counts(s, d, n, k) ==> Counts(t, d, n, k)
    requires Linked(s, e) ==>
      forall n :: Dots(n) && n in s[e].entries ==> n in t[e].entries && t[e].entries[n] == s[e].entries[n]
    ensures TreeOk(t, e)
  {
    if Linked(t, e) {
      assert DOT in t[e].entries && DOTDOT in t[e].entries;
      if e != ROOT {
        var n :| !Dots(n) && Counts(s, s[e].entries[DOTDOT], n, e);
        assert Counts(t, t[e].entries[DOTDOT], n, e);
      }
    }
  }

  lemma CreatedCounts(s: seq<Node>, d: nat, n: Name, i: nat, kind: int)
    requires Inv(s) && i < |s| && d < |s| && i != d && s[i].kind == 0 && kind != 0 && Linked(s, d) && n !in s[d].entries
    ensures forall e, m, k :: Counts(Created(s, d, n, i, kind), e, m, k) <==>
      Counts(s, e, m, k) || (e == d && m == n && k == i) || (kind == T_DIR && e == i && m == DOTDOT && k == d)
    ensures forall e, m :: !Counts(s, e, m, i) && !Counts(s, i, m, e)
  {
    assert CountOk(s, i) && NodeOk(s, i) && TreeOk(s, d);
    NoneNames(s, i);
  }

  lemma CreatedKeeps(s: seq<Node>, d: nat, n: Name, i: nat, kind: int)
    requires Inv(s) && i < |s| && d < |s| && i != d && s[i].kind == 0 && kind != 0 && Linked(s, d) && n !in s[d].entries
    ensures Inv(Created(s, d, n, i, kind))
  {
    var t := Created(s, d, n, i, kind);
    CreatedCounts(s, d, n, i, kind);
    CreatedNodes(s, d, n, i, kind);
    forall k | 0 <= k < |t| ensures CountOk(t, k) { CreatedCountOk(s, d, n, i, kind, k); }
    assert NamesOk(t) by { CreatedNames(s, d, n, i, kind); }
    hide CountOk, NodeOk, NamesOk;
    forall e | 0 <= e < |t| ensures TreeOk(t, e) {
      if e == i {
        assert TreeOk(s, d);
        assert Linked(t, i) ==> Counts(t, d, n, i) && t[i].entries[DOTDOT] == d;
      } else {
        StillTree(s, t, e);
      }
    }
  }

  lemma CreatedNodes(s: seq<Node>, d: nat, n: Name, i: nat, kind: int)
    requires Inv(s) && i < |s| && d < |s| && i != d && s[i].kind == 0 && kind != 0 && Linked(s, d) && n !in s[d].entries
    ensures i != ROOT && Linked(Created(s, d, n, i, kind), ROOT) && !Dots(n)
    ensures forall k :: 0 <= k < |s| ==> NodeOk(Created(s, d, n, i, kind), k)
  {
    var t := Created(s, d, n, i, kind);
    assert TreeOk(s, d) && NodeOk(s, i) && NodeOk(s, d);
    hide CountOk, NamesOk;
    forall k | 0 <= k < |t| ensures NodeOk(t, k) { assert NodeOk(s, k); }
  }

  lemma CreatedCountOk(s: seq<Node>, d: nat, n: Name, i: nat, kind: int, k: nat)
    requires Inv(s) && i < |s| && d < |s| && i != d && s[i].kind == 0 && kind != 0 && Linked(s, d) && n !in s[d].entries
    requires k < |s|
    ensures CountOk(Created(s, d, n, i, kind), k)
  {
    var t := Created(s, d, n, i, kind);
    CreatedCounts(s, d, n, i, kind);
    assert CountOk(s, k) && NodeOk(s, i);
    hide NodeOk, TreeOk, NamesOk;
    InRefs(s, d, n, i);
    InRefs(s, i, DOTDOT, d);
    if k == i { RefsChange(s, t, k, {}, {(d as int, n)}); }
    else if k == d && kind == T_DIR { RefsChange(s, t, k, {}, {(i as int, DOTDOT)}); }
    else { SameRefs(s, t, k); }
  }

  lemma CreatedNames(s: seq<Node>, d: nat, n: Name, i: nat, kind: int)
    requires Inv(s) && i < |s| && d < |s| && i != d && s[i].kind == 0 && kind != 0 && Linked(s, d) && n !in s[d].entries
    ensures NamesOk(Created(s, d, n, i, kind))
  {
    CreatedCounts(s, d, n, i, kind);
    CreatedNodes(s, d, n, i, kind);
    hide CountOk, NodeOk, TreeOk;
    var t := Created(s, d, n, i, kind);
    assert forall k :: 0 <= k < |s| && k != i ==> t[k].kind == s[k].kind;
  }

  // ----- removing an entry -----

  /** Nothing but "." and "..". */
  predicate Empty(x: Node) { forall n :: n in x.entries ==> Dots(n) }

  /** The entry that sys_unlink is about to remove. */
  predicate CanUnlink(s: seq<Node>, d: nat, n: Name, i: nat) {
    && i < |s| && d < |s| && Linked(s, d) && n in s[d].entries && s[d].entries[n] == i && !Dots(n)
    && (s[i].kind == T_DIR ==> Empty(s[i]))
  }

  /** What an entry names has a link, so that sys_unlink never panics; and it is another inode. */
  lemma NamedHasLink(s: seq<Node>, d: nat, n: Name, i: nat)
    requires Inv(s) && i < |s| && d < |s| && Linked(s, d) && n in s[d].entries && s[d].entries[n] == i && !Dots(n)
    ensures s[i].nlink >= 1 && s[i].kind != 0 && i != d && i != ROOT
  {
    assert Counts(s, d, n, i);
    assert CountOk(s, i) && NodeOk(s, i);
    InRefs(s, d, n, i);
    assert |Refs(s, i)| >= 1 by { if |Refs(s, i)| == 0 { NoneNames(s, i); } }
  }

  /** An empty directory is named by its one entry only. */
  lemma EmptyDirRefs(s: seq<Node>, d: nat, n: Name, i: nat)
    requires Inv(s) && CanUnlink(s, d, n, i) && s[i].kind == T_DIR
    ensures Refs(s, i) == {(d as int, n)} && s[i].nlink == 1
    ensures DOTDOT in s[i].entries && s[i].entries[DOTDOT] == d
    ensures s[d].nlink >= 2
  {
    NamedHasLink(s, d, n, i);
    assert Counts(s, d, n, i) && TreeOk(s, i) && CountOk(s, i) && NodeOk(s, i);
    forall e, m | Counts(s, e, m, i) ensures e == d && m == n {
      assert TreeOk(s, e);
    }
    forall x: (int, Name) ensures x in Refs(s, i) <==> x == (d as int, n) { InRefs(s, x.0, x.1, i); }
    assert Refs(s, i) == {(d as int, n)};
    assert Counts(s, i, DOTDOT, d);
    TwoRefs(s, d, i);
  }

  /** A linked directory with a subdirectory is named twice at least. */
  lemma TwoRefs(s: seq<Node>, d: nat, i: nat)
    requires Inv(s) && d < |s| && Linked(s, d) && Counts(s, i, DOTDOT, d) && i != ROOT
    ensures s[d].nlink >= 2
  {
    assert TreeOk(s, d) && CountOk(s, d);
    InRefs(s, i, DOTDOT, d);
    var x: (int, Name);
    if d == ROOT {
      x := (ROOT, DOTDOT);
      assert Counts(s, ROOT, DOTDOT, ROOT);
    } else {
      var n :| !Dots(n) && Counts(s, s[d].entries[DOTDOT], n, d);
      x := (s[d].entries[DOTDOT], n);
    }
    InRefs(s, x.0, x.1, d);
    assert {(i as int, DOTDOT), x} <= Refs(s, d);
    SubsetSize({(i as int, DOTDOT), x}, Refs(s, d));
  }

  lemma UnlinkedCounts(s: seq<Node>, d: nat, n: Name, i: nat)
    requires Inv(s) && CanUnlink(s, d, n, i)
    ensures i != d
    ensures forall e, m, k :: Counts(Unlinked(s, d, n, i), e, m, k) <==>
      Counts(s, e, m, k) && !(e == d && m == n) && !(s[i].kind == T_DIR && e == i)
    ensures s[i].kind == T_DIR ==> forall m, k :: Counts(s, i, m, k) <==> m == DOTDOT && k == d
  {
    NamedHasLink(s, d, n, i);
    if s[i].kind == T_DIR { EmptyDirRefs(s, d, n, i); }
  }

  lemma UnlinkedCountOk(s: seq<Node>, d: nat, n: Name, i: nat, k: nat)
    requires Inv(s) && CanUnlink(s, d, n, i) && k < |s|
    ensures i != d && CountOk(Unlinked(s, d, n, i), k)
  {
    UnlinkedCounts(s, d, n, i);
    NamedHasLink(s, d, n, i);
    var t := Unlinked(s, d, n, i);
    assert CountOk(s, k) && NodeOk(s, i);
    assert Counts(s, d, n, i);
    InRefs(s, d, n, i);
    InRefs(s, i, DOTDOT, d);
    if k == i {
      RefsChange(s, t, k, {(d as int, n)}, {});
    } else if k == d && s[i].kind == T_DIR {
      RefsChange(s, t, k, {(i as int, DOTDOT)}, {});
    } else {
      SameRefs(s, t, k);
    }
  }

  lemma UnlinkedKeeps(s: seq<Node>, d: nat, n: Name, i: nat)
    requires Inv(s) && CanUnlink(s, d, n, i)
    ensures i != d && Inv(Unlinked(s, d, n, i))
  {
    UnlinkedNodes(s, d, n, i);
    UnlinkedNames(s, d, n, i);
    var t := Unlinked(s, d, n, i);
    hide CountOk, NodeOk, TreeOk, NamesOk, Unlinked, CanUnlink;
    forall k | 0 <= k < |t| ensures CountOk(t, k) { UnlinkedCountOk(s, d, n, i, k); }
    forall e | 0 <= e < |t| ensures TreeOk(t, e) { UnlinkedTree(s, d, n, i, e); }
  }

  lemma UnlinkedMeans(s: seq<Node>, d: nat, n: Name, i: nat)
    requires Inv(s) && CanUnlink(s, d, n, i) && i != d
    ensures EntryRemoved(s, Unlinked(s, d, n, i), d, n, i)
  {
    assert NodeOk(s, i);
  }

  lemma UnlinkedNodes(s: seq<Node>, d: nat, n: Name, i: nat)
    requires Inv(s) && CanUnlink(s, d, n, i)
    ensures i != d && |Unlinked(s, d, n, i)| == |s| && Linked(Unlinked(s, d, n, i), ROOT)
    ensures forall k :: 0 <= k < |s| ==> NodeOk(Unlinked(s, d, n, i), k)
  {
    NamedHasLink(s, d, n, i);
    if s[i].kind == T_DIR { EmptyDirRefs(s, d, n, i); }
    var t := Unlinked(s, d, n, i);
    assert NodeOk(s, i) && NodeOk(s, d) && NodeOk(s, ROOT);
    hide CountOk, TreeOk, NamesOk;
    forall k | 0 <= k < |t| ensures NodeOk(t, k) { assert NodeOk(s, k); }
  }

  lemma UnlinkedNames(s: seq<Node>, d: nat, n: Name, i: nat)
    requires Inv(s) && CanUnlink(s, d, n, i)
    ensures i != d && NamesOk(Unlinked(s, d, n, i))
  {
    UnlinkedCounts(s, d, n, i);
    if s[i].kind == T_DIR {
      EmptyDirRefs(s, d, n, i);
      forall e ensures !Counts(s, e, DOTDOT, i) { InRefs(s, e, DOTDOT, i); }
    }
    var t := Unlinked(s, d, n, i);
    hide CountOk, NodeOk, TreeOk;
    assert forall k :: 0 <= k < |s| && k != i ==> t[k].kind == s[k].kind;
    assert t[i].kind == s[i].kind || t[i].kind == 0;
  }

  lemma UnlinkedTree(s: seq<Node>, d: nat, n: Name, i: nat, e: nat)
    requires Inv(s) && CanUnlink(s, d, n, i) && e < |s|
    ensures i != d && TreeOk(Unlinked(s, d, n, i), e)
  {
    UnlinkedCounts(s, d, n, i);
    NamedHasLink(s, d, n, i);
    var t := Unlinked(s, d, n, i);
    assert TreeOk(s, e) && Counts(s, d, n, i);
    if s[i].kind == T_DIR { EmptyDirRefs(s, d, n, i); }
    if Linked(t, e) && e != ROOT {
      var m :| !Dots(m) && Counts(s, s[e].entries[DOTDOT], m, e);
      assert Counts(t, t[e].entries[DOTDOT], m, e);
    }
  }

  // ----- what follows -----

  /** An inode is allocated exactly as long as an entry that counts names it or somebody holds it: none
      is freed too early, none is leaked. */
  lemma AllocatedIffHeld(s: seq<Node>, i: nat)
    requires Inv(s) && i < |s|
    ensures s[i].kind != 0 <==> s[i].refs > 0 || exists d, n :: Counts(s, d, n, i)
  {
    assert NodeOk(s, i) && CountOk(s, i);
    if s[i].kind != 0 && s[i].refs == 0 {
      var x :| x in Refs(s, i);
      InRefs(s, x.0, x.1, i);
      assert Counts(s, x.0, x.1, i);
    }
    if s[i].kind == 0 { NoneNames(s, i); }
  }

  /** nlink in words of the entries, when no link is under way. */
  lemma NlinkIsCount(s: seq<Node>, i: nat)
    requires Inv(s) && i < |s| && s[i].pending == 0
    ensures s[i].nlink == |set d, n | 0 <= d < |s| && n in s[d].entries && Counts(s, d, n, i) :: (d, n)|
  {
    assert CountOk(s, i);
  }

  // ----- the system calls -----

  /** The inodes as the system calls change them, one field at a time. */
  class Table {
    var s: seq<Node>

    method Hold(i: nat)
      requires i < |s|
      modifies this
      ensures s == old(s)[i := Iget(old(s)[i])]
    {
      s := s[i := s[i].(refs := s[i].refs + 1)];
    }

    method Drop(i: nat)
      requires i < |s|
      modifies this
      ensures s == old(s)[i := Iput(old(s)[i])]
    {
      if s[i].nlink == 0 {
        if s[i].refs == 1 {
          s := s[i := s[i].(entries := map[])];
          s := s[i := s[i].(kind := 0)];
        }
      }
      s := s[i := s[i].(refs := s[i].refs - 1)];
    }

    /** sys_link with `old` found at i, up to iunlock: refused for a directory. */
    method LinkFirst(i: nat) returns (ok: bool)
      requires Inv(s) && i < |s| && s[i].kind != 0
      modifies this
      ensures Inv(s) && (ok <==> old(s)[i].kind != T_DIR)
      ensures s == if ok then LinkStart(old(s), i) else old(s)
      ensures ok ==> Touched(old(s), s, i, -1) && LinkedOnce(old(s)[i], s[i])
    {
      Entry(s, i);
      Hold(i);
      if s[i].kind == T_DIR {
        Drop(i);
        assert s == old(s);
        return false;
      }
      s := s[i := s[i].(nlink := s[i].nlink + 1, pending := s[i].pending + 1)];
      LinkStartKeeps(old(s), i);
      assert s == LinkStart(old(s), i);
      return true;
    }

    /** sys_link from nameiparent on; d is -1 if nameiparent has failed. When the entry cannot be made,
        the raised nlink is lowered again. */
    method LinkSecond(i: nat, d: int, n: Name) returns (ok: bool)
      requires Inv(s) && i < |s| && s[i].kind != T_DIR && s[i].pending > 0
      requires d == -1 || (0 <= d < |s| && Linked(s, d))
      modifies this
      ensures Inv(s) && (ok <==> d != -1 && n !in old(s)[d].entries)
      ensures ok ==> d != i && s == LinkDone(old(s), i, d, n)
      ensures !ok ==> s == LinkBad(old(s), i)
      ensures |s| == |old(s)| && Touched(old(s), s, i, if ok then d else -1)
      ensures ok ==> s[d] == old(s)[d].(entries := old(s)[d].entries[n := i])
      ensures s[i].nlink == old(s)[i].nlink - (if ok then 0 else 1)
      ensures s[i].pending == old(s)[i].pending - 1
      ensures s[i].kind == (if s[i].nlink == 0 && old(s)[i].refs == 1 then 0 else old(s)[i].kind)
    {
      if d != -1 && n !in s[d].entries {
        LinkDoneKeeps(s, i, d, n);
        s := s[d := s[d].(entries := s[d].entries[n := i])];
        s := s[i := s[i].(pending := s[i].pending - 1)];
        Drop(i);
        assert s == LinkDone(old(s), i, d, n);
        return true;
      }
      LinkBadKeeps(s, i);
      s := s[i := s[i].(nlink := s[i].nlink - 1, pending := s[i].pending - 1)];
      Drop(i);
      assert s == LinkBad(old(s), i);
      return false;
    }

    /** sys_unlink in the linked directory d. The panic for nlink < 1 is never reached. */
    method Unlink(d: nat, n: Name) returns (ok: bool)
      requires Inv(s) && d < |s| && Linked(s, d)
      modifies this
      ensures Inv(s)
      ensures n in old(s)[d].entries ==> old(s)[d].entries[n] < |old(s)|
      ensures ok <==>
        && n in old(s)[d].entries && n != "." && n != ".."
        && (old(s)[old(s)[d].entries[n]].kind == 1 ==>
              forall k :: k in old(s)[old(s)[d].entries[n]].entries ==> k == "." || k == "..")
      ensures ok ==> old(s)[d].entries[n] != d && s == Unlinked(old(s), d, n, old(s)[d].entries[n])
      ensures !ok ==> s == old(s)
      ensures ok ==> EntryRemoved(old(s), s, d, n, old(s)[d].entries[n])
    {
      Entry(s, d);
      if n == DOT || n == DOTDOT { return false; }
      if n !in s[d].entries { return false; }
      var i := s[d].entries[n];
      NamedHasLink(s, d, n, i);
      Entry(s, i);
      Hold(i);
      assert s[i].nlink >= 1;
      if s[i].kind == T_DIR && !Empty(s[i]) {
        Drop(i);
        assert s == old(s);
        return false;
      }
      UnlinkedKeeps(old(s), d, n, i);
      UnlinkedMeans(old(s), d, n, i);
      hide EntryRemoved, Inv, NodeOk, TreeOk, CountOk, NamesOk;
      Remove(d, n, i, old(s));
      return true;
    }

    /** The rest of sys_unlink, on inode i, which dirlookup has got. */
    method Remove(d: nat, n: Name, i: nat, ghost was: seq<Node>)
      requires d < |was| && i < |was| && i != d && n in was[d].entries && s == was[i := Iget(was[i])]
      modifies this
      ensures s == Unlinked(was, d, n, i)
    {
      s := s[d := s[d].(entries := s[d].entries - {n})];
      if s[i].kind == T_DIR {
        s := s[d := s[d].(nlink := s[d].nlink - 1)];
      }
      s := s[i := s[i].(nlink := s[i].nlink - 1)];
      Drop(i);
      assert s[d] == Unlinked(was, d, n, i)[d] && s[i] == Unlinked(was, d, n, i)[i];
    }

    /** create in the linked directory d, of a file, directory or device: an existing file is opened when
        a file is asked for, everything else that exists is refused. -1 is a null pointer, -2 the panic
        of ialloc. */
    method Create(d: nat, n: Name, kind: int) returns (i: int)
      requires Inv(s) && d < |s| && Linked(s, d) && kind != 0
      modifies this
      ensures Inv(s)
      ensures n in old(s)[d].entries ==>
        && old(s)[d].entries[n] < |old(s)|
        && i == (if kind == 2 && old(s)[old(s)[d].entries[n]].kind == 2 then old(s)[d].entries[n] else -1)
        && s == (if i == -1 then old(s) else old(s)[old(s)[d].entries[n] := Iget(old(s)[old(s)[d].entries[n]])])
      ensures i == -2 <==> n !in old(s)[d].entries && forall k :: 0 < k < |old(s)| ==> old(s)[k].kind != 0
      ensures i == -2 ==> s == old(s)
      ensures n !in old(s)[d].entries && i != -2 ==>
        0 < i < |old(s)| && i != d && old(s)[i].kind == 0 && s == Created(old(s), d, n, i, kind)
      ensures n !in old(s)[d].entries && i != -2 ==>
        && |s| == |old(s)| && Touched(old(s), s, d, i)
        && s[d] == old(s)[d].(entries := old(s)[d].entries[n := i], nlink := s[d].nlink)
        && s[d].nlink == old(s)[d].nlink + (if kind == 1 then 1 else 0)
        && s[i].kind == kind && s[i].nlink == 1 && s[i].refs == 1
        && s[i].entries == (if kind == 1 then map["." := i as nat, ".." := d] else map[])
    {
      Entry(s, d);
      if n in s[d].entries {
        var ip := s[d].entries[n];
        NamedKind(s, d, n);
        Entry(s, ip);
        RefsKeep(s, ip);
        Hold(ip);
        if kind == 2 && s[ip].kind == 2 { return ip; }
        Drop(ip);
        assert s == old(s);
        return -1;
      }
      var j := 1;
      while j < |s|
        invariant 1 <= j <= |s| && s == old(s)
        invariant forall k :: 0 < k < j ==> s[k].kind != 0
      {
        if s[j].kind == 0 {
          CreatedKeeps(s, d, n, j, kind);
          s := s[j := Node(kind, 1, map[], 1, 0)];
          if kind == T_DIR {
            s := s[d := s[d].(nlink := s[d].nlink + 1)];
            s := s[j := s[j].(entries := map[DOT := j, DOTDOT := d])];
          }
          s := s[d := s[d].(entries := s[d].entries[n := j])];
          assert s == Created(old(s), d, n, j, kind);
          return j;
        }
        j := j + 1;
      }
      return -2;
    }
  }

  lemma Entry(s: seq<Node>, i: nat)
    requires Inv(s) && i < |s|
    ensures NodeOk(s, i) && TreeOk(s, i)
  {}

  /** What a linked directory names, itself included, is allocated. */
  lemma NamedKind(s: seq<Node>, d: nat, n: Name)
    requires Inv(s) && d < |s| && Linked(s, d) && n in s[d].entries
    ensures s[d].entries[n] < |s| && s[s[d].entries[n]].kind != 0
    ensures s[s[d].entries[n]].nlink > 0
  {
    assert NodeOk(s, d) && TreeOk(s, d);
    var i := s[d].entries[n];
    if n != DOT {
      assert NodeOk(s, i) && CountOk(s, i) && Counts(s, d, n, i);
      InRefs(s, d, n, i);
      if |Refs(s, i)| == 0 { NoneNames(s, i); }
    }
  }
}
