/** Directories (fs.c: namecmp, dirlookup, dirlink; sysfile.c: isdirempty): a directory's bytes as a
    finite map from names of at most 14 bytes to inode numbers. */
module Directory {
  import opened Blocks
  import opened Layout
  import opened FileData
  import opened WriteBudget
  import opened FileSystem

  const DIRSIZ: nat := 14
  const DIRENT: nat := 16             // sizeof(struct dirent)
  const T_DIR: int := 1
  const USHORT: nat := 0x1_0000

  // ----- names -----

  /** The first n bytes of a string, up to a zero. */
  function Cut(s: seq<Byte>, n: nat): (r: seq<Byte>)
    ensures |r| <= n && forall k :: 0 <= k < |r| ==> r[k] != 0
    decreases n
  {
    if n == 0 || |s| == 0 || s[0] == 0 then [] else [s[0]] + Cut(s[1..], n - 1)
  }

  /** A name as directories know it. */
  function Key(s: seq<Byte>): (r: seq<Byte>)
    ensures |r| <= DIRSIZ
  {
    Cut(s, DIRSIZ)
  }

  function Zeros(n: nat): (r: seq<Byte>)
    ensures |r| == n
  {
    seq(n, _ => 0)
  }

  /** What strncpy puts into de.name. */
  function Padded(s: seq<Byte>): (r: seq<Byte>)
    ensures |r| == DIRSIZ
  {
    Key(s) + Zeros(DIRSIZ - |Key(s)|)
  }

  lemma {:induction false} CutPadded(k: seq<Byte>, n: nat)
    requires |k| <= n && forall i :: 0 <= i < |k| ==> k[i] != 0
    ensures Cut(k + Zeros(n - |k|), n) == k
    decreases n
  {
    if |k| > 0 {
      assert (k + Zeros(n - |k|))[1..] == k[1..] + Zeros(n - |k|);
      CutPadded(k[1..], n - 1);
    }
  }

  /** A name that has been through strncpy is the same name. */
  lemma KeyOfPadded(s: seq<Byte>)
    ensures Key(Padded(s)) == Key(s)
  {
    var k := Key(s);
    hide Zeros, Cut;
    CutPadded(k, DIRSIZ);
  }

  /** The byte of a C string at i, zero at its end. */
  function CharAt(s: seq<Byte>, i: nat): Byte { if i < |s| then s[i] else 0 }

  /** strncmp(s, t, DIRSIZ): zero exactly if the names, cut to 14 bytes, are equal. */
  method Namecmp(s: seq<Byte>, t: seq<Byte>) returns (r: int)
    ensures r == 0 <==> Key(s) == Key(t)
  {
    var n, i := DIRSIZ, 0;
    while n > 0 && CharAt(s, i) != 0 && CharAt(s, i) == CharAt(t, i)
      invariant 0 <= n <= DIRSIZ && i == DIRSIZ - n && (i <= |s| || i <= |t|) && i <= |s| && i <= |t|
      invariant Cut(s[i..], n) == Cut(t[i..], n) <==> Key(s) == Key(t)
      decreases n
    {
      CutStep(s[i..], t[i..], n);
      assert s[i..][1..] == s[i + 1..] && t[i..][1..] == t[i + 1..];
      n, i := n - 1, i + 1;
    }
    if n == 0 { return 0; }
    CutStep(s[i..], t[i..], n);
    r := CharAt(s, i) - CharAt(t, i);
  }

  lemma CutStep(s: seq<Byte>, t: seq<Byte>, n: nat)
    requires n > 0
    ensures CharAt(s, 0) != 0 && CharAt(s, 0) == CharAt(t, 0) ==>
      |s| > 0 && |t| > 0 && (Cut(s, n) == Cut(t, n) <==> Cut(s[1..], n - 1) == Cut(t[1..], n - 1))
    ensures CharAt(s, 0) == 0 || CharAt(s, 0) != CharAt(t, 0) ==>
      (Cut(s, n) == Cut(t, n) <==> CharAt(s, 0) == CharAt(t, 0))
  {
    if CharAt(s, 0) != 0 && CharAt(s, 0) == CharAt(t, 0) {
      assert Cut(s, n)[1..] == Cut(s[1..], n - 1) && Cut(t, n)[1..] == Cut(t[1..], n - 1);
    } else {
      assert CharAt(s, 0) != 0 ==> Cut(s, n)[0] == s[0];
      assert CharAt(t, 0) != 0 ==> Cut(t, n)[0] == t[0];
    }
  }

  // ----- entries -----

  datatype Dirent = Dirent(inum: nat, name: seq<Byte>)

  predicate IsDirent(d: Dirent) { d.inum < USHORT && |d.name| == DIRSIZ }

  function Encode(d: Dirent): (b: seq<Byte>)
    requires IsDirent(d)
    ensures |b| == DIRENT
  {
    var low: int, high: int := d.inum % 0x100, d.inum / 0x100;
    [low, high] + d.name
  }

  function Decode(b: seq<Byte>): (d: Dirent)
    requires |b| == DIRENT
    ensures IsDirent(d)
  {
    Dirent(b[0] as int + 0x100 * b[1] as int, b[2..])
  }

  lemma DecodeEncode(d: Dirent)
    requires IsDirent(d)
    ensures Decode(Encode(d)) == d
  {
    assert Encode(d)[2..] == d.name;
  }

  /** The entries of a directory's contents. */
  function Entries(c: seq<Byte>): (es: seq<Dirent>)
    requires |c| % DIRENT == 0
    ensures |es| == |c| / DIRENT
  {
    seq(|c| / DIRENT, k requires 0 <= k < |c| / DIRENT => EntryAt(c, k))
  }

  function EntryAt(c: seq<Byte>, k: nat): (d: Dirent)
    requires DIRENT * (k + 1) <= |c|
    ensures IsDirent(d)
  {
    Decode(c[DIRENT * k..DIRENT * (k + 1)])
  }

  /** The entries with the k-th replaced, or a new one behind them. */
  function Put(es: seq<Dirent>, k: nat, d: Dirent): (r: seq<Dirent>)
    requires k <= |es|
  {
    if k < |es| then es[k := d] else es + [d]
  }

  /** Writing one entry's bytes changes one entry. */
  lemma EntriesAfterWrite(c: seq<Byte>, k: nat, d: Dirent)
    requires |c| % DIRENT == 0 && k <= |c| / DIRENT && IsDirent(d)
    ensures |Splice(c, DIRENT * k, Encode(d))| % DIRENT == 0
    ensures Entries(Splice(c, DIRENT * k, Encode(d))) == Put(Entries(c), k, d)
  {
    var off, src := DIRENT * k, Encode(d);
    var w := Splice(c, off, src);
    SpliceAt(c, off, src, off);
    assert |w| == if k < |c| / DIRENT then |c| else |c| + DIRENT;
    forall j | 0 <= j < |w| / DIRENT ensures EntryAt(w, j) == Put(Entries(c), k, d)[j] {
      if j == k {
        assert w[DIRENT * j..DIRENT * (j + 1)] == src by {
          forall i | 0 <= i < DIRENT ensures w[off + i] == src[i] { SpliceAt(c, off, src, off + i); }
        }
        DecodeEncode(d);
      } else {
        assert w[DIRENT * j..DIRENT * (j + 1)] == c[DIRENT * j..DIRENT * (j + 1)] by {
          forall i | DIRENT * j <= i < DIRENT * (j + 1) ensures w[i] == c[i] { SpliceAt(c, off, src, i); }
        }
      }
    }
  }

  // ----- a directory as a map -----

  /** Entry k is in use under this name. */
  predicate Live(es: seq<Dirent>, k: nat, key: seq<Byte>)
    requires k < |es|
  {
    es[k].inum != 0 && Key(es[k].name) == key
  }

  /** No two entries in use have the same name. */
  ghost predicate Unique(es: seq<Dirent>) {
    forall i, j :: 0 <= i < j < |es| && es[i].inum != 0 && es[j].inum != 0 ==> Key(es[i].name) != Key(es[j].name)
  }

  /** The names in use and what they name. */
  function Names(es: seq<Dirent>): (m: map<seq<Byte>, nat>) {
    if |es| == 0 then map[]
    else
      var d := es[|es| - 1];
      if d.inum != 0 then Names(es[..|es| - 1])[Key(d.name) := d.inum] else Names(es[..|es| - 1])
  }

  lemma {:induction false} NamesIn(es: seq<Dirent>, key: seq<Byte>)
    ensures key in Names(es) <==> exists k :: 0 <= k < |es| && Live(es, k, key)
  {
    if |es| > 0 {
      var r := es[..|es| - 1];
      NamesIn(r, key);
      if key in Names(r) {
        var k :| 0 <= k < |r| && Live(r, k, key);
        assert Live(es, k, key);
      }
      assert Live(es, |es| - 1, key) <==> es[|es| - 1].inum != 0 && Key(es[|es| - 1].name) == key;
      if k :| 0 <= k < |es| && Live(es, k, key) {
        if k < |r| { assert Live(r, k, key); }
      }
    }
  }

  lemma {:induction false} NamesAt(es: seq<Dirent>, k: nat, key: seq<Byte>)
    requires Unique(es) && k < |es| && Live(es, k, key)
    ensures key in Names(es) && Names(es)[key] == es[k].inum
  {
    if k < |es| - 1 {
      assert es[k].inum != 0;
      NamesAt(es[..|es| - 1], k, key);
    }
  }

  /** Linking a new name into a free place adds exactly that name to the map. */
  lemma NamesAfterLink(es: seq<Dirent>, k: nat, d: Dirent)
    requires Unique(es) && k <= |es| && (k < |es| ==> es[k].inum == 0) && d.inum != 0 && Key(d.name) !in Names(es)
    ensures Unique(Put(es, k, d)) && Names(Put(es, k, d)) == Names(es)[Key(d.name) := d.inum]
  {
    var w, key := Put(es, k, d), Key(d.name);
    NewIsUnique(es, k, d);
    hide Key, Names, Unique, Put, Live;
    var m := Names(es)[key := d.inum];
    forall x ensures x in Names(w) <==> x in m
      ensures x in Names(w) && x in m ==> Names(w)[x] == m[x]
    {
      LinkAt(es, k, d, x);
    }
    SameMap(Names(w), m);
  }

  lemma SameMap(m: map<seq<Byte>, nat>, n: map<seq<Byte>, nat>)
    requires forall x :: x in m <==> x in n
    requires forall x :: x in m && x in n ==> m[x] == n[x]
    ensures m == n
  {}

  lemma LinkAt(es: seq<Dirent>, k: nat, d: Dirent, x: seq<Byte>)
    requires Unique(es) && k <= |es| && (k < |es| ==> es[k].inum == 0) && d.inum != 0 && Unique(Put(es, k, d))
    ensures var w := Put(es, k, d);
      && (x in Names(w) <==> x in Names(es) || x == Key(d.name))
      && (x in Names(w) && x == Key(d.name) ==> Names(w)[x] == d.inum)
      && (x in Names(w) && x != Key(d.name) ==> Names(w)[x] == Names(es)[x])
  {
    hide Key, Names, Unique;
    var w := Put(es, k, d);
    if x == Key(d.name) { NamesAt(w, k, x); } else { SameNames(es, w, k, x); }
  }

  lemma NewIsUnique(es: seq<Dirent>, k: nat, d: Dirent)
    requires Unique(es) && k <= |es| && (k < |es| ==> es[k].inum == 0) && Key(d.name) !in Names(es)
    ensures Unique(Put(es, k, d))
  {
    NamesIn(es, Key(d.name));
    hide Names, Key;
    forall i | 0 <= i < |es| && es[i].inum != 0 ensures Key(es[i].name) != Key(d.name) {
      assert !Live(es, i, Key(d.name));
    }
  }

  /** Names other than those of entry k are untouched by a change of entry k. */
  lemma SameNames(es: seq<Dirent>, w: seq<Dirent>, k: nat, x: seq<Byte>)
    requires Unique(es) && Unique(w) && k <= |es| <= |w| && k < |w| && |w| <= Max(|es|, k + 1)
    requires forall j :: 0 <= j < |es| && j != k ==> w[j] == es[j]
    requires !Live(w, k, x) && (k < |es| ==> !Live(es, k, x))
    ensures x in Names(w) <==> x in Names(es)
    ensures x in Names(es) ==> Names(w)[x] == Names(es)[x]
  {
    NamesIn(es, x);
    NamesIn(w, x);
    if j :| 0 <= j < |es| && Live(es, j, x) {
      assert Live(w, j, x);
      NamesAt(es, j, x);
      NamesAt(w, j, x);
    }
    if j :| 0 <= j < |w| && j != k && Live(w, j, x) {
      assert Live(es, j, x);
    }
  }

  /** Clearing an entry removes exactly its name from the map. */
  lemma NamesAfterUnlink(es: seq<Dirent>, k: nat, key: seq<Byte>, d: Dirent)
    requires Unique(es) && k < |es| && Live(es, k, key) && d.inum == 0
    ensures Unique(Put(es, k, d)) && Names(Put(es, k, d)) == Names(es) - {key}
  {
    var w := Put(es, k, d);
    OthersUnique(es, k, key, d);
    hide Key, Names, Unique, Put, Live;
    var m := Names(es) - {key};
    forall x ensures x in Names(w) <==> x in m
      ensures x in Names(w) && x in m ==> Names(w)[x] == m[x]
    {
      UnlinkAt(es, k, key, d, x);
    }
    SameMap(Names(w), m);
  }

  lemma UnlinkAt(es: seq<Dirent>, k: nat, key: seq<Byte>, d: Dirent, x: seq<Byte>)
    requires Unique(es) && k < |es| && Live(es, k, key) && d.inum == 0 && Unique(Put(es, k, d))
    requires forall j :: 0 <= j < |es| ==> !Live(Put(es, k, d), j, key)
    ensures var w := Put(es, k, d);
      && (x in Names(w) <==> x in Names(es) && x != key)
      && (x in Names(w) ==> Names(w)[x] == Names(es)[x])
  {
    hide Key, Names, Unique;
    var w := Put(es, k, d);
    if x == key { NamesIn(w, key); } else { SameNames(es, w, k, x); }
  }

  lemma OthersUnique(es: seq<Dirent>, k: nat, key: seq<Byte>, d: Dirent)
    requires Unique(es) && k < |es| && Live(es, k, key) && d.inum == 0
    ensures Unique(Put(es, k, d)) && forall j :: 0 <= j < |es| ==> !Live(Put(es, k, d), j, key)
  {
    hide Key;
  }

  const DOT: seq<Byte> := [46]
  const DOTDOT: seq<Byte> := [46, 46]

  /** The first two entries are for the directory and its parent. */
  predicate DotsFirst(es: seq<Dirent>) {
    |es| >= 2 && Live(es, 0, DOT) && Live(es, 1, DOTDOT)
  }

  /** From the third entry on, none of the first k is in use. */
  ghost predicate FreeUpTo(es: seq<Dirent>, k: nat) {
    forall j :: 2 <= j < k && j < |es| ==> es[j].inum == 0
  }

  /** What isdirempty looks at decides whether the map holds more than "." and "..". */
  lemma EmptyMeans(es: seq<Dirent>)
    requires Unique(es) && DotsFirst(es)
    ensures FreeUpTo(es, |es|) <==> forall key :: key in Names(es) ==> key == DOT || key == DOTDOT
  {
    hide Key, Names;
    if FreeUpTo(es, |es|) {
      forall key | key in Names(es) ensures key == DOT || key == DOTDOT {
        NamesIn(es, key);
        var k :| 0 <= k < |es| && Live(es, k, key);
        assert k < 2;
      }
    } else {
      var j :| 2 <= j < |es| && es[j].inum != 0;
      assert es[0].inum != 0 && es[1].inum != 0;
      NamesIn(es, Key(es[j].name));
      assert Live(es, j, Key(es[j].name));
      assert Key(es[j].name) != DOT && Key(es[j].name) != DOTDOT;
    }
  }

  // ----- the operations -----

  /** dp is a directory: a file without holes made of whole entries. */
  ghost predicate IsDir(m: Image, dp: nat) {
    dp < |m.inodes| && m.inodes[dp].kind == T_DIR && NoHoles(m.blocks, m.inodes[dp]) && m.inodes[dp].size % DIRENT == 0
  }

  /** The entries of directory dp. */
  ghost function EntriesOf(m: Image, dp: nat): (es: seq<Dirent>)
    requires IsDir(m, dp)
    ensures |es| * DIRENT == m.inodes[dp].size
  {
    Entries(Content(m.blocks, m.inodes[dp]))
  }

  /** readi of one entry; it is never short. */
  method ReadEntry(fs: Fs, dp: nat, off: nat, ghost k: nat) returns (de: Dirent)
    requires fs.Valid() && dp < fs.g.ninodes && IsDir(fs.Now(), dp) && off == DIRENT * k && off < fs.inodes[dp].size
    modifies fs`blocks, fs`inodes, fs`owner, fs`logged
    ensures unchanged(fs) && k < |EntriesOf(fs.Now(), dp)| && de == EntriesOf(fs.Now(), dp)[k]
  {
    assert off + DIRENT <= fs.inodes[dp].size;
    var r, dst := fs.Readi(dp, off, DIRENT);
    EntryIs(Content(fs.blocks, fs.inodes[dp]), k, dst);
    de := Decode(dst);
  }

  lemma EntryIs(c: seq<Byte>, k: nat, dst: seq<Byte>)
    requires |c| % DIRENT == 0 && DIRENT * k + DIRENT <= |c| && dst == c[DIRENT * k..DIRENT * k + DIRENT]
    ensures k < |Entries(c)| && Decode(dst) == Entries(c)[k]
  {}

  /** inum is what the first entry in use under the name says, the k-th; 0 if there is none. */
  ghost predicate LookedUp(es: seq<Dirent>, key: seq<Byte>, inum: nat, k: nat) {
    && k <= |es| && (forall j :: 0 <= j < k ==> !Live(es, j, key))
    && if inum == 0 then k == |es| else k < |es| && Live(es, k, key) && inum == es[k].inum
  }

  /** dirlookup: the first entry in use under the name, cut to 14 bytes; inode number 0 for none. */
  method Dirlookup(fs: Fs, dp: nat, name: seq<Byte>) returns (inum: nat, off: nat, ghost k: nat)
    requires fs.Valid() && dp < fs.g.ninodes && IsDir(fs.Now(), dp)
    modifies fs`blocks, fs`inodes, fs`owner, fs`logged
    ensures unchanged(fs)
    ensures LookedUp(EntriesOf(fs.Now(), dp), Key(name), inum, k) && off == DIRENT * k
  {
    ghost var es := EntriesOf(fs.Now(), dp);
    hide Key, Live, LookedUp, Good, NonePending, NoHoles, IsDir, EntriesOf;
    off, k := 0, 0;
    while off < fs.inodes[dp].size
      invariant unchanged(fs`blocks) && unchanged(fs`inodes) && unchanged(fs`owner) && unchanged(fs`logged)
      invariant dp < |fs.inodes| && off == DIRENT * k && NoneBefore(es, Key(name), k)
    {
      inum := Matches(fs, dp, off, k, name);
      NextEntry(es, Key(name), k, inum);
      if inum != 0 { return; }
      off, k := off + DIRENT, k + 1;
    }
    inum := 0;
    NextEntry(es, Key(name), k, inum);
  }

  /** No entry before the k-th is in use under the name. */
  ghost predicate NoneBefore(es: seq<Dirent>, key: seq<Byte>, k: nat) {
    k <= |es| && forall j :: 0 <= j < k ==> !Live(es, j, key)
  }

  lemma NextEntry(es: seq<Dirent>, key: seq<Byte>, k: nat, inum: nat)
    requires NoneBefore(es, key, k) && (k < |es| ==> inum == if Live(es, k, key) then es[k].inum else 0)
    ensures (k == |es| && inum == 0) || (k < |es| && inum != 0) ==> LookedUp(es, key, inum, k)
    ensures k < |es| && inum == 0 ==> NoneBefore(es, key, k + 1)
  {
    if k < |es| { assert Live(es, k, key) ==> es[k].inum != 0; }
  }

  /** One turn of the loop of dirlookup. */
  method Matches(fs: Fs, dp: nat, off: nat, ghost k: nat, name: seq<Byte>) returns (inum: nat)
    requires fs.Valid() && dp < fs.g.ninodes && IsDir(fs.Now(), dp) && off == DIRENT * k && off < fs.inodes[dp].size
    modifies fs`blocks, fs`inodes, fs`owner, fs`logged
    ensures unchanged(fs) && k < |EntriesOf(fs.Now(), dp)|
    ensures inum == if Live(EntriesOf(fs.Now(), dp), k, Key(name)) then EntriesOf(fs.Now(), dp)[k].inum else 0
  {
    var de := ReadEntry(fs, dp, off, k);
    hide Key, Owned, NonePending, NoHoles, IsDir, EntriesOf;
    if de.inum == 0 { return 0; }
    var cmp := Namecmp(name, de.name);
    inum := if cmp == 0 then de.inum else 0;
  }

  /** dirlookup is lookup in the map. */
  lemma LookupRefinesMap(es: seq<Dirent>, key: seq<Byte>, inum: nat, k: nat)
    requires Unique(es) && LookedUp(es, key, inum, k)
    ensures inum != 0 <==> key in Names(es)
    ensures inum != 0 ==> Names(es)[key] == inum
  {
    NamesIn(es, key);
    if inum != 0 { NamesAt(es, k, key); }
  }

  /** How dirlink ends: done; -1 because the name is there already; the panic for a directory that can
      grow no further; the panic of balloc. */
  datatype LinkResult = Linked | Exists | NoRoom | NoBlocks

  /** k is the first place that is not in use. */
  ghost predicate FirstFree(es: seq<Dirent>, k: nat) {
    k <= |es| && (k < |es| ==> es[k].inum == 0) && forall j :: 0 <= j < k ==> es[j].inum != 0
  }

  /** From m to n, the entry for the name has been put in place k of directory dp; all else is as it was. */
  ghost predicate LinkDone(g: Geometry, dp: nat, m: Image, n: Image, k: nat, name: seq<Byte>, inum: nat)
    requires IsDir(m, dp) && |m.inodes| == g.ninodes
  {
    && OnlyOthersSame(g, dp, m, n) && IsDir(n, dp) && n.inodes[dp].nlink == m.inodes[dp].nlink
    && FirstFree(EntriesOf(m, dp), k)
    && EntriesOf(n, dp) == Put(EntriesOf(m, dp), k, Dirent(inum % USHORT, Padded(name)))
  }

  /** dirlink: a new entry in the first free place, or behind the last, under a name that is not there. */
  method Dirlink(fs: Fs, dp: nat, name: seq<Byte>, inum: nat) returns (r: LinkResult, ghost k: nat)
    requires fs.Valid() && dp < fs.g.ninodes && IsDir(fs.Now(), dp)
    modifies fs
    ensures r.Exists? <==>
      exists j :: 0 <= j < |old(EntriesOf(fs.Now(), dp))| && Live(old(EntriesOf(fs.Now(), dp)), j, Key(name))
    ensures r.Exists? ==> unchanged(fs)
    ensures r.NoBlocks? ==> Full(fs.g, fs.blocks)
    ensures r.NoRoom? ==>
      old(fs.inodes[dp]).size == MAXFILE * BSIZE
        && FirstFree(old(EntriesOf(fs.Now(), dp)), |old(EntriesOf(fs.Now(), dp))|)
    ensures r.Linked? ==> fs.Valid() && LinkDone(fs.g, dp, old(fs.Now()), fs.Now(), k, name, inum)
  {
    ghost var m := fs.Now();
    ghost var es := EntriesOf(m, dp);
    hide Key, Owned, NonePending, Unique, Live, LookedUp, Padded, Entries, Content, FirstFree;
    k := 0;
    var there, _, j := Dirlookup(fs, dp, name);
    WasThere(es, Key(name), there, j);
    if there != 0 { return Exists, k; }
    var off;
    off, k := FindFree(fs, dp);
    var d := Dirent(inum % USHORT, Padded(name));
    EntriesAfterWrite(Content(fs.blocks, fs.inodes[dp]), k, d);
    var w := fs.Writei(dp, off, Encode(d));
    match w {
      case Refused => r := NoRoom;
      case OutOfBlocks => r := NoBlocks;
      case Count(_) =>
        r := Linked;
        StillDir(m, fs.Now(), dp, k, d);
    }
  }

  lemma WasThere(es: seq<Dirent>, key: seq<Byte>, inum: nat, k: nat)
    requires LookedUp(es, key, inum, k)
    ensures inum != 0 <==> exists j :: 0 <= j < |es| && Live(es, j, key)
  {
    if inum != 0 { assert es[k].inum != 0; }
  }

  lemma StillDir(m: Image, n: Image, dp: nat, k: nat, d: Dirent)
    requires IsDir(m, dp) && dp < |n.inodes| && NoHoles(n.blocks, n.inodes[dp])
    requires n.inodes[dp].kind == m.inodes[dp].kind
    requires IsDirent(d) && k <= |EntriesOf(m, dp)|
    requires DIRENT * k <= m.inodes[dp].size
    requires Content(n.blocks, n.inodes[dp]) == Splice(Content(m.blocks, m.inodes[dp]), DIRENT * k, Encode(d))
    ensures IsDir(n, dp) && EntriesOf(n, dp) == Put(EntriesOf(m, dp), k, d)
  {
    EntriesAfterWrite(Content(m.blocks, m.inodes[dp]), k, d);
  }

  /** An entry that is not in use. */
  function NoEntry(): (d: Dirent)
    ensures IsDirent(d) && d.inum == 0
  {
    Dirent(0, Zeros(DIRSIZ))
  }

  /** The part of sys_unlink that clears the k-th entry; there is always room for it. */
  method ClearEntry(fs: Fs, dp: nat, off: nat, ghost k: nat) returns (ok: bool)
    requires fs.Valid() && dp < fs.g.ninodes && IsDir(fs.Now(), dp) && off == DIRENT * k
    requires k < |EntriesOf(fs.Now(), dp)|
    modifies fs
    ensures !ok ==> Full(fs.g, fs.blocks)
    ensures ok ==>
      && fs.Valid() && OnlyOthersSame(fs.g, dp, old(fs.Now()), fs.Now()) && IsDir(fs.Now(), dp)
      && fs.inodes[dp].nlink == old(fs.inodes[dp]).nlink
      && EntriesOf(fs.Now(), dp) == Put(old(EntriesOf(fs.Now(), dp)), k, NoEntry())
  {
    ghost var m := fs.Now();
    hide Owned, NonePending, Entries, Content;
    assert DIRENT * k + DIRENT <= fs.inodes[dp].size;
    EntriesAfterWrite(Content(fs.blocks, fs.inodes[dp]), k, NoEntry());
    var w := fs.Writei(dp, off, Encode(NoEntry()));
    ok := w.Count?;
    if ok { StillDir(m, fs.Now(), dp, k, NoEntry()); }
  }

  /** The second loop of dirlink: the offset of the first free place. */
  method FindFree(fs: Fs, dp: nat) returns (off: nat, ghost k: nat)
    requires fs.Valid() && dp < fs.g.ninodes && IsDir(fs.Now(), dp)
    modifies fs`blocks, fs`inodes, fs`owner, fs`logged
    ensures unchanged(fs)
    ensures off == DIRENT * k && off <= fs.inodes[dp].size && FirstFree(EntriesOf(fs.Now(), dp), k)
  {
    ghost var es := EntriesOf(fs.Now(), dp);
    hide Good, NonePending, NoHoles, IsDir, EntriesOf, AllUsed, FirstFree;
    UsedStep(es, 0);
    off, k := 0, 0;
    while off < fs.inodes[dp].size
      invariant unchanged(fs`blocks) && unchanged(fs`inodes) && unchanged(fs`owner) && unchanged(fs`logged)
      invariant dp < |fs.inodes| && off == DIRENT * k && AllUsed(es, k)
    {
      var de := ReadEntry(fs, dp, off, k);
      UsedStep(es, k);
      if de.inum == 0 { break; }
      off, k := off + DIRENT, k + 1;
    }
    UsedStep(es, k);
  }

  ghost predicate AllUsed(es: seq<Dirent>, k: nat) {
    k <= |es| && forall j :: 0 <= j < k ==> es[j].inum != 0
  }

  lemma UsedStep(es: seq<Dirent>, k: nat)
    ensures AllUsed(es, 0)
    ensures AllUsed(es, k) ==> k <= |es|
    ensures AllUsed(es, k) && k < |es| && es[k].inum != 0 ==> AllUsed(es, k + 1)
    ensures AllUsed(es, k) && (k == |es| || es[k].inum == 0) ==> FirstFree(es, k)
  {}

  /** isdirempty: nothing but the first two entries is in use. */
  method IsDirEmpty(fs: Fs, dp: nat) returns (empty: bool)
    requires fs.Valid() && dp < fs.g.ninodes && IsDir(fs.Now(), dp)
    modifies fs`blocks, fs`inodes, fs`owner, fs`logged
    ensures unchanged(fs)
    ensures empty <==> FreeUpTo(EntriesOf(fs.Now(), dp), |EntriesOf(fs.Now(), dp)|)
    ensures Unique(EntriesOf(fs.Now(), dp)) && DotsFirst(EntriesOf(fs.Now(), dp)) ==>
      (empty <==> forall key :: key in Names(EntriesOf(fs.Now(), dp)) ==> key == DOT || key == DOTDOT)
  {
    ghost var es := EntriesOf(fs.Now(), dp);
    if Unique(es) && DotsFirst(es) { EmptyMeans(es); }
    hide Good, NonePending, NoHoles, IsDir, EntriesOf, FreeUpTo, Unique, DotsFirst, Names;
    FreeStep(es, 2);
    var off := 2 * DIRENT;
    ghost var k := 2;
    while off < fs.inodes[dp].size
      invariant unchanged(fs`blocks) && unchanged(fs`inodes) && unchanged(fs`owner) && unchanged(fs`logged)
      invariant dp < |fs.inodes| && off == DIRENT * k && k >= 2 && FreeUpTo(es, k)
    {
      var de := ReadEntry(fs, dp, off, k);
      FreeStep(es, k);
      if de.inum != 0 {
        return false;
      }
      off, k := off + DIRENT, k + 1;
    }
    FreeStep(es, k);
    return true;
  }

  lemma FreeStep(es: seq<Dirent>, k: nat)
    ensures FreeUpTo(es, 2)
    ensures FreeUpTo(es, k) && k < |es| && es[k].inum == 0 ==> FreeUpTo(es, k + 1)
    ensures 2 <= k < |es| && es[k].inum != 0 ==> !FreeUpTo(es, |es|)
    ensures FreeUpTo(es, k) && k >= |es| ==> FreeUpTo(es, |es|)
  {}


  /** What a successful dirlink does to the map: the name is there now, under its first 14 bytes. It names
      the inode asked for exactly if the number is not 0 and fits 16 bits. */
  lemma LinkRefinesMap(es: seq<Dirent>, k: nat, name: seq<Byte>, inum: nat)
    requires Unique(es) && k <= |es| && (k < |es| ==> es[k].inum == 0)
    requires forall j :: 0 <= j < |es| ==> !Live(es, j, Key(name))
    ensures var w := Names(Put(es, k, Dirent(inum % USHORT, Padded(name))));
      && (inum % USHORT != 0 ==>
          Unique(Put(es, k, Dirent(inum % USHORT, Padded(name)))) && w == Names(es)[Key(name) := inum % USHORT])
      && (w == Names(es)[Key(name) := inum] <==> 0 < inum < USHORT)
  {
    KeyOfPadded(name);
    NamesIn(es, Key(name));
    hide Key, Padded, Names, Unique;
    var d := Dirent(inum % USHORT, Padded(name));
    var w := Names(Put(es, k, d));
    if inum % USHORT != 0 {
      NamesAfterLink(es, k, d);
      assert w[Key(name)] == inum % USHORT;
    } else {
      StillAbsent(es, k, d, Key(name));
      NamesIn(Put(es, k, d), Key(name));
    }
    assert Names(es)[Key(name) := inum][Key(name)] == inum;
  }

  lemma StillAbsent(es: seq<Dirent>, k: nat, d: Dirent, key: seq<Byte>)
    requires k <= |es| && d.inum == 0 && forall j :: 0 <= j < |es| ==> !Live(es, j, key)
    ensures forall j :: 0 <= j < |Put(es, k, d)| ==> !Live(Put(es, k, d), j, key)
  {
    forall j | 0 <= j < |Put(es, k, d)| ensures !Live(Put(es, k, d), j, key) {
      assert j < |es| && j != k ==> !Live(es, j, key);
    }
  }
}
