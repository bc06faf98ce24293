/** What a crash leaves of the files: the operations of the file layer, committed through the log and
    recovered, seen from the bytes of the disk alone. */
module CrashSafety {
  import opened Sets
  import opened Blocks
  import opened Layout
  import opened Inodes
  import opened FileData
  import opened WriteBudget
  import opened FileSystem
  import opened Recovery

  /** The log lies before the inode blocks. */
  predicate LogFits(g: Geometry, start: nat) {
    g.Valid() && start + LOGSIZE <= g.inodestart
  }

  /** lh.block names exactly the logged blocks, each once. */
  ghost predicate Lists(bs: seq<Uint>, logged: set<nat>) {
    && (forall t, u :: 0 <= t < u < |bs| ==> bs[t] != bs[u])
    && (forall t :: 0 <= t < |bs| ==> bs[t] in logged)
    && (forall b :: b in logged ==> b in bs)
  }

  lemma {:induction false} ListSize(bs: seq<Uint>, logged: set<nat>)
    requires Lists(bs, logged)
    ensures |bs| == |logged|
  {
    if |bs| == 0 {
      assert logged == {};
    } else {
      var n := |bs| - 1;
      forall b | b in logged - {bs[n] as nat} ensures b in bs[..n] {
        var t :| 0 <= t < |bs| && bs[t] == b;
        assert bs[..n][t] == b;
      }
      ListSize(bs[..n], logged - {bs[n] as nat});
    }
  }

  /** What one commit makes permanent: everything that has changed is logged, and it fits the log. */
  ghost predicate Change(g: Geometry, m: Image, n: Image, logged: set<nat>) {
    Settled(g, m) && Settled(g, n) && Recorded(g, g.inodestart, m.blocks, {}, n.blocks, logged) && |logged| <= LOGCAP
  }

  lemma TransactionIsChange(g: Geometry, m: Image, n: Image, logged: set<nat>)
    requires Transaction(g, m, n, logged)
    ensures Change(g, m, n, logged)
  {}

  /** The operations of a group commit make one change. */
  lemma ChangesTogether(g: Geometry, l: Image, m: Image, n: Image, a: set<nat>, b: set<nat>)
    requires Change(g, l, m, a) && Change(g, m, n, b) && |a + b| <= LOGCAP
    ensures Change(g, l, n, a + b)
  {}

  /** From the inode blocks on, the disk is that of the image. */
  ghost predicate OnDisk(g: Geometry, d: Disk, m: Image) {
    |d| == |m.blocks| == g.size && forall b :: g.inodestart <= b < g.size ==> d[b] == m.blocks[b]
  }

  /** The disk and what the cache shows when commit starts on the change from m to n. */
  ghost predicate Committing(g: Geometry, start: nat, d: Disk, view: Disk, m: Image, n: Image, logged: set<nat>,
                             bs: seq<Uint>) {
    && LogFits(g, start) && Change(g, m, n, logged) && Lists(bs, logged)
    && OnDisk(g, d, m) && OnDisk(g, view, n) && (forall b :: 0 <= b < g.inodestart && b < g.size ==> view[b] == d[b])
    && HeaderN(d[start]) == 0
  }

  lemma CommittingIsReady(g: Geometry, start: nat, d: Disk, view: Disk, m: Image, n: Image, logged: set<nat>,
                          bs: seq<Uint>)
    requires Committing(g, start, d, view, m, n, logged, bs)
    ensures ReadyToCommit(d, start, bs, view)
  {
    ListSize(bs, logged);
    hide Settled;
    forall t | 0 <= t < |bs| ensures bs[t] < |d| && !InLog(start, bs[t]) { assert bs[t] in logged; }
  }

  /** The disk after k writes of the commit, recoveries that crashed after ks[0], ks[1], ... writes, and one
      that was completed. */
  function Survivor(d: Disk, start: nat, bs: seq<Uint>, view: Disk, k: nat, ks: seq<nat>): (e: Disk)
    requires start + LOGSIZE <= |d| == |view| && |bs| <= LOGSIZE && forall t :: 0 <= t < |bs| ==> bs[t] < |view|
    requires k <= |CommitWrites(start, bs, view)|
  {
    var e := AfterCrashes(CommitCrash(d, start, bs, view, k), start, ks);
    if HeaderN(e[start]) <= LOGCAP then Recover(e, start) else e
  }

  /** The image before the commit, or the one after it exactly if the header write was made, is on the
      disk that survives, and its log is empty. */
  lemma ImageSurvives(g: Geometry, start: nat, d: Disk, view: Disk, m: Image, n: Image, logged: set<nat>, bs: seq<Uint>,
                      k: nat, ks: seq<nat>)
    requires Committing(g, start, d, view, m, n, logged, bs)
    requires |bs| <= LOGSIZE && (forall t :: 0 <= t < |bs| ==> bs[t] < |view|) && k <= |CommitWrites(start, bs, view)|
    ensures var e := Survivor(d, start, bs, view, k, ks);
      |e| == g.size && HeaderN(e[start]) == 0 && OnDisk(g, e, if k <= |bs| then m else n)
  {
    CommittingIsReady(g, start, d, view, m, n, logged, bs);
    CrashAtomicity(d, start, bs, view, k, ks);
    hide ReadyToCommit, CommitCrash, AfterCrashes, Recover, CommitWrites, Settled;
  }

  /** An image that is on a disk can be read off the disk: its inodes, its free map and its pointers are
      in order, and every file has its contents. */
  lemma ReadOff(g: Geometry, d: Disk, m: Image)
    requires Settled(g, m) && OnDisk(g, d, m)
    ensures InodesOn(g, d) == m.inodes && Settled(g, Image(d, InodesOn(g, d), m.owner))
    ensures forall j :: 0 <= j < g.ninodes && NoHoles(m.blocks, m.inodes[j]) ==>
      NoHoles(d, m.inodes[j]) && Content(d, m.inodes[j]) == Content(m.blocks, m.inodes[j])
  {
    SameInodes(g, m.blocks, d);
    var e := Image(d, m.inodes, m.owner);
    forall j | 0 <= j < g.ninodes ensures SameFile(m, e, j) { SameOnDisk(g, d, m, j); }
    hide InodesOn;
    forall b | 0 <= b < g.size && m.owner[b].Slot? ensures SlotOk(g, d, m.inodes, m.owner, b) {
      assert SlotOk(g, m.blocks, m.inodes, m.owner, b);
      assert SameFile(m, e, m.owner[b].i);
    }
    OwnedOnDisk(g, d, m);
    forall j | 0 <= j < g.ninodes && NoHoles(m.blocks, m.inodes[j])
      ensures NoHoles(d, m.inodes[j]) && Content(d, m.inodes[j]) == Content(m.blocks, m.inodes[j])
    {
      SameFileContent(m, e, j);
    }
  }

  lemma SameOnDisk(g: Geometry, d: Disk, m: Image, j: nat)
    requires Good(g, m) && OnDisk(g, d, m) && j < g.ninodes
    ensures SameFile(m, Image(d, m.inodes, m.owner), j)
  {
    if m.inodes[j].addrs[NDIRECT] != 0 { IndirectOwner(g, m.blocks, m.inodes, m.owner, j); }
    forall s | 0 <= s < NSLOTS && Ref(m.blocks, m.inodes[j], s) != 0
      ensures d[Ref(m.blocks, m.inodes[j], s)] == m.blocks[Ref(m.blocks, m.inodes[j], s)]
    {
      assert m.owner[Ref(m.blocks, m.inodes[j], s)] == Slot(j, s);
    }
  }

  lemma OwnedOnDisk(g: Geometry, d: Disk, m: Image)
    requires Good(g, m) && OnDisk(g, d, m)
    requires forall j :: 0 <= j < g.ninodes ==> SameFile(m, Image(d, m.inodes, m.owner), j)
    requires forall b :: 0 <= b < g.size && m.owner[b].Slot? ==> SlotOk(g, d, m.inodes, m.owner, b)
    ensures Owned(g, d, m.inodes, m.owner)
  {
    forall b | 0 <= b < g.size ensures InUse(g, d, b) == InUse(g, m.blocks, b) {}
    forall j, s | 0 <= j < g.ninodes && 0 <= s < NSLOTS
      ensures Ref(d, m.inodes[j], s) == Ref(m.blocks, m.inodes[j], s)
    {
      assert SameFile(m, Image(d, m.inodes, m.owner), j);
    }
  }

  /** What a reader of the disk finds in file j. */
  function FileOn(g: Geometry, d: Disk, j: nat): (c: seq<Byte>)
    requires g.Valid() && |d| == g.size && j < g.ninodes && InodesOn(g, d)[j].size <= MAXFILE * BSIZE
  {
    Content(d, InodesOn(g, d)[j])
  }

  /** A WRITE SURVIVES A CRASH WHOLE OR NOT AT ALL. The transaction writes src to file i at off. Wherever its
      commit crashes, and wherever the recoveries after that crash, the disk that the last recovery leaves
      holds a file system in order, file i as it was or with all of src spliced in, the latter exactly if
      the header write was made, and every other file as it was. */
  lemma WriteSurvives(g: Geometry, start: nat, d: Disk, view: Disk, m: Image, n: Image, logged: set<nat>, bs: seq<Uint>,
                      k: nat, ks: seq<nat>, i: nat, off: nat, src: seq<Byte>)
    requires Committing(g, start, d, view, m, n, logged, bs)
    requires |bs| <= LOGSIZE && (forall t :: 0 <= t < |bs| ==> bs[t] < |view|) && k <= |CommitWrites(start, bs, view)|
    requires i < g.ninodes && src != [] && Good(g, m) && Spliced(g, i, m, n, off, src)
    ensures var e := Survivor(d, start, bs, view, k, ks); var inodes := InodesOn(g, e);
      && |e| == g.size && HeaderN(e[start]) == 0
      && Settled(g, Image(e, inodes, if k <= |bs| then m.owner else n.owner))
      && off <= m.inodes[i].size <= MAXFILE * BSIZE && inodes[i].size <= MAXFILE * BSIZE
      && FileOn(g, e, i) == (if k <= |bs| then Content(m.blocks, m.inodes[i])
          else Splice(Content(m.blocks, m.inodes[i]), off, src))
      && forall j :: 0 <= j < g.ninodes && j != i && NoHoles(m.blocks, m.inodes[j]) ==>
           inodes[j] == m.inodes[j] && FileOn(g, e, j) == Content(m.blocks, m.inodes[j])
  {
    var e := Survivor(d, start, bs, view, k, ks);
    ImageSurvives(g, start, d, view, m, n, logged, bs, k, ks);
    SplicedSame(g, i, m, n, off, src);
    hide Survivor, Committing, CommitWrites, OnDisk, Settled, InodesOn, Prefix, Content, Spliced, Splice;
    ReadOff(g, e, if k <= |bs| then m else n);
  }

  lemma SplicedSame(g: Geometry, i: nat, m: Image, n: Image, off: nat, src: seq<Byte>)
    requires Good(g, m) && i < g.ninodes && src != [] && Spliced(g, i, m, n, off, src)
    ensures |m.inodes| == |n.inodes| == g.ninodes && NoHoles(m.blocks, m.inodes[i]) && NoHoles(n.blocks, n.inodes[i])
    ensures off <= m.inodes[i].size
    ensures Content(n.blocks, n.inodes[i]) == Splice(Content(m.blocks, m.inodes[i]), off, src)
    ensures forall j :: 0 <= j < g.ninodes && j != i && NoHoles(m.blocks, m.inodes[j]) ==>
      n.inodes[j] == m.inodes[j] && NoHoles(n.blocks, m.inodes[j])
        && Content(n.blocks, m.inodes[j]) == Content(m.blocks, m.inodes[j])
  {
    forall j | 0 <= j < g.ninodes && j != i && NoHoles(m.blocks, m.inodes[j])
      ensures n.inodes[j] == m.inodes[j] && NoHoles(n.blocks, m.inodes[j])
      ensures Content(n.blocks, m.inodes[j]) == Content(m.blocks, m.inodes[j])
    {
      assert SameFile(m, n, j);
      SameFileContent(m, n, j);
    }
  }

  /** A FILEWRITE SURVIVES A CRASH AS A PREFIX OF WHOLE CHUNKS. If the commit of its chunk t crashes, the file
      has the first t chunks of the buffer, or the first t + 1 exactly if the header write was made, and
      every other file is as it was before the call. */
  lemma FilewriteSurvives(g: Geometry, start: nat, i: nat, off: nat, addr: seq<Byte>, run: Run, m: Image, n: Image,
                          done: nat,
                          t: nat, d: Disk, view: Disk, bs: seq<Uint>, k: nat, ks: seq<nat>)
    requires Good(g, m) && i < g.ninodes && IsRun(g, i, off, addr, run, m, n, done) && t < |run.ops|
    requires Committing(g, start, d, view, run.images[t], run.images[t + 1], run.ops[t], bs)
    requires |bs| <= LOGSIZE && (forall u :: 0 <= u < |bs| ==> bs[u] < |view|) && k <= |CommitWrites(start, bs, view)|
    ensures var e := Survivor(d, start, bs, view, k, ks); var inodes := InodesOn(g, e);
      && |e| == g.size && HeaderN(e[start]) == 0 && off <= m.inodes[i].size <= MAXFILE * BSIZE
          && inodes[i].size <= MAXFILE * BSIZE
      && FileOn(g, e, i) == Splice(Content(m.blocks, m.inodes[i]), off,
          addr[..ChunksEnd(if k <= |bs| then t else t + 1, done)])
      && forall j :: 0 <= j < g.ninodes && j != i && NoHoles(m.blocks, m.inodes[j]) ==>
           inodes[j] == m.inodes[j] && FileOn(g, e, j) == Content(m.blocks, m.inodes[j])
  {
    var u := if k <= |bs| then t else t + 1;
    var e := Survivor(d, start, bs, view, k, ks);
    ImageSurvives(g, start, d, view, run.images[t], run.images[t + 1], run.ops[t], bs, k, ks);
    RunOffset(g, i, off, addr, run, m, n, done, t);
    RunSpliced(g, i, off, addr, run, m, n, done, u);
    RunSettled(g, run, t, u);
    hide Survivor, Committing, CommitWrites, OnDisk, Settled, InodesOn, Prefix, Content, Spliced, Splice, IsRun;
    ReadOff(g, e, run.images[u]);
  }

  lemma RunSettled(g: Geometry, run: Run, t: nat, u: nat)
    requires |run.images| == |run.ops| + 1 && Transactions(g, run) && t < |run.ops| && t <= u <= t + 1
    ensures Settled(g, run.images[u])
  {
    assert RunOp(g, run, t);
  }

  /** A run of one chunk at least writes within the file or at its end. */
  lemma RunOffset(g: Geometry, i: nat, off: nat, addr: seq<Byte>, run: Run, m: Image, n: Image, done: nat, t: nat)
    requires Good(g, m) && i < g.ninodes && IsRun(g, i, off, addr, run, m, n, done) && t < |run.ops|
    ensures |m.inodes| == g.ninodes && off <= m.inodes[i].size <= MAXFILE * BSIZE
  {
    assert Spliced(g, i, m, run.images[1], off, addr[..ChunksEnd(1, done)]);
  }

  lemma RunSpliced(g: Geometry, i: nat, off: nat, addr: seq<Byte>, run: Run, m: Image, n: Image, done: nat, u: nat)
    requires Good(g, m) && i < g.ninodes && IsRun(g, i, off, addr, run, m, n, done) && u < |run.images|
    requires |m.inodes| == g.ninodes && off <= m.inodes[i].size <= MAXFILE * BSIZE
    ensures var w := run.images[u]; var src := addr[..ChunksEnd(u, done)];
      && |w.inodes| == g.ninodes && NoHoles(w.blocks, w.inodes[i])
      && Content(w.blocks, w.inodes[i]) == Splice(Content(m.blocks, m.inodes[i]), off, src)
      && forall j :: 0 <= j < g.ninodes && j != i && NoHoles(m.blocks, m.inodes[j]) ==>
           w.inodes[j] == m.inodes[j] && NoHoles(w.blocks, m.inodes[j])
             && Content(w.blocks, m.inodes[j]) == Content(m.blocks, m.inodes[j])
  {
    var w, src := run.images[u], addr[..ChunksEnd(u, done)];
    assert Spliced(g, i, m, w, off, src);
    if src == [] {
      var c := Content(m.blocks, m.inodes[i]);
      assert Splice(c, off, []) == c;
    } else {
      SplicedSame(g, i, m, w, off, src);
    }
  }
}
