/** The file layer (fs.c: balloc, bfree, bmap, itrunc, readi, writei, iput; file.c: filewrite) as
    operations that change blocks and inodes in place. */
module FileSystem {
  import opened Blocks
  import opened Layout
  import opened Inodes
  import opened FileData
  import opened WriteBudget

  /** What one transaction may log: at most MAXOPBLOCKS = 10 blocks; seven when one bitmap block is all. */
  ghost predicate FitsLog(g: Geometry, logged: set<nat>) {
    |logged| <= 10 && (g.size <= BPB ==> |logged| <= 7)
  }

  /** The file system is in order: ownership, and the inode blocks hold the inodes. */
  ghost predicate Settled(g: Geometry, m: Image) {
    Good(g, m) && NonePending(m.owner) && InodesOn(g, m.blocks) == m.inodes
  }

  /** One transaction, from m to n: in order before and after, and all that changes is logged and fits. */
  ghost predicate Transaction(g: Geometry, m: Image, n: Image, logged: set<nat>) {
    Settled(g, m) && Settled(g, n) && Recorded(g, g.inodestart, m.blocks, {}, n.blocks, logged) && FitsLog(g, logged)
  }

  /** struct file of kind FD_INODE. */
  class File {
    const readable: bool
    const writable: bool
    const ip: nat
    var off: Uint

    /** As sys_open leaves it. */
    constructor (ip: nat, readable: bool, writable: bool)
      ensures this.ip == ip && this.readable == readable && this.writable == writable && off == 0
    {
      this.ip, this.readable, this.writable, off := ip, readable, writable, 0;
    }
  }

  /** From m to n, src has been written to inode i at off and nothing else has happened to any file. */
  ghost predicate Spliced(g: Geometry, i: nat, m: Image, n: Image, off: nat, src: seq<Byte>)
    requires Good(g, m) && i < g.ninodes
  {
    && Good(g, n) && OnlyOthersSame(g, i, m, n)
    && n.inodes[i].kind == m.inodes[i].kind && n.inodes[i].nlink == m.inodes[i].nlink
    && NoHoles(m.blocks, m.inodes[i]) && NoHoles(n.blocks, n.inodes[i])
    && if src == [] then n == m
       else
         && off <= m.inodes[i].size
         && Content(n.blocks, n.inodes[i]) == Splice(Content(m.blocks, m.inodes[i]), off, src)
  }

  /** The images before, between and after the transactions of one filewrite, and what each logged. */
  datatype Run = Run(images: seq<Image>, ops: seq<set<nat>>)

  /** How many chunks `done` bytes take. */
  function Chunks(done: nat): (c: nat) {
    (done + FILEWRITE_MAX - 1) / FILEWRITE_MAX
  }

  /** The bytes that the first k chunks of `done` bytes hold. */
  function ChunksEnd(k: nat, done: nat): (e: nat)
    ensures e <= done
  {
    if k * FILEWRITE_MAX <= done then k * FILEWRITE_MAX else done
  }

  /** Each step of the run is a transaction. */
  ghost predicate Transactions(g: Geometry, run: Run)
    requires |run.images| == |run.ops| + 1
  {
    forall k :: 0 <= k < |run.ops| ==> RunOp(g, run, k)
  }

  ghost predicate RunOp(g: Geometry, run: Run, k: nat)
    requires k < |run.ops| && |run.images| == |run.ops| + 1
  {
    Transaction(g, run.images[k], run.images[k + 1], run.ops[k])
  }

  /** In the k-th image the first k chunks are in the file. */
  ghost predicate Prefixes(g: Geometry, i: nat, off: nat, addr: seq<Byte>, images: seq<Image>, m: Image, done: nat)
    requires Good(g, m) && i < g.ninodes && done <= |addr|
  {
    forall k :: 0 <= k < |images| ==> Spliced(g, i, m, images[k], off, addr[..ChunksEnd(k, done)])
  }

  /** As many transactions as there are chunks; after k of them the first k chunks are in the file. */
  ghost predicate IsRun(g: Geometry, i: nat, off: nat, addr: seq<Byte>, run: Run, m: Image, n: Image, done: nat)
    requires Good(g, m) && i < g.ninodes
  {
    && |run.ops| == Chunks(done) && |run.images| == |run.ops| + 1 && done <= |addr|
    && run.images[0] == m && run.images[|run.ops|] == n
    && Transactions(g, run) && Prefixes(g, i, off, addr, run.images, m, done)
  }

  lemma RunNothing(g: Geometry, i: nat, off: nat, addr: seq<Byte>, m: Image)
    requires Good(g, m) && i < g.ninodes && Spliced(g, i, m, m, off, [])
    ensures IsRun(g, i, off, addr, Run([m], []), m, m, 0)
  {
    assert addr[..ChunksEnd(0, 0)] == [];
  }

  lemma RunStep(g: Geometry, i: nat, off: nat, addr: seq<Byte>, run: Run, m: Image, n: Image, w: Image, done: nat,
                len: nat, logged: set<nat>)
    requires Good(g, m) && i < g.ninodes && IsRun(g, i, off, addr, run, m, n, done)
    requires done % FILEWRITE_MAX == 0 && 0 < len <= FILEWRITE_MAX && done + len <= |addr|
    requires Transaction(g, n, w, logged) && Spliced(g, i, m, w, off, addr[..done + len])
    ensures IsRun(g, i, off, addr, Run(run.images + [w], run.ops + [logged]), m, w, done + len)
  {
    hide Transaction, Transactions, Prefixes, Spliced, IsRun, Chunks, ChunksEnd, Good;
    RunMeans(g, i, off, addr, run, m, n, done);
    ChunkCount(|run.ops|, done, len);
    MoreTransactions(g, run, w, logged);
    MorePrefixes(g, i, off, addr, run.images, m, w, |run.ops|, done, done + len);
    RunMade(g, i, off, addr, Run(run.images + [w], run.ops + [logged]), m, w, done + len);
  }

  lemma RunMeans(g: Geometry, i: nat, off: nat, addr: seq<Byte>, run: Run, m: Image, n: Image, done: nat)
    requires Good(g, m) && i < g.ninodes && IsRun(g, i, off, addr, run, m, n, done)
    ensures |run.ops| == Chunks(done) && |run.images| == |run.ops| + 1 && done <= |addr|
    ensures run.images[0] == m && run.images[|run.ops|] == n
    ensures Transactions(g, run) && Prefixes(g, i, off, addr, run.images, m, done)
  {}

  lemma RunMade(g: Geometry, i: nat, off: nat, addr: seq<Byte>, run: Run, m: Image, n: Image, done: nat)
    requires Good(g, m) && i < g.ninodes
    requires |run.ops| == Chunks(done) && |run.images| == |run.ops| + 1 && done <= |addr|
    requires run.images[0] == m && run.images[|run.ops|] == n
    requires Transactions(g, run) && Prefixes(g, i, off, addr, run.images, m, done)
    ensures IsRun(g, i, off, addr, run, m, n, done)
  {}

  lemma MoreTransactions(g: Geometry, run: Run, w: Image, logged: set<nat>)
    requires |run.images| == |run.ops| + 1 && Transaction(g, run.images[|run.ops|], w, logged)
    requires Transactions(g, run)
    ensures Transactions(g, Run(run.images + [w], run.ops + [logged]))
  {
    hide Transaction;
    var next := Run(run.images + [w], run.ops + [logged]);
    forall k | 0 <= k < |next.ops| ensures RunOp(g, next, k) {
      if k < |run.ops| { assert RunOp(g, run, k) && next.images[k + 1] == run.images[k + 1]; }
    }
  }

  lemma MorePrefixes(g: Geometry, i: nat, off: nat, addr: seq<Byte>, images: seq<Image>, m: Image, w: Image, c: nat,
                     done: nat, end: nat)
    requires Good(g, m) && i < g.ninodes && done <= end <= |addr| && done % FILEWRITE_MAX == 0
    requires c == Chunks(done) && |images| == c + 1 && ChunksEnd(c + 1, end) == end
    requires Prefixes(g, i, off, addr, images, m, done) && Spliced(g, i, m, w, off, addr[..end])
    ensures Prefixes(g, i, off, addr, images + [w], m, end)
  {
    hide Spliced, Chunks, ChunksEnd, Good;
    var next := images + [w];
    forall k | 0 <= k < |next| ensures Spliced(g, i, m, next[k], off, addr[..ChunksEnd(k, end)]) {
      if k <= c {
        ChunksBefore(k, c, done, end);
        assert Spliced(g, i, m, images[k], off, addr[..ChunksEnd(k, done)]);
      }
    }
  }

  lemma ChunkCount(c: nat, done: nat, len: nat)
    requires done % FILEWRITE_MAX == 0 && 0 < len <= FILEWRITE_MAX && c == Chunks(done)
    ensures c * FILEWRITE_MAX == done && Chunks(done + len) == c + 1
    ensures ChunksEnd(c + 1, done + len) == done + len
  {}

  lemma ChunksBefore(k: nat, c: nat, done: nat, end: nat)
    requires done <= end && done % FILEWRITE_MAX == 0 && c == Chunks(done) && k <= c
    ensures ChunksEnd(k, end) == ChunksEnd(k, done)
  {}

  /** Two adjacent splices are one. */
  lemma SpliceSplice(c: seq<Byte>, off: nat, a: seq<Byte>, b: seq<Byte>)
    requires off <= |c|
    ensures off + |a| <= |Splice(c, off, a)|
    ensures Splice(Splice(c, off, a), off + |a|, b) == Splice(c, off, a + b)
  {
    var d := Splice(c, off, a);
    var x, y := Splice(d, off + |a|, b), Splice(c, off, a + b);
    if |c| > 0 || |a| > 0 { SpliceAt(c, off, a, 0); }
    assert |x| == |y|;
    forall k | 0 <= k < |x| ensures x[k] == y[k] {
      SpliceAt(d, off + |a|, b, k);
      SpliceAt(c, off, a + b, k);
      if k < |d| { SpliceAt(c, off, a, k); }
    }
  }

  /** Reading where one has just written gives back what was written, and reading before or after it
      what was there. */
  lemma ReadBack(c: seq<Byte>, off: nat, src: seq<Byte>)
    requires off <= |c|
    ensures var d := Splice(c, off, src);
      && off + |src| <= |d| && d[off..off + |src|] == src && d[..off] == c[..off]
      && (off + |src| <= |c| ==> |d| == |c| && d[off + |src|..] == c[off + |src|..])
  {
    var d := Splice(c, off, src);
    if |d| > 0 { SpliceAt(c, off, src, 0); }
    forall k | 0 <= k < |src| ensures d[off + k] == src[k] { SpliceAt(c, off, src, off + k); }
    if off + |src| <= |c| {
      forall k | off + |src| <= k < |c| ensures d[k] == c[k] { SpliceAt(c, off, src, k); }
    }
  }

  /** The file's size after a splice. */
  lemma SplicedSize(g: Geometry, i: nat, m: Image, n: Image, off: nat, src: seq<Byte>)
    requires Good(g, m) && i < g.ninodes && Spliced(g, i, m, n, off, src)
    ensures src != [] ==> n.inodes[i].size == Max(m.inodes[i].size, off + |src|)
    ensures src == [] ==> n == m
    ensures |n.inodes| == g.ninodes && NoHoles(n.blocks, n.inodes[i])
  {
    if src != [] { SpliceAt(Content(m.blocks, m.inodes[i]), off, src, 0); }
  }

  lemma SplicedNothing(g: Geometry, i: nat, m: Image, off: nat)
    requires Good(g, m) && i < g.ninodes && NoHoles(m.blocks, m.inodes[i])
    ensures |m.inodes| == g.ninodes && m.inodes[i].size <= MAXFILE * BSIZE && Spliced(g, i, m, m, off, [])
  {}

  lemma SplicedStep(g: Geometry, i: nat, m: Image, n: Image, w: Image, off: nat, a: seq<Byte>, b: seq<Byte>)
    requires Good(g, m) && i < g.ninodes && Spliced(g, i, m, n, off, a) && Good(g, w)
    requires OnlyOthersSame(g, i, n, w) && NoHoles(w.blocks, w.inodes[i]) && b != []
    requires w.inodes[i].kind == n.inodes[i].kind && w.inodes[i].nlink == n.inodes[i].nlink
    requires off + |a| <= n.inodes[i].size
    requires Content(w.blocks, w.inodes[i]) == Splice(Content(n.blocks, n.inodes[i]), off + |a|, b)
    ensures Spliced(g, i, m, w, off, a + b)
  {
    forall j | 0 <= j < g.ninodes && j != i ensures SameFile(m, w, j) {
      assert SameFile(m, n, j) && SameFile(n, w, j);
    }
    if a == [] {
      assert a + b == b;
    } else {
      SpliceSplice(Content(m.blocks, m.inodes[i]), off, a, b);
    }
  }

  /** tot + m with m = min(n - tot, BSIZE - off%BSIZE): up to the end of the block or of the request. */
  function NextPosition(off: nat, tot: nat, n: nat): (next: nat)
    requires tot < n
    ensures tot < next <= n && next - tot <= BSIZE - (off + tot) % BSIZE
    ensures next == n || (off + next) % BSIZE == 0
  {
    if n - tot < BSIZE - (off + tot) % BSIZE then n else tot + BSIZE - (off + tot) % BSIZE
  }

  lemma ChunkMapped(g: Geometry, i: nat, n: Image, pos: nat, chunk: seq<Byte>, n1: Image, r: nat, w: Image)
    requires Good(g, n) && i < g.ninodes && pos / BSIZE < MAXFILE && |chunk| <= BSIZE - pos % BSIZE
    requires ChunkWritten(g, i, pos, chunk, n, n1, r, w)
    ensures i < |n.inodes| && i < |n1.inodes|
    ensures n.inodes[i].addrs[NDIRECT] != 0 ==> n1.inodes[i].addrs[NDIRECT] == n.inodes[i].addrs[NDIRECT]
    ensures r < g.size && w.inodes == n1.inodes && n1.inodes[i].addrs[NDIRECT] < g.size
  {
    SameIndirect(g, i, pos / BSIZE, n, n1, r);
  }

  lemma ChunkWithin(g: Geometry, i: nat, n: Image, n1: Image, w: Image, logged0: set<nat>, logged: set<nat>, off: nat,
                    tot: nat, a: nat, next: nat, r: nat)
    requires i < |n.inodes| && i < |n1.inodes| && w.inodes == n1.inodes && r < g.size
    requires tot < next && off + next <= MAXFILE * BSIZE && off <= a * BSIZE && a <= MAXFILE
    requires next - tot <= BSIZE - (off + tot) % BSIZE && (tot == 0 || (off + tot) % BSIZE == 0)
    requires Prefix(n.blocks, n.inodes[i], Max(a, BlocksFor(off + tot)))
    requires n.inodes[i].addrs[NDIRECT] != 0 ==> n1.inodes[i].addrs[NDIRECT] == n.inodes[i].addrs[NDIRECT]
    requires n1.inodes[i].addrs[NDIRECT] < g.size
    requires Within(g, i, n, logged0, logged, off, tot, a)
    ensures Within(g, i, w, logged0, logged + BmapLogs(g, i, (off + tot) / BSIZE, n, n1, r) + {r}, off, next, a)
  {
    WithinStep(g, i, n, n1, w, logged0, logged, off, tot, a, next - tot, r);
  }

  /** One turn of the loop in writei: what is written and what is logged. */
  lemma ChunkTurn(g: Geometry, i: nat, m: Image, n: Image, off: nat, src: seq<Byte>, tot: nat, a: nat, next: nat,
                  n1: Image, r: nat, w: Image, logged0: set<nat>, logged: set<nat>)
    requires Good(g, m) && i < g.ninodes && tot < next <= |src| && off + |src| <= MAXFILE * BSIZE && a <= MAXFILE
    requires off <= a * BSIZE
    requires next - tot <= BSIZE - (off + tot) % BSIZE && (tot == 0 || (off + tot) % BSIZE == 0)
    requires Writing(g, i, m, n, off, src, tot, a) && Within(g, i, n, logged0, logged, off, tot, a)
    requires ChunkWritten(g, i, off + tot, src[tot..next], n, n1, r, w)
    ensures i < |n1.inodes| && Writing(g, i, m, w, off, src, next, a)
    ensures Within(g, i, w, logged0, logged + BmapLogs(g, i, (off + tot) / BSIZE, n, n1, r) + {r}, off, next, a)
  {
    hide Owned, ChunkWritten, Overwritten, Prefix, Within;
    WritingStep(g, i, m, n, off, src, tot, a, next, n1, r, w);
    ChunkMapped(g, i, n, off + tot, src[tot..next], n1, r, w);
    ChunkWithin(g, i, n, n1, w, logged0, logged, off, tot, a, next, r);
  }

  // ----- truncation -----

  /** The order in which itrunc visits the pointers: direct, entries of the indirect block, the
      indirect block itself. */
  function Order(s: nat): (k: nat)
    requires s < NSLOTS
  {
    if s < NDIRECT then s else if s == NDIRECT then MAXFILE else s - 1
  }

  /** The first `done` pointers of inode i have been freed and nothing else. */
  ghost predicate Freed(g: Geometry, i: nat, m: Image, blocks: Disk, done: nat)
    requires Good(g, m)
  {
    && |blocks| == g.size
    && (forall b :: g.nmeta <= b < g.size ==> blocks[b] == m.blocks[b])
    && forall b :: 0 <= b < g.size ==>
         (InUse(g, blocks, b) <==> InUse(g, m.blocks, b) && !IsFreed(i, m.owner[b], done))
  }

  predicate IsFreed(i: nat, o: Owner, done: nat) {
    o.Slot? && o.i == i && o.s < NSLOTS && Order(o.s) < done
  }

  /** The block of the next pointer is still in use, so that freeing it is no panic; freeing it, or
      passing over an empty pointer, makes one more pointer done. */
  lemma FreedStep(g: Geometry, i: nat, m: Image, blocks: Disk, s: nat)
    requires Good(g, m) && i < g.ninodes && s < NSLOTS && Freed(g, i, m, blocks, Order(s))
    ensures Ref(m.blocks, m.inodes[i], s) == 0 ==> Freed(g, i, m, blocks, Order(s) + 1)
    ensures Ref(m.blocks, m.inodes[i], s) != 0 ==>
      && Ref(m.blocks, m.inodes[i], s) < g.size && InUse(g, blocks, Ref(m.blocks, m.inodes[i], s))
      && Freed(g, i, m, SetUse(g, blocks, Ref(m.blocks, m.inodes[i], s), false), Order(s) + 1)
  {
    var r := Ref(m.blocks, m.inodes[i], s);
    forall b | 0 <= b < g.size
      ensures IsFreed(i, m.owner[b], Order(s) + 1) <==> IsFreed(i, m.owner[b], Order(s)) || (r != 0 && b == r)
    {
      if m.owner[b].Slot? { assert SlotOk(g, m.blocks, m.inodes, m.owner, b); }
    }
    if r != 0 {
      forall b | 0 <= b < g.size ensures InUse(g, SetUse(g, blocks, r, false), b) <==> b != r && InUse(g, blocks, b) {
        InUseAfterSet(g, blocks, r, false, b);
      }
    }
  }

  /** The indirect block has not been touched, and holds the pointers behind it. */
  lemma FreedMeans(g: Geometry, i: nat, m: Image, blocks: Disk, done: nat)
    requires Good(g, m) && i < g.ninodes && Freed(g, i, m, blocks, done) && m.inodes[i].addrs[NDIRECT] != 0
    ensures g.Valid() && |m.inodes| == g.ninodes && |blocks| == g.size
    ensures m.inodes[i].addrs[NDIRECT] < g.size && Ref(m.blocks, m.inodes[i], NDIRECT) == m.inodes[i].addrs[NDIRECT]
    ensures forall j :: 0 <= j < NINDIRECT ==>
      Word(blocks[m.inodes[i].addrs[NDIRECT]], j) == Ref(m.blocks, m.inodes[i], NDIRECT + 1 + j)
  {
    IndirectOwner(g, m.blocks, m.inodes, m.owner, i);
  }

  /** The same for entry j of the indirect block, and for the indirect block itself. */
  lemma FreedEntry(g: Geometry, i: nat, m: Image, blocks: Disk, j: nat)
    requires Good(g, m) && i < g.ninodes && j < NINDIRECT && Freed(g, i, m, blocks, NDIRECT + j)
    ensures var r := Ref(m.blocks, m.inodes[i], NDIRECT + 1 + j);
      && (r == 0 ==> Freed(g, i, m, blocks, NDIRECT + (j + 1)))
      && (r != 0 ==>
            && r < g.size && InUse(g, blocks, r)
            && Freed(g, i, m, SetUse(g, blocks, r, false), NDIRECT + (j + 1)))
  {
    FreedStep(g, i, m, blocks, NDIRECT + 1 + j);
  }

  lemma FreedLast(g: Geometry, i: nat, m: Image, blocks: Disk)
    requires Good(g, m) && i < g.ninodes && Freed(g, i, m, blocks, NDIRECT + NINDIRECT)
    requires m.inodes[i].addrs[NDIRECT] != 0
    ensures var x := m.inodes[i].addrs[NDIRECT];
      x < g.size && InUse(g, blocks, x) && Freed(g, i, m, SetUse(g, blocks, x, false), NSLOTS)
  {
    FreedStep(g, i, m, blocks, NDIRECT);
  }

  /** Without an indirect block there is nothing to free behind it. */
  lemma FreedNoIndirect(g: Geometry, i: nat, m: Image, blocks: Disk)
    requires Good(g, m) && i < g.ninodes && m.inodes[i].addrs[NDIRECT] == 0 && Freed(g, i, m, blocks, NDIRECT)
    ensures Freed(g, i, m, blocks, NSLOTS)
  {
    forall b | 0 <= b < g.size ensures IsFreed(i, m.owner[b], NSLOTS) <==> IsFreed(i, m.owner[b], NDIRECT) {
      if m.owner[b].Slot? { assert SlotOk(g, m.blocks, m.inodes, m.owner, b); }
    }
  }

  /** An inode of another kind. */
  function WithKind(ip: Inode, kind: Short): (r: Inode) {
    Inode(kind, ip.nlink, ip.size, ip.addrs)
  }

  /** What itrunc does: inode i is empty, exactly its blocks are free again, all else is as it was. */
  ghost predicate Truncated(g: Geometry, i: nat, m: Image, n: Image, kind: Short)
    requires Good(g, m) && i < g.ninodes
  {
    && n.owner == Release(m.owner, i)
    && n.inodes == m.inodes[i := Inode(kind, m.inodes[i].nlink, 0, NoAddrs())]
    && |n.blocks| == g.size
    && (forall b :: 0 <= b < g.size ==>
          (InUse(g, n.blocks, b) <==> InUse(g, m.blocks, b) && !(m.owner[b].Slot? && m.owner[b].i == i)))
    && NoHoles(n.blocks, n.inodes[i])
    && OnlyOthersSame(g, i, m, n)
  }

  /** Setting the kind of a truncated inode. */
  lemma Unused(g: Geometry, i: nat, m: Image, n: Image)
    requires Good(g, m) && Good(g, n) && i < g.ninodes && Truncated(g, i, m, n, m.inodes[i].kind)
    ensures var w := Image(n.blocks, n.inodes[i := WithKind(n.inodes[i], 0)], n.owner);
      Good(g, w) && Truncated(g, i, m, w, 0)
  {
    OwnedAfterSize(g, n, i, WithKind(n.inodes[i], 0));
    var w := Image(n.blocks, n.inodes[i := WithKind(n.inodes[i], 0)], n.owner);
    forall j | 0 <= j < g.ninodes && j != i ensures SameFile(m, w, j) {
      assert SameFile(m, n, j);
    }
  }

  lemma TruncateDone(g: Geometry, i: nat, m: Image, blocks: Disk, ip: Inode)
    requires Good(g, m) && NonePending(m.owner) && i < g.ninodes && Freed(g, i, m, blocks, NSLOTS)
    requires (forall s :: 0 <= s <= NDIRECT ==> ip.addrs[s] == 0)
    requires ip == Inode(m.inodes[i].kind, m.inodes[i].nlink, 0, ip.addrs)
    ensures var w := Image(blocks, m.inodes[i := ip], Release(m.owner, i));
      && Good(g, w) && NonePending(w.owner) && Truncated(g, i, m, w, ip.kind)
  {
    assert ip.addrs == NoAddrs();
    forall b | 0 <= b < g.size && m.owner[b].Slot? ensures SlotOk(g, m.blocks, m.inodes, m.owner, b) {}
    OwnedAfterTruncate(g, m.blocks, m.inodes, m.owner, i, blocks, ip);
    forall s | 0 <= s < NSLOTS ensures Ref(blocks, ip, s) == 0 {}
    var w := Image(blocks, m.inodes[i := ip], Release(m.owner, i));
    forall j | 0 <= j < g.ninodes && j != i ensures SameFile(m, w, j) {
      forall s | 0 <= s < NSLOTS && Ref(m.blocks, m.inodes[j], s) != 0
        ensures blocks[Ref(m.blocks, m.inodes[j], s)] == m.blocks[Ref(m.blocks, m.inodes[j], s)]
      {
        assert m.owner[Ref(m.blocks, m.inodes[j], s)] == Slot(j, s);
      }
    }
  }

  /** Bit bi of the bitmap block for b is that of block b + bi. */
  lemma BitOf(g: Geometry, blocks: Disk, b: nat, bi: nat)
    requires g.Valid() && |blocks| == g.size && b % BPB == 0 && bi < BPB && b + bi < g.size
    ensures g.BitmapBlock(b + bi) == g.BitmapBlock(b)
    ensures InUse(g, blocks, b + bi) <==> Bit(blocks[g.BitmapBlock(b)], bi)
    ensures SetUse(g, blocks, b + bi, true) == blocks[g.BitmapBlock(b) := SetBit(blocks[g.BitmapBlock(b)], bi, true)]
  {
    assert (b + bi) % BPB == bi;
  }

  /** No block is free. */
  ghost predicate Full(g: Geometry, blocks: Disk)
    requires g.Valid()
  {
    |blocks| == g.size && forall b :: 0 <= b < g.size ==> InUse(g, blocks, b)
  }

  /** What readi and writei return: a byte count, -1, or not at all (a panic of balloc). */
  datatype Result = Count(n: nat) | Refused | OutOfBlocks

  /** Inode i may have changed; all other files are what they were. */
  ghost predicate OnlyOthersSame(g: Geometry, i: nat, m: Image, n: Image)
    requires |m.inodes| == g.ninodes
  {
    forall j :: 0 <= j < g.ninodes && j != i ==> SameFile(m, n, j)
  }

  ghost predicate HasIndirect(g: Geometry, i: nat, m: Image, l: Image, x: nat)
    requires Good(g, m) && i < g.ninodes
  {
    && Grown(g, i, m, l) && l.inodes[i].addrs[NDIRECT] == x != 0 && x < g.size
    && (m.inodes[i].addrs[NDIRECT] != 0 ==> l == m)
    && forall s :: 0 <= s < NSLOTS && s != NDIRECT ==> Ref(l.blocks, l.inodes[i], s) == Ref(m.blocks, m.inodes[i], s)
  }

  ghost predicate HasEntry(g: Geometry, i: nat, bn: nat, m: Image, n: Image, r: nat)
    requires Good(g, m) && i < g.ninodes && NDIRECT <= bn < MAXFILE
  {
    var s := SlotOf(bn);
    if Ref(m.blocks, m.inodes[i], s) != 0 then n == m && r == Ref(m.blocks, m.inodes[i], s)
    else r < g.size && !InUse(g, m.blocks, r) && m.inodes[i].addrs[NDIRECT] < g.size && n == EntryImage(g, i, m, s, r)
  }

  lemma EntryThere(g: Geometry, i: nat, bn: nat, m: Image)
    requires Good(g, m) && i < g.ninodes && NDIRECT <= bn < MAXFILE && m.inodes[i].addrs[NDIRECT] != 0
    ensures |m.inodes| == g.ninodes && m.inodes[i].addrs[NDIRECT] < g.size == |m.blocks| == |m.owner|
    ensures Ref(m.blocks, m.inodes[i], SlotOf(bn)) == Word(m.blocks[m.inodes[i].addrs[NDIRECT]], bn - NDIRECT)
    ensures Ref(m.blocks, m.inodes[i], SlotOf(bn)) != 0 ==>
      HasEntry(g, i, bn, m, m, Ref(m.blocks, m.inodes[i], SlotOf(bn)))
  {
    IndirectOwner(g, m.blocks, m.inodes, m.owner, i);
  }

  /** A new block r named by entry bn: what changes, and that it is logged. */
  lemma EntryTaken(g: Geometry, i: nat, bn: nat, m: Image, r: nat, logged: set<nat>)
    requires Good(g, m) && i < g.ninodes && NDIRECT <= bn < MAXFILE && m.inodes[i].addrs[NDIRECT] != 0
    requires Ref(m.blocks, m.inodes[i], SlotOf(bn)) == 0 && r < g.size && !InUse(g, m.blocks, r)
    ensures var x := m.inodes[i].addrs[NDIRECT]; var taken := Taken(g, m.blocks, r);
      && x < |taken|
      && var n := Image(taken[x := SetWord(taken[x], bn - NDIRECT, r)], m.inodes, m.owner[r := Slot(i, SlotOf(bn))]);
      && HasEntry(g, i, bn, m, n, r)
      && Recorded(g, g.bmapstart, m.blocks, logged, n.blocks, logged + {g.BitmapBlock(r), r} + {x})
  {
    var x := m.inodes[i].addrs[NDIRECT];
    GrownByEntry(g, i, m, SlotOf(bn), r);
    TakenRecorded(g, m, r, logged);
    IndirectOwner(g, m.blocks, m.inodes, m.owner, i);
    var taken := Taken(g, m.blocks, r);
    var logs := logged + {g.BitmapBlock(r), r};
    hide Owned, Grown, Ref, InUse, SetUse, SetWord;
    RecordedWrite(g, g.bmapstart, m.blocks, logged, taken, logs, x, SetWord(taken[x], bn - NDIRECT, r));
  }

  lemma MappedAlready(g: Geometry, i: nat, bn: nat, m: Image)
    requires Good(g, m) && i < g.ninodes && bn < MAXFILE
    ensures |m.inodes| == g.ninodes && |m.blocks| == g.size
    ensures bn < NDIRECT && m.inodes[i].addrs[bn] != 0 ==> Mapped(g, i, bn, m, m, m.inodes[i].addrs[bn])
  {}

  lemma IndirectMeans(g: Geometry, i: nat, bn: nat, m: Image, l: Image, x: nat)
    requires Good(g, m) && i < g.ninodes && NDIRECT <= bn < MAXFILE && HasIndirect(g, i, m, l, x)
    ensures Good(g, l) && |l.inodes| == g.ninodes && l.inodes[i].addrs[NDIRECT] == x != 0 && x < g.size
    ensures Ref(l.blocks, l.inodes[i], SlotOf(bn)) == Ref(m.blocks, m.inodes[i], SlotOf(bn))
  {}

  lemma MappedNonempty(g: Geometry, i: nat, bn: nat, m: Image, n: Image, r: int)
    requires Good(g, m) && i < g.ninodes && bn < MAXFILE
    requires Ref(m.blocks, m.inodes[i], SlotOf(bn)) != 0
    requires r >= 0 ==> Mapped(g, i, bn, m, n, r)
    ensures r >= 0 ==> n == m && r == Ref(m.blocks, m.inodes[i], SlotOf(bn)) && r < |m.blocks|
  {}

  lemma MappedDirect(g: Geometry, i: nat, bn: nat, m: Image, r: nat)
    requires Good(g, m) && i < g.ninodes && bn < NDIRECT && m.inodes[i].addrs[bn] == 0
    requires r < g.size && !InUse(g, m.blocks, r)
    ensures Mapped(g, i, bn, m, LinkedImage(g, i, m, bn, r), r)
  {
    GrownByLink(g, i, m, bn, r);
  }

  lemma MappedEntry(g: Geometry, i: nat, bn: nat, m: Image, l: Image, x: nat, n: Image, r: nat)
    requires Good(g, m) && i < g.ninodes && NDIRECT <= bn < MAXFILE
    requires HasIndirect(g, i, m, l, x) && HasEntry(g, i, bn, l, n, r)
    ensures Mapped(g, i, bn, m, n, r)
  {
    if Ref(l.blocks, l.inodes[i], SlotOf(bn)) == 0 {
      GrownByEntry(g, i, l, SlotOf(bn), r);
      GrownTransitive(g, i, m, l, n);
    } else {
      assert l.owner[r] == Slot(i, SlotOf(bn));
    }
  }

  // ----- iupdate at the end of an operation -----

  /** The image after iupdate of inode i. */
  function OutImage(g: Geometry, i: nat, m: Image): (n: Image)
    requires g.Valid() && |m.blocks| == g.size && i < g.ninodes && i < |m.inodes|
  {
    MetaImage(m, g.InodeBlock(i), PutInode(m.blocks[g.InodeBlock(i)], i % IPB, m.inodes[i]))
  }

  /** iupdate changes no file, and brings the inode blocks up to date. */
  lemma OutKeeps(g: Geometry, i: nat, m: Image, w: Image)
    requires Good(g, m) && Good(g, w) && i < g.ninodes && OnlyOthersSame(g, i, m, w)
    requires w.inodes == m.inodes[i := w.inodes[i]]
    requires InodesOn(g, w.blocks) == InodesOn(g, m.blocks) == m.inodes
    ensures OutImage(g, i, w).blocks == Updated(g, w.blocks, i, w.inodes[i])
    ensures Good(g, OutImage(g, i, w)) && OnlyOthersSame(g, i, m, OutImage(g, i, w))
    ensures InodesOn(g, OutImage(g, i, w).blocks) == w.inodes
    ensures NoHoles(w.blocks, w.inodes[i]) ==>
      NoHoles(OutImage(g, i, w).blocks, w.inodes[i])
        && Content(OutImage(g, i, w).blocks, w.inodes[i]) == Content(w.blocks, w.inodes[i])
  {
    var x, data := g.InodeBlock(i), PutInode(w.blocks[g.InodeBlock(i)], i % IPB, w.inodes[i]);
    InodesAfterUpdate(g, w.blocks, i, w.inodes[i]);
    hide PutInode, InodesOn;
    MetaKeeps(g, w, x, data, i);
    forall j | 0 <= j < g.ninodes && j != i ensures SameFile(m, OutImage(g, i, w), j) {
      MetaKeeps(g, w, x, data, j);
      SameFileTransitive(m, w, OutImage(g, i, w), j);
    }
  }

  /** The end of writei, with the size brought up to date and the inode written, or neither. */
  lemma WrittenOut(g: Geometry, i: nat, m: Image, n: Image, logged0: set<nat>, logged: set<nat>, off: nat,
                   src: seq<Byte>)
    requires Good(g, m) && NonePending(m.owner) && i < g.ninodes && NoHoles(m.blocks, m.inodes[i])
    requires off <= m.inodes[i].size && off + |src| <= MAXFILE * BSIZE
    requires Writing(g, i, m, n, off, src, |src|, BlocksFor(m.inodes[i].size))
    requires Recorded(g, g.bmapstart, m.blocks, logged0, n.blocks, logged) && InodesOn(g, m.blocks) == m.inodes
    ensures g.Valid() && |n.inodes| == g.ninodes == |m.inodes| && |n.blocks| == g.size
    ensures n.inodes[i].size == m.inodes[i].size
    ensures Max(m.inodes[i].size, off + |src|) == m.inodes[i].size ==> WriteEnded(g, i, m, n, logged0, logged, off, src)
    ensures Max(m.inodes[i].size, off + |src|) != m.inodes[i].size ==>
      var w := Resized(i, n, off + |src|);
      && OutImage(g, i, w).blocks == Updated(g, w.blocks, i, w.inodes[i])
      && WriteEnded(g, i, m, OutImage(g, i, w), logged0, logged + {g.InodeBlock(i)}, off, src)
  {
    var size := Max(m.inodes[i].size, off + |src|);
    WriteFinishedImage(g, i, m, n, off, src, size);
    var w := Resized(i, n, size);
    RecordedFrom(g, g.bmapstart, g.inodestart, m.blocks, logged0, n.blocks, logged);
    SameInodes(g, m.blocks, n.blocks);
    if size != m.inodes[i].size {
      RecordedWrite(g, g.inodestart, m.blocks, logged0, n.blocks, logged, g.InodeBlock(i),
        PutInode(w.blocks[g.InodeBlock(i)], i % IPB, w.inodes[i]));
      hide Owned, NoHoles, Content, Splice, Recorded, InodesOn, PutInode, SameFile, Writing;
      OutKeeps(g, i, m, w);
    }
  }

  /** What holds at the end of writei. */
  ghost predicate WriteEnded(g: Geometry, i: nat, m: Image, n: Image, logged0: set<nat>, logged: set<nat>, off: nat,
                             src: seq<Byte>)
    requires |m.inodes| == g.ninodes && i < g.ninodes && off <= m.inodes[i].size <= MAXFILE * BSIZE
  {
    && Good(g, n) && NonePending(n.owner) && OnlyOthersSame(g, i, m, n) && InodesOn(g, n.blocks) == n.inodes
    && n.inodes[i].kind == m.inodes[i].kind && n.inodes[i].nlink == m.inodes[i].nlink
    && NoHoles(n.blocks, n.inodes[i])
    && Content(n.blocks, n.inodes[i]) == Splice(Content(m.blocks, m.inodes[i]), off, src)
    && Recorded(g, g.inodestart, m.blocks, logged0, n.blocks, logged)
  }

  /** The end of itrunc. */
  lemma TruncatedOut(g: Geometry, i: nat, m: Image, n: Image, logged0: set<nat>, logged: set<nat>)
    requires Good(g, m) && Good(g, n) && NonePending(n.owner) && i < g.ninodes
    requires Truncated(g, i, m, n, m.inodes[i].kind)
    requires Recorded(g, g.bmapstart, m.blocks, logged0, n.blocks, logged) && InodesOn(g, m.blocks) == m.inodes
    ensures g.Valid() && |n.blocks| == g.size && |n.inodes| == g.ninodes
    ensures var w := OutImage(g, i, n);
      && w.blocks == Updated(g, n.blocks, i, n.inodes[i])
      && Good(g, w) && NonePending(w.owner) && InodesOn(g, w.blocks) == w.inodes
          && Truncated(g, i, m, w, m.inodes[i].kind)
      && Recorded(g, g.inodestart, m.blocks, logged0, w.blocks, logged + {g.InodeBlock(i)})
  {
    var w := OutImage(g, i, n);
    SameInodes(g, m.blocks, n.blocks);
    OutKeeps(g, i, m, n);
    var data := PutInode(n.blocks[g.InodeBlock(i)], i % IPB, n.inodes[i]);
    OwnedAfterMeta(g, n.blocks, n.inodes, n.owner, g.InodeBlock(i), data);
    RecordedFrom(g, g.bmapstart, g.inodestart, m.blocks, logged0, n.blocks, logged);
    RecordedWrite(g, g.inodestart, m.blocks, logged0, n.blocks, logged, g.InodeBlock(i), data);
  }

  /** iput after itrunc: the inode is marked free and written once more. */
  lemma UnusedOut(g: Geometry, i: nat, m: Image, n: Image, logged0: set<nat>, logged: set<nat>)
    requires Good(g, m) && Good(g, n) && NonePending(n.owner) && i < g.ninodes
    requires Truncated(g, i, m, n, m.inodes[i].kind)
    requires Recorded(g, g.inodestart, m.blocks, logged0, n.blocks, logged)
    requires InodesOn(g, m.blocks) == m.inodes && InodesOn(g, n.blocks) == n.inodes
    ensures |n.inodes| == g.ninodes
    ensures var u := Image(n.blocks, n.inodes[i := WithKind(n.inodes[i], 0)], n.owner);
      var w := OutImage(g, i, u);
      && w.blocks == Updated(g, u.blocks, i, u.inodes[i])
      && Good(g, w) && NonePending(w.owner) && InodesOn(g, w.blocks) == w.inodes && Truncated(g, i, m, w, 0)
      && Recorded(g, g.inodestart, m.blocks, logged0, w.blocks, logged + {g.InodeBlock(i)})
  {
    Unused(g, i, m, n);
    var u := Image(n.blocks, n.inodes[i := WithKind(n.inodes[i], 0)], n.owner);
    var x, data := g.InodeBlock(i), PutInode(u.blocks[g.InodeBlock(i)], i % IPB, u.inodes[i]);
    InodesAfterUpdate(g, u.blocks, i, u.inodes[i]);
    OwnedAfterMeta(g, u.blocks, u.inodes, u.owner, x, data);
    RecordedWrite(g, g.inodestart, m.blocks, logged0, n.blocks, logged, x, data);
    var w := OutImage(g, i, u);
    hide PutInode, InodesOn;
    MetaKeeps(g, u, x, data, i);
    forall j | 0 <= j < g.ninodes && j != i ensures SameFile(m, w, j) {
      MetaKeeps(g, u, x, data, j);
      SameFileTransitive(m, u, w, j);
    }
  }

  class Fs {
    const g: Geometry
    var blocks: Disk            // what bread returns: the cached contents of every block
    var inodes: seq<Inode>      // the in-memory copies
    var refs: seq<nat>          // how many pointers to each in-memory copy are held
    ghost var owner: seq<Owner>
    ghost var logged: set<nat>  // blocks passed to log_write by the current operation

    ghost function Now(): Image
      reads this
    {
      Image(blocks, inodes, owner)
    }

    /** Block ownership, and the in-memory inodes being those in the inode blocks. */
    ghost predicate Valid()
      reads this
    {
      Good(g, Now()) && NonePending(owner) && InodesOn(g, blocks) == inodes && |refs| == g.ninodes
    }

    /** A file system on the given blocks, as after iinit: every inode is read, nobody holds one. */
    constructor (g: Geometry, blocks: Disk, ghost owner: seq<Owner>)
      requires g.Valid() && |blocks| == g.size
      requires Good(g, Image(blocks, InodesOn(g, blocks), owner)) && NonePending(owner)
      ensures Valid() && this.g == g && this.blocks == blocks && this.owner == owner && logged == {}
      ensures refs == seq(g.ninodes, _ => 0)
    {
      this.g, this.blocks, this.owner, this.logged := g, blocks, owner, {};
      this.inodes := InodesOn(g, blocks);
      this.refs := seq(g.ninodes, _ => 0);
    }

    /** balloc: the lowest free block is marked in use and zeroed; -1 is the panic "out of blocks". */
    method Balloc() returns (r: int)
      requires g.Valid() && |blocks| == g.size
      modifies this`blocks, this`logged
      ensures r < 0 <==> Full(g, old(blocks))
      ensures r < 0 <==> forall b :: 0 <= b < g.size ==> InUse(g, old(blocks), b)
      ensures r < 0 ==> blocks == old(blocks) && logged == old(logged)
      ensures r >= 0 ==>
        && r < g.size && !InUse(g, old(blocks), r) && (forall b :: 0 <= b < r ==> InUse(g, old(blocks), b))
        && blocks == Taken(g, old(blocks), r)
        && logged == old(logged) + {g.BitmapBlock(r), r}
    {
      hide InUse, SetUse, Bit, SetBit;
      var b := 0;
      while b < g.size
        invariant b % BPB == 0
        invariant blocks == old(blocks) && logged == old(logged)
        invariant forall c :: 0 <= c < b && c < g.size ==> InUse(g, blocks, c)
      {
        var bp := blocks[g.BitmapBlock(b)];
        var bi := 0;
        while bi < BPB && b + bi < g.size
          invariant 0 <= bi <= BPB
          invariant blocks == old(blocks) && logged == old(logged)
          invariant forall c :: 0 <= c < b + bi && c < g.size ==> InUse(g, blocks, c)
        {
          BitOf(g, blocks, b, bi);
          if !Bit(bp, bi) {
            blocks := blocks[g.BitmapBlock(b) := SetBit(bp, bi, true)];
            logged := logged + {g.BitmapBlock(b)};
            Bzero(b + bi);
            return b + bi;
          }
          bi := bi + 1;
        }
        b := b + BPB;
      }
      r := -1;
    }

    method Bzero(b: nat)
      requires b < |blocks|
      modifies this`blocks, this`logged
      ensures blocks == old(blocks)[b := ZeroBlock()] && logged == old(logged) + {b}
    {
      blocks := blocks[b := ZeroBlock()];
      logged := logged + {b};
    }

    /** bfree: clears the block's bit; false is the panic "freeing free block". */
    method Bfree(b: nat) returns (ok: bool)
      requires g.Valid() && |blocks| == g.size && b < g.size
      modifies this`blocks, this`logged
      ensures ok <==> InUse(g, old(blocks), b)
      ensures ok ==> blocks == SetUse(g, old(blocks), b, false) && logged == old(logged) + {g.BitmapBlock(b)}
      ensures !ok ==> blocks == old(blocks) && logged == old(logged)
    {
      var bp := blocks[g.BitmapBlock(b)];
      var bi := b % BPB;
      if !Bit(bp, bi) {
        return false;
      }
      blocks := blocks[g.BitmapBlock(b) := SetBit(bp, bi, false)];
      logged := logged + {g.BitmapBlock(b)};
      return true;
    }

    /** ip->addrs[s] = addr = balloc(dev). */
    method BallocPointer(i: nat, s: nat) returns (r: int)
      requires Good(g, Now()) && i < g.ninodes && s <= NDIRECT && inodes[i].addrs[s] == 0
      modifies this`blocks, this`inodes, this`owner, this`logged
      ensures r < 0 ==> Full(g, blocks)
      ensures r >= 0 ==>
        && r < g.size && !InUse(g, old(blocks), r)
        && Now() == LinkedImage(g, i, old(Now()), s, r)
        && logged == old(logged) + {g.BitmapBlock(r), r}
    {
      r := Balloc();
      if r >= 0 {
        inodes := inodes[i := WithAddrs(inodes[i], inodes[i].addrs[s := r])];
        owner := owner[r := Slot(i, s)];
      }
    }

    /** bmap: the block that holds block bn of inode i, allocated if there is none; -1 is a panic of
        balloc. It logs the bitmap and the block for every block it allocates, and the indirect block
        when it writes an entry. */
    method Bmap(i: nat, bn: nat) returns (r: int)
      requires Good(g, Now()) && i < g.ninodes && bn < MAXFILE
      modifies this`blocks, this`inodes, this`owner, this`logged
      ensures r < 0 ==> Full(g, blocks) && Ref(old(blocks), old(inodes)[i], SlotOf(bn)) == 0
      ensures r >= 0 ==>
        && Mapped(g, i, bn, old(Now()), Now(), r)
        && logged == old(logged) + BmapLogs(g, i, bn, old(Now()), Now(), r)
        && Recorded(g, g.bmapstart, old(blocks), old(logged), blocks, logged)
    {
      ghost var m, logs0 := Now(), logged;
      RecordedNothing(g, g.bmapstart, blocks, logged);
      MappedAlready(g, i, bn, m);
      hide Owned, Mapped, Recorded, Taken, InUse, SetUse;
      if bn < NDIRECT {
        r := inodes[i].addrs[bn];
        if r == 0 {
          r := BallocPointer(i, bn);
          if r >= 0 {
            MappedDirect(g, i, bn, m, r);
            TakenRecorded(g, m, r, logs0);
          }
        }
      } else {
        var x := LoadIndirect(i);
        if x < 0 { return -1; }
        ghost var l, logs := Now(), logged;
        IndirectMeans(g, i, bn, m, l, x);
        hide HasIndirect, HasEntry;
        r := IndirectEntry(i, bn, x);
        if r >= 0 {
          MappedEntry(g, i, bn, m, l, x, Now(), r);
          RecordedTransitive(g, g.bmapstart, m.blocks, logs0, l.blocks, logs, blocks, logged);
        }
      }
    }

    /** bmap's first half past the direct blocks: the indirect block, allocated if necessary. */
    method LoadIndirect(i: nat) returns (x: int)
      requires Good(g, Now()) && i < g.ninodes
      modifies this`blocks, this`inodes, this`owner, this`logged
      ensures x < 0 ==> Full(g, blocks) && old(inodes)[i].addrs[NDIRECT] == 0
      ensures x >= 0 ==> HasIndirect(g, i, old(Now()), Now(), x)
      ensures x >= 0 ==>
        logged == old(logged) + if old(inodes)[i].addrs[NDIRECT] == 0 then {g.BitmapBlock(x), x as nat} else {}
      ensures x >= 0 ==> Recorded(g, g.bmapstart, old(blocks), old(logged), blocks, logged)
    {
      ghost var m, logs0 := Now(), logged;
      x := inodes[i].addrs[NDIRECT];
      if x == 0 {
        x := BallocPointer(i, NDIRECT);
        if x >= 0 {
          GrownByLink(g, i, m, NDIRECT, x);
          TakenRecorded(g, m, x, logs0);
        }
      } else {
        IndirectOwner(g, blocks, inodes, owner, i);
        RecordedNothing(g, g.bmapstart, blocks, logged);
      }
    }

    /** bmap's second half: the entry of the indirect block, allocated if necessary. */
    method IndirectEntry(i: nat, bn: nat, x: nat) returns (r: int)
      requires Good(g, Now()) && i < g.ninodes && NDIRECT <= bn < MAXFILE
      requires inodes[i].addrs[NDIRECT] == x != 0 && x < g.size
      modifies this`blocks, this`owner, this`logged
      ensures r < 0 ==> Full(g, blocks) && Ref(old(blocks), old(inodes)[i], SlotOf(bn)) == 0
      ensures r >= 0 ==> HasEntry(g, i, bn, old(Now()), Now(), r)
      ensures r >= 0 ==>
        logged == old(logged) + if Ref(old(blocks), old(inodes)[i], SlotOf(bn)) == 0 then {g.BitmapBlock(r), r, x}
          else {}
      ensures r >= 0 ==> Recorded(g, g.bmapstart, old(blocks), old(logged), blocks, logged)
    {
      ghost var m, logs0 := Now(), logged;
      RecordedNothing(g, g.bmapstart, blocks, logged);
      EntryThere(g, i, bn, m);
      hide Owned, HasEntry, Recorded, Ref, InUse, SetUse, EntryImage, Taken;
      var k := bn - NDIRECT;
      r := Word(blocks[x], k);
      if r == 0 {
        r := Balloc();
        if r >= 0 {
          EntryTaken(g, i, bn, m, r, logs0);
          blocks := blocks[x := SetWord(blocks[x], k, r)];
          logged := logged + {x};
          owner := owner[r := Slot(i, SlotOf(bn))];
        }
      }
    }

    /** bread(dev, bmap(ip, off/BSIZE)), memmove into the block, log_write, brelse. */
    method PatchBlock(i: nat, off: nat, chunk: seq<Byte>) returns (ok: bool, ghost n: Image, ghost r: nat)
      requires Good(g, Now()) && i < g.ninodes
      requires |chunk| <= BSIZE - off % BSIZE && off / BSIZE < MAXFILE
      modifies this`blocks, this`inodes, this`owner, this`logged
      ensures !ok ==> Full(g, blocks)
      ensures ok ==>
        && ChunkWritten(g, i, off, chunk, old(Now()), n, r, Now())
        && i < |n.inodes| && logged == old(logged) + BmapLogs(g, i, off / BSIZE, old(Now()), n, r) + {r}
      ensures ok ==> Recorded(g, g.bmapstart, old(blocks), old(logged), blocks, logged)
    {
      r := 0;
      ghost var m, logs0 := Now(), logged;
      var b := Bmap(i, off / BSIZE);
      n := Now();
      if b < 0 { return false, n, r; }
      r := b;
      RecordedWrite(g, g.bmapstart, m.blocks, logs0, blocks, logged, b, Patch(blocks[b], off % BSIZE, chunk));
      blocks := blocks[b := Patch(blocks[b], off % BSIZE, chunk)];
      logged := logged + {b as nat};
      ok := true;
    }

    /** One turn of the loop in writei. */
    method WriteChunk(i: nat, off: nat, tot: nat, src: seq<Byte>, ghost m: Image, ghost logged0: set<nat>,
                      ghost a: nat) returns (ok: bool, next: nat)
      requires Good(g, m) && i < g.ninodes && tot < |src| && off + |src| <= MAXFILE * BSIZE && a <= MAXFILE
      requires off <= a * BSIZE
      requires Writing(g, i, m, Now(), off, src, tot, a)
      requires tot == 0 || (off + tot) % BSIZE == 0
      requires Within(g, i, Now(), logged0, logged, off, tot, a)
      requires Recorded(g, g.bmapstart, m.blocks, logged0, blocks, logged)
      modifies this`blocks, this`inodes, this`owner, this`logged
      ensures !ok ==> Full(g, blocks)
      ensures tot < next <= |src| && (next == |src| || (off + next) % BSIZE == 0)
      ensures ok ==> Writing(g, i, m, Now(), off, src, next, a) && Within(g, i, Now(), logged0, logged, off, next, a)
      ensures ok ==> Recorded(g, g.bmapstart, m.blocks, logged0, blocks, logged)
    {
      hide Owned, Within, Recorded;
      next := NextPosition(off, tot, |src|);
      ghost var n, logs, n1, r := Now(), logged, Now(), 0;
      ok, n1, r := PatchBlock(i, off + tot, src[tot..next]);
      if ok {
        ChunkTurn(g, i, m, n, off, src, tot, a, next, n1, r, Now(), logged0, logs);
        RecordedTransitive(g, g.bmapstart, m.blocks, logged0, n.blocks, logs, blocks, logged);
      }
    }

    /** writei. A write that starts past the end, wraps around 32 bits or would exceed the largest file
        is refused and changes nothing. Otherwise the file's contents become the old ones with src
        spliced in at off, no other file changes, block ownership and write-through are kept, every block
        that changes is logged, and a write of at most 1536 bytes logs at most ten blocks, or seven with a
        single bitmap block. */
    method Writei(i: nat, off: Uint, src: seq<Byte>) returns (r: Result)
      requires Valid() && i < g.ninodes && NoHoles(blocks, inodes[i]) && |src| < UINT_LIMIT
      modifies this
      ensures r.Refused? <==> off > old(inodes)[i].size || off + |src| >= UINT_LIMIT || off + |src| > MAXFILE * BSIZE
      ensures r.Refused? ==> unchanged(this)
      ensures r.OutOfBlocks? ==> Full(g, blocks)
      ensures r.Count? ==>
        && r.n == |src|
        && Valid() && OnlyOthersSame(g, i, old(Now()), Now())
        && inodes[i].kind == old(inodes)[i].kind && inodes[i].nlink == old(inodes)[i].nlink
        && NoHoles(blocks, inodes[i])
        && off <= old(inodes)[i].size <= MAXFILE * BSIZE
        && Content(blocks, inodes[i]) == Splice(Content(old(blocks), old(inodes)[i]), off, src)
      ensures r.Count? ==> Recorded(g, g.inodestart, old(blocks), old(logged), blocks, logged)
      ensures r.Count? && |src| <= FILEWRITE_MAX ==> |logged| <= |old(logged)| + 10
      ensures r.Count? && |src| <= FILEWRITE_MAX && g.size <= BPB ==> |logged| <= |old(logged)| + 7
    {
      if off > inodes[i].size || (off + |src|) % UINT_LIMIT < off {
        return Refused;
      }
      if (off + |src|) % UINT_LIMIT > MAXFILE * BSIZE {
        return Refused;
      }
      ghost var m, logged0, a := Now(), logged, BlocksFor(inodes[i].size);
      var ok := WriteAll(i, off, src);
      if !ok { return OutOfBlocks; }
      WriteEnd(i, off, src, m, logged0);
      return Count(|src|);
    }

    method WriteAll(i: nat, off: nat, src: seq<Byte>) returns (ok: bool)
      requires Good(g, Now()) && i < g.ninodes && NoHoles(blocks, inodes[i])
      requires off <= inodes[i].size && off + |src| <= MAXFILE * BSIZE
      modifies this`blocks, this`inodes, this`owner, this`logged
      ensures !ok ==> Full(g, blocks)
      ensures ok ==>
        var a := BlocksFor(old(inodes)[i].size);
        && a <= MAXFILE && Writing(g, i, old(Now()), Now(), off, src, |src|, a)
        && Within(g, i, Now(), old(logged), logged, off, |src|, a)
        && Recorded(g, g.bmapstart, old(blocks), old(logged), blocks, logged)
    {
      ghost var m, logged0, a := Now(), logged, BlocksFor(inodes[i].size);
      RecordedNothing(g, g.bmapstart, blocks, logged);
      WritingStart(g, i, m, off, src);
      WithinStart(g, i, m, logged0, off, a);
      var tot := 0;
      while tot < |src|
        invariant 0 <= tot <= |src|
        invariant tot == 0 || tot == |src| || (off + tot) % BSIZE == 0
        invariant Writing(g, i, m, Now(), off, src, tot, a)
        invariant Within(g, i, Now(), logged0, logged, off, tot, a)
        invariant Recorded(g, g.bmapstart, m.blocks, logged0, blocks, logged)
      {
        ok, tot := WriteChunk(i, off, tot, src, m, logged0, a);
        if !ok { return false; }
      }
      return true;
    }

    /** The end of writei: the size grows to cover the write, and iupdate copies the inode out. */
    method WriteEnd(i: nat, off: nat, src: seq<Byte>, ghost m: Image, ghost logged0: set<nat>)
      requires Good(g, m) && NonePending(m.owner) && i < g.ninodes && NoHoles(m.blocks, m.inodes[i])
      requires off <= m.inodes[i].size && off + |src| <= MAXFILE * BSIZE
      requires Writing(g, i, m, Now(), off, src, |src|, BlocksFor(m.inodes[i].size))
      requires Within(g, i, Now(), logged0, logged, off, |src|, BlocksFor(m.inodes[i].size))
      requires Recorded(g, g.bmapstart, m.blocks, logged0, blocks, logged)
      requires InodesOn(g, m.blocks) == m.inodes && |refs| == g.ninodes
      modifies this`blocks, this`inodes, this`logged
      ensures Valid() && OnlyOthersSame(g, i, m, Now())
      ensures inodes[i].kind == m.inodes[i].kind && inodes[i].nlink == m.inodes[i].nlink
      ensures NoHoles(blocks, inodes[i])
      ensures Content(blocks, inodes[i]) == Splice(Content(m.blocks, m.inodes[i]), off, src)
      ensures Recorded(g, g.inodestart, m.blocks, logged0, blocks, logged)
      ensures |src| <= FILEWRITE_MAX ==> |logged| <= |logged0| + 10
      ensures |src| <= FILEWRITE_MAX && g.size <= BPB ==> |logged| <= |logged0| + 7
    {
      hide Owned, NonePending, OnlyOthersSame, Prefix, Content, Writing, Within, Recorded, InodesOn, Updated, Splice;
      ghost var n, logs := Now(), logged;
      WrittenOut(g, i, m, n, logged0, logs, off, src);
      if |src| <= FILEWRITE_MAX { BudgetMet(g, i, n, logged0, logs, off, |src|, BlocksFor(m.inodes[i].size)); }
      hide NoHoles, Good, BlocksFor;
      if |src| > 0 && off + |src| > inodes[i].size {
        inodes := inodes[i := WithSize(inodes[i], off + |src|)];
        Iupdate(i);
      }
    }

    /** iupdate: copies the in-memory inode to its block. */
    method Iupdate(i: nat)
      requires g.Valid() && |blocks| == g.size && i < g.ninodes && i < |inodes|
      modifies this`blocks, this`logged
      ensures blocks == Updated(g, old(blocks), i, inodes[i]) && logged == old(logged) + {g.InodeBlock(i)}
    {
      var b := g.InodeBlock(i);
      blocks := blocks[b := PutInode(blocks[b], i % IPB, inodes[i])];
      logged := logged + {b};
    }

    /** readi: the stretch of the file's contents that was asked for, cut off at its end. On a file
        without holes it allocates nothing. */
    method Readi(i: nat, off: Uint, n: Uint) returns (r: Result, dst: seq<Byte>)
      requires Valid() && i < g.ninodes && NoHoles(blocks, inodes[i])
      modifies this`blocks, this`inodes, this`owner, this`logged
      ensures unchanged(this)
      ensures r.Refused? <==> off > inodes[i].size || off + n >= UINT_LIMIT
      ensures !r.Refused? ==>
        var stop := if off + n > inodes[i].size then inodes[i].size else off + n;
        r == Count(|dst|) && dst == Content(blocks, inodes[i])[off..stop]
    {
      hide Owned, NoHoles;
      SplicedNothing(g, i, Now(), off);
      dst := [];
      if off > inodes[i].size || (off + n) % UINT_LIMIT < off {
        return Refused, dst;
      }
      var left := if (off + n) % UINT_LIMIT > inodes[i].size then inodes[i].size - off else n;
      dst := ReadAll(i, off, left);
      return Count(left), dst;
    }

    /** The loop of readi. */
    method ReadAll(i: nat, off: nat, left: nat) returns (dst: seq<Byte>)
      requires Valid() && i < g.ninodes && NoHoles(blocks, inodes[i]) && off + left <= inodes[i].size
      modifies this`blocks, this`inodes, this`owner, this`logged
      ensures unchanged(this)
      ensures dst == Content(blocks, inodes[i])[off..off + left]
    {
      hide Owned, NonePending, Prefix, InodesOn, Content;
      ghost var c := Content(blocks, inodes[i]);
      dst := [];
      var tot := 0;
      while tot < left
        invariant 0 <= tot <= left
        invariant unchanged(`blocks) && unchanged(`inodes) && unchanged(`owner) && unchanged(`logged)
        invariant dst == c[off..off + tot]
      {
        var next := NextPosition(off, tot, left);
        var chunk := ReadChunk(i, off + tot, next - tot);
        assert c[off..off + next] == c[off..off + tot] + c[off + tot..off + next];
        dst := dst + chunk;
        tot := next;
      }
    }

    /** bread(dev, bmap(ip, off/BSIZE)) and the memmove out of it. */
    method ReadChunk(i: nat, off: nat, len: nat) returns (chunk: seq<Byte>)
      requires Good(g, Now()) && i < g.ninodes && NoHoles(blocks, inodes[i])
      requires 0 < len <= BSIZE - off % BSIZE && off + len <= inodes[i].size
      modifies this`blocks, this`inodes, this`owner, this`logged
      ensures unchanged(this)
      ensures chunk == Content(blocks, inodes[i])[off..off + len]
    {
      ghost var m := Now();
      AllocatedBelow(m, i, BlocksFor(inodes[i].size), off);
      var r := Bmap(i, off / BSIZE);
      MappedNonempty(g, i, off / BSIZE, m, Now(), r);
      assert logged == old(logged);
      ChunkOfContent(m, i, off, len, r);
      return blocks[r][off % BSIZE..off % BSIZE + len];
    }

    /** itrunc: exactly the blocks of inode i are freed, none of them twice, the file is empty, and every
        block that changes is logged. */
    method Itrunc(i: nat)
      requires Valid() && i < g.ninodes
      modifies this`blocks, this`inodes, this`owner, this`logged
      ensures Valid() && Truncated(g, i, old(Now()), Now(), old(inodes)[i].kind)
      ensures Recorded(g, g.inodestart, old(blocks), old(logged), blocks, logged)
    {
      ghost var m, logged0 := Now(), logged;
      hide Owned, NonePending, Truncated, Recorded, InodesOn, Updated, Freed;
      FreeDirect(i);
      if inodes[i].addrs[NDIRECT] != 0 {
        FreeIndirect(i, m, logged0);
        inodes := inodes[i := WithAddrs(inodes[i], inodes[i].addrs[NDIRECT := 0])];
      } else {
        FreedNoIndirect(g, i, m, blocks);
      }
      inodes := inodes[i := WithSize(inodes[i], 0)];
      TruncateDone(g, i, m, blocks, inodes[i]);
      owner := Release(owner, i);
      assert inodes == m.inodes[i := inodes[i]];
      TruncatedOut(g, i, m, Now(), logged0, logged);
      hide Good;
      Iupdate(i);
    }

    /** The first loop of itrunc. */
    method FreeDirect(i: nat)
      requires Good(g, Now()) && i < g.ninodes
      modifies this`blocks, this`inodes, this`logged
      ensures Freed(g, i, old(Now()), blocks, NDIRECT)
      ensures Recorded(g, g.bmapstart, old(blocks), old(logged), blocks, logged)
      ensures |inodes| == g.ninodes && inodes == old(inodes)[i := inodes[i]]
      ensures inodes[i] == WithAddrs(old(inodes)[i], inodes[i].addrs)
      ensures forall s :: 0 <= s <= NDIRECT ==> inodes[i].addrs[s] == if s < NDIRECT then 0 else old(inodes)[i].addrs[s]
    {
      ghost var m, logged0 := Now(), logged;
      RecordedNothing(g, g.bmapstart, blocks, logged);
      var k := 0;
      while k < NDIRECT
        invariant 0 <= k <= NDIRECT
        invariant Freed(g, i, m, blocks, k)
        invariant Recorded(g, g.bmapstart, m.blocks, logged0, blocks, logged)
        invariant |inodes| == g.ninodes && inodes == m.inodes[i := WithAddrs(m.inodes[i], inodes[i].addrs)]
        invariant forall s :: 0 <= s <= NDIRECT ==> inodes[i].addrs[s] == if s < k then 0 else m.inodes[i].addrs[s]
      {
        FreedStep(g, i, m, blocks, k);
        if inodes[i].addrs[k] != 0 {
          FreedRecorded(g, m.blocks, logged0, blocks, logged, inodes[i].addrs[k]);
          var ok := Bfree(inodes[i].addrs[k]);
          assert ok;
          inodes := inodes[i := WithAddrs(inodes[i], inodes[i].addrs[k := 0])];
        }
        k := k + 1;
      }
    }

    /** The second half of itrunc. */
    method FreeIndirect(i: nat, ghost m: Image, ghost logged0: set<nat>)
      requires Good(g, m) && i < g.ninodes && i < |inodes| && Freed(g, i, m, blocks, NDIRECT)
      requires inodes[i].addrs[NDIRECT] == m.inodes[i].addrs[NDIRECT] != 0
      requires Recorded(g, g.bmapstart, m.blocks, logged0, blocks, logged)
      modifies this`blocks, this`logged
      ensures Freed(g, i, m, blocks, NSLOTS)
      ensures Recorded(g, g.bmapstart, m.blocks, logged0, blocks, logged)
    {
      FreedMeans(g, i, m, blocks, NDIRECT);
      hide Owned, Freed, Recorded, Ref, InUse, SetUse;
      var x := inodes[i].addrs[NDIRECT];
      var a := blocks[x];
      var j := 0;
      while j < NINDIRECT
        invariant 0 <= j <= NINDIRECT && |blocks| == g.size
        invariant Freed(g, i, m, blocks, NDIRECT + j)
        invariant Recorded(g, g.bmapstart, m.blocks, logged0, blocks, logged)
      {
        FreedEntry(g, i, m, blocks, j);
        if Word(a, j) != 0 {
          FreedRecorded(g, m.blocks, logged0, blocks, logged, Word(a, j));
          var ok := Bfree(Word(a, j));
          assert ok;
        }
        j := j + 1;
      }
      FreedLast(g, i, m, blocks);
      FreedRecorded(g, m.blocks, logged0, blocks, logged, x);
      var ok := Bfree(x);
      assert ok;
    }

    /** iput, given whether the in-memory copy is valid: at the last reference an inode without links
        is truncated and freed; in every other case nothing on disk changes. */
    method Iput(i: nat, valid: bool)
      requires Valid() && i < g.ninodes && refs[i] > 0
      modifies this
      ensures Valid() && refs == old(refs)[i := old(refs)[i] - 1]
      ensures Recorded(g, g.inodestart, old(blocks), old(logged), blocks, logged)
      ensures valid && old(inodes)[i].nlink == 0 && old(refs)[i] == 1 ==> Truncated(g, i, old(Now()), Now(), 0)
      ensures !(valid && old(inodes)[i].nlink == 0 && old(refs)[i] == 1) ==>
        Now() == old(Now()) && logged == old(logged)
    {
      ghost var m, logged0 := Now(), logged;
      RecordedNothing(g, g.inodestart, blocks, logged);
      hide Good, NonePending, Truncated, Recorded, InodesOn, Updated;
      if valid && inodes[i].nlink == 0 {
        var r := refs[i];
        if r == 1 {
          Itrunc(i);
          UnusedOut(g, i, m, Now(), logged0, logged);
          inodes := inodes[i := WithKind(inodes[i], 0)];
          Iupdate(i);
        }
      }
      refs := refs[i := refs[i] - 1];
    }

    /** fileread on an inode: the next bytes of the file, and the offset moves past them. */
    method Fileread(f: File, n: Uint) returns (r: Result, dst: seq<Byte>)
      requires Valid() && f.ip < g.ninodes && NoHoles(blocks, inodes[f.ip])
      modifies this`blocks, this`inodes, this`owner, this`logged, f`off
      ensures unchanged(this)
      ensures r.Refused? <==> !f.readable || old(f.off) > inodes[f.ip].size || old(f.off) + n >= UINT_LIMIT
      ensures r.Refused? ==> f.off == old(f.off)
      ensures !r.Refused? ==>
        && r == Count(|dst|) && f.off == old(f.off) + |dst| <= inodes[f.ip].size
        && (|dst| == n || f.off == inodes[f.ip].size)
        && dst == Content(blocks, inodes[f.ip])[old(f.off)..f.off]
    {
      if !f.readable { return Refused, []; }
      r, dst := Readi(f.ip, f.off, n);
      if r.Count? && r.n > 0 { f.off := f.off + r.n; }
    }

    /** filewrite on an inode, in chunks of at most 1536 bytes, each in a transaction of its own. It
        returns n exactly when the request is possible, and then the chunks together are one splice of
        the whole buffer. Otherwise it returns -1, and the chunks before the first impossible one have
        been written. `run` is what happened in between, transaction by transaction. */
    method Filewrite(f: File, addr: seq<Byte>, n: int) returns (r: Result, ghost done: nat, ghost run: Run)
      requires Valid() && f.ip < g.ninodes && NoHoles(blocks, inodes[f.ip]) && n <= |addr|
      modifies this, f`off
      ensures r.OutOfBlocks? ==> Full(g, blocks)
      ensures !r.OutOfBlocks? ==>
        && (r.Count? <==>
              f.writable && (n == 0 || (n > 0 && old(f.off) <= old(inodes)[f.ip].size
                && old(f.off) + n <= MAXFILE * BSIZE)))
        && (r.Count? ==> r.n == n == done)
        && (r.Refused? ==>
              || done == 0
              || (done % FILEWRITE_MAX == 0 && done < n
                  && old(f.off) + done <= MAXFILE * BSIZE < old(f.off) + done + FILEWRITE_MAX))
        && done <= |addr| && f.off == old(f.off) + done
        && Valid() && Spliced(g, f.ip, old(Now()), Now(), old(f.off), addr[..done])
        && IsRun(g, f.ip, old(f.off), addr, run, old(Now()), Now(), done)
    {
      hide Owned, NoHoles, NonePending, SameFile, IsRun, Spliced, InodesOn;
      run, done := Run([Now()], []), 0;
      SplicedNothing(g, f.ip, Now(), f.off);
      RunNothing(g, f.ip, f.off, addr, Now());
      if !f.writable { return Refused, done, run; }
      ghost var m, off := Now(), f.off;
      var i := 0;
      while i < n
        invariant 0 <= i && (i <= n || i == 0) && (i == n || i % FILEWRITE_MAX == 0)
        invariant f.off == off + i && done == i
        invariant i > 0 ==> off <= m.inodes[f.ip].size && off + i <= MAXFILE * BSIZE
        invariant Valid() && Spliced(g, f.ip, m, Now(), off, addr[..i])
        invariant IsRun(g, f.ip, off, addr, run, m, Now(), i)
      {
        var n1 := n - i;
        if n1 > FILEWRITE_MAX { n1 := FILEWRITE_MAX; }
        ghost var before := Now();
        SplicedSize(g, f.ip, m, before, off, addr[..i]);
        var r1 := WriteTransaction(f, addr[i..i + n1], m, off, addr[..i]);
        if r1.OutOfBlocks? { return OutOfBlocks, done, run; }
        if r1.Refused? { break; }
        assert addr[..i + n1] == addr[..i] + addr[i..i + n1];
        RunStep(g, f.ip, off, addr, run, m, before, Now(), i, n1, logged);
        run := Run(run.images + [Now()], run.ops + [logged]);
        i := i + n1;
        done := i;
      }
      r := if i == n then Count(i) else Refused;
    }

    /** One turn of filewrite: begin_op, ilock, writei, the new offset, iunlock, end_op. */
    method WriteTransaction(f: File, chunk: seq<Byte>, ghost m: Image, ghost off: nat,
                            ghost before: seq<Byte>) returns (r: Result)
      requires Valid() && f.ip < g.ninodes && 0 < |chunk| <= FILEWRITE_MAX
      requires Good(g, m) && f.off == off + |before| && Spliced(g, f.ip, m, Now(), off, before)
      modifies this, f`off
      ensures r.OutOfBlocks? ==> Full(g, blocks)
      ensures r.Refused? <==> old(f.off) > old(inodes)[f.ip].size || old(f.off) + |chunk| > MAXFILE * BSIZE
      ensures r.Refused? ==> Now() == old(Now()) && Valid() && f.off == old(f.off)
      ensures r.Count? ==> Valid() && f.off == old(f.off) + |chunk| && Spliced(g, f.ip, m, Now(), off, before + chunk)
      ensures r.Count? ==> off <= m.inodes[f.ip].size && Transaction(g, old(Now()), Now(), logged)
    {
      hide Prefix, Content, SameFile, InodesOn;
      logged := {};
      ghost var n := Now();
      SplicedSize(g, f.ip, m, n, off, before);
      r := Writei(f.ip, f.off, chunk);
      if r.Count? {
        SplicedStep(g, f.ip, m, n, Now(), off, before, chunk);
        f.off := f.off + r.n;
      }
    }
  }
}
