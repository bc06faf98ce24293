/** How many distinct blocks one writei logs: data blocks, the indirect block, a bitmap block for every
    allocation and the inode's block (fs.c:481-511, file.c:127-133). */
module WriteBudget {
  import opened Sets
  import opened Blocks
  import opened Layout
  import opened FileData

  /** The blocks that one bmap logs. */
  ghost function BmapLogs(g: Geometry, i: nat, bn: nat, m: Image, n: Image, r: nat): set<nat>
    requires i < |m.inodes| && i < |n.inodes| && bn < MAXFILE
  {
    if Ref(m.blocks, m.inodes[i], SlotOf(bn)) != 0 then {}
    else if bn < NDIRECT then {g.BitmapBlock(r), r}
    else
      {g.BitmapBlock(r), r, n.inodes[i].addrs[NDIRECT]}
      + if m.inodes[i].addrs[NDIRECT] == 0 then {g.BitmapBlock(n.inodes[i].addrs[NDIRECT])} else {}
  }

  /** Blocks that `tot` bytes from off touch. */
  function Touched(off: nat, tot: nat): nat {
    if tot == 0 then 0 else (off + tot - 1) / BSIZE - off / BSIZE + 1
  }

  /** Whether the write has logged the indirect block. */
  function EntryLogged(off: nat, tot: nat, a: nat): nat {
    if BlocksFor(off + tot) > a && BlocksFor(off + tot) > NDIRECT then 1 else 0
  }

  /** Data, bitmap and indirect blocks for `tot` bytes at off, in a file of `a` blocks. */
  function Cost(off: nat, tot: nat, a: nat): nat {
    Touched(off, tot)
    + (Max(a, BlocksFor(off + tot)) - a)
    + EntryLogged(off, tot, a)
    + if a <= NDIRECT < BlocksFor(off + tot) then 1 else 0
  }

  ghost predicate Within(g: Geometry, i: nat, n: Image, logged0: set<nat>, logged: set<nat>, off: nat, tot: nat, a: nat)
    requires i < |n.inodes|
  {
    && |logged| <= |logged0| + Cost(off, tot, a)
    && (EntryLogged(off, tot, a) == 1 ==> n.inodes[i].addrs[NDIRECT] in logged)
    && (g.size <= BPB ==> |logged - {g.bmapstart}| <= |logged0| + Touched(off, tot) + EntryLogged(off, tot, a))
  }

  /** Adding elements of which all but those of `added` are there already. */
  lemma Grow(s: set<nat>, more: set<nat>, added: set<nat>, n: nat)
    requires more - s <= added && |added| <= n
    ensures |s + more| <= |s| + n
  {
    assert s + more == s + (more - s);
    SubsetSize(more - s, added);
  }

  /** The same when one element is not counted. */
  lemma GrowWithout(s: set<nat>, more: set<nat>, added: set<nat>, n: nat, x: nat)
    requires more - s <= added + {x} && |added| <= n
    ensures |(s + more) - {x}| <= |s - {x}| + n
  {
    assert (s + more) - {x} == (s - {x}) + (more - {x});
    forall e | e in (more - {x}) - (s - {x}) ensures e in added { assert e in more - s; }
    Grow(s - {x}, more - {x}, added, n);
  }

  /** How the bound moves in one turn of the loop: the block at bn exists, is new, or is new behind
      the indirect block. */
  lemma CostStep(off: nat, tot: nat, a: nat, len: nat)
    requires 0 < len <= BSIZE - (off + tot) % BSIZE && (tot == 0 || (off + tot) % BSIZE == 0)
    requires off <= a * BSIZE
    ensures Touched(off, tot + len) == Touched(off, tot) + 1
    ensures var bn := (off + tot) / BSIZE;
      && (bn < Max(a, BlocksFor(off + tot)) ==>
            Cost(off, tot + len, a) == Cost(off, tot, a) + 1
              && EntryLogged(off, tot + len, a) == EntryLogged(off, tot, a))
      && (bn >= Max(a, BlocksFor(off + tot)) ==>
            && Cost(off, tot + len, a) == Cost(off, tot, a) + 2
                + (if bn >= NDIRECT then 1 - EntryLogged(off, tot, a) else 0) + (if bn == NDIRECT then 1 else 0)
            && EntryLogged(off, tot + len, a) == (if bn >= NDIRECT then 1 else 0)
            && bn == Max(a, BlocksFor(off + tot)))
  {
    assert BlocksFor(off + tot + len) == (off + tot) / BSIZE + 1;
    assert tot > 0 ==> BlocksFor(off + tot) == (off + tot) / BSIZE;
  }

  /** One turn of the loop in writei stays within the bound. */
  lemma WithinStep(g: Geometry, i: nat, n: Image, n1: Image, w: Image, logged0: set<nat>, logged: set<nat>, off: nat,
                   tot: nat, a: nat, len: nat, r: nat)
    requires i < |n.inodes| && i < |n1.inodes| && w.inodes == n1.inodes && r < g.size
    requires off + tot + len <= MAXFILE * BSIZE && off <= a * BSIZE && a <= MAXFILE
    requires 0 < len <= BSIZE - (off + tot) % BSIZE && (tot == 0 || (off + tot) % BSIZE == 0)
    requires Prefix(n.blocks, n.inodes[i], Max(a, BlocksFor(off + tot)))
    requires n.inodes[i].addrs[NDIRECT] != 0 ==> n1.inodes[i].addrs[NDIRECT] == n.inodes[i].addrs[NDIRECT]
    requires n1.inodes[i].addrs[NDIRECT] < g.size
    requires Within(g, i, n, logged0, logged, off, tot, a)
    ensures Within(g, i, w, logged0, logged + BmapLogs(g, i, (off + tot) / BSIZE, n, n1, r) + {r}, off, tot + len, a)
  {
    var bn := (off + tot) / BSIZE;
    CostStep(off, tot, a, len);
    AllocatedIff(n, i, Max(a, BlocksFor(off + tot)), bn);
    LogStep(g, i, bn, n, n1, r, logged, EntryLogged(off, tot, a) == 1);
  }

  lemma WithinStart(g: Geometry, i: nat, n: Image, logged: set<nat>, off: nat, a: nat)
    requires i < |n.inodes| && off <= a * BSIZE
    ensures Within(g, i, n, logged, logged, off, 0, a)
  {
    SubsetSize(logged - {g.bmapstart}, logged);
  }

  lemma AllocatedIff(n: Image, i: nat, a: nat, bn: nat)
    requires i < |n.inodes| && bn < MAXFILE && Prefix(n.blocks, n.inodes[i], a)
    ensures Ref(n.blocks, n.inodes[i], SlotOf(bn)) != 0 <==> bn < a
    ensures n.inodes[i].addrs[NDIRECT] != 0 <==> a > NDIRECT
  {}

  /** bmap keeps an indirect block that is there. */
  lemma SameIndirect(g: Geometry, i: nat, bn: nat, n: Image, n1: Image, r: nat)
    requires Good(g, n) && i < g.ninodes && bn < MAXFILE && Mapped(g, i, bn, n, n1, r)
    ensures n.inodes[i].addrs[NDIRECT] != 0 ==> n1.inodes[i].addrs[NDIRECT] == n.inodes[i].addrs[NDIRECT]
    ensures i < |n.inodes| && i < |n1.inodes| && r < g.size
    ensures n1.inodes[i].addrs[NDIRECT] < g.size
  {
    if n1.inodes[i].addrs[NDIRECT] != 0 { IndirectOwner(g, n1.blocks, n1.inodes, n1.owner, i); }
    assert Ref(n.blocks, n.inodes[i], NDIRECT) == n.inodes[i].addrs[NDIRECT];
  }

  /** The new blocks in the log after one chunk. */
  lemma LogStep(g: Geometry, i: nat, bn: nat, n: Image, n1: Image, r: nat, logged: set<nat>, known: bool)
    requires i < |n.inodes| && i < |n1.inodes| && bn < MAXFILE && r < g.size
    requires n.inodes[i].addrs[NDIRECT] != 0 ==> n1.inodes[i].addrs[NDIRECT] == n.inodes[i].addrs[NDIRECT]
    requires n1.inodes[i].addrs[NDIRECT] < g.size
    requires known ==> n.inodes[i].addrs[NDIRECT] in logged && n.inodes[i].addrs[NDIRECT] != 0
    ensures var l := logged + BmapLogs(g, i, bn, n, n1, r) + {r};
      && logged <= l
      && (Ref(n.blocks, n.inodes[i], SlotOf(bn)) != 0 ==>
            |l| <= |logged| + 1 && (g.size <= BPB ==> |l - {g.bmapstart}| <= |logged - {g.bmapstart}| + 1))
      && (Ref(n.blocks, n.inodes[i], SlotOf(bn)) == 0 && bn < NDIRECT ==>
            |l| <= |logged| + 2 && (g.size <= BPB ==> |l - {g.bmapstart}| <= |logged - {g.bmapstart}| + 1))
      && (Ref(n.blocks, n.inodes[i], SlotOf(bn)) == 0 && bn >= NDIRECT ==>
            && n1.inodes[i].addrs[NDIRECT] in l
            && |l| <= |logged| + 2 + (if known then 0 else 1) + (if n.inodes[i].addrs[NDIRECT] == 0 then 1 else 0)
            && (g.size <= BPB ==> |l - {g.bmapstart}| <= |logged - {g.bmapstart}| + 1 + (if known then 0 else 1)))
  {
    var logs := BmapLogs(g, i, bn, n, n1, r) + {r};
    assert logged + BmapLogs(g, i, bn, n, n1, r) + {r} == logged + logs;
    if Ref(n.blocks, n.inodes[i], SlotOf(bn)) != 0 {
      Grow(logged, logs, {r}, 1);
      GrowWithout(logged, logs, {r}, 1, g.bmapstart);
    } else if bn < NDIRECT {
      DirectStep(g, i, bn, n, n1, r, logged);
    } else {
      EntryStep(g, i, bn, n, n1, r, logged, known);
    }
  }

  lemma OneBitmapBlock(g: Geometry, b: nat)
    requires g.size <= BPB && b < g.size
    ensures g.BitmapBlock(b) == g.bmapstart
  {}

  /** The new blocks in the log when one of the inode's own pointers is filled. */
  lemma DirectStep(g: Geometry, i: nat, bn: nat, n: Image, n1: Image, r: nat, logged: set<nat>)
    requires i < |n.inodes| && i < |n1.inodes| && bn < NDIRECT && r < g.size
    requires Ref(n.blocks, n.inodes[i], SlotOf(bn)) == 0
    ensures var logs := BmapLogs(g, i, bn, n, n1, r) + {r};
      && |logged + logs| <= |logged| + 2
      && (g.size <= BPB ==> |(logged + logs) - {g.bmapstart}| <= |logged - {g.bmapstart}| + 1)
  {
    var logs := BmapLogs(g, i, bn, n, n1, r) + {r};
    Grow(logged, logs, {g.BitmapBlock(r), r}, 2);
    if g.size <= BPB {
      OneBitmapBlock(g, r);
      GrowWithout(logged, logs, {r}, 1, g.bmapstart);
    }
  }

  /** The new blocks in the log when an entry of the indirect block is filled. */
  lemma EntryStep(g: Geometry, i: nat, bn: nat, n: Image, n1: Image, r: nat, logged: set<nat>, known: bool)
    requires i < |n.inodes| && i < |n1.inodes| && NDIRECT <= bn < MAXFILE && r < g.size
    requires Ref(n.blocks, n.inodes[i], SlotOf(bn)) == 0 && n1.inodes[i].addrs[NDIRECT] < g.size
    requires n.inodes[i].addrs[NDIRECT] != 0 ==> n1.inodes[i].addrs[NDIRECT] == n.inodes[i].addrs[NDIRECT]
    requires known ==> n.inodes[i].addrs[NDIRECT] in logged && n.inodes[i].addrs[NDIRECT] != 0
    ensures var logs := BmapLogs(g, i, bn, n, n1, r) + {r};
      && n1.inodes[i].addrs[NDIRECT] in logged + logs
      && |logged + logs| <= |logged| + 2 + (if known then 0 else 1) + (if n.inodes[i].addrs[NDIRECT] == 0 then 1 else 0)
      && (g.size <= BPB ==>
            |(logged + logs) - {g.bmapstart}| <= |logged - {g.bmapstart}| + 1 + (if known then 0 else 1))
  {
    var bm, ind := g.BitmapBlock(r), n1.inodes[i].addrs[NDIRECT];
    if g.size <= BPB { OneBitmapBlock(g, r); OneBitmapBlock(g, ind); }
    if n.inodes[i].addrs[NDIRECT] == 0 {
      Grow(logged, {bm, r, ind, g.BitmapBlock(ind)}, {bm, r, ind, g.BitmapBlock(ind)}, 4);
      assert BmapLogs(g, i, bn, n, n1, r) + {r} == {bm, r, ind, g.BitmapBlock(ind)};
      if g.size <= BPB { GrowWithout(logged, {bm, r, ind, g.BitmapBlock(ind)}, {r, ind}, 2, g.bmapstart); }
    } else {
      assert BmapLogs(g, i, bn, n, n1, r) + {r} == {bm, r, ind};
      if known {
        Grow(logged, {bm, r, ind}, {bm, r}, 2);
        if g.size <= BPB { GrowWithout(logged, {bm, r, ind}, {r}, 1, g.bmapstart); }
      } else {
        Grow(logged, {bm, r, ind}, {bm, r, ind}, 3);
        if g.size <= BPB { GrowWithout(logged, {bm, r, ind}, {r, ind}, 2, g.bmapstart); }
      }
    }
  }

  const FILEWRITE_MAX: nat := 1536    // file.c:133: ((MAXOPBLOCKS-1-1-2) / 2) * 512

  /** A chunk of filewrite, with the inode's block, fits in MAXOPBLOCKS = 10 log blocks. */
  lemma ChunkFits(off: nat, n: nat, a: nat)
    requires n <= FILEWRITE_MAX && off <= a * BSIZE
    ensures Cost(off, n, a) + 1 <= 10
    ensures Touched(off, n) + EntryLogged(off, n, a) + 2 <= 7
  {}

  /** The bound is reached: 1536 bytes appended at the last byte but 511 of the direct blocks. */
  lemma ChunkBoundIsTight()
    ensures var off := 11 * BSIZE + 1; Cost(off, FILEWRITE_MAX, BlocksFor(off)) + 1 == 10
  {}

  /** One block more in a chunk would not fit. */
  lemma FourBlocksDoNotFit()
    ensures var off := 11 * BSIZE + 1; Cost(off, FILEWRITE_MAX + BSIZE, BlocksFor(off)) + 1 > 10
  {}

  /** With the inode's block on top, a chunk of filewrite logs at most ten blocks, and at most seven
      when the free map is a single block. */
  lemma BudgetMet(g: Geometry, i: nat, n: Image, logged0: set<nat>, logged: set<nat>, off: nat, tot: nat, a: nat)
    requires i < |n.inodes| && Within(g, i, n, logged0, logged, off, tot, a) && tot <= FILEWRITE_MAX && off <= a * BSIZE
    ensures |logged| <= |logged0| + 10 && |logged + {g.InodeBlock(i)}| <= |logged0| + 10
    ensures g.size <= BPB ==> |logged| <= |logged0| + 7 && |logged + {g.InodeBlock(i)}| <= |logged0| + 7
  {
    ChunkFits(off, tot, a);
    Grow(logged, {g.InodeBlock(i)}, {g.InodeBlock(i)}, 1);
    Grow(logged - {g.bmapstart}, {g.bmapstart}, {g.bmapstart}, 1);
    SubsetSize(logged, (logged - {g.bmapstart}) + {g.bmapstart});
  }

  // ----- what is changed is logged -----

  /** From blocks m to blocks n: every block that has changed is in the log, and what has come into the
      log lies in the file system from block `from` on. */
  ghost predicate Recorded(g: Geometry, from: nat, m: Disk, lm: set<nat>, n: Disk, ln: set<nat>) {
    && |m| == |n| == g.size && lm <= ln
    && (forall b :: b in ln && b !in lm ==> from <= b < g.size)
    && (forall b :: 0 <= b < g.size && (b !in ln || b < from) ==> n[b] == m[b])
  }

  lemma RecordedTransitive(g: Geometry, from: nat, l: Disk, ll: set<nat>, m: Disk, lm: set<nat>, n: Disk, ln: set<nat>)
    requires Recorded(g, from, l, ll, m, lm) && Recorded(g, from, m, lm, n, ln)
    ensures Recorded(g, from, l, ll, n, ln)
  {}

  lemma RecordedFrom(g: Geometry, from: nat, less: nat, m: Disk, lm: set<nat>, n: Disk, ln: set<nat>)
    requires Recorded(g, from, m, lm, n, ln) && less <= from
    ensures Recorded(g, less, m, lm, n, ln)
  {}

  /** log_write of one more block. */
  lemma RecordedWrite(g: Geometry, from: nat, m: Disk, lm: set<nat>, n: Disk, ln: set<nat>, b: nat, data: Block)
    requires Recorded(g, from, m, lm, n, ln) && from <= b < g.size
    ensures Recorded(g, from, m, lm, n[b := data], ln + {b})
  {}

  lemma RecordedNothing(g: Geometry, from: nat, m: Disk, l: set<nat>)
    requires |m| == g.size
    ensures Recorded(g, from, m, l, m, l)
  {}

  /** balloc logs the bitmap block and the new block. */
  lemma TakenRecorded(g: Geometry, m: Image, r: nat, l: set<nat>)
    requires Good(g, m) && r < g.size && !InUse(g, m.blocks, r)
    ensures g.nmeta <= r && Recorded(g, g.bmapstart, m.blocks, l, Taken(g, m.blocks, r), l + {g.BitmapBlock(r), r})
  {
    assert m.owner[r].Free?;
  }

  /** bfree logs the bitmap block. */
  lemma FreedRecorded(g: Geometry, m: Disk, lm: set<nat>, n: Disk, ln: set<nat>, b: nat)
    requires g.Valid() && Recorded(g, g.bmapstart, m, lm, n, ln) && b < g.size
    ensures Recorded(g, g.bmapstart, m, lm, SetUse(g, n, b, false), ln + {g.BitmapBlock(b)})
  {
    RecordedWrite(g, g.bmapstart, m, lm, n, ln, g.BitmapBlock(b), SetBit(n[g.BitmapBlock(b)], b % BPB, false));
  }
}
