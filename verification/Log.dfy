/** The in-memory side of the redo log (log.c), running on the buffer cache. */
module Log {
  import opened Sets
  import opened Blocks
  import opened BufferCache
  import opened Recovery
  import G = GroupCommit

  // ----- cache states the log relies on -----

  /** Nobody holds a buffer. */
  ghost predicate Quiet(bufs: seq<Buf>) {
    forall i :: 0 <= i < |bufs| ==> bufs[i].refcnt == 0
  }

  /** Every dirty buffer belongs to one of the given blocks. */
  ghost predicate DirtyIn(bufs: seq<Buf>, s: set<nat>) {
    forall i :: 0 <= i < |bufs| && bufs[i].dirty ==> bufs[i].blockno in s
  }

  /** The elements of a sequence. */
  ghost function Elems(bs: seq<nat>): (s: set<nat>) {
    set b | b in bs
  }

  lemma {:induction false} ElemsSize(bs: seq<nat>)
    ensures |Elems(bs)| <= |bs|
  {
    if |bs| > 0 {
      ElemsSize(bs[1..]);
      assert Elems(bs) == Elems(bs[1..]) + {bs[0]};
    }
  }

  lemma ElemsTail(bs: seq<nat>, t: nat)
    requires t < |bs|
    ensures Elems(bs[t..]) - {bs[t]} <= Elems(bs[t + 1..])
  {
    assert bs[t..] == [bs[t]] + bs[t + 1..];
  }

  /** Buffers of distinct blocks are no more than their blocks. */
  lemma {:induction false} PinnedAtMost(p: set<nat>, bufs: seq<Buf>, s: set<nat>)
    requires Unique(bufs)
    requires forall i :: i in p ==> i < |bufs| && bufs[i].dev == ROOTDEV && bufs[i].blockno in s
    ensures |p| <= |s|
    decreases s
  {
    if p != {} {
      var i :| i in p;
      PinnedAtMost(p - {i}, bufs, s - {bufs[i].blockno});
    }
  }

  /** With at most LOGCAP blocks dirty and nothing held, bget finds a buffer. */
  lemma RoomForFirst(bufs: seq<Buf>, disk: Disk, view: Disk, s: set<nat>)
    requires Shows(bufs, disk, view) && Quiet(bufs) && DirtyIn(bufs, s) && |s| <= LOGCAP
    ensures !AllPinned(bufs)
  {
    forall i | i in Pinned(bufs) ensures bufs[i].dev == ROOTDEV && bufs[i].blockno in s {
      assert BufOk(bufs[i], disk, view);
    }
    PinnedAtMost(Pinned(bufs), bufs, s);
    FullyPinned(bufs);
  }

  /** With one more buffer held, bget still finds one for a block of s that is not cached. */
  lemma RoomForSecond(bufs: seq<Buf>, disk: Disk, view: Disk, s: set<nat>, held: nat, blockno: nat)
    requires Shows(bufs, disk, view) && DirtyIn(bufs, s) && |s| <= LOGCAP
    requires forall i :: 0 <= i < NBUF && i != held ==> bufs[i].refcnt == 0
    requires blockno in s && !Cached(bufs, blockno)
    ensures !AllPinned(bufs)
  {
    var p := Pinned(bufs) - {held};
    forall i | i in p ensures i < |bufs| && bufs[i].dev == ROOTDEV && bufs[i].blockno in s - {blockno} {
      DirtyElsewhere(bufs, disk, view, s, blockno, i);
    }
    hide BufOk, Cached, Pinned, AllPinned;
    PinnedAtMost(p, bufs, s - {blockno});
    OneMore(Pinned(bufs), held);
    NotAll(bufs);
  }

  lemma DirtyElsewhere(bufs: seq<Buf>, disk: Disk, view: Disk, s: set<nat>, blockno: nat, i: nat)
    requires Shows(bufs, disk, view) && DirtyIn(bufs, s) && !Cached(bufs, blockno)
    requires i < NBUF && bufs[i].refcnt == 0 && !Recyclable(bufs[i])
    ensures bufs[i].dev == ROOTDEV && bufs[i].blockno in s - {blockno}
  {
    assert BufOk(bufs[i], disk, view) && !Holds(bufs[i], blockno);
  }

  lemma OneMore(s: set<nat>, x: nat)
    ensures |s| <= |s - {x}| + 1
  {
    SubsetSize(s, s - {x} + {x});
  }

  lemma NotAll(bufs: seq<Buf>)
    requires |bufs| == NBUF && |Pinned(bufs)| < NBUF
    ensures !AllPinned(bufs)
  {
    FullyPinned(bufs);
  }

  /** When nothing is held, only blocks with a dirty buffer can differ from the disk. */
  lemma QuietView(bufs: seq<Buf>, disk: Disk, view: Disk, s: set<nat>, b: nat)
    requires Shows(bufs, disk, view) && Quiet(bufs) && DirtyIn(bufs, s)
    requires b < |disk| && b !in s
    ensures view[b] == disk[b]
  {
    if i :| 0 <= i < NBUF && Holds(bufs[i], b) { assert BufOk(bufs[i], disk, view); }
  }

  /** bread takes a reference on one buffer and pins nothing new. */
  lemma FetchedKeeps(bufs: seq<Buf>, disk: Disk, view: Disk, order: seq<nat>, blockno: nat, b: nat, bufs': seq<Buf>,
                     s: set<nat>)
    requires Shows(bufs, disk, view) && IsOrder(order) && blockno < |disk|
    requires Fetched(bufs, disk, order, blockno, b, bufs') && DirtyIn(bufs, s)
    ensures DirtyIn(bufs', s) && |bufs'| == NBUF && Holds(bufs'[b], blockno)
    ensures bufs'[b].refcnt == (if Holds(bufs[b], blockno) && Cached(bufs, blockno) then bufs[b].refcnt else 0) + 1
    ensures forall i :: 0 <= i < NBUF && i != b ==> bufs'[i] == bufs[i]
    ensures bufs[b].refcnt == 0 && !bufs'[b].dirty ==> bufs'[b].data == disk[blockno]
  {
    assert BufOk(bufs[b], disk, view);
  }

  lemma ApplyStep(d: Disk, ws: seq<Write>, t: nat)
    requires t < |ws|
    ensures Apply(d, ws[..t + 1]) == ApplyOne(Apply(d, ws[..t]), ws[t])
  {
    assert ws[..t + 1][..t] == ws[..t];
  }

  /** One more write of a sequence, on an image. */
  lemma OneMoreWrite(d0: Disk, ws: seq<Write>, t: nat, dst: nat, data: Block)
    requires t < |ws| && ws[t] == Write(dst, data) && dst < |d0|
    ensures Apply(d0, ws[..t])[dst := data] == Apply(d0, ws[..t + 1])
  {
    ApplyStep(d0, ws, t);
  }

  /** One more write of a sequence, on a history. */
  lemma OneMoreEntry(tr0: seq<Write>, ws: seq<Write>, t: nat, w: Write)
    requires t < |ws| && ws[t] == w
    ensures tr0 + ws[..t] + [w] == tr0 + ws[..t + 1]
  {}

  lemma Assoc<T>(a: seq<T>, b: seq<T>, c: seq<T>)
    ensures (a + b) + c == a + (b + c)
  {}

  /** In the middle of write_log the blocks still to be copied look as they did at the start. */
  lemma WriteLogSource(v0: Disk, start: nat, bs: seq<Uint>, t: nat)
    requires start + LOGSIZE <= |v0| && Homes(start, |v0|, bs) && t < |bs|
    ensures var ws := Installs(LogSlots(start, |bs|), Pick(v0, bs));
      Apply(v0, ws[..t])[bs[t]] == v0[bs[t]] && ws[t] == Write(start + t + 1, v0[bs[t]])
  {
    InstallPrefix(v0, LogSlots(start, |bs|), Pick(v0, bs), t);
    assert bs[t] !in LogSlots(start, |bs|);
  }

  /** In the middle of install_trans the log's data blocks still look as they did at the start. */
  lemma InstallSource(v0: Disk, start: nat, bs: seq<Uint>, t: nat)
    requires start + LOGSIZE <= |v0| && Homes(start, |v0|, bs) && t < |bs|
    ensures var ws := Installs(bs, LogData(v0, start, |bs|));
      Apply(v0, ws[..t])[start + t + 1] == v0[start + t + 1] && ws[t] == Write(bs[t], v0[start + t + 1])
  {
    assert start + t + 1 !in bs;
    InstallPrefix(v0, bs, LogData(v0, start, |bs|), t);
    hide Apply, Homes;
  }

  /** After the copy nothing is held, and the copied block is clean. */
  lemma TransferDone(bufs: seq<Buf>, from: nat, to: nat, s: set<nat>, bufs': seq<Buf>)
    requires |bufs| == NBUF && Unique(bufs) && DirtyIn(bufs, s) && from < NBUF && to < NBUF && from != to
    requires bufs[to].dev == ROOTDEV && forall i :: 0 <= i < NBUF && i != from && i != to ==> bufs[i].refcnt == 0
    requires forall i :: 0 <= i < NBUF && bufs[i].dirty ==> bufs[i].dev == ROOTDEV
    requires bufs' == bufs
      [to := bufs[to].(data := bufs[from].data, dirty := false, refcnt := 0)]
      [from := bufs[from].(refcnt := 0)]
    ensures Quiet(bufs') && DirtyIn(bufs', s - {bufs[to].blockno})
  {}

  class Log {
    const bc: BCache
    const start: nat           // log.start; log.size is LOGSIZE
    var outstanding: nat
    var committing: bool
    var lh: seq<Uint>          // log.lh.block[0..log.lh.n)

    constructor (bc: BCache, start: nat)
      ensures this.bc == bc && this.start == start && lh == [] && outstanding == 0 && !committing
    {
      this.bc := bc;
      this.start := start;
      lh := [];
      outstanding := 0;
      committing := false;
    }

    /** bread both blocks, memmove, bwrite the copy, brelse both: the step that write_log and
        install_trans repeat. The second block read is one of those that may be dirty. */
    method CopyBlock(src: nat, dst: nat, dstFirst: bool, ghost s: set<nat>)
      requires bc.Valid() && Quiet(bc.bufs) && DirtyIn(bc.bufs, s) && |s| <= LOGCAP
      requires src != dst && src < |bc.disk| && dst < |bc.disk|
      requires (if dstFirst then src else dst) in s
      modifies bc
      ensures bc.Valid() && Quiet(bc.bufs) && DirtyIn(bc.bufs, s - {dst})
      ensures bc.view == old(bc.view)[dst := old(bc.view)[src]]
      ensures bc.disk == old(bc.disk)[dst := old(bc.view)[src]]
      ensures bc.trace == old(bc.trace) + [Write(dst, old(bc.view)[src])]
    {
      var from, to;
      RoomForFirst(bc.bufs, bc.disk, bc.view, s);
      if dstFirst {
        to := ReadFirst(dst, s);
        from := ReadSecond(src, to, s);
      } else {
        from := ReadFirst(src, s);
        to := ReadSecond(dst, from, s);
      }
      Transfer(from, to, s);
    }

    /** The second half of CopyBlock, on the two buffers. */
    method Transfer(from: nat, to: nat, ghost s: set<nat>)
      requires bc.Valid() && DirtyIn(bc.bufs, s)
      requires from < NBUF && to < NBUF && from != to && bc.bufs[from].dev == bc.bufs[to].dev == ROOTDEV
      requires bc.bufs[from].refcnt == bc.bufs[to].refcnt == 1
      requires forall i :: 0 <= i < NBUF && i != from && i != to ==> bc.bufs[i].refcnt == 0
      requires bc.bufs[from].blockno < |bc.disk| && bc.bufs[to].blockno < |bc.disk|
      requires bc.bufs[from].blockno != bc.bufs[to].blockno
      requires !bc.bufs[from].dirty ==> bc.bufs[from].data == bc.disk[bc.bufs[from].blockno]
      modifies bc
      ensures bc.Valid() && Quiet(bc.bufs) && DirtyIn(bc.bufs, s - {old(bc.bufs)[to].blockno})
      ensures var dst, data := old(bc.bufs)[to].blockno, old(bc.bufs)[from].data;
        && bc.view == old(bc.view)[dst := data]
        && bc.disk == old(bc.disk)[dst := data]
        && bc.trace == old(bc.trace) + [Write(dst, data)]
    {
      ghost var was := bc.bufs;
      assert |was| == NBUF && Unique(was);
      hide DirtyIn, Quiet, Unique, Recency, Oldest, MoveToFront, Ring;
      Overwrite(from, to);
      bc.Brelse(from);
      bc.Brelse(to);
      TransferDone(was, from, to, s, bc.bufs);
    }

    /** memmove and bwrite. */
    method Overwrite(from: nat, to: nat)
      requires bc.Valid() && from < NBUF && to < NBUF && bc.bufs[to].dev == ROOTDEV && bc.bufs[to].refcnt > 0
      modifies bc`bufs, bc`disk, bc`trace, bc`view
      ensures bc.Valid() && bc.bufs[to].blockno < |bc.disk|
      ensures var dst, data := old(bc.bufs)[to].blockno, old(bc.bufs)[from].data;
        && dst < |old(bc.view)| && bc.view == old(bc.view)[dst := data]
        && dst < |old(bc.disk)| && bc.disk == old(bc.disk)[dst := data]
        && bc.trace == old(bc.trace) + [Write(dst, data)]
      ensures bc.bufs == old(bc.bufs)[to := old(bc.bufs)[to].(data := old(bc.bufs)[from].data, dirty := false)]
    {
      bc.SetData(to, bc.bufs[from].data);
      bc.Bwrite(to);
    }

    method ReadFirst(blockno: nat, ghost s: set<nat>) returns (r: nat)
      requires bc.Valid() && Quiet(bc.bufs) && DirtyIn(bc.bufs, s) && |s| <= LOGCAP && blockno < |bc.disk|
      modifies bc`bufs, bc`disk, bc`trace
      ensures bc.Valid() && bc.disk == old(bc.disk) && bc.trace == old(bc.trace) && DirtyIn(bc.bufs, s)
      ensures r < NBUF && Holds(bc.bufs[r], blockno) && bc.bufs[r].refcnt == 1 && bc.bufs[r].data == bc.view[blockno]
      ensures !bc.bufs[r].dirty ==> bc.bufs[r].data == bc.disk[blockno]
      ensures forall i :: 0 <= i < NBUF && i != r ==> bc.bufs[i].refcnt == 0
    {
      RoomForFirst(bc.bufs, bc.disk, bc.view, s);
      var b := bc.Bread(blockno);
      FetchedKeeps(old(bc.bufs), bc.disk, bc.view, bc.order, blockno, b, bc.bufs, s);
      r := b;
    }

    method ReadSecond(blockno: nat, held: nat, ghost s: set<nat>) returns (r: nat)
      requires bc.Valid() && DirtyIn(bc.bufs, s) && |s| <= LOGCAP && blockno < |bc.disk| && blockno in s
      requires held < NBUF && bc.bufs[held].dev == ROOTDEV && bc.bufs[held].blockno != blockno
      requires bc.bufs[held].refcnt == 1
      requires forall i :: 0 <= i < NBUF && i != held ==> bc.bufs[i].refcnt == 0
      modifies bc`bufs, bc`disk, bc`trace
      ensures bc.Valid() && bc.disk == old(bc.disk) && bc.trace == old(bc.trace) && DirtyIn(bc.bufs, s)
      ensures r < NBUF && r != held && Holds(bc.bufs[r], blockno) && bc.bufs[r].refcnt == 1
      ensures bc.bufs[r].data == bc.view[blockno]
      ensures !bc.bufs[r].dirty ==> bc.bufs[r].data == bc.disk[blockno]
      ensures bc.bufs[held] == old(bc.bufs)[held]
      ensures forall i :: 0 <= i < NBUF && i != r && i != held ==> bc.bufs[i].refcnt == 0
    {
      if !Cached(bc.bufs, blockno) { RoomForSecond(bc.bufs, bc.disk, bc.view, s, held, blockno); }
      var b := bc.Bread(blockno);
      FetchedKeeps(old(bc.bufs), bc.disk, bc.view, bc.order, blockno, b, bc.bufs, s);
      r := b;
    }

    // ----- commit and recovery -----

    /** The log region exists, logged blocks are homes, and only they can be dirty. */
    ghost predicate Shape()
      reads this, bc
    {
      && bc.Valid()
      && start + LOGSIZE <= |bc.disk| <= UINT_LIMIT
      && Homes(start, |bc.disk|, lh)
      && DirtyIn(bc.bufs, Elems(lh))
    }

    /** Shape, and no committed transaction waits in the on-disk log. */
    ghost predicate Valid()
      reads this, bc
    {
      Shape() && HeaderN(bc.disk[start]) == 0
    }

    /** The disk, what readers see and the disk's history are the given ones plus k of the writes ws. */
    ghost predicate Progress(d0: Disk, v0: Disk, tr0: seq<Write>, ws: seq<Write>, k: nat)
      requires k <= |ws|
      reads bc
    {
      bc.disk == Apply(d0, ws[..k]) && bc.view == Apply(v0, ws[..k]) && bc.trace == tr0 + ws[..k]
    }

    /** write_log: the logged blocks' visible contents go to the log's data blocks. */
    method WriteLog()
      requires Shape() && Quiet(bc.bufs)
      modifies bc
      ensures Shape() && Quiet(bc.bufs)
      ensures var ws := Installs(LogSlots(start, |lh|), Pick(old(bc.view), lh));
        && bc.disk == Apply(old(bc.disk), ws) && bc.view == Apply(old(bc.view), ws) && bc.trace == old(bc.trace) + ws
    {
      var tail := 0;
      ghost var d0, v0, tr0, n := bc.disk, bc.view, bc.trace, |lh|;
      ghost var ws := Installs(LogSlots(start, n), Pick(v0, lh));
      while tail < |lh|
        invariant 0 <= tail <= n
        invariant Shape() && Quiet(bc.bufs)
        invariant Progress(d0, v0, tr0, ws, tail)
      {
        WriteLogStep(tail, d0, v0, tr0);
        tail := tail + 1;
      }
      assert ws[..n] == ws;
    }

    method WriteLogStep(tail: nat, ghost d0: Disk, ghost v0: Disk, ghost tr0: seq<Write>)
      requires Shape() && Quiet(bc.bufs) && tail < |lh| <= LOGCAP
      requires |d0| == |v0| == |bc.disk| && start + LOGSIZE <= |v0|
      requires Progress(d0, v0, tr0, Installs(LogSlots(start, |lh|), Pick(v0, lh)), tail)
      modifies bc
      ensures Shape() && Quiet(bc.bufs)
      ensures Progress(d0, v0, tr0, Installs(LogSlots(start, |lh|), Pick(v0, lh)), tail + 1)
    {
      ghost var ws := Installs(LogSlots(start, |lh|), Pick(v0, lh));
      WriteLogSource(v0, start, lh, tail);
      OneMoreWrite(d0, ws, tail, start + tail + 1, v0[lh[tail]]);
      OneMoreWrite(v0, ws, tail, start + tail + 1, v0[lh[tail]]);
      OneMoreEntry(tr0, ws, tail, Write(start + tail + 1, v0[lh[tail]]));
      ElemsSize(lh);
      hide Installs, LogSlots, Apply, HeaderN;
      CopyBlock(lh[tail], start + tail + 1, true, Elems(lh));
    }

    /** write_head: the count and the block numbers go over the header block. */
    method WriteHead(ghost s: set<nat>)
      requires bc.Valid() && Quiet(bc.bufs) && DirtyIn(bc.bufs, s) && |s| <= LOGCAP
      requires start < |bc.disk| && |lh| <= LOGSIZE
      modifies bc
      ensures bc.Valid() && Quiet(bc.bufs) && DirtyIn(bc.bufs, s)
      ensures var h := PutHeader(old(bc.view)[start], lh);
        && bc.disk == old(bc.disk)[start := h]
        && bc.view == old(bc.view)[start := h]
        && bc.trace == old(bc.trace) + [Write(start, h)]
    {
      var b := ReadFirst(start, s);
      var h := SetWord(bc.bufs[b].data, 0, |lh|);
      var i := 0;
      while i < |lh|
        invariant 0 <= i <= |lh|
        invariant h == PutEntries(bc.bufs[b].data, lh, i)
      {
        h := SetWord(h, i + 1, lh[i]);
        i := i + 1;
      }
      ghost var was := bc.bufs;
      bc.SetData(b, h);
      bc.Bwrite(b);
      bc.Brelse(b);
      assert bc.bufs == was[b := was[b].(data := h, dirty := false, refcnt := 0)];
    }

    /** install_trans: the log's data blocks go to the home blocks. */
    method InstallTrans()
      requires Shape() && Quiet(bc.bufs)
      modifies bc
      ensures Shape() && Quiet(bc.bufs) && DirtyIn(bc.bufs, {})
      ensures var ws := Installs(lh, LogData(old(bc.view), start, |lh|));
        && bc.disk == Apply(old(bc.disk), ws) && bc.view == Apply(old(bc.view), ws) && bc.trace == old(bc.trace) + ws
    {
      var tail := 0;
      ghost var d0, v0, tr0, n := bc.disk, bc.view, bc.trace, |lh|;
      ghost var ws := Installs(lh, LogData(v0, start, n));
      assert lh[0..] == lh;
      while tail < |lh|
        invariant 0 <= tail <= n
        invariant Shape() && Quiet(bc.bufs) && DirtyIn(bc.bufs, Elems(lh[tail..]))
        invariant Progress(d0, v0, tr0, ws, tail)
      {
        InstallStep(tail, d0, v0, tr0);
        tail := tail + 1;
      }
      assert lh[n..] == [] && ws[..n] == ws;
    }

    method InstallStep(tail: nat, ghost d0: Disk, ghost v0: Disk, ghost tr0: seq<Write>)
      requires Shape() && Quiet(bc.bufs) && tail < |lh| <= LOGCAP
      requires |d0| == |v0| == |bc.disk| && start + LOGSIZE <= |v0|
      requires DirtyIn(bc.bufs, Elems(lh[tail..]))
      requires Progress(d0, v0, tr0, Installs(lh, LogData(v0, start, |lh|)), tail)
      modifies bc
      ensures Shape() && Quiet(bc.bufs) && DirtyIn(bc.bufs, Elems(lh[tail + 1..]))
      ensures Progress(d0, v0, tr0, Installs(lh, LogData(v0, start, |lh|)), tail + 1)
    {
      ghost var ws := Installs(lh, LogData(v0, start, |lh|));
      InstallSource(v0, start, lh, tail);
      OneMoreWrite(d0, ws, tail, lh[tail], v0[start + tail + 1]);
      OneMoreWrite(v0, ws, tail, lh[tail], v0[start + tail + 1]);
      OneMoreEntry(tr0, ws, tail, Write(lh[tail], v0[start + tail + 1]));
      ElemsSize(lh[tail..]);
      ElemsTail(lh, tail);
      CopyBlock(start + tail + 1, lh[tail], false, Elems(lh[tail..]));
    }

    /** commit: exactly the writes of CommitWrites, in that order, reach the disk. With nothing else
        held it never runs out of buffers. Afterwards the log is empty in memory and on disk, and the
        disk shows what readers saw before. */
    method Commit()
      requires Valid() && Quiet(bc.bufs)
      modifies this`lh, bc
      ensures Valid() && Quiet(bc.bufs) && lh == []
      ensures bc.view == bc.disk && SameHome(bc.disk, old(bc.view), start)
      ensures old(lh) == [] ==> bc.trace == old(bc.trace) && bc.disk == old(bc.disk)
      ensures old(lh) != [] ==>
        var ws := CommitWrites(start, old(lh), old(bc.view));
        bc.trace == old(bc.trace) + ws && bc.disk == Apply(old(bc.disk), ws)
      ensures ReadyToCommit(old(bc.disk), start, old(lh), old(bc.view))
    {
      QuietIsReady();
      CommitIsComplete(bc.disk, start, lh, bc.view);
      if |lh| > 0 {
        CommitSteps();
      }
      QuietIsReady();
      assert bc.view == bc.disk;
    }

    lemma QuietIsReady()
      requires Shape() && Quiet(bc.bufs)
      ensures HeaderN(bc.disk[start]) == 0 ==> ReadyToCommit(bc.disk, start, lh, bc.view)
      ensures forall b :: 0 <= b < |bc.disk| && b !in lh ==> bc.view[b] == bc.disk[b]
      ensures |bc.view| == |bc.disk|
    {
      forall b | 0 <= b < |bc.disk| && b !in lh ensures bc.view[b] == bc.disk[b] {
        QuietView(bc.bufs, bc.disk, bc.view, Elems(lh), b);
      }
    }

    method CommitSteps()
      requires Shape() && Quiet(bc.bufs)
      modifies this`lh, bc
      ensures Shape() && Quiet(bc.bufs) && lh == []
      ensures var ws := CommitWrites(start, old(lh), old(bc.view));
        && bc.disk == Apply(old(bc.disk), ws)
        && bc.trace == old(bc.trace) + ws
    {
      ghost var bs, d0, v0, n := lh, bc.disk, bc.view, |lh|;
      CommitChain(d0, v0, start, bs);
      CommitTrace(bc.trace, v0, start, bs);
      WriteLog();
      ElemsSize(lh);
      WriteHead(Elems(lh));
      InstallTrans();
      lh := [];
      WriteHead({});
    }

    /** recover_from_log: exactly the writes of RecoverWrites reach the disk. */
    method RecoverFromLog()
      requires bc.Valid() && Quiet(bc.bufs) && DirtyIn(bc.bufs, {})
      requires LogImage(bc.disk, start) && |bc.disk| <= UINT_LIMIT
      modifies this`lh, bc
      ensures Valid() && Quiet(bc.bufs) && lh == []
      ensures bc.trace == old(bc.trace) + RecoverWrites(old(bc.disk), start)
      ensures bc.disk == Recover(old(bc.disk), start) && bc.view == bc.disk
    {
      CleanViewIsDisk(bc.bufs, bc.disk, bc.view);
      ghost var d0 := bc.disk;
      ReadHead();
      RecoverEffect(d0, start);
      RecoverChain(d0, start);
      assert bc.trace + RecoverWrites(d0, start) == bc.trace + Installs(lh, LogData(d0, start, |lh|))
        + [Write(start, PutHeader(d0[start], []))];
      InstallTrans();
      lh := [];
      WriteHead({});
      CleanViewIsDisk(bc.bufs, bc.disk, bc.view);
    }

    /** read_head: the in-memory header becomes the one on disk. */
    method ReadHead()
      requires bc.Valid() && Quiet(bc.bufs) && DirtyIn(bc.bufs, {}) && bc.view == bc.disk
      requires start < |bc.disk| && HeaderN(bc.disk[start]) <= LOGSIZE
      modifies this`lh, bc
      ensures bc.Valid() && Quiet(bc.bufs) && DirtyIn(bc.bufs, {})
      ensures bc.disk == old(bc.disk) && bc.view == old(bc.view) && bc.trace == old(bc.trace)
      ensures lh == ReadHeader(bc.disk[start])
    {
      var b := ReadFirst(start, {});
      ghost var was := bc.bufs;
      var h := bc.bufs[b].data;
      var n := HeaderN(h);
      var i := 0;
      lh := [];
      while i < n
        invariant 0 <= i && (i <= n || (n < 0 && i == 0))
        invariant |lh| == i && forall k :: 0 <= k < i ==> lh[k] == Word(h, k + 1)
        invariant bc.bufs == was && unchanged(bc`disk, bc`view, bc`trace) && bc.Valid()
      {
        lh := lh + [Word(h, i + 1)];
        i := i + 1;
      }
      bc.Brelse(b);
      assert bc.bufs == was[b := was[b].(refcnt := 0)];
    }

    // ----- the operations -----

    ghost function State(): G.LogState
      reads this
    {
      G.LogState(outstanding, committing, lh)
    }

    /** One turn of the loop in begin_op; false means that the caller goes to sleep. */
    method BeginOp() returns (ok: bool)
      modifies this`outstanding
      ensures match G.BeginOp(old(State()))
              case Done(s) => ok && State() == s
              case _ => !ok && State() == old(State())
    {
      if committing {
        return false;
      } else if |lh| + (outstanding + 1) * MAXOPBLOCKS > LOGSIZE {
        return false;
      } else {
        outstanding := outstanding + 1;
        return true;
      }
    }

    /** log_write on a held buffer; false is the panic. The buffer is pinned and its block logged once. */
    method LogWrite(b: nat) returns (ok: bool)
      requires Valid() && b < NBUF && bc.bufs[b].dev == ROOTDEV && bc.bufs[b].refcnt > 0
      requires bc.bufs[b].blockno < |bc.disk| && !InLog(start, bc.bufs[b].blockno)
      modifies this`lh, bc`bufs
      ensures match G.LogWrite(old(State()), old(bc.bufs)[b].blockno)
              case Done(s) => ok && State() == s && bc.bufs == old(bc.bufs)[b := old(bc.bufs)[b].(dirty := true)]
              case _ => !ok && State() == old(State()) && bc.bufs == old(bc.bufs)
      ensures Valid()
    {
      if |lh| >= LOGSIZE || |lh| >= LOGSIZE - 1 {
        return false;
      }
      if outstanding < 1 {
        return false;
      }
      var blockno := bc.bufs[b].blockno;
      var i := 0;
      while i < |lh|
        invariant 0 <= i <= |lh| && blockno !in lh[..i]
      {
        if lh[i] == blockno { break; }
        i := i + 1;
      }
      assert blockno in lh <==> i < |lh|;
      lh := if i == |lh| then lh + [blockno] else lh[i := blockno];
      bc.Pin(b);
      return true;
    }

    /** end_op; false is the panic. The last operation out commits: then the disk shows what readers
        saw, and the log is empty again. */
    method EndOp() returns (ok: bool)
      requires Valid() && outstanding >= 1
      requires outstanding == 1 ==> Quiet(bc.bufs)
      modifies this`outstanding, this`committing, this`lh, bc
      ensures G.EndOp(old(State())).Panic? ==> !ok
      ensures G.EndOp(old(State())).Done? ==>
        var s := G.EndOp(old(State())).state;
        && ok && Valid()
        && State() == (if s.committing then G.CommitDone(s) else s)
        && (if s.committing then bc.view == bc.disk && SameHome(bc.disk, old(bc.view), start)
            else bc.disk == old(bc.disk) && bc.view == old(bc.view))
    {
      outstanding := outstanding - 1;
      if committing {
        return false;
      }
      if outstanding == 0 {
        committing := true;
        Commit();
        committing := false;
      }
      return true;
    }
  }

  lemma RecoverChain(d: Disk, start: nat)
    requires LogImage(d, start)
    ensures
      var bs := ReadHeader(d[start]);
      var e := Apply(d, Installs(bs, LogData(d, start, |bs|)));
      && e[start] == d[start]
      && e[start := PutHeader(d[start], [])] == Recover(d, start)
  {
    var bs := ReadHeader(d[start]);
    var ws := Installs(bs, LogData(d, start, |bs|));
    InstallPrefix(d, bs, LogData(d, start, |bs|), |bs|);
    assert ws[..|bs|] == ws;
    assert start !in bs;
    hide Installs, LogData, ReadHeader, PutHeader, Homes, Apply;
    LastWrite(d, ws, start, PutHeader(d[start], []));
  }

  lemma LastWrite(d: Disk, ws: seq<Write>, b: nat, data: Block)
    requires b < |d|
    ensures Apply(d, ws + [Write(b, data)]) == Apply(d, ws)[b := data]
  {
    var one := [Write(b, data)];
    ApplyConcat(d, ws, one);
    assert one[..0] == [];
  }

  /** The three states between the phases of a commit, as what readers see (v) and on disk (d). */
  lemma CommitChain(d0: Disk, v0: Disk, start: nat, bs: seq<Uint>)
    requires |d0| == |v0| && start + LOGSIZE <= |v0| && Homes(start, |v0|, bs)
    ensures
      var n := |bs|;
      var w1 := Installs(LogSlots(start, n), Pick(v0, bs));
      var h := PutHeader(v0[start], bs);
      var v1, d1 := Apply(v0, w1), Apply(d0, w1);
      var v2, d2 := v1[start := h], d1[start := h];
      var w3 := Installs(bs, LogData(v2, start, n));
      var v3, d3 := Apply(v2, w3), Apply(d2, w3);
      && v1[start] == v0[start] && w3 == Installs(bs, Pick(v0, bs)) && v3[start] == h
      && d3[start := PutHeader(h, [])] == Apply(d0, CommitWrites(start, bs, v0))
  {
    var n := |bs|;
    var slots := LogSlots(start, n);
    var w1 := Installs(slots, Pick(v0, bs));
    var h := PutHeader(v0[start], bs);
    InstallPrefix(v0, slots, Pick(v0, bs), n);
    assert w1[..n] == w1 && start !in slots;
    var v1 := Apply(v0, w1);
    var v2 := v1[start := h];
    LogHoldsPick(v0, v1, h, start, bs);
    var w3 := Installs(bs, Pick(v0, bs));
    assert w3[..n] == w3;
    InstallPrefix(v2, bs, Pick(v0, bs), n);
    Chain(d0, w1, [Write(start, h)], w3, [Write(start, PutHeader(h, []))]);
  }

  lemma LogHoldsPick(v0: Disk, v1: Disk, h: Block, start: nat, bs: seq<Uint>)
    requires |v0| == |v1| && start + LOGSIZE <= |v0| && Homes(start, |v0|, bs)
    requires forall t :: 0 <= t < |bs| ==> v1[LogSlots(start, |bs|)[t]] == Pick(v0, bs)[t]
    ensures LogData(v1[start := h], start, |bs|) == Pick(v0, bs)
  {
    forall t | 0 <= t < |bs| ensures LogData(v1[start := h], start, |bs|)[t] == Pick(v0, bs)[t] {
      assert LogSlots(start, |bs|)[t] == start + 1 + t;
    }
  }

  lemma CommitTrace(tr: seq<Write>, v0: Disk, start: nat, bs: seq<Uint>)
    requires start + LOGSIZE <= |v0| && Homes(start, |v0|, bs)
    ensures
      var w1 := Installs(LogSlots(start, |bs|), Pick(v0, bs));
      var w3 := Installs(bs, Pick(v0, bs));
      var h := PutHeader(v0[start], bs);
      tr + w1 + [Write(start, h)] + w3 + [Write(start, PutHeader(h, []))] == tr + CommitWrites(start, bs, v0)
  {
    var w1 := Installs(LogSlots(start, |bs|), Pick(v0, bs));
    var w3 := Installs(bs, Pick(v0, bs));
    var h := PutHeader(v0[start], bs);
    Assoc(tr + w1 + [Write(start, h)], w3, [Write(start, PutHeader(h, []))]);
    Assoc(tr + w1, [Write(start, h)], w3 + [Write(start, PutHeader(h, []))]);
    Assoc(tr, w1, [Write(start, h)] + (w3 + [Write(start, PutHeader(h, []))]));
    assert CommitWrites(start, bs, v0) == w1 + ([Write(start, h)] + (w3 + [Write(start, PutHeader(h, []))]));
  }

  /** Four batches of writes, two of them single ones. */
  lemma Chain(d: Disk, w1: seq<Write>, w2: seq<Write>, w3: seq<Write>, w4: seq<Write>)
    requires |w2| == |w4| == 1
    ensures Apply(d, w1 + w2 + w3 + w4) == ApplyOne(Apply(ApplyOne(Apply(d, w1), w2[0]), w3), w4[0])
  {
    ApplyConcat(d, w1 + w2 + w3, w4);
    ApplyConcat(d, w1 + w2, w3);
    ApplyConcat(d, w1, w2);
    assert w2[..0] == [] && w4[..0] == [];
  }

  lemma CommitIsComplete(d: Disk, start: nat, bs: seq<Uint>, view: Disk)
    requires ReadyToCommit(d, start, bs, view)
    ensures var e := Apply(d, CommitWrites(start, bs, view)); HeaderN(e[start]) == 0 && SameHome(e, view, start)
  {
    var ws := CommitWrites(start, bs, view);
    CommitParts(start, bs, view, 0);
    assert ws[..2 * |bs| + 2] == ws;
    CommitComplete(d, start, bs, view);
  }
}
