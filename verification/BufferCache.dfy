/** The buffer cache (bio.c) over the memory disk (memide.c).

    The kernel's static array of buffers is a sequence of records, and the prev/next pointers of
    the LRU list are indices into it, with NBUF standing for the list head. */
module BufferCache {
  import opened Sets
  import opened Blocks

  const NBUF: nat := 30      // param.h: MAXOPBLOCKS * 3
  const HEAD: nat := NBUF    // index of bcache.head
  const ROOTDEV: nat := 1

  /** struct buf, without its sleep lock and its list pointers. */
  datatype Buf = Buf(dev: nat, blockno: nat, valid: bool, dirty: bool, refcnt: nat, data: Block)

  /** b->dev == dev && b->blockno == blockno, for the one device there is. */
  predicate Holds(b: Buf, blockno: nat) {
    b.dev == ROOTDEV && b.blockno == blockno
  }

  predicate Recyclable(b: Buf) {
    b.refcnt == 0 && !b.dirty
  }

  // ----- the doubly linked LRU list -----

  /** The whole circle, from the head through the buffers in list order back to the head. */
  function Circle(order: seq<nat>): seq<nat> {
    [HEAD] + order + [HEAD]
  }

  ghost predicate InRange(c: seq<nat>) {
    forall k :: 0 <= k < |c| ==> c[k] <= NBUF
  }

  /** next and prev follow the given sequence in both directions. */
  ghost predicate Linked(c: seq<nat>, prev: seq<nat>, next: seq<nat>)
    requires |prev| == |next| == NBUF + 1 && InRange(c)
  {
    forall i, j {:trigger c[i], c[j]} :: 0 <= i < j < |c| && j == i + 1 ==> next[c[i]] == c[j] && prev[c[j]] == c[i]
  }

  ghost predicate Distinct(s: seq<nat>) {
    forall i, j :: 0 <= i < j < |s| ==> s[i] != s[j]
  }

  /** The list holds every buffer exactly once. */
  ghost predicate IsOrder(order: seq<nat>) {
    && |order| == NBUF
    && Distinct(order)
    && (forall k :: 0 <= k < NBUF ==> order[k] < NBUF)
    && (forall x :: 0 <= x < NBUF ==> x in order)
  }

  ghost predicate Ring(order: seq<nat>, prev: seq<nat>, next: seq<nat>) {
    && |prev| == |next| == NBUF + 1
    && IsOrder(order)
    && InRange(Circle(order))
    && Linked(Circle(order), prev, next)
  }

  /** prev and next are inverses of each other on the head and all buffers. */
  lemma RingInverse(order: seq<nat>, prev: seq<nat>, next: seq<nat>, x: nat)
    requires Ring(order, prev, next) && x <= NBUF
    ensures next[x] <= NBUF && prev[x] <= NBUF && prev[next[x]] == x && next[prev[x]] == x
  {
    var c := Circle(order);
    if x == HEAD {
      assert c[0] == HEAD && c[NBUF + 1] == HEAD;
      assert next[c[0]] == c[1] && prev[c[NBUF + 1]] == c[NBUF];
    } else {
      assert x in order;
      var k :| 0 <= k < |order| && order[k] == x;
      assert c[k + 1] == x;
      assert next[c[k + 1]] == c[k + 2] && prev[c[k + 1]] == c[k];
    }
  }

  /** order with its k-th buffer moved to the front. */
  function MoveToFront(order: seq<nat>, k: nat): (r: seq<nat>)
    requires k < |order|
  {
    [order[k]] + order[..k] + order[k + 1..]
  }

  lemma MoveToFrontIsOrder(order: seq<nat>, k: nat)
    requires IsOrder(order) && k < NBUF
    ensures IsOrder(MoveToFront(order, k))
  {
    var r := MoveToFront(order, k);
    forall x | 0 <= x < NBUF ensures x in r {
      assert x in order;
      var i :| 0 <= i < NBUF && order[i] == x;
      assert r[if i == k then 0 else if i < k then i + 1 else i] == x;
    }
  }

  // ----- the order means recency -----

  /** When x was last released in this history of releases; -1 for never. */
  function LastIn(released: seq<nat>, x: nat): (t: int)
    ensures -1 <= t < |released|
  {
    var n := |released|;
    if n == 0 then -1 else if released[n - 1] == x then n - 1 else LastIn(released[..n - 1], x)
  }

  /** Nobody in the list was released before anybody behind it. */
  ghost predicate Recency(order: seq<nat>, released: seq<nat>) {
    forall i, j :: 0 <= i < j < |order| ==> LastIn(released, order[i]) >= LastIn(released, order[j])
  }

  lemma RecencyMoved(order: seq<nat>, released: seq<nat>, k: nat)
    requires Distinct(order) && Recency(order, released) && k < |order|
    ensures Recency(MoveToFront(order, k), released + [order[k]])
  {
    var r, after := MoveToFront(order, k), released + [order[k]];
    forall j | 0 <= j < |order|
      ensures LastIn(after, order[j]) == if j == k then |released| else LastIn(released, order[j])
    {
      assert after[..|after| - 1] == released;
    }
    assert forall j :: 0 <= j < |r| ==> r[j] == order[if j == 0 then k else if j <= k then j - 1 else j];
  }

  /** No buffer that can be recycled was released before this one. */
  ghost predicate Oldest(bufs: seq<Buf>, released: seq<nat>, b: nat)
    requires |bufs| == NBUF
  {
    forall x :: 0 <= x < NBUF && Recyclable(bufs[x]) ==> LastIn(released, b) <= LastIn(released, x)
  }

  lemma OldestIs(bufs: seq<Buf>, order: seq<nat>, released: seq<nat>, b: nat)
    requires |bufs| == NBUF && IsOrder(order) && Recency(order, released) && LeastRecent(bufs, order, b)
    ensures Oldest(bufs, released, b)
  {
    forall x | 0 <= x < NBUF && Recyclable(bufs[x]) ensures LastIn(released, b) <= LastIn(released, x) {
      assert x in order;
    }
  }

  /** prev and next with b taken out: its neighbours are joined. */
  function UnlinkPrev(b: nat, prev: seq<nat>, next: seq<nat>): seq<nat>
    requires b < |prev| && b < |next| && next[b] < |prev|
  {
    prev[next[b] := prev[b]]
  }

  function UnlinkNext(b: nat, prev: seq<nat>, next: seq<nat>): seq<nat>
    requires b < |prev| && b < |next| && prev[b] < |next|
  {
    next[prev[b] := next[b]]
  }

  lemma {:induction false} LinkedAfterUnlink(order: seq<nat>, prev: seq<nat>, next: seq<nat>, k: nat)
    requires Ring(order, prev, next) && k < NBUF
    ensures var b := order[k];
      && next[b] <= NBUF && prev[b] <= NBUF && next[b] != b
      && InRange(Circle(order[..k] + order[k + 1..]))
      && Linked(Circle(order[..k] + order[k + 1..]), UnlinkPrev(b, prev, next), UnlinkNext(b, prev, next))
  {
    var c := Circle(order);
    var b := order[k];
    var rest := Circle(order[..k] + order[k + 1..]);
    assert c[k + 1] == b;
    assert next[c[k + 1]] == c[k + 2] && prev[c[k + 1]] == c[k];
    CirclePosition(order, k + 1, k + 2);
    forall j | 0 <= j < NBUF + 1 ensures rest[j] == c[if j <= k then j else j + 1] {}
    var prev' := UnlinkPrev(b, prev, next);
    var next' := UnlinkNext(b, prev, next);
    forall j | 0 <= j < NBUF ensures next'[rest[j]] == rest[j + 1] {
      if j != k { CirclePosition(order, if j <= k then j else j + 1, k); }
    }
    forall j | 0 < j <= NBUF ensures prev'[rest[j]] == rest[j - 1] {
      if j != k + 1 { CirclePosition(order, if j <= k then j else j + 1, k + 2); }
    }
  }

  /** Positions 0 and NBUF + 1 of the circle are both the head; all other positions differ. */
  lemma CirclePosition(order: seq<nat>, i: nat, j: nat)
    requires IsOrder(order) && i < NBUF + 2 && j < NBUF + 2
    ensures Circle(order)[i] == Circle(order)[j] ==> i == j || (i == 0 && j == NBUF + 1) || (i == NBUF + 1 && j == 0)
  {
  }

  lemma WithoutKth(order: seq<nat>, k: nat)
    requires IsOrder(order) && k < NBUF
    ensures var rest := order[..k] + order[k + 1..];
      && Distinct(rest) && (forall j :: 0 <= j < |rest| ==> rest[j] < NBUF && rest[j] != order[k])
      && MoveToFront(order, k) == [order[k]] + rest
  {
    var rest := order[..k] + order[k + 1..];
    forall j | 0 <= j < |rest| ensures rest[j] == order[if j < k then j else j + 1] {}
  }

  /** The pointers after inserting b behind the head. */
  lemma LinkedAfterInsert(rest: seq<nat>, prev: seq<nat>, next: seq<nat>, b: nat)
    requires |prev| == |next| == NBUF + 1 && b < NBUF
    requires Distinct(rest) && forall k :: 0 <= k < |rest| ==> rest[k] < NBUF && rest[k] != b
    requires InRange(Circle(rest)) && Linked(Circle(rest), prev, next)
    ensures next[HEAD] <= NBUF && InRange(Circle([b] + rest))
    ensures var first := next[HEAD];
      Linked(Circle([b] + rest), prev[b := HEAD][first := b], next[b := first][HEAD := b])
  {
    var c := Circle(rest);
    var c' := Circle([b] + rest);
    assert next[c[0]] == c[1];
    var first := next[HEAD];
    var prev' := prev[b := HEAD][first := b];
    var next' := next[b := first][HEAD := b];
    forall j | 2 <= j < |c'| ensures c'[j] == c[j - 1] {}
    forall j | 0 <= j < |c'| - 1 ensures next'[c'[j]] == c'[j + 1] {
      if j >= 2 { assert next[c[j - 1]] == c[j]; }
    }
    forall j | 0 < j < |c'| ensures prev'[c'[j]] == c'[j - 1] {
      if j > 2 { assert prev[c[j - 1]] == c[j - 2]; assert c[j - 1] != c[1]; }
    }
  }

  // ----- what the file system sees -----

  /** Each block of the device is in at most one buffer. */
  ghost predicate Unique(bufs: seq<Buf>) {
    forall i, j :: (
      && 0 <= i < |bufs| && 0 <= j < |bufs|
      && bufs[i].dev != 0 && bufs[i].dev == bufs[j].dev && bufs[i].blockno == bufs[j].blockno) ==> i == j
  }

  /** A buffer on its own: unused ones are empty, the others hold the visible contents of their
      block, and one that could be recycled agrees with the disk. */
  ghost predicate BufOk(b: Buf, disk: Disk, view: Disk)
    requires |view| == |disk|
  {
    && (b.dev == 0 || b.dev == ROOTDEV)
    && (b.dev == 0 ==> !b.valid && !b.dirty && b.refcnt == 0)
    && (b.dev == ROOTDEV ==> b.blockno < |disk| && b.valid && b.data == view[b.blockno])
    && (b.dev == ROOTDEV && Recyclable(b) ==> b.data == disk[b.blockno])
  }

  ghost predicate Cached(bufs: seq<Buf>, blockno: nat) {
    exists i :: 0 <= i < |bufs| && Holds(bufs[i], blockno)
  }

  /** The cache shows the given block contents: its own copy of every block it holds, and what is
      on disk for the rest. */
  ghost predicate Shows(bufs: seq<Buf>, disk: Disk, view: Disk) {
    && |bufs| == NBUF && |view| == |disk|
    && Unique(bufs)
    && (forall i :: 0 <= i < NBUF ==> BufOk(bufs[i], disk, view))
    && (forall n :: 0 <= n < |disk| ==> view[n] == disk[n] || Cached(bufs, n))
  }

  /** A cache and a disk show one content only. */
  lemma ShowsOneView(bufs: seq<Buf>, disk: Disk, v: Disk, w: Disk)
    requires Shows(bufs, disk, v) && Shows(bufs, disk, w)
    ensures v == w
  {
    forall n | 0 <= n < |disk| ensures v[n] == w[n] {
      if i :| 0 <= i < NBUF && Holds(bufs[i], n) {
        assert BufOk(bufs[i], disk, v) && BufOk(bufs[i], disk, w);
      }
    }
  }

  /** With no dirty and no referenced buffer, what is seen is what is on disk. */
  lemma CleanViewIsDisk(bufs: seq<Buf>, disk: Disk, view: Disk)
    requires Shows(bufs, disk, view)
    requires forall i :: 0 <= i < NBUF ==> Recyclable(bufs[i])
    ensures view == disk
  {
    forall n | 0 <= n < |disk| ensures view[n] == disk[n] {
      if i :| 0 <= i < NBUF && Holds(bufs[i], n) {
        assert BufOk(bufs[i], disk, view);
      }
    }
  }

  /** Replacing slot i by another copy of the same block: the new data is seen, the rest is as it was. */
  lemma ShowsAfterData(bufs: seq<Buf>, disk: Disk, view: Disk, i: nat, b: Buf)
    requires Shows(bufs, disk, view) && i < NBUF && bufs[i].dev == ROOTDEV
    requires b.dev == ROOTDEV && b.blockno == bufs[i].blockno && b.valid
    requires Recyclable(b) ==> b.data == disk[b.blockno]
    ensures Shows(bufs[i := b], disk, view[b.blockno := b.data])
  {
    var bufs' := bufs[i := b];
    var view' := view[b.blockno := b.data];
    assert BufOk(bufs[i], disk, view);
    forall n | 0 <= n < |disk| ensures view'[n] == disk[n] || Cached(bufs', n) {
      if n == b.blockno { assert Holds(bufs'[i], n); }
      else if k :| 0 <= k < NBUF && Holds(bufs[k], n) { assert Holds(bufs'[k], n); }
    }
    forall k | 0 <= k < NBUF ensures BufOk(bufs'[k], disk, view') { assert BufOk(bufs[k], disk, view); }
  }

  /** Recycling a clean unreferenced buffer for an uncached block, and filling it from disk, leaves
      the visible contents of every block as they were: eviction loses nothing. */
  lemma ShowsAfterRecycle(bufs: seq<Buf>, disk: Disk, view: Disk, i: nat, b: Buf)
    requires Shows(bufs, disk, view) && i < NBUF && Recyclable(bufs[i])
    requires b.dev == ROOTDEV && b.blockno < |disk| && b.valid && b.data == disk[b.blockno]
    requires !Cached(bufs, b.blockno)
    ensures Shows(bufs[i := b], disk, view)
  {
    var bufs' := bufs[i := b];
    assert forall k :: 0 <= k < NBUF ==> !Holds(bufs[k], b.blockno);
    forall n | 0 <= n < |disk| ensures view[n] == disk[n] || Cached(bufs', n) {
      if k :| 0 <= k < NBUF && Holds(bufs[k], n) {
        assert BufOk(bufs[k], disk, view);
        assert k != i ==> Holds(bufs'[k], n);
      }
    }
  }

  /** Writing a buffer through to the disk changes nothing that a reader can see. */
  lemma ShowsAfterWriteThrough(bufs: seq<Buf>, disk: Disk, view: Disk, i: nat, b: Buf)
    requires Shows(bufs, disk, view) && i < NBUF && bufs[i].dev == ROOTDEV
    requires b == bufs[i].(dirty := false)
    ensures b.blockno < |disk| && Shows(bufs[i := b], disk[b.blockno := b.data], view)
  {
    assert BufOk(bufs[i], disk, view);
    var bufs' := bufs[i := b];
    var disk' := disk[b.blockno := b.data];
    forall k | 0 <= k < NBUF ensures BufOk(bufs'[k], disk', view) { assert BufOk(bufs[k], disk, view); }
    forall n | 0 <= n < |disk| ensures view[n] == disk'[n] || Cached(bufs', n) {
      if k :| 0 <= k < NBUF && Holds(bufs[k], n) { assert Holds(bufs'[k], n); }
    }
  }

  // ----- pinned buffers -----

  /** The numbers below n. */
  function Below(n: nat): (s: set<nat>)
    ensures |s| == n
    ensures forall i :: i in s <==> 0 <= i < n
  {
    if n == 0 then {} else Below(n - 1) + {n - 1}
  }

  /** Indices of the buffers that cannot be recycled. */
  function Pinned(bufs: seq<Buf>): set<nat> {
    set i | i in Below(|bufs|) && !Recyclable(bufs[i])
  }

  ghost predicate AllPinned(bufs: seq<Buf>) {
    forall i :: 0 <= i < |bufs| ==> !Recyclable(bufs[i])
  }

  /** There is no buffer to recycle exactly when all of them are pinned. */
  lemma FullyPinned(bufs: seq<Buf>)
    requires |bufs| == NBUF
    ensures |Pinned(bufs)| == NBUF <==> AllPinned(bufs)
  {
    SubsetSize(Pinned(bufs), Below(|bufs|));
    if AllPinned(bufs) {
      assert Pinned(bufs) == Below(|bufs|);
    } else {
      var i :| 0 <= i < |bufs| && Recyclable(bufs[i]);
      assert i in Below(|bufs|) && i !in Pinned(bufs);
    }
  }

  /** b is the recyclable buffer that was released longest ago. */
  ghost predicate LeastRecent(bufs: seq<Buf>, order: seq<nat>, b: nat)
    requires |bufs| == NBUF && IsOrder(order)
  {
    && b < NBUF && Recyclable(bufs[b])
    && exists k :: 0 <= k < NBUF && order[k] == b && forall j :: k < j < NBUF ==> !Recyclable(bufs[order[j]])
  }

  /** What one bget does to the buffers: a hit takes one more reference, a miss takes over the least
      recently released buffer that can be recycled. */
  ghost predicate Got(bufs: seq<Buf>, order: seq<nat>, blockno: nat, b: nat, bufs': seq<Buf>)
    requires |bufs| == NBUF && IsOrder(order)
  {
    && b < NBUF
    && if Cached(bufs, blockno) then
         Holds(bufs[b], blockno) && bufs' == bufs[b := bufs[b].(refcnt := bufs[b].refcnt + 1)]
       else
         LeastRecent(bufs, order, b) && bufs' == bufs[b := Buf(ROOTDEV, blockno, false, false, 1, bufs[b].data)]
  }

  /** What one bread does to the buffers: as bget, and a recycled buffer is filled from the disk. */
  ghost predicate Fetched(bufs: seq<Buf>, disk: Disk, order: seq<nat>, blockno: nat, b: nat, bufs': seq<Buf>)
    requires |bufs| == NBUF && IsOrder(order) && blockno < |disk|
  {
    && b < NBUF
    && if Cached(bufs, blockno) then
         Holds(bufs[b], blockno) && bufs' == bufs[b := bufs[b].(refcnt := bufs[b].refcnt + 1)]
       else
         LeastRecent(bufs, order, b) && bufs' == bufs[b := Buf(ROOTDEV, blockno, true, false, 1, disk[blockno])]
  }

  /** After a bget that missed, filling the buffer from disk leaves everything visible as it was;
      after one that hit, the buffer already shows the block. */
  lemma GotStep(bufs: seq<Buf>, disk: Disk, view: Disk, order: seq<nat>, blockno: nat, b: nat, bufs': seq<Buf>)
    requires Shows(bufs, disk, view) && IsOrder(order) && Got(bufs, order, blockno, b, bufs') && blockno < |disk|
    ensures Cached(bufs, blockno) ==>
      bufs'[b].valid && Fetched(bufs, disk, order, blockno, b, bufs') && Shows(bufs', disk, view)
    ensures !Cached(bufs, blockno) ==>
      var full := bufs'[b := bufs'[b].(data := disk[blockno], valid := true)];
      !bufs'[b].valid && !bufs'[b].dirty && Fetched(bufs, disk, order, blockno, b, full) && Shows(full, disk, view)
    ensures bufs'[b].dev == ROOTDEV && bufs'[b].blockno == blockno
  {
    assert BufOk(bufs[b], disk, view);
    if Cached(bufs, blockno) {
      assert view == view[blockno := bufs'[b].data] && bufs' == bufs[b := bufs'[b]];
      ShowsAfterData(bufs, disk, view, b, bufs'[b]);
    } else {
      ShowsAfterRecycle(bufs, disk, view, b, Buf(ROOTDEV, blockno, true, false, 1, disk[blockno]));
      assert bufs'[b := bufs'[b].(data := disk[blockno], valid := true)] ==
        bufs[b := Buf(ROOTDEV, blockno, true, false, 1, disk[blockno])];
    }
  }

  // ----- the cache itself -----

  class BCache {
    var disk: Disk             // memide.c: memdisk, one element per block
    ghost var trace: seq<Write> // every block write the disk has seen, oldest first
    var bufs: seq<Buf>
    var prev: seq<nat>
    var next: seq<nat>
    ghost var view: Disk       // the contents that readers of the cache see
    ghost var order: seq<nat>  // the list from the head forward
    ghost var released: seq<nat> // the buffers whose last reference was dropped, oldest first

    ghost predicate Valid()
      reads this
    {
      Ring(order, prev, next) && Shows(bufs, disk, view) && Recency(order, released)
    }

    /** binit: all buffers empty, linked newest-initialised first. */
    constructor (image: Disk)
      ensures Valid()
      ensures disk == image && trace == [] && released == []
      ensures forall i :: 0 <= i < NBUF ==> Recyclable(bufs[i]) && bufs[i].dev == 0
      ensures order == seq(NBUF, i requires 0 <= i < NBUF => NBUF - 1 - i)
      ensures view == image
    {
      disk := image;
      view := image;
      trace := [];
      bufs := seq(NBUF, _ => Buf(0, 0, false, false, 0, ZeroBlock()));
      prev := seq(NBUF + 1, _ => HEAD);
      next := seq(NBUF + 1, _ => HEAD);
      order := [];
      released := [];
      new;
      var b := 0;
      while b < NBUF
        invariant 0 <= b <= NBUF
        invariant disk == view == image && trace == [] && released == []
        invariant bufs == seq(NBUF, _ => Buf(0, 0, false, false, 0, ZeroBlock()))
        invariant |prev| == |next| == NBUF + 1
        invariant |order| == b && forall k :: 0 <= k < b ==> order[k] == b - 1 - k
        invariant InRange(Circle(order)) && Linked(Circle(order), prev, next)
      {
        LinkedAfterInsert(order, prev, next, b);
        var first := next[HEAD];
        next := next[b := first];
        prev := prev[b := HEAD];
        prev := prev[first := b];
        next := next[HEAD := b];
        order := [b] + order;
        b := b + 1;
      }
      forall x | 0 <= x < NBUF ensures x in order { assert order[NBUF - 1 - x] == x; }
      assert order == seq(NBUF, i requires 0 <= i < NBUF => NBUF - 1 - i);
    }

    /** The first scan of bget, from the head forward: the buffer that holds the block, or -1. */
    method FindCached(blockno: nat) returns (b: int)
      requires Ring(order, prev, next) && |bufs| == NBUF
      ensures b < 0 <==> !Cached(bufs, blockno)
      ensures b >= 0 ==> b < NBUF && Holds(bufs[b], blockno)
    {
      ghost var c := Circle(order);
      ghost var k := 1;
      b := next[HEAD];
      assert next[c[0]] == c[1];
      while b != HEAD
        invariant 1 <= k <= NBUF + 1 && b == c[k]
        invariant forall j :: 0 <= j < k - 1 ==> !Holds(bufs[order[j]], blockno)
        decreases NBUF + 1 - k
      {
        assert c[k] == order[k - 1];
        if Holds(bufs[b], blockno) { return; }
        assert next[c[k]] == c[k + 1];
        b := next[b];
        k := k + 1;
      }
      assert k == NBUF + 1;
      forall x | 0 <= x < NBUF ensures !Holds(bufs[x], blockno) { assert x in order; }
      b := -1;
    }

    /** The second scan of bget, from the head backward: the least recently released buffer that
        nobody references and the log has not pinned, or -1. */
    method FindRecyclable() returns (b: int)
      requires Ring(order, prev, next) && |bufs| == NBUF
      ensures b < 0 <==> AllPinned(bufs)
      ensures b >= 0 ==> LeastRecent(bufs, order, b)
    {
      ghost var c := Circle(order);
      ghost var k := NBUF;
      assert prev[c[NBUF + 1]] == c[NBUF];
      b := prev[HEAD];
      while b != HEAD
        invariant 0 <= k <= NBUF && b == c[k]
        invariant forall j :: k <= j < NBUF ==> !Recyclable(bufs[order[j]])
        decreases k
      {
        assert c[k] == order[k - 1];
        if Recyclable(bufs[b]) { return; }
        assert prev[c[k]] == c[k - 1];
        b := prev[b];
        k := k - 1;
      }
      assert k == 0;
      forall x | 0 <= x < NBUF ensures !Recyclable(bufs[x]) { assert x in order; }
      b := -1;
    }

    /** bget: the buffer of a block, found or recycled; -1 when every buffer is in use (the
        panic "bget: no buffers"). A recycled buffer is the least recently released one that can be. */
    method Bget(blockno: nat) returns (r: int)
      requires Ring(order, prev, next) && |bufs| == NBUF
      modifies this`bufs
      ensures r < 0 <==> !Cached(old(bufs), blockno) && AllPinned(old(bufs))
      ensures r < 0 ==> bufs == old(bufs)
      ensures r >= 0 ==> Got(old(bufs), order, blockno, r, bufs)
    {
      r := FindCached(blockno);
      if r >= 0 {
        bufs := bufs[r := bufs[r].(refcnt := bufs[r].refcnt + 1)];
        assert Got(old(bufs), order, blockno, r, bufs);
        return;
      }
      r := FindRecyclable();
      if r >= 0 {
        bufs := bufs[r := Buf(ROOTDEV, blockno, false, false, 1, bufs[r].data)];
      }
    }

    /** iderw: a dirty buffer is written to the disk in one step, any other buffer is filled from it. */
    method Iderw(b: nat)
      requires b < |bufs| && bufs[b].dev == ROOTDEV && bufs[b].blockno < |disk|
      requires bufs[b].dirty || !bufs[b].valid
      modifies this`bufs, this`disk, this`trace
      ensures old(bufs)[b].dirty ==>
        && disk == old(disk)[old(bufs)[b].blockno := old(bufs)[b].data]
        && trace == old(trace) + [Write(old(bufs)[b].blockno, old(bufs)[b].data)]
        && bufs == old(bufs)[b := old(bufs)[b].(dirty := false, valid := true)]
      ensures !old(bufs)[b].dirty ==>
        && disk == old(disk) && trace == old(trace)
        && bufs == old(bufs)[b := old(bufs)[b].(data := disk[old(bufs)[b].blockno], valid := true)]
    {
      if bufs[b].dirty {
        bufs := bufs[b := bufs[b].(dirty := false)];
        disk := disk[bufs[b].blockno := bufs[b].data];
        trace := trace + [Write(bufs[b].blockno, bufs[b].data)];
      } else {
        bufs := bufs[b := bufs[b].(data := disk[bufs[b].blockno])];
      }
      bufs := bufs[b := bufs[b].(valid := true)];
    }

    /** The second half of bread: read the block into the buffer unless it is there already. */
    method Fill(b: nat)
      requires b < |bufs| && bufs[b].dev == ROOTDEV && bufs[b].blockno < |disk|
      requires !bufs[b].valid ==> !bufs[b].dirty
      modifies this`bufs, this`disk, this`trace
      ensures disk == old(disk) && trace == old(trace)
      ensures bufs == if old(bufs)[b].valid then old(bufs)
        else old(bufs)[b := old(bufs)[b].(data := disk[old(bufs)[b].blockno], valid := true)]
    {
      if !bufs[b].valid {
        Iderw(b);
      }
    }

    /** bread: a referenced buffer with the visible contents of the block. Nothing visible changes,
        and it fails only when the block is not cached and every buffer is pinned. */
    method Bread(blockno: nat) returns (r: int)
      requires Valid() && blockno < |disk|
      modifies this`bufs, this`disk, this`trace
      ensures Valid() && disk == old(disk) && trace == old(trace)
      ensures r < 0 <==> !Cached(old(bufs), blockno) && AllPinned(old(bufs))
      ensures r < 0 <==> forall i :: 0 <= i < NBUF ==>
        !(old(bufs)[i].dev == 1 && old(bufs)[i].blockno == blockno) && (old(bufs)[i].refcnt != 0 || old(bufs)[i].dirty)
      ensures r < 0 ==> bufs == old(bufs)
      ensures r >= 0 ==> Fetched(old(bufs), disk, order, blockno, r, bufs) && bufs[r].data == view[blockno]
      ensures r >= 0 && !Cached(old(bufs), blockno) ==> Oldest(old(bufs), released, r)
    {
      r := Bget(blockno);
      if r >= 0 {
        if !Cached(old(bufs), blockno) { OldestIs(old(bufs), order, released, r); }
        GotStep(old(bufs), disk, view, order, blockno, r, bufs);
        Fill(r);
        assert BufOk(bufs[r], disk, view);
      }
    }

    /** Changing the data of a held buffer changes what readers of that block see. */
    method SetData(b: nat, data: Block)
      requires Valid() && b < NBUF && bufs[b].dev == ROOTDEV && bufs[b].refcnt > 0
      modifies this`bufs, this`view
      ensures Valid() && bufs[b].blockno < |disk|
      ensures bufs == old(bufs)[b := old(bufs)[b].(data := data)]
      ensures view == old(view)[bufs[b].blockno := data]
    {
      assert BufOk(bufs[b], disk, view);
      ShowsAfterData(bufs, disk, view, b, bufs[b].(data := data));
      view := view[bufs[b].blockno := data];
      bufs := bufs[b := bufs[b].(data := data)];
    }

    /** Setting B_DIRTY, as log_write does: the buffer stays in the cache until it is written. */
    method Pin(b: nat)
      requires Valid() && b < NBUF && bufs[b].dev == ROOTDEV
      modifies this`bufs
      ensures Valid()
      ensures bufs == old(bufs)[b := old(bufs)[b].(dirty := true)]
    {
      assert BufOk(bufs[b], disk, view);
      assert view == view[bufs[b].blockno := bufs[b].data];
      ShowsAfterData(bufs, disk, view, b, bufs[b].(dirty := true));
      bufs := bufs[b := bufs[b].(dirty := true)];
    }

    /** bwrite: the buffer's data reaches the disk in one block write. */
    method Bwrite(b: nat)
      requires Valid() && b < NBUF && bufs[b].dev == ROOTDEV
      modifies this`bufs, this`disk, this`trace
      ensures Valid()
      ensures old(bufs)[b].blockno < |old(disk)| && disk == old(disk)[old(bufs)[b].blockno := old(bufs)[b].data]
      ensures trace == old(trace) + [Write(bufs[b].blockno, bufs[b].data)]
      ensures bufs == old(bufs)[b := old(bufs)[b].(dirty := false)]
    {
      ShowsAfterWriteThrough(bufs, disk, view, b, bufs[b].(dirty := false));
      bufs := bufs[b := bufs[b].(dirty := true)];
      Iderw(b);
    }

    /** brelse: drop one reference, and on the last one move the buffer to the front of the list.
        A buffer that was changed must have been written or pinned by then. */
    method Brelse(b: nat)
      requires Valid() && b < NBUF && bufs[b].dev == ROOTDEV && bufs[b].refcnt > 0 && bufs[b].blockno < |disk|
      requires !bufs[b].dirty && bufs[b].refcnt == 1 ==> disk[bufs[b].blockno] == bufs[b].data
      modifies this`bufs, this`prev, this`next, this`order, this`released
      ensures Valid()
      ensures bufs == old(bufs)[b := old(bufs)[b].(refcnt := old(bufs)[b].refcnt - 1)]
      ensures bufs[b].refcnt > 0 ==> order == old(order)
      ensures bufs[b].refcnt == 0 ==>
        exists k :: 0 <= k < NBUF && old(order)[k] == b && order == MoveToFront(old(order), k)
      ensures released == if bufs[b].refcnt == 0 then old(released) + [b] else old(released)
    {
      assert BufOk(bufs[b], disk, view);
      assert view == view[bufs[b].blockno := bufs[b].data];
      ShowsAfterData(bufs, disk, view, b, bufs[b].(refcnt := bufs[b].refcnt - 1));
      bufs := bufs[b := bufs[b].(refcnt := bufs[b].refcnt - 1)];
      if bufs[b].refcnt == 0 {
        MoveToHead(b);
        ghost var k :| 0 <= k < NBUF && old(order)[k] == b && order == MoveToFront(old(order), k);
        RecencyMoved(old(order), released, k);
        released := released + [b];
      }
    }

    /** The list surgery of brelse: take b out and put it back right after the head. */
    method MoveToHead(b: nat)
      requires Ring(order, prev, next) && b < NBUF
      modifies this`prev, this`next, this`order
      ensures Ring(order, prev, next)
      ensures exists k :: 0 <= k < NBUF && old(order)[k] == b && order == MoveToFront(old(order), k)
    {
      assert b in order;
      ghost var k :| 0 <= k < NBUF && order[k] == b;
      ghost var rest := order[..k] + order[k + 1..];
      LinkedAfterUnlink(order, prev, next, k);
      WithoutKth(order, k);
      prev := prev[next[b] := prev[b]];
      next := next[prev[b] := next[b]];
      LinkedAfterInsert(rest, prev, next, b);
      next := next[b := next[HEAD]];
      prev := prev[b := HEAD];
      prev := prev[next[HEAD] := b];
      next := next[HEAD := b];
      MoveToFrontIsOrder(order, k);
      order := MoveToFront(order, k);
    }
  }
}
