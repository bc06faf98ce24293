/** Files as byte strings (fs.c: readi, writei) on top of block ownership: what allocating a block for
    a file and writing into one of its blocks do to the bytes of this and of every other file. */
module FileData {
  import opened Blocks
  import opened Layout

  /** Block contents, inodes and owners at one moment. */
  datatype Image = Image(blocks: Disk, inodes: seq<Inode>, owner: seq<Owner>)

  ghost predicate Good(g: Geometry, m: Image) {
    Owned(g, m.blocks, m.inodes, m.owner)
  }

  /** Number of blocks that n bytes take. */
  function BlocksFor(n: nat): (a: nat)
    ensures a * BSIZE >= n && (a == 0 || (a - 1) * BSIZE < n)
  {
    (n + BSIZE - 1) / BSIZE
  }

  function Max(a: nat, b: nat): nat { if a < b then b else a }

  /** The first `a` blocks of the file are allocated and no others, and the indirect block is there
      exactly if one of them needs it. */
  ghost predicate Prefix(blocks: Disk, ip: Inode, a: nat) {
    && a <= MAXFILE
    && (forall bn :: 0 <= bn < MAXFILE ==> (Ref(blocks, ip, SlotOf(bn)) != 0 <==> bn < a))
    && (ip.addrs[NDIRECT] != 0 <==> a > NDIRECT)
  }

  /** A file without holes: every block below ceil(size/BSIZE) is allocated and none above. */
  ghost predicate NoHoles(blocks: Disk, ip: Inode) {
    ip.size <= MAXFILE * BSIZE && Prefix(blocks, ip, BlocksFor(ip.size))
  }

  function BlockByte(blocks: Disk, b: nat, o: nat): (c: Byte)
    requires o < BSIZE
  {
    if b < |blocks| then blocks[b][o] else 0
  }

  /** The byte at position k of a file. */
  function ByteAt(blocks: Disk, ip: Inode, k: nat): (c: Byte)
    requires k < MAXFILE * BSIZE
  {
    BlockByte(blocks, Ref(blocks, ip, SlotOf(k / BSIZE)), k % BSIZE)
  }

  /** A file's contents. */
  function Content(blocks: Disk, ip: Inode): (c: seq<Byte>)
    requires ip.size <= MAXFILE * BSIZE
    ensures |c| == ip.size
  {
    seq(ip.size, k requires 0 <= k < ip.size => ByteAt(blocks, ip, k))
  }

  /** src written over c at off. */
  function Splice(c: seq<Byte>, off: nat, src: seq<Byte>): (r: seq<Byte>)
    requires off <= |c|
  {
    c[..off] + src + (if off + |src| <= |c| then c[off + |src|..] else [])
  }

  // ----- allocation for a file -----

  /** From m to n, inode i has gained blocks: what it had it still has, nothing else is different. */
  ghost predicate Grown(g: Geometry, i: nat, m: Image, n: Image)
    requires Good(g, m) && i < g.ninodes
  {
    && Good(g, n)
    && (forall j :: 0 <= j < g.ninodes && j != i ==> n.inodes[j] == m.inodes[j])
    && n.inodes[i] == WithAddrs(m.inodes[i], n.inodes[i].addrs)
    && (forall b :: 0 <= b < g.size && !m.owner[b].Free? ==> n.owner[b] == m.owner[b])
    && (forall b :: 0 <= b < g.size && m.owner[b].Free? ==> n.owner[b].Free? || (n.owner[b].Slot? && n.owner[b].i == i))
    && (forall b :: g.nmeta <= b < g.size && !m.owner[b].Free? && m.owner[b] != Slot(i, NDIRECT) ==>
        n.blocks[b] == m.blocks[b])
    && (forall s :: 0 <= s < NSLOTS && Ref(m.blocks, m.inodes[i], s) != 0 ==>
        Ref(n.blocks, n.inodes[i], s) == Ref(m.blocks, m.inodes[i], s))
  }

  lemma GrownTransitive(g: Geometry, i: nat, l: Image, m: Image, n: Image)
    requires Good(g, l) && i < g.ninodes && Grown(g, i, l, m) && Grown(g, i, m, n)
    ensures Grown(g, i, l, n)
  {
    forall b | g.nmeta <= b < g.size && !l.owner[b].Free? && l.owner[b] != Slot(i, NDIRECT)
      ensures n.blocks[b] == l.blocks[b]
    {
      assert m.owner[b] == l.owner[b];
    }
  }

  /** The blocks after balloc took b: marked in use and zeroed. */
  function Taken(g: Geometry, blocks: Disk, b: nat): (r: Disk)
    requires g.Valid() && |blocks| == g.size && b < g.size
    ensures |r| == |blocks|
  {
    SetUse(g, blocks, b, true)[b := ZeroBlock()]
  }

  /** The blocks after word k of block x was set. */
  function WithEntry(blocks: Disk, x: nat, k: nat, v: Uint): (r: Disk)
    requires x < |blocks| && k < WORDS
  {
    blocks[x := SetWord(blocks[x], k, v)]
  }

  /** The image after balloc took b for one of the inode's own pointers. */
  function LinkedImage(g: Geometry, i: nat, m: Image, s: nat, b: nat): (n: Image)
    requires g.Valid() && |m.blocks| == g.size && b < g.size && b < |m.owner| && i < |m.inodes| && s <= NDIRECT
  {
    Image(Taken(g, m.blocks, b),
          m.inodes[i := WithAddrs(m.inodes[i], m.inodes[i].addrs[s := b])],
          m.owner[b := Slot(i, s)])
  }

  lemma GrownByLink(g: Geometry, i: nat, m: Image, s: nat, b: nat)
    requires Good(g, m) && i < g.ninodes && s <= NDIRECT && m.inodes[i].addrs[s] == 0
    requires b < g.size && !InUse(g, m.blocks, b)
    ensures Grown(g, i, m, LinkedImage(g, i, m, s, b))
    ensures forall t :: 0 <= t < NSLOTS ==>
      Ref(LinkedImage(g, i, m, s, b).blocks, LinkedImage(g, i, m, s, b).inodes[i], t) ==
        if t == s then b else Ref(m.blocks, m.inodes[i], t)
  {
    OwnedAfterTake(g, m.blocks, m.inodes, m.owner, b);
    var blocks := Taken(g, m.blocks, b);
    OwnedAfterLink(g, blocks, m.inodes, m.owner[b := Pending], i, s, b);
    assert m.owner[b := Pending][b := Slot(i, s)] == m.owner[b := Slot(i, s)];
  }

  /** The image after balloc took b for an entry of the inode's indirect block. */
  function EntryImage(g: Geometry, i: nat, m: Image, s: nat, b: nat): (n: Image)
    requires g.Valid() && |m.blocks| == g.size && b < g.size && b < |m.owner| && i < |m.inodes|
    requires NDIRECT < s < NSLOTS && m.inodes[i].addrs[NDIRECT] < g.size
  {
    Image(WithEntry(Taken(g, m.blocks, b), m.inodes[i].addrs[NDIRECT], s - NDIRECT - 1, b), m.inodes,
      m.owner[b := Slot(i, s)])
  }

  lemma GrownByEntry(g: Geometry, i: nat, m: Image, s: nat, b: nat)
    requires Good(g, m) && i < g.ninodes && NDIRECT < s < NSLOTS
    requires m.inodes[i].addrs[NDIRECT] != 0 && Ref(m.blocks, m.inodes[i], s) == 0
    requires b < g.size && !InUse(g, m.blocks, b)
    ensures m.inodes[i].addrs[NDIRECT] < g.size && m.inodes[i].addrs[NDIRECT] != b
    ensures Grown(g, i, m, EntryImage(g, i, m, s, b))
    ensures forall t :: 0 <= t < NSLOTS ==>
      Ref(EntryImage(g, i, m, s, b).blocks, m.inodes[i], t) == if t == s then b else Ref(m.blocks, m.inodes[i], t)
  {
    EntryBlocks(g, i, m, s, b);
    hide Owned, Ref, InUse, Grown;
    EntryOwned(g, i, m, s, b);
    EntryGrown(g, i, m, s, b, EntryImage(g, i, m, s, b));
  }

  lemma EntryGrown(g: Geometry, i: nat, m: Image, s: nat, b: nat, n: Image)
    requires Good(g, m) && Good(g, n) && i < g.ninodes && s < NSLOTS && b < g.size
    requires |m.inodes| == g.ninodes && |m.owner| == |m.blocks| == |n.blocks| == g.size && m.owner[b].Free?
    requires n.inodes == m.inodes && n.owner == m.owner[b := Slot(i, s)] && Ref(m.blocks, m.inodes[i], s) == 0
    requires forall c :: g.nmeta <= c < g.size && !m.owner[c].Free? && m.owner[c] != Slot(i, NDIRECT) ==>
      n.blocks[c] == m.blocks[c]
    requires forall t :: 0 <= t < NSLOTS ==>
      Ref(n.blocks, m.inodes[i], t) == if t == s then b else Ref(m.blocks, m.inodes[i], t)
    ensures Grown(g, i, m, n)
  {
    hide Owned, Ref;
  }

  /** Ownership and pointers after an entry was filled. */
  lemma EntryOwned(g: Geometry, i: nat, m: Image, s: nat, b: nat)
    requires Good(g, m) && i < g.ninodes && NDIRECT < s < NSLOTS
    requires |m.inodes| == g.ninodes && |m.owner| == |m.blocks| == g.size && m.inodes[i].addrs[NDIRECT] < g.size
    requires m.inodes[i].addrs[NDIRECT] != 0 && Ref(m.blocks, m.inodes[i], s) == 0
    requires b < g.size && g.Valid() && !InUse(g, m.blocks, b)
    ensures Good(g, EntryImage(g, i, m, s, b))
    ensures forall t :: 0 <= t < NSLOTS ==>
      Ref(EntryImage(g, i, m, s, b).blocks, m.inodes[i], t) == if t == s then b else Ref(m.blocks, m.inodes[i], t)
  {
    hide Owned, Ref, InUse, SetUse, SetWord;
    OwnedAfterTake(g, m.blocks, m.inodes, m.owner, b);
    OwnedAfterIndirectLink(g, Taken(g, m.blocks, b), m.inodes, m.owner[b := Pending], i, s, b);
    assert m.owner[b := Pending][b := Slot(i, s)] == m.owner[b := Slot(i, s)];
  }

  /** The blocks in use that such an entry leaves alone. */
  lemma EntryBlocks(g: Geometry, i: nat, m: Image, s: nat, b: nat)
    requires Good(g, m) && i < g.ninodes && NDIRECT < s < NSLOTS && m.inodes[i].addrs[NDIRECT] != 0
    requires b < g.size && !InUse(g, m.blocks, b)
    ensures g.Valid() && |m.inodes| == g.ninodes && |m.owner| == |m.blocks| == g.size && m.owner[b].Free?
    ensures m.inodes[i].addrs[NDIRECT] < g.size && m.inodes[i].addrs[NDIRECT] != b
    ensures forall c :: g.nmeta <= c < g.size && !m.owner[c].Free? && m.owner[c] != Slot(i, NDIRECT) ==>
      EntryImage(g, i, m, s, b).blocks[c] == m.blocks[c]
  {
    IndirectOwner(g, m.blocks, m.inodes, m.owner, i);
    hide Ref, SetWord;
  }

  /** What bmap leaves behind: block bn of inode i is in block r; a new one is zeroed, and nothing at
      all changes when it was there already. */
  ghost predicate Mapped(g: Geometry, i: nat, bn: nat, m: Image, n: Image, r: nat)
    requires Good(g, m) && i < g.ninodes && bn < MAXFILE
  {
    && Grown(g, i, m, n)
    && r == Ref(n.blocks, n.inodes[i], SlotOf(bn)) && g.nmeta <= r < g.size
    && (Ref(m.blocks, m.inodes[i], SlotOf(bn)) != 0 ==> n == m)
    && (Ref(m.blocks, m.inodes[i], SlotOf(bn)) == 0 ==> n.blocks[r] == ZeroBlock() && m.owner[r].Free?)
    && (forall s :: 0 <= s < NSLOTS && s != SlotOf(bn) && s != NDIRECT ==>
        Ref(n.blocks, n.inodes[i], s) == Ref(m.blocks, m.inodes[i], s))
    && (bn < NDIRECT ==> n.inodes[i].addrs[NDIRECT] == m.inodes[i].addrs[NDIRECT])
    && (bn >= NDIRECT ==> n.inodes[i].addrs[NDIRECT] != 0)
  }

  /** Mapping the next block of a file without holes below it leaves no hole. */
  lemma PrefixAfterMap(g: Geometry, i: nat, bn: nat, m: Image, n: Image, r: nat, a: nat)
    requires Good(g, m) && i < g.ninodes && bn < MAXFILE && Mapped(g, i, bn, m, n, r)
    requires Prefix(m.blocks, m.inodes[i], a) && bn <= a
    ensures Prefix(n.blocks, n.inodes[i], Max(a, bn + 1))
  {
    forall k | 0 <= k < MAXFILE ensures Ref(n.blocks, n.inodes[i], SlotOf(k)) != 0 <==> k < Max(a, bn + 1) {
      assert k != bn ==> SlotOf(k) != SlotOf(bn);
    }
  }

  /** Allocation changes no byte of a block that the file already had. */
  lemma BytesAfterGrowth(g: Geometry, i: nat, m: Image, n: Image, k: nat)
    requires Good(g, m) && i < g.ninodes && Grown(g, i, m, n) && k < MAXFILE * BSIZE
    requires Ref(m.blocks, m.inodes[i], SlotOf(k / BSIZE)) != 0
    ensures ByteAt(n.blocks, n.inodes[i], k) == ByteAt(m.blocks, m.inodes[i], k)
  {
    var b := Ref(m.blocks, m.inodes[i], SlotOf(k / BSIZE));
    assert m.owner[b] == Slot(i, SlotOf(k / BSIZE));
  }

  // ----- writing into a block of a file -----

  /** A block with the given bytes put in at offset o. */
  function Patch(b: Block, o: nat, chunk: seq<Byte>): (r: Block)
    requires o + |chunk| <= BSIZE
  {
    b[..o] + chunk + b[o + |chunk|..]
  }

  /** The image after block r was patched. */
  function PatchedImage(m: Image, r: nat, o: nat, chunk: seq<Byte>): (n: Image)
    requires r < |m.blocks| && o + |chunk| <= BSIZE
  {
    Image(m.blocks[r := Patch(m.blocks[r], o, chunk)], m.inodes, m.owner)
  }

  /** Patching block bn of inode i changes exactly those bytes of that file and no pointer. */
  lemma BytesAfterPatch(g: Geometry, i: nat, m: Image, bn: nat, r: nat, o: nat, chunk: seq<Byte>)
    requires Good(g, m) && i < g.ninodes && bn < MAXFILE && o + |chunk| <= BSIZE
    requires r == Ref(m.blocks, m.inodes[i], SlotOf(bn)) != 0
    ensures g.nmeta <= r < g.size && Good(g, PatchedImage(m, r, o, chunk))
    ensures forall j, s :: 0 <= j < g.ninodes && 0 <= s < NSLOTS ==>
      Ref(PatchedImage(m, r, o, chunk).blocks, m.inodes[j], s) == Ref(m.blocks, m.inodes[j], s)
    ensures forall k :: 0 <= k < MAXFILE * BSIZE ==>
      ByteAt(PatchedImage(m, r, o, chunk).blocks, m.inodes[i], k) ==
      if bn * BSIZE + o <= k < bn * BSIZE + o + |chunk| then chunk[k - bn * BSIZE - o]
        else ByteAt(m.blocks, m.inodes[i], k)
  {
    assert m.owner[r] == Slot(i, SlotOf(bn));
    OwnedAfterData(g, m.blocks, m.inodes, m.owner, r, Patch(m.blocks[r], o, chunk));
    forall k | 0 <= k < MAXFILE * BSIZE
      ensures ByteAt(PatchedImage(m, r, o, chunk).blocks, m.inodes[i], k) ==
        if bn * BSIZE + o <= k < bn * BSIZE + o + |chunk| then chunk[k - bn * BSIZE - o]
          else ByteAt(m.blocks, m.inodes[i], k)
    {
      PatchedByte(g, i, m, bn, r, o, chunk, k);
    }
  }

  lemma PatchedByte(g: Geometry, i: nat, m: Image, bn: nat, r: nat, o: nat, chunk: seq<Byte>, k: nat)
    requires Good(g, m) && i < g.ninodes && bn < MAXFILE && o + |chunk| <= BSIZE && k < MAXFILE * BSIZE
    requires r == Ref(m.blocks, m.inodes[i], SlotOf(bn)) && g.nmeta <= r < g.size
    requires Ref(PatchedImage(m, r, o, chunk).blocks, m.inodes[i], SlotOf(k / BSIZE)) ==
      Ref(m.blocks, m.inodes[i], SlotOf(k / BSIZE))
    ensures ByteAt(PatchedImage(m, r, o, chunk).blocks, m.inodes[i], k) ==
        if bn * BSIZE + o <= k < bn * BSIZE + o + |chunk| then chunk[k - bn * BSIZE - o]
          else ByteAt(m.blocks, m.inodes[i], k)
  {
    var b := Ref(m.blocks, m.inodes[i], SlotOf(k / BSIZE));
    if b == r {
      assert m.owner[b] == Slot(i, SlotOf(k / BSIZE)) && m.owner[b] == Slot(i, SlotOf(bn));
      assert k / BSIZE == bn;
    }
  }

  // ----- a write in progress -----

  /** Inode j and everything it points to are the same in both images. */
  ghost predicate SameFile(m: Image, n: Image, j: nat)
    requires j < |m.inodes|
  {
    && j < |n.inodes| && n.inodes[j] == m.inodes[j]
    && forall s :: 0 <= s < NSLOTS ==>
         var b := Ref(m.blocks, m.inodes[j], s);
         Ref(n.blocks, m.inodes[j], s) == b && (0 < b < |m.blocks| ==> b < |n.blocks| && n.blocks[b] == m.blocks[b])
  }

  lemma SameFileContent(m: Image, n: Image, j: nat)
    requires j < |m.inodes| && SameFile(m, n, j) && |m.blocks| == |n.blocks|
    requires NoHoles(m.blocks, m.inodes[j])
    ensures NoHoles(n.blocks, n.inodes[j])
    ensures Content(n.blocks, n.inodes[j]) == Content(m.blocks, m.inodes[j])
  {}

  /** From m to n only inode i has changed: in its pointers, by blocks that were free, and in its data. */
  ghost predicate OnlyFile(g: Geometry, i: nat, m: Image, n: Image)
    requires Good(g, m) && i < g.ninodes
  {
    && Good(g, n)
    && (forall j :: 0 <= j < g.ninodes && j != i ==> n.inodes[j] == m.inodes[j])
    && n.inodes[i] == WithAddrs(m.inodes[i], n.inodes[i].addrs)
    && (forall b :: 0 <= b < g.size && !m.owner[b].Free? ==> n.owner[b] == m.owner[b])
    && (forall b :: 0 <= b < g.size && m.owner[b].Free? ==> n.owner[b].Free? || (n.owner[b].Slot? && n.owner[b].i == i))
    && (forall b :: 0 <= b < g.size && m.owner[b].Slot? && m.owner[b].i != i ==> n.blocks[b] == m.blocks[b])
  }

  /** The bytes of inode i below `limit`, with src[..tot] written over m's bytes at off. */
  ghost predicate Overwritten(i: nat, m: Image, n: Image, off: nat, src: seq<Byte>, tot: nat, limit: nat)
    requires i < |m.inodes| && i < |n.inodes| && tot <= |src| && limit <= MAXFILE * BSIZE
  {
    forall k :: 0 <= k < limit ==>
      ByteAt(n.blocks, n.inodes[i], k) ==
        if off <= k < off + tot then src[k - off] else ByteAt(m.blocks, m.inodes[i], k)
  }

  /** From m to n, `tot` bytes of src have been written to inode i from off on, its size field not yet
      updated; `a` blocks were allocated at first. */
  ghost predicate Writing(g: Geometry, i: nat, m: Image, n: Image, off: nat, src: seq<Byte>, tot: nat, a: nat)
    requires Good(g, m) && i < g.ninodes && tot <= |src| && off + |src| <= MAXFILE * BSIZE && a <= MAXFILE
  {
    && OnlyFile(g, i, m, n)
    && Prefix(n.blocks, n.inodes[i], Max(a, BlocksFor(off + tot)))
    && (BlocksFor(off + tot) <= a ==> n.inodes == m.inodes && n.owner == m.owner)
    && Overwritten(i, m, n, off, src, tot, Max(a * BSIZE, off + tot))
  }

  /** From m, through n after bmap, to w after the bytes went into block r. */
  ghost predicate ChunkWritten(g: Geometry, i: nat, off: nat, chunk: seq<Byte>, m: Image, n: Image, r: nat, w: Image)
    requires Good(g, m) && i < g.ninodes
  {
    && |chunk| <= BSIZE - off % BSIZE && off / BSIZE < MAXFILE
    && Mapped(g, i, off / BSIZE, m, n, r) && w == PatchedImage(n, r, off % BSIZE, chunk)
  }

  lemma BlocksForStep(pos: nat, len: nat)
    requires 0 < len <= BSIZE - pos % BSIZE
    ensures BlocksFor(pos + len) == pos / BSIZE + 1 && pos / BSIZE <= BlocksFor(pos) <= pos / BSIZE + 1
  {}

  lemma OnlyFileStep(g: Geometry, i: nat, m: Image, n: Image, off: nat, chunk: seq<Byte>, n1: Image, r: nat, w: Image)
    requires Good(g, m) && i < g.ninodes && OnlyFile(g, i, m, n)
    requires |chunk| <= BSIZE - off % BSIZE && off / BSIZE < MAXFILE
    requires ChunkWritten(g, i, off, chunk, n, n1, r, w)
    ensures OnlyFile(g, i, m, w)
    ensures n1.owner[r] == Slot(i, SlotOf(off / BSIZE))
  {
    BytesAfterPatch(g, i, n1, off / BSIZE, r, off % BSIZE, chunk);
    assert n1.owner[r] == Slot(i, SlotOf(off / BSIZE));
    forall b | 0 <= b < g.size && m.owner[b].Slot? && m.owner[b].i != i ensures w.blocks[b] == m.blocks[b] {
      assert n.owner[b] == m.owner[b] && n1.owner[b] == n.owner[b];
    }
  }

  lemma OverwrittenStep(g: Geometry, i: nat, m: Image, n: Image, off: nat, src: seq<Byte>, tot: nat, a: nat, next: nat,
                        n1: Image, r: nat, w: Image)
    requires Good(g, n) && i < g.ninodes && i < |m.inodes| && tot < next <= |src| && off + |src| <= MAXFILE * BSIZE
    requires a <= MAXFILE
    requires off <= a * BSIZE && Prefix(n.blocks, n.inodes[i], Max(a, BlocksFor(off + tot)))
    requires Overwritten(i, m, n, off, src, tot, Max(a * BSIZE, off + tot))
    requires next - tot <= BSIZE - (off + tot) % BSIZE
    requires ChunkWritten(g, i, off + tot, src[tot..next], n, n1, r, w)
    ensures i < |w.inodes| && Overwritten(i, m, w, off, src, next, Max(a * BSIZE, off + next))
  {
    ChunkBytes(g, i, n, off, src, tot, next, n1, r, w);
    KeptBytes(g, i, n, Max(a, BlocksFor(off + tot)), n1);
    CombineBytes(i, m, n, n1, w, off, src, tot, a, next);
  }

  lemma ChunkBytes(g: Geometry, i: nat, n: Image, off: nat, src: seq<Byte>, tot: nat, next: nat, n1: Image, r: nat,
                   w: Image)
    requires Good(g, n) && i < g.ninodes && tot < next <= |src| && off + |src| <= MAXFILE * BSIZE
    requires next - tot <= BSIZE - (off + tot) % BSIZE
    requires ChunkWritten(g, i, off + tot, src[tot..next], n, n1, r, w)
    ensures i < |w.inodes| && i < |n1.inodes|
    ensures forall k :: 0 <= k < MAXFILE * BSIZE ==>
      ByteAt(w.blocks, w.inodes[i], k) ==
        if off + tot <= k < off + next then src[k - off] else ByteAt(n1.blocks, n1.inodes[i], k)
  {
    assert i < |n1.inodes| && i < |w.inodes|;
    hide Owned, ChunkWritten, ByteAt;
    forall k | 0 <= k < MAXFILE * BSIZE
      ensures ByteAt(w.blocks, w.inodes[i], k) ==
        if off + tot <= k < off + next then src[k - off] else ByteAt(n1.blocks, n1.inodes[i], k)
    {
      ChunkByte(g, i, n, off + tot, src[tot..next], n1, r, w, k);
    }
  }

  lemma KeptBytes(g: Geometry, i: nat, n: Image, a: nat, n1: Image)
    requires Good(g, n) && i < g.ninodes && Grown(g, i, n, n1) && Prefix(n.blocks, n.inodes[i], a)
    ensures forall k :: 0 <= k < a * BSIZE ==> ByteAt(n1.blocks, n1.inodes[i], k) == ByteAt(n.blocks, n.inodes[i], k)
  {
    forall k | 0 <= k < a * BSIZE ensures ByteAt(n1.blocks, n1.inodes[i], k) == ByteAt(n.blocks, n.inodes[i], k) {
      AllocatedBelow(n, i, a, k);
      BytesAfterGrowth(g, i, n, n1, k);
    }
  }

  lemma CombineBytes(i: nat, m: Image, n: Image, n1: Image, w: Image, off: nat, src: seq<Byte>, tot: nat, a: nat,
                     next: nat)
    requires i < |m.inodes| && i < |n.inodes| && i < |n1.inodes| && i < |w.inodes|
    requires tot < next <= |src| && off + |src| <= MAXFILE * BSIZE && off <= a * BSIZE && a <= MAXFILE
    requires Overwritten(i, m, n, off, src, tot, Max(a * BSIZE, off + tot))
    requires forall k :: 0 <= k < MAXFILE * BSIZE ==>
      ByteAt(w.blocks, w.inodes[i], k) ==
        if off + tot <= k < off + next then src[k - off] else ByteAt(n1.blocks, n1.inodes[i], k)
    requires forall k :: 0 <= k < Max(a * BSIZE, off + tot) ==>
      ByteAt(n1.blocks, n1.inodes[i], k) == ByteAt(n.blocks, n.inodes[i], k)
    ensures Overwritten(i, m, w, off, src, next, Max(a * BSIZE, off + next))
  {}

  /** One byte after one chunk: from the chunk if it lies there, else as bmap left it. */
  lemma ChunkByte(g: Geometry, i: nat, n: Image, pos: nat, chunk: seq<Byte>, n1: Image, r: nat, w: Image, k: nat)
    requires Good(g, n) && i < g.ninodes && k < MAXFILE * BSIZE && pos + |chunk| <= MAXFILE * BSIZE
    requires 0 < |chunk| <= BSIZE - pos % BSIZE
    requires ChunkWritten(g, i, pos, chunk, n, n1, r, w)
    ensures i < |w.inodes|
    ensures ByteAt(w.blocks, w.inodes[i], k) ==
      if pos <= k < pos + |chunk| then chunk[k - pos] else ByteAt(n1.blocks, n1.inodes[i], k)
  {
    assert pos / BSIZE * BSIZE + pos % BSIZE == pos;
    assert g.Valid() && |n1.inodes| == g.ninodes;
    hide Owned, Ref, ByteAt;
    BytesAfterPatch(g, i, n1, pos / BSIZE, r, pos % BSIZE, chunk);
  }

  lemma AllocatedBelow(n: Image, i: nat, a: nat, k: nat)
    requires i < |n.inodes| && Prefix(n.blocks, n.inodes[i], a) && k < a * BSIZE
    ensures k / BSIZE < MAXFILE && Ref(n.blocks, n.inodes[i], SlotOf(k / BSIZE)) != 0
  {}

  /** One turn of the loop in writei, seen from the start of the call. */
  lemma WritingStep(g: Geometry, i: nat, m: Image, n: Image, off: nat, src: seq<Byte>, tot: nat, a: nat, next: nat,
                    n1: Image, r: nat, w: Image)
    requires Good(g, m) && i < g.ninodes && tot < next <= |src| && off + |src| <= MAXFILE * BSIZE
    requires a <= MAXFILE && off <= a * BSIZE
    requires Writing(g, i, m, n, off, src, tot, a)
    requires next - tot <= BSIZE - (off + tot) % BSIZE && (off + tot) / BSIZE < MAXFILE
    requires ChunkWritten(g, i, off + tot, src[tot..next], n, n1, r, w)
    ensures Writing(g, i, m, w, off, src, next, a)
  {
    hide Owned, Prefix, Overwritten, OnlyFile, ChunkWritten, BlocksFor;
    OnlyFileGood(g, i, m, n);
    WritingPrefix(g, i, n, off, a, tot, next, src[tot..next], n1, r, w);
    OnlyFileStep(g, i, m, n, off + tot, src[tot..next], n1, r, w);
    OverwrittenStep(g, i, m, n, off, src, tot, a, next, n1, r, w);
  }

  lemma OnlyFileGood(g: Geometry, i: nat, m: Image, n: Image)
    requires Good(g, m) && i < g.ninodes && OnlyFile(g, i, m, n)
    ensures Good(g, n) && |m.inodes| == |n.inodes| == g.ninodes && |m.blocks| == |n.blocks| == g.size
  {}

  lemma WritingPrefix(g: Geometry, i: nat, n: Image, off: nat, a: nat, tot: nat, next: nat, chunk: seq<Byte>, n1: Image,
                      r: nat, w: Image)
    requires Good(g, n) && i < g.ninodes && (off + tot) / BSIZE < MAXFILE
    requires tot < next && |chunk| == next - tot <= BSIZE - (off + tot) % BSIZE
    requires Prefix(n.blocks, n.inodes[i], Max(a, BlocksFor(off + tot)))
    requires ChunkWritten(g, i, off + tot, chunk, n, n1, r, w)
    ensures i < |w.inodes| && Prefix(w.blocks, w.inodes[i], Max(a, BlocksFor(off + next)))
    ensures BlocksFor(off + next) <= a ==> BlocksFor(off + tot) <= a && w.inodes == n.inodes && w.owner == n.owner
  {
    MaxStep(off, a, tot, next);
    hide Owned, Prefix, ChunkWritten, BlocksFor, Max;
    PrefixStep(g, i, n, off + tot, Max(a, BlocksFor(off + tot)), off + next, chunk, n1, r, w);
  }

  lemma MaxStep(off: nat, a: nat, tot: nat, next: nat)
    requires tot < next && next - tot <= BSIZE - (off + tot) % BSIZE
    ensures Max(Max(a, BlocksFor(off + tot)), BlocksFor(off + next)) == Max(a, BlocksFor(off + next))
    ensures Max(a, BlocksFor(off + tot)) >= a && Max(a, BlocksFor(off + tot)) >= (off + tot) / BSIZE
    ensures BlocksFor(off + next) == (off + tot) / BSIZE + 1
    ensures (off + tot) / BSIZE <= BlocksFor(off + tot) <= BlocksFor(off + next)
  {
    BlocksForStep(off + tot, next - tot);
  }

  lemma PrefixStep(g: Geometry, i: nat, n: Image, pos: nat, a: nat, end: nat, chunk: seq<Byte>, n1: Image, r: nat,
                   w: Image)
    requires Good(g, n) && i < g.ninodes && pos / BSIZE < MAXFILE && 0 < |chunk| <= BSIZE - pos % BSIZE
    requires Prefix(n.blocks, n.inodes[i], a) && pos / BSIZE <= a && BlocksFor(end) == pos / BSIZE + 1
    requires ChunkWritten(g, i, pos, chunk, n, n1, r, w)
    ensures i < |w.inodes| && Prefix(w.blocks, w.inodes[i], Max(a, BlocksFor(end)))
    ensures BlocksFor(end) <= a ==> w.inodes == n.inodes && w.owner == n.owner
  {
    PrefixAfterMap(g, i, pos / BSIZE, n, n1, r, a);
    BytesAfterPatch(g, i, n1, pos / BSIZE, r, pos % BSIZE, chunk);
    PrefixFrame(n1, w, i, Max(a, BlocksFor(end)));
  }

  lemma PrefixFrame(m: Image, n: Image, i: nat, a: nat)
    requires i < |m.inodes| && n.inodes == m.inodes && Prefix(m.blocks, m.inodes[i], a)
    requires forall s :: 0 <= s < NSLOTS ==> Ref(n.blocks, m.inodes[i], s) == Ref(m.blocks, m.inodes[i], s)
    ensures Prefix(n.blocks, n.inodes[i], a)
  {}

  /** Files other than i are the same after a write. */
  lemma OthersSame(g: Geometry, i: nat, m: Image, n: Image, j: nat)
    requires Good(g, m) && i < g.ninodes && OnlyFile(g, i, m, n) && j < g.ninodes && j != i
    ensures SameFile(m, n, j)
  {
    if m.inodes[j].addrs[NDIRECT] != 0 { IndirectOwner(g, m.blocks, m.inodes, m.owner, j); }
    forall s | 0 <= s < NSLOTS
      ensures Ref(n.blocks, m.inodes[j], s) == Ref(m.blocks, m.inodes[j], s)
    {}
    forall s | 0 <= s < NSLOTS && Ref(m.blocks, m.inodes[j], s) != 0
      ensures n.blocks[Ref(m.blocks, m.inodes[j], s)] == m.blocks[Ref(m.blocks, m.inodes[j], s)]
    {
      assert m.owner[Ref(m.blocks, m.inodes[j], s)] == Slot(j, s);
    }
  }

  /** An inode with another size. */
  function WithSize(ip: Inode, size: Uint): (r: Inode) {
    Inode(ip.kind, ip.nlink, size, ip.addrs)
  }

  /** The size field plays no part in block ownership. */
  lemma OwnedAfterSize(g: Geometry, m: Image, i: nat, ip: Inode)
    requires Good(g, m) && i < g.ninodes && ip.addrs == m.inodes[i].addrs
    ensures Good(g, Image(m.blocks, m.inodes[i := ip], m.owner))
    ensures forall s :: 0 <= s < NSLOTS ==> Ref(m.blocks, ip, s) == Ref(m.blocks, m.inodes[i], s)
  {
    var inodes' := m.inodes[i := ip];
    forall j, s | 0 <= j < g.ninodes && 0 <= s < NSLOTS
      ensures Ref(m.blocks, inodes'[j], s) == Ref(m.blocks, m.inodes[j], s)
    {}
    forall b | 0 <= b < g.size && m.owner[b].Slot? ensures SlotOk(g, m.blocks, inodes', m.owner, b) {
      assert SlotOk(g, m.blocks, m.inodes, m.owner, b);
    }
  }

  /** When everything is written and the size has been brought up to date, the file is without holes
      and its contents are the old ones with src spliced in. */
  lemma WriteFinished(g: Geometry, i: nat, m: Image, n: Image, off: nat, src: seq<Byte>, ip: Inode)
    requires Good(g, m) && i < g.ninodes && NoHoles(m.blocks, m.inodes[i])
    requires off <= m.inodes[i].size && off + |src| <= MAXFILE * BSIZE
    requires Writing(g, i, m, n, off, src, |src|, BlocksFor(m.inodes[i].size))
    requires ip == WithSize(n.inodes[i], Max(m.inodes[i].size, off + |src|))
    ensures NoHoles(n.blocks, ip)
    ensures Content(n.blocks, ip) == Splice(Content(m.blocks, m.inodes[i]), off, src)
  {
    var a := BlocksFor(m.inodes[i].size);
    assert BlocksFor(ip.size) == Max(a, BlocksFor(off + |src|));
    SizeOnly(n, n.inodes[i], ip, Max(a, BlocksFor(off + |src|)));
    SplicedContent(m, n, i, off, src, ip);
  }

  lemma SizeOnly(n: Image, ip: Inode, ip': Inode, a: nat)
    requires ip'.addrs == ip.addrs && Prefix(n.blocks, ip, a)
    ensures Prefix(n.blocks, ip', a)
    ensures forall k :: 0 <= k < MAXFILE * BSIZE ==> ByteAt(n.blocks, ip', k) == ByteAt(n.blocks, ip, k)
  {
    forall s | 0 <= s < NSLOTS ensures Ref(n.blocks, ip', s) == Ref(n.blocks, ip, s) {}
  }

  lemma SplicedContent(m: Image, n: Image, i: nat, off: nat, src: seq<Byte>, ip: Inode)
    requires i < |m.inodes| && i < |n.inodes| && off <= m.inodes[i].size <= MAXFILE * BSIZE
    requires off + |src| <= MAXFILE * BSIZE
    requires Overwritten(i, m, n, off, src, |src|, Max(BlocksFor(m.inodes[i].size) * BSIZE, off + |src|))
    requires forall k :: 0 <= k < MAXFILE * BSIZE ==> ByteAt(n.blocks, ip, k) == ByteAt(n.blocks, n.inodes[i], k)
    requires ip.size == Max(m.inodes[i].size, off + |src|)
    ensures Content(n.blocks, ip) == Splice(Content(m.blocks, m.inodes[i]), off, src)
  {
    var c := Content(m.blocks, m.inodes[i]);
    var d := Content(n.blocks, ip);
    assert |d| == |Splice(c, off, src)|;
    forall k | 0 <= k < |d| ensures d[k] == Splice(c, off, src)[k] {
      SpliceAt(c, off, src, k);
      assert d[k] == ByteAt(n.blocks, n.inodes[i], k);
    }
  }

  lemma SpliceAt(c: seq<Byte>, off: nat, src: seq<Byte>, k: nat)
    requires off <= |c| && k < Max(|c|, off + |src|)
    ensures |Splice(c, off, src)| == Max(|c|, off + |src|)
    ensures Splice(c, off, src)[k] == if off <= k < off + |src| then src[k - off] else c[k]
  {}

  /** The image after the size has been brought up to date. */
  function Resized(i: nat, n: Image, size: Uint): (w: Image)
    requires i < |n.inodes|
  {
    Image(n.blocks, n.inodes[i := WithSize(n.inodes[i], size)], n.owner)
  }

  /** Everything that the end of writei leaves in place. */
  lemma WriteFinishedImage(g: Geometry, i: nat, m: Image, n: Image, off: nat, src: seq<Byte>, size: Uint)
    requires Good(g, m) && NonePending(m.owner) && i < g.ninodes && NoHoles(m.blocks, m.inodes[i])
    requires off <= m.inodes[i].size && off + |src| <= MAXFILE * BSIZE
    requires Writing(g, i, m, n, off, src, |src|, BlocksFor(m.inodes[i].size))
    requires size == Max(m.inodes[i].size, off + |src|)
    ensures var w := Resized(i, n, size);
      && Good(g, w) && NonePending(w.owner)
      && (forall j :: 0 <= j < g.ninodes && j != i ==> SameFile(m, w, j))
      && w.inodes == m.inodes[i := w.inodes[i]]
      && NoHoles(w.blocks, w.inodes[i])
      && Content(w.blocks, w.inodes[i]) == Splice(Content(m.blocks, m.inodes[i]), off, src)
    ensures size == m.inodes[i].size ==> Resized(i, n, size) == n && n.inodes == m.inodes
  {
    WriteFinished(g, i, m, n, off, src, WithSize(n.inodes[i], size));
    OwnedAfterSize(g, n, i, WithSize(n.inodes[i], size));
    ResizedOthers(g, i, m, n, size);
    if size == m.inodes[i].size { Unresized(g, i, m, n, off, src, size); }
  }

  lemma ResizedOthers(g: Geometry, i: nat, m: Image, n: Image, size: Uint)
    requires Good(g, m) && NonePending(m.owner) && i < g.ninodes && OnlyFile(g, i, m, n)
    ensures var w := Resized(i, n, size);
      && NonePending(w.owner)
      && (forall j :: 0 <= j < g.ninodes && j != i ==> SameFile(m, w, j))
      && w.inodes == m.inodes[i := w.inodes[i]]
  {
    var w := Resized(i, n, size);
    forall j | 0 <= j < g.ninodes && j != i ensures SameFile(m, w, j) {
      OthersSame(g, i, m, n, j);
    }
  }

  lemma Unresized(g: Geometry, i: nat, m: Image, n: Image, off: nat, src: seq<Byte>, size: Uint)
    requires Good(g, m) && i < g.ninodes && m.inodes[i].size == size <= MAXFILE * BSIZE && off + |src| <= size
    requires BlocksFor(off + |src|) <= BlocksFor(size) ==> n.inodes == m.inodes
    ensures i < |n.inodes| && n.inodes == m.inodes && Resized(i, n, size) == n
  {
    assert BlocksFor(off + |src|) <= BlocksFor(size);
  }

  lemma WritingStart(g: Geometry, i: nat, m: Image, off: nat, src: seq<Byte>)
    requires Good(g, m) && i < g.ninodes && NoHoles(m.blocks, m.inodes[i])
    requires off <= m.inodes[i].size && off + |src| <= MAXFILE * BSIZE
    ensures Writing(g, i, m, m, off, src, 0, BlocksFor(m.inodes[i].size))
  {}

  /** A stretch of one block of a file is a stretch of the file. */
  lemma ChunkOfContent(m: Image, i: nat, off: nat, len: nat, r: nat)
    requires i < |m.inodes| && NoHoles(m.blocks, m.inodes[i])
    requires len <= BSIZE - off % BSIZE && off + len <= m.inodes[i].size
    requires off / BSIZE < MAXFILE && r == Ref(m.blocks, m.inodes[i], SlotOf(off / BSIZE)) && r < |m.blocks|
    ensures m.blocks[r][off % BSIZE..off % BSIZE + len] == Content(m.blocks, m.inodes[i])[off..off + len]
  {
    var x := m.blocks[r][off % BSIZE..off % BSIZE + len];
    var y := Content(m.blocks, m.inodes[i])[off..off + len];
    forall k | 0 <= k < len ensures x[k] == y[k] {
      assert (off + k) / BSIZE == off / BSIZE && (off + k) % BSIZE == off % BSIZE + k;
      assert y[k] == ByteAt(m.blocks, m.inodes[i], off + k);
    }
    assert x == y;
  }

  // ----- changes below the bitmap -----

  /** The image after a block below the bitmap was written. */
  function MetaImage(m: Image, x: nat, data: Block): (n: Image)
    requires x < |m.blocks|
  {
    Image(m.blocks[x := data], m.inodes, m.owner)
  }

  /** Such a write changes no file. */
  lemma MetaKeeps(g: Geometry, m: Image, x: nat, data: Block, j: nat)
    requires Good(g, m) && x < g.bmapstart && j < g.ninodes
    ensures Good(g, MetaImage(m, x, data)) && SameFile(m, MetaImage(m, x, data), j)
    ensures NoHoles(m.blocks, m.inodes[j]) ==>
      NoHoles(MetaImage(m, x, data).blocks, m.inodes[j])
        && Content(MetaImage(m, x, data).blocks, m.inodes[j]) == Content(m.blocks, m.inodes[j])
  {
    var n := MetaImage(m, x, data);
    OwnedAfterMeta(g, m.blocks, m.inodes, m.owner, x, data);
    forall s | 0 <= s < NSLOTS && Ref(m.blocks, m.inodes[j], s) != 0 ensures Ref(m.blocks, m.inodes[j], s) >= g.nmeta {
      assert m.owner[Ref(m.blocks, m.inodes[j], s)] == Slot(j, s);
    }
    assert SameFile(m, n, j);
    if NoHoles(m.blocks, m.inodes[j]) { SameFileContent(m, n, j); }
  }

  lemma SameFileTransitive(l: Image, m: Image, n: Image, j: nat)
    requires j < |l.inodes| && j < |m.inodes| && |l.blocks| == |m.blocks| && SameFile(l, m, j) && SameFile(m, n, j)
    ensures SameFile(l, n, j)
  {}
}
