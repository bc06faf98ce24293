/** The on-disk structure of files (fs.h, fs.c): inodes, direct and indirect block pointers, the free
    map, and who owns which block. Everything here is a function of block contents and inodes. */
module Layout {
  import opened Blocks

  const NDIRECT: nat := 12
  const NINDIRECT: nat := WORDS
  const MAXFILE: nat := 140          // NDIRECT + NINDIRECT
  const NSLOTS: nat := 141           // pointers of one inode: 12 direct, the indirect one, 128 in its block
  const IPB: nat := 8                // inodes per block

  type Addrs = s: seq<Uint> | |s| == NDIRECT + 1 witness seq(NDIRECT + 1, _ => 0)

  /** The pointers of an empty file. */
  function NoAddrs(): (a: Addrs)
    ensures forall k :: 0 <= k <= NDIRECT ==> a[k] == 0
  {
    seq(NDIRECT + 1, _ => 0)
  }

  type Short = x: int | -0x8000 <= x < 0x8000

  /** struct inode without its device numbers. kind is ip->type; 0 is a free inode. */
  datatype Inode = Inode(kind: Short, nlink: Short, size: Uint, addrs: Addrs)

  /** An inode with other block pointers. */
  function WithAddrs(ip: Inode, addrs: Addrs): (r: Inode) {
    Inode(ip.kind, ip.nlink, ip.size, addrs)
  }

  /** The superblock: sb.size, inode and bitmap start, first data block, sb.ninodes. */
  datatype Geometry = Geometry(size: nat, inodestart: nat, bmapstart: nat, nmeta: nat, ninodes: nat) {
    /** Boot and super block, log, inodes and bitmap lie below the data blocks. */
    predicate Valid() {
      && inodestart + ninodes / IPB < bmapstart
      && 0 < bmapstart && bmapstart + (size + BPB - 1) / BPB <= nmeta <= size
      && size <= UINT_LIMIT
    }

    /** BBLOCK(b, sb). */
    function BitmapBlock(b: nat): nat { bmapstart + b / BPB }

    /** IBLOCK(i, sb). */
    function InodeBlock(i: nat): nat { inodestart + i / IPB }
  }

  // ----- the free map -----

  predicate InUse(g: Geometry, blocks: Disk, b: nat)
    requires g.Valid() && |blocks| == g.size && b < g.size
  {
    Bit(blocks[g.BitmapBlock(b)], b % BPB)
  }

  /** The blocks after setting or clearing the free-map bit of b. */
  function SetUse(g: Geometry, blocks: Disk, b: nat, on: bool): (r: Disk)
    requires g.Valid() && |blocks| == g.size && b < g.size
  {
    blocks[g.BitmapBlock(b) := SetBit(blocks[g.BitmapBlock(b)], b % BPB, on)]
  }

  lemma InUseAfterSet(g: Geometry, blocks: Disk, b: nat, on: bool, c: nat)
    requires g.Valid() && |blocks| == g.size && b < g.size && c < g.size
    ensures InUse(g, SetUse(g, blocks, b, on), c) <==> if c == b then on else InUse(g, blocks, c)
  {
    if c / BPB == b / BPB {
      BitAfterSet(blocks[g.BitmapBlock(b)], b % BPB, on, c % BPB);
    }
  }

  // ----- pointers -----

  /** The block that pointer s of an inode names, 0 for none. */
  function Ref(blocks: Disk, ip: Inode, s: nat): (b: nat)
    requires s < NSLOTS
  {
    if s <= NDIRECT then ip.addrs[s]
    else if ip.addrs[NDIRECT] == 0 || ip.addrs[NDIRECT] >= |blocks| then 0
    else Word(blocks[ip.addrs[NDIRECT]], s - NDIRECT - 1)
  }

  /** The pointer that holds the n-th block of a file. */
  function SlotOf(bn: nat): (s: nat)
    requires bn < MAXFILE
    ensures s < NSLOTS && s != NDIRECT
  {
    if bn < NDIRECT then bn else bn + 1
  }

  /** Whose a block is: the file system's own, nobody's, taken from the free map but not yet named
      by a pointer, or pointer s of inode i. */
  datatype Owner = Meta | Free | Pending | Slot(i: nat, s: nat)

  /** Block ownership: a free-map bit is set exactly for metadata blocks and for blocks that a pointer
      names, and no two pointers name the same block. */
  ghost predicate Owned(g: Geometry, blocks: Disk, inodes: seq<Inode>, owner: seq<Owner>) {
    && g.Valid() && |blocks| == g.size && |owner| == g.size && |inodes| == g.ninodes
    && (forall b :: 0 <= b < g.size ==> (owner[b].Meta? <==> b < g.nmeta))
    && (forall b :: 0 <= b < g.size ==> (InUse(g, blocks, b) <==> !owner[b].Free?))
    && (forall i, s :: 0 <= i < g.ninodes && 0 <= s < NSLOTS && Ref(blocks, inodes[i], s) != 0 ==>
          Ref(blocks, inodes[i], s) < g.size && owner[Ref(blocks, inodes[i], s)] == Slot(i, s))
    && (forall b :: 0 <= b < g.size && owner[b].Slot? ==> SlotOk(g, blocks, inodes, owner, b))
  }

  ghost predicate SlotOk(g: Geometry, blocks: Disk, inodes: seq<Inode>, owner: seq<Owner>, b: nat)
    requires b < |owner| && owner[b].Slot?
  {
    && owner[b].i < |inodes| && owner[b].s < NSLOTS
    && Ref(blocks, inodes[owner[b].i], owner[b].s) == b
  }

  ghost predicate NonePending(owner: seq<Owner>) {
    forall b :: 0 <= b < |owner| ==> !owner[b].Pending?
  }

  /** Ownership in words that do not mention an owner table. */
  lemma OwnedMeans(g: Geometry, blocks: Disk, inodes: seq<Inode>, owner: seq<Owner>, b: nat)
    requires Owned(g, blocks, inodes, owner) && NonePending(owner) && b < g.size
    ensures InUse(g, blocks, b) <==>
      b < g.nmeta || exists i, s :: 0 <= i < g.ninodes && 0 <= s < NSLOTS && Ref(blocks, inodes[i], s) == b
    ensures b < g.nmeta ==>
      forall i, s :: 0 <= i < g.ninodes && 0 <= s < NSLOTS && Ref(blocks, inodes[i], s) == b ==> b == 0
    ensures forall i, s, j, t :: (0 <= i < g.ninodes && 0 <= s < NSLOTS && 0 <= j < g.ninodes && 0 <= t < NSLOTS
      && Ref(blocks, inodes[i], s) == b != 0 && Ref(blocks, inodes[j], t) == b) ==> i == j && s == t
  {
    if owner[b].Slot? {
      assert SlotOk(g, blocks, inodes, owner, b);
    }
  }

  ghost predicate NotIndirect(owner: seq<Owner>, x: nat)
    requires x < |owner|
  {
    owner[x].Slot? ==> owner[x].s != NDIRECT
  }

  /** In an owned image, an inode's indirect block is owned as such. */
  lemma IndirectOwner(g: Geometry, blocks: Disk, inodes: seq<Inode>, owner: seq<Owner>, i: nat)
    requires Owned(g, blocks, inodes, owner) && i < g.ninodes && inodes[i].addrs[NDIRECT] != 0
    ensures inodes[i].addrs[NDIRECT] < g.size && owner[inodes[i].addrs[NDIRECT]] == Slot(i, NDIRECT)
  {
    assert Ref(blocks, inodes[i], NDIRECT) == inodes[i].addrs[NDIRECT];
  }

  /** Writing to a block that is not an indirect block and not in the bitmap keeps everything owned. */
  lemma OwnedAfterData(g: Geometry, blocks: Disk, inodes: seq<Inode>, owner: seq<Owner>, x: nat, data: Block)
    requires Owned(g, blocks, inodes, owner)
    requires g.nmeta <= x < g.size && NotIndirect(owner, x)
    ensures Owned(g, blocks[x := data], inodes, owner)
    ensures forall i, s :: 0 <= i < g.ninodes && 0 <= s < NSLOTS ==>
      Ref(blocks[x := data], inodes[i], s) == Ref(blocks, inodes[i], s)
  {
    var blocks' := blocks[x := data];
    forall i, s | 0 <= i < g.ninodes && 0 <= s < NSLOTS
      ensures Ref(blocks', inodes[i], s) == Ref(blocks, inodes[i], s)
    {
      if inodes[i].addrs[NDIRECT] != 0 { IndirectOwner(g, blocks, inodes, owner, i); }
    }
    forall b | 0 <= b < g.size ensures InUse(g, blocks', b) == InUse(g, blocks, b) {}
    forall b | 0 <= b < g.size && owner[b].Slot? ensures SlotOk(g, blocks', inodes, owner, b) {
      assert SlotOk(g, blocks, inodes, owner, b);
    }
  }

  /** Writing to a block below the bitmap keeps everything owned. */
  lemma OwnedAfterMeta(g: Geometry, blocks: Disk, inodes: seq<Inode>, owner: seq<Owner>, x: nat, data: Block)
    requires Owned(g, blocks, inodes, owner) && x < g.bmapstart
    ensures Owned(g, blocks[x := data], inodes, owner)
    ensures forall i, s :: 0 <= i < g.ninodes && 0 <= s < NSLOTS ==>
      Ref(blocks[x := data], inodes[i], s) == Ref(blocks, inodes[i], s)
    ensures forall b :: 0 <= b < g.size ==> InUse(g, blocks[x := data], b) == InUse(g, blocks, b)
  {
    var blocks' := blocks[x := data];
    forall i, s | 0 <= i < g.ninodes && 0 <= s < NSLOTS
      ensures Ref(blocks', inodes[i], s) == Ref(blocks, inodes[i], s)
    {
      if inodes[i].addrs[NDIRECT] != 0 { IndirectOwner(g, blocks, inodes, owner, i); }
    }
    forall b | 0 <= b < g.size && owner[b].Slot? ensures SlotOk(g, blocks', inodes, owner, b) {
      assert SlotOk(g, blocks, inodes, owner, b);
    }
  }

  /** Taking a free block: its bit is set, its contents are zeroed, and it waits to be named. */
  lemma OwnedAfterTake(g: Geometry, blocks: Disk, inodes: seq<Inode>, owner: seq<Owner>, b: nat)
    requires Owned(g, blocks, inodes, owner) && b < g.size && !InUse(g, blocks, b)
    ensures var blocks' := SetUse(g, blocks, b, true)[b := ZeroBlock()];
      && Owned(g, blocks', inodes, owner[b := Pending])
      && forall i, s :: 0 <= i < g.ninodes && 0 <= s < NSLOTS ==>
          Ref(blocks', inodes[i], s) == Ref(blocks, inodes[i], s)
  {
    var blocks1 := SetUse(g, blocks, b, true);
    var owner' := owner[b := Pending];
    forall i, s | 0 <= i < g.ninodes && 0 <= s < NSLOTS
      ensures Ref(blocks1, inodes[i], s) == Ref(blocks, inodes[i], s)
    {
      if inodes[i].addrs[NDIRECT] != 0 { IndirectOwner(g, blocks, inodes, owner, i); }
    }
    forall c | 0 <= c < g.size ensures InUse(g, blocks1, c) <==> !owner'[c].Free? {
      InUseAfterSet(g, blocks, b, true, c);
    }
    forall c | 0 <= c < g.size && owner'[c].Slot? ensures SlotOk(g, blocks1, inodes, owner', c) {
      assert SlotOk(g, blocks, inodes, owner, c);
    }
    assert Owned(g, blocks1, inodes, owner');
    OwnedAfterData(g, blocks1, inodes, owner', b, ZeroBlock());
  }

  /** Naming a pending block in one of the inode's own pointers. A new indirect block must be zeroed. */
  lemma OwnedAfterLink(g: Geometry, blocks: Disk, inodes: seq<Inode>, owner: seq<Owner>, i: nat, s: nat, b: nat)
    requires Owned(g, blocks, inodes, owner) && i < g.ninodes && s <= NDIRECT
    requires b < g.size && owner[b].Pending? && inodes[i].addrs[s] == 0
    requires s == NDIRECT ==> blocks[b] == ZeroBlock()
    ensures var ip := WithAddrs(inodes[i], inodes[i].addrs[s := b]);
      && Owned(g, blocks, inodes[i := ip], owner[b := Slot(i, s)])
      && forall t :: 0 <= t < NSLOTS ==> Ref(blocks, ip, t) == if t == s then b else Ref(blocks, inodes[i], t)
  {
    var ip := WithAddrs(inodes[i], inodes[i].addrs[s := b]);
    var inodes', owner' := inodes[i := ip], owner[b := Slot(i, s)];
    forall t | 0 <= t < NSLOTS ensures Ref(blocks, ip, t) == if t == s then b else Ref(blocks, inodes[i], t) {
      if t > NDIRECT && s == NDIRECT { ZeroBlockWords(t - NDIRECT - 1); }
    }
    forall c | 0 <= c < g.size && owner'[c].Slot? ensures SlotOk(g, blocks, inodes', owner', c) {
      if c != b { assert SlotOk(g, blocks, inodes, owner, c); }
    }
  }

  /** The pointers after an entry of the indirect block was filled. */
  lemma RefsAfterIndirectLink(g: Geometry, blocks: Disk, inodes: seq<Inode>, owner: seq<Owner>, i: nat, s: nat, b: Uint)
    requires Owned(g, blocks, inodes, owner) && i < g.ninodes && NDIRECT < s < NSLOTS && inodes[i].addrs[NDIRECT] != 0
    ensures var x := inodes[i].addrs[NDIRECT];
      && g.nmeta <= x < g.size && owner[x] == Slot(i, NDIRECT)
      && var blocks' := blocks[x := SetWord(blocks[x], s - NDIRECT - 1, b)];
      && (forall t :: 0 <= t < NSLOTS ==> Ref(blocks', inodes[i], t) == if t == s then b else Ref(blocks, inodes[i], t))
      && forall j, t :: 0 <= j < g.ninodes && j != i && 0 <= t < NSLOTS ==>
           Ref(blocks', inodes[j], t) == Ref(blocks, inodes[j], t)
  {
    IndirectOwner(g, blocks, inodes, owner, i);
    var x := inodes[i].addrs[NDIRECT];
    var blocks' := blocks[x := SetWord(blocks[x], s - NDIRECT - 1, b)];
    forall t | 0 <= t < NSLOTS ensures Ref(blocks', inodes[i], t) == if t == s then b else Ref(blocks, inodes[i], t) {
      if t > NDIRECT { WordAfterSet(blocks[x], s - NDIRECT - 1, b, t - NDIRECT - 1); }
    }
    hide Word, SetWord, InUse;
    forall j, t | 0 <= j < g.ninodes && j != i && 0 <= t < NSLOTS
      ensures Ref(blocks', inodes[j], t) == Ref(blocks, inodes[j], t)
    {
      if inodes[j].addrs[NDIRECT] != 0 { IndirectOwner(g, blocks, inodes, owner, j); }
    }
  }

  /** Naming a pending block in an entry of the indirect block. */
  lemma OwnedAfterIndirectLink(g: Geometry, blocks: Disk, inodes: seq<Inode>, owner: seq<Owner>, i: nat, s: nat, b: nat)
    requires Owned(g, blocks, inodes, owner) && i < g.ninodes && NDIRECT < s < NSLOTS
    requires b < g.size && owner[b].Pending? && inodes[i].addrs[NDIRECT] != 0 && Ref(blocks, inodes[i], s) == 0
    ensures var x := inodes[i].addrs[NDIRECT];
      && x < g.size
      && var blocks' := blocks[x := SetWord(blocks[x], s - NDIRECT - 1, b)];
      && Owned(g, blocks', inodes, owner[b := Slot(i, s)])
      && (forall t :: 0 <= t < NSLOTS ==> Ref(blocks', inodes[i], t) == if t == s then b else Ref(blocks, inodes[i], t))
      && forall j, t :: 0 <= j < g.ninodes && j != i && 0 <= t < NSLOTS ==>
           Ref(blocks', inodes[j], t) == Ref(blocks, inodes[j], t)
  {
    RefsAfterIndirectLink(g, blocks, inodes, owner, i, s, b);
    var x := inodes[i].addrs[NDIRECT];
    var blocks' := blocks[x := SetWord(blocks[x], s - NDIRECT - 1, b)];
    var owner' := owner[b := Slot(i, s)];
    forall c | 0 <= c < g.size ensures InUse(g, blocks', c) == InUse(g, blocks, c) {}
    hide Ref, Word, SetWord, InUse;
    forall c | 0 <= c < g.size && owner'[c].Slot? ensures SlotOk(g, blocks', inodes, owner', c) {
      if c != b { assert SlotOk(g, blocks, inodes, owner, c); }
    }
  }

  /** The owner table with everything of inode i given back. */
  function Release(owner: seq<Owner>, i: nat): (r: seq<Owner>) {
    seq(|owner|, b requires 0 <= b < |owner| => if owner[b].Slot? && owner[b].i == i then Free else owner[b])
  }

  /** Freeing exactly the blocks of inode i and clearing its pointers. */
  lemma OwnedAfterTruncate(g: Geometry, blocks: Disk, inodes: seq<Inode>, owner: seq<Owner>, i: nat, blocks': Disk,
                           ip: Inode)
    requires Owned(g, blocks, inodes, owner) && i < g.ninodes && |blocks'| == g.size
    requires ip.addrs == NoAddrs()
    requires forall b :: g.nmeta <= b < g.size ==> blocks'[b] == blocks[b]
    requires forall b :: 0 <= b < g.size ==>
      (InUse(g, blocks', b) <==> InUse(g, blocks, b) && !(owner[b].Slot? && owner[b].i == i))
    ensures Owned(g, blocks', inodes[i := ip], Release(owner, i))
    ensures forall j, t :: 0 <= j < g.ninodes && j != i && 0 <= t < NSLOTS ==>
      Ref(blocks', inodes[j], t) == Ref(blocks, inodes[j], t)
  {
    var inodes', owner' := inodes[i := ip], Release(owner, i);
    forall j, t | 0 <= j < g.ninodes && j != i && 0 <= t < NSLOTS
      ensures Ref(blocks', inodes[j], t) == Ref(blocks, inodes[j], t)
    {
      if inodes[j].addrs[NDIRECT] != 0 { IndirectOwner(g, blocks, inodes, owner, j); }
    }
    forall t | 0 <= t < NSLOTS ensures Ref(blocks', ip, t) == 0 {}
    forall c | 0 <= c < g.size && owner'[c].Slot? ensures SlotOk(g, blocks', inodes', owner', c) {
      assert SlotOk(g, blocks, inodes, owner, c);
    }
  }
}
