/** The file system that mkfs.c makes of no files: the states that the other modules keep exist. */
module Mkfs {
  import opened Blocks
  import opened Layout
  import opened Inodes
  import opened FileData
  import opened FileSystem
  import opened Directory
  import opened Paths
  import Links

  /** The root directory's inode: one block, nmeta, and the size rounded up to it. */
  function RootInode(block: Uint): (ip: Inode) {
    Inode(T_DIR, 1, BSIZE, NoAddrs()[0 := block])
  }

  /** "." and "..", both naming the root, and zeros. */
  function RootBlock(): (b: Block) {
    Encode(Dirent(ROOTINO, Padded(DOT))) + Encode(Dirent(ROOTINO, Padded(DOTDOT))) + seq(BSIZE - 2 * DIRENT, _ => 0)
  }

  /** What mkfs has written: the root directory in the first data block, and all other inodes free. */
  ghost predicate Made(g: Geometry, blocks: Disk) {
    && g.Valid() && |blocks| == g.size && 0 < g.nmeta < g.size < UINT_LIMIT && ROOTINO < g.ninodes
    && InodesOn(g, blocks) == MadeInodes(g)
    && (forall b :: 0 <= b < g.size ==> (InUse(g, blocks, b) <==> b <= g.nmeta))
    && blocks[g.nmeta] == RootBlock()
  }

  function MadeInodes(g: Geometry): (s: seq<Inode>)
    requires g.nmeta < UINT_LIMIT
  {
    seq(g.ninodes, i => if i == ROOTINO then RootInode(g.nmeta) else Inode(0, 0, 0, NoAddrs()))
  }

  lemma MadeAt(g: Geometry, i: nat)
    requires g.nmeta < UINT_LIMIT && i < g.ninodes
    ensures MadeInodes(g)[i] == if i == ROOTINO then RootInode(g.nmeta) else Inode(0, 0, 0, NoAddrs())
    ensures MadeInodes(g)[i].size == if i == ROOTINO then BSIZE else 0
    ensures forall s :: 0 <= s <= NDIRECT ==> MadeInodes(g)[i].addrs[s] == if i == ROOTINO && s == 0 then g.nmeta else 0
  {}

  function Owners(g: Geometry): (s: seq<Owner>) {
    seq(g.size, b => if b < g.nmeta then Meta else if b == g.nmeta then Slot(ROOTINO, 0) else Free)
  }

  /** The new file system is in order: ownership, inode blocks, no holes. */
  lemma MadeSettled(g: Geometry, blocks: Disk)
    requires Made(g, blocks)
    ensures Settled(g, Image(blocks, MadeInodes(g), Owners(g)))
    ensures forall i :: 0 <= i < g.ninodes ==> NoHoles(blocks, MadeInodes(g)[i])
  {
    var inodes, owner := MadeInodes(g), Owners(g);
    forall i, s | 0 <= i < g.ninodes && 0 <= s < NSLOTS
      ensures Ref(blocks, inodes[i], s) == if i == ROOTINO && s == 0 then g.nmeta else 0
    {
      MadeRef(g, blocks, i, s);
    }
    hide InodesOn, InUse, Ref, MadeInodes;
    forall b | 0 <= b < g.size && owner[b].Slot? ensures SlotOk(g, blocks, inodes, owner, b) {
      assert b == g.nmeta && owner[b] == Slot(ROOTINO, 0);
      assert Ref(blocks, inodes[ROOTINO], 0) == b;
    }
    forall i | 0 <= i < g.ninodes ensures NoHoles(blocks, inodes[i]) { MadeNoHoles(g, blocks, i); }
  }

  lemma MadeRef(g: Geometry, blocks: Disk, i: nat, s: nat)
    requires g.nmeta < UINT_LIMIT && i < g.ninodes && s < NSLOTS
    ensures Ref(blocks, MadeInodes(g)[i], s) == if i == ROOTINO && s == 0 then g.nmeta else 0
  {
    MadeAt(g, i);
    hide MadeInodes;
  }

  lemma MadeNoHoles(g: Geometry, blocks: Disk, i: nat)
    requires 0 < g.nmeta < UINT_LIMIT && i < g.ninodes
    ensures NoHoles(blocks, MadeInodes(g)[i])
  {
    MadeAt(g, i);
    assert BlocksFor(BSIZE) == 1 && BlocksFor(0) == 0;
    forall bn | 0 <= bn < MAXFILE
      ensures Ref(blocks, MadeInodes(g)[i], SlotOf(bn)) != 0 <==> bn < BlocksFor(MadeInodes(g)[i].size)
    {
      MadeRef(g, blocks, i, SlotOf(bn));
    }
    hide MadeInodes, BlocksFor, Ref;
  }

  /** The root names itself as "." and "..", and nothing else. */
  lemma MadeRoot(g: Geometry, blocks: Disk)
    requires Made(g, blocks)
    ensures AllDirs(Image(blocks, MadeInodes(g), Owners(g))) && IsDir(Image(blocks, MadeInodes(g), Owners(g)), ROOTINO)
    ensures var es := EntriesOf(Image(blocks, MadeInodes(g), Owners(g)), ROOTINO);
      DotsFirst(es) && Unique(es) && FreeUpTo(es, |es|) && Names(es) == map[DOT := ROOTINO, DOTDOT := ROOTINO]
  {
    RootContent(g, blocks);
    RootEntries();
    RootNames(Entries(RootBlock()));
    hide Made, Settled, MadeInodes, Owners, NoHoles, RootBlock, Content, Entries, Unique, DotsFirst, FreeUpTo, Names;
    MadeDirs(g, blocks, Entries(RootBlock()));
  }

  /** The root is the only directory. */
  lemma MadeDirs(g: Geometry, blocks: Disk, es: seq<Dirent>)
    requires Made(g, blocks) && MadeInodes(g)[ROOTINO].size == BSIZE
    requires es == Entries(Content(blocks, MadeInodes(g)[ROOTINO])) && Unique(es)
    requires forall k :: 0 <= k < |es| ==> es[k].inum <= ROOTINO
    ensures var m := Image(blocks, MadeInodes(g), Owners(g));
      IsDir(m, ROOTINO) && EntriesOf(m, ROOTINO) == es && AllDirs(m)
  {
    MadeSettled(g, blocks);
    hide Settled, Owners, Unique, Content, Entries;
    forall i | 0 <= i < g.ninodes ensures MadeInodes(g)[i].kind == (if i == ROOTINO then T_DIR else 0) {
      MadeAt(g, i);
    }
    hide MadeInodes, NoHoles;
  }

  lemma RootContent(g: Geometry, blocks: Disk)
    requires Made(g, blocks)
    ensures MadeInodes(g)[ROOTINO].size == BSIZE && Content(blocks, MadeInodes(g)[ROOTINO]) == RootBlock()
  {
    MadeAt(g, ROOTINO);
    MadeRef(g, blocks, ROOTINO, 0);
    hide InodesOn, InUse, RootBlock, MadeInodes, Ref;
    var c := Content(blocks, MadeInodes(g)[ROOTINO]);
    forall k | 0 <= k < BSIZE ensures c[k] == RootBlock()[k] {
      assert k / BSIZE == 0 && SlotOf(0) == 0;
    }
  }

  lemma RootEntries()
    ensures var es := Entries(RootBlock());
      && (forall k :: 0 <= k < |es| ==> es[k].inum <= ROOTINO)
      && |es| == BSIZE / DIRENT && es[0] == Dirent(ROOTINO, Padded(DOT)) && es[1] == Dirent(ROOTINO, Padded(DOTDOT))
      && forall k :: 2 <= k < |es| ==> es[k].inum == 0
  {
    var b := RootBlock();
    var d, e := Dirent(ROOTINO, Padded(DOT)), Dirent(ROOTINO, Padded(DOTDOT));
    DecodeEncode(d);
    DecodeEncode(e);
    hide Encode, Padded;
    assert b[DIRENT * 0..DIRENT * 1] == Encode(d);
    assert b[DIRENT * 1..DIRENT * 2] == Encode(e);
    assert EntryAt(b, 0) == d && EntryAt(b, 1) == e;
    forall k | 2 <= k < BSIZE / DIRENT ensures EntryAt(b, k).inum == 0 {}
  }

  lemma RootNames(es: seq<Dirent>)
    requires |es| >= 2 && es[0] == Dirent(ROOTINO, Padded(DOT)) && es[1] == Dirent(ROOTINO, Padded(DOTDOT))
    requires forall k :: 2 <= k < |es| ==> es[k].inum == 0
    ensures DotsFirst(es) && Unique(es) && FreeUpTo(es, |es|) && Names(es) == map[DOT := ROOTINO, DOTDOT := ROOTINO]
  {
    KeyOfPadded(DOT);
    KeyOfPadded(DOTDOT);
    KeyOfDots();
    hide Key, Padded;
    var m := map[DOT := ROOTINO, DOTDOT := ROOTINO];
    EmptyMeans(es);
    NamesAt(es, 0, DOT);
    NamesAt(es, 1, DOTDOT);
    hide Unique, DotsFirst, Live, FreeUpTo;
    SameMap(Names(es), m);
  }

  lemma KeyOfDots()
    ensures Key(DOT) == DOT && Key(DOTDOT) == DOTDOT
  {
    assert DOTDOT[1..] == [46];
    assert DOT[1..] == [] && DOTDOT[1..][1..] == [];
  }

  // ----- link counts -----

  /** The inodes with their entries as maps: a root with one link, which is its own "..". */
  function Nodes(n: nat): (s: seq<Links.Node>) {
    seq(n, i => if i == Links.ROOT
                then Links.Node(Links.T_DIR, 1, map[Links.DOT := Links.ROOT, Links.DOTDOT := Links.ROOT], 0, 0)
                else Links.Node(0, 0, map[], 0, 0))
  }

  /** Link counts start out right. */
  lemma MadeLinks(n: nat)
    requires n > Links.ROOT
    ensures Links.Inv(Nodes(n))
  {
    var s := Nodes(n);
    forall d, m, i | Links.Counts(s, d, m, i) ensures d == Links.ROOT && m == Links.DOTDOT && i == Links.ROOT {}
    forall i | 0 <= i < n ensures Links.CountOk(s, i) {
      if i == Links.ROOT {
        assert Links.Counts(s, Links.ROOT, Links.DOTDOT, Links.ROOT);
        forall x: (int, Links.Name) ensures x in Links.Refs(s, i) <==> x == (Links.ROOT as int, Links.DOTDOT) {
          Links.InRefs(s, x.0, x.1, i);
        }
        assert Links.Refs(s, i) == {(Links.ROOT as int, Links.DOTDOT)};
      } else {
        assert Links.Refs(s, i) == {};
      }
    }
    forall i | 0 <= i < n ensures Links.NodeOk(s, i) {}
    forall d | 0 <= d < n ensures Links.TreeOk(s, d) {}
  }
}
