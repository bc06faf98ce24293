/** struct dinode (fs.h, fs.c: iupdate): inodes as bytes of the inode blocks, eight to a block. */
module Inodes {
  import opened Blocks
  import opened Layout

  const DINODE: nat := 64            // sizeof(struct dinode)
  const DINODE_WORDS: nat := 16

  // ----- a short among bytes -----

  function ShortAt(b: Block, o: nat): (v: Short)
    requires o + 2 <= BSIZE
  {
    var w := b[o] as int + 0x100 * b[o + 1] as int;
    if w < 0x8000 then w else w - 0x1_0000
  }

  function PutShort(b: Block, o: nat, v: Short): (r: Block)
    requires o + 2 <= BSIZE
  {
    var w := if v < 0 then v + 0x1_0000 else v;
    b[o := w % 0x100][o + 1 := w / 0x100]
  }

  lemma ShortAfterPut(b: Block, o: nat, v: Short)
    requires o + 2 <= BSIZE
    ensures ShortAt(PutShort(b, o, v), o) == v
    ensures forall k :: 0 <= k < BSIZE && !(o <= k < o + 2) ==> PutShort(b, o, v)[k] == b[k]
  {}

  // ----- several words -----

  /** The first n of the given words put in from word w0 on. */
  function PutWords(b: Block, w0: nat, ws: seq<Uint>, n: nat): (r: Block)
    requires n <= |ws| && w0 + |ws| <= WORDS
  {
    if n == 0 then b else SetWord(PutWords(b, w0, ws, n - 1), w0 + n - 1, ws[n - 1])
  }

  lemma {:induction false} WordsAfterPut(b: Block, w0: nat, ws: seq<Uint>, n: nat)
    requires n <= |ws| && w0 + |ws| <= WORDS
    ensures forall j :: 0 <= j < n ==> Word(PutWords(b, w0, ws, n), w0 + j) == ws[j]
    ensures forall k :: 0 <= k < BSIZE && !(4 * w0 <= k < 4 * (w0 + n)) ==> PutWords(b, w0, ws, n)[k] == b[k]
  {
    if n > 0 {
      var c := PutWords(b, w0, ws, n - 1);
      WordsAfterPut(b, w0, ws, n - 1);
      OnlyWord(c, w0 + n - 1, ws[n - 1]);
      forall j | 0 <= j < n ensures Word(PutWords(b, w0, ws, n), w0 + j) == ws[j] {
        WordAfterSet(c, w0 + n - 1, ws[n - 1], w0 + j);
      }
      hide Word, SetWord;
    }
  }

  lemma OnlyWord(b: Block, i: nat, v: Uint)
    requires i < WORDS
    ensures forall k :: 0 <= k < BSIZE && !(4 * i <= k < 4 * i + 4) ==> SetWord(b, i, v)[k] == b[k]
  {}

  lemma SameWord(b: Block, c: Block, i: nat)
    requires i < WORDS && forall k :: 4 * i <= k < 4 * i + 4 ==> b[k] == c[k]
    ensures Word(b, i) == Word(c, i)
  {}

  // ----- an inode in its block -----

  /** The k-th inode of a block. */
  function ReadInode(b: Block, k: nat): (ip: Inode)
    requires k < IPB
  {
    Inode(ShortAt(b, DINODE * k), ShortAt(b, DINODE * k + 6), Word(b, DINODE_WORDS * k + 2), ReadAddrs(b, k))
  }

  function ReadAddrs(b: Block, k: nat): (a: Addrs)
    requires k < IPB
  {
    var a := seq(NDIRECT + 1, j requires 0 <= j <= NDIRECT => Word(b, DINODE_WORDS * k + 3 + j));
    assert forall j :: 0 <= j <= NDIRECT ==> a[j] == Word(b, DINODE_WORDS * k + 3 + j);
    a
  }

  /** What iupdate makes of a block; the device numbers stay as they are. */
  function PutInode(b: Block, k: nat, ip: Inode): (r: Block)
    requires k < IPB
  {
    var c := PutShort(PutShort(b, DINODE * k, ip.kind), DINODE * k + 6, ip.nlink);
    PutWords(c, DINODE_WORDS * k + 2, [ip.size] + ip.addrs, NDIRECT + 2)
  }

  /** iupdate writes 64 bytes at most, so that the block's other inodes stay as they are, and what it
      writes is read back. */
  lemma InodeAfterPut(b: Block, k: nat, ip: Inode, j: nat)
    requires k < IPB && j < IPB
    ensures ReadInode(PutInode(b, k, ip), j) == if j == k then ip else ReadInode(b, j)
  {
    if j == k { OwnInode(b, k, ip); } else { OtherInode(b, k, ip, j); }
  }

  lemma OtherInode(b: Block, k: nat, ip: Inode, j: nat)
    requires k < IPB && j < IPB && j != k
    ensures ReadInode(PutInode(b, k, ip), j) == ReadInode(b, j)
  {
    var c0 := PutShort(b, DINODE * k, ip.kind);
    var c := PutShort(c0, DINODE * k + 6, ip.nlink);
    ShortAfterPut(b, DINODE * k, ip.kind);
    ShortAfterPut(c0, DINODE * k + 6, ip.nlink);
    WordsAfterPut(c, DINODE_WORDS * k + 2, [ip.size] + ip.addrs, NDIRECT + 2);
    hide PutShort, PutWords, ShortAt, Word, ReadInode;
    SameInode(b, PutInode(b, k, ip), j);
  }

  lemma OwnInode(b: Block, k: nat, ip: Inode)
    requires k < IPB
    ensures ReadInode(PutInode(b, k, ip), k) == ip
  {
    var c0 := PutShort(b, DINODE * k, ip.kind);
    var c := PutShort(c0, DINODE * k + 6, ip.nlink);
    var r := PutInode(b, k, ip);
    ShortAfterPut(b, DINODE * k, ip.kind);
    ShortAfterPut(c0, DINODE * k + 6, ip.nlink);
    OwnWords(c, k, ip);
    WordsAfterPut(c, DINODE_WORDS * k + 2, [ip.size] + ip.addrs, NDIRECT + 2);
    hide PutShort, PutWords;
    ShortSame(c, r, DINODE * k);
    ShortSame(c0, c, DINODE * k);
    ShortSame(c, r, DINODE * k + 6);
    hide ShortAt, Word;
  }

  lemma OwnWords(c: Block, k: nat, ip: Inode)
    requires k < IPB
    ensures var r := PutWords(c, DINODE_WORDS * k + 2, [ip.size] + ip.addrs, NDIRECT + 2);
      Word(r, DINODE_WORDS * k + 2) == ip.size && ReadAddrs(r, k) == ip.addrs
  {
    var w0, ws := DINODE_WORDS * k + 2, [ip.size] + ip.addrs;
    var r := PutWords(c, w0, ws, NDIRECT + 2);
    WordsAfterPut(c, w0, ws, NDIRECT + 2);
    hide PutWords, Word;
    assert Word(r, w0 + 0) == ws[0];
    forall t | 0 <= t <= NDIRECT ensures ReadAddrs(r, k)[t] == ip.addrs[t] {
      assert Word(r, w0 + (t + 1)) == ws[t + 1];
    }
  }

  lemma ShortSame(b: Block, c: Block, o: nat)
    requires o + 2 <= BSIZE && b[o] == c[o] && b[o + 1] == c[o + 1]
    ensures ShortAt(b, o) == ShortAt(c, o)
  {}

  /** An inode is a matter of its 64 bytes. */
  lemma SameInode(b: Block, c: Block, j: nat)
    requires j < IPB && forall o :: DINODE * j <= o < DINODE * j + DINODE ==> c[o] == b[o]
    ensures ReadInode(c, j) == ReadInode(b, j)
  {
    forall t | 0 <= t <= NDIRECT ensures ReadAddrs(c, j)[t] == ReadAddrs(b, j)[t] {
      SameWord(b, c, DINODE_WORDS * j + 3 + t);
    }
    SameWord(b, c, DINODE_WORDS * j + 2);
    assert ReadAddrs(c, j) == ReadAddrs(b, j);
  }

  // ----- the inode blocks -----

  /** The inodes that a disk holds. */
  function InodesOn(g: Geometry, blocks: Disk): (s: seq<Inode>)
    requires g.Valid() && |blocks| == g.size
    ensures |s| == g.ninodes
  {
    seq(g.ninodes, i requires 0 <= i < g.ninodes => ReadInode(blocks[g.InodeBlock(i)], i % IPB))
  }

  /** The blocks after iupdate of inode i. */
  function Updated(g: Geometry, blocks: Disk, i: nat, ip: Inode): (r: Disk)
    requires g.Valid() && |blocks| == g.size && i < g.ninodes
  {
    blocks[g.InodeBlock(i) := PutInode(blocks[g.InodeBlock(i)], i % IPB, ip)]
  }

  /** iupdate changes one inode on disk. */
  lemma InodesAfterUpdate(g: Geometry, blocks: Disk, i: nat, ip: Inode)
    requires g.Valid() && |blocks| == g.size && i < g.ninodes
    ensures InodesOn(g, Updated(g, blocks, i, ip)) == InodesOn(g, blocks)[i := ip]
  {
    var s, t := InodesOn(g, Updated(g, blocks, i, ip)), InodesOn(g, blocks)[i := ip];
    hide PutInode, ReadInode;
    forall j | 0 <= j < g.ninodes ensures s[j] == t[j] {
      if g.InodeBlock(j) == g.InodeBlock(i) {
        InodeAfterPut(blocks[g.InodeBlock(i)], i % IPB, ip, j % IPB);
        assert j % IPB == i % IPB ==> j == i;
      }
    }
  }

  /** Blocks from the bitmap on play no part in it. */
  lemma SameInodes(g: Geometry, blocks: Disk, blocks': Disk)
    requires g.Valid() && |blocks| == |blocks'| == g.size
    requires forall b :: g.inodestart <= b < g.bmapstart ==> blocks'[b] == blocks[b]
    ensures InodesOn(g, blocks') == InodesOn(g, blocks)
  {}
}
