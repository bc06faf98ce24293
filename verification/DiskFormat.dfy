/** The disk format byte by byte (fs.h, log.c): what a disk holds is said here in terms of its bytes alone,
    with numbers written little-endian, and is the same for every program that keeps to the format. */
module DiskFormat {
  import opened Blocks
  import opened Layout
  import opened Inodes
  import opened FileData
  import Directory
  import Recovery

  /** The number that these bytes stand for, lowest byte first. */
  function Number(s: seq<Byte>): (n: nat) {
    if |s| == 0 then 0 else s[0] + 256 * Number(s[1..])
  }

  // ----- numbers in a block -----

  lemma WordIs(b: Block, i: nat)
    requires i < 128
    ensures Word(b, i) == Number(b[4 * i..4 * i + 4])
  {
    var s := b[4 * i..4 * i + 4];
    assert s[1..][1..] == s[2..] && s[2..][1..] == s[3..] && s[3..][1..] == [];
    assert Number(s[3..]) == s[3] && Number(s[2..]) == s[2] + 256 * Number(s[3..]);
  }

  /** A short is stored modulo 2^16. */
  lemma ShortIs(b: Block, o: nat)
    requires o + 2 <= 512
    ensures Number(b[o..o + 2]) == ShortAt(b, o) % 0x1_0000
  {
    var s := b[o..o + 2];
    assert s[1..][1..] == [];
    assert Number(s[1..]) == s[1];
  }

  /** Bit k of a byte is worth 2^k. */
  lemma {:induction false} BitIs(x: nat, k: nat) returns (above: nat, below: nat)
    ensures x == (2 * above + if BitAt(x, k) then 1 else 0) * Pow2(k) + below && below < Pow2(k)
  {
    if k == 0 {
      above, below := x / 2, 0;
    } else {
      var low;
      above, low := BitIs(x / 2, k - 1);
      below := 2 * low + x % 2;
      Doubled(2 * above + if BitAt(x, k) then 1 else 0, Pow2(k - 1));
    }
  }

  lemma Doubled(a: nat, p: nat)
    ensures a * (2 * p) == 2 * (a * p)
  {}

  // ----- the parts of the disk -----

  /** The log header: the count, and the block numbers behind it. */
  lemma LogHeader(h: Block, bs: seq<Uint>)
    requires |bs| <= 30
    ensures var r := Recovery.PutHeader(h, bs);
      Number(r[0..4]) == |bs| && forall t :: 0 <= t < |bs| ==> Number(r[4 * t + 4..4 * t + 8]) == bs[t]
  {
    var r := Recovery.PutHeader(h, bs);
    Recovery.PutEntriesWords(h, bs, |bs|);
    WordIs(r, 0);
    hide Number, Word, Recovery.PutHeader;
    forall t | 0 <= t < |bs| ensures Number(r[4 * t + 4..4 * t + 8]) == bs[t] { WordIs(r, t + 1); }
  }

  /** Block b is free or in use by bit b % 8 of a byte of its bitmap block. */
  lemma FreeMapBit(g: Geometry, d: Disk, b: nat) returns (above: nat, below: nat)
    requires g.Valid() && |d| == g.size && b < g.size
    ensures d[g.bmapstart + b / 4096][b % 4096 / 8]
      == (2 * above + if InUse(g, d, b) then 1 else 0) * Pow2(b % 8) + below
    ensures below < Pow2(b % 8)
  {
    above, below := BitIs(d[g.BitmapBlock(b)][b % 4096 / 8], b % 8);
    assert b % 4096 % 8 == b % 8;
  }

  /** struct dinode: type, major, minor and nlink at 0, 2, 4 and 6, the size at 8, thirteen addresses from
      12 on. */
  predicate IsDinode(s: seq<Byte>, ip: Inode)
    requires |s| == 64
  {
    && Number(s[0..2]) == ip.kind % 0x1_0000
    && Number(s[6..8]) == ip.nlink % 0x1_0000
    && Number(s[8..12]) == ip.size
    && forall j :: 0 <= j <= 12 ==> Number(s[12 + 4 * j..16 + 4 * j]) == ip.addrs[j]
  }

  lemma DinodeIs(b: Block, k: nat)
    requires k < 8
    ensures IsDinode(b[64 * k..64 * k + 64], ReadInode(b, k))
  {
    var s, ip := b[64 * k..64 * k + 64], ReadInode(b, k);
    Inside(b, 64 * k, 0, 2);
    Inside(b, 64 * k, 6, 8);
    Inside(b, 64 * k, 8, 12);
    ShortIs(b, 64 * k);
    ShortIs(b, 64 * k + 6);
    WordIs(b, 16 * k + 2);
    hide Number, Word, ShortAt;
    forall j | 0 <= j <= 12 ensures Number(s[12 + 4 * j..16 + 4 * j]) == ip.addrs[j] { AddressIs(b, k, j); }
  }

  lemma AddressIs(b: Block, k: nat, j: nat)
    requires k < 8 && j <= 12
    ensures Number(b[64 * k..64 * k + 64][12 + 4 * j..16 + 4 * j]) == ReadInode(b, k).addrs[j]
  {
    Inside(b, 64 * k, 12 + 4 * j, 16 + 4 * j);
    WordIs(b, 16 * k + 3 + j);
    hide Number, Word;
  }

  lemma Inside(b: Block, at: nat, i: nat, j: nat)
    requires i <= j <= 64 && at + 64 <= 512
    ensures b[at..at + 64][i..j] == b[at + i..at + j]
  {
    var s := b[at..at + 64];
    forall p | 0 <= p < j - i ensures s[i..j][p] == b[at + i..at + j][p] {}
  }

  /** Where an inode is on the disk. */
  lemma InodePlace(g: Geometry, d: Disk, i: nat)
    requires g.Valid() && |d| == g.size && i < g.ninodes
    ensures IsDinode(d[g.inodestart + i / 8][64 * (i % 8)..64 * (i % 8) + 64], InodesOn(g, d)[i])
  {
    DinodeIs(d[g.InodeBlock(i)], i % 8);
  }

  /** iupdate writes an inode in this format, and nothing but its own fields. */
  lemma DinodeWritten(b: Block, k: nat, ip: Inode)
    requires k < 8
    ensures IsDinode(PutInode(b, k, ip)[64 * k..64 * k + 64], ip)
    ensures forall o :: 0 <= o < 512 && (o < 64 * k || 64 * k + 2 <= o < 64 * k + 6 || 64 * k + 64 <= o) ==>
      PutInode(b, k, ip)[o] == b[o]
  {
    var c0 := PutShort(b, DINODE * k, ip.kind);
    var c := PutShort(c0, DINODE * k + 6, ip.nlink);
    InodeAfterPut(b, k, ip, k);
    DinodeIs(PutInode(b, k, ip), k);
    ShortAfterPut(b, DINODE * k, ip.kind);
    ShortAfterPut(c0, DINODE * k + 6, ip.nlink);
    WordsAfterPut(c, DINODE_WORDS * k + 2, [ip.size] + ip.addrs, NDIRECT + 2);
    hide PutShort, PutWords, IsDinode;
  }

  /** The number of a file's n-th block, 0 for a hole: from the inode, or from the block that the inode's last
      address names. */
  function BlockNumber(d: Disk, ip: Inode, n: nat): (b: nat)
    requires n < 140
  {
    if n < 12 then ip.addrs[n]
    else if 0 < ip.addrs[12] < |d| then Number(d[ip.addrs[12]][4 * (n - 12)..4 * (n - 12) + 4])
    else 0
  }

  /** Where byte k of a file is on the disk. */
  lemma FileByte(d: Disk, ip: Inode, k: nat)
    requires ip.size <= 140 * 512 && k < ip.size
    ensures var b := BlockNumber(d, ip, k / 512);
      b < |d| ==> Content(d, ip)[k] == d[b][k % 512]
  {
    var n := k / 512;
    if n >= 12 && 0 < ip.addrs[12] < |d| { WordIs(d[ip.addrs[12]], n - 12); }
    hide Word, Number;
    assert Content(d, ip)[k] == ByteAt(d, ip, k);
  }

  /** struct dirent: the inode number, and fourteen bytes of name. */
  lemma EntryPlace(c: seq<Byte>, k: nat)
    requires |c| % 16 == 0 && 16 * k + 16 <= |c|
    ensures var e := Directory.Entries(c)[k];
      e.inum == Number(c[16 * k..16 * k + 2]) && e.name == c[16 * k + 2..16 * k + 16]
  {
    var s := c[16 * k..16 * k + 2];
    var t := c[16 * k..16 * k + 16];
    assert s[1..][1..] == [] && Number(s[1..]) == s[1];
    assert t[0] == s[0] && t[1] == s[1];
    assert Directory.Entries(c)[k] == Directory.EntryAt(c, k);
  }

  /** A name ends at its first zero byte or after fourteen, and zeros follow it. */
  lemma NameBytes(name: seq<Byte>)
    ensures var key := Directory.Key(name);
      && key <= name && 0 !in key && |key| <= 14
      && (|key| == 14 || |key| == |name| || name[|key|] == 0)
      && Directory.Padded(name) == key + seq(14 - |key|, _ => 0)
  {
    CutIs(name, 14);
  }

  lemma {:induction false} CutIs(s: seq<Byte>, n: nat)
    ensures Directory.Cut(s, n) <= s
    ensures var r := Directory.Cut(s, n); |r| == n || |r| == |s| || s[|r|] == 0
    decreases n
  {
    if n > 0 && |s| > 0 && s[0] != 0 { CutIs(s[1..], n - 1); }
  }
}
