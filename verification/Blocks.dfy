/** Disk blocks as byte strings (fs.h): 32-bit little-endian words, as used by the log header and
    by indirect blocks, and single bits, as used by the free map. */
module Blocks {

  const BSIZE: nat := 512             // fs.h: block size
  const WORDS: nat := 128             // BSIZE / sizeof(uint): NINDIRECT
  const BPB: nat := 4096              // BSIZE * 8: bitmap bits per block
  const UINT_LIMIT: nat := 0x1_0000_0000

  type Byte = x: int | 0 <= x < 256
  type Block = b: seq<Byte> | |b| == BSIZE witness seq(BSIZE, _ => 0)
  type Uint = x: int | 0 <= x < UINT_LIMIT

  /** A block of zero bytes. */
  function ZeroBlock(): (b: Block)
    ensures forall k :: 0 <= k < BSIZE ==> b[k] == 0
  {
    seq(BSIZE, _ => 0)
  }

  /** One atomic single-block disk write. */
  datatype Write = Write(addr: nat, data: Block)

  type Disk = seq<Block>

  // ----- words -----

  /** The i-th 32-bit little-endian word of a block. */
  function Word(b: Block, i: nat): (w: Uint)
    requires i < WORDS
  {
    b[4 * i] as int + 0x100 * b[4 * i + 1] as int + 0x1_0000 * b[4 * i + 2] as int + 0x100_0000 * b[4 * i + 3] as int
  }

  /** The block with its i-th word replaced. */
  function SetWord(b: Block, i: nat, v: Uint): (r: Block)
    requires i < WORDS
  {
    b[4 * i := v % 0x100]
    [4 * i + 1 := v / 0x100 % 0x100]
    [4 * i + 2 := v / 0x1_0000 % 0x100]
    [4 * i + 3 := v / 0x100_0000]
  }

  lemma DigitsOfWord(v: Uint)
    ensures v == v % 0x100 + 0x100 * (v / 0x100 % 0x100) + 0x1_0000 * (v / 0x1_0000 % 0x100)
      + 0x100_0000 * (v / 0x100_0000)
    ensures 0 <= v / 0x100_0000 < 0x100
  {
    assert v / 0x1_0000 == v / 0x100 / 0x100;
    assert v / 0x100_0000 == v / 0x1_0000 / 0x100;
  }

  /** Reading any word after writing word i: only word i has changed, and it holds the new value. */
  lemma WordAfterSet(b: Block, i: nat, v: Uint, j: nat)
    requires i < WORDS && j < WORDS
    ensures Word(SetWord(b, i, v), j) == if j == i then v else Word(b, j)
  {
    DigitsOfWord(v);
  }

  /** A block of zero bytes holds only zero words. */
  lemma ZeroBlockWords(j: nat)
    requires j < WORDS
    ensures Word(ZeroBlock(), j) == 0
  {}

  // ----- bits -----

  /** Bit k of x: (x & (1 << k)) != 0. */
  predicate BitAt(x: nat, k: nat)
  {
    if k == 0 then x % 2 == 1 else BitAt(x / 2, k - 1)
  }

  /** x with bit k replaced: x | (1 << k) or x & ~(1 << k). */
  function PutBit(x: nat, k: nat, on: bool): (r: nat)
  {
    if k == 0 then x / 2 * 2 + (if on then 1 else 0) else PutBit(x / 2, k - 1, on) * 2 + x % 2
  }

  lemma {:induction false} BitAfterPut(x: nat, k: nat, on: bool, j: nat)
    ensures BitAt(PutBit(x, k, on), j) <==> if j == k then on else BitAt(x, j)
  {
    if k > 0 && j > 0 {
      BitAfterPut(x / 2, k - 1, on, j - 1);
      assert PutBit(x, k, on) / 2 == PutBit(x / 2, k - 1, on);
    } else if j > 0 {
      assert PutBit(x, k, on) / 2 == x / 2;
    }
  }

  /** Replacing one of the low w bits keeps a w-bit number a w-bit number. */
  lemma {:induction false} PutBitBound(x: nat, k: nat, on: bool, w: nat)
    requires k < w && x < Pow2(w)
    ensures PutBit(x, k, on) < Pow2(w)
  {
    if k > 0 { PutBitBound(x / 2, k - 1, on, w - 1); }
  }

  function Pow2(w: nat): nat {
    if w == 0 then 1 else 2 * Pow2(w - 1)
  }

  /** Bit i of a block: bit i % 8 of byte i / 8. */
  predicate Bit(b: Block, i: nat)
    requires i < BPB
  {
    BitAt(b[i / 8], i % 8)
  }

  /** The block with bit i set or cleared. */
  function SetBit(b: Block, i: nat, on: bool): (r: Block)
    requires i < BPB
  {
    assert PutBit(b[i / 8], i % 8, on) < 256 by { PutBitBound(b[i / 8], i % 8, on, 8); assert Pow2(8) == 256; }
    b[i / 8 := PutBit(b[i / 8], i % 8, on)]
  }

  /** Reading any bit after setting or clearing bit i: only bit i has changed. */
  lemma BitAfterSet(b: Block, i: nat, on: bool, j: nat)
    requires i < BPB && j < BPB
    ensures Bit(SetBit(b, i, on), j) <==> if j == i then on else Bit(b, j)
  {
    BitAfterPut(b[i / 8], i % 8, on, j % 8);
  }
}
