/**
 Disk blocks as the file system reads them: 512 bytes, 4096 bitmap bits, or 128
 little-endian 32-bit words.
 */
module FsBytes {
  import opened Common

  const BPB: nat := 4096
  const WORDS: nat := 128
  const UINT: nat := 0x1_0000_0000

  type Block = b: seq<Byte> | |b| == BSIZE witness seq(BSIZE, _ => 0)

  function ZeroBlock(): (b: Block)
    ensures forall i :: 0 <= i < BSIZE ==> b[i] == 0
  {
    seq(BSIZE, _ => 0)
  }

  // ----- x & m, x | m and x & ~m for m = 1 << k, bit by bit from the right -----

  predicate TestBit(x: nat, k: nat) {
    if k == 0 then x % 2 == 1 else TestBit(x / 2, k - 1)
  }

  function OrBit(x: nat, k: nat): (y: nat) {
    if k == 0 then x / 2 * 2 + 1 else OrBit(x / 2, k - 1) * 2 + x % 2
  }

  function ClearBit(x: nat, k: nat): (y: nat)
    ensures y <= x
  {
    if k == 0 then x / 2 * 2 else ClearBit(x / 2, k - 1) * 2 + x % 2
  }

  lemma {:induction false} OrBitTest(x: nat, k: nat, l: nat)
    ensures TestBit(OrBit(x, k), l) <==> l == k || TestBit(x, l)
  {
    if k > 0 && l > 0 {
      OrBitTest(x / 2, k - 1, l - 1);
      assert OrBit(x, k) / 2 == OrBit(x / 2, k - 1);
    } else if k == 0 {
      assert OrBit(x, k) / 2 == x / 2;
    }
  }

  lemma {:induction false} ClearBitTest(x: nat, k: nat, l: nat)
    ensures TestBit(ClearBit(x, k), l) <==> l != k && TestBit(x, l)
  {
    if k > 0 && l > 0 {
      ClearBitTest(x / 2, k - 1, l - 1);
      assert ClearBit(x, k) / 2 == ClearBit(x / 2, k - 1);
    } else if k == 0 {
      assert ClearBit(x, k) / 2 == x / 2;
    }
  }

  function Power(n: nat): (p: nat)
    ensures p >= 1
  {
    if n == 0 then 1 else 2 * Power(n - 1)
  }

  lemma {:induction false} OrBitFits(x: nat, k: nat, n: nat)
    requires k < n && x < Power(n)
    ensures OrBit(x, k) < Power(n)
  {
    var h, p := x / 2, Power(n - 1);
    assert h < p;
    if k > 0 {
      OrBitFits(h, k - 1, n - 1);
    }
  }

  function OrByte(x: Byte, k: nat): (y: Byte)
    requires k < 8
  {
    OrBitFits(x, k, 8);
    assert Power(8) == 256;
    OrBit(x, k)
  }

  // Bit bi of a bitmap block, as balloc and bfree address it.
  predicate BlockBit(b: Block, bi: nat)
    requires bi < BPB
  {
    TestBit(b[bi / 8], bi % 8)
  }

  lemma BlockBitSet(b: Block, bi: nat, c: nat)
    requires bi < BPB && c < BPB
    ensures BlockBit(b[bi / 8 := OrByte(b[bi / 8], bi % 8)], c) <==> c == bi || BlockBit(b, c)
  {
    OrBitTest(b[bi / 8], bi % 8, c % 8);
  }

  lemma BlockBitCleared(b: Block, bi: nat, c: nat)
    requires bi < BPB && c < BPB
    ensures BlockBit(b[bi / 8 := ClearBit(b[bi / 8], bi % 8)], c) <==> c != bi && BlockBit(b, c)
  {
    ClearBitTest(b[bi / 8], bi % 8, c % 8);
  }

  // ----- words -----

  function Word(b: Block, j: nat): (w: nat)
    requires j < WORDS
    ensures w < UINT
  {
    var b0: int, b1: int, b2: int, b3: int := b[4 * j], b[4 * j + 1], b[4 * j + 2], b[4 * j + 3];
    b0 + 0x100 * b1 + 0x1_0000 * b2 + 0x100_0000 * b3
  }

  function SetWord(b: Block, j: nat, w: nat): (r: Block)
    requires j < WORDS && w < UINT
  {
    b[4 * j := w % 0x100][4 * j + 1 := w / 0x100 % 0x100]
     [4 * j + 2 := w / 0x1_0000 % 0x100][4 * j + 3 := w / 0x100_0000]
  }

  lemma WordSet(b: Block, j: nat, w: nat, k: nat)
    requires j < WORDS && w < UINT && k < WORDS
    ensures Word(SetWord(b, j, w), k) == if k == j then w else Word(b, k)
  {
    if k == j {
      Digits(w);
    }
  }

  lemma Digits(w: nat)
    requires w < UINT
    ensures w == w % 0x100 + 0x100 * (w / 0x100 % 0x100) + 0x1_0000 * (w / 0x1_0000 % 0x100)
                 + 0x100_0000 * (w / 0x100_0000)
  {
    assert w / 0x1_0000 == w / 0x100 / 0x100;
    assert w / 0x100_0000 == w / 0x1_0000 / 0x100;
  }

  lemma ZeroWord(j: nat)
    requires j < WORDS
    ensures Word(ZeroBlock(), j) == 0
  {
  }
}
