/** Disk blocks as bytes, and the three ways the file system reads them: as bytes, as
    little-endian 32-bit words (log header, superblock, inodes, indirect blocks) and as
    bits (the allocation bitmap). */
module Blocks {
  import opened Params

  type Byte = x: nat | x < 256
  type Word32 = x: nat | x < 0x1_0000_0000
  type Block = b: seq<Byte> | |b| == BSIZE witness ZeroBlock()
  type Disk = seq<Block>

  function ZeroBlock(): seq<Byte> {
    seq(BSIZE, _ => 0)
  }

  /** The i-th 32-bit word of a block. */
  function Word(b: Block, i: nat): Word32
    requires i < WORDS
  {
    b[4 * i] as int + 0x100 * b[4 * i + 1] as int + 0x1_0000 * b[4 * i + 2] as int
      + 0x100_0000 * b[4 * i + 3] as int
  }

  /** The block after storing w as its i-th word. */
  function SetWord(b: Block, i: nat, w: Word32): Block
    requires i < WORDS
  {
    b[4 * i := w % 0x100]
     [4 * i + 1 := w / 0x100 % 0x100]
     [4 * i + 2 := w / 0x1_0000 % 0x100]
     [4 * i + 3 := w / 0x100_0000]
  }

  lemma SplitWord(w: Word32)
    ensures w / 0x100_0000 < 0x100
    ensures w == w % 0x100 + 0x100 * (w / 0x100 % 0x100) + 0x1_0000 * (w / 0x1_0000 % 0x100)
                 + 0x100_0000 * (w / 0x100_0000)
  {
    assert w / 0x100 / 0x100 == w / 0x1_0000;
    assert w / 0x1_0000 / 0x100 == w / 0x100_0000;
  }

  /** Storing a word and reading the block back as words. */
  lemma WordOfSetWord(b: Block, i: nat, w: Word32, j: nat)
    requires i < WORDS && j < WORDS
    ensures Word(SetWord(b, i, w), j) == if i == j then w else Word(b, j)
  {
    SplitWord(w);
  }

  /** The mask `1 << k`. */
  function Mask(k: nat): (m: nat)
    ensures m > 0
  {
    if k == 0 then 1 else 2 * Mask(k - 1)
  }

  /** Whether `x & (1 << k)` is nonzero. */
  predicate BitAt(x: nat, k: nat) {
    if k == 0 then x % 2 == 1 else BitAt(x / 2, k - 1)
  }

  /** Bit i of a block, least significant bit of byte 0 first. */
  predicate Bit(b: Block, i: nat)
    requires i < BPB
  {
    BitAt(b[i / 8], i % 8)
  }

  /** The block after `data[i/8] |= 1 << (i % 8)`. */
  function SetBit(b: Block, i: nat): Block
    requires i < BPB
  {
    if Bit(b, i) then b else
      AddMask(b[i / 8], i % 8, 8);
      b[i / 8 := b[i / 8] as int + Mask(i % 8)]
  }

  /** The block after `data[i/8] &= ~(1 << (i % 8))`. */
  function ClearBit(b: Block, i: nat): Block
    requires i < BPB
  {
    if !Bit(b, i) then b else
      SubtractMask(b[i / 8], i % 8);
      b[i / 8 := b[i / 8] as int - Mask(i % 8)]
  }

  lemma {:induction false} AddMask(x: nat, k: nat, n: nat)
    requires k < n && x < Mask(n) && !BitAt(x, k)
    ensures x + Mask(k) < Mask(n)
  {
    if k > 0 {
      assert Mask(n) == 2 * Mask(n - 1) && Mask(k) == 2 * Mask(k - 1);
      AddMask(x / 2, k - 1, n - 1);
    } else {
      assert Mask(n) % 2 == 0;
    }
  }

  lemma {:induction false} SubtractMask(x: nat, k: nat)
    requires BitAt(x, k)
    ensures Mask(k) <= x
  {
    if k > 0 {
      SubtractMask(x / 2, k - 1);
    }
  }

  lemma {:induction false} BitAtAddMask(x: nat, k: nat, j: nat)
    requires !BitAt(x, k)
    ensures BitAt(x + Mask(k), j) == (j == k || BitAt(x, j))
  {
    if k > 0 && j > 0 {
      assert (x + Mask(k)) / 2 == x / 2 + Mask(k - 1);
      BitAtAddMask(x / 2, k - 1, j - 1);
    } else if j > 0 {
      assert (x + Mask(k)) / 2 == x / 2;
    }
  }

  /** Setting a bit changes that bit alone. */
  lemma BitOfSetBit(b: Block, i: nat, j: nat)
    requires i < BPB && j < BPB
    ensures Bit(SetBit(b, i), j) == (i == j || Bit(b, j))
  {
    if !Bit(b, i) {
      AddMask(b[i / 8], i % 8, 8);
      BitAtAddMask(b[i / 8], i % 8, j % 8);
    }
  }

  /** Clearing a bit changes that bit alone. */
  lemma BitOfClearBit(b: Block, i: nat, j: nat)
    requires i < BPB && j < BPB
    ensures Bit(ClearBit(b, i), j) == (i != j && Bit(b, j))
  {
    if Bit(b, i) {
      SubtractMask(b[i / 8], i % 8);
      BitAtSubtractMask(b[i / 8], i % 8, j % 8);
    }
  }

  lemma {:induction false} BitAtSubtractMask(x: nat, k: nat, j: nat)
    requires BitAt(x, k) && Mask(k) <= x
    ensures BitAt(x - Mask(k), j) == (j != k && BitAt(x, j))
  {
    if k > 0 && j > 0 {
      assert (x - Mask(k)) / 2 == x / 2 - Mask(k - 1);
      BitAtSubtractMask(x / 2, k - 1, j - 1);
    } else if j > 0 {
      assert (x - Mask(k)) / 2 == x / 2;
    }
  }
}
