/** The free-block bitmap as the home sectors hold it, and what allocating and freeing a block
    does to it. All functions here read a value h: the home sectors of the disk. */
module Bitmap {
  import opened Params
  import opened Blocks
  import opened Layout

  function FsSize(h: Disk): nat
    requires |h| > 1
  {
    SbSize(h[1])
  }

  function FsInodes(h: Disk): nat
    requires |h| > 1
  {
    SbNinodes(h[1])
  }

  function BitmapBlock(h: Disk, b: nat): nat
    requires |h| > 1
  {
    BBlock(b, FsInodes(h))
  }

  /** First sector after the boot block, superblock, inodes and bitmap. */
  function DataStart(h: Disk): nat
    requires |h| > 1
  {
    BBlock(FsSize(h), FsInodes(h)) + 1
  }

  /** The layout fits: h is everything below the log, the log is inside the file system. */
  ghost predicate LayoutOk(h: Disk) {
    |h| > 1 && DataStart(h) <= |h| <= FsSize(h)
  }

  /** Whether the bitmap says block b is in use. */
  predicate Used(h: Disk, b: nat)
    requires LayoutOk(h) && b < FsSize(h)
  {
    Bit(h[BitmapBlock(h, b)], b % BPB)
  }

  /** A bitmap whose sectors below the data area are all marked in use, as mkfs leaves them. */
  ghost predicate BitmapOk(h: Disk) {
    && LayoutOk(h)
    && forall b | 0 <= b < DataStart(h) :: Used(h, b)
  }

  /** The free blocks of the data area. */
  ghost function Free(h: Disk): set<nat>
    requires LayoutOk(h)
  {
    set b | DataStart(h) <= b < |h| && !Used(h, b)
  }

  ghost function BitmapRange(size: nat, ninodes: nat): set<nat> {
    set b | 0 <= b <= size :: BBlock(b, ninodes)
  }

  /** The sectors that hold bitmap bits. */
  ghost function BitmapBlocks(h: Disk): set<nat>
    requires |h| > 1
  {
    BitmapRange(FsSize(h), FsInodes(h))
  }

  /** h after the bit of b is set and b is zeroed. */
  function Allocated(h: Disk, b: nat): Disk
    requires LayoutOk(h) && b < |h|
  {
    h[BitmapBlock(h, b) := SetBit(h[BitmapBlock(h, b)], b % BPB)][b := ZeroBlock()]
  }

  /** h after the bit of b is cleared. */
  function Freed(h: Disk, b: nat): Disk
    requires LayoutOk(h) && b < |h|
  {
    h[BitmapBlock(h, b) := ClearBit(h[BitmapBlock(h, b)], b % BPB)]
  }

  lemma BitmapBlocksPlace(h: Disk)
    requires LayoutOk(h)
    ensures forall s | s in BitmapBlocks(h) :: FsInodes(h) / IPB + 3 <= s < DataStart(h)
    ensures FsSize(h) < BPB ==> BitmapBlocks(h) == {BitmapBlock(h, 0)}
  {
    assert BitmapBlock(h, 0) in BitmapBlocks(h);
  }

  /** Two blocks share a bitmap bit only if they are the same block. */
  lemma BitPlace(b: nat, c: nat, ninodes: nat)
    ensures BBlock(b, ninodes) == BBlock(c, ninodes) && b % BPB == c % BPB ==> b == c
  {
  }

  /** Layout and bits survive a change elsewhere. */
  lemma SameBitmap(h: Disk, g: Disk)
    requires LayoutOk(h) && |g| == |h| && g[1] == h[1]
    requires forall s | s in BitmapBlocks(h) :: g[s] == h[s]
    ensures LayoutOk(g) && DataStart(g) == DataStart(h) && FsSize(g) == FsSize(h)
    ensures forall b | 0 <= b < FsSize(h) :: Used(g, b) == Used(h, b)
    ensures Free(g) == Free(h) && BitmapBlocks(g) == BitmapBlocks(h)
    ensures BitmapOk(h) ==> BitmapOk(g)
  {
    forall b | 0 <= b < FsSize(h)
      ensures Used(g, b) == Used(h, b)
    {
      assert BitmapBlock(h, b) in BitmapBlocks(h);
    }
  }

  /** Allocation takes exactly b out of the free blocks and zeroes it. */
  lemma AllocatedBits(h: Disk, b: nat)
    requires BitmapOk(h) && DataStart(h) <= b < |h|
    ensures var g := Allocated(h, b);
            && |g| == |h| && BitmapOk(g) && DataStart(g) == DataStart(h) && FsSize(g) == FsSize(h)
            && FsInodes(g) == FsInodes(h) && BitmapBlocks(g) == BitmapBlocks(h)
            && (forall c | 0 <= c < FsSize(h) :: Used(g, c) == (c == b || Used(h, c)))
            && Free(g) == Free(h) - {b}
            && g[b] == ZeroBlock()
            && (forall s | 0 <= s < |h| && s != b && s !in BitmapBlocks(h) :: g[s] == h[s])
  {
    hide Bit, SetBit;
    var g := Allocated(h, b);
    BitmapBlocksPlace(h);
    assert BitmapBlock(h, b) in BitmapBlocks(h) && g[1] == h[1];
    forall c | 0 <= c < FsSize(h)
      ensures Used(g, c) == (c == b || Used(h, c))
    {
      BitPlace(b, c, FsInodes(h));
      BitOfSetBit(h[BitmapBlock(h, b)], b % BPB, c % BPB);
    }
  }

  /** Freeing puts exactly b back and changes no other sector's contents. */
  lemma FreedBits(h: Disk, b: nat)
    requires BitmapOk(h) && DataStart(h) <= b < |h| && Used(h, b)
    ensures var g := Freed(h, b);
            && |g| == |h| && BitmapOk(g) && DataStart(g) == DataStart(h) && FsSize(g) == FsSize(h)
            && FsInodes(g) == FsInodes(h) && BitmapBlocks(g) == BitmapBlocks(h)
            && (forall c | 0 <= c < FsSize(h) :: Used(g, c) == (c != b && Used(h, c)))
            && Free(g) == Free(h) + {b} && b !in Free(h)
            && (forall s | 0 <= s < |h| && s !in BitmapBlocks(h) :: g[s] == h[s])
  {
    hide Bit, ClearBit;
    var g := Freed(h, b);
    BitmapBlocksPlace(h);
    assert BitmapBlock(h, b) in BitmapBlocks(h) && g[1] == h[1];
    forall c | 0 <= c < FsSize(h)
      ensures Used(g, c) == (c != b && Used(h, c))
    {
      BitPlace(b, c, FsInodes(h));
      BitOfClearBit(h[BitmapBlock(h, b)], b % BPB, c % BPB);
    }
  }
}
