/** How an inode's block addresses map a file onto disk blocks. The meaning of an inode is its
    block list `blk`: twelve direct addresses, then the words of one indirect block. The blocks a
    file owns are its list and its indirect block; `others` are the blocks of all other files. */
module FileMap {
  import opened Lists
  import opened Params
  import opened Blocks
  import opened Bitmap

  /** The addresses, and the indirect block they name, list exactly blk. */
  ghost predicate Maps(h: Disk, addrs: seq<nat>, blk: seq<nat>) {
    && |addrs| == NDIRECT + 1 && |blk| <= MAXFILE
    && (forall i | 0 <= i < NDIRECT :: addrs[i] == if i < |blk| then blk[i] else 0)
    && (addrs[NDIRECT] == 0 ==> |blk| <= NDIRECT)
    && (addrs[NDIRECT] != 0 ==> addrs[NDIRECT] < |h| && ListsTail(h[addrs[NDIRECT]], blk))
  }

  /** The indirect block lists blk from its thirteenth entry on, and zeros after it. */
  ghost predicate ListsTail(ind: Block, blk: seq<nat>) {
    forall j | 0 <= j < NINDIRECT ::
      Word(ind, j) == if NDIRECT + j < |blk| then blk[NDIRECT + j] else 0
  }

  /** An indirect block is present only if it is needed. */
  ghost predicate Tight(addrs: seq<nat>, blk: seq<nat>)
    requires |addrs| == NDIRECT + 1
  {
    addrs[NDIRECT] != 0 <==> |blk| > NDIRECT
  }

  ghost function Elems(s: seq<nat>): set<nat> {
    set b | b in s
  }

  ghost function Owned(addrs: seq<nat>, blk: seq<nat>): set<nat>
    requires |addrs| == NDIRECT + 1
  {
    Elems(blk) + (if addrs[NDIRECT] == 0 then {} else {addrs[NDIRECT]})
  }

  /** A block of the data area, marked in use. */
  ghost predicate DataBlock(h: Disk, b: nat)
    requires LayoutOk(h)
  {
    DataStart(h) <= b < |h| && Used(h, b)
  }

  /** Every owned block has one owner and its bitmap bit set. */
  ghost predicate FileOk(h: Disk, addrs: seq<nat>, blk: seq<nat>, others: set<nat>) {
    && BitmapOk(h) && Maps(h, addrs, blk) && Distinct(blk) && addrs[NDIRECT] !in blk
    && Owned(addrs, blk) !! others
    && forall b | b in Owned(addrs, blk) || b in others :: DataBlock(h, b)
  }

  /** g agrees with h except on the sectors of S. */
  ghost predicate Frame(h: Disk, g: Disk, S: set<nat>) {
    |g| == |h| && forall s | 0 <= s < |h| && s !in S :: g[s] == h[s]
  }

  lemma DataBlockIsNotBitmap(h: Disk, b: nat)
    requires LayoutOk(h) && DataStart(h) <= b
    ensures b !in BitmapBlocks(h) && b > 1
  {
    BitmapBlocksPlace(h);
  }

  /** What allocation keeps for a file: all of it. */
  lemma AllocKeepsFile(h: Disk, addrs: seq<nat>, blk: seq<nat>, others: set<nat>, b: nat)
    requires FileOk(h, addrs, blk, others) && b in Free(h)
    ensures var g := Allocated(h, b);
            && FileOk(g, addrs, blk, others)
            && b !in Owned(addrs, blk) && b !in others && DataBlock(g, b)
            && g[b] == ZeroBlock() && Free(g) == Free(h) - {b}
            && Frame(h, g, BitmapBlocks(h) + {b}) && BitmapBlocks(g) == BitmapBlocks(h) && g[1] == h[1]
  {
    hide Used, Allocated, ListsTail, BitmapBlocks;
    var g := Allocated(h, b);
    AllocatedBits(h, b);
    DataBlockIsNotBitmap(h, b);
    BitmapBlocksPlace(h);
    assert !DataBlock(h, b);
    forall s | s in Owned(addrs, blk) || s in others
      ensures DataBlock(g, s) && g[s] == h[s]
    {
      DataBlockIsNotBitmap(h, s);
    }
    assert addrs[NDIRECT] != 0 ==> addrs[NDIRECT] in Owned(addrs, blk);
  }

  /** bmap on a direct block that does not exist yet. */
  lemma GrowDirect(h: Disk, addrs: seq<nat>, blk: seq<nat>, others: set<nat>, b: nat)
    requires FileOk(h, addrs, blk, others) && b in Free(h) && |blk| < NDIRECT
    ensures FileOk(Allocated(h, b), addrs[|blk| := b], blk + [b], others)
  {
    hide Used, Allocated, Free;
    AllocKeepsFile(h, addrs, blk, others, b);
    var g, addrs', blk' := Allocated(h, b), addrs[|blk| := b], blk + [b];
    assert addrs[NDIRECT] != 0 ==> ListsTail(g[addrs[NDIRECT]], blk');
    assert addrs[NDIRECT] != 0 ==> addrs[NDIRECT] in Owned(addrs, blk);
    OwnedGrows(addrs, blk, addrs', b);
    DataBlockIsNotBitmap(g, b);
  }

  lemma OwnedGrows(addrs: seq<nat>, blk: seq<nat>, addrs': seq<nat>, b: nat)
    requires |addrs| == |addrs'| == NDIRECT + 1 && addrs'[NDIRECT] == addrs[NDIRECT]
    ensures Owned(addrs', blk + [b]) == Owned(addrs, blk) + {b}
  {
  }

  lemma ZeroWord(j: nat)
    requires j < WORDS
    ensures Word(ZeroBlock(), j) == 0
  {
  }

  /** bmap when it allocates the indirect block. */
  lemma GrowIndirect(h: Disk, addrs: seq<nat>, blk: seq<nat>, others: set<nat>, b: nat)
    requires FileOk(h, addrs, blk, others) && b in Free(h)
    requires |blk| == NDIRECT && addrs[NDIRECT] == 0
    ensures FileOk(Allocated(h, b), addrs[NDIRECT := b], blk, others)
    ensures Owned(addrs[NDIRECT := b], blk) == Owned(addrs, blk) + {b}
  {
    hide Used, Allocated, Free, Word, ZeroBlock;
    AllocKeepsFile(h, addrs, blk, others, b);
    var g, addrs' := Allocated(h, b), addrs[NDIRECT := b];
    DataBlockIsNotBitmap(g, b);
    forall j | 0 <= j < NINDIRECT
      ensures Word(g[b], j) == 0
    {
      ZeroWord(j);
    }
    assert Owned(addrs', blk) == Owned(addrs, blk) + {b};
  }

  /** bmap when it stores a new data block's address into the indirect block. */
  lemma GrowTail(h: Disk, addrs: seq<nat>, blk: seq<nat>, others: set<nat>, b: nat, g: Disk)
    requires FileOk(h, addrs, blk, others) && addrs[NDIRECT] != 0
    requires NDIRECT <= |blk| < MAXFILE && b < TWO32
    requires DataBlock(h, b) && b !in Owned(addrs, blk) && b !in others
    requires g == h[addrs[NDIRECT] := SetWord(h[addrs[NDIRECT]], |blk| - NDIRECT, b)]
    ensures FileOk(g, addrs, blk + [b], others)
    ensures Free(g) == Free(h) && BitmapBlocks(g) == BitmapBlocks(h) && g[1] == h[1]
    ensures Owned(addrs, blk + [b]) == Owned(addrs, blk) + {b}
  {
    hide Used, Free, Word, SetWord, BitmapBlocks;
    var ind := addrs[NDIRECT];
    assert ind in Owned(addrs, blk);
    DataBlockIsNotBitmap(h, ind);
    DataBlockIsNotBitmap(h, b);
    BitmapBlocksPlace(h);
    SameBitmap(h, g);
    OwnedGrows(addrs, blk, addrs, b);
    forall j | 0 <= j < NINDIRECT
      ensures Word(g[ind], j) == if NDIRECT + j < |blk + [b]| then (blk + [b])[NDIRECT + j] else 0
    {
      WordOfSetWord(h[ind], |blk| - NDIRECT, b, j);
    }
  }

  /** Changing the contents of one of the file's data blocks. */
  lemma StoreKeepsFile(h: Disk, addrs: seq<nat>, blk: seq<nat>, others: set<nat>, i: nat, data: Block)
    requires FileOk(h, addrs, blk, others) && i < |blk| && blk[i] < |h|
    ensures FileOk(h[blk[i] := data], addrs, blk, others)
    ensures var g := h[blk[i] := data];
            Free(g) == Free(h) && BitmapBlocks(g) == BitmapBlocks(h) && g[1] == h[1]
  {
    hide Used, Free, ListsTail, BitmapBlocks;
    assert blk[i] in Owned(addrs, blk);
    DataBlockIsNotBitmap(h, blk[i]);
    BitmapBlocksPlace(h);
    SameBitmap(h, h[blk[i] := data]);
  }

  // ---- Contents ----

  /** Blocks a file of the given size occupies. */
  function BlocksFor(size: nat): nat {
    (size + 511) / 512
  }

  /** Byte i of the file. */
  ghost function ByteAt(h: Disk, blk: seq<nat>, i: nat): Byte
    requires i / 512 < |blk| && blk[i / 512] < |h|
  {
    h[blk[i / 512]][i % 512]
  }

  ghost predicate InRange(h: Disk, blk: seq<nat>) {
    forall i | 0 <= i < |blk| :: blk[i] < |h|
  }

  /** The file as a byte array. */
  ghost function Contents(h: Disk, blk: seq<nat>, size: nat): (c: seq<Byte>)
    requires InRange(h, blk) && BlocksFor(size) <= |blk|
    ensures |c| == size
    ensures forall i | 0 <= i < size :: c[i] == ByteAt(h, blk, i)
  {
    seq(size, i requires 0 <= i < size => ByteAt(h, blk, i))
  }

  /** A file whose blocks are among `others` reads the same before and after. */
  lemma OthersKeepContents(h: Disk, g: Disk, others: set<nat>, blk: seq<nat>, size: nat)
    requires |g| == |h| && (forall s | s in others :: s < |h| && g[s] == h[s])
    requires (forall b | b in blk :: b in others) && BlocksFor(size) <= |blk|
    ensures InRange(h, blk) && InRange(g, blk)
    ensures Contents(g, blk, size) == Contents(h, blk, size)
  {
    assert forall i | 0 <= i < |blk| :: blk[i] in others;
  }
}
