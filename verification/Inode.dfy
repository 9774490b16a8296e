/** Inode contents of kern/fs/inode.c: bmap. */
module Inodes {
  import opened Lists
  import opened Params
  import opened Blocks
  import opened Bitmap
  import opened BufCache
  import opened RedoLog
  import opened BlockAlloc
  import opened FileMap
  import opened DiskInode

  /** An in-memory inode. Its meaning is the ghost block list. */
  class Inode {
    const inum: nat
    var typ: Half
    var major: Half
    var minor: Half
    var nlink: Half
    var size: Word32
    var addrs: seq<nat>
    ghost var blk: seq<nat>

    constructor (i: nat)
      ensures inum == i
    {
      inum := i;
    }
  }

  /** Blocks owned by a file of n data blocks: an indirect block past the direct ones. */
  function OwnedCount(n: nat): nat {
    if n <= NDIRECT then n else n + 1
  }

  /** A file grew: old data kept, new blocks zeroed, its growth taken exactly from the free blocks,
      nothing else touched but the bitmap. */
  ghost predicate Grew(h: Disk, addrs: seq<nat>, blk: seq<nat>, g: Disk, addrs': seq<nat>, blk': seq<nat>)
  {
    && LayoutOk(h) && |addrs| == |addrs'| == NDIRECT + 1
    && LayoutOk(g) && blk <= blk' && Owned(addrs, blk) <= Owned(addrs', blk')
    && (addrs[NDIRECT] != 0 ==> addrs'[NDIRECT] == addrs[NDIRECT])
    && Frame(h, g, BitmapBlocks(h) + Owned(addrs', blk'))
    && (forall i | 0 <= i < |blk| :: blk[i] < |h| && g[blk[i]] == h[blk[i]])
    && (forall i | |blk| <= i < |blk'| :: blk'[i] < |h| && g[blk'[i]] == ZeroBlock())
    && Owned(addrs', blk') - Owned(addrs, blk) <= Free(h)
    && Free(g) == Free(h) - (Owned(addrs', blk') - Owned(addrs, blk))
    && BitmapBlocks(g) == BitmapBlocks(h) && g[1] == h[1]
  }

  /** g is h with the free block b allocated. */
  ghost predicate AllocatedOne(h: Disk, g: Disk, b: nat) {
    && LayoutOk(h) && b in Free(h) && g == Allocated(h, b)
    && LayoutOk(g) && Free(g) == Free(h) - {b} && BitmapBlocks(g) == BitmapBlocks(h)
  }

  /** g is h with the free block b allocated and its address stored in entry j of block ind. */
  ghost predicate AppendedOne(h: Disk, g: Disk, ind: nat, j: nat, b: nat) {
    && LayoutOk(h) && b in Free(h) && b < TWO32 && ind < |h| && j < NINDIRECT
    && var h2 := Allocated(h, b); g == h2[ind := SetWord(h2[ind], j, b)]
  }

  lemma DirectGrowth(h: Disk, addrs: seq<nat>, blk: seq<nat>, others: set<nat>, b: nat)
    requires FileOk(h, addrs, blk, others) && b in Free(h) && |blk| < NDIRECT
    ensures FileOk(Allocated(h, b), addrs[|blk| := b], blk + [b], others)
    ensures Grew(h, addrs, blk, Allocated(h, b), addrs[|blk| := b], blk + [b])
    ensures Tight(addrs, blk) ==> Tight(addrs[|blk| := b], blk + [b])
  {
    hide Used, Allocated, Free, Maps, BitmapBlocks;
    KeepsList(h, addrs, blk, others);
    GrowDirect(h, addrs, blk, others, b);
    AllocKeepsFile(h, addrs, blk, others, b);
    OwnedGrows(addrs, blk, addrs[|blk| := b], b);
  }

  /** A file's blocks are in range and none is a bitmap block. */
  lemma KeepsList(h: Disk, addrs: seq<nat>, blk: seq<nat>, others: set<nat>)
    requires FileOk(h, addrs, blk, others)
    ensures |addrs| == NDIRECT + 1 && |blk| <= MAXFILE && LayoutOk(h) && BitmapOk(h)
    ensures Distinct(blk) && InRange(h, blk)
    ensures Grew(h, addrs, blk, h, addrs, blk)
    ensures forall i | 0 <= i < |blk| ::
      DataStart(h) <= blk[i] < |h| && blk[i] !in BitmapBlocks(h) && blk[i] in Owned(addrs, blk)
  {
    forall i | 0 <= i < |blk|
      ensures DataStart(h) <= blk[i] < |h| && blk[i] !in BitmapBlocks(h) && blk[i] in Owned(addrs, blk)
    {
      assert blk[i] in Owned(addrs, blk);
      DataBlockIsNotBitmap(h, blk[i]);
    }
  }

  /** The value-level effect of bmap past the direct blocks: h1 after the indirect block exists. */
  lemma TailGrowth(h: Disk, addrs: seq<nat>, blk: seq<nat>, others: set<nat>,
                   h1: Disk, addrs1: seq<nat>, b: nat, g: Disk)
    requires FileOk(h, addrs, blk, others) && NDIRECT <= |blk| < MAXFILE && |addrs1| == NDIRECT + 1
    requires if addrs[NDIRECT] != 0 then h1 == h && addrs1 == addrs else
             && AllocatedOne(h, h1, addrs1[NDIRECT])
             && addrs1 == addrs[NDIRECT := addrs1[NDIRECT]]
    requires AppendedOne(h1, g, addrs1[NDIRECT], |blk| - NDIRECT, b)
    ensures FileOk(g, addrs1, blk + [b], others) && Tight(addrs1, blk + [b])
    ensures Grew(h, addrs, blk, g, addrs1, blk + [b])
  {
    hide Used, Allocated, Free, Maps, BitmapBlocks, SetWord, Word;
    KeepsList(h, addrs, blk, others);
    if addrs[NDIRECT] == 0 {
      MapsShort(h, addrs, blk);
      GrowIndirect(h, addrs, blk, others, addrs1[NDIRECT]);
      AllocKeepsFile(h, addrs, blk, others, addrs1[NDIRECT]);
    }
    AllocKeepsFile(h1, addrs1, blk, others, b);
    GrowTail(Allocated(h1, b), addrs1, blk, others, b, g);
    assert addrs1[NDIRECT] in Owned(addrs1, blk);
  }

  lemma MapsShort(h: Disk, addrs: seq<nat>, blk: seq<nat>)
    requires Maps(h, addrs, blk) && addrs[NDIRECT] == 0
    ensures |blk| <= NDIRECT
  {
  }

  /** What a file operation may assume of the log, the inode and the other files' blocks. */
  ghost predicate Ready(log: Log, ip: Inode, others: set<nat>)
    reads log, log.cache, ip
  {
    && log.Valid() && log.cache.held == {}
    && FileOk(log.Home(), ip.addrs, ip.blk, others)
  }

  /** The indirect block, if there is one. */
  ghost function Ind(addrs: seq<nat>): set<nat> {
    if |addrs| == NDIRECT + 1 && addrs[NDIRECT] != 0 then {addrs[NDIRECT]} else {}
  }

  /** What bmap may be asked: an existing block, or the one just past the end if there is room. */
  ghost predicate CanMap(log: Log, ip: Inode, bn: nat)
    reads log, log.cache, ip
  {
    && bn < MAXFILE && bn <= |ip.blk| && |log.cache.dirty| < NBUF
    && (bn == |ip.blk| ==>
          && log.busy && Room(log, 2)
          && Available(log.Home(), OwnedCount(bn + 1) - OwnedCount(bn)))
  }

  /** What bmap does: nothing to an existing block; else it appends one zeroed block. */
  twostate predicate Mapped(log: Log, ip: Inode, bn: nat, addr: nat, others: set<nat>)
    reads log, log.cache, ip
  {
    && Ready(log, ip, others) && Tight(ip.addrs, ip.blk) && log.SameTx()
    && bn < |ip.blk| && addr == ip.blk[bn]
    && ip.blk == old(ip.blk) + (if bn < |old(ip.blk)| then [] else [addr])
    && Grew(old(log.Home()), old(ip.addrs), old(ip.blk), log.Home(), ip.addrs, ip.blk)
    && (bn < |old(ip.blk)| ==> log.cache.dirty == old(log.cache.dirty) && ip.addrs == old(ip.addrs)
                               && log.Home() == old(log.Home()))
    && LoggedOnly(old(log.Home()), old(log.cache.dirty), log.cache.dirty, Ind(ip.addrs) + {addr})
  }

  /** bmap for a direct block. */
  method BmapDirect(log: Log, ip: Inode, bn: nat, ghost others: set<nat>) returns (addr: nat)
    requires Ready(log, ip, others) && Tight(ip.addrs, ip.blk) && CanMap(log, ip, bn) && bn < NDIRECT
    modifies log, log.cache, ip`addrs, ip`blk
    ensures Mapped(log, ip, bn, addr, others)
  {
    hide Log.Valid, Log.Home, FileOk, Tight, Allocated, Free, BitmapBlocks, BitmapOk, Grew, LayoutOk;
    ghost var h, addrs, blk := log.Home(), ip.addrs, ip.blk;
    KeepsList(h, addrs, blk, others);
    DirectAddr(h, addrs, blk, others, bn);
    addr := ip.addrs[bn];
    if addr == 0 {
      addr := Alloc(log);
      DirectGrowth(h, addrs, blk, others, addr);
      ip.addrs := ip.addrs[bn := addr];
      ip.blk := ip.blk + [addr];
    }
  }

  /** A direct address is zero exactly if the file does not reach that block. */
  lemma DirectAddr(h: Disk, addrs: seq<nat>, blk: seq<nat>, others: set<nat>, bn: nat)
    requires FileOk(h, addrs, blk, others) && bn < NDIRECT && bn <= |blk|
    ensures |addrs| == NDIRECT + 1
    ensures if bn < |blk| then addrs[bn] == blk[bn] != 0 else addrs[bn] == 0
    ensures Untouched(h, {})
  {
    KeepsList(h, addrs, blk, others);
  }

  /** Logging at most the bitmap and one more block. */
  lemma DirtyGrowth(dirty: set<nat>, bitmap: set<nat>, x: nat, dirty': set<nat>)
    requires dirty' <= dirty + bitmap + {x}
    ensures |dirty' + bitmap| <= |dirty + bitmap| + 1 && |dirty'| <= |dirty + bitmap| + 1
  {
    SubsetSize(dirty' + bitmap, dirty + bitmap + {x});
    SubsetSize(dirty', dirty' + bitmap);
    RoomSize(dirty + bitmap, {x}, {});
  }

  /** First half of bmap past the direct blocks: make sure there is an indirect block. */
  method EnsureIndirect(log: Log, ip: Inode, ghost others: set<nat>) returns (ind: nat)
    requires Ready(log, ip, others) && |ip.addrs| == NDIRECT + 1
    requires ip.addrs[NDIRECT] == 0 ==>
      |ip.blk| == NDIRECT && log.busy && Room(log, 2) && Available(log.Home(), 1)
    modifies log, log.cache, ip`addrs
    ensures Ready(log, ip, others) && log.SameTx()
    ensures |ip.addrs| == NDIRECT + 1 && ind == ip.addrs[NDIRECT] != 0
    ensures old(ip.addrs)[NDIRECT] != 0 ==>
      && ip.addrs == old(ip.addrs) && log.Home() == old(log.Home())
      && log.cache.dirty == old(log.cache.dirty)
    ensures old(ip.addrs)[NDIRECT] == 0 ==>
      && ip.addrs == old(ip.addrs)[NDIRECT := ind]
      && AllocatedOne(old(log.Home()), log.Home(), ind)
      && LoggedOnly(old(log.Home()), old(log.cache.dirty), log.cache.dirty, {ind})
  {
    hide Log.Valid, Log.Home, FileOk, Allocated, Free, BitmapBlocks, BitmapOk, LayoutOk, AllocatedOne,
         FirstFit, Untouched, Grew;
    ghost var h, addrs, blk := log.Home(), ip.addrs, ip.blk;
    KeepsList(h, addrs, blk, others);
    NothingHeld(h);
    ind := ip.addrs[NDIRECT];
    if ind == 0 {
      ind := Alloc(log);
      IndirectFacts(h, addrs, blk, others, ind);
      ip.addrs := ip.addrs[NDIRECT := ind];
    }
  }

  lemma NothingHeld(h: Disk)
    requires LayoutOk(h)
    ensures Untouched(h, {})
  {
  }

  lemma IndirectFacts(h: Disk, addrs: seq<nat>, blk: seq<nat>, others: set<nat>, b: nat)
    requires FileOk(h, addrs, blk, others) && b in Free(h)
    requires |blk| == NDIRECT && addrs[NDIRECT] == 0
    ensures b != 0 && AllocatedOne(h, Allocated(h, b), b)
    ensures FileOk(Allocated(h, b), addrs[NDIRECT := b], blk, others)
  {
    hide Allocated, Used, Maps, BitmapBlocks;
    GrowIndirect(h, addrs, blk, others, b);
    AllocKeepsFile(h, addrs, blk, others, b);
  }

  /** An entry of the indirect block is zero exactly if the file does not reach that block. */
  lemma TailAddr(h: Disk, addrs: seq<nat>, blk: seq<nat>, others: set<nat>, bn: nat)
    requires FileOk(h, addrs, blk, others) && NDIRECT <= bn < MAXFILE && bn <= |blk|
    requires addrs[NDIRECT] != 0
    ensures addrs[NDIRECT] < |h|
    ensures if bn < |blk| then Word(h[addrs[NDIRECT]], bn - NDIRECT) == blk[bn] != 0
            else Word(h[addrs[NDIRECT]], bn - NDIRECT) == 0
    ensures Untouched(h, {addrs[NDIRECT]})
  {
    hide Word, Used, BitmapBlocks;
    KeepsList(h, addrs, blk, others);
    assert addrs[NDIRECT] in Owned(addrs, blk);
    assert DataBlock(h, addrs[NDIRECT]);
    DataBlockIsNotBitmap(h, addrs[NDIRECT]);
  }

  /** The facts about appending that the code needs while it holds the indirect block. */
  lemma AppendFacts(h: Disk, addrs: seq<nat>, blk: seq<nat>, others: set<nat>, b: nat)
    requires FileOk(h, addrs, blk, others) && addrs[NDIRECT] != 0
    requires NDIRECT <= |blk| < MAXFILE && b in Free(h) && |h| <= TWO32
    ensures b < |h| && addrs[NDIRECT] < |h| && Allocated(h, b)[addrs[NDIRECT]] == h[addrs[NDIRECT]]
    ensures var g := Allocated(h, b)[addrs[NDIRECT] := SetWord(h[addrs[NDIRECT]], |blk| - NDIRECT, b)];
            && AppendedOne(h, g, addrs[NDIRECT], |blk| - NDIRECT, b)
            && FileOk(g, addrs, blk + [b], others)
  {
    hide Used, Allocated, BitmapBlocks, SetWord, Word;
    KeepsList(h, addrs, blk, others);
    assert addrs[NDIRECT] in Owned(addrs, blk);
    DataBlockIsNotBitmap(h, addrs[NDIRECT]);
    AllocKeepsFile(h, addrs, blk, others, b);
    GrowTail(Allocated(h, b), addrs, blk, others, b,
             Allocated(h, b)[addrs[NDIRECT] := SetWord(h[addrs[NDIRECT]], |blk| - NDIRECT, b)]);
  }

  /** Second half of bmap past the direct blocks: look the block up in the indirect block. */
  method TailBlock(log: Log, ip: Inode, ind: nat, bn: nat, ghost others: set<nat>) returns (addr: nat)
    requires Ready(log, ip, others) && |ip.addrs| == NDIRECT + 1 && ind == ip.addrs[NDIRECT] != 0
    requires NDIRECT <= bn < MAXFILE && bn <= |ip.blk| && |log.cache.dirty| < NBUF
    requires bn == |ip.blk| ==> log.busy && Room(log, 1) && Available(log.Home(), 1)
    modifies log, log.cache, ip`blk
    ensures Ready(log, ip, others) && log.SameTx()
    ensures bn < |old(ip.blk)| ==>
      && addr == old(ip.blk)[bn] && ip.blk == old(ip.blk) && log.Home() == old(log.Home())
      && log.cache.dirty == old(log.cache.dirty)
    ensures bn == |old(ip.blk)| ==>
      && ip.blk == old(ip.blk) + [addr]
      && AppendedOne(old(log.Home()), log.Home(), ind, bn - NDIRECT, addr)
      && LoggedOnly(old(log.Home()), old(log.cache.dirty), log.cache.dirty, {ind, addr})
  {
    hide Log.Valid, Log.Home, FileOk, Allocated, Free, BitmapBlocks, BitmapOk, LayoutOk, Word, SetWord;
    ghost var h, addrs, blk, dirty := log.Home(), ip.addrs, ip.blk, log.cache.dirty;
    KeepsList(h, addrs, blk, others);
    TailAddr(h, addrs, blk, others, bn);
    assert log.cache.held + dirty == dirty;
    log.Basics();
    var bp := log.Read(ind);
    assert log.cache.held == {ind};
    addr := Word(log.cache.bufs[bp].data, bn - NDIRECT);
    if addr == 0 {
      addr := AppendTail(log, ip, bp, bn, others);
    }
    log.Release(bp);
    assert log.cache.held == {};
  }

  /** The growing branch of TailBlock: allocate a block and store its address. */
  method AppendTail(log: Log, ip: Inode, bp: nat, bn: nat, ghost others: set<nat>) returns (addr: nat)
    requires log.Valid() && log.busy && FileOk(log.Home(), ip.addrs, ip.blk, others)
    requires ip.addrs[NDIRECT] != 0 && NDIRECT <= bn == |ip.blk| < MAXFILE
    requires log.cache.held == {ip.addrs[NDIRECT]} && log.cache.Holding(ip.addrs[NDIRECT], bp)
    requires ip.addrs[NDIRECT] < |log.Home()|
    requires log.cache.bufs[bp].data == log.Home()[ip.addrs[NDIRECT]]
    requires Room(log, 1) && Available(log.Home(), 1)
    modifies log, log.cache, ip`blk
    ensures log.Valid() && log.SameTx() && FileOk(log.Home(), ip.addrs, ip.blk, others)
    ensures ip.blk == old(ip.blk) + [addr]
    ensures log.cache.held == old(log.cache.held) && log.cache.Holding(ip.addrs[NDIRECT], bp)
    ensures AppendedOne(old(log.Home()), log.Home(), ip.addrs[NDIRECT], bn - NDIRECT, addr)
    ensures LoggedOnly(old(log.Home()), old(log.cache.dirty), log.cache.dirty, {ip.addrs[NDIRECT], addr})
  {
    hide Log.Valid, Log.Home, FileOk, Allocated, Free, BitmapBlocks, BitmapOk, LayoutOk, Word, SetWord,
         AppendedOne, FirstFit, Untouched, Grew;
    ghost var h, addrs, blk, dirty := log.Home(), ip.addrs, ip.blk, log.cache.dirty;
    TailAddr(h, addrs, blk, others, bn);
    KeepsList(h, addrs, blk, others);
    addr := Alloc(log, bp);
    log.Basics();
    AppendFacts(h, addrs, blk, others, addr);
    DirtyGrowth(dirty, BitmapBlocks(h), addr, log.cache.dirty);
    RoomSize(log.cache.held, log.cache.dirty, {});
    log.LogWrite(bp, SetWord(log.cache.bufs[bp].data, bn - NDIRECT, addr));
    ip.blk := ip.blk + [addr];
  }

  /** bmap: the disk block of the file's block bn, appending one if it is the next. */
  method Bmap(log: Log, ip: Inode, bn: nat, ghost others: set<nat>) returns (addr: nat)
    requires Ready(log, ip, others) && Tight(ip.addrs, ip.blk) && CanMap(log, ip, bn)
    modifies log, log.cache, ip`addrs, ip`blk
    ensures Mapped(log, ip, bn, addr, others)
  {
    hide Log.Valid, Log.Home, FileOk, Allocated, Free, BitmapBlocks, LayoutOk, Grew;
    ghost var h, addrs, blk, dirty := log.Home(), ip.addrs, ip.blk, log.cache.dirty;
    KeepsList(h, addrs, blk, others);
    if bn < NDIRECT {
      addr := BmapDirect(log, ip, bn, others);
    } else {
      var ind := EnsureIndirect(log, ip, others);
      ghost var h1, addrs1 := log.Home(), ip.addrs;
      if addrs[NDIRECT] == 0 {
        DirtyGrowth(dirty, BitmapBlocks(h), ind, log.cache.dirty);
      }
      addr := TailBlock(log, ip, ind, bn, others);
      if bn == |blk| {
        TailGrowth(h, addrs, blk, others, h1, addrs1, addr, log.Home());
      }
    }
  }
}
