/** inode_trunc: giving all of a file's blocks back. */
module InodeTrunc {
  import opened Lists
  import opened Params
  import opened Blocks
  import opened Layout
  import opened Bitmap
  import opened BufCache
  import opened RedoLog
  import opened BlockAlloc
  import opened FileMap
  import opened DiskInode
  import opened Inodes
  import opened InodeIO

  /** h is h0 with exactly the in-use blocks F given back. */
  ghost predicate GivenBack(h0: Disk, h: Disk, F: set<nat>) {
    && BitmapOk(h0) && BitmapOk(h) && DataStart(h) == DataStart(h0) && FsSize(h) == FsSize(h0)
    && FsInodes(h) == FsInodes(h0)
    && BitmapBlocks(h) == BitmapBlocks(h0) && Frame(h0, h, BitmapBlocks(h0)) && h[1] == h0[1]
    && (forall c | 0 <= c < FsSize(h0) :: Used(h, c) == (c !in F && Used(h0, c)))
    && F !! Free(h0) && Free(h) == Free(h0) + F
  }

  lemma NothingGivenBack(h: Disk)
    requires BitmapOk(h)
    ensures GivenBack(h, h, {})
  {
  }

  /** Freeing one more block that was in use and not yet given back. */
  lemma GiveBackOne(h0: Disk, h: Disk, F: set<nat>, b: nat)
    requires GivenBack(h0, h, F) && DataBlock(h0, b) && b !in F
    ensures b < |h| && Used(h, b) && GivenBack(h0, Freed(h, b), F + {b})
  {
    hide Used, Freed, BitmapBlocks, DataStart, FsSize, FsInodes;
    FreedBits(h, b);
    BitmapBlocksPlace(h);
    assert Free(Freed(h, b)) == Free(h0) + (F + {b});
    assert b !in Free(h0);
  }

  /** Giving back blocks leaves everything else of the disk alone. */
  lemma GivenBackKeeps(h0: Disk, h: Disk, F: set<nat>, addrs: seq<nat>, blk: seq<nat>, others: set<nat>)
    requires GivenBack(h0, h, F) && FileOk(h0, addrs, blk, others)
    ensures forall s | s in Owned(addrs, blk) || s in others :: s < |h0| && h[s] == h0[s]
    ensures forall b | b in Owned(addrs, blk) && b !in F :: Untouched(h, {b}) && b > 1
    ensures Untouched(h, {})
  {
    hide Used, ListsTail, BitmapBlocks;
    forall s | s in Owned(addrs, blk) || s in others
      ensures s < |h0| && h[s] == h0[s] && s !in BitmapBlocks(h) && s > 1
    {
      assert DataBlock(h0, s);
      DataBlockIsNotBitmap(h0, s);
    }
  }

  /** Nothing, or the indirect block, may be held while blocks are given back. */
  lemma MayHold(h0: Disk, h: Disk, F: set<nat>, addrs: seq<nat>, blk: seq<nat>, others: set<nat>)
    requires GivenBack(h0, h, F) && FileOk(h0, addrs, blk, others) && F <= Elems(blk)
    ensures LayoutOk(h) && Untouched(h, {})
    ensures addrs[NDIRECT] != 0 ==> Untouched(h, {addrs[NDIRECT]})
  {
    hide GivenBack, Maps, Untouched, Used, BitmapOk, BitmapBlocks;
    KeepsList(h0, addrs, blk, others);
    GivenBackBasics(h0, h, F);
    GivenBackKeeps(h0, h, F, addrs, blk, others);
    assert addrs[NDIRECT] != 0 ==> addrs[NDIRECT] in Owned(addrs, blk) && addrs[NDIRECT] !in F;
  }

  /** The first i entries of an address list zeroed. */
  function Zeroed(a: seq<nat>, i: nat): seq<nat>
    requires i <= |a|
  {
    seq(i, _ => 0) + a[i..]
  }

  lemma ZeroedStep(a: seq<nat>, i: nat)
    requires i < |a|
    ensures |Zeroed(a, i)| == |a| && Zeroed(a, i)[i] == a[i] && Zeroed(a, 0) == a
    ensures Zeroed(a, i)[i := 0] == Zeroed(a, i + 1)
    ensures a[i] == 0 ==> Zeroed(a, i) == Zeroed(a, i + 1)
  {
  }

  /** The first i blocks of the list, or all of them. */
  ghost function FirstOf(blk: seq<nat>, i: nat): set<nat> {
    if i <= |blk| then Elems(blk[..i]) else Elems(blk)
  }

  lemma FirstOfStep(blk: seq<nat>, i: nat)
    requires Distinct(blk)
    ensures FirstOf(blk, i + 1) == FirstOf(blk, i) + (if i < |blk| then {blk[i]} else {})
    ensures i < |blk| ==> blk[i] !in FirstOf(blk, i)
    ensures FirstOf(blk, 0) == {}
    ensures FirstOf(blk, i) <= Elems(blk)
    ensures i >= |blk| ==> FirstOf(blk, i) == Elems(blk)
  {
    if i < |blk| {
      assert blk[..i + 1] == blk[..i] + [blk[i]];
    } else {
      assert i == |blk| ==> blk[..i] == blk;
    }
  }

  /** Progress of a truncation: the first i listed blocks are back, only the bitmap was logged. */
  ghost predicate Truncating(log: Log, h0: Disk, dirty0: set<nat>, F: set<nat>)
    reads log, log.cache
  {
    && log.Valid() && log.busy && GivenBack(h0, log.Home(), F)
    && LoggedOnly(h0, dirty0, log.cache.dirty, {})
  }

  lemma TruncRoom(h0: Disk, h: Disk, F: set<nat>, dirty0: set<nat>, dirty: set<nat>)
    requires GivenBack(h0, h, F) && LoggedOnly(h0, dirty0, dirty, {})
    ensures |dirty + BitmapBlocks(h)| <= |dirty0 + BitmapBlocks(h0)|
  {
    SubsetSize(dirty + BitmapBlocks(h), dirty0 + BitmapBlocks(h0));
  }

  /** One call of block_free inside inode_trunc. */
  method GiveBack(log: Log, b: nat, ghost keep: nat, ghost h0: Disk, ghost dirty0: set<nat>, ghost F: set<nat>)
    requires Truncating(log, h0, dirty0, F) && DataBlock(h0, b) && b !in F
    requires |dirty0 + BitmapBlocks(h0)| <= MAXTX < log.size - 1
    requires |log.cache.held| <= 1 && Untouched(log.Home(), log.cache.held)
    requires keep < NBUF ==> log.Holds(keep)
    modifies log, log.cache
    ensures Truncating(log, h0, dirty0, F + {b}) && Step(log, keep)
  {
    hide Log.Valid, Log.Home, GivenBack, Untouched, Freed, BitmapBlocks, LayoutOk, BitmapOk, Used, Free;
    GivenBackBasics(h0, log.Home(), F);
    GiveBackOne(h0, log.Home(), F, b);
    TruncRoom(h0, log.Home(), F, dirty0, log.cache.dirty);
    BlockFree(log, b, keep);
    GivenBackBasics(h0, log.Home(), F + {b});
  }

  lemma GivenBackBasics(h0: Disk, h: Disk, F: set<nat>)
    requires GivenBack(h0, h, F)
    ensures BitmapOk(h) && LayoutOk(h) && LayoutOk(h0) && |h| == |h0| > 1 && BitmapBlocks(h) == BitmapBlocks(h0)
  {
  }

  /** What each step of a truncation knows about the file it truncates. */
  lemma FileFacts(h0: Disk, addrs: seq<nat>, blk: seq<nat>, others: set<nat>, i: nat)
    requires FileOk(h0, addrs, blk, others)
    ensures |addrs| == NDIRECT + 1 && Distinct(blk) && BitmapOk(h0) && LayoutOk(h0)
    ensures i < |blk| ==> DataBlock(h0, blk[i]) && blk[i] != 0
    ensures i < NDIRECT ==> addrs[i] == if i < |blk| then blk[i] else 0
    ensures addrs[NDIRECT] == 0 ==> |blk| <= NDIRECT
    ensures addrs[NDIRECT] != 0 ==>
      addrs[NDIRECT] < |h0| && DataBlock(h0, addrs[NDIRECT]) && addrs[NDIRECT] !in Elems(blk)
    ensures addrs[NDIRECT] != 0 && NDIRECT <= i < MAXFILE ==>
      Word(h0[addrs[NDIRECT]], i - NDIRECT) == if i < |blk| then blk[i] else 0
    ensures |blk| <= MAXFILE
  {
    hide Used, Word;
    KeepsList(h0, addrs, blk, others);
    assert i < |blk| ==> blk[i] in Owned(addrs, blk);
    assert addrs[NDIRECT] != 0 ==> addrs[NDIRECT] in Owned(addrs, blk);
  }

  /** The first loop of inode_trunc: free the direct blocks. */
  method TruncDirect(log: Log, ip: Inode, ghost others: set<nat>)
    requires Ready(log, ip, others) && log.busy && Room(log, 0)
    modifies log, log.cache, ip`addrs
    ensures Truncating(log, old(log.Home()), old(log.cache.dirty), FirstOf(ip.blk, NDIRECT))
    ensures log.SameTx() && log.cache.held == {}
    ensures |old(ip.addrs)| == NDIRECT + 1 && ip.addrs == Zeroed(old(ip.addrs), NDIRECT)
  {
    hide Log.Valid, Log.Home, FileOk, GivenBack, FirstOf, BitmapBlocks, LayoutOk, BitmapOk, Untouched, Free,
         DataBlock, Zeroed, Word;
    ghost var h0, a0, blk, d0 := log.Home(), ip.addrs, ip.blk, log.cache.dirty;
    FileFacts(h0, a0, blk, others, 0);
    NothingGivenBack(h0);
    GivenBackBasics(h0, h0, {});
    FirstOfStep(blk, 0);
    ZeroedStep(a0, 0);
    var i := 0;
    while i < NDIRECT
      invariant i <= NDIRECT && Truncating(log, h0, d0, FirstOf(blk, i))
      invariant log.SameTx() && log.cache.held == {} && ip.addrs == Zeroed(a0, i)
    {
      ZeroedStep(a0, i);
      FreeDirect(log, ip.addrs[i], i, h0, a0, blk, d0, others);
      if ip.addrs[i] != 0 {
        ip.addrs := ip.addrs[i := 0];
      }
      i := i + 1;
    }
  }

  /** The block_free of one pass of that loop. */
  method FreeDirect(log: Log, b: nat, i: nat, ghost h0: Disk, ghost a0: seq<nat>, ghost blk: seq<nat>,
                    ghost d0: set<nat>, ghost others: set<nat>)
    requires i < NDIRECT && Truncating(log, h0, d0, FirstOf(blk, i)) && FileOk(h0, a0, blk, others) && b == a0[i]
    requires |d0 + BitmapBlocks(h0)| <= MAXTX < log.size - 1 && log.cache.held == {}
    modifies log, log.cache
    ensures Truncating(log, h0, d0, FirstOf(blk, i + 1)) && log.SameTx() && log.cache.held == {}
  {
    hide Log.Valid, Log.Home, FileOk, GivenBack, FirstOf, BitmapBlocks, LayoutOk, BitmapOk, Untouched, Free,
         DataBlock, Word;
    FileFacts(h0, a0, blk, others, i);
    FirstOfStep(blk, i);
    if b != 0 {
      MayHold(h0, log.Home(), FirstOf(blk, i), a0, blk, others);
      GiveBack(log, b, NBUF, h0, d0, FirstOf(blk, i));
    }
  }

  /** The second loop of inode_trunc: free the blocks the indirect block lists. */
  method TruncTail(log: Log, bp: nat, ghost h0: Disk, ghost a0: seq<nat>, ghost blk: seq<nat>,
                   ghost d0: set<nat>, ghost others: set<nat>)
    requires Truncating(log, h0, d0, FirstOf(blk, NDIRECT)) && FileOk(h0, a0, blk, others) && a0[NDIRECT] != 0
    requires |d0 + BitmapBlocks(h0)| <= MAXTX < log.size - 1
    requires log.cache.held == {a0[NDIRECT]} && log.cache.Holding(a0[NDIRECT], bp)
    requires a0[NDIRECT] < |h0| && log.cache.bufs[bp].data == h0[a0[NDIRECT]]
    modifies log, log.cache
    ensures Truncating(log, h0, d0, Elems(blk)) && log.SameTx()
    ensures log.cache.held == {a0[NDIRECT]} && log.cache.Holding(a0[NDIRECT], bp)
  {
    hide Log.Valid, Log.Home, FileOk, GivenBack, FirstOf, BitmapBlocks, LayoutOk, BitmapOk, Untouched, Free,
         DataBlock, Word;
    FileFacts(h0, a0, blk, others, 0);
    ghost var ind := a0[NDIRECT];
    var j := 0;
    while j < NINDIRECT
      invariant j <= NINDIRECT && Truncating(log, h0, d0, FirstOf(blk, NDIRECT + j)) && log.SameTx()
      invariant log.cache.held == {ind} && log.cache.Holding(ind, bp) && log.cache.bufs[bp].data == h0[ind]
    {
      FreeEntry(log, bp, j, h0, a0, blk, d0, others);
      j := j + 1;
    }
    FirstOfStep(blk, MAXFILE);
  }

  /** One pass of that loop: free the block of entry j, if there is one. */
  method FreeEntry(log: Log, bp: nat, j: nat, ghost h0: Disk, ghost a0: seq<nat>, ghost blk: seq<nat>,
                   ghost d0: set<nat>, ghost others: set<nat>)
    requires j < NINDIRECT && Truncating(log, h0, d0, FirstOf(blk, NDIRECT + j))
    requires FileOk(h0, a0, blk, others) && a0[NDIRECT] != 0
    requires |d0 + BitmapBlocks(h0)| <= MAXTX < log.size - 1
    requires log.cache.held == {a0[NDIRECT]} && log.cache.Holding(a0[NDIRECT], bp)
    requires a0[NDIRECT] < |h0| && log.cache.bufs[bp].data == h0[a0[NDIRECT]]
    modifies log, log.cache
    ensures Truncating(log, h0, d0, FirstOf(blk, NDIRECT + j + 1)) && log.SameTx()
    ensures log.cache.held == {a0[NDIRECT]} && log.cache.Holding(a0[NDIRECT], bp)
    ensures log.cache.bufs[bp].data == h0[a0[NDIRECT]]
  {
    hide Log.Valid, Log.Home, FileOk, GivenBack, FirstOf, BitmapBlocks, LayoutOk, BitmapOk, Untouched, Free,
         DataBlock, Word;
    FileFacts(h0, a0, blk, others, NDIRECT + j);
    FirstOfStep(blk, NDIRECT + j);
    var b := Word(log.cache.bufs[bp].data, j);
    if b != 0 {
      MayHold(h0, log.Home(), FirstOf(blk, NDIRECT + j), a0, blk, others);
      GiveBack(log, b, bp, h0, d0, FirstOf(blk, NDIRECT + j));
    }
  }

  lemma IndOwned(addrs: seq<nat>, blk: seq<nat>)
    requires |addrs| == NDIRECT + 1 && addrs[NDIRECT] != 0
    ensures addrs[NDIRECT] in Owned(addrs, blk) && Owned(addrs, blk) == Elems(blk) + {addrs[NDIRECT]}
  {
  }

  /** The end of a truncation: an empty file, every block it owned free, nothing else touched. */
  ghost predicate GaveAllBack(h0: Disk, a0: seq<nat>, b0: seq<nat>, h: Disk, others: set<nat>, inum: nat) {
    && LayoutOk(h0) && LayoutOk(h) && |a0| == NDIRECT + 1
    && Owned(a0, b0) !! Free(h0) && Free(h) == Free(h0) + Owned(a0, b0)
    && |Free(h)| == |Free(h0)| + OwnedCount(|b0|)
    && |h| == |h0| && h[1] == h0[1] && (forall s | s in others :: s < |h0| && h[s] == h0[s])
    && OtherInodesKept(h0, h, inum)
  }

  lemma EmptyFile(h0: Disk, a0: seq<nat>, b0: seq<nat>, h: Disk, others: set<nat>, inum: nat, a: seq<nat>)
    requires FileOk(h0, a0, b0, others) && Tight(a0, b0) && GivenBack(h0, h, Owned(a0, b0)) && ValidInum(h0, inum)
    requires |a| == NDIRECT + 1 && forall i | 0 <= i < |a| :: a[i] == 0
    ensures FileOk(h, a, [], others) && Tight(a, []) && ValidInum(h, inum)
    ensures GaveAllBack(h0, a0, b0, h, others, inum)
  {
    hide GivenBack, FileOk, Tight, Used, BitmapBlocks, OtherInodesKept, Free, LayoutOk, BitmapOk;
    FreedCount(h0, h, a0, b0, others);
    GivenBackBasics(h0, h, Owned(a0, b0));
    InodesOutside(h0, h, Owned(a0, b0), inum);
    EmptyIsFile(h0, a0, b0, h, others, a);
  }

  /** The free blocks grow by exactly what the file owned. */
  lemma FreedCount(h0: Disk, h: Disk, a0: seq<nat>, b0: seq<nat>, others: set<nat>)
    requires FileOk(h0, a0, b0, others) && Tight(a0, b0) && GivenBack(h0, h, Owned(a0, b0))
    ensures |a0| == NDIRECT + 1 && LayoutOk(h0) && LayoutOk(h) && h[1] == h0[1]
    ensures Owned(a0, b0) !! Free(h0) && Free(h) == Free(h0) + Owned(a0, b0)
    ensures |Free(h)| == |Free(h0)| + OwnedCount(|b0|)
    ensures forall s | s in others :: s < |h0| && h[s] == h0[s]
  {
    hide Used, ListsTail, BitmapBlocks, Free, DataBlock;
    GivenBackKeeps(h0, h, Owned(a0, b0), a0, b0, others);
    OwnedSize(a0, b0);
  }

  lemma EmptyIsFile(h0: Disk, a0: seq<nat>, b0: seq<nat>, h: Disk, others: set<nat>, a: seq<nat>)
    requires FileOk(h0, a0, b0, others) && GivenBack(h0, h, Owned(a0, b0))
    requires |a| == NDIRECT + 1 && forall i | 0 <= i < |a| :: a[i] == 0
    ensures FileOk(h, a, [], others) && Tight(a, [])
  {
    hide Used, BitmapBlocks, Free, DataBlock;
    forall s | s in others
      ensures DataBlock(h, s)
    {
      StillData(h0, h, Owned(a0, b0), s);
    }
  }

  /** Giving blocks back stores into bitmap blocks only, where no inode is. */
  lemma InodesOutside(h0: Disk, h: Disk, F: set<nat>, inum: nat)
    requires GivenBack(h0, h, F) && ValidInum(h0, inum)
    ensures OtherInodesKept(h0, h, inum) && ValidInum(h, inum)
  {
    hide Used, BitmapBlocks, Load, SbNinodes, SbSize, Free;
    BitmapBlocksPlace(h0);
  }

  lemma StillData(h0: Disk, h: Disk, F: set<nat>, b: nat)
    requires GivenBack(h0, h, F) && DataBlock(h0, b) && b !in F
    ensures DataBlock(h, b)
  {
    hide Free, BitmapBlocks;
  }

  lemma StoredAfterTrunc(h0: Disk, a0: seq<nat>, b0: seq<nat>, h: Disk, g: Disk, others: set<nat>, inum: nat, a: seq<nat>)
    requires GaveAllBack(h0, a0, b0, h, others, inum) && InodeStored(h, g, inum) && ValidInum(h, inum)
    requires FileOk(h, a, [], others)
    ensures GaveAllBack(h0, a0, b0, g, others, inum)
  {
    hide Used, ListsTail, BitmapBlocks, Load, SbNinodes, SbSize;
    BitmapBlocksPlace(h);
    forall s | s in others
      ensures g[s] == h[s]
    {
      assert DataBlock(h, s);
    }
  }

  /** Both loops of inode_trunc. */
  method FreeBlocks(log: Log, ip: Inode, ghost others: set<nat>)
    requires Ready(log, ip, others) && log.busy && Room(log, 0)
    modifies log, log.cache, ip`addrs
    ensures log.SameTx() && log.cache.held == {} && |old(ip.addrs)| == NDIRECT + 1
    ensures Truncating(log, old(log.Home()), old(log.cache.dirty), Owned(old(ip.addrs), ip.blk))
    ensures |ip.addrs| == NDIRECT + 1 && forall i | 0 <= i < |ip.addrs| :: ip.addrs[i] == 0
  {
    hide Log.Valid, Log.Home, FileOk, GivenBack, FirstOf, BitmapBlocks, LayoutOk, BitmapOk, Untouched,
         Free, DataBlock, Word, Zeroed;
    ghost var h0, a0, b0, d0 := log.Home(), ip.addrs, ip.blk, log.cache.dirty;
    FileFacts(h0, a0, b0, others, 0);
    BitmapRoom(h0, d0);
    TruncDirect(log, ip, others);
    ZeroedEnd(a0);
    FirstOfStep(b0, NDIRECT);
    if ip.addrs[NDIRECT] != 0 {
      TruncIndirect(log, ip.addrs[NDIRECT], h0, a0, b0, d0, others);
      ip.addrs := ip.addrs[NDIRECT := 0];
    }
  }

  /** inode_trunc. block_free never meets a free block, since each call's precondition is proved. */
  method Trunc(log: Log, ip: Inode, ghost others: set<nat>)
    requires Good(log, ip, others) && log.busy && Room(log, 1)
    modifies log, log.cache, ip`size, ip`addrs, ip`blk
    ensures Good(log, ip, others) && log.SameTx() && ip.size == 0 && ip.blk == []
    ensures GaveAllBack(old(log.Home()), old(ip.addrs), old(ip.blk), log.Home(), others, ip.inum)
    ensures LoggedOnly(old(log.Home()), old(log.cache.dirty), log.cache.dirty, {IBlock(ip.inum)})
  {
    hide Log.Valid, Log.Home, FileOk, GivenBack, GaveAllBack, BitmapBlocks, LayoutOk, BitmapOk, Free, Synced,
         InodeStored, Tight, Owned;
    ghost var h0, a0, b0, d0 := log.Home(), ip.addrs, ip.blk, log.cache.dirty;
    SyncedInum(h0, ip.inum, ip.typ, ip.major, ip.minor, ip.nlink, ip.size, a0);
    FreeBlocks(log, ip, others);
    ghost var h1 := log.Home();
    EmptyFile(h0, a0, b0, h1, others, ip.inum, ip.addrs);
    TruncRoom(h0, h1, Owned(a0, b0), d0, log.cache.dirty);
    BitmapRoom(h1, log.cache.dirty);
    ip.blk := [];
    ip.size := 0;
    Update(log, ip, others);
    StoredAfterTrunc(h0, a0, b0, h1, log.Home(), others, ip.inum, ip.addrs);
  }

  lemma ZeroedEnd(a: seq<nat>)
    requires |a| == NDIRECT + 1
    ensures |Zeroed(a, NDIRECT)| == NDIRECT + 1 && Zeroed(a, NDIRECT)[NDIRECT] == a[NDIRECT]
    ensures forall i | 0 <= i < NDIRECT :: Zeroed(a, NDIRECT)[i] == 0
  {
  }

  /** The indirect part of inode_trunc: the listed blocks, then the indirect block itself. */
  method TruncIndirect(log: Log, ind: nat, ghost h0: Disk, ghost a0: seq<nat>, ghost b0: seq<nat>,
                       ghost d0: set<nat>, ghost others: set<nat>)
    requires Truncating(log, h0, d0, FirstOf(b0, NDIRECT)) && FileOk(h0, a0, b0, others)
    requires ind == a0[NDIRECT] != 0 && log.cache.held == {}
    requires |h0| > 1 && |d0 + BitmapBlocks(h0)| <= MAXTX < log.size - 1
    modifies log, log.cache
    ensures |a0| == NDIRECT + 1 && Truncating(log, h0, d0, Owned(a0, b0)) && log.SameTx() && log.cache.held == {}
  {
    hide Log.Valid, Log.Home, FileOk, GivenBack, FirstOf, BitmapBlocks, LayoutOk, BitmapOk, Untouched,
         Free, DataBlock, Word;
    FileFacts(h0, a0, b0, others, 0);
    FirstOfStep(b0, NDIRECT);
    TruncRoom(h0, log.Home(), FirstOf(b0, NDIRECT), d0, log.cache.dirty);
    IndirectKept(h0, log.Home(), FirstOf(b0, NDIRECT), a0, b0, others);
    BitmapRoom(log.Home(), log.cache.dirty);
    log.Basics();
    assert log.cache.held + log.cache.dirty == log.cache.dirty;
    var bp := log.Read(ind);
    assert log.cache.held == {ind};
    TruncTail(log, bp, h0, a0, b0, d0, others);
    log.Release(bp);
    assert log.cache.held == {};
    MayHold(h0, log.Home(), Elems(b0), a0, b0, others);
    GiveBack(log, ind, NBUF, h0, d0, Elems(b0));
    IndOwned(a0, b0);
  }

  lemma IndirectKept(h0: Disk, h: Disk, F: set<nat>, addrs: seq<nat>, blk: seq<nat>, others: set<nat>)
    requires GivenBack(h0, h, F) && FileOk(h0, addrs, blk, others) && addrs[NDIRECT] != 0
    ensures LayoutOk(h) && addrs[NDIRECT] < |h| == |h0| && h[addrs[NDIRECT]] == h0[addrs[NDIRECT]]
  {
    hide GivenBack, Maps, Used, BitmapOk, BitmapBlocks;
    GivenBackBasics(h0, h, F);
    KeepsList(h0, addrs, blk, others);
    assert addrs[NDIRECT] in Owned(addrs, blk);
    GivenBackKeeps(h0, h, F, addrs, blk, others);
  }
}
