/** The block allocator of kern/fs/block.c, on top of the log. */
module BlockAlloc {
  import opened Params
  import opened Blocks
  import opened Layout
  import opened Bitmap
  import opened BufCache
  import opened RedoLog

  /** Blocks one transaction can log while its caller holds a buffer: with that buffer, these blocks and the
      one being logged, the cache still has a buffer for the log's own sector. */
  const MAXTX: nat := NBUF - 2

  /** Room in the log and the cache for one more logged block. */
  ghost predicate RoomForOne(log: Log)
    reads log, log.cache
  {
    |log.cache.dirty| < MAXTX < log.size - 1 && |log.cache.held| <= 1
  }

  /** At least k free blocks outside the log. */
  ghost predicate Available(h: Disk, k: nat) {
    LayoutOk(h) && |Free(h)| >= k
  }

  /** Only bitmap blocks and the given blocks were logged besides `dirty`. */
  ghost predicate LoggedOnly(h: Disk, dirty: set<nat>, dirty': set<nat>, extra: set<nat>) {
    |h| > 1 && dirty' <= dirty + BitmapBlocks(h) + extra
  }

  /** Room for k more logged blocks besides the bitmap. */
  ghost predicate Room(log: Log, k: nat)
    reads log, log.cache
  {
    && LayoutOk(log.Home())
    && |log.cache.dirty + BitmapBlocks(log.Home())| + k <= MAXTX < log.size - 1
    && |log.cache.held| <= 1
  }

  /** b is the block the scan of block_alloc stops at. */
  ghost predicate FirstFit(h: Disk, b: nat)
    requires LayoutOk(h)
  {
    && b < FsSize(h) && !Used(h, b)
    && forall c | 0 <= c < b :: Used(h, c)
  }

  /** The allocator's choice lies outside the log exactly when the data area has a free block. */
  lemma ChoiceOutsideLog(h: Disk, b: nat)
    requires BitmapOk(h) && FirstFit(h, b)
    ensures b < |h| <==> Free(h) != {}
    ensures b < |h| ==> b in Free(h)
  {
    if b < |h| {
      assert b in Free(h);
    } else {
      assert forall c | DataStart(h) <= c < |h| :: Used(h, c);
    }
  }

  /** Bits 0 to n - 1 set: the bitmap block mkfs writes. */
  function FirstBits(n: nat): Block
    requires n <= BPB
  {
    if n == 0 then ZeroBlock() else SetBit(FirstBits(n - 1), n - 1)
  }

  lemma {:induction false} BitOfFirstBits(n: nat, j: nat)
    requires n <= BPB && j < BPB
    ensures Bit(FirstBits(n), j) == (j < n)
  {
    hide SetBit;
    if n > 0 {
      BitOfFirstBits(n - 1, j);
      BitOfSetBit(FirstBits(n - 1), n - 1, j);
    } else {
      ZeroBit(j % 8);
    }
  }

  lemma {:induction false} ZeroBit(k: nat)
    ensures !BitAt(0, k)
  {
    if k > 0 {
      ZeroBit(k - 1);
    }
  }

  /** The superblock mkfs writes: 1024 sectors, 985 data blocks, 200 inodes, a log of 10. */
  function MkfsSuperblock(): Block {
    SetWord(SetWord(SetWord(SetWord(ZeroBlock(), 0, 1024), 1, 985), 2, 200), 3, 10)
  }

  lemma MkfsFields()
    ensures SbSize(MkfsSuperblock()) == 1024 && SbNinodes(MkfsSuperblock()) == 200
  {
    hide SetWord, Word;
    var sb1 := SetWord(ZeroBlock(), 0, 1024);
    var sb2 := SetWord(sb1, 1, 985);
    var sb3 := SetWord(sb2, 2, 200);
    WordOfSetWord(ZeroBlock(), 0, 1024, 0);
    WordOfSetWord(sb1, 1, 985, 0);
    WordOfSetWord(sb2, 2, 200, 0);
    WordOfSetWord(sb2, 2, 200, 2);
    WordOfSetWord(sb3, 3, 10, 0);
    WordOfSetWord(sb3, 3, 10, 2);
    assert MkfsSuperblock() == SetWord(sb3, 3, 10);
  }

  /** mkfs leaves the log's own bits clear, so on its layout, once all 985 data blocks are in use,
      the allocator hands out sector 1014: the log header. */
  lemma FullDiskHandsOutTheLog(h: Disk)
    requires |h| == 1014 && h[1] == MkfsSuperblock() && h[28] == FirstBits(1014)
    ensures BitmapOk(h) && |h| == FsSize(h) - 10 && DataStart(h) == 29
    ensures FirstFit(h, |h|)
  {
    hide SetWord, Word, FirstBits, Bit, MkfsSuperblock;
    MkfsFields();
    assert FsSize(h) == 1024 && FsInodes(h) == 200;
    forall b | 0 <= b < 1024
      ensures Used(h, b) == (b < 1014)
    {
      assert BitmapBlock(h, b) == 28;
      BitOfFirstBits(1014, b);
    }
  }

  /** What every call that only reads and logs blocks keeps for its caller. */
  twostate predicate Step(log: Log, keep: nat)
    reads log, log.cache
  {
    && log.Valid() && log.SameTx() && log.Kept(keep)
    && log.cache.held == old(log.cache.held)
    && |log.Home()| == log.start && |old(log.Home())| == log.start
  }

  /** read_superblock, as far as the callers use it. */
  method ReadSuperblock(log: Log, ghost keep: nat := NBUF) returns (sb: Block)
    requires log.Valid() && 1 < log.start && 1 !in log.cache.held
    requires |log.cache.held + log.cache.dirty| < NBUF
    requires keep < NBUF ==> log.Holds(keep)
    modifies log.cache
    ensures Step(log, keep) && log.Home() == old(log.Home()) && log.cache.dirty == old(log.cache.dirty)
    ensures sb == log.Home()[1]
  {
    hide Log.Valid;
    log.Basics();
    var bp := log.Read(1, keep);
    log.Basics();
    sb := log.cache.bufs[bp].data;
    log.Release(bp, keep);
    log.Basics();
  }

  /** block_zero. */
  method Zero(log: Log, bno: nat, ghost keep: nat := NBUF)
    requires log.Valid() && log.busy && bno < log.start && bno !in log.cache.held && RoomForOne(log)
    requires keep < NBUF ==> log.Holds(keep)
    modifies log, log.cache
    ensures Step(log, keep) && log.Home() == old(log.Home())[bno := ZeroBlock()]
    ensures log.cache.dirty == old(log.cache.dirty) + {bno}
  {
    hide Log.Valid;
    log.Basics();
    RoomSize(log.cache.held, log.cache.dirty, {bno});
    var bp := log.Read(bno, keep);
    log.Basics();
    assert log.cache.held + log.cache.dirty == old(log.cache.held) + old(log.cache.dirty) + {bno};
    log.LogWrite(bp, ZeroBlock(), keep);
    log.Release(bp, keep);
    log.Basics();
    assert log.cache.held == old(log.cache.held);
  }

  /** Nothing the allocator touches is held by its caller. */
  ghost predicate Untouched(h: Disk, held: set<nat>)
    requires LayoutOk(h)
  {
    1 !in held && held !! BitmapBlocks(h) && held !! Free(h)
  }

  /** Inner loop of block_alloc: the first clear bit of one bitmap block, below `limit`. */
  method ScanBlock(data: Block, limit: nat) returns (bi: nat)
    ensures bi <= BPB && bi <= limit
    ensures forall c | 0 <= c < bi :: Bit(data, c)
    ensures bi < BPB && bi < limit ==> !Bit(data, bi)
  {
    bi := 0;
    while bi < BPB && bi < limit
      invariant bi <= BPB && bi <= limit
      invariant forall c | 0 <= c < bi :: Bit(data, c)
    {
      if !Bit(data, bi) {
        return;
      }
      bi := bi + 1;
    }
  }

  /** Whole bitmap blocks up to b are scanned and full; `free` is a free block ahead. */
  ghost predicate Scanned(h: Disk, b: nat, free: nat)
    requires LayoutOk(h)
  {
    && b % BPB == 0 && b <= free < |h| && !Used(h, free)
    && forall c | 0 <= c < b :: Used(h, c)
  }

  lemma ScanStart(h: Disk, held: set<nat>) returns (free: nat)
    requires BitmapOk(h) && Free(h) != {} && Untouched(h, held)
    ensures LayoutOk(h) && Scanned(h, 0, free) && free < FsSize(h) && 1 < |h| && 1 !in held
  {
    free :| free in Free(h);
  }

  lemma ScanHere(h: Disk, b: nat, held: set<nat>)
    requires LayoutOk(h) && b < FsSize(h) && Untouched(h, held)
    ensures 1 < |h| && 1 !in held
    ensures BBlock(b, FsInodes(h)) !in held && BBlock(b, FsInodes(h)) < |h|
    ensures BitmapBlock(h, b) == BBlock(b, FsInodes(h)) && BitmapBlock(h, b) in BitmapBlocks(h)
  {
    assert BBlock(b, FsInodes(h)) in BitmapBlocks(h);
    BitmapBlocksPlace(h);
  }

  /** What scanning one bitmap block says. */
  lemma ScanNext(h: Disk, b: nat, bi: nat, free: nat)
    requires LayoutOk(h) && b < FsSize(h) && Scanned(h, b, free)
    requires bi <= BPB && bi <= FsSize(h) - b
    requires forall c | 0 <= c < bi :: Bit(h[BitmapBlock(h, b)], c)
    requires bi < BPB && bi < FsSize(h) - b ==> !Bit(h[BitmapBlock(h, b)], bi)
    ensures bi < BPB && b + bi < FsSize(h) ==>
      BitmapBlock(h, b + bi) == BitmapBlock(h, b) && FirstFit(h, b + bi)
    ensures !(bi < BPB && b + bi < FsSize(h)) ==> Scanned(h, b + BPB, free) && b + BPB <= free
  {
    forall c | b <= c < b + bi
      ensures Used(h, c)
    {
      assert BitmapBlock(h, c) == BitmapBlock(h, b) && c % BPB == c - b;
    }
    if bi < BPB && b + bi < FsSize(h) {
      assert BitmapBlock(h, b + bi) == BitmapBlock(h, b) && (b + bi) % BPB == bi;
    } else {
      assert bi == BPB || free < b + bi;
    }
  }

  /** The bitmap block of b is held in buffer bp, besides `held`. */
  ghost predicate HoldsBitmap(log: Log, h: Disk, b: nat, bp: nat, held: set<nat>)
    requires LayoutOk(h)
    reads log, log.cache
  {
    && BitmapBlock(h, b) < |h|
    && log.cache.held == held + {BitmapBlock(h, b)} && log.cache.Holding(BitmapBlock(h, b), bp)
    && log.cache.bufs[bp].data == h[BitmapBlock(h, b)]
  }

  /** One turn of block_alloc's outer loop: scans the bitmap block of b, and releases it if it is full. */
  method ScanGroup(log: Log, b: nat, ninodes: nat, limit: nat, ghost free: nat, ghost keep: nat)
    returns (bi: nat, bp: nat)
    requires log.Valid() && LayoutOk(log.Home()) && Untouched(log.Home(), log.cache.held)
    requires b < FsSize(log.Home()) && limit == FsSize(log.Home()) - b && ninodes == FsInodes(log.Home())
    requires Scanned(log.Home(), b, free) && |log.cache.held + log.cache.dirty| < NBUF
    requires keep < NBUF ==> log.Holds(keep)
    modifies log.cache
    ensures log.Valid() && log.SameTx() && log.Kept(keep)
    ensures log.Home() == old(log.Home()) && log.cache.dirty == old(log.cache.dirty)
    ensures if bi < BPB && bi < limit
            then FirstFit(log.Home(), b + bi) && bp != keep
                 && HoldsBitmap(log, log.Home(), b + bi, bp, old(log.cache.held))
            else b + BPB <= free && Scanned(log.Home(), b + BPB, free) && log.cache.held == old(log.cache.held)
  {
    hide Log.Valid, Log.Home, Bit, BBlock, DataStart, FirstFit, Scanned, BitmapBlocks, Free, LayoutOk, Untouched;
    log.Basics();
    ghost var h, held := log.Home(), log.cache.held;
    ScanHere(h, b, held);
    bp := log.Read(BBlock(b, ninodes), keep);
    bi := ScanBlock(log.cache.bufs[bp].data, limit);
    ScanNext(h, b, bi, free);
    if !(bi < BPB && bi < limit) {
      log.Release(bp, keep);
      assert log.cache.held == held;
    }
  }

  /** The two scanning loops of block_alloc, up to the first clear bit. */
  method Scan(log: Log, ghost keep: nat := NBUF) returns (b: nat, bp: nat)
    requires log.Valid() && BitmapOk(log.Home()) && RoomForOne(log)
    requires Untouched(log.Home(), log.cache.held) && Free(log.Home()) != {}
    requires keep < NBUF ==> log.Holds(keep)
    modifies log.cache
    ensures log.Valid() && log.SameTx() && log.Kept(keep)
    ensures log.Home() == old(log.Home()) && log.cache.dirty == old(log.cache.dirty)
    ensures FirstFit(log.Home(), b) && bp != keep
    ensures HoldsBitmap(log, log.Home(), b, bp, old(log.cache.held))
  {
    hide Log.Valid, Log.Home, Bit, SbSize, SbNinodes, BBlock, DataStart, FirstFit, Scanned, BitmapOk,
         BitmapBlocks, Free, LayoutOk, Untouched, HoldsBitmap;
    log.Basics();
    RoomSize(log.cache.held, log.cache.dirty, {});
    ghost var h := log.Home();
    ghost var free := ScanStart(h, log.cache.held);
    var sb := ReadSuperblock(log, keep);
    b := 0;
    while b < SbSize(sb)
      invariant Scanned(h, b, free) && b <= free
      invariant Step(log, keep) && log.Home() == h && log.cache.dirty == old(log.cache.dirty)
      decreases free - b
    {
      var bi;
      bi, bp := ScanGroup(log, b, SbNinodes(sb), SbSize(sb) - b, free, keep);
      if bi < BPB && b + bi < SbSize(sb) {
        b := b + bi;
        return;
      }
      log.Basics();
      b := b + BPB;
    }
  }

  /** block_alloc. */
  method Alloc(log: Log, ghost keep: nat := NBUF) returns (b: nat)
    requires log.Valid() && log.busy && BitmapOk(log.Home()) && Room(log, 1)
    requires Untouched(log.Home(), log.cache.held) && Free(log.Home()) != {}
    requires keep < NBUF ==> log.Holds(keep)
    modifies log, log.cache
    ensures Step(log, keep)
    ensures b in Free(old(log.Home())) && FirstFit(old(log.Home()), b)
    ensures log.Home() == Allocated(old(log.Home()), b)
    ensures log.cache.dirty <= old(log.cache.dirty) + BitmapBlocks(old(log.Home())) + {b}
  {
    hide Log.Valid, Log.Home, SetBit, FirstFit, Free, BitmapBlocks, LayoutOk, BBlock;
    ghost var h, held, dirty := log.Home(), log.cache.held, log.cache.dirty;
    BitmapRoom(h, dirty);
    var bp;
    b, bp := Scan(log, keep);
    ChoiceOutsideLog(h, b);
    AllocPlace(h, b, held);
    RoomSize(held, dirty, {BitmapBlock(h, b)});
    SetAndRelease(log, bp, BitmapBlock(h, b), SetBit(log.cache.bufs[bp].data, b % BPB), keep, held);
    Zero(log, b, keep);
  }

  /** Log new contents of the block of buffer bp, held besides `held`, and release it. */
  method SetAndRelease(log: Log, bp: nat, ghost s: nat, data: Block, ghost keep: nat, ghost held: set<nat>)
    requires log.Valid() && log.busy && log.cache.Holding(s, bp) && bp != keep
    requires s !in held && log.cache.held == held + {s}
    requires |held + log.cache.dirty + {s}| < NBUF && |log.cache.dirty| < MAXTX < log.size - 1
    modifies log, log.cache
    ensures log.Valid() && log.SameTx() && log.Kept(keep) && log.cache.held == held
    ensures |old(log.Home())| == |log.Home()| == log.start && s < log.start
    ensures log.Home() == old(log.Home())[s := data] && log.cache.dirty == old(log.cache.dirty) + {s}
  {
    hide Log.Valid, Log.Home;
    log.Basics();
    assert log.cache.held + log.cache.dirty == held + log.cache.dirty + {s};
    log.LogWrite(bp, data, keep);
    log.Release(bp, keep);
    log.Basics();
    assert log.cache.held == held;
  }

  lemma BitmapRoom(h: Disk, dirty: set<nat>)
    requires LayoutOk(h)
    ensures |dirty| <= |dirty + BitmapBlocks(h)| && 1 < |h| <= FsSize(h)
    ensures forall bm | bm in BitmapBlocks(h) :: |dirty + {bm}| <= |dirty + BitmapBlocks(h)|
  {
    SubsetSize(dirty, dirty + BitmapBlocks(h));
    forall bm | bm in BitmapBlocks(h)
      ensures |dirty + {bm}| <= |dirty + BitmapBlocks(h)|
    {
      SubsetSize(dirty + {bm}, dirty + BitmapBlocks(h));
    }
  }

  lemma AllocPlace(h: Disk, b: nat, held: set<nat>)
    requires BitmapOk(h) && b in Free(h) && Untouched(h, held)
    ensures b < |h| && b !in held && LayoutOk(h)
    ensures BitmapBlock(h, b) in BitmapBlocks(h) && BitmapBlock(h, b) !in held
  {
    assert BBlock(b, FsInodes(h)) in BitmapBlocks(h);
  }

  /** block_free: b must be in use, else "freeing free block". */
  method BlockFree(log: Log, b: nat, ghost keep: nat := NBUF)
    requires log.Valid() && log.busy && BitmapOk(log.Home()) && b < |log.Home()|
    requires Used(log.Home(), b)
    requires Room(log, 0) && Untouched(log.Home(), log.cache.held)
    requires keep < NBUF ==> log.Holds(keep)
    modifies log, log.cache
    ensures Step(log, keep)
    ensures log.Home() == Freed(old(log.Home()), b)
    ensures log.cache.dirty <= old(log.cache.dirty) + BitmapBlocks(old(log.Home()))
  {
    hide Log.Valid, Log.Home, ClearBit, Used, BBlock, BitmapBlocks, LayoutOk, Free;
    ghost var h, held, dirty := log.Home(), log.cache.held, log.cache.dirty;
    BitmapRoom(h, dirty);
    ScanHere(h, b, held);
    log.Basics();
    RoomSize(held, dirty, {BitmapBlock(h, b)});
    var sb := ReadSuperblock(log, keep);
    var bp := log.Read(BBlock(b, SbNinodes(sb)), keep);
    log.Basics();
    assert log.cache.held + log.cache.dirty == held + dirty + {BitmapBlock(h, b)};
    log.LogWrite(bp, ClearBit(log.cache.bufs[bp].data, b % BPB), keep);
    log.Release(bp, keep);
    log.Basics();
    assert log.cache.held == held;
  }

  lemma RoomSize(held: set<nat>, dirty: set<nat>, extra: set<nat>)
    ensures |held + dirty + extra| <= |held| + |dirty| + |extra|
    ensures |held + dirty| <= |held| + |dirty|
  {
    assert |held + dirty| == |held| + |dirty| - |held * dirty|;
    assert |held + dirty + extra| == |held + dirty| + |extra| - |(held + dirty) * extra|;
  }
}
