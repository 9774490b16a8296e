/** Reading and writing files: inode_read, inode_write, inode_update. */
module InodeIO {
  import opened Lists
  import opened Params
  import opened Blocks
  import opened Layout
  import opened Bitmap
  import opened BufCache
  import opened RedoLog
  import opened BlockAlloc
  import opened FileMap
  import opened FileBytes
  import opened DiskInode
  import opened Inodes

  /** A file may have grown and its data may have changed; nothing else has, but the bitmap. The
      growth came out of the free blocks. */
  ghost predicate Spread(h: Disk, addrs: seq<nat>, blk: seq<nat>, g: Disk, addrs': seq<nat>, blk': seq<nat>) {
    && LayoutOk(h) && LayoutOk(g) && |addrs| == |addrs'| == NDIRECT + 1
    && blk <= blk' && Owned(addrs, blk) <= Owned(addrs', blk')
    && (addrs[NDIRECT] != 0 ==> addrs'[NDIRECT] == addrs[NDIRECT])
    && Frame(h, g, BitmapBlocks(h) + Owned(addrs', blk'))
    && Owned(addrs', blk') - Owned(addrs, blk) <= Free(h)
    && Free(g) == Free(h) - (Owned(addrs', blk') - Owned(addrs, blk))
    && BitmapBlocks(g) == BitmapBlocks(h) && g[1] == h[1]
  }

  lemma SpreadTransitive(h: Disk, a: seq<nat>, b: seq<nat>, h1: Disk, a1: seq<nat>, b1: seq<nat>,
                         h2: Disk, a2: seq<nat>, b2: seq<nat>)
    requires Spread(h, a, b, h1, a1, b1) && Spread(h1, a1, b1, h2, a2, b2)
    ensures Spread(h, a, b, h2, a2, b2)
  {
    hide LayoutOk, Free, BitmapBlocks, Owned;
    var d1, d2 := Owned(a1, b1) - Owned(a, b), Owned(a2, b2) - Owned(a1, b1);
    assert Owned(a2, b2) - Owned(a, b) == d1 + d2;
  }

  /** bmap, then storing into the block it names. */
  lemma GrewThenStored(h: Disk, a: seq<nat>, b: seq<nat>, g: Disk, a': seq<nat>, b': seq<nat>,
                       others: set<nat>, i: nat, data: Block)
    requires Grew(h, a, b, g, a', b') && FileOk(g, a', b', others) && i < |b'| && b'[i] < |g|
    ensures FileOk(g[b'[i] := data], a', b', others)
    ensures Spread(h, a, b, g[b'[i] := data], a', b')
    ensures Available(g[b'[i] := data], 0)
  {
    hide Used, Free, BitmapBlocks, Maps;
    StoreKeepsFile(g, a', b', others, i, data);
    assert b'[i] in Owned(a', b');
  }

  lemma {:induction false} ElemsSize(s: seq<nat>)
    requires Distinct(s)
    ensures |Elems(s)| == |s|
  {
    if s != [] {
      var t, x := s[..|s| - 1], s[|s| - 1];
      ElemsSize(t);
      assert s == t + [x] && x !in t;
      assert Elems(s) == Elems(t) + {x};
    }
  }

  /** How many blocks a file owns. */
  lemma OwnedSize(addrs: seq<nat>, blk: seq<nat>)
    requires |addrs| == NDIRECT + 1 && Distinct(blk) && addrs[NDIRECT] !in blk && Tight(addrs, blk)
    ensures |Owned(addrs, blk)| == OwnedCount(|blk|)
  {
    ElemsSize(blk);
    assert addrs[NDIRECT] !in Elems(blk);
  }

  /** Growth in blocks is exactly the drop in free blocks. */
  lemma SpreadCount(h: Disk, a: seq<nat>, b: seq<nat>, g: Disk, a': seq<nat>, b': seq<nat>, others: set<nat>)
    requires FileOk(h, a, b, others) && Tight(a, b) && FileOk(g, a', b', others) && Tight(a', b')
    requires Spread(h, a, b, g, a', b')
    ensures |Free(g)| == |Free(h)| - (OwnedCount(|b'|) - OwnedCount(|b|))
  {
    hide Free, BitmapBlocks, ListsTail, Used, Owned;
    OwnedSize(a, b);
    OwnedSize(a', b');
    var d := Owned(a', b') - Owned(a, b);
    assert Owned(a', b') == Owned(a, b) + d;
    assert Free(h) == Free(g) + d;
  }

  /** The blocks of a file's list from lo up to hi. */
  ghost function Slice(blk: seq<nat>, lo: nat, hi: nat): set<nat> {
    set i | lo <= i < hi && i < |blk| :: blk[i]
  }

  lemma {:induction false} SliceSize(blk: seq<nat>, lo: nat, hi: nat)
    requires lo <= hi
    ensures |Slice(blk, lo, hi)| <= hi - lo
    decreases hi
  {
    if lo < hi {
      SliceSize(blk, lo, hi - 1);
      if hi - 1 < |blk| {
        assert Slice(blk, lo, hi) == Slice(blk, lo, hi - 1) + {blk[hi - 1]};
      } else {
        assert Slice(blk, lo, hi) == Slice(blk, lo, hi - 1);
      }
    } else {
      assert Slice(blk, lo, hi) == {};
    }
  }

  // ---- inode_update ----

  /** The on-disk inode equals the in-memory one. */
  ghost predicate Synced(h: Disk, inum: nat, typ: nat, major: nat, minor: nat, nlink: nat, size: nat,
                         addrs: seq<nat>)
  {
    && LayoutOk(h) && inum < FsInodes(h) && IBlock(inum) < |h|
    && var d := Load(h[IBlock(inum)], inum % IPB);
    && d.typ == typ && d.major == major && d.minor == minor && d.nlink == nlink
    && d.size == size && d.addrs == addrs
  }

  /** The inode on the disk has these addresses and this size. */
  ghost predicate OnDisk(h: Disk, inum: nat, a: seq<nat>, size: nat) {
    && IBlock(inum) < |h|
    && var d := Load(h[IBlock(inum)], inum % IPB);
    && d.addrs == a && d.size == size
  }

  /** Every other inode reads the same. */
  ghost predicate OtherInodesKept(h: Disk, g: Disk, inum: nat) {
    && LayoutOk(h) && |g| == |h| && FsInodes(h) / IPB + 2 < |h|
    && forall j | 0 <= j < FsInodes(h) && j != inum ::
         Load(g[IBlock(j)], j % IPB) == Load(h[IBlock(j)], j % IPB)
  }

  /** Storing one inode leaves files, bitmap and other inodes alone. */
  lemma StoreInode(h: Disk, addrs: seq<nat>, blk: seq<nat>, others: set<nat>, inum: nat, d: DInode)
    requires FileOk(h, addrs, blk, others) && inum < FsInodes(h)
    ensures var s := IBlock(inum);
            && s < |h| && s > 1 && s !in BitmapBlocks(h) && s !in Owned(addrs, blk) && s !in others
            && s < DataStart(h)
            && var g := h[s := DiskInode.Store(h[s], inum % IPB, d)];
            && FileOk(g, addrs, blk, others) && BitmapBlocks(g) == BitmapBlocks(h) && Free(g) == Free(h)
            && OtherInodesKept(h, g, inum) && g[1] == h[1]
            && Synced(g, inum, d.typ, d.major, d.minor, d.nlink, d.size, d.addrs)
  {
    hide Used, Free, ListsTail, BitmapBlocks, DiskInode.Store, Load, SbNinodes, SbSize;
    var s := IBlock(inum);
    BitmapBlocksPlace(h);
    var g := h[s := DiskInode.Store(h[s], inum % IPB, d)];
    SameBitmap(h, g);
    LoadOfStore(h[s], inum % IPB, d, inum % IPB);
    forall j | 0 <= j < FsInodes(h) && j != inum
      ensures Load(g[IBlock(j)], j % IPB) == Load(h[IBlock(j)], j % IPB)
    {
      LoadOfStore(h[s], inum % IPB, d, j % IPB);
    }
  }

  /** What storing inode inum does to the disk. */
  ghost predicate InodeStored(h: Disk, g: Disk, inum: nat) {
    && LayoutOk(h) && LayoutOk(g) && Frame(h, g, {IBlock(inum)}) && OtherInodesKept(h, g, inum)
    && Free(g) == Free(h) && BitmapBlocks(g) == BitmapBlocks(h) && g[1] == h[1]
  }

  /** Addresses fit a word. */
  lemma AddrsAreWords(h: Disk, addrs: seq<nat>, blk: seq<nat>, others: set<nat>)
    requires FileOk(h, addrs, blk, others) && |h| <= TWO32
    ensures |addrs| == NDIRECT + 1 && forall i | 0 <= i < |addrs| :: addrs[i] < TWO32
  {
    hide ListsTail, Used;
    KeepsList(h, addrs, blk, others);
    assert addrs[NDIRECT] != 0 ==> addrs[NDIRECT] in Owned(addrs, blk);
  }

  ghost predicate ValidInum(h: Disk, inum: nat) {
    LayoutOk(h) && inum < FsInodes(h)
  }

  lemma SyncedInum(h: Disk, inum: nat, typ: nat, major: nat, minor: nat, nlink: nat, size: nat, addrs: seq<nat>)
    requires Synced(h, inum, typ, major, minor, nlink, size, addrs)
    ensures ValidInum(h, inum)
  {
  }

  lemma SyncedKept(h: Disk, g: Disk, inum: nat, typ: nat, major: nat, minor: nat, nlink: nat, size: nat, addrs: seq<nat>)
    requires Synced(h, inum, typ, major, minor, nlink, size, addrs) && ValidInum(g, inum)
    requires IBlock(inum) < |h| == |g| && g[IBlock(inum)] == h[IBlock(inum)]
    ensures Synced(g, inum, typ, major, minor, nlink, size, addrs)
  {
  }

  /** inode_update: copy the in-memory inode to its disk slot. */
  method Update(log: Log, ip: Inode, ghost others: set<nat>)
    requires Ready(log, ip, others) && log.busy && RoomForOne(log) && ValidInum(log.Home(), ip.inum)
    modifies log, log.cache
    ensures Ready(log, ip, others) && log.SameTx()
    ensures Synced(log.Home(), ip.inum, ip.typ, ip.major, ip.minor, ip.nlink, ip.size, ip.addrs)
    ensures InodeStored(old(log.Home()), log.Home(), ip.inum)
    ensures log.cache.dirty == old(log.cache.dirty) + {IBlock(ip.inum)}
  {
    hide Log.Valid, Log.Home, FileOk, Free, BitmapBlocks, LayoutOk, DiskInode.Store, OtherInodesKept, Synced;
    ghost var h, dirty := log.Home(), log.cache.dirty;
    log.Basics();
    AddrsAreWords(h, ip.addrs, ip.blk, others);
    var d := DInode(ip.typ, ip.major, ip.minor, ip.nlink, ip.size, ip.addrs);
    StoreInode(h, ip.addrs, ip.blk, others, ip.inum, d);
    RoomSize(log.cache.held, dirty, {IBlock(ip.inum)});
    var bp := log.Read(IBlock(ip.inum));
    log.Basics();
    assert log.cache.held + log.cache.dirty == dirty + {IBlock(ip.inum)};
    log.LogWrite(bp, DiskInode.Store(log.cache.bufs[bp].data, ip.inum % IPB, d));
    log.Release(bp);
    assert log.cache.held == {};
    SameLayout(h, log.Home());
  }

  lemma SameLayout(h: Disk, g: Disk)
    requires LayoutOk(h) && |g| == |h| && g[1] == h[1]
    ensures LayoutOk(g)
  {
  }

  // ---- inode_write ----

  /** The state of a write between two blocks: bytes written so far, where it has got to. */
  ghost predicate Writing(h: Disk, addrs: seq<nat>, blk: seq<nat>, c: seq<Byte>, off: nat, src: seq<Byte>, tot: nat) {
    && |addrs| == NDIRECT + 1 && Tight(addrs, blk) && Written(h, blk, c, off, src, tot)
    && off + |src| <= MAXFILE * 512
  }

  /** Mapping a block and patching it extends the write by one chunk. */
  lemma ChunkEffect(h: Disk, a: seq<nat>, b: seq<nat>, h1: Disk, a1: seq<nat>, b1: seq<nat>, others: set<nat>,
                    c: seq<Byte>, off: nat, src: seq<Byte>, tot: nat, m: nat)
    requires Writing(h, a, b, c, off, src, tot) && tot < |src| && m == Chunk(off + tot, |src| - tot)
    requires Grew(h, a, b, h1, a1, b1) && FileOk(h1, a1, b1, others) && Tight(a1, b1)
    requires (off + tot) / 512 < |b1|
    ensures (off + tot) % 512 + m <= 512 && tot + m <= |src|
    ensures var i := (off + tot) / 512;
            && b1[i] < |h1|
            && var g := h1[b1[i] := Patch(h1[b1[i]], (off + tot) % 512, src[tot..tot + m])];
            FileOk(g, a1, b1, others) && Spread(h, a, b, g, a1, b1) && Writing(g, a1, b1, c, off, src, tot + m)
  {
    hide FileOk, Spread, Patch, Free, BitmapBlocks, LayoutOk;
    var i := (off + tot) / 512;
    ChunkBlocks(off + tot, |src| - tot);
    KeepsList(h1, a1, b1, others);
    var data := Patch(h1[b1[i]], (off + tot) % 512, src[tot..tot + m]);
    GrewThenStored(h, a, b, h1, a1, b1, others, i, data);
    GrowthKeepsWritten(h, b, c, off, src, tot, h1, b1);
    PatchExtends(h1, b1, c, off, src, tot, m, h1[b1[i] := data]);
  }

  /** Logging an indirect block and a data block besides the bitmap. */
  lemma ChunkRoom(dirty: set<nat>, bitmap: set<nat>, addrs: seq<nat>, x: nat, dirty': set<nat>)
    requires dirty' <= dirty + bitmap + (Ind(addrs) + {x})
    ensures |dirty'| <= |dirty + bitmap| + 2 && |dirty' + {x}| <= |dirty + bitmap| + 2
  {
    SubsetSize(dirty' + {x}, dirty + bitmap + (Ind(addrs) + {x}));
    SubsetSize(dirty', dirty' + {x});
    RoomSize(dirty + bitmap, Ind(addrs), {x});
    assert dirty + bitmap + Ind(addrs) + {x} == dirty + bitmap + (Ind(addrs) + {x});
  }

  /** One pass of inode_write's loop: map the block, copy one chunk into it, log it. */
  method WriteChunk(log: Log, ip: Inode, src: seq<Byte>, off: nat, tot: nat,
                    ghost c: seq<Byte>, ghost others: set<nat>) returns (m: nat)
    requires Ready(log, ip, others) && log.busy && tot < |src|
    requires Writing(log.Home(), ip.addrs, ip.blk, c, off, src, tot)
    requires CanMap(log, ip, (off + tot) / 512) && Room(log, 2)
    modifies log, log.cache, ip`addrs, ip`blk
    ensures Ready(log, ip, others) && log.SameTx() && m == Chunk(off + tot, |src| - tot)
    ensures Writing(log.Home(), ip.addrs, ip.blk, c, off, src, tot + m)
    ensures Spread(old(log.Home()), old(ip.addrs), old(ip.blk), log.Home(), ip.addrs, ip.blk)
    ensures (off + tot) / 512 < |ip.blk|
    ensures |ip.blk| == if (off + tot) / 512 < |old(ip.blk)| then |old(ip.blk)| else |old(ip.blk)| + 1
    ensures LoggedOnly(old(log.Home()), old(log.cache.dirty), log.cache.dirty,
                       Ind(ip.addrs) + {ip.blk[(off + tot) / 512]})
  {
    hide Log.Valid, Log.Home, FileOk, Free, BitmapBlocks, LayoutOk, Writing, Tight, Patch, Grew, Spread;
    ghost var h, addrs, blk, dirty := log.Home(), ip.addrs, ip.blk, log.cache.dirty;
    WritingTight(h, addrs, blk, c, off, src, tot);
    var bn := (off + tot) / 512;
    var addr := Bmap(log, ip, bn, others);
    ghost var h1 := log.Home();
    m := Chunk(off + tot, |src| - tot);
    ChunkEffect(h, addrs, blk, h1, ip.addrs, ip.blk, others, c, off, src, tot, m);
    ChunkRoom(dirty, BitmapBlocks(h), ip.addrs, addr, log.cache.dirty);
    log.Basics();
    PatchBlock(log, addr, (off + tot) % 512, src[tot..tot + m]);
  }

  /** Copy bytes into a block and log it. */
  method PatchBlock(log: Log, addr: nat, at: nat, part: seq<Byte>)
    requires log.Valid() && log.busy && log.cache.held == {} && addr < log.start && at + |part| <= 512
    requires |log.cache.dirty + {addr}| <= MAXTX < log.size - 1
    modifies log, log.cache
    ensures log.Valid() && log.SameTx() && log.cache.held == {}
    ensures |old(log.Home())| == |log.Home()| == log.start
    ensures log.Home() == old(log.Home())[addr := Patch(old(log.Home())[addr], at, part)]
    ensures log.cache.dirty == old(log.cache.dirty) + {addr}
  {
    hide Log.Valid, Log.Home, Patch;
    log.Basics();
    SubsetSize(log.cache.dirty, log.cache.dirty + {addr});
    assert log.cache.held + log.cache.dirty == log.cache.dirty;
    var bp := log.Read(addr);
    log.Basics();
    assert log.cache.held + log.cache.dirty == log.cache.dirty + {addr};
    log.LogWrite(bp, Patch(log.cache.bufs[bp].data, at, part));
    log.Release(bp);
    assert log.cache.held == {};
    log.Basics();
  }

  lemma WritingTight(h: Disk, addrs: seq<nat>, blk: seq<nat>, c: seq<Byte>, off: nat, src: seq<Byte>, tot: nat)
    requires Writing(h, addrs, blk, c, off, src, tot)
    ensures |addrs| == NDIRECT + 1 && Tight(addrs, blk)
  {
  }

  function Max(a: nat, b: nat): nat {
    if a < b then b else a
  }

  /** Blocks the write has reached once `tot` bytes are in place. */
  function Reached(off: nat, tot: nat): nat {
    if tot == 0 then off / 512 else BlocksFor(off + tot)
  }

  /** Where the loop of inode_write stands: the write so far, the growth so far, what was logged. */
  ghost predicate Progress(h0: Disk, a0: seq<nat>, b0: seq<nat>, dirty0: set<nat>,
                           h: Disk, a: seq<nat>, b: seq<nat>, dirty: set<nat>,
                           c: seq<Byte>, off: nat, src: seq<Byte>, tot: nat)
  {
    && Writing(h, a, b, c, off, src, tot) && Spread(h0, a0, b0, h, a, b)
    && off <= |c| && |b0| == BlocksFor(|c|) && |b| == Max(|b0|, Reached(off, tot))
    && LoggedOnly(h0, dirty0, dirty, Ind(a) + Slice(b, off / 512, Reached(off, tot)))
    && (tot == 0 || tot == |src| || (off + tot) % 512 == 0)
  }

  /** The blocks a write of n bytes at off stores into: the data blocks it reaches and the indirect block. */
  ghost function WriteSet(a: seq<nat>, b: seq<nat>, off: nat, n: nat): set<nat> {
    Ind(a) + Slice(b, off / 512, BlocksFor(off + n))
  }

  /** What a write needs: log and cache room for its blocks, indirect block, inode and the bitmap,
      and free blocks for its growth. */
  ghost predicate WriteBudget(h: Disk, blk: seq<nat>, dirty: set<nat>, off: nat, n: nat) {
    && LayoutOk(h)
    && |dirty + BitmapBlocks(h)| + 2 + (BlocksFor(off + n) - off / 512) <= MAXTX
    && Available(h, OwnedCount(Max(|blk|, BlocksFor(off + n))) - OwnedCount(|blk|))
  }

  lemma ProgressStart(h: Disk, a: seq<nat>, b: seq<nat>, dirty: set<nat>, size: nat, off: nat, src: seq<Byte>,
                      others: set<nat>)
    requires FileOk(h, a, b, others) && Tight(a, b) && |b| == BlocksFor(size) && off <= size
    requires off + |src| <= MAXFILE * 512
    ensures InRange(h, b)
    ensures Progress(h, a, b, dirty, h, a, b, dirty, Contents(h, b, size), off, src, 0)
  {
    hide Maps, Used;
    KeepsList(h, a, b, others);
    NothingWritten(h, b, size, off, src);
  }

  /** Logged blocks so far, counted. */
  lemma ProgressRoom(dirty0: set<nat>, bitmap: set<nat>, a: seq<nat>, b: seq<nat>, lo: nat, hi: nat, dirty: set<nat>)
    requires lo <= hi && dirty <= dirty0 + bitmap + (Ind(a) + Slice(b, lo, hi))
    ensures |dirty + bitmap| <= |dirty0 + bitmap| + |Ind(a)| + (hi - lo) && |dirty| <= |dirty + bitmap|
    ensures |Ind(a)| <= 1
  {
    var all := dirty0 + bitmap + Ind(a) + Slice(b, lo, hi);
    SubsetSize(dirty + bitmap, all);
    SubsetSize(dirty, dirty + bitmap);
    RoomSize(dirty0 + bitmap, Ind(a), Slice(b, lo, hi));
    SliceSize(b, lo, hi);
  }

  lemma BlocksFacts(off: nat, n: nat, tot: nat)
    requires tot < n && (tot == 0 || (off + tot) % 512 == 0)
    ensures Reached(off, tot) == (off + tot) / 512 < BlocksFor(off + n)
    ensures off / 512 <= (off + tot) / 512
  {
  }

  lemma BlocksMonotone(x: nat, y: nat)
    requires x <= y
    ensures BlocksFor(x) <= BlocksFor(y) && x / 512 <= BlocksFor(x) <= x / 512 + 1
  {
  }

  /** While bytes are left, the next block can be mapped and logged. */
  lemma ProgressAllows(h0: Disk, a0: seq<nat>, b0: seq<nat>, dirty0: set<nat>,
                       h: Disk, a: seq<nat>, b: seq<nat>, dirty: set<nat>,
                       c: seq<Byte>, off: nat, src: seq<Byte>, tot: nat, others: set<nat>)
    requires Progress(h0, a0, b0, dirty0, h, a, b, dirty, c, off, src, tot) && tot < |src|
    requires FileOk(h0, a0, b0, others) && Tight(a0, b0) && FileOk(h, a, b, others)
    requires WriteBudget(h0, b0, dirty0, off, |src|)
    ensures LayoutOk(h) && |dirty + BitmapBlocks(h)| + 2 <= MAXTX && |dirty| <= MAXTX
    ensures var bn := (off + tot) / 512;
            && bn < MAXFILE && bn <= |b|
            && (bn == |b| ==> Available(h, OwnedCount(bn + 1) - OwnedCount(bn)))
  {
    hide Free, BitmapBlocks, LayoutOk, FileOk, Written, Owned, Frame;
    var bn := (off + tot) / 512;
    BlocksFacts(off, |src|, tot);
    BlocksMonotone(off, |c|);
    BlocksMonotone(off + |src|, MAXFILE * 512);
    ProgressRoom(dirty0, BitmapBlocks(h0), a, b, off / 512, bn, dirty);
    SpreadCount(h0, a0, b0, h, a, b, others);
    if a[NDIRECT] == 0 {
      assert Ind(a) == {};
    }
  }

  /** One chunk keeps the loop's invariant. */
  lemma ProgressStep(h0: Disk, a0: seq<nat>, b0: seq<nat>, dirty0: set<nat>,
                     h: Disk, a: seq<nat>, b: seq<nat>, dirty: set<nat>,
                     g: Disk, a': seq<nat>, b': seq<nat>, dirty': set<nat>,
                     c: seq<Byte>, off: nat, src: seq<Byte>, tot: nat, m: nat)
    requires Progress(h0, a0, b0, dirty0, h, a, b, dirty, c, off, src, tot) && tot < |src|
    requires m == Chunk(off + tot, |src| - tot) && tot + m <= |src|
    requires Writing(g, a', b', c, off, src, tot + m) && Spread(h, a, b, g, a', b')
    requires (off + tot) / 512 < |b'|
    requires |b'| == if (off + tot) / 512 < |b| then |b| else |b| + 1
    requires LoggedOnly(h, dirty, dirty', Ind(a') + {b'[(off + tot) / 512]})
    ensures Progress(h0, a0, b0, dirty0, g, a', b', dirty', c, off, src, tot + m)
  {
    hide Free, LayoutOk, Written, Frame, BitmapBlocks;
    var bn := (off + tot) / 512;
    BlocksFacts(off, |src|, tot);
    ChunkBlocks(off + tot, |src| - tot);
    SpreadTransitive(h0, a0, b0, h, a, b, g, a', b');
    assert Reached(off, tot + m) == bn + 1;
    SliceGrows(b, b', off / 512, bn);
  }

  lemma SliceGrows(b: seq<nat>, b': seq<nat>, lo: nat, hi: nat)
    requires b <= b' && lo <= hi < |b'|
    ensures Slice(b, lo, hi) + {b'[hi]} <= Slice(b', lo, hi + 1)
  {
    forall x | x in Slice(b, lo, hi) + {b'[hi]}
      ensures x in Slice(b', lo, hi + 1)
    {
      if x != b'[hi] {
        var i :| lo <= i < hi && i < |b| && b[i] == x;
        assert b'[i] == x;
      }
    }
  }

  /** A locked, valid inode between operations: its block list is exactly as long as its size needs,
      and its disk copy is current. */
  ghost predicate Good(log: Log, ip: Inode, others: set<nat>)
    reads log, log.cache, ip
  {
    && Ready(log, ip, others) && |ip.addrs| == NDIRECT + 1 && Tight(ip.addrs, ip.blk)
    && |ip.blk| == BlocksFor(ip.size) && ip.size <= MAXFILE * 512
    && Synced(log.Home(), ip.inum, ip.typ, ip.major, ip.minor, ip.nlink, ip.size, ip.addrs)
  }

  /** The loop of inode_write. */
  method WriteLoop(log: Log, ip: Inode, src: seq<Byte>, off: nat, ghost others: set<nat>)
    requires Ready(log, ip, others) && log.busy && |ip.addrs| == NDIRECT + 1 && Tight(ip.addrs, ip.blk)
    requires |ip.blk| == BlocksFor(ip.size) && off <= ip.size && off + |src| <= MAXFILE * 512
    requires WriteBudget(log.Home(), ip.blk, log.cache.dirty, off, |src|) && MAXTX < log.size - 1
    modifies log, log.cache, ip`addrs, ip`blk
    ensures Ready(log, ip, others) && log.SameTx() && InRange(old(log.Home()), old(ip.blk))
    ensures Progress(old(log.Home()), old(ip.addrs), old(ip.blk), old(log.cache.dirty),
                     log.Home(), ip.addrs, ip.blk, log.cache.dirty,
                     Contents(old(log.Home()), old(ip.blk), ip.size), off, src, |src|)
  {
    hide Log.Valid, Log.Home, FileOk, Tight, Progress, WriteBudget, Contents, BlocksFor, Writing, Spread,
         LoggedOnly, LayoutOk, Free, BitmapBlocks, Ind, Chunk, InRange, Available;
    ghost var h0, a0, b0, d0 := log.Home(), ip.addrs, ip.blk, log.cache.dirty;
    ProgressStart(h0, a0, b0, d0, ip.size, off, src, others);
    ghost var c := Contents(h0, b0, ip.size);
    var tot := 0;
    while tot < |src|
      invariant tot <= |src| && Ready(log, ip, others) && log.SameTx() && log.busy
      invariant Progress(h0, a0, b0, d0, log.Home(), ip.addrs, ip.blk, log.cache.dirty, c, off, src, tot)
    {
      ghost var h, a, b, d := log.Home(), ip.addrs, ip.blk, log.cache.dirty;
      ProgressAllows(h0, a0, b0, d0, h, a, b, d, c, off, src, tot, others);
      ProgressWriting(h0, a0, b0, d0, h, a, b, d, c, off, src, tot);
      var m := WriteChunk(log, ip, src, off, tot, c, others);
      ChunkBlocks(off + tot, |src| - tot);
      ProgressStep(h0, a0, b0, d0, h, a, b, d, log.Home(), ip.addrs, ip.blk, log.cache.dirty, c, off, src, tot, m);
      tot := tot + m;
    }
  }

  lemma ProgressWriting(h0: Disk, a0: seq<nat>, b0: seq<nat>, dirty0: set<nat>,
                        h: Disk, a: seq<nat>, b: seq<nat>, dirty: set<nat>,
                        c: seq<Byte>, off: nat, src: seq<Byte>, tot: nat)
    requires Progress(h0, a0, b0, dirty0, h, a, b, dirty, c, off, src, tot)
    ensures Writing(h, a, b, c, off, src, tot)
  {
  }

  /** The 32-bit addition of the argument checks: it has not wrapped if the sum is not below off. */
  lemma SumFits(off: nat, n: nat)
    requires off < TWO32 && n < TWO32
    ensures (off + n) % TWO32 >= off <==> off + n < TWO32
    ensures off + n < TWO32 ==> (off + n) % TWO32 == off + n
  {
  }

  /** A write seen from outside: the byte array spliced, other files and inodes untouched, the growth
      taken from the free blocks. */
  ghost predicate WroteFile(h0: Disk, a0: seq<nat>, b0: seq<nat>, size0: nat,
                            h: Disk, a: seq<nat>, b: seq<nat>, size: nat,
                            off: nat, src: seq<Byte>, inum: nat, others: set<nat>)
  {
    && InRange(h0, b0) && BlocksFor(size0) <= |b0| && InRange(h, b) && BlocksFor(size) <= |b| && off <= size0
    && size == Max(size0, off + |src|)
    && Contents(h, b, size) == Splice(Contents(h0, b0, size0), off, src)
    && |h| == |h0| && (forall s | s in others :: s < |h0| && h[s] == h0[s])
    && OtherInodesKept(h0, h, inum)
    && LayoutOk(h) && |a0| == |a| == NDIRECT + 1 && BitmapBlocks(h) == BitmapBlocks(h0) && h[1] == h0[1]
    && Owned(a0, b0) <= Owned(a, b) && Owned(a, b) - Owned(a0, b0) <= Free(h0)
    && Free(h) == Free(h0) - (Owned(a, b) - Owned(a0, b0))
  }

  /** Other files and other inodes are outside what a growing file touches. */
  lemma OutsideSpread(h0: Disk, a0: seq<nat>, b0: seq<nat>, h: Disk, a: seq<nat>, b: seq<nat>, inum: nat, others: set<nat>)
    requires Spread(h0, a0, b0, h, a, b) && FileOk(h0, a0, b0, others) && FileOk(h, a, b, others)
    requires ValidInum(h0, inum)
    ensures forall s | s in others :: s < |h0| && h[s] == h0[s]
    ensures OtherInodesKept(h0, h, inum)
    ensures IBlock(inum) < |h0| && h[IBlock(inum)] == h0[IBlock(inum)] && FsInodes(h) == FsInodes(h0)
  {
    hide Used, Free, ListsTail, BitmapBlocks, Load, SbNinodes, SbSize;
    BitmapBlocksPlace(h0);
    BitmapBlocksPlace(h);
    forall s | s in others
      ensures s < |h0| && h[s] == h0[s]
    {
      DataBlockIsNotBitmap(h0, s);
    }
    forall s | 1 < s < FsInodes(h0) / IPB + 3
      ensures h[s] == h0[s]
    {
      assert s < DataStart(h);
      assert s !in Owned(a, b);
    }
  }

  /** With the size unchanged, the addresses are unchanged too. */
  lemma SameAddrs(h0: Disk, a0: seq<nat>, b: seq<nat>, h: Disk, a: seq<nat>, others: set<nat>)
    requires FileOk(h0, a0, b, others) && Tight(a0, b) && FileOk(h, a, b, others) && Tight(a, b)
    requires a0[NDIRECT] != 0 ==> a[NDIRECT] == a0[NDIRECT]
    ensures a == a0
  {
    hide Used, Free, ListsTail;
  }

  /** The end of the loop, read as a whole write (before the size is raised). */
  lemma WriteDone(h0: Disk, a0: seq<nat>, b0: seq<nat>, dirty0: set<nat>, size0: nat,
                  h: Disk, a: seq<nat>, b: seq<nat>, dirty: set<nat>,
                  off: nat, src: seq<Byte>, inum: nat, others: set<nat>)
    requires FileOk(h0, a0, b0, others) && Tight(a0, b0) && FileOk(h, a, b, others)
    requires |b0| == BlocksFor(size0) && InRange(h0, b0) && ValidInum(h0, inum)
    requires Progress(h0, a0, b0, dirty0, h, a, b, dirty, Contents(h0, b0, size0), off, src, |src|)
    ensures WroteFile(h0, a0, b0, size0, h, a, b, Max(size0, off + |src|), off, src, inum, others)
    ensures |a| == NDIRECT + 1 && Tight(a, b) && |b| == BlocksFor(Max(size0, off + |src|))
    ensures off + |src| <= size0 ==> a == a0 && b == b0
    ensures |h| == |h0| && IBlock(inum) < |h0| && h[IBlock(inum)] == h0[IBlock(inum)] && ValidInum(h, inum)
    ensures off / 512 <= BlocksFor(off + |src|)
    ensures WriteBudget(h0, b0, dirty0, off, |src|) ==> |dirty| < MAXTX
    ensures |dirty| <= |dirty0 + BitmapBlocks(h0)| + 1 + (BlocksFor(off + |src|) - off / 512)
    ensures LoggedOnly(h0, dirty0, dirty, WriteSet(a, b, off, |src|))
  {
    hide Used, Free, ListsTail, BitmapBlocks, FileOk, OtherInodesKept;
    WrittenIsSplice(h, b, Contents(h0, b0, size0), off, src);
    OutsideSpread(h0, a0, b0, h, a, b, inum, others);
    BlocksMonotone(off, off + |src|);
    if off + |src| <= size0 {
      BlocksMonotone(off + |src|, size0);
      assert b == b0;
      SameAddrs(h0, a0, b0, h, a, others);
    } else {
      BlocksMonotone(size0, off + |src|);
    }
    var hi := Reached(off, |src|);
    ProgressRoom(dirty0, BitmapBlocks(h0), a, b, off / 512, hi, dirty);
    SubsetSize(dirty, dirty + BitmapBlocks(h));
  }

  /** Storing the inode afterwards keeps everything the write did. */
  lemma StoredAfterWrite(h0: Disk, a0: seq<nat>, b0: seq<nat>, size0: nat,
                         h: Disk, a: seq<nat>, b: seq<nat>, size: nat, g: Disk,
                         off: nat, src: seq<Byte>, inum: nat, others: set<nat>)
    requires WroteFile(h0, a0, b0, size0, h, a, b, size, off, src, inum, others)
    requires FileOk(h, a, b, others) && InodeStored(h, g, inum) && ValidInum(h, inum)
    ensures WroteFile(h0, a0, b0, size0, g, a, b, size, off, src, inum, others)
  {
    hide Free, BitmapBlocks, Load, ListsTail, Used, SbNinodes, SbSize;
    KeepsList(h, a, b, others);
    assert forall i | 0 <= i < |b| :: g[b[i]] == h[b[i]];
    assert Contents(g, b, size) == Contents(h, b, size);
    forall s | s in others
      ensures g[s] == h[s]
    {
      assert DataBlock(h, s);
    }
  }

  lemma LoggedMore(h: Disk, d0: set<nat>, d1: set<nat>, d2: set<nat>, extra: set<nat>, x: nat)
    requires LoggedOnly(h, d0, d1, extra) && (d2 == d1 || d2 == d1 + {x})
    ensures LoggedOnly(h, d0, d2, extra + {x}) && |d2| <= |d1| + 1
  {
  }

  /** inode_write after its argument checks. The disk copy of the inode is current afterwards, although the
      code stores it only when the size grows. */
  method WriteFits(log: Log, ip: Inode, src: seq<Byte>, off: nat, ghost others: set<nat>)
    requires Good(log, ip, others) && log.busy && off <= ip.size && off + |src| <= MAXFILE * BSIZE
    requires WriteBudget(log.Home(), ip.blk, log.cache.dirty, off, |src|) && MAXTX < log.size - 1
    modifies log, log.cache, ip`size, ip`addrs, ip`blk
    ensures Good(log, ip, others) && log.SameTx()
    ensures WroteFile(old(log.Home()), old(ip.addrs), old(ip.blk), old(ip.size),
                      log.Home(), ip.addrs, ip.blk, ip.size, off, src, ip.inum, others)
    ensures LoggedOnly(old(log.Home()), old(log.cache.dirty), log.cache.dirty,
                       WriteSet(ip.addrs, ip.blk, off, |src|) + {IBlock(ip.inum)})
    ensures |log.cache.dirty| <= |old(log.cache.dirty) + BitmapBlocks(old(log.Home()))| + 2
                                 + (BlocksFor(off + |src|) - off / 512)
  {
    hide Log.Valid, Log.Home, FileOk, Tight, Progress, WriteBudget, Contents, WroteFile, LayoutOk, Free, Good,
         BitmapBlocks, InodeStored, BlocksFor, WriteSet, LoggedOnly, Synced, Load, Word, IBlock, InRange;
    var n := |src|;
    GoodParts(log, ip, others);
    ghost var h0, a0, b0, d0 := log.Home(), ip.addrs, ip.blk, log.cache.dirty;
    WriteLoop(log, ip, src, off, others);
    WriteDone(h0, a0, b0, d0, ip.size, log.Home(), ip.addrs, ip.blk, log.cache.dirty, off, src, ip.inum, others);
    ghost var h1, size0, d1 := log.Home(), ip.size, log.cache.dirty;
    if n > 0 && off + n > ip.size {
      StoreSize(log, ip, off + n, others);
      StoredAfterWrite(h0, a0, b0, size0, h1, ip.addrs, ip.blk, ip.size, log.Home(), off, src, ip.inum, others);
    } else {
      SyncedKept(h0, h1, ip.inum, ip.typ, ip.major, ip.minor, ip.nlink, ip.size, ip.addrs);
      PartsGood(log, ip, others);
    }
    LoggedMore(h0, d0, d1, log.cache.dirty, WriteSet(ip.addrs, ip.blk, off, n), IBlock(ip.inum));
  }

  lemma GoodParts(log: Log, ip: Inode, others: set<nat>)
    requires Good(log, ip, others)
    ensures Ready(log, ip, others) && |ip.addrs| == NDIRECT + 1 && Tight(ip.addrs, ip.blk)
    ensures |ip.blk| == BlocksFor(ip.size) && ip.size <= MAXFILE * 512 && ValidInum(log.Home(), ip.inum)
    ensures Synced(log.Home(), ip.inum, ip.typ, ip.major, ip.minor, ip.nlink, ip.size, ip.addrs)
  {
  }

  lemma PartsGood(log: Log, ip: Inode, others: set<nat>)
    requires Ready(log, ip, others) && |ip.addrs| == NDIRECT + 1 && Tight(ip.addrs, ip.blk)
    requires |ip.blk| == BlocksFor(ip.size) && ip.size <= MAXFILE * 512
    requires Synced(log.Home(), ip.inum, ip.typ, ip.major, ip.minor, ip.nlink, ip.size, ip.addrs)
    ensures Good(log, ip, others)
  {
  }

  /** The end of inode_write when the file has grown: the new size, and the inode stored. */
  method StoreSize(log: Log, ip: Inode, size: Word32, ghost others: set<nat>)
    requires Ready(log, ip, others) && log.busy && RoomForOne(log) && ValidInum(log.Home(), ip.inum)
    requires |ip.addrs| == NDIRECT + 1 && Tight(ip.addrs, ip.blk) && |ip.blk| == BlocksFor(size) && size <= MAXFILE * 512
    modifies log, log.cache, ip`size
    ensures Good(log, ip, others) && log.SameTx() && ip.size == size
    ensures InodeStored(old(log.Home()), log.Home(), ip.inum)
    ensures log.cache.dirty == old(log.cache.dirty) + {IBlock(ip.inum)}
  {
    hide Log.Valid, Log.Home, FileOk, Tight, BlocksFor, Synced, InodeStored;
    ip.size := size;
    Update(log, ip, others);
  }

  /** inode_write. */
  method Write(log: Log, ip: Inode, src: seq<Byte>, off: Word32, ghost others: set<nat>) returns (r: int)
    requires Good(log, ip, others) && log.busy && |src| < TWO32
    requires off <= ip.size && off + |src| <= MAXFILE * BSIZE ==>
      WriteBudget(log.Home(), ip.blk, log.cache.dirty, off, |src|) && MAXTX < log.size - 1
    modifies log, log.cache, ip`size, ip`addrs, ip`blk
    ensures Good(log, ip, others) && log.SameTx()
    ensures r == if off <= old(ip.size) && off + |src| <= MAXFILE * BSIZE then |src| else -1
    ensures r == -1 ==> log.Home() == old(log.Home()) && ip.size == old(ip.size) && ip.blk == old(ip.blk)
                        && log.cache.dirty == old(log.cache.dirty)
    ensures r != -1 ==> WroteFile(old(log.Home()), old(ip.addrs), old(ip.blk), old(ip.size),
                                  log.Home(), ip.addrs, ip.blk, ip.size, off, src, ip.inum, others)
    ensures r != -1 ==>
      && LoggedOnly(old(log.Home()), old(log.cache.dirty), log.cache.dirty,
                    WriteSet(ip.addrs, ip.blk, off, |src|) + {IBlock(ip.inum)})
      && |log.cache.dirty| <= |old(log.cache.dirty) + BitmapBlocks(old(log.Home()))| + 2
                              + (BlocksFor(off + |src|) - off / 512)
  {
    hide Log.Valid, Log.Home, FileOk, Tight, Progress, WriteBudget, Contents, WroteFile, LayoutOk, Free,
         BitmapBlocks, Load, BlocksFor, WriteSet, LoggedOnly, Good;
    var n := |src|;
    SumFits(off, n);
    if off > ip.size || (off + n) % TWO32 < off {
      return -1;
    }
    if (off + n) % TWO32 > MAXFILE * BSIZE {
      return -1;
    }
    WriteFits(log, ip, src, off, others);
    return n;
  }

  // ---- inode_read ----

  /** One pass of inode_read's loop: the part of one block that is wanted. */
  method ReadChunk(log: Log, ip: Inode, off: nat, left: nat, ghost others: set<nat>) returns (part: seq<Byte>)
    requires Ready(log, ip, others) && |ip.addrs| == NDIRECT + 1 && Tight(ip.addrs, ip.blk)
    requires off / 512 < |ip.blk| && left > 0 && |log.cache.dirty| < NBUF
    modifies log, log.cache, ip`addrs, ip`blk
    ensures Ready(log, ip, others) && log.SameTx() && log.Home() == old(log.Home())
    ensures ip.addrs == old(ip.addrs) && ip.blk == old(ip.blk) && log.cache.dirty == old(log.cache.dirty)
    ensures InRange(log.Home(), ip.blk) && off % 512 + Chunk(off, left) <= 512
    ensures part == log.Home()[ip.blk[off / 512]][off % 512..off % 512 + Chunk(off, left)]
  {
    hide Log.Valid, Log.Home, FileOk, Tight, Grew, LayoutOk, BitmapBlocks, Free;
    KeepsList(log.Home(), ip.addrs, ip.blk, others);
    ChunkBlocks(off, left);
    var addr := Bmap(log, ip, off / 512, others);
    log.Basics();
    part := ReadPart(log, addr, off % 512, Chunk(off, left));
  }

  /** Copy bytes out of a block. */
  method ReadPart(log: Log, addr: nat, at: nat, m: nat) returns (part: seq<Byte>)
    requires log.Valid() && log.cache.held == {} && addr < log.start && at + m <= 512 && |log.cache.dirty| < NBUF
    modifies log.cache
    ensures log.Valid() && log.SameTx() && log.cache.held == {} && log.Home() == old(log.Home())
    ensures |log.Home()| == log.start && log.cache.dirty == old(log.cache.dirty)
    ensures part == log.Home()[addr][at..at + m]
  {
    hide Log.Valid, Log.Home;
    log.Basics();
    assert log.cache.held + log.cache.dirty == log.cache.dirty;
    var bp := log.Read(addr);
    log.Basics();
    part := log.cache.bufs[bp].data[at..at + m];
    log.Release(bp);
    assert log.cache.held == {};
    log.Basics();
  }

  /** Appending the next part of a block continues the slice of the contents. */
  lemma PartExtends(h: Disk, blk: seq<nat>, size: nat, off: nat, at: nat, left: nat)
    requires InRange(h, blk) && BlocksFor(size) <= |blk| && off <= at && 0 < left && at + left <= size
    ensures at / 512 < |blk| && at % 512 + Chunk(at, left) <= 512
    ensures var m := Chunk(at, left);
            Contents(h, blk, size)[off..at] + h[blk[at / 512]][at % 512..at % 512 + m]
            == Contents(h, blk, size)[off..at + m]
  {
    var m := Chunk(at, left);
    var c := Contents(h, blk, size);
    ChunkBlocks(at, left);
    forall i | at <= i < at + m
      ensures c[i] == h[blk[at / 512]][at % 512 + (i - at)]
    {
      ChunkPlace(at, left, i);
    }
    assert h[blk[at / 512]][at % 512..at % 512 + m] == c[at..at + m];
    assert c[off..at] + c[at..at + m] == c[off..at + m];
  }

  /** One pass of inode_read's loop, after the bytes dst: it appends the next part of the slice. */
  method ReadMore(log: Log, ip: Inode, off: nat, len: nat, dst: seq<Byte>, ghost others: set<nat>) returns (r: seq<Byte>)
    requires Ready(log, ip, others) && |ip.addrs| == NDIRECT + 1 && Tight(ip.addrs, ip.blk) && InRange(log.Home(), ip.blk)
    requires BlocksFor(ip.size) <= |ip.blk| && off + len <= ip.size && |log.cache.dirty| < NBUF && |dst| < len
    requires dst == Contents(log.Home(), ip.blk, ip.size)[off..off + |dst|]
    modifies log, log.cache, ip`addrs, ip`blk
    ensures Ready(log, ip, others) && log.SameTx() && log.Home() == old(log.Home())
    ensures ip.addrs == old(ip.addrs) && ip.blk == old(ip.blk) && log.cache.dirty == old(log.cache.dirty)
    ensures |dst| < |r| <= len && r == Contents(old(log.Home()), old(ip.blk), ip.size)[off..off + |r|]
  {
    hide Log.Valid, Log.Home, FileOk, Tight, LayoutOk, Contents, InRange, BlocksFor, Chunk, BitmapBlocks, Free;
    PartExtends(log.Home(), ip.blk, ip.size, off, off + |dst|, len - |dst|);
    ChunkBlocks(off + |dst|, len - |dst|);
    var part := ReadChunk(log, ip, off + |dst|, len - |dst|, others);
    r := dst + part;
  }

  /** The loop of inode_read. */
  method ReadLoop(log: Log, ip: Inode, off: nat, len: nat, ghost others: set<nat>) returns (dst: seq<Byte>)
    requires Ready(log, ip, others) && |ip.addrs| == NDIRECT + 1 && Tight(ip.addrs, ip.blk)
    requires BlocksFor(ip.size) <= |ip.blk| && off + len <= ip.size && |log.cache.dirty| < NBUF
    modifies log, log.cache, ip`addrs, ip`blk
    ensures Ready(log, ip, others) && log.SameTx() && log.Home() == old(log.Home())
    ensures ip.addrs == old(ip.addrs) && ip.blk == old(ip.blk) && log.cache.dirty == old(log.cache.dirty)
    ensures InRange(log.Home(), ip.blk) && dst == Contents(log.Home(), ip.blk, ip.size)[off..off + len]
  {
    hide Log.Valid, Log.Home, FileOk, Tight, LayoutOk, Contents, InRange, BlocksFor, Chunk, BitmapBlocks, Free;
    KeepsList(log.Home(), ip.addrs, ip.blk, others);
    ghost var h, a, blk := log.Home(), ip.addrs, ip.blk;
    ghost var c := Contents(h, blk, ip.size);
    var tot := 0;
    dst := [];
    assert |c| == ip.size && c[off..off] == [];
    while tot < len
      invariant tot <= len && Ready(log, ip, others) && log.SameTx() && log.Home() == h
      invariant ip.addrs == a && ip.blk == blk && log.cache.dirty == old(log.cache.dirty)
      invariant |dst| == tot && dst == c[off..off + tot]
    {
      dst := ReadMore(log, ip, off, len, dst, others);
      tot := |dst|;
    }
  }

  /** inode_read: the bytes asked for, as far as the file has them, with nothing changed. */
  method Read(log: Log, ip: Inode, off: Word32, n: Word32, ghost others: set<nat>) returns (r: int, dst: seq<Byte>)
    requires Good(log, ip, others) && |log.cache.dirty| < NBUF
    modifies log, log.cache, ip`addrs, ip`blk
    ensures Good(log, ip, others) && log.SameTx() && log.Home() == old(log.Home())
    ensures ip.addrs == old(ip.addrs) && ip.blk == old(ip.blk) && log.cache.dirty == old(log.cache.dirty)
    ensures InRange(log.Home(), ip.blk)
    ensures if off > ip.size || off + n >= TWO32 then r == -1 && dst == [] else
            && 0 <= r <= n && off + r <= ip.size && (r == n || off + r == ip.size)
            && dst == Contents(log.Home(), ip.blk, ip.size)[off..off + r]
  {
    hide Log.Valid, Log.Home, FileOk, Tight, LayoutOk, Contents, Synced, InRange, BlocksFor;
    KeepsList(log.Home(), ip.addrs, ip.blk, others);
    SumFits(off, n);
    if off > ip.size || (off + n) % TWO32 < off {
      return -1, [];
    }
    var len := if (off + n) % TWO32 > ip.size then ip.size - off else n;
    dst := ReadLoop(log, ip, off, len, others);
    r := len;
  }
}
