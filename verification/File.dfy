/** file_write of kern/fs/file.c: a long write cut into transactions that fit the log. */
module Files {
  import opened Params
  import opened Blocks
  import opened Bitmap
  import opened LogSpec
  import opened RedoLog
  import opened BlockAlloc
  import opened FileMap
  import opened FileBytes
  import opened DiskInode
  import opened Inodes
  import opened InodeIO
  import opened Boot
  import Transaction

  /** Bytes file_write puts into one transaction. */
  const CHUNK: nat := ((LOGSIZE - 1 - 1 - 2) / 2) * 512

  /** An open file, of type FD_INODE. */
  class File {
    const ip: Inode
    const writable: bool
    var off: Word32

    constructor (i: Inode, w: bool)
      ensures ip == i && writable == w && off == 0
    {
      ip, writable, off := i, w, 0;
    }
  }

  /** The bitmap fits two blocks; mkfs lays out one. */
  ghost predicate SmallBitmap(h: Disk) {
    |h| > 1 && |BitmapBlocks(h)| <= 2
  }

  /** A chunk reaches at most four data blocks at any offset; with the inode, the indirect block and the
      bitmap a transaction has room for them. */
  lemma ChunkFitsTransaction(h: Disk, off: nat, n: nat)
    requires SmallBitmap(h) && n <= CHUNK
    ensures |{} + BitmapBlocks(h)| + 2 + (BlocksFor(off + n) - off / 512) <= |BitmapBlocks(h)| + 6 <= MAXTX
  {
    assert BlocksFor(off + n) <= off / 512 + 4;
    assert {} + BitmapBlocks(h) == BitmapBlocks(h);
  }

  /** Writing x and then y after it is writing x + y. */
  lemma SpliceTwice(c: seq<Byte>, off: nat, x: seq<Byte>, y: seq<Byte>)
    requires off <= |c|
    ensures off + |x| <= |Splice(c, off, x)|
    ensures Splice(Splice(c, off, x), off + |x|, y) == Splice(c, off, x + y)
  {
  }

  /** Blocks a write of n bytes at off can still make the file grow by. */
  ghost function GrowthNeeded(blk: seq<nat>, off: nat, n: nat): nat {
    var end := if off + n > MAXFILE * 512 then MAXFILE * 512 else off + n;
    OwnedCount(Max(|blk|, BlocksFor(end))) - OwnedCount(|blk|)
  }

  /** The free blocks left after a chunk still cover the rest of the write. */
  lemma StillAvailable(h0: Disk, a0: seq<nat>, b0: seq<nat>, size0: nat, h: Disk, a: seq<nat>, b: seq<nat>, size: nat,
                       off: nat, src: seq<Byte>, n: nat, inum: nat, others: set<nat>)
    requires WroteFile(h0, a0, b0, size0, h, a, b, size, off, src, inum, others)
    requires FileOk(h0, a0, b0, others) && Tight(a0, b0) && FileOk(h, a, b, others) && Tight(a, b)
    requires |b0| == BlocksFor(size0) && |b| == BlocksFor(size) && size <= MAXFILE * 512
    requires |src| <= n && Available(h0, GrowthNeeded(b0, off, n))
    ensures Available(h, GrowthNeeded(b, off + |src|, n - |src|))
  {
    hide Used, Free, BitmapBlocks, ListsTail, OtherInodesKept, Contents, Splice, Owned;
    OwnedSize(a0, b0);
    OwnedSize(a, b);
    var d := Owned(a, b) - Owned(a0, b0);
    assert Owned(a, b) == Owned(a0, b0) + d;
    assert Free(h0) == Free(h) + d;
    BlocksMonotone(size0, size);
    if off + |src| <= MAXFILE * 512 {
      BlocksMonotone(off + |src|, if off + n > MAXFILE * 512 then MAXFILE * 512 else off + n);
    }
  }

  /** Between system calls: no transaction, nothing pinned. */
  ghost predicate Quiescent(log: Log)
    reads log, log.cache
  {
    log.Valid() && log.Anchored() && !log.busy && log.cache.held == {} && log.cache.dirty == {} && MAXTX < log.size - 1
  }

  /** One transaction of file_write: begin_trans, inode_write, commit_trans. A crash at any image of it
      boots to the whole chunk, from image `commit` on, or to none of it. The log it commits holds at most
      six sectors besides the bitmap. */
  method WriteOneChunk(log: Log, f: File, src: seq<Byte>, ghost others: set<nat>) returns (r: int, ghost commit: nat)
    requires Quiescent(log) && Good(log, f.ip, others) && |src| <= CHUNK
    requires SmallBitmap(log.Home())
    requires f.off <= f.ip.size && f.off + |src| <= MAXFILE * BSIZE ==>
      Available(log.Home(), GrowthNeeded(f.ip.blk, f.off, |src|))
    modifies log, log.cache, f, f.ip`size, f.ip`addrs, f.ip`blk
    ensures Quiescent(log) && Good(log, f.ip, others)
    ensures r == if old(f.off) <= old(f.ip.size) && old(f.off) + |src| <= MAXFILE * BSIZE then |src| else -1
    ensures r == -1 ==> log.Home() == old(log.Home()) && f.off == old(f.off) && f.ip.size == old(f.ip.size)
                        && f.ip.blk == old(f.ip.blk)
    ensures r != -1 ==> f.off == old(f.off) + |src|
                        && WroteFile(old(log.Home()), old(f.ip.addrs), old(f.ip.blk), old(f.ip.size), log.Home(),
                                     f.ip.addrs, f.ip.blk, f.ip.size, old(f.off), src, f.ip.inum, others)
    ensures old(log.cache.history) <= log.cache.history && |old(log.cache.history)| > 0
    ensures Transaction.AllImages(log, |old(log.cache.history)| - 1, commit, old(log.Home()), log.Home())
    ensures commit < |log.cache.history| ==>
      && log.start < |log.cache.history[commit]| && |old(log.Home())| > 1
      && Count(log.cache.history[commit], log.start) <= |BitmapBlocks(old(log.Home()))| + 6
  {
    hide Log.Valid, Log.Home, FileOk, Tight, LayoutOk, WroteFile, Synced, WellFormed, Durable, Available, GrowthNeeded,
         Transaction.AllImages, Headed, Transaction.MoveRule, Transaction.Contents, BitmapBlocks, WriteSet, Count, BlocksFor;
    var ip := f.ip;
    BeginsReady(log, ip, f.off, |src|, others);
    log.Basics();
    ghost var h, a, b, size := log.Home(), ip.addrs, ip.blk, ip.size;
    log.BeginTrans();
    r := InodeIO.Write(log, ip, src, f.off, others);
    if r != -1 {
      WroteBelow(h, a, b, size, log.Home(), ip.addrs, ip.blk, ip.size, f.off, src, ip.inum, others);
    }
    if r > 0 {
      f.off := f.off + r;
    }
    commit := |log.cache.history|;
    log.Basics();
    ChunkFitsTransaction(h, old(f.off), |src|);
    ghost var logged := log.Logged();
    Transaction.Commit(log);
    if commit < |log.cache.history| {
      HeadedCount(log.cache.history[commit], log.start, logged);
    }
  }

  lemma HeadedCount(d: Disk, start: nat, logged: seq<nat>)
    requires Headed(d, start, logged)
    ensures start < |d| && Count(d, start) == |logged|
  {
  }

  /** inode_write leaves the superblock alone. */
  lemma WroteBelow(h: Disk, a: seq<nat>, b: seq<nat>, size: nat, g: Disk, a': seq<nat>, b': seq<nat>, size': nat,
                   off: nat, src: seq<Byte>, inum: nat, others: set<nat>)
    requires WroteFile(h, a, b, size, g, a', b', size', off, src, inum, others)
    ensures |g| == |h| > 1 && g[1] == h[1]
  {
  }

  lemma BeginsReady(log: Log, ip: Inode, off: nat, n: nat, others: set<nat>)
    requires Quiescent(log) && Good(log, ip, others) && n <= CHUNK && SmallBitmap(log.Home())
    requires off <= ip.size && off + n <= MAXFILE * BSIZE ==> Available(log.Home(), GrowthNeeded(ip.blk, off, n))
    ensures off <= ip.size && off + n <= MAXFILE * BSIZE ==>
      WriteBudget(log.Home(), ip.blk, log.cache.dirty, off, n)
  {
    hide Log.Valid, Log.Home, ListsTail, Maps, Free, BitmapBlocks;
    if off <= ip.size && off + n <= MAXFILE * BSIZE {
      ChunkFitsTransaction(log.Home(), off, n);
    }
  }

  /** The file after the first i bytes of data went in at off, in however many transactions. */
  ghost predicate WroteUpTo(h0: Disk, b0: seq<nat>, size0: nat, h: Disk, b: seq<nat>, size: nat,
                            off: nat, data: seq<Byte>, i: nat, inum: nat, others: set<nat>)
  {
    && InRange(h0, b0) && BlocksFor(size0) <= |b0| && InRange(h, b) && BlocksFor(size) <= |b| && i <= |data|
    && (i > 0 ==> off <= size0)
    && Contents(h, b, size) == (if i > 0 then Splice(Contents(h0, b0, size0), off, data[..i])
                                else Contents(h0, b0, size0))
    && |h| == |h0| > 1 && h[1] == h0[1] && (forall s | s in others :: s < |h0| && h[s] == h0[s])
    && OtherInodesKept(h0, h, inum)
  }

  lemma WroteNothing(h: Disk, a: seq<nat>, b: seq<nat>, size: nat, off: nat, data: seq<Byte>, inum: nat, others: set<nat>)
    requires FileOk(h, a, b, others) && |b| == BlocksFor(size) && ValidInum(h, inum)
    ensures WroteUpTo(h, b, size, h, b, size, off, data, 0, inum, others)
  {
    hide Used, ListsTail, Load, BitmapBlocks;
    KeepsList(h, a, b, others);
    BitmapBlocksPlace(h);
    forall s | s in others
      ensures s < |h|
    {
      assert DataBlock(h, s);
    }
  }

  lemma WroteMore(h0: Disk, b0: seq<nat>, size0: nat, h: Disk, a: seq<nat>, b: seq<nat>, size: nat,
                  g: Disk, a': seq<nat>, b': seq<nat>, size': nat,
                  off: nat, data: seq<Byte>, i: nat, m: nat, inum: nat, others: set<nat>)
    requires WroteUpTo(h0, b0, size0, h, b, size, off, data, i, inum, others) && 0 < m && i + m <= |data|
    requires WroteFile(h, a, b, size, g, a', b', size', off + i, data[i..i + m], inum, others)
    ensures WroteUpTo(h0, b0, size0, g, b', size', off, data, i + m, inum, others)
  {
    hide Free, BitmapBlocks, OtherInodesKept, Owned, Splice, Contents, LayoutOk, InRange, BlocksFor;
    KeptTransitive(h0, h, g, inum);
    SpliceMore(Contents(h0, b0, size0), Contents(h, b, size), off, data, i, m);
  }

  lemma SpliceMore(c: seq<Byte>, c1: seq<Byte>, off: nat, data: seq<Byte>, i: nat, m: nat)
    requires i + m <= |data| && (i > 0 ==> off <= |c|)
    requires c1 == if i > 0 then Splice(c, off, data[..i]) else c
    requires off + i <= |c1|
    ensures off <= |c| && Splice(c1, off + i, data[i..i + m]) == Splice(c, off, data[..i + m])
  {
    hide Splice;
    assert data[..i] + data[i..i + m] == data[..i + m];
    if i > 0 {
      SpliceTwice(c, off, data[..i], data[i..i + m]);
    } else {
      assert data[i..i + m] == data[..i + m];
    }
  }

  lemma KeptTransitive(h0: Disk, h: Disk, g: Disk, inum: nat)
    requires OtherInodesKept(h0, h, inum) && OtherInodesKept(h, g, inum) && h[1] == h0[1]
    ensures OtherInodesKept(h0, g, inum)
  {
    hide Load;
  }

  /** The home sectors, and the block addresses, blocks and size of the file written to. */
  datatype Snapshot = Snapshot(h: Disk, a: seq<nat>, b: seq<nat>, size: nat)

  /** A file_write: the log's place, the file before, what is written where, and the other files' blocks. */
  datatype Job = Job(start: nat, nlog: nat, s0: Snapshot, off: nat, data: seq<Byte>, inum: nat, others: set<nat>)

  /** The end of a chunk. */
  predicate Boundary(i: nat, n: nat) {
    i % CHUNK == 0 || i == n
  }

  lemma NextBoundary(i: nat, n: nat)
    requires Boundary(i, n) && i < n
    ensures Boundary(i + if n - i > CHUNK then CHUNK else n - i, n)
  {
  }

  /** The file with the first i bytes in, a whole number of chunks, as its inode on the disk describes it. */
  ghost predicate Between(job: Job, s: Snapshot, i: nat) {
    && Boundary(i, |job.data|)
    && WroteUpTo(job.s0.h, job.s0.b, job.s0.size, s.h, s.b, s.size, job.off, job.data, i, job.inum, job.others)
    && FileOk(s.h, s.a, s.b, job.others) && |s.b| == BlocksFor(s.size) && OnDisk(s.h, job.inum, s.a, s.size)
  }

  /** Disk d boots to the file with a whole number of chunks in. */
  ghost predicate WholeChunks(d: Disk, job: Job) {
    exists i: nat, s: Snapshot :: Between(job, s, i) && BootsTo(d, job.start, job.nlog, s.h)
  }

  ghost predicate AllWhole(history: seq<Disk>, from: int, job: Job) {
    forall k | from <= k < |history| && 0 <= k :: WholeChunks(history[k], job)
  }

  /** The images of one more chunk, which boot to the file before it or after it. */
  lemma MoreImages(history: seq<Disk>, history': seq<Disk>, from: int, commit: nat, job: Job,
                   s: Snapshot, i: nat, s': Snapshot, j: nat)
    requires history <= history' && AllWhole(history, from, job) && Between(job, s, i) && Between(job, s', j)
    requires forall k | |history| <= k < |history'| ::
      BootsTo(history'[k], job.start, job.nlog, if k < commit then s.h else s'.h)
    ensures AllWhole(history', from, job)
  {
    hide Between, BootsTo;
    forall k | from <= k < |history'| && 0 <= k
      ensures WholeChunks(history'[k], job)
    {
      if k < |history| {
        assert history'[k] == history[k];
      }
    }
  }

  ghost function Now(log: Log, ip: Inode): Snapshot
    reads log, log.cache, ip
  {
    Snapshot(log.Home(), ip.addrs, ip.blk, ip.size)
  }

  /** A file_write with i bytes in, which began at image `from`. */
  ghost predicate Writing(log: Log, f: File, job: Job, i: nat, from: int)
    reads log, log.cache, f, f.ip
  {
    && Quiescent(log) && Good(log, f.ip, job.others) && SmallBitmap(log.Home())
    && i <= |job.data| && f.off == job.off + i
    && Available(log.Home(), GrowthNeeded(f.ip.blk, f.off, |job.data| - i))
    && job.start == log.start && job.nlog == log.size && job.inum == f.ip.inum
    && Between(job, Now(log, f.ip), i) && AllWhole(log.cache.history, from, job)
  }

  /** One pass of file_write's loop. */
  method WritePass(log: Log, f: File, data: seq<Byte>, i: nat, ghost job: Job, ghost from: int) returns (r: int)
    requires i < |data| && job.data == data && Writing(log, f, job, i, from)
    modifies log, log.cache, f, f.ip`size, f.ip`addrs, f.ip`blk
    ensures var n := if |data| - i > CHUNK then CHUNK else |data| - i;
            && r == (if old(f.off) <= old(f.ip.size) && old(f.off) + n <= MAXFILE * BSIZE then n else -1)
            && Writing(log, f, job, if r == -1 then i else i + n, from)
  {
    hide Log.Valid, Log.Home, LayoutOk, WroteFile, WroteUpTo, Available, GrowthNeeded, BootsTo,
         SmallBitmap, Between, AllWhole, Good, Quiescent, Sound;
    var n := if |data| - i > CHUNK then CHUNK else |data| - i;
    ghost var s, history := Now(log, f.ip), log.cache.history;
    LessNeeded(s.h, s.b, f.off, n, |data| - i);
    GoodIs(log, f.ip, job.others);
    ghost var commit;
    r, commit := WriteOneChunk(log, f, data[i..i + n], job.others);
    GoodIs(log, f.ip, job.others);
    if r < 0 {
      SameBetween(job, s, Now(log, f.ip), i);
      MoreImages(history, log.cache.history, from, commit, job, s, i, Now(log, f.ip), i);
    } else {
      NextState(job, s, Now(log, f.ip), i, n);
      MoreImages(history, log.cache.history, from, commit, job, s, i, Now(log, f.ip), i + n);
    }
  }

  /** file_write: each pass is a transaction of its own. `written` bytes are in when it stops: all of them if
      the file can hold them, else as many whole chunks as it can. A crash at any image of it boots to the
      file with a whole number of chunks in. */
  method Write(log: Log, f: File, data: seq<Byte>, ghost others: set<nat>) returns (r: int, ghost written: nat)
    requires Quiescent(log) && Good(log, f.ip, others) && |data| < 0x8000_0000
    requires SmallBitmap(log.Home()) && Available(log.Home(), GrowthNeeded(f.ip.blk, f.off, |data|))
    modifies log, log.cache, f, f.ip`size, f.ip`addrs, f.ip`blk
    ensures Quiescent(log) && Good(log, f.ip, others)
    ensures written <= |data| && f.off == old(f.off) + written
    ensures written == if !f.writable || old(f.off) > old(f.ip.size) then 0
                       else if old(f.off) + |data| <= MAXFILE * BSIZE then |data|
                       else (MAXFILE * BSIZE - old(f.off)) / 1536 * 1536
    ensures r == if f.writable && (data == [] || (old(f.off) <= old(f.ip.size) && old(f.off) + |data| <= MAXFILE * BSIZE))
                 then |data| else -1
    ensures WroteUpTo(old(log.Home()), old(f.ip.blk), old(f.ip.size), log.Home(), f.ip.blk, f.ip.size,
                      old(f.off), data, written, f.ip.inum, others)
    ensures AllWhole(log.cache.history, |old(log.cache.history)| - 1,
                     Job(log.start, log.size, old(Now(log, f.ip)), old(f.off), data, f.ip.inum, others))
  {
    hide Log.Valid, Log.Home, WroteUpTo, Available, GrowthNeeded, SmallBitmap, Between, AllWhole, Good,
         Quiescent, Boundary, Writing;
    ghost var job := Job(log.start, log.size, Now(log, f.ip), f.off, data, f.ip.inum, others);
    ghost var from := |log.cache.history| - 1;
    Begins(log, f, job);
    Stage(log, f, job, 0, from);
    if !f.writable {
      return -1, 0;
    }
    var i := 0;
    while i < |data|
      invariant i <= |data| && Writing(log, f, job, i, from)
    {
      Stage(log, f, job, i, from);
      StopsAt(job.off, |data|, i, job.s0.size, f.ip.size);
      r := WritePass(log, f, data, i, job, from);
      if r < 0 {
        Stage(log, f, job, i, from);
        return -1, i;
      }
      i := i + r;
    }
    Stage(log, f, job, i, from);
    return |data|, |data|;
  }

  /** Where a file_write stands with i bytes in. */
  lemma Stage(log: Log, f: File, job: Job, i: nat, from: int)
    requires Writing(log, f, job, i, from)
    ensures Quiescent(log) && Good(log, f.ip, job.others) && f.off == job.off + i && AllWhole(log.cache.history, from, job)
    ensures Boundary(i, |job.data|) && f.ip.size <= MAXFILE * BSIZE
    ensures if i == 0 then f.ip.size == job.s0.size else job.off <= job.s0.size && job.off + i <= f.ip.size
    ensures WroteUpTo(job.s0.h, job.s0.b, job.s0.size, log.Home(), f.ip.blk, f.ip.size, job.off, job.data, i, job.inum, job.others)
  {
    hide Log.Valid, Log.Home, WroteUpTo, Available, GrowthNeeded, SmallBitmap, Between, AllWhole, Good, Quiescent, Boundary;
    WroteIt(job, Now(log, f.ip), i);
    SizeSoFar(job, Now(log, f.ip), i);
    GoodIs(log, f.ip, job.others);
  }

  /** A file_write begins. */
  lemma Begins(log: Log, f: File, job: Job)
    requires Quiescent(log) && Good(log, f.ip, job.others) && SmallBitmap(log.Home())
    requires Available(log.Home(), GrowthNeeded(f.ip.blk, f.off, |job.data|)) && f.off == job.off
    requires job.start == log.start && job.nlog == log.size && job.s0 == Now(log, f.ip) && job.inum == f.ip.inum
    ensures Writing(log, f, job, 0, |log.cache.history| - 1)
  {
    hide Log.Valid, Log.Home, WroteUpTo, Available, GrowthNeeded, SmallBitmap, Between, AllWhole, Good, Quiescent;
    FirstState(log, f.ip, job);
  }

  /** The file reaches to the end of what is written. */
  lemma SizeSoFar(job: Job, s: Snapshot, i: nat)
    requires Between(job, s, i)
    ensures Boundary(i, |job.data|)
    ensures if i == 0 then s.size == job.s0.size else job.off <= job.s0.size && job.off + i <= s.size
  {
    hide FileOk, OnDisk, OtherInodesKept;
  }

  /** The chunk that is refused is the first that the file cannot hold. */
  lemma StopsAt(off: nat, len: nat, i: nat, size0: nat, size: nat)
    requires i < len && Boundary(i, len) && size <= MAXFILE * BSIZE
    requires if i == 0 then size == size0 else off <= size0 && off + i <= size
    ensures var n := if len - i > CHUNK then CHUNK else len - i;
            off + i > size || off + i + n > MAXFILE * BSIZE ==>
              if off > size0 then i == 0
              else off + len > MAXFILE * BSIZE && i == (MAXFILE * BSIZE - off) / CHUNK * CHUNK
  {
    var n := if len - i > CHUNK then CHUNK else len - i;
    if off <= size0 && (off + i > size || off + i + n > MAXFILE * BSIZE) {
      assert i % CHUNK == 0 && off + i <= size;
      WholeChunksIn(MAXFILE * BSIZE - off, i / CHUNK);
    }
  }

  lemma WholeChunksIn(room: nat, k: nat)
    requires CHUNK * k <= room < CHUNK * k + CHUNK
    ensures room / CHUNK == k
  {
  }

  lemma WroteIt(job: Job, s: Snapshot, i: nat)
    requires Between(job, s, i)
    ensures WroteUpTo(job.s0.h, job.s0.b, job.s0.size, s.h, s.b, s.size, job.off, job.data, i, job.inum, job.others)
  {
  }

  /** What a good inode says about the home sectors. */
  ghost predicate Sound(s: Snapshot, inum: nat, others: set<nat>) {
    && FileOk(s.h, s.a, s.b, others) && Tight(s.a, s.b) && |s.b| == BlocksFor(s.size) && s.size <= MAXFILE * 512
    && OnDisk(s.h, inum, s.a, s.size) && ValidInum(s.h, inum)
  }

  lemma GoodIs(log: Log, ip: Inode, others: set<nat>)
    requires Good(log, ip, others)
    ensures Sound(Now(log, ip), ip.inum, others)
  {
  }

  lemma FirstState(log: Log, ip: Inode, job: Job)
    requires Quiescent(log) && Good(log, ip, job.others)
    requires job.start == log.start && job.nlog == log.size && job.s0 == Now(log, ip) && job.inum == ip.inum
    ensures Between(job, job.s0, 0)
    ensures WroteUpTo(job.s0.h, job.s0.b, job.s0.size, job.s0.h, job.s0.b, job.s0.size, job.off, job.data, 0, job.inum, job.others)
    ensures AllWhole(log.cache.history, |log.cache.history| - 1, job)
  {
    hide Log.Valid, Log.Home, FileOk, Tight, LayoutOk, BlocksFor, WroteUpTo, Load, BootsTo, Good;
    GoodIs(log, ip, job.others);
    WroteNothing(job.s0.h, job.s0.a, job.s0.b, job.s0.size, job.off, job.data, job.inum, job.others);
    log.Basics();
    Transaction.RestBoots(log);
    assert Between(job, job.s0, 0);
    assert WholeChunks(log.cache.history[|log.cache.history| - 1], job);
  }

  /** A refused chunk changes nothing. */
  lemma SameBetween(job: Job, s: Snapshot, s': Snapshot, i: nat)
    requires Between(job, s, i) && Sound(s', job.inum, job.others)
    requires s'.h == s.h && s'.size == s.size && s'.b == s.b
    ensures Between(job, s', i)
  {
    hide FileOk, Tight, LayoutOk, BlocksFor, WroteUpTo, Load;
  }

  /** After one more chunk. */
  lemma NextState(job: Job, s: Snapshot, s': Snapshot, i: nat, n: nat)
    requires Between(job, s, i) && Sound(s, job.inum, job.others) && Sound(s', job.inum, job.others)
    requires i < |job.data| && n == (if |job.data| - i > CHUNK then CHUNK else |job.data| - i)
    requires WroteFile(s.h, s.a, s.b, s.size, s'.h, s'.a, s'.b, s'.size, job.off + i, job.data[i..i + n], job.inum, job.others)
    requires Available(s.h, GrowthNeeded(s.b, job.off + i, |job.data| - i)) && SmallBitmap(s.h)
    ensures Between(job, s', i + n)
    ensures Available(s'.h, GrowthNeeded(s'.b, job.off + i + n, |job.data| - i - n)) && SmallBitmap(s'.h)
  {
    hide FileOk, Tight, LayoutOk, BlocksFor, WroteUpTo, WroteFile, Load, Available, GrowthNeeded, SmallBitmap, Boundary;
    NextBoundary(i, |job.data|);
    var h0, part := job.s0, job.data[i..i + n];
    StillAvailable(s.h, s.a, s.b, s.size, s'.h, s'.a, s'.b, s'.size, job.off + i, part, |job.data| - i, job.inum, job.others);
    WroteMore(h0.h, h0.b, h0.size, s.h, s.a, s.b, s.size, s'.h, s'.a, s'.b, s'.size, job.off, job.data, i, n, job.inum, job.others);
    SameSize(s.h, s'.h, s.a, s.b, s.size, s'.a, s'.b, s'.size, job.off + i, part, job.inum, job.others);
  }

  lemma SameSize(h: Disk, g: Disk, a: seq<nat>, b: seq<nat>, size: nat, a': seq<nat>, b': seq<nat>, size': nat,
                 off: nat, src: seq<Byte>, inum: nat, others: set<nat>)
    requires WroteFile(h, a, b, size, g, a', b', size', off, src, inum, others)
    ensures SmallBitmap(h) ==> SmallBitmap(g)
  {
  }

  lemma LessNeeded(h: Disk, blk: seq<nat>, off: nat, n1: nat, n: nat)
    requires n1 <= n && Available(h, GrowthNeeded(blk, off, n))
    ensures Available(h, GrowthNeeded(blk, off, n1))
  {
    var cap := MAXFILE * 512;
    BlocksMonotone(if off + n1 > cap then cap else off + n1, if off + n > cap then cap else off + n);
  }
}
