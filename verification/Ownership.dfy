/** Block ownership across all files: over every run of writes, truncations, inode allocations and
    inode frees, the in-use data blocks are exactly the blocks some file owns, and no block has two
    owners. */
module Ownership {
  import opened Params
  import opened Blocks
  import opened Bitmap
  import opened FileMap
  import opened FileBytes
  import opened InodeIO
  import opened InodeTrunc
  import opened RedoLog
  import opened Layout
  import opened DiskInode
  import opened BlockAlloc
  import Inodes

  /** What one inode says about its file. */
  datatype Entry = Entry(addrs: seq<nat>, blk: seq<nat>, size: nat)

  type Files = map<nat, Entry>

  ghost function OwnedBy(e: Entry): set<nat> {
    if |e.addrs| == NDIRECT + 1 then Owned(e.addrs, e.blk) else {}
  }

  /** The blocks of all files but i. */
  ghost function Others(files: Files, i: nat): set<nat> {
    set j, b | j in files && j != i && b in OwnedBy(files[j]) :: b
  }

  ghost predicate EntryOk(h: Disk, files: Files, i: nat)
    requires i in files
  {
    && FileOk(h, files[i].addrs, files[i].blk, Others(files, i)) && Tight(files[i].addrs, files[i].blk)
    && |files[i].blk| == BlocksFor(files[i].size)
  }

  /** A data block is in use exactly if some file owns it. */
  ghost predicate NoLeak(h: Disk, files: Files)
    requires LayoutOk(h)
  {
    forall b | DataStart(h) <= b < |h| :: b in Free(h) <==> !exists i :: i in files && b in OwnedBy(files[i])
  }

  /** The type of inode i on the disk; 0 is a free inode. */
  ghost function TypeOnDisk(h: Disk, i: nat): nat {
    if IBlock(i) < |h| then Load(h[IBlock(i)], i % IPB).typ else 0
  }

  /** The files are the allocated inodes, each as the disk has it. */
  ghost predicate Agrees(h: Disk, files: Files)
    requires LayoutOk(h)
  {
    && (forall i | i in files :: i < FsInodes(h) && OnDisk(h, i, files[i].addrs, files[i].size))
    && (forall i | 0 <= i < FsInodes(h) :: i in files <==> TypeOnDisk(h, i) != 0)
  }

  ghost predicate FsOk(h: Disk, files: Files) {
    && BitmapOk(h) && (forall i | i in files :: EntryOk(h, files, i)) && NoLeak(h, files) && Agrees(h, files)
  }

  /** One operation on file i: the others' blocks are untouched, and what the file gave up and took
      on is what the bitmap shows. */
  ghost predicate FileStep(h: Disk, files: Files, g: Disk, files': Files, i: nat) {
    && LayoutOk(h) && LayoutOk(g) && |g| == |h| && DataStart(g) == DataStart(h)
    && i in files && i in files' && files' == files[i := files'[i]]
    && FileOk(g, files'[i].addrs, files'[i].blk, Others(files, i)) && Tight(files'[i].addrs, files'[i].blk)
    && |files'[i].blk| == BlocksFor(files'[i].size)
    && (forall s | s in Others(files, i) :: s < |h| && g[s] == h[s])
    && Free(g) == Free(h) + OwnedBy(files[i]) - OwnedBy(files'[i])
    && OtherInodesKept(h, g, i) && FsInodes(g) == FsInodes(h)
    && OnDisk(g, i, files'[i].addrs, files'[i].size) && TypeOnDisk(g, i) == TypeOnDisk(h, i)
  }

  lemma OthersHas(files: Files, i: nat, j: nat)
    requires j in files && j != i
    ensures OwnedBy(files[j]) <= Others(files, i)
  {
    forall b | b in OwnedBy(files[j])
      ensures b in Others(files, i)
    {
    }
  }

  /** Seen from file j, only the blocks of file i change. */
  lemma OthersAfter(files: Files, files': Files, i: nat, j: nat, b: nat)
    requires i in files && j in files && i != j && i in files' && files' == files[i := files'[i]]
    requires b in Others(files', j)
    ensures b in OwnedBy(files'[i]) || (b in Others(files, j) && b in Others(files, i))
  {
    var k :| k in files' && k != j && b in OwnedBy(files'[k]);
    if k != i {
      OthersHas(files, j, k);
      OthersHas(files, i, k);
    }
  }

  /** A step on file i leaves file j well formed. */
  lemma StepKeepsOther(h: Disk, files: Files, g: Disk, files': Files, i: nat, j: nat)
    requires FsOk(h, files) && FileStep(h, files, g, files', i) && j in files && j != i
    ensures EntryOk(g, files', j)
  {
    hide Used, Free, ListsTail, BitmapOk, NoLeak, LayoutOk, Agrees, OtherInodesKept, OnDisk, TypeOnDisk;
    var e := files[j];
    assert EntryOk(h, files, j);
    OthersHas(files, i, j);
    assert files'[j] == e;
    assert e.addrs[NDIRECT] != 0 ==> e.addrs[NDIRECT] in OwnedBy(e);
    assert Maps(g, e.addrs, e.blk);
    forall b | b in Others(files', j)
      ensures DataBlock(g, b) && b !in Owned(e.addrs, e.blk)
    {
      OthersAfter(files, files', i, j, b);
    }
  }

  /** A step on file i leaves file i well formed. */
  lemma StepKeepsOwn(h: Disk, files: Files, g: Disk, files': Files, i: nat)
    requires FileStep(h, files, g, files', i)
    ensures EntryOk(g, files', i)
  {
    hide Used, Free, ListsTail, BitmapOk, LayoutOk, FileOk, OtherInodesKept, OnDisk, TypeOnDisk;
    forall b
      ensures b in Others(files', i) <==> b in Others(files, i)
    {
      if b in Others(files', i) {
        var k :| k in files' && k != i && b in OwnedBy(files'[k]);
        assert k in files && files[k] == files'[k];
      }
      if b in Others(files, i) {
        var k :| k in files && k != i && b in OwnedBy(files[k]);
        assert k in files' && files'[k] == files[k];
      }
    }
    assert Others(files', i) == Others(files, i);
  }

  lemma StepKeepsNoLeak(h: Disk, files: Files, g: Disk, files': Files, i: nat)
    requires FsOk(h, files) && FileStep(h, files, g, files', i)
    ensures NoLeak(g, files')
  {
    hide Used, Free, ListsTail, BitmapOk, Maps, Agrees, OtherInodesKept, OnDisk, TypeOnDisk;
    assert EntryOk(h, files, i);
    forall b | DataStart(g) <= b < |g|
      ensures b in Free(g) <==> !exists k :: k in files' && b in OwnedBy(files'[k])
    {
      assert b in OwnedBy(files'[i]) ==> exists k :: k in files' && b in OwnedBy(files'[k]);
      if k :| k in files && k != i && b in OwnedBy(files[k]) {
        assert files'[k] == files[k];
        OthersHas(files, i, k);
        assert b in Others(files, i) && b !in OwnedBy(files[i]) && b !in OwnedBy(files'[i]);
      }
      assert forall k | k in files' && k != i :: files'[k] == files[k];
    }
  }

  /** A step on file i changes no other inode on the disk. */
  lemma StepKeepsAgreement(h: Disk, files: Files, g: Disk, files': Files, i: nat)
    requires LayoutOk(h) && Agrees(h, files) && FileStep(h, files, g, files', i)
    ensures LayoutOk(g) && Agrees(g, files')
  {
    hide Used, Free, ListsTail, FileOk, Tight, Others, Load;
    forall j | 0 <= j < FsInodes(h) && j != i
      ensures IBlock(j) < |h| && Load(g[IBlock(j)], j % IPB) == Load(h[IBlock(j)], j % IPB)
    {
    }
  }

  /** Every operation keeps the ownership invariant and every other file's contents. */
  lemma StepKeepsFs(h: Disk, files: Files, g: Disk, files': Files, i: nat)
    requires FsOk(h, files) && FileStep(h, files, g, files', i)
    ensures FsOk(g, files')
    ensures forall j | j in files && j != i ::
      && files'[j] == files[j] && InRange(h, files[j].blk) && InRange(g, files[j].blk)
      && Contents(g, files[j].blk, files[j].size) == Contents(h, files[j].blk, files[j].size)
  {
    hide Used, Free, ListsTail, NoLeak, LayoutOk, DataBlock, Others, Agrees, OtherInodesKept, OnDisk, TypeOnDisk;
    StepKeepsOwn(h, files, g, files', i);
    StepKeepsNoLeak(h, files, g, files', i);
    StepKeepsAgreement(h, files, g, files', i);
    forall j | j in files && j != i
      ensures EntryOk(g, files', j)
      ensures InRange(h, files[j].blk) && InRange(g, files[j].blk)
      ensures Contents(g, files[j].blk, files[j].size) == Contents(h, files[j].blk, files[j].size)
    {
      assert EntryOk(h, files, j);
      StepKeepsOther(h, files, g, files', i, j);
      OthersHas(files, i, j);
      assert forall b | b in files[j].blk :: b in OwnedBy(files[j]);
      OthersKeepContents(h, g, Others(files, i), files[j].blk, files[j].size);
    }
  }

  // ---- Inodes come and go ----

  /** An empty file. */
  ghost function NewEntry(): Entry {
    Entry(seq(NDIRECT + 1, _ => 0), [], 0)
  }

  /** Only inode i was stored: a free one became an empty file, or that of a file owning no block became free. */
  ghost predicate InodeStep(h: Disk, files: Files, g: Disk, files': Files, i: nat) {
    && InodeStored(h, g, i) && i < FsInodes(h)
    && (|| (&& i !in files && files' == files[i := NewEntry()]
            && TypeOnDisk(g, i) != 0 && OnDisk(g, i, NewEntry().addrs, 0))
        || (&& i in files && OwnedBy(files[i]) == {} && files' == files - {i} && TypeOnDisk(g, i) == 0))
  }

  /** An inode block is none of the blocks a file is made of. */
  lemma StoredElsewhere(h: Disk, g: Disk, i: nat, addrs: seq<nat>, blk: seq<nat>, others: set<nat>)
    requires FileOk(h, addrs, blk, others) && InodeStored(h, g, i) && i < FsInodes(h)
    ensures FileOk(g, addrs, blk, others) && |g| == |h|
    ensures forall s | s in Owned(addrs, blk) || s in others :: s < |h| && g[s] == h[s]
  {
    hide Used, Free, ListsTail, BitmapBlocks, Load, OtherInodesKept, DiskInode.Store, SbNinodes, SbSize;
    StoreInode(h, addrs, blk, others, i, Load(h[IBlock(i)], 0));
    BitmapBlocksPlace(h);
    SameBitmap(h, g);
    forall s | s in Owned(addrs, blk) || s in others
      ensures s < |h| && g[s] == h[s]
    {
      assert DataBlock(h, s);
    }
    assert addrs[NDIRECT] != 0 ==> addrs[NDIRECT] in Owned(addrs, blk);
  }

  /** The blocks of the others, when a file owning nothing comes or goes. */
  lemma OthersWithout(files: Files, files': Files, i: nat, j: nat)
    requires files' - {i} == files - {i}
    requires i in files ==> OwnedBy(files[i]) == {}
    requires i in files' ==> OwnedBy(files'[i]) == {}
    ensures Others(files', j) == Others(files, j)
  {
    forall b
      ensures b in Others(files', j) <==> b in Others(files, j)
    {
      forall k | k != i
        ensures k in files <==> k in files'
        ensures k in files ==> files[k] == files'[k]
      {
        assert k in files <==> k in files - {i};
        assert k in files' <==> k in files' - {i};
        assert k in files ==> (files - {i})[k] == files[k];
        assert k in files' ==> (files' - {i})[k] == files'[k];
      }
    }
  }

  /** A file that stays is not touched when an inode comes or goes. */
  lemma InodeStepKeepsOther(h: Disk, files: Files, g: Disk, files': Files, i: nat, j: nat)
    requires FsOk(h, files) && InodeStep(h, files, g, files', i) && j in files && j != i
    ensures j in files' && files'[j] == files[j] && EntryOk(g, files', j)
    ensures InRange(h, files[j].blk) && InRange(g, files[j].blk)
    ensures Contents(g, files[j].blk, files[j].size) == Contents(h, files[j].blk, files[j].size)
  {
    hide Used, Free, ListsTail, BitmapOk, NoLeak, LayoutOk, Agrees, InodeStored, OnDisk, TypeOnDisk, FileOk, Tight, Others;
    assert EntryOk(h, files, j);
    assert files' - {i} == files - {i};
    assert j in files - {i} && j in files' - {i};
    OthersWithout(files, files', i, j);
    var e := files[j];
    StoredElsewhere(h, g, i, e.addrs, e.blk, Others(files, j));
    EntryContents(h, g, e, Others(files, j));
  }

  lemma EntryContents(h: Disk, g: Disk, e: Entry, others: set<nat>)
    requires FileOk(h, e.addrs, e.blk, others) && |g| == |h| && BlocksFor(e.size) <= |e.blk|
    requires forall s | s in Owned(e.addrs, e.blk) :: s < |h| && g[s] == h[s]
    ensures InRange(h, e.blk) && InRange(g, e.blk) && Contents(g, e.blk, e.size) == Contents(h, e.blk, e.size)
  {
    hide Used, ListsTail, BitmapOk, LayoutOk, DataBlock, Contents;
    assert forall b | b in e.blk :: b in Owned(e.addrs, e.blk);
    OthersKeepContents(h, g, Owned(e.addrs, e.blk), e.blk, e.size);
  }

  /** The new file is well formed. */
  lemma NewFileOk(h: Disk, files: Files, g: Disk, files': Files, i: nat)
    requires FsOk(h, files) && InodeStep(h, files, g, files', i) && i !in files
    ensures EntryOk(g, files', i)
  {
    hide Used, Free, ListsTail, BitmapOk, NoLeak, LayoutOk, Agrees, InodeStored, OnDisk, TypeOnDisk, Others;
    OthersWithout(files, files', i, i);
    OthersAreData(h, files, i);
    StoredElsewhere(h, g, i, NewEntry().addrs, [], Others(files, i));
  }

  lemma OthersAreData(h: Disk, files: Files, i: nat)
    requires FsOk(h, files) && i !in files
    ensures FileOk(h, NewEntry().addrs, [], Others(files, i))
  {
    hide Used, Free, ListsTail, BitmapOk, NoLeak, LayoutOk, Agrees, DataBlock;
    BitmapIsLaidOut(h);
    forall b | b in Others(files, i)
      ensures DataBlock(h, b)
    {
      var j :| j in files && j != i && b in OwnedBy(files[j]);
      assert EntryOk(h, files, j);
    }
  }

  lemma BitmapIsLaidOut(h: Disk)
    requires BitmapOk(h)
    ensures LayoutOk(h)
  {
  }

  lemma InodeStepKeepsNoLeak(h: Disk, files: Files, g: Disk, files': Files, i: nat)
    requires FsOk(h, files) && InodeStep(h, files, g, files', i)
    ensures NoLeak(g, files')
  {
    hide Used, Free, ListsTail, BitmapOk, EntryOk, Agrees, OtherInodesKept, OnDisk, TypeOnDisk;
    assert OwnedBy(NewEntry()) == {};
    forall b | DataStart(g) <= b < |g|
      ensures b in Free(g) <==> !exists k :: k in files' && b in OwnedBy(files'[k])
    {
      if k :| k in files && b in OwnedBy(files[k]) {
        assert k != i && k in files' && files'[k] == files[k];
      }
      if k :| k in files' && b in OwnedBy(files'[k]) {
        assert k != i && k in files && files'[k] == files[k];
      }
    }
  }

  lemma InodeStepKeepsAgreement(h: Disk, files: Files, g: Disk, files': Files, i: nat)
    requires LayoutOk(h) && Agrees(h, files) && InodeStep(h, files, g, files', i)
    ensures LayoutOk(g) && Agrees(g, files')
  {
    hide Used, Free, ListsTail, Load, BitmapBlocks, OwnedBy;
    forall j | 0 <= j < FsInodes(h) && j != i
      ensures IBlock(j) < |h| && Load(g[IBlock(j)], j % IPB) == Load(h[IBlock(j)], j % IPB)
    {
    }
  }

  /** Allocating or freeing an inode keeps the ownership invariant and every other file's contents. */
  lemma InodeStepKeepsFs(h: Disk, files: Files, g: Disk, files': Files, i: nat)
    requires FsOk(h, files) && InodeStep(h, files, g, files', i)
    ensures FsOk(g, files')
    ensures forall j | j in files && j != i ::
      && j in files' && files'[j] == files[j] && InRange(h, files[j].blk) && InRange(g, files[j].blk)
      && Contents(g, files[j].blk, files[j].size) == Contents(h, files[j].blk, files[j].size)
  {
    hide Used, Free, ListsTail, NoLeak, LayoutOk, DataBlock, Others, Agrees, OnDisk, TypeOnDisk, InodeStored, FileOk, Tight, BitmapOk;
    BitmapIsLaidOut(h);
    InodeStepKeepsNoLeak(h, files, g, files', i);
    InodeStepKeepsAgreement(h, files, g, files', i);
    StoredKeepsBitmap(h, g, i);
    if i !in files {
      NewFileOk(h, files, g, files', i);
    }
    forall j | j in files && j != i
      ensures j in files' && files'[j] == files[j] && EntryOk(g, files', j)
      ensures InRange(h, files[j].blk) && InRange(g, files[j].blk)
      ensures Contents(g, files[j].blk, files[j].size) == Contents(h, files[j].blk, files[j].size)
    {
      assert EntryOk(h, files, j);
      InodeStepKeepsOther(h, files, g, files', i, j);
    }
  }

  lemma StoredKeepsBitmap(h: Disk, g: Disk, i: nat)
    requires BitmapOk(h) && InodeStored(h, g, i) && i < FsInodes(h)
    ensures BitmapOk(g)
  {
    hide Used, Free, ListsTail, BitmapBlocks, Load, OtherInodesKept, SbNinodes, SbSize;
    BitmapBlocksPlace(h);
    SameBitmap(h, g);
  }

  /** A state of the file layer: home sectors and files. */
  datatype State = State(h: Disk, files: Files)

  /** Some file was written or truncated, or some inode allocated or freed. */
  ghost predicate Step(s: State, s': State) {
    || (exists i :: FileStep(s.h, s.files, s'.h, s'.files, i))
    || (exists i :: InodeStep(s.h, s.files, s'.h, s'.files, i))
  }

  ghost predicate IsRun(run: seq<State>) {
    |run| > 0 && forall k | 0 < k < |run| :: Step(run[k - 1], run[k])
  }

  /** Over every run, each block has at most one owner, its bit is set exactly while it is owned, and the
      files are what the inodes on the disk say. */
  lemma {:induction false} RunKeepsFs(run: seq<State>, k: nat)
    requires IsRun(run) && FsOk(run[0].h, run[0].files) && k < |run|
    ensures FsOk(run[k].h, run[k].files)
  {
    hide FsOk, FileStep, InodeStep;
    if k > 0 {
      RunKeepsFs(run, k - 1);
      assert Step(run[k - 1], run[k]);
      var s, s' := run[k - 1], run[k];
      if i :| FileStep(s.h, s.files, s'.h, s'.files, i) {
        StepKeepsFs(s.h, s.files, s'.h, s'.files, i);
      } else {
        var i :| InodeStep(s.h, s.files, s'.h, s'.files, i);
        InodeStepKeepsFs(s.h, s.files, s'.h, s'.files, i);
      }
    }
  }

  /** No two files ever share a block. */
  lemma NoSharedBlock(h: Disk, files: Files, i: nat, j: nat)
    requires FsOk(h, files) && i in files && j in files && i != j
    ensures OwnedBy(files[i]) !! OwnedBy(files[j])
  {
    OthersHas(files, i, j);
    assert EntryOk(h, files, i);
  }

  // ---- The operations are steps ----

  /** inode_write, by its contract, is such a step. */
  lemma WriteIsStep(h: Disk, files: Files, g: Disk, e: Entry, i: nat, off: nat, src: seq<Byte>)
    requires FsOk(h, files) && i in files
    requires var f := files[i];
             WroteFile(h, f.addrs, f.blk, f.size, g, e.addrs, e.blk, e.size, off, src, i, Others(files, i))
    requires FileOk(g, e.addrs, e.blk, Others(files, i)) && Tight(e.addrs, e.blk) && |e.blk| == BlocksFor(e.size)
    requires OnDisk(g, i, e.addrs, e.size) && TypeOnDisk(g, i) == TypeOnDisk(h, i)
    ensures FileStep(h, files, g, files[i := e], i)
  {
    hide Used, ListsTail, Contents, Splice, OtherInodesKept, OnDisk, TypeOnDisk, Agrees, NoLeak;
    assert EntryOk(h, files, i);
    assert Owned(files[i].addrs, files[i].blk) !! Free(h);
  }

  /** inode_trunc, by its contract, is such a step. */
  lemma TruncIsStep(h: Disk, files: Files, g: Disk, e: Entry, i: nat)
    requires FsOk(h, files) && i in files
    requires GaveAllBack(h, files[i].addrs, files[i].blk, g, Others(files, i), i)
    requires FileOk(g, e.addrs, [], Others(files, i)) && Tight(e.addrs, []) && e.blk == [] && e.size == 0
    requires OnDisk(g, i, e.addrs, 0) && TypeOnDisk(g, i) == TypeOnDisk(h, i)
    ensures FileStep(h, files, g, files[i := e], i)
  {
    hide Used, ListsTail, OtherInodesKept, FileOk, Tight, Others, NoLeak, EntryOk, BitmapOk, Free, OnDisk, TypeOnDisk, Agrees;
    EmptyOwnsNothing(g, e.addrs, Others(files, i));
  }

  lemma EmptyOwnsNothing(h: Disk, addrs: seq<nat>, others: set<nat>)
    requires FileOk(h, addrs, [], others) && Tight(addrs, [])
    ensures |addrs| == NDIRECT + 1 && Owned(addrs, []) == {}
  {
  }

  // ---- The operations, run ----

  ghost function EntryOf(ip: Inodes.Inode): Entry
    reads ip
  {
    Entry(ip.addrs, ip.blk, ip.size)
  }

  /** The in-memory inode of one of the files, between operations. */
  ghost predicate Open(log: Log, ip: Inodes.Inode, files: Files)
    reads log, log.cache, ip
  {
    && FsOk(log.Home(), files) && ip.inum in files && files[ip.inum] == EntryOf(ip)
    && Good(log, ip, Others(files, ip.inum))
  }

  /** inode_write on one of the files keeps the ownership of all of them. */
  method WriteFile(log: Log, ip: Inodes.Inode, src: seq<Byte>, off: Word32, ghost files: Files) returns (r: int)
    requires Open(log, ip, files) && log.busy && |src| < TWO32
    requires off <= ip.size && off + |src| <= MAXFILE * BSIZE ==>
      WriteBudget(log.Home(), ip.blk, log.cache.dirty, off, |src|) && MAXTX < log.size - 1
    modifies log, log.cache, ip`size, ip`addrs, ip`blk
    ensures Open(log, ip, files[ip.inum := EntryOf(ip)]) && log.SameTx()
    ensures r == if off <= old(ip.size) && off + |src| <= MAXFILE * BSIZE then |src| else -1
    ensures r == -1 ==> log.Home() == old(log.Home())
    ensures r != -1 ==> FileStep(old(log.Home()), files, log.Home(), files[ip.inum := EntryOf(ip)], ip.inum)
    ensures r != -1 ==> WroteFile(old(log.Home()), old(ip.addrs), old(ip.blk), old(ip.size), log.Home(), ip.addrs, ip.blk,
                                  ip.size, off, src, ip.inum, Others(files, ip.inum))
  {
    hide Log.Valid, Log.Home, FsOk, FileStep, WroteFile, WriteBudget, Good;
    ghost var h, e, others := log.Home(), EntryOf(ip), Others(files, ip.inum);
    GoodMeans(log, ip, others);
    r := InodeIO.Write(log, ip, src, off, others);
    GoodMeans(log, ip, others);
    if r == -1 {
      assert EntryOf(ip) == e;
      assert files[ip.inum := e] == files;
    } else {
      WriteIsStep(h, files, log.Home(), EntryOf(ip), ip.inum, off, src);
      StepKeepsFs(h, files, log.Home(), files[ip.inum := EntryOf(ip)], ip.inum);
      SameOthers(files, ip.inum, EntryOf(ip));
    }
  }

  /** inode_trunc on one of the files keeps the ownership of all of them. */
  method TruncFile(log: Log, ip: Inodes.Inode, ghost files: Files)
    requires Open(log, ip, files) && log.busy && Room(log, 1)
    modifies log, log.cache, ip`size, ip`addrs, ip`blk
    ensures Open(log, ip, files[ip.inum := EntryOf(ip)]) && log.SameTx() && ip.size == 0 && ip.blk == []
    ensures LoggedOnly(old(log.Home()), old(log.cache.dirty), log.cache.dirty, {IBlock(ip.inum)})
    ensures FileStep(old(log.Home()), files, log.Home(), files[ip.inum := EntryOf(ip)], ip.inum)
  {
    hide Log.Valid, Log.Home, FsOk, FileStep, GaveAllBack, Good;
    ghost var h, others := log.Home(), Others(files, ip.inum);
    GoodMeans(log, ip, others);
    Trunc(log, ip, others);
    GoodMeans(log, ip, others);
    TruncIsStep(h, files, log.Home(), EntryOf(ip), ip.inum);
    StepKeepsFs(h, files, log.Home(), files[ip.inum := EntryOf(ip)], ip.inum);
    SameOthers(files, ip.inum, EntryOf(ip));
  }

  lemma SameOthers(files: Files, i: nat, e: Entry)
    requires i in files
    ensures Others(files[i := e], i) == Others(files, i)
  {
    forall b
      ensures b in Others(files[i := e], i) <==> b in Others(files, i)
    {
      if b in Others(files, i) {
        var k :| k in files && k != i && b in OwnedBy(files[k]);
        assert files[i := e][k] == files[k];
      }
    }
  }

  lemma GoodMeans(log: Log, ip: Inodes.Inode, others: set<nat>)
    requires Good(log, ip, others)
    ensures FileOk(log.Home(), ip.addrs, ip.blk, others) && Tight(ip.addrs, ip.blk) && |ip.blk| == BlocksFor(ip.size)
    ensures OnDisk(log.Home(), ip.inum, ip.addrs, ip.size) && TypeOnDisk(log.Home(), ip.inum) == ip.typ
  {
  }
}
