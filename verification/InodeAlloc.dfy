/** Inodes taken and given up (kern/fs/inode.c): inode_alloc, and the freeing that the last inode_put does. */
module InodeAlloc {
  import opened Params
  import opened Blocks
  import opened Layout
  import opened Bitmap
  import opened BufCache
  import opened RedoLog
  import opened BlockAlloc
  import opened FileMap
  import opened DiskInode
  import opened Inodes
  import opened InodeIO
  import opened Ownership

  /** What inode_alloc stores: all zeros but the type. */
  function NewInode(typ: Half): DInode {
    DInode(typ, 0, 0, 0, 0, seq(NDIRECT + 1, _ => 0))
  }

  /** Storing a new inode over a free one is a step of the file system. */
  lemma NewIsStep(h: Disk, files: Files, i: nat, typ: Half)
    requires FsOk(h, files) && i < FsInodes(h) && i !in files
    ensures IBlock(i) < |h|
    ensures var g := h[IBlock(i) := DiskInode.Store(h[IBlock(i)], i % IPB, NewInode(typ))];
            && InodeStored(h, g, i) && Synced(g, i, typ, 0, 0, 0, 0, NewEntry().addrs)
            && (typ != 0 ==> InodeStep(h, files, g, files[i := NewEntry()], i))
  {
    hide Used, Free, ListsTail, BitmapOk, BitmapBlocks, NoLeak, Agrees, EntryOk, OtherInodesKept, Others,
         DiskInode.Store, Load, FileOk;
    BitmapIsLaidOut(h);
    OthersAreData(h, files, i);
    StoreInode(h, NewEntry().addrs, [], Others(files, i), i, NewInode(typ));
    var g := h[IBlock(i) := DiskInode.Store(h[IBlock(i)], i % IPB, NewInode(typ))];
    SameLayout(h, g);
    assert NewInode(typ).addrs == NewEntry().addrs;
  }

  /** Whether an inode is free is what its type on the disk says. */
  lemma FreeInode(h: Disk, files: Files, i: nat)
    requires FsOk(h, files) && i < FsInodes(h)
    ensures IBlock(i) < |h| && (Load(h[IBlock(i)], i % IPB).typ == 0 <==> i !in files)
  {
    hide Used, Free, ListsTail, NoLeak, EntryOk, Load, SbNinodes, SbSize;
  }

  /** Some inode past 0 is free; inode_alloc panics otherwise. */
  ghost predicate HasFree(h: Disk, files: Files) {
    |h| > 1 && exists i :: 1 <= i < FsInodes(h) && i !in files
  }

  /** The held inode block of a free inode is stored with that inode taken. */
  method Take(log: Log, bp: nat, inum: nat, typ: Half, ghost files: Files)
    requires log.Valid() && log.busy && |log.cache.dirty| < MAXTX < log.size - 1
    requires FsOk(log.Home(), files) && inum < FsInodes(log.Home()) && inum !in files
    requires log.cache.held == {IBlock(inum)} && log.cache.Holding(IBlock(inum), bp)
    requires IBlock(inum) < |log.Home()| && log.cache.bufs[bp].data == log.Home()[IBlock(inum)]
    modifies log, log.cache
    ensures log.Valid() && log.SameTx() && log.cache.held == {}
    ensures log.cache.dirty == old(log.cache.dirty) + {IBlock(inum)}
    ensures InodeStored(old(log.Home()), log.Home(), inum)
    ensures Synced(log.Home(), inum, typ, 0, 0, 0, 0, NewEntry().addrs)
    ensures typ != 0 ==> FsOk(log.Home(), files[inum := NewEntry()])
    ensures typ != 0 ==> InodeStep(old(log.Home()), files, log.Home(), files[inum := NewEntry()], inum)
  {
    hide Log.Valid, Log.Home, FsOk, InodeStep, InodeStored, Synced, Load, DiskInode.Store, SbNinodes;
    log.Basics();
    ghost var h := log.Home();
    RoomSize(log.cache.held, log.cache.dirty, {});
    NewIsStep(h, files, inum, typ);
    log.LogWrite(bp, DiskInode.Store(log.cache.bufs[bp].data, inum % IPB, NewInode(typ)));
    log.Release(bp);
    assert log.cache.held == {};
    if typ != 0 {
      InodeStepKeepsFs(h, files, log.Home(), files[inum := NewEntry()], inum);
    }
  }

  /** One turn of the loop of inode_alloc. */
  method TryTake(log: Log, inum: nat, typ: Half, ghost files: Files) returns (taken: bool)
    requires log.Valid() && log.busy && log.cache.held == {} && RoomForOne(log)
    requires FsOk(log.Home(), files) && |log.Home()| > 1 && inum < FsInodes(log.Home())
    modifies log, log.cache
    ensures log.Valid() && log.SameTx() && log.cache.held == {}
    ensures taken <==> inum !in files
    ensures !taken ==> log.Home() == old(log.Home()) && log.cache.dirty == old(log.cache.dirty)
    ensures taken ==> log.cache.dirty == old(log.cache.dirty) + {IBlock(inum)}
    ensures taken ==> InodeStored(old(log.Home()), log.Home(), inum)
    ensures taken ==> Synced(log.Home(), inum, typ, 0, 0, 0, 0, NewEntry().addrs)
    ensures taken && typ != 0 ==> FsOk(log.Home(), files[inum := NewEntry()])
    ensures taken && typ != 0 ==> InodeStep(old(log.Home()), files, log.Home(), files[inum := NewEntry()], inum)
  {
    hide Log.Valid, Log.Home, FsOk, InodeStep, InodeStored, Synced, Load, SbNinodes, IBlock, NewEntry;
    log.Basics();
    FreeInode(log.Home(), files, inum);
    assert log.cache.held + log.cache.dirty == log.cache.dirty;
    var bp := log.Read(IBlock(inum));
    assert log.cache.held == {IBlock(inum)};
    taken := Load(log.cache.bufs[bp].data, inum % IPB).typ == 0;
    if taken {
      Take(log, bp, inum, typ, files);
    } else {
      log.Release(bp);
      assert log.cache.held == {};
    }
  }

  /** inode_alloc takes the first free inode and makes it an empty file of the given type. */
  method Alloc(log: Log, typ: Half, ghost files: Files) returns (inum: nat)
    requires log.Valid() && log.busy && log.cache.held == {} && RoomForOne(log)
    requires FsOk(log.Home(), files) && HasFree(log.Home(), files)       // else "no inodes"
    modifies log, log.cache
    ensures log.Valid() && log.SameTx() && log.cache.held == {}
    ensures log.cache.dirty == old(log.cache.dirty) + {IBlock(inum)}
    ensures inum >= 1 && inum !in files && forall j | 1 <= j < inum :: j in files
    ensures InodeStored(old(log.Home()), log.Home(), inum)
    ensures Synced(log.Home(), inum, typ, 0, 0, 0, 0, NewEntry().addrs)
    ensures typ != 0 ==> FsOk(log.Home(), files[inum := NewEntry()])
    ensures typ != 0 ==> InodeStep(old(log.Home()), files, log.Home(), files[inum := NewEntry()], inum)
  {
    hide Log.Valid, Log.Home, FsOk, InodeStep, InodeStored, Synced, Load, SbNinodes, IBlock, NewEntry;
    log.Basics();
    ghost var h, dirty := log.Home(), log.cache.dirty;
    ghost var free :| 1 <= free < FsInodes(h) && free !in files;
    assert log.cache.held + dirty == dirty;
    var sb := ReadSuperblock(log);
    inum := 1;
    while inum < SbNinodes(sb)
      invariant 1 <= inum <= free && log.Valid() && log.SameTx() && log.cache.held == {}
      invariant log.Home() == h && log.cache.dirty == dirty
      invariant forall j | 1 <= j < inum :: j in files
    {
      var taken := TryTake(log, inum, typ, files);
      if taken {
        return;
      }
      inum := inum + 1;
    }
  }

  /** Clearing the type of an empty file is a step of the file system. */
  lemma ClearedIsStep(h: Disk, files: Files, g: Disk, i: nat, major: nat, minor: nat, nlink: nat)
    requires FsOk(h, files) && i in files && files[i].blk == [] && InodeStored(h, g, i)
    requires Synced(g, i, 0, major, minor, nlink, files[i].size, files[i].addrs)
    ensures InodeStep(h, files, g, files - {i}, i)
  {
    hide Used, Free, ListsTail, NoLeak, Load, OtherInodesKept, Others, FileOk, BitmapBlocks, SbNinodes, SbSize;
    assert EntryOk(h, files, i);
    EmptyOwnsNothing(h, files[i].addrs, Others(files, i));
  }

  lemma RoomLeft(h: Disk, d0: set<nat>, d1: set<nat>, s: nat)
    requires LoggedOnly(h, d0, d1, {s})
    ensures |d1| <= |d0 + BitmapBlocks(h)| + 1
  {
    var all := d0 + BitmapBlocks(h) + {s};
    SubsetSize(d1, all);
  }

  /** What the last inode_put does to a file without links: its blocks go back, then its inode. */
  method Discard(log: Log, ip: Inode, ghost files: Files)
    requires Open(log, ip, files) && log.busy && Room(log, 2)
    modifies log, log.cache, ip`typ, ip`size, ip`addrs, ip`blk
    ensures log.Valid() && log.SameTx() && log.cache.held == {}
    ensures FsOk(log.Home(), files - {ip.inum})
    ensures LayoutOk(log.Home()) && LayoutOk(old(log.Home()))
    ensures Free(log.Home()) == Free(old(log.Home())) + OwnedBy(files[ip.inum])
    ensures OtherInodesKept(old(log.Home()), log.Home(), ip.inum) && TypeOnDisk(log.Home(), ip.inum) == 0
  {
    hide Log.Valid, Log.Home, FsOk, FileStep, InodeStep, InodeStored, Synced, FileOk, Tight, OtherInodesKept,
         TypeOnDisk, Free, LayoutOk, Others, BitmapBlocks;
    ghost var h0, d0 := log.Home(), log.cache.dirty;
    TruncFile(log, ip, files);
    RoomLeft(h0, d0, log.cache.dirty, IBlock(ip.inum));
    ghost var h1, files1, others := log.Home(), files[ip.inum := EntryOf(ip)], Others(files[ip.inum := EntryOf(ip)], ip.inum);
    SyncedInum(h1, ip.inum, ip.typ, ip.major, ip.minor, ip.nlink, ip.size, ip.addrs);
    ip.typ := 0;
    Update(log, ip, others);
    ClearedIsStep(h1, files1, log.Home(), ip.inum, ip.major, ip.minor, ip.nlink);
    InodeStepKeepsFs(h1, files1, log.Home(), files1 - {ip.inum}, ip.inum);
    assert files1 - {ip.inum} == files - {ip.inum};
    DiscardedBlocks(h0, files, h1, files1, log.Home(), ip.inum);
  }

  lemma DiscardedBlocks(h0: Disk, files: Files, h1: Disk, files1: Files, g: Disk, i: nat)
    requires FileStep(h0, files, h1, files1, i) && InodeStep(h1, files1, g, files1 - {i}, i)
    ensures LayoutOk(g) && LayoutOk(h0) && Free(g) == Free(h0) + OwnedBy(files[i])
    ensures OtherInodesKept(h0, g, i) && TypeOnDisk(g, i) == 0
  {
    hide Used, Free, ListsTail, Load, Others, FileOk, BitmapBlocks, OwnedBy, SbNinodes, SbSize;
    assert Free(g) == Free(h1);
  }
}
