/** dir_lookup, dir_link and the entry-clearing of unlink (kern/fs/dir.c, kern/fs/sysfile.c), reading
    and writing directory entries through the file layer. */
module Dir {
  import opened Params
  import opened Blocks
  import opened Bitmap
  import opened RedoLog
  import opened BlockAlloc
  import opened FileMap
  import opened FileBytes
  import opened Inodes
  import opened InodeIO
  import opened DirSpec

  const T_DIR: nat := 1

  /** A locked directory inode, its file a whole number of entries. */
  ghost predicate DirOk(log: Log, dp: Inode, others: set<nat>)
    reads log, log.cache, dp
  {
    Good(log, dp, others) && dp.typ == T_DIR && InRange(log.Home(), dp.blk) && Whole(Listing(log, dp))
  }

  /** The directory's bytes. */
  ghost function Listing(log: Log, dp: Inode): Bytes
    reads log, log.cache, dp
  {
    if InRange(log.Home(), dp.blk) && BlocksFor(dp.size) <= |dp.blk| then Contents(log.Home(), dp.blk, dp.size) else []
  }

  /** Nothing the caller can see changed. */
  twostate predicate Unchanged(log: Log, dp: Inode)
    reads log, log.cache, dp
  {
    && log.SameTx() && log.Home() == old(log.Home()) && dp.blk == old(dp.blk) && dp.addrs == old(dp.addrs)
    && dp.size == old(dp.size) && dp.typ == old(dp.typ) && log.cache.dirty == old(log.cache.dirty)
  }

  /** inode_read of the entry in slot k. */
  method ReadEntry(log: Log, dp: Inode, k: nat, ghost others: set<nat>) returns (de: Bytes)
    requires DirOk(log, dp, others) && |log.cache.dirty| < NBUF && k < Slots(Listing(log, dp))
    modifies log, log.cache, dp`addrs, dp`blk
    ensures DirOk(log, dp, others) && Unchanged(log, dp) && Listing(log, dp) == old(Listing(log, dp))
    ensures |de| == ENTRY && de == Slot(old(Listing(log, dp)), k)
  {
    hide Log.Valid, Log.Home, Good, Contents, InRange;
    ListingSize(log, dp, others);
    ghost var c := Listing(log, dp);
    var r;
    r, de := Read(log, dp, ENTRY * k, ENTRY, others);
    ListingSize(log, dp, others);
  }

  lemma ListingSize(log: Log, dp: Inode, others: set<nat>)
    requires Good(log, dp, others) && InRange(log.Home(), dp.blk)
    ensures Listing(log, dp) == Contents(log.Home(), dp.blk, dp.size) && |Listing(log, dp)| == dp.size <= MAXFILE * 512
    ensures BlocksFor(dp.size) == |dp.blk|
  {
  }

  /** dir_lookup: the slot of the first live entry with the name; its short-read panic cannot happen. */
  method Lookup(log: Log, dp: Inode, name: Bytes, ghost others: set<nat>) returns (found: bool, k: nat, inum: nat)
    requires DirOk(log, dp, others) && |log.cache.dirty| < NBUF && IsString(name)
    modifies log, log.cache, dp`addrs, dp`blk
    ensures DirOk(log, dp, others) && Unchanged(log, dp) && Listing(log, dp) == old(Listing(log, dp))
    ensures k == Find(Listing(log, dp), name, 0)
    ensures found <==> k < Slots(Listing(log, dp))
    ensures found ==> inum == EntryInum(Slot(Listing(log, dp), k)) != 0
  {
    hide Log.Valid, Log.Home, Good, Contents, InRange, Whole, Find, Canon, SameName;
    DirSlots(log, dp, others);
    ghost var c := Listing(log, dp);
    var off := 0;
    k := 0;
    inum := 0;
    while off < dp.size
      invariant off == ENTRY * k && k <= Slots(c)
      invariant DirOk(log, dp, others) && Unchanged(log, dp) && Listing(log, dp) == c
      invariant Find(c, name, k) == Find(c, name, 0)
      decreases Slots(c) - k
    {
      var de := ReadEntry(log, dp, k, others);
      FindUnfold(c, name, k);
      SameNameIsEqual(de[2..], name, DIRSIZ);
      if EntryInum(de) != 0 && SameName(de[2..], name + [0], DIRSIZ) {
        return true, k, EntryInum(de);
      }
      off := off + ENTRY;
      k := k + 1;
    }
    FindUnfold(c, name, k);
    found := false;
  }

  lemma DirSlots(log: Log, dp: Inode, others: set<nat>)
    requires DirOk(log, dp, others)
    ensures dp.size == ENTRY * Slots(Listing(log, dp)) == |Listing(log, dp)|
  {
    hide Good, InRange;
    ListingSize(log, dp, others);
  }

  lemma FindUnfold(c: Bytes, name: Bytes, k: nat)
    requires k <= Slots(c)
    ensures k == Slots(c) ==> Find(c, name, k) == k
    ensures k < Slots(c) ==>
      Find(c, name, k) == if EntryInum(Slot(c, k)) != 0 && Canon(Slot(c, k)[2..]) == Cut(name) then k else Find(c, name, k + 1)
  {
  }

  /** The free-entry scan of dir_link. */
  method ScanFree(log: Log, dp: Inode, ghost others: set<nat>) returns (k: nat)
    requires DirOk(log, dp, others) && |log.cache.dirty| < NBUF
    modifies log, log.cache, dp`addrs, dp`blk
    ensures DirOk(log, dp, others) && Unchanged(log, dp) && Listing(log, dp) == old(Listing(log, dp))
    ensures k == FindFree(Listing(log, dp), 0)
  {
    hide Log.Valid, Log.Home, Good, Contents, InRange, Whole, FindFree;
    DirSlots(log, dp, others);
    ghost var c := Listing(log, dp);
    var off := 0;
    k := 0;
    while off < dp.size
      invariant off == ENTRY * k && k <= Slots(c)
      invariant DirOk(log, dp, others) && Unchanged(log, dp) && Listing(log, dp) == c
      invariant FindFree(c, k) == FindFree(c, 0)
      decreases Slots(c) - k
    {
      var de := ReadEntry(log, dp, k, others);
      FreeUnfold(c, k);
      if EntryInum(de) == 0 {
        return;
      }
      off := off + ENTRY;
      k := k + 1;
    }
    FreeUnfold(c, k);
  }

  lemma FreeUnfold(c: Bytes, k: nat)
    requires k <= Slots(c)
    ensures k == Slots(c) ==> FindFree(c, k) == k
    ensures k < Slots(c) ==> FindFree(c, k) == if EntryInum(Slot(c, k)) == 0 then k else FindFree(c, k + 1)
  {
  }

  /** Room in the log, the cache and the data area for writing one entry in slot k. */
  ghost predicate EntryRoom(log: Log, dp: Inode, k: nat)
    reads log, log.cache, dp
  {
    && log.busy && MAXTX < log.size - 1 && ENTRY * k + ENTRY <= MAXFILE * 512
    && LayoutOk(log.Home()) && |log.cache.dirty + BitmapBlocks(log.Home())| + 3 <= MAXTX
    && Available(log.Home(), OwnedCount(Max(|dp.blk|, BlocksFor(ENTRY * k + ENTRY))) - OwnedCount(|dp.blk|))
  }

  /** Entries do not straddle blocks. */
  lemma EntryInOneBlock(k: nat)
    ensures BlocksFor(ENTRY * k + ENTRY) - ENTRY * k / 512 == 1
  {
  }

  /** Only the directory's own file changed. */
  ghost predicate OthersKept(h0: Disk, h: Disk, inum: nat, others: set<nat>) {
    && |h| == |h0| && (forall s | s in others :: s < |h0| && h[s] == h0[s])
    && OtherInodesKept(h0, h, inum)
  }

  /** The directory's file was written by one inode_write. */
  ghost predicate Rewrote(h0: Disk, a0: seq<nat>, b0: seq<nat>, size0: nat,
                          h: Disk, a: seq<nat>, b: seq<nat>, size: nat, inum: nat, others: set<nat>)
  {
    exists off: nat, src: Bytes :: WroteFile(h0, a0, b0, size0, h, a, b, size, off, src, inum, others)
  }

  /** inode_write of an entry into slot k; its short-write panic cannot happen. */
  method WriteEntry(log: Log, dp: Inode, k: nat, de: Bytes, ghost others: set<nat>)
    requires DirOk(log, dp, others) && k <= Slots(Listing(log, dp)) && |de| == ENTRY && EntryRoom(log, dp, k)
    modifies log, log.cache, dp`size, dp`addrs, dp`blk
    ensures DirOk(log, dp, others) && log.SameTx()
    ensures ENTRY * k <= |old(Listing(log, dp))|
    ensures Listing(log, dp) == Splice(old(Listing(log, dp)), ENTRY * k, de)
    ensures OthersKept(old(log.Home()), log.Home(), dp.inum, others)
    ensures Rewrote(old(log.Home()), old(dp.addrs), old(dp.blk), old(dp.size),
                    log.Home(), dp.addrs, dp.blk, dp.size, dp.inum, others)
  {
    hide Log.Valid, Log.Home, Good, Contents, InRange, BitmapBlocks, LayoutOk, Splice, WroteFile, OthersKept;
    DirSlots(log, dp, others);
    ListingSize(log, dp, others);
    ghost var h, a, b, size, c := log.Home(), dp.addrs, dp.blk, dp.size, Listing(log, dp);
    EntryInOneBlock(k);
    SlotAfterWrite(c, k, de, k);
    var r := Write(log, dp, de, ENTRY * k, others);
    WrittenListing(log, dp, h, a, b, size, ENTRY * k, de, others);
  }

  lemma WrittenListing(log: Log, dp: Inode, h: Disk, a: seq<nat>, b: seq<nat>, size: nat, off: nat, de: Bytes, others: set<nat>)
    requires Good(log, dp, others)
    requires WroteFile(h, a, b, size, log.Home(), dp.addrs, dp.blk, dp.size, off, de, dp.inum, others)
    ensures InRange(log.Home(), dp.blk) && InRange(h, b) && BlocksFor(size) <= |b| && off <= size
    ensures Listing(log, dp) == Splice(Contents(h, b, size), off, de)
    ensures OthersKept(h, log.Home(), dp.inum, others)
  {
    hide Contents, Splice, OtherInodesKept, Free, BitmapBlocks, Owned;
  }

  /** dir_link. */
  method Link(log: Log, dp: Inode, name: Bytes, inum: nat, ghost others: set<nat>) returns (r: int)
    requires DirOk(log, dp, others) && IsString(name) && log.busy && |log.cache.dirty| < NBUF
    requires Find(Listing(log, dp), name, 0) == Slots(Listing(log, dp)) ==>
               EntryRoom(log, dp, FindFree(Listing(log, dp), 0))
    modifies log, log.cache, dp`size, dp`addrs, dp`blk
    ensures DirOk(log, dp, others) && log.SameTx()
    ensures Listing(log, dp) == Apply(old(Listing(log, dp)), DirSpec.Link(name, inum))
    ensures r == if old(Find(Listing(log, dp), name, 0) < Slots(Listing(log, dp))) then -1 else 0
    ensures r == 0 ==> OthersKept(old(log.Home()), log.Home(), dp.inum, others)
    ensures r == 0 ==> Rewrote(old(log.Home()), old(dp.addrs), old(dp.blk), old(dp.size),
                    log.Home(), dp.addrs, dp.blk, dp.size, dp.inum, others)
    ensures r == -1 ==> log.Home() == old(log.Home()) && dp.addrs == old(dp.addrs) && dp.blk == old(dp.blk)
    ensures r == -1 ==> dp.size == old(dp.size)
  {
    hide Log.Valid, Log.Home, Good, Contents, InRange, BitmapBlocks, LayoutOk, Splice, OthersKept, Rewrote, Find, FindFree, DirSpec.Encode;
    var found, at, number := Lookup(log, dp, name, others);
    if found {
      return -1;
    }
    var k := ScanFree(log, dp, others);
    WriteEntry(log, dp, k, DirSpec.Encode(inum, name), others);
    return 0;
  }

  /** The entry-clearing step of sys_unlink, at the slot dir_lookup found. */
  method ClearEntry(log: Log, dp: Inode, k: nat, ghost name: Bytes, ghost others: set<nat>)
    requires DirOk(log, dp, others) && k < Slots(Listing(log, dp)) && k == Find(Listing(log, dp), name, 0)
    requires EntryRoom(log, dp, k)
    modifies log, log.cache, dp`size, dp`addrs, dp`blk
    ensures DirOk(log, dp, others) && log.SameTx()
    ensures Listing(log, dp) == Apply(old(Listing(log, dp)), Unlink(name))
    ensures OthersKept(old(log.Home()), log.Home(), dp.inum, others)
    ensures Rewrote(old(log.Home()), old(dp.addrs), old(dp.blk), old(dp.size),
                    log.Home(), dp.addrs, dp.blk, dp.size, dp.inum, others)
  {
    hide Log.Valid, Log.Home, Good, Contents, InRange, BitmapBlocks, LayoutOk, Splice, OthersKept, Rewrote, Find;
    WriteEntry(log, dp, k, ZeroEntry(), others);
  }

  /** dir_lookup and then the clearing of the entry it found, as sys_unlink strings them together. */
  method Remove(log: Log, dp: Inode, name: Bytes, ghost others: set<nat>) returns (found: bool, inum: nat)
    requires DirOk(log, dp, others) && IsString(name) && |log.cache.dirty| < NBUF
    requires var k := Find(Listing(log, dp), name, 0); k < Slots(Listing(log, dp)) ==> EntryRoom(log, dp, k)
    modifies log, log.cache, dp`size, dp`addrs, dp`blk
    ensures DirOk(log, dp, others) && log.SameTx()
    ensures Listing(log, dp) == Apply(old(Listing(log, dp)), Unlink(name))
    ensures found <==> old(Find(Listing(log, dp), name, 0) < Slots(Listing(log, dp)))
    ensures found ==> inum == old(EntryInum(Slot(Listing(log, dp), Find(Listing(log, dp), name, 0))))
    ensures found ==> Rewrote(old(log.Home()), old(dp.addrs), old(dp.blk), old(dp.size),
                              log.Home(), dp.addrs, dp.blk, dp.size, dp.inum, others)
    ensures !found ==> log.Home() == old(log.Home()) && dp.addrs == old(dp.addrs) && dp.blk == old(dp.blk)
    ensures !found ==> dp.size == old(dp.size)
  {
    hide Log.Valid, Log.Home, Good, Contents, InRange, BitmapBlocks, LayoutOk, Splice, OthersKept, Rewrote, Find;
    var k;
    found, k, inum := Lookup(log, dp, name, others);
    if found {
      ClearEntry(log, dp, k, name, others);
    }
  }
}
