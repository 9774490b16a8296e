# A verified model of mCertiKOS

mCertiKOS is a small teaching kernel with an xv6-style file system. This project models its stateful
core in Dafny and proves what that core is for:

* **The file system, from sectors to paths.** A write-back buffer cache of 10 buffers with LRU recycling
  (`BufCache`, `Ring`), a redo log over it (`RedoLog`, `LogSpec`), crashes and boots (`Boot`, `Moves`,
  `Transaction`), the bitmap allocator (`Bitmap`, `BlockAlloc`), inodes with direct and indirect blocks
  (`DiskInode`, `FileMap`, `Inodes`, `InodeIO`, `InodeTrunc`, `Ownership`, `InodeAlloc`), chunked file writes
  (`Files`) and directories (`DirSpec`, `Dir`). Each of these layers' code runs on the layer below:
  `Files.Write` is proved down to single sector writes. Path elements (`Path`), the inode cache
  (`InodeCaching`) and path lookup (`Namei`) run on a tree of inodes; `DiskTree` reads that tree off the
  blocks and proves what directory operations on blocks do to it, and `Links` counts its links.
* **Threads.** Index-linked queues (`ThreadQueue`), the scheduler on them (`SchedSpec`, `Scheduler`), and
  the sleeping locks of the file system in every interleaving of lock operations (`SleepLock`).
* **Multi-object wait.** Wait objects, event sources, timers and the wait loop (`WaitSpec`, `WaitObj`).
* **Memory.** The next-fit page allocator (`PageAlloc`) and the container quota tree (`Container`).

The main theorems:

1. *Crash atomicity.* Every sector write is recorded in the ghost history of disk images. A crash may
   leave any image of a transaction, and the boots after it may crash any number of times at any write,
   each finding the log from the superblock it is given. The first boot that completes finds all of the
   transaction's updates or none, all of them exactly from the header write on, with the log at its old
   place, if and only if the updates leave that place alone (`Transaction.Run`, `Transaction.Reboot`,
   `Boot.BootExact`). Of the contents alone, a transaction that moves the log to a place that holds an empty
   one is all or nothing if and only if no block logged after the superblock changes anything
   (`Moves.MovedExact`, and for whole transactions `Transaction.Run`).
2. *Files are byte arrays.* `inode_write` splices bytes into the contents exactly if they start within the
   file and end within 140 blocks, `inode_read` returns the bytes asked for as far as the file has them,
   `inode_trunc` returns every block; other files, other inodes and free blocks are as they were. A
   `file_write` puts in all bytes, or as many whole chunks as the file can hold, and a crash anywhere in it
   boots to the file with a whole number of chunks in (`Files.Write`).
3. *Ownership.* Over every run of writes, truncations, inode allocations and inode frees the files are what
   the inodes on the disk say, a data block is marked exactly if one file owns it, and no two files share a
   block. Over every run of create, mkdir, link, unlink and frees an inode's link count is the number of
   entries that name it, if and only if no entry is made in a removed directory (`Links.RunExact`).
4. *Directories are maps, paths are folds.* A directory's bytes refine a map from names to inodes over any
   run of links and unlinks, with whole inode numbers exactly if they fit 16 bits; `namex` equals following
   the path's components through those maps, returns with no inode locked, changes reference counts only by
   one for the inode it returns, and frees nothing. On the blocks, `dir_lookup` answers from those maps, and
   `dir_link` and unlink's clearing change the one map and nothing else (`DiskTree`).
5. *Sleep and wakeup.* Mutual exclusion, no lost wakeup and no deadlock below the flags themselves, over
   every interleaving of any number of processes, flags and spinlocks. On the scheduler, a thread that sleeps
   on a channel sleeps until the first wakeup of that channel, which queues it, and a queued thread runs
   after exactly as many dequeues as there are threads before it.
6. *Waiting.* Over every run no thread sleeps on an object with a ready source, a signal stays pending until
   it is delivered, and timers are ready exactly from their tick on, throughout, if and only if no step wraps
   a 32-bit tick.
7. *Quotas.* Over every run that the kernel's own checks allow, the containers' books are right throughout
   if and only if no split's sum wraps and every page is freed by its holder. While they are right, every
   container is within its quota and all of them together within the root's. No page is handed out twice
   without a free in between.

Code that updates state is a class with methods; arrays and C structures it updates are `seq` and `map`
fields. The disk is a sequence of 512-byte sectors, and one sector write is atomic. Words are 32 bits and
their wrap-around is written out where code adds them.

## Where the code and its promises differ

The model follows the code in each case.

* A logged superblock with another size or log length moves the log under the boots that follow.
  `Boot.TornByMove` and `Boot.TornExample` give a crash that leaves the new superblock and the rest old.
  `Boot.BootExact` and `Transaction.Run` say exactly when the log stays. For the contents alone a superblock
  that is logged last is harmless (`Moves.LastIsEnough`); `Moves.MovedExact` gives the exact condition, and
  `Moves.ExampleExact` is one disk on both sides of it.
* `block_alloc` scans all sectors, and mkfs leaves the log's own bitmap bits clear. Once the data area is
  full, the allocator hands out the log header (`BlockAlloc.FullDiskHandsOutTheLog`); its choice lies
  outside the log if and only if the data area has a free block (`BlockAlloc.ChoiceOutsideLog`). The file
  layer therefore asks for enough free data blocks.
* `palloc` scans upwards from its last result and does not wrap within a call: one failure does not mean
  that memory is full (`PageAlloc.OneFailureIsNotFull`); two in a row mean it, and exactly then
  (`PageAlloc.TwoFailures`).
* `container_alloc` charges the container before `palloc` answers, so a failing `palloc` loses one unit of
  quota. The books of `Container` carry these lost charges, and the quota theorems hold with them.
* `container_can_consume` adds unsigned numbers, and the stored quota is signed. `Container.WrappingSplit` is
  a split by a booted process that passes sys_spawn's checks and gives the child a quota of -1; `Container.SplitExact` says that
  a checked split keeps the books if and only if its sum does not wrap.
* `container_free` does not look at who holds the page: `Container.FreeOfAnothersPage` is such a free by a
  booted process, and
  `Container.FreeExact` says that the books stay right if and only if the holder frees it.
* Timer sums wrap at 32 bits: a timer that wraps is notified on the very next tick (`WaitSpec.EarlyTimer`);
  `WaitSpec.TickExact`, `WaitSpec.AddExact`, `WaitSpec.DeliverExact` and `WaitSpec.RunExact` say exactly when
  timers stay exact.
* A directory entry keeps the low 16 bits of an inode number. Linking inode 65536 succeeds and adds nothing
  (`DirSpec.LostLink`); a link does what it is meant to if and only if the number fits (`DirSpec.LinkExact`,
  `DirSpec.RunExact`).
* `create` and `sys_link` make entries in a directory that has been removed while it was somebody's current
  directory. The new file then has a link count of 1 and no directory names it (`Links.Orphan`); the counts
  stay right if and only if the directory has not been removed (`Links.StepExact`).
* `log_write` checks for room before it looks for a slot to absorb the block into, so a full log refuses
  even a block it already holds; `Transaction.Fits` counts that way.

## Model

| member | source | states |
|---|---|---|
| BufCache.RecycleKeepsView | kern/fs/bufcache.c:81-90 | taking over an idle, clean buffer changes no sector's visible contents |
| BufCache.VictimExists | kern/fs/bufcache.c:81-91 | the "no buffers" panic cannot happen while fewer than 10 sectors are held or dirty |
| BufCache.Cache.Settled | kern/fs/bufcache.c:67-92 | with every buffer clean and released, readers see exactly the disk |
| BufCache.PinnedCount | kern/fs/bufcache.c:81-90 | buffers that are busy or dirty stand for pairwise different held or dirty sectors |
| BufCache.ReleaseKeepsRecency | kern/fs/bufcache.c:131-136 | moving a buffer to the front keeps the ring a permutation of all buffers ordered by release time |
| BufCache.OldestIdle | kern/fs/bufcache.c:82-90 | the backward scan stops at the idle buffer released longest ago |
| Ring.Unlink | kern/fs/bufcache.c:131-132 | cutting one element out by two pointer stores leaves both chains linked over the rest |
| Ring.PushFront | kern/fs/bufcache.c:133-136 | inserting behind the head leaves both chains linked, the element first |
| BufCache.Cache.constructor | kern/fs/bufcache.c:38-54 | the ring holds all buffers, nothing is cached and readers see the disk |
| BufCache.Cache.FindCached | kern/fs/bufcache.c:67-79 | finds the buffer of a sector if and only if one caches it, by walking the ring |
| BufCache.Cache.FindIdle | kern/fs/bufcache.c:81-90 | finds the least recently released buffer that is neither busy nor dirty, or none is |
| BufCache.Cache.Get | kern/fs/bufcache.c:61-92 | hit, recycle, sleep and panic cases, each with its exact new state; at most one buffer per sector |
| BufCache.Cache.Read | kern/fs/bufcache.c:97-106 | returns a held buffer with the sector's visible contents and changes nothing that readers see |
| BufCache.Cache.Write | kern/fs/bufcache.c:111-118 | one atomic sector write of the buffer; the buffer is clean afterwards |
| BufCache.Cache.IdeRw | kern/dev/disk/ide.c:125-129 | writes a dirty buffer, else fills an invalid one |
| BufCache.Cache.MoveToFront | kern/fs/bufcache.c:131-136 | the six pointer stores keep ring and recency and make the buffer the newest |
| BufCache.Cache.Release | kern/fs/bufcache.c:124-142 | the sector is no longer held, its contents stay visible, and the buffer is the newest |
| LogSpec.InstalledStep | kern/fs/log.c:74-81 | one more copy of install_trans extends the replayed prefix of the log by one |
| LogSpec.ReplayOverwrites | kern/fs/log.c:69-82 | disks that differ at one logged home sector agree there once that sector is replayed |
| LogSpec.ReplayTwice | kern/fs/log.c:69-82 | replaying the whole log over a partly replayed disk equals replaying it once |
| LogSpec.CrashInRecovery | kern/fs/log.c:115-122 | with the log at one place, a recovery cut off after any write leaves a disk that recovers to the same disk |
| Boot.CrashKeepsRoot | kern/fs/log.c:53-66 | a boot cut off after any write leaves the log at its place and the same outcome, when the log's own blocks do not move it |
| Boot.RootedBoots | kern/fs/log.c:53-122 | after any number of crashing boots, each finding the log anew, the outcome is that of one uninterrupted boot |
| Boot.BootExact | kern/fs/log.c:53-122 | this holds if and only if no logged superblock names another place and the header is not the superblock |
| Boot.TornByMove | kern/fs/log.c:59-65 | otherwise a crash after the first copy can leave the new superblock and all else old |
| Boot.TornExample | kern/fs/log.c:59-65 | a disk of 20 sectors on which that happens |
| Moves.PlaceKept | kern/fs/log.c:53-122 | with the log at its place and one outcome, the contents are all old or all new after any number of crashing boots |
| Moves.Reinstalled | kern/fs/log.c:69-82 | replaying a log again from the start over a partly replayed disk takes up where it left off |
| Moves.MovedExact | kern/fs/log.c:53-122 | a committed log that moves itself to an empty place is all or nothing over every series of crashing boots if and only if no block after the superblock changes a sector below both places |
| Moves.LastIsEnough | kern/fs/log.c:53-122 | a superblock logged last moves the log and yet all boots find all or nothing |
| Moves.ExampleExact | kern/fs/log.c:59-65 | the disk of TornExample is all or nothing if and only if its second block writes what is there |
| RedoLog.HeaderWords | kern/fs/log.c:101-113 | the written header reads back as the count and the sector numbers |
| RedoLog.InstalledIsView | kern/fs/log.c:69-82 | with the header on the disk, replaying gives what readers saw on logged sectors and nothing else |
| RedoLog.LogBlock | kern/fs/log.c:169-180 | logging a block, new or absorbed, keeps one slot per logged sector and the home sectors untouched |
| RedoLog.Commits | kern/fs/log.c:138-142 | the single header write leaves the old home sectors and a log whose replay is what readers saw |
| RedoLog.Log.constructor | kern/fs/log.c:53-66 | boot finds the log from the superblock and recovers; all its images boot to the same home sectors if and only if the disk's log does not move the log |
| RedoLog.Log.RecoverFromLog | kern/fs/log.c:115-122 | leaves the recovered disk and an empty log; image k is the replay of k blocks |
| RedoLog.Log.ReadHead | kern/fs/log.c:84-96 | the in-memory header is the disk's |
| RedoLog.Log.WriteHead | kern/fs/log.c:101-113 | exactly the header sector changes, by one write |
| RedoLog.Log.InstallTrans | kern/fs/log.c:69-82 | installs the whole log; image k of it is the replay of the first k blocks |
| RedoLog.Log.BeginTrans | kern/fs/log.c:124-133 | opens a transaction on the current contents |
| RedoLog.Log.FindSlot | kern/fs/log.c:169-172 | the slot that already names the sector, or the first unused one |
| RedoLog.Log.LogWrite | kern/fs/log.c:159-181 | readers see the new block, no disk image shows it, and the buffer is pinned |
| RedoLog.Log.CommitTrans | kern/fs/log.c:135-149 | the first image holds the old home sectors and the whole transaction in the log, the others replay and erase it; afterwards disk and readers agree |
| Transaction.QuietBoots | kern/fs/log.c:115-122 | with nothing committed, boots find the home sectors as they are |
| Transaction.CommittedBoots | kern/fs/log.c:135-149 | from a committed disk, boots find the new home sectors with the log at its old place if and only if the new superblock leaves it there |
| Transaction.AllOrNothing | kern/fs/log.c:1-25 | a history quiet up to the commit boots to all or nothing with the log at its old place throughout, if and only if the superblock leaves it there |
| Transaction.ContentsExact | kern/fs/log.c:1-25 | of the contents alone: all or nothing throughout if the log stays, and if it moves to an empty place, exactly if no later block changes anything |
| Transaction.Commit | kern/fs/log.c:135-149 | commit_trans with both meanings for every image of the transaction; it writes exactly if something was logged |
| Transaction.Run | kern/fs/log.c:124-181 | one whole transaction: for every crash image and every series of crashing boots, old contents before the header write and all updates from it on, with the log at its old place, if and only if the updates leave that place alone; the log lists the updated sectors in order of first update, and a move of the log is all or nothing by the rule of ContentsExact |
| Transaction.Reboot | kern/fs/log.c:53-66 | the kernel that comes up after such a crash has the log at the same place over exactly those home sectors, and so have all boots it may crash in |
| Transaction.AppliedAt | kern/fs/log.c:159-181 | a sector ends up with the last update to it, or as it was |
| Transaction.FirstsAre | kern/fs/log.c:169-178 | the log lists every updated sector once and no other |
| Transaction.FirstsGrow | kern/fs/log.c:169-178 | it lists them in the order of their first updates |
| Blocks.WordOfSetWord | kern/fs/inode.c:255-258 | storing a word into a block changes that word alone |
| Blocks.BitOfSetBit | kern/fs/block.c:42-44 | setting a bitmap bit changes that bit alone |
| Blocks.BitOfClearBit | kern/fs/block.c:66-70 | clearing a bitmap bit changes that bit alone |
| Bitmap.AllocatedBits | kern/fs/block.c:43-47 | allocation takes exactly one block out of the free ones and zeroes it |
| Bitmap.FreedBits | kern/fs/block.c:65-71 | freeing returns exactly one block and changes no other sector |
| BlockAlloc.ChoiceOutsideLog | kern/fs/block.c:39-52 | the first clear bit lies outside the log if and only if the data area has a free block |
| BlockAlloc.FullDiskHandsOutTheLog | kern/fs/mkfs.c:246-258 | with mkfs's superblock and all data blocks marked, whatever else is on the disk, the first clear bit is the log header's |
| BlockAlloc.ReadSuperblock | kern/fs/block.c:8-15 | delivers sector 1 and changes nothing |
| BlockAlloc.Zero | kern/fs/block.c:18-27 | exactly that block becomes zero, as a logged write |
| BlockAlloc.ScanBlock | kern/fs/block.c:41-50 | the first clear bit of a bitmap block below the end of the disk |
| BlockAlloc.ScanGroup | kern/fs/block.c:39-52 | one bitmap block is scanned: its first clear bit is the first of all, or all its bits are set and it is released |
| BlockAlloc.Scan | kern/fs/block.c:37-52 | finds the lowest free block over all bitmap blocks, holding its bitmap block |
| BlockAlloc.Alloc | kern/fs/block.c:29-54 | returns the lowest free block, marked and zeroed, logging only it and the bitmap |
| BlockAlloc.BlockFree | kern/fs/block.c:56-73 | exactly that block's bit is cleared |
| DiskInode.LoadOfStore | kern/fs/inode.c:63-82 | a stored inode reads back, and the other seven of its block are unchanged |
| DiskInode.LoadBytes | kern/fs/dinode.h:9-16 | type, major, minor, link count, size and addresses lie in an inode's 64 bytes in that order, little-endian |
| FileMap.AllocKeepsFile | kern/fs/inode.c:243-259 | allocating a block disturbs no file and gives one that no file owns |
| FileMap.GrowDirect | kern/fs/inode.c:243-247 | appending a direct block keeps the file well formed |
| FileMap.GrowIndirect | kern/fs/inode.c:252-253 | a fresh indirect block lists no blocks, and the file owns it |
| FileMap.GrowTail | kern/fs/inode.c:254-259 | storing an address into the indirect block appends exactly that block |
| FileMap.OthersKeepContents | kern/fs/inode.c:346-379 | a file whose blocks are untouched reads the same |
| Inodes.DirectAddr | kern/fs/inode.c:243-247 | a direct address is zero if and only if the file does not reach that block |
| Inodes.TailAddr | kern/fs/inode.c:252-259 | an indirect entry is zero if and only if the file does not reach that block |
| Inodes.Bmap | kern/fs/inode.c:233-265 | returns the file's block, or appends exactly one, with its indirect block where needed; old blocks and other files stay |
| FileBytes.PatchExtends | kern/fs/inode.c:366-371 | copying one chunk into its block extends the written range by that chunk |
| FileBytes.WrittenIsSplice | kern/fs/inode.c:366-378 | when all bytes are written the contents are the old ones with the bytes spliced in |
| InodeIO.Update | kern/fs/inode.c:63-82 | the disk inode equals the in-memory one, and no other inode changes |
| InodeIO.SpreadCount | kern/fs/inode.c:346-379 | a file's growth in blocks, indirect block included, is exactly the drop in free blocks |
| InodeIO.ProgressAllows | kern/fs/inode.c:366-372 | while bytes are left, the next block can be mapped and logged within the transaction |
| InodeIO.WriteDone | kern/fs/inode.c:366-378 | the finished loop wrote the bytes and nothing else, and left the addresses alone unless the file grew |
| InodeIO.StoredAfterWrite | kern/fs/inode.c:374-377 | storing the inode afterwards undoes none of the write |
| InodeIO.Write | kern/fs/inode.c:346-379 | splices the bytes in if they start at most at the end and end within 140 blocks, else returns -1 and changes nothing; the disk inode stays current although it is stored only on growth; logs only the bitmap, the data blocks reached, the indirect block and the inode, and at most that many |
| InodeIO.PartExtends | kern/fs/inode.c:337-342 | appending the next part of a block continues the slice of the contents |
| InodeIO.Read | kern/fs/inode.c:317-344 | returns the bytes asked for up to the end of the file, or -1 exactly for an offset past the end or a wrapping sum, and changes nothing |
| InodeTrunc.GiveBackOne | kern/fs/inode.c:281-298 | each block freed was in use, so "freeing free block" cannot happen |
| InodeTrunc.TruncDirect | kern/fs/inode.c:281-286 | gives back exactly the direct blocks and clears their addresses |
| InodeTrunc.TruncTail | kern/fs/inode.c:291-294 | gives back exactly the blocks the indirect block lists |
| InodeTrunc.TruncIndirect | kern/fs/inode.c:288-298 | gives back the listed blocks and the indirect block itself |
| InodeTrunc.EmptyFile | kern/fs/inode.c:274-302 | with all blocks returned the empty file is well formed, and free blocks grew by exactly what it owned |
| InodeTrunc.Trunc | kern/fs/inode.c:274-302 | the file is empty, each of its blocks is free, every other file and inode is as before |
| Files.ChunkFitsTransaction | kern/fs/file.c:132-143 | beside a bitmap of up to two blocks, a transaction has the room inode_write asks for, for a chunk at any offset |
| Files.SpliceTwice | kern/fs/file.c:140-158 | two adjacent writes are one write of both |
| Files.StillAvailable | kern/fs/file.c:140-158 | after a chunk the free blocks still cover the rest |
| Files.WriteOneChunk | kern/fs/file.c:145-150 | one transaction writes one chunk, exactly if it starts within the file and ends within 140 blocks, or nothing; every image of it boots to the disk without the chunk or with all of it, and the committed log lists at most six sectors besides the bitmap's |
| Files.MoreImages | kern/fs/file.c:140-158 | the images of one more chunk hold a whole number of chunks, as those before it |
| Files.WritePass | kern/fs/file.c:140-158 | one pass writes the next chunk or is refused, and keeps that |
| Files.Write | kern/fs/file.c:124-161 | the chunks add up to one splice; it writes and reports all bytes exactly if they start within the file and end within 140 blocks, else as many whole chunks as fit and -1; every crash image boots to a whole number of chunks, described by the inode on the disk |
| Ownership.WriteIsStep | kern/fs/inode.c:346-379 | inode_write's contract is a step of the ownership machine |
| Ownership.TruncIsStep | kern/fs/inode.c:274-302 | inode_trunc's contract is a step of the ownership machine |
| Ownership.StepKeepsFs | kern/fs/inode.c:224-232 | a step keeps all files well formed and equal to the inodes on the disk, leaks no block and keeps every other file's contents |
| Ownership.RunKeepsFs | kern/fs/inode.c:224-232 | over every run the files are the allocated inodes of the disk, and a data block is marked exactly if one file owns it |
| Ownership.InodeStepKeepsFs | kern/fs/inode.c:38-61 | taking a free inode, or clearing the type of an empty file, keeps all that and every other file's contents |
| Ownership.NoSharedBlock | kern/fs/inode.c:224-232 | no two files share a block |
| Ownership.WriteFile | kern/fs/inode.c:346-379 | running inode_write on one of the files writes its bytes and keeps the ownership of all files |
| Ownership.TruncFile | kern/fs/inode.c:274-302 | running inode_trunc on one of the files keeps the ownership of all of them |
| InodeAlloc.NewIsStep | kern/fs/inode.c:49-52 | a free inode stored anew is an empty file that owns no block, and a step of the ownership machine |
| InodeAlloc.TryTake | kern/fs/inode.c:46-56 | takes the inode if and only if no file has it, by its type on the disk |
| InodeAlloc.Alloc | kern/fs/inode.c:38-59 | takes the first free inode past 0, logs its block alone, and keeps the ownership of all files |
| InodeAlloc.ClearedIsStep | kern/fs/inode.c:203-205 | clearing the type of a truncated file is a step of the ownership machine |
| InodeAlloc.Discard | kern/fs/inode.c:198-209 | the file is gone from the disk, exactly its blocks are free again, and all other inodes and files are as before |
| DirSpec.SameNameIsEqual | kern/lib/string.c:63-72 | strncmp on a name field is equality of names cut to 14 bytes |
| DirSpec.EncodeReadsBack | kern/fs/dir.c:80-83 | an entry reads back its name, cut, and the low 16 bits of its inode number |
| DirSpec.FindIsLookup | kern/fs/dir.c:28-49 | the scan over entries is lookup in the map the bytes stand for |
| DirSpec.LinkAdds | kern/fs/dir.c:71-84 | for every inode number, linking adds exactly the new name with 16 bits of it, or nothing if they are zero, in a reused entry or at the end |
| DirSpec.LinkExact | kern/fs/dir.c:53-88 | linking adds the name with the whole number if and only if it fits 16 bits |
| DirSpec.LostLink | kern/fs/dir.c:80-84 | linking inode 65536 succeeds and adds nothing |
| DirSpec.UnlinkRemoves | kern/fs/sysfile.c:328-330 | clearing an entry removes exactly its name |
| DirSpec.ReuseBeforeGrowth | kern/fs/dir.c:70-79 | a directory grows if and only if no entry is free |
| DirSpec.RunRefines | kern/fs/dir.c:15-88 | over any run of links and unlinks of any inode numbers the bytes stand for the map of 16-bit numbers |
| DirSpec.FromEmpty | kern/fs/dir.c:15-88 | from an empty directory, any run of links and unlinks leads to bytes that stand for the map |
| DirSpec.RunExact | kern/fs/dir.c:53-88 | every operation of a run does what it is meant to if and only if every number stored fits 16 bits |
| Dir.Lookup | kern/fs/dir.c:19-51 | reads entries through inode_read until the first with the name; nothing changes and its read panic cannot happen |
| Dir.ScanFree | kern/fs/dir.c:70-79 | the first free entry, or the end |
| Dir.Link | kern/fs/dir.c:54-88 | performs the linking step on the directory's bytes, or refuses exactly a name that exists, without needing room; other files stay |
| Dir.ClearEntry | kern/fs/sysfile.c:328-330 | performs the unlinking step at the entry lookup found; other files stay |
| Dir.Remove | kern/fs/sysfile.c:317-330 | lookup and clearing together perform the unlinking step, and deliver the number the entry held |
| Path.SkipElement | kern/fs/path.c:37-54 | three scans take off the first component and deliver its first 13 bytes, or all if it is shorter; the rest has the other components |
| Path.SkipElemTakesOne | kern/fs/path.c:20-36 | the name is the first component, or its first 13 bytes if it is longer; the rest is shorter, has no leading slash and has the other components; nothing is returned exactly if no component is left |
| Path.WalkIsComponents | kern/fs/path.c:37-54 | iterating it yields exactly the non-empty parts between slashes, each whole up to 13 bytes and else its first 13 |
| Path.WalkGivesNames | kern/fs/path.c:37-54 | every element delivered is a non-empty name without slashes that a directory can hold whole |
| InodeCaching.EntryHoldsAll | kern/fs/inode.c:84-120 | no inode has two entries, so an entry's count is the inode's |
| InodeCaching.FullCache | kern/fs/inode.c:105-107 | a cache without an empty entry holds as many different inodes as it has entries |
| InodeCaching.InodeCache.Get | kern/fs/inode.c:89-120 | exactly one more reference to that inode, never a second entry for it |
| InodeCaching.InodeCache.Dup | kern/fs/inode.c:126-133 | exactly one more reference |
| InodeCaching.InodeCache.Lock | kern/fs/inode.c:139-169 | the entry is locked and mirrors the disk inode; references stay |
| InodeCaching.InodeCache.Unlock | kern/fs/inode.c:174-184 | only the lock flag changes |
| InodeCaching.InodeCache.Put | kern/fs/inode.c:193-212 | one reference less; the inode leaves the disk exactly if that was the last one and nothing links to it |
| Namei.AnswerStep | kern/fs/path.c:77-97 | one turn of the loop against the fold over names, for the inode and for its parent |
| Namei.PutFreesNothing | kern/fs/path.c:80-101 | giving back the walk's reference never frees an inode that is linked or was referenced before |
| Namei.Namex | kern/fs/path.c:62-103 | equals following the components, each whole up to 13 bytes and else its first 13, through the directory maps, for all paths, and fails exactly where that fails; no inode stays locked, references change by one for the result only, the tree is unchanged |
| DiskTree.OpenNode | kern/fs/inode.c:154-166 | an open inode is the node that the disk's tree has for it: kind, bytes and link count |
| DiskTree.FileStepTree | kern/fs/inode.c:346-379 | writing or truncating a file changes its own node of the disk's tree only |
| DiskTree.InodeStepTree | kern/fs/inode.c:38-61 | allocating an inode adds an empty node, freeing one removes its node, and no other node changes |
| DiskTree.MeansAfter | kern/fs/dir.c:15-88 | an operation on one directory's bytes is that operation on its map, and no other map changes |
| DiskTree.LookupName | kern/fs/dir.c:19-51 | dir_lookup on blocks answers what the directory's map says, and changes nothing |
| DiskTree.LinkName | kern/fs/dir.c:54-88 | dir_link on blocks changes the directory's map by that link, refuses exactly a name it has, and changes no other map and no other file |
| DiskTree.UnlinkName | kern/fs/sysfile.c:317-330 | the clearing of unlink on blocks takes exactly that name out of the directory's map and delivers its inode |
| Links.UnlinkFinds | kern/fs/sysfile.c:317-323 | a name that is not a dot lies in a directory that has not been removed and names a linked inode, so "nlink < 1" cannot happen |
| Links.AddKeeps | kern/fs/sysfile.c:217-274 | a new entry for a file raises its count and nothing else |
| Links.MkdirKeeps | kern/fs/sysfile.c:378-395 | a new directory and its ".." are counted, its "." is not |
| Links.UnlinkFileKeeps | kern/fs/sysfile.c:328-339 | removing an entry for a file lowers its count and nothing else |
| Links.UnlinkDirKeeps | kern/fs/sysfile.c:324-339 | an empty directory has exactly one link, so removing its entry removes it; its parent keeps a link |
| Links.FreeKeeps | kern/fs/inode.c:193-212 | freeing an inode without links leaves no entry that names it |
| Links.StepExact | kern/fs/sysfile.c:217-398 | an operation keeps every count equal to the number of entries if and only if it makes no entry in a removed directory |
| Links.RunExact | kern/fs/sysfile.c:217-398 | over every run the counts are right throughout if and only if no entry is made in a removed directory |
| Links.StepNames | kern/fs/sysfile.c:217-398 | after an operation a new name leads to its inode, a removed one nowhere, a freed inode is free again, and every other name leads where it led |
| Links.FreshOk | kern/fs/mkfs.c:119-130 | mkfs's root directory starts the invariant off |
| Links.ZeroExact | kern/fs/inode.c:186-192 | a count is zero, so that the last inode_put frees the inode, if and only if no directory names it |
| Links.Orphan | kern/fs/sysfile.c:355-398 | mkdir, rmdir and a create in the removed directory leave a file of count 1 that nothing names |
| Links.LookupMayWalk | kern/fs/path.c:62-103 | while no removed directory is around, the link invariant gives all that Namei.Namex relies on |
| ThreadQueue.AppendLinks | kern/thread/PTQueueInit/PTQueueInit.c:39-49 | the stores of an enqueue link the list with the thread appended |
| ThreadQueue.CutLinks | kern/thread/PTQueueInit/PTQueueInit.c:93-112 | the stores of a removal link the list without that member, in all four cases; prev and next are never equal there |
| ThreadQueue.CutTable | kern/thread/PTQueueInit/PTQueueInit.c:86-113 | removing from one queue leaves every other queue linked and all queues disjoint |
| ThreadQueue.Queues.constructor | kern/thread/PTQueueInit/PTQueueInit.c:9-25 | all queues are empty |
| ThreadQueue.Queues.Enqueue | kern/thread/PTQueueInit/PTQueueInit.c:33-50 | appends at the tail; other queues keep their lists |
| ThreadQueue.Queues.Dequeue | kern/thread/PTQueueInit/PTQueueInit.c:57-80 | takes the head, or NUM_IDS from an empty queue |
| ThreadQueue.Queues.Remove | kern/thread/PTQueueInit/PTQueueInit.c:86-113 | cuts the member out wherever it is |
| SchedSpec.StepKeeps | kern/thread/PThread/PThread.c:28-191 | exactly one thread runs, the ready queue holds exactly the READY threads once each, sleepers are in no queue |
| SchedSpec.WakeKeeps | kern/thread/PThread/PThread.c:177-191 | a wakeup makes exactly the sleepers of the channel ready and moves nobody else |
| SchedSpec.SleepFiles | kern/thread/PThread/PThread.c:129-159 | thread_sleep files the running thread under its channel and runs the head of the queue; nobody else changes |
| SchedSpec.WakeQueues | kern/thread/PThread/PThread.c:177-191 | thread_wakeup queues exactly the sleepers of its channel, behind the queued ones and in thread order |
| SchedSpec.SleeperKept | kern/thread/PThread/PThread.c:129-191 | a sleeper stays asleep through every step but a wakeup of its channel |
| SchedSpec.SleepsUntilWoken | kern/thread/PThread/PThread.c:129-191 | over every run a thread sleeps until the first wakeup of its channel, which queues it |
| SchedSpec.Enqueues | kern/thread/PThread/PThread.c:33-79 | a new or yielding thread goes to the end of the queue, or back on the processor if it is alone |
| SchedSpec.StepMovesUp | kern/thread/PThread/PThread.c:57-164 | a queued thread moves up one place per dequeue and is never overtaken |
| SchedSpec.RunsInTurn | kern/thread/PThread/PThread.c:57-164 | over every run, a thread with k before it runs at the dequeue after k others |
| SchedSpec.NeverStuck | kern/init/init.c:26-32 | with one thread that only yields, no thread_sleep ever finds the ready queue empty |
| Scheduler.Scheduler.constructor | kern/init/init.c:64-74 | boot queues the created processes, cuts the first out again and leaves it running with the others queued in order |
| Scheduler.Scheduler.Spawn | kern/thread/PThread/PThread.c:33-46 | the linked queues perform the spawn step |
| Scheduler.Scheduler.Yield | kern/thread/PThread/PThread.c:57-79 | the linked queues perform the yield step |
| Scheduler.Scheduler.SleepOn | kern/thread/PThread/PThread.c:129-164 | the linked queues perform the sleep step: the thread is asleep on its channel and the head of the queue runs |
| Scheduler.Scheduler.Wakeup | kern/thread/PThread/PThread.c:177-191 | the scan over threads performs the wakeup step: every sleeper of the channel is ready and queued |
| SleepLock.StepKeeps | kern/fs/log.c:124-149 | every lock-level step of any process, holding any flags, keeps lock ownership, flag ownership and the sleepers' invariant |
| SleepLock.StepEffect | kern/fs/log.c:124-149 | a flag is taken only when clear and then has its one owner, a released flag is clear and its owner has it no longer, who finds it set goes to sleep on it, a wakeup moves exactly its sleepers, and nothing else changes hands |
| SleepLock.TakesClearFlag | kern/fs/log.c:126-131 | a process at a clear flag can take it |
| SleepLock.ReleasesOwnFlag | kern/fs/log.c:144-148 | a process outside that has a flag can go and release it once its spinlock is free |
| SleepLock.OperationEnds | kern/thread/PThread/PThread.c:129-191 | each own step of a process inside an operation brings it nearer to being outside or asleep, at most five steps away |
| SleepLock.StepExists | kern/thread/PThread/PThread.c:129-191 | a process can take a step if and only if it is not asleep and the lock it wants next is free |
| SleepLock.NoDeadlock | kern/thread/PThread/PThread.c:129-191 | in every state of every run, while some process is not asleep some process can take a step |
| SleepLock.SleeperWaits | kern/thread/PThread/PThread.c:129-191 | a sleeper waits for a flag that a process has, or is about to be woken; if all sleep, each waits for a flag that a sleeper has |
| SleepLock.GivenBack | kern/fs/log.c:135-149 | after taking a flag a process has it, and on its way out after releasing it, it does not |
| SleepLock.RunKeeps | kern/thread/PThread/PThread.c:129-191 | the invariant holds in every state of every run |
| SleepLock.MutualExclusion | kern/fs/log.c:124-149 | in every state a flag that a process has taken and not cleared is set and nobody else has it |
| SleepLock.NoLostWakeup | kern/thread/PThread/PThread.c:129-191 | with a flag clear and its spinlock free, nobody sleeps or is about to sleep on it |
| SleepLock.BusyHasOwner | kern/fs/inode.c:148-152 | a set flag always has an owner |
| WaitSpec.AddKeeps | kern/sync/waitobj.c:106-113 | pushing a source keeps the lists a partition of the attached sources |
| WaitSpec.DeliverKeeps | kern/sync/waitobj.c:182-190 | a delivery strands no waiter and counts at most once per notification |
| WaitSpec.SleepKeeps | kern/sync/waitobj.c:182-199 | going to sleep after a scan without a ready source leaves no thread asleep on a ready one |
| WaitSpec.ListsDisjoint | kern/sync/waitobj.c:106-113 | two objects never share a source |
| WaitSpec.NotifyEffect | kern/sync/waitobj.c:222-245 | a notified source is ready, no other source changes, and exactly the threads asleep on its object wake |
| WaitSpec.KeyExact | kern/sync/waitobj.c:273-287 | console input makes every attached keyboard source ready, changes no other and wakes exactly the threads whose object has one |
| WaitSpec.TickWakes | kern/sync/waitobj.c:247-271 | a tick wakes exactly the threads whose object has a due timer |
| WaitSpec.DeliverEffect | kern/sync/waitobj.c:182-190 | a delivery takes its own event and loses no other pending one but the object's timers' |
| WaitSpec.PendingDelivers | kern/sync/waitobj.c:149-190 | while a source is ready nobody sleeps on its object and a wait on it delivers |
| WaitSpec.SignalNotLost | kern/sync/waitobj.c:203-227 | over every run after a signal its event stays pending until it is the one delivered |
| WaitSpec.TickExact | kern/sync/waitobj.c:247-271 | a tick makes ready exactly the timers due on it if and only if it does not wrap under a timer |
| WaitSpec.AddExact | kern/sync/waitobj.c:114-121 | a new timer is due one full period from now if and only if the sum does not wrap |
| WaitSpec.EarlyTimer | kern/sync/waitobj.c:114-121 | a timer whose sum wraps is notified on the very next tick |
| WaitSpec.DeliverExact | kern/sync/waitobj.c:129-147 | a delivery restarts every timer of the object a full period from now, exactly if none of the sums wraps |
| WaitSpec.RunKeeps | kern/sync/waitobj.c:163-287 | over every run: no stranded waiter, lists partition sources, no delivery without a notification |
| WaitSpec.RunExact | kern/sync/waitobj.c:247-271 | over every run timers are ready exactly from their tick on, throughout, if and only if no step wraps |
| WaitObj.WaitTable.constructor | kern/sync/waitobj.c:25-47 | nothing is attached and nobody sleeps |
| WaitObj.WaitTable.AllocSource | kern/sync/waitobj.c:49-59 | the first free source, or none is free |
| WaitObj.WaitTable.Create | kern/sync/waitobj.c:71-89 | takes an unused object for the caller with an empty list, or fails exactly if all are in use |
| WaitObj.WaitTable.Add | kern/sync/waitobj.c:91-127 | puts a source of the given type and period, not ready, at the head of the object's list and changes no other, or nothing exactly for a bad handle, a wrong owner or an empty pool |
| WaitObj.WaitTable.EventNotify | kern/sync/waitobj.c:222-245 | the source is ready, no other source changes, and exactly its object's sleepers are awake; nothing happens to a source that is not attached |
| WaitObj.WaitTable.Signal | kern/sync/waitobj.c:203-220 | makes exactly the owner's attached software source ready and wakes exactly its object's sleepers, or changes nothing |
| WaitObj.WaitTable.OnTimerIrq | kern/sync/waitobj.c:247-271 | performs the tick step, with its 32-bit wrap |
| WaitObj.WaitTable.ConsoleNotify | kern/sync/waitobj.c:273-287 | notifies every attached keyboard source that is not ready |
| WaitObj.WaitTable.FirstReadySource | kern/sync/waitobj.c:149-161 | walking the links finds the first ready source of the list, if any |
| WaitObj.WaitTable.RescheduleTimers | kern/sync/waitobj.c:134-147 | walking the links restarts exactly this object's timers |
| WaitObj.WaitTable.WaitEnter | kern/sync/waitobj.c:173-178 | rejects exactly unknown handles and foreign owners, and fixes the deadline, wrapped where the sum wraps |
| WaitObj.WaitTable.WaitPass | kern/sync/waitobj.c:180-200 | each pass is one delivery, or with no source ready one timeout, exactly if the deadline has come, or one sleep step |
| PageAlloc.NextFitUnique | kern/pmm/MATOp/MATOp.c:23-59 | the result is determined by the table and the last position |
| PageAlloc.TwoFailures | kern/pmm/MATOp/MATOp.c:23-59 | two failures in a row happen if and only if no usable page exists |
| PageAlloc.OneFailureIsNotFull | kern/pmm/MATOp/MATOp.c:23-59 | on any table with one usable page ahead, taking it, freeing it and asking again fails although it is usable |
| PageAlloc.NextAbove | kern/pmm/MATOp/MATOp.c:23-59 | after p was handed out and any pages freed, the next page handed out is the first usable one above p |
| PageAlloc.HeldUntilFreed | kern/pmm/MATOp/MATOp.c:62-76 | over every run a page that nobody frees stays taken and is not handed out |
| PageAlloc.NoDoubleAlloc | kern/pmm/MATOp/MATOp.c:9-76 | a page handed out twice was freed in between, and every page handed out is normal |
| PageAlloc.PageTable.Palloc | kern/pmm/MATOp/MATOp.c:23-59 | takes the first usable page above the last one, or returns 0 and starts over |
| PageAlloc.PageTable.Pfree | kern/pmm/MATOp/MATOp.c:70-76 | exactly that page is untaken |
| PageAlloc.PageTable.CountUsable | kern/pmm/MContainer/MContainer.c:33-41 | counts the usable pages above page 0 |
| Container.SplitIndexIsFree | kern/pmm/MContainer/MContainer.c:94-114 | the computed child index is in range and was never used |
| Container.SplitKeeps | kern/pmm/MContainer/MContainer.c:94-114 | a split whose quota fits keeps the tree, every container's books and the total |
| Container.SplitExact | kern/trap/TSyscall/TSyscall.c:161-177 | a split that passes sys_spawn's checks keeps the books if and only if its unsigned sum does not wrap |
| Container.CheckExact | kern/trap/TSyscall/TSyscall.c:161-177 | for a sum that does not wrap, the checks pass if and only if the quota covers it, there are fewer than three children and the child ids are in range |
| Container.SplitEffect | kern/pmm/MContainer/MContainer.c:94-114 | such a split charges the parent n for one new child of quota n, at 3 * id + 1 + the number of children, and changes nothing else |
| Container.WrappingSplit | kern/pmm/MContainer/MContainer.c:80-86 | from the state after boot (kern/init/init.c), a split by process 2 wraps, passes the checks and gives a child of quota -1 |
| Container.AllocKeeps | kern/pmm/MContainer/MContainer.c:122-132 | so does an allocation, also when palloc fails |
| Container.FreeKeeps | kern/pmm/MContainer/MContainer.c:135-142 | so does freeing a held page, and usage never goes below zero |
| Container.FreeExact | kern/pmm/MContainer/MContainer.c:135-142 | freeing an allocated page keeps the books right if and only if the freeing container holds it |
| Container.FreeOfAnothersPage | kern/pmm/MContainer/MContainer.c:135-142 | from the state after boot (kern/init/init.c), process 1 frees a page of process 2 and the books go wrong |
| Container.StepExact | kern/pmm/MContainer/MContainer.c:80-142 | a step the code allows keeps books and page table in agreement if and only if it neither wraps nor frees another's page |
| Container.RunExact | kern/pmm/MContainer/MContainer.c:80-142 | over every run the code allows, the books are right throughout if and only if every step is so |
| Container.WithinQuota | kern/pmm/MContainer/MContainer.c:80-142 | pages held plus children's quotas are at most usage, and usage at most quota |
| Container.TotalWithinRoot | kern/pmm/MContainer/MContainer.c:80-142 | all containers together hold at most the root's quota |
| Container.CanConsumeExact | kern/pmm/MContainer/MContainer.c:80-86 | the unsigned check is right if and only if the sum does not wrap back to within the quota |
| Container.RunWithinQuota | kern/pmm/MContainer/MContainer.c:80-142 | then every container is within its quota and all of them within the root's at the end of the run |
| Container.ContainerTable.constructor | kern/pmm/MContainer/MContainer.c:20-49 | the root's quota is the number of usable pages |
| Container.ContainerTable.Spawn | kern/trap/TSyscall/TSyscall.c:161-177 | refuses exactly where sys_spawn's checks do, else splits into an unused index, and the books stay right if and only if the sum does not wrap |
| Container.ContainerTable.Alloc | kern/pmm/MContainer/MContainer.c:122-132 | nothing at a full quota, else the next-fit page charged to the container |
| Container.ContainerTable.Free | kern/pmm/MContainer/MContainer.c:135-142 | for any page: a free one changes nothing, and the books stay right if and only if an allocated one is the container's own |

## Left out

- Devices, boot, traps, paging and ELF loading: hardware and tables that the properties here do not need.
- Disk errors and torn sector writes: `ide_rw` always succeeds and one sector write is atomic.
- Concurrency inside data operations: buffer, inode and log methods are single sections that find nothing locked; waiting is the subject of `SleepLock`.
- Devices other than the root disk: cache and log carry one device number.
- The file table (file_alloc, file_dup, file_close, file_read), pipes and device files: they would add easy members.
- System calls other than create, sys_link, sys_unlink (their effect on names and counts) and the checks of sys_spawn; sys_spawn's read of an unset process id is not modelled.
- Process exit, kill and synchronous message passing.
- BufCache.Cache.Get: one pass; a busy buffer is reported instead of slept on.
- BufCache.Cache.Read: for a caller that need not sleep, since nobody holds the sector.
- RedoLog.Log.BeginTrans: for a caller that finds no transaction open; waiting for one is in SleepLock.
- RedoLog.Log.LogWrite: the two panics (too big a transaction, no buffers) are preconditions; Files.ChunkFitsTransaction and Transaction.Fits show when they hold.
- Moves.MovedExact: says nothing of a move to a place whose header sector does not hold an empty log; what a boot replays there is whatever the sector holds.
- Transaction.Run: its rule for moves is that of Moves.MovedExact.
- LogSpec.CrashInRecovery: the log start is fixed here; Boot.BootExact is the statement over boots that find it themselves.
- BlockAlloc.Zero: counts a transaction's blocks against the eight it can log while a buffer is held, not against the nine it could log otherwise.
- BlockAlloc.Alloc: asks for a free data block, which by BlockAlloc.ChoiceOutsideLog is exactly when its result is usable, and for room as BlockAlloc.Zero does.
- BlockAlloc.BlockFree: asks for room as BlockAlloc.Zero does.
- Inodes.Bmap: for blocks the file has and the next one; no caller maps a block further on. Asks for room as BlockAlloc.Zero does.
- InodeIO.Update: asks for room as BlockAlloc.Zero does.
- InodeIO.Write: asks for room as BlockAlloc.Zero does, and for enough free data blocks.
- InodeTrunc.Trunc: asks for room as BlockAlloc.Zero does.
- Files.Write: asks that the bitmap fits two blocks (mkfs lays out one) and that enough data blocks are free.
- InodeAlloc.Alloc: the panic when no inode is free is a precondition; the inode_get that follows is InodeCaching.InodeCache.Get. Asks for room as BlockAlloc.Zero does.
- InodeAlloc.Discard: asks for room as BlockAlloc.Zero does; when inode_put does this is InodeCaching.InodeCache.Put.
- Dir.Lookup: the reference that dir_lookup takes is the subject of Namei.Lookup.
- Dir.Link: the reference that a failing link takes and gives back is not modelled here; references are the subject of InodeCaching.
- InodeCaching.InodeCache.Lock: for an entry that is not busy; waiting for it is in SleepLock. The inode is read from the tree and not from a block.
- InodeCaching.InodeCache.Put: the freed inode leaves the tree; what that is on the disk is InodeAlloc.Discard.
- Links.StepExact: each operation is one step; that a directory's dots are its first two entries, where the emptiness check skips them, and the 16 bits of counts and entry numbers are not modelled here. The failing sys_link, which raises a count and lowers it again, is no step.
- Namei.Namex: directories are contents in a tree that does not change during the walk; dir_lookup on them is DirSpec.Find, which DiskTree.LookupName is proved to compute on blocks. It asks that no inode is locked, for two empty cache entries and that a named inode has not been freed (else the source sleeps or may panic).
- SleepLock.RunKeeps: a process holds one of the spinlocks at a time, as in the source. That every process gets its turn is not stated, and processes that take several flags in different orders can wait for each other (SleepLock.SleeperWaits).
- WaitObj.WaitTable.WaitPass: states nothing about a deadline that passes while the thread sleeps; the code looks at it only when the thread is awake.
- WaitSpec.RunKeeps: sleeping threads are a map from thread to object; waking them is the scheduler's wakeup step.
