/** The tree of inodes that the disk holds, as path lookup sees it: what the file layer and the directory
    layer do to the blocks, told of directories as maps from names to inode numbers. */
module DiskTree {
  import opened Options
  import opened Params
  import opened Blocks
  import opened Layout
  import opened Bitmap
  import opened RedoLog
  import opened FileMap
  import opened DiskInode
  import opened Inodes
  import opened InodeIO
  import opened Ownership
  import opened DirSpec
  import opened Dir
  import opened InodeCaching
  import opened Namei

  ghost function BytesOf(h: Disk, e: Entry): Bytes {
    if InRange(h, e.blk) && BlocksFor(e.size) <= |e.blk| then Contents(h, e.blk, e.size) else []
  }

  /** What the disk says of inode i. */
  ghost function NodeOf(h: Disk, e: Entry, i: nat): Node {
    if IBlock(i) < |h| then
      var d := Load(h[IBlock(i)], i % IPB);
      Node(d.typ == T_DIR, BytesOf(h, e), d.nlink)
    else Node(false, [], 0)
  }

  /** What the disk says of all inodes. */
  ghost function TreeOf(h: Disk, files: Files): Tree {
    map i | i in files :: NodeOf(h, files[i], i)
  }

  /** Each directory's bytes stand for its map. */
  ghost predicate Means(tree: Tree, names: Names) {
    && (forall d | d in names :: d in tree && tree[d].dir && Represents(tree[d].content, names[d]))
    && (forall d | d in tree && tree[d].dir :: d in names)
  }

  /** The node of an open inode. */
  lemma OpenNode(log: Log, ip: Inode, files: Files)
    requires Open(log, ip, files)
    ensures ip.inum in TreeOf(log.Home(), files)
    ensures TreeOf(log.Home(), files)[ip.inum] == Node(ip.typ == T_DIR, Listing(log, ip), ip.nlink)
  {
    hide FsOk, FileOk, Load, Contents;
  }

  lemma SameNode(h: Disk, g: Disk, e: Entry, i: nat)
    requires |g| == |h| && IBlock(i) < |h| && InRange(h, e.blk) && InRange(g, e.blk) && BlocksFor(e.size) <= |e.blk|
    requires Contents(g, e.blk, e.size) == Contents(h, e.blk, e.size)
    requires Load(g[IBlock(i)], i % IPB) == Load(h[IBlock(i)], i % IPB)
    ensures NodeOf(g, e, i) == NodeOf(h, e, i)
  {
  }

  lemma OtherInode(h: Disk, files: Files, g: Disk, i: nat, j: nat)
    requires FsOk(h, files) && OtherInodesKept(h, g, i) && j in files && j != i
    ensures IBlock(j) < |h| && Load(g[IBlock(j)], j % IPB) == Load(h[IBlock(j)], j % IPB)
    ensures BlocksFor(files[j].size) <= |files[j].blk|
  {
    hide Load, NoLeak, FileOk, Tight;
    assert EntryOk(h, files, j);
  }

  /** Writing or truncating a file changes its own node only. */
  lemma FileStepTree(h: Disk, files: Files, g: Disk, files': Files, i: nat)
    requires FsOk(h, files) && FileStep(h, files, g, files', i)
    ensures TreeOf(g, files') == TreeOf(h, files)[i := NodeOf(g, files'[i], i)]
  {
    hide FsOk, Load, Contents, Free, Others, FileOk, OwnedBy, Tight, LayoutOk, OnDisk, NodeOf;
    StepKeepsFs(h, files, g, files', i);
    forall j | j in files && j != i
      ensures NodeOf(g, files[j], j) == NodeOf(h, files[j], j)
    {
      OtherInode(h, files, g, i, j);
      SameNode(h, g, files[j], j);
    }
  }

  /** Allocating an inode adds an empty node, and freeing one removes its node. */
  lemma InodeStepTree(h: Disk, files: Files, g: Disk, files': Files, i: nat)
    requires FsOk(h, files) && InodeStep(h, files, g, files', i)
    ensures i in files ==> TreeOf(g, files') == TreeOf(h, files) - {i}
    ensures i !in files ==> TreeOf(g, files') == TreeOf(h, files)[i := NodeOf(g, NewEntry(), i)]
    ensures i !in files ==> NodeOf(g, NewEntry(), i).content == []
  {
    hide FsOk, Load, Contents, Free, Others, FileOk, OwnedBy, Tight, LayoutOk, OnDisk, NodeOf, TypeOnDisk, BitmapBlocks;
    InodeStepKeepsFs(h, files, g, files', i);
    forall j | j in files && j != i
      ensures j in files' && files'[j] == files[j] && NodeOf(g, files[j], j) == NodeOf(h, files[j], j)
    {
      OtherInode(h, files, g, i, j);
      SameNode(h, g, files[j], j);
    }
    EmptyNode(g, i);
  }

  lemma EmptyNode(g: Disk, i: nat)
    ensures NodeOf(g, NewEntry(), i).content == []
  {
    hide Load;
  }

  /** An open directory of a tree that stands for maps. */
  ghost predicate DirOpen(log: Log, dp: Inode, files: Files, names: Names)
    reads log, log.cache, dp
  {
    && Open(log, dp, files) && DirOk(log, dp, Others(files, dp.inum)) && dp.inum in names
    && Means(TreeOf(log.Home(), files), names)
  }

  /** dir_lookup, reading the blocks, finds what the map says. */
  method LookupName(log: Log, dp: Inode, name: Bytes, ghost files: Files, ghost names: Names) returns (r: Option<nat>)
    requires DirOpen(log, dp, files, names) && |log.cache.dirty| < NBUF && IsString(name)
    modifies log, log.cache, dp`addrs, dp`blk
    ensures DirOpen(log, dp, files, names) && log.Home() == old(log.Home()) && log.cache.dirty == old(log.cache.dirty)
    ensures r == if Cut(name) in names[dp.inum] then Some(names[dp.inum][Cut(name)]) else None
  {
    hide Log.Valid, Log.Home, FsOk, Good, Represents, Contents, TreeOf, Find;
    OpenNode(log, dp, files);
    FindIsLookup(Listing(log, dp), names[dp.inum], name);
    var found, k, inum := Dir.Lookup(log, dp, name, Others(files, dp.inum));
    r := if found then Some(inum) else None;
  }

  /** One inode_write of an open directory's file, seen from the tree. */
  lemma RewroteTree(log: Log, dp: Inode, h: Disk, files: Files, e: Entry)
    requires FsOk(h, files) && dp.inum in files && files[dp.inum] == e && Good(log, dp, Others(files, dp.inum))
    requires Rewrote(h, e.addrs, e.blk, e.size, log.Home(), dp.addrs, dp.blk, dp.size, dp.inum, Others(files, dp.inum))
    requires TypeOnDisk(h, dp.inum) == dp.typ
    ensures var files' := files[dp.inum := EntryOf(dp)];
            && FileStep(h, files, log.Home(), files', dp.inum) && Open(log, dp, files')
            && Others(files', dp.inum) == Others(files, dp.inum)
            && TreeOf(log.Home(), files') == TreeOf(h, files)[dp.inum := Node(dp.typ == T_DIR, Listing(log, dp), dp.nlink)]
  {
    hide FsOk, FileStep, WroteFile, Good, FileOk, Tight, OnDisk, TypeOnDisk, TreeOf, Log.Home;
    var i, others := dp.inum, Others(files, dp.inum);
    var off: nat, src: Bytes :|
      WroteFile(h, e.addrs, e.blk, e.size, log.Home(), dp.addrs, dp.blk, dp.size, off, src, i, others);
    GoodMeans(log, dp, others);
    var files' := files[i := EntryOf(dp)];
    WriteIsStep(h, files, log.Home(), EntryOf(dp), i, off, src);
    StepKeepsFs(h, files, log.Home(), files', i);
    SameOthers(files, i, EntryOf(dp));
    FileStepTree(h, files, log.Home(), files', i);
    OpenNode(log, dp, files');
    assert TreeOf(log.Home(), files')[i] == NodeOf(log.Home(), files'[i], i) by {
      assert i in TreeOf(log.Home(), files');
    }
  }

  /** The maps after an operation on directory d. */
  function Renamed(names: Names, d: nat, op: Op): Names
    requires d in names
  {
    names[d := ApplyMap(names[d], op)]
  }

  /** An operation on one directory's bytes is that operation on its map, and no other map changes. */
  lemma MeansAfter(tree: Tree, names: Names, d: nat, op: Op, node: Node)
    requires Means(tree, names) && d in names && OpOk(op) && node.dir
    requires node.content == (WholeOf(tree[d].content, names[d]); Apply(tree[d].content, op))
    ensures Means(tree[d := node], Renamed(names, d, op))
  {
    hide Represents, Apply, ApplyMap;
    StepRefines(tree[d].content, names[d], op);
  }

  /** dir_link, writing the blocks, is the operation on the directory's map; no other map changes. */
  method LinkName(log: Log, dp: Inode, name: Bytes, inum: nat, ghost files: Files, ghost names: Names) returns (r: int)
    requires DirOpen(log, dp, files, names) && IsString(name) && log.busy && |log.cache.dirty| < NBUF && inum > 0
    requires Cut(name) !in names[dp.inum] ==> EntryRoom(log, dp, FindFree(Listing(log, dp), 0))
    modifies log, log.cache, dp`size, dp`addrs, dp`blk
    ensures log.SameTx() && (r == 0 <==> Cut(name) !in names[dp.inum]) && (r == 0 || r == -1)
    ensures r == -1 ==> log.Home() == old(log.Home()) && DirOpen(log, dp, files, names)
    ensures r == 0 ==> FileStep(old(log.Home()), files, log.Home(), files[dp.inum := EntryOf(dp)], dp.inum)
    ensures r == 0 ==> DirOpen(log, dp, files[dp.inum := EntryOf(dp)], Renamed(names, dp.inum, DirSpec.Link(name, inum)))
  {
    hide Log.Valid, Log.Home, FsOk, Good, Represents, Contents, TreeOf, Find, FindFree, EntryRoom, FileStep, Rewrote,
         Apply, ApplyMap, TypeOnDisk;
    ghost var h, e, others := log.Home(), EntryOf(dp), Others(files, dp.inum);
    ghost var tree, op := TreeOf(h, files), DirSpec.Link(name, inum);
    GoodMeans(log, dp, others);
    OpenNode(log, dp, files);
    FindIsLookup(Listing(log, dp), names[dp.inum], name);
    r := Dir.Link(log, dp, name, inum, others);
    if r == 0 {
      RewroteTree(log, dp, h, files, e);
      MeansAfter(tree, names, dp.inum, op, Node(true, Listing(log, dp), dp.nlink));
    }
  }

  /** The entry-clearing of unlink, writing the blocks, removes the name from the directory's map. */
  method UnlinkName(log: Log, dp: Inode, name: Bytes, ghost files: Files, ghost names: Names) returns (r: Option<nat>)
    requires DirOpen(log, dp, files, names) && IsString(name) && log.busy && |log.cache.dirty| < NBUF
    requires Cut(name) in names[dp.inum] ==> EntryRoom(log, dp, Find(Listing(log, dp), name, 0))
    modifies log, log.cache, dp`size, dp`addrs, dp`blk
    ensures log.SameTx()
    ensures r == if Cut(name) in names[dp.inum] then Some(names[dp.inum][Cut(name)]) else None
    ensures r.None? ==> log.Home() == old(log.Home()) && DirOpen(log, dp, files, names)
    ensures r.Some? ==> FileStep(old(log.Home()), files, log.Home(), files[dp.inum := EntryOf(dp)], dp.inum)
    ensures r.Some? ==> DirOpen(log, dp, files[dp.inum := EntryOf(dp)], Renamed(names, dp.inum, Unlink(name)))
  {
    hide Log.Valid, Log.Home, FsOk, Good, Represents, Contents, TreeOf, Find, EntryRoom, FileStep, Rewrote,
         Apply, ApplyMap, TypeOnDisk;
    ghost var h, e, others := log.Home(), EntryOf(dp), Others(files, dp.inum);
    ghost var tree := TreeOf(h, files);
    GoodMeans(log, dp, others);
    OpenNode(log, dp, files);
    FindIsLookup(Listing(log, dp), names[dp.inum], name);
    var found, inum := Dir.Remove(log, dp, name, others);
    if !found {
      return None;
    }
    RewroteTree(log, dp, h, files, e);
    MeansAfter(tree, names, dp.inum, Unlink(name), Node(true, Listing(log, dp), dp.nlink));
    return Some(inum);
  }
}
