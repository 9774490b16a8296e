/** Looking up a path: namex of kern/fs/path.c. */
module Namei {
  import opened Options
  import opened Params
  import opened DirSpec
  import opened Path
  import opened InodeCaching

  /** The directories of the tree as maps from names to inode numbers. */
  type Names = map<nat, NameMap>

  /** The inode exists, and no walk that holds one reference more than s can free it by giving it back. */
  ghost predicate Stays(tree: Tree, s: seq<Cached>, n: nat) {
    n in tree && (tree[n].nlink > 0 || Refs(s, n) > 0)
  }

  /** Each directory's content stands for its map, and an inode that is named, or the root, is linked or
      referenced: a removed directory may still name itself while it is someone's current directory. */
  ghost predicate Consistent(tree: Tree, names: Names, s: seq<Cached>) {
    && Stays(tree, s, ROOTINO)
    && (forall d | d in names :: d in tree && tree[d].dir && Represents(tree[d].content, names[d]))
    && (forall d | d in tree && tree[d].dir :: d in names)
    && (forall d, n | d in names && n in names[d] :: Stays(tree, s, names[d][n]))
  }

  /** Following names, one directory after the other. */
  function Resolve(names: Names, ip: nat, path: seq<Bytes>): Option<nat>
    decreases |path|
  {
    if path == [] then Some(ip)
    else if ip in names && path[0] in names[ip] then Resolve(names, names[ip][path[0]], path[1..])
    else None
  }

  /** What namex is to return: the inode at the end of the path, or, for the parent, the directory that
      all names but the last lead to. */
  function Answer(names: Names, ip: nat, path: seq<Bytes>, parent: bool): Option<nat> {
    if !parent then Resolve(names, ip, path)
    else if path == [] then None
    else
      var d := Resolve(names, ip, path[..|path| - 1]);
      if d.Some? && d.value in names then d else None
  }

  /** One turn of the loop. */
  lemma AnswerStep(names: Names, ip: nat, path: seq<Bytes>, parent: bool)
    requires path != []
    ensures ip !in names ==> Answer(names, ip, path, parent) == None
    ensures ip in names && parent && path[1..] == [] ==> Answer(names, ip, path, parent) == Some(ip)
    ensures ip in names && !(parent && path[1..] == []) ==>
              Answer(names, ip, path, parent) ==
              if path[0] in names[ip] then Answer(names, names[ip][path[0]], path[1..], parent) else None
  {
    if parent {
      var most := path[..|path| - 1];
      if path[1..] != [] {
        assert most[1..] == path[1..][..|path[1..]| - 1] && most[0] == path[0];
      }
    }
  }

  /** A name of a path is short enough for a directory to hold it whole. */
  lemma NextName(path: Bytes)
    requires SkipElem(path).Elem?
    ensures var e := SkipElem(path);
            && |e.rest| < |path| && Walk(path) == [e.name] + Walk(e.rest)
            && (e.rest == [] <==> Walk(e.rest) == []) && DirSpec.Cut(e.name) == e.name
  {
    SkipElemTakesOne(path);
    var rest := SkipElem(path).rest;
    SkipElemTakesOne(rest);
    if rest != [] {
      assert Slashes(rest) == 0;
    }
  }

  ghost predicate Unlocked(s: seq<Cached>) {
    forall i | 0 <= i < |s| && s[i].ref > 0 :: !s[i].busy
  }

  /** s holds the references of before, and one more to inode n. */
  ghost predicate OneMore(before: seq<Cached>, s: seq<Cached>, n: nat) {
    forall m :: Refs(s, m) == Refs(before, m) + if m == n then 1 else 0
  }

  ghost predicate SameRefs(before: seq<Cached>, s: seq<Cached>) {
    forall m :: Refs(s, m) == Refs(before, m)
  }

  lemma RoomForOneMore(before: seq<Cached>, s: seq<Cached>, n: nat)
    requires OneMore(before, s, n)
    ensures |InUse(s)| <= |InUse(before)| + 1
  {
    forall m ensures m in InUse(s) <==> m in InUse(before) + {n} {
      InUseIffReferenced(s, m);
      InUseIffReferenced(before, m);
    }
    assert InUse(s) == InUse(before) + {n};
  }

  /** The entry of a walk: it holds one reference more than before, to an inode that is linked or was
      referenced before. */
  ghost predicate At(before: seq<Cached>, s: seq<Cached>, tree: Tree, ip: nat) {
    && CacheOk(s, tree) && ip < NINODE && s[ip].ref > 0 && OneMore(before, s, s[ip].inum)
    && Stays(tree, before, s[ip].inum)
  }

  /** Only entry k is locked. */
  ghost predicate OnlyLocked(s: seq<Cached>, k: nat) {
    forall i | 0 <= i < |s| && s[i].ref > 0 :: s[i].busy <==> i == k
  }

  /** Giving the walk's reference back does not free the inode. */
  lemma PutFreesNothing(before: seq<Cached>, s: seq<Cached>, tree: Tree, ip: nat)
    requires CacheOk(s, tree) && ip < NINODE && s[ip].ref > 0 && Stays(tree, before, s[ip].inum)
    requires Refs(s, s[ip].inum) > Refs(before, s[ip].inum)
    ensures !(s[ip].ref == 1 && s[ip].valid && s[ip].nlink == 0)
  {
    EntryHoldsAll(s, ip);
  }

  /** dir_lookup in the locked directory: the named inode, referenced, or nothing. */
  method Lookup(c: InodeCache, dp: nat, name: Bytes, ghost before: seq<Cached>, ghost names: Names)
    returns (r: Option<nat>)
    requires c.Valid() && Consistent(c.tree, names, before) && dp < NINODE && c.slots[dp].inum in names
    requires |InUse(c.slots)| < NINODE && DirSpec.Cut(name) == name && OnlyLocked(c.slots, dp)
    requires c.slots[dp].ref > 0
    modifies c`slots
    ensures c.Valid() && OnlyLocked(c.slots, dp) && c.slots[dp] == old(c.slots[dp]).(ref := c.slots[dp].ref)
    ensures c.slots[dp].ref >= old(c.slots[dp]).ref
    ensures r.Some? <==> name in names[c.slots[dp].inum]
    ensures r.None? ==> c.slots == old(c.slots)
    ensures r.Some? ==>
              && r.value < NINODE && c.slots[r.value].ref > 0
              && c.slots[r.value].inum == names[c.slots[dp].inum][name]
              && OneMore(old(c.slots), c.slots, c.slots[r.value].inum)
              && (r.value == dp ==> c.slots[dp].ref > 1)
  {
    hide Represents, Find, Slots;
    var content := c.tree[c.slots[dp].inum].content;
    FindIsLookup(content, names[c.slots[dp].inum], name);
    var e := Find(content, name, 0);
    if e == Slots(content) {
      return None;
    }
    var k := c.Get(EntryInum(Slot(content, e)));
    return Some(k);
  }

  /** inode_unlockput of the walk's entry, when the walk ends there. */
  method GiveUp(c: InodeCache, ip: nat, ghost before: seq<Cached>)
    requires At(before, c.slots, c.tree, ip) && OnlyLocked(c.slots, ip)
    modifies c
    ensures c.Valid() && Unlocked(c.slots) && c.tree == old(c.tree) && SameRefs(before, c.slots)
  {
    UnlockAt(c, ip, before);
    PutAt(c, ip, before);
  }

  lemma NamedStays(tree: Tree, names: Names, s: seq<Cached>, d: nat, name: Bytes)
    requires Consistent(tree, names, s) && d in names && name in names[d]
    ensures Stays(tree, s, names[d][name])
  {
  }

  /** s holds the references of before, and one more each to inodes a and b. */
  ghost predicate TwoMore(before: seq<Cached>, s: seq<Cached>, a: nat, b: nat) {
    forall m :: Refs(s, m) == Refs(before, m) + (if m == a then 1 else 0) + (if m == b then 1 else 0)
  }

  /** inode_unlockput of directory ip, when the walk goes on at entry k. */
  method MoveOn(c: InodeCache, ip: nat, k: nat, ghost before: seq<Cached>)
    requires c.Valid() && OnlyLocked(c.slots, ip) && ip < NINODE && k < NINODE
    requires c.slots[ip].ref > 0 && c.slots[k].ref > 0 && (k == ip ==> c.slots[k].ref > 1)
    requires TwoMore(before, c.slots, c.slots[ip].inum, c.slots[k].inum)
    requires Stays(c.tree, before, c.slots[ip].inum) && Stays(c.tree, before, c.slots[k].inum)
    modifies c
    ensures At(before, c.slots, c.tree, k) && Unlocked(c.slots) && c.tree == old(c.tree)
    ensures c.slots[k].inum == old(c.slots[k]).inum
  {
    c.Unlock(ip);
    PutFreesNothing(before, c.slots, c.tree, ip);
    c.Put(ip);
  }

  /** From the locked directory ip to the inode it names, giving ip back. */
  method Descend(c: InodeCache, ip: nat, name: Bytes, ghost before: seq<Cached>, ghost names: Names)
    returns (r: Option<nat>)
    requires At(before, c.slots, c.tree, ip) && OnlyLocked(c.slots, ip) && Consistent(c.tree, names, before)
    requires c.slots[ip].inum in names && |InUse(before)| + 2 <= NINODE && DirSpec.Cut(name) == name
    modifies c
    ensures c.Valid() && Unlocked(c.slots) && c.tree == old(c.tree)
    ensures var d := old(c.slots[ip]).inum;
            match r
            case None => name !in names[d] && SameRefs(before, c.slots)
            case Some(k) =>
              name in names[d] && At(before, c.slots, c.tree, k) && c.slots[k].inum == names[d][name]
  {
    hide Consistent, Stays, Unique, Mirrors, OnlyLocked, InUse;
    RoomForOneMore(before, c.slots, c.slots[ip].inum);
    r := Lookup(c, ip, name, before, names);
    if r == None {
      GiveUp(c, ip, before);
      return;
    }
    NamedStays(c.tree, names, before, c.slots[ip].inum, name);
    MoveOn(c, ip, r.value, before);
  }

  /** Where a walk starts: the root, or the current directory, which its process refers to. */
  method Start(c: InodeCache, absolute: bool, cwd: nat, ghost names: Names) returns (ip: nat)
    requires c.Valid() && Unlocked(c.slots) && Consistent(c.tree, names, c.slots)
    requires cwd < NINODE && c.slots[cwd].ref > 0 && c.slots[cwd].inum in c.tree
    requires |InUse(c.slots)| < NINODE
    modifies c`slots
    ensures At(old(c.slots), c.slots, c.tree, ip) && Unlocked(c.slots)
    ensures c.slots[ip].inum == if absolute then ROOTINO else old(c.slots[cwd]).inum
  {
    hide Represents;
    if absolute {
      ip := c.Get(ROOTINO);
    } else {
      InUseIffReferenced(c.slots, c.slots[cwd].inum);
      c.Dup(cwd);
      ip := cwd;
    }
  }

  /** Locks the walk's entry, which tells whether it is a directory. */
  method LockAt(c: InodeCache, ip: nat, ghost before: seq<Cached>, ghost names: Names)
    requires At(before, c.slots, c.tree, ip) && Unlocked(c.slots) && Consistent(c.tree, names, before)
    modifies c`slots
    ensures At(before, c.slots, c.tree, ip) && OnlyLocked(c.slots, ip)
    ensures c.slots[ip].inum == old(c.slots[ip]).inum && (c.slots[ip].dir <==> c.slots[ip].inum in names)
  {
    hide Represents;
    c.Lock(ip);
  }

  method UnlockAt(c: InodeCache, ip: nat, ghost before: seq<Cached>)
    requires At(before, c.slots, c.tree, ip) && OnlyLocked(c.slots, ip)
    modifies c`slots
    ensures At(before, c.slots, c.tree, ip) && Unlocked(c.slots) && c.slots[ip].inum == old(c.slots[ip]).inum
  {
    c.Unlock(ip);
  }

  /** inode_put of the unlocked entry, when the walk ends there. */
  method PutAt(c: InodeCache, ip: nat, ghost before: seq<Cached>)
    requires At(before, c.slots, c.tree, ip) && Unlocked(c.slots)
    modifies c
    ensures c.Valid() && Unlocked(c.slots) && c.tree == old(c.tree) && SameRefs(before, c.slots)
  {
    PutFreesNothing(before, c.slots, c.tree, ip);
    c.Put(ip);
  }

  /** namex. cwd is the entry of the current directory, which its process holds a reference to. */
  method Namex(c: InodeCache, path: Bytes, parent: bool, cwd: nat, ghost names: Names)
    returns (r: Option<nat>, name: Bytes)
    requires c.Valid() && Unlocked(c.slots) && Consistent(c.tree, names, c.slots)
    requires cwd < NINODE && c.slots[cwd].ref > 0 && c.slots[cwd].inum in c.tree
    requires |InUse(c.slots)| + 2 <= NINODE
    modifies c
    ensures c.Valid() && Unlocked(c.slots) && c.tree == old(c.tree)
    ensures var start := if path != [] && path[0] == SLASH then ROOTINO else old(c.slots[cwd]).inum;
            var parts := Components(path, []);
            var steps := ClipAll(parts);
            var answer := Answer(names, start, steps, parent);
            && |steps| == |parts|
            && (forall i | 0 <= i < |parts| ::
                  steps[i] <= parts[i] && |steps[i]| == if |parts[i]| < DIRSIZ then |parts[i]| else DIRSIZ - 1)
            && match r
            case None => answer == None && SameRefs(old(c.slots), c.slots)
            case Some(k) =>
              && k < NINODE && c.slots[k].ref > 0 && answer == Some(c.slots[k].inum)
              && OneMore(old(c.slots), c.slots, c.slots[k].inum)
              && (parent ==> steps != [] && name == steps[|steps| - 1])
  {
    hide Consistent, Answer, SkipElem, Components, ClipAll, Walk, Unique, Mirrors, OneMore, InUse;
    ghost var before, tree, steps := c.slots, c.tree, Walk(path);
    WalkIsComponents(path);
    var ip := Start(c, path != [] && path[0] == SLASH, cwd, names);
    ghost var answer := Answer(names, c.slots[ip].inum, steps, parent);
    var rest := path;
    name := [];
    while true
      invariant At(before, c.slots, c.tree, ip) && Unlocked(c.slots) && c.tree == tree
      invariant answer == Answer(names, c.slots[ip].inum, Walk(rest), parent)
      invariant |Walk(rest)| <= |steps| && Walk(rest) == steps[|steps| - |Walk(rest)|..]
      decreases |rest|
    {
      var e := SkipElement(rest);
      if e == End {
        WalkEnds(rest);
        break;
      }
      NextName(rest);
      AnswerStep(names, c.slots[ip].inum, Walk(rest), parent);
      LockAt(c, ip, before, names);
      name := e.name;
      if !c.slots[ip].dir {
        GiveUp(c, ip, before);
        return None, name;
      }
      if parent && e.rest == [] {
        UnlockAt(c, ip, before);
        return Some(ip), name;
      }
      var sub := Descend(c, ip, name, before, names);
      if sub == None {
        return None, name;
      }
      ip, rest := sub.value, e.rest;
    }
    AnswerAtEnd(names, c.slots[ip].inum, parent);
    if parent {
      PutAt(c, ip, before);
      return None, name;
    }
    return Some(ip), name;
  }

  lemma WalkEnds(path: Bytes)
    requires SkipElem(path) == End
    ensures Walk(path) == []
  {
  }

  lemma AnswerAtEnd(names: Names, ip: nat, parent: bool)
    ensures Answer(names, ip, [], parent) == if parent then None else Some(ip)
  {
  }
}
