/** The inode cache: inode_get, inode_dup, inode_lock, inode_unlock and inode_put of kern/fs/inode.c.
    Inodes are told apart by number, all on one device. */
module InodeCaching {
  import opened Params
  import opened DirSpec

  /** An inode as the disk holds it: whether it is a directory, its content and its link count. An inode
      of type 0 is not in the tree. */
  datatype Node = Node(dir: bool, content: Bytes, nlink: nat)
  type Tree = map<nat, Node>

  /** An entry of the cache; dir and nlink are the copies that inode_lock reads in. */
  datatype Cached = Cached(inum: nat, ref: nat, busy: bool, valid: bool, dir: bool, nlink: nat)

  /** The references entry e holds to inode n. */
  function Share(e: Cached, n: nat): nat {
    if e.inum == n then e.ref else 0
  }

  /** The references to inode n over all entries. */
  function Refs(s: seq<Cached>, n: nat): nat {
    if s == [] then 0 else Share(s[0], n) + Refs(s[1..], n)
  }

  /** The inodes with a reference. */
  ghost function InUse(s: seq<Cached>): set<nat> {
    set i | 0 <= i < |s| && s[i].ref > 0 :: s[i].inum
  }

  ghost predicate Unique(s: seq<Cached>) {
    forall i, j | 0 <= i < j < |s| && s[i].ref > 0 && s[j].ref > 0 :: s[i].inum != s[j].inum
  }

  ghost predicate Mirrors(s: seq<Cached>, tree: Tree) {
    forall i | 0 <= i < |s| && s[i].ref > 0 && s[i].valid ::
      s[i].inum in tree && s[i].dir == tree[s[i].inum].dir && s[i].nlink == tree[s[i].inum].nlink
  }

  ghost predicate CacheOk(s: seq<Cached>, tree: Tree) {
    |s| == NINODE && Unique(s) && Mirrors(s, tree)
  }

  lemma {:induction false} RefsUpdate(s: seq<Cached>, i: nat, e: Cached, n: nat)
    requires i < |s|
    ensures Refs(s[i := e], n) == Refs(s, n) - Share(s[i], n) + Share(e, n)
  {
    if i == 0 {
      assert s[i := e][1..] == s[1..];
    } else {
      RefsUpdate(s[1..], i - 1, e, n);
      assert s[i := e][1..] == s[1..][i - 1 := e];
    }
  }

  lemma {:induction false} InUseIffReferenced(s: seq<Cached>, n: nat)
    ensures n in InUse(s) <==> Refs(s, n) > 0
  {
    if s != [] {
      InUseIffReferenced(s[1..], n);
      InUseSplit(s, n);
    }
  }

  lemma InUseSplit(s: seq<Cached>, n: nat)
    requires s != []
    ensures n in InUse(s) <==> (s[0].ref > 0 && n == s[0].inum) || n in InUse(s[1..])
  {
    var t := s[1..];
    assert forall i | 0 <= i < |t| :: t[i] == s[i + 1];
    assert forall i | 0 < i < |s| :: s[i] == t[i - 1];
  }

  /** As no inode has two entries, an entry's own count is the inode's. */
  lemma {:induction false} EntryHoldsAll(s: seq<Cached>, i: nat)
    requires i < |s| && s[i].ref > 0 && Unique(s)
    ensures Refs(s, s[i].inum) == s[i].ref
  {
    var n := s[i].inum;
    if i == 0 {
      InUseIffReferenced(s[1..], n);
    } else {
      EntryHoldsAll(s[1..], i - 1);
    }
  }

  /** A cache without an empty entry holds as many inodes as it has entries. */
  lemma {:induction false} FullCache(s: seq<Cached>)
    requires Unique(s) && forall i | 0 <= i < |s| :: s[i].ref > 0
    ensures |InUse(s)| == |s|
  {
    if s != [] {
      var t := s[1..];
      FullCache(t);
      forall n ensures n in InUse(s) <==> n == s[0].inum || n in InUse(t) {
        InUseSplit(s, n);
      }
      assert InUse(s) == {s[0].inum} + InUse(t);
      assert s[0].inum !in InUse(t);
    }
  }

  class InodeCache {
    var slots: seq<Cached>
    var tree: Tree

    ghost predicate Valid()
      reads this
    {
      CacheOk(slots, tree)
    }

    /** The cache as it boots: every entry is empty. */
    constructor (disk: Tree)
      ensures Valid() && tree == disk && InUse(slots) == {}
    {
      slots := seq(NINODE, _ => Cached(0, 0, false, false, false, 0));
      tree := disk;
    }

    /** inode_get: one more reference to the inode, in the entry it has or in an empty one. The source
        panics when neither exists. */
    method Get(inum: nat) returns (k: nat)
      requires Valid() && (inum in InUse(slots) || |InUse(slots)| < NINODE)
      modifies this`slots
      ensures Valid() && k < NINODE && slots[k].inum == inum && slots[k].ref > 0
      ensures slots == old(slots)[k := slots[k]]
      ensures old(slots[k]).ref > 0 <==> inum in old(InUse(slots))
      ensures if old(slots[k]).ref > 0 then slots[k] == old(slots[k]).(ref := old(slots[k]).ref + 1)
              else slots[k].ref == 1 && !slots[k].busy && !slots[k].valid
      ensures forall n :: Refs(slots, n) == old(Refs(slots, n)) + if n == inum then 1 else 0
    {
      var empty: nat := NINODE;
      var i := 0;
      while i < NINODE
        invariant i <= NINODE && empty <= NINODE
        invariant forall j | 0 <= j < i :: !(slots[j].ref > 0 && slots[j].inum == inum)
        invariant empty < NINODE ==> slots[empty].ref == 0
        invariant empty == NINODE ==> forall j | 0 <= j < i :: slots[j].ref > 0
      {
        if slots[i].ref > 0 && slots[i].inum == inum {
          k := i;
          Referenced(slots, tree, k);
          slots := slots[k := slots[k].(ref := slots[k].ref + 1)];
          return;
        }
        if empty == NINODE && slots[i].ref == 0 {
          empty := i;
        }
        i := i + 1;
      }
      if empty == NINODE {
        FullCache(slots);
      }
      k := empty;
      Recycled(slots, tree, k, inum);
      slots := slots[k := slots[k].(inum := inum, ref := 1, busy := false, valid := false)];
    }

    /** inode_dup. */
    method Dup(k: nat)
      requires Valid() && k < NINODE && slots[k].ref > 0
      modifies this`slots
      ensures Valid() && slots == old(slots)[k := old(slots[k]).(ref := old(slots[k]).ref + 1)]
      ensures forall n :: Refs(slots, n) == old(Refs(slots, n)) + if n == slots[k].inum then 1 else 0
    {
      Referenced(slots, tree, k);
      slots := slots[k := slots[k].(ref := slots[k].ref + 1)];
    }

    /** inode_lock, once the entry is not busy; the inode is read in on the first lock. The source panics
        on an inode of type 0. */
    method Lock(k: nat)
      requires Valid() && k < NINODE && slots[k].ref > 0 && !slots[k].busy && slots[k].inum in tree
      modifies this`slots
      ensures Valid() && slots == old(slots)[k := slots[k]]
      ensures slots[k] == old(slots[k]).(busy := true, valid := true, dir := tree[old(slots[k]).inum].dir,
                                         nlink := tree[old(slots[k]).inum].nlink)
      ensures forall n :: Refs(slots, n) == old(Refs(slots, n))
    {
      ghost var before := slots;
      slots := slots[k := slots[k].(busy := true)];
      if !slots[k].valid {
        var node := tree[slots[k].inum];
        slots := slots[k := slots[k].(valid := true, dir := node.dir, nlink := node.nlink)];
      }
      assert slots == before[k := slots[k]];
      forall n ensures Refs(slots, n) == Refs(before, n) {
        RefsUpdate(before, k, slots[k], n);
      }
    }

    /** inode_unlock. */
    method Unlock(k: nat)
      requires Valid() && k < NINODE && slots[k].ref > 0 && slots[k].busy
      modifies this`slots
      ensures Valid() && slots == old(slots)[k := old(slots[k]).(busy := false)]
      ensures forall n :: Refs(slots, n) == old(Refs(slots, n))
    {
      forall n ensures Refs(slots[k := slots[k].(busy := false)], n) == Refs(slots, n) {
        RefsUpdate(slots, k, slots[k].(busy := false), n);
      }
      slots := slots[k := slots[k].(busy := false)];
    }

    /** inode_put: one reference less; the inode leaves the disk if this was the last reference and no
        directory entry names it. */
    method Put(k: nat)
      requires Valid() && k < NINODE && slots[k].ref > 0
      requires slots[k].ref == 1 && slots[k].valid && slots[k].nlink == 0 ==> !slots[k].busy
      modifies this
      ensures Valid()
      ensures var freed := old(slots[k].ref == 1 && slots[k].valid && slots[k].nlink == 0);
              && tree == (if freed then old(tree) - {old(slots[k]).inum} else old(tree))
              && slots == old(slots)[k := old(slots[k]).(ref := old(slots[k]).ref - 1,
                                                        valid := old(slots[k]).valid && !freed,
                                                        busy := old(slots[k]).busy && !freed)]
      ensures forall n :: Refs(slots, n) == old(Refs(slots, n)) - if n == old(slots[k]).inum then 1 else 0
    {
      ghost var before := slots;
      if slots[k].ref == 1 && slots[k].valid && slots[k].nlink == 0 {
        tree := tree - {slots[k].inum};
        slots := slots[k := slots[k].(busy := false, valid := false)];
      }
      slots := slots[k := slots[k].(ref := slots[k].ref - 1)];
      assert slots == before[k := slots[k]];
      forall n ensures Refs(slots, n) == Refs(before, n) - if n == before[k].inum then 1 else 0 {
        RefsUpdate(before, k, slots[k], n);
        if n == before[k].inum {
          EntryHoldsAll(before, k);
        }
      }
    }
  }

  lemma Referenced(s: seq<Cached>, tree: Tree, k: nat)
    requires CacheOk(s, tree) && k < NINODE && s[k].ref > 0
    ensures var t := s[k := s[k].(ref := s[k].ref + 1)];
            && CacheOk(t, tree) && s[k].inum in InUse(s)
            && forall n :: Refs(t, n) == Refs(s, n) + if n == s[k].inum then 1 else 0
  {
    forall n ensures Refs(s[k := s[k].(ref := s[k].ref + 1)], n) == Refs(s, n) + if n == s[k].inum then 1 else 0 {
      RefsUpdate(s, k, s[k].(ref := s[k].ref + 1), n);
    }
  }

  lemma Recycled(s: seq<Cached>, tree: Tree, k: nat, inum: nat)
    requires CacheOk(s, tree) && k < NINODE && s[k].ref == 0
    requires forall j | 0 <= j < NINODE :: !(s[j].ref > 0 && s[j].inum == inum)
    ensures var t := s[k := s[k].(inum := inum, ref := 1, busy := false, valid := false)];
            && CacheOk(t, tree) && inum !in InUse(s)
            && forall n :: Refs(t, n) == Refs(s, n) + if n == inum then 1 else 0
  {
    var e := s[k].(inum := inum, ref := 1, busy := false, valid := false);
    forall n ensures Refs(s[k := e], n) == Refs(s, n) + if n == inum then 1 else 0 {
      RefsUpdate(s, k, e, n);
    }
  }
}
