/** Link counts over whole runs of create, mkdir, link, unlink and the freeing of inodes (kern/fs/sysfile.c,
    inode_put of kern/fs/inode.c): an inode's count is the number of directory entries that name it. */
module Links {
  import opened Params
  import opened Options
  import BufCache
  import DirSpec
  import opened InodeCaching
  import opened Namei

  type Bytes = DirSpec.Bytes

  const DOT: Bytes := [46]
  const DOTDOT: Bytes := [46, 46]

  /** The directories as maps, and the link count of every allocated inode. */
  datatype Fs = Fs(names: Names, nlink: map<nat, int>)

  /** A directory that has not been removed. */
  ghost predicate Alive(fs: Fs, d: nat) {
    d in fs.names && d in fs.nlink && fs.nlink[d] > 0
  }

  /** Entry m of directory d counts for inode n: "." does not, nor does anything in a removed directory. */
  ghost predicate Counts(fs: Fs, d: nat, m: Bytes, n: nat) {
    Alive(fs, d) && m in fs.names[d] && m != DOT && fs.names[d][m] == n
  }

  ghost function Entries(fs: Fs, n: nat): set<(nat, Bytes)> {
    set d, m | d in fs.names && m in fs.names[d] && Counts(fs, d, m, n) :: (d, m)
  }

  /** Entry m of directory p, not a dot entry, names d. */
  ghost predicate Child(fs: Fs, p: nat, m: Bytes, d: nat) {
    Counts(fs, p, m, d) && m != DOTDOT
  }

  ghost predicate DirShape(fs: Fs, d: nat)
    requires d in fs.names
  {
    && DOT in fs.names[d] && fs.names[d][DOT] == d && DOTDOT in fs.names[d]
    && (Alive(fs, d) ==> forall m | m in fs.names[d] :: fs.names[d][m] in fs.nlink)
    && (!Alive(fs, d) ==> fs.names[d].Keys <= {DOT, DOTDOT} && fs.names[d][DOTDOT] != d)
  }

  /** Entries name allocated inodes, every directory has its dots, and a removed one has nothing else. */
  ghost predicate Shape(fs: Fs) {
    && fs.names.Keys <= fs.nlink.Keys && Alive(fs, ROOTINO)
    && (forall d | d in fs.names :: DirShape(fs, d))
  }

  /** The directory that d's ".." names has an entry for d. */
  ghost predicate HasParent(fs: Fs, d: nat) {
    d in fs.names && DOTDOT in fs.names[d] && exists m :: Child(fs, fs.names[d][DOTDOT], m, d)
  }

  /** A directory but the root is named once besides the dots, by the directory its ".." names. */
  ghost predicate Parents(fs: Fs)
    requires Shape(fs)
  {
    && fs.names[ROOTINO][DOTDOT] == ROOTINO
    && (forall d | Alive(fs, d) && d != ROOTINO :: HasParent(fs, d))
    && (forall p, m, d | Child(fs, p, m, d) && d in fs.names :: d != ROOTINO && p == fs.names[d][DOTDOT])
    && (forall p, m, m', d | Child(fs, p, m, d) && Child(fs, p, m', d) && d in fs.names :: m == m')
  }

  /** Every link count is the number of entries that count for the inode. */
  ghost predicate Counted(fs: Fs) {
    forall n | n in fs.nlink :: fs.nlink[n] == |Entries(fs, n)|
  }

  ghost predicate Inv(fs: Fs) {
    Shape(fs) && Parents(fs) && Counted(fs)
  }

  // ---- The operations ----

  datatype Op =
    | Create(d: nat, name: Bytes, n: nat)
    | Mkdir(d: nat, name: Bytes, n: nat)
    | Link(d: nat, name: Bytes, n: nat)
    | Unlink(d: nat, name: Bytes)
    | Free(n: nat)

  ghost predicate Empty(fs: Fs, n: nat)
    requires n in fs.names
  {
    fs.names[n].Keys <= {DOT, DOTDOT}
  }

  /** When an operation goes through: a new name for a new inode or for a file, the name of a file or of an
      empty directory, and an inode whose count is zero. */
  ghost predicate Enabled(fs: Fs, op: Op) {
    match op
    case Create(d, name, n) => d in fs.names && name !in fs.names[d] && n !in fs.nlink
    case Mkdir(d, name, n) => d in fs.names && name !in fs.names[d] && n !in fs.nlink
    case Link(d, name, n) => d in fs.names && name !in fs.names[d] && n in fs.nlink && n !in fs.names
    case Unlink(d, name) =>
      && d in fs.names && name in fs.names[d] && name != DOT && name != DOTDOT
      && (fs.names[d][name] in fs.names ==> Empty(fs, fs.names[d][name]))
    case Free(n) => n in fs.nlink && fs.nlink[n] == 0
  }

  /** The count of n, changed by k. */
  function Plus(nlink: map<nat, int>, n: nat, k: int): map<nat, int> {
    if n in nlink then nlink[n := nlink[n] + k] else nlink
  }

  function Named(names: Names, d: nat, name: Bytes, n: nat): Names
    requires d in names
  {
    var m: DirSpec.NameMap := names[d][name := n];
    names[d := m]
  }

  /** A directory as mkdir leaves it: its two dot entries. */
  function Dots(n: nat, parent: nat): DirSpec.NameMap {
    map[DOT := n, DOTDOT := parent]
  }

  ghost function Apply(fs: Fs, op: Op): Fs
    requires Enabled(fs, op)
  {
    match op
    case Create(d, name, n) => Fs(Named(fs.names, d, name, n), fs.nlink[n := 1])
    case Mkdir(d, name, n) =>
      Fs(Named(fs.names, d, name, n)[n := Dots(n, d)], Plus(fs.nlink, d, 1)[n := 1])
    case Link(d, name, n) => Fs(Named(fs.names, d, name, n), Plus(fs.nlink, n, 1))
    case Unlink(d, name) =>
      var n := fs.names[d][name];
      var names := fs.names[d := fs.names[d] - {name}];
      Fs(names, Plus(if n in fs.names then Plus(fs.nlink, d, -1) else fs.nlink, n, -1))
    case Free(n) => Fs(fs.names - {n}, fs.nlink - {n})
  }

  /** The directory that is to get a new entry has not been removed. */
  ghost predicate InLinked(fs: Fs, op: Op) {
    op.Unlink? || op.Free? || Alive(fs, op.d)
  }

  // ---- Entries after an operation ----

  lemma InEntries(fs: Fs, n: nat, d: nat, m: Bytes)
    ensures (d, m) in Entries(fs, n) <==> Counts(fs, d, m, n)
  {
  }

  /** Entries differ by what is added and what is removed. */
  lemma EntriesAre(fs: Fs, n: nat, S: set<(nat, Bytes)>)
    requires forall d: nat, m: Bytes :: (d, m) in S <==> Counts(fs, d, m, n)
    ensures Entries(fs, n) == S
  {
    forall e: (nat, Bytes)
      ensures e in Entries(fs, n) <==> e in S
    {
      InEntries(fs, n, e.0, e.1);
      assert e == (e.0, e.1);
    }
  }

  lemma NamesAllocated(fs: Fs, d: nat, m: Bytes, n: nat)
    requires Shape(fs) && Counts(fs, d, m, n)
    ensures n in fs.nlink
  {
    assert DirShape(fs, d);
  }

  /** Nothing names an inode that is not allocated. */
  lemma Unnamed(fs: Fs, n: nat)
    requires Shape(fs) && n !in fs.nlink
    ensures Entries(fs, n) == {}
  {
    hide Shape, Counts;
    forall d: nat, m: Bytes
      ensures !Counts(fs, d, m, n)
    {
      if Counts(fs, d, m, n) {
        NamesAllocated(fs, d, m, n);
      }
    }
    EntriesAre(fs, n, {});
  }

  /** A new name in a directory that has not been removed. */
  lemma EntryAdded(fs: Fs, fs': Fs, d: nat, name: Bytes, n: nat, x: nat)
    requires Alive(fs, d) && name !in fs.names[d] && name != DOT && fs'.names == Named(fs.names, d, name, n)
    requires forall q | q in fs.names :: Alive(fs', q) <==> Alive(fs, q)
    ensures Entries(fs', x) == Entries(fs, x) + if x == n then {(d, name)} else {}
  {
    var S := Entries(fs, x) + if x == n then {(d, name)} else {};
    forall q: nat, m: Bytes
      ensures (q, m) in S <==> Counts(fs', q, m, x)
    {
      InEntries(fs, x, q, m);
    }
    EntriesAre(fs', x, S);
  }

  // ---- Every operation keeps the invariant ----

  /** The dots of a directory, and that a new name is neither. */
  lemma NewName(fs: Fs, d: nat, name: Bytes)
    requires Shape(fs) && d in fs.names && name !in fs.names[d]
    ensures name != DOT && name != DOTDOT
  {
    assert DirShape(fs, d);
  }

  /** Directory d got the new entry `name` for an inode that is no directory. */
  ghost predicate Added(fs: Fs, fs': Fs, d: nat, name: Bytes, n: nat) {
    && Alive(fs, d) && name !in fs.names[d] && name != DOT && name != DOTDOT && n !in fs.names
    && fs'.names == Named(fs.names, d, name, n) && fs'.nlink.Keys == fs.nlink.Keys + {n}
    && forall q | q in fs.names :: Alive(fs', q) <==> Alive(fs, q)
  }

  lemma AddShape(fs: Fs, fs': Fs, d: nat, name: Bytes, n: nat)
    requires Shape(fs) && Added(fs, fs', d, name, n)
    ensures Shape(fs')
  {
    forall q | q in fs.names
      ensures DirShape(fs', q)
    {
      assert DirShape(fs, q);
    }
  }

  lemma AddParents(fs: Fs, fs': Fs, d: nat, name: Bytes, n: nat)
    requires Shape(fs) && Shape(fs') && Parents(fs) && Added(fs, fs', d, name, n)
    ensures Parents(fs')
  {
    hide Parents, Shape;
    forall q | q in fs.names
      ensures DOTDOT in fs.names[q] && DOTDOT in fs'.names[q] && fs'.names[q][DOTDOT] == fs.names[q][DOTDOT]
    {
      HasDots(fs, q);
    }
    SameChildren(fs, fs');
  }

  /** Directories are named as before. */
  lemma SameChildren(fs: Fs, fs': Fs)
    requires Shape(fs) && Shape(fs') && Parents(fs) && fs'.names.Keys == fs.names.Keys
    requires forall q | q in fs.names ::
      (Alive(fs', q) <==> Alive(fs, q)) && DOTDOT in fs.names[q] && DOTDOT in fs'.names[q]
      && fs'.names[q][DOTDOT] == fs.names[q][DOTDOT]
    requires forall p, m, x | x in fs.names :: Child(fs', p, m, x) <==> Child(fs, p, m, x)
    ensures Parents(fs')
  {
    hide Child, Shape;
    RootIsDir(fs);
    RootIsDir(fs');
    forall d | Alive(fs', d) && d != ROOTINO
      ensures HasParent(fs', d)
    {
      assert HasParent(fs, d);
      var m :| Child(fs, fs.names[d][DOTDOT], m, d);
      assert Child(fs', fs'.names[d][DOTDOT], m, d);
    }
  }

  lemma HasDots(fs: Fs, d: nat)
    requires Shape(fs) && d in fs.names
    ensures DOT in fs.names[d] && fs.names[d][DOT] == d && DOTDOT in fs.names[d]
    ensures d in fs.nlink
  {
    assert DirShape(fs, d);
  }

  lemma RootIsDir(fs: Fs)
    requires Shape(fs)
    ensures Alive(fs, ROOTINO) && DOTDOT in fs.names[ROOTINO]
  {
    HasDots(fs, ROOTINO);
  }

  /** create of a file, and link. */
  lemma AddKeeps(fs: Fs, op: Op)
    requires Inv(fs) && (op.Create? || op.Link?) && Enabled(fs, op) && Alive(fs, op.d)
    ensures Inv(Apply(fs, op))
  {
    hide Shape, Parents, Entries;
    var fs', d, name, n := Apply(fs, op), op.d, op.name, op.n;
    NewName(fs, d, name);
    DirsAllocated(fs);
    assert Added(fs, fs', d, name, n);
    AddShape(fs, fs', d, name, n);
    AddParents(fs, fs', d, name, n);
    forall x | x in fs'.nlink
      ensures fs'.nlink[x] == |Entries(fs', x)|
    {
      EntryAdded(fs, fs', d, name, n, x);
      InEntries(fs, x, d, name);
      if x !in fs.nlink {
        Unnamed(fs, x);
      }
    }
  }

  lemma DirsAllocated(fs: Fs)
    requires Shape(fs)
    ensures fs.names.Keys <= fs.nlink.Keys
  {
  }

  /** Directory d got the new entry `name` for the new directory n. */
  ghost predicate Made(fs: Fs, fs': Fs, d: nat, name: Bytes, n: nat) {
    && Alive(fs, d) && name !in fs.names[d] && name != DOT && name != DOTDOT && n !in fs.nlink && n !in fs.names
    && fs'.names == Named(fs.names, d, name, n)[n := Dots(n, d)] && fs'.nlink.Keys == fs.nlink.Keys + {n}
    && Alive(fs', n) && forall q | q in fs.names :: Alive(fs', q) <==> Alive(fs, q)
  }

  lemma MakeShape(fs: Fs, fs': Fs, d: nat, name: Bytes, n: nat)
    requires Shape(fs) && Made(fs, fs', d, name, n)
    ensures Shape(fs')
  {
    forall q | q in fs.names
      ensures DirShape(fs', q)
    {
      assert DirShape(fs, q);
    }
    HasDots(fs, d);
    assert DirShape(fs', n);
  }

  lemma MakeChildren(fs: Fs, fs': Fs, d: nat, name: Bytes, n: nat, p: nat, m: Bytes, x: nat)
    requires Shape(fs) && Made(fs, fs', d, name, n)
    ensures Child(fs', p, m, x) <==> Child(fs, p, m, x) || (p == d && m == name && x == n)
    ensures Child(fs, p, m, x) ==> x != n
  {
    hide Shape;
    if Child(fs, p, m, x) {
      NamesAllocated(fs, p, m, x);
    }
  }

  lemma MakeParents(fs: Fs, fs': Fs, d: nat, name: Bytes, n: nat)
    requires Shape(fs) && Shape(fs') && Parents(fs) && Made(fs, fs', d, name, n)
    ensures Parents(fs')
  {
    hide Child, Shape;
    RootIsDir(fs);
    RootIsDir(fs');
    forall q | q in fs.names
      ensures DOTDOT in fs.names[q] && DOTDOT in fs'.names[q] && fs'.names[q][DOTDOT] == fs.names[q][DOTDOT]
    {
      HasDots(fs, q);
    }
    forall p, m, x
      ensures Child(fs', p, m, x) <==> Child(fs, p, m, x) || (p == d && m == name && x == n)
      ensures Child(fs, p, m, x) ==> x != n
    {
      MakeChildren(fs, fs', d, name, n, p, m, x);
    }
    forall q | Alive(fs', q) && q != ROOTINO
      ensures HasParent(fs', q)
    {
      if q == n {
        assert fs'.names[n][DOTDOT] == d;
        assert Child(fs', fs'.names[n][DOTDOT], name, n);
      } else {
        assert HasParent(fs, q);
        var m :| Child(fs, fs.names[q][DOTDOT], m, q);
        assert Child(fs', fs'.names[q][DOTDOT], m, q);
      }
    }
  }

  lemma MakeEntries(fs: Fs, fs': Fs, d: nat, name: Bytes, n: nat, x: nat)
    requires Shape(fs) && Made(fs, fs', d, name, n)
    ensures Entries(fs', x) == Entries(fs, x) + (if x == n then {(d, name)} else {}) + if x == d then {(n, DOTDOT)} else {}
  {
    hide Shape;
    var S := Entries(fs, x) + (if x == n then {(d, name)} else {}) + if x == d then {(n, DOTDOT)} else {};
    forall q: nat, m: Bytes
      ensures (q, m) in S <==> Counts(fs', q, m, x)
    {
      InEntries(fs, x, q, m);
    }
    EntriesAre(fs', x, S);
  }

  /** mkdir. */
  lemma MkdirKeeps(fs: Fs, op: Op)
    requires Inv(fs) && op.Mkdir? && Enabled(fs, op) && Alive(fs, op.d)
    ensures Inv(Apply(fs, op))
  {
    hide Shape, Parents, Entries;
    var fs', d, name, n := Apply(fs, op), op.d, op.name, op.n;
    NewName(fs, d, name);
    DirsAllocated(fs);
    assert Made(fs, fs', d, name, n);
    MakeShape(fs, fs', d, name, n);
    MakeParents(fs, fs', d, name, n);
    forall x | x in fs'.nlink
      ensures fs'.nlink[x] == |Entries(fs', x)|
    {
      MakeEntries(fs, fs', d, name, n, x);
      InEntries(fs, x, n, DOTDOT);
      if x !in fs.nlink {
        Unnamed(fs, x);
      }
    }
  }

  /** An inode without links: no entry names it but the "." of a removed directory. */
  lemma FreeKeeps(fs: Fs, op: Op)
    requires Inv(fs) && op.Free? && Enabled(fs, op)
    ensures Inv(Apply(fs, op))
  {
    hide Shape, Parents, Entries;
    var fs', n := Apply(fs, op), op.n;
    FreeShape(fs, n);
    FreeParents(fs, n);
    forall x | x in fs'.nlink
      ensures fs'.nlink[x] == |Entries(fs', x)|
    {
      FreeEntries(fs, n, x);
    }
  }

  /** No directory that has not been removed names an inode without links. */
  lemma NothingNames(fs: Fs, n: nat, q: nat, m: Bytes)
    requires Shape(fs) && Counted(fs) && n in fs.nlink && fs.nlink[n] == 0 && Alive(fs, q) && m in fs.names[q]
    ensures fs.names[q][m] != n
  {
    hide Shape;
    HasDots(fs, q);
    assert |Entries(fs, n)| == 0;
    InEntries(fs, n, q, m);
  }

  lemma FreeShape(fs: Fs, n: nat)
    requires Shape(fs) && Counted(fs) && Enabled(fs, Free(n))
    ensures Shape(Apply(fs, Free(n)))
  {
    hide Counted;
    var fs' := Apply(fs, Free(n));
    forall q | q in fs'.names
      ensures DirShape(fs', q)
    {
      assert DirShape(fs, q);
      forall m | Alive(fs, q) && m in fs.names[q]
        ensures fs.names[q][m] != n
      {
        NothingNames(fs, n, q, m);
      }
    }
  }

  lemma FreeParents(fs: Fs, n: nat)
    requires Shape(fs) && Parents(fs) && Enabled(fs, Free(n)) && Shape(Apply(fs, Free(n)))
    ensures Parents(Apply(fs, Free(n)))
  {
    hide Shape;
    var fs' := Apply(fs, Free(n));
    RootIsDir(fs);
    forall q | Alive(fs', q) && q != ROOTINO
      ensures HasParent(fs', q)
    {
      HasDots(fs, q);
      assert HasParent(fs, q);
      var m :| Child(fs, fs.names[q][DOTDOT], m, q);
      assert Child(fs', fs'.names[q][DOTDOT], m, q);
    }
    assert forall p, m, x :: Child(fs', p, m, x) ==> Child(fs, p, m, x);
  }

  lemma FreeEntries(fs: Fs, n: nat, x: nat)
    requires Enabled(fs, Free(n))
    ensures Entries(Apply(fs, Free(n)), x) == Entries(fs, x)
  {
    var fs' := Apply(fs, Free(n));
    forall q: nat, m: Bytes
      ensures (q, m) in Entries(fs, x) <==> Counts(fs', q, m, x)
    {
      InEntries(fs, x, q, m);
    }
    EntriesAre(fs', x, Entries(fs, x));
  }

  // ---- unlink ----

  /** The directory of a name that is not a dot has not been removed, and the named inode has a link, so
      sys_unlink does not panic. */
  lemma UnlinkFinds(fs: Fs, d: nat, name: Bytes)
    requires Inv(fs) && d in fs.names && name in fs.names[d] && name != DOT && name != DOTDOT
    ensures Alive(fs, d) && fs.names[d][name] in fs.nlink && fs.nlink[fs.names[d][name]] >= 1
    ensures Child(fs, d, name, fs.names[d][name])
  {
    hide Parents, Entries;
    var n := fs.names[d][name];
    assert DirShape(fs, d);
    InEntries(fs, n, d, name);
    assert Entries(fs, n) != {};
  }

  /** Directory d lost the entry `name` for a file. */
  ghost predicate Dropped(fs: Fs, fs': Fs, d: nat, name: Bytes) {
    && Alive(fs, d) && name in fs.names[d] && name != DOT && name != DOTDOT && fs.names[d][name] !in fs.names
    && fs'.names == fs.names[d := fs.names[d] - {name}] && fs'.nlink.Keys == fs.nlink.Keys
    && forall q | q in fs.names :: Alive(fs', q) <==> Alive(fs, q)
  }

  lemma DropShape(fs: Fs, fs': Fs, d: nat, name: Bytes)
    requires Shape(fs) && Dropped(fs, fs', d, name)
    ensures Shape(fs')
  {
    forall q | q in fs.names
      ensures DirShape(fs', q)
    {
      assert DirShape(fs, q);
    }
  }

  lemma DropParents(fs: Fs, fs': Fs, d: nat, name: Bytes)
    requires Shape(fs) && Shape(fs') && Parents(fs) && Dropped(fs, fs', d, name)
    ensures Parents(fs')
  {
    hide Parents, Shape;
    forall q | q in fs.names
      ensures DOTDOT in fs.names[q] && DOTDOT in fs'.names[q] && fs'.names[q][DOTDOT] == fs.names[q][DOTDOT]
    {
      HasDots(fs, q);
    }
    SameChildren(fs, fs');
  }

  lemma DropEntries(fs: Fs, fs': Fs, d: nat, name: Bytes, x: nat)
    requires Dropped(fs, fs', d, name)
    ensures Entries(fs', x) == Entries(fs, x) - {(d, name)}
  {
    var S := Entries(fs, x) - {(d, name)};
    forall q: nat, m: Bytes
      ensures (q, m) in S <==> Counts(fs', q, m, x)
    {
      InEntries(fs, x, q, m);
    }
    EntriesAre(fs', x, S);
  }

  /** unlink of a file. */
  lemma UnlinkFileKeeps(fs: Fs, d: nat, name: Bytes)
    requires Inv(fs) && Enabled(fs, Unlink(d, name)) && fs.names[d][name] !in fs.names
    ensures Inv(Apply(fs, Unlink(d, name)))
  {
    hide Shape, Parents, Entries;
    var fs', n := Apply(fs, Unlink(d, name)), fs.names[d][name];
    UnlinkFinds(fs, d, name);
    assert Dropped(fs, fs', d, name);
    DropShape(fs, fs', d, name);
    DropParents(fs, fs', d, name);
    forall x | x in fs'.nlink
      ensures fs'.nlink[x] == |Entries(fs', x)|
    {
      DropEntries(fs, fs', d, name, x);
      InEntries(fs, x, d, name);
      assert x != n ==> Entries(fs, x) - {(d, name)} == Entries(fs, x);
    }
  }

  lemma OnlyName(fs: Fs, d: nat, name: Bytes, n: nat, q: nat, m: Bytes)
    requires Inv(fs) && Child(fs, d, name, n) && n in fs.names && Empty(fs, n) && Counts(fs, q, m, n)
    ensures q == d && m == name
  {
    hide Shape, Counted;
    HasDots(fs, n);
    RootIsDir(fs);
    if m != DOTDOT {
      assert Child(fs, q, m, n);
    }
  }

  /** An empty directory is named by its parent alone. */
  lemma EmptyNamedOnce(fs: Fs, d: nat, name: Bytes, n: nat)
    requires Inv(fs) && Child(fs, d, name, n) && n in fs.names && Empty(fs, n)
    ensures n != ROOTINO && n != d && DOTDOT in fs.names[n] && fs.names[n][DOTDOT] == d
    ensures Entries(fs, n) == {(d, name)}
  {
    hide Shape, Counted;
    HasDots(fs, n);
    RootIsDir(fs);
    forall q: nat, m: Bytes
      ensures (q, m) in {(d, name)} <==> Counts(fs, q, m, n)
    {
      if Counts(fs, q, m, n) {
        OnlyName(fs, d, name, n, q, m);
      }
    }
    EntriesAre(fs, n, {(d, name)});
  }

  /** A directory with a subdirectory has two links at least. */
  lemma TwoLinks(fs: Fs, d: nat, n: nat)
    requires Inv(fs) && Alive(fs, d) && n != d && Counts(fs, n, DOTDOT, d)
    ensures fs.nlink[d] >= 2
  {
    hide Shape, Entries;
    RootIsDir(fs);
    InEntries(fs, d, n, DOTDOT);
    var e: (nat, Bytes);
    if d == ROOTINO {
      InEntries(fs, d, d, DOTDOT);
      e := (d, DOTDOT);
    } else {
      assert HasParent(fs, d);
      var m :| Child(fs, fs.names[d][DOTDOT], m, d);
      InEntries(fs, d, fs.names[d][DOTDOT], m);
      e := (fs.names[d][DOTDOT], m);
    }
    assert {e, (n, DOTDOT)} <= Entries(fs, d);
    AtLeastTwo(Entries(fs, d), e, (n, DOTDOT));
  }

  lemma AtLeastTwo<T>(S: set<T>, a: T, b: T)
    requires a in S && b in S && a != b
    ensures |S| >= 2
  {
    assert |S - {a} - {b}| == |S| - 2;
  }

  /** Directory d lost the entry `name` for the empty directory n, which is removed with it. */
  ghost predicate Removed(fs: Fs, fs': Fs, d: nat, name: Bytes, n: nat) {
    && Child(fs, d, name, n) && n != d && n != ROOTINO && n in fs.names && Empty(fs, n)
    && DOTDOT in fs.names[n] && fs.names[n][DOTDOT] == d && Entries(fs, n) == {(d, name)}
    && fs'.names == fs.names[d := fs.names[d] - {name}] && fs'.nlink.Keys == fs.nlink.Keys
    && forall q | q in fs.names :: Alive(fs', q) <==> Alive(fs, q) && q != n
  }

  lemma RemoveShape(fs: Fs, fs': Fs, d: nat, name: Bytes, n: nat)
    requires Shape(fs) && Removed(fs, fs', d, name, n)
    ensures Shape(fs')
  {
    hide Entries;
    forall q | q in fs.names
      ensures DirShape(fs', q)
    {
      assert DirShape(fs, q);
    }
  }

  lemma RemoveParents(fs: Fs, fs': Fs, d: nat, name: Bytes, n: nat)
    requires Shape(fs) && Shape(fs') && Parents(fs) && Removed(fs, fs', d, name, n)
    ensures Parents(fs')
  {
    hide Shape, Entries;
    RootIsDir(fs);
    RootIsDir(fs');
    forall q | q in fs.names
      ensures DOTDOT in fs.names[q] && DOTDOT in fs'.names[q] && fs'.names[q][DOTDOT] == fs.names[q][DOTDOT]
    {
      HasDots(fs, q);
    }
    assert forall p, m, x :: Child(fs', p, m, x) ==> Child(fs, p, m, x);
    forall q | Alive(fs', q) && q != ROOTINO
      ensures HasParent(fs', q)
    {
      assert HasParent(fs, q);
      var m :| Child(fs, fs.names[q][DOTDOT], m, q);
      assert Child(fs', fs'.names[q][DOTDOT], m, q);
    }
  }

  lemma RemoveEntries(fs: Fs, fs': Fs, d: nat, name: Bytes, n: nat, x: nat)
    requires Removed(fs, fs', d, name, n)
    ensures Entries(fs', x) == Entries(fs, x) - {(d, name), (n, DOTDOT)}
  {
    var S := Entries(fs, x) - {(d, name), (n, DOTDOT)};
    forall q: nat, m: Bytes
      ensures (q, m) in S <==> Counts(fs', q, m, x)
    {
      InEntries(fs, x, q, m);
    }
    EntriesAre(fs', x, S);
  }

  /** unlink of an empty directory. */
  lemma UnlinkDirKeeps(fs: Fs, d: nat, name: Bytes)
    requires Inv(fs) && Enabled(fs, Unlink(d, name)) && fs.names[d][name] in fs.names
    ensures Inv(Apply(fs, Unlink(d, name)))
  {
    hide Shape, Parents, Entries;
    var fs', n := Apply(fs, Unlink(d, name)), fs.names[d][name];
    UnlinkFinds(fs, d, name);
    EmptyNamedOnce(fs, d, name, n);
    assert Counts(fs, n, DOTDOT, d);
    TwoLinks(fs, d, n);
    assert fs.nlink[n] == 1;
    assert Removed(fs, fs', d, name, n);
    RemoveShape(fs, fs', d, name, n);
    RemoveParents(fs, fs', d, name, n);
    forall x | x in fs'.nlink
      ensures fs'.nlink[x] == |Entries(fs', x)|
    {
      RemoveEntries(fs, fs', d, name, n, x);
      InEntries(fs, x, d, name);
      InEntries(fs, x, n, DOTDOT);
      var S := Entries(fs, x);
      if x == d {
        assert S - {(d, name), (n, DOTDOT)} == S - {(n, DOTDOT)};
      } else if x != n {
        assert S - {(d, name), (n, DOTDOT)} == S;
      }
    }
  }

  // ---- Every step, every run ----

  /** Create in a removed directory: the new inode has a count but no entry that counts. */
  lemma CreateInRemoved(fs: Fs, op: Op)
    requires Inv(fs) && (op.Create? || op.Link?) && Enabled(fs, op) && !Alive(fs, op.d)
    ensures !Inv(Apply(fs, op)) && Entries(Apply(fs, op), op.n) == Entries(fs, op.n)
  {
    hide Shape, Parents, Entries;
    var fs', d, n := Apply(fs, op), op.d, op.n;
    NewName(fs, d, op.name);
    DirsAllocated(fs);
    forall q: nat, m: Bytes
      ensures (q, m) in Entries(fs, n) <==> Counts(fs', q, m, n)
    {
      InEntries(fs, n, q, m);
    }
    EntriesAre(fs', n, Entries(fs, n));
    if n !in fs.nlink {
      Unnamed(fs, n);
    }
    assert fs'.nlink[n] == |Entries(fs, n)| + 1;
  }

  /** Mkdir in a removed directory brings the directory back, and with it an entry for its old parent. */
  lemma MkdirInRemoved(fs: Fs, op: Op)
    requires Inv(fs) && op.Mkdir? && Enabled(fs, op) && !Alive(fs, op.d)
    ensures !Inv(Apply(fs, op))
  {
    hide Parents, Entries;
    var fs', d, n := Apply(fs, op), op.d, op.n;
    NewName(fs, d, op.name);
    assert DirShape(fs, d);
    var p := fs.names[d][DOTDOT];
    assert Alive(fs', d) && Counts(fs', d, DOTDOT, p);
    if Inv(fs') {
      NamesAllocated(fs', d, DOTDOT, p);
      InEntries(fs', p, d, DOTDOT);
      if p == n {
        InEntries(fs', n, d, op.name);
        AtLeastTwo(Entries(fs', n), (d, DOTDOT), (d, op.name));
        assert false;
      } else {
        MoreEntries(fs, fs', d, n, p);
        assert false;
      }
    }
  }

  /** The parent of the directory that came back gains an entry. */
  lemma MoreEntries(fs: Fs, fs': Fs, d: nat, n: nat, p: nat)
    requires !Alive(fs, d) && d in fs.names && n !in fs.names && p != n && p != d
    requires Counts(fs', d, DOTDOT, p)
    requires forall q, m | Counts(fs, q, m, p) :: Counts(fs', q, m, p)
    ensures |Entries(fs', p)| > |Entries(fs, p)|
  {
    forall e | e in Entries(fs, p)
      ensures e in Entries(fs', p) - {(d, DOTDOT)}
    {
      InEntries(fs, p, e.0, e.1);
      InEntries(fs', p, e.0, e.1);
    }
    InEntries(fs', p, d, DOTDOT);
    BufCache.SubsetSize(Entries(fs, p), Entries(fs', p) - {(d, DOTDOT)});
  }

  /** An operation keeps the counts right if and only if the directory that gets a new entry has not been
      removed. */
  lemma StepExact(fs: Fs, op: Op)
    requires Inv(fs) && Enabled(fs, op)
    ensures Inv(Apply(fs, op)) <==> InLinked(fs, op)
  {
    hide Inv, Enabled, Apply;
    match op {
      case Create(d, name, n) =>
        if Alive(fs, d) { AddKeeps(fs, op); } else { CreateInRemoved(fs, op); }
      case Link(d, name, n) =>
        if Alive(fs, d) { AddKeeps(fs, op); } else { CreateInRemoved(fs, op); }
      case Mkdir(d, name, n) =>
        if Alive(fs, d) { MkdirKeeps(fs, op); } else { MkdirInRemoved(fs, op); }
      case Unlink(d, name) => UnlinkKeeps(fs, d, name);
      case Free(n) => FreeKeeps(fs, op);
    }
  }

  lemma UnlinkKeeps(fs: Fs, d: nat, name: Bytes)
    requires Inv(fs) && Enabled(fs, Unlink(d, name))
    ensures Inv(Apply(fs, Unlink(d, name)))
  {
    hide Inv, Apply;
    if fs.names[d][name] in fs.names {
      UnlinkDirKeeps(fs, d, name);
    } else {
      UnlinkFileKeeps(fs, d, name);
    }
  }

  /** What path lookup finds after an operation: a new name leads to its inode, a removed one nowhere, and
      every other name in a directory that was there and still is leads where it led. */
  lemma StepNames(fs: Fs, op: Op, q: nat, m: Bytes)
    requires Inv(fs) && Enabled(fs, op)
    ensures op.Create? || op.Mkdir? || op.Link? ==> Resolve(Apply(fs, op).names, op.d, [op.name]) == Some(op.n)
    ensures op.Mkdir? ==>
              && Resolve(Apply(fs, op).names, op.n, [DOT]) == Some(op.n)
              && Resolve(Apply(fs, op).names, op.n, [DOTDOT]) == Some(op.d)
    ensures op.Unlink? ==> Resolve(Apply(fs, op).names, op.d, [op.name]) == None
    ensures op.Free? ==> op.n !in Apply(fs, op).names && op.n !in Apply(fs, op).nlink
    ensures q in fs.names && q in Apply(fs, op).names && (op.Free? || q != op.d || m != op.name) ==>
              Resolve(Apply(fs, op).names, q, [m]) == Resolve(fs.names, q, [m])
  {
    hide Inv;
    InvShape(fs);
    DirsAllocated(fs);
    assert [m][1..] == [];
    assert [DOT][1..] == [] && [DOTDOT][1..] == [];
    if !op.Free? {
      assert [op.name][1..] == [];
    }
  }

  /** The file system that mkfs makes, as far as links go: the root, which names itself. */
  function Fresh(): Fs {
    Fs(map[ROOTINO := Dots(ROOTINO, ROOTINO)], map[ROOTINO := 1])
  }

  lemma FreshOk()
    ensures Inv(Fresh())
  {
    var fs := Fresh();
    assert DirShape(fs, ROOTINO);
    EntriesAre(fs, ROOTINO, {(ROOTINO, DOTDOT)});
  }

  /** The states run[0], run[1], ... that the operations lead through. */
  ghost predicate IsRun(run: seq<Fs>, ops: seq<Op>) {
    |run| == |ops| + 1 && forall k | 0 <= k < |ops| :: Enabled(run[k], ops[k]) && run[k + 1] == Apply(run[k], ops[k])
  }

  /** Over every run the counts stay right if and only if no new entry is made in a removed directory. */
  lemma {:induction false} RunExact(run: seq<Fs>, ops: seq<Op>)
    requires IsRun(run, ops) && Inv(run[0])
    ensures (forall k | 0 <= k < |run| :: Inv(run[k])) <==> forall k | 0 <= k < |ops| :: InLinked(run[k], ops[k])
  {
    hide Inv, Enabled, Apply, InLinked;
    if forall k | 0 <= k < |run| :: Inv(run[k]) {
      forall k | 0 <= k < |ops|
        ensures InLinked(run[k], ops[k])
      {
        assert Inv(run[k + 1]);
        StepExact(run[k], ops[k]);
      }
    }
    if forall k | 0 <= k < |ops| :: InLinked(run[k], ops[k]) {
      forall k | 0 <= k < |run|
        ensures Inv(run[k])
      {
        RunKeeps(run, ops, k);
      }
    }
  }

  lemma {:induction false} RunKeeps(run: seq<Fs>, ops: seq<Op>, k: nat)
    requires IsRun(run, ops) && Inv(run[0]) && k < |run|
    requires forall j | 0 <= j < |ops| :: InLinked(run[j], ops[j])
    ensures Inv(run[k])
  {
    hide Inv, Enabled, Apply, InLinked;
    if k > 0 {
      RunKeeps(run, ops, k - 1);
      StepExact(run[k - 1], ops[k - 1]);
    }
  }

  /** An inode's count is zero, so that the last inode_put frees it, if and only if no directory names it. */
  lemma ZeroExact(fs: Fs, n: nat)
    requires Inv(fs) && n in fs.nlink
    ensures fs.nlink[n] == 0 <==> forall d, m | Alive(fs, d) && m in fs.names[d] :: fs.names[d][m] != n
  {
    hide Shape, Parents, Entries;
    if fs.nlink[n] == 0 {
      forall d, m | Alive(fs, d) && m in fs.names[d]
        ensures fs.names[d][m] != n
      {
        NothingNames(fs, n, d, m);
      }
    } else {
      assert Entries(fs, n) != {};
      var e :| e in Entries(fs, n);
      InEntries(fs, n, e.0, e.1);
      assert Alive(fs, e.0) && e.1 in fs.names[e.0];
    }
  }

  /** A directory entry names an inode with a link. */
  lemma NamedIsLinked(fs: Fs, d: nat, m: Bytes)
    requires Inv(fs) && Alive(fs, d) && m in fs.names[d]
    ensures fs.names[d][m] in fs.nlink && fs.nlink[fs.names[d][m]] > 0
  {
    hide Parents, Entries;
    var n := fs.names[d][m];
    assert DirShape(fs, d);
    InEntries(fs, n, d, m);
    assert m != DOT ==> Entries(fs, n) != {};
  }

  /** The tree has these counts, and its directories stand for these maps. */
  ghost predicate Shows(tree: Tree, fs: Fs) {
    && tree.Keys == fs.nlink.Keys && (forall n | n in tree :: tree[n].nlink == fs.nlink[n])
    && (forall d | d in fs.names :: d in tree && tree[d].dir && DirSpec.Represents(tree[d].content, fs.names[d]))
    && (forall d | d in tree && tree[d].dir :: d in fs.names)
  }

  /** While no removed directory is around, path lookup finds all that it relies on. */
  lemma LookupMayWalk(tree: Tree, fs: Fs, s: seq<Cached>)
    requires Inv(fs) && Shows(tree, fs) && forall d | d in fs.names :: Alive(fs, d)
    ensures Consistent(tree, fs.names, s)
  {
    hide DirSpec.Represents, Inv;
    InvShape(fs);
    forall d, n | d in fs.names && n in fs.names[d]
      ensures Stays(tree, s, fs.names[d][n])
    {
      NamedIsLinked(fs, d, n);
    }
  }

  /** A file made in a removed directory: mkdir a, rmdir a, then creating b in it. The file's count is 1
      and no directory that has not been removed names it. */
  lemma Orphan(fs: Fs, d: nat, a: Bytes, n: nat, b: Bytes, f: nat) returns (run: seq<Fs>)
    requires Inv(fs) && Alive(fs, d) && a !in fs.names[d] && n !in fs.nlink && f !in fs.nlink && f != n
    requires b != DOT && b != DOTDOT
    ensures IsRun(run, [Mkdir(d, a, n), Unlink(d, a), Create(n, b, f)]) && run[0] == fs
    ensures Inv(run[1]) && Inv(run[2]) && !Inv(run[3])
    ensures f in run[3].nlink && run[3].nlink[f] == 1 && Entries(run[3], f) == {}
  {
    hide Inv, Entries;
    OrphanStart(fs, d, a, n);
    var s1 := Apply(fs, Mkdir(d, a, n));
    StepExact(fs, Mkdir(d, a, n));
    var s2 := Apply(s1, Unlink(d, a));
    StepExact(s1, Unlink(d, a));
    var op := Create(n, b, f);
    CreateInRemoved(s2, op);
    InvShape(s2);
    Unnamed(s2, f);
    run := [fs, s1, s2, Apply(s2, op)];
  }

  lemma OrphanStart(fs: Fs, d: nat, a: Bytes, n: nat)
    requires Inv(fs) && Alive(fs, d) && a !in fs.names[d] && n !in fs.nlink
    ensures a != DOT && a != DOTDOT && n !in fs.names && n != d
  {
    NewName(fs, d, a);
  }

  lemma InvShape(fs: Fs)
    requires Inv(fs)
    ensures Shape(fs)
  {
  }
}
