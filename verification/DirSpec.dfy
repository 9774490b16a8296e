/** Directories as byte arrays of 16-byte entries (kern/fs/dir.h), and the map from names to inode
    numbers they stand for. An entry is a 16-bit inode number, 0 when free, and a name field of 14
    bytes, padded with zeros. */
module DirSpec {
  import opened Params
  import opened Blocks
  import opened FileBytes

  type Bytes = seq<Byte>
  const ENTRY: nat := 16

  /** A C string's bytes, without the terminator. */
  ghost predicate IsString(s: Bytes) {
    forall i | 0 <= i < |s| :: s[i] != 0
  }

  /** The name as a directory can hold it. */
  function Cut(name: Bytes): (r: Bytes)
    ensures r <= name && |r| == if |name| < DIRSIZ then |name| else DIRSIZ
  {
    if |name| <= DIRSIZ then name else name[..DIRSIZ]
  }

  /** strncpy into the name field. */
  function Pad(name: Bytes): (r: Bytes)
    ensures |r| == DIRSIZ
  {
    Cut(name) + seq(DIRSIZ - |Cut(name)|, _ => 0)
  }

  /** The name a field holds: its bytes up to the first zero. */
  function Canon(field: Bytes): Bytes {
    if field == [] || field[0] == 0 then [] else [field[0]] + Canon(field[1..])
  }

  /** strncmp(p, q, n) == 0, as its loop decides it; q is a terminated string. */
  predicate SameName(p: Bytes, q: Bytes, n: nat)
    requires n <= |p| && |q| > 0 && q[|q| - 1] == 0
  {
    if n > 0 && p[0] != 0 && p[0] == q[0] && |q| > 1 then SameName(p[1..], q[1..], n - 1)
    else n == 0 || p[0] == q[0]
  }

  lemma {:induction false} CanonOfPad(name: Bytes, zeros: Bytes)
    requires IsString(name) && forall i | 0 <= i < |zeros| :: zeros[i] == 0
    ensures Canon(name + zeros) == name
  {
    if name != [] {
      assert (name + zeros)[1..] == name[1..] + zeros;
      CanonOfPad(name[1..], zeros);
    }
  }

  /** Comparing with strncmp is comparing the held name with the cut name. */
  lemma {:induction false} SameNameIsEqual(p: Bytes, name: Bytes, n: nat)
    requires |p| == n && IsString(name)
    ensures SameName(p, name + [0], n) <==> Canon(p) == if |name| <= n then name else name[..n]
  {
    var q := name + [0];
    if n > 0 {
      if name != [] && p[0] == name[0] {
        assert q[1..] == name[1..] + [0];
        SameNameIsEqual(p[1..], name[1..], n - 1);
        var cut := if |name| <= n then name else name[..n];
        var cut1 := if |name[1..]| <= n - 1 then name[1..] else name[1..][..n - 1];
        assert cut == [name[0]] + cut1;
      }
    }
  }

  // ---- Entries ----

  function Slots(c: Bytes): nat {
    |c| / ENTRY
  }

  ghost predicate Whole(c: Bytes) {
    |c| == ENTRY * Slots(c)
  }

  function EntryInum(e: Bytes): nat
    requires |e| == ENTRY
  {
    e[0] as nat + 0x100 * e[1] as nat
  }

  function EntryName(e: Bytes): Bytes
    requires |e| == ENTRY
  {
    Canon(e[2..])
  }

  /** Entry k of a directory. */
  function Slot(c: Bytes, k: nat): (e: Bytes)
    requires k < Slots(c)
    ensures |e| == ENTRY
  {
    c[ENTRY * k..ENTRY * k + ENTRY]
  }

  predicate Live(c: Bytes, k: nat)
    requires k < Slots(c)
  {
    EntryInum(Slot(c, k)) != 0
  }

  function Named(c: Bytes, k: nat): Bytes
    requires k < Slots(c)
  {
    EntryName(Slot(c, k))
  }

  /** An entry as dir_link writes it: the number is cut to 16 bits. */
  function Encode(inum: nat, name: Bytes): (e: Bytes)
    ensures |e| == ENTRY
  {
    [inum % 0x100, inum / 0x100 % 0x100] + Pad(name)
  }

  lemma EncodeReadsBack(inum: nat, name: Bytes)
    requires IsString(name)
    ensures EntryInum(Encode(inum, name)) == inum % TWO16 && EntryName(Encode(inum, name)) == Cut(name)
  {
    var e := Encode(inum, name);
    assert e[2..] == Pad(name);
    CanonOfPad(Cut(name), seq(DIRSIZ - |Cut(name)|, _ => 0));
    assert inum % 0x1_0000 == inum % 0x100 + 0x100 * (inum / 0x100 % 0x100);
  }

  /** Writing one entry changes that entry alone. */
  lemma SlotAfterWrite(c: Bytes, k: nat, e: Bytes, j: nat)
    requires Whole(c) && |e| == ENTRY && k <= Slots(c) && (j < Slots(c) || j == k)
    ensures ENTRY * k <= |c|
    ensures var c' := Splice(c, ENTRY * k, e);
            && Whole(c') && Slots(c') == (if k == Slots(c) then k + 1 else Slots(c))
            && Slot(c', j) == if j == k then e else Slot(c, j)
  {
    var c' := Splice(c, ENTRY * k, e);
    assert |c'| == if k == Slots(c) then |c| + ENTRY else |c|;
    assert forall i | 0 <= i < |c'| :: c'[i] == if ENTRY * k <= i < ENTRY * k + ENTRY then e[i - ENTRY * k] else c[i];
    if j < k {
      assert ENTRY * j + ENTRY <= ENTRY * k;
    } else if j > k {
      assert ENTRY * k + ENTRY <= ENTRY * j;
    }
  }

  // ---- The map ----

  type NameMap = map<Bytes, nat>

  ghost predicate UniqueNames(c: Bytes) {
    forall i, j | 0 <= i < j < Slots(c) && Live(c, i) && Live(c, j) :: Named(c, i) != Named(c, j)
  }

  ghost predicate HasName(c: Bytes, n: Bytes) {
    exists k :: 0 <= k < Slots(c) && Live(c, k) && Named(c, k) == n
  }

  /** The directory stands for the map m, with each live name once. */
  ghost predicate Represents(c: Bytes, m: NameMap) {
    && Whole(c) && UniqueNames(c)
    && (forall k | 0 <= k < Slots(c) && Live(c, k) :: Named(c, k) in m && m[Named(c, k)] == EntryInum(Slot(c, k)))
    && (forall n | n in m :: HasName(c, n))
  }

  /** dir_lookup's scan from entry k: the first live entry with the name, or the number of entries. */
  function Find(c: Bytes, name: Bytes, k: nat): (r: nat)
    requires k <= Slots(c)
    ensures k <= r <= Slots(c)
    ensures r < Slots(c) ==> Live(c, r) && Named(c, r) == Cut(name)
    ensures forall j | k <= j < r :: !(Live(c, j) && Named(c, j) == Cut(name))
    decreases Slots(c) - k
  {
    if k == Slots(c) || (Live(c, k) && Named(c, k) == Cut(name)) then k else Find(c, name, k + 1)
  }

  /** dir_link's scan from entry k: the first free entry, or the number of entries. */
  function FindFree(c: Bytes, k: nat): (r: nat)
    requires k <= Slots(c)
    ensures k <= r <= Slots(c)
    ensures r < Slots(c) ==> !Live(c, r)
    ensures forall j | k <= j < r :: Live(c, j)
    decreases Slots(c) - k
  {
    if k == Slots(c) || !Live(c, k) then k else FindFree(c, k + 1)
  }

  /** Lookup is looking up in the map. */
  lemma FindIsLookup(c: Bytes, m: NameMap, name: Bytes)
    requires Represents(c, m)
    ensures var k := Find(c, name, 0);
            && (k < Slots(c) <==> Cut(name) in m)
            && (k < Slots(c) ==> m[Cut(name)] == EntryInum(Slot(c, k)))
  {
    hide Named, Live;
    if Cut(name) in m {
      assert HasName(c, Cut(name));
    }
  }

  /** The map with a new entry, as 16 bits of the number leave it: a multiple of 2^16 is no entry. */
  function Stored(m: NameMap, name: Bytes, inum: nat): NameMap {
    if inum % TWO16 == 0 then m else m[Cut(name) := inum % TWO16]
  }

  /** Linking a new name adds exactly it, whether it reuses a free entry or grows the directory. */
  lemma LinkAdds(c: Bytes, m: NameMap, k: nat, inum: nat, name: Bytes)
    requires Represents(c, m) && IsString(name) && Cut(name) !in m
    requires k <= Slots(c) && (k < Slots(c) ==> !Live(c, k))
    ensures ENTRY * k <= |c|
    ensures Represents(Splice(c, ENTRY * k, Encode(inum, name)), Stored(m, name, inum))
  {
    hide Encode, Splice, Slot, EntryName, EntryInum;
    var e := Encode(inum, name);
    EncodeReadsBack(inum, name);
    SlotAfterWrite(c, k, e, k);
    var c', m' := Splice(c, ENTRY * k, e), Stored(m, name, inum);
    forall j | 0 <= j < Slots(c')
      ensures Slot(c', j) == if j == k then e else Slot(c, j)
    {
      SlotAfterWrite(c, k, e, j);
    }
    assert Live(c', k) == (inum % TWO16 != 0) && Named(c', k) == Cut(name);
    forall n | n in m'
      ensures HasName(c', n)
    {
      if n != Cut(name) {
        assert HasName(c, n);
        var j :| 0 <= j < Slots(c) && Live(c, j) && Named(c, j) == n;
        assert Live(c', j) && Named(c', j) == n;
      }
    }
  }

  /** A directory stands for one map only. */
  lemma OneMap(c: Bytes, m: NameMap, m': NameMap)
    requires Represents(c, m) && Represents(c, m')
    ensures m == m'
  {
    hide Named, Live;
    forall n
      ensures n in m <==> n in m'
      ensures n in m && n in m' ==> m[n] == m'[n]
    {
      assert n in m ==> HasName(c, n);
      assert n in m' ==> HasName(c, n);
    }
  }

  /** dir_link does what its comment says if and only if the number fits 16 bits. */
  lemma LinkExact(c: Bytes, m: NameMap, k: nat, inum: nat, name: Bytes)
    requires Represents(c, m) && IsString(name) && Cut(name) !in m && inum > 0
    requires k <= Slots(c) && (k < Slots(c) ==> !Live(c, k))
    ensures ENTRY * k <= |c|
    ensures Represents(Splice(c, ENTRY * k, Encode(inum, name)), m[Cut(name) := inum]) <==> inum < TWO16
  {
    hide Represents, Encode, Splice, Live;
    LinkAdds(c, m, k, inum, name);
    var c' := Splice(c, ENTRY * k, Encode(inum, name));
    if Represents(c', m[Cut(name) := inum]) {
      OneMap(c', m[Cut(name) := inum], Stored(m, name, inum));
      assert Cut(name) in m[Cut(name) := inum];
    }
  }

  /** Linking inode 65536 under a new name succeeds and adds nothing. */
  lemma LostLink(c: Bytes, m: NameMap, name: Bytes)
    requires Represents(c, m) && IsString(name) && Cut(name) !in m
    ensures Represents(Apply(c, Link(name, 65536)), m)
  {
    hide Represents;
    StepRefines(c, m, Link(name, 65536));
  }

  /** A zeroed entry, as unlink writes it. */
  function ZeroEntry(): Bytes {
    seq(ENTRY, _ => 0)
  }

  /** Unlinking removes exactly the entry's name. */
  lemma UnlinkRemoves(c: Bytes, m: NameMap, k: nat)
    requires Represents(c, m) && k < Slots(c) && Live(c, k)
    ensures ENTRY * k <= |c| && Named(c, k) in m
    ensures Represents(Splice(c, ENTRY * k, ZeroEntry()), m - {Named(c, k)})
  {
    hide Splice, Slot, EntryName;
    var e := ZeroEntry();
    SlotAfterWrite(c, k, e, k);
    var c', m' := Splice(c, ENTRY * k, e), m - {Named(c, k)};
    forall j | 0 <= j < Slots(c')
      ensures Slot(c', j) == if j == k then e else Slot(c, j)
    {
      SlotAfterWrite(c, k, e, j);
    }
    assert !Live(c', k);
    forall n | n in m'
      ensures HasName(c', n)
    {
      assert HasName(c, n);
      var j :| 0 <= j < Slots(c) && Live(c, j) && Named(c, j) == n;
      assert Live(c', j) && Named(c', j) == n;
    }
  }

  // ---- Runs ----

  datatype Op = Link(name: Bytes, inum: nat) | Unlink(name: Bytes)

  /** The bytes after an operation, as the code computes them. */
  ghost function Apply(c: Bytes, op: Op): Bytes
    requires Whole(c)
  {
    match op
    case Link(name, inum) =>
      if Find(c, name, 0) < Slots(c) then c else
        var k := FindFree(c, 0);
        SlotAfterWrite(c, k, Encode(inum, name), k);
        Splice(c, ENTRY * k, Encode(inum, name))
    case Unlink(name) =>
      var k := Find(c, name, 0);
      if k == Slots(c) then c else
        SlotAfterWrite(c, k, ZeroEntry(), k);
        Splice(c, ENTRY * k, ZeroEntry())
  }

  /** The same operation on the map, with 16 bits of each number. */
  function ApplyMap(m: NameMap, op: Op): NameMap {
    match op
    case Link(name, inum) => if Cut(name) in m then m else Stored(m, name, inum)
    case Unlink(name) => m - {Cut(name)}
  }

  /** The same operation on the map, with whole numbers. */
  function Meant(m: NameMap, op: Op): NameMap {
    match op
    case Link(name, inum) => if Cut(name) in m then m else m[Cut(name) := inum]
    case Unlink(name) => m - {Cut(name)}
  }

  /** Names are C strings, and inode numbers start at 1. */
  ghost predicate OpOk(op: Op) {
    IsString(op.name) && (op.Link? ==> op.inum > 0)
  }

  /** A number that is to be stored fits. */
  predicate Narrow(m: NameMap, op: Op) {
    op.Link? && Cut(op.name) !in m ==> op.inum < TWO16
  }

  /** An operation does to the map what it is meant to if and only if the number it stores fits. */
  lemma StepExact(c: Bytes, m: NameMap, op: Op)
    requires Represents(c, m) && OpOk(op)
    ensures Represents(Apply(c, op), Meant(m, op)) <==> Narrow(m, op)
  {
    hide Represents, Splice, Encode, Live;
    StepRefines(c, m, op);
    WholeOf(c, m);
    if op.Link? && Cut(op.name) !in m {
      FindIsLookup(c, m, op.name);
      LinkExact(c, m, FindFree(c, 0), op.inum, op.name);
    }
  }

  lemma WholeOf(c: Bytes, m: NameMap)
    requires Represents(c, m)
    ensures Whole(c)
  {
  }

  lemma StepRefines(c: Bytes, m: NameMap, op: Op)
    requires Represents(c, m) && OpOk(op)
    ensures Represents(Apply(c, op), ApplyMap(m, op))
  {
    hide Splice, Encode, Slot, UniqueNames, HasName;
    match op {
      case Link(name, inum) =>
        FindIsLookup(c, m, name);
        if Cut(name) !in m {
          LinkAdds(c, m, FindFree(c, 0), inum, name);
        }
      case Unlink(name) =>
        FindIsLookup(c, m, name);
        var k := Find(c, name, 0);
        if k < Slots(c) {
          UnlinkRemoves(c, m, k);
        } else {
          assert m - {Cut(name)} == m;
        }
    }
  }

  /** A slot is free again after unlink, and link reuses free slots before it grows the directory. */
  lemma ReuseBeforeGrowth(c: Bytes, name: Bytes, inum: nat)
    requires Whole(c) && Find(c, name, 0) == Slots(c)
    ensures Slots(Apply(c, Link(name, inum))) > Slots(c) <==> forall k | 0 <= k < Slots(c) :: Live(c, k)
  {
    var k := FindFree(c, 0);
    SlotAfterWrite(c, k, Encode(inum, name), k);
  }

  ghost function AfterOps(c: Bytes, m: NameMap, ops: seq<Op>): (r: Bytes)
    requires Represents(c, m) && forall op | op in ops :: OpOk(op)
    decreases |ops|
  {
    if ops == [] then c else
      StepRefines(c, m, ops[0]);
      AfterOps(Apply(c, ops[0]), ApplyMap(m, ops[0]), ops[1..])
  }

  function AfterMap(m: NameMap, ops: seq<Op>): NameMap
    decreases |ops|
  {
    if ops == [] then m else AfterMap(ApplyMap(m, ops[0]), ops[1..])
  }

  /** Over every sequence of links and unlinks the directory's bytes stand for the map. */
  lemma {:induction false} RunRefines(c: Bytes, m: NameMap, ops: seq<Op>)
    requires Represents(c, m) && forall op | op in ops :: OpOk(op)
    ensures Represents(AfterOps(c, m, ops), AfterMap(m, ops))
    decreases |ops|
  {
    hide UniqueNames, HasName, Apply, ApplyMap, OpOk;
    if ops != [] {
      assert ops[0] in ops && forall op | op in ops[1..] :: op in ops;
      StepRefines(c, m, ops[0]);
      RunRefines(Apply(c, ops[0]), ApplyMap(m, ops[0]), ops[1..]);
    }
  }

  lemma EmptyDirectory()
    ensures Represents([], map[])
  {
  }

  /** So does the content of a directory that began empty. */
  lemma FromEmpty(ops: seq<Op>)
    requires forall op | op in ops :: OpOk(op)
    ensures Represents([], map[]) && Represents(AfterOps([], map[], ops), AfterMap(map[], ops))
  {
    hide Represents;
    EmptyDirectory();
    RunRefines([], map[], ops);
  }

  /** Every operation of the run does what it is meant to. */
  ghost predicate AsMeant(c: Bytes, m: NameMap, ops: seq<Op>)
    requires Whole(c)
    decreases |ops|
  {
    ops != [] ==>
      && Represents(Apply(c, ops[0]), Meant(m, ops[0]))
      && AsMeant(Apply(c, ops[0]), Meant(m, ops[0]), ops[1..])
  }

  predicate NarrowRun(m: NameMap, ops: seq<Op>)
    decreases |ops|
  {
    ops != [] ==> Narrow(m, ops[0]) && NarrowRun(Meant(m, ops[0]), ops[1..])
  }

  /** Over every run, all operations do what they are meant to if and only if every stored number fits
      16 bits. */
  lemma {:induction false} RunExact(c: Bytes, m: NameMap, ops: seq<Op>)
    requires Represents(c, m) && Whole(c) && forall op | op in ops :: OpOk(op)
    ensures AsMeant(c, m, ops) <==> NarrowRun(m, ops)
    decreases |ops|
  {
    hide Represents, Narrow, Meant, OpOk;
    if ops != [] {
      StepExact(c, m, ops[0]);
      if Narrow(m, ops[0]) {
        WholeOf(Apply(c, ops[0]), Meant(m, ops[0]));
        RunExact(Apply(c, ops[0]), Meant(m, ops[0]), ops[1..]);
      }
    }
  }
}
