/** Crashes and boots. Each boot finds the log from the superblock of the disk it is given (log_init of
    kern/fs/log.c), replays it and erases it; a crash may stop it after any sector write, and the next
    boot starts over from that disk. */
module Boot {
  import opened Params
  import opened Blocks
  import opened Layout
  import opened LogSpec

  /** The log's first sector and its length, as sector 1 gives them. */
  function LogStart(d: Disk): nat {
    if |d| > 1 && SbNlog(d[1]) <= SbSize(d[1]) then SbSize(d[1]) - SbNlog(d[1]) else 0
  }

  function LogSize(d: Disk): nat {
    if |d| > 1 then SbNlog(d[1]) else 0
  }

  /** Two superblocks put the log at the same place. */
  predicate SamePlace(b: Block, c: Block) {
    SbSize(b) == SbSize(c) && SbNlog(b) == SbNlog(c)
  }

  /** A disk that log_init can recover. */
  ghost predicate Bootable(d: Disk) {
    && 1 < |d| < TWO32 && SbNlog(d[1]) <= SbSize(d[1]) <= |d|
    && WellFormed(d, LogStart(d))
  }

  /** The disk when a boot stops after its k-th sector write. */
  ghost function BootImage(d: Disk, k: nat): Disk {
    if Bootable(d) then RecoveryImage(d, LogStart(d), k) else d
  }

  /** The disk after one boot per entry of ks, boot i stopped by a crash after ks[i] sector writes. */
  ghost function AfterBoots(d: Disk, ks: seq<nat>): Disk
    decreases |ks|
  {
    if ks == [] then d else AfterBoots(BootImage(d, ks[0]), ks[1..])
  }

  /** A boot of r that completes has the log at this place and these home sectors. */
  ghost predicate Ends(r: Disk, start: nat, size: nat, home: Disk) {
    Bootable(r) && LogStart(r) == start && LogSize(r) == size && Durable(r, start) == home
  }

  /** However often booting from d crashes, the first boot that completes has the log at this place and
      these home sectors. */
  ghost predicate BootsTo(d: Disk, start: nat, size: nat, home: Disk) {
    forall ks: seq<nat> :: Ends(AfterBoots(d, ks), start, size, home)
  }

  /** Replaying the log of d does not move the log: its header is not the superblock, and a logged
      superblock names the same place. */
  ghost predicate Rooted(d: Disk) {
    && Bootable(d) && LogStart(d) != 1
    && forall i | 0 <= i < Count(d, LogStart(d)) && HomeSector(d, LogStart(d), i) == 1 ::
         SamePlace(d[LogStart(d) + 1 + i], d[1])
  }

  lemma {:induction false} InstallKeepsPlace(d: Disk, k: nat)
    requires Rooted(d) && k <= Count(d, LogStart(d))
    ensures SamePlace(Installed(d, LogStart(d), k)[1], d[1])
  {
    if k > 0 {
      InstallKeepsPlace(d, k - 1);
    }
  }

  /** A boot that crashes anywhere leaves a disk that is as good: same log, same outcome. */
  lemma CrashKeepsRoot(d: Disk, k: nat)
    requires Rooted(d)
    ensures var p := BootImage(d, k);
            && Rooted(p) && LogStart(p) == LogStart(d) && LogSize(p) == LogSize(d)
            && Recovered(p, LogStart(d)) == Recovered(d, LogStart(d))
  {
    hide Installed, Word;
    var start, p := LogStart(d), BootImage(d, k);
    CrashInRecovery(d, start, k);
    var j := if k <= Count(d, start) then k else Count(d, start);
    InstallKeepsPlace(d, j);
    SameLog(d, start, j);
    ErasedCount(d, start);
    assert start > 0 || Count(d, start) == 0 by {
      assert Count(d, start) > 0 ==> HomeSector(d, start, 0) < start;
    }
    assert |p| == |d| && SamePlace(p[1], d[1]);
  }

  lemma {:induction false} RootedBoots(d: Disk, ks: seq<nat>)
    requires Rooted(d)
    ensures Ends(AfterBoots(d, ks), LogStart(d), LogSize(d), Durable(d, LogStart(d)))
    decreases |ks|
  {
    hide Rooted, Bootable, BootImage, Recovered;
    RootedIsBootable(d);
    if ks != [] {
      CrashKeepsRoot(d, ks[0]);
      RootedIsBootable(BootImage(d, ks[0]));
      RootedBoots(BootImage(d, ks[0]), ks[1..]);
    }
  }

  lemma RootedIsBootable(d: Disk)
    requires Rooted(d)
    ensures Bootable(d) && WellFormed(d, LogStart(d))
  {
  }

  /** However often a boot crashes, recovery ends as if it had not, if and only if the disk's own log does
      not move the log. */
  lemma BootExact(d: Disk)
    requires Bootable(d)
    ensures BootsTo(d, LogStart(d), LogSize(d), Durable(d, LogStart(d))) <==> Rooted(d)
  {
    hide Ends, Rooted, Recovered;
    if Rooted(d) {
      forall ks: seq<nat>
        ensures Ends(AfterBoots(d, ks), LogStart(d), LogSize(d), Durable(d, LogStart(d)))
      {
        RootedBoots(d, ks);
      }
    } else {
      var k := Unrooted(d);
      assert [k][1..] == [];
      assert AfterBoots(d, [k]) == AfterBoots(BootImage(d, k), []) == BootImage(d, k);
      EndsPlace(AfterBoots(d, [k]), LogStart(d), LogSize(d), Durable(d, LogStart(d)));
    }
  }

  lemma EndsPlace(r: Disk, start: nat, size: nat, home: Disk)
    ensures Ends(r, start, size, home) ==> LogStart(r) == start && LogSize(r) == size
  {
  }

  /** A write of the boot of d after which the log is elsewhere. */
  lemma Unrooted(d: Disk) returns (k: nat)
    requires Bootable(d) && !Rooted(d)
    ensures var p := BootImage(d, k); !(LogStart(p) == LogStart(d) && LogSize(p) == LogSize(d))
  {
    hide Word;
    var start := LogStart(d);
    if start == 1 {
      k := Count(d, start) + 1;
      ErasedCount(d, start);
      WordOfSetWord(d[1], 0, 0, 0);
      WordOfSetWord(d[1], 0, 0, 3);
    } else {
      var i :| 0 <= i < Count(d, start) && HomeSector(d, start, i) == 1 && !SamePlace(d[start + 1 + i], d[1]);
      k := i + 1;
      InstalledStep(d, start, i);
      SameLog(d, start, i);
      assert BootImage(d, k)[1] == d[start + 1 + i];
    }
  }

  /** A transaction that moves the log can be torn: if its first copy installs a superblock whose log is
      empty, a crash right after it leaves a disk whose next boot completes with the new superblock and
      every other home sector old. */
  lemma TornByMove(d: Disk, p: Disk)
    requires Bootable(d) && Count(d, LogStart(d)) > 1 && HomeSector(d, LogStart(d), 0) == 1 && p == BootImage(d, 1)
    requires Bootable(p) && Count(p, LogStart(p)) == 0 && LogStart(p) > 1
    ensures var r := Recovered(p, LogStart(p));
            && |r| == |d| && r[1] == d[LogStart(d) + 1]
            && forall t | 0 <= t < |d| && t != 1 && t != LogStart(p) :: r[t] == d[t]
  {
    InstalledStep(d, LogStart(d), 0);
  }

  /** A superblock for a disk of 20 sectors with a log of nlog sectors. */
  function Superblock(nlog: nat): Block
    requires nlog < TWO32
  {
    SetWord(SetWord(ZeroBlock(), 0, 20), 3, nlog)
  }

  lemma SuperblockReads(nlog: nat)
    requires nlog < TWO32
    ensures SbSize(Superblock(nlog)) == 20 && SbNlog(Superblock(nlog)) == nlog
  {
    var b := SetWord(ZeroBlock(), 0, 20);
    WordOfSetWord(ZeroBlock(), 0, 20, 0);
    WordOfSetWord(b, 3, nlog, 0);
    WordOfSetWord(b, 3, nlog, 3);
  }

  /** 20 sectors, all zero but for a superblock, and a committed log from sector 12 that holds a
      superblock with a longer log and then a block x for sector 5. */
  function MovingDisk(x: Block): Disk {
    seq(20, i => MovingSector(x, i))
  }

  function MovingSector(x: Block, i: int): Block {
    if i == 1 then Superblock(8)
    else if i == 12 then SetWord(SetWord(SetWord(ZeroBlock(), 0, 2), 1, 1), 2, 5)
    else if i == 13 then Superblock(10)
    else if i == 14 then x else ZeroBlock()
  }

  lemma MovingDiskReads(x: Block)
    ensures var d := MovingDisk(x);
            && Bootable(d) && LogStart(d) == 12 && Count(d, 12) == 2
            && HomeSector(d, 12, 0) == 1 && HomeSector(d, 12, 1) == 5
  {
    hide Word, SetWord;
    SuperblockReads(8);
    var a := SetWord(ZeroBlock(), 0, 2);
    var b := SetWord(a, 1, 1);
    WordOfSetWord(ZeroBlock(), 0, 2, 0);
    forall j | 0 <= j < 3
      ensures Word(SetWord(b, 2, 5), j) == if j == 0 then 2 else if j == 1 then 1 else 5
    {
      WordOfSetWord(a, 1, 1, j);
      WordOfSetWord(b, 2, 5, j);
    }
  }

  /** An instance: after one copy of recovery and a crash, the next boot leaves the new superblock
      and the old sector 5. */
  lemma TornExample(x: Block) returns (d: Disk, p: Disk)
    requires x != ZeroBlock()
    ensures d == MovingDisk(x) && Bootable(d) && LogStart(d) == 12
    ensures p == BootImage(d, 1) && Bootable(p) && LogStart(p) == 10
    ensures Durable(d, 12)[1] == Superblock(10) && Durable(d, 12)[5] == x != d[5]
    ensures Durable(p, 10)[1] == Superblock(10) && Durable(p, 10)[5] == d[5]
  {
    hide Word, SetWord;
    d := MovingDisk(x);
    MovingDiskReads(x);
    SuperblockReads(10);
    InstalledStep(d, 12, 0);
    InstalledStep(d, 12, 1);
    SameLog(d, 12, 1);
    p := BootImage(d, 1);
    assert p[1] == Superblock(10) && p[10] == ZeroBlock();
    ZeroReads();
    TornByMove(d, p);
  }

  lemma ZeroReads()
    ensures Word(ZeroBlock(), 0) == 0
  {
  }
}
