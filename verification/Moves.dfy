/** Transactions that log a superblock with another log place. A boot after such a superblock is installed
    looks for the log elsewhere, so the rest of the transaction may be lost. This module says, about the
    contents alone, exactly when nothing is: for a move to a place that holds an empty log, if and only if no
    block logged after the superblock changes a sector below both places. */
module Moves {
  import opened Blocks
  import opened Layout
  import opened LogSpec
  import opened Boot

  /** Booting from r completes, and finds these home sectors as far as neither log reaches. */
  ghost predicate Shows(r: Disk, home: Disk) {
    && Bootable(r) && |home| <= |r|
    && forall t | 0 <= t < |home| && t < LogStart(r) :: Recovered(r, LogStart(r))[t] == home[t]
  }

  /** However often booting from d crashes, every boot completes and finds all or nothing. */
  ghost predicate AllOrNone(d: Disk, before: Disk, after: Disk) {
    forall ks: seq<nat> :: Shows(AfterBoots(d, ks), before) || Shows(AfterBoots(d, ks), after)
  }

  /** With the log at its place and one outcome, the contents are all or nothing. */
  lemma PlaceKept(d: Disk, start: nat, size: nat, home: Disk, before: Disk, after: Disk)
    requires BootsTo(d, start, size, home) && |home| == start && (home == before || home == after)
    ensures AllOrNone(d, before, after)
  {
    hide Recovered, Bootable;
    forall ks: seq<nat>
      ensures Shows(AfterBoots(d, ks), home)
    {
      var r := AfterBoots(d, ks);
      assert Ends(r, start, size, home);
      EndsShow(r, start, size, home);
    }
  }

  lemma EndsShow(r: Disk, start: nat, size: nat, home: Disk)
    requires Ends(r, start, size, home) && |home| == start
    ensures Shows(r, home)
  {
    hide Installed, Word;
    forall t | 0 <= t < start
      ensures Recovered(r, start)[t] == home[t]
    {
      assert Durable(r, start)[t] == home[t];
    }
  }

  /** Block j of the log of d is a superblock that puts the log at place `to`, which holds an empty log by
      the time that block is copied, and keeps it. */
  ghost predicate MovesTo(d: Disk, j: nat, to: nat) {
    && Bootable(d) && 1 < LogStart(d) && Once(d, LogStart(d))
    && j < Count(d, LogStart(d)) && HomeSector(d, LogStart(d), j) == 1
    && SbNlog(d[LogStart(d) + 1 + j]) <= SbSize(d[LogStart(d) + 1 + j]) <= |d|
    && to == SbSize(d[LogStart(d) + 1 + j]) - SbNlog(d[LogStart(d) + 1 + j])
    && 1 < to < |d| && to != LogStart(d)
    && (Word(d[to], 0) == 0 || exists i :: 0 <= i < j && HomeSector(d, LogStart(d), i) == to)
    && forall i | 0 <= i < Count(d, LogStart(d)) && HomeSector(d, LogStart(d), i) == to ::
         Word(d[LogStart(d) + 1 + i], 0) == 0
  }

  /** What a partial replay leaves in sector t. */
  lemma {:induction false} InstalledAt(d: Disk, start: nat, m: nat, t: nat)
    requires WellFormed(d, start) && Once(d, start) && m <= Count(d, start) && t < |d|
    ensures forall i | 0 <= i < Count(d, start) && HomeSector(d, start, i) == t ::
      Installed(d, start, m)[t] == if i < m then d[start + 1 + i] else d[t]
    ensures (forall i | 0 <= i < m :: HomeSector(d, start, i) != t) ==> Installed(d, start, m)[t] == d[t]
  {
    hide Word;
    if m > 0 {
      InstalledAt(d, start, m - 1, t);
    }
  }

  /** Replaying over a partial replay takes up where it left off. */
  lemma {:induction false} Reinstalled(d: Disk, start: nat, m: nat, k: nat)
    requires WellFormed(d, start) && Once(d, start) && m <= Count(d, start) && k <= Count(d, start)
    ensures var p := Installed(d, start, m);
            && WellFormed(p, start) && Count(p, start) == Count(d, start)
            && Installed(p, start, k) == Installed(d, start, if k <= m then m else k)
  {
    hide Word;
    SameLog(d, start, m);
    if k > 0 {
      Reinstalled(d, start, m, k - 1);
      if k <= m {
        InstalledAt(d, start, m, HomeSector(d, start, k - 1));
      }
    }
  }

  /** Place `to` has an empty log on p. */
  ghost predicate EmptyAt(p: Disk, to: nat) {
    Bootable(p) && LogStart(p) == to && Count(p, to) == 0
  }

  lemma EraseEmpty(h: Block)
    requires Word(h, 0) == 0
    ensures Erased(h) == h
  {
  }

  /** A boot of a disk whose log is empty leaves it as it is. */
  lemma EmptyBoot(p: Disk, to: nat, k: nat)
    requires EmptyAt(p, to)
    ensures BootImage(p, k) == p && Recovered(p, to) == p
  {
    EraseEmpty(p[to]);
  }

  /** Once the superblock is installed, boots go to the new place and find nothing there. */
  lemma Moved(d: Disk, j: nat, to: nat, m: nat)
    requires MovesTo(d, j, to) && j < m <= Count(d, LogStart(d))
    ensures EmptyAt(Installed(d, LogStart(d), m), to) && EmptyAt(Recovered(d, LogStart(d)), to)
  {
    hide Word, Installed;
    var start, n := LogStart(d), Count(d, LogStart(d));
    InstalledAt(d, start, m, 1);
    InstalledAt(d, start, m, to);
    InstalledAt(d, start, n, 1);
    InstalledAt(d, start, n, to);
  }

  /** Before that, boots go to the old place. */
  lemma Unmoved(d: Disk, j: nat, to: nat, m: nat)
    requires MovesTo(d, j, to) && m <= j
    ensures var p := Installed(d, LogStart(d), m);
            && Bootable(p) && LogStart(p) == LogStart(d) && Count(p, LogStart(d)) == Count(d, LogStart(d))
            && Recovered(p, LogStart(d)) == Recovered(d, LogStart(d))
  {
    hide Word, Installed, Recovered;
    var start := LogStart(d);
    InstalledAt(d, start, m, 1);
    SameLog(d, start, m);
    CrashInRecovery(d, start, m);
  }

  /** The disks that boots of d can leave: d partly replayed, or recovered. */
  ghost predicate Reached(d: Disk, x: Disk)
    requires WellFormed(d, LogStart(d))
  {
    x == Recovered(d, LogStart(d)) || exists m: nat :: m <= Count(d, LogStart(d)) && x == Installed(d, LogStart(d), m)
  }

  lemma ReachedStep(d: Disk, j: nat, to: nat, x: Disk, k: nat)
    requires MovesTo(d, j, to) && Reached(d, x)
    ensures Reached(d, BootImage(x, k))
  {
    hide Word, Installed, Recovered, MovesTo;
    MovesFacts(d, j, to);
    var start, n := LogStart(d), Count(d, LogStart(d));
    if x == Recovered(d, start) {
      Moved(d, j, to, n);
      EmptyBoot(x, to, k);
    } else {
      var m: nat :| m <= n && x == Installed(d, start, m);
      if m <= j {
        Unmoved(d, j, to, m);
        if k <= n {
          Reinstalled(d, start, m, k);
        }
      } else {
        Moved(d, j, to, m);
        EmptyBoot(x, to, k);
      }
    }
  }

  lemma MovesFacts(d: Disk, j: nat, to: nat)
    requires MovesTo(d, j, to)
    ensures WellFormed(d, LogStart(d)) && Once(d, LogStart(d)) && j < Count(d, LogStart(d)) && 1 < LogStart(d) < |d|
    ensures HomeSector(d, LogStart(d), j) == 1 && 1 < to && Bootable(d)
  {
  }

  lemma {:induction false} AllReached(d: Disk, j: nat, to: nat, x: Disk, ks: seq<nat>)
    requires MovesTo(d, j, to) && Reached(d, x)
    ensures Reached(d, AfterBoots(x, ks))
    decreases |ks|
  {
    hide MovesTo, Reached, BootImage;
    MovesFacts(d, j, to);
    if ks != [] {
      ReachedStep(d, j, to, x, ks[0]);
      AllReached(d, j, to, BootImage(x, ks[0]), ks[1..]);
    }
  }

  /** No block logged after the superblock changes a sector below both places. */
  ghost predicate SuperblockLast(d: Disk, j: nat, to: nat)
    requires WellFormed(d, LogStart(d))
  {
    forall i | j < i < Count(d, LogStart(d)) && HomeSector(d, LogStart(d), i) < to ::
      d[LogStart(d) + 1 + i] == d[HomeSector(d, LogStart(d), i)]
  }

  /** A moved disk shows the new contents exactly as far as they are installed. */
  lemma MovedShows(d: Disk, j: nat, to: nat, m: nat)
    requires MovesTo(d, j, to) && j < m <= Count(d, LogStart(d)) && SuperblockLast(d, j, to)
    ensures Shows(Installed(d, LogStart(d), m), Durable(d, LogStart(d)))
  {
    hide Word, Installed, MovesTo, Bootable;
    MovesFacts(d, j, to);
    var start, n, p := LogStart(d), Count(d, LogStart(d)), Installed(d, LogStart(d), m);
    Moved(d, j, to, m);
    EmptyBoot(p, to, 0);
    forall t | 0 <= t < start && t < to
      ensures p[t] == Durable(d, start)[t]
    {
      InstalledAt(d, start, m, t);
      InstalledAt(d, start, n, t);
      assert Durable(d, start)[t] == Installed(d, start, n)[t];
      if i :| 0 <= i < n && HomeSector(d, start, i) == t {
        assert i >= m ==> d[start + 1 + i] == d[t];
      }
    }
  }

  /** The disk right after the superblock's own copy shows the new superblock, and each later block's sector
      as it was. */
  lemma FirstMoved(d: Disk, j: nat, to: nat, i: nat)
    requires MovesTo(d, j, to) && j < i < Count(d, LogStart(d)) && HomeSector(d, LogStart(d), i) < to
    requires d[LogStart(d) + 1 + j] != d[1]
    requires Shows(Installed(d, LogStart(d), j + 1), d[..LogStart(d)])
             || Shows(Installed(d, LogStart(d), j + 1), Durable(d, LogStart(d)))
    ensures d[LogStart(d) + 1 + i] == d[HomeSector(d, LogStart(d), i)]
  {
    hide Word, Installed, MovesTo, Bootable;
    MovesFacts(d, j, to);
    var start, n, p := LogStart(d), Count(d, LogStart(d)), Installed(d, LogStart(d), j + 1);
    var s := HomeSector(d, start, i);
    Moved(d, j, to, j + 1);
    EmptyBoot(p, to, 0);
    InstalledAt(d, start, j + 1, 1);
    InstalledAt(d, start, j + 1, s);
    InstalledAt(d, start, n, s);
    assert p[1] == d[start + 1 + j] && p[s] == d[s] && d[..start][1] == d[1];
    assert Durable(d, start)[s] == Installed(d, start, n)[s];
  }

  /** The superblock logged is another one: it puts the log elsewhere. */
  lemma OtherSuperblock(d: Disk, j: nat, to: nat)
    requires MovesTo(d, j, to)
    ensures d[LogStart(d) + 1 + j] != d[1]
  {
    hide Word;
  }

  /** A committed transaction that moves the log to an empty place is all or nothing over every series of
      crashing boots if and only if no block logged after the superblock changes a sector below both
      places. */
  lemma MovedExact(d: Disk, j: nat, to: nat)
    requires MovesTo(d, j, to) && WellFormed(d, LogStart(d))
    ensures AllOrNone(d, d[..LogStart(d)], Durable(d, LogStart(d))) <==> SuperblockLast(d, j, to)
  {
    hide Word, Installed, Recovered, MovesTo, Bootable, Shows, BootImage;
    MovesFacts(d, j, to);
    var start := LogStart(d);
    var before, after := d[..start], Durable(d, start);
    InstalledStep(d, start, 0);
    if SuperblockLast(d, j, to) {
      forall ks: seq<nat>
        ensures Shows(AfterBoots(d, ks), after)
      {
        AllReached(d, j, to, d, ks);
        ReachedShows(d, j, to, AfterBoots(d, ks));
      }
    }
    if AllOrNone(d, before, after) {
      assert [j + 1][1..] == [];
      assert AfterBoots(d, [j + 1]) == AfterBoots(BootImage(d, j + 1), []) == BootImage(d, j + 1);
      FirstCopies(d, j + 1);
      OtherSuperblock(d, j, to);
      forall i | j < i < Count(d, start) && HomeSector(d, start, i) < to
        ensures d[start + 1 + i] == d[HomeSector(d, start, i)]
      {
        FirstMoved(d, j, to, i);
      }
    }
  }

  lemma FirstCopies(d: Disk, k: nat)
    requires Bootable(d) && k <= Count(d, LogStart(d))
    ensures BootImage(d, k) == Installed(d, LogStart(d), k)
  {
  }

  lemma ReachedShows(d: Disk, j: nat, to: nat, x: Disk)
    requires MovesTo(d, j, to) && WellFormed(d, LogStart(d)) && Reached(d, x) && SuperblockLast(d, j, to)
    ensures Shows(x, Durable(d, LogStart(d)))
  {
    hide Word, Installed, MovesTo, SuperblockLast;
    MovesFacts(d, j, to);
    var start, n := LogStart(d), Count(d, LogStart(d));
    if x == Recovered(d, start) {
      Moved(d, j, to, n);
      EmptyBoot(x, to, 0);
    } else {
      var m: nat :| m <= n && x == Installed(d, start, m);
      if m <= j {
        Unmoved(d, j, to, m);
      } else {
        MovedShows(d, j, to, m);
      }
    }
  }

  /** Keeping the log's place is not necessary: a superblock that is logged last moves the log, and yet all
      or nothing is found. */
  lemma LastIsEnough(d: Disk, j: nat, to: nat)
    requires MovesTo(d, j, to) && WellFormed(d, LogStart(d)) && Count(d, LogStart(d)) == j + 1
    ensures !Rooted(d) && AllOrNone(d, d[..LogStart(d)], Durable(d, LogStart(d)))
  {
    hide Word, Installed, Recovered;
    MovedExact(d, j, to);
  }

  /** The disk of TornExample moves its log from 12 to 10, and its second block changes sector 5: it is not
      all or nothing, unless that block is what sector 5 holds already. */
  lemma ExampleExact(x: Block) returns (d: Disk)
    ensures d == MovingDisk(x) && Bootable(d) && LogStart(d) == 12
    ensures AllOrNone(d, d[..12], Durable(d, 12)) <==> x == ZeroBlock()
  {
    hide Word, SetWord, Installed, Recovered, AllOrNone;
    d := MovingDisk(x);
    MovingDiskReads(x);
    SuperblockReads(10);
    ZeroReads();
    assert d[13] == Superblock(10) && d[10] == ZeroBlock() && d[14] == x && d[5] == ZeroBlock();
    assert MovesTo(d, 0, 10);
    MovedExact(d, 0, 10);
  }
}
