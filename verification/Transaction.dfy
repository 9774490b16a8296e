/** A whole transaction, from begin_trans to commit_trans, and every crash that can hit it. */
module Transaction {
  import opened Lists
  import opened Params
  import opened Blocks
  import opened Layout
  import opened LogSpec
  import opened Boot
  import opened Moves
  import opened RedoLog

  /** One logged block: its home sector and its new contents. */
  datatype Update = Update(sector: nat, data: Block)

  /** The home sectors after the updates, applied directly and in order. */
  function Apply(home: Disk, us: seq<Update>): (r: Disk)
    requires forall u | u in us :: u.sector < |home|
    ensures |r| == |home|
  {
    if us == [] then home else
      var last := us[|us| - 1];
      Apply(home, us[..|us| - 1])[last.sector := last.data]
  }

  /** The sectors of the updates, in the order in which they first occur. */
  function Firsts(us: seq<Update>): seq<nat> {
    if us == [] then [] else Joined(Firsts(us[..|us| - 1]), us[|us| - 1].sector)
  }

  /** A sector ends up with the last update to it, or stays as it was. */
  lemma {:induction false} AppliedAt(home: Disk, us: seq<Update>, s: nat)
    requires (forall u | u in us :: u.sector < |home|) && s < |home|
    ensures (forall i | 0 <= i < |us| :: us[i].sector != s) ==> Apply(home, us)[s] == home[s]
    ensures forall i | 0 <= i < |us| && us[i].sector == s && (forall j | i < j < |us| :: us[j].sector != s) ::
              Apply(home, us)[s] == us[i].data
  {
    if us != [] {
      var front := us[..|us| - 1];
      assert forall u | u in front :: u in us;
      AppliedAt(home, front, s);
      assert us[|us| - 1] in us;
    }
  }

  /** The log lists every updated sector once. */
  lemma {:induction false} FirstsAre(us: seq<Update>)
    ensures Distinct(Firsts(us)) && forall s :: s in Firsts(us) <==> exists i :: 0 <= i < |us| && us[i].sector == s
  {
    if us != [] {
      var front, last := us[..|us| - 1], us[|us| - 1];
      FirstsAre(front);
      forall s
        ensures s in Firsts(us) <==> exists i :: 0 <= i < |us| && us[i].sector == s
      {
        if s in Firsts(front) {
          var i :| 0 <= i < |front| && front[i].sector == s;
          assert us[i].sector == s;
        }
        assert us[|us| - 1].sector == last.sector;
        if i :| 0 <= i < |us| && us[i].sector == s && i < |us| - 1 {
          assert front[i].sector == s;
        }
      }
    }
  }

  /** It lists them in the order of their first updates: what it lists for a prefix of the updates comes
      first. */
  lemma {:induction false} FirstsGrow(us: seq<Update>, k: nat)
    requires k <= |us|
    ensures Firsts(us[..k]) <= Firsts(us)
    decreases |us|
  {
    if k == |us| {
      assert us[..k] == us;
    } else {
      var front := us[..|us| - 1];
      assert front[..k] == us[..k];
      FirstsGrow(front, k);
    }
  }

  ghost function Touched(us: seq<Update>): set<nat> {
    set u | u in us :: u.sector
  }

  /** A transaction the log and the cache can hold: room for the next block before every call of
      log_write, counting each sector once. */
  ghost predicate Fits(us: seq<Update>, start: nat, size: nat) {
    && (forall u | u in us :: u.sector < start)
    && (forall i | 0 <= i < |us| :: Room(us, i, size))
  }

  ghost predicate Room(us: seq<Update>, i: nat, size: nat)
    requires i < |us|
  {
    var before := |Touched(us[..i])|;
    before < LOGSIZE && before < size - 1 && |Touched(us[..i + 1])| < NBUF
  }

  /** The superblock of these home sectors puts the log right behind them, on a disk of this length. */
  ghost predicate Placed(home: Disk, size: nat, length: nat) {
    && 1 < |home| && |home| + size <= length < TWO32
    && SbSize(home[1]) == |home| + size && SbNlog(home[1]) == size
  }

  /** With nothing committed in the log, boots find the home sectors as they are. */
  lemma QuietBoots(d: Disk, size: nat, home: Disk)
    requires Quiet(d, |home|, home) && Placed(home, size, |d|)
    ensures BootsTo(d, |home|, size, home)
  {
    hide BootsTo, Word;
    assert d[1] == home[1];
    QuietIsDurable(d, |home|, home);
    BootExact(d);
  }

  /** From the disk a commit leaves, boots find the new home sectors if and only if the transaction leaves
      the log where it is; then so they do from every later image of the commit. */
  lemma CommittedBoots(d: Disk, size: nat, before: Disk, after: Disk, k: nat)
    requires Committed(d, |before|, before, after) && Placed(before, size, |d|)
    ensures SamePlace(after[1], before[1]) ==> BootsTo(RecoveryImage(d, |before|, k), |before|, size, after)
    ensures BootsTo(d, |before|, size, after) ==> SamePlace(after[1], before[1])
  {
    hide BootsTo, Word, Installed, Recovered;
    var start := |before|;
    assert d[1] == before[1] && LogStart(d) == start && LogSize(d) == size;
    if SamePlace(after[1], before[1]) {
      assert Rooted(d);
      CrashKeepsRoot(d, k);
      BootExact(BootImage(d, k));
    }
    if BootsTo(d, start, size, after) {
      BootedOnce(d, size, before, after);
    }
  }

  lemma BootedOnce(d: Disk, size: nat, before: Disk, after: Disk)
    requires Committed(d, |before|, before, after) && Placed(before, size, |d|) && LogStart(d) == |before|
    requires BootsTo(d, |before|, size, after)
    ensures SamePlace(after[1], before[1])
  {
    hide Word, Installed;
    var start := |before|;
    var ks := [Count(d, start) + 1];
    assert ks[1..] == [] && Ends(AfterBoots(d, []), start, size, after);
    assert AfterBoots(d, ks) == AfterBoots(BootImage(d, ks[0]), []) == Recovered(d, start);
    assert Ends(AfterBoots(d, ks), start, size, after);
    assert Recovered(d, start)[1] == Recovered(d, start)[..start][1];
  }

  /** A history that is quiet up to `commit` and then a commit boots to all or nothing throughout, if and
      only if the new superblock leaves the log where it is. */
  lemma AllOrNothing(history: seq<Disk>, size: nat, from: nat, commit: nat, before: Disk, after: Disk)
    requires from <= commit <= |history| && |after| == |before| > 1
    requires forall k | from <= k < commit :: Quiet(history[k], |before|, before) && Placed(before, size, |history[k]|)
    requires commit == |history| ==> after == before
    requires commit < |history| ==>
      && Committed(history[commit], |before|, before, after) && Placed(before, size, |history[commit]|)
      && forall k | commit <= k < |history| :: history[k] == RecoveryImage(history[commit], |before|, k - commit)
    ensures (forall k | from <= k < |history| ::
               BootsTo(history[k], |before|, size, if k < commit then before else after))
            <==> SamePlace(after[1], before[1])
  {
    hide BootsTo, Word, Quiet, Committed, RecoveryImage, Placed;
    forall k | from <= k < commit
      ensures BootsTo(history[k], |before|, size, before)
    {
      QuietBoots(history[k], size, before);
    }
    forall k | commit <= k < |history|
      ensures SamePlace(after[1], before[1]) ==> BootsTo(history[k], |before|, size, after)
      ensures BootsTo(history[commit], |before|, size, after) ==> SamePlace(after[1], before[1])
    {
      CommittedBoots(history[commit], size, before, after, k - commit);
    }
  }

  /** The same about contents alone: with the log's place kept every image is all or nothing; and a
      transaction that moves the log to an empty place is so, from every image, if and only if no block
      logged after the superblock changes a sector below both places. */
  lemma ContentsExact(history: seq<Disk>, size: nat, from: nat, commit: nat, before: Disk, after: Disk)
    requires from <= commit <= |history| && |after| == |before| > 1
    requires forall k | from <= k < commit :: Quiet(history[k], |before|, before) && Placed(before, size, |history[k]|)
    requires commit == |history| ==> after == before
    requires commit < |history| ==>
      && Committed(history[commit], |before|, before, after) && Placed(before, size, |history[commit]|)
      && forall k | commit <= k < |history| :: history[k] == RecoveryImage(history[commit], |before|, k - commit)
    ensures SamePlace(after[1], before[1]) ==> Contents(history, from, before, after)
    ensures commit < |history| ==> MoveRule(history, from, commit, before, after)
  {
    hide BootsTo, Word, Quiet, Committed, RecoveryImage, Placed, AllOrNone, MovesTo;
    forall k | from <= k < commit
      ensures AllOrNone(history[k], before, after)
    {
      QuietBoots(history[k], size, before);
      PlaceKept(history[k], |before|, size, before, before, after);
    }
    forall k | commit <= k < |history|
      ensures SamePlace(after[1], before[1]) ==> AllOrNone(history[k], before, after)
    {
      CommittedBoots(history[commit], size, before, after, k - commit);
      if SamePlace(after[1], before[1]) {
        PlaceKept(history[k], |before|, size, after, before, after);
      }
    }
    if commit < |history| {
      forall j: nat, to: nat | MovesTo(history[commit], j, to)
        ensures MoveExact(history, from, commit, before, after, j, to)
      {
        MovedImages(history, size, from, commit, before, after, j, to);
      }
    }
  }

  /** Every image from number `from` on boots to all or nothing, in contents. */
  ghost predicate Contents(history: seq<Disk>, from: nat, before: Disk, after: Disk) {
    forall k | from <= k < |history| :: AllOrNone(history[k], before, after)
  }

  ghost predicate MoveExact(history: seq<Disk>, from: nat, commit: nat, before: Disk, after: Disk, j: nat, to: nat)
    requires commit < |history|
  {
    && WellFormed(history[commit], LogStart(history[commit]))
    && (Contents(history, from, before, after) <==> SuperblockLast(history[commit], j, to))
  }

  ghost predicate MoveRule(history: seq<Disk>, from: nat, commit: nat, before: Disk, after: Disk)
    requires commit < |history|
  {
    forall j: nat, to: nat | MovesTo(history[commit], j, to) :: MoveExact(history, from, commit, before, after, j, to)
  }

  lemma MovedImages(history: seq<Disk>, size: nat, from: nat, commit: nat, before: Disk, after: Disk, j: nat, to: nat)
    requires from <= commit < |history| && |after| == |before| > 1
    requires forall k | from <= k < commit :: AllOrNone(history[k], before, after)
    requires Committed(history[commit], |before|, before, after) && Placed(before, size, |history[commit]|)
    requires forall k | commit <= k < |history| :: history[k] == RecoveryImage(history[commit], |before|, k - commit)
    requires MovesTo(history[commit], j, to)
    ensures MoveExact(history, from, commit, before, after, j, to)
  {
    hide Word, AllOrNone, MovesTo, SuperblockLast, RecoveryImage;
    var d := history[commit];
    assert d[1] == before[1] && LogStart(d) == |before|;
    MovesFacts(d, j, to);
    MovedExact(d, j, to);
    forall k | commit <= k < |history|
      ensures AllOrNone(d, before, after) ==> AllOrNone(history[k], before, after)
    {
      LaterImage(d, k - commit, before, after);
    }
    FirstImage(d, |before|);
    assert history[commit] == d;
  }

  lemma FirstImage(d: Disk, start: nat)
    requires WellFormed(d, start)
    ensures RecoveryImage(d, start, 0) == d
  {
  }

  /** What holds for all boots of d holds for all boots of the image a boot of d leaves. */
  lemma LaterImage(d: Disk, k: nat, before: Disk, after: Disk)
    requires Bootable(d)
    ensures AllOrNone(d, before, after) ==> AllOrNone(RecoveryImage(d, LogStart(d), k), before, after)
  {
    hide RecoveryImage, Shows, Word;
    if AllOrNone(d, before, after) {
      forall ks: seq<nat>
        ensures var r := AfterBoots(RecoveryImage(d, LogStart(d), k), ks); Shows(r, before) || Shows(r, after)
      {
        var all := [k] + ks;
        assert all[0] == k && all[1..] == ks;
        assert AfterBoots(d, all) == AfterBoots(BootImage(d, k), ks);
      }
    }
  }

  /** Every image from number `from` on boots to `before` up to `commit`, and from it on to `after`. */
  ghost predicate AllImages(log: Log, from: nat, commit: nat, before: Disk, after: Disk)
    reads log, log.cache
  {
    forall k | from <= k < |log.cache.history| ::
      BootsTo(log.cache.history[k], log.start, log.size, if k < commit then before else after)
  }

  /** Between transactions the disk boots to the home sectors. */
  lemma RestBoots(log: Log)
    requires log.Valid() && log.Anchored() && log.n == 0
    ensures |log.cache.history| > 0
    ensures BootsTo(log.cache.history[|log.cache.history| - 1], log.start, log.size, log.Home())
  {
    hide BootsTo, Word, Quiet;
    log.Basics();
    log.StillQuiet();
    QuietBoots(log.cache.history[|log.cache.history| - 1], log.size, log.base);
  }

  /** commit_trans, and what it means for crashes: every image of the transaction boots, with the log at its
      place, to all of it or nothing, if and only if the new superblock leaves the log there; and for contents
      alone, as ContentsExact says. */
  method Commit(log: Log)
    requires log.Valid() && log.Anchored() && log.busy && log.cache.held == {}
    modifies log, log.cache
    ensures log.Valid() && !log.busy && log.n == 0 && log.cache.held == {} && log.cache.dirty == {}
    ensures log.base == log.Home() == old(log.Home()) && log.cache.view == log.cache.disk
    ensures |log.base| == |old(log.base)| == log.start && |old(log.past)| > 0
    ensures old(log.past) <= log.cache.history && log.past == log.cache.history
    ensures |old(log.cache.history)| <= |log.cache.history|
    ensures old(log.n) > 0 <==> |old(log.cache.history)| < |log.cache.history|
    ensures AllImages(log, |old(log.past)| - 1, |old(log.cache.history)|, old(log.base), log.base)
            <==> SamePlace(log.base[1], old(log.base)[1])
    ensures log.Anchored() <==> SamePlace(log.base[1], old(log.base)[1])
    ensures SamePlace(log.base[1], old(log.base)[1]) ==>
      Contents(log.cache.history, |old(log.past)| - 1, old(log.base), log.base)
    ensures old(log.n) > 0 ==>
      && Headed(log.cache.history[|old(log.cache.history)|], log.start, old(log.Logged()))
      && MoveRule(log.cache.history, |old(log.past)| - 1, |old(log.cache.history)|, old(log.base), log.base)
  {
    hide Log.Valid, Log.Home, BootsTo, Quiet, Committed, RecoveryImage, Word, Headed, Contents, MoveRule;
    ghost var before, from, commit := log.base, |log.past| - 1, |log.cache.history|;
    log.Basics();
    log.StillQuiet();
    log.CommitTrans();
    log.Basics();
    AllOrNothing(log.cache.history, log.size, from, commit, before, log.base);
    ContentsExact(log.cache.history, log.size, from, commit, before, log.base);
  }

  /** Run one transaction. Whichever disk image of it (k) a crash leaves, and however often the boots
      after it crash too, the first boot that completes has the log at its old place and finds all of the
      updates or none: all of them exactly from the commit's header write (image number `commit`) on. This
      holds if and only if the superblock after the updates gives the log's place as before. Of a transaction
      that moves the log, MoveRule says when at least the contents are all or nothing. */
  method Run(log: Log, us: seq<Update>) returns (ghost commit: nat)
    requires log.Valid() && log.Anchored() && !log.busy && log.cache.held == {} && log.n == 0
    requires Fits(us, log.start, log.size)
    modifies log, log.cache
    ensures log.Valid() && !log.busy && log.cache.held == {} && log.n == 0
    ensures old(log.cache.history) <= log.cache.history
    ensures 1 < |log.Home()| == |old(log.Home())| == log.start
    ensures log.Home() == Apply(old(log.Home()), us)
    ensures log.cache.disk == log.cache.view
    ensures commit <= |log.cache.history|
    ensures us != [] ==> |old(log.cache.history)| + |us| == commit < |log.cache.history|
    ensures AllImages(log, |old(log.cache.history)| - 1, commit, old(log.Home()), log.Home())
            <==> SamePlace(log.Home()[1], old(log.Home())[1])
    ensures log.Anchored() <==> SamePlace(log.Home()[1], old(log.Home())[1])
    ensures SamePlace(log.Home()[1], old(log.Home())[1]) ==>
      Contents(log.cache.history, |old(log.cache.history)| - 1, old(log.Home()), log.Home())
    ensures us != [] ==>
      && Headed(log.cache.history[commit], log.start, Firsts(us))
      && MoveRule(log.cache.history, |old(log.cache.history)| - 1, commit, old(log.Home()), log.Home())
  {
    hide Log.Valid, Log.Home, Fits, AllImages, Word, Headed, Contents, MoveRule;
    log.Basics();
    log.BeginTrans();
    LogAll(log, us);
    log.Basics();
    assert us != [] ==> us[0].sector in log.cache.dirty;
    commit := |log.cache.history|;
    Commit(log);
  }

  /** The writes of a transaction, one after the other. */
  method LogAll(log: Log, us: seq<Update>)
    requires log.Valid() && log.busy && log.cache.held == {} && log.n == 0 && Fits(us, log.start, log.size)
    modifies log, log.cache
    ensures log.Valid() && log.SameTx() && log.cache.held == {} && log.cache.dirty == Touched(us)
    ensures log.Logged() == Firsts(us)
    ensures |log.cache.history| == |old(log.cache.history)| + |us|
    ensures |log.Home()| == |old(log.Home())| == log.start && log.Home() == Apply(old(log.Home()), us)
  {
    hide Log.Valid, Log.Home, Room;
    log.Basics();
    var i := 0;
    assert us[..0] == [];
    while i < |us|
      invariant 0 <= i <= |us|
      invariant log.Valid() && log.SameTx() && log.cache.held == {}
      invariant |log.cache.history| == |old(log.cache.history)| + i
      invariant log.cache.dirty == Touched(us[..i]) && log.Logged() == Firsts(us[..i])
      invariant log.Home() == Apply(old(log.Home()), us[..i])
    {
      LogOne(log, us, i);
      assert us[..i + 1][..i] == us[..i];
      i := i + 1;
    }
    assert us[..|us|] == us;
    log.Basics();
  }

  /** Boot after a crash: the new kernel's log is where the old one's was, over these home sectors. With
      Run, a crash at any image of a transaction comes back with all of its updates or none. */
  method Reboot(image: Disk, ghost start: nat, ghost size: nat, ghost home: Disk) returns (log: Log)
    requires BootsTo(image, start, size, home)
    ensures fresh(log) && log.Valid() && !log.busy && log.n == 0 && log.cache.held == {}
    ensures log.start == start && log.size == size && log.Home() == home && (start > 1 ==> log.Anchored())
    ensures forall d | d in log.cache.history :: BootsTo(d, start, size, home)
  {
    hide Log.Valid, Log.Home, Rooted, Recovered;
    assert Ends(AfterBoots(image, []), start, size, home);
    BootExact(image);
    log := new Log(image);
  }

  lemma FitsAt(us: seq<Update>, start: nat, size: nat, i: nat)
    requires Fits(us, start, size) && i < |us|
    ensures us[i].sector < start && Room(us, i, size)
    ensures Touched(us[..i + 1]) == Touched(us[..i]) + {us[i].sector}
  {
    assert us[..i + 1] == us[..i] + [us[i]];
  }

  /** Read, modify and log one block. */
  method LogOne(log: Log, us: seq<Update>, i: nat)
    requires log.Valid() && log.busy && log.cache.held == {} && i < |us|
    requires Fits(us, log.start, log.size) && log.cache.dirty == Touched(us[..i])
    modifies log, log.cache
    ensures log.Valid() && log.cache.held == {} && log.SameTx()
    ensures log.cache.history == old(log.cache.history) + [log.cache.disk]
    ensures log.cache.dirty == Touched(us[..i + 1]) && log.Logged() == Joined(old(log.Logged()), us[i].sector)
    ensures us[i].sector < |old(log.Home())|
    ensures log.Home() == old(log.Home())[us[i].sector := us[i].data]
  {
    hide Log.Valid, Fits;
    FitsAt(us, log.start, log.size, i);
    var s := us[i].sector;
    log.Basics();
    assert log.cache.held + log.cache.dirty == log.cache.dirty;
    var b := log.Read(s);
    assert log.cache.held + log.cache.dirty == Touched(us[..i + 1]);
    log.Basics();
    log.LogWrite(b, us[i].data);
    log.Release(b);
  }
}
