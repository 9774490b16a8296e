/** What the on-disk log of kern/fs/log.c means: which contents the home sectors have once the
    log is replayed. The log occupies the last sectors of the disk, from `start`: a header
    sector holding a count and that many home sector numbers, then one sector per logged block.
    Everything below `start` is a home sector. */
module LogSpec {
  import opened Params
  import opened Blocks

  function Count(d: Disk, start: nat): nat
    requires start < |d|
  {
    Word(d[start], 0)
  }

  function HomeSector(d: Disk, start: nat, i: nat): nat
    requires start < |d| && i < LOGSIZE
  {
    Word(d[start], i + 1)
  }

  /** The log names at most LOGSIZE home sectors, none inside the log itself. */
  ghost predicate WellFormed(d: Disk, start: nat) {
    && start < |d|
    && Count(d, start) <= LOGSIZE
    && start + 1 + Count(d, start) <= |d|
    && forall i | 0 <= i < Count(d, start) :: HomeSector(d, start, i) < start
  }

  /** The log names no home sector twice, as log_write's absorption keeps it. */
  ghost predicate Once(d: Disk, start: nat)
    requires WellFormed(d, start)
  {
    forall i, j | 0 <= i < j < Count(d, start) :: HomeSector(d, start, i) != HomeSector(d, start, j)
  }

  /** The disk after the first k logged blocks were copied to their homes. */
  ghost function Installed(d: Disk, start: nat, k: nat): (r: Disk)
    requires WellFormed(d, start) && k <= Count(d, start)
    ensures |r| == |d| && r[start..] == d[start..]
  {
    if k == 0 then d else
      Installed(d, start, k - 1)[HomeSector(d, start, k - 1) := d[start + k]]
  }

  /** The header after the transaction is erased. */
  function Erased(h: Block): Block {
    SetWord(h, 0, 0)
  }

  /** What a completed recovery makes of disk d. */
  ghost function Recovered(d: Disk, start: nat): (r: Disk)
    requires WellFormed(d, start)
  {
    Installed(d, start, Count(d, start))[start := Erased(d[start])]
  }

  /** The home sectors as every later boot will find them. */
  ghost function Durable(d: Disk, start: nat): Disk
    requires WellFormed(d, start)
  {
    Recovered(d, start)[..start]
  }

  /** The disk when recovery stops after its k-th sector write: the copies, then the erase. */
  ghost function RecoveryImage(d: Disk, start: nat, k: nat): Disk
    requires WellFormed(d, start)
  {
    if k <= Count(d, start) then Installed(d, start, k) else Recovered(d, start)
  }

  /** The header sector alone decides what the log names. */
  lemma SameHeader(d: Disk, p: Disk, start: nat)
    requires WellFormed(d, start) && |p| == |d| && p[start] == d[start]
    ensures WellFormed(p, start) && Count(p, start) == Count(d, start)
    ensures forall i | 0 <= i < LOGSIZE :: HomeSector(p, start, i) == HomeSector(d, start, i)
  {
    forall i | 0 <= i < LOGSIZE
      ensures HomeSector(p, start, i) == HomeSector(d, start, i)
    {
    }
  }

  lemma SameLog(d: Disk, start: nat, k: nat)
    requires WellFormed(d, start) && k <= Count(d, start)
    ensures var p := Installed(d, start, k);
            && WellFormed(p, start) && Count(p, start) == Count(d, start)
            && (forall i | 0 <= i < LOGSIZE :: HomeSector(p, start, i) == HomeSector(d, start, i))
            && forall s | start <= s < |d| :: p[s] == d[s]
  {
    var p := Installed(d, start, k);
    assert p[start..] == d[start..];
    forall s | start <= s < |d|
      ensures p[s] == d[s]
    {
      assert p[start..][s - start] == d[start..][s - start];
    }
    SameHeader(d, p, start);
  }

  /** One more copy: the source is still in its log slot. */
  lemma InstalledStep(d: Disk, start: nat, k: nat)
    requires WellFormed(d, start) && k <= Count(d, start)
    ensures Installed(d, start, 0) == d
    ensures |Installed(d, start, k)| == |d|
    ensures k < Count(d, start) ==>
      && start + 1 + k < |d|
      && Installed(d, start, k + 1)
         == Installed(d, start, k)[HomeSector(d, start, k) := Installed(d, start, k)[start + 1 + k]]
  {
    SameLog(d, start, k);
  }

  lemma ErasedCount(d: Disk, start: nat)
    requires WellFormed(d, start)
    ensures var r := Recovered(d, start); WellFormed(r, start) && Count(r, start) == 0
  {
    WordOfSetWord(d[start], 0, 0, 0);
  }

  lemma ImageWellFormed(d: Disk, start: nat, k: nat)
    requires WellFormed(d, start)
    ensures WellFormed(RecoveryImage(d, start, k), start)
  {
    if k <= Count(d, start) {
      SameLog(d, start, k);
    } else {
      ErasedCount(d, start);
    }
  }

  /** Two disks with the same log that differ at one home sector differ at most there after a
      partial replay, and not at all once that sector has been replayed. */
  lemma {:induction false} ReplayOverwrites(d: Disk, start: nat, j: nat, x: Block, k: nat)
    requires WellFormed(d, start) && j < Count(d, start) && k <= Count(d, start)
    ensures var s := HomeSector(d, start, j);
            var d' := d[s := x];
            && WellFormed(d', start) && Count(d', start) == Count(d, start)
            && (forall t | 0 <= t < |d| && t != s ::
                  Installed(d', start, k)[t] == Installed(d, start, k)[t])
            && (j < k ==> Installed(d', start, k)[s] == Installed(d, start, k)[s])
  {
    SameHeader(d, d[HomeSector(d, start, j) := x], start);
    if k > 0 {
      ReplayOverwrites(d, start, j, x, k - 1);
    }
  }

  /** Replaying the whole log over a partly replayed disk gives what replaying it once gives. */
  lemma {:induction false} ReplayTwice(d: Disk, start: nat, k: nat)
    requires WellFormed(d, start) && k <= Count(d, start)
    ensures var p := Installed(d, start, k);
            && WellFormed(p, start) && Count(p, start) == Count(d, start)
            && Installed(p, start, Count(d, start)) == Installed(d, start, Count(d, start))
  {
    SameLog(d, start, k);
    if k > 0 {
      var p := Installed(d, start, k - 1);
      var n := Count(d, start);
      SameLog(d, start, k - 1);
      ReplayTwice(d, start, k - 1);
      ReplayOverwrites(p, start, k - 1, d[start + k], n);
      assert HomeSector(p, start, k - 1) == HomeSector(d, start, k - 1);
      assert Installed(Installed(d, start, k), start, n) == Installed(p, start, n);
    }
  }

  lemma EraseTwice(h: Block)
    ensures Erased(Erased(h)) == Erased(h)
  {
    assert Erased(h)[0] == 0 && Erased(h)[1] == 0 && Erased(h)[2] == 0 && Erased(h)[3] == 0;
  }

  /** A recovery attempt that crashes anywhere, or completes, does not change the outcome. */
  lemma CrashInRecovery(d: Disk, start: nat, k: nat)
    requires WellFormed(d, start)
    ensures var p := RecoveryImage(d, start, k);
            WellFormed(p, start) && Recovered(p, start) == Recovered(d, start)
  {
    ImageWellFormed(d, start, k);
    if k <= Count(d, start) {
      SameLog(d, start, k);
      ReplayTwice(d, start, k);
    } else {
      ErasedCount(d, start);
      EraseTwice(d[start]);
    }
  }
}
