/** The redo log of kern/fs/log.c over the block cache. */
module RedoLog {
  import opened Params
  import opened Blocks
  import opened BufCache
  import opened LogSpec
  import opened Layout
  import opened Boot

  /** Header h with count n and the first k of the given sector numbers stored into it. */
  function Header(h: Block, n: nat, sector: seq<nat>, k: nat): Block
    requires n < TWO32 && k <= |sector| && k <= LOGSIZE
    requires forall i | 0 <= i < k :: sector[i] < TWO32
  {
    if k == 0 then SetWord(h, 0, n) else SetWord(Header(h, n, sector, k - 1), k, sector[k - 1])
  }

  lemma {:induction false} HeaderWords(h: Block, n: nat, sector: seq<nat>, k: nat, j: nat)
    requires n < TWO32 && k <= |sector| && k <= LOGSIZE && j <= k
    requires forall i | 0 <= i < k :: sector[i] < TWO32
    ensures Word(Header(h, n, sector, k), j) == if j == 0 then n else sector[j - 1]
  {
    if k == 0 {
      WordOfSetWord(h, 0, n, j);
    } else {
      WordOfSetWord(Header(h, n, sector, k - 1), k, sector[k - 1], j);
      if j < k {
        HeaderWords(h, n, sector, k - 1, j);
      }
    }
  }

  /** The sectors a header names from index i on. */
  ghost function Names(sector: seq<nat>, i: nat, n: nat): set<nat>
    requires n <= |sector|
  {
    set j | i <= j < n :: sector[j]
  }

  ghost predicate NamesOnce(sector: seq<nat>, n: nat)
    requires n <= |sector|
  {
    forall i, j | 0 <= i < j < n :: sector[i] != sector[j]
  }

  lemma NamesStep(sector: seq<nat>, i: nat, n: nat)
    requires i < n <= |sector| && NamesOnce(sector, n)
    ensures Names(sector, i, n) - {sector[i]} == Names(sector, i + 1, n)
    ensures sector[i] in Names(sector, i, n)
  {
  }

  lemma {:induction false} NamesSize(sector: seq<nat>, i: nat, n: nat)
    requires i <= n <= |sector| && NamesOnce(sector, n)
    ensures |Names(sector, i, n)| == n - i
    decreases n - i
  {
    if i < n {
      NamesStep(sector, i, n);
      NamesSize(sector, i + 1, n);
    }
  }

  /** An uncommitted transaction: the header on the disk is empty, the home sectors on the disk
      are untouched, and each logged sector has one log slot holding what readers see. */
  ghost predicate Uncommitted(n: nat, sector: seq<nat>, start: nat,
                              view: Disk, disk: Disk, held: set<nat>, dirty: set<nat>)
  {
    && |view| == |disk| < TWO32 && start < |disk|
    && |sector| == LOGSIZE && n <= LOGSIZE && n < NBUF && start + 1 + n <= |disk|
    && Count(disk, start) == 0
    && NamesOnce(sector, n) && dirty == Names(sector, 0, n)
    && (forall i | 0 <= i < n :: sector[i] < start && view[sector[i]] == disk[start + 1 + i])
    && (forall s | 0 <= s < |disk| && s !in dirty :: view[s] == disk[s])
    && (forall s | s in held || s in dirty :: s < start)
  }

  /** A disk image whose replay leaves the home sectors as `base`. */
  ghost predicate Quiet(d: Disk, start: nat, base: Disk) {
    start < |d| && Count(d, start) == 0 && d[..start] == base
  }

  /** All images from number `from` on are quiet disks of this length. */
  ghost predicate QuietFrom(history: seq<Disk>, from: int, start: nat, base: Disk, length: nat) {
    forall k | from <= k < |history| && 0 <= k :: |history[k]| == length && Quiet(history[k], start, base)
  }

  /** Writing a log slot adds one more quiet image. */
  lemma SlotWriteIsQuiet(past: seq<Disk>, history: seq<Disk>, start: nat, base: Disk, d: Disk, t: nat, data: Block)
    requires |past| > 0 && past <= history && history[|history| - 1] == d && start < t < |d|
    requires QuietFrom(history, |past| - 1, start, base, |d|)
    ensures past <= history + [d[t := data]] && d[t := data][..start] == base
    ensures QuietFrom(history + [d[t := data]], |past| - 1, start, base, |d|)
  {
    assert Quiet(d, start, base);
    assert d[t := data][..start] == d[..start];
  }

  lemma QuietLast(history: seq<Disk>, from: nat, start: nat, base: Disk, length: nat)
    requires QuietFrom(history, from, start, base, length) && from < |history|
    ensures QuietFrom(history, |history| - 1, start, base, length)
  {
  }

  /** What logging a block shows readers: the home sector, and a log sector that is none. */
  lemma HomeAfter(view: Disk, start: nat, s: nat, t: nat, data: Block)
    requires s < start <= t < |view|
    ensures var shown: Disk := view[s := data][t := data];
            var home: Disk := view[..start];
            shown[..start] == home[s := data]
  {
  }

  lemma QuietIsDurable(d: Disk, start: nat, base: Disk)
    requires Quiet(d, start, base)
    ensures WellFormed(d, start) && Durable(d, start) == base
  {
  }

  /** The disk a commit's header write leaves: the old home sectors, and a log that holds the new ones. */
  ghost predicate Committed(d: Disk, start: nat, before: Disk, after: Disk) {
    && WellFormed(d, start) && Once(d, start)
    && d[..start] == before && |after| == start && Durable(d, start) == after
    && forall i | 0 <= i < Count(d, start) :: d[start + 1 + i] == after[HomeSector(d, start, i)]
  }

  /** The log's header on d names these sectors, in this order. */
  ghost predicate Headed(d: Disk, start: nat, logged: seq<nat>) {
    && start < |d| && Count(d, start) == |logged| <= LOGSIZE
    && forall i | 0 <= i < |logged| :: HomeSector(d, start, i) == logged[i]
  }

  /** Once the header is on the disk, replaying the log gives what readers saw. */
  lemma {:induction false} InstalledIsView(d: Disk, n: nat, sector: seq<nat>, start: nat,
                                           view: Disk, k: nat)
    requires WellFormed(d, start) && |view| == |d| && |sector| == LOGSIZE
    requires k <= n == Count(d, start)
    requires forall i | 0 <= i < n ::
      && sector[i] < start && HomeSector(d, start, i) == sector[i]
      && view[sector[i]] == d[start + 1 + i]
    ensures forall s | 0 <= s < start ::
      Installed(d, start, k)[s] == if s in sector[..k] then view[s] else d[s]
  {
    if k > 0 {
      InstalledIsView(d, n, sector, start, view, k - 1);
      assert sector[..k] == sector[..k - 1] + [sector[k - 1]];
    }
  }

  /** The logged sectors in the order of their slots, after s is logged. */
  function Joined(logged: seq<nat>, s: nat): seq<nat> {
    if s in logged then logged else logged + [s]
  }

  lemma SlotJoins(sector: seq<nat>, n: nat, s: nat, i: nat)
    requires SlotFor(sector, n, s, i) && n < |sector|
    ensures sector[i := s][..if i == n then n + 1 else n] == Joined(sector[..n], s)
  {
    if i < n {
      assert sector[..n][i] == s && sector[i := s] == sector;
    } else {
      assert sector[i := s][..n + 1] == sector[..n] + [s];
    }
  }

  /** The slot a transaction gives sector s: the one it already has, or the next free one. */
  ghost predicate SlotFor(sector: seq<nat>, n: nat, s: nat, i: nat) {
    && i <= n <= |sector|
    && (forall j | 0 <= j < i :: sector[j] != s)
    && (i < n ==> sector[i] == s)
  }

  /** Logging one block keeps the transaction uncommitted, with one slot per logged sector. */
  lemma LogBlock(n: nat, sector: seq<nat>, start: nat, view: Disk, disk: Disk,
                 held: set<nat>, dirty: set<nat>, s: nat, i: nat, data: Block)
    requires Uncommitted(n, sector, start, view, disk, held, dirty)
    requires s < start && SlotFor(sector, n, s, i) && n < LOGSIZE && start + 1 + n < |disk|
    requires s in held && |held + dirty| < NBUF
    ensures start + 1 + i !in held + dirty
    ensures Uncommitted(if i == n then n + 1 else n, sector[i := s], start,
                        view[s := data][start + 1 + i := data], disk[start + 1 + i := data],
                        held, dirty + {s})
  {
    hide Word, Names;
    NamesAfter(sector, n, s, i);
    NamesSize(sector, 0, n);
    if i == n {
      SubsetSize(dirty + {s}, held + dirty);
    }
  }

  lemma NamesAfter(sector: seq<nat>, n: nat, s: nat, i: nat)
    requires SlotFor(sector, n, s, i) && n < |sector| && NamesOnce(sector, n)
    ensures var n' := if i == n then n + 1 else n;
            && Names(sector[i := s], 0, n') == Names(sector, 0, n) + {s}
            && NamesOnce(sector[i := s], n')
    ensures i == n ==> s !in Names(sector, 0, n)
  {
    assert sector[i := s][i] == s;
    assert forall j | 0 <= j < n :: sector[i := s][j] == sector[j];
  }

  /** The commit point: with the header on the disk, recovery yields what readers saw. */
  lemma Commits(n: nat, sector: seq<nat>, start: nat, view: Disk, disk: Disk,
                held: set<nat>, dirty: set<nat>, d: Disk)
    requires Uncommitted(n, sector, start, view, disk, held, dirty)
    requires start < |disk| && n <= LOGSIZE == |sector|
    requires forall i | 0 <= i < n :: sector[i] < TWO32
    requires d == disk[start := Header(disk[start], n, sector, n)]
    ensures Committed(d, start, disk[..start], view[..start]) && Headed(d, start, sector[..n])
    ensures |dirty| < NBUF && start !in dirty && NamesOnce(sector, n) && dirty == Names(sector, 0, n)
  {
    hide Word, Header, Installed, Recovered, Durable;
    NamesSize(sector, 0, n);
    HeaderRead(disk, n, sector, start, d);
    ReplayIsView(n, sector, start, view, disk, dirty, d);
    assert d[..start] == disk[..start];
  }

  /** Replaying the logged blocks over the disk gives what readers see. */
  lemma ReplayIsView(n: nat, sector: seq<nat>, start: nat, view: Disk, disk: Disk, dirty: set<nat>, d: Disk)
    requires |view| == |disk| == |d| && |sector| == LOGSIZE && n <= LOGSIZE && dirty == Names(sector, 0, n)
    requires WellFormed(d, start) && Count(d, start) == n
    requires forall i | 0 <= i < n :: HomeSector(d, start, i) == sector[i] && view[sector[i]] == d[start + 1 + i]
    requires forall s | 0 <= s < |disk| && s != start :: d[s] == disk[s]
    requires forall s | 0 <= s < |disk| && s !in dirty :: view[s] == disk[s]
    ensures Durable(d, start) == view[..start]
  {
    hide Word, Installed, Recovered;
    InstalledIsView(d, n, sector, start, view, n);
    forall s | 0 <= s < start
      ensures Installed(d, start, n)[s] == view[s]
    {
      assert s in sector[..n] <==> s in dirty;
    }
    DurableIsInstalled(d, start);
  }

  /** Reading back the header that write_head wrote. */
  lemma HeaderRead(disk: Disk, n: nat, sector: seq<nat>, start: nat, d: Disk)
    requires start < |disk| && n <= LOGSIZE == |sector| && start + 1 + n <= |disk|
    requires forall i | 0 <= i < n :: sector[i] < TWO32
    requires d == disk[start := Header(disk[start], n, sector, n)]
    ensures Count(d, start) == n
    ensures forall i | 0 <= i < n :: HomeSector(d, start, i) == sector[i]
  {
    hide Word, Header;
    HeaderWords(disk[start], n, sector, n, 0);
    forall i | 0 <= i < n
      ensures HomeSector(d, start, i) == sector[i]
    {
      HeaderWords(disk[start], n, sector, n, i + 1);
    }
  }

  lemma DurableIsInstalled(d: Disk, start: nat)
    requires WellFormed(d, start)
    ensures Durable(d, start) == Installed(d, start, Count(d, start))[..start]
  {
  }

  class Log {
    const cache: Cache
    const start: nat          // first log sector: the superblock's size - nlog
    const size: nat           // sectors of the log: the superblock's nlog
    var busy: bool            // a transaction is active
    var n: nat                // in-memory header: count
    var sector: seq<nat>      // in-memory header: home sectors

    ghost var base: Disk      // home sectors as the last committed transaction left them
    ghost var past: seq<Disk> // the disk history when the current transaction began

    ghost predicate Valid()
      reads this, cache
    {
      && cache.Valid() && start + size <= |cache.disk|
      && Uncommitted(n, sector, start, cache.view, cache.disk, cache.held, cache.dirty)
      && base == cache.disk[..start]
      && |past| > 0 && past <= cache.history
      && QuietFrom(cache.history, |past| - 1, start, base, |cache.disk|)
    }

    /** The superblock gives the log's place. */
    ghost predicate Anchored()
      reads this
    {
      1 < start == |base| && SbSize(base[1]) == start + size && SbNlog(base[1]) == size
    }

    /** log_init at boot: find the log from the superblock, then recover. Whatever sector write of it is
        the last to reach the disk, the boots after it end the same, if and only if the disk's log does not
        move the log. */
    constructor (image: Disk)
      requires Bootable(image)
      ensures Valid() && !busy && n == 0 && cache.held == {} && fresh(cache)
      ensures start == LogStart(image) && size == LogSize(image) && Home() == Durable(image, start)
      ensures cache.disk == cache.view == Recovered(image, start)
      ensures Rooted(image) && start > 1 ==> Anchored()
      ensures (forall d | d in cache.history :: BootsTo(d, start, size, Home())) <==> Rooted(image)
    {
      hide Cache.Valid, Rooted, BootsTo;
      var c := new Cache(image);
      var sb := c.Read(1);
      var fsSize, nlog := SbSize(c.bufs[sb].data), SbNlog(c.bufs[sb].data);
      c.Release(sb);
      cache, start, size := c, fsSize - nlog, nlog;
      busy, n, sector := false, 0, seq(LOGSIZE, _ => 0);
      base, past := [], [];
      new;
      RecoverFromLog();
      RecoveryBoots(image, cache.history);
    }

    /** recover_from_log: image k of it is the replay of k blocks, and the last one has the log erased. */
    method RecoverFromLog()
      requires cache.Valid() && cache.held == {} && cache.dirty == {} && |cache.disk| < TWO32
      requires WellFormed(cache.disk, start) && |sector| == LOGSIZE && start + size <= |cache.disk|
      requires cache.history == [cache.disk]
      modifies this, cache
      ensures Valid() && busy == old(busy) && n == 0 && cache.held == {}
      ensures cache.disk == cache.view == Recovered(old(cache.disk), start) && base == cache.disk[..start]
      ensures |cache.history| == Count(old(cache.disk), start) + 2
      ensures forall k | 0 <= k < |cache.history| :: cache.history[k] == RecoveryImage(old(cache.disk), start, k)
    {
      hide Cache.Valid, Installed, Recovered;
      ReadHead();
      InstallAndErase();
      InstalledStep(old(cache.disk), start, 0);
      assert cache.history[0] == old(cache.disk);
    }

    /** The common end of recovery and of commit: install_trans, then write an empty header. */
    method InstallAndErase()
      requires cache.Valid() && WellFormed(cache.disk, start) && |cache.disk| < TWO32
      requires |sector| == LOGSIZE && n == Count(cache.disk, start) && start + size <= |cache.disk|
      requires forall i | 0 <= i < n :: sector[i] == HomeSector(cache.disk, start, i)
      requires cache.held == {}
      requires cache.dirty == {} ||
               (n < NBUF && NamesOnce(sector, n) && cache.dirty == Names(sector, 0, n))
      modifies this`n, this`base, this`past, cache
      ensures Valid() && n == 0 && cache.held == {} && cache.dirty == {}
      ensures cache.disk == cache.view == Recovered(old(cache.disk), start) && base == cache.disk[..start]
      ensures past == cache.history && |cache.history| == |old(cache.history)| + old(n) + 1
      ensures old(cache.history) <= cache.history
      ensures forall k | |old(cache.history)| <= k < |cache.history| ::
        cache.history[k] == RecoveryImage(old(cache.disk), start, k - |old(cache.history)| + 1)
    {
      hide Cache.Valid, Installed;
      ghost var d, m := cache.disk, |cache.history|;
      InstalledStep(d, start, n);
      InstallTrans();
      SameLog(d, start, n);
      n := 0;
      WriteHead();
      cache.Settled();
      ErasedCount(d, start);
      base, past := cache.disk[..start], cache.history;
    }

    /** Read the header sector into the in-memory header. */
    method ReadHead()
      requires cache.Valid() && cache.held == {} && cache.dirty == {}
      requires WellFormed(cache.disk, start) && |sector| == LOGSIZE
      modifies this`n, this`sector, cache
      ensures cache.Valid() && cache.held == {} && cache.dirty == {}
      ensures cache.disk == old(cache.disk) && cache.history == old(cache.history)
      ensures |sector| == LOGSIZE && n == Count(cache.disk, start)
      ensures forall i | 0 <= i < n :: sector[i] == HomeSector(cache.disk, start, i)
    {
      hide Cache.Valid;
      cache.Settled();
      var buf := cache.Read(start);
      var lh := cache.bufs[buf].data;
      n := Word(lh, 0);
      var i := 0;
      while i < n
        modifies this`sector
        invariant 0 <= i <= n && |sector| == LOGSIZE
        invariant forall j | 0 <= j < i :: sector[j] == Word(lh, j + 1)
      {
        sector := sector[i := Word(lh, i + 1)];
        i := i + 1;
      }
      cache.Release(buf);
    }

    /** Write the in-memory header to the log's header sector: the commit point. */
    method WriteHead()
      requires cache.Valid() && start < |cache.disk|
      requires |sector| == LOGSIZE && n <= LOGSIZE && forall i | 0 <= i < n :: sector[i] < TWO32
      requires cache.held == {} && start !in cache.dirty && |cache.dirty| < NBUF
      modifies cache
      ensures cache.Valid()
      ensures cache.disk == old(cache.disk)[start := Header(old(cache.disk)[start], n, sector, n)]
      ensures cache.view == old(cache.view)[start := cache.disk[start]]
      ensures cache.history == old(cache.history) + [cache.disk]
      ensures cache.held == old(cache.held) && cache.dirty == old(cache.dirty)
    {
      hide Cache.Valid;
      assert cache.held + cache.dirty == cache.dirty;
      cache.CleanView(start);
      var buf := cache.Read(start);
      var hb := FillHeader(cache.bufs[buf].data);
      cache.SetData(buf, hb);
      cache.Write(buf);
      cache.Release(buf);
    }

    method FillHeader(h: Block) returns (hb: Block)
      requires |sector| == LOGSIZE && n <= LOGSIZE && forall i | 0 <= i < n :: sector[i] < TWO32
      ensures hb == Header(h, n, sector, n)
    {
      hb := SetWord(h, 0, n);
      var i := 0;
      while i < n
        invariant 0 <= i <= n
        invariant hb == Header(h, n, sector, i)
      {
        hb := SetWord(hb, i + 1, sector[i]);
        i := i + 1;
      }
    }

    /** Copy log slot `tail` to its home sector. */
    method InstallOne(tail: nat)
      requires cache.Valid() && tail < n <= |sector| && start + 1 + tail < |cache.disk|
      requires sector[tail] < start && cache.held == {}
      requires start + 1 + tail !in cache.dirty && |cache.dirty| < NBUF
      requires sector[tail] in cache.dirty || cache.dirty == {}
      modifies cache
      ensures cache.Valid() && cache.held == {}
      ensures cache.disk == old(cache.disk)[sector[tail] := old(cache.disk)[start + 1 + tail]]
      ensures cache.history == old(cache.history) + [cache.disk]
      ensures cache.dirty == old(cache.dirty) - {sector[tail]}
    {
      hide Cache.Valid, BufRep;
      cache.CleanView(start + 1 + tail);
      assert cache.held + cache.dirty == cache.dirty;
      var lbuf := cache.Read(start + 1 + tail);
      assert cache.dirty == {} ==> cache.held + cache.dirty == {start + 1 + tail};
      var dbuf := cache.WriteOver(sector[tail], cache.bufs[lbuf].data);
      cache.Release(lbuf);
      cache.Release(dbuf);
    }

    /** install_trans: copy every logged block to its home sector. */
    method InstallTrans()
      requires cache.Valid() && WellFormed(cache.disk, start)
      requires n == Count(cache.disk, start) <= |sector|
      requires forall i | 0 <= i < n :: sector[i] == HomeSector(cache.disk, start, i)
      requires cache.held == {}
      requires cache.dirty == {} ||
               (n < NBUF && NamesOnce(sector, n) && cache.dirty == Names(sector, 0, n))
      modifies cache
      ensures cache.Valid() && cache.held == {} && cache.dirty == {}
      ensures cache.disk == Installed(old(cache.disk), start, n)
      ensures |cache.history| == |old(cache.history)| + n && old(cache.history) <= cache.history
      ensures forall k | 1 <= k <= n ::
        cache.history[|old(cache.history)| + k - 1] == Installed(old(cache.disk), start, k)
    {
      hide Cache.Valid, Installed;
      ghost var d, h := cache.disk, cache.history;
      var tail := 0;
      InstalledStep(d, start, 0);
      while tail < n
        invariant 0 <= tail <= n
        invariant cache.Valid() && cache.held == {}
        invariant cache.dirty == {} ||
                  (n < NBUF && NamesOnce(sector, n) && cache.dirty == Names(sector, tail, n))
        invariant cache.disk == Installed(d, start, tail)
        invariant |cache.history| == |h| + tail && h <= cache.history
        invariant forall k | 1 <= k <= tail :: cache.history[|h| + k - 1] == Installed(d, start, k)
      {
        InstalledStep(d, start, tail);
        PinnedNames(cache.dirty, tail);
        InstallOne(tail);
        tail := tail + 1;
      }
    }

    lemma PinnedNames(dirty: set<nat>, tail: nat)
      requires tail < n <= |sector| && forall i | 0 <= i < n :: sector[i] < start
      requires dirty == {} || (n < NBUF && NamesOnce(sector, n) && dirty == Names(sector, tail, n))
      ensures |dirty| < NBUF && start + 1 + tail !in dirty
      ensures sector[tail] in dirty || dirty == {}
      ensures dirty - {sector[tail]} == {} ||
              (NamesOnce(sector, n) && dirty - {sector[tail]} == Names(sector, tail + 1, n))
    {
      if dirty != {} {
        NamesStep(sector, tail, n);
        NamesSize(sector, tail, n);
      }
    }

    /** The home sectors as the current transaction reads them. */
    ghost function Home(): Disk
      reads this, cache
    {
      if start <= |cache.view| then cache.view[..start] else []
    }

    /** The sectors the current transaction has logged, in the order of their slots. */
    ghost function Logged(): seq<nat>
      reads this
    {
      if n <= |sector| then sector[..n] else []
    }

    /** What every step inside a transaction keeps. */
    twostate predicate SameTx()
      reads this, cache
    {
      && busy == old(busy) && base == old(base) && past == old(past)
      && |cache.disk| == |old(cache.disk)|
    }

    /** A buffer held throughout a step is left as it was. */
    twostate predicate Kept(keep: nat)
      reads cache
    {
      && |cache.bufs| == |old(cache.bufs)| == NBUF
      && (keep < NBUF && old(cache.bufs)[keep].busy ==> cache.bufs[keep] == old(cache.bufs)[keep])
    }

    /** Buffer b is handed out. */
    ghost predicate Holds(b: nat)
      reads this, cache
    {
      b < |cache.bufs| && cache.Holding(cache.bufs[b].sector, b)
    }

    lemma Basics()
      requires Valid()
      ensures |cache.view| == |cache.disk| < TWO32 && start < |cache.disk| && start + size <= |cache.disk|
      ensures |cache.bufs| == NBUF
      ensures |sector| == LOGSIZE && n <= LOGSIZE && n < NBUF && start + 1 + n <= |cache.disk|
      ensures forall i | 0 <= i < n :: sector[i] < start
      ensures forall s | s in cache.held :: s < start
      ensures |cache.history| > 0 && cache.history[|cache.history| - 1] == cache.disk
      ensures n == |cache.dirty|
      ensures |Home()| == start && (n == 0 ==> base == Home())
    {
      NamesSize(sector, 0, n);
    }

    /** Before the commit, no disk image of the transaction shows any of its writes. */
    lemma StillQuiet()
      requires Valid()
      ensures past <= cache.history && |past| > 0
      ensures QuietFrom(cache.history, |past| - 1, start, base, |cache.disk|)
    {
    }

    /** begin_trans, for a caller that finds no other transaction active. */
    method BeginTrans()
      requires Valid() && !busy
      modifies this`busy, this`past
      ensures Valid() && busy && past == cache.history
      ensures Home() == old(Home()) && base == old(base)
    {
      busy := true;
      past := cache.history;
    }

    /** bufcache_read of a home sector. */
    method Read(s: nat, ghost keep: nat := NBUF) returns (b: nat)
      requires Valid() && s < start && s !in cache.held
      requires s in cache.dirty || |cache.held + cache.dirty| < NBUF
      modifies cache
      ensures Valid() && SameTx() && Kept(keep) && Home() == old(Home())
      ensures cache.history == old(cache.history) && cache.disk == old(cache.disk)
      ensures cache.dirty == old(cache.dirty) && cache.held == old(cache.held) + {s}
      ensures cache.Holding(s, b) && cache.bufs[b].data == Home()[s] && !old(cache.bufs[b].busy)
    {
      hide Cache.Valid, Names, NamesOnce, Word, QuietFrom;
      b := cache.Read(s);
    }

    /** bufcache_release of a home sector. */
    method Release(b: nat, ghost keep: nat := NBUF)
      requires Valid() && keep != b && b < |cache.bufs| && cache.Holding(cache.bufs[b].sector, b)
      modifies cache
      ensures Valid() && SameTx() && Kept(keep) && Home() == old(Home())
      ensures cache.history == old(cache.history) && cache.disk == old(cache.disk)
      ensures cache.dirty == old(cache.dirty)
      ensures cache.held == old(cache.held) - {old(cache.bufs[b].sector)}
    {
      hide Cache.Valid, Names, NamesOnce, Word, QuietFrom;
      cache.HolderKnows(b);
      cache.Release(b);
    }

    /** The slot search of log_write. */
    method FindSlot(s: nat) returns (i: nat)
      requires n <= |sector|
      ensures SlotFor(sector, n, s, i)
    {
      i := 0;
      while i < n
        invariant 0 <= i <= n
        invariant forall j | 0 <= j < i :: sector[j] != s
      {
        if sector[i] == s {
          break;
        }
        i := i + 1;
      }
    }

    /** The caller stores `data` into its buffer and hands it to log_write. */
    method LogWrite(b: nat, data: Block, ghost keep: nat := NBUF)
      requires Valid() && busy && keep != b
      requires n < LOGSIZE && n < size - 1                     // else "too big a transaction"
      requires b < |cache.bufs| && cache.Holding(cache.bufs[b].sector, b)
      requires |cache.held + cache.dirty| < NBUF               // else "no buffers"
      modifies this, cache
      ensures Valid() && SameTx() && Kept(keep) && cache.history == old(cache.history) + [cache.disk]
      ensures cache.Holding(cache.bufs[b].sector, b)
      ensures cache.bufs[b] == old(cache.bufs[b]).(data := data, dirty := true)
      ensures Home() == old(Home())[cache.bufs[b].sector := data]
      ensures cache.dirty == old(cache.dirty) + {cache.bufs[b].sector}
      ensures cache.held == old(cache.held) && Logged() == Joined(old(Logged()), cache.bufs[b].sector)
    {
      hide Cache.Valid, Uncommitted, QuietFrom, Joined, SlotFor;
      Basics();
      var s := cache.bufs[b].sector;
      cache.HolderKnows(b);
      var i := FindSlot(s);
      LogBlock(n, sector, start, cache.view, cache.disk, cache.held, cache.dirty, s, i, data);
      SlotWriteIsQuiet(past, cache.history, start, base, cache.disk, start + 1 + i, data);
      HomeAfter(cache.view, start, s, start + 1 + i, data);
      SlotJoins(sector, n, s, i);
      sector := sector[i := s];
      CopyToSlot(b, start + 1 + i, data, keep);
      if i == n {
        n := n + 1;
      }
    }

    /** The buffer work of log_write: the held buffer b takes the data and is pinned, and sector t of the log
        takes a copy. */
    method CopyToSlot(b: nat, t: nat, data: Block, ghost keep: nat)
      requires cache.Valid() && b < |cache.bufs| && cache.Holding(cache.bufs[b].sector, b) && keep != b
      requires t < |cache.disk| == |cache.view| && t !in cache.held + cache.dirty && |cache.held + cache.dirty| < NBUF
      modifies cache
      ensures cache.Valid() && Kept(keep) && cache.Holding(cache.bufs[b].sector, b)
      ensures cache.bufs[b] == old(cache.bufs[b]).(data := data, dirty := true)
      ensures cache.bufs[b].sector < |old(cache.view)|
      ensures cache.view == old(cache.view)[cache.bufs[b].sector := data][t := data]
      ensures cache.disk == old(cache.disk)[t := data] && cache.history == old(cache.history) + [cache.disk]
      ensures cache.held == old(cache.held) && cache.dirty == old(cache.dirty) + {cache.bufs[b].sector}
    {
      hide Cache.Valid;
      cache.HolderKnows(b);
      cache.SetData(b, data);
      cache.Overwrite(t, cache.bufs[b].data);
      assert cache.dirty == old(cache.dirty) && cache.bufs[b] == old(cache.bufs[b]).(data := data);
      cache.MarkDirty(b);
    }

    /** commit_trans. Its first write is the header, which commits; its others replay and erase the log
        that this write left. */
    method CommitTrans()
      requires Valid() && busy && cache.held == {}
      modifies this, cache
      ensures Valid() && !busy && n == 0 && cache.held == {} && cache.dirty == {}
      ensures base == Home() == old(Home()) && cache.view == cache.disk && |cache.disk| == |old(cache.disk)|
      ensures old(cache.history) <= cache.history && past == cache.history
      ensures old(n) == 0 ==> cache.history == old(cache.history)
      ensures old(n) > 0 ==> Published(|old(cache.history)|, old(base), old(Logged()))
    {
      hide Cache.Valid, Uncommitted, QuietFrom, Published;
      Basics();
      if n > 0 {
        Publish();
      } else {
        AllClean();
      }
      Basics();
      QuietLast(cache.history, |past| - 1, start, base, |cache.disk|);
      busy := false;
      past := cache.history;
    }

    /** With nothing logged and nothing held, readers see the disk. */
    lemma AllClean()
      requires Valid() && cache.held == {} && n == 0
      ensures cache.dirty == {} && cache.view == cache.disk
    {
      cache.Settled();
    }

    /** The images from number h on are a commit of the current home sectors over `before`, with these
        sectors logged. */
    ghost predicate Published(h: nat, before: Disk, logged: seq<nat>)
      reads this`base, cache
    {
      && h < |cache.history| && |cache.history[h]| == |cache.disk|
      && Committed(cache.history[h], start, before, base) && Headed(cache.history[h], start, logged)
      && forall k | h <= k < |cache.history| :: cache.history[k] == RecoveryImage(cache.history[h], start, k - h)
    }

    /** The disk writes of a nonempty commit. */
    method Publish()
      requires Valid() && cache.held == {} && n > 0
      modifies this`n, this`base, this`past, cache
      ensures Valid() && n == 0 && cache.held == {} && cache.dirty == {}
      ensures base == Home() == old(Home()) && cache.view == cache.disk && |cache.disk| == |old(cache.disk)|
      ensures old(cache.history) <= cache.history
      ensures Published(|old(cache.history)|, old(base), old(Logged()))
    {
      hide Cache.Valid, Uncommitted, Word, Names, NamesOnce, Installed, Committed, Headed, Once, QuietFrom, Recovered,
           RecoveryImage;
      Basics();
      ghost var before, after, logged := base, Home(), Logged();
      Commits(n, sector, start, cache.view, cache.disk, cache.held, cache.dirty,
              cache.disk[start := Header(cache.disk[start], n, sector, n)]);
      WriteHead();
      ghost var h, d := |cache.history| - 1, cache.disk;
      CommittedMeans(d, start, before, after, logged);
      InstallAndErase();
      assert cache.history[h] == d;
    }
  }

  lemma CommittedMeans(d: Disk, start: nat, before: Disk, after: Disk, logged: seq<nat>)
    requires Committed(d, start, before, after) && Headed(d, start, logged)
    ensures WellFormed(d, start) && Recovered(d, start)[..start] == after && |Recovered(d, start)| == |d|
    ensures Count(d, start) == |logged| && RecoveryImage(d, start, 0) == d
    ensures forall i | 0 <= i < |logged| :: i < LOGSIZE && HomeSector(d, start, i) == logged[i]
  {
  }

  /** The images of a recovery all boot alike exactly if the disk it began from does not move the log. */
  lemma RecoveryBoots(image: Disk, history: seq<Disk>)
    requires Bootable(image) && |history| > 0
    requires forall k | 0 <= k < |history| :: history[k] == RecoveryImage(image, LogStart(image), k)
    ensures (forall d | d in history :: BootsTo(d, LogStart(image), LogSize(image), Durable(image, LogStart(image))))
            <==> Rooted(image)
    ensures Rooted(image) && LogStart(image) > 1 ==>
              var r := Recovered(image, LogStart(image));
              |r| > 1 && SamePlace(r[1], image[1])
  {
    hide Rooted, Recovered, Installed, BootsTo;
    var start := LogStart(image);
    InstalledStep(image, start, 0);
    BootExact(image);
    assert history[0] == image;
    if Rooted(image) {
      forall k | 0 <= k < |history|
        ensures BootsTo(history[k], start, LogSize(image), Durable(image, start))
      {
        CrashKeepsRoot(image, k);
        RootedIsBootable(history[k]);
        BootExact(history[k]);
      }
      CrashKeepsRoot(image, Count(image, start) + 1);
      SamePlaceOf(image, BootImage(image, Count(image, start) + 1));
    }
  }

  lemma SamePlaceOf(d: Disk, p: Disk)
    requires Rooted(d) && Rooted(p) && LogStart(p) == LogStart(d) && LogSize(p) == LogSize(d)
    ensures |p| > 1 && |d| > 1 && SamePlace(p[1], d[1])
  {
  }
}
