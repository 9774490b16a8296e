/** The sleeping locks of the file system, one step per lock operation. begin_trans / commit_trans
    (log.lock and log.busy), inode_lock / inode_unlock (inode_cache.lock and I_BUSY) and
    bufcache_get / bufcache_release (bcache.lock and B_BUSY) all follow one pattern: under a spinlock,
    wait with thread_sleep while a busy flag is set, then set it; later, under the spinlock, clear it
    and thread_wakeup its channel. Here any number of processes do this, in every interleaving, to any
    number of flags, each guarded by one of any number of spinlocks. A process may hold several flags at
    once, as file_write does; it holds one of these spinlocks at a time. thread_sleep and thread_wakeup
    take sched_lk inside. */
module SleepLock {
  import opened Options

  /** Where a process is. r is the flag (and channel) it deals with, l a spinlock. */
  datatype PC =
    | Outside                    // holds no spinlock, is about to take or release a flag
    | Check(l: nat)              // holds spinlock l, looks at one of its flags
    | SleepEnter(r: nat)         // in thread_sleep, holds the spinlock, wants sched_lk
    | SleepUnlock(r: nat)        // holds both, releases the spinlock
    | SleepMark(r: nat)          // holds sched_lk, marks itself asleep on r
    | SleepSwitch(r: nat)        // asleep, still holds sched_lk, switches away
    | Asleep(r: nat)             // asleep on r
    | Woken                      // runnable again, wants sched_lk to clear its channel
    | Tidy                       // holds sched_lk, clears its channel
    | Taken(r: nat)              // has set the flag, still holds the spinlock
    | Clear(r: nat)              // holds the spinlock, clears a flag it has
    | WakeEnter(r: nat)          // in thread_wakeup, holds the spinlock, wants sched_lk
    | Wake(r: nat)               // holds both, wakes the sleepers
    | WakeExit(r: nat)           // holds both, releases sched_lk
    | Leave(r: nat)              // holds the spinlock, releases it

  /** own[p] are the flags process p has taken; guard[r] is the spinlock of flag r. */
  datatype State = State(pc: seq<PC>, own: seq<set<nat>>, busy: seq<bool>, lk: seq<Option<nat>>,
                         sched: Option<nat>, guard: seq<nat>)

  function LockOf(guard: seq<nat>, r: nat): nat {
    if r < |guard| then guard[r] else 0
  }

  /** The spinlock the process holds, if any. */
  function HeldLock(guard: seq<nat>, c: PC): Option<nat> {
    match c
    case Check(l) => Some(l)
    case SleepEnter(r) => Some(LockOf(guard, r))
    case SleepUnlock(r) => Some(LockOf(guard, r))
    case Taken(r) => Some(LockOf(guard, r))
    case Clear(r) => Some(LockOf(guard, r))
    case WakeEnter(r) => Some(LockOf(guard, r))
    case Wake(r) => Some(LockOf(guard, r))
    case WakeExit(r) => Some(LockOf(guard, r))
    case Leave(r) => Some(LockOf(guard, r))
    case _ => None
  }

  predicate HoldsSched(c: PC) {
    c.SleepUnlock? || c.SleepMark? || c.SleepSwitch? || c.Tidy? || c.Wake? || c.WakeExit?
  }

  /** The channel of a process that has decided to sleep and is no longer protected by the spinlock. */
  function Dozing(c: PC): Option<nat> {
    if c.SleepMark? || c.SleepSwitch? || c.Asleep? then Some(c.r) else None
  }

  /** The flag of a process that has decided to sleep and still holds the spinlock. */
  function Deciding(c: PC): Option<nat> {
    if c.SleepEnter? || c.SleepUnlock? then Some(c.r) else None
  }

  /** The flag of a process that has cleared it and has yet to wake its sleepers. */
  function WillWake(c: PC): Option<nat> {
    if c.WakeEnter? || c.Wake? then Some(c.r) else None
  }

  ghost predicate Init(s: State) {
    && |s.own| == |s.pc|
    && (forall p | 0 <= p < |s.pc| :: s.pc[p] == Outside && s.own[p] == {})
    && (forall r | 0 <= r < |s.busy| :: !s.busy[r])
    && (forall l | 0 <= l < |s.lk| :: s.lk[l] == None) && s.sched == None
  }

  /** Everybody asleep on r becomes runnable. */
  function Awaken(pc: seq<PC>, r: nat): (pc': seq<PC>)
    ensures |pc'| == |pc|
    ensures forall p | 0 <= p < |pc| :: pc'[p] == if pc[p] == Asleep(r) then Woken else pc[p]
  {
    seq(|pc|, p requires 0 <= p < |pc| => if pc[p] == Asleep(r) then Woken else pc[p])
  }

  /** Process p acquires spinlock l and goes on at c. */
  ghost predicate Acquires(s: State, t: State, p: nat, l: nat, c: PC)
    requires p < |s.pc|
  {
    l < |s.lk| && s.lk[l] == None && t == s.(lk := s.lk[l := Some(p)], pc := s.pc[p := c])
  }

  /** Process p takes the spinlock of flag r to look at its flags. */
  ghost predicate Enters(s: State, t: State, p: nat, r: nat)
    requires p < |s.pc|
  {
    r < |s.busy| && Acquires(s, t, p, LockOf(s.guard, r), Check(LockOf(s.guard, r)))
  }

  /** Process p takes the spinlock of flag r, which it has, to release it. */
  ghost predicate Returns(s: State, t: State, p: nat, r: nat)
    requires p < |s.pc|
  {
    Has(s.own, p, r) && Acquires(s, t, p, LockOf(s.guard, r), Clear(r))
  }

  /** Process p, at the spinlock of flag r, finds it set or takes it. */
  ghost predicate LooksAt(s: State, t: State, p: nat, r: nat)
    requires p < |s.pc| && p < |s.own|
  {
    && r < |s.busy| && s.pc[p] == Check(LockOf(s.guard, r))
    && t == if s.busy[r] then s.(pc := s.pc[p := SleepEnter(r)])
            else s.(pc := s.pc[p := Taken(r)], busy := s.busy[r := true], own := s.own[p := s.own[p] + {r}])
  }

  /** Process p releases the spinlock of flag r and goes on at c. */
  ghost predicate Unlocks(s: State, t: State, p: nat, r: nat, c: PC)
    requires p < |s.pc|
  {
    LockOf(s.guard, r) < |s.lk| && t == s.(lk := s.lk[LockOf(s.guard, r) := None], pc := s.pc[p := c])
  }

  /** Process p takes sched_lk and goes on at c. */
  ghost predicate TakesSched(s: State, t: State, p: nat, c: PC)
    requires p < |s.pc|
  {
    s.sched == None && t == s.(sched := Some(p), pc := s.pc[p := c])
  }

  /** Process p takes one step. */
  ghost predicate Step(s: State, t: State, p: nat)
    requires p < |s.pc| && p < |s.own|
  {
    match s.pc[p]
    case Outside =>
      (exists r: nat :: Enters(s, t, p, r)) || (exists r: nat :: Returns(s, t, p, r))
    case Check(l) => exists r: nat :: LooksAt(s, t, p, r)
    case SleepEnter(r) => TakesSched(s, t, p, SleepUnlock(r))
    case SleepUnlock(r) => Unlocks(s, t, p, r, SleepMark(r))
    case SleepMark(r) => t == s.(pc := s.pc[p := SleepSwitch(r)])
    case SleepSwitch(r) => t == s.(sched := None, pc := s.pc[p := Asleep(r)])
    case Asleep(r) => false
    case Woken => TakesSched(s, t, p, Tidy)
    case Tidy => t == s.(sched := None, pc := s.pc[p := Outside])
    case Taken(r) => Unlocks(s, t, p, r, Outside)
    case Clear(r) =>
      r < |s.busy| && t == s.(pc := s.pc[p := WakeEnter(r)], busy := s.busy[r := false], own := s.own[p := s.own[p] - {r}])
    case WakeEnter(r) => TakesSched(s, t, p, Wake(r))
    case Wake(r) => t == s.(pc := Awaken(s.pc, r)[p := WakeExit(r)])
    case WakeExit(r) => t == s.(sched := None, pc := s.pc[p := Leave(r)])
    case Leave(r) => Unlocks(s, t, p, r, Outside)
  }

  // ---- Spinlocks ----

  /** A spinlock's holder is the process whose code says so. */
  ghost predicate LockOk(pc: seq<PC>, guard: seq<nat>, lk: seq<Option<nat>>) {
    && (forall p | 0 <= p < |pc| && HeldLock(guard, pc[p]).Some? ::
          HeldLock(guard, pc[p]).value < |lk| && lk[HeldLock(guard, pc[p]).value] == Some(p))
    && (forall l | 0 <= l < |lk| && lk[l].Some? ::
          lk[l].value < |pc| && HeldLock(guard, pc[lk[l].value]) == Some(l))
  }

  ghost predicate SchedOk(pc: seq<PC>, sched: Option<nat>) {
    && (sched.Some? ==> sched.value < |pc|)
    && forall p | 0 <= p < |pc| :: HoldsSched(pc[p]) <==> sched == Some(p)
  }

  ghost predicate LocksOk(s: State) {
    LockOk(s.pc, s.guard, s.lk) && SchedOk(s.pc, s.sched)
  }

  lemma LockSame(pc: seq<PC>, guard: seq<nat>, lk: seq<Option<nat>>, pc': seq<PC>)
    requires LockOk(pc, guard, lk) && |pc'| == |pc|
    requires forall q | 0 <= q < |pc| :: HeldLock(guard, pc'[q]) == HeldLock(guard, pc[q])
    ensures LockOk(pc', guard, lk)
  {
  }

  lemma LockTake(pc: seq<PC>, guard: seq<nat>, lk: seq<Option<nat>>, p: nat, l: nat, c: PC)
    requires LockOk(pc, guard, lk) && p < |pc| && l < |lk| && lk[l] == None
    requires HeldLock(guard, pc[p]) == None && HeldLock(guard, c) == Some(l)
    ensures LockOk(pc[p := c], guard, lk[l := Some(p)])
  {
    hide HeldLock;
  }

  lemma LockDrop(pc: seq<PC>, guard: seq<nat>, lk: seq<Option<nat>>, p: nat, l: nat, c: PC)
    requires LockOk(pc, guard, lk) && p < |pc| && l < |lk|
    requires HeldLock(guard, pc[p]) == Some(l) && HeldLock(guard, c) == None
    ensures LockOk(pc[p := c], guard, lk[l := None])
  {
    hide HeldLock;
  }

  lemma SchedMove(pc: seq<PC>, sched: Option<nat>, pc': seq<PC>, sched': Option<nat>, p: nat)
    requires SchedOk(pc, sched) && p < |pc| == |pc'|
    requires forall q | 0 <= q < |pc| && q != p :: HoldsSched(pc'[q]) == HoldsSched(pc[q])
    requires HoldsSched(pc'[p]) && !HoldsSched(pc[p]) ==> sched == None && sched' == Some(p)
    requires HoldsSched(pc[p]) && !HoldsSched(pc'[p]) ==> sched' == None
    requires HoldsSched(pc[p]) == HoldsSched(pc'[p]) ==> sched' == sched
    ensures SchedOk(pc', sched')
  {
  }

  /** What a step does to the processes' places: the stepper moves, and a wakeup moves sleepers. */
  lemma StepPlaces(s: State, t: State, p: nat)
    requires p < |s.pc| == |s.own| && Step(s, t, p)
    ensures |t.pc| == |s.pc| == |t.own| && t.guard == s.guard && |t.busy| == |s.busy| && |t.lk| == |s.lk|
    ensures forall q | 0 <= q < |s.pc| && q != p :: t.pc[q] == s.pc[q] || (s.pc[q].Asleep? && t.pc[q] == Woken)
    ensures !s.pc[p].Wake? ==> t.pc == s.pc[p := t.pc[p]]
  {
  }

  lemma SchedKept(s: State, t: State, p: nat)
    requires SchedOk(s.pc, s.sched) && p < |s.pc| == |s.own| && Step(s, t, p)
    ensures SchedOk(t.pc, t.sched)
  {
    hide SchedOk;
    StepPlaces(s, t, p);
    SchedMove(s.pc, s.sched, t.pc, t.sched, p);
  }

  lemma LockKept(s: State, t: State, p: nat)
    requires LockOk(s.pc, s.guard, s.lk) && p < |s.pc| == |s.own| && Step(s, t, p)
    ensures LockOk(t.pc, t.guard, t.lk)
  {
    hide LockOk;
    StepPlaces(s, t, p);
    match s.pc[p] {
      case Outside =>
        if r: nat :| Enters(s, t, p, r) {
          LockTake(s.pc, s.guard, s.lk, p, LockOf(s.guard, r), Check(LockOf(s.guard, r)));
        } else {
          var r: nat :| Returns(s, t, p, r);
          LockTake(s.pc, s.guard, s.lk, p, LockOf(s.guard, r), Clear(r));
        }
      case SleepUnlock(r) => LockDrop(s.pc, s.guard, s.lk, p, LockOf(s.guard, r), SleepMark(r));
      case Taken(r) => LockDrop(s.pc, s.guard, s.lk, p, LockOf(s.guard, r), Outside);
      case Leave(r) => LockDrop(s.pc, s.guard, s.lk, p, LockOf(s.guard, r), Outside);
      case _ => LockSame(s.pc, s.guard, s.lk, t.pc);
    }
  }

  // ---- Owners ----

  /** Process p has flag r. */
  predicate Has(own: seq<set<nat>>, p: nat, r: nat) {
    p < |own| && r in own[p]
  }

  ghost predicate HasOwner(own: seq<set<nat>>, r: nat) {
    exists p :: Has(own, p, r)
  }

  /** Where a process has flag r, and where it has given it back. */
  predicate MustHave(c: PC, r: nat) {
    c == Taken(r) || c == Clear(r)
  }

  predicate GaveBack(c: PC, r: nat) {
    c == WakeEnter(r) || c == Wake(r) || c == WakeExit(r) || c == Leave(r)
  }

  /** Flags and owners agree, no flag has two owners, only an owner clears, and a process that has taken a
      flag, or is on its way out after releasing it, has it or has it no longer. */
  ghost predicate OwnersOk(pc: seq<PC>, own: seq<set<nat>>, busy: seq<bool>) {
    && |own| == |pc|
    && (forall p: nat, r: nat | Has(own, p, r) :: r < |busy| && busy[r])
    && (forall p: nat, q: nat, r: nat | Has(own, p, r) && Has(own, q, r) :: p == q)
    && (forall r | 0 <= r < |busy| && busy[r] :: HasOwner(own, r))
    && (forall p: nat, r: nat | p < |pc| && MustHave(pc[p], r) :: Has(own, p, r))
    && (forall p: nat, r: nat | p < |pc| && GaveBack(pc[p], r) :: !Has(own, p, r))
  }

  lemma OwnersTake(pc: seq<PC>, own: seq<set<nat>>, busy: seq<bool>, p: nat, r: nat)
    requires OwnersOk(pc, own, busy) && p < |pc| && r < |busy| && !busy[r] && !pc[p].Clear?
    ensures OwnersOk(pc[p := Taken(r)], own[p := own[p] + {r}], busy[r := true])
  {
    var own' := own[p := own[p] + {r}];
    assert forall q: nat, x: nat :: Has(own', q, x) <==> Has(own, q, x) || (q == p && x == r);
    assert Has(own', p, r);
    forall x | 0 <= x < |busy| && (x == r || busy[x])
      ensures HasOwner(own', x)
    {
      if x != r {
        assert HasOwner(own, x);
        var q :| Has(own, q, x);
        assert Has(own', q, x);
      }
    }
  }

  lemma OwnersClear(pc: seq<PC>, own: seq<set<nat>>, busy: seq<bool>, p: nat, r: nat)
    requires OwnersOk(pc, own, busy) && p < |pc| && r < |busy| && pc[p] == Clear(r)
    ensures OwnersOk(pc[p := WakeEnter(r)], own[p := own[p] - {r}], busy[r := false])
  {
    var own' := own[p := own[p] - {r}];
    assert Has(own, p, r);
    assert forall q: nat, x: nat :: Has(own', q, x) <==> Has(own, q, x) && !(q == p && x == r);
    forall x | 0 <= x < |busy| && x != r && busy[x]
      ensures HasOwner(own', x)
    {
      assert HasOwner(own, x);
      var q :| Has(own, q, x);
      assert Has(own', q, x);
    }
  }

  /** A move that takes and releases no flag. */
  lemma OwnersMove(pc: seq<PC>, own: seq<set<nat>>, busy: seq<bool>, pc': seq<PC>, p: nat)
    requires OwnersOk(pc, own, busy) && p < |pc| == |pc'|
    requires forall q | 0 <= q < |pc| && q != p :: pc'[q] == pc[q] || pc'[q] == Woken
    requires forall r: nat | MustHave(pc'[p], r) :: Has(own, p, r)
    requires forall r: nat | GaveBack(pc'[p], r) :: GaveBack(pc[p], r)
    ensures OwnersOk(pc', own, busy)
  {
  }

  lemma OwnersKept(s: State, t: State, p: nat)
    requires OwnersOk(s.pc, s.own, s.busy) && p < |s.pc| == |s.own| && Step(s, t, p)
    ensures OwnersOk(t.pc, t.own, t.busy)
  {
    hide OwnersOk;
    StepPlaces(s, t, p);
    match s.pc[p] {
      case Outside =>
        OutsideMoves(s, t, p);
        OwnersMove(s.pc, s.own, s.busy, t.pc, p);
      case Check(l) =>
        var r: nat :| LooksAt(s, t, p, r);
        if s.busy[r] {
          OwnersMove(s.pc, s.own, s.busy, t.pc, p);
        } else {
          OwnersTake(s.pc, s.own, s.busy, p, r);
        }
      case Clear(r) => OwnersClear(s.pc, s.own, s.busy, p, r);
      case _ => OwnersMove(s.pc, s.own, s.busy, t.pc, p);
    }
  }

  // ---- Sleepers ----

  /** Somebody has cleared flag r and is about to wake its sleepers. */
  ghost predicate WakePending(pc: seq<PC>, r: nat) {
    exists q :: 0 <= q < |pc| && WillWake(pc[q]) == Some(r)
  }

  /** A sleeper's flag is set, or a wakeup for it is pending. */
  ghost predicate SleepersOk(pc: seq<PC>, busy: seq<bool>) {
    && (forall p | 0 <= p < |pc| && Deciding(pc[p]).Some? ::
          Deciding(pc[p]).value < |busy| && busy[Deciding(pc[p]).value])
    && (forall p | 0 <= p < |pc| && Dozing(pc[p]).Some? ::
          Dozing(pc[p]).value < |busy| && (busy[Dozing(pc[p]).value] || WakePending(pc, Dozing(pc[p]).value)))
  }

  /** A pending wakeup stays pending while its process does not carry it out. */
  lemma PendingStays(pc: seq<PC>, pc': seq<PC>, r: nat, p: nat)
    requires |pc'| == |pc| && WakePending(pc, r) && p < |pc|
    requires forall q | 0 <= q < |pc| && q != p :: WillWake(pc'[q]) == WillWake(pc[q])
    requires WillWake(pc[p]) == Some(r) ==> WillWake(pc'[p]) == Some(r)
    ensures WakePending(pc', r)
  {
    var q :| 0 <= q < |pc| && WillWake(pc[q]) == Some(r);
    assert WillWake(pc'[q]) == Some(r);
  }

  lemma SleepersMove(pc: seq<PC>, busy: seq<bool>, p: nat, c: PC)
    requires SleepersOk(pc, busy) && p < |pc|
    requires Deciding(c).Some? ==> Deciding(c).value < |busy| && busy[Deciding(c).value]
    requires Dozing(c).Some? ==> Dozing(c) == Dozing(pc[p]) || Dozing(c) == Deciding(pc[p])
    requires WillWake(pc[p]).Some? ==> WillWake(c) == WillWake(pc[p])
    ensures SleepersOk(pc[p := c], busy)
  {
    var pc' := pc[p := c];
    forall q | 0 <= q < |pc'| && Dozing(pc'[q]).Some?
      ensures var r := Dozing(pc'[q]).value; r < |busy| && (busy[r] || WakePending(pc', r))
    {
      var r := Dozing(pc'[q]).value;
      if WakePending(pc, r) {
        PendingStays(pc, pc', r, p);
      }
    }
  }

  lemma SleepersTake(pc: seq<PC>, busy: seq<bool>, p: nat, r: nat)
    requires SleepersOk(pc, busy) && p < |pc| && r < |busy| && pc[p].Check?
    ensures SleepersOk(pc[p := Taken(r)], busy[r := true])
  {
    SleepersMove(pc, busy, p, Taken(r));
  }

  /** The flag is cleared: nobody is deciding to sleep on it, since that needs the same spinlock. */
  lemma SleepersClear(pc: seq<PC>, busy: seq<bool>, p: nat, r: nat)
    requires SleepersOk(pc, busy) && p < |pc| && r < |busy| && pc[p] == Clear(r)
    requires forall q | 0 <= q < |pc| && q != p :: Deciding(pc[q]) != Some(r)
    ensures SleepersOk(pc[p := WakeEnter(r)], busy[r := false])
  {
    SleepersMove(pc, busy, p, WakeEnter(r));
    assert WillWake(pc[p := WakeEnter(r)][p]) == Some(r);
  }

  /** The wakeup: everybody dozing on r is fully asleep, since falling asleep needs sched_lk. */
  lemma SleepersWake(pc: seq<PC>, busy: seq<bool>, p: nat, r: nat)
    requires SleepersOk(pc, busy) && p < |pc| && pc[p] == Wake(r)
    requires forall q | 0 <= q < |pc| && Dozing(pc[q]).Some? :: pc[q].Asleep?
    ensures SleepersOk(Awaken(pc, r)[p := WakeExit(r)], busy)
  {
    var pc' := Awaken(pc, r)[p := WakeExit(r)];
    forall q | 0 <= q < |pc'| && Dozing(pc'[q]).Some?
      ensures var x := Dozing(pc'[q]).value; x < |busy| && (busy[x] || WakePending(pc', x))
    {
      var x := Dozing(pc'[q]).value;
      assert pc'[q] == pc[q] && x != r;
      if WakePending(pc, x) {
        PendingStays(pc, pc', x, p);
      }
    }
  }

  lemma SameLockSameProcess(s: State, p: nat, q: nat)
    requires LocksOk(s) && p < |s.pc| && q < |s.pc|
    requires HeldLock(s.guard, s.pc[p]).Some? && HeldLock(s.guard, s.pc[p]) == HeldLock(s.guard, s.pc[q])
    ensures p == q
  {
  }

  /** While a process is in thread_wakeup, all who doze are fully asleep. */
  lemma FullyAsleep(s: State, p: nat)
    requires LocksOk(s) && p < |s.pc| && s.pc[p].Wake?
    ensures forall q | 0 <= q < |s.pc| && Dozing(s.pc[q]).Some? :: s.pc[q].Asleep?
  {
  }

  /** A process looks at the flags of a spinlock that guards some. */
  ghost predicate Guarded(s: State) {
    forall p | 0 <= p < |s.pc| && s.pc[p].Check? :: exists r: nat :: r < |s.busy| && LockOf(s.guard, r) == s.pc[p].l
  }

  ghost predicate Inv(s: State) {
    LocksOk(s) && OwnersOk(s.pc, s.own, s.busy) && SleepersOk(s.pc, s.busy) && Guarded(s)
  }

  lemma GuardedKept(s: State, t: State, p: nat)
    requires Guarded(s) && p < |s.pc| == |s.own| && Step(s, t, p)
    ensures Guarded(t)
  {
    hide LockOf;
    StepPlaces(s, t, p);
    assert t.pc[p].Check? ==> exists r: nat :: Enters(s, t, p, r);
  }

  lemma SleepersKept(s: State, t: State, p: nat)
    requires LocksOk(s) && SleepersOk(s.pc, s.busy) && p < |s.pc| == |s.own| && Step(s, t, p)
    ensures SleepersOk(t.pc, t.busy)
  {
    hide SleepersOk, LocksOk;
    match s.pc[p] {
      case Check(l) =>
        var r: nat :| LooksAt(s, t, p, r);
        if s.busy[r] {
          SleepersMove(s.pc, s.busy, p, SleepEnter(r));
        } else {
          SleepersTake(s.pc, s.busy, p, r);
        }
      case Clear(r) =>
        forall q | 0 <= q < |s.pc| && q != p
          ensures Deciding(s.pc[q]) != Some(r)
        {
          if Deciding(s.pc[q]) == Some(r) {
            SameLockSameProcess(s, p, q);
          }
        }
        SleepersClear(s.pc, s.busy, p, r);
      case Wake(r) => FullyAsleep(s, p); SleepersWake(s.pc, s.busy, p, r);
      case SleepEnter(r) => DecidingBusy(s.pc, s.busy, p); SleepersMove(s.pc, s.busy, p, t.pc[p]);
      case Outside => StepPlaces(s, t, p); OutsideMoves(s, t, p); SleepersMove(s.pc, s.busy, p, t.pc[p]);
      case Asleep(r) =>
      case _ => SleepersMove(s.pc, s.busy, p, t.pc[p]);
    }
  }

  lemma OutsideMoves(s: State, t: State, p: nat)
    requires p < |s.pc| == |s.own| && s.pc[p] == Outside && Step(s, t, p)
    ensures p < |t.pc| && (t.pc[p].Check? || (t.pc[p].Clear? && Has(s.own, p, t.pc[p].r)))
    ensures t.busy == s.busy && t.own == s.own
  {
  }

  lemma DecidingBusy(pc: seq<PC>, busy: seq<bool>, p: nat)
    requires SleepersOk(pc, busy) && p < |pc| && Deciding(pc[p]).Some?
    ensures Deciding(pc[p]).value < |busy| && busy[Deciding(pc[p]).value]
  {
  }

  lemma InitInv(s: State)
    requires Init(s)
    ensures Inv(s)
  {
  }

  lemma StepKeeps(s: State, t: State, p: nat)
    requires Inv(s) && p < |s.pc| == |s.own| && Step(s, t, p)
    ensures Inv(t)
  {
    hide LockOk, SchedOk, OwnersOk, SleepersOk, Step;
    LockKept(s, t, p);
    SchedKept(s, t, p);
    OwnersKept(s, t, p);
    SleepersKept(s, t, p);
    GuardedKept(s, t, p);
  }

  // ---- What a step does, and when there is one ----

  /** Flags change hands in two places only: a clear flag is taken, and a released one is clear, and the
      releaser has it no longer. Who finds a flag set goes to sleep on it, and a wakeup moves exactly those
      who are asleep on its flag. */
  lemma StepEffect(s: State, t: State, p: nat)
    requires Inv(s) && p < |s.pc| == |s.own| && Step(s, t, p)
    ensures |t.pc| == |t.own| == |s.pc| && |t.busy| == |s.busy|
    ensures forall q: nat | q < |s.own| && q != p :: t.own[q] == s.own[q]
    ensures forall q: nat | q < |s.pc| && q != p ::
              t.pc[q] == if s.pc[p].Wake? && s.pc[q] == Asleep(s.pc[p].r) then Woken else s.pc[q]
    ensures s.pc[p].Check? && !t.pc[p].Taken? ==>
              t.pc[p].SleepEnter? && t.pc[p].r < |s.busy| && s.busy[t.pc[p].r] && LockOf(s.guard, t.pc[p].r) == s.pc[p].l
    ensures s.pc[p].Clear? ==>
              && s.pc[p].r < |s.busy| && s.busy[s.pc[p].r] && Has(s.own, p, s.pc[p].r)
              && !t.busy[s.pc[p].r] && !Has(t.own, p, s.pc[p].r) && t.pc[p] == WakeEnter(s.pc[p].r)
    ensures t.pc[p].Taken? ==>
              && t.pc[p].r < |s.busy| && !s.busy[t.pc[p].r] && !HasOwner(s.own, t.pc[p].r)
              && t.busy[t.pc[p].r] && Has(t.own, p, t.pc[p].r)
    ensures forall r: nat | r < |s.busy| && s.pc[p] != Clear(r) && t.pc[p] != Taken(r) ::
              t.busy[r] == s.busy[r] && (Has(t.own, p, r) <==> Has(s.own, p, r))
  {
    hide LocksOk, SleepersOk, Guarded;
    StepPlaces(s, t, p);
    if s.pc[p].Clear? {
      ClearsOwn(s, p);
    }
  }

  ghost predicate CanStep(s: State, p: nat)
    requires p < |s.pc| && p < |s.own|
  {
    exists t :: Step(s, t, p)
  }

  /** A process with a clear flag in front of it may take it. */
  lemma TakesClearFlag(s: State, p: nat, r: nat) returns (t: State)
    requires p < |s.pc| == |s.own| && r < |s.busy| && s.pc[p] == Check(LockOf(s.guard, r)) && !s.busy[r]
    ensures Step(s, t, p) && t.pc[p] == Taken(r) && Has(t.own, p, r)
  {
    t := s.(pc := s.pc[p := Taken(r)], busy := s.busy[r := true], own := s.own[p := s.own[p] + {r}]);
    assert LooksAt(s, t, p, r);
  }

  /** A process outside that has flag r may go and release it, once its spinlock is free. */
  lemma ReleasesOwnFlag(s: State, p: nat, r: nat) returns (t: State)
    requires p < |s.pc| == |s.own| && s.pc[p] == Outside && Has(s.own, p, r)
    requires LockOf(s.guard, r) < |s.lk| && s.lk[LockOf(s.guard, r)] == None
    ensures Step(s, t, p) && t.pc[p] == Clear(r)
  {
    t := s.(lk := s.lk[LockOf(s.guard, r) := Some(p)], pc := s.pc[p := Clear(r)]);
    assert Returns(s, t, p, r);
  }

  /** How many steps of its own a process is away from being outside or asleep, at most. */
  function StepsLeft(c: PC): nat {
    match c
    case Outside => 0
    case Check(l) => 5
    case SleepEnter(r) => 4
    case SleepUnlock(r) => 3
    case SleepMark(r) => 2
    case SleepSwitch(r) => 1
    case Asleep(r) => 0
    case Woken => 2
    case Tidy => 1
    case Taken(r) => 1
    case Clear(r) => 5
    case WakeEnter(r) => 4
    case Wake(r) => 3
    case WakeExit(r) => 2
    case Leave(r) => 1
  }

  /** Every lock operation ends: each step of a process that is not outside brings it nearer to being outside
      or asleep, and only a process that found a flag set ends up asleep. */
  lemma OperationEnds(s: State, t: State, p: nat)
    requires p < |s.pc| == |s.own| && Step(s, t, p)
    ensures p < |t.pc| && (s.pc[p] != Outside ==> StepsLeft(t.pc[p]) < StepsLeft(s.pc[p]))
    ensures StepsLeft(t.pc[p]) == 0 ==> t.pc[p] == if s.pc[p].SleepSwitch? then Asleep(s.pc[p].r) else Outside
  {
  }

  /** Process p waits for nothing: it is not asleep, and the lock it wants next, if any, is free. */
  ghost predicate Free(s: State, p: nat)
    requires p < |s.pc|
  {
    match s.pc[p]
    case Outside => exists r: nat :: r < |s.busy| && LockOf(s.guard, r) < |s.lk| && s.lk[LockOf(s.guard, r)] == None
    case SleepEnter(r) => s.sched == None
    case WakeEnter(r) => s.sched == None
    case Woken => s.sched == None
    case Asleep(r) => false
    case _ => true
  }

  /** A process can take a step if and only if it waits for nothing. */
  lemma StepExists(s: State, p: nat)
    requires Inv(s) && p < |s.pc| == |s.own|
    ensures CanStep(s, p) <==> Free(s, p)
  {
    if Free(s, p) {
      var t := SomeStep(s, p);
    }
    if t :| Step(s, t, p) {
      SteppedWasFree(s, t, p);
    }
  }

  lemma SteppedWasFree(s: State, t: State, p: nat)
    requires Inv(s) && p < |s.pc| == |s.own| && Step(s, t, p)
    ensures Free(s, p)
  {
    hide LocksOk, SleepersOk, Guarded, LockOf;
    if s.pc[p] == Outside {
      if r: nat :| Returns(s, t, p, r) {
        assert r < |s.busy| && s.lk[LockOf(s.guard, r)] == None;
      } else {
        var r: nat :| Enters(s, t, p, r);
        assert s.lk[LockOf(s.guard, r)] == None;
      }
    }
  }

  lemma SomeStep(s: State, p: nat) returns (t: State)
    requires Inv(s) && p < |s.pc| == |s.own| && Free(s, p)
    ensures Step(s, t, p)
  {
    hide SleepersOk, OwnersOk;
    match s.pc[p] {
      case Outside =>
        var r: nat :| r < |s.busy| && LockOf(s.guard, r) < |s.lk| && s.lk[LockOf(s.guard, r)] == None;
        t := s.(lk := s.lk[LockOf(s.guard, r) := Some(p)], pc := s.pc[p := Check(LockOf(s.guard, r))]);
        assert Enters(s, t, p, r);
      case Check(l) =>
        var r: nat :| r < |s.busy| && LockOf(s.guard, r) == l;
        t := if s.busy[r] then s.(pc := s.pc[p := SleepEnter(r)])
             else s.(pc := s.pc[p := Taken(r)], busy := s.busy[r := true], own := s.own[p := s.own[p] + {r}]);
        assert LooksAt(s, t, p, r);
      case SleepEnter(r) => t := s.(sched := Some(p), pc := s.pc[p := SleepUnlock(r)]);
      case SleepUnlock(r) => t := s.(lk := s.lk[LockOf(s.guard, r) := None], pc := s.pc[p := SleepMark(r)]);
      case SleepMark(r) => t := s.(pc := s.pc[p := SleepSwitch(r)]);
      case SleepSwitch(r) => t := s.(sched := None, pc := s.pc[p := Asleep(r)]);
      case Woken => t := s.(sched := Some(p), pc := s.pc[p := Tidy]);
      case Tidy => t := s.(sched := None, pc := s.pc[p := Outside]);
      case Taken(r) => t := s.(lk := s.lk[LockOf(s.guard, r) := None], pc := s.pc[p := Outside]);
      case Clear(r) =>
        ClearsOwn(s, p);
        t := s.(pc := s.pc[p := WakeEnter(r)], busy := s.busy[r := false], own := s.own[p := s.own[p] - {r}]);
      case WakeEnter(r) => t := s.(sched := Some(p), pc := s.pc[p := Wake(r)]);
      case Wake(r) => t := s.(pc := Awaken(s.pc, r)[p := WakeExit(r)]);
      case WakeExit(r) => t := s.(sched := None, pc := s.pc[p := Leave(r)]);
      case Leave(r) => t := s.(lk := s.lk[LockOf(s.guard, r) := None], pc := s.pc[p := Outside]);
    }
  }

  lemma ClearsOwn(s: State, p: nat)
    requires OwnersOk(s.pc, s.own, s.busy) && p < |s.pc| && s.pc[p].Clear?
    ensures s.pc[p].r < |s.busy| && s.busy[s.pc[p].r] && Has(s.own, p, s.pc[p].r)
  {
    assert MustHave(s.pc[p], s.pc[p].r);
  }

  // ---- Runs ----

  ghost predicate IsRun(run: seq<State>) {
    && |run| > 0 && Init(run[0])
    && forall k | 0 < k < |run| :: Next(run[k - 1], run[k])
  }

  /** Some process steps. */
  ghost predicate Next(s: State, t: State) {
    exists p :: 0 <= p < |s.pc| == |s.own| && Step(s, t, p)
  }

  lemma {:induction false} RunKeeps(run: seq<State>, k: nat)
    requires IsRun(run) && k < |run|
    ensures Inv(run[k])
  {
    hide Inv, Step, Init;
    if k == 0 {
      InitInv(run[0]);
    } else {
      RunKeeps(run, k - 1);
      assert Next(run[k - 1], run[k]);
      var p :| 0 <= p < |run[k - 1].pc| == |run[k - 1].own| && Step(run[k - 1], run[k], p);
      StepKeeps(run[k - 1], run[k], p);
    }
  }

  /** In every state of every run a flag that a process has taken and not yet cleared is set, and no other
      process has it. */
  lemma MutualExclusion(run: seq<State>, k: nat, p: nat, q: nat, r: nat)
    requires IsRun(run) && k < |run| && Has(run[k].own, p, r) && Has(run[k].own, q, r)
    ensures p == q && r < |run[k].busy| && run[k].busy[r]
  {
    hide IsRun;
    RunKeeps(run, k);
  }

  /** No lost wakeup: whenever a flag is clear and its spinlock free, nobody sleeps, or is about to sleep,
      on it. */
  lemma NoLostWakeup(run: seq<State>, k: nat, r: nat)
    requires IsRun(run) && k < |run| && r < |run[k].busy| && LockOf(run[k].guard, r) < |run[k].lk|
    requires run[k].lk[LockOf(run[k].guard, r)] == None && !run[k].busy[r]
    ensures forall p | 0 <= p < |run[k].pc| :: Dozing(run[k].pc[p]) != Some(r)
  {
    hide IsRun;
    RunKeeps(run, k);
    NothingPending(run[k], r);
  }

  lemma NothingPending(s: State, r: nat)
    requires LocksOk(s) && LockOf(s.guard, r) < |s.lk| && s.lk[LockOf(s.guard, r)] == None
    ensures !WakePending(s.pc, r)
  {
  }

  /** Every flag is guarded by one of the spinlocks. */
  ghost predicate Laid(s: State) {
    |s.busy| > 0 && |s.own| == |s.pc| && forall r: nat | r < |s.busy| :: LockOf(s.guard, r) < |s.lk|
  }

  /** No deadlock below the flags: while some process is not asleep, some process can take a step. */
  lemma NoDeadlock(run: seq<State>, k: nat, p: nat)
    requires IsRun(run) && k < |run| && Laid(run[k]) && p < |run[k].pc| && !run[k].pc[p].Asleep?
    ensures exists q :: 0 <= q < |run[k].pc| && CanStep(run[k], q)
  {
    hide IsRun, Inv, CanStep;
    RunKeeps(run, k);
    var q := Mover(run[k], p);
    StepExists(run[k], q);
  }

  /** Who can move: the holder of sched_lk, else somebody who wants only it or holds a spinlock, else
      somebody outside. */
  lemma Mover(s: State, p: nat) returns (q: nat)
    requires Inv(s) && Laid(s) && p < |s.pc| && !s.pc[p].Asleep?
    ensures q < |s.pc| && Free(s, q)
  {
    hide OwnersOk, SleepersOk, Guarded;
    if s.sched.Some? {
      q := s.sched.value;
    } else if s.pc[p] != Outside {
      q := p;
    } else {
      var l := LockOf(s.guard, 0);
      q := if s.lk[l].Some? then s.lk[l].value else p;
    }
  }

  /** A sleeper waits for a flag that some process has, or is about to be woken. So if all processes are
      asleep, each waits for a flag that a sleeper has. */
  lemma SleeperWaits(run: seq<State>, k: nat, p: nat)
    requires IsRun(run) && k < |run| && p < |run[k].pc| && run[k].pc[p].Asleep?
    ensures HasOwner(run[k].own, run[k].pc[p].r) || WakePending(run[k].pc, run[k].pc[p].r)
    ensures (forall q | 0 <= q < |run[k].pc| :: run[k].pc[q].Asleep?) ==> HasOwner(run[k].own, run[k].pc[p].r)
  {
    hide IsRun;
    RunKeeps(run, k);
    assert Dozing(run[k].pc[p]) == Some(run[k].pc[p].r);
  }

  /** On its way out after releasing flag r, a process does not have r; while it still holds the spinlock after
      taking r, it does. */
  lemma GivenBack(run: seq<State>, k: nat, p: nat, r: nat)
    requires IsRun(run) && k < |run| && p < |run[k].pc|
    ensures GaveBack(run[k].pc[p], r) ==> !Has(run[k].own, p, r)
    ensures MustHave(run[k].pc[p], r) ==> Has(run[k].own, p, r) && r < |run[k].busy| && run[k].busy[r]
  {
    hide IsRun;
    RunKeeps(run, k);
  }

  /** A set flag always has an owner that will clear it. */
  lemma BusyHasOwner(run: seq<State>, k: nat, r: nat)
    requires IsRun(run) && k < |run| && r < |run[k].busy| && run[k].busy[r]
    ensures HasOwner(run[k].own, r)
  {
    hide IsRun;
    RunKeeps(run, k);
  }
}
