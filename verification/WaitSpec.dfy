/** Multi-object wait (kern/sync/waitobj.c) as a machine over values, one step per atomic kernel
    section. Wait objects own linked lists of event sources taken from a pool; a thread waits on one
    object for any of its sources. */
module WaitSpec {
  import opened Options
  import opened Lists
  import opened Params

  const MAX_WAIT_OBJECTS: nat := 16
  const MAX_EVENT_SOURCES: nat := 32
  const EVENT_TIMER: int := 1
  const EVENT_KEYBOARD: int := 2
  const EVENT_SOFTWARE: int := 3

  datatype Source = Source(id: nat, typ: int, ready: bool, period: nat, fire: nat,
                           parent: Option<nat>, next: Option<nat>)

  datatype Object = Object(owner: nat, inUse: bool, sources: Option<nat>)

  /** Besides the two pools and the tick counter: the source list of every object, the object each
      sleeping thread sleeps on, and how often each source was notified and delivered. */
  datatype State = State(objs: seq<Object>, src: seq<Source>, ticks: nat,
                         lists: seq<seq<nat>>, asleep: map<nat, nat>,
                         notified: seq<nat>, delivered: seq<nat>)

  // ---- Shape ----

  function At(l: seq<nat>, k: nat): Option<nat> {
    if k < |l| then Some(l[k]) else None
  }

  /** Member k of object w's list: its id and its two links. */
  ghost predicate MemberOk(src: seq<Source>, l: seq<nat>, w: nat, k: nat)
    requires k < |l| && |src| == MAX_EVENT_SOURCES
  {
    && l[k] < MAX_EVENT_SOURCES && src[l[k]].parent == Some(w)
    && src[l[k]].next == At(l, k + 1)
  }

  /** The list of object w: acyclic, exactly the sources whose parent is w, in link order. */
  ghost predicate ListOk(s: State, w: nat)
    requires |s.objs| == |s.lists| == MAX_WAIT_OBJECTS && |s.src| == MAX_EVENT_SOURCES && w < MAX_WAIT_OBJECTS
  {
    && Distinct(s.lists[w]) && s.objs[w].sources == At(s.lists[w], 0)
    && (forall k | 0 <= k < |s.lists[w]| :: MemberOk(s.src, s.lists[w], w, k))
    && (forall i | 0 <= i < MAX_EVENT_SOURCES && s.src[i].parent == Some(w) :: i in s.lists[w])
    && (!s.objs[w].inUse ==> s.lists[w] == [])
  }

  /** A source is in the pool's free part, or attached with its id. */
  ghost predicate SourceOk(s: State, i: nat)
    requires i < |s.src|
  {
    match s.src[i].parent
    case None => s.src[i].id == 0
    case Some(w) => w < MAX_WAIT_OBJECTS && s.src[i].id == i + 1
  }

  ghost predicate Shape(s: State) {
    && |s.objs| == |s.lists| == MAX_WAIT_OBJECTS && |s.src| == |s.notified| == |s.delivered| == MAX_EVENT_SOURCES
    && (forall w | 0 <= w < MAX_WAIT_OBJECTS :: ListOk(s, w))
    && (forall i | 0 <= i < MAX_EVENT_SOURCES :: SourceOk(s, i))
  }

  // ---- What is kept between kernel sections ----

  /** A sleeper's object has no ready source. */
  ghost predicate NoStrandedWaiter(s: State) {
    forall pid, i | pid in s.asleep && 0 <= i < |s.src| && s.src[i].parent == Some(s.asleep[pid]) :: !s.src[i].ready
  }

  /** Deliveries never outrun notifications. */
  ghost predicate Counted(s: State)
    requires |s.src| == |s.notified| == |s.delivered|
  {
    forall i | 0 <= i < |s.src| :: s.delivered[i] + (if s.src[i].ready then 1 else 0) <= s.notified[i]
  }

  ghost predicate Inv(s: State) {
    Shape(s) && NoStrandedWaiter(s) && Counted(s)
  }

  /** Every attached timer source is ready exactly if its tick has come. */
  ghost predicate TimersExact(s: State) {
    forall i | 0 <= i < |s.src| && s.src[i].parent.Some? && s.src[i].typ == EVENT_TIMER ::
      s.src[i].ready <==> s.ticks >= s.src[i].fire
  }

  // ---- Steps ----

  /** thread_wakeup on object w. */
  function WakeAll(asleep: map<nat, nat>, w: nat): map<nat, nat> {
    map p | p in asleep && asleep[p] != w :: asleep[p]
  }

  /** event_notify. */
  function Notify(s: State, i: nat): State
    requires i < |s.src| && i < |s.notified|
  {
    if s.src[i].parent == None then s else
      s.(src := s.src[i := s.src[i].(ready := true)], asleep := WakeAll(s.asleep, s.src[i].parent.value),
         notified := s.notified[i := s.notified[i] + 1])
  }

  predicate TimerDue(s: State, i: nat)
    requires i < |s.src|
  {
    s.src[i].parent.Some? && s.src[i].typ == EVENT_TIMER && !s.src[i].ready && s.ticks >= s.src[i].fire
  }

  predicate KeyDue(s: State, i: nat)
    requires i < |s.src|
  {
    s.src[i].parent.Some? && s.src[i].typ == EVENT_KEYBOARD && !s.src[i].ready
  }

  /** The loop of waitobj_timer_tick (timer) or waitobj_console_input_notify (not timer) from source i on. */
  function NotifyDue(s: State, timer: bool, i: nat): State
    requires |s.src| == |s.notified| == MAX_EVENT_SOURCES && i <= MAX_EVENT_SOURCES
    decreases MAX_EVENT_SOURCES - i
  {
    if i == MAX_EVENT_SOURCES then s else
      NotifyDue(if (if timer then TimerDue(s, i) else KeyDue(s, i)) then Notify(s, i) else s, timer, i + 1)
  }

  /** waitobj_on_timer_irq. */
  function Tick(s: State): State
    requires |s.src| == |s.notified| == MAX_EVENT_SOURCES
  {
    NotifyDue(s.(ticks := (s.ticks + 1) % TWO32), true, 0)
  }

  /** waitobj_console_input_notify. */
  function Key(s: State): State
    requires |s.src| == |s.notified| == MAX_EVENT_SOURCES
  {
    NotifyDue(s, false, 0)
  }

  /** waitobj_create on the free slot w. */
  function Create(s: State, pid: nat, w: nat): State
    requires w < |s.objs| && w < |s.lists|
  {
    s.(objs := s.objs[w := Object(pid, true, None)], lists := s.lists[w := []])
  }

  /** A fresh source as waitobj_add fills it in. */
  function FreshSource(s: State, w: nat, i: nat, typ: int, ms: nat): Source
    requires w < |s.objs|
  {
    var period := if typ == EVENT_TIMER then if ms != 0 then ms else 1 else 0;
    Source(i + 1, typ, false, period, if typ == EVENT_TIMER then (s.ticks + period) % TWO32 else 0,
           Some(w), s.objs[w].sources)
  }

  /** waitobj_add of the free source i to object w. */
  function Add(s: State, w: nat, i: nat, typ: int, ms: nat): State
    requires w < |s.objs| && w < |s.lists| && i < |s.src|
  {
    s.(src := s.src[i := FreshSource(s, w, i, typ, ms)], objs := s.objs[w := s.objs[w].(sources := Some(i))],
       lists := s.lists[w := [i] + s.lists[w]])
  }

  /** A timer of the list restarted. */
  function Restarted(x: Source, ticks: nat): Source {
    if x.typ != EVENT_TIMER then x else x.(ready := false, fire := (ticks + x.period) % TWO32)
  }

  /** reschedule_all_timer_sources on object w. */
  function Reschedule(s: State, w: nat): (r: State)
    ensures |r.src| == |s.src|
    ensures forall i | 0 <= i < |s.src| ::
      r.src[i] == if s.src[i].parent == Some(w) then Restarted(s.src[i], s.ticks) else s.src[i]
  {
    s.(src := seq(|s.src|, i requires 0 <= i < |s.src| =>
         if s.src[i].parent == Some(w) then Restarted(s.src[i], s.ticks) else s.src[i]))
  }

  /** The successful end of waitobj_wait: source i of object w is delivered. */
  function Deliver(s: State, w: nat, i: nat): State
    requires i < |s.src| && i < |s.delivered|
  {
    Reschedule(s.(src := s.src[i := s.src[i].(ready := false)],
                  delivered := s.delivered[i := s.delivered[i] + 1]), w)
  }

  /** thread_sleep on object w. */
  function GoToSleep(s: State, pid: nat, w: nat): State {
    s.(asleep := s.asleep[pid := w])
  }

  /** The position of the first ready source of a list, or its length. */
  function FirstReady(s: State, l: seq<nat>, k: nat): (r: nat)
    requires k <= |l| && forall j | 0 <= j < |l| :: l[j] < |s.src|
    ensures k <= r <= |l|
    ensures r < |l| ==> s.src[l[r]].ready
    ensures forall j | k <= j < r :: !s.src[l[j]].ready
    decreases |l| - k
  {
    if k == |l| || s.src[l[k]].ready then k else FirstReady(s, l, k + 1)
  }

  // ---- The invariant is kept ----

  lemma ListMembers(s: State, w: nat)
    requires Shape(s) && w < MAX_WAIT_OBJECTS
    ensures forall j | 0 <= j < |s.lists[w]| :: s.lists[w][j] < MAX_EVENT_SOURCES
    ensures forall i | 0 <= i < MAX_EVENT_SOURCES :: i in s.lists[w] <==> s.src[i].parent == Some(w)
  {
    assert ListOk(s, w);
    forall j | 0 <= j < |s.lists[w]|
      ensures s.lists[w][j] < MAX_EVENT_SOURCES && s.src[s.lists[w][j]].parent == Some(w)
    {
      assert MemberOk(s.src, s.lists[w], w, j);
    }
  }

  /** Two objects never share a source. */
  lemma ListsDisjoint(s: State, v: nat, w: nat, i: nat)
    requires Shape(s) && v < MAX_WAIT_OBJECTS && w < MAX_WAIT_OBJECTS && v != w
    requires i < MAX_EVENT_SOURCES
    ensures !(i in s.lists[v] && i in s.lists[w])
  {
    ListMembers(s, v);
    ListMembers(s, w);
  }

  /** Sources may change, but not their links and ids. */
  ghost predicate SameLinks(s: State, t: State) {
    && t.objs == s.objs && t.lists == s.lists && |t.src| == |s.src|
    && |t.notified| == |s.notified| && |t.delivered| == |s.delivered|
    && forall i | 0 <= i < |s.src| ::
         t.src[i].parent == s.src[i].parent && t.src[i].next == s.src[i].next && t.src[i].id == s.src[i].id
  }

  lemma SameShape(s: State, t: State)
    requires Shape(s) && SameLinks(s, t)
    ensures Shape(t)
  {
    forall w | 0 <= w < MAX_WAIT_OBJECTS
      ensures ListOk(t, w)
    {
      assert ListOk(s, w);
      forall k | 0 <= k < |s.lists[w]|
        ensures MemberOk(t.src, t.lists[w], w, k)
      {
        assert MemberOk(s.src, s.lists[w], w, k);
      }
    }
    forall i | 0 <= i < MAX_EVENT_SOURCES
      ensures SourceOk(t, i)
    {
      assert SourceOk(s, i);
    }
  }

  lemma NotifyKeeps(s: State, i: nat)
    requires Inv(s) && i < MAX_EVENT_SOURCES
    ensures Inv(Notify(s, i)) && Notify(s, i).ticks == s.ticks
    ensures s.src[i].parent.Some? ==> forall pid | pid in Notify(s, i).asleep :: Notify(s, i).asleep[pid] != s.src[i].parent.value
  {
    hide ListOk, SourceOk;
    SameShape(s, Notify(s, i));
  }

  lemma {:induction false} NotifyDueKeeps(s: State, timer: bool, i: nat)
    requires Inv(s) && i <= MAX_EVENT_SOURCES
    ensures Inv(NotifyDue(s, timer, i))
    decreases MAX_EVENT_SOURCES - i
  {
    hide Inv, Notify;
    assert |s.src| == |s.notified| == MAX_EVENT_SOURCES by { InvSizes(s); }
    if i < MAX_EVENT_SOURCES {
      NotifyKeeps(s, i);
      InvSizes(Notify(s, i));
      NotifyDueKeeps(if (if timer then TimerDue(s, i) else KeyDue(s, i)) then Notify(s, i) else s, timer, i + 1);
    }
  }

  lemma InvSizes(s: State)
    requires Inv(s)
    ensures |s.src| == |s.notified| == |s.delivered| == MAX_EVENT_SOURCES && |s.objs| == |s.lists| == MAX_WAIT_OBJECTS
  {
  }

  lemma ClockKeeps(s: State, ticks: nat)
    requires Inv(s)
    ensures Inv(s.(ticks := ticks))
  {
    hide ListOk, SourceOk;
    SameShape(s, s.(ticks := ticks));
  }

  lemma TickKeeps(s: State)
    requires Inv(s)
    ensures Inv(Tick(s))
  {
    hide NotifyDue, Inv;
    InvSizes(s);
    ClockKeeps(s, (s.ticks + 1) % TWO32);
    NotifyDueKeeps(s.(ticks := (s.ticks + 1) % TWO32), true, 0);
  }

  lemma KeyKeeps(s: State)
    requires Inv(s)
    ensures Inv(Key(s))
  {
    NotifyDueKeeps(s, false, 0);
  }

  lemma CreateKeeps(s: State, pid: nat, w: nat)
    requires Inv(s) && w < MAX_WAIT_OBJECTS && !s.objs[w].inUse
    ensures Inv(Create(s, pid, w))
  {
    var t := Create(s, pid, w);
    assert ListOk(s, w);
    forall v | 0 <= v < MAX_WAIT_OBJECTS
      ensures ListOk(t, v)
    {
      assert ListOk(s, v);
    }
    forall i | 0 <= i < MAX_EVENT_SOURCES
      ensures SourceOk(t, i)
    {
      assert SourceOk(s, i);
    }
  }

  /** The list of an object that does not get the new source. */
  lemma AddOtherList(s: State, w: nat, i: nat, typ: int, ms: nat, v: nat)
    requires Inv(s) && w < MAX_WAIT_OBJECTS && i < MAX_EVENT_SOURCES && s.src[i].parent == None && v < MAX_WAIT_OBJECTS && v != w
    ensures ListOk(Add(s, w, i, typ, ms), v)
  {
    var t := Add(s, w, i, typ, ms);
    assert ListOk(s, v);
    forall k | 0 <= k < |s.lists[v]|
      ensures MemberOk(t.src, t.lists[v], v, k)
    {
      assert MemberOk(s.src, s.lists[v], v, k);
    }
  }

  /** The list that does. */
  lemma AddOwnList(s: State, w: nat, i: nat, typ: int, ms: nat)
    requires Inv(s) && w < MAX_WAIT_OBJECTS && s.objs[w].inUse && i < MAX_EVENT_SOURCES && s.src[i].parent == None
    ensures ListOk(Add(s, w, i, typ, ms), w)
  {
    var t := Add(s, w, i, typ, ms);
    var l := s.lists[w];
    ListMembers(s, w);
    assert ListOk(s, w);
    forall k | 0 <= k < |l| + 1
      ensures MemberOk(t.src, t.lists[w], w, k)
    {
      if k > 0 {
        assert MemberOk(s.src, l, w, k - 1);
        assert t.lists[w][k] == l[k - 1];
      }
    }
  }

  lemma AddKeeps(s: State, w: nat, i: nat, typ: int, ms: nat)
    requires Inv(s) && w < MAX_WAIT_OBJECTS && s.objs[w].inUse && i < MAX_EVENT_SOURCES && s.src[i].parent == None
    ensures Inv(Add(s, w, i, typ, ms))
  {
    hide ListOk;
    var t := Add(s, w, i, typ, ms);
    forall v | 0 <= v < MAX_WAIT_OBJECTS
      ensures ListOk(t, v)
    {
      if v == w {
        AddOwnList(s, w, i, typ, ms);
      } else {
        AddOtherList(s, w, i, typ, ms, v);
      }
    }
    forall j | 0 <= j < MAX_EVENT_SOURCES
      ensures SourceOk(t, j)
    {
      assert SourceOk(s, j);
    }
  }

  lemma DeliverKeeps(s: State, w: nat, i: nat)
    requires Inv(s) && w < MAX_WAIT_OBJECTS && i < MAX_EVENT_SOURCES && s.src[i].ready
    ensures Inv(Deliver(s, w, i))
  {
    hide ListOk, SourceOk;
    SameShape(s, Deliver(s, w, i));
  }

  /** Going to sleep after finding no ready source. */
  lemma SleepKeeps(s: State, pid: nat, w: nat)
    requires Inv(s) && w < MAX_WAIT_OBJECTS
    requires forall j | 0 <= j < |s.lists[w]| && s.lists[w][j] < |s.src| :: !s.src[s.lists[w][j]].ready
    ensures Inv(GoToSleep(s, pid, w))
  {
    hide ListOk, SourceOk;
    ListMembers(s, w);
    SameShape(s, GoToSleep(s, pid, w));
  }

  // ---- Timers ----

  /** The counter and the timers' ticks are 32-bit numbers, and periods are at least one tick. */
  ghost predicate ClockOk(s: State) {
    && s.ticks < TWO32
    && forall i | 0 <= i < |s.src| && s.src[i].parent.Some? && s.src[i].typ == EVENT_TIMER ::
         1 <= s.src[i].period < TWO32 && s.src[i].fire < TWO32
  }

  /** The timer loop makes exactly the due sources ready. */
  lemma {:induction false} NotifyDueEffect(s: State, i: nat)
    requires |s.src| == |s.notified| == MAX_EVENT_SOURCES && i <= MAX_EVENT_SOURCES
    ensures var r := NotifyDue(s, true, i);
            && r.ticks == s.ticks && |r.src| == |s.src|
            && forall j | 0 <= j < |s.src| ::
                 r.src[j] == if i <= j && TimerDue(s, j) then s.src[j].(ready := true) else s.src[j]
    decreases MAX_EVENT_SOURCES - i
  {
    if i < MAX_EVENT_SOURCES {
      NotifyDueEffect(if TimerDue(s, i) then Notify(s, i) else s, i + 1);
    }
  }

  lemma {:induction false} KeyEffect(s: State, i: nat)
    requires |s.src| == |s.notified| == MAX_EVENT_SOURCES && i <= MAX_EVENT_SOURCES
    ensures var r := NotifyDue(s, false, i);
            && r.ticks == s.ticks && |r.src| == |s.src|
            && forall j | 0 <= j < |s.src| ::
                 r.src[j] == if i <= j && KeyDue(s, j) then s.src[j].(ready := true) else s.src[j]
    decreases MAX_EVENT_SOURCES - i
  {
    if i < MAX_EVENT_SOURCES {
      KeyEffect(if KeyDue(s, i) then Notify(s, i) else s, i + 1);
    }
  }

  /** The counter does not wrap, or no attached timer waits for a tick other than 0. */
  ghost predicate TickFits(s: State) {
    || s.ticks + 1 < TWO32
    || forall i | 0 <= i < |s.src| && s.src[i].parent.Some? && s.src[i].typ == EVENT_TIMER :: s.src[i].fire == 0
  }

  /** A tick makes sources ready on exactly their tick if and only if it does not wrap under a timer. */
  lemma TickExact(s: State)
    requires Inv(s) && ClockOk(s) && TimersExact(s)
    ensures (TimersExact(Tick(s)) <==> TickFits(s)) && ClockOk(Tick(s)) && Tick(s).ticks == (s.ticks + 1) % TWO32
  {
    hide NotifyDue, Inv;
    InvSizes(s);
    NotifyDueEffect(s.(ticks := (s.ticks + 1) % TWO32), 0);
    var t := Tick(s);
    if !TickFits(s) {
      var i :| 0 <= i < |s.src| && s.src[i].parent.Some? && s.src[i].typ == EVENT_TIMER && s.src[i].fire != 0;
      assert t.src[i].parent.Some? && t.src[i].ready && t.ticks == 0;
    }
  }

  /** Adding a timer keeps timers exact if and only if its first tick does not wrap; then it is due one
      full period from now. */
  lemma AddExact(s: State, w: nat, i: nat, ms: nat)
    requires Inv(s) && ClockOk(s) && TimersExact(s) && w < MAX_WAIT_OBJECTS && i < MAX_EVENT_SOURCES
    requires s.src[i].parent == None && ms < TWO32
    ensures var t := Add(s, w, i, EVENT_TIMER, ms);
            var period := if ms != 0 then ms else 1;
            && (TimersExact(t) <==> s.ticks + period < TWO32) && ClockOk(t)
            && t.src[i].period == period && (s.ticks + period < TWO32 ==> t.src[i].fire == s.ticks + period)
  {
    var t := Add(s, w, i, EVENT_TIMER, ms);
    var period := if ms != 0 then ms else 1;
    assert t.src[i].fire == (s.ticks + period) % TWO32 && !t.src[i].ready;
    if s.ticks + period >= TWO32 {
      assert (s.ticks + period) % TWO32 == s.ticks + period - TWO32;
    }
  }

  /** A timer whose first tick wraps is notified on the very next tick, however long its period. */
  lemma EarlyTimer(s: State, w: nat, i: nat, ms: nat)
    requires Inv(s) && w < MAX_WAIT_OBJECTS && i < MAX_EVENT_SOURCES && s.src[i].parent == None && ms < TWO32
    requires s.ticks + 1 < TWO32 <= s.ticks + ms
    ensures var t := Tick(Add(s, w, i, EVENT_TIMER, ms)); i < |t.src| && t.src[i].ready
  {
    hide NotifyDue, Inv;
    InvSizes(s);
    var t := Add(s, w, i, EVENT_TIMER, ms);
    assert (s.ticks + ms) % TWO32 == s.ticks + ms - TWO32;
    NotifyDueEffect(t.(ticks := (t.ticks + 1) % TWO32), 0);
  }

  /** No timer of object w wraps when restarted now. */
  ghost predicate RestartFits(s: State, w: nat) {
    forall i | 0 <= i < |s.src| && s.src[i].parent == Some(w) && s.src[i].typ == EVENT_TIMER ::
      s.ticks + s.src[i].period < TWO32
  }

  /** A delivery restarts every timer of its object a full period from now; timers stay exact if and only
      if none of them wraps. */
  lemma DeliverExact(s: State, w: nat, i: nat)
    requires Inv(s) && ClockOk(s) && TimersExact(s) && i < MAX_EVENT_SOURCES && s.src[i].parent == Some(w)
    ensures var t := Deliver(s, w, i);
            && (TimersExact(t) <==> RestartFits(s, w)) && ClockOk(t)
            && (RestartFits(s, w) ==>
                  forall j | 0 <= j < |s.src| && s.src[j].parent == Some(w) && s.src[j].typ == EVENT_TIMER ::
                    !t.src[j].ready && t.src[j].fire == s.ticks + s.src[j].period)
  {
    hide Inv;
    InvSizes(s);
    var t := Deliver(s, w, i);
    forall j | 0 <= j < |s.src| && s.src[j].parent == Some(w) && s.src[j].typ == EVENT_TIMER
      ensures !t.src[j].ready && (t.src[j].fire > t.ticks <==> s.ticks + s.src[j].period < TWO32)
    {
      assert t.src[j].fire == (s.ticks + s.src[j].period) % TWO32;
      if s.ticks + s.src[j].period >= TWO32 {
        assert (s.ticks + s.src[j].period) % TWO32 == s.ticks + s.src[j].period - TWO32;
      }
    }
    if !RestartFits(s, w) {
      var j :| 0 <= j < |s.src| && s.src[j].parent == Some(w) && s.src[j].typ == EVENT_TIMER
               && s.ticks + s.src[j].period >= TWO32;
      assert t.src[j].parent.Some? && t.src[j].typ == EVENT_TIMER;
    }
  }

  // ---- Notifications ----

  /** Exactly the threads asleep on an object of W are woken. */
  ghost predicate WokeOn(before: map<nat, nat>, after: map<nat, nat>, W: set<nat>) {
    && (forall p: nat :: p in after <==> p in before && before[p] !in W)
    && (forall p: nat | p in after :: after[p] == before[p])
  }

  /** Notifying an attached source makes it ready, changes no other source and wakes exactly the threads
      that sleep on its object. */
  lemma NotifyEffect(s: State, i: nat)
    requires Inv(s) && i < MAX_EVENT_SOURCES && s.src[i].parent.Some?
    ensures var t := Notify(s, i);
            && |t.src| == |s.src| && t.src[i].ready && t.src[i].typ == s.src[i].typ && t.src[i].parent == s.src[i].parent
            && (forall j | 0 <= j < |s.src| && j != i :: t.src[j] == s.src[j])
            && t.objs == s.objs && t.lists == s.lists && WokeOn(s.asleep, t.asleep, {s.src[i].parent.value})
            && |t.notified| == |s.notified| == |s.src| && t.notified[i] == s.notified[i] + 1
  {
  }

  /** The objects that have a due source from i on. */
  ghost function DueObjects(s: State, timer: bool, i: nat): set<nat> {
    set j: nat | i <= j < |s.src| && (if timer then TimerDue(s, j) else KeyDue(s, j)) :: s.src[j].parent.value
  }

  lemma {:induction false} NotifyDueWakes(s: State, timer: bool, i: nat)
    requires |s.src| == |s.notified| == MAX_EVENT_SOURCES && i <= MAX_EVENT_SOURCES
    ensures WokeOn(s.asleep, NotifyDue(s, timer, i).asleep, DueObjects(s, timer, i))
    decreases MAX_EVENT_SOURCES - i
  {
    if i < MAX_EVENT_SOURCES {
      var due := if timer then TimerDue(s, i) else KeyDue(s, i);
      var t := if due then Notify(s, i) else s;
      NotifyDueWakes(t, timer, i + 1);
      DueFrom(s, timer, i);
    }
  }

  /** Notifying source i makes no later source due or not due. */
  lemma DueFrom(s: State, timer: bool, i: nat)
    requires |s.src| == |s.notified| == MAX_EVENT_SOURCES && i < MAX_EVENT_SOURCES
    ensures var due := if timer then TimerDue(s, i) else KeyDue(s, i);
            var t := if due then Notify(s, i) else s;
            DueObjects(s, timer, i) == DueObjects(t, timer, i + 1) + if due then {s.src[i].parent.value} else {}
  {
    var due := if timer then TimerDue(s, i) else KeyDue(s, i);
    var t := if due then Notify(s, i) else s;
    assert forall j: nat | i < j < |s.src| :: t.src[j] == s.src[j];
    forall w
      ensures w in DueObjects(s, timer, i) <==> w in DueObjects(t, timer, i + 1) || (due && w == s.src[i].parent.value)
    {
      if w in DueObjects(s, timer, i) {
        var j: nat :| i <= j < |s.src| && (if timer then TimerDue(s, j) else KeyDue(s, j)) && s.src[j].parent.value == w;
        if j > i {
          assert (if timer then TimerDue(t, j) else KeyDue(t, j)) && t.src[j].parent.value == w;
        }
      }
      if w in DueObjects(t, timer, i + 1) {
        var j: nat :| i + 1 <= j < |t.src| && (if timer then TimerDue(t, j) else KeyDue(t, j)) && t.src[j].parent.value == w;
        assert (if timer then TimerDue(s, j) else KeyDue(s, j)) && s.src[j].parent.value == w;
      }
    }
  }

  /** Console input makes every attached keyboard source ready, changes no other source and wakes exactly the
      threads whose object has one. */
  lemma KeyExact(s: State)
    requires Inv(s)
    ensures var t := Key(s);
            && |t.src| == |s.src|
            && (forall j | 0 <= j < |s.src| ::
                  t.src[j] == if s.src[j].parent.Some? && s.src[j].typ == EVENT_KEYBOARD then s.src[j].(ready := true) else s.src[j])
            && (forall p: nat | p in s.asleep ::
                  p !in t.asleep <==> exists j :: 0 <= j < |s.src| && s.src[j].parent == Some(s.asleep[p]) && s.src[j].typ == EVENT_KEYBOARD)
  {
    hide NotifyDue, Shape, Counted;
    InvSizes(s);
    KeyEffect(s, 0);
    NotifyDueWakes(s, false, 0);
    var due := DueObjects(s, false, 0);
    forall p: nat | p in s.asleep
      ensures s.asleep[p] in due <==>
                (exists j :: 0 <= j < |s.src| && s.src[j].parent == Some(s.asleep[p]) && s.src[j].typ == EVENT_KEYBOARD)
    {
      if j :| 0 <= j < |s.src| && s.src[j].parent == Some(s.asleep[p]) && s.src[j].typ == EVENT_KEYBOARD {
        assert KeyDue(s, j) && s.src[j].parent.value in due;
      }
    }
  }

  /** A tick wakes exactly the threads whose object has a timer that is due. */
  lemma TickWakes(s: State)
    requires Inv(s)
    ensures var t := Tick(s);
            forall p: nat | p in s.asleep ::
              p !in t.asleep <==>
                (exists j :: 0 <= j < |s.src| && s.src[j].parent == Some(s.asleep[p]) && s.src[j].typ == EVENT_TIMER
                   && (s.ticks + 1) % TWO32 >= s.src[j].fire)
  {
    hide NotifyDue, Shape, Counted;
    InvSizes(s);
    var u := s.(ticks := (s.ticks + 1) % TWO32);
    NotifyDueWakes(u, true, 0);
    var due := DueObjects(u, true, 0);
    forall p: nat | p in s.asleep
      ensures s.asleep[p] in due <==>
                (exists j :: 0 <= j < |s.src| && s.src[j].parent == Some(s.asleep[p]) && s.src[j].typ == EVENT_TIMER
                   && u.ticks >= s.src[j].fire)
    {
      if j :| 0 <= j < |s.src| && s.src[j].parent == Some(s.asleep[p]) && s.src[j].typ == EVENT_TIMER && u.ticks >= s.src[j].fire {
        assert TimerDue(u, j) && u.src[j].parent.value in due;
      }
    }
  }

  /** A delivery takes exactly its source's event: it is no longer ready, and no other event that is pending
      is lost but the ticks of the object's own timers, which start over. */
  lemma DeliverEffect(s: State, w: nat, i: nat)
    requires Inv(s) && i < MAX_EVENT_SOURCES && s.src[i].parent == Some(w)
    ensures var t := Deliver(s, w, i);
            && |t.src| == |s.src| && !t.src[i].ready && t.delivered == s.delivered[i := s.delivered[i] + 1]
            && t.asleep == s.asleep && t.notified == s.notified
            && forall j | 0 <= j < |s.src| && j != i && (s.src[j].parent != Some(w) || s.src[j].typ != EVENT_TIMER) ::
                 t.src[j] == s.src[j]
  {
    hide Shape, Counted;
    InvSizes(s);
  }

  // ---- Runs ----

  datatype Op =
    | OpCreate(pid: nat, w: nat)
    | OpAdd(w: nat, i: nat, typ: int, ms: nat)
    | OpSignal(i: nat)
    | OpTick
    | OpKey
    | OpDeliver(w: nat, k: nat)
    | OpSleep(pid: nat, w: nat)

  /** When the code takes each step: the wait loop delivers the first ready source of its list and sleeps
      only if there is none. */
  ghost predicate Enabled(s: State, op: Op)
    requires Inv(s)
  {
    match op
    case OpCreate(pid, w) => w < MAX_WAIT_OBJECTS && !s.objs[w].inUse
    case OpAdd(w, i, typ, ms) =>
      w < MAX_WAIT_OBJECTS && s.objs[w].inUse && i < MAX_EVENT_SOURCES && s.src[i].parent == None && ms < TWO32
    case OpSignal(i) => i < MAX_EVENT_SOURCES && s.src[i].parent.Some? && s.src[i].typ == EVENT_SOFTWARE
    case OpTick => true
    case OpKey => true
    case OpDeliver(w, k) =>
      && w < MAX_WAIT_OBJECTS && k < |s.lists[w]|
      && (ListMembers(s, w); FirstReady(s, s.lists[w], 0) == k)
    case OpSleep(pid, w) =>
      && w < MAX_WAIT_OBJECTS && pid !in s.asleep
      && (ListMembers(s, w); FirstReady(s, s.lists[w], 0) == |s.lists[w]|)
  }

  ghost function Apply(s: State, op: Op): State
    requires Inv(s) && Enabled(s, op)
  {
    match op
    case OpCreate(pid, w) => Create(s, pid, w)
    case OpAdd(w, i, typ, ms) => Add(s, w, i, typ, ms)
    case OpSignal(i) => Notify(s, i)
    case OpTick => Tick(s)
    case OpKey => Key(s)
    case OpDeliver(w, k) => ListMembers(s, w); Deliver(s, w, s.lists[w][k])
    case OpSleep(pid, w) => GoToSleep(s, pid, w)
  }

  lemma StepKeeps(s: State, op: Op)
    requires Inv(s) && Enabled(s, op)
    ensures Inv(Apply(s, op))
  {
    hide Inv, NotifyDue, Notify, Deliver, Add, Create;
    match op {
      case OpCreate(pid, w) => CreateKeeps(s, pid, w);
      case OpAdd(w, i, typ, ms) => AddKeeps(s, w, i, typ, ms);
      case OpSignal(i) => NotifyKeeps(s, i);
      case OpTick => TickKeeps(s);
      case OpKey => KeyKeeps(s);
      case OpDeliver(w, k) => InvSizes(s); InvShape(s); ListMembers(s, w); DeliverKeeps(s, w, s.lists[w][k]);
      case OpSleep(pid, w) => InvSizes(s); InvShape(s); ListMembers(s, w); SleepKeeps(s, pid, w);
    }
  }

  lemma InvShape(s: State)
    requires Inv(s)
    ensures Shape(s)
  {
  }

  ghost predicate Runs(s: State, ops: seq<Op>)
    requires Inv(s)
    decreases |ops|
  {
    ops != [] ==> Enabled(s, ops[0]) && (StepKeeps(s, ops[0]); Runs(Apply(s, ops[0]), ops[1..]))
  }

  ghost function After(s: State, ops: seq<Op>): State
    requires Inv(s) && Runs(s, ops)
    decreases |ops|
  {
    if ops == [] then s else
      StepKeeps(s, ops[0]);
      After(Apply(s, ops[0]), ops[1..])
  }

  /** Over every run: no thread sleeps on an object with a ready source, the lists partition the attached
      sources, and no source is delivered more often than it was notified. */
  lemma {:induction false} RunKeeps(s: State, ops: seq<Op>)
    requires Inv(s) && Runs(s, ops)
    ensures Inv(After(s, ops))
    decreases |ops|
  {
    hide Inv, Enabled, Apply;
    if ops != [] {
      StepKeeps(s, ops[0]);
      RunKeeps(Apply(s, ops[0]), ops[1..]);
    }
  }

  /** The operation delivers source i. */
  ghost predicate Delivers(s: State, op: Op, i: nat)
    requires Inv(s) && Enabled(s, op)
  {
    op.OpDeliver? && s.lists[op.w][op.k] == i
  }

  /** Source i, of object w, is a software or keyboard source with an event pending. */
  ghost predicate Pending(s: State, w: nat, i: nat) {
    i < |s.src| && s.src[i].parent == Some(w) && s.src[i].typ != EVENT_TIMER && s.src[i].ready
  }

  lemma PendingStays(s: State, op: Op, w: nat, i: nat)
    requires Inv(s) && Enabled(s, op) && Pending(s, w, i) && !Delivers(s, op, i)
    ensures Pending(Apply(s, op), w, i)
  {
    hide NotifyDue, Shape, Counted, NoStrandedWaiter;
    InvSizes(s);
    InvShape(s);
    match op {
      case OpTick => NotifyDueEffect(s.(ticks := (s.ticks + 1) % TWO32), 0);
      case OpKey => KeyEffect(s, 0);
      case OpDeliver(v, k) => ListMembers(s, v); DeliverEffect(s, v, s.lists[v][k]);
      case _ =>
    }
  }

  /** While an event is pending, a wait on its object delivers one. */
  lemma PendingDelivers(s: State, w: nat, i: nat)
    requires Inv(s) && w < MAX_WAIT_OBJECTS && i < MAX_EVENT_SOURCES && s.src[i].parent == Some(w) && s.src[i].ready
    ensures exists k: nat :: Enabled(s, OpDeliver(w, k))
    ensures forall p: nat | p in s.asleep :: s.asleep[p] != w
  {
    hide ListOk, SourceOk;
    ListMembers(s, w);
    var l := s.lists[w];
    var j :| 0 <= j < |l| && l[j] == i;
    var k := FirstReady(s, l, 0);
    assert k <= j;
    assert Enabled(s, OpDeliver(w, k));
  }

  /** A signal is not lost: from the signal on, over every run, its event stays pending until it is the one
      delivered, nobody sleeps on the object meanwhile, and every wait on it delivers something. */
  lemma {:induction false} SignalNotLost(s: State, i: nat, ops: seq<Op>)
    requires Inv(s) && Enabled(s, OpSignal(i)) && Runs(s, [OpSignal(i)] + ops)
    requires Undelivered(Apply(s, OpSignal(i)), ops, i)
    ensures Inv(Apply(s, OpSignal(i))) && Runs(Apply(s, OpSignal(i)), ops)
    ensures var t, w := After(Apply(s, OpSignal(i)), ops), s.src[i].parent.value;
            && Inv(t) && Pending(t, w, i) && (exists k: nat :: Enabled(t, OpDeliver(w, k)))
            && forall p: nat | p in t.asleep :: t.asleep[p] != w
  {
    hide Inv, Apply, Enabled;
    SignalPends(s, i);
    var t := Apply(s, OpSignal(i));
    assert ([OpSignal(i)] + ops)[0] == OpSignal(i) && ([OpSignal(i)] + ops)[1..] == ops;
    StaysPending(t, ops, s.src[i].parent.value, i);
    RunKeeps(t, ops);
    PendingDelivers(After(t, ops), s.src[i].parent.value, i);
  }

  lemma SignalPends(s: State, i: nat)
    requires Inv(s) && Enabled(s, OpSignal(i))
    ensures i < MAX_EVENT_SOURCES == |s.src| && s.src[i].parent.Some? && s.src[i].parent.value < MAX_WAIT_OBJECTS
    ensures Inv(Apply(s, OpSignal(i))) && Pending(Apply(s, OpSignal(i)), s.src[i].parent.value, i)
  {
    hide ListOk;
    StepKeeps(s, OpSignal(i));
    NotifyEffect(s, i);
    assert SourceOk(s, i);
  }

  /** No operation of the run delivers source i. */
  ghost predicate Undelivered(s: State, ops: seq<Op>, i: nat)
    decreases |ops|
  {
    ops != [] ==> Inv(s) && Enabled(s, ops[0]) && !Delivers(s, ops[0], i) && Undelivered(Apply(s, ops[0]), ops[1..], i)
  }

  lemma {:induction false} StaysPending(s: State, ops: seq<Op>, w: nat, i: nat)
    requires Inv(s) && Runs(s, ops) && Undelivered(s, ops, i) && Pending(s, w, i)
    ensures Pending(After(s, ops), w, i)
    decreases |ops|
  {
    hide Inv, Apply, Enabled, Pending, Delivers;
    if ops != [] {
      PendingStays(s, ops[0], w, i);
      StepKeeps(s, ops[0]);
      StaysPending(Apply(s, ops[0]), ops[1..], w, i);
    }
  }

  /** The step wraps neither the tick counter under a timer nor a timer's next tick. */
  ghost predicate NoWrap(s: State, op: Op)
    requires Inv(s) && Enabled(s, op)
  {
    match op
    case OpAdd(w, i, typ, ms) => typ == EVENT_TIMER ==> s.ticks + (if ms != 0 then ms else 1) < TWO32
    case OpTick => TickFits(s)
    case OpDeliver(w, k) => RestartFits(s, w)
    case _ => true
  }

  /** A step keeps timers exact if and only if it does not wrap. */
  lemma StepExact(s: State, op: Op)
    requires Inv(s) && Enabled(s, op) && ClockOk(s) && TimersExact(s)
    ensures (TimersExact(Apply(s, op)) <==> NoWrap(s, op)) && ClockOk(Apply(s, op))
  {
    hide NotifyDue, Shape, TickFits, RestartFits;
    InvSizes(s);
    match op {
      case OpAdd(w, i, typ, ms) => if typ == EVENT_TIMER { AddExact(s, w, i, ms); }
      case OpTick => TickExact(s);
      case OpKey => KeyEffect(s, 0);
      case OpDeliver(w, k) => InvShape(s); ListMembers(s, w); DeliverExact(s, w, s.lists[w][k]);
      case _ =>
    }
  }

  ghost predicate RunsNoWrap(s: State, ops: seq<Op>)
    requires Inv(s) && Runs(s, ops)
    decreases |ops|
  {
    ops != [] ==> NoWrap(s, ops[0]) && (StepKeeps(s, ops[0]); RunsNoWrap(Apply(s, ops[0]), ops[1..]))
  }

  /** Timers are exact in every state of the run. */
  ghost predicate StaysExact(s: State, ops: seq<Op>)
    requires Inv(s) && Runs(s, ops)
    decreases |ops|
  {
    TimersExact(s) && (ops != [] ==> (StepKeeps(s, ops[0]); StaysExact(Apply(s, ops[0]), ops[1..])))
  }

  /** Over every run, each attached timer is ready exactly from its tick on, throughout, if and only if
      no step wraps. */
  lemma {:induction false} RunExact(s: State, ops: seq<Op>)
    requires Inv(s) && Runs(s, ops) && ClockOk(s) && TimersExact(s)
    ensures StaysExact(s, ops) <==> RunsNoWrap(s, ops)
    decreases |ops|
  {
    hide Inv, Enabled, Apply, ClockOk, TimersExact, NoWrap;
    if ops != [] {
      StepKeeps(s, ops[0]);
      StepExact(s, ops[0]);
      if NoWrap(s, ops[0]) {
        RunExact(Apply(s, ops[0]), ops[1..]);
      }
    }
  }
}
