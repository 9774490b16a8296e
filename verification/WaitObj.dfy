/** The operations of kern/sync/waitobj.c on the real pools and links, each proved to be a step of the
    machine in WaitSpec (or to change nothing). Each runs as one kernel section: interrupts are masked
    and one processor runs, so a section is not interleaved up to its context switch. */
module WaitObj {
  import opened Options
  import opened Params
  import opened WaitSpec

  /** What one pass of waitobj_wait's loop does. */
  datatype Pass = Got(id: nat) | TimedOut | Slept

  class WaitTable {
    var objs: seq<Object>
    var src: seq<Source>
    var ticks: nat
    ghost var lists: seq<seq<nat>>
    ghost var asleep: map<nat, nat>
    ghost var notified: seq<nat>
    ghost var delivered: seq<nat>

    ghost function Abs(): State
      reads this
    {
      State(objs, src, ticks, lists, asleep, notified, delivered)
    }

    ghost predicate Valid()
      reads this
    {
      Inv(Abs()) && ticks < TWO32
    }

    /** waitobj_init. */
    constructor ()
      ensures Valid() && TimersExact(Abs()) && ClockOk(Abs()) && asleep == map[]
    {
      objs := seq(MAX_WAIT_OBJECTS, _ => Object(NUM_IDS, false, None));
      src := seq(MAX_EVENT_SOURCES, _ => Source(0, 0, false, 0, 0, None, None));
      ticks := 0;
      lists, asleep := seq(MAX_WAIT_OBJECTS, _ => []), map[];
      notified, delivered := seq(MAX_EVENT_SOURCES, _ => 0), seq(MAX_EVENT_SOURCES, _ => 0);
    }

    /** alloc_source: the first free source, or the pool size. */
    method AllocSource() returns (i: nat)
      requires Valid()
      ensures i <= MAX_EVENT_SOURCES
      ensures i < MAX_EVENT_SOURCES ==> src[i].parent == None
      ensures forall j | 0 <= j < i :: src[j].parent.Some?
    {
      i := 0;
      while i < MAX_EVENT_SOURCES
        invariant i <= MAX_EVENT_SOURCES
        invariant forall j | 0 <= j < i :: src[j].parent.Some?
      {
        assert SourceOk(Abs(), i);
        if src[i].parent == None && src[i].id == 0 {
          return;
        }
        i := i + 1;
      }
    }

    /** get_wo: a valid handle names an object in use. */
    predicate Handle(wid: int)
      requires |objs| == MAX_WAIT_OBJECTS
      reads this
    {
      0 <= wid < MAX_WAIT_OBJECTS && objs[wid].inUse
    }

    /** waitobj_create. */
    method Create(pid: nat) returns (r: int)
      requires Valid()
      modifies this
      ensures Valid()
      ensures r == -1 ==> Abs() == old(Abs()) && forall w | 0 <= w < MAX_WAIT_OBJECTS :: objs[w].inUse
      ensures r != -1 ==>
        && 0 <= r && old(Enabled(Abs(), OpCreate(pid, r))) && Abs() == Apply(old(Abs()), OpCreate(pid, r))
        && r < |objs| == |old(objs)| && objs[r].inUse && objs[r].owner == pid && lists[r] == [] && src == old(src)
        && forall w | 0 <= w < |objs| && w != r :: objs[w] == old(objs)[w]
    {
      hide Inv;
      InvSizes(Abs());
      var i := 0;
      while i < MAX_WAIT_OBJECTS
        invariant i <= MAX_WAIT_OBJECTS
        invariant forall w | 0 <= w < i :: objs[w].inUse
      {
        if !objs[i].inUse {
          StepKeeps(Abs(), OpCreate(pid, i));
          objs := objs[i := Object(pid, true, None)];
          lists := lists[i := []];
          return i;
        }
        i := i + 1;
      }
      return -1;
    }

    /** waitobj_add. Any type is accepted; one that is not a timer gets no period. */
    method Add(pid: nat, wid: int, typ: int, ms: nat) returns (r: int)
      requires Valid() && ms < TWO32
      modifies this
      ensures Valid()
      ensures r == -1 ==> Abs() == old(Abs())
      ensures r != -1 ==>
        && r >= 1 && wid >= 0 && old(Enabled(Abs(), OpAdd(wid, r - 1, typ, ms))) && old(objs[wid]).owner == pid
        && Abs() == Apply(old(Abs()), OpAdd(wid, r - 1, typ, ms))
        && src[r - 1].id == r && src[r - 1].typ == typ && src[r - 1].parent == Some(wid) && !src[r - 1].ready
        && src[r - 1].period == (if typ != EVENT_TIMER then 0 else if ms != 0 then ms else 1)
        && (forall j | 0 <= j < |src| && j != r - 1 :: src[j] == old(src)[j])
        && lists[wid] == [r - 1] + old(lists)[wid] && forall w | 0 <= w < |lists| && w != wid :: lists[w] == old(lists)[w]
      ensures r == -1 <==> !(old(|objs| == MAX_WAIT_OBJECTS && Handle(wid) && objs[wid].owner == pid)
                             && exists i :: 0 <= i < MAX_EVENT_SOURCES && old(src)[i].parent == None)
    {
      hide Inv;
      InvSizes(Abs());
      if !Handle(wid) || objs[wid].owner != pid {
        return -1;
      }
      var i := AllocSource();
      if i == MAX_EVENT_SOURCES {
        return -1;
      }
      StepKeeps(Abs(), OpAdd(wid, i, typ, ms));
      var s := Source(i + 1, typ, false, src[i].period, src[i].fire, Some(wid), objs[wid].sources);
      objs := objs[wid := objs[wid].(sources := Some(i))];
      if typ == EVENT_TIMER {
        s := s.(period := if ms != 0 then ms else 1);
        s := s.(fire := (ticks + s.period) % TWO32);
      } else {
        s := s.(period := 0, fire := 0);
      }
      src := src[i := s];
      lists := lists[wid := [i] + lists[wid]];
      return i + 1;
    }

    /** event_notify on an attached source. */
    method EventNotify(i: nat)
      requires Valid() && i < MAX_EVENT_SOURCES
      modifies this
      ensures Valid() && Abs() == Notify(old(Abs()), i)
      ensures old(src)[i].parent == None ==> Abs() == old(Abs())
      ensures old(src)[i].parent.Some? ==>
        && |src| == |old(src)| && src[i] == old(src)[i].(ready := true)
        && (forall j | 0 <= j < |src| && j != i :: src[j] == old(src)[j])
        && WokeOn(old(asleep), asleep, {old(src)[i].parent.value})
    {
      hide Inv;
      InvSizes(Abs());
      NotifyKeeps(Abs(), i);
      if src[i].parent == None {
        return;
      }
      ghost var w := src[i].parent.value;
      src := src[i := src[i].(ready := true)];
      asleep := WakeAll(asleep, w);
      notified := notified[i := notified[i] + 1];
    }

    /** waitobj_signal_source. */
    method Signal(pid: nat, sid: int) returns (r: int)
      requires Valid()
      modifies this
      ensures Valid()
      ensures r == -1 ==> Abs() == old(Abs())
      ensures r == if (1 <= sid <= |old(src)| && var x := old(src)[sid - 1];
                       x.parent.Some? && x.parent.value < |objs| && objs[x.parent.value].owner == pid
                       && x.typ == EVENT_SOFTWARE) then 0 else -1
      ensures r == 0 ==>
        && sid >= 1 && old(Enabled(Abs(), OpSignal(sid - 1))) && Abs() == Apply(old(Abs()), OpSignal(sid - 1))
        && sid <= |src| == |old(src)| && src[sid - 1] == old(src)[sid - 1].(ready := true)
        && (forall j | 0 <= j < |src| && j != sid - 1 :: src[j] == old(src)[j])
        && WokeOn(old(asleep), asleep, {old(src)[sid - 1].parent.value})
    {
      InvSizes(Abs());
      if sid < 1 || sid > MAX_EVENT_SOURCES {
        return -1;
      }
      var s := src[sid - 1];
      assert SourceOk(Abs(), sid - 1);
      if s.id != sid || s.parent == None || objs[s.parent.value].owner != pid {
        return -1;
      }
      if s.typ != EVENT_SOFTWARE {
        return -1;
      }
      EventNotify(sid - 1);
      return 0;
    }

    /** The loop of waitobj_timer_tick or waitobj_console_input_notify. */
    method NotifyLoop(timer: bool)
      requires Valid()
      modifies this
      ensures Valid() && Abs() == NotifyDue(old(Abs()), timer, 0) && ticks == old(ticks)
    {
      hide Inv, NotifyDue, Notify;
      InvSizes(Abs());
      ghost var s := Abs();
      var i := 0;
      while i < MAX_EVENT_SOURCES
        invariant i <= MAX_EVENT_SOURCES && Valid() && ticks == old(ticks)
        invariant |src| == |notified| == MAX_EVENT_SOURCES
        invariant NotifyDue(Abs(), timer, i) == NotifyDue(s, timer, 0)
      {
        DueUnfold(Abs(), timer, i);
        NotifyKeeps(Abs(), i);
        InvSizes(Notify(Abs(), i));
        var x := src[i];
        var wanted := if timer then EVENT_TIMER else EVENT_KEYBOARD;
        if !(x.parent == None || x.typ != wanted) && !x.ready && (!timer || ticks >= x.fire) {
          EventNotify(i);
        }
        i := i + 1;
      }
      DueUnfold(Abs(), timer, i);
    }

    /** waitobj_on_timer_irq. */
    method OnTimerIrq()
      requires Valid()
      modifies this
      ensures Valid() && Abs() == Apply(old(Abs()), OpTick)
    {
      hide Inv, NotifyDue;
      InvSizes(Abs());
      ClockKeeps(Abs(), (ticks + 1) % TWO32);
      ticks := (ticks + 1) % TWO32;
      NotifyLoop(true);
    }

    /** waitobj_console_input_notify. */
    method ConsoleNotify()
      requires Valid()
      modifies this
      ensures Valid() && Abs() == Apply(old(Abs()), OpKey)
    {
      hide Inv, NotifyDue;
      InvSizes(Abs());
      NotifyLoop(false);
    }

    /** first_ready_source: walk the links to the newest-added ready source. */
    method FirstReadySource(w: nat) returns (p: Option<nat>, ghost k: nat)
      requires Valid() && w < MAX_WAIT_OBJECTS
      ensures k <= |lists[w]| && p == At(lists[w], k)
      ensures forall j | 0 <= j < |lists[w]| :: lists[w][j] < |src|
      ensures k == FirstReady(Abs(), lists[w], 0)
    {
      ghost var l := lists[w];
      ListMembers(Abs(), w);
      assert ListOk(Abs(), w);
      p := objs[w].sources;
      k := 0;
      while p != None
        invariant k <= |l| && p == At(l, k)
        invariant FirstReady(Abs(), l, k) == FirstReady(Abs(), l, 0)
        decreases |l| - k
      {
        assert MemberOk(src, l, w, k);
        if src[p.value].ready {
          return;
        }
        p := src[p.value].next;
        k := k + 1;
      }
    }

    /** reschedule_all_timer_sources: walk the links and restart every timer. */
    method RescheduleTimers(w: nat)
      requires Valid() && w < MAX_WAIT_OBJECTS
      modifies this`src
      ensures src == Reschedule(old(Abs()), w).src
    {
      hide Reschedule;
      ghost var s, l := Abs(), lists[w];
      ListMembers(s, w);
      assert ListOk(s, w);
      var p := objs[w].sources;
      ghost var k := 0;
      while p != None
        invariant k <= |l| && p == At(l, k) && |src| == |s.src|
        invariant forall j | 0 <= j < k :: src[l[j]] == Restarted(s.src[l[j]], ticks)
        invariant forall i | 0 <= i < |src| && i !in l[..k] :: src[i] == s.src[i]
        decreases |l| - k
      {
        var i := p.value;
        assert MemberOk(s.src, l, w, k);
        assert i !in l[..k];
        assert l[..k + 1] == l[..k] + [i];
        if src[i].typ == EVENT_TIMER {
          src := src[i := src[i].(ready := false, fire := (ticks + src[i].period) % TWO32)];
        }
        p := src[i].next;
        k := k + 1;
      }
      assert l[..k] == l;
      Rescheduled(s, w, src);
    }

    /** The start of waitobj_wait: check the handle, fix the deadline. */
    method WaitEnter(pid: nat, wid: int, timeout: nat) returns (r: int, deadline: nat)
      requires Valid() && timeout < TWO32
      ensures r == if 0 <= wid < |objs| && objs[wid].inUse && objs[wid].owner == pid then 0 else -2
      ensures if ticks + timeout < TWO32 then deadline == ticks + timeout else deadline == ticks + timeout - TWO32
    {
      hide Inv;
      InvSizes(Abs());
      deadline := (ticks + timeout) % TWO32;
      assert ticks + timeout >= TWO32 ==> (ticks + timeout) % TWO32 == ticks + timeout - TWO32;
      r := if !Handle(wid) || objs[wid].owner != pid then -2 else 0;
    }

    /** One pass of waitobj_wait's loop by thread pid, up to a return or the switch in thread_sleep. The
        deadline is looked at only here, so only by a thread that is awake. */
    method WaitPass(pid: nat, w: nat, useTimeout: bool, deadline: nat) returns (r: Pass)
      requires Valid() && w < MAX_WAIT_OBJECTS && objs[w].inUse && pid !in asleep
      modifies this
      ensures Valid()
      ensures r.Got? || r == if useTimeout && old(ticks) >= deadline then TimedOut else Slept
      ensures !r.Got? ==> old(Enabled(Abs(), OpSleep(pid, w)))
      ensures r.TimedOut? ==> Abs() == old(Abs())
      ensures r.Got? ==>
        && r.id >= 1 && exists k: nat ::
             old(Enabled(Abs(), OpDeliver(w, k))) && Abs() == Apply(old(Abs()), OpDeliver(w, k))
             && old(lists)[w][k] == r.id - 1
      ensures r.Got? ==> r.id <= |src| == |old(src)| && old(src)[r.id - 1].ready && !src[r.id - 1].ready
      ensures r.Slept? ==> Abs() == Apply(old(Abs()), OpSleep(pid, w)) && asleep == old(asleep)[pid := w] && src == old(src)
    {
      hide FirstReady, ListOk;
      ghost var k;
      var p;
      p, k := FirstReadySource(w);
      ghost var s := Abs();
      ListMembers(s, w);
      if p.Some? {
        var i := p.value;
        assert Enabled(s, OpDeliver(w, k));
        StepKeeps(s, OpDeliver(w, k));
        assert SourceOk(s, i);
        src := src[i := src[i].(ready := false)];
        delivered := delivered[i := delivered[i] + 1];
        TakenKeeps(s, i);
        RescheduleTimers(w);
        assert src == Apply(s, OpDeliver(w, k)).src;
        assert Abs() == Apply(s, OpDeliver(w, k));
        return Got(src[i].id);
      }
      if useTimeout && ticks >= deadline {
        return TimedOut;
      }
      StepKeeps(s, OpSleep(pid, w));
      asleep := asleep[pid := w];
      return Slept;
    }
  }

  /** Restarting the members of w's list, and nothing else, is rescheduling w. */
  lemma Rescheduled(s: State, w: nat, src: seq<Source>)
    requires Shape(s) && w < MAX_WAIT_OBJECTS && |src| == |s.src|
    requires forall j | 0 <= j < |s.lists[w]| && s.lists[w][j] < |src| ::
      src[s.lists[w][j]] == Restarted(s.src[s.lists[w][j]], s.ticks)
    requires forall i | 0 <= i < |src| && i !in s.lists[w] :: src[i] == s.src[i]
    ensures src == Reschedule(s, w).src
  {
    ListMembers(s, w);
    forall i | 0 <= i < |src|
      ensures src[i] == Reschedule(s, w).src[i]
    {
      if i in s.lists[w] {
        var j :| 0 <= j < |s.lists[w]| && s.lists[w][j] == i;
      }
    }
  }

  lemma DueUnfold(s: State, timer: bool, i: nat)
    requires |s.src| == |s.notified| == MAX_EVENT_SOURCES && i <= MAX_EVENT_SOURCES
    ensures i == MAX_EVENT_SOURCES ==> NotifyDue(s, timer, i) == s
    ensures i < MAX_EVENT_SOURCES ==>
      NotifyDue(s, timer, i)
      == NotifyDue(if (if timer then TimerDue(s, i) else KeyDue(s, i)) then Notify(s, i) else s, timer, i + 1)
  {
  }

  /** Taking the ready flag off a source keeps the invariant. */
  lemma TakenKeeps(s: State, i: nat)
    requires Inv(s) && i < MAX_EVENT_SOURCES && s.src[i].ready
    ensures Inv(s.(src := s.src[i := s.src[i].(ready := false)], delivered := s.delivered[i := s.delivered[i] + 1]))
  {
    hide ListOk, SourceOk;
    SameShape(s, s.(src := s.src[i := s.src[i].(ready := false)], delivered := s.delivered[i := s.delivered[i] + 1]));
  }
}
