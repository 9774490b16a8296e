/** The scheduler's operations on the real queues, each proved to be one step of the machine in
    SchedSpec. Each runs under sched_lk and ends at the context switch. */
module Scheduler {
  import opened Lists
  import opened Params
  import opened ThreadQueue
  import opened SchedSpec

  ghost predicate OnlyReady(qs: seq<seq<nat>>) {
    |qs| == NUM_IDS + 1 && forall c | 0 <= c < NUM_IDS :: qs[c] == []
  }

  lemma ReadyOrUnqueued(qs: seq<seq<nat>>, pid: nat)
    requires OnlyReady(qs) && pid !in qs[NUM_IDS]
    ensures Unqueued(qs, pid)
  {
  }

  /** The enqueues of the first processes. */
  method QueueAll(tq: Queues, created: seq<nat>)
    requires tq.Valid() && OnlyReady(tq.qs) && tq.qs[NUM_IDS] == []
    requires Distinct(created) && forall p | p in created :: 1 <= p < NUM_IDS
    modifies tq
    ensures tq.Valid() && OnlyReady(tq.qs) && tq.qs[NUM_IDS] == created
  {
    hide Queues.Valid;
    var i := 0;
    while i < |created|
      invariant i <= |created| && tq.Valid() && OnlyReady(tq.qs) && tq.qs[NUM_IDS] == created[..i]
    {
      assert created[..i + 1] == created[..i] + [created[i]];
      assert created[i] in created && created[i] !in created[..i];
      ReadyOrUnqueued(tq.qs, created[i]);
      tq.Enqueue(NUM_IDS, created[i]);
      i := i + 1;
    }
    assert created[..|created|] == created;
  }

  /** Boot leaves a state the scheduler keeps. */
  lemma HandedOver(created: seq<nat>, first: nat, s: Sched)
    requires Distinct(created) && first in created && forall p | p in created :: 1 <= p < NUM_IDS
    requires s.cur == first && |s.st| == |s.chan| == NUM_IDS
    requires exists k | 0 <= k < |created| && created[k] == first :: s.ready == Without(created, k)
    requires forall p | 1 <= p < NUM_IDS :: s.st[p] == if p == first then Run else if p in created then Ready else Dead
    ensures Inv(s) && forall k | 0 <= k < |created| && created[k] == first :: s.ready == Without(created, k)
  {
    hide Without, Distinct;
    WithoutFirst(created, first, s.ready);
  }

  class Scheduler {
    const tq: Queues
    var st: seq<TState>
    var chan: seq<nat>
    var cur: nat

    ghost function Abs(): Sched
      reads this, tq
    {
      Sched(cur, if |tq.qs| == NUM_IDS + 1 then tq.qs[NUM_IDS] else [], st, chan)
    }

    /** The scheduler uses only the ready queue. */
    ghost predicate Valid()
      reads this, tq
    {
      tq.Valid() && Inv(Abs()) && OnlyReady(tq.qs)
    }

    /** thread_init, then kern_main: the created processes are queued, and the boot thread hands over to
        one of them by removing it from the ready queue and switching to it. */
    constructor (created: seq<nat>, first: nat)
      requires Distinct(created) && first in created && forall p | p in created :: 1 <= p < NUM_IDS
      ensures Valid() && fresh(tq) && cur == first
      ensures forall k | 0 <= k < |created| && created[k] == first :: Abs().ready == Without(created, k)
    {
      hide Inv, Queues.Valid, Distinct, Without;
      tq := new Queues();
      st := seq(NUM_IDS, p => if p == 0 then Run else if p in created then Ready else Dead);
      chan := seq(NUM_IDS, _ => 0);
      cur := 0;
      new;
      QueueAll(tq, created);
      tq.Remove(NUM_IDS, first);
      st := st[first := Run];
      cur := first;
      HandedOver(created, first, Abs());
    }

    /** thread_spawn, given the id kctx_new allocated. */
    method Spawn(pid: nat)
      requires Valid() && Enabled(Abs(), SchedSpec.Spawn(pid))
      modifies this, tq
      ensures Valid() && Abs() == Apply(old(Abs()), SchedSpec.Spawn(pid))
    {
      hide Table;
      StepKeeps(Abs(), SchedSpec.Spawn(pid));
      ReadyOrUnqueued(tq.qs, pid);
      st := st[pid := Ready];
      tq.Enqueue(NUM_IDS, pid);
    }

    /** thread_yield. */
    method Yield()
      requires Valid()
      modifies this, tq
      ensures Valid() && Abs() == Apply(old(Abs()), SchedSpec.Yield)
    {
      hide Table;
      StepKeeps(Abs(), SchedSpec.Yield);
      ReadyOrUnqueued(tq.qs, cur);
      var oldCur := cur;
      st := st[oldCur := Ready];
      tq.Enqueue(NUM_IDS, oldCur);
      var newCur := tq.Dequeue(NUM_IDS);
      st := st[newCur := Run];
      cur := newCur;
    }

    /** thread_sleep up to the switch. */
    method SleepOn(ch: nat)
      requires Valid() && Enabled(Abs(), SchedSpec.SleepOn(ch))
      modifies this, tq
      ensures Valid() && Abs() == Apply(old(Abs()), SchedSpec.SleepOn(ch))
      ensures st[old(cur)] == Sleep && chan[old(cur)] == ch && [cur] + Abs().ready == old(Abs()).ready
    {
      hide Table;
      StepKeeps(Abs(), SchedSpec.SleepOn(ch));
      SleepFiles(Abs(), ch);
      ghost var s := Abs();
      st := st[cur := Sleep];
      chan := chan[cur := ch];
      var newCur := tq.Dequeue(NUM_IDS);
      st := st[newCur := Run];
      cur := newCur;
      assert Abs() == Apply(s, SchedSpec.SleepOn(ch));
      assert [s.ready[0]] + s.ready[1..] == s.ready;
    }

    /** thread_wakeup. */
    method Wakeup(ch: nat)
      requires Valid()
      modifies this, tq
      ensures Valid() && Abs() == Apply(old(Abs()), SchedSpec.Wakeup(ch))
      ensures forall p | 1 <= p < NUM_IDS && old(st)[p] == Sleep && old(chan)[p] == ch :: st[p] == Ready && p in Abs().ready
    {
      hide Table, Inv, WakeFrom;
      ghost var s := Abs();
      Shape(s);
      var pid := 1;
      while pid < NUM_IDS
        invariant 1 <= pid <= NUM_IDS && Valid() && |st| == |chan| == NUM_IDS
        invariant WakeFrom(Abs(), ch, pid) == WakeFrom(s, ch, 1)
      {
        WakeUnfold(Abs(), ch, pid);
        if chan[pid] == ch && st[pid] == Sleep {
          WakeOne(Abs(), pid);
          ReadyOrUnqueued(tq.qs, pid);
          st := st[pid := Ready];
          chan := chan[pid := 0];
          tq.Enqueue(NUM_IDS, pid);
        }
        pid := pid + 1;
      }
      WakeUnfold(Abs(), ch, pid);
      forall p | 1 <= p < NUM_IDS && old(st)[p] == Sleep && old(chan)[p] == ch
        ensures st[p] == Ready && p in Abs().ready
      {
        QueuedByWake(s, ch, p);
      }
    }
  }

  lemma WakeUnfold(s: Sched, ch: nat, p: nat)
    requires |s.st| == |s.chan| == NUM_IDS && p <= NUM_IDS
    ensures p == NUM_IDS ==> WakeFrom(s, ch, p) == s
    ensures p < NUM_IDS ==>
      WakeFrom(s, ch, p)
      == WakeFrom(if s.chan[p] == ch && s.st[p] == Sleep
                  then s.(ready := s.ready + [p], st := s.st[p := Ready], chan := s.chan[p := 0]) else s, ch, p + 1)
  {
  }

  lemma Shape(s: Sched)
    requires Inv(s)
    ensures WellFormed(s)
  {
  }

  /** Waking a single sleeper. */
  lemma WakeOne(s: Sched, pid: nat)
    requires Inv(s) && 1 <= pid < NUM_IDS && s.st[pid] == Sleep
    ensures pid !in s.ready
    ensures Inv(s.(ready := s.ready + [pid], st := s.st[pid := Ready], chan := s.chan[pid := 0]))
  {
    AppendDistinct(s.ready, pid);
  }

  /** Cutting one member out of a list without repetitions. */
  lemma WithoutFirst(q: seq<nat>, x: nat, r: seq<nat>)
    requires Distinct(q) && exists k | 0 <= k < |q| && q[k] == x :: r == Without(q, k)
    ensures Distinct(r) && forall p :: p in r <==> p in q && p != x
    ensures forall k | 0 <= k < |q| && q[k] == x :: r == Without(q, k)
  {
    var k :| 0 <= k < |q| && q[k] == x && r == Without(q, k);
    assert forall j | 0 <= j < |r| :: r[j] == if j < k then q[j] else q[j + 1];
    forall p
      ensures p in r <==> p in q && p != x
    {
      if p in q && p != x {
        var j :| 0 <= j < |q| && q[j] == p;
        assert r[if j < k then j else j - 1] == p;
      }
    }
  }
}
