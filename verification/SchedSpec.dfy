/** The scheduler of kern/thread/PThread/PThread.c as a machine over values: which thread runs, the
    ready queue, every thread's state and sleep channel. Threads are numbered from 1; thread 0 is the
    boot thread, which is never scheduled again. */
module SchedSpec {
  import opened Lists
  import opened Params

  datatype TState = Ready | Run | Sleep | Dead

  /** Channels are addresses; 0 is no channel. */
  datatype Sched = Sched(cur: nat, ready: seq<nat>, st: seq<TState>, chan: seq<nat>)

  datatype Op = Spawn(pid: nat) | Yield | SleepOn(ch: nat) | Wakeup(ch: nat)

  ghost predicate WellFormed(s: Sched) {
    |s.st| == |s.chan| == NUM_IDS && 1 <= s.cur < NUM_IDS
  }

  /** The scheduler invariant: the ready queue holds exactly the READY threads, once each; the
      running thread is the only one marked RUN; so sleepers are in no queue. */
  ghost predicate Inv(s: Sched) {
    && WellFormed(s) && Distinct(s.ready)
    && (forall p | p in s.ready :: 1 <= p < NUM_IDS)
    && (forall p | 1 <= p < NUM_IDS :: s.st[p] == Ready <==> p in s.ready)
    && (forall p | 1 <= p < NUM_IDS :: s.st[p] == Run <==> p == s.cur)
  }

  /** What the code demands: a fresh thread id to spawn, somebody to switch to when sleeping. */
  ghost predicate Enabled(s: Sched, op: Op) {
    && WellFormed(s)
    && match op
       case Spawn(pid) => 1 <= pid < NUM_IDS && s.st[pid] == Dead
       case Yield => true
       case SleepOn(ch) => s.ready != []
       case Wakeup(ch) => true
  }

  /** Switch to the head of the ready queue. */
  function Switch(s: Sched): Sched
    requires s.ready != [] && s.ready[0] < |s.st|
  {
    s.(cur := s.ready[0], ready := s.ready[1..], st := s.st[s.ready[0] := Run])
  }

  /** thread_wakeup's loop from thread p on: the sleepers on ch become READY in thread order. */
  function WakeFrom(s: Sched, ch: nat, p: nat): (r: Sched)
    requires |s.st| == |s.chan| == NUM_IDS && p <= NUM_IDS
    ensures |r.st| == |r.chan| == NUM_IDS
    decreases NUM_IDS - p
  {
    if p == NUM_IDS then s else
      WakeFrom(if s.chan[p] == ch && s.st[p] == Sleep
               then s.(ready := s.ready + [p], st := s.st[p := Ready], chan := s.chan[p := 0]) else s, ch, p + 1)
  }

  ghost function Apply(s: Sched, op: Op): Sched
    requires Inv(s) && Enabled(s, op)
  {
    match op
    case Spawn(pid) => s.(ready := s.ready + [pid], st := s.st[pid := Ready])
    case Yield => assert s.ready != [] ==> s.ready[0] in s.ready;
                  Switch(s.(ready := s.ready + [s.cur], st := s.st[s.cur := Ready]))
    case SleepOn(ch) => assert s.ready[0] in s.ready;
                        Switch(s.(st := s.st[s.cur := Sleep], chan := s.chan[s.cur := ch]))
    case Wakeup(ch) => WakeFrom(s, ch, 1)
  }

  lemma SpawnKeeps(s: Sched, pid: nat)
    requires Inv(s) && Enabled(s, Spawn(pid))
    ensures Inv(Apply(s, Spawn(pid)))
  {
  }

  lemma TailMembers(q: seq<nat>)
    requires Distinct(q) && q != []
    ensures Distinct(q[1..]) && q[0] in q
    ensures forall p :: p in q[1..] <==> p in q && p != q[0]
  {
    forall p
      ensures p in q[1..] <==> p in q && p != q[0]
    {
      if p in q {
        var k :| 0 <= k < |q| && q[k] == p;
        assert k > 0 ==> q[1..][k - 1] == p;
      }
      if p in q[1..] {
        var k :| 0 <= k < |q[1..]| && q[1..][k] == p;
        assert q[k + 1] == p;
      }
    }
  }

  lemma AppendDistinct(q: seq<nat>, x: nat)
    requires Distinct(q) && x !in q
    ensures Distinct(q + [x])
    ensures forall p :: p in q + [x] <==> p in q || p == x
  {
    forall i, j | 0 <= i < j < |q + [x]|
      ensures (q + [x])[i] != (q + [x])[j]
    {
      assert q[i] in q;
    }
  }

  lemma YieldKeeps(s: Sched)
    requires Inv(s)
    ensures Inv(Apply(s, Yield))
  {
    var q := s.ready + [s.cur];
    assert s.cur !in s.ready;
    AppendDistinct(s.ready, s.cur);
    TailMembers(q);
  }

  lemma SleepKeeps(s: Sched, ch: nat)
    requires Inv(s) && Enabled(s, SleepOn(ch))
    ensures Inv(Apply(s, SleepOn(ch)))
  {
    TailMembers(s.ready);
  }

  lemma {:induction false} WakeKeeps(s: Sched, ch: nat, p: nat)
    requires Inv(s) && 1 <= p <= NUM_IDS
    ensures Inv(WakeFrom(s, ch, p))
    ensures var r := WakeFrom(s, ch, p);
            && r.cur == s.cur && s.ready <= r.ready
            && forall x | 1 <= x < NUM_IDS ::
                 r.st[x] == if p <= x && s.st[x] == Sleep && s.chan[x] == ch then Ready else s.st[x]
    decreases NUM_IDS - p
  {
    if p < NUM_IDS {
      if s.chan[p] == ch && s.st[p] == Sleep {
        var t := s.(ready := s.ready + [p], st := s.st[p := Ready], chan := s.chan[p := 0]);
        assert Inv(t);
        WakeKeeps(t, ch, p + 1);
      } else {
        WakeKeeps(s, ch, p + 1);
      }
    }
  }

  /** Threads from p on, in order, follow the first k of the queue. */
  ghost predicate Follow(q: seq<nat>, k: nat, p: nat) {
    && (forall i | k <= i < |q| :: p <= q[i] < NUM_IDS)
    && (forall i, j | k <= i < j < |q| :: q[i] < q[j])
  }

  /** Waking queues threads in thread order and leaves the channels of the others alone. */
  lemma {:induction false} WakeOrder(s: Sched, ch: nat, p: nat)
    requires |s.st| == |s.chan| == NUM_IDS && p <= NUM_IDS
    ensures var r := WakeFrom(s, ch, p);
            && s.ready <= r.ready && Follow(r.ready, |s.ready|, p)
            && forall x | 0 <= x < NUM_IDS && s.chan[x] != ch :: r.chan[x] == s.chan[x]
    decreases NUM_IDS - p
  {
    if p < NUM_IDS {
      WakeOrder(if s.chan[p] == ch && s.st[p] == Sleep
                then s.(ready := s.ready + [p], st := s.st[p := Ready], chan := s.chan[p := 0]) else s, ch, p + 1);
    }
  }

  /** Every operation keeps the invariant. */
  lemma StepKeeps(s: Sched, op: Op)
    requires Inv(s) && Enabled(s, op)
    ensures Inv(Apply(s, op))
  {
    hide Inv, Enabled, Apply;
    match op {
      case Spawn(pid) => SpawnKeeps(s, pid);
      case Yield => YieldKeeps(s);
      case SleepOn(ch) => SleepKeeps(s, ch);
      case Wakeup(ch) => WakeApplied(s, ch);
    }
  }

  lemma WakeApplied(s: Sched, ch: nat)
    requires Inv(s) && Enabled(s, Wakeup(ch))
    ensures Inv(Apply(s, Wakeup(ch)))
  {
    WakeKeeps(s, ch, 1);
  }

  // ---- Runs ----

  /** ops can be executed from s one after the other. */
  ghost predicate Runs(s: Sched, ops: seq<Op>)
    requires Inv(s)
    decreases |ops|
  {
    ops != [] ==> Enabled(s, ops[0]) && (StepKeeps(s, ops[0]); Runs(Apply(s, ops[0]), ops[1..]))
  }

  ghost function After(s: Sched, ops: seq<Op>): (r: Sched)
    requires Inv(s) && Runs(s, ops)
    ensures Inv(r)
    decreases |ops|
  {
    if ops == [] then s else
      StepKeeps(s, ops[0]);
      After(Apply(s, ops[0]), ops[1..])
  }

  // ---- Sleeping and waking ----

  /** Thread p sleeps on channel ch. */
  ghost predicate AsleepOn(s: Sched, p: nat, ch: nat) {
    WellFormed(s) && 1 <= p < NUM_IDS && s.st[p] == Sleep && s.chan[p] == ch
  }

  /** thread_sleep files the running thread under the channel and runs the head of the ready queue; the
      others stay as they are. */
  lemma SleepFiles(s: Sched, ch: nat)
    requires Inv(s) && Enabled(s, SleepOn(ch))
    ensures var t := Apply(s, SleepOn(ch));
            && AsleepOn(t, s.cur, ch) && t.cur == s.ready[0] && t.ready == s.ready[1..]
            && forall p | 1 <= p < NUM_IDS && p != s.cur && p != t.cur :: t.st[p] == s.st[p] && t.chan[p] == s.chan[p]
  {
    assert s.ready[0] in s.ready;
  }

  /** thread_wakeup queues exactly the sleepers of its channel, behind the threads queued already and in
      thread order. */
  lemma WakeQueues(s: Sched, ch: nat)
    requires Inv(s)
    ensures var t := Apply(s, Wakeup(ch));
            && s.ready <= t.ready && t.cur == s.cur
            && (forall p :: p in t.ready[|s.ready|..] <==> AsleepOn(s, p, ch))
            && (forall i, j | |s.ready| <= i < j < |t.ready| :: t.ready[i] < t.ready[j])
  {
    hide WakeFrom;
    var t := Apply(s, Wakeup(ch));
    WakeKeeps(s, ch, 1);
    WakeOrder(s, ch, 1);
    forall p
      ensures p in t.ready[|s.ready|..] <==> AsleepOn(s, p, ch)
    {
      NewMembers(s.ready, t.ready, p);
    }
  }

  /** What a list without repetitions has beyond its prefix. */
  lemma NewMembers(q: seq<nat>, r: seq<nat>, p: nat)
    requires Distinct(r) && q <= r
    ensures p in r[|q|..] <==> p in r && p !in q
  {
    if p in r {
      var k :| 0 <= k < |r| && r[k] == p;
      assert k >= |q| ==> r[|q|..][k - |q|] == p;
      assert k < |q| ==> q[k] == p;
    }
  }

  /** A sleeper stays asleep through everything but a wakeup of its channel. */
  lemma SleeperKept(s: Sched, op: Op, p: nat, ch: nat)
    requires Inv(s) && Enabled(s, op) && AsleepOn(s, p, ch) && op != Wakeup(ch)
    ensures AsleepOn(Apply(s, op), p, ch)
  {
    hide WakeFrom;
    match op {
      case Wakeup(c) => WakeKeeps(s, c, 1); WakeOrder(s, c, 1);
      case SleepOn(c) => SleepFiles(s, c);
      case Yield =>
        YieldKeeps(s);
        assert (s.ready + [s.cur])[0] == if s.ready == [] then s.cur else s.ready[0];
        assert s.ready != [] ==> s.ready[0] in s.ready;
      case _ =>
    }
  }

  lemma {:induction false} SleeperKeptBy(s: Sched, ops: seq<Op>, p: nat, ch: nat)
    requires Inv(s) && Runs(s, ops) && AsleepOn(s, p, ch) && Wakeup(ch) !in ops
    ensures AsleepOn(After(s, ops), p, ch)
    decreases |ops|
  {
    hide Inv, Enabled, Apply, AsleepOn;
    if ops != [] {
      StepKeeps(s, ops[0]);
      SleeperKept(s, ops[0], p, ch);
      assert forall op | op in ops[1..] :: op in ops;
      SleeperKeptBy(Apply(s, ops[0]), ops[1..], p, ch);
    }
  }

  /** Over every run, a thread that goes to sleep on ch sleeps until the first wakeup of ch, which queues
      it. */
  lemma SleepsUntilWoken(s: Sched, ch: nat, ops: seq<Op>)
    requires Inv(s) && Enabled(s, SleepOn(ch)) && Wakeup(ch) !in ops
    requires Inv(Apply(s, SleepOn(ch))) && Runs(Apply(s, SleepOn(ch)), ops)
    ensures var t := After(Apply(s, SleepOn(ch)), ops);
            && AsleepOn(t, s.cur, ch) && s.cur !in t.ready
            && s.cur in Apply(t, Wakeup(ch)).ready && Apply(t, Wakeup(ch)).st[s.cur] == Ready
  {
    hide Apply;
    SleepFiles(s, ch);
    var u := Apply(s, SleepOn(ch));
    SleeperKeptBy(u, ops, s.cur, ch);
    var t := After(u, ops);
    QueuedByWake(t, ch, s.cur);
  }

  lemma QueuedByWake(t: Sched, ch: nat, p: nat)
    requires Inv(t) && AsleepOn(t, p, ch) && Enabled(t, Wakeup(ch))
    ensures p in Apply(t, Wakeup(ch)).ready && p < |Apply(t, Wakeup(ch)).st| && Apply(t, Wakeup(ch)).st[p] == Ready
  {
    hide WakeFrom;
    WakeKeeps(t, ch, 1);
  }

  /** Where the queue takes a thread on: a new thread at the end, and a yielding one at the end, or back on
      the processor if it is alone. */
  lemma Enqueues(s: Sched, op: Op)
    requires Inv(s) && Enabled(s, op) && (op.Spawn? || op.Yield?)
    ensures var t, p := Apply(s, op), if op.Spawn? then op.pid else s.cur;
            if op.Yield? && s.ready == [] then t.cur == p && t.ready == [] else
              p < |t.st| && t.ready != [] && t.ready[|t.ready| - 1] == p && t.st[p] == Ready && (op.Spawn? ==> t.cur == s.cur)
  {
    assert s.ready != [] ==> s.ready[0] in s.ready;
  }

  /** How many operations of ops take a thread off the ready queue. */
  function Dequeues(ops: seq<Op>): nat {
    if ops == [] then 0 else (if ops[0].Yield? || ops[0].SleepOn? then 1 else 0) + Dequeues(ops[1..])
  }

  /** A thread at position k of the ready queue moves up one place per dequeue and is never overtaken. */
  lemma StepMovesUp(s: Sched, op: Op, k: nat)
    requires Inv(s) && Enabled(s, op) && k < |s.ready|
    ensures var t := Apply(s, op);
            if op.Yield? || op.SleepOn? then
              if k == 0 then t.cur == s.ready[0] else k - 1 < |t.ready| && t.ready[k - 1] == s.ready[k]
            else k < |t.ready| && t.ready[k] == s.ready[k]
  {
    match op {
      case Wakeup(ch) => WakeKeeps(s, ch, 1);
      case _ =>
    }
  }

  /** Whatever else is spawned or woken meanwhile, a READY thread at position k is still queued after
      k dequeues, and the dequeue after that runs it. */
  lemma {:induction false} RunsInTurn(s: Sched, ops: seq<Op>, k: nat)
    requires Inv(s) && k < |s.ready| && Runs(s, ops) && ops != []
    requires Dequeues(ops[..|ops| - 1]) == k && (ops[|ops| - 1].Yield? || ops[|ops| - 1].SleepOn?)
    ensures After(s, ops).cur == s.ready[k]
    decreases |ops|
  {
    hide Inv, Enabled, Apply;
    StepKeeps(s, ops[0]);
    StepMovesUp(s, ops[0], k);
    var t := Apply(s, ops[0]);
    if |ops| == 1 {
      assert ops[..0] == [];
      assert After(t, ops[1..]) == t;
    } else {
      var front := ops[..|ops| - 1];
      assert front[0] == ops[0] && front[1..] == ops[1..][..|ops| - 2];
      var d := if ops[0].Yield? || ops[0].SleepOn? then 1 else 0;
      assert Dequeues(front) == d + Dequeues(front[1..]);
      RunsInTurn(t, ops[1..], k - d);
    }
  }

  // ---- The idle thread ----

  /** `idle` is runnable. */
  ghost predicate Awake(s: Sched, idle: nat) {
    WellFormed(s) && 1 <= idle < NUM_IDS && (s.st[idle] == Ready || s.st[idle] == Run)
  }

  /** Only threads other than idle ever sleep, and only fresh ids are spawned. */
  ghost predicate IdleOnlyYields(s: Sched, ops: seq<Op>, idle: nat)
    requires Inv(s)
    decreases |ops|
  {
    ops != [] ==>
      && (ops[0].SleepOn? ==> s.cur != idle)
      && (ops[0].Spawn? ==> Enabled(s, ops[0]))
      && (Enabled(s, ops[0]) ==> (StepKeeps(s, ops[0]); IdleOnlyYields(Apply(s, ops[0]), ops[1..], idle)))
  }

  lemma AwakeKept(s: Sched, op: Op, idle: nat)
    requires Inv(s) && Enabled(s, op) && Awake(s, idle) && (op.SleepOn? ==> s.cur != idle)
    ensures Awake(Apply(s, op), idle)
  {
    StepKeeps(s, op);
    match op {
      case Wakeup(ch) => WakeKeeps(s, ch, 1);
      case _ =>
    }
  }

  /** With one thread that only ever yields, no thread_sleep finds the ready queue empty: every run the
      threads can ask for goes through. */
  lemma {:induction false} NeverStuck(s: Sched, ops: seq<Op>, idle: nat)
    requires Inv(s) && Awake(s, idle) && IdleOnlyYields(s, ops, idle)
    ensures Runs(s, ops)
    decreases |ops|
  {
    if ops != [] {
      if ops[0].SleepOn? {
        assert idle in s.ready;
      }
      assert Enabled(s, ops[0]);
      StepKeeps(s, ops[0]);
      AwakeKept(s, ops[0], idle);
      NeverStuck(Apply(s, ops[0]), ops[1..], idle);
    }
  }
}
