/** The index-linked thread queues of kern/thread/PTQueueInit/PTQueueInit.c: NUM_IDS sleep queues
    and the ready queue, threaded through the prev and next fields of the thread control blocks. */
module ThreadQueue {
  import opened Lists
  import opened Params

  /** The i-th member, or the null index past either end. */
  function At(q: seq<nat>, i: int): nat {
    if 0 <= i < |q| then q[i] else NUM_IDS
  }

  /** The i-th member links to its neighbours. */
  ghost predicate LinkedAt(q: seq<nat>, prev: seq<nat>, next: seq<nat>, i: nat)
    requires |prev| == |next| == NUM_IDS && i < |q|
  {
    q[i] < NUM_IDS && next[q[i]] == At(q, i + 1) && prev[q[i]] == At(q, i - 1)
  }

  /** The list from `head` to `tail` is exactly q, linked both ways and closed by the null index. */
  ghost predicate Linked(q: seq<nat>, head: nat, tail: nat, prev: seq<nat>, next: seq<nat>) {
    && |prev| == |next| == NUM_IDS && Distinct(q)
    && head == At(q, 0) && tail == At(q, |q| - 1)
    && (forall i | 0 <= i < |q| :: LinkedAt(q, prev, next, i))
  }

  ghost predicate Disjoint(q: seq<nat>, r: seq<nat>) {
    forall i, j | 0 <= i < |q| && 0 <= j < |r| :: q[i] != r[j]
  }

  /** All queues linked, no thread in two of them. */
  ghost predicate Table(qs: seq<seq<nat>>, head: seq<nat>, tail: seq<nat>, prev: seq<nat>, next: seq<nat>) {
    && |head| == |tail| == |qs| == NUM_IDS + 1 && |prev| == |next| == NUM_IDS
    && (forall c | 0 <= c <= NUM_IDS :: Linked(qs[c], head[c], tail[c], prev, next))
    && (forall c, d | 0 <= c <= NUM_IDS && 0 <= d <= NUM_IDS && c != d :: Disjoint(qs[c], qs[d]))
  }

  /** A thread in no queue. */
  ghost predicate Unqueued(qs: seq<seq<nat>>, pid: nat) {
    forall c | 0 <= c < |qs| :: pid !in qs[c]
  }

  /** Links that differ only at threads of S. */
  ghost predicate SameOutside(prev: seq<nat>, next: seq<nat>, prev': seq<nat>, next': seq<nat>, S: set<nat>) {
    && |prev| == |next| == |prev'| == |next'| == NUM_IDS
    && forall p | 0 <= p < NUM_IDS && p !in S :: prev'[p] == prev[p] && next'[p] == next[p]
  }

  /** Links changed only outside q leave q linked. */
  lemma LinkedElsewhere(q: seq<nat>, h: nat, t: nat, prev: seq<nat>, next: seq<nat>,
                        prev': seq<nat>, next': seq<nat>, S: set<nat>)
    requires Linked(q, h, t, prev, next) && SameOutside(prev, next, prev', next', S)
    requires forall i | 0 <= i < |q| :: q[i] !in S
    ensures Linked(q, h, t, prev', next')
  {
    forall i | 0 <= i < |q|
      ensures LinkedAt(q, prev', next', i)
    {
      assert LinkedAt(q, prev, next, i);
    }
  }

  /** Replacing one queue, with links touched only at S, keeps the table. */
  lemma TableUpdate(qs: seq<seq<nat>>, head: seq<nat>, tail: seq<nat>, prev: seq<nat>, next: seq<nat>,
                    c: nat, q: seq<nat>, h: nat, t: nat, prev': seq<nat>, next': seq<nat>, S: set<nat>)
    requires Table(qs, head, tail, prev, next) && c <= NUM_IDS && Linked(q, h, t, prev', next')
    requires SameOutside(prev, next, prev', next', S)
    requires forall d | 0 <= d <= NUM_IDS && d != c :: Disjoint(q, qs[d])
    requires forall d, i | 0 <= d <= NUM_IDS && d != c && 0 <= i < |qs[d]| :: qs[d][i] !in S
    ensures Table(qs[c := q], head[c := h], tail[c := t], prev', next')
  {
    hide Linked, Disjoint;
    forall d | 0 <= d <= NUM_IDS && d != c
      ensures Linked(qs[d], head[d], tail[d], prev', next') && Disjoint(qs[d], q)
    {
      LinkedElsewhere(qs[d], head[d], tail[d], prev, next, prev', next', S);
      DisjointSym(q, qs[d]);
    }
  }

  lemma DisjointSym(q: seq<nat>, r: seq<nat>)
    requires Disjoint(q, r)
    ensures Disjoint(r, q)
  {
  }

  /** The prev links after the member at position k is cut out. */
  function CutPrev(q: seq<nat>, prev: seq<nat>, k: nat): seq<nat>
    requires |prev| == NUM_IDS && k < |q|
  {
    Set(if k + 1 < |q| then Set(prev, q[k + 1], At(q, k - 1)) else prev, q[k], NUM_IDS)
  }

  function CutNext(q: seq<nat>, next: seq<nat>, k: nat): seq<nat>
    requires |next| == NUM_IDS && k < |q|
  {
    Set(if k > 0 then Set(next, q[k - 1], At(q, k + 1)) else next, q[k], NUM_IDS)
  }

  function Set(s: seq<nat>, i: nat, v: nat): (r: seq<nat>)
    ensures |r| == |s|
  {
    if i < |s| then s[i := v] else s
  }

  /** Appending a thread to a queue. */
  lemma AppendLinks(q: seq<nat>, h: nat, t: nat, prev: seq<nat>, next: seq<nat>, pid: nat)
    requires Linked(q, h, t, prev, next) && pid < NUM_IDS && pid !in q
    ensures Linked(q + [pid], At(q + [pid], 0), pid, Set(prev, pid, t), Set(Set(next, t, pid), pid, NUM_IDS))
    ensures if q == [] then t == NUM_IDS else t < NUM_IDS && t in q && At(q + [pid], 0) == h
  {
    var q', prev', next' := q + [pid], Set(prev, pid, t), Set(Set(next, t, pid), pid, NUM_IDS);
    if q != [] {
      assert LinkedAt(q, prev, next, |q| - 1);
    }
    forall i | 0 <= i < |q'|
      ensures LinkedAt(q', prev', next', i)
    {
      if i < |q| {
        assert LinkedAt(q, prev, next, i);
        assert i < |q| - 1 ==> q[i] != t;
      }
    }
  }

  /** Cutting out the member at position k; taking the head is the case k == 0. */
  lemma CutLinks(q: seq<nat>, h: nat, t: nat, prev: seq<nat>, next: seq<nat>, k: nat)
    requires Linked(q, h, t, prev, next) && k < |q|
    ensures q[k] < NUM_IDS && prev[q[k]] == At(q, k - 1) && next[q[k]] == At(q, k + 1)
    ensures At(q, k - 1) == NUM_IDS <==> k == 0
    ensures At(q, k + 1) == NUM_IDS <==> k == |q| - 1
    ensures 0 < k < |q| - 1 ==> At(q, k - 1) != At(q, k + 1)
    ensures forall i | 0 <= i < |q| :: q[i] < NUM_IDS
    ensures Linked(Without(q, k), if k == 0 then At(q, 1) else h, if k == |q| - 1 then At(q, k - 1) else t,
                   CutPrev(q, prev, k), CutNext(q, next, k))
  {
    hide LinkedAt, Distinct, Without, CutPrev, CutNext;
    CutEnds(q, h, t, prev, next, k);
    CutShape(q, prev, next, k);
    forall i | 0 <= i < |q| - 1
      ensures LinkedAt(Without(q, k), CutPrev(q, prev, k), CutNext(q, next, k), i)
    {
      assert LinkedAt(q, prev, next, if i < k then i else i + 1);
      CutLinkedAt(q, prev, next, k, i);
    }
  }

  lemma CutShape(q: seq<nat>, prev: seq<nat>, next: seq<nat>, k: nat)
    requires |prev| == |next| == NUM_IDS && Distinct(q) && k < |q| && q[k] < NUM_IDS
    ensures |Without(q, k)| == |q| - 1 && Distinct(Without(q, k))
    ensures forall i :: At(Without(q, k), i) == if 0 <= i < k then q[i] else At(q, if i < 0 then i else i + 1)
    ensures |CutPrev(q, prev, k)| == |CutNext(q, next, k)| == NUM_IDS
  {
  }

  lemma CutLinkedAt(q: seq<nat>, prev: seq<nat>, next: seq<nat>, k: nat, i: nat)
    requires |prev| == |next| == NUM_IDS && Distinct(q) && k < |q| && i < |q| - 1
    requires LinkedAt(q, prev, next, if i < k then i else i + 1)
    ensures |Without(q, k)| == |q| - 1 && |CutPrev(q, prev, k)| == |CutNext(q, next, k)| == NUM_IDS
    ensures LinkedAt(Without(q, k), CutPrev(q, prev, k), CutNext(q, next, k), i)
  {
    CutAt(q, prev, next, k, if i < k then i else i + 1);
  }

  /** The links of the member at position k. */
  lemma CutEnds(q: seq<nat>, h: nat, t: nat, prev: seq<nat>, next: seq<nat>, k: nat)
    requires Linked(q, h, t, prev, next) && k < |q|
    ensures q[k] < NUM_IDS && prev[q[k]] == At(q, k - 1) && next[q[k]] == At(q, k + 1)
    ensures At(q, k - 1) == NUM_IDS <==> k == 0
    ensures At(q, k + 1) == NUM_IDS <==> k == |q| - 1
    ensures 0 < k < |q| - 1 ==> At(q, k - 1) != At(q, k + 1)
    ensures forall i | 0 <= i < |q| :: q[i] < NUM_IDS
  {
    assert forall i | 0 <= i < |q| :: LinkedAt(q, prev, next, i) ==> q[i] < NUM_IDS;
    assert LinkedAt(q, prev, next, k);
  }

  /** What cutting out position k does to the links of position j. */
  lemma CutAt(q: seq<nat>, prev: seq<nat>, next: seq<nat>, k: nat, j: nat)
    requires |prev| == |next| == NUM_IDS && Distinct(q) && k < |q| && j < |q| && j != k
    requires LinkedAt(q, prev, next, j)
    ensures CutPrev(q, prev, k)[q[j]] == if j == k + 1 then At(q, k - 1) else At(q, j - 1)
    ensures CutNext(q, next, k)[q[j]] == if j + 1 == k then At(q, k + 1) else At(q, j + 1)
  {
  }

  /** tqueue_enqueue on the table. */
  lemma EnqueueTable(qs: seq<seq<nat>>, head: seq<nat>, tail: seq<nat>, prev: seq<nat>, next: seq<nat>, c: nat, pid: nat)
    requires Table(qs, head, tail, prev, next) && c <= NUM_IDS && pid < NUM_IDS && Unqueued(qs, pid)
    ensures tail[c] <= NUM_IDS
    ensures Table(qs[c := qs[c] + [pid]], if tail[c] == NUM_IDS then head[c := pid] else head, tail[c := pid],
                  Set(prev, pid, tail[c]), Set(Set(next, tail[c], pid), pid, NUM_IDS))
  {
    hide Linked, Set;
    var q, h, t := qs[c], head[c], tail[c];
    AppendLinks(q, h, t, prev, next, pid);
    var S := {pid} + (set x | x in q);
    SetOutside(prev, next, pid, t, S);
    TableUpdate(qs, head, tail, prev, next, c, q + [pid], At(q + [pid], 0), pid,
                Set(prev, pid, t), Set(Set(next, t, pid), pid, NUM_IDS), S);
    assert q != [] ==> head[c := h] == head;
  }

  lemma SetOutside(prev: seq<nat>, next: seq<nat>, pid: nat, t: nat, S: set<nat>)
    requires |prev| == |next| == NUM_IDS && pid in S && (t in S || t >= NUM_IDS)
    ensures SameOutside(prev, next, Set(prev, pid, t), Set(Set(next, t, pid), pid, NUM_IDS), S)
  {
  }

  /** tqueue_remove, and tqueue_dequeue for k == 0, on the table. */
  lemma CutTable(qs: seq<seq<nat>>, head: seq<nat>, tail: seq<nat>, prev: seq<nat>, next: seq<nat>, c: nat, k: nat)
    requires Table(qs, head, tail, prev, next) && c <= NUM_IDS && k < |qs[c]|
    ensures var q := qs[c];
            Table(qs[c := Without(q, k)], head[c := if k == 0 then At(q, 1) else head[c]],
                  tail[c := if k == |q| - 1 then At(q, k - 1) else tail[c]],
                  CutPrev(q, prev, k), CutNext(q, next, k))
  {
    hide Linked, CutPrev, CutNext;
    var q := qs[c];
    CutLinks(q, head[c], tail[c], prev, next, k);
    var S := set x | x in q;
    CutOutside(q, prev, next, k, S);
    forall d | 0 <= d <= NUM_IDS && d != c
      ensures Disjoint(Without(q, k), qs[d])
    {
      assert Disjoint(q, qs[d]);
    }
    TableUpdate(qs, head, tail, prev, next, c, Without(q, k), if k == 0 then At(q, 1) else head[c],
                if k == |q| - 1 then At(q, k - 1) else tail[c], CutPrev(q, prev, k), CutNext(q, next, k), S);
  }

  lemma CutOutside(q: seq<nat>, prev: seq<nat>, next: seq<nat>, k: nat, S: set<nat>)
    requires |prev| == |next| == NUM_IDS && k < |q| && forall i | 0 <= i < |q| :: q[i] in S
    ensures SameOutside(prev, next, CutPrev(q, prev, k), CutNext(q, next, k), S)
  {
  }

  class Queues {
    var head: seq<nat>
    var tail: seq<nat>
    var prev: seq<nat>
    var next: seq<nat>
    ghost var qs: seq<seq<nat>>   // the queues as lists of thread ids

    ghost predicate Valid()
      reads this
    {
      Table(qs, head, tail, prev, next)
    }

    /** tqueue_init, over control blocks whose links are null. */
    constructor ()
      ensures Valid() && qs == seq(NUM_IDS + 1, _ => [])
    {
      head, tail := seq(NUM_IDS + 1, _ => NUM_IDS), seq(NUM_IDS + 1, _ => NUM_IDS);
      prev, next := seq(NUM_IDS, _ => NUM_IDS), seq(NUM_IDS, _ => NUM_IDS);
      qs := seq(NUM_IDS + 1, _ => []);
    }

    /** tqueue_enqueue: append at the tail; every other queue keeps its list. */
    method Enqueue(chid: nat, pid: nat)
      requires Valid() && chid <= NUM_IDS && pid < NUM_IDS && Unqueued(qs, pid)
      modifies this
      ensures Valid() && qs == old(qs)[chid := old(qs)[chid] + [pid]]
    {
      hide Linked;
      EnqueueTable(qs, head, tail, prev, next, chid, pid);
      var t := tail[chid];
      if t == NUM_IDS {
        prev := prev[pid := NUM_IDS];
        next := next[pid := NUM_IDS];
        head := head[chid := pid];
        tail := tail[chid := pid];
      } else {
        next := next[t := pid];
        prev := prev[pid := t];
        next := next[pid := NUM_IDS];
        tail := tail[chid := pid];
      }
      qs := qs[chid := qs[chid] + [pid]];
    }

    /** tqueue_dequeue: take the head, or NUM_IDS from an empty queue. */
    method Dequeue(chid: nat) returns (pid: nat)
      requires Valid() && chid <= NUM_IDS
      modifies this
      ensures Valid()
      ensures old(qs)[chid] == [] ==> pid == NUM_IDS && qs == old(qs)
      ensures old(qs)[chid] != [] ==>
        pid == old(qs)[chid][0] < NUM_IDS && qs == old(qs)[chid := old(qs)[chid][1..]]
    {
      hide Linked, Disjoint;
      ghost var q := qs[chid];
      pid := NUM_IDS;
      var h := head[chid];
      assert Linked(q, h, tail[chid], prev, next);
      HeadOf(q, h, tail[chid], prev, next);
      if h != NUM_IDS {
        CutLinks(q, h, tail[chid], prev, next, 0);
        CutTable(qs, head, tail, prev, next, chid, 0);
        assert Without(q, 0) == q[1..];
        pid := h;
        var n := next[h];
        if n == NUM_IDS {
          head := head[chid := NUM_IDS];
          tail := tail[chid := NUM_IDS];
        } else {
          prev := prev[n := NUM_IDS];
          head := head[chid := n];
        }
        prev := prev[pid := NUM_IDS];
        next := next[pid := NUM_IDS];
        qs := qs[chid := q[1..]];
      }
    }

    /** tqueue_remove: cut one member out in place. */
    method Remove(chid: nat, pid: nat)
      requires Valid() && chid <= NUM_IDS && pid in qs[chid]
      modifies this
      ensures Valid()
      ensures exists k | 0 <= k < |old(qs)[chid]| && old(qs)[chid][k] == pid ::
        qs == old(qs)[chid := Without(old(qs)[chid], k)]
    {
      hide Linked, Disjoint;
      ghost var q := qs[chid];
      ghost var k := IndexOf(q, pid);
      assert Linked(q, head[chid], tail[chid], prev, next);
      CutLinks(q, head[chid], tail[chid], prev, next, k);
      CutTable(qs, head, tail, prev, next, chid, k);
      var p := prev[pid];
      var n := next[pid];
      if p == NUM_IDS {
        if n == NUM_IDS {
          head := head[chid := NUM_IDS];
          tail := tail[chid := NUM_IDS];
        } else {
          prev := prev[n := NUM_IDS];
          head := head[chid := n];
        }
      } else {
        if n == NUM_IDS {
          next := next[p := NUM_IDS];
          tail := tail[chid := p];
        } else {
          if p != n {
            next := next[p := n];
          }
          prev := prev[n := p];
        }
      }
      prev := prev[pid := NUM_IDS];
      next := next[pid := NUM_IDS];
      qs := qs[chid := Without(q, k)];
    }
  }

  lemma HeadOf(q: seq<nat>, h: nat, t: nat, prev: seq<nat>, next: seq<nat>)
    requires Linked(q, h, t, prev, next)
    ensures q == [] <==> h == NUM_IDS
    ensures q != [] ==> h == q[0] < NUM_IDS
  {
    if q != [] {
      assert LinkedAt(q, prev, next, 0);
    }
  }
}
