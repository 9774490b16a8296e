/** The quota tree of kern/pmm/MContainer/MContainer.c. Container c has at most three children, at
    indices 3c + 1 to 3c + 3. A split charges the child's whole quota to its parent at once; an
    allocation charges one page, even if palloc then finds none. */
module Container {
  import opened Params
  import opened PageAlloc

  datatype Cont = Cont(quota: int, usage: int, parent: nat, nchildren: nat, used: bool)

  /** The C conversions between int and unsigned int. */
  function ToInt(x: nat): int {
    if x < TWO31 then x else x - TWO32
  }

  function ToUnsigned(x: int): nat {
    x % TWO32
  }

  /** The containers, the container each allocated page was charged to, and how many charges of each
      container got no page. */
  datatype State = State(cs: seq<Cont>, owner: map<nat, nat>, lost: seq<nat>)

  /** The j-th child of c, j from 1 to MAX_CHILDREN. */
  function Child(c: nat, j: nat): nat {
    3 * c + j
  }

  function ParentOf(c: nat): nat
    requires c > 0
  {
    (c - 1) / 3
  }

  /** Which child of its parent c is. */
  function Rank(c: nat): nat
    requires c > 0
  {
    (c - 1) % 3 + 1
  }

  lemma ChildRank(c: nat, j: nat)
    requires 1 <= j <= MAX_CHILDREN
    ensures Child(c, j) > 0 && ParentOf(Child(c, j)) == c && Rank(Child(c, j)) == j
  {
  }

  lemma RankChild(c: nat)
    requires c > 0
    ensures 1 <= Rank(c) <= MAX_CHILDREN && Child(ParentOf(c), Rank(c)) == c && ParentOf(c) < c
  {
  }

  /** A container exists exactly if its parent does and has counted it. */
  ghost predicate NodeOk(cs: seq<Cont>, c: nat)
    requires c < |cs| == NUM_IDS
  {
    && (c > 0 ==>
          && (cs[c].used <==> cs[ParentOf(c)].used && Rank(c) <= cs[ParentOf(c)].nchildren)
          && (cs[c].used ==> cs[c].parent == ParentOf(c)))
    && (cs[c].used ==> cs[c].nchildren <= MAX_CHILDREN)
    && (cs[c].used && cs[c].nchildren > 0 ==> Child(c, cs[c].nchildren) < NUM_IDS)
  }

  function QuotaAt(cs: seq<Cont>, c: nat): int {
    if c < |cs| then cs[c].quota else 0
  }

  /** The quotas of the first k children of c. */
  function ChildQuota(cs: seq<Cont>, c: nat, k: nat): int {
    if k == 0 then 0 else ChildQuota(cs, c, k - 1) + QuotaAt(cs, Child(c, k))
  }

  ghost function Held(owner: map<nat, nat>, c: nat): set<nat> {
    set p | p in owner && owner[p] == c
  }

  /** A container's books: every unit of usage is a page held, a child's quota or a lost charge. */
  ghost predicate BooksOk(s: State, c: nat)
    requires |s.cs| == |s.lost| == NUM_IDS && c < NUM_IDS
  {
    if s.cs[c].used then
      && 0 <= s.cs[c].usage <= s.cs[c].quota < TWO31
      && s.cs[c].usage == |Held(s.owner, c)| + ChildQuota(s.cs, c, s.cs[c].nchildren) + s.lost[c]
    else Held(s.owner, c) == {} && s.lost[c] == 0
  }

  /** What is left to hand out, over the first n containers, and the charges lost. */
  function Slack(cs: seq<Cont>, n: nat): int
    requires n <= |cs|
  {
    if n == 0 then 0 else Slack(cs, n - 1) + (if cs[n - 1].used then cs[n - 1].quota - cs[n - 1].usage else 0)
  }

  function Sum(xs: seq<nat>, n: nat): nat
    requires n <= |xs|
  {
    if n == 0 then 0 else Sum(xs, n - 1) + xs[n - 1]
  }

  ghost predicate Inv(s: State) {
    && |s.cs| == |s.lost| == NUM_IDS && s.cs[0].used
    && (forall c | 0 <= c < NUM_IDS :: NodeOk(s.cs, c))
    && (forall c | 0 <= c < NUM_IDS :: BooksOk(s, c))
    && (forall p | p in s.owner :: s.owner[p] < NUM_IDS)
    && |s.owner| + Slack(s.cs, NUM_IDS) + Sum(s.lost, NUM_IDS) == s.cs[0].quota
  }

  // ---- Steps ----

  function ChildIndex(cs: seq<Cont>, id: nat): nat
    requires id < |cs|
  {
    Child(id, cs[id].nchildren + 1)
  }

  /** container_can_consume: the sum is unsigned, so it wraps at 2^32. */
  predicate CanConsume(usage: int, quota: int, n: nat) {
    !((ToUnsigned(usage) + n) % TWO32 > ToUnsigned(quota))
  }

  /** What sys_spawn checks before a split, n being the unsigned quota it was passed: the quota fits, the
      id range has room for all three children, and there are fewer than three. */
  predicate SpawnCheck(s: State, id: nat, n: nat) {
    && id < |s.cs| && s.cs[id].used && n < TWO32 && CanConsume(s.cs[id].usage, s.cs[id].quota, n)
    && Child(id, 1 + MAX_CHILDREN) <= NUM_IDS && s.cs[id].nchildren < MAX_CHILDREN
  }

  /** What the checks are for: the quota fits without wrap-around. */
  ghost predicate CanSplit(s: State, id: nat, n: nat) {
    && id < |s.cs| && s.cs[id].used && s.cs[id].usage + n <= s.cs[id].quota
    && Child(id, 1 + MAX_CHILDREN) <= NUM_IDS && s.cs[id].nchildren < MAX_CHILDREN
  }

  function Split(s: State, id: nat, n: nat): State
    requires id < |s.cs| && ChildIndex(s.cs, id) < |s.cs|
  {
    var child := ChildIndex(s.cs, id);
    var cs := s.cs[child := Cont(ToInt(n % TWO32), 0, id, 0, true)];
    var usage := ToInt((ToUnsigned(cs[id].usage) + n) % TWO32);
    s.(cs := cs[id := cs[id].(usage := usage, nchildren := s.cs[id].nchildren + 1)])
  }

  /** container_alloc, where palloc returned r. */
  function Alloc(s: State, id: nat, r: nat): State
    requires id < |s.cs| && id < |s.lost|
  {
    if s.cs[id].usage == s.cs[id].quota then s else
      var cs := s.cs[id := s.cs[id].(usage := s.cs[id].usage + 1)];
      if r == 0 then s.(cs := cs, lost := s.lost[id := s.lost[id] + 1]) else s.(cs := cs, owner := s.owner[r := id])
  }

  /** container_free of an allocated page, whoever holds it. */
  function Free(s: State, id: nat, p: nat): State
    requires id < |s.cs|
  {
    var usage := if s.cs[id].usage > 0 then s.cs[id].usage - 1 else s.cs[id].usage;
    s.(cs := s.cs[id := s.cs[id].(usage := usage)], owner := s.owner - {p})
  }

  // ---- Sums ----

  lemma {:induction false} SlackUpdate(cs: seq<Cont>, n: nat, c: nat, x: Cont)
    requires n <= |cs| && c < |cs|
    ensures Slack(cs[c := x], n) == Slack(cs, n)
              + (if c < n then (if x.used then x.quota - x.usage else 0) - (if cs[c].used then cs[c].quota - cs[c].usage else 0)
                 else 0)
  {
    if n > 0 {
      SlackUpdate(cs, n - 1, c, x);
    }
  }

  lemma {:induction false} SumUpdate(xs: seq<nat>, n: nat, c: nat, x: nat)
    requires n <= |xs| && c < |xs|
    ensures Sum(xs[c := x], n) == Sum(xs, n) + (if c < n then x - xs[c] else 0)
  {
    if n > 0 {
      SumUpdate(xs, n - 1, c, x);
    }
  }

  lemma {:induction false} SlackNonNegative(s: State, n: nat)
    requires Inv(s) && n <= NUM_IDS
    ensures Slack(s.cs, n) >= 0
  {
    if n > 0 {
      SlackNonNegative(s, n - 1);
      assert BooksOk(s, n - 1);
    }
  }

  /** A change that spares the quotas of c's children keeps their sum. */
  lemma {:induction false} SameChildQuota(cs: seq<Cont>, cs': seq<Cont>, c: nat, k: nat)
    requires forall j | 1 <= j <= k :: QuotaAt(cs', Child(c, j)) == QuotaAt(cs, Child(c, j))
    ensures ChildQuota(cs', c, k) == ChildQuota(cs, c, k)
  {
    if k > 0 {
      SameChildQuota(cs, cs', c, k - 1);
    }
  }

  // ---- Split ----

  /** The new index was free: split never reuses one. */
  lemma SplitIndexIsFree(s: State, id: nat, n: nat)
    requires Inv(s) && CanSplit(s, id, n)
    ensures var child := ChildIndex(s.cs, id);
            && 0 < child < NUM_IDS && child != id && !s.cs[child].used && ParentOf(child) == id
            && Rank(child) == s.cs[id].nchildren + 1
  {
    var child := ChildIndex(s.cs, id);
    ChildRank(id, s.cs[id].nchildren + 1);
    assert NodeOk(s.cs, child);
  }

  lemma SplitNodes(s: State, id: nat, n: nat, c: nat)
    requires Inv(s) && CanSplit(s, id, n) && c < NUM_IDS
    ensures ChildIndex(s.cs, id) < NUM_IDS && NodeOk(Split(s, id, n).cs, c)
  {
    hide BooksOk, Slack, Sum, ChildQuota, ParentOf, Rank, Child;
    SplitIndexIsFree(s, id, n);
    var child := ChildIndex(s.cs, id);
    assert NodeOk(s.cs, c) && NodeOk(s.cs, id) && NodeOk(s.cs, child);
    if c > 0 {
      RankChild(c);
      RankChild(child);
      assert ParentOf(c) == id && Rank(c) == Rank(child) ==> c == child;
    }
  }

  /** The children c already had keep their quotas. */
  lemma OldChildrenKept(s: State, id: nat, n: nat, c: nat)
    requires Inv(s) && CanSplit(s, id, n) && c < NUM_IDS && s.cs[c].used
    ensures ChildIndex(s.cs, id) < NUM_IDS
    ensures ChildQuota(Split(s, id, n).cs, c, s.cs[c].nchildren) == ChildQuota(s.cs, c, s.cs[c].nchildren)
  {
    hide BooksOk, Slack, Sum, ParentOf, Rank, Child, ChildQuota;
    SplitIndexIsFree(s, id, n);
    var t, child := Split(s, id, n), ChildIndex(s.cs, id);
    forall j | 1 <= j <= s.cs[c].nchildren
      ensures QuotaAt(t.cs, Child(c, j)) == QuotaAt(s.cs, Child(c, j))
    {
      assert NodeOk(s.cs, c);
      ChildRank(c, j);
      if Child(c, j) < NUM_IDS {
        assert NodeOk(s.cs, Child(c, j));
      }
    }
    SameChildQuota(s.cs, t.cs, c, s.cs[c].nchildren);
  }

  lemma SplitBooks(s: State, id: nat, n: nat, c: nat)
    requires Inv(s) && CanSplit(s, id, n) && c < NUM_IDS
    ensures ChildIndex(s.cs, id) < NUM_IDS && BooksOk(Split(s, id, n), c)
  {
    hide Slack, Sum, ParentOf, Rank, Child;
    SplitIndexIsFree(s, id, n);
    SplitValues(s, id, n);
    assert BooksOk(s, c);
    if s.cs[c].used {
      OldChildrenKept(s, id, n, c);
    }
  }

  lemma SplitKeeps(s: State, id: nat, n: nat)
    requires Inv(s) && CanSplit(s, id, n)
    ensures ChildIndex(s.cs, id) < NUM_IDS && Inv(Split(s, id, n))
  {
    hide NodeOk, BooksOk;
    SplitIndexIsFree(s, id, n);
    var t, child := Split(s, id, n), ChildIndex(s.cs, id);
    forall c | 0 <= c < NUM_IDS
      ensures NodeOk(t.cs, c) && BooksOk(t, c)
    {
      SplitNodes(s, id, n, c);
      SplitBooks(s, id, n, c);
    }
    SplitValues(s, id, n);
    var cs := s.cs[child := Cont(n, 0, id, 0, true)];
    SlackUpdate(s.cs, NUM_IDS, child, Cont(n, 0, id, 0, true));
    SlackUpdate(cs, NUM_IDS, id, t.cs[id]);
  }

  /** Nothing wraps when the quota fits. */
  lemma SplitValues(s: State, id: nat, n: nat)
    requires Inv(s) && CanSplit(s, id, n)
    ensures ToInt(n % TWO32) == n && ToInt((ToUnsigned(s.cs[id].usage) + n) % TWO32) == s.cs[id].usage + n
  {
    assert BooksOk(s, id);
  }

  /** The check answers correctly if and only if the sum does not wrap back to within the quota. */
  lemma CanConsumeExact(usage: int, quota: int, n: nat)
    requires 0 <= usage <= quota < TWO31 && n < TWO32
    ensures (CanConsume(usage, quota, n) <==> usage + n <= quota)
            <==> !(usage + n >= TWO32 && usage + n - TWO32 <= quota)
  {
    if usage + n >= TWO32 {
      assert (usage + n) % TWO32 == usage + n - TWO32;
    } else {
      assert (usage + n) % TWO32 == usage + n;
    }
  }

  /** When the checks pass, for a sum that does not wrap: the quota covers it, there are fewer than three
      children, and the three child ids are below NUM_IDS. */
  lemma CheckExact(s: State, id: nat, n: nat)
    requires Inv(s) && id < NUM_IDS && s.cs[id].used && s.cs[id].usage + n < TWO32
    ensures SpawnCheck(s, id, n) <==> s.cs[id].usage + n <= s.cs[id].quota && s.cs[id].nchildren < 3 && 3 * id + 3 < NUM_IDS
  {
    hide NodeOk, Slack, Sum, ChildQuota;
    assert BooksOk(s, id);
    assert (s.cs[id].usage + n) % TWO32 == s.cs[id].usage + n;
  }

  /** A checked split whose sum does not wrap takes n from the parent's quota for one new child, and changes
      no other container, no page and no lost charge. */
  lemma SplitEffect(s: State, id: nat, n: nat)
    requires Inv(s) && SpawnCheck(s, id, n) && s.cs[id].usage + n < TWO32
    ensures ChildIndex(s.cs, id) < NUM_IDS
    ensures var t, child := Split(s, id, n), 3 * id + 1 + s.cs[id].nchildren;
            && child < NUM_IDS == |t.cs| && child != id && !s.cs[child].used && t.owner == s.owner && t.lost == s.lost
            && t.cs[child].used && t.cs[child].quota == n && t.cs[child].usage == 0 && t.cs[child].parent == id
            && t.cs[id].usage == s.cs[id].usage + n && t.cs[id].quota == s.cs[id].quota
            && t.cs[id].nchildren == s.cs[id].nchildren + 1
            && forall c | 0 <= c < NUM_IDS && c != id && c != child :: t.cs[c] == s.cs[c]
  {
    hide NodeOk, BooksOk, Slack, Sum, ChildQuota, ToInt, ToUnsigned, CanConsume, ParentOf, Rank;
    CheckMeans(s, id, n);
    SplitIndexIsFree(s, id, n);
    SplitValues(s, id, n);
  }

  /** What a passed check says. */
  lemma CheckMeans(s: State, id: nat, n: nat)
    requires Inv(s) && SpawnCheck(s, id, n)
    ensures s.cs[id].usage + n < TWO32 ==> CanSplit(s, id, n)
    ensures s.cs[id].usage + n >= TWO32 ==> ToInt(n % TWO32) < 0
  {
    hide NodeOk, Slack, Sum, ChildQuota, CanConsume;
    assert BooksOk(s, id);
    CanConsumeExact(s.cs[id].usage, s.cs[id].quota, n);
    assert n % TWO32 == n;
  }

  /** A split that sys_spawn's checks let through keeps the books if and only if its sum does not wrap. */
  lemma SplitExact(s: State, id: nat, n: nat)
    requires Inv(s) && SpawnCheck(s, id, n)
    ensures ChildIndex(s.cs, id) < NUM_IDS
    ensures Inv(Split(s, id, n)) <==> s.cs[id].usage + n < TWO32
  {
    hide NodeOk, Slack, Sum, ChildQuota, ToInt, ToUnsigned, CanConsume;
    CheckMeans(s, id, n);
    ChildRank(id, s.cs[id].nchildren + 1);
    if s.cs[id].usage + n < TWO32 {
      SplitKeeps(s, id, n);
    } else {
      var child := ChildIndex(s.cs, id);
      assert !BooksOk(Split(s, id, n), child);
    }
  }

  // ---- Alloc and free ----

  /** Changing only a container's usage keeps the tree and every sum of quotas. */
  lemma UsageKeepsTree(cs: seq<Cont>, id: nat, u: int, c: nat)
    requires |cs| == NUM_IDS && id < NUM_IDS && c < NUM_IDS && NodeOk(cs, c)
    ensures NodeOk(cs[id := cs[id].(usage := u)], c)
    ensures ChildQuota(cs[id := cs[id].(usage := u)], c, cs[c].nchildren) == ChildQuota(cs, c, cs[c].nchildren)
  {
    SameChildQuota(cs, cs[id := cs[id].(usage := u)], c, cs[c].nchildren);
  }

  lemma AllocBooks(s: State, id: nat, r: nat, c: nat)
    requires Inv(s) && id < NUM_IDS && s.cs[id].used && r !in s.owner && s.cs[id].usage != s.cs[id].quota && c < NUM_IDS
    ensures NodeOk(Alloc(s, id, r).cs, c) && BooksOk(Alloc(s, id, r), c)
  {
    hide NodeOk, Slack, Sum, ChildQuota, Held;
    assert BooksOk(s, c) && BooksOk(s, id);
    UsageKeepsTree(s.cs, id, s.cs[id].usage + 1, c);
    HeldMore(s.owner, r, id, c);
  }

  lemma HeldMore(owner: map<nat, nat>, r: nat, id: nat, c: nat)
    requires r !in owner
    ensures |Held(owner[r := id], c)| == |Held(owner, c)| + if c == id then 1 else 0
    ensures c != id ==> Held(owner[r := id], c) == Held(owner, c)
  {
    assert Held(owner[r := id], c) == Held(owner, c) + if c == id then {r} else {};
  }

  lemma HeldLess(owner: map<nat, nat>, p: nat, c: nat)
    requires p in owner
    ensures |Held(owner - {p}, c)| == |Held(owner, c)| - if c == owner[p] then 1 else 0
    ensures c != owner[p] ==> Held(owner - {p}, c) == Held(owner, c)
  {
    assert Held(owner - {p}, c) == Held(owner, c) - {p};
  }

  lemma AllocKeeps(s: State, id: nat, r: nat)
    requires Inv(s) && id < NUM_IDS && s.cs[id].used && r !in s.owner
    ensures Inv(Alloc(s, id, r))
  {
    hide NodeOk, BooksOk, Slack, Sum;
    if s.cs[id].usage != s.cs[id].quota {
      var t := Alloc(s, id, r);
      forall c | 0 <= c < NUM_IDS
        ensures NodeOk(t.cs, c) && BooksOk(t, c)
      {
        AllocBooks(s, id, r, c);
      }
      SlackUpdate(s.cs, NUM_IDS, id, t.cs[id]);
      SumUpdate(s.lost, NUM_IDS, id, s.lost[id] + 1);
      assert r != 0 ==> t.owner.Keys == s.owner.Keys + {r};
    }
  }

  lemma FreeKeeps(s: State, id: nat, p: nat)
    requires Inv(s) && id < NUM_IDS && p in s.owner && s.owner[p] == id
    ensures s.cs[id].used && s.cs[id].usage > 0 && Inv(Free(s, id, p))
  {
    hide NodeOk, Slack, Sum, ChildQuota, Held;
    assert BooksOk(s, id);
    HeldLess(s.owner, p, id);
    ChildQuotaNonNegative(s, id);
    var t := Free(s, id, p);
    forall c | 0 <= c < NUM_IDS
      ensures NodeOk(t.cs, c) && BooksOk(t, c)
    {
      assert BooksOk(s, c);
      UsageKeepsTree(s.cs, id, s.cs[id].usage - 1, c);
      HeldLess(s.owner, p, c);
    }
    SlackUpdate(s.cs, NUM_IDS, id, t.cs[id]);
    assert t.owner.Keys == s.owner.Keys - {p};
  }

  /** container_free does not look at who holds the page: the books stay right if and only if the
      container that frees an allocated page is the one that holds it. */
  lemma FreeExact(s: State, id: nat, p: nat)
    requires Inv(s) && id < NUM_IDS && p in s.owner
    ensures Inv(Free(s, id, p)) <==> s.owner[p] == id
  {
    hide NodeOk, Slack, Sum, ChildQuota;
    if s.owner[p] == id {
      FreeKeeps(s, id, p);
    } else {
      var c, t := s.owner[p], Free(s, id, p);
      assert BooksOk(s, c) && NodeOk(s.cs, c) && p in Held(s.owner, c);
      UsageKeepsTree(s.cs, id, t.cs[id].usage, c);
      HeldLess(s.owner, p, c);
      assert !BooksOk(t, c);
    }
  }

  lemma {:induction false} ChildQuotaAtLeast(s: State, c: nat, k: nat)
    requires Inv(s) && c < NUM_IDS && s.cs[c].used && k <= s.cs[c].nchildren
    ensures ChildQuota(s.cs, c, k) >= 0
  {
    hide Slack, Sum, Held, ParentOf, Rank, Child;
    if k > 0 {
      ChildQuotaAtLeast(s, c, k - 1);
      var d := Child(c, k);
      assert NodeOk(s.cs, c);
      ChildRank(c, k);
      if d < NUM_IDS {
        assert NodeOk(s.cs, d);
        assert BooksOk(s, d);
      }
    }
  }

  lemma ChildQuotaNonNegative(s: State, c: nat)
    requires Inv(s) && c < NUM_IDS && s.cs[c].used
    ensures ChildQuota(s.cs, c, s.cs[c].nchildren) >= 0
  {
    ChildQuotaAtLeast(s, c, s.cs[c].nchildren);
  }

  // ---- Consequences ----

  /** No container ever uses more than its quota, nor holds pages and children's quotas beyond its usage. */
  lemma WithinQuota(s: State, c: nat)
    requires Inv(s) && c < NUM_IDS && s.cs[c].used
    ensures |Held(s.owner, c)| + ChildQuota(s.cs, c, s.cs[c].nchildren) <= s.cs[c].usage <= s.cs[c].quota
  {
    assert BooksOk(s, c);
  }

  /** All containers together never hold more pages than the root's quota. */
  lemma TotalWithinRoot(s: State)
    requires Inv(s)
    ensures |s.owner| <= s.cs[0].quota
  {
    SlackNonNegative(s, NUM_IDS);
  }

  /** The containers as container_init leaves them. */
  function Fresh(quota: nat): State {
    State(seq(NUM_IDS, c => if c == 0 then Cont(quota, 0, 0, 0, true) else Cont(0, 0, 0, 0, false)), map[],
          seq(NUM_IDS, _ => 0))
  }

  lemma FreshOk(quota: nat)
    requires quota < TWO31
    ensures Inv(Fresh(quota))
  {
    var s := Fresh(quota);
    FreshSums(s.cs, s.lost, quota, NUM_IDS);
    forall c | 0 <= c < NUM_IDS
      ensures NodeOk(s.cs, c) && BooksOk(s, c)
    {
      if c > 0 {
        RankChild(c);
      }
      assert Held(s.owner, c) == {};
    }
  }

  /** The containers as kern_main leaves them: the root has split off 1000 pages each for the first two
      processes. */
  function Booted(q: nat): State {
    var s := Fresh(q);
    Split(Split(s, 0, 1000), 0, 1000)
  }

  lemma BootedOk(q: nat)
    requires 2000 <= q < TWO31
    ensures Inv(Booted(q))
  {
    hide NodeOk, BooksOk, Slack, Sum;
    FreshOk(q);
    SplitKeeps(Fresh(q), 0, 1000);
    SplitKeeps(Split(Fresh(q), 0, 1000), 0, 1000);
  }

  /** Process 2 after it was charged for page p. */
  function Charged(q: nat, p: nat): State {
    Alloc(Booted(q), 2, p)
  }

  lemma ChargedOk(q: nat, p: nat)
    requires 2000 <= q < TWO31 && p > 0
    ensures Inv(Charged(q, p)) && Charged(q, p).owner == map[p := 2]
    ensures Charged(q, p).cs[1] == Cont(1000, 0, 0, 0, true) && Charged(q, p).cs[2] == Cont(1000, 1, 0, 0, true)
  {
    hide Inv;
    BootedOk(q);
    assert Booted(q).cs[1] == Cont(1000, 0, 0, 0, true) && Booted(q).cs[2] == Cont(1000, 0, 0, 0, true);
    AllocKeeps(Booted(q), 2, p);
  }

  /** A wrapping split passes the checks: process 2, of quota 1000 and with one page in use, asks for
      2^32 - 1 pages and gets a child of quota -1, which no count of pages in use ever equals. */
  lemma WrappingSplit(q: nat, p: nat) returns (s: State, t: State)
    requires 2000 <= q < TWO31 && p > 0
    ensures s == Charged(q, p) && Inv(s) && SpawnCheck(s, 2, TWO32 - 1) && ChildIndex(s.cs, 2) == 7
    ensures t == Split(s, 2, TWO32 - 1) && |t.cs| == |t.lost| == NUM_IDS
    ensures !Inv(t) && t.cs[7].quota == -1 && t.cs[2].usage == 0
    ensures forall r :: Alloc(t, 7, r).cs[7].usage == 1
  {
    hide NodeOk, BooksOk, Slack, Sum, Charged;
    ChargedOk(q, p);
    s := Charged(q, p);
    SplitExact(s, 2, TWO32 - 1);
    t := Split(s, 2, TWO32 - 1);
  }

  /** Process 1 frees the page of process 2: the page is free, process 2 still pays for it. */
  lemma FreeOfAnothersPage(q: nat, p: nat) returns (s: State, t: State)
    requires 2000 <= q < TWO31 && p > 0
    ensures s == Charged(q, p) && Inv(s) && s.owner == map[p := 2]
    ensures t == Free(s, 1, p) && |t.cs| == NUM_IDS
    ensures !Inv(t) && t.owner == map[] && t.cs[2].usage == 1
  {
    hide Inv, Charged;
    ChargedOk(q, p);
    s := Charged(q, p);
    InvSizes(s);
    FreeExact(s, 1, p);
    t := Free(s, 1, p);
  }

  lemma InvSizes(s: State)
    requires Inv(s)
    ensures |s.cs| == |s.lost| == NUM_IDS
  {
  }

  // ---- Together with the page allocator, over runs ----

  datatype Memory = Memory(s: State, pages: Pages)

  ghost predicate Sized(m: Memory) {
    |m.s.cs| == |m.s.lost| == NUM_IDS && Shape(m.pages)
  }

  /** The allocated pages are exactly the pages charged to a container. */
  ghost predicate MemoryOk(m: Memory) {
    && Inv(m.s) && Shape(m.pages) && 0 !in m.s.owner
    && forall p :: p in m.s.owner <==> 0 <= p < |m.pages.taken| && m.pages.taken[p]
  }

  datatype Op = OpSplit(id: nat, n: nat) | OpAlloc(id: nat, r: nat) | OpFree(id: nat, p: nat)

  /** What the code lets happen. */
  ghost predicate Enabled(m: Memory, op: Op)
    requires Sized(m)
  {
    match op
    case OpSplit(id, n) => SpawnCheck(m.s, id, n)
    case OpAlloc(id, r) => id < NUM_IDS && m.s.cs[id].used && NextFit(m.pages, r)
    case OpFree(id, p) => id < NUM_IDS && p < |m.pages.taken|
  }

  /** The condition under which it keeps the books. */
  ghost predicate Sound(m: Memory, op: Op)
    requires Sized(m) && Enabled(m, op)
  {
    match op
    case OpSplit(id, n) => m.s.cs[id].usage + n < TWO32
    case OpAlloc(id, r) => true
    case OpFree(id, p) => m.pages.taken[p] ==> p in m.s.owner && m.s.owner[p] == id
  }

  /** container_alloc calls palloc only below the quota, and container_free ignores a free page. */
  ghost function Charge(m: Memory, op: Op): (r: Memory)
    requires Sized(m) && Enabled(m, op)
    ensures Sized(r)
  {
    match op
    case OpSplit(id, n) => m.(s := Split(m.s, id, n))
    case OpAlloc(id, r) =>
      if m.s.cs[id].usage == m.s.cs[id].quota then m
      else Memory(Alloc(m.s, id, r), AfterAlloc(m.pages, r))
    case OpFree(id, p) =>
      if !m.pages.taken[p] then m else Memory(Free(m.s, id, p), AfterFree(m.pages, p))
  }

  /** A step keeps the books if and only if it is sound. */
  lemma StepExact(m: Memory, op: Op)
    requires MemoryOk(m) && Sized(m) && Enabled(m, op)
    ensures MemoryOk(Charge(m, op)) <==> Sound(m, op)
  {
    hide Inv;
    match op {
      case OpSplit(id, n) => SplitExact(m.s, id, n);
      case OpAlloc(id, r) => AllocKeeps(m.s, id, r);
      case OpFree(id, p) =>
        if m.pages.taken[p] {
          FreeExact(m.s, id, p);
        }
    }
  }

  ghost predicate Runs(m: Memory, ops: seq<Op>)
    requires Sized(m)
    decreases |ops|
  {
    ops != [] ==> Enabled(m, ops[0]) && Runs(Charge(m, ops[0]), ops[1..])
  }

  ghost predicate SoundRun(m: Memory, ops: seq<Op>)
    requires Sized(m) && Runs(m, ops)
    decreases |ops|
  {
    ops != [] ==> Sound(m, ops[0]) && SoundRun(Charge(m, ops[0]), ops[1..])
  }

  /** The books are right in every state of the run. */
  ghost predicate StaysOk(m: Memory, ops: seq<Op>)
    requires Sized(m) && Runs(m, ops)
    decreases |ops|
  {
    MemoryOk(m) && (ops != [] ==> StaysOk(Charge(m, ops[0]), ops[1..]))
  }

  ghost function After(m: Memory, ops: seq<Op>): (r: Memory)
    requires Sized(m) && Runs(m, ops)
    ensures Sized(r)
    decreases |ops|
  {
    if ops == [] then m else After(Charge(m, ops[0]), ops[1..])
  }

  /** Over every run the code allows, the books are right throughout if and only if no split's sum wraps
      and every allocated page is freed by its holder. */
  lemma {:induction false} RunExact(m: Memory, ops: seq<Op>)
    requires MemoryOk(m) && Sized(m) && Runs(m, ops)
    ensures StaysOk(m, ops) <==> SoundRun(m, ops)
    decreases |ops|
  {
    hide Enabled, Sound, Charge, MemoryOk;
    if ops != [] {
      StepExact(m, ops[0]);
      if Sound(m, ops[0]) {
        RunExact(Charge(m, ops[0]), ops[1..]);
      }
    }
  }

  ghost predicate QuotasKept(s: State)
    requires |s.cs| == NUM_IDS
  {
    && |s.owner| <= s.cs[0].quota
    && forall c | 0 <= c < NUM_IDS && s.cs[c].used ::
         |Held(s.owner, c)| + ChildQuota(s.cs, c, s.cs[c].nchildren) <= s.cs[c].usage <= s.cs[c].quota
  }

  /** Then every container stays within its quota, and all of them together hold no more pages than the
      root was given. */
  lemma {:induction false} RunWithinQuota(m: Memory, ops: seq<Op>)
    requires MemoryOk(m) && Sized(m) && Runs(m, ops) && SoundRun(m, ops)
    ensures var t := After(m, ops);
            MemoryOk(t) && QuotasKept(t.s) && t.s.cs[0].quota == m.s.cs[0].quota
    decreases |ops|
  {
    hide Enabled, Sound, Charge;
    if ops == [] {
      TotalWithinRoot(m.s);
      forall c | 0 <= c < NUM_IDS && m.s.cs[c].used
        ensures |Held(m.s.owner, c)| + ChildQuota(m.s.cs, c, m.s.cs[c].nchildren) <= m.s.cs[c].usage <= m.s.cs[c].quota
      {
        WithinQuota(m.s, c);
      }
    } else {
      StepExact(m, ops[0]);
      RootQuotaKept(m, ops[0]);
      RunWithinQuota(Charge(m, ops[0]), ops[1..]);
    }
  }

  lemma RootQuotaKept(m: Memory, op: Op)
    requires MemoryOk(m) && Sized(m) && Enabled(m, op)
    ensures Charge(m, op).s.cs[0].quota == m.s.cs[0].quota
  {
    hide Inv, ToInt, ToUnsigned, CanConsume, NextFit;
  }

  class ContainerTable {
    const pages: PageTable
    var cs: seq<Cont>
    ghost var owner: map<nat, nat>
    ghost var lost: seq<nat>

    ghost function Abs(): Memory
      reads this, pages
    {
      Memory(State(cs, owner, lost), pages.Abs())
    }

    ghost predicate Valid()
      reads this, pages
    {
      MemoryOk(Abs()) && Sized(Abs())
    }

    /** container_init, after pmem_init: the root's quota is the number of usable pages. A 32-bit machine
        has fewer than 2^31 pages. */
    constructor (pt: PageTable)
      requires pt.Valid() && |pt.norm| < TWO31 && forall i | 0 <= i < |pt.taken| :: !pt.taken[i]
      ensures Valid() && pages == pt && owner == map[]
      ensures cs[0].quota == |UsableBelow(pt.Abs(), |pt.norm|)| && cs[0].usage == 0
    {
      var n := pt.CountUsable();
      UsableCount(pt.Abs(), |pt.norm|);
      pages := pt;
      cs := seq(NUM_IDS, c => if c == 0 then Cont(n, 0, 0, 0, true) else Cont(0, 0, 0, 0, false));
      owner, lost := map[], seq(NUM_IDS, _ => 0);
      new;
      FreshOk(n);
      assert State(cs, owner, lost) == Fresh(n);
    }

    /** sys_spawn's checks, then container_split: NUM_IDS if a check fails. */
    method Spawn(id: nat, n: nat) returns (child: nat)
      requires Valid() && id < |cs| && cs[id].used && n < TWO32
      modifies this
      ensures child == NUM_IDS <==> !old(SpawnCheck(Abs().s, id, n))
      ensures old(cs)[id].usage + n < TWO32 ==>
                (child != NUM_IDS <==> old(cs)[id].usage + n <= old(cs)[id].quota && old(cs)[id].nchildren < 3 && 3 * id + 3 < NUM_IDS)
      ensures old(cs)[id].usage + n < TWO32 && child != NUM_IDS ==>
                && child == 3 * id + 1 + old(cs)[id].nchildren && |cs| == NUM_IDS && child < NUM_IDS
                && cs[child].quota == n && cs[child].usage == 0 && cs[id].usage == old(cs)[id].usage + n
                && forall c | 0 <= c < NUM_IDS && c != id && c != child :: cs[c] == old(cs)[c]
      ensures child == NUM_IDS ==> Abs() == old(Abs())
      ensures child != NUM_IDS ==>
                && child < NUM_IDS == |old(cs)| == |cs| && !old(cs)[child].used && cs[child].used && cs[child].parent == id
                && old(Enabled(Abs(), OpSplit(id, n))) && Abs() == Charge(old(Abs()), OpSplit(id, n))
                && (Valid() <==> old(Sound(Abs(), OpSplit(id, n))))
    {
      hide Inv, ToInt, ToUnsigned;
      ghost var m := Abs();
      IdBounds(m.s, id);
      if cs[id].usage + n < TWO32 {
        CheckExact(m.s, id, n);
      }
      assert n % TWO32 == n;
      if (ToUnsigned(cs[id].usage) + n) % TWO32 > ToUnsigned(cs[id].quota) {
        return NUM_IDS;
      }
      if NUM_IDS < id * MAX_CHILDREN + 1 + MAX_CHILDREN {
        return NUM_IDS;
      }
      var nc := cs[id].nchildren;
      if nc == MAX_CHILDREN {
        return NUM_IDS;
      }
      StepExact(m, OpSplit(id, n));
      if cs[id].usage + n < TWO32 {
        SplitEffect(m.s, id, n);
      }
      ChildIsFree(m.s, id);
      child := id * MAX_CHILDREN + 1 + nc;
      cs := cs[child := Cont(ToInt(n), 0, id, 0, true)];
      cs := cs[id := cs[id].(usage := ToInt((ToUnsigned(cs[id].usage) + n) % TWO32))];
      cs := cs[id := cs[id].(nchildren := nc + 1)];
      assert cs == Charge(m, OpSplit(id, n)).s.cs;
      assert Abs() == Charge(m, OpSplit(id, n));
    }

    /** container_alloc. */
    method Alloc(id: nat) returns (r: nat)
      requires Valid() && id < |cs| && cs[id].used
      modifies this, pages
      ensures Valid()
      ensures old(cs)[id].usage == old(cs)[id].quota ==> r == 0 && Abs() == old(Abs())
      ensures old(cs)[id].usage != old(cs)[id].quota ==>
        && NextFit(old(Abs()).pages, r) && Abs() == Charge(old(Abs()), OpAlloc(id, r))
        && cs == old(cs)[id := old(cs)[id].(usage := old(cs)[id].usage + 1)]
        && owner == (if r == 0 then old(owner) else old(owner)[r := id])
    {
      hide Inv, NextFit;
      ghost var m := Abs();
      var u := cs[id].usage;
      var q := cs[id].quota;
      if u == q {
        return 0;
      }
      cs := cs[id := cs[id].(usage := u + 1)];
      r := pages.Palloc();
      StepExact(m, OpAlloc(id, r));
      if r == 0 {
        lost := lost[id := lost[id] + 1];
      } else {
        owner := owner[r := id];
      }
    }

    /** container_free, of any page. */
    method Free(id: nat, p: nat)
      requires Valid() && id < |cs| && p < |pages.taken|
      modifies this, pages
      ensures Abs() == Charge(old(Abs()), OpFree(id, p))
      ensures |pages.taken| == |old(pages.taken)| && !pages.taken[p] && p !in owner
      ensures old(pages.taken)[p] && old(cs)[id].usage > 0 ==> cs == old(cs)[id := old(cs)[id].(usage := old(cs)[id].usage - 1)]
      ensures !old(pages.taken)[p] || old(cs)[id].usage == 0 ==> cs == old(cs)
      ensures Valid() <==> old(Sound(Abs(), OpFree(id, p)))
    {
      hide Inv;
      StepExact(Abs(), OpFree(id, p));
      if pages.taken[p] {
        pages.Pfree(p);
        if cs[id].usage > 0 {
          cs := cs[id := cs[id].(usage := cs[id].usage - 1)];
        }
        owner := owner - {p};
      }
    }
  }

  lemma IdBounds(s: State, id: nat)
    requires Inv(s) && id < NUM_IDS && s.cs[id].used
    ensures s.cs[id].nchildren <= MAX_CHILDREN && 0 <= s.cs[id].usage <= s.cs[id].quota < TWO31
  {
    assert NodeOk(s.cs, id) && BooksOk(s, id);
  }

  lemma ChildIsFree(s: State, id: nat)
    requires Inv(s) && id < NUM_IDS && s.cs[id].used
    requires Child(id, 1 + MAX_CHILDREN) <= NUM_IDS && s.cs[id].nchildren < MAX_CHILDREN
    ensures var child := ChildIndex(s.cs, id); 0 < child < NUM_IDS && child != id && !s.cs[child].used
  {
    assert BooksOk(s, id);
    SplitIndexIsFree(s, id, 0);
  }

  lemma {:induction false} UsableCount(s: Pages, n: nat)
    ensures |UsableBelow(s, n)| <= n
  {
    if n > 0 {
      UsableCount(s, n - 1);
      assert UsableBelow(s, n) <= UsableBelow(s, n - 1) + {n - 1};
      assert UsableBelow(s, n) == UsableBelow(s, n - 1) + if n - 1 in UsableBelow(s, n) then {n - 1} else {};
    }
  }

  lemma {:induction false} FreshSums(cs: seq<Cont>, lost: seq<nat>, n: nat, k: nat)
    requires |cs| == |lost| == NUM_IDS && k <= NUM_IDS
    requires cs[0] == Cont(n, 0, 0, 0, true) && forall c | 1 <= c < NUM_IDS :: !cs[c].used
    requires forall c | 0 <= c < NUM_IDS :: lost[c] == 0
    ensures Slack(cs, k) == (if k == 0 then 0 else n) && Sum(lost, k) == 0
  {
    if k > 0 {
      FreshSums(cs, lost, n, k - 1);
    }
  }
}
