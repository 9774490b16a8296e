/** Next-fit allocation of physical pages (kern/pmm/MATOp/MATOp.c over kern/pmm/MATIntro/MATIntro.c). */
module PageAlloc {
  /** The allocation table and the remembered scan position. */
  datatype Pages = Pages(norm: seq<bool>, taken: seq<bool>, last: nat)

  ghost predicate Shape(s: Pages) {
    |s.norm| == |s.taken| > 0
  }

  /** A normal page nobody has. */
  predicate Usable(s: Pages, i: nat) {
    i < |s.norm| && i < |s.taken| && s.norm[i] && !s.taken[i]
  }

  /** No page between the scan position and n is usable. */
  ghost predicate Scanned(s: Pages, n: nat) {
    forall i | s.last < i < n :: !Usable(s, i)
  }

  lemma SmallMod(r: nat, n: nat)
    requires n > 0
    ensures r < n ==> r % n == r
    ensures 0 % n == 0
  {
  }

  /** The usable pages from page 1 up to n. */
  ghost function UsableBelow(s: Pages, n: nat): set<nat> {
    set i: nat | 1 <= i < n && Usable(s, i)
  }

  /** r is what palloc returns: the first usable page after the last one handed out, or 0. */
  ghost predicate NextFit(s: Pages, r: nat) {
    if r == 0 then Scanned(s, |s.norm|) else s.last < r && Usable(s, r) && Scanned(s, r)
  }

  function AfterAlloc(s: Pages, r: nat): Pages {
    if r == 0 || r >= |s.taken| then s.(last := 0) else s.(taken := s.taken[r := true], last := r)
  }

  function AfterFree(s: Pages, i: nat): Pages {
    if i < |s.taken| then s.(taken := s.taken[i := false]) else s
  }

  /** palloc's result is determined by the state. */
  lemma NextFitUnique(s: Pages, r: nat, q: nat)
    requires NextFit(s, r) && NextFit(s, q)
    ensures r == q
  {
  }

  /** Two failures in a row happen if and only if no usable page exists above page 0. */
  lemma TwoFailures(s: Pages, r: nat)
    requires Shape(s) && NextFit(s, 0) && NextFit(AfterAlloc(s, 0), r)
    ensures r == 0 <==> forall i | 1 <= i < |s.norm| :: !Usable(s, i)
  {
    assert forall i :: Usable(AfterAlloc(s, 0), i) == Usable(s, i);
  }

  // ---- Runs ----

  datatype Op = Alloc(result: nat) | Free(page: nat)

  ghost predicate Runs(s: Pages, ops: seq<Op>)
    decreases |ops|
  {
    ops != [] ==> (ops[0].Alloc? ==> NextFit(s, ops[0].result)) && Runs(Apply(s, ops[0]), ops[1..])
  }

  function Apply(s: Pages, op: Op): Pages {
    match op
    case Alloc(r) => AfterAlloc(s, r)
    case Free(i) => AfterFree(s, i)
  }

  function After(s: Pages, ops: seq<Op>): Pages
    decreases |ops|
  {
    if ops == [] then s else After(Apply(s, ops[0]), ops[1..])
  }

  /** While nobody frees it, a taken page stays taken and is not handed out again. */
  lemma {:induction false} HeldUntilFreed(s: Pages, ops: seq<Op>, p: nat)
    requires Shape(s) && Runs(s, ops) && 0 < p < |s.taken| && s.taken[p] && Free(p) !in ops
    ensures Alloc(p) !in ops
    ensures p < |After(s, ops).taken| && After(s, ops).taken[p]
    decreases |ops|
  {
    if ops != [] {
      assert ops[0] != Free(p) && ops[0] != Alloc(p);
      assert forall op :: op in ops <==> op == ops[0] || op in ops[1..];
      HeldUntilFreed(Apply(s, ops[0]), ops[1..], p);
    }
  }

  /** Over any run, a page handed out twice was freed in between; and every page handed out is normal. */
  lemma NoDoubleAlloc(s: Pages, first: nat, between: seq<Op>, again: nat)
    requires Shape(s) && first > 0 && Runs(s, [Alloc(first)] + between + [Alloc(again)])
    ensures s.norm == After(s, [Alloc(first)] + between).norm && first < |s.norm| && s.norm[first]
    ensures again == first ==> Free(first) in between
  {
    var ops := [Alloc(first)] + between + [Alloc(again)];
    assert ops[0] == Alloc(first) && ops[1..] == between + [Alloc(again)];
    SameNorm(s, [Alloc(first)] + between);
    var rest := between + [Alloc(again)];
    assert rest[|between|] == Alloc(again);
    if again == first && Free(first) !in between {
      HeldUntilFreed(AfterAlloc(s, first), rest, first);
    }
  }

  lemma {:induction false} SameNorm(s: Pages, ops: seq<Op>)
    ensures After(s, ops).norm == s.norm
    decreases |ops|
  {
    if ops != [] {
      SameNorm(Apply(s, ops[0]), ops[1..]);
    }
  }

  /** The scan goes on where it stopped: whatever is freed after palloc returned p, the next palloc that
      succeeds returns the first page above p that is usable then. (p is 0 after a failure.) */
  lemma NextAbove(s: Pages, p: nat, frees: seq<Op>, q: nat)
    requires Shape(s) && q > 0 && (forall op | op in frees :: op.Free?) && Runs(s, [Alloc(p)] + frees + [Alloc(q)])
    ensures var t := After(s, [Alloc(p)] + frees);
            p < q && Usable(t, q) && forall i | p < i < q :: !Usable(t, i)
  {
    var ops := [Alloc(p)] + frees + [Alloc(q)];
    assert ops[1..] == frees + [Alloc(q)] && ([Alloc(p)] + frees)[1..] == frees;
    FreesKeepPlace(AfterAlloc(s, p), frees, q);
  }

  lemma {:induction false} FreesKeepPlace(s: Pages, frees: seq<Op>, q: nat)
    requires (forall op | op in frees :: op.Free?) && Runs(s, frees + [Alloc(q)])
    ensures After(s, frees).last == s.last && NextFit(After(s, frees), q)
    decreases |frees|
  {
    var ops := frees + [Alloc(q)];
    if frees != [] {
      assert ops[0] == frees[0] && ops[1..] == frees[1..] + [Alloc(q)] && frees[0] in frees;
      FreesKeepPlace(Apply(s, frees[0]), frees[1..], q);
    }
  }

  /** A single failure says less. On any table whose only usable page p lies ahead of the scan, taking p,
      freeing it and asking again fails, although p is usable. */
  lemma OneFailureIsNotFull(s: Pages, p: nat)
    requires Shape(s) && s.last < p && forall i :: i >= 1 ==> (Usable(s, i) <==> i == p)
    ensures Runs(s, [Alloc(p), Free(p), Alloc(0)]) && Usable(After(s, [Alloc(p), Free(p)]), p)
  {
    var t, u := AfterAlloc(s, p), AfterFree(AfterAlloc(s, p), p);
    assert Usable(s, p) && NextFit(s, p);
    assert forall i :: Usable(u, i) ==> Usable(s, i);
    assert NextFit(u, 0);
    var ops := [Alloc(p), Free(p), Alloc(0)];
    assert ops[1..] == [Free(p), Alloc(0)] && ops[1..][1..] == [Alloc(0)] && [Alloc(0)][1..] == [];
    assert Runs(u, [Alloc(0)]) && Runs(t, ops[1..]);
    var two := [Alloc(p), Free(p)];
    assert two[1..] == [Free(p)] && [Free(p)][1..] == [];
    assert After(t, [Free(p)]) == u;
  }

  class PageTable {
    const norm: seq<bool>       // at_is_norm
    var taken: seq<bool>        // at_is_allocated
    var last: nat               // last_palloc_index

    ghost function Abs(): Pages
      reads this
    {
      Pages(norm, taken, last)
    }

    ghost predicate Valid()
      reads this
    {
      Shape(Abs())
    }

    /** The table as pmem_init leaves it: nothing allocated. */
    constructor (n: seq<bool>, from: nat)
      requires |n| > 0
      ensures Valid() && norm == n && last == from && forall i | 0 <= i < |taken| :: !taken[i]
    {
      norm := n;
      taken := seq(|n|, _ => false);
      last := from;
    }

    /** palloc. */
    method Palloc() returns (r: nat)
      requires Valid()
      modifies this
      ensures Valid() && NextFit(old(Abs()), r) && Abs() == AfterAlloc(old(Abs()), r)
      ensures last == r && (r == 0 ==> taken == old(taken)) && (r > 0 ==> r < |old(taken)| && taken == old(taken)[r := true])
    {
      ghost var s := Abs();
      var nps := |norm|;
      var index := last + 1;
      r := nps;
      while index < nps && r == nps
        invariant Abs() == s && last < index
        invariant if r == nps then Scanned(s, index) else last < r < nps && Usable(s, r) && Scanned(s, r)
      {
        if norm[index] {
          if !taken[index] {
            r := index;
          }
        }
        index := index + 1;
      }
      SmallMod(r, nps);
      if r == nps {
        r := 0;
      } else {
        taken := taken[r := true];
      }
      last := r % nps;
    }

    /** pfree. */
    method Pfree(i: nat)
      requires Valid() && i < |taken|
      modifies this
      ensures Valid() && Abs() == AfterFree(old(Abs()), i)
      ensures taken == old(taken)[i := false] && last == old(last)
    {
      taken := taken[i := false];
    }

    /** The counting loop of container_init: usable pages from page 1 on. */
    method CountUsable() returns (n: nat)
      requires Valid()
      ensures n == |UsableBelow(Abs(), |norm|)|
    {
      n := 0;
      var i := 1;
      assert UsableBelow(Abs(), 1) == {};
      while i < |norm|
        invariant 1 <= i <= |norm|
        invariant n == |UsableBelow(Abs(), i)|
      {
        assert UsableBelow(Abs(), i + 1) == UsableBelow(Abs(), i) + if Usable(Abs(), i) then {i} else {};
        if norm[i] && !taken[i] {
          n := n + 1;
        }
        i := i + 1;
      }
    }
  }
}
