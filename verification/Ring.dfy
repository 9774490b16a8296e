/** A doubly linked ring threaded through two index arrays. Index h is the list head, which is
    not an element; `ring` is the order in which the `next` links visit the elements. */
module Ring {
  import opened Lists


  /** The i-th stop of a walk that starts at the head and follows `next`. */
  function Stop(ring: seq<nat>, h: nat, i: int): nat {
    if 1 <= i <= |ring| then ring[i - 1] else h
  }

  /** `next` visits exactly `ring` and comes back to the head; `prev` undoes it. */
  ghost predicate Linked(ring: seq<nat>, prev: seq<nat>, next: seq<nat>, h: nat) {
    && |prev| == |next| == h + 1
    && Distinct(ring)
    && (forall i | 0 <= i < |ring| :: ring[i] < h)
    && (forall i | 0 <= i <= |ring| ::
          && next[Stop(ring, h, i)] == Stop(ring, h, i + 1)
          && prev[Stop(ring, h, i + 1)] == Stop(ring, h, i))
  }

  /** Cutting the element at position p out of both chains. */
  lemma Unlink(ring: seq<nat>, prev: seq<nat>, next: seq<nat>, h: nat, p: nat)
    requires Linked(ring, prev, next, h) && p < |ring|
    ensures var b := ring[p];
            && b <= h && next[b] <= h && prev[b] <= h
            && Linked(Without(ring, p), prev[next[b] := prev[b]], next[prev[b] := next[b]], h)
            && b !in Without(ring, p)
  {
    var b := ring[p];
    assert Stop(ring, h, p + 1) == b;
    assert prev[b] == Stop(ring, h, p) && next[b] == Stop(ring, h, p + 2);
    var ring' := Without(ring, p);
    forall i | 0 <= i <= |ring'| + 1
      ensures Stop(ring', h, i) == Stop(ring, h, if i <= p then i else i + 1)
    {
    }
    var prev', next' := prev[next[b] := prev[b]], next[prev[b] := next[b]];
    forall i | 0 <= i <= |ring'|
      ensures next'[Stop(ring', h, i)] == Stop(ring', h, i + 1)
      ensures prev'[Stop(ring', h, i + 1)] == Stop(ring', h, i)
    {
      StopsDiffer(ring, h);
    }
  }

  lemma StopsDiffer(ring: seq<nat>, h: nat)
    requires Distinct(ring) && forall i | 0 <= i < |ring| :: ring[i] < h
    ensures forall i, j | 0 <= i < j <= |ring| :: Stop(ring, h, i) != Stop(ring, h, j)
    ensures forall i, j | 1 <= i < j <= |ring| + 1 :: Stop(ring, h, i) != Stop(ring, h, j)
  {
  }

  /** Inserting b between the head and the first element. */
  lemma PushFront(ring: seq<nat>, prev: seq<nat>, next: seq<nat>, h: nat, b: nat)
    requires Linked(ring, prev, next, h) && b < h && b !in ring
    ensures var prev1, next1 := prev[b := h], next[b := next[h]];
            && next[h] <= h
            && Linked([b] + ring, prev1[next[h] := b], next1[h := b], h)
  {
    assert Stop(ring, h, 0) == h;
    assert next[h] == Stop(ring, h, 1);
    var ring' := [b] + ring;
    forall i | 2 <= i <= |ring'| + 1
      ensures Stop(ring', h, i) == Stop(ring, h, i - 1)
    {
    }
    assert Stop(ring', h, 1) == b;
    StopsDiffer(ring, h);
    var prev', next' := prev[b := h][next[h] := b], next[b := next[h]][h := b];
    forall i | 0 <= i <= |ring'|
      ensures next'[Stop(ring', h, i)] == Stop(ring', h, i + 1)
      ensures prev'[Stop(ring', h, i + 1)] == Stop(ring', h, i)
    {
    }
  }
}
