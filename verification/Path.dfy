/** Path elements: skipelem of kern/fs/path.c. A path is its bytes, without the terminator. */
module Path {
  import opened Params
  import opened DirSpec

  const SLASH: nat := 47

  /** The non-empty parts of p between slashes, where cur is the part being read. */
  function Components(p: Bytes, cur: Bytes): seq<Bytes> {
    if p == [] then Part(cur)
    else if p[0] == SLASH then Part(cur) + Components(p[1..], [])
    else Components(p[1..], cur + [p[0]])
  }

  function Part(cur: Bytes): seq<Bytes> {
    if cur == [] then [] else [cur]
  }

  /** A name as skipelem delivers it: at most DIRSIZ - 1 bytes. */
  function Clip(name: Bytes): (r: Bytes)
    ensures r <= name && |r| == if |name| < DIRSIZ then |name| else DIRSIZ - 1
  {
    if |name| >= DIRSIZ then name[..DIRSIZ - 1] else name
  }

  function ClipAll(names: seq<Bytes>): (r: seq<Bytes>)
    ensures |r| == |names|
    ensures forall i | 0 <= i < |names| ::
      r[i] <= names[i] && |r[i]| == if |names[i]| < DIRSIZ then |names[i]| else DIRSIZ - 1
  {
    if names == [] then [] else [Clip(names[0])] + ClipAll(names[1..])
  }

  /** The number of leading slashes. */
  function Slashes(p: Bytes): (n: nat)
    ensures n <= |p| && (n < |p| ==> p[n] != SLASH)
  {
    if p == [] || p[0] != SLASH then 0 else 1 + Slashes(p[1..])
  }

  /** The length of the leading element. */
  function ElemLen(p: Bytes): (n: nat)
    ensures n <= |p| && (n < |p| ==> p[n] == SLASH)
  {
    if p == [] || p[0] == SLASH then 0 else 1 + ElemLen(p[1..])
  }

  datatype Skip = End | Elem(rest: Bytes, name: Bytes)

  /** What skipelem computes. */
  function SkipElem(p: Bytes): Skip {
    var q := p[Slashes(p)..];
    if q == [] then End else
      var n := ElemLen(q);
      var r := q[n..];
      Elem(r[Slashes(r)..], Clip(q[..n]))
  }

  /** The run of elements of p, all slashes or all others, that starts at from and stops at to. */
  ghost predicate Run(p: Bytes, from: nat, to: nat, slash: bool) {
    && from <= to <= |p| && (to < |p| ==> (p[to] == SLASH) != slash)
    && forall i | from <= i < to :: (p[i] == SLASH) == slash
  }

  /** A scan that stopped after a run of slashes has counted the leading slashes. */
  lemma {:induction false} SlashesAre(p: Bytes, from: nat, to: nat)
    requires Run(p, from, to, true)
    ensures Slashes(p[from..]) == to - from && p[from..][to - from..] == p[to..]
    decreases |p| - from
  {
    if from < to {
      SlashesAre(p, from + 1, to);
      assert p[from..][1..] == p[from + 1..];
    }
  }

  /** Likewise for the leading element. */
  lemma {:induction false} ElemLenIs(p: Bytes, from: nat, to: nat)
    requires Run(p, from, to, false)
    ensures ElemLen(p[from..]) == to - from && p[from..][to - from..] == p[to..]
    ensures p[from..][..to - from] == p[from..to]
    decreases |p| - from
  {
    if from < to {
      ElemLenIs(p, from + 1, to);
      assert p[from..][1..] == p[from + 1..];
    }
  }

  /** What the three scans found is the element skipelem takes off. */
  lemma ScansFind(p: Bytes, start: nat, end: nat, rest: nat)
    requires start <= end <= rest <= |p|
    requires Run(p, 0, start, true) && Run(p, start, end, false) && Run(p, end, rest, true)
    ensures SkipElem(p) == if start == |p| then End else Elem(p[rest..], Clip(p[start..end]))
  {
    hide Slashes, ElemLen, Run;
    SlashesAre(p, 0, start);
    assert p[0..] == p && start <= end <= rest <= |p|;
    ElemLenIs(p, start, end);
    SlashesAre(p, end, rest);
  }

  /** skipelem: three scans over the path. */
  method SkipElement(path: Bytes) returns (r: Skip)
    ensures r == SkipElem(path) && (r == End <==> Components(path, []) == [])
    ensures r.Elem? ==>
      var first := Components(path, [])[0];
      && r.name <= first && |r.name| == (if |first| < DIRSIZ then |first| else DIRSIZ - 1)
      && Components(r.rest, []) == Components(path, [])[1..]
  {
    hide SkipElem, Slashes, ElemLen, Components;
    SkipElemTakesOne(path);
    var start := 0;
    while start < |path| && path[start] == SLASH
      invariant start <= |path| && forall i | 0 <= i < start :: path[i] == SLASH
    {
      start := start + 1;
    }
    if start == |path| {
      ScansFind(path, start, start, start);
      return End;
    }
    var end := start;
    while end < |path| && path[end] != SLASH
      invariant start <= end <= |path| && forall i | start <= i < end :: path[i] != SLASH
    {
      end := end + 1;
    }
    var len := if end - start >= DIRSIZ then DIRSIZ - 1 else end - start;
    var name := path[start..start + len];
    assert name == Clip(path[start..end]);
    var rest := end;
    while rest < |path| && path[rest] == SLASH
      invariant end <= rest <= |path| && forall i | end <= i < rest :: path[i] == SLASH
    {
      rest := rest + 1;
    }
    ScansFind(path, start, end, rest);
    return Elem(path[rest..], name);
  }

  /** Leading slashes contribute no component. */
  lemma {:induction false} DropSlashes(p: Bytes)
    ensures Components(p, []) == Components(p[Slashes(p)..], [])
  {
    if p != [] && p[0] == SLASH {
      DropSlashes(p[1..]);
      assert p[1..][Slashes(p[1..])..] == p[Slashes(p)..];
    }
  }

  /** Reading an element moves it into the part being read. */
  lemma {:induction false} ReadElement(p: Bytes, cur: Bytes)
    ensures Components(p, cur) == Components(p[ElemLen(p)..], cur + p[..ElemLen(p)])
  {
    if p == [] || p[0] == SLASH {
      assert cur + p[..0] == cur;
    } else {
      ReadElement(p[1..], cur + [p[0]]);
      var n := ElemLen(p);
      assert p[1..][ElemLen(p[1..])..] == p[n..];
      assert cur + [p[0]] + p[1..][..n - 1] == cur + p[..n];
    }
  }

  /** skipelem takes off the first component, cut to size, and the rest has the other components, starts
      with no slash and is shorter; it returns nothing exactly if there is no component left. */
  lemma SkipElemTakesOne(p: Bytes)
    ensures match SkipElem(p)
            case End => Components(p, []) == []
            case Elem(rest, name) =>
              && |rest| < |p| && (rest != [] ==> rest[0] != SLASH)
              && Components(p, []) != [] && name == Clip(Components(p, [])[0]) && name <= Components(p, [])[0]
              && |name| == (if |Components(p, [])[0]| < DIRSIZ then |Components(p, [])[0]| else DIRSIZ - 1)
              && Components(rest, []) == Components(p, [])[1..]
  {
    hide Slashes, ElemLen, Components;
    var q := p[Slashes(p)..];
    DropSlashes(p);
    if q == [] {
      NoComponents();
    } else {
      var n := ElemLen(q);
      var r := q[n..];
      ReadElement(q, []);
      assert [] + q[..n] == q[..n] && n > 0;
      DropSlashes(r);
      AfterElement(r, q[..n]);
    }
  }

  lemma NoComponents()
    ensures Components([], []) == []
  {
  }

  /** What follows an element: a slash or the end. */
  lemma AfterElement(r: Bytes, elem: Bytes)
    requires elem != [] && (r != [] ==> r[0] == SLASH)
    ensures Components(r, elem) == [elem] + Components(r, [])
  {
  }

  /** The names skipelem delivers, one after the other. */
  function Walk(p: Bytes): seq<Bytes>
    decreases |p|
  {
    match SkipElem(p)
    case End => []
    case Elem(rest, name) => SkipElemTakesOne(p); [name] + Walk(rest)
  }

  /** No component contains a slash or is empty. */
  lemma {:induction false} ComponentsAreNames(p: Bytes, cur: Bytes)
    requires SLASH !in cur
    ensures forall n: Bytes | n in Components(p, cur) :: n != [] && SLASH !in n
  {
    if p != [] {
      ComponentsAreNames(p[1..], if p[0] == SLASH then [] else cur + [p[0]]);
    }
  }

  lemma {:induction false} ClippedNames(names: seq<Bytes>)
    requires forall n: Bytes | n in names :: n != [] && SLASH !in n
    ensures forall n: Bytes | n in ClipAll(names) :: 0 < |n| < DIRSIZ && SLASH !in n
  {
    if names != [] {
      assert names[0] in names && forall n: Bytes | n in names[1..] :: n in names;
      ClippedNames(names[1..]);
      forall n: Bytes | n in ClipAll(names)
        ensures 0 < |n| < DIRSIZ && SLASH !in n
      {
        assert n == Clip(names[0]) || n in ClipAll(names[1..]);
      }
    }
  }

  /** Iterating skipelem yields exactly the path's components, each cut to 13 bytes. */
  lemma {:induction false} WalkIsComponents(p: Bytes)
    ensures Walk(p) == ClipAll(Components(p, [])) && |Walk(p)| == |Components(p, [])|
    ensures forall i | 0 <= i < |Walk(p)| ::
      var whole := Components(p, [])[i];
      Walk(p)[i] <= whole && |Walk(p)[i]| == if |whole| < DIRSIZ then |whole| else DIRSIZ - 1
    decreases |p|
  {
    SkipElemTakesOne(p);
    if SkipElem(p).Elem? {
      WalkIsComponents(SkipElem(p).rest);
    }
  }

  /** Every name it delivers has 1 to 13 bytes and no slash. */
  lemma WalkGivesNames(p: Bytes)
    ensures forall n: Bytes | n in Walk(p) :: 0 < |n| < DIRSIZ && SLASH !in n
  {
    WalkIsComponents(p);
    ComponentsAreNames(p, []);
    ClippedNames(Components(p, []));
  }
}
