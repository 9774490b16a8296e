/** The write-back block cache of kern/fs/bufcache.c over one disk.

    The buffers sit on a doubly linked ring ordered by release time. A buffer that is busy
    (handed out) or dirty (holds data the disk does not) is never recycled. Clients see the
    cache through four ghost fields:
      view   the contents a reader gets for every sector,
      held   the sectors whose buffer is busy,
      dirty  the sectors whose buffer is dirty,
      history  every image the disk has had, newest last: a crash exposes one of these. */
module BufCache {
  import opened Lists
  import opened Params
  import opened Blocks
  import opened Ring

  datatype Buf = Buf(busy: bool, valid: bool, dirty: bool, dev: int, sector: nat, data: Block)

  /** What a lookup does: find the sector idle, find it busy (the caller must sleep on the
      buffer and retry), take over an idle clean buffer, or find none to take over. */
  datatype Lookup = Hit(b: nat) | Busy(b: nat) | Recycled(b: nat) | NoBuffers

  predicate Idle(x: Buf) {
    !x.busy && !x.dirty
  }

  predicate Caches(x: Buf, s: nat) {
    x.dev == ROOTDEV && x.sector == s
  }

  /** How one buffer relates to the disk and to the abstract fields. */
  ghost predicate BufRep(x: Buf, b: nat, disk: Disk, slot: map<nat, nat>,
                         view: Disk, held: set<nat>, dirty: set<nat>)
    requires |view| == |disk|
  {
    if x.dev == ROOTDEV then
      && x.sector < |disk| && x.sector in slot && slot[x.sector] == b
      && (x.busy <==> x.sector in held)
      && (x.dirty <==> x.sector in dirty)
      && (x.dirty || !x.busy ==> x.valid)
      && view[x.sector] == (if x.valid then x.data else disk[x.sector])
      && (Idle(x) ==> x.data == disk[x.sector])
    else
      x.dev == NODEV && Idle(x) && !x.valid
  }

  /** `slot` says which buffer caches which sector: each sector has at most one. */
  ghost predicate Rep(bufs: seq<Buf>, disk: Disk, slot: map<nat, nat>,
                      view: Disk, held: set<nat>, dirty: set<nat>)
  {
    && |bufs| == NBUF && |view| == |disk|
    && (forall b | 0 <= b < NBUF :: BufRep(bufs[b], b, disk, slot, view, held, dirty))
    && (forall s | s in slot :: slot[s] < NBUF && Caches(bufs[slot[s]], s))
    && held <= slot.Keys && dirty <= slot.Keys
    && (forall s | 0 <= s < |disk| && s !in slot :: view[s] == disk[s])
  }

  /** The ring order is the order of release: `stamp` is each buffer's last release time. */
  ghost predicate Recency(ring: seq<nat>, stamp: seq<nat>, clock: nat) {
    && |ring| == |stamp| == NBUF
    && (forall i | 0 <= i < NBUF :: ring[i] < NBUF)
    && (forall b | 0 <= b < NBUF :: b in ring && stamp[b] < clock)
    && (forall i, j | 0 <= i < j < NBUF :: stamp[ring[i]] > stamp[ring[j]])
  }

  function SlotAfter(slot: map<nat, nat>, x: Buf, s: nat, b: nat): map<nat, nat> {
    (if x.dev == ROOTDEV then slot - {x.sector} else slot)[s := b]
  }

  /** Taking over an idle clean buffer changes no sector's visible contents. */
  lemma RecycleKeepsView(bufs: seq<Buf>, disk: Disk, slot: map<nat, nat>,
                         view: Disk, held: set<nat>, dirty: set<nat>, b: nat, s: nat)
    requires Rep(bufs, disk, slot, view, held, dirty)
    requires b < NBUF && Idle(bufs[b]) && s < |disk| && s !in slot
    ensures Rep(bufs[b := Buf(true, false, false, ROOTDEV, s, bufs[b].data)], disk,
                SlotAfter(slot, bufs[b], s, b), view, held + {s}, dirty)
  {
    hide BufRep;
    var bufs' := bufs[b := Buf(true, false, false, ROOTDEV, s, bufs[b].data)];
    forall c | 0 <= c < NBUF
      ensures BufRep(bufs'[c], c, disk, SlotAfter(slot, bufs[b], s, b), view, held + {s}, dirty)
    {
      RecycleAt(bufs, disk, slot, view, held, dirty, b, s, c);
    }
    RecycleAt(bufs, disk, slot, view, held, dirty, b, s, b);
  }

  /** What recycling buffer b for sector s does for buffer c. */
  lemma RecycleAt(bufs: seq<Buf>, disk: Disk, slot: map<nat, nat>,
                  view: Disk, held: set<nat>, dirty: set<nat>, b: nat, s: nat, c: nat)
    requires Rep(bufs, disk, slot, view, held, dirty) && c < NBUF
    requires b < NBUF && Idle(bufs[b]) && s < |disk| && s !in slot
    ensures BufRep(bufs[b := Buf(true, false, false, ROOTDEV, s, bufs[b].data)][c], c, disk,
                   SlotAfter(slot, bufs[b], s, b), view, held + {s}, dirty)
    ensures bufs[b].dev == ROOTDEV ==>
      && bufs[b].sector < |disk| && view[bufs[b].sector] == disk[bufs[b].sector]
      && bufs[b].sector in slot && slot[bufs[b].sector] == b && bufs[b].sector !in held + dirty
  {
    assert BufRep(bufs[b], b, disk, slot, view, held, dirty) && BufRep(bufs[c], c, disk, slot, view, held, dirty);
  }

  /** Handing out an idle buffer. */
  lemma MarkBusy(bufs: seq<Buf>, disk: Disk, slot: map<nat, nat>,
                 view: Disk, held: set<nat>, dirty: set<nat>, b: nat)
    requires Rep(bufs, disk, slot, view, held, dirty)
    requires b < NBUF && bufs[b].dev == ROOTDEV && !bufs[b].busy
    ensures Rep(bufs[b := bufs[b].(busy := true)], disk, slot, view, held + {bufs[b].sector}, dirty)
  {
  }

  /** Writing a dirty buffer to its sector makes the disk agree with the view there. */
  lemma WriteBack(bufs: seq<Buf>, disk: Disk, slot: map<nat, nat>,
                  view: Disk, held: set<nat>, dirty: set<nat>, b: nat)
    requires Rep(bufs, disk, slot, view, held, dirty)
    requires b < NBUF && bufs[b].dev == ROOTDEV && bufs[b].dirty
    ensures var x := bufs[b];
            && x.sector < |disk|
            && Rep(bufs[b := x.(valid := true, dirty := false)], disk[x.sector := x.data],
                   slot, view, held, dirty - {x.sector})
  {
  }

  /** Filling an invalid buffer from its sector. */
  lemma Fill(bufs: seq<Buf>, disk: Disk, slot: map<nat, nat>,
             view: Disk, held: set<nat>, dirty: set<nat>, b: nat)
    requires Rep(bufs, disk, slot, view, held, dirty)
    requires b < NBUF && bufs[b].dev == ROOTDEV && !bufs[b].valid
    ensures var x := bufs[b];
            && x.sector < |disk|
            && Rep(bufs[b := x.(valid := true, data := disk[x.sector])], disk, slot, view, held, dirty)
  {
  }

  /** The holder's store shows in the view at once, and nowhere on the disk. */
  lemma Store(bufs: seq<Buf>, disk: Disk, slot: map<nat, nat>,
              view: Disk, held: set<nat>, dirty: set<nat>, b: nat, data: Block)
    requires Rep(bufs, disk, slot, view, held, dirty)
    requires b < NBUF && bufs[b].dev == ROOTDEV && bufs[b].busy && bufs[b].valid
    ensures var x := bufs[b];
            && x.sector < |disk|
            && Rep(bufs[b := x.(data := data)], disk, slot, view[x.sector := data], held, dirty)
  {
  }

  /** Setting B_DIRTY. */
  lemma Pin(bufs: seq<Buf>, disk: Disk, slot: map<nat, nat>,
            view: Disk, held: set<nat>, dirty: set<nat>, b: nat)
    requires Rep(bufs, disk, slot, view, held, dirty)
    requires b < NBUF && bufs[b].dev == ROOTDEV && bufs[b].busy && bufs[b].valid
    ensures var x := bufs[b];
            && x.sector < |disk|
            && Rep(bufs[b := x.(dirty := true)], disk, slot, view, held, dirty + {x.sector})
  {
  }

  /** Clearing B_BUSY on a buffer that is dirty or agrees with the disk. */
  lemma Unpin(bufs: seq<Buf>, disk: Disk, slot: map<nat, nat>,
              view: Disk, held: set<nat>, dirty: set<nat>, b: nat)
    requires Rep(bufs, disk, slot, view, held, dirty)
    requires b < NBUF && bufs[b].dev == ROOTDEV && bufs[b].busy && bufs[b].valid
    requires bufs[b].dirty || (bufs[b].sector < |disk| && bufs[b].data == disk[bufs[b].sector])
    ensures var x := bufs[b];
            && x.sector < |disk|
            && Rep(bufs[b := x.(busy := false)], disk, slot, view, held - {x.sector}, dirty)
  {
  }

  lemma RepAt(bufs: seq<Buf>, disk: Disk, slot: map<nat, nat>,
              view: Disk, held: set<nat>, dirty: set<nat>, b: nat)
    requires Rep(bufs, disk, slot, view, held, dirty) && b < NBUF
    ensures |view| == |disk| && |bufs| == NBUF && BufRep(bufs[b], b, disk, slot, view, held, dirty)
  {
  }

  /** Sectors of the first k buffers that are busy or dirty. */
  ghost function Pinned(bufs: seq<Buf>, k: nat): (r: set<nat>)
    requires k <= |bufs|
  {
    set b | 0 <= b < k && !Idle(bufs[b]) :: bufs[b].sector
  }

  /** Each buffer that is busy or dirty stands for a sector of its own. */
  lemma {:induction false} PinnedCount(bufs: seq<Buf>, disk: Disk, slot: map<nat, nat>,
                                       view: Disk, held: set<nat>, dirty: set<nat>, k: nat)
    requires Rep(bufs, disk, slot, view, held, dirty) && k <= NBUF == |bufs|
    requires forall b | 0 <= b < k :: !Idle(bufs[b])
    ensures |Pinned(bufs, k)| == k && Pinned(bufs, k) <= held + dirty
  {
    hide Rep, Idle;
    if k > 0 {
      PinnedCount(bufs, disk, slot, view, held, dirty, k - 1);
      var s := bufs[k - 1].sector;
      PinnedSector(bufs, disk, slot, view, held, dirty, k - 1);
      forall b | 0 <= b < k - 1
        ensures bufs[b].sector != s
      {
        PinnedSector(bufs, disk, slot, view, held, dirty, b);
      }
      assert Pinned(bufs, k) == Pinned(bufs, k - 1) + {s};
    }
  }

  lemma PinnedSector(bufs: seq<Buf>, disk: Disk, slot: map<nat, nat>,
                     view: Disk, held: set<nat>, dirty: set<nat>, b: nat)
    requires Rep(bufs, disk, slot, view, held, dirty) && b < NBUF && !Idle(bufs[b])
    ensures bufs[b].sector in held + dirty
    ensures bufs[b].sector in slot && slot[bufs[b].sector] == b
  {
    assert BufRep(bufs[b], b, disk, slot, view, held, dirty);
  }

  /** With fewer than NBUF sectors held or dirty there is a buffer to recycle. */
  lemma VictimExists(bufs: seq<Buf>, disk: Disk, slot: map<nat, nat>,
                     view: Disk, held: set<nat>, dirty: set<nat>)
    requires Rep(bufs, disk, slot, view, held, dirty)
    requires |held + dirty| < NBUF
    ensures exists b :: 0 <= b < NBUF && Idle(bufs[b])
  {
    if forall b | 0 <= b < NBUF :: !Idle(bufs[b]) {
      PinnedCount(bufs, disk, slot, view, held, dirty, NBUF);
      SubsetSize(Pinned(bufs, NBUF), held + dirty);
    }
  }

  /** When a lookup neither sleeps nor runs out of buffers. */
  lemma CanServe(bufs: seq<Buf>, disk: Disk, slot: map<nat, nat>,
                 view: Disk, held: set<nat>, dirty: set<nat>, s: nat)
    requires Rep(bufs, disk, slot, view, held, dirty)
    requires s !in held && (s in dirty || |held + dirty| < NBUF)
    ensures |bufs| == NBUF
    ensures s in slot || exists b :: 0 <= b < NBUF && Idle(bufs[b])
    ensures forall b | 0 <= b < NBUF && Caches(bufs[b], s) :: !bufs[b].busy
  {
    if s !in dirty {
      VictimExists(bufs, disk, slot, view, held, dirty);
    }
    forall b | 0 <= b < NBUF && Caches(bufs[b], s)
      ensures !bufs[b].busy
    {
      assert BufRep(bufs[b], b, disk, slot, view, held, dirty);
    }
  }

  lemma {:induction false} SubsetSize<T>(a: set<T>, b: set<T>)
    requires a <= b
    ensures |a| <= |b|
  {
    if a != {} {
      var x :| x in a;
      SubsetSize(a - {x}, b - {x});
    }
  }

  /** Moving the element at position p to the front keeps the ring a permutation of all
      buffers, sorted by release time. */
  lemma ReleaseKeepsRecency(ring: seq<nat>, stamp: seq<nat>, clock: nat, p: nat)
    requires Recency(ring, stamp, clock) && Distinct(ring) && p < NBUF
    ensures Recency([ring[p]] + Without(ring, p), stamp[ring[p] := clock], clock + 1)
  {
    hide Without, Distinct;
    var ring' := [ring[p]] + Without(ring, p);
    FrontAt(ring, p, 0);
    forall i | 0 <= i < NBUF
      ensures ring'[i] == ring[MovedFrom(i, p)] && (i > 0 ==> ring'[i] != ring[p])
    {
      FrontAt(ring, p, i);
    }
    forall b | 0 <= b < NBUF
      ensures b in ring'
    {
      var i := IndexOf(ring, b);
      assert ring'[if i == p then 0 else if i < p then i + 1 else i] == b;
    }
    forall i, j | 0 <= i < j < NBUF
      ensures stamp[ring[p] := clock][ring'[i]] > stamp[ring[p] := clock][ring'[j]]
    {
      assert i > 0 ==> MovedFrom(i, p) < MovedFrom(j, p);
    }
  }

  /** Where the element now at position i was, before the one at p moved to the front. */
  function MovedFrom(i: nat, p: nat): nat {
    if i == 0 then p else if i <= p then i - 1 else i
  }

  lemma FrontAt(ring: seq<nat>, p: nat, i: nat)
    requires |ring| == NBUF && Distinct(ring) && p < NBUF && i < NBUF
    ensures |[ring[p]] + Without(ring, p)| == NBUF
    ensures ([ring[p]] + Without(ring, p))[i] == ring[MovedFrom(i, p)]
    ensures i > 0 ==> ring[MovedFrom(i, p)] != ring[p]
  {
  }

  class Cache {
    var bufs: seq<Buf>
    var prev: seq<nat>     // links of the ring; index NBUF is the list head
    var next: seq<nat>
    var disk: Disk

    ghost var view: Disk
    ghost var held: set<nat>
    ghost var dirty: set<nat>
    ghost var history: seq<Disk>
    ghost var slot: map<nat, nat>
    ghost var ring: seq<nat>
    ghost var stamp: seq<nat>
    ghost var clock: nat

    ghost predicate Valid()
      reads this
    {
      && Rep(bufs, disk, slot, view, held, dirty)
      && Linked(ring, prev, next, NBUF)
      && Recency(ring, stamp, clock)
      && |history| > 0 && history[|history| - 1] == disk
    }

    /** A sector that is neither held nor dirty reads as the disk has it. */
    lemma CleanView(s: nat)
      requires Valid() && s < |disk| && s !in held && s !in dirty
      ensures view[s] == disk[s]
    {
    }

    /** With every buffer clean and released, readers see exactly the disk. */
    lemma Settled()
      requires Valid() && held == {} && dirty == {}
      ensures view == disk
    {
      forall s | 0 <= s < |disk|
        ensures view[s] == disk[s]
      {
        CleanView(s);
      }
    }

    /** What the holder of a buffer knows about it. */
    lemma HolderKnows(b: nat)
      requires Valid() && b < |bufs| && Holding(bufs[b].sector, b)
      ensures bufs[b].dirty <==> bufs[b].sector in dirty
      ensures bufs[b].sector < |view| && bufs[b].data == view[bufs[b].sector]
    {
      RepAt(bufs, disk, slot, view, held, dirty, b);
    }

    /** bufcache_init, over the disk as the machine finds it. */
    constructor (image: Disk)
      ensures Valid()
      ensures disk == view == image && history == [image]
      ensures held == dirty == {}
      ensures slot == map[]
    {
      bufs := seq(NBUF, _ => Buf(false, false, false, NODEV, 0, ZeroBlock()));
      disk, view, history := image, image, [image];
      held, dirty, slot := {}, {}, map[];
      prev, next := seq(NBUF + 1, _ => NBUF), seq(NBUF + 1, _ => NBUF);
      ring, stamp, clock := [], seq(NBUF, i => i), NBUF;
      new;
      var b := 0;
      while b < NBUF
        modifies this`prev, this`next, this`ring
        invariant 0 <= b <= NBUF
        invariant Linked(ring, prev, next, NBUF)
        invariant |ring| == b && forall i | 0 <= i < b :: ring[i] == b - 1 - i
      {
        PushFront(ring, prev, next, NBUF, b);
        next := next[b := next[NBUF]];
        prev := prev[b := NBUF];
        prev := prev[next[NBUF] := b];
        next := next[NBUF := b];
        ring := [b] + ring;
        b := b + 1;
      }
      forall c | 0 <= c < NBUF
        ensures c in ring
      {
        assert ring[NBUF - 1 - c] == c;
      }
    }

    /** First scan of bufcache_get: is the sector already cached? NBUF when it is not. */
    method FindCached(s: nat) returns (b: nat)
      requires Valid()
      ensures b == NBUF ==> s !in slot
      ensures b != NBUF ==> b < NBUF && Caches(bufs[b], s)
    {
      ghost var i := 1;
      b := next[NBUF];
      assert Stop(ring, NBUF, 0) == NBUF;
      while b != NBUF
        invariant 1 <= i <= NBUF + 1 && b == Stop(ring, NBUF, i)
        invariant forall k | 1 <= k < i :: !Caches(bufs[Stop(ring, NBUF, k)], s)
        decreases NBUF + 1 - i
      {
        if bufs[b].dev == ROOTDEV && bufs[b].sector == s {
          return;
        }
        b := next[b];
        i := i + 1;
      }
      ScannedAll(ring, stamp, clock, bufs, slot, s);
    }

    /** Second scan of bufcache_get, from the least recently released end. */
    method FindIdle() returns (b: nat)
      requires Valid()
      ensures b == NBUF ==> forall c | 0 <= c < NBUF :: !Idle(bufs[c])
      ensures b != NBUF ==> b < NBUF && Idle(bufs[b])
      ensures b != NBUF ==>
        forall c | 0 <= c < NBUF && c != b && Idle(bufs[c]) :: stamp[b] < stamp[c]
    {
      ghost var i := NBUF;
      b := prev[NBUF];
      assert Stop(ring, NBUF, NBUF + 1) == NBUF;
      while b != NBUF
        invariant 0 <= i <= NBUF && b == Stop(ring, NBUF, i)
        invariant forall k | i < k <= NBUF :: !Idle(bufs[Stop(ring, NBUF, k)])
        decreases i
      {
        if !bufs[b].busy && !bufs[b].dirty {
          OldestIdle(ring, stamp, clock, bufs, i);
          return;
        }
        b := prev[b];
        i := i - 1;
      }
      forall c | 0 <= c < NBUF
        ensures !Idle(bufs[c])
      {
        var k := IndexOf(ring, c);
        assert Stop(ring, NBUF, k + 1) == c;
      }
    }

    /** One pass of bufcache_get, up to the point where the caller would sleep and retry. */
    method Get(s: nat) returns (r: Lookup)
      requires Valid() && s < |disk|
      modifies this`bufs, this`held, this`slot
      ensures Valid()
      ensures r.Hit? ==>
        && r.b < NBUF && old(Caches(bufs[r.b], s) && !bufs[r.b].busy)
        && held == old(held) + {s} && slot == old(slot)
        && bufs == old(bufs)[r.b := old(bufs)[r.b].(busy := true)]
      ensures r.Recycled? ==>
        && s !in old(slot) && r.b < NBUF && old(Idle(bufs[r.b]))
        && (forall c | 0 <= c < NBUF && c != r.b && old(Idle(bufs[c])) :: stamp[r.b] < stamp[c])
        && held == old(held) + {s}
        && bufs == old(bufs)[r.b := Buf(true, false, false, ROOTDEV, s, old(bufs)[r.b].data)]
      ensures r.Busy? ==>
        && r.b < NBUF && old(Caches(bufs[r.b], s) && bufs[r.b].busy)
        && bufs == old(bufs) && held == old(held) && slot == old(slot)
      ensures r.NoBuffers? ==>
        && s !in old(slot) && (forall b | 0 <= b < NBUF :: !old(Idle(bufs[b])))
        && bufs == old(bufs) && held == old(held) && slot == old(slot)
    {
      hide Linked, Recency;
      var b := FindCached(s);
      if b != NBUF {
        if bufs[b].busy {
          return Busy(b);
        }
        MarkBusy(bufs, disk, slot, view, held, dirty, b);
        bufs := bufs[b := bufs[b].(busy := true)];
        held := held + {s};
        return Hit(b);
      }
      b := FindIdle();
      if b != NBUF {
        RecycleKeepsView(bufs, disk, slot, view, held, dirty, b, s);
        slot := SlotAfter(slot, bufs[b], s, b);
        held := held + {s};
        bufs := bufs[b := Buf(true, false, false, ROOTDEV, s, bufs[b].data)];
        return Recycled(b);
      }
      return NoBuffers;
    }

    /** bufcache_read, for a caller that need not sleep: nobody holds the sector, and it is
        cached or a buffer can be recycled. */
    method Read(s: nat) returns (b: nat)
      requires Valid() && s < |disk| && s !in held
      requires s in dirty || |held + dirty| < NBUF
      modifies this
      ensures Valid()
      ensures disk == old(disk) && view == old(view) && dirty == old(dirty) && history == old(history)
      ensures held == old(held) + {s}
      ensures Holding(s, b) && bufs[b].data == view[s]
      ensures |bufs| == |old(bufs)| == NBUF
      ensures forall c | 0 <= c < NBUF && old(bufs)[c].busy :: c != b && bufs[c] == old(bufs)[c]
    {
      hide Rep, Linked, Recency;
      CanServe(bufs, disk, slot, view, held, dirty, s);
      var r := Get(s);
      b := r.b;
      RepAt(bufs, disk, slot, view, held, dirty, b);
      if !bufs[b].valid {
        IdeRw(b);
        RepAt(bufs, disk, slot, view, held, dirty, b);
      }
    }

    /** The holder of a buffer stores into its data. */
    method SetData(b: nat, data: Block)
      requires Valid() && b < |bufs| && Holding(bufs[b].sector, b)
      modifies this`bufs, this`view
      ensures Valid()
      ensures bufs == old(bufs)[b := old(bufs[b]).(data := data)]
      ensures view == old(view)[bufs[b].sector := data]
    {
      hide Rep, Linked, Recency;
      RepAt(bufs, disk, slot, view, held, dirty, b);
      Store(bufs, disk, slot, view, held, dirty, b, data);
      view := view[bufs[b].sector := data];
      bufs := bufs[b := bufs[b].(data := data)];
    }

    /** The holder of a buffer sets B_DIRTY, which keeps the buffer from being recycled. */
    method MarkDirty(b: nat)
      requires Valid() && b < |bufs| && Holding(bufs[b].sector, b)
      modifies this`bufs, this`dirty
      ensures Valid()
      ensures bufs == old(bufs)[b := old(bufs[b]).(dirty := true)]
      ensures dirty == old(dirty) + {bufs[b].sector}
    {
      hide Rep, Linked, Recency;
      Pin(bufs, disk, slot, view, held, dirty, b);
      dirty := dirty + {bufs[b].sector};
      bufs := bufs[b := bufs[b].(dirty := true)];
    }

    /** bufcache_write: the buffer's contents reach the disk, as one atomic sector write. */
    method Write(b: nat)
      requires Valid() && b < |bufs| && Holding(bufs[b].sector, b)
      modifies this`bufs, this`disk, this`history, this`dirty
      ensures Valid()
      ensures bufs == old(bufs)[b := old(bufs[b]).(dirty := false)]
      ensures disk == old(disk)[bufs[b].sector := bufs[b].data]
      ensures history == old(history) + [disk]
      ensures dirty == old(dirty) - {bufs[b].sector}
    {
      MarkDirty(b);
      IdeRw(b);
    }

    /** bufcache_release: the buffer becomes the most recently used one. */
    method Release(b: nat)
      requires Valid() && b < |bufs| && Holding(bufs[b].sector, b)
      requires bufs[b].dirty || bufs[b].data == disk[bufs[b].sector]
      modifies this`bufs, this`held, this`prev, this`next, this`ring, this`stamp, this`clock
      ensures Valid()
      ensures bufs == old(bufs)[b := old(bufs[b]).(busy := false)]
      ensures held == old(held) - {bufs[b].sector}
      ensures stamp == old(stamp)[b := old(clock)] && clock == old(clock) + 1
    {
      hide Rep, Linked, Recency;
      Unpin(bufs, disk, slot, view, held, dirty, b);
      MoveToFront(b);
      held := held - {bufs[b].sector};
      bufs := bufs[b := bufs[b].(busy := false)];
    }

    /** The pointer surgery of bufcache_release. */
    method MoveToFront(b: nat)
      requires b < NBUF && Linked(ring, prev, next, NBUF) && Recency(ring, stamp, clock)
      modifies this`prev, this`next, this`ring, this`stamp, this`clock
      ensures Linked(ring, prev, next, NBUF) && Recency(ring, stamp, clock)
      ensures stamp == old(stamp)[b := old(clock)] && clock == old(clock) + 1
    {
      ghost var p := IndexOf(ring, b);
      Unlink(ring, prev, next, NBUF, p);
      ReleaseKeepsRecency(ring, stamp, clock, p);
      prev := prev[next[b] := prev[b]];
      next := next[prev[b] := next[b]];
      ring := Without(ring, p);
      PushFront(ring, prev, next, NBUF, b);
      next := next[b := next[NBUF]];
      prev := prev[b := NBUF];
      prev := prev[next[NBUF] := b];
      next := next[NBUF := b];
      ring, stamp, clock := [b] + ring, stamp[b := clock], clock + 1;
    }

    /** Read a sector's buffer, replace its data and write it to the disk. */
    method WriteOver(s: nat, data: Block) returns (b: nat)
      requires Valid() && s < |disk| && s !in held
      requires s in dirty || |held + dirty| < NBUF
      modifies this
      ensures Valid()
      ensures disk == old(disk)[s := data] && view == old(view)[s := data]
      ensures history == old(history) + [disk]
      ensures held == old(held) + {s} && dirty == old(dirty) - {s}
      ensures Holding(s, b) && bufs[b].data == data && |old(bufs)| == NBUF
      ensures forall c | 0 <= c < NBUF && old(bufs)[c].busy :: c != b && bufs[c] == old(bufs)[c]
    {
      hide Rep, Linked, Recency;
      b := Read(s);
      SetData(b, data);
      Write(b);
    }

    /** WriteOver, then release. */
    method Overwrite(s: nat, data: Block)
      requires Valid() && s < |disk| && s !in held
      requires s in dirty || |held + dirty| < NBUF
      modifies this
      ensures Valid()
      ensures disk == old(disk)[s := data] && view == old(view)[s := data]
      ensures history == old(history) + [disk]
      ensures held == old(held) && dirty == old(dirty) - {s}
      ensures |bufs| == |old(bufs)| == NBUF
      ensures forall c | 0 <= c < NBUF && old(bufs)[c].busy :: bufs[c] == old(bufs)[c]
    {
      hide Rep, Linked, Recency;
      var b := WriteOver(s, data);
      Release(b);
    }

    /** Buffer b is the busy buffer of sector s. */
    ghost predicate Holding(s: nat, b: nat)
      reads this
    {
      && b < NBUF == |bufs| && s < |disk| && s in held && Caches(bufs[b], s) && bufs[b].busy && bufs[b].valid
    }

    /** The disk driver's contract: write a dirty buffer, else fill an invalid one. */
    method IdeRw(b: nat)
      requires Valid() && b < NBUF == |bufs| && bufs[b].busy
      requires bufs[b].dirty || !bufs[b].valid
      modifies this`bufs, this`disk, this`history, this`dirty
      ensures Valid()
      ensures bufs == old(bufs)[b := bufs[b]]
      ensures bufs[b] == old(bufs[b]).(valid := true, dirty := false, data := bufs[b].data)
      ensures old(bufs[b].dirty) ==>
        && bufs[b].data == old(bufs[b].data)
        && disk == old(disk)[bufs[b].sector := bufs[b].data]
        && history == old(history) + [disk] && dirty == old(dirty) - {bufs[b].sector}
      ensures !old(bufs[b].dirty) ==>
        && bufs[b].data == disk[bufs[b].sector]
        && disk == old(disk) && history == old(history) && dirty == old(dirty)
    {
      hide Rep, Linked, Recency;
      var x := bufs[b];
      RepAt(bufs, disk, slot, view, held, dirty, b);
      if x.dirty {
        WriteBack(bufs, disk, slot, view, held, dirty, b);
        disk := disk[x.sector := x.data];
        history := history + [disk];
        dirty := dirty - {x.sector};
        bufs := bufs[b := x.(valid := true, dirty := false)];
      } else {
        Fill(bufs, disk, slot, view, held, dirty, b);
        bufs := bufs[b := x.(valid := true, data := disk[x.sector])];
      }
    }
  }

  /** A scan of the whole ring meets every cached sector. */
  lemma ScannedAll(ring: seq<nat>, stamp: seq<nat>, clock: nat, bufs: seq<Buf>, slot: map<nat, nat>, s: nat)
    requires Recency(ring, stamp, clock) && |bufs| == NBUF
    requires forall t | t in slot :: slot[t] < NBUF && Caches(bufs[slot[t]], t)
    requires forall k | 1 <= k <= NBUF :: !Caches(bufs[Stop(ring, NBUF, k)], s)
    ensures s !in slot
  {
    forall t | t in slot
      ensures t != s
    {
      var k := IndexOf(ring, slot[t]);
      assert Stop(ring, NBUF, k + 1) == slot[t];
    }
  }

  /** The last idle buffer of the ring is the one released longest ago. */
  lemma OldestIdle(ring: seq<nat>, stamp: seq<nat>, clock: nat, bufs: seq<Buf>, i: nat)
    requires Recency(ring, stamp, clock) && |bufs| == NBUF && 1 <= i <= NBUF
    requires forall k | i < k <= NBUF :: !Idle(bufs[Stop(ring, NBUF, k)])
    ensures forall c | 0 <= c < NBUF && c != ring[i - 1] && Idle(bufs[c]) :: stamp[ring[i - 1]] < stamp[c]
  {
    forall c | 0 <= c < NBUF && c != ring[i - 1] && Idle(bufs[c])
      ensures stamp[ring[i - 1]] < stamp[c]
    {
      var k := IndexOf(ring, c);
      assert Stop(ring, NBUF, k + 1) == c;
    }
  }
}
