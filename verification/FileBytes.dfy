/** Files as byte arrays: what reading and writing across block boundaries amounts to. */
module FileBytes {
  import opened Lists
  import opened Blocks
  import opened FileMap

  /** A block with `src` copied in at byte `at`. */
  function Patch(b: Block, at: nat, src: seq<Byte>): Block
    requires at + |src| <= 512
  {
    b[..at] + src + b[at + |src|..]
  }

  /** A byte array with `src` written over it at `off`, extended as needed. */
  function Splice(c: seq<Byte>, off: nat, src: seq<Byte>): seq<Byte>
    requires off <= |c|
  {
    c[..off] + src + (if off + |src| <= |c| then c[off + |src|..] else [])
  }

  /** While a write is under way: the first `tot` bytes of src are in place over contents c. */
  ghost predicate Written(h: Disk, blk: seq<nat>, c: seq<Byte>, off: nat, src: seq<Byte>, tot: nat)
  {
    && InRange(h, blk) && off <= |c| && tot <= |src|
    && BlocksFor(|c|) <= |blk| && BlocksFor(off + tot) <= |blk|
    && (forall i | 0 <= i < |c| && !(off <= i < off + tot) :: ByteAt(h, blk, i) == c[i])
    && (forall i | off <= i < off + tot :: ByteAt(h, blk, i) == src[i - off])
  }

  /** A finished write has spliced src into the contents. */
  lemma WrittenIsSplice(h: Disk, blk: seq<nat>, c: seq<Byte>, off: nat, src: seq<Byte>)
    requires Written(h, blk, c, off, src, |src|)
    ensures var size := if off + |src| > |c| then off + |src| else |c|;
            Contents(h, blk, size) == Splice(c, off, src)
  {
  }

  /** A write has not started: the contents are there. */
  lemma NothingWritten(h: Disk, blk: seq<nat>, size: nat, off: nat, src: seq<Byte>)
    requires InRange(h, blk) && BlocksFor(size) <= |blk| && off <= size
    ensures Written(h, blk, Contents(h, blk, size), off, src, 0)
  {
  }

  /** Growing the file by blocks leaves what is written in place. */
  lemma GrowthKeepsWritten(h: Disk, blk: seq<nat>, c: seq<Byte>, off: nat, src: seq<Byte>, tot: nat,
                           g: Disk, blk': seq<nat>)
    requires Written(h, blk, c, off, src, tot) && InRange(g, blk') && blk <= blk'
    requires forall i | 0 <= i < |blk| :: g[blk[i]] == h[blk[i]]
    ensures Written(g, blk', c, off, src, tot)
  {
    assert forall i | 0 <= i / 512 < |blk| && i >= 0 :: ByteAt(g, blk', i) == ByteAt(h, blk, i);
  }

  /** One step of the copy loop: bytes up to the end of the block or of the source. */
  function Chunk(off: nat, left: nat): nat {
    if left < 512 - off % 512 then left else 512 - off % 512
  }

  lemma ChunkPlace(off: nat, left: nat, i: nat)
    requires off <= i < off + Chunk(off, left)
    ensures i / 512 == off / 512 && i % 512 == off % 512 + (i - off)
  {
  }

  /** Patching one block extends what is written by one chunk. */
  lemma PatchExtends(h: Disk, blk: seq<nat>, c: seq<Byte>, off: nat, src: seq<Byte>, tot: nat, m: nat, g: Disk)
    requires Written(h, blk, c, off, src, tot) && Distinct(blk) && tot < |src|
    requires m == Chunk(off + tot, |src| - tot)
    requires var bn := (off + tot) / 512;
             && bn < |blk| && blk[bn] < |h|
             && g == h[blk[bn] := Patch(h[blk[bn]], (off + tot) % 512, src[tot..tot + m])]
    ensures Written(g, blk, c, off, src, tot + m)
  {
    var o := off + tot;
    forall i | 0 <= i && i / 512 < |blk|
      ensures ByteAt(g, blk, i) == if o <= i < o + m then src[i - off] else ByteAt(h, blk, i)
    {
      if o <= i < o + m {
        ChunkPlace(o, |src| - tot, i);
      } else if i / 512 == o / 512 {
        assert i % 512 < o % 512 || i % 512 >= o % 512 + m;
      }
    }
  }

  /** Blocks touched: after a step the write has reached the next block, or its end. */
  lemma ChunkBlocks(off: nat, left: nat)
    requires left > 0
    ensures BlocksFor(off + Chunk(off, left)) == off / 512 + 1
    ensures Chunk(off, left) < left ==> (off + Chunk(off, left)) / 512 == off / 512 + 1
    ensures 0 < Chunk(off, left) <= left && off % 512 + Chunk(off, left) <= 512
  {
  }
}
