/** The on-disk inode of kern/fs/dinode.h: sixteen words, eight inodes to a block. */
module DiskInode {
  import opened Params
  import opened Blocks

  type Half = x: nat | x < 0x1_0000
  type Addrs = a: seq<Word32> | |a| == NDIRECT + 1 witness seq(NDIRECT + 1, _ => 0)

  datatype DInode = DInode(typ: Half, major: Half, minor: Half, nlink: Half, size: Word32, addrs: Addrs)

  const DIWORDS: nat := 16

  /** Word i of slot k. */
  function Field(b: Block, k: nat, i: nat): Word32
    requires k < IPB && i < DIWORDS
  {
    Word(b, 16 * k + i)
  }

  function LoadAddrs(b: Block, k: nat): (a: seq<Word32>)
    requires k < IPB
    ensures |a| == NDIRECT + 1
    ensures forall i | 0 <= i < NDIRECT + 1 :: a[i] == Field(b, k, 3 + i)
  {
    seq(NDIRECT + 1, i requires 0 <= i < NDIRECT + 1 => Field(b, k, 3 + i))
  }

  /** The inode in slot k of an inode block. */
  function Load(b: Block, k: nat): DInode
    requires k < IPB
  {
    DInode(Field(b, k, 0) % 0x1_0000, Field(b, k, 0) / 0x1_0000,
           Field(b, k, 1) % 0x1_0000, Field(b, k, 1) / 0x1_0000,
           Field(b, k, 2), LoadAddrs(b, k))
  }

  /** The little-endian 16-bit number at byte `at`. */
  function Short(b: Block, at: nat): nat
    requires at + 2 <= BSIZE
  {
    b[at] as nat + 0x100 * b[at + 1] as nat
  }

  /** The inode in slot k lies in its 64 bytes as the C structure does: type, major, minor and link count of two
      bytes each, size and thirteen addresses of four. */
  lemma LoadBytes(b: Block, k: nat, i: nat)
    requires k < IPB && i <= NDIRECT
    ensures var d := Load(b, k);
            && d.typ == Short(b, 64 * k) && d.major == Short(b, 64 * k + 2)
            && d.minor == Short(b, 64 * k + 4) && d.nlink == Short(b, 64 * k + 6)
            && d.size == Short(b, 64 * k + 8) + 0x1_0000 * Short(b, 64 * k + 10)
            && d.addrs[i] == Short(b, 64 * k + 12 + 4 * i) + 0x1_0000 * Short(b, 64 * k + 14 + 4 * i)
  {
    Halves(b, 16 * k);
    Halves(b, 16 * k + 1);
    Halves(b, 16 * k + 2);
    Halves(b, 16 * k + 3 + i);
  }

  lemma Halves(b: Block, j: nat)
    requires j < WORDS
    ensures Word(b, j) == Short(b, 4 * j) + 0x1_0000 * Short(b, 4 * j + 2)
    ensures Word(b, j) % 0x1_0000 == Short(b, 4 * j) && Word(b, j) / 0x1_0000 == Short(b, 4 * j + 2)
  {
    var lo, hi := Short(b, 4 * j), Short(b, 4 * j + 2);
    assert lo < 0x1_0000;
    assert Word(b, j) == lo + 0x1_0000 * hi;
  }

  function Encode(d: DInode): (ws: seq<Word32>)
    ensures |ws| == DIWORDS
  {
    [d.typ as nat + 0x1_0000 * d.major as nat, d.minor as nat + 0x1_0000 * d.nlink as nat, d.size] + d.addrs
  }

  /** The block after the words ws are stored from word `at` on. */
  function SetWords(b: Block, at: nat, ws: seq<Word32>): Block
    requires at + |ws| <= WORDS
    decreases |ws|
  {
    if ws == [] then b else SetWords(SetWord(b, at, ws[0]), at + 1, ws[1..])
  }

  lemma {:induction false} WordOfSetWords(b: Block, at: nat, ws: seq<Word32>, j: nat)
    requires at + |ws| <= WORDS && j < WORDS
    ensures Word(SetWords(b, at, ws), j) == if at <= j < at + |ws| then ws[j - at] else Word(b, j)
    decreases |ws|
  {
    hide Word, SetWord;
    if ws != [] {
      WordOfSetWord(b, at, ws[0], j);
      WordOfSetWords(SetWord(b, at, ws[0]), at + 1, ws[1..], j);
    }
  }

  /** The block after slot k is overwritten, as inode_update does. */
  function Store(b: Block, k: nat, d: DInode): Block
    requires k < IPB
  {
    SetWords(b, 16 * k, Encode(d))
  }

  /** Storing an inode: it reads back as stored, and the other inodes of the block as before. */
  lemma LoadOfStore(b: Block, k: nat, d: DInode, j: nat)
    requires k < IPB && j < IPB
    ensures Load(Store(b, k, d), j) == if j == k then d else Load(b, j)
  {
    hide Word, SetWords, LoadAddrs;
    var c := Store(b, k, d);
    forall i | 0 <= i < DIWORDS
      ensures Field(c, j, i) == if j == k then Encode(d)[i] else Field(b, j, i)
    {
      WordOfSetWords(b, 16 * k, Encode(d), 16 * j + i);
    }
    assert LoadAddrs(c, j) == if j == k then d.addrs else LoadAddrs(b, j);
  }
}
