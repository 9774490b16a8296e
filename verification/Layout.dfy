/** On-disk layout: superblock fields and where inodes and bitmap bits live (kern/fs/dinode.h). */
module Layout {
  import opened Params
  import opened Blocks

  function SbSize(sb: Block): nat { Word(sb, 0) }
  function SbNinodes(sb: Block): nat { Word(sb, 2) }
  function SbNlog(sb: Block): nat { Word(sb, 3) }

  /** Block holding inode i. */
  function IBlock(i: nat): nat { i / IPB + 2 }

  /** Block holding the bitmap bit of block b. */
  function BBlock(b: nat, ninodes: nat): nat { b / BPB + ninodes / IPB + 3 }
}
