/** Constants of the kernel, as its headers fix them. */
module Params {
  const NBUF: nat := 10       // buffers in the block cache
  const LOGSIZE: nat := 10    // sectors a log header can name
  const ROOTDEV: int := 1     // the file system's device
  const NODEV: int := -1      // device of a buffer that caches nothing
  const BSIZE: nat := 512     // bytes in a block
  const WORDS: nat := 128     // 32-bit words in a block
  const BPB: nat := 4096      // bitmap bits in a block
  const IPB: nat := 8         // on-disk inodes in a block
  const NDIRECT: nat := 12    // direct block addresses of an inode
  const NINDIRECT: nat := 128 // block addresses in the indirect block
  const MAXFILE: nat := 140   // blocks in the largest file
  const ROOTINO: nat := 1     // inode number of the root directory
  const DIRSIZ: nat := 14     // bytes of a name in a directory entry
  const NINODE: nat := 50     // entries of the inode cache
  const TWO32: nat := 0x1_0000_0000
  const TWO31: nat := 0x8000_0000
  const TWO16: nat := 0x1_0000

  const NUM_IDS: nat := 64    // threads, and the null thread index
  const MAX_CHILDREN: nat := 3
}
