/** Fixed geometry of a lab5fs image, as lab5fs.h and lab5fs_inode.c use it. */
module Layout {
  /** LAB5FS_BITS: the block size is 2^BITS bytes. */
  const BITS: nat := 10

  /** LAB5FS_BLOCK_SIZE (LAB5FS_BSIZE in lab5fs.h): bytes per block. */
  const BLOCK_SIZE: nat := 1024

  /** Errno value that lab5fs_inode_read_ino negates on failure. */
  const ENOMEM: int := 12
}
