# lab5fs allocation engine and inode reader, in Dafny

lab5fs is a small Linux filesystem with a fixed image layout: a superblock, a
block bitmap, an inode bitmap and an inode table mapping inode numbers to the
blocks that hold the inode records. Blocks 0 to 6 are reserved by the layout.
This project models the two core source files:

- `lab5fs_super.c`: the mounted state `struct lab5fs_sb_info` and the
  operations that allocate and release block numbers and inode numbers,
  look up an inode's block, read an inode, clear it and write the superblock.
  Modules `Bitmap` and `Super`.
- `lab5fs_inode.c`: decoding an on-disk inode record into the VFS inode,
  with its little-endian 16- and 32-bit field conversions and the per-inode
  bookkeeping record (`struct lab5fs_inode_info`). Modules `Endian` and `Inode`.

`Layout` holds the constants of `lab5fs.h` that the code uses.

How the model is built:

- `Super.SbInfo` is the mounted state. It is a class with the two free counters,
  the block and inode bitmaps as `array<bool>` (bit n is element n), the inode
  table as an array of 32-bit entries, and one boolean per metadata buffer for
  `mark_buffer_dirty`, plus `sDirt` for `sb->s_dirt`. The four layout constants
  `LAB5FS_MAX_BLOCK_COUNT`, `LAB5FS_ROOT_DATA_FIRST_NUM`,
  `LAB5FS_MAX_INODE_COUNT` and `LAB5FS_ROOT_INODE` are not defined in any header
  of the repository. They are constant fields fixed at construction. `Valid()`
  assumes only what the code indexes: each bitmap covers its maximum count, and
  the table is longer than `LAB5FS_MAX_INODE_COUNT` because the lookup accepts
  that number itself.
- The kernel's `find_first_zero_bit` is given by its meaning
  (`Bitmap.FirstZeroBit`). `Super.Grant` is the decision shared by both
  allocators: refuse on a zero counter, on no clear bit, or on a lowest clear bit
  at or below the reserved boundary. Both allocators' `ensures` state the number
  returned as `Grant` of the old state. Every `SbInfo` and `VfsInode` method's
  `ensures` states its whole new state: which bit and table slot changed, the
  counters, the dirty flags, the inode's attributes. The `SbInfo` methods are
  framed field by field, so everything else is unchanged. `VfsInode.ReadIno` and
  `SbInfo.ReadInode` may write the whole inode object, and their `ensures` give
  every field of it. `Super.AllocThenReleaseBlock` states only the block bitmap
  and the free-block counter; the dirty flags it may set are not stated.
- `Bitmap.CountClear` counts free resources. The `BlockCountConsistent` and
  `InodeCountConsistent` invariants say a counter equals its bitmap's clear
  bits. The methods state their effect on these invariants:
  - allocation keeps them;
  - releasing a block keeps the block invariant exactly when the bit was set, so a
    double free breaks it;
  - `lab5fs_release_inode_num` as written breaks the block invariant, and the
    inode invariant when the bit was set (see Findings).
- The block read (`sb_bread`) is a parameter `dev: map<nat, DiskInode>`: the
  blocks whose read succeeds, each seen as an inode record. The `kmalloc` of the
  bookkeeping record is a parameter `allocOk`. `Inode.Decode` and
  `Inode.DecodeInfo` are the record decode. `Inode.Encode` is a reference
  inverse, not a source function, used to prove that decoding loses nothing.
- Locking (`lock_super`/`unlock_super`) is treated as making each operation
  atomic. `printk` is dropped.

Details of the code that the model keeps as written:
- `lab5fs_release_block_num` clears the bit and adds 1 to the counter without
  checking that the bit was set (lab5fs_super.c:143-146);
- uid and gid are read with `le32_to_cpu` (lab5fs_inode.c:62-63);
- the allocators refuse when the lowest clear bit is at or below the reserved
  boundary, rather than searching above it (lab5fs_super.c:94);
- the lookup accepts `LAB5FS_MAX_INODE_COUNT` itself (lab5fs_super.c:58);
- inode release increments the free-block counter (lab5fs_super.c:245).

## Model

| member | source | states |
|---|---|---|
| `Endian.Le16ToCpu` | lab5fs_inode.c:56-57 | the value of a 16-bit field is below 2^16, its low byte is the first stored byte and its high byte the second |
| `Endian.Le16RoundTrip` | lab5fs_inode.c:56-57 | re-encoding the value of any 16-bit field gives back the same bytes |
| `Endian.Le32ToCpu` | lab5fs_inode.c:58-66 | the value of a 32-bit field is below 2^32 |
| `Endian.Le32ToCpuBytes` | lab5fs_inode.c:58-66 | the four stored bytes of a 32-bit field are the bytes of its value, least significant first |
| `Endian.Le32RoundTrip` | lab5fs_inode.c:58-66 | re-encoding the value of any 32-bit field gives back the same four bytes |
| `Endian.Le32Injective` | lab5fs_inode.c:41 | two 32-bit fields with the same value are the same bytes |
| `Bitmap.FirstZeroBit` | lab5fs_super.c:93 | the result is at most size; below size it is a clear bit, and every lower bit is set |
| `Bitmap.CountClearUpdate` | lab5fs_super.c:99-100 | writing one bit changes the free count by exactly the difference between the old bit and the new bit |
| `Bitmap.CountClearZero` | lab5fs_super.c:87-98 | the free count is 0 if and only if every bit is set |
| `Inode.Decode` | lab5fs_inode.c:56-66 | a decoded inode's mode and link count fit 16 bits, its other stored fields fit 32 bits, and its block size is 1024 with block bits 10 whatever the disk holds |
| `Inode.DecodeInfo` | lab5fs_inode.c:41-53 | the bookkeeping record holds the block the inode was read from, and a data-index block number below 2^32 |
| `Inode.EncodeDecode` | lab5fs_inode.c:56-66 | re-encoding what was decoded reproduces the on-disk record byte for byte |
| `Inode.DecodeEncode` | lab5fs_inode.c:52-66 | decoding a stored record returns the stored attributes and bookkeeping |
| `Inode.VfsInode.ReadIno` | lab5fs_inode.c:22-85 | returns 0 exactly when the block read and the allocation both succeed, else -ENOMEM with no field written; on success the attributes are the decoding of the record and the private pointer holds the block number and the decoded data-index block |
| `Inode.VfsInode.Clear` | lab5fs_inode.c:88-92 | the private info pointer is left NULL |
| `Super.Grant` | lab5fs_super.c:87-98 | a number is granted only with a nonzero counter; it lies strictly between the reserved boundary and the bitmap size, is clear, and every lower bit is set; refusal happens if and only if the counter is 0, no bit is clear, or some reserved bit is clear, even when higher bits are free |
| `Super.GrantRefusesOnlyWhenExhausted` | lab5fs_super.c:87-98 | with a counter equal to the clear-bit count and all reserved bits set, allocation is refused if and only if the counter is 0 |
| `Super.ToU32` | lab5fs_super.c:190 | storing a C int in a 32-bit entry keeps non-negative 32-bit values and adds 2^32 to negative ones |
| `Super.LookupBlockNum` | lab5fs_super.c:58-67 | 0 for a number below the root inode or above the maximum inode count, the table entry otherwise; the maximum itself is looked up |
| `Super.AsWrittenAdmitsNegativeInodeNum` | lab5fs_super.c:223-234 | the release guard as written admits inode number -1, which the intended guard rejects |
| `Super.InodeNumReleasableAgreesOnNat` | lab5fs_super.c:223-234 | the intended guard admits only bitmap indexes above 0, and agrees with the written guard on every non-negative number |
| `Super.SbInfo.constructor` | lab5fs_super.c:290-302 | the mounted state holds the loaded counters, bitmaps and table, with no buffer dirty |
| `Super.SbInfo.FindBlockNum` | lab5fs_super.c:52-68 | the lookup of the inode number in the mounted inode table, reading nothing else |
| `Super.SbInfo.AllocBlockNum` | lab5fs_super.c:74-110 | returns the granted block or 0; on 0 nothing changes; otherwise only that bit is set, s_free_blocks_count drops by 1, both buffers and s_dirt are marked; the counter invariant and the reserved bits are kept; under them, 0 is returned only when the counter is 0 |
| `Super.SbInfo.ReleaseBlockNum` | lab5fs_super.c:116-155 | returns -1 with no change for a block at or below the boundary or at or above the maximum; otherwise clears only that bit, adds 1 to the counter even if the bit was clear, marks both buffers and s_dirt, returns 0; the counter invariant survives exactly when the bit was set |
| `Super.SbInfo.AllocInodeNum` | lab5fs_super.c:162-203 | returns the granted inode number or 0; on 0 nothing changes; otherwise only that bit is set and only that table slot is written, with the block number; s_free_inodes_count drops by 1; the three buffers and s_dirt are marked; the lookup of the new number then yields the block; the inode-count invariant is kept |
| `Super.SbInfo.ReleaseInodeNum` | lab5fs_super.c:209-254 | returns -1 with no change for 0, a negative number, or a number at or above the maximum; otherwise clears the bit, zeroes the table slot, adds 1 to s_free_blocks_count and leaves s_free_inodes_count unchanged; afterwards the lookup yields 0, the block-count invariant is broken, and so is the inode-count invariant if the bit was set |
| `Super.SbInfo.ReleaseInodeNumIntended` | lab5fs_super.c:236-249 | the release with the free-inode counter incremented instead: the inode-count invariant survives exactly when the bit was set |
| `Super.SbInfo.ClearInodeSlot` | lab5fs_super.c:239-247 | clears only bit n and table slot n, marks the inode buffers, superblock and s_dirt, and changes the clear-bit count by the old bit |
| `Super.SbInfo.ReadInode` | lab5fs_super.c:320-329 | the inode is decoded from the block the lookup gives, even when that block is 0, or left untouched when that read or the allocation fails |
| `Super.SbInfo.ClearInode` | lab5fs_super.c:374-378 | the inode's private info pointer is left NULL |
| `Super.SbInfo.WriteSuper` | lab5fs_super.c:382-386 | s_dirt is cleared and nothing else changes |
| `Super.AllocThenReleaseBlock` | lab5fs_super.c:99-146 | allocating a block and releasing the returned number restores the block bitmap and the free-block counter |

## Findings

| source | as written | input that shows it | evidently intended | confidence | as-written member | corrected member |
|---|---|---|---|---|---|---|
| lab5fs_super.c:223-234 | the release guard rejects only 0 and numbers at or above the maximum, so a negative `int` reaches `clear_bit` and `inodes[inode_num]` | `inode_num = -1` | reject every number not above 0 | high; not executed | `Super.AsWrittenAdmitsNegativeInodeNum` (guard `Super.InodeReleaseAdmittedAsWritten`) | `Super.InodeNumReleasable` with `Super.InodeNumReleasableAgreesOnNat`, used by both inode releases |
| lab5fs_super.c:245 | releasing an inode number increments `s_free_blocks_count` | any valid release, e.g. `inode_num = 7` after allocating it | increment `s_free_inodes_count` | high; not executed | `Super.SbInfo.ReleaseInodeNum` (its ensures prove the block-count invariant broken, and the inode-count invariant when the bit was set) | `Super.SbInfo.ReleaseInodeNumIntended` (its ensures prove the inode-count invariant kept) |

## Left out

- `lab5fs_fill_super` and `lab5fs_put_super`: buffer reads, `kmalloc`/`kfree`, the VFS superblock setup and `iget` of the root. The constructor stands for the state fill_super assembles. The magic number is not checked by the source either.
- `lab5fs_write_inode`: it calls `lab5fs_inode_write_ino`, which is not part of this model. `Inode.Encode` is only a reference inverse of the decoder.
- `lab5fs_delete_inode`: it depends on `lab5fs_inode_clear_blocks` and `lab5fs_inode_free_inode`, which are not part of this model.
- Directory insert, remove, lookup and readdir, create, unlink and the data index: no bodies for them exist in the repository files modelled (`lab5fs_readdir` is only declared).
- The assignment of the `i_op`, `i_fop` and `a_ops` tables (lab5fs_inode.c:71-73), which are empty.
- Release of the inode block's buffer: it is never released on the success path. Buffer write-back is left out too; only the dirty flags are modelled.
- `lock_super`/`unlock_super`: each operation is modelled as atomic. `printk` logging is dropped.
- The block read and the allocation of the bookkeeping record are I/O. They are parameters (`dev`, `allocOk`).
- The byte packing of the bitmaps: bit n is element n of a boolean array. The placement of bits in words, which `set_bit` and `find_first_zero_bit` use, is not modelled.
- The byte layout of the on-disk inode record is not given by any header. The record keeps only the fields the decoder reads, each as bytes of the width of its conversion.
- The inode table holds 32-bit values, and the model assumes a little-endian host. There `le32_to_cpu` at lab5fs_super.c:64 is the identity, and the store at line 190 writes the host value without conversion, so both are plain 32-bit entries. On a big-endian host the raw store at line 190 and the `le32_to_cpu` read at line 64 would disagree: the lookup would return the stored block number with its bytes reversed.
- Inode.VfsInode.ReadIno: the VFS inode fields are unbounded naturals, and the model assumes a host whose `time_t` holds every 32-bit value (a 64-bit host). lab5fs_inode.c:64-66 store the 32-bit result of `le32_to_cpu` into `tv_sec`, a signed `long`; on a 32-bit host a stored time of 2^31 or more becomes negative there (bytes 0, 0, 0, 0x80 give -2^31), while the model's `atime`, `mtime` and `ctime` keep the unsigned value.
- Super.SbInfo.ReleaseBlockNum: the counter is an unbounded natural. The width of `s_free_blocks_count` is not given by any header, so a wrap-around after repeated double frees is not modelled.
- Super.SbInfo.ReleaseInodeNum: the same holds for its increment of `s_free_blocks_count`.
- Super.SbInfo.ReleaseInodeNum: a negative inode number is rejected with -1 and no change. The guard as written (lab5fs_super.c:223-234) lets it through to `clear_bit` and `inodes[inode_num] = 0` at lines 239-241, accesses outside the bitmap and table that the model cannot represent. `Super.AsWrittenAdmitsNegativeInodeNum` shows the written guard admitting -1.
- `lab5fs.c` (module init and exit logging) and `lab5mkfs.c` (writes a stub superblock to a file) have no logic to model. The `lab5fs_super_block` and `lab5fs_inode` structs of `lab5fs.h` do not match the fields the code uses. Only `LAB5FS_BITS` and the block size are taken from that header.
