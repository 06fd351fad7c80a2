/**
 * lab5fs_super.c: the mounted filesystem's allocation state (superblock
 * counters, block and inode bitmaps, inode table) and the operations that
 * allocate, release and look up block and inode numbers.
 */
module Super {
  import opened Endian
  import opened Bitmap
  import opened Inode

  /**
   * The allocation policy shared by lab5fs_alloc_block_num and
   * lab5fs_alloc_inode_num: the number that is handed out, 0 meaning refusal.
   * free is the superblock's free counter, size the bitmap's bit count and
   * reserved the highest number that may never be handed out.
   */
  function Grant(free: nat, bits: seq<bool>, size: nat, reserved: nat): (n: nat)
    requires size <= |bits|
    ensures n != 0 ==> free != 0 && reserved < n < size && !bits[n]
    ensures n != 0 ==> forall j :: 0 <= j < n ==> bits[j]
    ensures n == 0 <==>
      || free == 0
      || (forall j :: 0 <= j < size ==> bits[j])
      || (exists j :: 0 <= j <= reserved && j < size && !bits[j])
  {
    if free == 0 then 0
    else
      var b := FirstZeroBit(bits, size);
      if b >= size || b <= reserved then 0 else b
  }

  /**
   * With a counter that matches its bitmap and every reserved number marked in
   * use (as a freshly made image has them), allocation is refused only when the
   * counter is 0.
   */
  lemma GrantRefusesOnlyWhenExhausted(free: nat, bits: seq<bool>, size: nat, reserved: nat)
    requires size <= |bits|
    requires free == CountClear(bits[..size])
    requires forall j :: 0 <= j <= reserved && j < size ==> bits[j]
    ensures Grant(free, bits, size, reserved) == 0 <==> free == 0
  {
    CountClearZero(bits[..size]);
    if free != 0 {
      var j :| 0 <= j < size && !bits[..size][j];
      assert !bits[j];
    }
  }

  /** The conversion of a C int to a 32-bit unsigned table entry. */
  function ToU32(x: int): (r: u32)
    ensures 0 <= x < U32_LIMIT ==> r == x
    ensures -(U32_LIMIT as int) <= x < 0 ==> r == x + U32_LIMIT
  {
    x % U32_LIMIT
  }

  /** A 32-bit unsigned value, the type of an inode-table entry. */
  type u32 = x: int | 0 <= x < 0x1_0000_0000

  /** The inode-table entry of an unmapped inode number. */
  const NO_BLOCK: u32 := 0

  /**
   * The lookup of lab5fs_find_block_num: 0 for a number below rootInode or
   * above maxInodeCount, otherwise the table entry. maxInodeCount itself is in range.
   */
  function LookupBlockNum(table: seq<u32>, inoNum: nat, rootInode: nat, maxInodeCount: nat): (r: u32)
    requires maxInodeCount < |table|
    ensures inoNum < rootInode || maxInodeCount < inoNum ==> r == 0
    ensures rootInode <= inoNum <= maxInodeCount ==> r == table[inoNum]
  {
    if inoNum < rootInode || inoNum > maxInodeCount then 0
    else table[inoNum]
  }

  /**
   * The acceptance test of lab5fs_release_inode_num as written: it rejects 0
   * and numbers at or above maxInodeCount, and nothing else.
   */
  predicate InodeReleaseAdmittedAsWritten(inodeNum: int, maxInodeCount: nat) {
    !(inodeNum == 0) && !(inodeNum >= maxInodeCount)
  }

  /** The test as intended: only numbers that index the inode bitmap, 0 excluded. */
  predicate InodeNumReleasable(inodeNum: int, maxInodeCount: nat) {
    0 < inodeNum < maxInodeCount
  }

  /** The test as written lets a negative number through to clear_bit and the table store. */
  lemma AsWrittenAdmitsNegativeInodeNum(maxInodeCount: nat)
    ensures InodeReleaseAdmittedAsWritten(-1, maxInodeCount)
    ensures !InodeNumReleasable(-1, maxInodeCount)
  {
  }

  /** The intended test differs from the written one only on negative numbers. */
  lemma InodeNumReleasableAgreesOnNat(inodeNum: int, maxInodeCount: nat)
    ensures InodeNumReleasable(inodeNum, maxInodeCount) ==> 0 <= inodeNum < maxInodeCount
    ensures 0 <= inodeNum ==>
      (InodeNumReleasable(inodeNum, maxInodeCount) <==> InodeReleaseAdmittedAsWritten(inodeNum, maxInodeCount))
  {
  }

  /**
   * struct lab5fs_sb_info together with the s_dirt flag of the VFS superblock
   * it hangs off. The four constants of the on-disk layout are fixed at mount.
   */
  class SbInfo {
    /** LAB5FS_MAX_BLOCK_COUNT */
    const maxBlockCount: nat
    /** LAB5FS_ROOT_DATA_FIRST_NUM: the highest reserved block */
    const rootDataFirstNum: nat
    /** LAB5FS_MAX_INODE_COUNT */
    const maxInodeCount: nat
    /** LAB5FS_ROOT_INODE */
    const rootInode: nat

    /** s_free_blocks_count and s_free_inodes_count of the lab5fs superblock */
    var freeBlocksCount: nat
    var freeInodesCount: nat

    /** the block bitmap, the inode bitmap and the inode table, bit or slot n for number n */
    const blockBitmap: array<bool>
    const inodeBitmap: array<bool>
    const inodeTable: array<u32>

    /** dirty state of the four metadata buffers, and sb->s_dirt */
    var sbDirty: bool
    var blockBitmapDirty: bool
    var inodeBitmapDirty: bool
    var inodeTableDirty: bool
    var sDirt: bool

    /** The buffers cover every number the code indexes them with. */
    ghost predicate Valid() {
      && maxBlockCount <= blockBitmap.Length
      && maxInodeCount <= inodeBitmap.Length
      && maxInodeCount < inodeTable.Length
      && blockBitmap != inodeBitmap
    }

    /** s_free_blocks_count equals the number of clear bits of the block bitmap. */
    ghost predicate BlockCountConsistent()
      reads this, blockBitmap
    {
      maxBlockCount <= blockBitmap.Length &&
      freeBlocksCount == CountClear(blockBitmap[..maxBlockCount])
    }

    /** s_free_inodes_count equals the number of clear bits of the inode bitmap. */
    ghost predicate InodeCountConsistent()
      reads this, inodeBitmap
    {
      maxInodeCount <= inodeBitmap.Length &&
      freeInodesCount == CountClear(inodeBitmap[..maxInodeCount])
    }

    /** Blocks 0 to ROOT_DATA_FIRST_NUM are marked in use, as the image layout has them. */
    ghost predicate ReservedBlocksInUse()
      reads this, blockBitmap
    {
      forall j :: 0 <= j <= rootDataFirstNum && j < maxBlockCount && j < blockBitmap.Length ==> blockBitmap[j]
    }

    /** The state lab5fs_fill_super assembles from the four metadata blocks. */
    constructor (maxBlockCount: nat, rootDataFirstNum: nat, maxInodeCount: nat, rootInode: nat,
                 freeBlocks: nat, freeInodes: nat,
                 blockBits: seq<bool>, inodeBits: seq<bool>, table: seq<u32>)
      requires maxBlockCount <= |blockBits| && maxInodeCount <= |inodeBits| && maxInodeCount < |table|
      ensures Valid() && fresh(blockBitmap) && fresh(inodeBitmap) && fresh(inodeTable)
      ensures this.maxBlockCount == maxBlockCount && this.rootDataFirstNum == rootDataFirstNum
      ensures this.maxInodeCount == maxInodeCount && this.rootInode == rootInode
      ensures freeBlocksCount == freeBlocks && freeInodesCount == freeInodes
      ensures blockBitmap[..] == blockBits && inodeBitmap[..] == inodeBits && inodeTable[..] == table
      ensures !sbDirty && !blockBitmapDirty && !inodeBitmapDirty && !inodeTableDirty && !sDirt
    {
      this.maxBlockCount := maxBlockCount;
      this.rootDataFirstNum := rootDataFirstNum;
      this.maxInodeCount := maxInodeCount;
      this.rootInode := rootInode;
      freeBlocksCount, freeInodesCount := freeBlocks, freeInodes;
      blockBitmap := new bool[|blockBits|](i requires 0 <= i < |blockBits| => blockBits[i]);
      inodeBitmap := new bool[|inodeBits|](i requires 0 <= i < |inodeBits| => inodeBits[i]);
      inodeTable := new u32[|table|](i requires 0 <= i < |table| => table[i]);
      sbDirty, blockBitmapDirty, inodeBitmapDirty, inodeTableDirty, sDirt := false, false, false, false, false;
    }

    /**
     * lab5fs_find_block_num: the block holding inode inoNum, looked up in
     * this superblock's inode table.
     */
    function FindBlockNum(inoNum: nat): (r: u32)
      reads inodeTable
      requires Valid()
      ensures r == LookupBlockNum(inodeTable[..], inoNum, rootInode, maxInodeCount)
    {
      LookupBlockNum(inodeTable[..], inoNum, rootInode, maxInodeCount)
    }

    /**
     * lab5fs_alloc_block_num: take the lowest clear bit of the block bitmap,
     * 0 when the counter is 0, no bit is clear, or the lowest clear bit is reserved.
     */
    method AllocBlockNum() returns (blockNum: int)
      requires Valid()
      modifies this`freeBlocksCount, this`sbDirty, this`blockBitmapDirty, this`sDirt, blockBitmap
      ensures blockNum == Grant(old(freeBlocksCount), old(blockBitmap[..]), maxBlockCount, rootDataFirstNum)
      ensures blockNum == 0 ==>
        && blockBitmap[..] == old(blockBitmap[..])
        && freeBlocksCount == old(freeBlocksCount)
        && sbDirty == old(sbDirty) && blockBitmapDirty == old(blockBitmapDirty) && sDirt == old(sDirt)
      ensures blockNum != 0 ==>
        && blockBitmap[..] == old(blockBitmap[..])[blockNum := true]
        && freeBlocksCount == old(freeBlocksCount) - 1
        && sbDirty && blockBitmapDirty && sDirt
      ensures old(BlockCountConsistent()) ==> BlockCountConsistent()
      ensures old(ReservedBlocksInUse()) ==> ReservedBlocksInUse()
      ensures old(BlockCountConsistent()) && old(ReservedBlocksInUse()) ==>
        (blockNum == 0 <==> old(freeBlocksCount) == 0)
    {
      if BlockCountConsistent() && ReservedBlocksInUse() {
        GrantRefusesOnlyWhenExhausted(freeBlocksCount, blockBitmap[..], maxBlockCount, rootDataFirstNum);
      }
      blockNum := 0;
      if freeBlocksCount == 0 {
        return;
      }
      var b := FirstZeroBit(blockBitmap[..], maxBlockCount);
      if b >= maxBlockCount || b <= rootDataFirstNum {
        return;
      }
      ghost var before := blockBitmap[..maxBlockCount];
      blockBitmap[b] := true;
      assert blockBitmap[..maxBlockCount] == before[b := true];
      CountClearUpdate(before, b, true);
      freeBlocksCount := freeBlocksCount - 1;
      blockBitmapDirty := true;
      sbDirty := true;
      sDirt := true;
      blockNum := b;
    }

    /**
     * lab5fs_release_block_num: clear bit blockNum; -1 for a reserved or
     * out-of-range number. A bit that is already clear is not detected.
     */
    method ReleaseBlockNum(blockNum: int) returns (r: int)
      requires Valid()
      modifies this`freeBlocksCount, this`sbDirty, this`blockBitmapDirty, this`sDirt, blockBitmap
      ensures r == (if blockNum <= rootDataFirstNum || blockNum >= maxBlockCount then -1 else 0)
      ensures r != 0 ==>
        && blockBitmap[..] == old(blockBitmap[..])
        && freeBlocksCount == old(freeBlocksCount)
        && sbDirty == old(sbDirty) && blockBitmapDirty == old(blockBitmapDirty) && sDirt == old(sDirt)
      ensures r == 0 ==>
        && blockBitmap[..] == old(blockBitmap[..])[blockNum := false]
        && freeBlocksCount == old(freeBlocksCount) + 1
        && sbDirty && blockBitmapDirty && sDirt
      ensures r == 0 && old(BlockCountConsistent()) ==>
        (BlockCountConsistent() <==> old(blockBitmap[blockNum]))
      ensures old(ReservedBlocksInUse()) ==> ReservedBlocksInUse()
    {
      if blockNum <= rootDataFirstNum {
        return -1;
      }
      if blockNum >= maxBlockCount {
        return -1;
      }
      ghost var before := blockBitmap[..maxBlockCount];
      blockBitmap[blockNum] := false;
      assert blockBitmap[..maxBlockCount] == before[blockNum := false];
      CountClearUpdate(before, blockNum, false);
      blockBitmapDirty := true;
      freeBlocksCount := freeBlocksCount + 1;
      sbDirty := true;
      sDirt := true;
      r := 0;
    }

    /**
     * lab5fs_alloc_inode_num: take the lowest clear bit of the inode bitmap
     * and map that inode number to blockNum in the inode table; 0 on refusal.
     */
    method AllocInodeNum(blockNum: int) returns (inodeNum: int)
      requires Valid()
      modifies this`freeInodesCount, this`sbDirty, this`inodeBitmapDirty, this`inodeTableDirty, this`sDirt
      modifies inodeBitmap, inodeTable
      ensures inodeNum == Grant(old(freeInodesCount), old(inodeBitmap[..]), maxInodeCount, rootInode)
      ensures inodeNum == 0 ==>
        && inodeBitmap[..] == old(inodeBitmap[..])
        && inodeTable[..] == old(inodeTable[..])
        && freeInodesCount == old(freeInodesCount)
        && sbDirty == old(sbDirty) && inodeBitmapDirty == old(inodeBitmapDirty)
        && inodeTableDirty == old(inodeTableDirty) && sDirt == old(sDirt)
      ensures inodeNum != 0 ==>
        && inodeBitmap[..] == old(inodeBitmap[..])[inodeNum := true]
        && inodeTable[..] == old(inodeTable[..])[inodeNum := ToU32(blockNum)]
        && freeInodesCount == old(freeInodesCount) - 1
        && sbDirty && inodeBitmapDirty && inodeTableDirty && sDirt
      ensures inodeNum != 0 ==> FindBlockNum(inodeNum) == ToU32(blockNum)
      ensures old(InodeCountConsistent()) ==> InodeCountConsistent()
      ensures old(InodeCountConsistent()) &&
              (forall j :: 0 <= j <= rootInode && j < maxInodeCount ==> old(inodeBitmap[j])) ==>
        (inodeNum == 0 <==> old(freeInodesCount) == 0)
    {
      if InodeCountConsistent() && forall j :: 0 <= j <= rootInode && j < maxInodeCount ==> inodeBitmap[j] {
        GrantRefusesOnlyWhenExhausted(freeInodesCount, inodeBitmap[..], maxInodeCount, rootInode);
      }
      inodeNum := 0;
      if freeInodesCount == 0 {
        return;
      }
      var n := FirstZeroBit(inodeBitmap[..], maxInodeCount);
      if n >= maxInodeCount || n <= rootInode {
        return;
      }
      ghost var before := inodeBitmap[..maxInodeCount];
      inodeBitmap[n] := true;
      assert inodeBitmap[..maxInodeCount] == before[n := true];
      CountClearUpdate(before, n, true);
      // a C int stored in a 32-bit entry keeps its low 32 bits
      inodeTable[n] := ToU32(blockNum);
      freeInodesCount := freeInodesCount - 1;
      inodeTableDirty := true;
      inodeBitmapDirty := true;
      sbDirty := true;
      sDirt := true;
      inodeNum := n;
    }

    /**
     * lab5fs_release_inode_num as written: clear bit inodeNum and unmap it,
     * -1 when the number is rejected. It increments the free-BLOCK counter and
     * leaves the free-inode counter alone, which breaks the block counter's
     * invariant, and the inode counter's when the bit was set.
     */
    method ReleaseInodeNum(inodeNum: int) returns (r: int)
      requires Valid()
      modifies this`freeBlocksCount, this`sbDirty, this`inodeBitmapDirty, this`inodeTableDirty, this`sDirt
      modifies inodeBitmap, inodeTable
      ensures r == (if InodeNumReleasable(inodeNum, maxInodeCount) then 0 else -1)
      ensures r != 0 ==>
        && inodeBitmap[..] == old(inodeBitmap[..])
        && inodeTable[..] == old(inodeTable[..])
        && freeBlocksCount == old(freeBlocksCount)
        && sbDirty == old(sbDirty) && inodeBitmapDirty == old(inodeBitmapDirty)
        && inodeTableDirty == old(inodeTableDirty) && sDirt == old(sDirt)
      ensures r == 0 ==>
        && inodeBitmap[..] == old(inodeBitmap[..])[inodeNum := false]
        && inodeTable[..] == old(inodeTable[..])[inodeNum := NO_BLOCK]
        && freeBlocksCount == old(freeBlocksCount) + 1
        && sbDirty && inodeBitmapDirty && inodeTableDirty && sDirt
      ensures r == 0 ==> FindBlockNum(inodeNum) == 0
      ensures r == 0 && old(BlockCountConsistent()) ==> !BlockCountConsistent()
      ensures r == 0 && old(InodeCountConsistent()) && old(inodeBitmap[inodeNum]) ==> !InodeCountConsistent()
    {
      if !InodeNumReleasable(inodeNum, maxInodeCount) {
        return -1;
      }
      ghost var blocksBefore := blockBitmap[..maxBlockCount];
      ClearInodeSlot(inodeNum);
      freeBlocksCount := freeBlocksCount + 1;
      assert blockBitmap[..maxBlockCount] == blocksBefore;
      r := 0;
    }

    /**
     * lab5fs_release_inode_num with the counter it evidently means: the
     * free-inode counter is incremented and the block counter is left alone.
     */
    method ReleaseInodeNumIntended(inodeNum: int) returns (r: int)
      requires Valid()
      modifies this`freeInodesCount, this`sbDirty, this`inodeBitmapDirty, this`inodeTableDirty, this`sDirt
      modifies inodeBitmap, inodeTable
      ensures r == (if InodeNumReleasable(inodeNum, maxInodeCount) then 0 else -1)
      ensures r != 0 ==>
        && inodeBitmap[..] == old(inodeBitmap[..])
        && inodeTable[..] == old(inodeTable[..])
        && freeInodesCount == old(freeInodesCount)
        && sbDirty == old(sbDirty) && inodeBitmapDirty == old(inodeBitmapDirty)
        && inodeTableDirty == old(inodeTableDirty) && sDirt == old(sDirt)
      ensures r == 0 ==>
        && inodeBitmap[..] == old(inodeBitmap[..])[inodeNum := false]
        && inodeTable[..] == old(inodeTable[..])[inodeNum := NO_BLOCK]
        && freeInodesCount == old(freeInodesCount) + 1
        && sbDirty && inodeBitmapDirty && inodeTableDirty && sDirt
      ensures r == 0 ==> FindBlockNum(inodeNum) == 0
      ensures r == 0 && old(InodeCountConsistent()) ==>
        (InodeCountConsistent() <==> old(inodeBitmap[inodeNum]))
    {
      if !InodeNumReleasable(inodeNum, maxInodeCount) {
        return -1;
      }
      ClearInodeSlot(inodeNum);
      freeInodesCount := freeInodesCount + 1;
      r := 0;
    }

    /** The part both releases share: clear the bit, zero the table slot, mark the buffers. */
    method ClearInodeSlot(inodeNum: nat)
      requires Valid() && 0 < inodeNum < maxInodeCount
      modifies this`sbDirty, this`inodeBitmapDirty, this`inodeTableDirty, this`sDirt
      modifies inodeBitmap, inodeTable
      ensures inodeBitmap[..] == old(inodeBitmap[..])[inodeNum := false]
      ensures inodeTable[..] == old(inodeTable[..])[inodeNum := NO_BLOCK]
      ensures sbDirty && inodeBitmapDirty && inodeTableDirty && sDirt
      ensures CountClear(inodeBitmap[..maxInodeCount]) + (if old(inodeBitmap[inodeNum]) then 0 else 1)
           == CountClear(old(inodeBitmap[..maxInodeCount])) + 1
      ensures FindBlockNum(inodeNum) == 0
    {
      ghost var before := inodeBitmap[..maxInodeCount];
      inodeBitmap[inodeNum] := false;
      assert inodeBitmap[..maxInodeCount] == before[inodeNum := false];
      CountClearUpdate(before, inodeNum, false);
      inodeTable[inodeNum] := NO_BLOCK;
      inodeTableDirty := true;
      inodeBitmapDirty := true;
      sbDirty := true;
      sDirt := true;
    }

    /**
     * lab5fs_read_inode: look up the inode's block and decode it, passing the
     * looked-up number to the decoder even when it is 0.
     */
    method ReadInode(ino: VfsInode, dev: map<nat, DiskInode>, allocOk: bool)
      requires Valid()
      modifies ino
      ensures ino.ino == old(ino.ino)
      ensures var b := FindBlockNum(ino.ino);
        if b in dev && allocOk then
          ino.Attrs() == Decode(dev[b]) && ino.info == Some(DecodeInfo(dev[b], b))
        else
          ino.Attrs() == old(ino.Attrs()) && ino.info == old(ino.info)
      ensures FindBlockNum(ino.ino) == 0 && 0 in dev && allocOk ==> ino.Attrs() == Decode(dev[0])
    {
      var b := FindBlockNum(ino.ino);
      var _ := ino.ReadIno(dev, b, allocOk);
    }

    /** lab5fs_clear_inode: hand the inode to lab5fs_inode_clear. */
    method ClearInode(ino: VfsInode)
      modifies ino`info
      ensures ino.info == None
    {
      ino.Clear();
    }

    /** lab5fs_write_super: the metadata buffers are written back by the buffer cache; only s_dirt is reset. */
    method WriteSuper()
      modifies this`sDirt
      ensures !sDirt
    {
      sDirt := false;
    }
  }

  /**
   * A caller that allocates a block and releases it again finds the block
   * bitmap and the free-block counter as they were.
   */
  method AllocThenReleaseBlock(sb: SbInfo) returns (blockNum: int)
    requires sb.Valid()
    modifies sb`freeBlocksCount, sb`sbDirty, sb`blockBitmapDirty, sb`sDirt, sb.blockBitmap
    ensures sb.blockBitmap[..] == old(sb.blockBitmap[..])
    ensures sb.freeBlocksCount == old(sb.freeBlocksCount)
  {
    blockNum := sb.AllocBlockNum();
    if blockNum != 0 {
      var r := sb.ReleaseBlockNum(blockNum);
      assert r == 0;
    }
  }
}
