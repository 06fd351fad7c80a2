/**
 * lab5fs_inode.c: reading an on-disk inode record into the VFS inode, and
 * dropping the per-inode bookkeeping record again.
 */
module Inode {
  import opened Layout
  import opened Endian

  datatype Option<T> = None | Some(value: T)

  /**
   * The on-disk inode record, restricted to the fields lab5fs_inode_read_ino
   * reads; each is a little-endian byte field of the width its conversion implies.
   */
  datatype DiskInode = DiskInode(
    mode: Le16,
    linkCount: Le16,
    size: Le32,
    numBlocks: Le32,
    uid: Le32,
    gid: Le32,
    atime: Le32,
    mtime: Le32,
    ctime: Le32,
    dataIndexBlockNum: Le32)

  /** struct lab5fs_inode_info: where the inode and its data index live. */
  datatype InodeInfo = InodeInfo(blockNum: nat, biBlockNum: nat)

  /** The attributes of a VFS inode that lab5fs_inode_read_ino fills in. */
  datatype InodeAttrs = InodeAttrs(
    mode: nat,
    nlink: nat,
    size: nat,
    blksize: nat,
    blkbits: nat,
    blocks: nat,
    uid: nat,
    gid: nat,
    atime: nat,
    mtime: nat,
    ctime: nat)

  /**
   * Attributes one on-disk record can hold: mode and link count in 16 bits,
   * the other stored fields in 32 bits, and the fixed block geometry.
   */
  predicate Representable(a: InodeAttrs) {
    && a.mode < U16_LIMIT && a.nlink < U16_LIMIT
    && a.size < U32_LIMIT && a.blocks < U32_LIMIT
    && a.uid < U32_LIMIT && a.gid < U32_LIMIT
    && a.atime < U32_LIMIT && a.mtime < U32_LIMIT && a.ctime < U32_LIMIT
    && a.blksize == BLOCK_SIZE && a.blkbits == BITS
  }

  /** The attributes a record decodes to; the block size and its log are not on disk. */
  function Decode(d: DiskInode): (a: InodeAttrs)
    ensures Representable(a)
  {
    InodeAttrs(
      mode := Le16ToCpu(d.mode),
      nlink := Le16ToCpu(d.linkCount),
      size := Le32ToCpu(d.size),
      blksize := BLOCK_SIZE,
      blkbits := BITS,
      blocks := Le32ToCpu(d.numBlocks),
      uid := Le32ToCpu(d.uid),
      gid := Le32ToCpu(d.gid),
      atime := Le32ToCpu(d.atime),
      mtime := Le32ToCpu(d.mtime),
      ctime := Le32ToCpu(d.ctime))
  }

  /** The bookkeeping record for an inode read from block blockNum. */
  function DecodeInfo(d: DiskInode, blockNum: nat): (i: InodeInfo)
    ensures i.blockNum == blockNum
    ensures i.biBlockNum < U32_LIMIT
  {
    InodeInfo(blockNum, Le32ToCpu(d.dataIndexBlockNum))
  }

  /**
   * The record that stores the given attributes and data-index block: the
   * reference inverse of Decode and DecodeInfo.
   */
  function Encode(a: InodeAttrs, biBlockNum: nat): (d: DiskInode)
    requires Representable(a) && biBlockNum < U32_LIMIT
  {
    DiskInode(
      mode := CpuToLe16(a.mode),
      linkCount := CpuToLe16(a.nlink),
      size := CpuToLe32(a.size),
      numBlocks := CpuToLe32(a.blocks),
      uid := CpuToLe32(a.uid),
      gid := CpuToLe32(a.gid),
      atime := CpuToLe32(a.atime),
      mtime := CpuToLe32(a.mtime),
      ctime := CpuToLe32(a.ctime),
      dataIndexBlockNum := CpuToLe32(biBlockNum))
  }

  /** Re-encoding what was read reproduces the record byte for byte. */
  lemma {:induction false} EncodeDecode(d: DiskInode, blockNum: nat)
    ensures Encode(Decode(d), DecodeInfo(d, blockNum).biBlockNum) == d
  {
    Le16RoundTrip(d.mode);
    Le16RoundTrip(d.linkCount);
    Le32RoundTrip(d.size);
    Le32RoundTrip(d.numBlocks);
    Le32RoundTrip(d.uid);
    Le32RoundTrip(d.gid);
    Le32RoundTrip(d.atime);
    Le32RoundTrip(d.mtime);
    Le32RoundTrip(d.ctime);
    Le32RoundTrip(d.dataIndexBlockNum);
  }

  /** Reading back a stored record yields the attributes and bookkeeping that were stored. */
  lemma DecodeEncode(a: InodeAttrs, info: InodeInfo)
    requires Representable(a) && info.biBlockNum < U32_LIMIT
    ensures Decode(Encode(a, info.biBlockNum)) == a
    ensures DecodeInfo(Encode(a, info.biBlockNum), info.blockNum) == info
  {
  }

  /** The in-memory VFS inode, with the fields lab5fs reads and writes. */
  class VfsInode {
    /** i_ino, set by the VFS before the inode is read */
    var ino: nat
    var mode: nat
    var nlink: nat
    var size: nat
    var blksize: nat
    var blkbits: nat
    var blocks: nat
    var uid: nat
    var gid: nat
    var atime: nat
    var mtime: nat
    var ctime: nat
    /** u.generic_ip: the lab5fs_inode_info record, None standing for NULL */
    var info: Option<InodeInfo>

    function Attrs(): (a: InodeAttrs)
      reads this
    {
      InodeAttrs(mode, nlink, size, blksize, blkbits, blocks, uid, gid, atime, mtime, ctime)
    }

    /** A fresh VFS inode for inode number ino, as the VFS hands it to read_inode. */
    constructor (ino: nat)
      ensures this.ino == ino && info == None
      ensures Attrs() == InodeAttrs(0, 0, 0, 0, 0, 0, 0, 0, 0, 0, 0)
    {
      this.ino := ino;
      mode, nlink, size, blksize, blkbits, blocks := 0, 0, 0, 0, 0, 0;
      uid, gid, atime, mtime, ctime := 0, 0, 0, 0, 0;
      info := None;
    }

    /**
     * lab5fs_inode_read_ino: read block blockNum and fill this inode from it.
     * dev holds the blocks a read succeeds on, seen as inode records; allocOk
     * is whether the bookkeeping record can be allocated.
     */
    method ReadIno(dev: map<nat, DiskInode>, blockNum: nat, allocOk: bool) returns (err: int)
      modifies this
      ensures ino == old(ino)
      ensures err == 0 <==> blockNum in dev && allocOk
      ensures err != 0 ==> err == -ENOMEM && Attrs() == old(Attrs()) && info == old(info)
      ensures err == 0 ==> Attrs() == Decode(dev[blockNum])
      ensures err == 0 ==> info == Some(DecodeInfo(dev[blockNum], blockNum))
    {
      err := -ENOMEM;
      if blockNum !in dev {
        return;
      }
      var record := dev[blockNum];
      var biBlockNum := Le32ToCpu(record.dataIndexBlockNum);
      if !allocOk {
        return;
      }
      var meta := InodeInfo(blockNum, biBlockNum);
      mode := Le16ToCpu(record.mode);
      nlink := Le16ToCpu(record.linkCount);
      size := Le32ToCpu(record.size);
      blksize := BLOCK_SIZE;
      blkbits := BITS;
      blocks := Le32ToCpu(record.numBlocks);
      uid := Le32ToCpu(record.uid);
      gid := Le32ToCpu(record.gid);
      atime := Le32ToCpu(record.atime);
      mtime := Le32ToCpu(record.mtime);
      ctime := Le32ToCpu(record.ctime);
      info := Some(meta);
      err := 0;
    }

    /** lab5fs_inode_clear: release the bookkeeping record and leave the pointer NULL. */
    method Clear()
      modifies this`info
      ensures info == None
    {
      info := None;
    }
  }
}
