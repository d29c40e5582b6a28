/** The on-disk layout read by the Version 6 Unix filesystem reader of
    TP3-FileSystem. The disk is an oracle from sector number to the 512
    bytes of that sector; a sector the oracle does not hold is a failed
    read. The layouts of the inode and of the directory entry are those of
    Version 6 Unix, stored little-endian: an inode is 32 bytes, a directory
    entry 16 bytes. */
module V6Layout {
  import opened Options

  /** DISKIMG_SECTOR_SIZE. */
  const SectorSize: nat := 512
  /** INODE_START_SECTOR: the first sector of the inode table. */
  const InodeStartSector: nat := 2
  /** ROOT_INUMBER. */
  const RootInumber: nat := 1
  /** sizeof(struct inode). */
  const InodeSize: nat := 32
  /** INODES_PER_SECTOR. */
  const InodesPerSector: nat := 16
  /** BLOCKS_PER_INDIRECT: 16-bit block numbers per sector. */
  const BlocksPerIndirect: nat := 256
  /** sizeof(struct direntv6). */
  const DirEntSize: nat := 16
  /** The length of d_name, which is also MAX_NAME_LEN. */
  const NameLen: nat := 14

  /** Bits of i_mode. */
  const IAlloc: bv16 := 0x8000
  const IFmt: bv16 := 0x6000
  const IFDir: bv16 := 0x4000
  const ILarg: bv16 := 0x1000

  type byte = bv8

  /** The contents of one sector. */
  type Sector = s: seq<byte> | |s| == SectorSize witness seq(512, _ => 0)

  /** The disk image, as far as the reader can see it. */
  type Disk = map<nat, Sector>

  /** diskimg_readsector: the sector's bytes, or nothing when the read
      fails (a negative sector number always fails). */
  function ReadSector(disk: Disk, n: int): Option<Sector>
  {
    if n >= 0 && n in disk then Some(disk[n]) else None
  }

  /** The little-endian 16-bit word at off. */
  function U16(b: seq<byte>, off: nat): bv16
    requires off + 2 <= |b|
  {
    (b[off] as bv16) | ((b[off + 1] as bv16) << 8)
  }

  /** The word read is the low byte plus 256 times the high byte. */
  lemma U16Value(b: seq<byte>, off: nat)
    requires off + 2 <= |b|
    ensures U16(b, off) as int == b[off] as int + 256 * b[off + 1] as int
  {
    JoinBytes(b[off], b[off + 1]);
  }

  lemma JoinBytes(lo: bv8, hi: bv8)
    ensures ((lo as bv16) | ((hi as bv16) << 8)) as int == lo as int + 256 * hi as int
  {
    assert (lo as bv16) | ((hi as bv16) << 8) == (hi as bv16) * 256 + (lo as bv16);
  }

  /** struct inode of Version 6 Unix. */
  datatype Inode = Inode(
    mode: bv16,
    nlink: bv8,
    uid: bv8,
    gid: bv8,
    size0: bv8,
    size1: bv16,
    addr: seq<bv16>,
    atime: seq<bv16>,
    mtime: seq<bv16>)

  /** The 32 bytes of an inode: mode, nlink, uid, gid, size0, size1, eight
      block addresses, two access-time and two modification-time words. */
  function DecodeInode(b: seq<byte>): (i: Inode)
    requires |b| == InodeSize
    ensures WellFormed(i)
  {
    Inode(
      U16(b, 0), b[2], b[3], b[4], b[5], U16(b, 6),
      seq(8, k requires 0 <= k < 8 => U16(b, 8 + 2 * k)),
      [U16(b, 24), U16(b, 26)],
      [U16(b, 28), U16(b, 30)])
  }

  /** An inode as the reader can find it on disk. */
  predicate WellFormed(i: Inode)
  {
    |i.addr| == 8 && |i.atime| == 2 && |i.mtime| == 2
  }

  /** struct direntv6: the inode number and the 14 bytes of the name,
      NUL-padded but not necessarily NUL-terminated. */
  datatype DirEnt = DirEnt(inumber: bv16, name: seq<byte>)

  function DecodeDirEnt(b: seq<byte>): (e: DirEnt)
    requires |b| == DirEntSize
    ensures |e.name| == NameLen
  {
    DirEnt(U16(b, 0), b[2..16])
  }

  /** The 16-bit entry k of an indirect block. */
  function Entry(s: Sector, k: nat): bv16
    requires k < BlocksPerIndirect
  {
    U16(s, 2 * k)
  }
}
