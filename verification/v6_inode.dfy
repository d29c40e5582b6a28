/** inode.c of TP3-FileSystem: fetching an inode from the inode table,
    mapping a file block number to a disk sector through the inode's direct,
    indirect and double-indirect addresses, and the file size. A returned
    -1 is an error or an unallocated block. */
module V6Inode {
  import opened Options
  import opened V6Layout

  // ---------------------------------------------------------------------------
  // inode_iget

  /** The sector of the inode table that holds inode n (n >= 1). */
  function InodeSector(n: nat): nat
    requires n >= 1
  {
    InodeStartSector + (n - 1) / InodesPerSector
  }

  /** The position of inode n within its sector. */
  function InodeSlot(n: nat): nat
    requires n >= 1
  {
    (n - 1) % InodesPerSector
  }

  /** inode_iget: no inode for a number below 1 or when the sector read
      fails; otherwise the inode in its slot of its sector. */
  function InodeGet(disk: Disk, inumber: int): (r: Option<Inode>)
    ensures r.Some? ==> WellFormed(r.value)
  {
    if inumber < 1 then None
    else
      match ReadSector(disk, InodeSector(inumber))
      case None => None
      case Some(s) =>
        var at := InodeSize * InodeSlot(inumber);
        Some(DecodeInode(s[at..at + InodeSize]))
  }

  /** Every inode number has its own place in the table: the sector and
      slot give the number back. */
  lemma InodePlace(n: nat)
    requires n >= 1
    ensures InodeSlot(n) < InodesPerSector && InodeSector(n) >= InodeStartSector
    ensures n == InodesPerSector * (InodeSector(n) - InodeStartSector) + InodeSlot(n) + 1
  {
  }

  /** Two inode numbers never share a slot. */
  lemma InodePlacesDistinct(n: nat, m: nat)
    requires n >= 1 && m >= 1 && n != m
    ensures InodeSector(n) != InodeSector(m) || InodeSlot(n) != InodeSlot(m)
  {
    InodePlace(n);
    InodePlace(m);
  }

  /** inode_iget fails exactly for a number below 1 or a missing sector, and
      it depends on nothing but that one sector. */
  lemma InodeGetFails(disk: Disk, other: Disk, n: int)
    requires n >= 1 ==> (InodeSector(n) in disk <==> InodeSector(n) in other)
    requires n >= 1 && InodeSector(n) in disk ==> disk[InodeSector(n)] == other[InodeSector(n)]
    ensures InodeGet(disk, n).None? <==> n < 1 || InodeSector(n) !in disk
    ensures InodeGet(disk, n) == InodeGet(other, n)
  {
  }

  // ---------------------------------------------------------------------------
  // inode_getsize

  /** inode_getsize: the 24-bit size, size0 being its high byte and size1
      its low 16 bits. */
  function GetSize(i: Inode): int
  {
    JoinHalves(i.size0, i.size1)
  }

  /** (hi << 16) | lo, widened to a C int. */
  function JoinHalves(hi: bv8, lo: bv16): int
  {
    (((hi as bv32) << 16) | (lo as bv32)) as int
  }

  /** The shift-and-or is the sum size0 * 65536 + size1: the two fields do
      not overlap. */
  lemma SizeValue(i: Inode)
    ensures GetSize(i) == i.size0 as int * 0x1_0000 + i.size1 as int
  {
    JoinIsSum(i.size0, i.size1);
  }

  lemma JoinIsSum(hi: bv8, lo: bv16)
    ensures JoinHalves(hi, lo) == hi as int * 0x1_0000 + lo as int
  {
    assert ((hi as bv32) << 16) | (lo as bv32) == (hi as bv32) * 0x1_0000 + (lo as bv32);
  }

  /** So the size is below 2^24 and both fields can be read back from it. */
  lemma SizeFields(i: Inode)
    ensures GetSize(i) < 0x100_0000
    ensures GetSize(i) / 0x1_0000 == i.size0 as int && GetSize(i) % 0x1_0000 == i.size1 as int
  {
    var hi, lo := i.size0 as int, i.size1 as int;
    SizeValue(i);
    Widths(i.size0, i.size1);
    Halves(hi, lo);
  }

  lemma Widths(hi: bv8, lo: bv16)
    ensures hi as int < 0x100 && lo as int < 0x1_0000
  {
  }

  lemma Halves(hi: nat, lo: nat)
    requires hi < 0x100 && lo < 0x1_0000
    ensures hi * 0x1_0000 + lo < 0x100_0000
    ensures (hi * 0x1_0000 + lo) / 0x1_0000 == hi && (hi * 0x1_0000 + lo) % 0x1_0000 == lo
  {
  }

  // ---------------------------------------------------------------------------
  // inode_indexlookup

  /** ILARG: the inode's addresses are indirect blocks. */
  predicate IsLarge(i: Inode)
  {
    i.mode & ILarg != 0
  }

  /** Blocks reachable through the seven indirect blocks. */
  const IndirectBlocks: nat := 7 * BlocksPerIndirect

  /** inode_indexlookup. A small file maps block b < 8 to addr[b]. A large
      file maps b < 1792 through entry b % 256 of indirect block addr[b /
      256], and the blocks after that through the double-indirect block
      addr[7]. A zero address anywhere on the way, a failed read or a block
      past the end gives -1. For a large file a negative block number
      indexes outside the arrays, so callers must not pass one. */
  function IndexLookup(disk: Disk, i: Inode, blockNum: int): int
    requires WellFormed(i)
    requires IsLarge(i) ==> blockNum >= 0
  {
    if !IsLarge(i) then
      if blockNum < 0 || blockNum >= 8 then -1
      else if i.addr[blockNum] == 0 then -1
      else i.addr[blockNum] as int
    else if blockNum < IndirectBlocks then
      var indirect := i.addr[blockNum / BlocksPerIndirect] as int;
      if indirect == 0 then -1
      else
        match ReadSector(disk, indirect)
        case None => -1
        case Some(s) =>
          var data := Entry(s, blockNum % BlocksPerIndirect) as int;
          if data == 0 then -1 else data
    else
      var relative := blockNum - IndirectBlocks;
      var outer := relative / BlocksPerIndirect;
      var inner := relative % BlocksPerIndirect;
      if outer >= BlocksPerIndirect then -1
      else if i.addr[7] == 0 then -1
      else
        match ReadSector(disk, i.addr[7] as int)
        case None => -1
        case Some(o) =>
          var indirect := Entry(o, outer) as int;
          if indirect == 0 then -1
          else
            match ReadSector(disk, indirect)
            case None => -1
            case Some(s) =>
              var data := Entry(s, inner) as int;
              if data == 0 then -1 else data
  }

  /** The most blocks a large file can address: seven indirect blocks and
      one double-indirect block of 256 entries each. */
  const MaxLargeBlocks: nat := IndirectBlocks + BlocksPerIndirect * BlocksPerIndirect

  /** Where a block of a large file is found: an indirect block and an entry
      in it, or an entry of the double-indirect block and an entry in the
      indirect block it names. */
  datatype BlockPath = Single(indirect: nat, entry: nat) | Double(outer: nat, inner: nat)

  predicate ValidPath(p: BlockPath)
  {
    match p
    case Single(k, e) => k < 7 && e < BlocksPerIndirect
    case Double(o, e) => o < BlocksPerIndirect && e < BlocksPerIndirect
  }

  /** The path inode_indexlookup follows for block b of a large file. */
  function PathOf(b: nat): BlockPath
  {
    if b < IndirectBlocks then Single(b / BlocksPerIndirect, b % BlocksPerIndirect)
    else Double((b - IndirectBlocks) / BlocksPerIndirect, (b - IndirectBlocks) % BlocksPerIndirect)
  }

  /** The block a path reaches. */
  function BlockOf(p: BlockPath): nat
  {
    match p
    case Single(k, e) => BlocksPerIndirect * k + e
    case Double(o, e) => IndirectBlocks + BlocksPerIndirect * o + e
  }

  /** Every addressable block has a valid path and the path leads back to
      it; every valid path leads to an addressable block and is that
      block's path. So no two blocks share an entry. */
  lemma PathRoundTrip(b: nat, p: BlockPath)
    ensures b < MaxLargeBlocks ==> ValidPath(PathOf(b)) && BlockOf(PathOf(b)) == b
    ensures ValidPath(p) ==> BlockOf(p) < MaxLargeBlocks && PathOf(BlockOf(p)) == p
  {
    if ValidPath(p) {
      match p
      case Single(k, e) =>
        DivMod(k, e);
      case Double(o, e) =>
        DivMod(o, e);
        assert BlockOf(p) - IndirectBlocks == BlocksPerIndirect * o + e;
    }
  }

  lemma DivMod(q: nat, e: nat)
    requires e < BlocksPerIndirect
    ensures (BlocksPerIndirect * q + e) / BlocksPerIndirect == q
    ensures (BlocksPerIndirect * q + e) % BlocksPerIndirect == e
  {
  }

  /** One step of a lookup: entry e of the indirect block in sector a. A
      zero sector number, a failed read or a zero entry gives -1. */
  function Follow(disk: Disk, a: int, e: nat): int
    requires e < BlocksPerIndirect
  {
    if a == 0 then -1
    else
      match ReadSector(disk, a)
      case None => -1
      case Some(s) =>
        var d := Entry(s, e) as int;
        if d == 0 then -1 else d
  }

  /** The block a path reaches from a large inode: one step from an indirect
      address, or two steps from the double-indirect address addr[7]. */
  function LookupPath(disk: Disk, i: Inode, p: BlockPath): int
    requires WellFormed(i) && ValidPath(p)
  {
    match p
    case Single(k, e) => Follow(disk, i.addr[k] as int, e)
    case Double(o, e) =>
      var mid := Follow(disk, i.addr[7] as int, o);
      if mid == -1 then -1 else Follow(disk, mid, e)
  }

  /** For every addressable block of a large file, inode_indexlookup walks
      exactly the path PathOf gives. */
  lemma IndexLookupAlongPath(disk: Disk, i: Inode, b: nat)
    requires WellFormed(i) && IsLarge(i) && b < MaxLargeBlocks
    ensures ValidPath(PathOf(b))
    ensures IndexLookup(disk, i, b) == LookupPath(disk, i, PathOf(b))
  {
    PathRoundTrip(b, PathOf(b));
  }

  /** A large file has no block past MaxLargeBlocks, a small one none past
      8, and a found block is never the zero address. */
  lemma LookupBounds(disk: Disk, i: Inode, b: int)
    requires WellFormed(i)
    requires IsLarge(i) ==> b >= 0
    ensures !IsLarge(i) && (b < 0 || b >= 8) ==> IndexLookup(disk, i, b) == -1
    ensures IsLarge(i) && b >= MaxLargeBlocks ==> IndexLookup(disk, i, b) == -1
    ensures IndexLookup(disk, i, b) == -1 || 0 < IndexLookup(disk, i, b) < 0x1_0000
  {
  }
}
