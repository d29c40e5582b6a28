/** file.c of TP3-FileSystem: file_getblock reads block blockNum of file
    inumber into the caller's buffer and returns how many of its bytes
    belong to the file: 0 for a hole or a block past the end of the file,
    -1 when the inode or a sector cannot be read. */
module V6File {
  import opened Options
  import opened V6Layout
  import opened V6Inode

  /** Where file_getblock finds a block: a read failed on the way, a zero
      indirect address made it a hole, or the data sector it names (which
      may itself be 0, or -1 for a small file's out-of-range block). */
  datatype Mapped = MapFailed | Hole | At(sector: int)

  /** The block mapping of file_getblock. It follows the same addresses as
      inode_indexlookup, but reports zero addresses as holes and reads the
      double-indirect block before checking the outer index. */
  function MapBlock(disk: Disk, i: Inode, blockNum: int): Mapped
    requires WellFormed(i)
    requires IsLarge(i) ==> blockNum >= 0
  {
    if !IsLarge(i) then
      if 0 <= blockNum < 8 then At(i.addr[blockNum] as int) else At(-1)
    else if blockNum < IndirectBlocks then
      var indirect := i.addr[blockNum / BlocksPerIndirect] as int;
      if indirect == 0 then Hole
      else
        match ReadSector(disk, indirect)
        case None => MapFailed
        case Some(s) => At(Entry(s, blockNum % BlocksPerIndirect) as int)
    else
      var relative := blockNum - IndirectBlocks;
      var outer := relative / BlocksPerIndirect;
      var inner := relative % BlocksPerIndirect;
      if i.addr[7] == 0 then Hole
      else
        match ReadSector(disk, i.addr[7] as int)
        case None => MapFailed
        case Some(o) =>
          if outer >= BlocksPerIndirect then Hole
          else
            var indirect := Entry(o, outer) as int;
            if indirect == 0 then Hole
            else
              match ReadSector(disk, indirect)
              case None => MapFailed
              case Some(s) => At(Entry(s, inner) as int)
  }

  /** A negative block number is only meaningful for a small file. */
  predicate Defined(disk: Disk, inumber: int, blockNum: int)
  {
    blockNum >= 0 || InodeGet(disk, inumber).None? || !IsLarge(InodeGet(disk, inumber).value)
  }

  /** How many bytes of block blockNum lie inside a file of the given size:
      a whole sector, the rest of the file, or none. */
  function BytesInBlock(size: int, blockNum: int): (n: int)
  {
    var remaining := size - blockNum * SectorSize;
    if remaining <= 0 then 0
    else if remaining < SectorSize then remaining
    else SectorSize
  }

  /** What file_getblock delivers: nothing on a failure (-1), otherwise the
      bytes it copies, whose number it returns. */
  function GetBlock(disk: Disk, inumber: int, blockNum: int): (r: Option<seq<byte>>)
    requires Defined(disk, inumber, blockNum)
    ensures r.Some? ==> |r.value| <= SectorSize
  {
    match InodeGet(disk, inumber)
    case None => None
    case Some(i) =>
      match MapBlock(disk, i, blockNum)
      case MapFailed => None
      case Hole => Some([])
      case At(n) =>
        if n == 0 then Some([])
        else
          match ReadSector(disk, n)
          case None => None
          case Some(s) => Some(s[..BytesInBlock(GetSize(i), blockNum)])
  }

  /** file_getblock. The first r bytes of buf receive the block's bytes; the
      rest of buf, and all of it on a failure, are left as they were. */
  method FileGetBlock(disk: Disk, inumber: int, blockNum: int, buf: array<byte>) returns (r: int)
    requires Defined(disk, inumber, blockNum) && buf.Length >= SectorSize
    modifies buf
    ensures -1 <= r <= SectorSize
    ensures GetBlock(disk, inumber, blockNum).None? ==> r == -1 && buf[..] == old(buf[..])
    ensures GetBlock(disk, inumber, blockNum).Some? ==>
      && r == |GetBlock(disk, inumber, blockNum).value|
      && buf[..r] == GetBlock(disk, inumber, blockNum).value
      && buf[r..] == old(buf[r..])
  {
    var inode := InodeGet(disk, inumber);
    if inode.None? {
      return -1;
    }
    var i := inode.value;
    var mapped := MapBlock(disk, i, blockNum);
    if mapped.MapFailed? {
      return -1;
    }
    if mapped.Hole? || mapped.sector == 0 {
      return 0;
    }
    var data := ReadSector(disk, mapped.sector);
    if data.None? {
      return -1;
    }
    var nbytes := BytesInBlock(GetSize(i), blockNum);
    if nbytes <= 0 {
      return 0;
    }
    Copy(buf, data.value, nbytes);
    r := nbytes;
  }

  /** memcpy(buf, src, n). */
  method Copy(buf: array<byte>, src: seq<byte>, n: nat)
    requires n <= |src| && n <= buf.Length
    modifies buf
    ensures buf[..n] == src[..n] && buf[n..] == old(buf[n..])
  {
    var k := 0;
    while k < n
      invariant k <= n
      invariant buf[..k] == src[..k] && buf[n..] == old(buf[n..])
    {
      buf[k] := src[k];
      k := k + 1;
    }
  }

  // ---------------------------------------------------------------------------
  // Properties

  /** What a block holds is the start of the data sector it maps to. */
  lemma BlockShape(disk: Disk, inumber: int, blockNum: int)
    requires Defined(disk, inumber, blockNum)
    ensures GetBlock(disk, inumber, blockNum).Some? && GetBlock(disk, inumber, blockNum).value != [] ==>
      var i := InodeGet(disk, inumber).value;
      var m := MapBlock(disk, i, blockNum);
      m.At? && m.sector > 0 && ReadSector(disk, m.sector).Some?
      && GetBlock(disk, inumber, blockNum).value <= ReadSector(disk, m.sector).value
  {
  }

  /** The blocks of a file of the given size hold its bytes without overlap:
      the first k blocks hold min(size, 512 k) bytes between them. */
  lemma {:induction false} BytesUpTo(size: nat, k: nat)
    ensures TotalBytes(size, k) == if size < k * SectorSize then size else k * SectorSize
  {
    if k > 0 {
      BytesUpTo(size, k - 1);
    }
  }

  /** The bytes held by blocks 0 .. k-1 together. */
  function TotalBytes(size: nat, k: nat): nat
  {
    if k == 0 then 0 else TotalBytes(size, k - 1) + BytesInBlock(size, k - 1)
  }

  /** So a file's blocks up to ceil(size / 512) hold exactly its size. */
  lemma WholeFile(size: nat)
    ensures TotalBytes(size, (size + SectorSize - 1) / SectorSize) == size
  {
    BytesUpTo(size, (size + SectorSize - 1) / SectorSize);
  }

  /** file_getblock and inode_indexlookup agree on every allocated block: a
      block maps to data sector n > 0 in one exactly when it does in the
      other. */
  lemma MappingAgrees(disk: Disk, i: Inode, blockNum: int, n: int)
    requires WellFormed(i) && (IsLarge(i) ==> blockNum >= 0) && n > 0
    ensures IndexLookup(disk, i, blockNum) == n <==> MapBlock(disk, i, blockNum) == At(n)
  {
  }
}
