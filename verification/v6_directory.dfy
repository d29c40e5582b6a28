/** directory.c of TP3-FileSystem: directory_findname looks a name up in a
    directory by reading its blocks one by one and comparing each live
    entry's name, and copies the first matching entry to the caller. */
module V6Directory {
  import opened Options
  import opened V6Layout
  import opened V6Inode
  import opened V6File

  /** A C string's contents: no byte before the terminator is NUL. */
  predicate NoNul(s: seq<byte>)
  {
    forall k :: 0 <= k < |s| ==> s[k] != 0
  }

  /** Byte k of a NUL-terminated string: past its contents, the terminator. */
  function CByte(s: seq<byte>, k: nat): byte
  {
    if k < |s| then s[k] else 0
  }

  // ---------------------------------------------------------------------------
  // The C library calls of the match test

  /** strnlen(d, n), counting from position k. */
  function StrNLen(d: seq<byte>, k: nat, n: nat): (len: nat)
    requires k <= n <= |d|
    ensures k <= len <= n
    decreases n - k
  {
    if k == n || d[k] == 0 then k else StrNLen(d, k + 1, n)
  }

  /** strncmp(a, b, n) == 0, comparing from position k: the strings agree on
      every position up to n or up to their common terminator. */
  predicate StrNEq(a: seq<byte>, b: seq<byte>, k: nat, n: nat)
    decreases n - k
  {
    k >= n || (CByte(a, k) == CByte(b, k) && (CByte(a, k) == 0 || StrNEq(a, b, k + 1, n)))
  }

  /** The test of directory.c: the name's length is the entry name's
      strnlen, and strncmp finds no difference in the first 14 bytes. */
  predicate Matches(name: seq<byte>, e: DirEnt)
    requires |e.name| == NameLen
  {
    |name| == StrNLen(e.name, 0, NameLen) && StrNEq(name, e.name, 0, NameLen)
  }

  /** The match test holds exactly when the entry's name field starts with
      the name and, if the name is shorter than the field, NUL follows it:
      the name is the field read as a NUL-padded string. */
  lemma MatchIsName(name: seq<byte>, e: DirEnt)
    requires NoNul(name) && |name| <= NameLen && |e.name| == NameLen
    ensures Matches(name, e) <==>
      e.name[..|name|] == name && (|name| < NameLen ==> e.name[|name|] == 0)
  {
    var d := e.name;
    SameFrom(name, d, 0);
    var spelled := forall j :: 0 <= j < |name| ==> d[j] == name[j];
    assert spelled <==> d[..|name|] == name by {
      if spelled {
        assert |d[..|name|]| == |name|;
      }
    }
    if spelled && (|name| < NameLen ==> d[|name|] == 0) {
      LengthFrom(d, 0, |name|);
    }
  }

  lemma {:induction false} SameFrom(name: seq<byte>, d: seq<byte>, k: nat)
    requires NoNul(name) && |name| <= NameLen && |d| == NameLen && k <= |name|
    ensures StrNEq(name, d, k, NameLen) <==>
      (forall j :: k <= j < |name| ==> d[j] == name[j]) && (|name| < NameLen ==> d[|name|] == 0)
    decreases |name| - k
  {
    if k < |name| {
      SameFrom(name, d, k + 1);
    }
  }

  lemma {:induction false} LengthFrom(d: seq<byte>, k: nat, len: nat)
    requires k <= len <= NameLen == |d|
    requires forall j :: k <= j < len ==> d[j] != 0
    requires len < NameLen ==> d[len] == 0
    ensures StrNLen(d, k, NameLen) == len
    decreases len - k
  {
    if k < len {
      LengthFrom(d, k + 1, len);
    }
  }

  // ---------------------------------------------------------------------------
  // The search

  /** The directory entries in the bytes a block delivered: one for every
      whole 16 bytes. */
  function Entries(bytes: seq<byte>): (es: seq<DirEnt>)
    ensures |es| == |bytes| / DirEntSize
  {
    seq(|bytes| / DirEntSize, k requires 0 <= k < |bytes| / DirEntSize =>
      DecodeDirEnt(bytes[DirEntSize * k..DirEntSize * k + DirEntSize]))
  }

  /** A live entry (inode number not 0) whose name matches. */
  predicate Hit(name: seq<byte>, e: DirEnt)
  {
    e.inumber != 0 && |e.name| == NameLen && Matches(name, e)
  }

  /** The first entry from k on that is a hit. */
  function SearchEntries(es: seq<DirEnt>, name: seq<byte>, k: nat): (r: Option<nat>)
    ensures r.Some? ==> k <= r.value < |es| && Hit(name, es[r.value])
    decreases |es| - k
  {
    if k >= |es| then None
    else if Hit(name, es[k]) then Some(k)
    else SearchEntries(es, name, k + 1)
  }

  /** What the scan of a directory sees: for each of its blocks, the entries
      file_getblock delivered, or nothing when it failed. */
  type Blocks = seq<Option<seq<DirEnt>>>

  /** The outcome of directory_findname: an error, a name that is not there
      (both -1), or the first hit with the block and slot it was found in. */
  datatype Lookup = Failed | Missing | Found(block: nat, index: nat, entry: DirEnt)

  /** The scan of blocks b onwards: a failed block read stops it with an
      error, a hit stops it with that entry. */
  function SearchBlocks(blocks: Blocks, name: seq<byte>, b: nat): (r: Lookup)
    ensures r.Found? ==>
      && b <= r.block < |blocks| && blocks[r.block].Some?
      && r.index < |blocks[r.block].value| && r.entry == blocks[r.block].value[r.index]
      && Hit(name, r.entry)
    decreases |blocks| - b
  {
    if b >= |blocks| then Missing
    else
      match blocks[b]
      case None => Failed
      case Some(es) =>
        match SearchEntries(es, name, 0)
        case Some(k) => Found(b, k, es[k])
        case None => SearchBlocks(blocks, name, b + 1)
  }

  /** Whether inode i is an allocated directory. */
  predicate IsDirectory(i: Inode)
  {
    i.mode & IAlloc != 0 && i.mode & IFmt == IFDir
  }

  /** The number of blocks a directory of the given size occupies. */
  function NumBlocks(size: nat): nat
  {
    (size + SectorSize - 1) / SectorSize
  }

  /** The blocks directory_findname scans for directory dir: ceil(size /
      512) of them, each read with file_getblock. */
  function DirData(disk: Disk, dir: int): (blocks: Blocks)
    ensures |blocks| == DirBlocks(disk, dir)
  {
    seq(DirBlocks(disk, dir), b requires 0 <= b =>
      match GetBlock(disk, dir, b)
      case None => None
      case Some(bytes) => Some(Entries(bytes)))
  }

  function DirBlocks(disk: Disk, dir: int): nat
  {
    match InodeGet(disk, dir)
    case None => 0
    case Some(i) => NumBlocks(GetSize(i))
  }

  /** directory_findname on a name and an output slot that are present. */
  function FindName(disk: Disk, name: seq<byte>, dir: int): (r: Lookup)
    ensures r.Found? ==> |r.entry.name| == NameLen
  {
    if dir < 1 || |name| == 0 || |name| > NameLen then Failed
    else
      match InodeGet(disk, dir)
      case None => Failed
      case Some(i) =>
        if !IsDirectory(i) then Failed
        else SearchBlocks(DirData(disk, dir), name, 0)
  }

  /** The caller's struct direntv6 that receives the entry found. */
  class DirEntSlot {
    var value: DirEnt

    constructor(e: DirEnt)
      ensures value == e
    {
      value := e;
    }
  }

  /** directory_findname. Returns 0 and stores the entry FindName finds,
      or returns -1 and leaves the slot alone: for a missing name or slot,
      on any error, and when the name is not in the directory. */
  method DirectoryFindName(disk: Disk, name: Option<seq<byte>>, dirinumber: int, dirEnt: DirEntSlot?)
    returns (r: int)
    requires name.Some? ==> NoNul(name.value)
    modifies dirEnt
    ensures name.None? || dirEnt == null ==> r == -1
    ensures name.Some? && dirEnt != null ==>
      var res := FindName(disk, name.value, dirinumber);
      (res.Found? ==> r == 0 && dirEnt.value == res.entry) &&
      (!res.Found? ==> r == -1 && dirEnt.value == old(dirEnt.value))
  {
    if name.None? || dirEnt == null || dirinumber < 1 {
      return -1;
    }
    var nm := name.value;
    if |nm| == 0 || |nm| > NameLen {
      return -1;
    }
    var inode := InodeGet(disk, dirinumber);
    if inode.None? {
      return -1;
    }
    var i := inode.value;
    if i.mode & IAlloc == 0 {
      return -1;
    }
    if i.mode & IFmt != IFDir {
      return -1;
    }
    var numBlocks := NumBlocks(GetSize(i));
    var res := ScanBlocks(disk, nm, dirinumber, numBlocks);
    if res.Found? {
      dirEnt.value := res.entry;
      return 0;
    }
    return -1;
  }

  /** The loop of directory_findname over the directory's blocks: each is
      read with file_getblock into a fresh sector buffer; a failed read ends
      the scan, an empty one is skipped. */
  method ScanBlocks(disk: Disk, nm: seq<byte>, dirinumber: int, numBlocks: nat) returns (res: Lookup)
    requires numBlocks == DirBlocks(disk, dirinumber)
    ensures res == SearchBlocks(DirData(disk, dirinumber), nm, 0)
  {
    ghost var data := DirData(disk, dirinumber);
    var bno := 0;
    while bno < numBlocks
      invariant bno <= numBlocks == |data|
      invariant SearchBlocks(data, nm, bno) == SearchBlocks(data, nm, 0)
    {
      var buf := new byte[SectorSize];
      var bytes := FileGetBlock(disk, dirinumber, bno, buf);
      ghost var got := GetBlock(disk, dirinumber, bno);
      assert data[bno] == if got.None? then None else Some(Entries(got.value));
      if bytes < 0 {
        return Failed;
      }
      assert data[bno] == Some(Entries(buf[..bytes]));
      if bytes != 0 {
        var k := ScanEntries(buf, bytes, nm);
        if k.Some? {
          return Found(bno, k.value, Entries(buf[..bytes])[k.value]);
        }
      }
      bno := bno + 1;
    }
    return Missing;
  }

  /** The inner loop of directory_findname over the bytes / 16 entries in
      the first bytes bytes of buf: the first live entry that matches. */
  method ScanEntries(buf: array<byte>, bytes: nat, nm: seq<byte>) returns (k: Option<nat>)
    requires bytes <= buf.Length
    ensures k == SearchEntries(Entries(buf[..bytes]), nm, 0)
  {
    ghost var es := Entries(buf[..bytes]);
    var nentries := bytes / DirEntSize;
    var j := 0;
    while j < nentries
      invariant j <= nentries
      invariant SearchEntries(es, nm, j) == SearchEntries(es, nm, 0)
    {
      var e := DecodeDirEnt(buf[DirEntSize * j..DirEntSize * j + DirEntSize]);
      assert e == es[j] by {
        EntryIn(buf[..bytes], j);
        SliceOfPrefix(buf[..], buf[..bytes], DirEntSize * j, DirEntSize * j + DirEntSize);
      }
      if e.inumber != 0 && |nm| == StrNLen(e.name, 0, NameLen) && StrNEq(nm, e.name, 0, NameLen) {
        assert Hit(nm, es[j]);
        return Some(j);
      }
      assert !Hit(nm, es[j]);
      j := j + 1;
    }
    return None;
  }

  lemma EntryIn(bytes: seq<byte>, j: nat)
    requires j < |bytes| / DirEntSize
    ensures DirEntSize * j + DirEntSize <= |bytes|
    ensures Entries(bytes)[j] == DecodeDirEnt(bytes[DirEntSize * j..DirEntSize * j + DirEntSize])
  {
  }

  /** A slice inside a copied prefix is a slice of what was copied. */
  lemma SliceOfPrefix(a: seq<byte>, b: seq<byte>, lo: nat, hi: nat)
    requires lo <= hi <= |b| <= |a| && a[..|b|] == b
    ensures a[lo..hi] == b[lo..hi]
  {
    forall j | lo <= j < hi
      ensures a[j] == b[j]
    {
      assert a[..|b|][j] == a[j];
    }
    assert |a[lo..hi]| == |b[lo..hi]|;
  }

  // ---------------------------------------------------------------------------
  // Properties

  /** Entry m of block c is a hit for name. */
  predicate MatchAt(blocks: Blocks, name: seq<byte>, c: nat, m: nat)
  {
    c < |blocks| && blocks[c].Some? && m < |blocks[c].value| && Hit(name, blocks[c].value[m])
  }

  lemma {:induction false} SearchEntriesFirst(es: seq<DirEnt>, name: seq<byte>, k: nat)
    ensures SearchEntries(es, name, k).Some? ==>
      forall m :: k <= m < SearchEntries(es, name, k).value ==> !Hit(name, es[m])
    ensures SearchEntries(es, name, k).None? ==>
      forall m :: k <= m < |es| ==> !Hit(name, es[m])
    decreases |es| - k
  {
    if k < |es| && !Hit(name, es[k]) {
      SearchEntriesFirst(es, name, k + 1);
    }
  }

  /** The scan from b finds the first hit at or after block b. */
  lemma {:induction false} SearchBlocksFound(blocks: Blocks, name: seq<byte>, b: nat)
    requires SearchBlocks(blocks, name, b).Found?
    ensures var f := SearchBlocks(blocks, name, b);
      forall c: nat, m: nat :: b <= c && (c < f.block || (c == f.block && m < f.index)) ==>
        !MatchAt(blocks, name, c, m)
    decreases |blocks| - b
  {
    var es := blocks[b].value;
    SearchEntriesFirst(es, name, 0);
    if SearchEntries(es, name, 0).None? {
      SearchBlocksFound(blocks, name, b + 1);
    }
  }

  /** A scan that ends with Missing saw no hit at all. */
  lemma {:induction false} SearchBlocksMissing(blocks: Blocks, name: seq<byte>, b: nat)
    requires SearchBlocks(blocks, name, b).Missing?
    ensures forall c: nat, m: nat :: b <= c ==> !MatchAt(blocks, name, c, m)
    decreases |blocks| - b
  {
    if b < |blocks| {
      SearchEntriesFirst(blocks[b].value, name, 0);
      SearchBlocksMissing(blocks, name, b + 1);
    }
  }

  /** A scan that fails met a block that could not be read. */
  lemma {:induction false} SearchBlocksFailed(blocks: Blocks, name: seq<byte>, b: nat)
    requires SearchBlocks(blocks, name, b).Failed?
    ensures exists c: nat :: b <= c < |blocks| && blocks[c].None?
    decreases |blocks| - b
  {
    if blocks[b].Some? {
      SearchBlocksFailed(blocks, name, b + 1);
    }
  }

  /** A name that is found is the first hit in (block, entry) order among
      the directory's blocks: a live entry whose name field spells it. */
  lemma FoundIsFirstHit(disk: Disk, name: seq<byte>, dir: int)
    requires NoNul(name)
    ensures FindName(disk, name, dir).Found? ==>
      var f := FindName(disk, name, dir);
      var blocks := DirData(disk, dir);
      1 <= |name| <= NameLen && MatchAt(blocks, name, f.block, f.index)
      && f.entry == blocks[f.block].value[f.index]
      && f.entry.inumber != 0 && f.entry.name[..|name|] == name
      && (|name| < NameLen ==> f.entry.name[|name|] == 0)
      && forall c: nat, m: nat :: c < f.block || (c == f.block && m < f.index) ==>
           !MatchAt(blocks, name, c, m)
  {
    if FindName(disk, name, dir).Found? {
      var f := FindName(disk, name, dir);
      SearchBlocksFound(DirData(disk, dir), name, 0);
      MatchIsName(name, f.entry);
    }
  }

  /** A name reported missing is in none of the directory's blocks, which
      were all read, and the directory is an allocated directory inode. */
  lemma MissingHasNoHit(disk: Disk, name: seq<byte>, dir: int)
    ensures FindName(disk, name, dir).Missing? ==>
      InodeGet(disk, dir).Some? && IsDirectory(InodeGet(disk, dir).value)
      && forall c: nat, m: nat :: !MatchAt(DirData(disk, dir), name, c, m)
  {
    if FindName(disk, name, dir).Missing? {
      SearchBlocksMissing(DirData(disk, dir), name, 0);
    }
  }

  /** An error is a bad argument, an inode that cannot be read or is not an
      allocated directory, or a block of the directory that cannot be read
      before any hit. */
  lemma FailedHasCause(disk: Disk, name: seq<byte>, dir: int)
    ensures FindName(disk, name, dir).Failed? <==>
      dir < 1 || |name| == 0 || |name| > NameLen || InodeGet(disk, dir).None?
      || !IsDirectory(InodeGet(disk, dir).value)
      || SearchBlocks(DirData(disk, dir), name, 0).Failed?
    ensures (FindName(disk, name, dir).Failed? && dir >= 1 && InodeGet(disk, dir).Some?
             && IsDirectory(InodeGet(disk, dir).value) && 1 <= |name| <= NameLen) ==>
      exists c: nat :: c < DirBlocks(disk, dir) && GetBlock(disk, dir, c).None?
  {
    if FindName(disk, name, dir).Failed? && SearchBlocks(DirData(disk, dir), name, 0).Failed? {
      SearchBlocksFailed(DirData(disk, dir), name, 0);
      var c: nat :| c < |DirData(disk, dir)| && DirData(disk, dir)[c].None?;
      assert GetBlock(disk, dir, c).None?;
    }
  }
}
