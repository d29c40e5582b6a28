/** pathname.c of TP3-FileSystem: pathname_lookup resolves an absolute path
    to an inode number by looking each of its components up in the
    directory reached so far, starting at the root directory. */
module V6Pathname {
  import opened Options
  import opened V6Layout
  import opened V6Directory

  /** The separator '/'. */
  const Slash: byte := 0x2F

  /** MAX_PATH_LEN: the size of the copy strtok works on, terminator
      included. */
  const MaxPathLen: nat := 1024

  // ---------------------------------------------------------------------------
  // Components

  /** The length of the run of bytes before the first slash of s. */
  function RunLen(s: seq<byte>): (n: nat)
    ensures n <= |s|
  {
    if s == [] || s[0] == Slash then 0 else 1 + RunLen(s[1..])
  }

  /** What strtok(copy, "/") and strtok(NULL, "/") return in turn: the
      maximal runs of bytes other than '/', so that leading, trailing and
      repeated slashes separate nothing. */
  function Components(s: seq<byte>): seq<seq<byte>>
    decreases |s|
  {
    if s == [] then []
    else if s[0] == Slash then Components(s[1..])
    else
      var n := RunLen(s);
      [s[..n]] + Components(s[n..])
  }

  /** The strncpy into the 1024-byte copy, whose last byte is then cleared:
      a path keeps at most its first 1023 bytes. */
  function Truncate(path: seq<byte>): seq<byte>
  {
    if |path| < MaxPathLen then path else path[..MaxPathLen - 1]
  }

  // ---------------------------------------------------------------------------
  // Resolution

  /** One turn of the while loop of pathname_lookup in directory cur: a
      component longer than 14 bytes, or one directory_findname does not
      find, gives -1; otherwise the entry's inode number. */
  function Step(disk: Disk, name: seq<byte>, cur: int): int
  {
    if |name| == 0 || |name| > NameLen then -1
    else
      match FindName(disk, name, cur)
      case Found(_, _, e) => e.inumber as int
      case _ => -1
  }

  /** The while loop of pathname_lookup from directory cur on: each
      component leads to the next directory, and the first failure ends the
      walk with -1. */
  function Resolve(disk: Disk, comps: seq<seq<byte>>, cur: int): int
    decreases |comps|
  {
    if comps == [] then cur
    else
      var next := Step(disk, comps[0], cur);
      if next < 0 then -1 else Resolve(disk, comps[1..], next)
  }

  /** pathname_lookup on a path given by its bytes before the terminator
      (None for a NULL path). An empty path's first byte is the terminator,
      so it is not absolute. */
  function Lookup(disk: Disk, path: Option<seq<byte>>): int
  {
    match path
    case None => -1
    case Some(p) =>
      if |p| == 0 || p[0] != Slash then -1
      else if p == [Slash] then RootInumber as int
      else Resolve(disk, Components(Truncate(p)), RootInumber as int)
  }

  /** pathname_lookup. */
  method PathnameLookup(disk: Disk, path: Option<seq<byte>>) returns (r: int)
    requires path.Some? ==> NoNul(path.value)
    ensures r == Lookup(disk, path)
  {
    if path.None? {
      return -1;
    }
    var p := path.value;
    if |p| == 0 || p[0] != Slash {
      return -1;
    }
    if p == [Slash] {
      return RootInumber as int;
    }
    var pathcopy := Truncate(p);
    assert pathcopy[0..] == pathcopy;
    var current: int := RootInumber as int;
    var token, pos := NextToken(pathcopy, 0);
    while token.Some?
      invariant pos <= |pathcopy|
      invariant token.Some? ==> NoNul(token.value)
      invariant token.Some? ==> Lookup(disk, path) == Resolve(disk, [token.value] + Components(pathcopy[pos..]), current)
      invariant token.None? ==> Lookup(disk, path) == current
      decreases |pathcopy| - pos + (if token.Some? then 1 else 0)
    {
      var name := token.value;
      ghost var rest := Components(pathcopy[pos..]);
      ResolveCons(disk, name, rest, current);
      var next := LookupStep(disk, name, current);
      if next < 0 {
        return -1;
      }
      current := next;
      token, pos := NextToken(pathcopy, pos);
    }
    return current;
  }

  /** The body of the while loop of pathname_lookup: the length check, then
      directory_findname into a local struct direntv6, whose inode number
      becomes the current directory. */
  method LookupStep(disk: Disk, name: seq<byte>, current: int) returns (next: int)
    requires NoNul(name)
    ensures next == Step(disk, name, current)
  {
    if |name| == 0 || |name| > NameLen {
      return -1;
    }
    var entry := new DirEntSlot(DirEnt(0, []));
    var found := DirectoryFindName(disk, Some(name), current, entry);
    if found < 0 {
      return -1;
    }
    return entry.value.inumber as int;
  }

  /** One step of the walk. */
  lemma ResolveCons(disk: Disk, name: seq<byte>, rest: seq<seq<byte>>, cur: int)
    ensures Resolve(disk, [name] + rest, cur) ==
      var next := Step(disk, name, cur);
      if next < 0 then -1 else Resolve(disk, rest, next)
  {
    assert ([name] + rest)[0] == name && ([name] + rest)[1..] == rest;
  }

  /** strtok(…, "/") continuing at pos: skips slashes, returns the run of
      other bytes that follows, and goes on after the slash that ends it
      (which strtok overwrites with NUL). No run left gives no token. */
  method NextToken(s: seq<byte>, pos: nat) returns (token: Option<seq<byte>>, next: nat)
    requires pos <= |s| && NoNul(s)
    ensures next <= |s|
    ensures token.Some? ==> NoNul(token.value)
    ensures token.None? ==> next == |s| && Components(s[pos..]) == []
    ensures token.Some? ==> pos < next && Components(s[pos..]) == [token.value] + Components(s[next..])
  {
    var i := pos;
    while i < |s| && s[i] == Slash
      invariant pos <= i <= |s|
      invariant forall k :: pos <= k < i ==> s[k] == Slash
    {
      i := i + 1;
    }
    if i == |s| {
      SkipSlashes(s, pos, i);
      assert s[i..] == [];
      return None, i;
    }
    var j := i;
    while j < |s| && s[j] != Slash
      invariant i <= j <= |s|
      invariant RunLen(s[i..]) == (j - i) + RunLen(s[j..])
    {
      RunStep(s, j);
      j := j + 1;
    }
    next := if j < |s| then j + 1 else j;
    token := Some(s[i..j]);
    TokenFound(s, pos, i, j, next);
  }

  /** The slashes skipped, the run read and the slash after it account for
      the next component. */
  lemma TokenFound(s: seq<byte>, pos: nat, i: nat, j: nat, next: nat)
    requires pos <= i < j <= |s| && s[i] != Slash
    requires forall k :: pos <= k < i ==> s[k] == Slash
    requires RunLen(s[i..]) == (j - i) + RunLen(s[j..])
    requires j == |s| || s[j] == Slash
    requires next == if j < |s| then j + 1 else j
    ensures Components(s[pos..]) == [s[i..j]] + Components(s[next..])
  {
    SkipSlashes(s, pos, i);
    TokenAt(s, i, j);
    if j < |s| {
      SkipSlash(s, j);
    }
  }

  lemma {:induction false} SkipSlashes(s: seq<byte>, pos: nat, i: nat)
    requires pos <= i <= |s|
    requires forall k :: pos <= k < i ==> s[k] == Slash
    ensures Components(s[pos..]) == Components(s[i..])
    decreases i - pos
  {
    if pos < i {
      SkipSlash(s, pos);
      SkipSlashes(s, pos + 1, i);
    }
  }

  lemma SkipSlash(s: seq<byte>, i: nat)
    requires i < |s| && s[i] == Slash
    ensures Components(s[i..]) == Components(s[i + 1..])
  {
    assert s[i..][1..] == s[i + 1..];
  }

  lemma RunStep(s: seq<byte>, j: nat)
    requires j < |s| && s[j] != Slash
    ensures RunLen(s[j..]) == 1 + RunLen(s[j + 1..])
  {
    assert s[j..][1..] == s[j + 1..];
  }

  lemma TokenAt(s: seq<byte>, i: nat, j: nat)
    requires i < j <= |s| && s[i] != Slash
    requires RunLen(s[i..]) == (j - i) + RunLen(s[j..])
    requires j == |s| || s[j] == Slash
    ensures Components(s[i..]) == [s[i..j]] + Components(s[j..])
  {
    assert RunLen(s[j..]) == 0;
    assert s[i..][..j - i] == s[i..j] && s[i..][j - i..] == s[j..];
  }

  // ---------------------------------------------------------------------------
  // Properties of the components

  /** Every component is a nonempty run without slashes, and a path without
      NUL bytes has components without NUL bytes. */
  lemma {:induction false} ComponentsShape(s: seq<byte>)
    ensures forall c :: c in Components(s) ==> |c| > 0 && Slash !in c
    decreases |s|
  {
    if s != [] {
      if s[0] == Slash {
        ComponentsShape(s[1..]);
      } else {
        var n := RunLen(s);
        RunShape(s);
        ComponentsShape(s[n..]);
      }
    }
  }

  lemma {:induction false} ComponentsNoNul(s: seq<byte>)
    requires NoNul(s)
    ensures forall c :: c in Components(s) ==> NoNul(c)
    decreases |s|
  {
    if s != [] {
      if s[0] == Slash {
        ComponentsNoNul(s[1..]);
      } else {
        ComponentsNoNul(s[RunLen(s)..]);
      }
    }
  }

  /** The run before the first slash is nonempty when s starts with another
      byte, holds no slash, and is followed by a slash or the end. */
  lemma {:induction false} RunShape(s: seq<byte>)
    ensures s != [] && s[0] != Slash ==> RunLen(s) > 0
    ensures Slash !in s[..RunLen(s)]
    ensures RunLen(s) < |s| ==> s[RunLen(s)] == Slash
    decreases |s|
  {
    if s != [] && s[0] != Slash {
      RunShape(s[1..]);
      assert s[..RunLen(s)] == [s[0]] + s[1..][..RunLen(s[1..])];
    }
  }

  /** The path spelled by components: each preceded by a slash. */
  function Join(cs: seq<seq<byte>>): seq<byte>
  {
    if cs == [] then [] else [Slash] + cs[0] + Join(cs[1..])
  }

  /** Splitting the path spelled by nonempty, slash-free components gives
      those components back. */
  lemma {:induction false} SplitJoin(cs: seq<seq<byte>>)
    requires forall c :: c in cs ==> |c| > 0 && Slash !in c
    ensures Components(Join(cs)) == cs
  {
    if cs != [] {
      var c, rest := cs[0], Join(cs[1..]);
      var s := Join(cs);
      assert s[1..] == c + rest;
      RunOfWord(c, rest, cs[1..]);
      assert (c + rest)[..|c|] == c && (c + rest)[|c|..] == rest;
      SplitJoin(cs[1..]);
    }
  }

  lemma RunOfWord(c: seq<byte>, rest: seq<byte>, cs: seq<seq<byte>>)
    requires |c| > 0 && Slash !in c && rest == Join(cs)
    ensures RunLen(c + rest) == |c|
  {
    if cs != [] {
      assert rest[0] == Slash;
    }
    RunOfPrefix(c, rest);
  }

  lemma {:induction false} RunOfPrefix(c: seq<byte>, rest: seq<byte>)
    requires Slash !in c && (rest == [] || rest[0] == Slash)
    ensures RunLen(c + rest) == |c|
    decreases |c|
  {
    if c != [] {
      assert (c + rest)[1..] == c[1..] + rest;
      RunOfPrefix(c[1..], rest);
    }
  }

  /** Slashes before a path separate nothing. */
  lemma LeadingSlash(s: seq<byte>)
    ensures Components([Slash] + s) == Components(s)
  {
    assert ([Slash] + s)[1..] == s;
  }

  /** Neither does a slash after it. */
  lemma {:induction false} TrailingSlash(s: seq<byte>)
    ensures Components(s + [Slash]) == Components(s)
    decreases |s|
  {
    if s == [] {
      assert Components([Slash]) == Components([]);
    } else if s[0] == Slash {
      assert (s + [Slash])[1..] == s[1..] + [Slash];
      TrailingSlash(s[1..]);
    } else {
      var n := RunLen(s);
      RunShape(s);
      RunExtends(s, [Slash]);
      assert (s + [Slash])[..n] == s[..n];
      assert (s + [Slash])[n..] == s[n..] + [Slash];
      TrailingSlash(s[n..]);
    }
  }

  /** Appending after a slash-free run that ends at a slash leaves the run as
      it is; appending a slash after a run that ends the path ends the run
      there too. */
  lemma {:induction false} RunExtends(s: seq<byte>, t: seq<byte>)
    requires t == [] || t[0] == Slash || RunLen(s) < |s|
    ensures RunLen(s + t) == RunLen(s)
    decreases |s|
  {
    if s != [] && s[0] != Slash {
      assert (s + t)[1..] == s[1..] + t;
      RunExtends(s[1..], t);
    }
  }

  // ---------------------------------------------------------------------------
  // Properties of the resolution

  /** Resolving a path in two parts is resolving the second from where the
      first ends: a failure anywhere is final, since no directory has
      inode number -1. */
  lemma {:induction false} ResolveAppend(disk: Disk, a: seq<seq<byte>>, b: seq<seq<byte>>, cur: int)
    ensures Resolve(disk, a + b, cur) == Resolve(disk, b, Resolve(disk, a, cur))
    decreases |a|
  {
    if a == [] {
      assert a + b == b;
    } else {
      assert (a + b)[0] == a[0] && (a + b)[1..] == a[1..] + b;
      var next := Step(disk, a[0], cur);
      if next < 0 {
        FailureIsFinal(disk, b);
      } else {
        ResolveAppend(disk, a[1..], b, next);
      }
    }
  }

  lemma FailureIsFinal(disk: Disk, b: seq<seq<byte>>)
    ensures Resolve(disk, b, -1) == -1
  {
  }

  /** A step from any directory ends at -1 or at an inode number of 1 or
      more: an entry with inode number 0 is never followed. */
  lemma StepRange(disk: Disk, name: seq<byte>, cur: int)
    ensures Step(disk, name, cur) == -1 || Step(disk, name, cur) >= 1
  {
  }

  /** So does the whole walk from a directory numbered 1 or more. */
  lemma {:induction false} ResolveRange(disk: Disk, comps: seq<seq<byte>>, cur: int)
    requires cur >= 1
    ensures Resolve(disk, comps, cur) == -1 || Resolve(disk, comps, cur) >= 1
    decreases |comps|
  {
    if comps != [] {
      StepRange(disk, comps[0], cur);
      var next := Step(disk, comps[0], cur);
      if next >= 0 {
        ResolveRange(disk, comps[1..], next);
      }
    }
  }

  /** So pathname_lookup returns -1 or an inode number of 1 or more. */
  lemma LookupRange(disk: Disk, path: Option<seq<byte>>)
    ensures Lookup(disk, path) == -1 || Lookup(disk, path) >= 1
  {
    if path.Some? && |path.value| > 0 && path.value[0] == Slash && path.value != [Slash] {
      ResolveRange(disk, Components(Truncate(path.value)), RootInumber as int);
    }
  }

  /** Bytes after the first 1023 of a path are never looked at. */
  lemma LongPath(disk: Disk, p: seq<byte>)
    requires |p| >= MaxPathLen
    ensures Lookup(disk, Some(p)) == Lookup(disk, Some(p[..MaxPathLen - 1]))
  {
    assert p[..MaxPathLen - 1][0] == p[0];
  }

  /** A path is looked up as the components it spells, from the root. */
  lemma LookupJoin(disk: Disk, cs: seq<seq<byte>>)
    requires cs != [] && |Join(cs)| < MaxPathLen
    requires forall c :: c in cs ==> |c| > 0 && Slash !in c
    ensures Lookup(disk, Some(Join(cs))) == Resolve(disk, cs, RootInumber as int)
  {
    var s := Join(cs);
    assert s[0] == Slash;
    assert s != [Slash] by {
      assert |s| >= 2;
    }
    SplitJoin(cs);
  }

  /** The root is "/", and also any path made of slashes only; a NULL,
      empty or relative path is an error. */
  lemma RootAndErrors(disk: Disk, rel: seq<byte>)
    requires rel != [] && rel[0] != Slash
    ensures Lookup(disk, Some([Slash])) == 1
    ensures Lookup(disk, Some([Slash, Slash, Slash])) == 1
    ensures Lookup(disk, None) == -1 && Lookup(disk, Some([])) == -1
    ensures Lookup(disk, Some(rel)) == -1
  {
    var three: seq<byte> := [Slash, Slash, Slash];
    assert Components(three[1..][1..][1..]) == [] by {
      assert three[1..][1..][1..] == [];
    }
    assert Components(three) == Components(three[1..]) == Components(three[1..][1..]) == [];
  }
}
