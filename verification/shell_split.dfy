/** dividir_por_pipes of TP4-Shell/src/ej2/shell.c: the line buffer is cut in
    place at every unquoted '|', each stage is trimmed by writing '\0' over
    its trailing whitespace, and a pointer to the first non-blank character
    of each stage is collected. A pointer into the buffer is an index; the
    string it denotes runs up to the next '\0'. */
module ShellSplit {
  import opened ShellScan

  // ---------------------------------------------------------------------------
  // Specification

  /** The positions of the unquoted pipes of s from i, scanning in quote
      state q with the same quote rule as the line checks. */
  function PipesFrom(s: string, i: nat, q: char): seq<nat>
    requires i <= |s|
    decreases |s| - i
  {
    if i == |s| then []
    else if q != '\0' then
      if Escape(s, i, q) then PipesFrom(s, i + 2, q)
      else PipesFrom(s, i + 1, if s[i] == q then '\0' else q)
    else if IsQuote(s[i]) then PipesFrom(s, i + 1, s[i])
    else if s[i] == '|' then [i] + PipesFrom(s, i + 1, '\0')
    else PipesFrom(s, i + 1, '\0')
  }

  /** r lists, in increasing order, positions of '|' at or after i. */
  predicate PipesAfter(s: string, i: nat, r: seq<nat>)
  {
    && (forall k :: 0 <= k < |r| ==> i <= r[k] < |s| && s[r[k]] == '|')
    && (forall k, l :: 0 <= k < l < |r| ==> r[k] < r[l])
  }

  /** Every position found holds an unquoted '|' at or after i, and the
      positions increase. */
  lemma {:induction false} PipesFromValid(s: string, i: nat, q: char)
    requires i <= |s|
    ensures PipesAfter(s, i, PipesFrom(s, i, q))
    decreases |s| - i
  {
    if i < |s| {
      var next, q' := i + 1, '\0';
      if q != '\0' {
        if Escape(s, i, q) {
          next, q' := i + 2, q;
        } else if s[i] != q {
          q' := q;
        }
      } else if IsQuote(s[i]) {
        q' := s[i];
      }
      PipesFromValid(s, next, q');
      var tail := PipesFrom(s, next, q');
      if q == '\0' && !IsQuote(s[i]) && s[i] == '|' {
        assert PipesFrom(s, i, q) == [i] + tail;
        PipesAfterCons(s, i, tail);
      } else {
        assert PipesFrom(s, i, q) == tail;
        PipesAfterWeaken(s, i, next, tail);
      }
    }
  }

  lemma PipesAfterWeaken(s: string, i: nat, j: nat, r: seq<nat>)
    requires i <= j && PipesAfter(s, j, r)
    ensures PipesAfter(s, i, r)
  {
  }

  lemma PipesAfterCons(s: string, i: nat, r: seq<nat>)
    requires i < |s| && s[i] == '|' && PipesAfter(s, i + 1, r)
    ensures PipesAfter(s, i, [i] + r)
  {
    var r' := [i] + r;
    assert forall k :: 0 < k < |r'| ==> r'[k] == r[k - 1];
  }

  /** The unquoted pipes of a whole line. */
  function Pipes(s: string): seq<nat>
  {
    PipesFrom(s, 0, '\0')
  }

  /** Cut positions inside s, strictly increasing. */
  predicate ValidCuts(s: string, cuts: seq<nat>)
  {
    && (forall k :: 0 <= k < |cuts| ==> cuts[k] < |s|)
    && (forall k, l :: 0 <= k < l < |cuts| ==> cuts[k] < cuts[l])
  }

  /** Where stage j starts: the line start, or just after the previous cut. */
  function SegStart(cuts: seq<nat>, j: nat): nat
    requires j <= |cuts|
  {
    if j == 0 then 0 else cuts[j - 1] + 1
  }

  /** Where stage j ends: at its cut, or at the end of the line. */
  function SegEnd(s: string, cuts: seq<nat>, j: nat): nat
    requires j <= |cuts|
  {
    if j < |cuts| then cuts[j] else |s|
  }

  /** Stage j of s: the text between two consecutive cuts (nothing when the
      cuts are out of order, which the cuts of a line never are). */
  function Segment(s: string, cuts: seq<nat>, j: nat): string
    requires j <= |cuts|
  {
    var a, b := SegStart(cuts, j), SegEnd(s, cuts, j);
    if a <= b <= |s| then s[a..b] else []
  }

  /** t without its leading whitespace. */
  function TrimLeft(t: string): string
  {
    if t != [] && IsSpace(t[0]) then TrimLeft(t[1..]) else t
  }

  /** t without its trailing whitespace. */
  function TrimRight(t: string): string
  {
    if t != [] && IsSpace(t[|t| - 1]) then TrimRight(t[..|t| - 1]) else t
  }

  function Trim(t: string): string
  {
    TrimRight(TrimLeft(t))
  }

  /** Stage j of s, trimmed. */
  function Stage(s: string, cuts: seq<nat>, j: nat): string
    requires j <= |cuts|
  {
    Trim(Segment(s, cuts, j))
  }

  /** The stages dividir_por_pipes stores for line s: every stage before an
      unquoted pipe, trimmed, even when nothing is left of it; then the last
      stage, trimmed, only when something is left of it. */
  function Stages(s: string): seq<string>
  {
    var cuts := Pipes(s);
    seq(|cuts|, j requires 0 <= j < |cuts| => Stage(s, cuts, j))
      + (if Stage(s, cuts, |cuts|) == [] then [] else [Stage(s, cuts, |cuts|)])
  }

  /** The string a pointer at o denotes: the characters up to the next '\0'. */
  function CString(a: seq<char>, o: nat): string
    decreases |a| - o
  {
    if o >= |a| || a[o] == '\0' then [] else [a[o]] + CString(a, o + 1)
  }

  // ---------------------------------------------------------------------------
  // Properties of the specification

  /** What is left after trimming on the left starts with a non-blank. */
  lemma {:induction false} TrimLeftFront(t: string)
    ensures var r := TrimLeft(t); r == [] || !IsSpace(r[0])
  {
    if t != [] && IsSpace(t[0]) {
      TrimLeftFront(t[1..]);
    }
  }

  /** Trimming on the right keeps a prefix that ends with a non-blank. */
  lemma {:induction false} TrimRightBack(t: string)
    ensures var r := TrimRight(t); |r| <= |t| && r == t[..|r|]
    ensures var r := TrimRight(t); r == [] || !IsSpace(r[|r| - 1])
  {
    if t != [] && IsSpace(t[|t| - 1]) {
      TrimRightBack(t[..|t| - 1]);
    }
  }

  /** A trimmed stage neither starts nor ends with whitespace. */
  lemma TrimmedEnds(t: string)
    ensures var r := Trim(t); r == [] || (!IsSpace(r[0]) && !IsSpace(r[|r| - 1]))
  {
    var l := TrimLeft(t);
    var r := TrimRight(l);
    TrimLeftFront(t);
    TrimRightBack(l);
    if r != [] {
      assert r[0] == l[0];
    }
  }

  /** Trimming is idempotent. */
  lemma TrimIdempotent(t: string)
    ensures Trim(Trim(t)) == Trim(t)
  {
    var r := Trim(t);
    TrimmedEnds(t);
    assert TrimLeft(r) == r;
    assert TrimRight(r) == r;
  }

  /** One stage per unquoted pipe, plus the last one when it is not blank;
      so never more than the pipes plus one. */
  lemma StageCount(s: string)
    ensures var cuts := Pipes(s);
      |Stages(s)| == |cuts| + (if Trim(Segment(s, cuts, |cuts|)) == [] then 0 else 1)
    ensures |Stages(s)| <= |Pipes(s)| + 1
  {
  }

  /** Stage k is the k-th segment between unquoted pipes, trimmed. */
  lemma StageIsTrim(s: string, k: nat)
    requires k < |Stages(s)|
    ensures k <= |Pipes(s)| && Stages(s)[k] == Trim(Segment(s, Pipes(s), k))
  {
    var cuts := Pipes(s);
    if k == |cuts| {
      assert Stages(s)[k] == Stage(s, cuts, k);
    }
  }

  /** Every stored stage is trimmed, and a stored last stage is not empty. */
  lemma StagesTrimmed(s: string)
    ensures forall k :: 0 <= k < |Stages(s)| ==>
      var t := Stages(s)[k]; t == [] || (!IsSpace(t[0]) && !IsSpace(t[|t| - 1]))
    ensures |Stages(s)| > |Pipes(s)| ==> Stages(s)[|Stages(s)| - 1] != []
  {
    forall k | 0 <= k < |Stages(s)|
      ensures var t := Stages(s)[k]; t == [] || (!IsSpace(t[0]) && !IsSpace(t[|t| - 1]))
    {
      StageIsTrim(s, k);
      TrimmedEnds(Segment(s, Pipes(s), k));
    }
  }

  /** A line without quotes or pipes is a single stage: itself, trimmed. */
  lemma {:induction false} NoPipesFrom(s: string, i: nat)
    requires i <= |s|
    requires forall k :: i <= k < |s| ==> s[k] != '|' && !IsQuote(s[k])
    ensures PipesFrom(s, i, '\0') == []
    decreases |s| - i
  {
    if i < |s| {
      NoPipesFrom(s, i + 1);
    }
  }

  lemma SingleStage(s: string)
    requires forall k :: 0 <= k < |s| ==> s[k] != '|' && !IsQuote(s[k])
    requires Trim(s) != []
    ensures Stages(s) == [Trim(s)]
  {
    NoPipesFrom(s, 0);
    assert Segment(s, [], 0) == s;
  }

  /** Text made only of whitespace trims to nothing. */
  lemma {:induction false} TrimBlank(t: string)
    requires forall m :: 0 <= m < |t| ==> IsSpace(t[m])
    ensures Trim(t) == []
  {
    if t != [] {
      TrimBlank(t[1..]);
    }
  }

  /** A blank stage between two pipes is still stored, as an empty string. */
  lemma BlankMiddleStage(s: string, j: nat)
    requires j < |Pipes(s)|
    requires forall m :: 0 <= m < |Segment(s, Pipes(s), j)| ==> IsSpace(Segment(s, Pipes(s), j)[m])
    ensures j < |Stages(s)| && Stages(s)[j] == []
  {
    TrimBlank(Segment(s, Pipes(s), j));
  }

  /** A blank last stage is dropped: there are exactly as many stages as
      unquoted pipes. */
  lemma BlankLastStage(s: string)
    requires var last := Segment(s, Pipes(s), |Pipes(s)|);
      forall m :: 0 <= m < |last| ==> IsSpace(last[m])
    ensures |Stages(s)| == |Pipes(s)|
  {
    TrimBlank(Segment(s, Pipes(s), |Pipes(s)|));
  }

  /** A pipe inside quotes does not split. */
  lemma QuotedPipeStage()
    ensures Pipes("echo 'x|y'") == []
  {
  }

  // ---------------------------------------------------------------------------
  // Lemmas the implementation uses

  /** Skipping leading whitespace up to the first non-blank character. */
  lemma {:induction false} TrimLeftSkips(t: string, k: nat)
    requires k <= |t|
    requires forall m :: 0 <= m < k ==> IsSpace(t[m])
    requires k == |t| || !IsSpace(t[k])
    ensures TrimLeft(t) == t[k..]
  {
    if k > 0 {
      TrimLeftSkips(t[1..], k - 1);
      assert t[1..][k - 1..] == t[k..];
    }
  }

  /** Dropping trailing whitespace down to the last non-blank character. */
  lemma {:induction false} TrimRightDrops(t: string, k: nat)
    requires k <= |t|
    requires forall m :: k <= m < |t| ==> IsSpace(t[m])
    requires k == 0 || !IsSpace(t[k - 1])
    ensures TrimRight(t) == t[..k]
    decreases |t|
  {
    if k < |t| {
      TrimRightDrops(t[..|t| - 1], k);
      assert t[..|t| - 1][..k] == t[..k];
    }
  }

  /** The string at o ends at the first '\0'. */
  lemma {:induction false} CStringUpTo(a: seq<char>, o: nat, e: nat)
    requires o <= e < |a| && a[e] == '\0'
    requires forall m :: o <= m < e ==> a[m] != '\0'
    ensures CString(a, o) == a[o..e]
    decreases e - o
  {
    if o < e {
      CStringUpTo(a, o + 1, e);
    }
  }

  /** The pipes before position p are a prefix of all pipes, and stage j is
      known once its pipe has been passed. */
  lemma StagePrefix(s: string, pipes: seq<nat>, j: nat)
    requires pipes <= Pipes(s) && j < |pipes|
    ensures SegStart(pipes, j) <= pipes[j] <= |s|
    ensures Segment(s, Pipes(s), j) == s[SegStart(pipes, j)..pipes[j]]
  {
    PipesFromValid(s, 0, '\0');
  }

  // ---------------------------------------------------------------------------
  // Implementation

  /** strlen from position from. */
  function StrLen(line: array<char>, from: nat): (r: nat)
    requires from < line.Length && exists m :: from <= m < line.Length && line[m] == '\0'
    reads line
    ensures from + r < line.Length && line[from + r] == '\0'
    ensures forall m :: from <= m < from + r ==> line[m] != '\0'
    decreases line.Length - from
  {
    if line[from] == '\0' then 0
    else
      assert exists m :: from + 1 <= m < line.Length && line[m] == '\0';
      1 + StrLen(line, from + 1)
  }

  /** Leading whitespace does not change the trimmed text. */
  lemma {:induction false} TrimSpacePrefix(t: string, k: nat)
    requires k <= |t|
    requires forall m :: 0 <= m < k ==> IsSpace(t[m])
    ensures Trim(t) == Trim(t[k..])
  {
    if k > 0 {
      TrimSpacePrefix(t[1..], k - 1);
      assert t[1..][k - 1..] == t[k..];
    }
  }

  /** Whitespace before first and from end, with non-blank characters at
      first and before end: what is left between is the trimmed text. */
  lemma TrimmedBetween(s: string, start: nat, first: nat, end: nat, stop: nat)
    requires start <= first <= end <= stop <= |s|
    requires forall m :: start <= m < first ==> IsSpace(s[m])
    requires first == stop || !IsSpace(s[first])
    requires forall m :: end <= m < stop ==> IsSpace(s[m])
    requires end == first || !IsSpace(s[end - 1])
    ensures s[first..end] == Trim(s[start..stop])
  {
    SkippedLeft(s, start, first, stop);
    DroppedRight(s, first, end, stop);
  }

  lemma SkippedLeft(s: string, start: nat, first: nat, stop: nat)
    requires start <= first <= stop <= |s|
    requires forall m :: start <= m < first ==> IsSpace(s[m])
    requires first == stop || !IsSpace(s[first])
    ensures TrimLeft(s[start..stop]) == s[first..stop]
  {
    TrimLeftSkips(s[start..stop], first - start);
    assert s[start..stop][first - start..] == s[first..stop];
  }

  lemma DroppedRight(s: string, first: nat, end: nat, stop: nat)
    requires first <= end <= stop <= |s|
    requires forall m :: end <= m < stop ==> IsSpace(s[m])
    requires end == first || !IsSpace(s[end - 1])
    ensures TrimRight(s[first..stop]) == s[first..end]
  {
    ghost var t := s[first..stop];
    assert forall m :: end - first <= m < |t| ==> IsSpace(t[m]) by {
      forall m | end - first <= m < |t|
        ensures IsSpace(t[m])
      {
        assert t[m] == s[first + m];
      }
    }
    TrimRightDrops(t, end - first);
    assert t[..end - first] == s[first..end] by {
      assert |t[..end - first]| == |s[first..end]|;
      forall m | 0 <= m < end - first
        ensures t[..end - first][m] == s[first..end][m]
      {
      }
    }
  }

  /** The two trimming loops of one stage [start, stop): skip leading
      whitespace, then overwrite trailing whitespace with '\0'. The stage
      is left as [first, end), with '\0' from end to stop. */
  method TrimStage(line: array<char>, start: nat, stop: nat, ghost s: string)
      returns (first: nat, end: nat)
    requires start <= stop <= |s| && stop <= line.Length
    requires forall m :: start <= m < stop ==> line[m] == s[m]
    modifies line
    ensures start <= first <= end <= stop
    ensures s[first..end] == Trim(s[start..stop])
    ensures first < stop ==> first < end
    ensures forall m :: start <= m < first ==> IsSpace(s[m])
    ensures forall m :: start <= m < end ==> line[m] == s[m]
    ensures forall m :: end <= m < stop ==> line[m] == '\0'
    ensures forall m :: 0 <= m < line.Length && !(end <= m < stop) ==> line[m] == old(line[m])
  {
    first := start;
    while first < stop && IsSpace(line[first])
      invariant start <= first <= stop
      invariant forall m :: start <= m < first ==> IsSpace(s[m])
      decreases stop - first
    {
      first := first + 1;
    }
    end := stop;
    while end > first && IsSpace(line[end - 1])
      invariant first <= end <= stop
      invariant first < stop ==> first < end
      invariant forall m :: end <= m < stop ==> IsSpace(s[m]) && line[m] == '\0'
      invariant forall m :: 0 <= m < line.Length && !(end <= m < stop) ==> line[m] == old(line[m])
      decreases end - first
    {
      line[end - 1] := '\0';
      end := end - 1;
    }
    if end > first {
      assert line[end - 1] == old(line[end - 1]);
    }
    TrimmedBetween(s, start, first, end, stop);
  }

  /** The pipe branch of dividir_por_pipes: trim the stage [start, p), keep
      a pointer to it when it does not start with '\0', and cut the line at
      the pipe. */
  method CutStage(line: array<char>, start: nat, p: nat, ghost s: string)
      returns (first: nat, end: nat, stored: bool)
    requires start <= p < |s| && p < line.Length && s[p] == '|' && '\0' !in s
    requires forall m :: start <= m <= p ==> line[m] == s[m]
    modifies line
    ensures start <= first <= end <= p
    ensures stored
    ensures line[end] == '\0'
    ensures line[first..end] == s[first..end] == Trim(s[start..p])
    ensures forall m :: 0 <= m < line.Length && !(end <= m <= p) ==> line[m] == old(line[m])
  {
    first, end := TrimStage(line, start, p, s);
    if first < end {
      assert line[first] == s[first];
    }
    stored := line[first] != '\0';
    line[p] := '\0';
    assert line[first..end] == s[first..end];
  }

  /** The last stage of dividir_por_pipes: skip its leading whitespace, find
      its end with strlen, trim its trailing whitespace, and keep a pointer
      to it when something is left. */
  method CutLast(line: array<char>, start: nat, ghost s: string)
      returns (first: nat, end: nat, stored: bool)
    requires start <= |s| < line.Length && line[|s|] == '\0' && '\0' !in s
    requires forall m :: start <= m < |s| ==> line[m] == s[m]
    modifies line
    ensures start <= first <= end <= |s|
    ensures stored <==> first < end
    ensures line[end] == '\0'
    ensures line[first..end] == s[first..end] == Trim(s[start..])
    ensures forall m :: 0 <= m < line.Length && !(end <= m < |s|) ==> line[m] == old(line[m])
  {
    var segStart := start;
    while line[segStart] != '\0' && IsSpace(line[segStart])
      invariant start <= segStart <= |s|
      invariant forall m :: start <= m < segStart ==> IsSpace(s[m])
      decreases |s| - segStart
    {
      segStart := segStart + 1;
    }
    var len := StrLen(line, segStart);
    assert segStart + len == |s|;
    first, end := TrimStage(line, segStart, segStart + len, s);
    BlankPrefix(s, start, segStart);
    assert s[segStart..segStart + len] == s[segStart..];
    if first < end {
      assert line[first] == s[first];
    }
    stored := line[first] != '\0';
    assert line[first..end] == s[first..end];
  }

  /** Pointer c starts text t, which is followed by a '\0' at e, below upto. */
  ghost predicate StoredAt(a: seq<char>, c: nat, e: nat, t: string, upto: nat)
  {
    c <= e < upto && e < |a| && a[e] == '\0' && a[c..e] == t && '\0' !in t
  }

  /** The stages kept so far, each as StoredAt says. */
  ghost predicate Stored(a: seq<char>, commands: seq<nat>, ends: seq<nat>, texts: seq<string>, upto: nat)
  {
    && |commands| == |ends| == |texts| && upto <= |a|
    && forall k :: 0 <= k < |commands| ==> StoredAt(a, commands[k], ends[k], texts[k], upto)
  }

  /** Changes above upto do not disturb the kept stages. */
  lemma StoredFrame(a: seq<char>, b: seq<char>, commands: seq<nat>, ends: seq<nat>, texts: seq<string>, upto: nat)
    requires Stored(a, commands, ends, texts, upto)
    requires upto <= |b| && forall m :: 0 <= m < upto ==> a[m] == b[m]
    ensures Stored(b, commands, ends, texts, upto)
  {
    forall k | 0 <= k < |commands|
      ensures StoredAt(b, commands[k], ends[k], texts[k], upto)
    {
      var c, e := commands[k], ends[k];
      assert StoredAt(a, c, e, texts[k], upto);
      assert forall m :: 0 <= m < e - c ==> a[c..e][m] == a[c + m] == b[c + m] == b[c..e][m];
    }
  }

  /** Keeping the stage cut before a pipe: the line changed only from start
      on, and the stage ends with a '\0' before the next start. */
  lemma StoredCut(before: seq<char>, after: seq<char>, commands: seq<nat>, ends: seq<nat>,
                  texts: seq<string>, start: nat, first: nat, end: nat, p: nat, t: string)
    requires Stored(before, commands, ends, texts, start)
    requires start <= first <= end <= p < |after| && forall m :: 0 <= m < start ==> after[m] == before[m]
    requires after[end] == '\0' && after[first..end] == t && '\0' !in t
    ensures Stored(after, commands + [first], ends + [end], texts + [t], p + 1)
  {
    StoredFrame(before, after, commands, ends, texts, start);
    StoredExtend(after, commands, ends, texts, start, first, end, t, p + 1);
  }

  /** Keeping one more stage. */
  lemma StoredExtend(a: seq<char>, commands: seq<nat>, ends: seq<nat>, texts: seq<string>, upto: nat,
                     c: nat, e: nat, t: string, upto': nat)
    requires Stored(a, commands, ends, texts, upto)
    requires upto <= upto' <= |a| && c <= e < upto' && a[e] == '\0' && a[c..e] == t && '\0' !in t
    ensures Stored(a, commands + [c], ends + [e], texts + [t], upto')
  {
  }

  /** Every kept pointer denotes its stage. */
  lemma StoredStrings(a: seq<char>, commands: seq<nat>, ends: seq<nat>, texts: seq<string>, upto: nat)
    requires Stored(a, commands, ends, texts, upto)
    ensures forall k :: 0 <= k < |commands| ==> CString(a, commands[k]) == texts[k]
  {
    forall k | 0 <= k < |commands|
      ensures CString(a, commands[k]) == texts[k]
    {
      assert StoredAt(a, commands[k], ends[k], texts[k], upto);
      forall m | commands[k] <= m < ends[k]
        ensures a[m] != '\0'
      {
        assert a[m] == texts[k][m - commands[k]];
      }
      CStringUpTo(a, commands[k], ends[k]);
    }
  }

  /** A slice of a line without '\0' has none either. */
  lemma NoNul(s: string, i: nat, j: nat)
    requires i <= j <= |s| && '\0' !in s
    ensures '\0' !in s[i..j]
  {
    forall k | 0 <= k < j - i
      ensures s[i..j][k] != '\0'
    {
      assert s[i + k] in s;
    }
  }

  /** One step of the scan of dividir_por_pipes that does not cut: inside
      a quote, an escaped quote is skipped and the closing quote ends the
      quote; outside, a quote character opens a quote and any other
      character other than '|' is passed over. */
  method ScanStep(line: array<char>, p: nat, quote: char, ghost s: string)
      returns (next: nat, quote': char)
    requires p < |s| < line.Length && line[|s|] == '\0'
    requires forall m :: p <= m < |s| ==> line[m] == s[m]
    requires quote != '\0' || s[p] != '|'
    ensures p < next <= |s|
    ensures PipesFrom(s, p, quote) == PipesFrom(s, next, quote')
  {
    assert line[p + 1] == At(s, p + 1);
    if quote != '\0' {
      if line[p] == '\\' && line[p + 1] == quote {
        return p + 2, quote;
      }
      quote' := quote;
      if line[p] == quote {
        quote' := '\0';
      }
      next := p + 1;
    } else {
      quote' := quote;
      if IsQuote(line[p]) {
        quote' := line[p];
      }
      next := p + 1;
    }
  }

  /** The pipe branch of dividir_por_pipes with its bookkeeping: the stage
      before the pipe is cut, trimmed and kept as the next stage. */
  method KeepStage(line: array<char>, start: nat, p: nat, ghost s: string, ghost cuts: seq<nat>,
                   ghost pipes: seq<nat>, ghost commands: seq<nat>, ghost ends: seq<nat>,
                   ghost texts: seq<string>)
      returns (first: nat, stored: bool, ghost end: nat)
    requires cuts == Pipes(s) && start <= p < |s| < line.Length && s[p] == '|' && '\0' !in s
    requires pipes + PipesFrom(s, p, '\0') == cuts && start == SegStart(pipes, |pipes|)
    requires forall m :: start <= m < |s| ==> line[m] == s[m]
    requires Kept(s, cuts, line[..], commands, ends, texts, |pipes|, start)
    modifies line
    ensures stored && first <= end <= p
    ensures (pipes + [p]) + PipesFrom(s, p + 1, '\0') == cuts
    ensures Kept(s, cuts, line[..], commands + [first], ends + [end], texts + [s[first..end]], |pipes| + 1, p + 1)
    ensures forall m :: p < m < line.Length ==> line[m] == old(line[m])
  {
    ghost var before := line[..];
    first, end, stored := CutStage(line, start, p, s);
    ghost var after := line[..];
    assert after[first..end] == line[first..end];
    assert forall m :: 0 <= m < start ==> after[m] == before[m];
    PipeCut(s, cuts, pipes, texts, before, after, commands, ends, start, first, end, p);
  }

  /** The last stage of dividir_por_pipes with its bookkeeping: once it is
      kept or dropped, the kept pointers denote exactly the stages. */
  method KeepLast(line: array<char>, start: nat, ghost s: string, ghost cuts: seq<nat>,
                  ghost commands: seq<nat>, ghost ends: seq<nat>, ghost texts: seq<string>)
      returns (first: nat, stored: bool)
    requires cuts == Pipes(s) && start == SegStart(cuts, |cuts|) && '\0' !in s
    requires start <= |s| < line.Length && line[|s|] == '\0'
    requires forall m :: start <= m < |s| ==> line[m] == s[m]
    requires Kept(s, cuts, line[..], commands, ends, texts, |cuts|, start)
    modifies line
    ensures var kept := if stored then commands + [first] else commands;
      && |kept| == |Stages(s)|
      && forall k :: 0 <= k < |kept| ==> CString(line[..], kept[k]) == Stages(s)[k]
  {
    ghost var before := line[..];
    var end;
    first, end, stored := CutLast(line, start, s);
    ghost var after := line[..];
    assert after[first..end] == line[first..end];
    assert forall m :: 0 <= m < start ==> after[m] == before[m];
    LastCut(s, cuts, texts, before, after, commands, ends, start, first, end);
  }

  /** The first j stages of s are kept in a, below upto. */
  ghost predicate Kept(s: string, cuts: seq<nat>, a: seq<char>, commands: seq<nat>, ends: seq<nat>,
                       texts: seq<string>, j: nat, upto: nat)
  {
    && |texts| == j <= |cuts|
    && Stored(a, commands, ends, texts, upto)
    && forall k :: 0 <= k < |texts| ==> texts[k] == Stage(s, cuts, k)
  }

  /** dividir_por_pipes on the string held in line[..n]. It returns the start
      of each stored stage; line ends up holding each stage as a string. */
  method SplitByPipes(line: array<char>, ghost n: nat) returns (commands: seq<nat>)
    requires n < line.Length && line[n] == '\0'
    requires forall m :: 0 <= m < n ==> line[m] != '\0'
    modifies line
    ensures |commands| == |Stages(old(line[..n]))|
    ensures forall k :: 0 <= k < |commands| ==>
      CString(line[..], commands[k]) == Stages(old(line[..n]))[k]
  {
    ghost var s := line[..n];
    assert '\0' !in s;
    ghost var cuts := Pipes(s);
    ghost var pipes: seq<nat> := [];
    ghost var ends: seq<nat> := [];
    ghost var texts: seq<string> := [];
    commands := [];
    var start := 0;
    var p := 0;
    var quote := '\0';
    ghost var cur := line[..];
    while line[p] != '\0'
      invariant start <= p <= n && line[..] == cur && cur[n] == '\0'
      invariant forall m :: start <= m < n ==> cur[m] == s[m]
      invariant pipes + PipesFrom(s, p, quote) == cuts
      invariant start == SegStart(pipes, |pipes|)
      invariant Kept(s, cuts, cur, commands, ends, texts, |pipes|, start)
      decreases n - p
    {
      if quote == '\0' && line[p] == '|' {
        var first, stored;
        ghost var end;
        first, stored, end := KeepStage(line, start, p, s, cuts, pipes, commands, ends, texts);
        cur := line[..];
        if stored {
          commands := commands + [first];
        }
        pipes := pipes + [p];
        ends := ends + [end];
        texts := texts + [s[first..end]];
        p := p + 1;
        start := p;
      } else {
        p, quote := ScanStep(line, p, quote, s);
      }
    }
    assert p == n && pipes == cuts;
    var first, stored := KeepLast(line, start, s, cuts, commands, ends, texts);
    if stored {
      commands := commands + [first];
    }
  }

  /** The bookkeeping of the pipe branch: the pipe is the next cut, and the
      stage cut before it is kept as the next stage. */
  lemma PipeCut(s: string, cuts: seq<nat>, pipes: seq<nat>, texts: seq<string>,
                before: seq<char>, after: seq<char>, commands: seq<nat>, ends: seq<nat>,
                start: nat, first: nat, end: nat, p: nat)
    requires cuts == Pipes(s) && p < |s| && s[p] == '|' && '\0' !in s
    requires pipes + PipesFrom(s, p, '\0') == cuts
    requires start == SegStart(pipes, |pipes|) && |texts| == |pipes|
    requires forall k :: 0 <= k < |texts| ==> texts[k] == Stage(s, cuts, k)
    requires Stored(before, commands, ends, texts, start)
    requires start <= first <= end <= p < |after| && forall m :: 0 <= m < start ==> after[m] == before[m]
    requires after[end] == '\0' && after[first..end] == s[first..end] == Trim(s[start..p])
    ensures (pipes + [p]) + PipesFrom(s, p + 1, '\0') == cuts && |pipes| < |cuts|
    ensures Stored(after, commands + [first], ends + [end], texts + [s[first..end]], p + 1)
    ensures forall k :: 0 <= k < |texts| + 1 ==> (texts + [s[first..end]])[k] == Stage(s, cuts, k)
  {
    AtPipe(s, cuts, pipes, p);
    StoreStage(s, cuts, pipes, p, first, end);
    NoNul(s, first, end);
    StoredCut(before, after, commands, ends, texts, start, first, end, p, s[first..end]);
    TextsExtend(s, cuts, texts, s[first..end]);
  }

  /** The bookkeeping of the last stage: once it is kept or dropped, the kept
      pointers denote exactly the stages of the line. */
  lemma LastCut(s: string, cuts: seq<nat>, texts: seq<string>,
                before: seq<char>, after: seq<char>, commands: seq<nat>, ends: seq<nat>,
                start: nat, first: nat, end: nat)
    requires cuts == Pipes(s) && start == SegStart(cuts, |cuts|) && '\0' !in s
    requires |texts| == |cuts|
    requires forall k :: 0 <= k < |texts| ==> texts[k] == Stage(s, cuts, k)
    requires Stored(before, commands, ends, texts, start)
    requires start <= first <= end <= |s| < |after| && forall m :: 0 <= m < start ==> after[m] == before[m]
    requires after[end] == '\0' && after[first..end] == s[first..end] == Trim(s[start..])
    ensures var kept := if first < end then commands + [first] else commands;
      && |kept| == |Stages(s)|
      && forall k :: 0 <= k < |kept| ==> CString(after, kept[k]) == Stages(s)[k]
  {
    LastStage(s, cuts, start, first, end);
    StoredFrame(before, after, commands, ends, texts, start);
    if first < end {
      LastKept(s, cuts, texts, after, commands, ends, start, first, end);
    } else {
      StagesAre(s, texts);
      StoredStrings(after, commands, ends, texts, start);
    }
  }

  lemma LastKept(s: string, cuts: seq<nat>, texts: seq<string>, after: seq<char>,
                 commands: seq<nat>, ends: seq<nat>, start: nat, first: nat, end: nat)
    requires cuts == Pipes(s) && '\0' !in s && |texts| == |cuts|
    requires forall k :: 0 <= k < |texts| ==> texts[k] == Stage(s, cuts, k)
    requires Stored(after, commands, ends, texts, start)
    requires start <= first < end <= |s| < |after| && after[end] == '\0' && after[first..end] == s[first..end]
    requires |Stages(s)| == |cuts| + 1 && s[first..end] == Stage(s, cuts, |cuts|)
    ensures |commands + [first]| == |Stages(s)|
    ensures forall k :: 0 <= k < |commands| + 1 ==> CString(after, (commands + [first])[k]) == Stages(s)[k]
  {
    var t := s[first..end];
    assert Stored(after, commands + [first], ends + [end], texts + [t], |s| + 1) by {
      NoNul(s, first, end);
      StoredExtend(after, commands, ends, texts, start, first, end, t, |s| + 1);
    }
    assert texts + [t] == Stages(s) by {
      StagesAre(s, texts + [t]);
    }
    StoredStrings(after, commands + [first], ends + [end], texts + [t], |s| + 1);
  }

  /** One more stage found in order. */
  lemma TextsExtend(s: string, cuts: seq<nat>, texts: seq<string>, t: string)
    requires |texts| <= |cuts|
    requires forall k :: 0 <= k < |texts| ==> texts[k] == Stage(s, cuts, k)
    requires t == Stage(s, cuts, |texts|)
    ensures forall k :: 0 <= k < |texts + [t]| ==> (texts + [t])[k] == Stage(s, cuts, k)
  {
  }

  /** Passing an unquoted pipe records it as the next cut. */
  lemma AtPipe(s: string, cuts: seq<nat>, pipes: seq<nat>, p: nat)
    requires cuts == Pipes(s) && p < |s| && s[p] == '|'
    requires pipes + PipesFrom(s, p, '\0') == cuts
    ensures (pipes + [p]) + PipesFrom(s, p + 1, '\0') == cuts
    ensures pipes + [p] <= cuts
  {
    assert PipesFrom(s, p, '\0') == [p] + PipesFrom(s, p + 1, '\0');
    assert pipes + ([p] + PipesFrom(s, p + 1, '\0')) == (pipes + [p]) + PipesFrom(s, p + 1, '\0');
  }

  /** The stage before the pipe at p, trimmed, is the next stage. */
  lemma StoreStage(s: string, cuts: seq<nat>, pipes: seq<nat>, p: nat, first: nat, end: nat)
    requires p < |s|
    requires cuts == Pipes(s) && pipes + [p] <= cuts
    requires first <= end <= |s| && SegStart(pipes, |pipes|) <= p
    requires s[first..end] == Trim(s[SegStart(pipes, |pipes|)..p])
    ensures s[first..end] == Stage(s, cuts, |pipes|)
  {
    StagePrefix(s, pipes + [p], |pipes|);
  }

  /** The stages found one by one are all the stages. */
  lemma StagesAre(s: string, texts: seq<string>)
    requires |texts| == |Stages(s)|
    requires forall k :: 0 <= k < |texts| ==> k <= |Pipes(s)| && texts[k] == Stage(s, Pipes(s), k)
    ensures texts == Stages(s)
  {
    forall k | 0 <= k < |texts|
      ensures texts[k] == Stages(s)[k]
    {
      StageIsTrim(s, k);
    }
  }

  /** The last stage: counted when something is left of it after trimming. */
  lemma LastStage(s: string, cuts: seq<nat>, start: nat, first: nat, end: nat)
    requires cuts == Pipes(s) && start == SegStart(cuts, |cuts|)
    requires start <= first <= end <= |s|
    requires s[first..end] == Trim(s[start..])
    ensures |Stages(s)| == |cuts| + (if first == end then 0 else 1)
    ensures s[first..end] == Stage(s, cuts, |cuts|)
  {
    LastSegment(s);
    StageCount(s);
  }

  lemma LastSegment(s: string)
    ensures SegStart(Pipes(s), |Pipes(s)|) <= |s|
    ensures Segment(s, Pipes(s), |Pipes(s)|) == s[SegStart(Pipes(s), |Pipes(s)|)..]
  {
    PipesFromValid(s, 0, '\0');
  }

  lemma BlankPrefix(s: string, start: nat, segStart: nat)
    requires start <= segStart <= |s|
    requires forall m :: start <= m < segStart ==> IsSpace(s[m])
    ensures Trim(s[start..]) == Trim(s[segStart..])
  {
    TrimSpacePrefix(s[start..], segStart - start);
    assert s[start..][segStart - start..] == s[segStart..];
  }
}
