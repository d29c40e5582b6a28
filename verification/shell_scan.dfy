/** The quote-aware line checks of TP4-Shell/src/ej2/shell.c:
    tiene_comilla_abierta and sintaxis_pipe_invalida. A C string is modelled
    by its characters before the terminator; reading one past the end, as
    the escape test `*(p+1)` does, yields '\0'. */
module ShellScan {

  /** isspace in the C locale. */
  predicate IsSpace(c: char)
  {
    c == ' ' || c == '\t' || c == '\n' || c == '\U{000B}' || c == '\U{000C}' || c == '\r'
  }

  /** The two characters that open a quote. */
  predicate IsQuote(c: char)
  {
    c == '\'' || c == '"'
  }

  /** The character at i, or the terminator past the end. */
  function At(s: string, i: nat): char
  {
    if i < |s| then s[i] else '\0'
  }

  /** Inside a quote opened by q, a backslash followed by q is an escape: the
      pair is skipped and does not close the quote. */
  predicate Escape(s: string, i: nat, q: char)
    requires i < |s|
  {
    s[i] == '\\' && At(s, i + 1) == q
  }

  // ---------------------------------------------------------------------------
  // tiene_comilla_abierta

  /** The quote left open after scanning s from i in quote state q ('\0' when
      no quote is open). */
  function QuoteAfter(s: string, i: nat, q: char): char
    requires i <= |s|
    decreases |s| - i
  {
    if i == |s| then q
    else if q != '\0' then
      if Escape(s, i, q) then QuoteAfter(s, i + 2, q)
      else if s[i] == q then QuoteAfter(s, i + 1, '\0')
      else QuoteAfter(s, i + 1, q)
    else if IsQuote(s[i]) then QuoteAfter(s, i + 1, s[i])
    else QuoteAfter(s, i + 1, '\0')
  }

  /** tiene_comilla_abierta: true when the line ends inside a quote. */
  method HasOpenQuote(s: string) returns (r: bool)
    ensures r <==> QuoteAfter(s, 0, '\0') != '\0'
  {
    var q := '\0';
    var p := 0;
    while p < |s|
      invariant p <= |s|
      invariant QuoteAfter(s, p, q) == QuoteAfter(s, 0, '\0')
      decreases |s| - p
    {
      if q != '\0' {
        if s[p] == '\\' && At(s, p + 1) == q {
          p := p + 2;
          continue;
        }
        if s[p] == q {
          q := '\0';
        }
      } else if IsQuote(s[p]) {
        q := s[p];
      }
      p := p + 1;
    }
    r := q != '\0';
  }

  /** The state is always closed or one of the two quote characters. */
  lemma {:induction false} QuoteAfterRange(s: string, i: nat, q: char)
    requires i <= |s| && (q == '\0' || IsQuote(q))
    ensures var r := QuoteAfter(s, i, q); r == '\0' || IsQuote(r)
    decreases |s| - i
  {
    if i < |s| {
      if q != '\0' {
        if Escape(s, i, q) {
          QuoteAfterRange(s, i + 2, q);
        } else if s[i] == q {
          QuoteAfterRange(s, i + 1, '\0');
        } else {
          QuoteAfterRange(s, i + 1, q);
        }
      } else if IsQuote(s[i]) {
        QuoteAfterRange(s, i + 1, s[i]);
      } else {
        QuoteAfterRange(s, i + 1, '\0');
      }
    }
  }

  /** A line without quote characters never leaves a quote open. */
  lemma {:induction false} NoQuotesNeverOpen(s: string, i: nat)
    requires i <= |s|
    requires forall k :: i <= k < |s| ==> !IsQuote(s[k])
    ensures QuoteAfter(s, i, '\0') == '\0'
    decreases |s| - i
  {
    if i < |s| {
      NoQuotesNeverOpen(s, i + 1);
    }
  }

  /** Inside a quote opened by q, text without q leaves it open. */
  lemma {:induction false} StaysOpen(s: string, i: nat, q: char)
    requires i <= |s| && IsQuote(q)
    requires forall k :: i <= k < |s| ==> s[k] != q
    ensures QuoteAfter(s, i, q) == q
    decreases |s| - i
  {
    if i < |s| {
      StaysOpen(s, i + 1, q);
    }
  }

  /** Inside a quote opened by q, the first q not preceded by a backslash
      closes it. */
  lemma {:induction false} ClosesAt(s: string, i: nat, j: nat, q: char)
    requires i <= j < |s| && IsQuote(q) && s[j] == q
    requires forall k :: i <= k < j ==> s[k] != q
    requires j == i || s[j - 1] != '\\'
    ensures QuoteAfter(s, i, q) == QuoteAfter(s, j + 1, '\0')
    decreases j - i
  {
    if i < j {
      assert !Escape(s, i, q) by {
        if i + 1 < j {
          assert s[i + 1] != q;
        }
      }
      ClosesAt(s, i + 1, j, q);
    }
  }

  /** A part of the line that ends with every quote closed does not affect
      what follows it. */
  lemma {:induction false} ClosedPrefix(a: string, b: string, i: nat, q: char)
    requires i <= |a| && (q == '\0' || IsQuote(q)) && QuoteAfter(a, i, q) == '\0'
    ensures QuoteAfter(a + b, i, q) == QuoteAfter(b, 0, '\0')
    decreases |a| - i
  {
    var s := a + b;
    if i == |a| {
      ShiftedScan(a, b, 0, '\0');
    } else if q != '\0' {
      if Escape(a, i, q) {
        assert Escape(s, i, q);
        ClosedPrefix(a, b, i + 2, q);
      } else {
        if a[i] == '\\' && i + 1 == |a| {
          StaysOpenAtEnd(a, i, q);
          assert false;
        }
        assert !Escape(s, i, q);
        if a[i] == q {
          ClosedPrefix(a, b, i + 1, '\0');
        } else {
          ClosedPrefix(a, b, i + 1, q);
        }
      }
    } else if IsQuote(a[i]) {
      ClosedPrefix(a, b, i + 1, a[i]);
    } else {
      ClosedPrefix(a, b, i + 1, '\0');
    }
  }

  /** The last character, read inside a quote that it does not close, leaves
      that quote open. */
  lemma StaysOpenAtEnd(a: string, i: nat, q: char)
    requires i + 1 == |a| && q != '\0' && !Escape(a, i, q) && a[i] != q
    ensures QuoteAfter(a, i, q) == q
  {
  }

  /** Scanning the tail of a + b from |a| is scanning b from 0. */
  lemma {:induction false} ShiftedScan(a: string, b: string, j: nat, q: char)
    requires j <= |b|
    ensures QuoteAfter(a + b, |a| + j, q) == QuoteAfter(b, j, q)
    decreases |b| - j
  {
    var s := a + b;
    if j < |b| {
      assert s[|a| + j] == b[j];
      assert At(s, |a| + j + 1) == At(b, j + 1);
      if q != '\0' && Escape(b, j, q) {
        ShiftedScan(a, b, j + 2, q);
      } else if q != '\0' && b[j] == q {
        ShiftedScan(a, b, j + 1, '\0');
      } else if q != '\0' {
        ShiftedScan(a, b, j + 1, q);
      } else if IsQuote(b[j]) {
        ShiftedScan(a, b, j + 1, b[j]);
      } else {
        ShiftedScan(a, b, j + 1, '\0');
      }
    }
  }

  /** A quoted word closes its quote; without the closing quote, the line is
      left open. */
  lemma QuotedWord(q: char, w: string)
    requires IsQuote(q) && q !in w && (w == [] || w[|w| - 1] != '\\')
    ensures QuoteAfter([q] + w + [q], 0, '\0') == '\0'
    ensures QuoteAfter([q] + w, 0, '\0') == q
  {
    var closed := [q] + w + [q];
    ClosesAt(closed, 1, |w| + 1, q);
    var open := [q] + w;
    StaysOpen(open, 1, q);
  }

  /** Inside a quote, a backslash before the quote character escapes it. */
  lemma EscapedQuoteStaysOpen()
    ensures QuoteAfter("'a\\'", 0, '\0') == '\''
  {
  }

  // ---------------------------------------------------------------------------
  // sintaxis_pipe_invalida

  /** The last unquoted item seen: nothing yet, a word character or a pipe
      (the variable ultimo: -1, 1 or 2). */
  datatype Seen = Nothing | Word | Pipe

  /** The verdict of the pipe check on s from i, in quote state q, having seen
      last. */
  function PipeInvalidFrom(s: string, i: nat, q: char, last: Seen): bool
    requires i <= |s|
    decreases |s| - i
  {
    if i == |s| then last == Pipe
    else if q != '\0' then
      if Escape(s, i, q) then PipeInvalidFrom(s, i + 2, q, last)
      else PipeInvalidFrom(s, i + 1, if s[i] == q then '\0' else q, last)
    else if IsQuote(s[i]) then PipeInvalidFrom(s, i + 1, s[i], last)
    else if IsSpace(s[i]) then PipeInvalidFrom(s, i + 1, q, last)
    else if s[i] == '|' then last != Word || PipeInvalidFrom(s, i + 1, q, Pipe)
    else PipeInvalidFrom(s, i + 1, q, Word)
  }

  /** sintaxis_pipe_invalida: true for a pipe with no word since the start or
      the previous pipe, and for a trailing pipe. */
  method PipeSyntaxInvalid(s: string) returns (r: bool)
    ensures r == PipeInvalidFrom(s, 0, '\0', Nothing)
    ensures r <==> BadPipes(Items(s))
  {
    PipeRule(s);
    var q := '\0';
    var last := Nothing;
    var p := 0;
    while p < |s|
      invariant p <= |s|
      invariant PipeInvalidFrom(s, p, q, last) == PipeInvalidFrom(s, 0, '\0', Nothing)
      decreases |s| - p
    {
      if q != '\0' {
        if s[p] == '\\' && At(s, p + 1) == q {
          p := p + 2;
          continue;
        }
        if s[p] == q {
          q := '\0';
        }
        p := p + 1;
        continue;
      }
      if IsQuote(s[p]) {
        q := s[p];
        p := p + 1;
        continue;
      }
      if IsSpace(s[p]) {
        p := p + 1;
        continue;
      }
      if s[p] == '|' {
        if last != Word {
          return true;
        }
        last := Pipe;
      } else {
        last := Word;
      }
      p := p + 1;
    }
    r := last == Pipe;
  }

  // ---------------------------------------------------------------------------
  // The rule the pipe check enforces, stated on the line's unquoted items

  /** The unquoted items of s from i in quote state q: one per character that
      is outside quotes and is neither whitespace nor a quote character, a
      Pipe for '|' and a Word for anything else. Quoted text, the quote
      characters and whitespace contribute nothing. */
  function ItemsFrom(s: string, i: nat, q: char): (r: seq<Seen>)
    requires i <= |s|
    ensures forall k :: 0 <= k < |r| ==> r[k] != Nothing
    decreases |s| - i
  {
    if i == |s| then []
    else if q != '\0' then
      if Escape(s, i, q) then ItemsFrom(s, i + 2, q)
      else ItemsFrom(s, i + 1, if s[i] == q then '\0' else q)
    else if IsQuote(s[i]) then ItemsFrom(s, i + 1, s[i])
    else if IsSpace(s[i]) then ItemsFrom(s, i + 1, q)
    else [if s[i] == '|' then Pipe else Word] + ItemsFrom(s, i + 1, q)
  }

  /** The unquoted items of a whole line. */
  function Items(s: string): seq<Seen>
  {
    ItemsFrom(s, 0, '\0')
  }

  /** A misplaced pipe: one that is the first item or does not follow a word,
      or a pipe that is the last item. */
  predicate BadPipes(t: seq<Seen>)
  {
    (exists k :: 0 <= k < |t| && t[k] == Pipe && (k == 0 || t[k - 1] != Word))
    || (|t| > 0 && t[|t| - 1] == Pipe)
  }

  /** What precedes item k of t when last was seen before t. */
  function Before(last: Seen, t: seq<Seen>, k: nat): Seen
    requires k < |t|
  {
    if k == 0 then last else t[k - 1]
  }

  /** BadPipes for items that follow an already seen last. */
  predicate Misplaced(last: Seen, t: seq<Seen>)
  {
    (exists k :: 0 <= k < |t| && t[k] == Pipe && Before(last, t, k) != Word)
    || (if t == [] then last == Pipe else t[|t| - 1] == Pipe)
  }

  /** Seeing one more item x: it is misplaced itself, or the rest is
      misplaced after x. */
  lemma MisplacedCons(last: Seen, x: Seen, rest: seq<Seen>)
    ensures Misplaced(last, [x] + rest) <==> (x == Pipe && last != Word) || Misplaced(x, rest)
  {
    var t := [x] + rest;
    if Misplaced(last, t) && !(x == Pipe && last != Word) {
      if k :| 0 <= k < |t| && t[k] == Pipe && Before(last, t, k) != Word {
        assert k > 0;
        assert rest[k - 1] == Pipe && Before(x, rest, k - 1) != Word;
      } else if rest != [] {
        assert rest[|rest| - 1] == t[|t| - 1];
      }
    }
    if Misplaced(x, rest) {
      if k :| 0 <= k < |rest| && rest[k] == Pipe && Before(x, rest, k) != Word {
        assert t[k + 1] == Pipe && Before(last, t, k + 1) != Word;
      } else if rest != [] {
        assert rest[|rest| - 1] == t[|t| - 1];
      } else {
        assert t[|t| - 1] == x == Pipe;
      }
    }
    if x == Pipe && last != Word {
      assert t[0] == Pipe && Before(last, t, 0) != Word;
    }
  }

  /** The check's verdict from any point is the rule applied to the items
      still to come. */
  lemma {:induction false} PipeVerdict(s: string, i: nat, q: char, last: Seen)
    requires i <= |s|
    ensures PipeInvalidFrom(s, i, q, last) <==> Misplaced(last, ItemsFrom(s, i, q))
    decreases |s| - i
  {
    if i < |s| {
      if q != '\0' {
        if Escape(s, i, q) {
          PipeVerdict(s, i + 2, q, last);
        } else {
          PipeVerdict(s, i + 1, if s[i] == q then '\0' else q, last);
        }
      } else if IsQuote(s[i]) {
        PipeVerdict(s, i + 1, s[i], last);
      } else if IsSpace(s[i]) {
        PipeVerdict(s, i + 1, q, last);
      } else {
        var x := if s[i] == '|' then Pipe else Word;
        PipeVerdict(s, i + 1, q, x);
        MisplacedCons(last, x, ItemsFrom(s, i + 1, q));
      }
    }
  }

  /** sintaxis_pipe_invalida rejects a line exactly when one of its unquoted
      pipes is first, follows another pipe, or is last. */
  lemma PipeRule(s: string)
    ensures PipeInvalidFrom(s, 0, '\0', Nothing) <==> BadPipes(Items(s))
  {
    PipeVerdict(s, 0, '\0', Nothing);
    var t := Items(s);
    assert forall k :: 0 <= k < |t| ==> (Before(Nothing, t, k) != Word <==> (k == 0 || t[k - 1] != Word));
  }

  /** Scanning the tail of a + b from |a| yields the items of b. */
  lemma {:induction false} ShiftedItems(a: string, b: string, j: nat, q: char)
    requires j <= |b|
    ensures ItemsFrom(a + b, |a| + j, q) == ItemsFrom(b, j, q)
    decreases |b| - j
  {
    var s := a + b;
    if j < |b| {
      assert s[|a| + j] == b[j];
      assert At(s, |a| + j + 1) == At(b, j + 1);
      if q != '\0' && Escape(b, j, q) {
        ShiftedItems(a, b, j + 2, q);
      } else if q != '\0' {
        ShiftedItems(a, b, j + 1, if b[j] == q then '\0' else q);
      } else if IsQuote(b[j]) {
        ShiftedItems(a, b, j + 1, b[j]);
      } else {
        ShiftedItems(a, b, j + 1, '\0');
      }
    }
  }

  /** A part of the line that ends with every quote closed contributes its
      own items, and the rest of the line is read on its own. */
  lemma {:induction false} ItemsAppend(a: string, b: string, i: nat, q: char)
    requires i <= |a| && (q == '\0' || IsQuote(q)) && QuoteAfter(a, i, q) == '\0'
    ensures ItemsFrom(a + b, i, q) == ItemsFrom(a, i, q) + Items(b)
    decreases |a| - i
  {
    var s := a + b;
    if i == |a| {
      ShiftedItems(a, b, 0, '\0');
    } else if q != '\0' {
      if Escape(a, i, q) {
        assert Escape(s, i, q);
        ItemsAppend(a, b, i + 2, q);
      } else {
        if a[i] == '\\' && i + 1 == |a| {
          StaysOpenAtEnd(a, i, q);
          assert false;
        }
        assert !Escape(s, i, q);
        ItemsAppend(a, b, i + 1, if a[i] == q then '\0' else q);
      }
    } else if IsQuote(a[i]) {
      ItemsAppend(a, b, i + 1, a[i]);
    } else {
      ItemsAppend(a, b, i + 1, '\0');
      if !IsSpace(a[i]) {
        assert s[i] == a[i];
      }
    }
  }

  /** Inside a quote opened by q, nothing up to the closing q is an item. */
  lemma {:induction false} QuotedSilent(s: string, i: nat, j: nat, q: char)
    requires i <= j < |s| && IsQuote(q) && s[j] == q
    requires forall k :: i <= k < j ==> s[k] != q
    requires j == i || s[j - 1] != '\\'
    ensures ItemsFrom(s, i, q) == ItemsFrom(s, j + 1, '\0')
    decreases j - i
  {
    if i < j {
      assert !Escape(s, i, q) by {
        if i + 1 < j {
          assert s[i + 1] != q;
        }
      }
      QuotedSilent(s, i + 1, j, q);
    }
  }

  /** Whitespace is no item. */
  lemma {:induction false} BlankItems(s: string, i: nat)
    requires i <= |s|
    requires forall k :: i <= k < |s| ==> IsSpace(s[k])
    ensures ItemsFrom(s, i, '\0') == []
    decreases |s| - i
  {
    if i < |s| {
      BlankItems(s, i + 1);
    }
  }

  /** Quoted text is not a word: a quoted word in front of the rest of the
      line adds no item. */
  lemma QuotedTextIsNoWord(q: char, w: string, b: string)
    requires IsQuote(q) && q !in w && (w == [] || w[|w| - 1] != '\\')
    ensures Items([q] + w + [q] + b) == Items(b)
  {
    var a := [q] + w + [q];
    QuotedWord(q, w);
    ItemsAppend(a, b, 0, '\0');
    QuotedSilent(a, 1, |w| + 1, q);
  }

  /** A stage without a word is an error: after a part of the line whose
      quotes are closed and whose items are none or end with a pipe, a
      further pipe makes the whole line invalid. */
  lemma LeadingPipe(a: string, b: string)
    requires QuoteAfter(a, 0, '\0') == '\0'
    requires Items(a) == [] || Items(a)[|Items(a)| - 1] == Pipe
    requires Items(b) != [] && Items(b)[0] == Pipe
    ensures PipeInvalidFrom(a + b, 0, '\0', Nothing)
  {
    ItemsAppend(a, b, 0, '\0');
    PipeRule(a + b);
    var t := Items(a + b);
    var k := |Items(a)|;
    assert t[k] == Pipe && (k == 0 || t[k - 1] != Word);
  }

  /** A pipe followed only by whitespace is an error. */
  lemma TrailingPipe(a: string, b: string)
    requires QuoteAfter(a, 0, '\0') == '\0'
    requires Items(a) != [] && Items(a)[|Items(a)| - 1] == Pipe
    requires forall k :: 0 <= k < |b| ==> IsSpace(b[k])
    ensures PipeInvalidFrom(a + b, 0, '\0', Nothing)
  {
    BlankItems(b, 0);
    ItemsAppend(a, b, 0, '\0');
    assert Items(a + b) == Items(a);
    PipeRule(a + b);
  }

  /** Two accepted lines with a word each, joined by a pipe, are accepted. */
  lemma JoinAccepted(a: string, b: string)
    requires QuoteAfter(a, 0, '\0') == '\0'
    requires !PipeInvalidFrom(a, 0, '\0', Nothing) && Items(a) != []
    requires !PipeInvalidFrom(b, 0, '\0', Nothing) && Items(b) != []
    ensures !PipeInvalidFrom(a + "|" + b, 0, '\0', Nothing)
  {
    PipeRule(a);
    PipeRule(b);
    assert QuoteAfter("|", 0, '\0') == '\0';
    ItemsAppend("|", b, 0, '\0');
    assert Items("|" + b) == [Pipe] + Items(b);
    ItemsAppend(a, "|" + b, 0, '\0');
    assert a + "|" + b == a + ("|" + b);
    var ta, tb := Items(a), Items(b);
    var t := Items(a + "|" + b);
    assert t == ta + [Pipe] + tb;
    assert ta[|ta| - 1] == Word;
    PipeRule(a + "|" + b);
  }

  /** Verdicts on a few lines: a pipeline of two commands is accepted; a pipe
      at either end, two pipes in a row and a stage made only of quoted text
      are rejected; a pipe inside quotes is not a pipe. */
  lemma PipeExamples()
    ensures !PipeInvalidFrom("ls | wc", 0, '\0', Nothing)
    ensures PipeInvalidFrom("ls |", 0, '\0', Nothing)
    ensures PipeInvalidFrom("| ls", 0, '\0', Nothing)
    ensures PipeInvalidFrom("ls || wc", 0, '\0', Nothing)
    ensures PipeInvalidFrom("'a' | b", 0, '\0', Nothing)
    ensures !PipeInvalidFrom("echo 'x|y'", 0, '\0', Nothing)
  {
  }
}
