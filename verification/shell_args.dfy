/** parsear_args of TP4-Shell/src/ej2/shell.c: one pipeline stage is split
    into argument tokens. Outside quotes a token runs up to the next
    whitespace and quote characters inside it are ordinary; a token that
    starts with a quote runs up to the matching quote, keeps its whitespace
    and turns a backslash-quote pair into the quote. The argument vector has
    room for MAX_ARGS pointers, so at most MAX_ARGS - 1 tokens are stored and
    the vector can be NULL-terminated; a further token sets the overflow
    flag instead. A NULL pointer is `None`. */
module ShellArgs {
  import opened ShellScan
  import opened Options

  /** MAX_ARGS: the size of the argument vector, terminator included. */
  const MaxArgs: nat := 65

  // ---------------------------------------------------------------------------
  // Specification

  /** The end of an unquoted token starting at i: the next whitespace or the
      end of the stage. */
  function WordEnd(s: string, i: nat): (e: nat)
    requires i <= |s|
    ensures i <= e <= |s|
    decreases |s| - i
  {
    if i == |s| || IsSpace(s[i]) then i else WordEnd(s, i + 1)
  }

  /** The text of a quoted token from i, inside a quote opened by q, up to
      the closing quote or the end of the stage. */
  function QuotedBody(s: string, i: nat, q: char): string
    requires i <= |s| && IsQuote(q)
    decreases |s| - i
  {
    if i == |s| then ""
    else if Escape(s, i, q) then [q] + QuotedBody(s, i + 2, q)
    else if s[i] == q then ""
    else [s[i]] + QuotedBody(s, i + 1, q)
  }

  /** Where the quoted text from i stops: at the closing quote, or at the end
      of the stage when the quote is never closed. */
  function QuotedEnd(s: string, i: nat, q: char): (e: nat)
    requires i <= |s| && IsQuote(q)
    ensures i <= e <= |s|
    decreases |s| - i
  {
    if i == |s| then i
    else if Escape(s, i, q) then QuotedEnd(s, i + 2, q)
    else if s[i] == q then i
    else QuotedEnd(s, i + 1, q)
  }

  /** Where scanning resumes after a quoted token: past its closing quote. */
  function AfterQuoted(s: string, i: nat, q: char): (e: nat)
    requires i <= |s| && IsQuote(q)
    ensures i <= e <= |s|
  {
    var e := QuotedEnd(s, i, q);
    if e < |s| then e + 1 else e
  }

  /** All tokens of s from i, with no limit on their number. */
  function TokensFrom(s: string, i: nat): seq<string>
    requires i <= |s|
    decreases |s| - i
  {
    if i == |s| then []
    else if IsSpace(s[i]) then TokensFrom(s, i + 1)
    else if IsQuote(s[i]) then
      [QuotedBody(s, i + 1, s[i])] + TokensFrom(s, AfterQuoted(s, i + 1, s[i]))
    else [s[i..WordEnd(s, i)]] + TokensFrom(s, WordEnd(s, i))
  }

  /** The tokens of a stage. */
  function Args(s: string): seq<string>
  {
    TokensFrom(s, 0)
  }

  /** What parsear_args leaves behind: the count, the overflow flag and the
      stored tokens. */
  datatype Parsed = Parsed(argc: nat, overflow: bool, argv: seq<string>)

  /** The outcome the source promises: every token when they fit, otherwise
      the first MAX_ARGS - 1 of them and the overflow flag. */
  function Parse(s: string): Parsed
  {
    var all := Args(s);
    if |all| < MaxArgs then Parsed(|all|, false, all)
    else Parsed(MaxArgs - 1, true, all[..MaxArgs - 1])
  }

  // ---------------------------------------------------------------------------
  // Properties

  /** An unquoted token is never empty and holds no whitespace. */
  lemma {:induction false} WordShape(s: string, i: nat)
    requires i < |s| && !IsSpace(s[i])
    ensures i < WordEnd(s, i)
    ensures forall m :: i <= m < WordEnd(s, i) ==> !IsSpace(s[m])
    ensures WordEnd(s, i) == |s| || IsSpace(s[WordEnd(s, i)])
    decreases |s| - i
  {
    if i + 1 < |s| && !IsSpace(s[i + 1]) {
      WordShape(s, i + 1);
    }
  }

  /** The quoted body is as long as the number of characters and escape
      pairs before the closing quote; it is empty exactly when the closing
      quote or the end comes first. */
  lemma {:induction false} QuotedEmpty(s: string, i: nat, q: char)
    requires i <= |s| && IsQuote(q)
    ensures QuotedBody(s, i, q) == "" <==> QuotedEnd(s, i, q) == i
    decreases |s| - i
  {
    if i < |s| && Escape(s, i, q) {
      assert QuotedEnd(s, i, q) == QuotedEnd(s, i + 2, q);
    } else if i < |s| && s[i] != q {
      assert QuotedEnd(s, i, q) == QuotedEnd(s, i + 1, q);
    }
  }

  /** A quoted token whose text has no quote character of its own, and does
      not end in a backslash, is exactly that text, whitespace included. */
  lemma {:induction false} QuotedText(s: string, i: nat, q: char, j: nat)
    requires i <= j < |s| && IsQuote(q) && s[j] == q
    requires forall m :: i <= m < j ==> s[m] != q
    requires j == i || s[j - 1] != '\\'
    ensures QuotedBody(s, i, q) == s[i..j]
    ensures QuotedEnd(s, i, q) == j
    decreases j - i
  {
    if i < j {
      assert !Escape(s, i, q) by {
        if i + 1 < j {
          assert s[i + 1] != q;
        }
      }
      QuotedText(s, i + 1, q, j);
      assert s[i..j] == [s[i]] + s[i + 1..j];
    }
  }

  /** Whitespace before the first token is skipped. */
  lemma {:induction false} SkipSpaces(s: string, i: nat, j: nat)
    requires i <= j <= |s|
    requires forall m :: i <= m < j ==> IsSpace(s[m])
    ensures TokensFrom(s, i) == TokensFrom(s, j)
    decreases j - i
  {
    if i < j {
      SkipSpaces(s, i + 1, j);
    }
  }

  /** A stage of whitespace only has no tokens. */
  lemma BlankStage(s: string)
    requires forall m :: 0 <= m < |s| ==> IsSpace(s[m])
    ensures Args(s) == []
  {
    SkipSpaces(s, 0, |s|);
  }

  /** In a stage without quote characters every token is a non-empty run
      of non-whitespace characters of the stage. */
  lemma {:induction false} PlainTokens(s: string, i: nat)
    requires i <= |s|
    requires forall m :: i <= m < |s| ==> !IsQuote(s[m])
    ensures forall k :: 0 <= k < |TokensFrom(s, i)| ==> PlainWord(TokensFrom(s, i)[k])
    decreases |s| - i
  {
    if i < |s| {
      if IsSpace(s[i]) {
        PlainTokens(s, i + 1);
      } else {
        var e := WordEnd(s, i);
        WordShape(s, i);
        PlainTokens(s, e);
        var w := s[i..e];
        assert PlainWord(w) by {
          forall m | 0 <= m < |w|
            ensures !IsSpace(w[m]) && !IsQuote(w[m])
          {
            assert w[m] == s[i + m];
          }
        }
        var r := [w] + TokensFrom(s, e);
        assert forall k :: 0 < k < |r| ==> r[k] == TokensFrom(s, e)[k - 1];
      }
    }
  }

  /** A token without whitespace or quote characters. */
  predicate PlainWord(w: string)
  {
    w != [] && forall m :: 0 <= m < |w| ==> !IsSpace(w[m]) && !IsQuote(w[m])
  }

  /** Every token uses up at least one character of the stage. */
  lemma {:induction false} TokenCount(s: string, i: nat)
    requires i <= |s|
    ensures |TokensFrom(s, i)| <= |s| - i
    decreases |s| - i
  {
    if i < |s| {
      if IsSpace(s[i]) {
        TokenCount(s, i + 1);
      } else if IsQuote(s[i]) {
        TokenCount(s, AfterQuoted(s, i + 1, s[i]));
      } else {
        WordShape(s, i);
        TokenCount(s, WordEnd(s, i));
      }
    }
  }

  /** A stage shorter than MAX_ARGS characters never overflows. */
  lemma ShortStageFits(s: string)
    requires |s| < MaxArgs
    ensures !Parse(s).overflow && Parse(s).argv == Args(s)
  {
    TokenCount(s, 0);
  }

  // ---------------------------------------------------------------------------
  // Implementation

  /** The counting loop of a quoted token: from start, inside quote q, the
      number of characters the token will hold and where it stops. */
  method CountQuoted(s: string, start: nat, q: char) returns (p: nat, len: nat)
    requires start <= |s| && IsQuote(q)
    ensures p == QuotedEnd(s, start, q) && len == |QuotedBody(s, start, q)|
  {
    p := start;
    len := 0;
    while p < |s|
      invariant start <= p <= |s|
      invariant QuotedEnd(s, p, q) == QuotedEnd(s, start, q)
      invariant len + |QuotedBody(s, p, q)| == |QuotedBody(s, start, q)|
      decreases |s| - p
    {
      if s[p] == '\\' && At(s, p + 1) == q {
        p := p + 2;
        len := len + 1;
        continue;
      }
      if s[p] == q {
        break;
      }
      p := p + 1;
      len := len + 1;
    }
  }

  /** The copying loop of a quoted token: len characters from start, an
      escape pair giving the quote, then past the closing quote if any. */
  method CopyQuoted(s: string, start: nat, q: char, len: nat) returns (token: string, next: nat)
    requires start <= |s| && IsQuote(q) && len == |QuotedBody(s, start, q)|
    ensures token == QuotedBody(s, start, q)
    ensures next == AfterQuoted(s, start, q)
  {
    var c := start;
    token := "";
    while |token| < len && c < |s|
      invariant start <= c <= |s|
      invariant token + QuotedBody(s, c, q) == QuotedBody(s, start, q)
      invariant QuotedEnd(s, c, q) == QuotedEnd(s, start, q)
      decreases |s| - c
    {
      if s[c] == '\\' && At(s, c + 1) == q {
        Append(token, q, QuotedBody(s, c + 2, q), QuotedBody(s, start, q));
        token := token + [q];
        c := c + 2;
      } else if s[c] == q {
        break;
      } else {
        Append(token, s[c], QuotedBody(s, c + 1, q), QuotedBody(s, start, q));
        token := token + [s[c]];
        c := c + 1;
      }
    }
    assert |token| + |QuotedBody(s, c, q)| == len;
    QuotedEmpty(s, c, q);
    if c < |s| && s[c] == q {
      c := c + 1;
    }
    next := c;
  }

  /** The counting loop of an unquoted token: up to the next whitespace. */
  method CountWord(s: string, start: nat) returns (p: nat, len: nat)
    requires start <= |s|
    ensures p == WordEnd(s, start) && len == p - start
  {
    p := start;
    len := 0;
    while p < |s| && !IsSpace(s[p])
      invariant start <= p <= |s| && len == p - start
      invariant WordEnd(s, p) == WordEnd(s, start)
      decreases |s| - p
    {
      p := p + 1;
      len := len + 1;
    }
  }

  /** The copying loop of an unquoted token. */
  method CopyWord(s: string, start: nat, len: nat) returns (token: string)
    requires start + len <= |s| && forall m :: start <= m < start + len ==> !IsSpace(s[m])
    ensures token == s[start..start + len]
  {
    var c := start;
    token := "";
    while |token| < len && c < |s| && !IsSpace(s[c])
      invariant start <= c <= start + len && token == s[start..c]
      decreases len - |token|
    {
      token := token + [s[c]];
      c := c + 1;
    }
  }

  /** The whitespace-skipping loop. */
  method SkipBlank(s: string, from: nat) returns (p: nat)
    requires from <= |s|
    ensures from <= p <= |s| && (p == |s| || !IsSpace(s[p]))
    ensures TokensFrom(s, p) == TokensFrom(s, from)
  {
    p := from;
    while p < |s| && IsSpace(s[p])
      invariant from <= p <= |s|
      invariant forall m :: from <= m < p ==> IsSpace(s[m])
      decreases |s| - p
    {
      p := p + 1;
    }
    SkipSpaces(s, from, p);
  }

  /** One token from p, which is not whitespace: count it, then copy it.
      The token is the first of the tokens from p and scanning resumes at
      next. */
  method ReadToken(s: string, p: nat) returns (token: string, next: nat)
    requires p < |s| && !IsSpace(s[p])
    ensures p < next <= |s|
    ensures TokensFrom(s, p) == [token] + TokensFrom(s, next)
  {
    if IsQuote(s[p]) {
      var quote := s[p];
      var start := p + 1;
      var stop, len := CountQuoted(s, start, quote);
      token, next := CopyQuoted(s, start, quote, len);
    } else {
      WordShape(s, p);
      var stop, len := CountWord(s, p);
      token := CopyWord(s, p, len);
      next := stop;
    }
  }

  /** parsear_args: the tokens are stored in argv from index 0; when they
      all fit, argv is NULL-terminated; a token past the first MAX_ARGS - 1
      sets the overflow flag and returns at once. The rest of argv is left
      as it was. */
  method ParseArgs(cmd: string, argv: array<Option<string>>) returns (argc: nat, overflow: bool)
    requires argv.Length == MaxArgs
    modifies argv
    ensures argc < argv.Length
    ensures Parse(cmd) == Parsed(argc, overflow, Stored(argv[..argc]))
    ensures argv[..argc] == Pointers(Stored(argv[..argc]))
    ensures !overflow ==> argv[argc] == None
    ensures overflow ==> argv[argc] == old(argv[argc])
    ensures argv[argc + 1..] == old(argv[argc + 1..])
  {
    argc := 0;
    overflow := false;
    var p := 0;
    ghost var done: seq<string> := [];
    ghost var orig := argv[..];
    while p < |cmd|
      invariant p <= |cmd| && argc == |done| < MaxArgs
      invariant done + TokensFrom(cmd, p) == Args(cmd)
      invariant argv[..argc] == Pointers(done)
      invariant argv[argc..] == orig[argc..]
      decreases |cmd| - p
    {
      p := SkipBlank(cmd, p);
      if p == |cmd| {
        break;
      }
      if argc >= MaxArgs - 1 {
        overflow := true;
        assert Parse(cmd) == Parsed(argc, overflow, done) by {
          TooMany(cmd, done, p);
        }
        Untouched(argv[..], orig, argc, done);
        return;
      }
      var token, next := ReadToken(cmd, p);
      Append(done, token, TokensFrom(cmd, next), Args(cmd));
      p := next;
      ghost var before := argv[..];
      argv[argc] := Some(token);
      Pushed(before, argv[..], orig, argc, done, token);
      done := done + [token];
      argc := argc + 1;
    }
    ghost var before := argv[..];
    argv[argc] := None;
    Pushed(before, argv[..], orig, argc, done, "");
    Untouched(argv[..], orig, argc, done);
  }

  /** The pointers to the given tokens. */
  function Pointers(tokens: seq<string>): seq<Option<string>>
  {
    seq(|tokens|, k requires 0 <= k < |tokens| => Some(tokens[k]))
  }

  /** The strings the given pointers point at, reading NULL as "". */
  function Stored(pointers: seq<Option<string>>): seq<string>
  {
    seq(|pointers|, k requires 0 <= k < |pointers| =>
      if pointers[k].Some? then pointers[k].value else "")
  }

  /** Moving one element from the front of the rest to the end of what is
      done keeps the whole. */
  lemma Append<T>(done: seq<T>, x: T, rest: seq<T>, whole: seq<T>)
    requires done + ([x] + rest) == whole
    ensures (done + [x]) + rest == whole
  {
    assert (done + [x]) + rest == done + ([x] + rest);
  }

  /** Pointers to tokens lead back to the same tokens. */
  lemma StoredPointers(tokens: seq<string>)
    ensures Stored(Pointers(tokens)) == tokens
  {
  }

  /** Storing one more pointer keeps the pointers before it and the
      original contents after it. */
  lemma Pushed(before: seq<Option<string>>, after: seq<Option<string>>, orig: seq<Option<string>>,
               n: nat, done: seq<string>, token: string)
    requires n < |before| == |after| == |orig| && after == before[n := after[n]]
    requires before[..n] == Pointers(done) && before[n..] == orig[n..]
    ensures after[n] == Some(token) ==> after[..n + 1] == Pointers(done + [token])
    ensures after[..n] == Pointers(done)
    ensures after[n + 1..] == orig[n + 1..]
  {
    assert forall k :: n + 1 <= k < |orig| ==> before[k] == orig[k] by {
      forall k | n + 1 <= k < |orig|
        ensures before[k] == orig[k]
      {
        assert before[n..][k - n] == orig[n..][k - n];
      }
    }
  }

  /** The first n pointers lead back to the tokens stored through them, and
      the contents past n + 1 are the original ones. */
  lemma Untouched(a: seq<Option<string>>, orig: seq<Option<string>>, n: nat, done: seq<string>)
    requires n < |a| == |orig| && a[..n] == Pointers(done) && a[n + 1..] == orig[n + 1..]
    ensures a[..n] == Pointers(Stored(a[..n])) && Stored(a[..n]) == done
  {
    StoredPointers(done);
  }

  /** Reaching a token with MAX_ARGS - 1 tokens already stored means the
      stage has at least MAX_ARGS tokens. */
  lemma TooMany(s: string, done: seq<string>, p: nat)
    requires p < |s| && !IsSpace(s[p]) && |done| == MaxArgs - 1
    requires done + TokensFrom(s, p) == Args(s)
    ensures |Args(s)| >= MaxArgs && Args(s)[..MaxArgs - 1] == done
  {
    assert Args(s)[..|done|] == done;
  }

  // ---------------------------------------------------------------------------
  // Examples

  /** Whitespace separates tokens, however much of it there is. */
  lemma SpacedWords()
    ensures Args("ls  -l") == ["ls", "-l"]
  {
    var s := "ls  -l";
    assert WordEnd(s, 4) == 6;
    assert s[4..6] == "-l";
    assert TokensFrom(s, 4) == ["-l"];
    assert TokensFrom(s, 2) == ["-l"];
    assert WordEnd(s, 0) == 2;
    assert s[0..2] == "ls";
  }

  /** A quoted token keeps its whitespace. */
  lemma QuotedSpace()
    ensures Args("echo 'a b'") == ["echo", "a b"]
  {
    var s := "echo 'a b'";
    QuotedText(s, 6, '\'', 9);
    assert s[6..9] == "a b";
    assert AfterQuoted(s, 6, '\'') == 10;
    assert TokensFrom(s, 5) == ["a b"];
    assert WordEnd(s, 0) == 4;
    assert s[0..4] == "echo";
  }

  /** Inside a quote, a backslash before the quote character gives that
      character. */
  lemma EscapedInQuote()
    ensures Args("\"a\\\"b\"") == ["a\"b"]
  {
    var s := "\"a\\\"b\"";
    assert QuotedBody(s, 4, '"') == "b";
    assert QuotedEnd(s, 4, '"') == 5;
    assert QuotedBody(s, 1, '"') == "a\"b";
  }

  /** A quote inside an unquoted token is an ordinary character. */
  lemma QuoteInsideWord()
    ensures Args("it's") == ["it's"]
  {
    var s := "it's";
    assert WordEnd(s, 0) == 4;
    assert s[0..4] == "it's";
  }

  /** A closing quote ends its token even with no whitespace after it. */
  lemma AdjacentAfterQuote()
    ensures Args("'a'b") == ["a", "b"]
  {
    var s := "'a'b";
    QuotedText(s, 1, '\'', 2);
    assert s[1..2] == "a";
    assert WordEnd(s, 3) == 4;
    assert s[3..4] == "b";
    assert TokensFrom(s, 3) == ["b"];
  }
}
