/**
 Strings as byte sequences, and the two ways the collector cuts them at line feeds: `Split`
 (every piece, as `strings.Split(s, "\n")`) and `CompleteLines` (only the pieces a line feed closes).
 */
module Lines {

  type byte = b: int | 0 <= b < 256

  type Str = seq<byte>

  const LF: byte := 10
  const CR: byte := 13

  /** The bytes of an ASCII name. */
  ghost predicate Spells(bytes: Str, name: string) {
    |bytes| == |name| && forall i | 0 <= i < |name| :: bytes[i] == name[i] as int
  }

  /** Number of bytes before the first line feed, or the whole length when there is none. */
  function LineLength(s: Str): (n: nat)
    ensures n <= |s|
    ensures n < |s| ==> s[n] == LF
  {
    if s == [] || s[0] == LF then 0 else 1 + LineLength(s[1..])
  }

  /** No line feed comes before the one `LineLength` finds. */
  lemma {:induction false} LineHoldsNoLineFeed(s: Str)
    ensures LF !in s[..LineLength(s)]
  {
    if s != [] && s[0] != LF {
      LineHoldsNoLineFeed(s[1..]);
      var n := LineLength(s[1..]);
      assert s[..n + 1] == [s[0]] + s[1..][..n];
    }
  }

  predicate HasLine(s: Str) {
    LineLength(s) < |s|
  }

  function Split(s: Str): (pieces: seq<Str>)
    ensures |pieces| >= 1
    decreases |s|
  {
    var n := LineLength(s);
    if n == |s| then [s] else [s[..n]] + Split(s[n + 1..])
  }

  function CompleteLines(s: Str): (lines: seq<Str>)
    decreases |s|
  {
    var n := LineLength(s);
    if n == |s| then [] else [s[..n]] + CompleteLines(s[n + 1..])
  }

  function Join(pieces: seq<Str>): Str
    requires |pieces| >= 1
  {
    if |pieces| == 1 then pieces[0] else pieces[0] + [LF] + Join(pieces[1..])
  }

  /** A prefix that ends where a line starts. */
  predicate AtLineStart(s: Str) {
    s == [] || s[|s| - 1] == LF
  }

  lemma NoLineFeedInConcat(a: Str, b: Str)
    requires LF !in a && LF !in b
    ensures LF !in a + b
  {
  }

  lemma LineLengthUnique(s: Str, n: nat)
    requires n <= |s| && LF !in s[..n]
    requires n < |s| ==> s[n] == LF
    ensures LineLength(s) == n
  {
    var k := LineLength(s);
    LineHoldsNoLineFeed(s);
    forall i | 0 <= i < n
      ensures s[i] != LF
    {
      assert s[i] == s[..n][i];
    }
    forall i | 0 <= i < k
      ensures s[i] != LF
    {
      assert s[i] == s[..k][i];
    }
  }

  lemma LineLengthConcat(a: Str, b: Str)
    requires LF !in a
    ensures LineLength(a + [LF] + b) == |a|
    ensures HasLine(a + [LF] + b)
  {
    var s := a + [LF] + b;
    assert s[..|a|] == a;
    LineLengthUnique(s, |a|);
  }

  lemma LineLengthExtend(a: Str, b: Str)
    requires HasLine(a)
    ensures LineLength(a + b) == LineLength(a) < |a + b|
  {
    var n := LineLength(a);
    LineHoldsNoLineFeed(a);
    assert (a + b)[..n] == a[..n];
    LineLengthUnique(a + b, n);
  }

  lemma NoLineFeed(s: Str)
    ensures LF !in s <==> LineLength(s) == |s|
  {
    assert s[..|s|] == s;
    LineHoldsNoLineFeed(s);
    if LF !in s {
      LineLengthUnique(s, |s|);
    }
  }

  lemma JoinPrepend(first: Str, pieces: seq<Str>)
    requires |pieces| >= 1
    ensures Join([first] + pieces) == first + [LF] + Join(pieces)
  {
    assert ([first] + pieces)[1..] == pieces;
  }

  /** Joining the pieces of a split gives the string back. */
  lemma {:induction false} JoinSplit(s: Str)
    ensures Join(Split(s)) == s
    decreases |s|
  {
    hide LineLength;
    var n := LineLength(s);
    if n < |s| {
      var first, rest := s[..n], s[n + 1..];
      JoinSplit(rest);
      JoinPrepend(first, Split(rest));
      assert s == first + [LF] + rest;
    }
  }

  lemma {:induction false} JoinConcat(a: seq<Str>, b: seq<Str>)
    requires |a| >= 1 && |b| >= 1
    ensures Join(a + b) == Join(a) + [LF] + Join(b)
  {
    if |a| == 1 {
      JoinPrepend(a[0], b);
      assert a + b == [a[0]] + b;
    } else {
      JoinConcat(a[1..], b);
      assert (a + b)[1..] == a[1..] + b;
    }
  }

  /** Splitting at a line feed that was put between two strings separates their pieces. */
  lemma {:induction false} SplitConcat(a: Str, b: Str)
    ensures Split(a + [LF] + b) == Split(a) + Split(b)
    decreases |a|
  {
    hide LineLength;
    var s := a + [LF] + b;
    var n := LineLength(a);
    if n == |a| {
      NoLineFeed(a);
      LineLengthConcat(a, b);
      assert s[..n] == a && s[n + 1..] == b;
    } else {
      LineLengthExtend(a, [LF] + b);
      assert s == a + ([LF] + b);
      assert s[..n] == a[..n];
      assert s[n + 1..] == a[n + 1..] + [LF] + b;
      SplitConcat(a[n + 1..], b);
    }
  }

  lemma SplitSingle(s: Str)
    requires LF !in s
    ensures Split(s) == [s]
  {
    NoLineFeed(s);
  }

  /** Splitting undoes joining when no piece holds a line feed. */
  lemma {:induction false} SplitJoin(pieces: seq<Str>)
    requires |pieces| >= 1
    requires forall i | 0 <= i < |pieces| :: LF !in pieces[i]
    ensures Split(Join(pieces)) == pieces
  {
    SplitSingle(pieces[0]);
    if |pieces| > 1 {
      SplitJoin(pieces[1..]);
      SplitConcat(pieces[0], Join(pieces[1..]));
    }
  }

  lemma {:induction false} PiecesHoldNoLineFeed(s: Str)
    ensures forall i | 0 <= i < |Split(s)| :: LF !in Split(s)[i]
    decreases |s|
  {
    var n := LineLength(s);
    LineHoldsNoLineFeed(s);
    NoLineFeed(s);
    if n < |s| {
      PiecesHoldNoLineFeed(s[n + 1..]);
    }
  }

  /** Cutting a string where a line starts separates its complete lines. */
  lemma {:induction false} CompleteLinesConcat(a: Str, b: Str)
    requires AtLineStart(a)
    ensures CompleteLines(a + b) == CompleteLines(a) + CompleteLines(b)
    decreases |a|
  {
    hide LineLength;
    if a == [] {
      assert a + b == b;
    } else {
      NoLineFeed(a);
      var n := LineLength(a);
      var first, rest := a[..n], a[n + 1..];
      LineLengthExtend(a, b);
      assert (a + b)[..n] == first;
      assert (a + b)[n + 1..] == rest + b;
      assert rest == [] || rest[|rest| - 1] == a[|a| - 1];
      CompleteLinesConcat(rest, b);
      assert ([first] + CompleteLines(rest)) + CompleteLines(b) == [first] + (CompleteLines(rest) + CompleteLines(b));
    }
  }
}
