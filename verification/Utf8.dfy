/**
 Go's UTF-8 decoder and encoder. A byte that starts no well-formed sequence (section 4 of RFC 3629)
 decodes as U+FFFD and is one byte wide, so decoding is total; `Runes` is the conversion `[]rune(s)`
 and `Encode` the conversion `string(runes)`.
 */
module Utf8 {
  import opened Lines

  type rune = int

  const RUNE_ERROR: rune := 0xFFFD

  /** A Unicode scalar value: what a Go decoder can return. */
  predicate Scalar(r: rune) {
    0 <= r < 0xD800 || 0xE000 <= r < 0x110000
  }

  predicate Continuation(b: byte) {
    0x80 <= b <= 0xBF
  }

  /** Length announced by a first byte; 0 for a byte that may not start a sequence. */
  function Announced(b: byte): nat {
    if b < 0x80 then 1
    else if b < 0xC2 then 0
    else if b < 0xE0 then 2
    else if b < 0xF0 then 3
    else if b < 0xF5 then 4
    else 0
  }

  /** The second byte is restricted further after E0, ED, F0 and F4. */
  predicate SecondByte(first: byte, second: byte) {
    && Continuation(second)
    && (first == 0xE0 ==> 0xA0 <= second)
    && (first == 0xED ==> second <= 0x9F)
    && (first == 0xF0 ==> 0x90 <= second)
    && (first == 0xF4 ==> second <= 0x8F)
  }

  predicate WellFormed(s: Str)
    requires s != []
  {
    var n := Announced(s[0]);
    && 1 <= n <= |s|
    && (n >= 2 ==> SecondByte(s[0], s[1]))
    && (n >= 3 ==> Continuation(s[2]))
    && (n >= 4 ==> Continuation(s[3]))
  }

  /** Bytes taken by the first rune. */
  function Width(s: Str): (w: nat)
    requires s != []
    ensures 1 <= w <= 4 && w <= |s|
  {
    if WellFormed(s) then Announced(s[0]) else 1
  }

  function Payload(b: byte, mark: int): int {
    b - mark
  }

  function First(s: Str): (r: rune)
    requires s != []
    ensures Scalar(r)
  {
    if !WellFormed(s) then RUNE_ERROR
    else
      var n := Announced(s[0]);
      if n == 1 then s[0]
      else if n == 2 then Payload(s[0], 0xC0) * 64 + Payload(s[1], 0x80)
      else if n == 3 then Payload(s[0], 0xE0) * 4096 + Payload(s[1], 0x80) * 64 + Payload(s[2], 0x80)
      else Payload(s[0], 0xF0) * 262144 + Payload(s[1], 0x80) * 4096 + Payload(s[2], 0x80) * 64 + Payload(s[3], 0x80)
  }

  function Runes(s: Str): seq<rune>
    decreases |s|
  {
    if s == [] then [] else [First(s)] + Runes(s[Width(s)..])
  }

  function EncodeRune(r: rune): (s: Str)
    requires Scalar(r)
    ensures 1 <= |s| <= 4
    ensures !Continuation(s[0])
  {
    if r < 0x80 then [r]
    else if r < 0x800 then [0xC0 + r / 64, 0x80 + r % 64]
    else if r < 0x10000 then [0xE0 + r / 4096, 0x80 + r / 64 % 64, 0x80 + r % 64]
    else [0xF0 + r / 262144, 0x80 + r / 4096 % 64, 0x80 + r / 64 % 64, 0x80 + r % 64]
  }

  predicate Scalars(runes: seq<rune>) {
    forall i | 0 <= i < |runes| :: Scalar(runes[i])
  }

  function Encode(runes: seq<rune>): Str
    requires Scalars(runes)
  {
    if runes == [] then [] else EncodeRune(runes[0]) + Encode(runes[1..])
  }

  lemma {:induction false} RunesAreScalars(s: Str)
    ensures Scalars(Runes(s))
    decreases |s|
  {
    if s != [] {
      RunesAreScalars(s[Width(s)..]);
    }
  }

  predicate Valid(s: Str) {
    RunesAreScalars(s);
    Encode(Runes(s)) == s
  }

  function RuneLen(s: Str): nat {
    |Runes(s)|
  }

  /** At most `limit` leading runes, re-encoded. */
  function TruncateRunes(s: Str, limit: nat): Str {
    RunesAreScalars(s);
    var runes := Runes(s);
    Encode(if |runes| > limit then runes[..limit] else runes)
  }

  // ----- the decoder looks at four bytes at most

  lemma FirstLooksAtFourBytes(s: Str, t: Str)
    requires s != [] && t != []
    requires |s| >= 4 && |t| >= 4 ==> s[..4] == t[..4]
    requires |s| < 4 || |t| < 4 ==> s == t
    ensures First(s) == First(t) && Width(s) == Width(t)
  {
    if |s| >= 4 && |t| >= 4 {
      assert forall i | 0 <= i < 4 :: s[i] == s[..4][i] == t[..4][i] == t[i];
    }
  }

  lemma DecodeShortRune(r: rune, tail: Str)
    requires 0 <= r < 0x800
    ensures First(EncodeRune(r) + tail) == r
    ensures Width(EncodeRune(r) + tail) == |EncodeRune(r)|
  {
    assert r >= 0x80 ==> WellFormed(EncodeRune(r) + tail);
  }

  lemma DecodeRuneOfThree(r: rune, tail: Str)
    requires Scalar(r) && 0x800 <= r < 0x10000
    ensures First(EncodeRune(r) + tail) == r
    ensures Width(EncodeRune(r) + tail) == |EncodeRune(r)|
  {
    var s := EncodeRune(r) + tail;
    assert r / 64 == r / 4096 * 64 + r / 64 % 64;
    assert SecondByte(s[0], s[1]);
  }

  lemma DecodeRuneOfFour(r: rune, tail: Str)
    requires 0x10000 <= r < 0x110000
    ensures First(EncodeRune(r) + tail) == r
    ensures Width(EncodeRune(r) + tail) == |EncodeRune(r)|
  {
    var s := EncodeRune(r) + tail;
    assert r / 64 == r / 4096 * 64 + r / 64 % 64;
    assert r / 4096 == r / 262144 * 64 + r / 4096 % 64;
    assert SecondByte(s[0], s[1]);
  }

  /** Re-encoding and decoding a rune in front of anything gives the rune back. */
  lemma DecodeEncodedRune(r: rune, tail: Str)
    requires Scalar(r)
    ensures First(EncodeRune(r) + tail) == r
    ensures Width(EncodeRune(r) + tail) == |EncodeRune(r)|
  {
    hide First, Width, EncodeRune;
    if r < 0x800 {
      DecodeShortRune(r, tail);
    } else if r < 0x10000 {
      DecodeRuneOfThree(r, tail);
    } else {
      DecodeRuneOfFour(r, tail);
    }
  }

  lemma RunesUnfold(r: rune, tail: Str)
    requires Scalar(r)
    ensures Runes(EncodeRune(r) + tail) == [r] + Runes(tail)
  {
    var head := EncodeRune(r);
    DecodeEncodedRune(r, tail);
    assert (head + tail)[|head|..] == tail;
  }

  /** Encoded text is complete: whatever follows it decodes separately. */
  lemma {:induction false} RunesAfterEncoded(runes: seq<rune>, tail: Str)
    requires Scalars(runes)
    ensures Runes(Encode(runes) + tail) == runes + Runes(tail)
    decreases |runes|
  {
    hide EncodeRune, Runes;
    if runes == [] {
      assert Encode(runes) + tail == tail;
    } else {
      var head, rest := EncodeRune(runes[0]), Encode(runes[1..]);
      assert (head + rest) + tail == head + (rest + tail);
      RunesUnfold(runes[0], rest + tail);
      RunesAfterEncoded(runes[1..], tail);
    }
  }

  lemma DecodeEncoded(runes: seq<rune>)
    requires Scalars(runes)
    ensures Runes(Encode(runes)) == runes
    ensures Valid(Encode(runes))
  {
    RunesAfterEncoded(runes, []);
    assert Encode(runes) + [] == Encode(runes);
  }

  lemma FirstBefore(a: Str, b: Str)
    requires a != [] && (b == [] || !Continuation(b[0]))
    ensures First(a + b) == First(a) && Width(a + b) == Width(a)
  {
  }

  /** Text whose first byte is no continuation byte decodes separately from what precedes it. */
  lemma {:induction false} RunesBefore(a: Str, b: Str)
    requires b == [] || !Continuation(b[0])
    ensures Runes(a + b) == Runes(a) + Runes(b)
    decreases |a|
  {
    if a == [] {
      assert a + b == b;
    } else {
      hide First, Width;
      FirstBefore(a, b);
      assert (a + b)[Width(a)..] == a[Width(a)..] + b;
      RunesBefore(a[Width(a)..], b);
    }
  }

  lemma RunesAfterValid(a: Str, b: Str)
    requires Valid(a)
    ensures Runes(a + b) == Runes(a) + Runes(b)
  {
    RunesAreScalars(a);
    RunesAfterEncoded(Runes(a), b);
  }

  // ----- truncation

  /** The leading runes, decoded no further than needed. */
  function Leading(s: Str, limit: nat): (runes: seq<rune>)
    ensures |runes| <= limit
    decreases limit
  {
    if limit == 0 || s == [] then [] else [First(s)] + Leading(s[Width(s)..], limit - 1)
  }

  lemma {:induction false} LeadingIsPrefix(s: Str, limit: nat)
    ensures Leading(s, limit) == if |Runes(s)| > limit then Runes(s)[..limit] else Runes(s)
    decreases limit
  {
    if limit > 0 && s != [] {
      LeadingIsPrefix(s[Width(s)..], limit - 1);
    }
  }

  lemma DropOfTake(s: Str, n: nat, w: nat)
    requires w <= n <= |s|
    ensures s[..n][w..] == s[w..][..n - w]
  {
  }

  lemma {:induction false} LeadingOfLongPrefix(s: Str, n: nat, limit: nat)
    requires 4 * limit <= n <= |s|
    ensures Leading(s[..n], limit) == Leading(s, limit)
    decreases limit
  {
    if limit > 0 {
      var t := s[..n];
      assert s[..4] == t[..4];
      FirstLooksAtFourBytes(s, t);
      var w := Width(s);
      DropOfTake(s, n, w);
      LeadingOfLongPrefix(s[w..], n - w, limit - 1);
    }
  }

  lemma FirstOfShortPrefix(s: Str, n: nat)
    requires 3 <= n < |s|
    requires n == 3 ==> !Continuation(s[3])
    ensures First(s[..n]) == First(s) && Width(s[..n]) == Width(s)
  {
    if n > 3 {
      assert s[..4] == s[..n][..4];
      FirstLooksAtFourBytes(s, s[..n]);
    }
  }

  /** One byte fewer is enough when the missing byte continues no sequence. */
  lemma {:induction false} LeadingOfShortPrefix(s: Str, limit: nat)
    requires 1 <= limit && 4 * limit <= |s|
    requires !Continuation(s[4 * limit - 1])
    ensures Leading(s[..4 * limit - 1], limit) == Leading(s, limit)
    decreases limit
  {
    hide First, Width;
    var n := 4 * limit - 1;
    var t := s[..n];
    FirstOfShortPrefix(s, n);
    if limit > 1 {
      var w := Width(s);
      var u := s[w..];
      DropOfTake(s, n, w);
      if w < 4 {
        LeadingOfLongPrefix(u, n - w, limit - 1);
      } else {
        assert u[4 * (limit - 1) - 1] == s[n];
        LeadingOfShortPrefix(u, limit - 1);
      }
    }
  }

  /** Truncation depends on the first `4 * limit` bytes only. */
  lemma TruncateOfPrefix(s: Str, n: nat, limit: nat)
    requires 4 * limit <= n <= |s|
    ensures TruncateRunes(s[..n], limit) == TruncateRunes(s, limit)
  {
    LeadingIsPrefix(s, limit);
    LeadingIsPrefix(s[..n], limit);
    LeadingOfLongPrefix(s, n, limit);
  }

  lemma TruncateOfShortPrefix(s: Str, limit: nat)
    requires 1 <= limit && 4 * limit <= |s|
    requires !Continuation(s[4 * limit - 1])
    ensures TruncateRunes(s[..4 * limit - 1], limit) == TruncateRunes(s, limit)
  {
    LeadingIsPrefix(s, limit);
    LeadingIsPrefix(s[..4 * limit - 1], limit);
    LeadingOfShortPrefix(s, limit);
  }

  /** A truncated string is valid UTF-8, keeps exactly the leading runes, and is never truncated again. */
  lemma TruncateRunesKeeps(s: Str, limit: nat)
    ensures Valid(TruncateRunes(s, limit))
    ensures Runes(TruncateRunes(s, limit)) == if RuneLen(s) > limit then Runes(s)[..limit] else Runes(s)
    ensures RuneLen(s) <= limit && Valid(s) ==> TruncateRunes(s, limit) == s
  {
    RunesAreScalars(s);
    DecodeEncoded(if RuneLen(s) > limit then Runes(s)[..limit] else Runes(s));
  }

  // ----- bytes taken by a cut in runes

  lemma {:induction false} EncodedLength(runes: seq<rune>)
    requires Scalars(runes)
    ensures |Encode(runes)| >= |runes|
    ensures |Encode(runes)| > |runes| <==> exists i :: 0 <= i < |runes| && runes[i] >= 0x80
  {
    if runes != [] {
      EncodedLength(runes[1..]);
      assert forall i | 1 <= i < |runes| :: runes[i] == runes[1..][i - 1];
    }
  }

  lemma FirstNeedsItsWidth(s: Str)
    requires s != []
    ensures |EncodeRune(First(s))| >= Width(s)
  {
  }

  lemma {:induction false} EncodedNotShorter(s: Str)
    ensures Scalars(Runes(s)) && |Encode(Runes(s))| >= |s|
    decreases |s|
  {
    if s != [] {
      FirstNeedsItsWidth(s);
      EncodedNotShorter(s[Width(s)..]);
    }
  }

  /** A string longer than the limit in bytes stays so when it is cut in runes exactly if a rune kept is not ASCII. */
  lemma CutExceedsBytes(s: Str, limit: nat)
    requires |s| > limit
    ensures |TruncateRunes(s, limit)| > limit
            <==> exists i :: 0 <= i < limit && i < RuneLen(s) && Runes(s)[i] >= 0x80
  {
    hide Encode;
    EncodedNotShorter(s);
    var kept := if RuneLen(s) > limit then Runes(s)[..limit] else Runes(s);
    EncodedLength(kept);
    if i :| 0 <= i < |kept| && kept[i] >= 0x80 {
      assert Runes(s)[i] >= 0x80;
    }
    assert forall i | 0 <= i < |kept| :: kept[i] == Runes(s)[i];
  }

  // ----- line feeds survive decoding and encoding unchanged

  lemma {:induction false} RunesHoldNoLineFeed(s: Str)
    requires LF !in s
    ensures LF !in Runes(s)
    decreases |s|
  {
    if s != [] {
      assert First(s) != LF;
      RunesHoldNoLineFeed(s[Width(s)..]);
    }
  }

  lemma {:induction false} EncodedHoldsNoLineFeed(runes: seq<rune>)
    requires Scalars(runes) && LF !in runes
    ensures LF !in Encode(runes)
  {
    if runes != [] {
      assert LF !in EncodeRune(runes[0]);
      EncodedHoldsNoLineFeed(runes[1..]);
    }
  }

  lemma TruncateHoldsNoLineFeed(s: Str, limit: nat)
    requires LF !in s
    ensures LF !in TruncateRunes(s, limit)
  {
    RunesAreScalars(s);
    RunesHoldNoLineFeed(s);
    EncodedHoldsNoLineFeed(if RuneLen(s) > limit then Runes(s)[..limit] else Runes(s));
  }
}
