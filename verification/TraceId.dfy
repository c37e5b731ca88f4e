/** Trace identifiers: hexadecimal text of 16 or 32 digits becomes 16 bytes, unless they are all zero. */
module TraceId {
  import opened Wrappers
  import opened Lines

  const ZERO: byte := 48

  predicate IsDigit(b: byte) {
    48 <= b <= 57 || 65 <= b <= 70 || 97 <= b <= 102
  }

  function DigitValue(b: byte): (v: nat)
    requires IsDigit(b)
    ensures v < 16
  {
    if b <= 57 then b - 48 else if b <= 70 then b - 55 else b - 87
  }

  predicate IsHex(s: Str) {
    forall i | 0 <= i < |s| :: IsDigit(s[i])
  }

  /** Two digits a byte. */
  function DecodeHex(s: Str): Option<Str> {
    if s == [] then Some([])
    else if |s| == 1 || !IsDigit(s[0]) || !IsDigit(s[1]) then None
    else
      match DecodeHex(s[2..])
      case None => None
      case Some(rest) =>
        var b: byte := 16 * DigitValue(s[0]) + DigitValue(s[1]);
        Some([b] + rest)
  }

  predicate AllZero(s: Str) {
    forall i | 0 <= i < |s| :: s[i] == 0
  }

  function Zeros(n: nat): (s: Str)
    ensures |s| == n && IsHex(s)
  {
    if n == 0 then [] else Zeros(n - 1) + [ZERO]
  }

  function ParseTraceId(value: Str, completion: bool): Option<Str> {
    if !completion then Some(value)
    else
      var padded := if |value| == 16 then Zeros(16) + value else value;
      if |padded| != 32 then None
      else
        var id := DecodeHex(padded);
        if id.None? || AllZero(id.value) then None else id
  }

  /** The number a hexadecimal string denotes. */
  function HexNumber(s: Str): nat
    requires IsHex(s)
  {
    if s == [] then 0 else 16 * HexNumber(s[..|s| - 1]) + DigitValue(s[|s| - 1])
  }

  /** The number bytes denote, the most significant first. */
  function BigEndian(s: Str): nat {
    if s == [] then 0 else 256 * BigEndian(s[..|s| - 1]) + s[|s| - 1]
  }

  lemma {:induction false} DecodedIsBytes(s: Str)
    ensures DecodeHex(s).Some? <==> IsHex(s) && |s| % 2 == 0
    ensures DecodeHex(s).Some? ==> 2 * |DecodeHex(s).value| == |s|
    ensures DecodeHex(s).Some? ==>
              forall i | 0 <= i < |DecodeHex(s).value| ::
                DecodeHex(s).value[i] == 16 * DigitValue(s[2 * i]) + DigitValue(s[2 * i + 1])
  {
    if |s| >= 2 {
      DecodedIsBytes(s[2..]);
      assert IsHex(s) <==> IsDigit(s[0]) && IsDigit(s[1]) && IsHex(s[2..]) by {
        assert forall i | 2 <= i < |s| :: s[i] == s[2..][i - 2];
      }
    }
  }

  lemma {:induction false} SameNumber(s: Str, id: Str)
    requires IsHex(s) && |s| == 2 * |id|
    requires forall i | 0 <= i < |id| :: id[i] == 16 * DigitValue(s[2 * i]) + DigitValue(s[2 * i + 1])
    ensures BigEndian(id) == HexNumber(s)
    decreases |id|
  {
    hide DigitValue;
    if id != [] {
      var n := |s|;
      SameNumber(s[..n - 2], id[..|id| - 1]);
      assert s[..n - 1][..n - 2] == s[..n - 2];
      assert HexNumber(s[..n - 1]) == 16 * HexNumber(s[..n - 2]) + DigitValue(s[n - 2]);
    }
  }

  lemma {:induction false} ZeroBytes(id: Str)
    ensures BigEndian(id) == 0 <==> AllZero(id)
  {
    if id != [] {
      ZeroBytes(id[..|id| - 1]);
      assert AllZero(id) <==> AllZero(id[..|id| - 1]) && id[|id| - 1] == 0;
    }
  }

  lemma {:induction false} LeadingZeros(n: nat, s: Str)
    requires IsHex(s)
    ensures IsHex(Zeros(n) + s) && HexNumber(Zeros(n) + s) == HexNumber(s)
    decreases |s|, n
  {
    var t := Zeros(n) + s;
    if s != [] {
      LeadingZeros(n, s[..|s| - 1]);
      assert t[..|t| - 1] == Zeros(n) + s[..|s| - 1];
    } else if n > 0 {
      LeadingZeros(n - 1, []);
      assert t[..|t| - 1] == Zeros(n - 1) + [];
    }
  }

  /** The digits are 0 to 9 and a to f in either case, with their usual values. */
  lemma Digits(b: byte)
    ensures IsDigit(b) <==> b as char in "0123456789abcdefABCDEF"
    ensures forall v: nat | v < 10 :: DigitValue("0123456789"[v] as int) == v
    ensures forall v: nat | v < 6 ::
              DigitValue("abcdef"[v] as int) == 10 + v && DigitValue("ABCDEF"[v] as int) == 10 + v
  {
  }

  /** With completion off, the bytes of the value are the identifier. */
  lemma UnparsedWithoutCompletion(value: Str)
    ensures ParseTraceId(value, false) == Some(value)
  {
  }

  /**
   With completion on, a value is an identifier exactly when it has 16 or 32 hexadecimal digits, not all
   zero; the identifier is the 16 bytes of the same number.
   */
  lemma ParsedExactly(value: Str)
    ensures ParseTraceId(value, true).Some?
            <==> (|value| == 16 || |value| == 32) && IsHex(value) && HexNumber(value) != 0
    ensures ParseTraceId(value, true).Some? ==>
              var id := ParseTraceId(value, true).value;
              |id| == 16 && BigEndian(id) == HexNumber(value)
  {
    var padded := if |value| == 16 then Zeros(16) + value else value;
    assert IsHex(padded) ==> IsHex(value) by {
      assert |value| == 16 ==> padded[16..] == value;
    }
    if IsHex(value) && (|value| == 16 || |value| == 32) {
      LeadingZeros(16, value);
      DecodedIsBytes(padded);
      SameNumber(padded, DecodeHex(padded).value);
      ZeroBytes(DecodeHex(padded).value);
    } else {
      DecodedIsBytes(padded);
    }
  }
}
