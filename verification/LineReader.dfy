/**
 Reading one bounded line from a buffered reader. The reader hands out the file in slices whose
 boundaries nobody controls; at most `4 * maxSize` bytes of a line are kept in memory.
 */
module LineReader {
  import opened Lines
  import opened Utf8

  datatype ReadError = NoError | BufferFull | EndOfFile | Broken

  function TrimSuffix(s: Str, b: byte): Str {
    if s != [] && s[|s| - 1] == b then s[..|s| - 1] else s
  }

  /** What the collector makes of a whole line: one trailing CR goes, then it is cut to `maxSize` runes. */
  function Clean(line: Str, maxSize: nat): Str {
    TruncateRunes(TrimSuffix(line, CR), maxSize)
  }

  /** A line keeps no line feed when it is cleaned. */
  lemma CleanHoldsNoLineFeed(line: Str, maxSize: nat)
    requires LF !in line
    ensures LF !in Clean(line, maxSize)
  {
    TruncateHoldsNoLineFeed(TrimSuffix(line, CR), maxSize);
  }

  /** The bytes of `s` that fit the line buffer. */
  function Kept(s: Str, maxSize: nat): Str {
    if |s| <= 4 * maxSize then s else s[..4 * maxSize]
  }

  /** The string returned for the bytes kept of a complete line. */
  function Recovered(kept: Str, maxSize: nat): Str {
    TruncateRunes(TrimSuffix(TrimSuffix(kept, LF), CR), maxSize)
  }

  lemma CutLineSuffices(line: Str, maxSize: nat)
    requires 1 <= maxSize && 4 * maxSize <= |line|
    ensures TruncateRunes(TrimSuffix(line[..4 * maxSize], CR), maxSize) == Clean(line, maxSize)
  {
    var n := 4 * maxSize;
    var whole := TrimSuffix(line, CR);
    if |line| == n {
      assert line[..n] == line;
    } else {
      assert line[..n] == whole[..n];
      TruncateOfPrefix(whole, n, maxSize);
      if line[n - 1] == CR {
        assert TrimSuffix(line[..n], CR) == whole[..n - 1];
        TruncateOfShortPrefix(whole, maxSize);
      }
    }
  }

  /**
   The buffer kept for a complete line is enough: what is recovered from the first `4 * maxSize` bytes
   of the line and its line feed equals cleaning the whole line, even where the cut falls inside a
   UTF-8 sequence or just behind a CR in the middle of the line.
   */
  lemma KeptBytesSuffice(line: Str, maxSize: nat)
    requires LF !in line
    ensures Recovered(Kept(line + [LF], maxSize), maxSize) == Clean(line, maxSize)
  {
    var n := 4 * maxSize;
    if |line| < n {
      assert TrimSuffix(line + [LF], LF) == line;
    } else if maxSize > 0 {
      assert (line + [LF])[..n] == line[..n];
      assert line[n - 1] in line;
      CutLineSuffices(line, maxSize);
    }
  }

  /** A buffered reader over the bytes that can be read before the end of the file or an I/O error. */
  class Reader {
    const data: Str
    const broken: bool
    var pos: nat

    constructor (data: Str, broken: bool)
      ensures this.data == data && this.broken == broken && pos == 0
    {
      this.data := data;
      this.broken := broken;
      pos := 0;
    }

    predicate Valid()
      reads this
    {
      pos <= |data|
    }

    /**
     The next slice: up to and including a line feed, or a full buffer without one, or the rest of the
     data with the error that ends it. Where a full buffer is cut is left open.
     */
    method ReadSlice() returns (part: Str, err: ReadError)
      requires Valid()
      modifies this
      ensures Valid() && pos == old(pos) + |part| && part == data[old(pos)..pos]
      ensures err == NoError ==> part != [] && part[|part| - 1] == LF && LF !in part[..|part| - 1]
      ensures err != NoError ==> LF !in part
      ensures err == BufferFull ==> part != []
      ensures err in {EndOfFile, Broken} ==> pos == |data| && err == if broken then Broken else EndOfFile
    {
      var rest := data[pos..];
      var n := LineLength(rest);
      LineHoldsNoLineFeed(rest);
      var whole := true;
      if n > 0 {
        whole := *;
      }
      if !whole {
        var k: nat :| 1 <= k <= n;
        assert rest[..k] == rest[..n][..k];
        part, err := rest[..k], BufferFull;
      } else if n < |rest| {
        part, err := rest[..n + 1], NoError;
        assert part[..n] == rest[..n];
      } else {
        assert rest[..n] == rest;
        part, err := rest, if broken then Broken else EndOfFile;
      }
      pos := pos + |part|;
    }
  }

  /** A line, the bytes it took from the reader, and whether a line feed ended it. */
  datatype Reading = Reading(line: Str, consumed: nat, complete: bool)

  /** The next line of what is left to read, cleaned as a whole. */
  function NextLine(rest: Str, maxSize: nat): Reading {
    var n := LineLength(rest);
    if n < |rest| then Reading(Clean(rest[..n], maxSize), n + 1, true)
    else Reading(TruncateRunes(rest, maxSize), |rest|, false)
  }

  /** Cleaning takes off one carriage return at the end, and nothing else but what exceeds the size. */
  lemma CleanTakesOneCarriageReturn(text: Str, maxSize: nat)
    ensures Clean(text + [13], maxSize) == TruncateRunes(text, maxSize)
    ensures text == [] || text[|text| - 1] != 13 ==> Clean(text, maxSize) == TruncateRunes(text, maxSize)
  {
    assert (text + [13])[..|text|] == text;
  }

  /**
   What is read of a line, whichever way it ends: both line endings give the same text, and bytes that no
   line feed ends give no complete line.
   */
  lemma LineEndings(text: Str, more: Str, maxSize: nat)
    requires 10 !in text
    ensures NextLine(text + [13, 10] + more, maxSize) == Reading(TruncateRunes(text, maxSize), |text| + 2, true)
    ensures text == [] || text[|text| - 1] != 13 ==>
              NextLine(text + [10] + more, maxSize) == Reading(TruncateRunes(text, maxSize), |text| + 1, true)
    ensures NextLine(text, maxSize).consumed == |text| && !NextLine(text, maxSize).complete
  {
    hide TruncateRunes, LineLength, Clean;
    CleanTakesOneCarriageReturn(text, maxSize);
    assert text + [13, 10] + more == (text + [13]) + [LF] + more;
    LineLengthConcat(text + [13], more);
    assert ((text + [13]) + [LF] + more)[..|text| + 1] == text + [13];
    LineLengthConcat(text, more);
    assert (text + [LF] + more)[..|text|] == text;
    NoLineFeed(text);
  }

  /** The loop's state: no line feed so far, and the bytes kept are those that fit. */
  ghost predicate Progress(rest: Str, consumed: nat, kept: Str, maxSize: nat) {
    consumed <= |rest| && LF !in rest[..consumed] && kept == Kept(rest[..consumed], maxSize)
  }

  lemma KeepMore(rest: Str, consumed: nat, part: Str, kept: Str, kept': Str, maxSize: nat)
    requires Progress(rest, consumed, kept, maxSize)
    requires consumed + |part| <= |rest| && part == rest[consumed..consumed + |part|]
    requires var room := maxSize * 4 - |kept|;
             var n := if room > |part| then |part| else room;
             kept' == if n > 0 then kept + part[..n] else kept
    ensures kept' == Kept(rest[..consumed + |part|], maxSize)
  {
    assert rest[..consumed + |part|] == rest[..consumed] + part;
  }

  lemma LineFoundAt(rest: Str, n: nat, maxSize: nat)
    requires n < |rest| && rest[n] == LF && LF !in rest[..n]
    ensures NextLine(rest, maxSize) == Reading(Recovered(Kept(rest[..n + 1], maxSize), maxSize), n + 1, true)
  {
    LineLengthUnique(rest, n);
    assert rest[..n + 1] == rest[..n] + [LF];
    KeptBytesSuffice(rest[..n], maxSize);
  }

  lemma LineFound(rest: Str, consumed: nat, part: Str, maxSize: nat)
    requires consumed + |part| <= |rest| && part == rest[consumed..consumed + |part|]
    requires part != [] && part[|part| - 1] == LF && LF !in part[..|part| - 1]
    requires LF !in rest[..consumed]
    ensures var n := consumed + |part|;
            NextLine(rest, maxSize) == Reading(Recovered(Kept(rest[..n], maxSize), maxSize), n, true)
  {
    hide NextLine, Recovered, Kept;
    var n := consumed + |part| - 1;
    NoLineFeedInConcat(rest[..consumed], part[..|part| - 1]);
    assert rest[..n] == rest[..consumed] + part[..|part| - 1];
    LineFoundAt(rest, n, maxSize);
  }

  lemma NoLineYet(rest: Str, consumed: nat, part: Str, kept: Str, maxSize: nat)
    requires consumed + |part| <= |rest| && part == rest[consumed..consumed + |part|]
    requires LF !in rest[..consumed] && LF !in part
    requires kept == Kept(rest[..consumed + |part|], maxSize)
    ensures Progress(rest, consumed + |part|, kept, maxSize)
  {
    NoLineFeedInConcat(rest[..consumed], part);
    assert rest[..consumed + |part|] == rest[..consumed] + part;
  }

  lemma NoLineFound(rest: Str, consumed: nat, kept: Str, maxSize: nat)
    requires consumed == |rest| && Progress(rest, consumed, kept, maxSize)
    ensures NextLine(rest, maxSize) == Reading(TruncateRunes(kept, maxSize), consumed, false)
  {
    assert rest[..consumed] == rest;
    NoLineFeed(rest);
    if |rest| > 4 * maxSize {
      TruncateOfPrefix(rest, 4 * maxSize, maxSize);
    }
  }

  /**
   Consumes one line. However the reader cuts it, and although only `4 * maxSize` bytes are kept, the
   result is that of cleaning the whole line; without a line feed all the data is consumed.
   */
  method ReadBoundedLine(r: Reader, maxSize: nat)
    returns (line: Str, consumed: nat, complete: bool, err: ReadError)
    requires r.Valid()
    modifies r
    ensures r.Valid() && r.pos == old(r.pos) + consumed
    ensures Reading(line, consumed, complete) == NextLine(r.data[old(r.pos)..], maxSize)
    ensures err == if complete then NoError else if r.broken then Broken else EndOfFile
  {
    var kept: Str := [];
    consumed := 0;
    ghost var rest := r.data[r.pos..];
    while true
      invariant r.Valid() && r.pos == old(r.pos) + consumed
      invariant Progress(rest, consumed, kept, maxSize)
      decreases |r.data| - r.pos
    {
      var part, partErr := r.ReadSlice();
      assert part == rest[consumed..consumed + |part|];
      var remaining := maxSize * 4 - |kept|;
      if remaining > |part| {
        remaining := |part|;
      }
      ghost var keptBefore := kept;
      if remaining > 0 {
        kept := kept + part[..remaining];
      }
      KeepMore(rest, consumed, part, keptBefore, kept, maxSize);
      ghost var before := consumed;
      consumed := consumed + |part|;
      if partErr == NoError {
        LineFound(rest, before, part, maxSize);
        return Recovered(kept, maxSize), consumed, true, NoError;
      }
      NoLineYet(rest, before, part, kept, maxSize);
      if partErr == BufferFull {
        continue;
      }
      NoLineFound(rest, consumed, kept, maxSize);
      return TruncateRunes(kept, maxSize), consumed, false, partErr;
    }
  }
}
