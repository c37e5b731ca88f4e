/**
 Grouping lines into records, one file identity at a time: the per-file state, the step that accepts
 a line, and the steps that release a buffered record because it expired or the collector stops.

 Handing a record to `emit` may fail; a record whose level is dropped is never handed over but counts
 as released. `log` remembers every accepted line and whether it was kept: an empty line written while
 the buffer is empty leaves no trace in it.
 */
module Multiline {
  import opened Wrappers
  import opened Lines
  import opened Utf8
  import opened Cri

  datatype Meta = Plain | FromCri(timestamp: int, stream: Str, flag: Str)

  datatype Entry = Entry(line: Str, meta: Meta)

  datatype Record = Record(body: Str, meta: Meta)

  /** Limits and the uninterpreted parts of a file's configuration. */
  datatype Rules = Rules(
    maxLogSize: nat,
    maxBodySize: nat,
    maxLines: nat,
    multiline: bool,
    isStart: Str -> bool,
    cri: bool,
    parseTime: Str -> Option<int>,
    dropped: Str -> bool,
    flushAfter: int)

  datatype Buffer = Buffer(body: Str, size: nat, lines: nat, meta: Meta, updated: nat)

  /** A record that left the tailer: handed to `emit`, or dropped by its level. */
  datatype Output = Output(record: Record, dropped: bool)

  datatype Written = Written(entry: Entry, kept: bool)

  datatype FileState = FileState(buffer: Option<Buffer>, out: seq<Output>, log: seq<Written>)

  const INITIAL := FileState(None, [], [])

  /** Default flush interval in nanoseconds. */
  const DEFAULT_FLUSH: nat := 5_000_000_000

  // ----- steps

  /** The CRI prefix is taken off a line that has one. */
  function Unwrapped(rules: Rules, line: Str): Entry {
    var parsed := if rules.cri then ParseCri(rules.parseTime, line) else None;
    match parsed
    case Some(m) => Entry(m.body, FromCri(m.timestamp, m.stream, m.flag))
    case None => Entry(line, Plain)
  }

  /** The multiline cut: more bytes than the limit are cut, in runes. */
  function CutBody(rules: Rules, body: Str): Str {
    if rules.multiline && |body| > rules.maxBodySize then TruncateRunes(body, rules.maxBodySize) else body
  }

  /** From a bounded line to what is accepted. */
  function Shape(rules: Rules, line: Str): Entry {
    var entry := Unwrapped(rules, line);
    entry.(line := CutBody(rules, entry.line))
  }

  function EmptyBuffer(now: nat): Buffer {
    Buffer([], 0, 0, Plain, now)
  }

  /** Does the line not fit behind what is buffered? */
  predicate MustRelease(rules: Rules, b: Buffer, line: Str) {
    && b.body != []
    && (rules.isStart(line) || b.size + |line| + 1 > rules.maxBodySize || b.lines >= rules.maxLines)
  }

  function Cleared(b: Buffer): Buffer {
    b.(body := [], size := 0, lines := 0)
  }

  function Append(b: Buffer, e: Entry, now: nat): Buffer {
    if b.body == [] then Buffer(e.line, b.size + |e.line|, b.lines + 1, e.meta, now)
    else Buffer(b.body + [LF] + e.line, b.size + 1 + |e.line|, b.lines + 1, b.meta, now)
  }

  /** A record is released when its level is dropped or `emit` takes it. */
  predicate Released(rules: Rules, r: Record, emitOk: bool) {
    rules.dropped(r.body) || emitOk
  }

  function AsOutput(rules: Rules, r: Record): Output {
    Output(r, rules.dropped(r.body))
  }

  function Buffered(st: FileState, now: nat): Buffer {
    st.buffer.GetOr(EmptyBuffer(now))
  }

  /** The record whose release accepting the entry has to wait for, if any. */
  function Awaited(rules: Rules, st: FileState, e: Entry, now: nat): Option<Record> {
    if !rules.multiline then Some(Record(e.line, e.meta))
    else
      var b := Buffered(st, now);
      if MustRelease(rules, b, e.line) then Some(Record(b.body, b.meta)) else None
  }

  predicate Accepts(rules: Rules, st: FileState, e: Entry, now: nat, emitOk: bool) {
    match Awaited(rules, st, e, now)
    case None => true
    case Some(r) => Released(rules, r, emitOk)
  }

  /** One accepted line. When the awaited record cannot be released nothing changes. */
  function Accept(rules: Rules, st: FileState, e: Entry, now: nat, emitOk: bool): FileState {
    if !Accepts(rules, st, e, now, emitOk) then st
    else
      var awaited := Awaited(rules, st, e, now);
      var out := if awaited.Some? then st.out + [AsOutput(rules, awaited.value)] else st.out;
      if !rules.multiline then FileState(st.buffer, out, st.log + [Written(e, true)])
      else
        var b := Buffered(st, now);
        var b' := if awaited.Some? then Cleared(b) else b;
        FileState(Some(Append(b', e, now)), out, st.log + [Written(e, e.line != [] || b'.body != [])])
  }

  predicate Expired(rules: Rules, st: FileState, now: nat) {
    && st.buffer.Some?
    && st.buffer.value.body != []
    && now - st.buffer.value.updated >= if rules.flushAfter <= 0 then DEFAULT_FLUSH else rules.flushAfter
  }

  function Expire(rules: Rules, st: FileState, now: nat, emitOk: bool): FileState {
    if Expired(rules, st, now) then
      var r := Record(st.buffer.value.body, st.buffer.value.meta);
      if Released(rules, r, emitOk) then FileState(None, st.out + [AsOutput(rules, r)], st.log) else st
    else st
  }

  /** Stopping forgets the buffer first and hands the record over afterwards. */
  function Shut(rules: Rules, st: FileState, emitOk: bool): FileState {
    if st.buffer.Some? && st.buffer.value.body != [] then
      var r := Record(st.buffer.value.body, st.buffer.value.meta);
      FileState(None, if Released(rules, r, emitOk) then st.out + [AsOutput(rules, r)] else st.out, st.log)
    else st.(buffer := None)
  }

  datatype Event = Take(entry: Entry, now: nat, emitOk: bool) | Tick(now: nat, emitOk: bool)

  function Step(rules: Rules, st: FileState, e: Event): FileState {
    match e
    case Take(entry, now, ok) => Accept(rules, st, entry, now, ok)
    case Tick(now, ok) => Expire(rules, st, now, ok)
  }

  function Run(rules: Rules, st: FileState, events: seq<Event>): FileState {
    if events == [] then st
    else Step(rules, Run(rules, st, events[..|events| - 1]), events[|events| - 1])
  }

  // ----- what is conserved

  function ReleasedLines(out: seq<Output>): seq<Str> {
    if out == [] then [] else ReleasedLines(out[..|out| - 1]) + Split(out[|out| - 1].record.body)
  }

  function PendingLines(buffer: Option<Buffer>): seq<Str> {
    if buffer.None? || buffer.value.body == [] then [] else Split(buffer.value.body)
  }

  function KeptLines(log: seq<Written>): seq<Str> {
    if log == [] then []
    else KeptLines(log[..|log| - 1]) + if log[|log| - 1].kept then [log[|log| - 1].entry.line] else []
  }

  /** The accepted entries, kept or not. */
  function LogEntries(log: seq<Written>): (entries: seq<Entry>)
    ensures |entries| == |log|
  {
    seq(|log|, i requires 0 <= i < |log| => log[i].entry)
  }

  function LinesOf(entries: seq<Entry>): (lines: seq<Str>)
    ensures |lines| == |entries|
  {
    seq(|entries|, i requires 0 <= i < |entries| => entries[i].line)
  }

  /** In single-line mode every entry is a record of its own. */
  function OutputsOf(rules: Rules, entries: seq<Entry>): (out: seq<Output>)
    ensures |out| == |entries|
  {
    seq(|entries|, i requires 0 <= i < |entries| =>
          Output(Record(entries[i].line, entries[i].meta), rules.dropped(entries[i].line)))
  }

  /**
   Only empty lines may be missing, and only in multiline mode, where no body starts with one; in
   single-line mode the output is the accepted entries.
   */
  ghost predicate Lossless(rules: Rules, st: FileState) {
    && (forall i | 0 <= i < |st.log| && !st.log[i].kept :: rules.multiline && st.log[i].entry.line == [])
    && (st.buffer.Some? && st.buffer.value.body != [] ==> st.buffer.value.body[0] != LF)
    && (!rules.multiline ==> st.buffer.None? && st.out == OutputsOf(rules, LogEntries(st.log)))
  }

  function NonEmpty(lines: seq<Str>): seq<Str> {
    if lines == [] then []
    else
      var n := |lines| - 1;
      NonEmpty(lines[..n]) + if lines[n] == [] then [] else [lines[n]]
  }

  /** Released bodies and the pending body, split at line feeds, are the kept lines in order. */
  ghost predicate Conserved(st: FileState) {
    ReleasedLines(st.out) + PendingLines(st.buffer) == KeptLines(st.log)
  }

  /** What the buffer limits promise about a body. */
  ghost predicate BodyWithinLimits(rules: Rules, body: Str) {
    var lines := Split(body);
    && |lines| <= rules.maxLines
    && (|lines| == 1 ==> RuneLen(body) <= rules.maxBodySize)
    && (|lines| >= 2 ==> |body| <= rules.maxBodySize)
    && (forall i | 1 <= i < |lines| :: !rules.isStart(lines[i]))
  }

  ghost predicate BufferWithinLimits(rules: Rules, b: Buffer) {
    && b.size == |b.body|
    && (b.body != [] ==> BodyWithinLimits(rules, b.body) && |Split(b.body)| <= b.lines)
  }

  ghost predicate WithinLimits(rules: Rules, st: FileState) {
    && (st.buffer.Some? ==> BufferWithinLimits(rules, st.buffer.value))
    && (forall i | 0 <= i < |st.out| :: BodyWithinLimits(rules, st.out[i].record.body))
  }

  ghost predicate Usable(rules: Rules) {
    rules.maxBodySize > 0 && rules.maxLines > 0
  }

  /** What `Shape` promises about every entry. */
  ghost predicate Proper(rules: Rules, e: Entry) {
    && LF !in e.line
    && (rules.multiline ==> RuneLen(e.line) <= rules.maxBodySize)
  }

  // ----- lemmas

  lemma {:induction false} RuneLenAtMostBytes(s: Str)
    ensures RuneLen(s) <= |s|
    decreases |s|
  {
    if s != [] {
      RuneLenAtMostBytes(s[Width(s)..]);
    }
  }

  lemma BodyOfFormatted(time: Str, stream: Str, flag: Str, body: Str)
    requires LF !in Format(time, stream, flag, body)
    ensures LF !in body
  {
    var inner := Spaced(stream, Spaced(flag, body));
    assert forall b | b in inner :: b in Spaced(time, inner);
    assert forall b | b in Spaced(flag, body) :: b in inner;
  }

  lemma ShapeIsProper(rules: Rules, line: Str)
    requires LF !in line
    ensures Proper(rules, Shape(rules, line))
  {
    var parsed := if rules.cri then ParseCri(rules.parseTime, line) else None;
    var body := if parsed.Some? then parsed.value.body else line;
    if parsed.Some? {
      var time := ParsedIsFormatted(rules.parseTime, line);
      BodyOfFormatted(time, parsed.value.stream, parsed.value.flag, body);
    }
    assert LF !in body;
    RuneLenAtMostBytes(body);
    if |body| > rules.maxBodySize {
      TruncateHoldsNoLineFeed(body, rules.maxBodySize);
      TruncateRunesKeeps(body, rules.maxBodySize);
    }
  }

  /** The cut leaves a message of at most the limit in bytes alone, and keeps the first runes of any other. */
  lemma CutKeepsFirstRunes(rules: Rules, body: Str)
    ensures !rules.multiline || |body| <= rules.maxBodySize ==> CutBody(rules, body) == body
    ensures rules.multiline && |body| > rules.maxBodySize ==>
              && Valid(CutBody(rules, body))
              && Runes(CutBody(rules, body))
                 == if RuneLen(body) > rules.maxBodySize then Runes(body)[..rules.maxBodySize] else Runes(body)
  {
    hide TruncateRunes, Runes, Valid;
    TruncateRunesKeeps(body, rules.maxBodySize);
  }

  /** A line in the container format is accepted as its message, with its time, stream and flag. */
  lemma ContainerLine(rules: Rules, time: Str, stream: Str, flag: Str, body: Str)
    requires rules.cri && SPACE !in time && IsStream(stream) && IsFlag(flag) && rules.parseTime(time).Some?
    ensures Shape(rules, Format(time, stream, flag, body))
            == Entry(CutBody(rules, body), FromCri(rules.parseTime(time).value, stream, flag))
  {
    hide ParseCri, Format, TruncateRunes;
    ParseFormat(rules.parseTime, time, stream, flag, body);
  }

  /** Any other line is accepted as it is, and so is every line of a file in another format. */
  lemma OtherLine(rules: Rules, line: Str)
    requires rules.cri ==>
               forall time, stream, flag, body | line == Format(time, stream, flag, body) ::
                 SPACE in time || !IsStream(stream) || !IsFlag(flag) || rules.parseTime(time).None?
    ensures Shape(rules, line) == Entry(CutBody(rules, line), Plain)
  {
    hide ParseCri, Format, TruncateRunes;
    if rules.cri && ParseCri(rules.parseTime, line).Some? {
      var time := ParsedIsFormatted(rules.parseTime, line);
    }
  }

  /** The cut leaves more bytes than the limit exactly when one of the runes it keeps is not ASCII. */
  lemma ShapeExceedsLimit(rules: Rules, line: Str)
    requires rules.multiline
    ensures var s := Unwrapped(rules, line).line;
            |Shape(rules, line).line| > rules.maxBodySize
            <==> |s| > rules.maxBodySize
                 && exists i :: 0 <= i < rules.maxBodySize && i < RuneLen(s) && Runes(s)[i] >= 0x80
  {
    hide Unwrapped, TruncateRunes, Runes;
    var s := Unwrapped(rules, line).line;
    if |s| > rules.maxBodySize {
      CutExceedsBytes(s, rules.maxBodySize);
    }
  }

  /** The smallest such line: one rune of two bytes, with a limit of one byte. */
  lemma OneRuneExceedsLimit(rules: Rules, now: nat, emitOk: bool)
    requires rules.multiline && !rules.cri && rules.maxBodySize == 1
    ensures var line: Str := [0xC3, 0xA9];
            var b := Accept(rules, INITIAL, Shape(rules, line), now, emitOk).buffer.value;
            b.body == line && b.size == 2 > rules.maxBodySize
  {
    var line: Str := [0xC3, 0xA9];
    assert EncodeRune(0xE9) == line;
    RunesUnfold(0xE9, []);
    assert Runes([]) == [] && line + [] == line;
    assert Encode([0xE9]) == EncodeRune(0xE9) + Encode([]);
  }

  lemma ReleasedLinesSnoc(out: seq<Output>, o: Output)
    ensures ReleasedLines(out + [o]) == ReleasedLines(out) + Split(o.record.body)
  {
    assert (out + [o])[..|out|] == out;
  }

  lemma KeptLinesSnoc(log: seq<Written>, w: Written)
    ensures KeptLines(log + [w]) == KeptLines(log) + if w.kept then [w.entry.line] else []
  {
    assert (log + [w])[..|log|] == log;
  }

  /** Pending lines after a write. */
  lemma AppendPending(b: Buffer, e: Entry, now: nat)
    requires LF !in e.line
    ensures PendingLines(Some(Append(b, e, now)))
            == PendingLines(Some(b)) + if e.line != [] || b.body != [] then [e.line] else []
  {
    SplitSingle(e.line);
    if b.body != [] {
      SplitConcat(b.body, e.line);
    }
  }

  /** Accepting a line keeps the conservation law, whether or not `emit` fails. */
  lemma AcceptConserves(rules: Rules, st: FileState, e: Entry, now: nat, emitOk: bool)
    requires Conserved(st) && Proper(rules, e)
    requires !rules.multiline ==> st.buffer.None?
    ensures Conserved(Accept(rules, st, e, now, emitOk))
    ensures !rules.multiline ==> Accept(rules, st, e, now, emitOk).buffer.None?
  {
    var st' := Accept(rules, st, e, now, emitOk);
    if Accepts(rules, st, e, now, emitOk) {
      var awaited := Awaited(rules, st, e, now);
      KeptLinesSnoc(st.log, st'.log[|st.log|]);
      assert st'.log == st.log + [st'.log[|st.log|]];
      if awaited.Some? {
        ReleasedLinesSnoc(st.out, AsOutput(rules, awaited.value));
      }
      if rules.multiline {
        var b := Buffered(st, now);
        AppendPending(if awaited.Some? then Cleared(b) else b, e, now);
      } else {
        SplitSingle(e.line);
      }
    }
  }

  lemma ExpireConserves(rules: Rules, st: FileState, now: nat, emitOk: bool)
    requires Conserved(st)
    ensures Conserved(Expire(rules, st, now, emitOk))
  {
    if Expired(rules, st, now) {
      ReleasedLinesSnoc(st.out, AsOutput(rules, Record(st.buffer.value.body, st.buffer.value.meta)));
    }
  }

  /**
   Stopping conserves the lines exactly when there was nothing buffered or its record was released:
   a record `emit` refuses at that point is lost.
   */
  lemma ShutConserves(rules: Rules, st: FileState, emitOk: bool)
    requires Conserved(st)
    ensures Conserved(Shut(rules, st, emitOk))
            <==> (st.buffer.None? || st.buffer.value.body == []
                  || Released(rules, Record(st.buffer.value.body, st.buffer.value.meta), emitOk))
    ensures Shut(rules, st, emitOk).buffer.None?
    ensures Conserved(Shut(rules, st, emitOk))
            <==> ReleasedLines(Shut(rules, st, emitOk).out) == KeptLines(Shut(rules, st, emitOk).log)
  {
    assert ReleasedLines(Shut(rules, st, emitOk).out) + [] == ReleasedLines(Shut(rules, st, emitOk).out);
    if st.buffer.Some? && st.buffer.value.body != [] {
      ReleasedLinesSnoc(st.out, AsOutput(rules, Record(st.buffer.value.body, st.buffer.value.meta)));
      assert |ReleasedLines(st.out) + PendingLines(st.buffer)| > |ReleasedLines(st.out)|;
    }
  }

  /** A buffer within its limits stays within them when a fitting line is written. */
  lemma AppendWithinLimits(rules: Rules, b: Buffer, e: Entry, now: nat)
    requires Usable(rules) && BufferWithinLimits(rules, b)
    requires LF !in e.line && RuneLen(e.line) <= rules.maxBodySize
    requires !MustRelease(rules, b, e.line)
    ensures BufferWithinLimits(rules, Append(b, e, now))
  {
    SplitSingle(e.line);
    if b.body != [] {
      SplitConcat(b.body, e.line);
    }
  }

  lemma AcceptWithinLimits(rules: Rules, st: FileState, e: Entry, now: nat, emitOk: bool)
    requires rules.multiline && Usable(rules) && WithinLimits(rules, st) && Proper(rules, e)
    ensures WithinLimits(rules, Accept(rules, st, e, now, emitOk))
  {
    if Accepts(rules, st, e, now, emitOk) {
      var b := Buffered(st, now);
      var b' := if MustRelease(rules, b, e.line) then Cleared(b) else b;
      AppendWithinLimits(rules, b', e, now);
    }
  }

  ghost predicate ProperEvent(rules: Rules, e: Event) {
    e.Take? ==> Proper(rules, e.entry)
  }

  lemma AcceptIsLossless(rules: Rules, st: FileState, e: Entry, now: nat, emitOk: bool)
    requires Lossless(rules, st) && LF !in e.line
    ensures Lossless(rules, Accept(rules, st, e, now, emitOk))
  {
    hide MustRelease;
    var st' := Accept(rules, st, e, now, emitOk);
    if Accepts(rules, st, e, now, emitOk) {
      assert st'.log == st.log + [st'.log[|st.log|]];
      assert LogEntries(st'.log) == LogEntries(st.log) + [e];
    }
  }

  lemma ExpireIsLossless(rules: Rules, st: FileState, now: nat, emitOk: bool)
    requires Lossless(rules, st)
    ensures Lossless(rules, Expire(rules, st, now, emitOk))
  {
  }

  lemma StepIsLossless(rules: Rules, st: FileState, e: Event)
    requires Lossless(rules, st) && ProperEvent(rules, e)
    ensures Lossless(rules, Step(rules, st, e))
  {
    hide Lossless;
    match e
    case Take(entry, now, ok) => AcceptIsLossless(rules, st, entry, now, ok);
    case Tick(now, ok) => ExpireIsLossless(rules, st, now, ok);
  }

  lemma LogEntriesAfterAccept(rules: Rules, st: FileState, e: Entry, now: nat, ok: bool)
    requires Accepts(rules, st, e, now, ok)
    ensures LogEntries(Accept(rules, st, e, now, ok).log) == LogEntries(st.log) + [e]
  {
    var st' := Accept(rules, st, e, now, ok);
    assert st'.log[|st.log|].entry == e;
    assert st'.log == st.log + [st'.log[|st.log|]];
  }

  lemma LogEntriesAfterStep(rules: Rules, st: FileState, e: Event)
    ensures LogEntries(Step(rules, st, e).log)
            == if e.Take? && Accepts(rules, st, e.entry, e.now, e.emitOk) then LogEntries(st.log) + [e.entry]
               else LogEntries(st.log)
  {
    hide LogEntries;
    if e.Take? && Accepts(rules, st, e.entry, e.now, e.emitOk) {
      LogEntriesAfterAccept(rules, st, e.entry, e.now, e.emitOk);
    }
  }

  lemma NonEmptySnoc(lines: seq<Str>, line: Str)
    ensures NonEmpty(lines + [line]) == NonEmpty(lines) + if line == [] then [] else [line]
  {
    assert (lines + [line])[..|lines|] == lines;
  }

  /** No line with anything in it is ever missing among the kept lines. */
  lemma {:induction false} KeptLinesAreNonEmptyLines(log: seq<Written>)
    requires forall i | 0 <= i < |log| && !log[i].kept :: log[i].entry.line == []
    ensures NonEmpty(KeptLines(log)) == NonEmpty(LinesOf(LogEntries(log)))
  {
    if log != [] {
      var n := |log| - 1;
      KeptLinesAreNonEmptyLines(log[..n]);
      assert LinesOf(LogEntries(log))[..n] == LinesOf(LogEntries(log[..n]));
      if log[n].kept {
        NonEmptySnoc(KeptLines(log[..n]), log[n].entry.line);
      } else {
        assert KeptLines(log[..n]) + [] == KeptLines(log[..n]);
      }
    }
  }

  lemma {:induction false} NonEmptyConcat(a: seq<Str>, b: seq<Str>)
    ensures NonEmpty(a + b) == NonEmpty(a) + NonEmpty(b)
  {
    if b == [] {
      assert a + b == a;
    } else {
      assert (a + b)[..|a + b| - 1] == a + b[..|b| - 1];
      NonEmptyConcat(a, b[..|b| - 1]);
    }
  }

  lemma SplitHasText(s: Str)
    requires s != [] && s[0] != LF
    ensures NonEmpty(Split(s)) != []
  {
    var pieces := Split(s);
    assert pieces[0] != [];
    assert pieces == [pieces[0]] + pieces[1..];
    NonEmptyConcat([pieces[0]], pieces[1..]);
    NonEmptySnoc([], pieces[0]);
    assert [] + [pieces[0]] == [pieces[0]];
  }

  /** In single-line mode nothing is missing at all. */
  lemma {:induction false} EverythingKept(log: seq<Written>)
    requires forall i | 0 <= i < |log| :: log[i].kept
    ensures KeptLines(log) == LinesOf(LogEntries(log))
  {
    if log != [] {
      var n := |log| - 1;
      EverythingKept(log[..n]);
      assert LinesOf(LogEntries(log)) == LinesOf(LogEntries(log[..n])) + [log[n].entry.line];
    }
  }

  /** Which events accepted their line. */
  function TakenAt(rules: Rules, events: seq<Event>): (at: seq<nat>)
    ensures forall i | 0 <= i < |at| :: at[i] < |events| && events[at[i]].Take?
  {
    if events == [] then []
    else
      var n := |events| - 1;
      var e := events[n];
      TakenAt(rules, events[..n])
      + if e.Take? && Accepts(rules, Run(rules, INITIAL, events[..n]), e.entry, e.now, e.emitOk) then [n] else []
  }

  /** The buffer an entry is written to, once room has been made for it. */
  predicate WrittenToEmpty(rules: Rules, st: FileState, e: Entry) {
    PendingLines(st.buffer) == [] || MustRelease(rules, st.buffer.value, e.line)
  }

  /** The only lines not kept are empty ones accepted by a state with nothing buffered. */
  lemma NotKeptExactly(rules: Rules, st: FileState, e: Entry, now: nat, emitOk: bool)
    requires Accepts(rules, st, e, now, emitOk)
    ensures var st' := Accept(rules, st, e, now, emitOk);
            && |st'.log| == |st.log| + 1 && st'.log[..|st.log|] == st.log
            && st'.log[|st.log|].entry == e
            && (!st'.log[|st.log|].kept <==> rules.multiline && e.line == [] && WrittenToEmpty(rules, st, e))
  {
  }

  /** The entry of the k-th event is the i-th of the log, and is kept unless it is empty and nothing stood before it. */
  ghost predicate LoggedFrom(rules: Rules, events: seq<Event>, w: Written, k: nat)
    requires k < |events| && events[k].Take?
  {
    && w.entry == events[k].entry
    && (!w.kept
        <==> rules.multiline && w.entry.line == [] && WrittenToEmpty(rules, Run(rules, INITIAL, events[..k]), w.entry))
  }

  lemma LoggedFromPrefix(rules: Rules, events: seq<Event>, w: Written, k: nat)
    requires k < |events| - 1 && events[k].Take?
    ensures LoggedFrom(rules, events[..|events| - 1], w, k) <==> LoggedFrom(rules, events, w, k)
  {
    assert events[..|events| - 1][..k] == events[..k];
  }

  lemma RunStep(rules: Rules, events: seq<Event>)
    requires events != []
    ensures Run(rules, INITIAL, events)
            == Step(rules, Run(rules, INITIAL, events[..|events| - 1]), events[|events| - 1])
  {
    hide Step;
  }

  lemma StepLogs(rules: Rules, events: seq<Event>)
    requires events != []
    ensures var n := |events| - 1;
            var e, st, st' := events[n], Run(rules, INITIAL, events[..n]), Run(rules, INITIAL, events);
            if e.Take? && Accepts(rules, st, e.entry, e.now, e.emitOk)
            then
              && |st'.log| == |st.log| + 1 && st'.log[..|st.log|] == st.log
              && LoggedFrom(rules, events, st'.log[|st.log|], n)
            else st'.log == st.log
  {
    hide Append, Run, MustRelease, Split;
    var n := |events| - 1;
    RunStep(rules, events);
    var e, st := events[n], Run(rules, INITIAL, events[..n]);
    if e.Take? && Accepts(rules, st, e.entry, e.now, e.emitOk) {
      NotKeptExactly(rules, st, e.entry, e.now, e.emitOk);
    }
  }

  /**
   Over every run the log is the entries of the events that accepted their line, in order, and the only
   positions that are not kept are those of empty lines written to an empty buffer.
   */
  lemma {:induction false} LogExactly(rules: Rules, events: seq<Event>)
    ensures var log, at := Run(rules, INITIAL, events).log, TakenAt(rules, events);
            && |log| == |at|
            && (forall i | 0 <= i < |log| :: LoggedFrom(rules, events, log[i], at[i]))
            && (forall i, j | 0 <= i < j < |at| :: at[i] < at[j])
  {
    hide LoggedFrom, Accept, Accepts, Expire;
    if events != [] {
      var n := |events| - 1;
      var init, e := events[..n], events[n];
      LogExactly(rules, init);
      var st, at := Run(rules, INITIAL, init), TakenAt(rules, init);
      forall i | 0 <= i < |at|
        ensures LoggedFrom(rules, events, st.log[i], at[i])
      {
        LoggedFromPrefix(rules, events, st.log[i], at[i]);
      }
      StepLogs(rules, events);
    }
  }

  lemma NothingYetConserved(rules: Rules)
    ensures Conserved(INITIAL) && Lossless(rules, INITIAL)
  {
  }

  /**
   Conservation over every run, whatever the start predicate, limits, expiry times and failures; nothing
   but empty lines is missing, and in single-line mode the records are the accepted entries.
   */
  lemma {:induction false} RunConserves(rules: Rules, events: seq<Event>)
    requires forall i | 0 <= i < |events| :: ProperEvent(rules, events[i])
    ensures Conserved(Run(rules, INITIAL, events))
    ensures Lossless(rules, Run(rules, INITIAL, events))
  {
    hide Accept, Expire, Conserved;
    if events != [] {
      var init, last := events[..|events| - 1], events[|events| - 1];
      RunConserves(rules, init);
      var st := Run(rules, INITIAL, init);
      StepIsLossless(rules, st, last);
      match last
      case Take(e, now, ok) => AcceptConserves(rules, st, e, now, ok);
      case Tick(now, ok) => ExpireConserves(rules, st, now, ok);
    } else {
      NothingYetConserved(rules);
    }
  }

  /** The limits hold of the buffer and of every released record in every reachable state. */
  lemma {:induction false} RunWithinLimits(rules: Rules, events: seq<Event>)
    requires rules.multiline && Usable(rules)
    requires forall i | 0 <= i < |events| :: ProperEvent(rules, events[i])
    ensures WithinLimits(rules, Run(rules, INITIAL, events))
  {
    if events != [] {
      var init, last := events[..|events| - 1], events[|events| - 1];
      RunWithinLimits(rules, init);
      var st := Run(rules, INITIAL, init);
      if last.Take? {
        AcceptWithinLimits(rules, st, last.entry, last.now, last.emitOk);
      }
    }
  }
}
