/**
 Reading rounds over a growing file: which complete lines a round accepts, what it commits, and what a
 whole sequence of polls has accepted in the end.

 `fails(n)` says whether the n-th call of `emit` fails, `clock(i)` is the time at which a round accepts
 its i-th line.
 */
module Polling {
  import opened Wrappers
  import opened Lines
  import opened LineReader
  import Utf8
  import opened Multiline

  /** How a round ended, the bytes of the lines it accepted, and the state it left. */
  datatype Round = Round(ok: bool, consumed: nat, state: FileState, calls: nat)

  /** What is accepted for a raw line. */
  function EntryOf(rules: Rules, raw: Str): Entry {
    Shape(rules, Clean(raw, rules.maxLogSize))
  }

  function EntriesOfLines(rules: Rules, raw: seq<Str>): (entries: seq<Entry>)
    ensures |entries| == |raw|
  {
    seq(|raw|, i requires 0 <= i < |raw| => EntryOf(rules, raw[i]))
  }

  /** Whichever way a line ends, what is accepted is made of its text, cut to the maximal size in runes. */
  lemma EntryOfText(rules: Rules, text: Str)
    ensures EntryOf(rules, text + [13]) == Shape(rules, Utf8.TruncateRunes(text, rules.maxLogSize))
    ensures text == [] || text[|text| - 1] != 13 ==>
              EntryOf(rules, text) == Shape(rules, Utf8.TruncateRunes(text, rules.maxLogSize))
  {
    hide Shape, Clean, Utf8.TruncateRunes;
    CleanTakesOneCarriageReturn(text, rules.maxLogSize);
  }

  /** What is accepted for the complete lines of a piece of the file. */
  function AcceptedEntries(rules: Rules, data: Str): seq<Entry> {
    EntriesOfLines(rules, CompleteLines(data))
  }

  /** Calls of `emit` that releasing an awaited record takes. */
  function EmitCalls(rules: Rules, awaited: Option<Record>): nat {
    if awaited.Some? && !rules.dropped(awaited.value.body) then 1 else 0
  }

  /** Everything a round cannot influence. */
  datatype Source = Source(rules: Rules, clock: nat -> nat, fails: nat -> bool)

  /** What is left of a round: unread bytes, byte budget, lines accepted and calls of `emit` so far. */
  datatype Job = Job(rest: Str, state: FileState, budget: int, lines: nat, calls: nat)

  predicate Done(j: Job) {
    j.budget <= 0 || !HasLine(j.rest)
  }

  function HeadBytes(j: Job): (n: nat)
    requires !Done(j)
    ensures 0 < n <= |j.rest|
  {
    LineLength(j.rest) + 1
  }

  function HeadEntry(s: Source, j: Job): Entry
    requires !Done(j)
  {
    EntryOf(s.rules, j.rest[..LineLength(j.rest)])
  }

  predicate HeadAccepted(s: Source, j: Job)
    requires !Done(j)
  {
    Accepts(s.rules, j.state, HeadEntry(s, j), s.clock(j.lines), !s.fails(j.calls))
  }

  function HeadCalls(s: Source, j: Job): nat
    requires !Done(j)
  {
    j.calls + EmitCalls(s.rules, Awaited(s.rules, j.state, HeadEntry(s, j), s.clock(j.lines)))
  }

  /** The round after its next line has been accepted. */
  function Advanced(s: Source, j: Job): (next: Job)
    requires !Done(j)
    ensures next.rest == j.rest[HeadBytes(j)..]
    ensures next.budget == j.budget - HeadBytes(j)
  {
    Job(j.rest[HeadBytes(j)..],
        Accept(s.rules, j.state, HeadEntry(s, j), s.clock(j.lines), !s.fails(j.calls)),
        j.budget - HeadBytes(j), j.lines + 1, HeadCalls(s, j))
  }

  function Further(bytes: nat, r: Round): Round {
    r.(consumed := bytes + r.consumed)
  }

  /** One round, from the offset it starts at. */
  function ReadLines(s: Source, j: Job): (r: Round)
    ensures r.consumed <= |j.rest|
    decreases |j.rest|
  {
    if Done(j) then Round(true, 0, j.state, j.calls)
    else if !HeadAccepted(s, j) then Round(false, 0, j.state, HeadCalls(s, j))
    else Further(HeadBytes(j), ReadLines(s, Advanced(s, j)))
  }

  // ----- cutting behind a line

  /** `k` bytes behind the first line of `data`. */
  lemma CutBehindLine(data: Str, k: nat)
    requires HasLine(data) && LineLength(data) + 1 + k <= |data|
    ensures var n := LineLength(data) + 1;
            && LineLength(data[..n + k]) == n - 1 < |data[..n + k]|
            && data[..n + k][..n - 1] == data[..n - 1]
            && data[..n + k][n..] == data[n..][..k]
            && data[n + k..] == data[n..][k..]
            && (AtLineStart(data[n..][..k]) ==> AtLineStart(data[..n + k]))
  {
    var n := LineLength(data) + 1;
    LineHoldsNoLineFeed(data);
    assert data[..n + k][..n - 1] == data[..n - 1];
    LineLengthUnique(data[..n + k], n - 1);
    assert k > 0 ==> data[n..][..k][k - 1] == data[..n + k][n + k - 1];
  }

  lemma EntriesOfLinesOfOne(rules: Rules, raw: Str)
    ensures EntriesOfLines(rules, [raw]) == [EntryOf(rules, raw)]
  {
  }

  lemma EntriesOfLinesConcat(rules: Rules, a: seq<Str>, b: seq<Str>)
    ensures EntriesOfLines(rules, a + b) == EntriesOfLines(rules, a) + EntriesOfLines(rules, b)
  {
    hide EntryOf;
  }

  lemma AcceptedEntriesCons(rules: Rules, data: Str)
    requires HasLine(data)
    ensures var n := LineLength(data);
            AcceptedEntries(rules, data) == [EntryOf(rules, data[..n])] + AcceptedEntries(rules, data[n + 1..])
  {
    hide EntriesOfLines;
    var n := LineLength(data);
    EntriesOfLinesConcat(rules, [data[..n]], CompleteLines(data[n + 1..]));
    EntriesOfLinesOfOne(rules, data[..n]);
  }

  lemma AcceptedEntriesConcat(rules: Rules, a: Str, b: Str)
    requires AtLineStart(a)
    ensures AcceptedEntries(rules, a + b) == AcceptedEntries(rules, a) + AcceptedEntries(rules, b)
  {
    hide EntriesOfLines, CompleteLines;
    CompleteLinesConcat(a, b);
    EntriesOfLinesConcat(rules, CompleteLines(a), CompleteLines(b));
  }

  // ----- one round

  lemma HeadIsProper(s: Source, j: Job)
    requires !Done(j)
    ensures Proper(s.rules, HeadEntry(s, j))
  {
    var raw := j.rest[..LineLength(j.rest)];
    LineHoldsNoLineFeed(j.rest);
    CleanHoldsNoLineFeed(raw, s.rules.maxLogSize);
    ShapeIsProper(s.rules, Clean(raw, s.rules.maxLogSize));
  }

  lemma LogEntriesAdvanced(s: Source, j: Job)
    requires !Done(j) && HeadAccepted(s, j)
    ensures LogEntries(Advanced(s, j).state.log)
            == LogEntries(j.state.log) + [EntryOf(s.rules, j.rest[..HeadBytes(j) - 1])]
  {
    hide EntryOf;
    LogEntriesAfterAccept(s.rules, j.state, HeadEntry(s, j), s.clock(j.lines), !s.fails(j.calls));
  }

  /** The round accepted exactly the complete lines of the bytes it consumed, each once and in order. */
  ghost predicate Covers(s: Source, j: Job, r: Round)
    requires r.consumed <= |j.rest|
  {
    && AtLineStart(j.rest[..r.consumed])
    && LogEntries(r.state.log) == LogEntries(j.state.log) + AcceptedEntries(s.rules, j.rest[..r.consumed])
  }

  lemma CoversOneMore(s: Source, j: Job, r: Round)
    requires !Done(j) && HeadAccepted(s, j)
    requires r.consumed <= |j.rest| - HeadBytes(j) && Covers(s, Advanced(s, j), r)
    ensures Covers(s, j, Further(HeadBytes(j), r))
  {
    hide Advanced, HeadAccepted, EntryOf, LogEntries, AcceptedEntries, LineLength;
    LogEntriesAdvanced(s, j);
    CutBehindLine(j.rest, r.consumed);
    AcceptedEntriesCons(s.rules, j.rest[..HeadBytes(j) + r.consumed]);
  }

  lemma NothingAccepted(rules: Rules, data: Str, entries: seq<Entry>)
    ensures AtLineStart(data[..0])
    ensures entries == entries + AcceptedEntries(rules, data[..0])
  {
    assert CompleteLines([]) == [];
  }

  lemma CoversNothing(s: Source, j: Job, r: Round)
    requires r.consumed == 0 && r.state == j.state
    ensures Covers(s, j, r)
  {
    NothingAccepted(s.rules, j.rest, LogEntries(j.state.log));
  }

  lemma {:induction false} RoundAcceptsLines(s: Source, j: Job)
    ensures Covers(s, j, ReadLines(s, j))
    decreases |j.rest|
  {
    hide Advanced, HeadAccepted, HeadCalls, Covers, LineLength;
    if !Done(j) && HeadAccepted(s, j) {
      RoundAcceptsLines(s, Advanced(s, j));
      CoversOneMore(s, j, ReadLines(s, Advanced(s, j)));
    } else {
      CoversNothing(s, j, ReadLines(s, j));
    }
  }

  /** Rounds keep the conservation law, lose no line but empty ones, and keep the buffer limits. */
  ghost predicate Sound(rules: Rules, st: FileState) {
    && Conserved(st)
    && Lossless(rules, st)
    && (rules.multiline && Usable(rules) ==> WithinLimits(rules, st))
  }

  lemma AcceptIsSound(rules: Rules, st: FileState, e: Entry, now: nat, ok: bool)
    requires Sound(rules, st) && Proper(rules, e)
    ensures Sound(rules, Accept(rules, st, e, now, ok))
  {
    hide Accept, Conserved, WithinLimits;
    AcceptConserves(rules, st, e, now, ok);
    AcceptIsLossless(rules, st, e, now, ok);
    if rules.multiline && Usable(rules) {
      AcceptWithinLimits(rules, st, e, now, ok);
    }
  }

  lemma ExpireIsSound(rules: Rules, st: FileState, now: nat, ok: bool)
    requires Sound(rules, st)
    ensures Sound(rules, Expire(rules, st, now, ok))
    ensures Expire(rules, st, now, ok).log == st.log
  {
    hide Conserved, Lossless, BodyWithinLimits;
    ExpireConserves(rules, st, now, ok);
    ExpireIsLossless(rules, st, now, ok);
  }

  lemma AdvancedIsSound(s: Source, j: Job)
    requires !Done(j) && Sound(s.rules, j.state)
    ensures Sound(s.rules, Advanced(s, j).state)
  {
    hide Accept, Accepts, Sound, EntryOf;
    HeadIsProper(s, j);
    AcceptIsSound(s.rules, j.state, HeadEntry(s, j), s.clock(j.lines), !s.fails(j.calls));
  }

  lemma {:induction false} RoundIsSound(s: Source, j: Job)
    requires Sound(s.rules, j.state)
    ensures Sound(s.rules, ReadLines(s, j).state)
    decreases |j.rest|
  {
    hide Sound, Advanced, HeadAccepted;
    if !Done(j) && HeadAccepted(s, j) {
      AdvancedIsSound(s, j);
      RoundIsSound(s, Advanced(s, j));
    }
  }

  lemma RefusedHead(s: Source, j: Job)
    requires !Done(j) && !HeadAccepted(s, j)
    ensures HeadCalls(s, j) == j.calls + 1 && s.fails(j.calls)
  {
  }

  /** Cutting the unread bytes behind the next line does not change how that line is accepted. */
  lemma AdvancedOfCut(s: Source, j: Job, k: nat)
    requires !Done(j) && HeadBytes(j) + k <= |j.rest|
    ensures var cut := j.(rest := j.rest[..HeadBytes(j) + k]);
            && !Done(cut) && HeadBytes(cut) == HeadBytes(j) && HeadAccepted(s, cut) == HeadAccepted(s, j)
            && Advanced(s, cut) == Advanced(s, j).(rest := j.rest[HeadBytes(j)..][..k])
  {
    hide Accept, Accepts, Awaited, EntryOf;
    CutBehindLine(j.rest, k);
  }

  /** The round ended as if the file did before the line that `emit` refused. */
  ghost predicate StopsBefore(s: Source, j: Job, r: Round)
    requires r.consumed <= |j.rest|
  {
    && HasLine(j.rest[r.consumed..])
    && r.calls > 0 && s.fails(r.calls - 1)
    && ReadLines(s, j.(rest := j.rest[..r.consumed])) == Round(true, r.consumed, r.state, r.calls - 1)
  }

  lemma StopsBeforeOneMore(s: Source, j: Job, r: Round)
    requires !Done(j) && HeadAccepted(s, j)
    requires r.consumed <= |j.rest| - HeadBytes(j) && StopsBefore(s, Advanced(s, j), r)
    ensures StopsBefore(s, j, Further(HeadBytes(j), r))
  {
    hide Advanced, HeadAccepted, HeadCalls, LineLength;
    AdvancedOfCut(s, j, r.consumed);
    CutBehindLine(j.rest, r.consumed);
  }

  lemma StopsBeforeHead(s: Source, j: Job)
    requires !Done(j) && !HeadAccepted(s, j)
    ensures StopsBefore(s, j, Round(false, 0, j.state, HeadCalls(s, j)))
  {
    RefusedHead(s, j);
    assert j.rest[0..] == j.rest;
  }

  /**
   A failed round leaves buffer, released records and offset as if the file ended before the line whose
   acceptance failed.
   */
  lemma {:induction false} FailedRoundStopsBefore(s: Source, j: Job)
    requires !ReadLines(s, j).ok
    ensures StopsBefore(s, j, ReadLines(s, j))
    decreases |j.rest|
  {
    hide Advanced, HeadAccepted, HeadCalls, StopsBefore, LineLength;
    if HeadAccepted(s, j) {
      FailedRoundStopsBefore(s, Advanced(s, j));
      StopsBeforeOneMore(s, j, ReadLines(s, Advanced(s, j)));
    } else {
      StopsBeforeHead(s, j);
    }
  }

  /** Bytes of the complete lines. */
  function CompleteBytes(data: Str): (n: nat)
    ensures n <= |data|
    decreases |data|
  {
    var n := LineLength(data);
    if n == |data| then 0 else n + 1 + CompleteBytes(data[n + 1..])
  }

  lemma CompleteBytesStep(data: Str)
    requires HasLine(data)
    ensures CompleteBytes(data) == LineLength(data) + 1 + CompleteBytes(data[LineLength(data) + 1..])
  {
    hide LineLength;
  }

  lemma CompleteBytesZero(data: Str)
    ensures CompleteBytes(data) == 0 <==> !HasLine(data)
  {
  }

  /** What the round did not read is left, and only a failure leaves budget and complete lines. */
  ghost predicate Progressed(j: Job, r: Round)
    requires r.consumed <= |j.rest|
  {
    && CompleteBytes(j.rest) == r.consumed + CompleteBytes(j.rest[r.consumed..])
    && (r.ok ==> r.consumed >= j.budget || CompleteBytes(j.rest[r.consumed..]) == 0)
  }

  lemma ProgressedOneMore(s: Source, j: Job, r: Round)
    requires !Done(j)
    requires r.consumed <= |j.rest| - HeadBytes(j) && Progressed(Advanced(s, j), r)
    ensures Progressed(j, Further(HeadBytes(j), r))
  {
    hide Advanced, LineLength, CompleteBytes;
    CutBehindLine(j.rest, r.consumed);
    CompleteBytesStep(j.rest);
  }

  /** Unless a call of `emit` failed, a round reads its whole budget or every complete line. */
  lemma {:induction false} RoundProgress(s: Source, j: Job)
    ensures Progressed(j, ReadLines(s, j))
    decreases |j.rest|
  {
    hide Advanced, HeadAccepted, HeadCalls, LineLength, CompleteBytes;
    if !Done(j) && HeadAccepted(s, j) {
      RoundProgress(s, Advanced(s, j));
      ProgressedOneMore(s, j, ReadLines(s, Advanced(s, j)));
    } else {
      assert j.rest[0..] == j.rest;
      CompleteBytesZero(j.rest);
    }
  }

  /** A round reads less than its budget plus one line: its last line starts inside the budget. */
  lemma {:induction false} RoundStaysNearBudget(s: Source, j: Job) returns (last: nat)
    requires ReadLines(s, j).consumed > 0
    ensures last < j.budget && last <= |j.rest| && HasLine(j.rest[last..])
    ensures ReadLines(s, j).consumed == last + LineLength(j.rest[last..]) + 1
    decreases |j.rest|
  {
    hide Advanced, HeadAccepted, HeadCalls;
    hide LineLength;
    var next := Advanced(s, j);
    if ReadLines(s, next).consumed == 0 {
      assert j.rest[0..] == j.rest;
      return 0;
    }
    var k := RoundStaysNearBudget(s, next);
    last := HeadBytes(j) + k;
    assert j.rest[last..] == next.rest[k..];
  }

  // ----- polls

  /**
   A file as one poll finds it: what can be read, the size `stat` reported just before (the file may have
   grown or been cut since), and when the flush ran.
   */
  datatype Poll = Poll(content: Str, size: nat, clock: nat -> nat, flushAt: nat)

  datatype World = World(offset: Option<nat>, state: FileState, calls: nat)

  datatype Tailing = Tailing(rules: Rules, startAtEnd: bool, maxReadBytes: nat, fails: nat -> bool)

  /** Where a round starts: the stored offset, unless the file has become shorter than that. */
  function StartOffset(startAtEnd: bool, offset: Option<nat>, size: nat): nat {
    var start := if offset.None? && startAtEnd then size else offset.GetOr(0);
    if start > size then 0 else start
  }

  /** What a reader finds behind an offset; nothing behind the end. */
  function Unread(content: Str, start: nat): (rest: Str)
    ensures |rest| <= |content|
  {
    if start <= |content| then content[start..] else []
  }

  function SourceOf(t: Tailing, p: Poll): Source {
    Source(t.rules, p.clock, t.fails)
  }

  function JobOf(t: Tailing, w: World, p: Poll): Job
  {
    Job(Unread(p.content, StartOffset(t.startAtEnd, w.offset, p.size)), w.state, t.maxReadBytes, 0, w.calls)
  }

  function PollRound(t: Tailing, w: World, p: Poll): Round
  {
    ReadLines(SourceOf(t, p), JobOf(t, w, p))
  }

  /** The stored offset changes only when the committed one differs from it; a missing one counts as 0. */
  function Stored(offset: Option<nat>, committed: nat): Option<nat> {
    if committed != offset.GetOr(0) then Some(committed) else offset
  }

  function FlushCalls(rules: Rules, st: FileState, now: nat): nat {
    EmitCalls(rules, if Expired(rules, st, now) then Some(Record(st.buffer.value.body, st.buffer.value.meta)) else None)
  }

  /** A read round followed by the flush of an expired buffer. */
  function PollStep(t: Tailing, w: World, p: Poll): World
  {
    var r := PollRound(t, w, p);
    World(Stored(w.offset, StartOffset(t.startAtEnd, w.offset, p.size) + r.consumed),
          Expire(t.rules, r.state, p.flushAt, !t.fails(r.calls)),
          r.calls + FlushCalls(t.rules, r.state, p.flushAt))
  }

  /** The file only grows: every poll sees at least what the polls before it saw. */
  ghost predicate Growing(start: nat, polls: seq<Poll>) {
    && (forall i | 0 <= i < |polls| :: start <= polls[i].size && start <= |polls[i].content|)
    && (forall i | 1 <= i < |polls| ::
          polls[i - 1].content <= polls[i].content && |polls[i - 1].content| <= polls[i].size)
  }

  function Polls(t: Tailing, w: World, polls: seq<Poll>): World
  {
    if polls == [] then w else PollStep(t, Polls(t, w, polls[..|polls| - 1]), polls[|polls| - 1])
  }

  /** A world in which reading starts at `start` and nothing was accepted yet. */
  ghost predicate Fresh(t: Tailing, start: nat, w: World) {
    w.state == INITIAL && (w.offset == Some(start) || (w.offset == None && start == 0 && !t.startAtEnd))
  }

  /** Everything between `start` and the offset was accepted, once and in order, and nothing else was. */
  ghost predicate UpTo(t: Tailing, start: nat, content: Str, w: World) {
    var pos := w.offset.GetOr(0);
    && start <= pos <= |content|
    && (w.offset.None? ==> start == 0 && !t.startAtEnd)
    && AtLineStart(content[start..pos])
    && LogEntries(w.state.log) == AcceptedEntries(t.rules, content[start..pos])
    && Sound(t.rules, w.state)
  }

  lemma AcceptedEntriesExtend(rules: Rules, content: Str, start: nat, pos: nat, k: nat)
    requires start <= pos && pos + k <= |content|
    requires AtLineStart(content[start..pos]) && AtLineStart(content[pos..][..k])
    ensures AtLineStart(content[start..pos + k])
    ensures AcceptedEntries(rules, content[start..pos + k])
            == AcceptedEntries(rules, content[start..pos]) + AcceptedEntries(rules, content[pos..][..k])
  {
    hide AcceptedEntries;
    var a, b := content[start..pos], content[pos..][..k];
    assert content[start..pos + k] == a + b;
    AcceptedEntriesConcat(rules, a, b);
  }

  lemma PollStepAdvances(t: Tailing, start: nat, before: Str, w: World, p: Poll)
    requires UpTo(t, start, before, w)
    requires before <= p.content && |before| <= p.size
    ensures UpTo(t, start, p.content, PollStep(t, w, p))
  {
    hide ReadLines, Sound, Expire, AcceptedEntries, LogEntries, FlushCalls;
    var c := p.content;
    var pos := w.offset.GetOr(0);
    var r := PollRound(t, w, p);
    RoundAcceptsLines(SourceOf(t, p), JobOf(t, w, p));
    RoundIsSound(SourceOf(t, p), JobOf(t, w, p));
    ExpireIsSound(t.rules, r.state, p.flushAt, !t.fails(r.calls));
    assert before[start..pos] == c[start..pos];
    AcceptedEntriesExtend(t.rules, c, start, pos, r.consumed);
  }

  // ----- calls of `emit`

  /** How many records were handed to `emit`. */
  function Handed(out: seq<Output>): nat {
    if out == [] then 0 else Handed(out[..|out| - 1]) + if out[|out| - 1].dropped then 0 else 1
  }

  lemma HandedSnoc(out: seq<Output>, o: Output)
    ensures Handed(out + [o]) == Handed(out) + if o.dropped then 0 else 1
  {
    assert (out + [o])[..|out|] == out;
  }

  lemma AcceptCalls(rules: Rules, st: FileState, e: Entry, now: nat, ok: bool)
    ensures EmitCalls(rules, Awaited(rules, st, e, now)) + Handed(st.out)
            == Handed(Accept(rules, st, e, now, ok).out) + if Accepts(rules, st, e, now, ok) then 0 else 1
  {
    hide MustRelease, Append, Handed;
    var awaited := Awaited(rules, st, e, now);
    if awaited.Some? {
      HandedSnoc(st.out, AsOutput(rules, awaited.value));
    }
  }

  lemma RefusedKeepsState(rules: Rules, st: FileState, e: Entry, now: nat, ok: bool)
    ensures !Accepts(rules, st, e, now, ok) ==> Accept(rules, st, e, now, ok) == st
  {
  }

  lemma HeadCallsExactly(s: Source, j: Job)
    requires !Done(j)
    ensures HeadCalls(s, j) + Handed(j.state.out)
            == j.calls + if HeadAccepted(s, j) then Handed(Advanced(s, j).state.out) else Handed(j.state.out) + 1
  {
    hide Accept, Accepts, Awaited, EntryOf, EmitCalls, Handed, LineLength;
    var e := HeadEntry(s, j);
    AcceptCalls(s.rules, j.state, e, s.clock(j.lines), !s.fails(j.calls));
    RefusedKeepsState(s.rules, j.state, e, s.clock(j.lines), !s.fails(j.calls));
  }

  lemma {:induction false} RoundCalls(s: Source, j: Job)
    ensures var r := ReadLines(s, j);
            r.calls + Handed(j.state.out) == j.calls + Handed(r.state.out) + if r.ok then 0 else 1
    decreases |j.rest|
  {
    hide HeadAccepted, Handed, HeadEntry;
    if !Done(j) {
      HeadCallsExactly(s, j);
      if HeadAccepted(s, j) {
        RoundCalls(s, Advanced(s, j));
      }
    }
  }

  /**
   `emit` is called once for every record that leaves with a level that is not dropped and once for every
   refusal: of the line that ends a round, and of an expired buffer, which then stays.
   */
  lemma PollCalls(t: Tailing, w: World, p: Poll)
    ensures var r, w' := PollRound(t, w, p), PollStep(t, w, p);
            w'.calls + Handed(w.state.out)
            == w.calls + Handed(w'.state.out) + (if r.ok then 0 else 1)
               + if Expired(t.rules, r.state, p.flushAt) && w'.state.buffer.Some? then 1 else 0
  {
    hide ReadLines, Handed;
    var r := PollRound(t, w, p);
    RoundCalls(SourceOf(t, p), JobOf(t, w, p));
    if Expired(t.rules, r.state, p.flushAt) {
      HandedSnoc(r.state.out, AsOutput(t.rules, Record(r.state.buffer.value.body, r.state.buffer.value.meta)));
    }
  }

  /** Where a poll reads from. */
  ghost predicate ReadsFrom(t: Tailing, w: World, p: Poll, from: nat) {
    match w.offset
    case None => from == if t.startAtEnd then p.size else 0
    case Some(o) => from == if o > p.size then 0 else o
  }

  lemma LogKeptByExpire(rules: Rules, st: FileState, now: nat, ok: bool)
    ensures Expire(rules, st, now, ok).log == st.log
  {
  }

  /** Behind the end of what can be read there is nothing. */
  lemma PollBehindEnd(t: Tailing, w: World, p: Poll, from: nat)
    requires ReadsFrom(t, w, p, from) && from > |p.content|
    ensures var w' := PollStep(t, w, p);
            w'.offset.GetOr(0) == from && w'.state.log == w.state.log
  {
  }

  /**
   Whatever was read before, a poll accepts exactly the complete lines between the offset it reads from and
   the one that counts afterwards: the stored offset, the end of the file at its first sight, or its
   beginning, as for a file that has become shorter than the stored offset.
   */
  lemma PollAcceptsFrom(t: Tailing, w: World, p: Poll, from: nat)
    requires ReadsFrom(t, w, p, from) && from <= |p.content|
    ensures var w' := PollStep(t, w, p);
            var to := w'.offset.GetOr(0);
            && from <= to <= |p.content|
            && AtLineStart(p.content[from..to])
            && LogEntries(w'.state.log) == LogEntries(w.state.log) + AcceptedEntries(t.rules, p.content[from..to])
  {
    hide ReadLines, Expire, AcceptedEntries, LogEntries, FlushCalls;
    var r := PollRound(t, w, p);
    RoundAcceptsLines(SourceOf(t, p), JobOf(t, w, p));
    LogKeptByExpire(t.rules, r.state, p.flushAt, !t.fails(r.calls));
    assert p.content[from..][..r.consumed] == p.content[from..from + r.consumed];
  }

  lemma OffsetStays(t: Tailing, w: World, p: Poll)
    requires w.offset.Some?
    ensures PollStep(t, w, p).offset.Some?
  {
  }

  /** A file that was cut and rewritten is read from its beginning. */
  lemma TruncatedFileIsReadFromStart(t: Tailing, w: World, p: Poll)
    requires w.offset.Some? && p.size < w.offset.value
    ensures var w' := PollStep(t, w, p);
            && w'.offset.Some? && w'.offset.value <= |p.content|
            && AtLineStart(p.content[..w'.offset.value])
            && LogEntries(w'.state.log)
               == LogEntries(w.state.log) + AcceptedEntries(t.rules, p.content[..w'.offset.value])
  {
    hide PollStep, AcceptedEntries, LogEntries;
    PollAcceptsFrom(t, w, p, 0);
    OffsetStays(t, w, p);
    assert p.content[0..PollStep(t, w, p).offset.value] == p.content[..PollStep(t, w, p).offset.value];
  }

  lemma NothingYet(t: Tailing, start: nat, w: World, content: Str)
    requires Fresh(t, start, w) && start <= |content|
    ensures UpTo(t, start, content[..start], w)
  {
    assert content[..start][start..start] == [];
    assert CompleteLines([]) == [];
  }

  /**
   Over any sequence of polls of a growing file, with `emit` failing at arbitrary calls, the accepted
   lines are exactly the complete lines between the start and the committed offset; released records
   and the buffer hold them in order.
   */
  lemma {:induction false} PollsAcceptEachLineOnce(t: Tailing, start: nat, w: World, polls: seq<Poll>)
    requires polls != [] && Growing(start, polls) && Fresh(t, start, w)
    ensures UpTo(t, start, polls[|polls| - 1].content, Polls(t, w, polls))
  {
    var n := |polls| - 1;
    var init := polls[..n];
    if n == 0 {
      NothingYet(t, start, w, polls[0].content);
      PollStepAdvances(t, start, polls[0].content[..start], w, polls[0]);
    } else {
      PollsAcceptEachLineOnce(t, start, w, init);
      assert polls[n - 1].content <= polls[n].content;
      PollStepAdvances(t, start, init[n - 1].content, Polls(t, w, init), polls[n]);
    }
  }

  /** In single-line mode the records are the complete lines of the file, one for each. */
  lemma SingleLineRecords(t: Tailing, start: nat, content: Str, w: World)
    requires !t.rules.multiline && UpTo(t, start, content, w)
    ensures w.state.out == OutputsOf(t.rules, AcceptedEntries(t.rules, content[start..w.offset.GetOr(0)]))
  {
  }

  /**
   In multiline mode the offset is stored while its last lines are only buffered. Every line that is not
   empty is in a released body or in the pending one, in order; the released bodies hold all of them
   exactly when nothing is pending.
   */
  lemma ReleasedButPending(t: Tailing, start: nat, content: Str, w: World)
    requires t.rules.multiline && UpTo(t, start, content, w)
    ensures var released, pending := ReleasedLines(w.state.out), PendingLines(w.state.buffer);
            var accepted := LinesOf(AcceptedEntries(t.rules, content[start..w.offset.GetOr(0)]));
            && NonEmpty(released + pending) == NonEmpty(accepted)
            && (NonEmpty(released) == NonEmpty(accepted) <==> w.state.buffer.None? || w.state.buffer.value.body == [])
  {
    hide AcceptedEntries, Split, LogEntries, AtLineStart, WithinLimits;
    var released, pending := ReleasedLines(w.state.out), PendingLines(w.state.buffer);
    KeptLinesAreNonEmptyLines(w.state.log);
    NonEmptyConcat(released, pending);
    if pending != [] {
      SplitHasText(w.state.buffer.value.body);
    }
  }

  /** No call of `emit` makes any of the rounds fail. */
  ghost predicate Unhindered(t: Tailing, w: World, polls: seq<Poll>) {
    polls == []
    || (var n := |polls| - 1;
        Unhindered(t, w, polls[..n]) && PollRound(t, Polls(t, w, polls[..n]), polls[n]).ok)
  }

  /** The file as the last poll saw it. */
  function LastContent(before: Str, polls: seq<Poll>): Str {
    if polls == [] then before else polls[|polls| - 1].content
  }

  /** The file goes on growing from what it was. */
  ghost predicate GrowingFrom(before: Str, polls: seq<Poll>) {
    polls == []
    || (var init, last := polls[..|polls| - 1], polls[|polls| - 1];
        && GrowingFrom(before, init)
        && LastContent(before, init) <= last.content && |LastContent(before, init)| <= last.size)
  }

  /** A line of the file ends just before this offset. */
  ghost predicate LineEnd(content: Str, mark: nat) {
    0 < mark <= |content| && content[mark - 1] == LF
  }

  /** A round without a failure passes a line end or advances by its whole budget. */
  lemma PollCatchesUp(t: Tailing, start: nat, before: Str, w: World, p: Poll, mark: nat)
    requires UpTo(t, start, before, w) && LineEnd(before, mark)
    requires before <= p.content && |before| <= p.size
    requires PollRound(t, w, p).ok
    ensures var pos, pos' := w.offset.GetOr(0), PollStep(t, w, p).offset.GetOr(0);
            pos' >= mark || pos' >= pos + t.maxReadBytes
  {
    hide ReadLines, Sound, Expire, AcceptedEntries, LogEntries, FlushCalls, CompleteBytes;
    var c := p.content;
    var pos := w.offset.GetOr(0);
    var r := PollRound(t, w, p);
    RoundProgress(SourceOf(t, p), JobOf(t, w, p));
    var rest := c[pos..][r.consumed..];
    CompleteBytesZero(rest);
    NoLineFeed(rest);
    if pos + r.consumed < mark {
      assert rest[mark - 1 - pos - r.consumed] == c[mark - 1] == LF;
    }
  }

  lemma OffsetNeverFalls(t: Tailing, start: nat, before: Str, w: World, p: Poll)
    requires UpTo(t, start, before, w)
    requires before <= p.content && |before| <= p.size
    ensures PollStep(t, w, p).offset.GetOr(0) >= w.offset.GetOr(0)
  {
    hide ReadLines, Sound, Expire, AcceptedEntries, LogEntries, FlushCalls;
  }

  /**
   Catching up with a file that goes on growing: after n failure-free rounds every line that was complete
   at the start is behind the offset, or the offset has advanced by n budgets.
   */
  lemma {:induction false} RoundsCatchUp(t: Tailing, start: nat, before: Str, w: World, polls: seq<Poll>, mark: nat)
    requires UpTo(t, start, before, w) && LineEnd(before, mark)
    requires GrowingFrom(before, polls) && Unhindered(t, w, polls)
    ensures UpTo(t, start, LastContent(before, polls), Polls(t, w, polls)) && LineEnd(LastContent(before, polls), mark)
    ensures var pos, pos' := w.offset.GetOr(0), Polls(t, w, polls).offset.GetOr(0);
            pos' >= mark || pos' >= pos + |polls| * t.maxReadBytes
    decreases |polls|
  {
    hide UpTo, PollStep, PollRound;
    if polls != [] {
      var n := |polls| - 1;
      var seen, v := LastContent(before, polls[..n]), Polls(t, w, polls[..n]);
      RoundsCatchUp(t, start, before, w, polls[..n], mark);
      PollStepAdvances(t, start, seen, v, polls[n]);
      PollCatchesUp(t, start, seen, v, polls[n], mark);
      OffsetNeverFalls(t, start, seen, v, polls[n]);
      assert |polls| * t.maxReadBytes == n * t.maxReadBytes + t.maxReadBytes;
    }
  }

  lemma {:induction false} CompleteBytesEndALine(data: Str)
    requires CompleteBytes(data) > 0
    ensures data[CompleteBytes(data) - 1] == LF
    decreases |data|
  {
    hide LineLength;
    var rest := data[LineLength(data) + 1..];
    if CompleteBytes(rest) > 0 {
      CompleteBytesEndALine(rest);
    }
  }

  lemma {:induction false} OffsetsNeverFall(t: Tailing, start: nat, before: Str, w: World, polls: seq<Poll>)
    requires UpTo(t, start, before, w) && GrowingFrom(before, polls)
    ensures UpTo(t, start, LastContent(before, polls), Polls(t, w, polls))
    ensures Polls(t, w, polls).offset.GetOr(0) >= w.offset.GetOr(0)
    decreases |polls|
  {
    hide UpTo, PollStep;
    if polls != [] {
      var n := |polls| - 1;
      OffsetsNeverFall(t, start, before, w, polls[..n]);
      PollStepAdvances(t, start, LastContent(before, polls[..n]), Polls(t, w, polls[..n]), polls[n]);
      OffsetNeverFalls(t, start, LastContent(before, polls[..n]), Polls(t, w, polls[..n]), polls[n]);
    }
  }

  /** So B bytes of complete lines are accepted after n failure-free rounds once n budgets reach B. */
  lemma BacklogIsAccepted(t: Tailing, start: nat, before: Str, w: World, polls: seq<Poll>)
    requires UpTo(t, start, before, w) && GrowingFrom(before, polls) && Unhindered(t, w, polls)
    requires CompleteBytes(before[w.offset.GetOr(0)..]) <= |polls| * t.maxReadBytes
    ensures UpTo(t, start, LastContent(before, polls), Polls(t, w, polls))
    ensures Polls(t, w, polls).offset.GetOr(0) >= w.offset.GetOr(0) + CompleteBytes(before[w.offset.GetOr(0)..])
  {
    hide Polls, Unhindered, GrowingFrom, LastContent, CompleteBytes, Sound, AcceptedEntries, LogEntries, AtLineStart;
    var pos := w.offset.GetOr(0);
    var bytes := CompleteBytes(before[pos..]);
    if bytes > 0 {
      CompleteBytesEndALine(before[pos..]);
      assert before[pos..][bytes - 1] == before[pos + bytes - 1];
      RoundsCatchUp(t, start, before, w, polls, pos + bytes);
    } else {
      OffsetsNeverFall(t, start, before, w, polls);
    }
  }

  // ----- starting at the end of an empty file

  lemma ConsumesNothing(s: Source, j: Job)
    ensures ReadLines(s, j).consumed == 0 <==> Done(j) || !HeadAccepted(s, j)
  {
    hide HeadAccepted, Advanced, HeadCalls;
  }

  /**
   With `start_at = end` a first poll stores a position exactly when the file was not empty, or something
   was appended after `stat` and its first line was accepted; otherwise the next poll starts at the end again.
   */
  lemma StartAtEndStores(t: Tailing, w: World, p: Poll)
    requires t.startAtEnd && w.offset == None
    ensures PollStep(t, w, p).offset.Some?
            <==> p.size > 0
                 || (t.maxReadBytes > 0 && HasLine(p.content) && HeadAccepted(SourceOf(t, p), JobOf(t, w, p)))
  {
    hide ReadLines, HeadAccepted, Expire, LineLength, FlushCalls;
    if p.size == 0 {
      assert p.content[0..] == p.content;
      ConsumesNothing(SourceOf(t, p), JobOf(t, w, p));
    }
  }

  /** So everything appended between the first two polls of an empty file is skipped. */
  lemma StartAtEndOfEmptyFileSkips(t: Tailing, first: Poll, second: Poll)
    requires t.startAtEnd && first.content == [] && first.size == 0
    requires second.size == |second.content|
    ensures var w := PollStep(t, World(None, INITIAL, 0), first);
            && w.offset == None
            && PollStep(t, w, second).state == INITIAL
            && (second.size > 0 ==> PollStep(t, w, second).offset == Some(second.size))
  {
    assert second.content[|second.content|..] == [];
  }
}
