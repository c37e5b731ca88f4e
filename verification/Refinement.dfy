/**
 What tailing a file amounts to: split it at line feeds, clean and cut every line, group the lines, emit
 each group once. Polls are runs of the events of `Multiline`, so what holds of every run holds of them.
 */
module Refinement {
  import opened Lines
  import opened Multiline
  import opened LineGroups
  import opened Polling

  lemma {:induction false} RunConcat(rules: Rules, st: FileState, a: seq<Event>, b: seq<Event>)
    ensures Run(rules, st, a + b) == Run(rules, Run(rules, st, a), b)
  {
    hide Step;
    if b == [] {
      assert a + b == a;
    } else {
      assert (a + b)[..|a + b| - 1] == a + b[..|b| - 1];
      RunConcat(rules, st, a, b[..|b| - 1]);
    }
  }

  lemma RunOfOne(rules: Rules, st: FileState, e: Event)
    ensures Run(rules, st, [e]) == Step(rules, st, e)
  {
    hide Step;
    assert [e][..0] == [];
    assert Run(rules, st, [e][..0]) == st;
  }

  /** The lines a round tries to accept: all it accepts, and the one `emit` refuses. */
  function RoundEvents(s: Source, j: Job): seq<Event>
    decreases |j.rest|
  {
    if Done(j) then []
    else
      [Take(HeadEntry(s, j), s.clock(j.lines), !s.fails(j.calls))]
      + if HeadAccepted(s, j) then RoundEvents(s, Advanced(s, j)) else []
  }

  lemma HeadIsStep(s: Source, j: Job)
    requires !Done(j)
    ensures Run(s.rules, j.state, [Take(HeadEntry(s, j), s.clock(j.lines), !s.fails(j.calls))])
            == if HeadAccepted(s, j) then Advanced(s, j).state else j.state
  {
    hide EntryOf;
    RunOfOne(s.rules, j.state, Take(HeadEntry(s, j), s.clock(j.lines), !s.fails(j.calls)));
  }

  lemma RunOfNone(rules: Rules, st: FileState)
    ensures Run(rules, st, []) == st
  {
  }

  lemma {:induction false} RoundIsRun(s: Source, j: Job)
    ensures Run(s.rules, j.state, RoundEvents(s, j)) == ReadLines(s, j).state
    decreases |j.rest|
  {
    hide Advanced, HeadAccepted, HeadCalls, HeadEntry, Run;
    if !Done(j) {
      var first := [Take(HeadEntry(s, j), s.clock(j.lines), !s.fails(j.calls))];
      HeadIsStep(s, j);
      if HeadAccepted(s, j) {
        RoundIsRun(s, Advanced(s, j));
        RunConcat(s.rules, j.state, first, RoundEvents(s, Advanced(s, j)));
      } else {
        assert first + [] == first;
      }
    } else {
      RunOfNone(s.rules, j.state);
    }
  }

  /** A poll is the events of its round and the flush behind it. */
  function PollEvents(t: Tailing, w: World, p: Poll): seq<Event> {
    RoundEvents(SourceOf(t, p), JobOf(t, w, p)) + [Tick(p.flushAt, !t.fails(PollRound(t, w, p).calls))]
  }

  function EventsOfPolls(t: Tailing, w: World, polls: seq<Poll>): seq<Event> {
    if polls == [] then []
    else
      var n := |polls| - 1;
      EventsOfPolls(t, w, polls[..n]) + PollEvents(t, Polls(t, w, polls[..n]), polls[n])
  }

  lemma PollIsRun(t: Tailing, w: World, p: Poll)
    ensures Run(t.rules, w.state, PollEvents(t, w, p)) == PollStep(t, w, p).state
  {
    hide ReadLines, RoundEvents, Run, Expire;
    var tick := Tick(p.flushAt, !t.fails(PollRound(t, w, p).calls));
    RoundIsRun(SourceOf(t, p), JobOf(t, w, p));
    RunConcat(t.rules, w.state, RoundEvents(SourceOf(t, p), JobOf(t, w, p)), [tick]);
    RunOfOne(t.rules, PollRound(t, w, p).state, tick);
  }

  lemma {:induction false} PollsAreRun(t: Tailing, w: World, polls: seq<Poll>)
    ensures Run(t.rules, w.state, EventsOfPolls(t, w, polls)) == Polls(t, w, polls).state
  {
    hide PollStep, PollEvents, Run;
    if polls == [] {
      RunOfNone(t.rules, w.state);
    } else {
      var n := |polls| - 1;
      PollsAreRun(t, w, polls[..n]);
      PollIsRun(t, Polls(t, w, polls[..n]), polls[n]);
      RunConcat(t.rules, w.state, EventsOfPolls(t, w, polls[..n]), PollEvents(t, Polls(t, w, polls[..n]), polls[n]));
    }
  }

  /** The cleaned and shaped lines of the file between two offsets. */
  function FileEntries(t: Tailing, content: Str, from: nat, to: nat): seq<Entry>
    requires from <= to <= |content|
  {
    AcceptedEntries(t.rules, content[from..to])
  }

  /**
   End to end, in multiline mode: over any polls of a growing file, with `emit` failing at arbitrary calls
   and buffers expiring at arbitrary times, the segments hold exactly the complete lines between the start
   and the stored offset, split, cleaned and cut; the records released are their groups, once and in order,
   and the last group is in the buffer.
   */
  lemma PollsComputeGroups(t: Tailing, start: nat, w: World, polls: seq<Poll>)
    requires t.rules.multiline && polls != [] && Growing(start, polls) && Fresh(t, start, w)
    ensures var content, w' := polls[|polls| - 1].content, Polls(t, w, polls);
            var segments := Segments(t.rules, EventsOfPolls(t, w, polls));
            && start <= w'.offset.GetOr(0) <= |content|
            && Concat(segments) == FileEntries(t, content, start, w'.offset.GetOr(0))
            && HoldsSegments(t.rules, w'.state, segments)
  {
    hide AcceptedEntries, Sound, Polls, Segments, HoldsSegments, EventsOfPolls, Growing;
    var events := EventsOfPolls(t, w, polls);
    PollsAcceptEachLineOnce(t, start, w, polls);
    PollsAreRun(t, w, polls);
    SegmentsAreLog(t.rules, events);
    BufferComputesGroups(t.rules, events);
  }

  /** End to end, in single-line mode: one record for each of those lines, in order, and nothing else. */
  lemma PollsEmitEachLine(t: Tailing, start: nat, w: World, polls: seq<Poll>)
    requires !t.rules.multiline && polls != [] && Growing(start, polls) && Fresh(t, start, w)
    ensures var content, w' := polls[|polls| - 1].content, Polls(t, w, polls);
            && start <= w'.offset.GetOr(0) <= |content|
            && w'.state.out == OutputsOf(t.rules, FileEntries(t, content, start, w'.offset.GetOr(0)))
  {
    hide AcceptedEntries, Sound, Polls, Growing;
    PollsAcceptEachLineOnce(t, start, w, polls);
    SingleLineRecords(t, start, polls[|polls| - 1].content, Polls(t, w, polls));
  }

  // ----- across graceful stops

  /** What a series of sessions handed over or dropped by level, and what the next one starts from. */
  datatype Trail = Trail(world: World, out: seq<Output>)

  /** Each session is a series of polls and a successful stop, and the next one starts from the saved offset. */
  function AfterSessions(t: Tailing, w: World, sessions: seq<seq<Poll>>): Trail {
    if sessions == [] then Trail(w, [])
    else
      var n := |sessions| - 1;
      var before := AfterSessions(t, w, sessions[..n]);
      var w' := Polls(t, before.world, sessions[n]);
      Trail(w'.(state := INITIAL), before.out + Shut(t.rules, w'.state, true).out)
  }

  function SeenBy(before: Str, sessions: seq<seq<Poll>>): Str {
    if sessions == [] then before
    else LastContent(SeenBy(before, sessions[..|sessions| - 1]), sessions[|sessions| - 1])
  }

  ghost predicate GrowingThrough(before: Str, sessions: seq<seq<Poll>>) {
    sessions == []
    || (var n := |sessions| - 1;
        GrowingThrough(before, sessions[..n]) && GrowingFrom(SeenBy(before, sessions[..n]), sessions[n]))
  }

  /** All text up to the offset is in a released body, in order, and the collector holds nothing back. */
  ghost predicate AllOut(t: Tailing, start: nat, content: Str, trail: Trail) {
    var pos := trail.world.offset.GetOr(0);
    && start <= pos <= |content|
    && (trail.world.offset.None? ==> start == 0 && !t.startAtEnd)
    && trail.world.state == INITIAL
    && AtLineStart(content[start..pos])
    && NonEmpty(ReleasedLines(trail.out)) == NonEmpty(LinesOf(AcceptedEntries(t.rules, content[start..pos])))
    && (!t.rules.multiline ==> trail.out == OutputsOf(t.rules, AcceptedEntries(t.rules, content[start..pos])))
  }

  lemma NothingReleased()
    ensures ReleasedLines([]) == []
  {
  }

  lemma {:induction false} ReleasedLinesConcat(a: seq<Output>, b: seq<Output>)
    ensures ReleasedLines(a + b) == ReleasedLines(a) + ReleasedLines(b)
  {
    hide ReleasedLines, Split;
    if b == [] {
      assert a + b == a;
      NothingReleased();
    } else {
      var init, last := b[..|b| - 1], b[|b| - 1];
      assert b == init + [last] && a + b == (a + init) + [last];
      ReleasedLinesConcat(a, init);
      ReleasedLinesSnoc(init, last);
      ReleasedLinesSnoc(a + init, last);
    }
  }

  lemma LinesOfConcat(a: seq<Entry>, b: seq<Entry>)
    ensures LinesOf(a + b) == LinesOf(a) + LinesOf(b)
  {
  }

  lemma OutputsOfConcat(rules: Rules, a: seq<Entry>, b: seq<Entry>)
    ensures OutputsOf(rules, a + b) == OutputsOf(rules, a) + OutputsOf(rules, b)
  {
  }

  /** A session starts where the one before stored its offset. */
  lemma SessionStarts(t: Tailing, start: nat, content: Str, trail: Trail)
    requires AllOut(t, start, content, trail)
    ensures UpTo(t, trail.world.offset.GetOr(0), content, trail.world)
  {
    hide OutputsOf, NonEmpty, ReleasedLines;
    var pos := trail.world.offset.GetOr(0);
    assert content[pos..pos] == [];
    NothingYet(t, pos, trail.world, content);
    assert content[..pos][pos..pos] == [];
  }

  /** A successful stop hands over all text the session accepted. */
  lemma StopReleases(t: Tailing, from: nat, content: Str, w: World)
    requires UpTo(t, from, content, w)
    ensures var accepted := AcceptedEntries(t.rules, content[from..w.offset.GetOr(0)]);
            var out := Shut(t.rules, w.state, true).out;
            && NonEmpty(ReleasedLines(out)) == NonEmpty(LinesOf(accepted))
            && (!t.rules.multiline ==> out == OutputsOf(t.rules, accepted))
  {
    hide AcceptedEntries, OutputsOf, WithinLimits;
    ShutConserves(t.rules, w.state, true);
    KeptLinesAreNonEmptyLines(w.state.log);
  }

  lemma SessionKeepsAllOut(t: Tailing, start: nat, content: Str, trail: Trail, polls: seq<Poll>)
    requires AllOut(t, start, content, trail) && GrowingFrom(content, polls) && content <= LastContent(content, polls)
    ensures var w := Polls(t, trail.world, polls);
            AllOut(t, start, LastContent(content, polls),
                   Trail(w.(state := INITIAL), trail.out + Shut(t.rules, w.state, true).out))
  {
    hide AcceptedEntries, OutputsOf, Sound, Polls, NonEmpty, ReleasedLines, LinesOf, Shut, GrowingFrom, LastContent;
    var pos := trail.world.offset.GetOr(0);
    var seen, w := LastContent(content, polls), Polls(t, trail.world, polls);
    var pos' := w.offset.GetOr(0);
    SessionStarts(t, start, content, trail);
    OffsetsNeverFall(t, pos, content, trail.world, polls);
    StopReleases(t, pos, seen, w);
    var out := Shut(t.rules, w.state, true).out;
    assert content[start..pos] == seen[start..pos];
    assert seen[pos..][..pos' - pos] == seen[pos..pos'];
    AcceptedEntriesExtend(t.rules, seen, start, pos, pos' - pos);
    var a, b := AcceptedEntries(t.rules, seen[start..pos]), AcceptedEntries(t.rules, seen[pos..pos']);
    ReleasedLinesConcat(trail.out, out);
    LinesOfConcat(a, b);
    OutputsOfConcat(t.rules, a, b);
    NonEmptyConcat(ReleasedLines(trail.out), ReleasedLines(out));
    NonEmptyConcat(LinesOf(a), LinesOf(b));
  }

  lemma {:induction false} ContentGrows(before: Str, polls: seq<Poll>)
    requires GrowingFrom(before, polls)
    ensures before <= LastContent(before, polls)
  {
    if polls != [] {
      ContentGrows(before, polls[..|polls| - 1]);
    }
  }

  lemma NothingOutYet(t: Tailing, start: nat, before: Str, w: World)
    requires Fresh(t, start, w) && start <= |before|
    ensures AllOut(t, start, before, Trail(w, []))
  {
    assert before[start..start] == [];
    assert CompleteLines([]) == [];
    assert AcceptedEntries(t.rules, []) == [];
  }

  /**
   Over any number of sessions that end in a successful stop, reading a growing file with failures and
   expiry in between: every line with text before the stored offset is in a released body, once and in
   order, and in single-line mode the output is one record for each line.
   */
  lemma {:induction false} SessionsReleaseEverything(t: Tailing, start: nat, before: Str, w: World,
                                                     sessions: seq<seq<Poll>>)
    requires Fresh(t, start, w) && start <= |before| && GrowingThrough(before, sessions)
    ensures AllOut(t, start, SeenBy(before, sessions), AfterSessions(t, w, sessions))
  {
    hide AllOut, GrowingFrom, Polls, Fresh;
    if sessions == [] {
      NothingOutYet(t, start, before, w);
    } else {
      var n := |sessions| - 1;
      SessionsReleaseEverything(t, start, before, w, sessions[..n]);
      ContentGrows(SeenBy(before, sessions[..n]), sessions[n]);
      SessionKeepsAllOut(t, start, SeenBy(before, sessions[..n]), AfterSessions(t, w, sessions[..n]), sessions[n]);
    }
  }
}
