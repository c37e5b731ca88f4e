/**
 A reference definition of multiline grouping that mentions no buffer: cut the entries into longest
 groups that fit. The multiline buffer computes exactly these groups.
 */
module LineGroups {
  import opened Wrappers
  import opened Lines
  import opened Multiline

  /** Leading empty lines contribute nothing to a record. */
  function Content(group: seq<Entry>): (content: seq<Entry>)
    ensures content == [] || content[0].line != []
    ensures |content| <= |group|
  {
    if group == [] || group[0].line != [] then group else Content(group[1..])
  }

  function Body(group: seq<Entry>): Str {
    var content := Content(group);
    if content == [] then [] else Join(LinesOf(content))
  }

  /** Can the group be one record? A record of a single line is never refused. */
  ghost predicate Fits(rules: Rules, group: seq<Entry>) {
    var content := Content(group);
    |content| <= 1
    || (&& |group| <= rules.maxLines
        && |Body(group)| <= rules.maxBodySize
        && forall i | 1 <= i < |content| :: !rules.isStart(content[i].line))
  }

  ghost function LongestFit(rules: Rules, entries: seq<Entry>, n: nat): (m: nat)
    requires 1 <= n <= |entries|
    ensures n <= m <= |entries|
    decreases |entries| - n
  {
    if n < |entries| && Fits(rules, entries[..n + 1]) then LongestFit(rules, entries, n + 1) else n
  }

  ghost function Groups(rules: Rules, entries: seq<Entry>): (groups: seq<seq<Entry>>)
    ensures entries != [] ==> groups != []
    decreases |entries|
  {
    if entries == [] then [] else
      var n := LongestFit(rules, entries, 1);
      [entries[..n]] + Groups(rules, entries[n..])
  }

  // ----- Fits is closed under prefixes, so a longest fit is a maximal one

  lemma {:induction false} ContentSnoc(group: seq<Entry>, e: Entry)
    ensures Content(group + [e]) == if Content(group) == [] && e.line == [] then [] else Content(group) + [e]
  {
    if group != [] && group[0].line == [] {
      assert (group + [e])[1..] == group[1..] + [e];
      ContentSnoc(group[1..], e);
    } else if group == [] {
      assert [e][1..] == [];
    }
  }

  lemma BodySnoc(group: seq<Entry>, e: Entry)
    ensures Body(group + [e]) == if Content(group) == [] then e.line else Body(group) + [LF] + e.line
  {
    ContentSnoc(group, e);
    var content := Content(group);
    if content != [] {
      JoinConcat(LinesOf(content), [e.line]);
      assert LinesOf(content + [e]) == LinesOf(content) + [e.line];
    }
  }

  lemma BodyIsEmpty(group: seq<Entry>)
    ensures Body(group) == [] <==> Content(group) == []
  {
  }

  /** One more entry fits exactly when the buffer would not have to be released for it. */
  lemma FitsSnoc(rules: Rules, group: seq<Entry>, e: Entry)
    requires Fits(rules, group)
    ensures Fits(rules, group + [e])
            <==> Body(group) == []
                 || (&& !rules.isStart(e.line)
                     && |Body(group)| + |e.line| + 1 <= rules.maxBodySize
                     && |group| < rules.maxLines)
  {
    ContentSnoc(group, e);
    BodySnoc(group, e);
    BodyIsEmpty(group);
    var content := Content(group);
    if content != [] {
      assert (content + [e])[|content|] == e;
      if Fits(rules, group + [e]) {
        assert !rules.isStart((content + [e])[|content|].line);
      }
    }
  }

  lemma FitsPrefix(rules: Rules, group: seq<Entry>, e: Entry)
    requires Fits(rules, group + [e])
    ensures Fits(rules, group)
  {
    ContentSnoc(group, e);
    BodySnoc(group, e);
    var content := Content(group);
    if |content| > 1 {
      assert forall i | 1 <= i < |content| :: content[i] == (content + [e])[i];
    }
  }

  /** No prefix longer than the longest fit can be one record. */
  lemma {:induction false} LongestFitIsMaximal(rules: Rules, entries: seq<Entry>, n: nat, k: nat)
    requires 1 <= n <= |entries| && LongestFit(rules, entries, n) < k <= |entries|
    ensures !Fits(rules, entries[..k])
    decreases |entries| - n, k
  {
    hide Fits;
    var m := LongestFit(rules, entries, n);
    if m > n {
      LongestFitIsMaximal(rules, entries, n + 1, k);
    } else if k > n + 1 {
      LongestFitIsMaximal(rules, entries, n, k - 1);
      if Fits(rules, entries[..k]) {
        assert entries[..k] == entries[..k - 1] + [entries[k - 1]];
        FitsPrefix(rules, entries[..k - 1], entries[k - 1]);
      }
    }
  }

  // ----- adding an entry at the end

  lemma {:induction false} LongestFitSnoc(rules: Rules, entries: seq<Entry>, e: Entry, n: nat)
    requires 1 <= n <= |entries|
    ensures LongestFit(rules, entries + [e], n)
            == if LongestFit(rules, entries, n) < |entries| then LongestFit(rules, entries, n)
               else if Fits(rules, entries + [e]) then |entries| + 1 else |entries|
    decreases |entries| - n
  {
    if n < |entries| {
      assert (entries + [e])[..n + 1] == entries[..n + 1];
      LongestFitSnoc(rules, entries, e, n + 1);
    } else {
      assert (entries + [e])[..n + 1] == entries + [e];
    }
  }

  ghost function AddToLast(rules: Rules, groups: seq<seq<Entry>>, e: Entry): seq<seq<Entry>>
    requires groups != []
  {
    var last := |groups| - 1;
    if Fits(rules, groups[last] + [e]) then groups[..last] + [groups[last] + [e]] else groups + [[e]]
  }

  /** Only the last of several groups changes. */
  lemma AddToLastOfMore(rules: Rules, before: seq<seq<Entry>>, groups: seq<seq<Entry>>, e: Entry)
    requires groups != []
    ensures AddToLast(rules, before + groups, e) == before + AddToLast(rules, groups, e)
  {
    hide Fits;
    var last := |groups| - 1;
    assert (before + groups)[..|before| + last] == before + groups[..last];
  }

  lemma GroupsOfOne(rules: Rules, e: Entry)
    ensures Groups(rules, [e]) == [[e]]
  {
    assert [e][..1] == [e] && [e][1..] == [];
  }

  lemma {:induction false} GroupsSnoc(rules: Rules, entries: seq<Entry>, e: Entry)
    requires entries != []
    ensures Groups(rules, entries + [e]) == AddToLast(rules, Groups(rules, entries), e)
    decreases |entries|
  {
    hide Fits, LongestFit;
    var n := LongestFit(rules, entries, 1);
    var all := entries + [e];
    LongestFitSnoc(rules, entries, e, 1);
    if n < |entries| {
      var rest := entries[n..];
      assert all[..n] == entries[..n];
      assert all[n..] == rest + [e];
      GroupsSnoc(rules, rest, e);
      AddToLastOfMore(rules, [entries[..n]], Groups(rules, rest), e);
    } else {
      assert entries[..n] == entries && entries[n..] == [];
      if Fits(rules, all) {
        assert all[..n + 1] == all && all[n + 1..] == [];
      } else {
        assert all[..n] == entries && all[n..] == [e];
        GroupsOfOne(rules, e);
      }
    }
  }

  lemma {:induction false} LongestFits(rules: Rules, entries: seq<Entry>, n: nat)
    requires 1 <= n <= |entries|
    requires n == 1 || Fits(rules, entries[..n])
    ensures Fits(rules, entries[..LongestFit(rules, entries, n)])
    decreases |entries| - n
  {
    if n < |entries| && Fits(rules, entries[..n + 1]) {
      LongestFits(rules, entries, n + 1);
    }
  }

  lemma {:induction false} GroupsFit(rules: Rules, entries: seq<Entry>)
    ensures forall i | 0 <= i < |Groups(rules, entries)| :: Fits(rules, Groups(rules, entries)[i])
    decreases |entries|
  {
    if entries != [] {
      var n := LongestFit(rules, entries, 1);
      LongestFits(rules, entries, 1);
      GroupsFit(rules, entries[n..]);
    }
  }

  // ----- segments: what is accepted between two flushes

  function WithEntry(segments: seq<seq<Entry>>, e: Entry): (more: seq<seq<Entry>>)
    requires segments != []
    ensures more != []
  {
    var last := |segments| - 1;
    segments[..last] + [segments[last] + [e]]
  }

  /** Does the event flush an expired buffer? */
  predicate Flushes(rules: Rules, st: FileState, e: Event) {
    && e.Tick?
    && Expired(rules, st, e.now)
    && Released(rules, Record(st.buffer.value.body, st.buffer.value.meta), e.emitOk)
  }

  /** The accepted entries of a run, cut where the buffer was flushed; the last segment is still open. */
  function Segments(rules: Rules, events: seq<Event>): (segments: seq<seq<Entry>>)
    ensures segments != []
  {
    if events == [] then [[]]
    else
      var n := |events| - 1;
      var before, st, e := Segments(rules, events[..n]), Run(rules, INITIAL, events[..n]), events[n];
      if e.Take? && Accepts(rules, st, e.entry, e.now, e.emitOk) then WithEntry(before, e.entry)
      else if Flushes(rules, st, e) then before + [[]]
      else before
  }

  function Concat(segments: seq<seq<Entry>>): seq<Entry> {
    if segments == [] then [] else Concat(segments[..|segments| - 1]) + segments[|segments| - 1]
  }

  lemma ConcatSnoc(segments: seq<seq<Entry>>, segment: seq<Entry>)
    ensures Concat(segments + [segment]) == Concat(segments) + segment
  {
    assert (segments + [segment])[..|segments|] == segments;
  }

  lemma NothingConcatenated()
    ensures Concat([[]]) == LogEntries([])
  {
    var none: seq<seq<Entry>> := [];
    assert none + [[]] == [[]];
    ConcatSnoc(none, []);
  }

  lemma ConcatWithEntry(segments: seq<seq<Entry>>, e: Entry)
    requires segments != []
    ensures Concat(WithEntry(segments, e)) == Concat(segments) + [e]
  {
    hide Concat;
    var last := |segments| - 1;
    assert segments == segments[..last] + [segments[last]];
    ConcatSnoc(segments[..last], segments[last]);
    ConcatSnoc(segments[..last], segments[last] + [e]);
  }

  /** Nothing but the accepted entries is in the segments, each once and in order. */
  lemma {:induction false} SegmentsAreLog(rules: Rules, events: seq<Event>)
    ensures Concat(Segments(rules, events)) == LogEntries(Run(rules, INITIAL, events).log)
  {
    hide Step, Accepts, Flushes, LogEntries, Concat;
    if events == [] {
      NothingConcatenated();
    } else {
      var n := |events| - 1;
      var before, st, e := Segments(rules, events[..n]), Run(rules, INITIAL, events[..n]), events[n];
      SegmentsAreLog(rules, events[..n]);
      LogEntriesAfterStep(rules, st, e);
      ConcatSnoc(before, []);
      assert Concat(before) + [] == Concat(before);
      if e.Take? && Accepts(rules, st, e.entry, e.now, e.emitOk) {
        ConcatWithEntry(before, e.entry);
      }
    }
  }

  ghost function GroupsOfAll(rules: Rules, segments: seq<seq<Entry>>): seq<seq<Entry>> {
    if segments == [] then []
    else GroupsOfAll(rules, segments[..|segments| - 1]) + Groups(rules, segments[|segments| - 1])
  }

  // ----- the buffer computes the groups

  /** The record a group becomes: its body, and the metadata of its first non-empty line. */
  ghost predicate IsRecordOf(r: Record, group: seq<Entry>) {
    Content(group) != [] && r.body == Body(group) && r.meta == Content(group)[0].meta
  }

  /** The record was released, and handed to `emit` unless its level is dropped. */
  ghost predicate IsOutputOf(rules: Rules, o: Output, group: seq<Entry>) {
    o.dropped == rules.dropped(o.record.body) && IsRecordOf(o.record, group)
  }

  ghost predicate BufferHolds(b: Buffer, group: seq<Entry>) {
    && b.body == Body(group) && b.size == |b.body| && b.lines == |group|
    && (b.body != [] ==> IsRecordOf(Record(b.body, b.meta), group))
  }

  ghost predicate Holds(rules: Rules, st: FileState, groups: seq<seq<Entry>>)
    requires groups != []
  {
    var last := |groups| - 1;
    && |st.out| == last
    && (forall i | 0 <= i < last :: IsOutputOf(rules, st.out[i], groups[i]))
    && st.buffer.Some? && BufferHolds(st.buffer.value, groups[last])
  }

  /** Every group was released as one record, in order. */
  ghost predicate AllReleased(rules: Rules, out: seq<Output>, groups: seq<seq<Entry>>) {
    |out| == |groups| && forall i | 0 <= i < |groups| :: IsOutputOf(rules, out[i], groups[i])
  }

  /**
   The released records are the groups of the segments in order; the last group of an open segment is in
   the buffer, and nothing is buffered when nothing was accepted since the last flush.
   */
  ghost predicate HoldsSegments(rules: Rules, st: FileState, segments: seq<seq<Entry>>)
    requires segments != []
  {
    var groups := GroupsOfAll(rules, segments);
    if segments[|segments| - 1] == [] then st.buffer.None? && AllReleased(rules, st.out, groups)
    else groups != [] && Holds(rules, st, groups)
  }

  lemma NothingSegmented(rules: Rules)
    ensures HoldsSegments(rules, INITIAL, [[]])
  {
    assert GroupsOfAll(rules, [[]]) == GroupsOfAll(rules, []) + Groups(rules, []);
  }

  lemma RefusedKeeps(rules: Rules, st: FileState, e: Event)
    requires e.Take? && !Accepts(rules, st, e.entry, e.now, e.emitOk)
    ensures Accept(rules, st, e.entry, e.now, e.emitOk) == st && !Flushes(rules, st, e)
  {
  }

  lemma GroupsOfAllSnoc(rules: Rules, segments: seq<seq<Entry>>, segment: seq<Entry>)
    ensures GroupsOfAll(rules, segments + [segment]) == GroupsOfAll(rules, segments) + Groups(rules, segment)
  {
    hide Groups;
    assert (segments + [segment])[..|segments|] == segments;
  }

  lemma GroupsOfNothing(rules: Rules)
    ensures Groups(rules, []) == []
  {
  }

  /** An accepted entry joins the last group or opens one. */
  lemma GroupsWithEntry(rules: Rules, segments: seq<seq<Entry>>, e: Entry)
    requires segments != []
    ensures var groups, more := GroupsOfAll(rules, segments), GroupsOfAll(rules, WithEntry(segments, e));
            if segments[|segments| - 1] == [] then more == groups + [[e]]
            else groups != [] && more == AddToLast(rules, groups, e) && Fits(rules, groups[|groups| - 1])
  {
    hide Groups, AddToLast, GroupsOfAll, Fits;
    var last := |segments| - 1;
    var before, open := segments[..last], segments[last];
    assert segments == before + [open];
    GroupsOfAllSnoc(rules, before, open);
    GroupsOfAllSnoc(rules, before, open + [e]);
    if open == [] {
      assert open + [e] == [e];
      GroupsOfOne(rules, e);
      GroupsOfNothing(rules);
    } else {
      GroupsSnoc(rules, open, e);
      GroupsFit(rules, open);
      AddToLastOfMore(rules, GroupsOfAll(rules, before), Groups(rules, open), e);
    }
  }

  lemma BufferOfOne(b: Buffer, e: Entry, now: nat)
    requires b.body == [] && b.size == 0 && b.lines == 0
    ensures BufferHolds(Append(b, e, now), [e])
  {
    assert [e][1..] == [];
    assert Content([e]) == if e.line == [] then [] else [e];
  }

  lemma FirstOfSegment(rules: Rules, st: FileState, groups: seq<seq<Entry>>, e: Entry, now: nat, emitOk: bool)
    requires rules.multiline && st.buffer.None? && AllReleased(rules, st.out, groups)
    ensures Holds(rules, Accept(rules, st, e, now, emitOk), groups + [[e]])
  {
    hide IsRecordOf, Append, BufferHolds;
    BufferOfOne(EmptyBuffer(now), e, now);
  }

  /** An acceptance has the same effect whichever way its record was released. */
  lemma AcceptedAsReleased(rules: Rules, st: FileState, e: Entry, now: nat, emitOk: bool)
    requires Accepts(rules, st, e, now, emitOk)
    ensures Accept(rules, st, e, now, emitOk) == Accept(rules, st, e, now, true)
  {
  }

  lemma BufferOfMore(b: Buffer, group: seq<Entry>, e: Entry, now: nat)
    requires BufferHolds(b, group)
    ensures BufferHolds(Append(b, e, now), group + [e])
  {
    ContentSnoc(group, e);
    BodySnoc(group, e);
    BodyIsEmpty(group);
    BodyIsEmpty(group + [e]);
  }

  lemma HoldsRelease(rules: Rules, st: FileState, groups: seq<seq<Entry>>, released: Output, st': FileState)
    requires groups != [] && Holds(rules, st, groups)
    requires IsOutputOf(rules, released, groups[|groups| - 1])
    requires st'.out == st.out + [released] && st'.buffer.Some?
    ensures forall group :: BufferHolds(st'.buffer.value, group) ==> Holds(rules, st', groups + [group])
  {
  }

  lemma NextEntry(rules: Rules, st: FileState, groups: seq<seq<Entry>>, e: Entry, now: nat)
    requires rules.multiline && groups != [] && Holds(rules, st, groups)
    requires Fits(rules, groups[|groups| - 1])
    ensures Holds(rules, Accept(rules, st, e, now, true), AddToLast(rules, groups, e))
  {
    var group := groups[|groups| - 1];
    var b := st.buffer.value;
    FitsSnoc(rules, group, e);
    if MustRelease(rules, b, e.line) {
      BufferOfOne(Cleared(b), e, now);
      var st' := Accept(rules, st, e, now, true);
      var released := AsOutput(rules, Record(b.body, b.meta));
      assert st' == FileState(Some(Append(Cleared(b), e, now)), st.out + [released], st'.log);
      HoldsRelease(rules, st, groups, released, st');
    } else {
      BufferOfMore(b, group, e, now);
    }
  }

  lemma TakeKeepsSegments(rules: Rules, st: FileState, segments: seq<seq<Entry>>, e: Entry, now: nat, emitOk: bool)
    requires rules.multiline && segments != [] && HoldsSegments(rules, st, segments)
    requires Accepts(rules, st, e, now, emitOk)
    ensures HoldsSegments(rules, Accept(rules, st, e, now, emitOk), WithEntry(segments, e))
  {
    hide GroupsOfAll, Fits, AddToLast, MustRelease, Append, BufferHolds, IsRecordOf;
    var groups := GroupsOfAll(rules, segments);
    GroupsWithEntry(rules, segments, e);
    if segments[|segments| - 1] == [] {
      FirstOfSegment(rules, st, groups, e, now, emitOk);
    } else {
      AcceptedAsReleased(rules, st, e, now, emitOk);
      NextEntry(rules, st, groups, e, now);
    }
  }

  lemma TickKeepsSegments(rules: Rules, st: FileState, segments: seq<seq<Entry>>, e: Event)
    requires segments != [] && HoldsSegments(rules, st, segments) && e.Tick?
    ensures HoldsSegments(rules, Expire(rules, st, e.now, e.emitOk),
                          if Flushes(rules, st, e) then segments + [[]] else segments)
  {
    hide Groups, GroupsOfAll, IsRecordOf, Body;
    if Flushes(rules, st, e) {
      GroupsOfAllSnoc(rules, segments, []);
      GroupsOfNothing(rules);
      assert GroupsOfAll(rules, segments) + [] == GroupsOfAll(rules, segments);
    }
  }

  /**
   Whatever `emit` refuses and whenever buffers expire, the records released are the longest groups that
   fit of the accepted entries, a flush being the only other cut, and the buffer holds the last group.
   */
  lemma {:induction false} BufferComputesGroups(rules: Rules, events: seq<Event>)
    requires rules.multiline
    ensures HoldsSegments(rules, Run(rules, INITIAL, events), Segments(rules, events))
  {
    hide HoldsSegments, Accept, Accepts, Expire, Flushes, GroupsOfAll, Groups;
    if events == [] {
      NothingSegmented(rules);
    } else {
      var n := |events| - 1;
      var segments, st, e := Segments(rules, events[..n]), Run(rules, INITIAL, events[..n]), events[n];
      BufferComputesGroups(rules, events[..n]);
      if e.Tick? {
        TickKeepsSegments(rules, st, segments, e);
      } else if Accepts(rules, st, e.entry, e.now, e.emitOk) {
        TakeKeepsSegments(rules, st, segments, e.entry, e.now, e.emitOk);
      } else {
        RefusedKeeps(rules, st, e);
      }
    }
  }

  /** The groups with text: all but a last one of empty lines only. */
  ghost function Due(rules: Rules, segments: seq<seq<Entry>>): seq<seq<Entry>>
    requires segments != []
  {
    var groups := GroupsOfAll(rules, segments);
    if segments[|segments| - 1] != [] && groups != [] && Body(groups[|groups| - 1]) == [] then groups[..|groups| - 1]
    else groups
  }

  lemma LastGroup(rules: Rules, st: FileState, groups: seq<seq<Entry>>)
    requires groups != [] && Holds(rules, st, groups)
    ensures var b := st.buffer.value;
            && (b.body == [] <==> Body(groups[|groups| - 1]) == [])
            && (b.body != [] ==> IsRecordOf(Record(b.body, b.meta), groups[|groups| - 1]))
  {
  }

  /** After a graceful stop every group with text is one record, exactly when `emit` took what was pending. */
  lemma ShutReleasesGroups(rules: Rules, st: FileState, segments: seq<seq<Entry>>, emitOk: bool)
    requires segments != [] && HoldsSegments(rules, st, segments)
    ensures AllReleased(rules, Shut(rules, st, emitOk).out, Due(rules, segments))
            <==> (st.buffer.None? || st.buffer.value.body == []
                  || Released(rules, Record(st.buffer.value.body, st.buffer.value.meta), emitOk))
  {
    hide GroupsOfAll, Body, IsRecordOf;
    if segments[|segments| - 1] != [] {
      LastGroup(rules, st, GroupsOfAll(rules, segments));
    }
  }

  // ----- the cuts, without the buffer

  /** When the last line of a run was accepted. */
  function LastAccepted(rules: Rules, events: seq<Event>): nat {
    var at := TakenAt(rules, events);
    if at == [] then 0 else events[at[|at| - 1]].now
  }

  lemma AgeAfterStep(rules: Rules, st: FileState, e: Event)
    requires rules.multiline
    ensures var b := Step(rules, st, e).buffer;
            if e.Take? && Accepts(rules, st, e.entry, e.now, e.emitOk) then b.Some? && b.value.updated == e.now
            else b == None || b == st.buffer
  {
    hide MustRelease, Released;
  }

  lemma LastAcceptedAfter(rules: Rules, events: seq<Event>)
    requires events != []
    ensures var n := |events| - 1;
            var e := events[n];
            LastAccepted(rules, events)
            == if e.Take? && Accepts(rules, Run(rules, INITIAL, events[..n]), e.entry, e.now, e.emitOk) then e.now
               else LastAccepted(rules, events[..n])
  {
    hide Accepts, Run;
    var n := |events| - 1;
    var at := TakenAt(rules, events[..n]);
    assert at + [] == at;
  }

  lemma {:induction false} BufferIsAsOldAsLastLine(rules: Rules, events: seq<Event>)
    requires rules.multiline
    ensures Run(rules, INITIAL, events).buffer.Some? ==>
              Run(rules, INITIAL, events).buffer.value.updated == LastAccepted(rules, events)
  {
    hide Step, Accepts;
    if events != [] {
      var n := |events| - 1;
      BufferIsAsOldAsLastLine(rules, events[..n]);
      AgeAfterStep(rules, Run(rules, INITIAL, events[..n]), events[n]);
      LastAcceptedAfter(rules, events);
    }
  }

  lemma LastGroupFits(rules: Rules, segments: seq<seq<Entry>>)
    requires segments != [] && segments[|segments| - 1] != []
    ensures var groups := GroupsOfAll(rules, segments); groups != [] && Fits(rules, groups[|groups| - 1])
  {
    hide Groups, Fits;
    GroupsFit(rules, segments[|segments| - 1]);
  }

  /** A line is accepted exactly when it opens a segment, fits the last group, or `emit` takes that group. */
  lemma AcceptedExactly(rules: Rules, events: seq<Event>, e: Entry, now: nat, emitOk: bool)
    requires rules.multiline
    ensures var segments := Segments(rules, events);
            var groups := GroupsOfAll(rules, segments);
            Accepts(rules, Run(rules, INITIAL, events), e, now, emitOk)
            <==> segments[|segments| - 1] == [] || groups == [] || Fits(rules, groups[|groups| - 1] + [e])
                 || rules.dropped(Body(groups[|groups| - 1])) || emitOk
  {
    hide GroupsOfAll, Segments, Run, Fits, Body;
    BufferComputesGroups(rules, events);
    var segments, st := Segments(rules, events), Run(rules, INITIAL, events);
    var groups := GroupsOfAll(rules, segments);
    if segments[|segments| - 1] != [] {
      LastGroupFits(rules, segments);
      FitsSnoc(rules, groups[|groups| - 1], e);
    }
  }

  /**
   A tick flushes exactly when the last group of the open segment has text, no line was accepted for the
   flush interval, and `emit` takes the group or its level is dropped.
   */
  lemma FlushedExactly(rules: Rules, events: seq<Event>, now: nat, emitOk: bool)
    requires rules.multiline
    ensures var segments := Segments(rules, events);
            var groups := GroupsOfAll(rules, segments);
            Flushes(rules, Run(rules, INITIAL, events), Tick(now, emitOk))
            <==> && segments[|segments| - 1] != [] && groups != [] && Body(groups[|groups| - 1]) != []
                 && now - LastAccepted(rules, events)
                    >= (if rules.flushAfter <= 0 then 5_000_000_000 else rules.flushAfter)
                 && (rules.dropped(Body(groups[|groups| - 1])) || emitOk)
  {
    hide GroupsOfAll, Segments, Run, Body, LastAccepted;
    BufferComputesGroups(rules, events);
    BufferIsAsOldAsLastLine(rules, events);
  }
}
