/**
 Workers carrying out whole polls: however the steps of the files interleave, each file ends up in the
 state that its own polls, taken one after the other, would leave it in.
 */
module WorkerRounds {
  import opened Wrappers
  import opened Lines
  import opened Multiline
  import opened LineGroups
  import opened Polling
  import opened PositionStore
  import opened Refinement
  import opened Tailers
  import opened Workers

  function AloneFrom(rules: Rules, v: View, actions: seq<Action>): View {
    if actions == [] then v else Alone(rules, AloneFrom(rules, v, actions[..|actions| - 1]), actions[|actions| - 1])
  }

  lemma {:induction false} AloneFromStart(rules: Rules, actions: seq<Action>)
    ensures AllAlone(rules, actions) == AloneFrom(rules, View(Free, INITIAL), actions)
  {
    hide Alone;
    if actions != [] {
      AloneFromStart(rules, actions[..|actions| - 1]);
    }
  }

  lemma {:induction false} AloneConcat(rules: Rules, v: View, a: seq<Action>, b: seq<Action>)
    ensures AloneFrom(rules, v, a + b) == AloneFrom(rules, AloneFrom(rules, v, a), b)
  {
    hide Alone;
    if b == [] {
      assert a + b == a;
    } else {
      assert (a + b)[..|a + b| - 1] == a + b[..|b| - 1];
      AloneConcat(rules, v, a, b[..|b| - 1]);
    }
  }

  lemma AloneOne(rules: Rules, v: View, a: Action, rest: seq<Action>)
    ensures AloneFrom(rules, v, [a] + rest) == AloneFrom(rules, Alone(rules, v, a), rest)
    ensures AloneFrom(rules, Alone(rules, v, a), []) == Alone(rules, v, a)
  {
    hide Alone;
    AloneConcat(rules, v, [a], rest);
    assert [a][..0] == [];
    assert AloneFrom(rules, v, [a][..0]) == v;
  }

  /** The steps of a worker that offers one line. */
  function LineActions(rules: Rules, key: Identity, st: FileState, e: Entry, now: nat, emitOk: bool): seq<Action> {
    var awaited := Awaited(rules, st, e, now);
    [Begin(key, e, now)]
    + if awaited.None? then []
      else [Hand(key, emitOk)] + if Released(rules, awaited.value, emitOk) then [Action.Write(key, now)] else []
  }

  lemma BegunAlone(rules: Rules, key: Identity, st: FileState, e: Entry, now: nat)
    ensures Alone(rules, View(Free, st), Begin(key, e, now))
            == match Awaited(rules, st, e, now)
               case None => View(Free, Accept(rules, st, e, now, true))
               case Some(r) => View(Handing(e, r), st)
  {
    hide MustRelease, Append;
  }

  lemma HandedAlone(rules: Rules, key: Identity, st: FileState, e: Entry, now: nat, emitOk: bool, r: Record)
    requires Awaited(rules, st, e, now) == Some(r)
    ensures var handed := Alone(rules, View(Handing(e, r), st), Hand(key, emitOk));
            if !Released(rules, r, emitOk)
            then handed == View(Free, st) == View(Free, Accept(rules, st, e, now, emitOk))
            else Alone(rules, handed, Action.Write(key, now)) == View(Free, Accept(rules, st, e, now, emitOk))
  {
    hide MustRelease, Append, Released, AsOutput;
  }

  lemma AcceptedUnasked(rules: Rules, st: FileState, e: Entry, now: nat, emitOk: bool)
    requires Awaited(rules, st, e, now).None?
    ensures Accept(rules, st, e, now, emitOk) == Accept(rules, st, e, now, true)
  {
  }

  /** They add up to its acceptance, or to nothing. */
  lemma LineAlone(rules: Rules, key: Identity, st: FileState, e: Entry, now: nat, emitOk: bool)
    ensures AloneFrom(rules, View(Free, st), LineActions(rules, key, st, e, now, emitOk))
            == View(Free, Accept(rules, st, e, now, emitOk))
  {
    hide Accept, Awaited, Alone, Released, AloneFrom;
    var v := View(Free, st);
    var awaited := Awaited(rules, st, e, now);
    BegunAlone(rules, key, st, e, now);
    if awaited.None? {
      AcceptedUnasked(rules, st, e, now, emitOk);
      AloneOne(rules, v, Begin(key, e, now), []);
    } else {
      var begun := View(Handing(e, awaited.value), st);
      var rest := if Released(rules, awaited.value, emitOk) then [Action.Write(key, now)] else [];
      HandedAlone(rules, key, st, e, now, emitOk, awaited.value);
      AloneOne(rules, v, Begin(key, e, now), [Hand(key, emitOk)] + rest);
      AloneOne(rules, begun, Hand(key, emitOk), rest);
      var handed := Alone(rules, begun, Hand(key, emitOk));
      AloneOne(rules, handed, Action.Write(key, now), []);
      assert [Action.Write(key, now)] + [] == [Action.Write(key, now)];
    }
  }

  function FlushActions(rules: Rules, key: Identity, st: FileState, now: nat, emitOk: bool): seq<Action> {
    [Look(key, now)]
    + if !Expired(rules, st, now) then []
      else [Hand(key, emitOk)] + if Released(rules, BufferedRecord(st.buffer.value), emitOk) then [Remove(key)] else []
  }

  lemma LookedAlone(rules: Rules, key: Identity, st: FileState, now: nat, emitOk: bool)
    ensures Expired(rules, st, now) ==> st.buffer.Some?
    ensures var looked := Alone(rules, View(Free, st), Look(key, now));
            var handed := Alone(rules, looked, Hand(key, emitOk));
            if !Expired(rules, st, now) then looked == View(Free, Expire(rules, st, now, emitOk))
            else if !Released(rules, BufferedRecord(st.buffer.value), emitOk)
            then handed == View(Free, Expire(rules, st, now, emitOk))
            else Alone(rules, handed, Remove(key)) == View(Free, Expire(rules, st, now, emitOk))
  {
    hide Released, AsOutput;
  }

  lemma FlushAlone(rules: Rules, key: Identity, st: FileState, now: nat, emitOk: bool)
    ensures AloneFrom(rules, View(Free, st), FlushActions(rules, key, st, now, emitOk))
            == View(Free, Expire(rules, st, now, emitOk))
  {
    hide Expire, Expired, Alone, Released, AloneFrom;
    var v := View(Free, st);
    LookedAlone(rules, key, st, now, emitOk);
    if !Expired(rules, st, now) {
      AloneOne(rules, v, Look(key, now), []);
    } else {
      var looked := Alone(rules, v, Look(key, now));
      var rest := if Released(rules, BufferedRecord(st.buffer.value), emitOk) then [Remove(key)] else [];
      AloneOne(rules, v, Look(key, now), [Hand(key, emitOk)] + rest);
      AloneOne(rules, looked, Hand(key, emitOk), rest);
      var handed := Alone(rules, looked, Hand(key, emitOk));
      AloneOne(rules, handed, Remove(key), []);
      assert [Remove(key)] + [] == [Remove(key)];
    }
  }

  // ----- rounds and polls

  function RoundActions(s: Source, j: Job, key: Identity): seq<Action>
    decreases |j.rest|
  {
    if Done(j) then []
    else
      LineActions(s.rules, key, j.state, HeadEntry(s, j), s.clock(j.lines), !s.fails(j.calls))
      + if HeadAccepted(s, j) then RoundActions(s, Advanced(s, j), key) else []
  }

  lemma HeadAlone(s: Source, j: Job, key: Identity)
    requires !Done(j)
    ensures AloneFrom(s.rules, View(Free, j.state),
                      LineActions(s.rules, key, j.state, HeadEntry(s, j), s.clock(j.lines), !s.fails(j.calls)))
            == View(Free, if HeadAccepted(s, j) then Advanced(s, j).state else j.state)
  {
    hide EntryOf, AloneFrom, LineActions;
    LineAlone(s.rules, key, j.state, HeadEntry(s, j), s.clock(j.lines), !s.fails(j.calls));
  }

  lemma NoActions(rules: Rules, v: View)
    ensures AloneFrom(rules, v, []) == v
  {
  }

  lemma {:induction false} RoundAlone(s: Source, j: Job, key: Identity)
    ensures AloneFrom(s.rules, View(Free, j.state), RoundActions(s, j, key)) == View(Free, ReadLines(s, j).state)
    decreases |j.rest|
  {
    hide Advanced, HeadAccepted, HeadCalls, HeadEntry, AloneFrom, LineActions;
    if Done(j) {
      NoActions(s.rules, View(Free, j.state));
    } else {
      var first := LineActions(s.rules, key, j.state, HeadEntry(s, j), s.clock(j.lines), !s.fails(j.calls));
      HeadAlone(s, j, key);
      if HeadAccepted(s, j) {
        RoundAlone(s, Advanced(s, j), key);
        AloneConcat(s.rules, View(Free, j.state), first, RoundActions(s, Advanced(s, j), key));
      } else {
        assert first + [] == first;
      }
    }
  }

  /** A worker's round over a file, and the flush behind it. */
  function PollActions(t: Tailing, w: World, p: Poll, key: Identity): seq<Action> {
    var r := PollRound(t, w, p);
    RoundActions(SourceOf(t, p), JobOf(t, w, p), key) + FlushActions(t.rules, key, r.state, p.flushAt,
        !t.fails(r.calls))
  }

  function ActionsOfPolls(t: Tailing, w: World, polls: seq<Poll>, key: Identity): seq<Action> {
    if polls == [] then []
    else
      var n := |polls| - 1;
      ActionsOfPolls(t, w, polls[..n], key) + PollActions(t, Polls(t, w, polls[..n]), polls[n], key)
  }

  lemma PollAlone(t: Tailing, w: World, p: Poll, key: Identity)
    ensures AloneFrom(t.rules, View(Free, w.state), PollActions(t, w, p, key)) == View(Free, PollStep(t, w, p).state)
  {
    hide ReadLines, RoundActions, FlushActions, AloneFrom, Expire;
    var r := PollRound(t, w, p);
    RoundAlone(SourceOf(t, p), JobOf(t, w, p), key);
    FlushAlone(t.rules, key, r.state, p.flushAt, !t.fails(r.calls));
    AloneConcat(t.rules, View(Free, w.state), RoundActions(SourceOf(t, p), JobOf(t, w, p), key),
                FlushActions(t.rules, key, r.state, p.flushAt, !t.fails(r.calls)));
  }

  lemma {:induction false} PollsAlone(t: Tailing, w: World, polls: seq<Poll>, key: Identity)
    ensures AloneFrom(t.rules, View(Free, w.state), ActionsOfPolls(t, w, polls, key))
            == View(Free, Polls(t, w, polls).state)
  {
    hide PollStep, PollActions, AloneFrom;
    if polls == [] {
      NoActions(t.rules, View(Free, w.state));
    } else {
      var n := |polls| - 1;
      var v := Polls(t, w, polls[..n]);
      PollsAlone(t, w, polls[..n], key);
      PollAlone(t, v, polls[n], key);
      AloneConcat(t.rules, View(Free, w.state), ActionsOfPolls(t, w, polls[..n], key),
                  PollActions(t, v, polls[n], key));
    }
  }

  /**
   Whatever the other files' workers do in between, a file whose own steps are those of its polls ends up
   in the state of these polls.
   */
  lemma InterleavedPolls(rules: Identity -> Rules, actions: seq<Action>, key: Identity, t: Tailing, w: World,
                         polls: seq<Poll>)
    requires t.rules == rules(key) && w.state == INITIAL && Own(actions, key) == ActionsOfPolls(t, w, polls, key)
    ensures ViewOf(ExecAll(rules, actions), key) == View(Free, Polls(t, w, polls).state)
  {
    hide AllAlone, ExecAll, ViewOf, Own, ActionsOfPolls, Polls, AloneFrom;
    RunsAlone(rules, actions, key);
    AloneFromStart(rules(key), Own(actions, key));
    PollsAlone(t, w, polls, key);
  }

  /**
   So in multiline mode its records and its buffer are the groups of the complete lines between the start
   and the stored offset.
   */
  lemma InterleavedPollsComputeGroups(rules: Identity -> Rules, actions: seq<Action>, key: Identity, t: Tailing,
                                      start: nat,
                                      w: World, polls: seq<Poll>)
    requires t.rules == rules(key) && t.rules.multiline && Own(actions, key) == ActionsOfPolls(t, w, polls, key)
    requires polls != [] && Growing(start, polls) && Fresh(t, start, w)
    ensures var content, w' := polls[|polls| - 1].content, Polls(t, w, polls);
            var segments := Segments(t.rules, EventsOfPolls(t, w, polls));
            && start <= w'.offset.GetOr(0) <= |content|
            && Concat(segments) == FileEntries(t, content, start, w'.offset.GetOr(0))
            && HoldsSegments(t.rules, ViewOf(ExecAll(rules, actions), key).file, segments)
  {
    hide ExecAll, ViewOf, Own, ActionsOfPolls, Polls, Segments;
    hide HoldsSegments, Concat, EventsOfPolls, AcceptedEntries, Growing;
    InterleavedPolls(rules, actions, key, t, w, polls);
    PollsComputeGroups(t, start, w, polls);
  }

  /** And in single-line mode its output is one record for each of those lines. */
  lemma InterleavedPollsEmitEachLine(rules: Identity -> Rules, actions: seq<Action>, key: Identity, t: Tailing,
                                     start: nat,
                                     w: World, polls: seq<Poll>)
    requires t.rules == rules(key) && !t.rules.multiline && Own(actions, key) == ActionsOfPolls(t, w, polls, key)
    requires polls != [] && Growing(start, polls) && Fresh(t, start, w)
    ensures var content, w' := polls[|polls| - 1].content, Polls(t, w, polls);
            && start <= w'.offset.GetOr(0) <= |content|
            && ViewOf(ExecAll(rules, actions), key).file.out
               == OutputsOf(t.rules, FileEntries(t, content, start, w'.offset.GetOr(0)))
  {
    hide ExecAll, ViewOf, Own, ActionsOfPolls, Polls, OutputsOf, AcceptedEntries, Growing;
    InterleavedPolls(rules, actions, key, t, w, polls);
    PollsEmitEachLine(t, start, w, polls);
  }
}
