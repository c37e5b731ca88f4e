/**
 Workers reading different files at once. They share the map of buffers, guarded by a lock, and the
 `emit` function; the lock is not held while a record is handed over. Every step below is one critical
 section or one call of `emit`, and the steps of different files interleave freely.
 */
module Workers {
  import opened Wrappers
  import opened Lines
  import opened Multiline
  import opened LineGroups
  import opened PositionStore
  import opened Tailers

  /** Where the processing of a file stands between two steps. */
  datatype Phase =
    | Free
    | Handing(entry: Entry, record: Record)   // accept has unlocked to hand over the record in the way
    | Writing(entry: Entry, record: Record)   // it was released; the entry is to be written
    | Flushing(record: Record, now: nat)      // the buffer was found expired
    | Removing(now: nat)                      // its record was released; the buffer is to be removed

  datatype Action =
    | Begin(key: Identity, entry: Entry, now: nat)
    | Hand(key: Identity, emitOk: bool)
    | Write(key: Identity, now: nat)
    | Look(key: Identity, now: nat)
    | Remove(key: Identity)

  /** What the workers share, with everything delivered in one sequence. */
  datatype Shared = Shared(
    buffers: map<Identity, Buffer>,
    phases: map<Identity, Phase>,
    delivered: seq<(Identity, Output)>,
    written: seq<(Identity, Written)>)

  const NOTHING := Shared(map[], map[], [], [])

  function PhaseOf(s: Shared, key: Identity): Phase {
    if key in s.phases then s.phases[key] else Free
  }

  function BufferAt(s: Shared, key: Identity, now: nat): Buffer {
    if key in s.buffers then s.buffers[key] else EmptyBuffer(now)
  }

  /** Looks at the buffer under the lock: writes at once, or notes the record that has to go first. */
  function ExecBegin(rules: Rules, s: Shared, key: Identity, e: Entry, now: nat): Shared {
    if !rules.multiline then s.(phases := s.phases[key := Handing(e, Record(e.line, e.meta))])
    else
      var b := BufferAt(s, key, now);
      if MustRelease(rules, b, e.line) then s.(phases := s.phases[key := Handing(e, BufferedRecord(b))])
      else s.(buffers := s.buffers[key := Append(b, e, now)],
              written := s.written + [(key, Written(e, e.line != [] || b.body != []))])
  }

  /** Hands the record over without the lock. */
  function ExecHand(rules: Rules, s: Shared, key: Identity, r: Record, next: Phase, emitOk: bool): Shared {
    if Released(rules, r, emitOk)
    then s.(delivered := s.delivered + [(key, AsOutput(rules, r))], phases := s.phases[key := next])
    else s.(phases := s.phases[key := Free])
  }

  /** Takes the lock again, clears the buffer and writes. */
  function ExecWrite(rules: Rules, s: Shared, key: Identity, e: Entry, now: nat): Shared {
    var s' := s.(written := s.written + [(key, Written(e, !rules.multiline || e.line != []))],
                 phases := s.phases[key := Free]);
    if rules.multiline then s'.(buffers := s.buffers[key := Append(Cleared(BufferAt(s, key, now)), e, now)]) else s'
  }

  function ExecLook(rules: Rules, s: Shared, key: Identity, now: nat): Shared {
    if key in s.buffers && Expired(rules, FileState(Some(s.buffers[key]), [], []), now)
    then s.(phases := s.phases[key := Flushing(BufferedRecord(s.buffers[key]), now)]) else s
  }

  function ExecRemove(s: Shared, key: Identity): Shared {
    s.(buffers := s.buffers - {key}, phases := s.phases[key := Free])
  }

  function Exec(rules: Identity -> Rules, s: Shared, a: Action): Shared {
    match (PhaseOf(s, a.key), a)
    case (Free, Begin(key, e, now)) => ExecBegin(rules(key), s, key, e, now)
    case (Handing(e, r), Hand(key, ok)) => ExecHand(rules(key), s, key, r, Writing(e, r), ok)
    case (Flushing(r, now), Hand(key, ok)) => ExecHand(rules(key), s, key, r, Removing(now), ok)
    case (Writing(e, r), Write(key, now)) => ExecWrite(rules(key), s, key, e, now)
    case (Free, Look(key, now)) => ExecLook(rules(key), s, key, now)
    case (Removing(_), Remove(key)) => ExecRemove(s, key)
    case _ => s
  }

  function ExecAll(rules: Identity -> Rules, actions: seq<Action>): Shared {
    if actions == [] then NOTHING
    else Exec(rules, ExecAll(rules, actions[..|actions| - 1]), actions[|actions| - 1])
  }

  /** The steps of one file. */
  function Own(actions: seq<Action>, key: Identity): seq<Action> {
    if actions == [] then []
    else
      var last := actions[|actions| - 1];
      Own(actions[..|actions| - 1], key) + if last.key == key then [last] else []
  }

  /** The entries of one file in a shared sequence. */
  function Of<T>(tagged: seq<(Identity, T)>, key: Identity): seq<T> {
    if tagged == [] then []
    else
      var last := tagged[|tagged| - 1];
      Of(tagged[..|tagged| - 1], key) + if last.0 == key then [last.1] else []
  }

  /** One file as the shared state shows it. */
  datatype View = View(phase: Phase, file: FileState)

  function ViewOf(s: Shared, key: Identity): View {
    View(PhaseOf(s, key),
         FileState(if key in s.buffers then Some(s.buffers[key]) else None, Of(s.delivered, key), Of(s.written, key)))
  }

  lemma OfSnoc<T>(tagged: seq<(Identity, T)>, item: (Identity, T), key: Identity)
    ensures Of(tagged + [item], key) == Of(tagged, key) + if item.0 == key then [item.1] else []
  {
    assert (tagged + [item])[..|tagged|] == tagged;
  }

  // ----- the same steps for a file that is alone

  function BeginAlone(rules: Rules, v: View, e: Entry, now: nat): View {
    var b := Buffered(v.file, now);
    if !rules.multiline then v.(phase := Handing(e, Record(e.line, e.meta)))
    else if MustRelease(rules, b, e.line) then v.(phase := Handing(e, BufferedRecord(b)))
    else v.(file := FileState(Some(Append(b, e, now)), v.file.out,
                              v.file.log + [Written(e, e.line != [] || b.body != [])]))
  }

  function HandAlone(rules: Rules, v: View, r: Record, next: Phase, emitOk: bool): View {
    if Released(rules, r, emitOk)
    then View(next, v.file.(out := v.file.out + [AsOutput(rules, r)])) else v.(phase := Free)
  }

  function WriteAlone(rules: Rules, v: View, e: Entry, now: nat): View {
    View(Free,
         FileState(if rules.multiline then Some(Append(Cleared(Buffered(v.file, now)), e, now)) else v.file.buffer,
                         v.file.out, v.file.log + [Written(e, !rules.multiline || e.line != [])]))
  }

  function LookAlone(rules: Rules, v: View, now: nat): View {
    if Expired(rules, v.file, now) then v.(phase := Flushing(BufferedRecord(v.file.buffer.value), now)) else v
  }

  function Alone(rules: Rules, v: View, a: Action): View {
    match (v.phase, a)
    case (Free, Begin(_, e, now)) => BeginAlone(rules, v, e, now)
    case (Handing(e, r), Hand(_, ok)) => HandAlone(rules, v, r, Writing(e, r), ok)
    case (Flushing(r, now), Hand(_, ok)) => HandAlone(rules, v, r, Removing(now), ok)
    case (Writing(e, r), Write(_, now)) => WriteAlone(rules, v, e, now)
    case (Free, Look(_, now)) => LookAlone(rules, v, now)
    case (Removing(_), Remove(_)) => View(Free, v.file.(buffer := None))
    case _ => v
  }

  function AllAlone(rules: Rules, actions: seq<Action>): View {
    if actions == [] then View(Free, INITIAL)
    else Alone(rules, AllAlone(rules, actions[..|actions| - 1]), actions[|actions| - 1])
  }

  lemma BeginView(rules: Rules, s: Shared, key: Identity, e: Entry, now: nat, k: Identity)
    ensures ViewOf(ExecBegin(rules, s, key, e, now), k)
            == if k == key then BeginAlone(rules, ViewOf(s, k), e, now) else ViewOf(s, k)
  {
    var b := BufferAt(s, key, now);
    if !rules.multiline || MustRelease(rules, b, e.line) {
    } else {
      hide MustRelease, Append, Of;
      var w := Written(e, e.line != [] || b.body != []);
      OfSnoc(s.written, (key, w), k);
      assert Of(s.written, k) + [] == Of(s.written, k);
      var s' := s.(buffers := s.buffers[key := Append(b, e, now)], written := s.written + [(key, w)]);
      assert ExecBegin(rules, s, key, e, now) == s';
    }
  }

  lemma HandView(rules: Rules, s: Shared, key: Identity, r: Record, next: Phase, emitOk: bool, k: Identity)
    ensures ViewOf(ExecHand(rules, s, key, r, next, emitOk), k)
            == if k == key then HandAlone(rules, ViewOf(s, k), r, next, emitOk) else ViewOf(s, k)
  {
    hide Released, Of, AsOutput;
    OfSnoc(s.delivered, (key, AsOutput(rules, r)), k);
    assert Of(s.delivered, k) + [] == Of(s.delivered, k);
  }

  lemma WriteView(rules: Rules, s: Shared, key: Identity, e: Entry, now: nat, k: Identity)
    ensures ViewOf(ExecWrite(rules, s, key, e, now), k)
            == if k == key then WriteAlone(rules, ViewOf(s, k), e, now) else ViewOf(s, k)
  {
    hide Append, Of, Cleared;
    OfSnoc(s.written, (key, Written(e, !rules.multiline || e.line != [])), k);
    assert Of(s.written, k) + [] == Of(s.written, k);
  }

  lemma LookView(rules: Rules, s: Shared, key: Identity, now: nat, k: Identity)
    ensures ViewOf(ExecLook(rules, s, key, now), k)
            == if k == key then LookAlone(rules, ViewOf(s, k), now) else ViewOf(s, k)
  {
  }

  lemma RemoveView(s: Shared, key: Identity, k: Identity)
    ensures ViewOf(ExecRemove(s, key), k)
            == if k == key then View(Free, ViewOf(s, k).file.(buffer := None)) else ViewOf(s, k)
  {
  }

  /** A step acts on its own file as if that file were alone, and leaves every other file as it was. */
  lemma StepIsLocal(rules: Identity -> Rules, s: Shared, a: Action, k: Identity)
    ensures ViewOf(Exec(rules, s, a), k)
            == if k == a.key then Alone(rules(k), ViewOf(s, k), a) else ViewOf(s, k)
  {
    hide ExecBegin, ExecHand, ExecWrite, ExecLook, ExecRemove, BeginAlone, HandAlone, WriteAlone, LookAlone;
    match (PhaseOf(s, a.key), a)
    case (Free, Begin(key, e, now)) => BeginView(rules(key), s, key, e, now, k);
    case (Handing(e, r), Hand(key, ok)) => HandView(rules(key), s, key, r, Writing(e, r), ok, k);
    case (Flushing(r, now), Hand(key, ok)) => HandView(rules(key), s, key, r, Removing(now), ok, k);
    case (Writing(e, r), Write(key, now)) => WriteView(rules(key), s, key, e, now, k);
    case (Free, Look(key, now)) => LookView(rules(key), s, key, now, k);
    case (Removing(_), Remove(key)) => RemoveView(s, key, k);
    case _ =>
  }

  /**
   Isolation: in any interleaving, what is delivered, buffered and in progress for one file is what
   running that file's steps alone gives.
   */
  lemma {:induction false} RunsAlone(rules: Identity -> Rules, actions: seq<Action>, key: Identity)
    ensures ViewOf(ExecAll(rules, actions), key) == AllAlone(rules(key), Own(actions, key))
  {
    hide Exec, Alone;
    if actions != [] {
      var init, last := actions[..|actions| - 1], actions[|actions| - 1];
      var own := Own(init, key);
      RunsAlone(rules, init, key);
      StepIsLocal(rules, ExecAll(rules, init), last, key);
      if last.key == key {
        assert (own + [last])[..|own|] == own;
      } else {
        assert own + [] == own;
      }
    }
  }

  // ----- the steps of one file add up to atomic acceptances and flushes

  ghost predicate Awaits(rules: Rules, file: FileState, e: Entry, r: Record) {
    && Proper(rules, e)
    && Awaited(rules, file, e, 0) == Some(r)
    && (rules.multiline ==> file.buffer.Some?)
  }

  /** The view in terms of the file as it was when the operation in progress began. */
  ghost predicate InProgress(rules: Rules, v: View, file: FileState) {
    match v.phase
    case Free => v.file == file
    case Handing(e, r) => v.file == file && Awaits(rules, file, e, r)
    case Writing(e, r) => Awaits(rules, file, e, r) && v.file == file.(out := file.out + [AsOutput(rules, r)])
    case Flushing(r, now) => v.file == file && Expired(rules, file, now) && r == BufferedRecord(file.buffer.value)
    case Removing(now) =>
      && Expired(rules, file, now)
      && v.file == file.(out := file.out + [AsOutput(rules, BufferedRecord(file.buffer.value))])
  }

  lemma RunSnoc(rules: Rules, events: seq<Event>, e: Event)
    ensures Run(rules, INITIAL, events + [e]) == Step(rules, Run(rules, INITIAL, events), e)
  {
    assert (events + [e])[..|events|] == events;
  }

  /** The event a step completes, if it completes one. */
  function CompletedBy(rules: Rules, v: View, a: Action): Option<Event> {
    match (v.phase, a)
    case (Free, Begin(_, e, now)) =>
      if rules.multiline && !MustRelease(rules, Buffered(v.file, now), e.line) then Some(Take(e, now, true)) else None
    case (Writing(e, r), Write(_, now)) => Some(Take(e, now, true))
    case (Removing(now), Remove(_)) => Some(Tick(now, true))
    case _ => None
  }

  lemma StepCompletes(rules: Rules, v: View, file: FileState, a: Action)
    requires InProgress(rules, v, file)
    requires a.Begin? ==> Proper(rules, a.entry)
    ensures var done := CompletedBy(rules, v, a);
            && InProgress(rules, Alone(rules, v, a), if done.Some? then Step(rules, file, done.value) else file)
            && (done.Some? ==> ProperEvent(rules, done.value))
  {
    hide Append;
  }

  /** The atomic events of one file: one for every acceptance and every flush that its steps complete. */
  function AtomicEvents(rules: Rules, actions: seq<Action>): seq<Event> {
    if actions == [] then []
    else
      var n := |actions| - 1;
      var done := CompletedBy(rules, AllAlone(rules, actions[..n]), actions[n]);
      AtomicEvents(rules, actions[..n]) + if done.Some? then [done.value] else []
  }

  lemma OneStepMore(rules: Rules, actions: seq<Action>)
    ensures actions == [] ==> AllAlone(rules, actions) == View(Free, INITIAL) && AtomicEvents(rules, actions) == []
    ensures actions != [] ==>
              var init, last := actions[..|actions| - 1], actions[|actions| - 1];
              var v, before := AllAlone(rules, init), AtomicEvents(rules, init);
              && AllAlone(rules, actions) == Alone(rules, v, last)
              && AtomicEvents(rules, actions)
                 == match CompletedBy(rules, v, last)
                    case Some(e) => before + [e]
                    case None => before
  {
    hide Alone, CompletedBy;
    if actions != [] {
      var before := AtomicEvents(rules, actions[..|actions| - 1]);
      assert before + [] == before;
    }
  }

  lemma NothingInProgress(rules: Rules)
    ensures InProgress(rules, View(Free, INITIAL), Run(rules, INITIAL, []))
  {
  }

  /** However its steps are scheduled, a file goes through the states of the run of its atomic events. */
  lemma {:induction false} StepsAreAtomic(rules: Rules, actions: seq<Action>)
    requires forall i | 0 <= i < |actions| :: actions[i].Begin? ==> Proper(rules, actions[i].entry)
    ensures forall i | 0 <= i < |AtomicEvents(rules, actions)| :: ProperEvent(rules, AtomicEvents(rules, actions)[i])
    ensures InProgress(rules, AllAlone(rules, actions), Run(rules, INITIAL, AtomicEvents(rules, actions)))
  {
    hide InProgress, Alone, Step, CompletedBy, ProperEvent, AllAlone, AtomicEvents, Run;
    OneStepMore(rules, actions);
    if actions == [] {
      NothingInProgress(rules);
    } else {
      var init, last := actions[..|actions| - 1], actions[|actions| - 1];
      var before := AtomicEvents(rules, init);
      var v := AllAlone(rules, init);
      StepsAreAtomic(rules, init);
      StepCompletes(rules, v, Run(rules, INITIAL, before), last);
      var done := CompletedBy(rules, v, last);
      if done.Some? {
        RunSnoc(rules, before, done.value);
      }
    }
  }

  /** Where the completed operations began, and where the one in progress did. */
  datatype Operations = Operations(completed: seq<nat>, open: Option<nat>)

  function OperationsAfter(rules: Rules, o: Operations, v: View, a: Action, n: nat): Operations {
    if CompletedBy(rules, v, a).Some? then Operations(o.completed + [o.open.GetOr(n)], None)
    else if Alone(rules, v, a).phase.Free? then o.(open := None)
    else if v.phase.Free? then o.(open := Some(n))
    else o
  }

  function OperationsOf(rules: Rules, actions: seq<Action>): Operations {
    if actions == [] then Operations([], None)
    else
      var n := |actions| - 1;
      OperationsAfter(rules, OperationsOf(rules, actions[..n]), AllAlone(rules, actions[..n]), actions[n], n)
  }

  /** The event is the operation that the action begins. */
  predicate Performs(a: Action, e: Event) {
    match e
    case Take(entry, _, ok) => a.Begin? && a.entry == entry && ok
    case Tick(now, ok) => a.Look? && a.now == now && ok
  }

  predicate InPhase(a: Action, phase: Phase) {
    match phase
    case Free => false
    case Handing(e, _) => a.Begin? && a.entry == e
    case Writing(e, _) => a.Begin? && a.entry == e
    case Flushing(_, now) => a.Look? && a.now == now
    case Removing(now) => a.Look? && a.now == now
  }

  ghost predicate Traced(actions: seq<Action>, events: seq<Event>, o: Operations, phase: Phase) {
    && |events| == |o.completed|
    && (forall i | 0 <= i < |events| :: o.completed[i] < |actions| && Performs(actions[o.completed[i]], events[i]))
    && (forall i, j | 0 <= i < j < |events| :: o.completed[i] < o.completed[j])
    && (o.open.None? <==> phase.Free?)
    && (o.open.Some? ==>
          && o.open.value < |actions| && InPhase(actions[o.open.value], phase)
          && forall i | 0 <= i < |events| :: o.completed[i] < o.open.value)
  }

  /** How the phase changes when a step completes an operation, begins one, or carries one on. */
  lemma PhaseAfter(rules: Rules, v: View, a: Action, begun: Action)
    ensures var done, phase := CompletedBy(rules, v, a), Alone(rules, v, a).phase;
            && (done.Some? ==> phase.Free?)
            && (done.Some? && v.phase.Free? ==> Performs(a, done.value))
            && (done.Some? && InPhase(begun, v.phase) ==> Performs(begun, done.value))
            && (done.None? && v.phase.Free? && !phase.Free? ==> InPhase(a, phase))
            && (done.None? && !phase.Free? && InPhase(begun, v.phase) ==> InPhase(begun, phase))
  {
    hide MustRelease, Append, Released, Expired;
  }

  lemma TracedAfter(rules: Rules, actions: seq<Action>, events: seq<Event>, o: Operations, v: View, a: Action)
    requires Traced(actions, events, o, v.phase)
    ensures var done := CompletedBy(rules, v, a);
            Traced(actions + [a], events + (if done.Some? then [done.value] else []),
                   OperationsAfter(rules, o, v, a, |actions|), Alone(rules, v, a).phase)
  {
    hide CompletedBy, Alone, Performs, InPhase;
    var all := actions + [a];
    assert forall i | 0 <= i < |actions| :: all[i] == actions[i];
    assert events + [] == events;
    PhaseAfter(rules, v, a, if o.open.Some? then actions[o.open.value] else a);
  }

  lemma NothingTraced()
    ensures Traced([], [], Operations([], None), Free)
  {
  }

  /**
   Every atomic event is an acceptance or a flush that some step of the file began and a later one completed, in
   the order in which they began; a step that `emit` refuses leaves no event.
   */
  lemma {:induction false} EventsAreOperations(rules: Rules, actions: seq<Action>)
    ensures Traced(actions, AtomicEvents(rules, actions), OperationsOf(rules, actions), AllAlone(rules, actions).phase)
  {
    hide Traced, Alone, CompletedBy, OperationsAfter;
    if actions == [] {
      NothingTraced();
    } else {
      var init, last := actions[..|actions| - 1], actions[|actions| - 1];
      EventsAreOperations(rules, init);
      TracedAfter(rules, init, AtomicEvents(rules, init), OperationsOf(rules, init), AllAlone(rules, init), last);
      assert actions == init + [last];
    }
  }

  lemma {:induction false} OwnIsProper(rules: Identity -> Rules, actions: seq<Action>, key: Identity)
    requires forall i | 0 <= i < |actions| :: actions[i].Begin? ==> Proper(rules(actions[i].key), actions[i].entry)
    ensures forall i | 0 <= i < |Own(actions, key)| ::
              Own(actions, key)[i].Begin? ==> Proper(rules(key), Own(actions, key)[i].entry)
  {
    hide Proper;
    if actions != [] {
      OwnIsProper(rules, actions[..|actions| - 1], key);
    }
  }

  /**
   So in every interleaving a file no operation is in progress on is in the state of the run of its
   atomic events: nothing is lost but empty lines written to an empty buffer.
   */
  lemma InterleavingsConserve(rules: Identity -> Rules, actions: seq<Action>, key: Identity)
    requires forall i | 0 <= i < |actions| :: actions[i].Begin? ==> Proper(rules(actions[i].key), actions[i].entry)
    requires PhaseOf(ExecAll(rules, actions), key) == Free
    ensures var file := ViewOf(ExecAll(rules, actions), key).file;
            && file == Run(rules(key), INITIAL, AtomicEvents(rules(key), Own(actions, key)))
            && Conserved(file) && Lossless(rules(key), file)
  {
    hide Conserved, Lossless, Proper, Run, ExecAll, AllAlone, AtomicEvents;
    RunsAlone(rules, actions, key);
    OwnIsProper(rules, actions, key);
    StepsAreAtomic(rules(key), Own(actions, key));
    RunConserves(rules(key), AtomicEvents(rules(key), Own(actions, key)));
  }

  /** The entries of the acceptances among some operations. */
  function EntriesAt(actions: seq<Action>, at: seq<nat>): seq<Entry> {
    if at == [] then []
    else
      var n := at[|at| - 1];
      EntriesAt(actions, at[..|at| - 1])
      + if n < |actions| && actions[n].Begin? then [actions[n].entry] else []
  }

  lemma NothingLogged()
    ensures LogEntries([]) == []
  {
  }

  lemma {:induction false} CompletedAreLogged(rules: Rules, actions: seq<Action>, events: seq<Event>, at: seq<nat>)
    requires |events| == |at|
    requires forall i | 0 <= i < |events| :: at[i] < |actions| && Performs(actions[at[i]], events[i])
    ensures LogEntries(Run(rules, INITIAL, events).log) == EntriesAt(actions, at)
  {
    hide Step, LogEntries;
    if events == [] {
      NothingLogged();
    } else {
      var n := |events| - 1;
      var st := Run(rules, INITIAL, events[..n]);
      CompletedAreLogged(rules, actions, events[..n], at[..n]);
      assert Performs(actions[at[n]], events[n]);
      LogEntriesAfterStep(rules, st, events[n]);
      assert EntriesAt(actions, at[..n]) + [] == EntriesAt(actions, at[..n]);
    }
  }

  lemma TracedEntries(rules: Rules, actions: seq<Action>, events: seq<Event>, o: Operations, phase: Phase)
    requires Traced(actions, events, o, phase)
    ensures LogEntries(Run(rules, INITIAL, events).log) == EntriesAt(actions, o.completed)
  {
    hide Performs, Run, LogEntries, EntriesAt;
    CompletedAreLogged(rules, actions, events, o.completed);
  }

  /** Its records are the groups of the entries whose acceptance was completed, in the order in which it began. */
  lemma InterleavingsComputeGroups(rules: Identity -> Rules, actions: seq<Action>, key: Identity)
    requires forall i | 0 <= i < |actions| :: actions[i].Begin? ==> Proper(rules(actions[i].key), actions[i].entry)
    requires PhaseOf(ExecAll(rules, actions), key) == Free && rules(key).multiline
    ensures var own := Own(actions, key);
            var segments := Segments(rules(key), AtomicEvents(rules(key), own));
            && HoldsSegments(rules(key), ViewOf(ExecAll(rules, actions), key).file, segments)
            && Concat(segments) == EntriesAt(own, OperationsOf(rules(key), own).completed)
  {
    hide Conserved, Lossless, Proper, Run, ExecAll, AllAlone, AtomicEvents, HoldsSegments, Segments, Traced, LogEntries;
    hide EntriesAt, Concat, OperationsOf, Own;
    var own := Own(actions, key);
    var events := AtomicEvents(rules(key), own);
    InterleavingsConserve(rules, actions, key);
    BufferComputesGroups(rules(key), events);
    SegmentsAreLog(rules(key), events);
    EventsAreOperations(rules(key), own);
    TracedEntries(rules(key), own, events, OperationsOf(rules(key), own), AllAlone(rules(key), own).phase);
  }

  /**
   Why a flush waits until the round's workers are done: a line written between the look at an expired
   buffer and its removal would go away with the buffer.
   */
  lemma OvertakenFlushLosesLine(rules: Rules, file: FileState, e: Entry, now: nat, later: nat)
    requires rules.multiline && Conserved(file) && Proper(rules, e)
    requires Expired(rules, file, now) && !MustRelease(rules, file.buffer.value, e.line)
    ensures var handed := file.(out := file.out + [AsOutput(rules, BufferedRecord(file.buffer.value))]);
            !Conserved(Multiline.Accept(rules, handed, e, later, true).(buffer := None))
  {
    hide MustRelease, Append, Split;
    ReleasedLinesSnoc(file.out, AsOutput(rules, BufferedRecord(file.buffer.value)));
    KeptLinesSnoc(file.log, Written(e, true));
    assert |KeptLines(file.log + [Written(e, true)])| == |KeptLines(file.log)| + 1;
  }
}
