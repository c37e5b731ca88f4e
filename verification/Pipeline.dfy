/**
 The exporter as a whole: producers, the queue and the loop that receives, releases, batches, sends and
 drains, all as interleaved steps. Producers go on while the loop sends and drains.
 */
module Pipeline {
  import opened Wrappers
  import opened Batcher
  import Q = ExportQueue

  datatype Setup<!R> = Setup(limits: Q.Limits<R>, batchSize: nat, maxBatchBytes: nat)

  function SettingsOf<R>(c: Setup<R>): Settings<R> {
    Settings(c.batchSize, c.maxBatchBytes, c.limits.size)
  }

  /** Where the loop stands. */
  datatype Phase<R> =
    | Selecting                              // waits for a record, a tick or the cancellation
    | Draining                               // cancelled; takes what the queue holds
    | Taken(record: R, draining: bool)       // received, its bytes not yet released
    | Appending(record: R, draining: bool)   // to be added to the batch
    | Clearing(record: R, draining: bool)    // the batch it does not fit into is being sent
    | Sending(why: Reason<R>)                // the batch is being sent, with no record in hand
    | Returned(nil: bool, left: Option<R>)   // `left` is the record in hand when a send failed

  /** `drained` is how many records had been sent to the queue when the drain found it empty. */
  datatype System<R> = System(
    queue: Q.System<R>,
    phase: Phase<R>,
    batch: seq<R>,
    delivered: seq<Sent<R>>,
    drained: Option<nat>)

  datatype Action<R> =
    | Produce(step: Q.Action<R>)
    | Receive
    | Release
    | Append
    | SendEnds(ok: bool)
    | TimerTicks
    | Cancel
    | FindEmpty

  predicate Enabled<R>(c: Setup<R>, s: System<R>, a: Action<R>) {
    match a
    case Produce(step) => Q.ByProducer(step) && Q.Enabled(c.limits, s.queue, step)
    case Receive => (s.phase.Selecting? || s.phase.Draining?) && Q.Enabled(c.limits, s.queue, Q.Receive)
    case Release => s.phase.Taken? && Q.Enabled(c.limits, s.queue, Q.Release)
    case Append => s.phase.Appending?
    case SendEnds(_) => s.phase.Clearing? || s.phase.Sending?
    case TimerTicks => s.phase.Selecting?
    case Cancel => s.phase.Selecting?
    case FindEmpty => s.phase.Draining? && s.queue.channel == []
  }

  /** The loop turns back to the queue, or stops. */
  function Turned<R>(c: Setup<R>, q: Q.System<R>, step: Q.Action<R>): Q.System<R> {
    if Q.Enabled(c.limits, q, step) then Q.Apply(c.limits, q, step) else q
  }

  /** Adds a record the batch has room for; before the cancellation, a batch it fills is sent at once. */
  function WithRecord<R>(c: Setup<R>, s: System<R>, record: R, draining: bool): System<R> {
    var batch := s.batch + [record];
    if !draining && Filled(SettingsOf(c), batch) then s.(batch := batch, phase := Sending(Full))
    else s.(batch := batch, phase := if draining then Draining else Selecting, queue := Turned(c, s.queue, Q.Resume))
  }

  function Stopped<R>(c: Setup<R>, s: System<R>, nil: bool, left: Option<R>): System<R> {
    s.(phase := Returned(nil, left), queue := Turned(c, s.queue, Q.Halt))
  }

  /** The batch was delivered. */
  function Emptied<R>(s: System<R>, why: Reason<R>): System<R> {
    s.(batch := [], delivered := s.delivered + [Sent(s.batch, why)])
  }

  function AfterSend<R>(c: Setup<R>, s: System<R>, ok: bool): System<R>
    requires s.phase.Clearing? || s.phase.Sending?
  {
    match s.phase
    case Clearing(r, draining) =>
      if !ok then Stopped(c, s, false, Some(r))
      else WithRecord(c, Emptied(s, ClosedBy(SettingsOf(c), s.batch, r)), r, draining)
    case Sending(why) =>
      if !ok then Stopped(c, s, false, None)
      else if why.Final? then Stopped(c, Emptied(s, why), true, None)
      else Emptied(s, why).(phase := Selecting, queue := Turned(c, s.queue, Q.Resume))
  }

  function Apply<R>(c: Setup<R>, s: System<R>, a: Action<R>): System<R>
    requires Enabled(c, s, a)
  {
    match a
    case Produce(step) => s.(queue := Q.Apply(c.limits, s.queue, step))
    case Receive =>
      s.(queue := Q.Apply(c.limits, s.queue, Q.Receive), phase := Taken(s.queue.channel[0], s.phase.Draining?))
    case Release =>
      s.(queue := Q.Apply(c.limits, s.queue, Q.Release), phase := Appending(s.phase.record, s.phase.draining))
    case Append =>
      var (r, draining) := (s.phase.record, s.phase.draining);
      if MustClose(SettingsOf(c), s.batch, c.limits.size(r)) then s.(phase := Clearing(r, draining))
      else WithRecord(c, s, r, draining)
    case SendEnds(ok) => AfterSend(c, s, ok)
    case TimerTicks => if s.batch == [] then s else s.(phase := Sending(Ticked))
    case Cancel => s.(phase := Draining)
    case FindEmpty =>
      var s' := s.(drained := Some(|s.queue.sent|));
      if s.batch == [] then Stopped(c, s', true, None) else s'.(phase := Sending(Final))
  }

  ghost predicate Run<R>(c: Setup<R>, s: System<R>, actions: seq<Action<R>>, s': System<R>)
    decreases |actions|
  {
    if actions == [] then s' == s
    else Enabled(c, s, actions[0]) && Run(c, Apply(c, s, actions[0]), actions[1..], s')
  }

  ghost predicate Initial<R>(s: System<R>) {
    Q.Initial(s.queue) && s.phase.Selecting? && s.batch == [] && s.delivered == [] && s.drained == None
  }

  // ----- what every interleaving keeps

  /** The record received and neither batched nor delivered. */
  function InHand<R>(p: Phase<R>): seq<R> {
    match p
    case Taken(r, _) => [r]
    case Appending(r, _) => [r]
    case Clearing(r, _) => [r]
    case Returned(_, Some(r)) => [r]
    case _ => []
  }

  ghost predicate OnQueue<R>(p: Phase<R>, consumer: Q.Consumer<R>) {
    match p
    case Taken(r, _) => consumer == Q.Received(r)
    case Appending(_, _) => consumer.Working?
    case Clearing(_, _) => consumer.Working?
    case Sending(why) => if why.Full? then consumer.Working? else consumer.Selecting?
    case Returned(_, _) => consumer.Stopped?
    case _ => consumer.Selecting?
  }

  predicate BeforeCancel<R>(p: Phase<R>) {
    p.Selecting? || ((p.Taken? || p.Appending?) && !p.draining)
  }

  /** The batch and the phase fit together. */
  ghost predicate Batched<R>(c: Setup<R>, s: System<R>) {
    var settings := SettingsOf(c);
    && History(settings, s.delivered, s.batch)
    && (s.batch != [] ==> Proper(settings, s.batch))
    && (BeforeCancel(s.phase) && s.batch != [] ==> !Filled(settings, s.batch))
    && (s.phase.Clearing? ==> MustClose(settings, s.batch, settings.size(s.phase.record)))
    && (s.phase.Sending? ==> s.batch != [] && !s.phase.why.NoRoom? && (s.phase.why.Full? ==> Filled(settings, s.batch)))
    && (s.phase.Returned? && s.phase.nil ==> s.batch == [] && s.phase.left == None)
  }

  /** What was received is delivered, batched or in hand, in that order. */
  ghost predicate Conserved<R>(s: System<R>) {
    s.queue.received == Delivered(s.delivered) + s.batch + InHand(s.phase)
  }

  /** Past the drain nothing more is received. */
  ghost predicate DrainedAll<R>(s: System<R>) {
    && (s.drained.Some? ==> (s.phase.Sending? && s.phase.why.Final?) || s.phase.Returned?)
    && ((s.phase.Sending? && s.phase.why.Final?) || (s.phase.Returned? && s.phase.nil) ==> s.drained.Some?)
    && (s.drained.Some? ==> s.drained.value <= |s.queue.sent| && s.queue.received == s.queue.sent[..s.drained.value])
  }

  ghost predicate Sound<R>(c: Setup<R>, s: System<R>) {
    && Q.Consistent(c.limits, s.queue)
    && OnQueue(s.phase, s.queue.consumer)
    && Batched(c, s)
    && Conserved(s)
    && DrainedAll(s)
  }

  /** A producer's step does not concern the loop. */
  lemma SameLoop<R>(c: Setup<R>, s: System<R>, q': Q.System<R>)
    requires OnQueue(s.phase, s.queue.consumer) && Batched(c, s) && Conserved(s)
    requires q'.consumer == s.queue.consumer && q'.received == s.queue.received
    ensures var s' := s.(queue := q'); OnQueue(s'.phase, q'.consumer) && Batched(c, s') && Conserved(s')
  {
    hide History, Proper, Filled, MustClose, Delivered;
  }

  lemma ProduceIsSound<R>(c: Setup<R>, s: System<R>, step: Q.Action<R>)
    requires Sound(c, s) && Enabled(c, s, Produce(step))
    ensures Sound(c, Apply(c, s, Produce(step)))
  {
    hide Q.Consistent, Batched, Conserved, OnQueue;
    Q.ApplyIsConsistent(c.limits, s.queue, step);
    var q' := Q.Apply(c.limits, s.queue, step);
    assert q'.consumer == s.queue.consumer && q'.received == s.queue.received && s.queue.sent <= q'.sent;
    SameLoop(c, s, q');
  }

  lemma ReceiveIsSound<R>(c: Setup<R>, s: System<R>)
    requires Sound(c, s) && Enabled(c, s, Receive)
    ensures Sound(c, Apply(c, s, Receive))
  {
    hide Q.Consistent, History, Proper, Filled, MustClose, Delivered;
    Q.ApplyIsConsistent(c.limits, s.queue, Q.Receive);
    assert Delivered(s.delivered) + s.batch + [] == Delivered(s.delivered) + s.batch;
  }

  lemma ReleaseIsSound<R>(c: Setup<R>, s: System<R>)
    requires Sound(c, s) && Enabled(c, s, Release)
    ensures Sound(c, Apply(c, s, Release))
  {
    hide Q.Consistent, History, Proper, Filled, MustClose, Delivered;
    Q.ApplyIsConsistent(c.limits, s.queue, Q.Release);
  }

  lemma TurnedIsConsistent<R>(c: Setup<R>, q: Q.System<R>, step: Q.Action<R>)
    requires Q.Consistent(c.limits, q)
    ensures Q.Consistent(c.limits, Turned(c, q, step))
  {
    hide Q.Consistent;
    if Q.Enabled(c.limits, q, step) {
      Q.ApplyIsConsistent(c.limits, q, step);
    }
  }

  lemma ResumedSelects<R>(c: Setup<R>, q: Q.System<R>)
    requires q.consumer.Working?
    ensures Turned(c, q, Q.Resume) == q.(consumer := Q.Selecting)
  {
  }

  lemma StoppedIsSound<R>(c: Setup<R>, s: System<R>, nil: bool, left: Option<R>)
    requires Q.Consistent(c.limits, s.queue) && (s.queue.consumer.Working? || s.queue.consumer.Selecting?)
    requires History(SettingsOf(c), s.delivered, s.batch) && (s.batch != [] ==> Proper(SettingsOf(c), s.batch))
    requires s.queue.received == Delivered(s.delivered) + s.batch + if left.Some? then [left.value] else []
    requires s.drained.Some? ==>
               s.drained.value <= |s.queue.sent| && s.queue.received == s.queue.sent[..s.drained.value]
    requires nil ==> s.batch == [] && left == None && s.drained.Some?
    ensures Sound(c, Stopped(c, s, nil, left))
  {
    hide Q.Consistent, History, Proper, Filled, MustClose, Delivered;
    TurnedIsConsistent(c, s.queue, Q.Halt);
  }

  lemma WithRecordIsSound<R>(c: Setup<R>, s: System<R>, record: R, draining: bool)
    requires c.batchSize > 0 && Q.Consistent(c.limits, s.queue) && s.queue.consumer.Working? && s.drained == None
    requires s.batch != [] ==> Proper(SettingsOf(c), s.batch)
    requires !MustClose(SettingsOf(c), s.batch, c.limits.size(record))
    requires History(SettingsOf(c), s.delivered, s.batch + [record])
    requires s.queue.received == Delivered(s.delivered) + s.batch + [record]
    ensures Sound(c, WithRecord(c, s, record, draining))
  {
    hide Q.Consistent, History, Proper, Filled, MustClose, Delivered, Turned;
    GrownIsProper(SettingsOf(c), s.batch, record);
    TurnedIsConsistent(c, s.queue, Q.Resume);
    ResumedSelects(c, s.queue);
    assert Delivered(s.delivered) + (s.batch + [record]) + [] == Delivered(s.delivered) + s.batch + [record];
  }

  lemma AppendIsSound<R>(c: Setup<R>, s: System<R>)
    requires c.batchSize > 0 && Sound(c, s) && Enabled(c, s, Append)
    ensures Sound(c, Apply(c, s, Append))
  {
    hide Q.Consistent, History, Proper, Filled, MustClose, Delivered, WithRecord;
    if !MustClose(SettingsOf(c), s.batch, c.limits.size(s.phase.record)) {
      HistoryGrows(SettingsOf(c), s.delivered, s.batch, s.phase.record);
      WithRecordIsSound(c, s, s.phase.record, s.phase.draining);
    }
  }

  /** Delivering a batch moves it to the delivered ones. */
  lemma EmptiedConserves<R>(c: Setup<R>, s: System<R>, why: Reason<R>, next: seq<R>)
    requires History(SettingsOf(c), s.delivered, s.batch) && Proper(SettingsOf(c), s.batch)
    requires Justified(SettingsOf(c), Sent(s.batch, why), Head(next))
    ensures var s' := Emptied(s, why);
            && History(SettingsOf(c), s'.delivered, next)
            && Delivered(s'.delivered) == Delivered(s.delivered) + s.batch
  {
    hide History, Proper, Justified, Delivered;
    HistoryCloses(SettingsOf(c), s.delivered, s.batch, why, next);
    DeliveredSnoc(s.delivered, Sent(s.batch, why));
  }

  lemma ClearedIsSound<R>(c: Setup<R>, s: System<R>)
    requires c.batchSize > 0 && Sound(c, s) && s.phase.Clearing?
    ensures Sound(c, AfterSend(c, s, true))
  {
    var r, why := s.phase.record, ClosedBy(SettingsOf(c), s.batch, s.phase.record);
    WhyClosed(SettingsOf(c), s.batch, r);
    hide Q.Consistent, History, Proper, Filled, Delivered, Justified, WithRecord, ClosedBy;
    EmptiedConserves(c, s, why, [r]);
    var s' := Emptied(s, why);
    assert s'.batch + [r] == [r];
    assert Delivered(s'.delivered) + s'.batch + [r] == Delivered(s.delivered) + s.batch + [r];
    WithRecordIsSound(c, s', r, s.phase.draining);
  }

  lemma SendingIsJustified<R>(c: Setup<R>, s: System<R>)
    requires Batched(c, s) && s.phase.Sending?
    ensures Proper(SettingsOf(c), s.batch) && History(SettingsOf(c), s.delivered, s.batch)
    ensures Justified(SettingsOf(c), Sent(s.batch, s.phase.why), Head([]))
  {
  }

  lemma SelectingIsSound<R>(c: Setup<R>, s: System<R>)
    requires Q.Consistent(c.limits, s.queue) && s.batch == [] && s.drained == None
    requires s.queue.consumer.Working? || s.queue.consumer.Selecting?
    requires History(SettingsOf(c), s.delivered, []) && s.queue.received == Delivered(s.delivered)
    ensures Sound(c, s.(phase := Selecting, queue := Turned(c, s.queue, Q.Resume)))
  {
    hide Q.Consistent, History, Proper, Filled, MustClose, Delivered;
    TurnedIsConsistent(c, s.queue, Q.Resume);
    assert Delivered(s.delivered) + [] + [] == Delivered(s.delivered);
  }

  lemma SentIsSound<R>(c: Setup<R>, s: System<R>)
    requires Sound(c, s) && s.phase.Sending?
    ensures Sound(c, AfterSend(c, s, true))
  {
    hide Q.Consistent, History, Proper, Delivered, Justified, Batched, Turned, Stopped;
    SendingIsJustified(c, s);
    EmptiedConserves(c, s, s.phase.why, []);
    var s' := Emptied(s, s.phase.why);
    assert Delivered(s.delivered) + s.batch + [] == Delivered(s'.delivered) == Delivered(s'.delivered) + [] + [];
    if s.phase.why.Final? {
      StoppedIsSound(c, s', true, None);
    } else {
      SelectingIsSound(c, s');
    }
  }

  lemma FailedIsSound<R>(c: Setup<R>, s: System<R>)
    requires Sound(c, s) && (s.phase.Clearing? || s.phase.Sending?)
    ensures Sound(c, AfterSend(c, s, false))
  {
    hide Q.Consistent, History, Proper, Filled, MustClose, Delivered, Stopped;
    StoppedIsSound(c, s, false, if s.phase.Clearing? then Some(s.phase.record) else None);
  }

  lemma FindEmptyIsSound<R>(c: Setup<R>, s: System<R>)
    requires Sound(c, s) && Enabled(c, s, FindEmpty)
    ensures Sound(c, Apply(c, s, FindEmpty))
  {
    hide Q.Accounted, Q.NoLostWakeup, History, Proper, Filled, MustClose, Delivered, Stopped;
    assert s.queue.received + [] == s.queue.received == s.queue.sent;
    assert s.queue.sent[..|s.queue.sent|] == s.queue.sent;
    if s.batch == [] {
      StoppedIsSound(c, s.(drained := Some(|s.queue.sent|)), true, None);
    }
  }

  lemma ApplyIsSound<R>(c: Setup<R>, s: System<R>, a: Action<R>)
    requires c.batchSize > 0 && Sound(c, s) && Enabled(c, s, a)
    ensures Sound(c, Apply(c, s, a))
  {
    match a
    case Produce(step) => ProduceIsSound(c, s, step);
    case Receive => ReceiveIsSound(c, s);
    case Release => ReleaseIsSound(c, s);
    case Append => AppendIsSound(c, s);
    case SendEnds(ok) =>
      hide Sound, AfterSend;
      if !ok {
        FailedIsSound(c, s);
      } else if s.phase.Clearing? {
        ClearedIsSound(c, s);
      } else {
        SentIsSound(c, s);
      }
    case TimerTicks =>
      hide Q.Consistent, History, Proper, Filled, MustClose, Delivered;
    case Cancel =>
      hide Q.Consistent, History, Proper, Filled, MustClose, Delivered;
    case FindEmpty => FindEmptyIsSound(c, s);
  }

  lemma {:induction false} RunIsSound<R>(c: Setup<R>, s: System<R>, actions: seq<Action<R>>, s': System<R>)
    requires c.batchSize > 0 && Sound(c, s) && Run(c, s, actions, s')
    ensures Sound(c, s')
    decreases |actions|
  {
    hide Sound, Apply, Enabled;
    if actions != [] {
      ApplyIsSound(c, s, actions[0]);
      RunIsSound(c, Apply(c, s, actions[0]), actions[1..], s');
    }
  }

  lemma StartIsSound<R>(c: Setup<R>, s: System<R>)
    requires Initial(s)
    ensures Sound(c, s)
  {
    hide Q.Consistent, Delivered;
    NothingCollected(SettingsOf(c));
    Q.ReachableIsConsistent(c.limits, s.queue, [], s.queue);
  }

  lemma HistoryOf<R>(c: Setup<R>, s: System<R>)
    requires Batched(c, s)
    ensures History(SettingsOf(c), s.delivered, s.batch)
    ensures s.phase.Selecting? && s.batch != [] ==>
              |s.batch| < c.batchSize && Bytes(SettingsOf(c), s.batch) < c.maxBatchBytes
  {
  }

  /**
   From producer to delivery: in every reachable interleaving what was sent to the queue is what was
   delivered, what is batched, the record in hand and what the queue holds, in that order, and every batch
   delivered was proper and had to be closed where it was.
   */
  lemma SentIsAccountedFor<R>(c: Setup<R>, s: System<R>, actions: seq<Action<R>>, s': System<R>)
    requires c.batchSize > 0 && Initial(s) && Run(c, s, actions, s')
    ensures s'.queue.sent == Delivered(s'.delivered) + s'.batch + InHand(s'.phase) + s'.queue.channel
    ensures History(SettingsOf(c), s'.delivered, s'.batch) && Q.Consistent(c.limits, s'.queue)
    ensures s'.phase.Selecting? && s'.batch != [] ==>
              |s'.batch| < c.batchSize && Bytes(SettingsOf(c), s'.batch) < c.maxBatchBytes
  {
    hide Q.Accounted, Q.NoLostWakeup, History, Delivered, Batched, DrainedAll, OnQueue, Run, Initial;
    StartIsSound(c, s);
    RunIsSound(c, s, actions, s');
    HistoryOf(c, s');
  }

  /**
   When the loop returned nil, what had been sent when the drain found the queue empty was delivered, in
   order; what is left in the queue was sent after that. So everything was delivered exactly when the queue
   is empty.
   */
  lemma NilMeansDrained<R>(c: Setup<R>, s: System<R>, actions: seq<Action<R>>, s': System<R>)
    requires c.batchSize > 0 && Initial(s) && Run(c, s, actions, s') && s'.phase.Returned? && s'.phase.nil
    ensures s'.drained.Some? && s'.drained.value <= |s'.queue.sent|
    ensures Delivered(s'.delivered) == s'.queue.sent[..s'.drained.value]
    ensures s'.queue.channel == s'.queue.sent[s'.drained.value..]
    ensures Delivered(s'.delivered) == s'.queue.sent <==> s'.queue.channel == []
  {
    hide Q.Accounted, Q.NoLostWakeup, History, Delivered, OnQueue, Run, Initial, Proper, Filled, MustClose;
    StartIsSound(c, s);
    RunIsSound(c, s, actions, s');
    var d := s'.drained.value;
    assert Delivered(s'.delivered) + [] + [] == Delivered(s'.delivered);
    assert s'.queue.sent == s'.queue.sent[..d] + s'.queue.channel;
    assert s'.queue.channel == s'.queue.sent[d..];
  }

  // ----- the graceful stop

  /** No producer is inside `Enqueue`, and nothing was sent since. */
  ghost predicate Quiet<R>(s: System<R>, sent: seq<R>) {
    Q.AllIdle(s.queue.producers) && s.queue.sent == sent && (s.drained.Some? ==> s.drained.value == |sent|)
  }

  lemma ApplyKeepsQuiet<R>(c: Setup<R>, s: System<R>, a: Action<R>, sent: seq<R>)
    requires Quiet(s, sent) && Enabled(c, s, a) && !(a.Produce? && a.step.Enqueue?)
    ensures Quiet(Apply(c, s, a), sent)
  {
    hide Filled, MustClose, ClosedBy;
  }

  lemma {:induction false} RunKeepsQuiet<R>(c: Setup<R>, s: System<R>, actions: seq<Action<R>>, s': System<R>,
                                            sent: seq<R>)
    requires Quiet(s, sent) && Run(c, s, actions, s')
    requires forall i | 0 <= i < |actions| :: !(actions[i].Produce? && actions[i].step.Enqueue?)
    ensures Quiet(s', sent)
    decreases |actions|
  {
    hide Quiet, Apply, Enabled;
    if actions != [] {
      ApplyKeepsQuiet(c, s, actions[0], sent);
      RunKeepsQuiet(c, Apply(c, s, actions[0]), actions[1..], s', sent);
    }
  }

  lemma {:induction false} RunConcat<R>(c: Setup<R>, s0: System<R>, a: seq<Action<R>>, s: System<R>,
                                        b: seq<Action<R>>, s': System<R>)
    requires Run(c, s0, a, s) && Run(c, s, b, s')
    ensures Run(c, s0, a + b, s')
    decreases |a|
  {
    hide Apply, Enabled;
    if a == [] {
      assert a + b == b;
    } else {
      assert (a + b)[1..] == a[1..] + b;
      RunConcat(c, Apply(c, s0, a[0]), a[1..], s, b, s');
    }
  }

  /**
   The collector cancels the loop when all producers have returned and no new record can come: then a nil
   return means that everything that was ever sent to the queue was delivered, in order.
   */
  lemma QuietStopDeliversAll<R>(c: Setup<R>, s0: System<R>, before: seq<Action<R>>, s: System<R>,
                                actions: seq<Action<R>>, s': System<R>)
    requires c.batchSize > 0 && Initial(s0) && Run(c, s0, before, s) && Run(c, s, actions, s')
    requires Q.AllIdle(s.queue.producers) && s.drained == None
    requires forall i | 0 <= i < |actions| :: !(actions[i].Produce? && actions[i].step.Enqueue?)
    requires s'.phase.Returned? && s'.phase.nil
    ensures Delivered(s'.delivered) == s'.queue.sent == s.queue.sent && s'.queue.channel == []
  {
    hide Run, Initial, Delivered, Apply, Enabled;
    RunKeepsQuiet(c, s, actions, s', s.queue.sent);
    RunConcat(c, s0, before, s, actions, s');
    NilMeansDrained(c, s0, before + actions, s');
  }

  lemma FinalSendReturns<R>(c: Setup<R>, s: System<R>)
    requires s.phase == Sending(Final)
    ensures AfterSend(c, s, true).phase == Returned(true, None)
    ensures AfterSend(c, s, true).queue.channel == s.queue.channel && AfterSend(c, s, true).queue.sent == s.queue.sent
  {
  }

  lemma ReceivedWasDelivered<R>(c: Setup<R>, s: System<R>)
    requires Sound(c, s) && s.phase.Returned? && s.phase.nil
    ensures s.queue.sent == Delivered(s.delivered) + s.queue.channel
  {
    hide Q.Accounted, Q.NoLostWakeup, History, Delivered, Proper, Filled, MustClose, OnQueue;
    assert Delivered(s.delivered) + [] + [] == Delivered(s.delivered);
  }

  /**
   Without that order a record may be left behind: one that a producer sends while the last batch is on its
   way stays in the queue although `Enqueue` and the loop both return nil.
   */
  lemma LateRecordIsLeftBehind<R>(c: Setup<R>, s: System<R>, p: nat)
    requires c.batchSize > 0 && Sound(c, s) && s.phase == Sending(Final)
    requires p < |s.queue.producers| && s.queue.producers[p].Holding? && |s.queue.channel| < c.limits.capacity
    ensures var late := Apply(c, s, Produce(Q.Send(p)));
            var s' := Apply(c, late, SendEnds(true));
            && s'.phase == Returned(true, None)
            && s'.queue.channel == s.queue.channel + [s.queue.producers[p].record]
            && Delivered(s'.delivered) != s'.queue.sent
  {
    hide Sound, AfterSend;
    var late := Apply(c, s, Produce(Q.Send(p)));
    ApplyIsSound(c, s, Produce(Q.Send(p)));
    ApplyIsSound(c, late, SendEnds(true));
    FinalSendReturns(c, late);
    ReceivedWasDelivered(c, Apply(c, late, SendEnds(true)));
  }

  // ----- what the steps of the loop achieve

  /** A tick with something collected sends it; delivered, nothing received is left undelivered. */
  lemma TickDelivers<R>(c: Setup<R>, s: System<R>)
    requires c.batchSize > 0 && Sound(c, s) && s.phase.Selecting?
    ensures var ticked := Apply(c, s, TimerTicks);
            if s.batch == [] then ticked == s && Delivered(s.delivered) == s.queue.received
            else
              && Enabled(c, ticked, SendEnds(true))
              && var s' := Apply(c, ticked, SendEnds(true));
                 && s'.phase.Selecting? && s'.batch == []
                 && Delivered(s'.delivered) == s'.queue.received == s.queue.received
  {
    var ticked := Apply(c, s, TimerTicks);
    ApplyIsSound(c, s, TimerTicks);
    hide Q.Consistent, History, Proper, Filled, MustClose, Delivered;
    if s.batch == [] {
      assert Delivered(s.delivered) + [] + [] == Delivered(s.delivered);
    } else {
      ApplyIsSound(c, ticked, SendEnds(true));
      var s' := Apply(c, ticked, SendEnds(true));
      assert Delivered(s'.delivered) + [] + [] == Delivered(s'.delivered);
    }
  }

  predicate ByLoop<R>(a: Action<R>) {
    !a.Produce? && (a.SendEnds? ==> a.ok)
  }

  lemma RunOfOne<R>(c: Setup<R>, s: System<R>, a: Action<R>)
    requires Enabled(c, s, a)
    ensures Run(c, s, [a], Apply(c, s, a))
  {
    hide Apply, Enabled;
    assert [a][1..] == [];
  }

  lemma RunOfThree<R>(c: Setup<R>, s: System<R>, a1: Action<R>, a2: Action<R>, a3: Action<R>)
    requires Enabled(c, s, a1) && Enabled(c, Apply(c, s, a1), a2)
    requires Enabled(c, Apply(c, Apply(c, s, a1), a2), a3)
    ensures Run(c, s, [a1, a2, a3], Apply(c, Apply(c, Apply(c, s, a1), a2), a3))
  {
    hide Apply, Enabled;
    var s1 := Apply(c, s, a1);
    var s2 := Apply(c, s1, a2);
    RunOfOne(c, s, a1);
    RunOfOne(c, s1, a2);
    RunOfOne(c, s2, a3);
    RunConcat(c, s1, [a2], s2, [a3], Apply(c, s2, a3));
    RunConcat(c, s, [a1], s1, [a2] + [a3], Apply(c, s2, a3));
    assert [a1] + ([a2] + [a3]) == [a1, a2, a3];
  }

  lemma RunOfFour<R>(c: Setup<R>, s: System<R>, a1: Action<R>, a2: Action<R>, a3: Action<R>, a4: Action<R>)
    requires Enabled(c, s, a1) && Enabled(c, Apply(c, s, a1), a2)
    requires Enabled(c, Apply(c, Apply(c, s, a1), a2), a3)
    requires Enabled(c, Apply(c, Apply(c, Apply(c, s, a1), a2), a3), a4)
    ensures Run(c, s, [a1, a2, a3, a4], Apply(c, Apply(c, Apply(c, Apply(c, s, a1), a2), a3), a4))
  {
    hide Apply, Enabled;
    var s3 := Apply(c, Apply(c, Apply(c, s, a1), a2), a3);
    RunOfThree(c, s, a1, a2, a3);
    RunOfOne(c, s3, a4);
    RunConcat(c, s, [a1, a2, a3], s3, [a4], Apply(c, s3, a4));
    assert [a1, a2, a3] + [a4] == [a1, a2, a3, a4];
  }

  /** A failed send ends the loop: the batch and the record in hand stay undelivered, the queue is left alone. */
  lemma FailedSendReturns<R>(c: Setup<R>, s: System<R>)
    requires Sound(c, s) && Enabled(c, s, SendEnds(false))
    ensures var s' := Apply(c, s, SendEnds(false));
            && s'.phase == Returned(false, if s.phase.Clearing? then Some(s.phase.record) else None)
            && s'.batch == s.batch && s'.delivered == s.delivered
            && s'.queue.channel == s.queue.channel && s'.queue.sent == s.queue.sent && s'.queue.consumer.Stopped?
  {
    hide Q.Consistent, History, Proper, Filled, MustClose, Delivered;
  }

  /** The steps of the loop that take one record in the drain, with every send succeeding. */
  lemma DrainTakesOne<R>(c: Setup<R>, s: System<R>) returns (actions: seq<Action<R>>, s': System<R>)
    requires c.batchSize > 0 && Sound(c, s) && s.phase.Draining? && s.queue.channel != []
    ensures Run(c, s, actions, s') && s'.phase.Draining? && s'.queue.channel == s.queue.channel[1..]
    ensures s'.queue.sent == s.queue.sent && forall i | 0 <= i < |actions| :: ByLoop(actions[i])
  {
    hide Q.Accounted, Q.NoLostWakeup, History, Proper, Filled, MustClose, Delivered, Run;
    var received := Apply(c, s, Receive);
    var released := Apply(c, received, Release);
    var appended := Apply(c, released, Append);
    if appended.phase.Clearing? {
      s' := Apply(c, appended, SendEnds(true));
      actions := [Receive, Release, Append, SendEnds(true)];
      RunOfFour(c, s, Receive, Release, Append, SendEnds(true));
    } else {
      s' := appended;
      actions := [Receive, Release, Append];
      RunOfThree(c, s, Receive, Release, Append);
    }
  }

  /** With the queue empty the drain sends what is left and returns nil. */
  lemma DrainEnds<R>(c: Setup<R>, s: System<R>) returns (actions: seq<Action<R>>, s': System<R>)
    requires c.batchSize > 0 && Sound(c, s) && s.phase.Draining? && s.queue.channel == []
    ensures Run(c, s, actions, s') && s'.phase == Returned(true, None) && s'.queue.channel == []
    ensures s'.queue.sent == s.queue.sent && forall i | 0 <= i < |actions| :: ByLoop(actions[i])
  {
    hide Q.Accounted, Q.NoLostWakeup, History, Proper, Filled, MustClose, Delivered, Run;
    var found := Apply(c, s, FindEmpty);
    RunOfOne(c, s, FindEmpty);
    if s.batch == [] {
      return [FindEmpty], found;
    }
    s' := Apply(c, found, SendEnds(true));
    RunOfOne(c, found, SendEnds(true));
    RunConcat(c, s, [FindEmpty], found, [SendEnds(true)], s');
    actions := [FindEmpty] + [SendEnds(true)];
  }

  lemma {:induction false} DrainReturns<R>(c: Setup<R>, s: System<R>) returns (actions: seq<Action<R>>, s': System<R>)
    requires c.batchSize > 0 && Sound(c, s) && s.phase.Draining?
    ensures Run(c, s, actions, s') && s'.phase == Returned(true, None) && s'.queue.channel == []
    ensures s'.queue.sent == s.queue.sent && forall i | 0 <= i < |actions| :: ByLoop(actions[i])
    decreases |s.queue.channel|
  {
    hide Sound, Run;
    if s.queue.channel == [] {
      actions, s' := DrainEnds(c, s);
    } else {
      var first, rest, t;
      first, t := DrainTakesOne(c, s);
      RunIsSound(c, s, first, t);
      rest, s' := DrainReturns(c, t);
      RunConcat(c, s, first, t, rest, s');
      actions := first + rest;
    }
  }

  /**
   From every state in which the loop waits, the cancellation lets it return nil by its own steps alone when
   its sends succeed, and then everything sent to the queue is delivered.
   */
  lemma CancelledLoopReturns<R>(c: Setup<R>, s: System<R>) returns (actions: seq<Action<R>>, s': System<R>)
    requires c.batchSize > 0 && Sound(c, s) && s.phase.Selecting?
    ensures Run(c, s, actions, s') && actions != [] && actions[0] == Cancel
    ensures forall i | 0 <= i < |actions| :: ByLoop(actions[i])
    ensures s'.phase == Returned(true, None) && s'.queue.channel == []
    ensures Delivered(s'.delivered) == s'.queue.sent == s.queue.sent
  {
    hide Sound, Run, Delivered, AfterSend, WithRecord, Stopped;
    var draining := Apply(c, s, Cancel);
    ApplyIsSound(c, s, Cancel);
    RunOfOne(c, s, Cancel);
    var rest;
    rest, s' := DrainReturns(c, draining);
    RunConcat(c, s, [Cancel], draining, rest, s');
    actions := [Cancel] + rest;
    RunIsSound(c, draining, rest, s');
    ReceivedWasDelivered(c, s');
  }
}
