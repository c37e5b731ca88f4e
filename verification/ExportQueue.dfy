/**
 The exporter's byte-bounded queue: producers reserve bytes, then send on a bounded channel; one consumer
 receives, releases the bytes and goes on to batch and send. A producer that does not fit waits for the
 notify channel, which is closed and replaced at every release; here it is a generation number, and a
 generation is closed when it is older than the current one.
 */
module ExportQueue {
  import opened Wrappers

  datatype Budget = Budget(queued: int, generation: nat)

  function Reserved(b: Budget, size: nat): Budget {
    b.(queued := b.queued + size)
  }

  function Released(b: Budget, size: nat): Budget {
    Budget(b.queued - size, b.generation + 1)
  }

  predicate FitsIn(b: Budget, size: nat, maxBytes: nat) {
    b.queued + size <= maxBytes
  }

  /** The counter and the notify channel, guarded by one lock. */
  class ByteBudget {
    const maxBytes: nat
    var queuedBytes: int
    var queueNotify: nat

    constructor (maxBytes: nat)
      ensures this.maxBytes == maxBytes && State() == Budget(0, 0)
    {
      this.maxBytes, queuedBytes, queueNotify := maxBytes, 0, 0;
    }

    function State(): Budget
      reads this
    {
      Budget(queuedBytes, queueNotify)
    }

    /** One turn of the reservation loop: reserves, or returns the generation to wait for. */
    method TryReserve(size: nat) returns (waitFor: Option<nat>)
      modifies this
      ensures waitFor.None? <==> old(queuedBytes) + size <= maxBytes
      ensures queuedBytes == old(queuedBytes) + (if waitFor.None? then size else 0) && queueNotify == old(queueNotify)
      ensures waitFor.None? <==> FitsIn(old(State()), size, maxBytes)
      ensures State() == if waitFor.None? then Reserved(old(State()), size) else old(State())
      ensures waitFor.Some? ==> waitFor.value == old(queueNotify)
    {
      if queuedBytes + size <= maxBytes {
        queuedBytes := queuedBytes + size;
        return None;
      }
      return Some(queueNotify);
    }

    method Release(size: nat)
      modifies this
      ensures queuedBytes == old(queuedBytes) - size && queueNotify == old(queueNotify) + 1
      ensures State() == Released(old(State()), size)
    {
      queuedBytes := queuedBytes - size;
      queueNotify := queueNotify + 1;
    }
  }

  // ----- producers and consumer as interleaved steps

  datatype Producer<R> =
    | Idle
    | Trying(record: R)                     // about to look at the counter
    | Waiting(record: R, generation: nat)   // blocked on a notify channel
    | Holding(record: R)                    // bytes reserved, blocked on the channel
    | Refunding(record: R)                  // cancelled while blocked on the channel

  datatype Consumer<R> = Selecting | Received(record: R) | Working | Stopped

  datatype Limits<!R> = Limits(maxBytes: nat, capacity: nat, size: R -> nat)

  /** `sent` and `received` remember what went into the channel and what came out of it. */
  datatype System<R> = System(
    budget: Budget,
    channel: seq<R>,
    producers: seq<Producer<R>>,
    consumer: Consumer<R>,
    sent: seq<R>,
    received: seq<R>)

  datatype Action<R> =
    | Enqueue(p: nat, record: R)
    | TryReserve(p: nat)
    | Wake(p: nat)
    | GiveUp(p: nat)
    | Send(p: nat)
    | Abort(p: nat)
    | Refund(p: nat)
    | Receive
    | Release
    | Resume
    | Halt

  predicate ByProducer<R>(a: Action<R>) {
    a.Enqueue? || a.TryReserve? || a.Wake? || a.GiveUp? || a.Send? || a.Abort? || a.Refund?
  }

  predicate Enabled<R>(l: Limits<R>, s: System<R>, a: Action<R>) {
    match a
    case Enqueue(p, r) => p < |s.producers| && s.producers[p].Idle?
    case TryReserve(p) => p < |s.producers| && s.producers[p].Trying?
    case Wake(p) => p < |s.producers| && s.producers[p].Waiting? && s.producers[p].generation < s.budget.generation
    case GiveUp(p) => p < |s.producers| && s.producers[p].Waiting?
    case Send(p) => p < |s.producers| && s.producers[p].Holding? && |s.channel| < l.capacity
    case Abort(p) => p < |s.producers| && s.producers[p].Holding?
    case Refund(p) => p < |s.producers| && s.producers[p].Refunding?
    case Receive => s.consumer.Selecting? && s.channel != []
    case Release => s.consumer.Received?
    case Resume => s.consumer.Working?
    case Halt => s.consumer.Working? || s.consumer.Selecting?
  }

  function WithProducer<R>(s: System<R>, p: nat, state: Producer<R>): System<R>
    requires p < |s.producers|
  {
    s.(producers := s.producers[p := state])
  }

  function Apply<R>(l: Limits<R>, s: System<R>, a: Action<R>): System<R>
    requires Enabled(l, s, a)
  {
    match a
    case Enqueue(p, r) => if l.size(r) > l.maxBytes then s else WithProducer(s, p, Trying(r))
    case TryReserve(p) =>
      var r := s.producers[p].record;
      if FitsIn(s.budget, l.size(r), l.maxBytes)
      then WithProducer(s, p, Holding(r)).(budget := Reserved(s.budget, l.size(r)))
      else WithProducer(s, p, Waiting(r, s.budget.generation))
    case Wake(p) => WithProducer(s, p, Trying(s.producers[p].record))
    case GiveUp(p) => WithProducer(s, p, Idle)
    case Send(p) =>
      var r := s.producers[p].record;
      WithProducer(s, p, Idle).(channel := s.channel + [r], sent := s.sent + [r])
    case Abort(p) => WithProducer(s, p, Refunding(s.producers[p].record))
    case Refund(p) =>
      WithProducer(s, p, Idle).(budget := Released(s.budget, l.size(s.producers[p].record)))
    case Receive =>
      s.(channel := s.channel[1..], consumer := Received(s.channel[0]), received := s.received + [s.channel[0]])
    case Release => s.(budget := Released(s.budget, l.size(s.consumer.record)), consumer := Working)
    case Resume => s.(consumer := Selecting)
    case Halt => s.(consumer := Stopped)
  }

  ghost predicate Run<R>(l: Limits<R>, s: System<R>, actions: seq<Action<R>>, s': System<R>)
    decreases |actions|
  {
    if actions == [] then s' == s
    else Enabled(l, s, actions[0]) && Run(l, Apply(l, s, actions[0]), actions[1..], s')
  }

  ghost predicate AllIdle<R>(producers: seq<Producer<R>>) {
    forall p | 0 <= p < |producers| :: producers[p].Idle?
  }

  ghost predicate Initial<R>(s: System<R>) {
    s.budget == Budget(0, 0) && s.channel == [] && s.consumer.Selecting? && AllIdle(s.producers)
    && s.sent == s.received == []
  }

  // ----- accounting

  function ChannelBytes<R>(l: Limits<R>, channel: seq<R>): nat {
    if channel == [] then 0 else l.size(channel[0]) + ChannelBytes(l, channel[1..])
  }

  /** Bytes a producer has reserved and neither sent nor refunded. */
  function HeldBy<R>(l: Limits<R>, p: Producer<R>): nat {
    if p.Holding? || p.Refunding? then l.size(p.record) else 0
  }

  function HeldBytes<R>(l: Limits<R>, producers: seq<Producer<R>>): nat {
    if producers == [] then 0 else HeldBy(l, producers[0]) + HeldBytes(l, producers[1..])
  }

  function ReceivedBytes<R>(l: Limits<R>, c: Consumer<R>): nat {
    if c.Received? then l.size(c.record) else 0
  }

  /** The counter is what is in the channel, reserved but not sent, and received but not released. */
  ghost predicate Accounted<R>(l: Limits<R>, s: System<R>) {
    && s.budget.queued == ChannelBytes(l, s.channel) + HeldBytes(l, s.producers) + ReceivedBytes(l, s.consumer)
    && 0 <= s.budget.queued <= l.maxBytes
  }

  /** A producer waiting for the current generation does not fit, and no record is inadmissible. */
  ghost predicate NoLostWakeup<R>(l: Limits<R>, s: System<R>) {
    forall p | 0 <= p < |s.producers| && !s.producers[p].Idle? ::
      && l.size(s.producers[p].record) <= l.maxBytes
      && (s.producers[p].Waiting? ==>
            && s.producers[p].generation <= s.budget.generation
            && (s.producers[p].generation == s.budget.generation ==>
                  !FitsIn(s.budget, l.size(s.producers[p].record), l.maxBytes)))
  }

  /** The channel is a queue: what was received is what was sent, once and in order, but for its content. */
  ghost predicate InOrder<R>(s: System<R>) {
    s.sent == s.received + s.channel
  }

  ghost predicate Consistent<R>(l: Limits<R>, s: System<R>) {
    Accounted(l, s) && NoLostWakeup(l, s) && |s.channel| <= l.capacity && InOrder(s)
  }

  lemma {:induction false} HeldBytesUpdate<R>(l: Limits<R>, producers: seq<Producer<R>>, p: nat, state: Producer<R>)
    requires p < |producers|
    ensures HeldBytes(l, producers[p := state]) == HeldBytes(l, producers) - HeldBy(l, producers[p]) + HeldBy(l, state)
  {
    if p == 0 {
      assert producers[0 := state][1..] == producers[1..];
    } else {
      assert producers[p := state][1..] == producers[1..][p - 1 := state];
      HeldBytesUpdate(l, producers[1..], p - 1, state);
    }
  }

  lemma {:induction false} ChannelBytesSnoc<R>(l: Limits<R>, channel: seq<R>, r: R)
    ensures ChannelBytes(l, channel + [r]) == ChannelBytes(l, channel) + l.size(r)
  {
    if channel != [] {
      assert (channel + [r])[1..] == channel[1..] + [r];
      ChannelBytesSnoc(l, channel[1..], r);
    } else {
      assert [r][1..] == [];
    }
  }

  lemma {:induction false} NothingHeld<R>(l: Limits<R>, producers: seq<Producer<R>>)
    requires AllIdle(producers)
    ensures HeldBytes(l, producers) == 0
  {
    if producers != [] {
      NothingHeld(l, producers[1..]);
    }
  }

  lemma ApplyKeepsAccounts<R>(l: Limits<R>, s: System<R>, a: Action<R>)
    requires Consistent(l, s) && Enabled(l, s, a)
    ensures Accounted(l, Apply(l, s, a))
  {
    var s' := Apply(l, s, a);
    if s'.producers != s.producers {
      HeldBytesUpdate(l, s.producers, a.p, s'.producers[a.p]);
    }
    if a.Send? {
      ChannelBytesSnoc(l, s.channel, s.producers[a.p].record);
    }
  }

  lemma ApplyKeepsWakeups<R>(l: Limits<R>, s: System<R>, a: Action<R>)
    requires Consistent(l, s) && Enabled(l, s, a)
    ensures NoLostWakeup(l, Apply(l, s, a)) && |Apply(l, s, a).channel| <= l.capacity
  {
    hide Accounted, InOrder;
  }

  lemma ApplyKeepsOrder<R>(l: Limits<R>, s: System<R>, a: Action<R>)
    requires InOrder(s) && Enabled(l, s, a)
    ensures InOrder(Apply(l, s, a))
  {
    if a.Receive? {
      assert s.channel == [s.channel[0]] + s.channel[1..];
    }
  }

  lemma ApplyIsConsistent<R>(l: Limits<R>, s: System<R>, a: Action<R>)
    requires Consistent(l, s) && Enabled(l, s, a)
    ensures Consistent(l, Apply(l, s, a))
  {
    hide Accounted, NoLostWakeup, InOrder;
    ApplyKeepsAccounts(l, s, a);
    ApplyKeepsWakeups(l, s, a);
    ApplyKeepsOrder(l, s, a);
  }

  /** In every reachable interleaving the counter is exact, stays within bounds, and no wakeup is lost. */
  lemma {:induction false} RunIsConsistent<R>(l: Limits<R>, s: System<R>, actions: seq<Action<R>>, s': System<R>)
    requires Consistent(l, s) && Run(l, s, actions, s')
    ensures Consistent(l, s')
    decreases |actions|
  {
    if actions != [] {
      ApplyIsConsistent(l, s, actions[0]);
      RunIsConsistent(l, Apply(l, s, actions[0]), actions[1..], s');
    }
  }

  lemma ReachableIsConsistent<R>(l: Limits<R>, s: System<R>, actions: seq<Action<R>>, s': System<R>)
    requires Initial(s) && Run(l, s, actions, s')
    ensures Consistent(l, s')
  {
    NothingHeld(l, s.producers);
    RunIsConsistent(l, s, actions, s');
  }

  // ----- what becomes of the records that are offered

  /** The records the calls of `Enqueue` do not refuse for their size, from the actions alone. */
  function Offered<R(==)>(l: Limits<R>, actions: seq<Action<R>>): multiset<R> {
    if actions == [] then multiset{}
    else
      var a := actions[0];
      (if a.Enqueue? && l.size(a.record) <= l.maxBytes then multiset{a.record} else multiset{})
      + Offered(l, actions[1..])
  }

  /** The record whose producer returns because its context was cancelled. */
  ghost function Withdrawn<R>(s: System<R>, a: Action<R>): multiset<R> {
    if (a.GiveUp? || a.Refund?) && a.p < |s.producers| && !s.producers[a.p].Idle?
    then multiset{s.producers[a.p].record} else multiset{}
  }

  ghost function AllWithdrawn<R>(l: Limits<R>, s: System<R>, actions: seq<Action<R>>): multiset<R>
    decreases |actions|
  {
    if actions == [] || !Enabled(l, s, actions[0]) then multiset{}
    else Withdrawn(s, actions[0]) + AllWithdrawn(l, Apply(l, s, actions[0]), actions[1..])
  }

  ghost function HeldIn<R>(p: Producer<R>): multiset<R> {
    if p.Idle? then multiset{} else multiset{p.record}
  }

  /** The records of the producers inside `Enqueue`. */
  ghost function InCalls<R>(producers: seq<Producer<R>>): multiset<R> {
    if producers == [] then multiset{} else HeldIn(producers[0]) + InCalls(producers[1..])
  }

  lemma SumsWithMore<R>(more: multiset<R>, a: multiset<R>, x: multiset<R>, b: multiset<R>, y: multiset<R>)
    requires a + x == b + y
    ensures more + a + x == more + b + y
  {
    assert more + a + x == more + (a + x);
    assert more + b + y == more + (b + y);
  }

  lemma {:induction false} InCallsUpdate<R>(producers: seq<Producer<R>>, p: nat, state: Producer<R>)
    requires p < |producers|
    ensures InCalls(producers[p := state]) + HeldIn(producers[p]) == InCalls(producers) + HeldIn(state)
  {
    hide HeldIn;
    var after := producers[p := state];
    assert InCalls(after) == HeldIn(after[0]) + InCalls(after[1..]);
    assert InCalls(producers) == HeldIn(producers[0]) + InCalls(producers[1..]);
    if p == 0 {
      assert after[1..] == producers[1..];
    } else {
      assert after[1..] == producers[1..][p - 1 := state];
      InCallsUpdate(producers[1..], p - 1, state);
      SumsWithMore(HeldIn(producers[0]), InCalls(after[1..]), HeldIn(producers[p]),
                   InCalls(producers[1..]), HeldIn(state));
    }
  }

  lemma {:induction false} NobodyInCalls<R>(producers: seq<Producer<R>>)
    requires AllIdle(producers)
    ensures InCalls(producers) == multiset{}
  {
    if producers != [] {
      NobodyInCalls(producers[1..]);
    }
  }

  lemma SumsMatch<R>(calls: multiset<R>, calls': multiset<R>, held: multiset<R>, held': multiset<R>,
                     sent: multiset<R>, sent': multiset<R>, offered: multiset<R>, withdrawn: multiset<R>)
    requires calls' + held == calls + held'
    requires sent' + withdrawn + held' == sent + offered + held
    ensures calls + sent + offered == calls' + sent' + withdrawn
  {
    forall r
      ensures (calls + sent + offered)[r] == (calls' + sent' + withdrawn)[r]
    {
      assert (calls' + held)[r] == (calls + held')[r];
      assert (sent' + withdrawn + held')[r] == (sent + offered + held)[r];
    }
  }

  lemma SumsChain<R>(before: multiset<R>, middle: multiset<R>, after: multiset<R>,
                     offered: multiset<R>, more: multiset<R>, withdrawn: multiset<R>, rest: multiset<R>)
    requires before + offered == middle + withdrawn && middle + more == after + rest
    ensures before + (offered + more) == after + (withdrawn + rest)
  {
    forall r
      ensures (before + (offered + more))[r] == (after + (withdrawn + rest))[r]
    {
      assert (before + offered)[r] == (middle + withdrawn)[r];
      assert (middle + more)[r] == (after + rest)[r];
    }
  }

  lemma OfferedByOne<R>(l: Limits<R>, a: Action<R>)
    ensures Offered(l, [a])
            == if a.Enqueue? && l.size(a.record) <= l.maxBytes then multiset{a.record} else multiset{}
  {
    assert Offered(l, [a][1..]) == multiset{};
  }

  /** Only a producer's step changes the producers, and only its own. */
  lemma OneProducerMoves<R>(l: Limits<R>, s: System<R>, a: Action<R>)
    requires Enabled(l, s, a) && Apply(l, s, a).producers != s.producers
    ensures ByProducer(a) && a.p < |s.producers|
    ensures Apply(l, s, a).producers == s.producers[a.p := Apply(l, s, a).producers[a.p]]
  {
    hide FitsIn, Reserved, Released;
  }

  lemma RecordComesIn<R>(l: Limits<R>, s: System<R>, a: Action<R>)
    requires Enabled(l, s, a) && a.Enqueue? && Apply(l, s, a).producers != s.producers
    ensures var s' := Apply(l, s, a);
            && s'.sent == s.sent && l.size(a.record) <= l.maxBytes
            && HeldIn(s.producers[a.p]) == multiset{} && HeldIn(s'.producers[a.p]) == multiset{a.record}
  {
  }

  lemma RecordGoesOut<R>(l: Limits<R>, s: System<R>, a: Action<R>)
    requires Enabled(l, s, a) && (a.Send? || a.GiveUp? || a.Refund?)
    ensures var s' := Apply(l, s, a);
            && HeldIn(s'.producers[a.p]) == multiset{} && HeldIn(s.producers[a.p]) == multiset{s.producers[a.p].record}
            && s'.sent == if a.Send? then s.sent + [s.producers[a.p].record] else s.sent
  {
    hide Released;
  }

  lemma RecordStaysIn<R>(l: Limits<R>, s: System<R>, a: Action<R>)
    requires Enabled(l, s, a) && (a.TryReserve? || a.Wake? || a.Abort?)
    ensures Apply(l, s, a).sent == s.sent && HeldIn(Apply(l, s, a).producers[a.p]) == HeldIn(s.producers[a.p])
  {
    hide FitsIn, Reserved;
  }

  /** What a step does to the record of its producer: it comes in, goes out, or stays. */
  lemma MovesMatch<R>(l: Limits<R>, s: System<R>, a: Action<R>)
    requires Enabled(l, s, a) && Apply(l, s, a).producers != s.producers
    ensures ByProducer(a) && a.p < |s.producers|
    ensures var s' := Apply(l, s, a);
            && s'.producers == s.producers[a.p := s'.producers[a.p]]
            && multiset(s'.sent) + Withdrawn(s, a) + HeldIn(s'.producers[a.p])
               == multiset(s.sent) + Offered(l, [a]) + HeldIn(s.producers[a.p])
  {
    hide Apply, Offered, HeldIn;
    OneProducerMoves(l, s, a);
    OfferedByOne(l, a);
    if a.Enqueue? {
      RecordComesIn(l, s, a);
    } else if a.Send? || a.GiveUp? || a.Refund? {
      RecordGoesOut(l, s, a);
    } else {
      RecordStaysIn(l, s, a);
    }
  }

  lemma StepStays<R>(l: Limits<R>, s: System<R>, a: Action<R>)
    requires Enabled(l, s, a) && Apply(l, s, a).producers == s.producers
    ensures multiset(Apply(l, s, a).sent) + Withdrawn(s, a) == multiset(s.sent) + Offered(l, [a])
  {
    hide FitsIn, Reserved, Released, Offered;
    OfferedByOne(l, a);
  }

  /** One step brings in what it offers, and only sending and withdrawing take a record out of the calls. */
  lemma StepAccounts<R>(l: Limits<R>, s: System<R>, a: Action<R>)
    requires Enabled(l, s, a)
    ensures var s' := Apply(l, s, a);
            InCalls(s.producers) + multiset(s.sent) + Offered(l, [a])
            == InCalls(s'.producers) + multiset(s'.sent) + Withdrawn(s, a)
  {
    hide Apply, Offered, Withdrawn, HeldIn, InCalls;
    var s' := Apply(l, s, a);
    if s'.producers != s.producers {
      MovesMatch(l, s, a);
      InCallsUpdate(s.producers, a.p, s'.producers[a.p]);
      SumsMatch(InCalls(s.producers), InCalls(s'.producers), HeldIn(s.producers[a.p]), HeldIn(s'.producers[a.p]),
                multiset(s.sent), multiset(s'.sent), Offered(l, [a]), Withdrawn(s, a));
    } else {
      StepStays(l, s, a);
      SumsMatch(InCalls(s.producers), InCalls(s.producers), multiset{}, multiset{},
                multiset(s.sent), multiset(s'.sent), Offered(l, [a]), Withdrawn(s, a));
    }
  }

  lemma OfferedOne<R>(l: Limits<R>, actions: seq<Action<R>>)
    requires actions != []
    ensures Offered(l, actions) == Offered(l, [actions[0]]) + Offered(l, actions[1..])
  {
    assert Offered(l, [actions[0]][1..]) == multiset{};
  }

  lemma NothingOffered<R>(l: Limits<R>)
    ensures Offered(l, []) == multiset{}
  {
  }

  lemma {:induction false} RunAccounts<R>(l: Limits<R>, s: System<R>, actions: seq<Action<R>>, s': System<R>)
    requires Run(l, s, actions, s')
    ensures InCalls(s.producers) + multiset(s.sent) + Offered(l, actions)
            == InCalls(s'.producers) + multiset(s'.sent) + AllWithdrawn(l, s, actions)
    decreases |actions|
  {
    hide Apply, Enabled, InCalls, Withdrawn, Offered;
    if actions != [] {
      var a, t := actions[0], Apply(l, s, actions[0]);
      StepAccounts(l, s, a);
      OfferedOne(l, actions);
      RunAccounts(l, t, actions[1..], s');
      SumsChain(InCalls(s.producers) + multiset(s.sent), InCalls(t.producers) + multiset(t.sent),
                InCalls(s'.producers) + multiset(s'.sent), Offered(l, [a]), Offered(l, actions[1..]),
                Withdrawn(s, a), AllWithdrawn(l, t, actions[1..]));
    } else {
      NothingOffered(l);
    }
  }

  /**
   Every record offered and not refused for its size was sent, was withdrawn by a cancelled producer, or is
   still with its producer; each is exactly one of these, and nothing else is.
   */
  lemma OfferedIsAccountedFor<R>(l: Limits<R>, s: System<R>, actions: seq<Action<R>>, s': System<R>)
    requires Initial(s) && Run(l, s, actions, s')
    ensures Offered(l, actions) == multiset(s'.sent) + AllWithdrawn(l, s, actions) + InCalls(s'.producers)
  {
    hide Run, Offered, AllWithdrawn, InCalls;
    NobodyInCalls(s.producers);
    RunAccounts(l, s, actions, s');
    var out := multiset(s'.sent) + AllWithdrawn(l, s, actions) + InCalls(s'.producers);
    assert out == InCalls(s'.producers) + multiset(s'.sent) + AllWithdrawn(l, s, actions);
    assert Offered(l, actions) == multiset{} + multiset([]) + Offered(l, actions);
    assert s.sent == [];
  }

  // ----- progress

  /** Steps that need neither a cancelled context nor a failed send. */
  predicate Ordinary<R>(a: Action<R>) {
    a.TryReserve? || a.Wake? || a.Send? || a.Refund? || a.Receive? || a.Release? || a.Resume?
  }

  lemma {:induction false} SomethingHeld<R>(l: Limits<R>, producers: seq<Producer<R>>) returns (p: nat)
    requires HeldBytes(l, producers) > 0
    ensures p < |producers| && (producers[p].Holding? || producers[p].Refunding?)
  {
    if HeldBy(l, producers[0]) > 0 {
      return 0;
    }
    var q := SomethingHeld(l, producers[1..]);
    return q + 1;
  }

  /**
   No deadlock: while the consumer runs and some producer is inside `Enqueue` or a record is in flight,
   an ordinary step is enabled.
   */
  lemma RunningIsNeverStuck<R>(l: Limits<R>, s: System<R>) returns (a: Action<R>)
    requires Consistent(l, s) && !s.consumer.Stopped? && l.capacity > 0
    requires !AllIdle(s.producers) || s.channel != []
    ensures Ordinary(a) && Enabled(l, s, a)
  {
    if s.consumer.Received? {
      return Release;
    } else if s.consumer.Working? {
      return Resume;
    } else if s.channel != [] {
      return Receive;
    }
    var p: nat :| p < |s.producers| && !s.producers[p].Idle?;
    match s.producers[p]
    case Trying(r) => a := TryReserve(p);
    case Holding(r) => a := Send(p);
    case Refunding(r) => a := Refund(p);
    case Waiting(r, g) =>
      if g < s.budget.generation {
        a := Wake(p);
      } else {
        var q := SomethingHeld(l, s.producers);
        a := if s.producers[q].Holding? then Send(q) else Refund(q);
      }
  }

  /** Once the exporter has stopped every context is cancelled, and every producer still has a step. */
  lemma StoppedIsNeverStuck<R>(l: Limits<R>, s: System<R>, p: nat) returns (a: Action<R>)
    requires p < |s.producers| && !s.producers[p].Idle?
    ensures Enabled(l, s, a) && !a.Enqueue? && a in {TryReserve(p), GiveUp(p), Abort(p), Refund(p)}
  {
    match s.producers[p]
    case Trying(r) => a := TryReserve(p);
    case Holding(r) => a := Abort(p);
    case Refunding(r) => a := Refund(p);
    case Waiting(r, g) => a := GiveUp(p);
  }

  /** When every producer has returned and nothing is being received, the counter is what is left in the channel. */
  lemma QueuedIsLeftInChannel<R>(l: Limits<R>, s: System<R>)
    requires Consistent(l, s) && s.consumer.Stopped? && AllIdle(s.producers)
    ensures s.budget.queued == ChannelBytes(l, s.channel)
  {
    NothingHeld(l, s.producers);
  }

  /** With a running consumer that has nothing left to do, the counter is zero. */
  lemma QuiescentIsEmpty<R>(l: Limits<R>, s: System<R>)
    requires Consistent(l, s) && s.consumer.Selecting? && AllIdle(s.producers) && s.channel == []
    ensures s.budget.queued == 0
  {
    NothingHeld(l, s.producers);
  }

  // ----- every run without new records ends

  function Active<R>(producers: seq<Producer<R>>): nat {
    if producers == [] then 0 else (if producers[0].Idle? then 0 else 1) + Active(producers[1..])
  }

  /** Records whose bytes have not been released or given up. */
  function Open<R>(s: System<R>): nat {
    Active(s.producers) + |s.channel| + if s.consumer.Received? then 1 else 0
  }

  /** Steps a producer may still take before the next release. */
  function StepsOf<R>(p: Producer<R>, generation: nat): nat {
    match p
    case Idle => 0
    case Trying(_) => 6
    case Waiting(_, g) => if g < generation then 7 else 1
    case Holding(_) => 5
    case Refunding(_) => 4
  }

  function Steps<R>(producers: seq<Producer<R>>, generation: nat): nat {
    if producers == [] then 0 else StepsOf(producers[0], generation) + Steps(producers[1..], generation)
  }

  function ConsumerSteps<R>(c: Consumer<R>): nat {
    match c
    case Selecting => 1
    case Received(_) => 2
    case Working => 2
    case Stopped => 0
  }

  function Pending<R>(s: System<R>): nat {
    Steps(s.producers, s.budget.generation) + 2 * |s.channel| + ConsumerSteps(s.consumer)
  }

  lemma {:induction false} ActiveUpdate<R>(producers: seq<Producer<R>>, p: nat, state: Producer<R>)
    requires p < |producers|
    ensures Active(producers[p := state])
            == Active(producers) - (if producers[p].Idle? then 0 else 1) + (if state.Idle? then 0 else 1)
  {
    if p == 0 {
      assert producers[0 := state][1..] == producers[1..];
    } else {
      assert producers[p := state][1..] == producers[1..][p - 1 := state];
      ActiveUpdate(producers[1..], p - 1, state);
    }
  }

  lemma {:induction false} StepsUpdate<R>(producers: seq<Producer<R>>, generation: nat, p: nat, state: Producer<R>)
    requires p < |producers|
    ensures Steps(producers[p := state], generation)
            == Steps(producers, generation) - StepsOf(producers[p], generation) + StepsOf(state, generation)
  {
    if p == 0 {
      assert producers[0 := state][1..] == producers[1..];
    } else {
      assert producers[p := state][1..] == producers[1..][p - 1 := state];
      StepsUpdate(producers[1..], generation, p - 1, state);
    }
  }

  /** Smaller in the lexicographic order of open records and pending steps. */
  predicate Smaller<R>(s': System<R>, s: System<R>) {
    Open(s') < Open(s) || (Open(s') == Open(s) && Pending(s') < Pending(s))
  }

  /** Every step but a new record makes the system smaller, so no producer and no wakeup can go round forever. */
  lemma StepsGetSmaller<R>(l: Limits<R>, s: System<R>, a: Action<R>)
    requires Consistent(l, s) && Enabled(l, s, a) && !a.Enqueue?
    ensures Smaller(Apply(l, s, a), s)
  {
    var s' := Apply(l, s, a);
    if s'.producers != s.producers {
      ActiveUpdate(s.producers, a.p, s'.producers[a.p]);
      StepsUpdate(s.producers, s.budget.generation, a.p, s'.producers[a.p]);
    }
  }

  ghost predicate IsStep<R>(l: Limits<R>, s: System<R>, a: Action<R>, s': System<R>) {
    Enabled(l, s, a) && !a.Enqueue? && s' == Apply(l, s, a)
  }

  /** Whatever the schedule, no run without new records goes on forever. */
  lemma {:induction false} EveryRunEnds<R>(l: Limits<R>, states: nat -> System<R>, actions: nat -> Action<R>, from: nat)
    returns (end: nat)
    requires Consistent(l, states(from))
    ensures end >= from && !IsStep(l, states(end), actions(end), states(end + 1))
    decreases Open(states(from)), Pending(states(from))
  {
    hide Consistent, Enabled, Apply, Open, Pending;
    if IsStep(l, states(from), actions(from), states(from + 1)) {
      ApplyIsConsistent(l, states(from), actions(from));
      StepsGetSmaller(l, states(from), actions(from));
      end := EveryRunEnds(l, states, actions, from + 1);
    } else {
      end := from;
    }
  }

  /**
   And whatever the schedule, it ends with every producer through, everything sent received and the
   counter at zero, unless the consumer stopped.
   */
  lemma EveryFullRunDrains<R>(l: Limits<R>, s: System<R>, actions: seq<Action<R>>, s': System<R>)
    requires Consistent(l, s) && Run(l, s, actions, s') && l.capacity > 0
    requires !s'.consumer.Stopped? && forall a | Ordinary(a) :: !Enabled(l, s', a)
    ensures AllIdle(s'.producers) && s'.channel == [] && s'.budget.queued == 0 && s'.received == s'.sent
  {
    RunIsConsistent(l, s, actions, s');
    assert !Enabled(l, s', Release) && !Enabled(l, s', Resume);
    if !AllIdle(s'.producers) || s'.channel != [] {
      var a := RunningIsNeverStuck(l, s');
    }
    QuiescentIsEmpty(l, s');
  }

  /** A producer's context is cancelled. */
  predicate Cancels<R>(a: Action<R>) {
    a.GiveUp? || a.Abort?
  }

  ghost predicate NothingRefunded<R>(producers: seq<Producer<R>>) {
    forall p | 0 <= p < |producers| :: !producers[p].Refunding?
  }

  lemma {:induction false} NothingWithdrawn<R>(l: Limits<R>, s: System<R>, actions: seq<Action<R>>, s': System<R>)
    requires Run(l, s, actions, s') && NothingRefunded(s.producers)
    requires forall i | 0 <= i < |actions| :: !Cancels(actions[i])
    ensures AllWithdrawn(l, s, actions) == multiset{}
    decreases |actions|
  {
    if actions != [] {
      NothingWithdrawn(l, Apply(l, s, actions[0]), actions[1..], s');
    }
  }

  /**
   So without cancellations every schedule that goes on as long as it can with a running consumer ends with
   every record received that was offered and not refused for its size.
   */
  lemma EveryOfferedRecordIsReceived<R>(l: Limits<R>, s: System<R>, actions: seq<Action<R>>, s': System<R>)
    requires Initial(s) && Run(l, s, actions, s') && l.capacity > 0
    requires forall i | 0 <= i < |actions| :: !Cancels(actions[i])
    requires !s'.consumer.Stopped? && forall a | Ordinary(a) :: !Enabled(l, s', a)
    ensures multiset(s'.received) == Offered(l, actions)
  {
    hide Offered, AllWithdrawn, Enabled, Accounted;
    ReachableIsConsistent(l, s, [], s);
    OfferedIsAccountedFor(l, s, actions, s');
    NothingWithdrawn(l, s, actions, s');
    EveryFullRunDrains(l, s, actions, s');
    NobodyInCalls(s'.producers);
  }

  /** When it stopped, every schedule ends with every producer returned and the counter at what the channel holds. */
  lemma EveryFullRunReturns<R>(l: Limits<R>, s: System<R>, actions: seq<Action<R>>, s': System<R>)
    requires Consistent(l, s) && Run(l, s, actions, s')
    requires s'.consumer.Stopped? && forall a | Enabled(l, s', a) :: a.Enqueue?
    ensures AllIdle(s'.producers) && s'.budget.queued == ChannelBytes(l, s'.channel)
  {
    RunIsConsistent(l, s, actions, s');
    if p: nat :| p < |s'.producers| && !s'.producers[p].Idle? {
      var a := StoppedIsNeverStuck(l, s', p);
    }
    QueuedIsLeftInChannel(l, s');
  }

  /**
   So from every reachable state in which the consumer runs, ordinary steps alone let every waiting
   producer through, empty the channel and bring the counter to zero.
   */
  lemma {:induction false} OrdinaryStepsFinish<R>(l: Limits<R>, s: System<R>)
    returns (actions: seq<Action<R>>, s': System<R>)
    requires Consistent(l, s) && !s.consumer.Stopped? && l.capacity > 0
    ensures Run(l, s, actions, s') && forall i | 0 <= i < |actions| :: Ordinary(actions[i])
    ensures AllIdle(s'.producers) && s'.channel == [] && s'.budget.queued == 0
    decreases Open(s), Pending(s)
  {
    if AllIdle(s.producers) && s.channel == [] && s.consumer.Selecting? {
      QuiescentIsEmpty(l, s);
      return [], s;
    }
    var a: Action<R>;
    if AllIdle(s.producers) && s.channel == [] {
      a := if s.consumer.Received? then Release else Resume;
    } else {
      a := RunningIsNeverStuck(l, s);
    }
    ApplyIsConsistent(l, s, a);
    StepsGetSmaller(l, s, a);
    var rest;
    rest, s' := OrdinaryStepsFinish(l, Apply(l, s, a));
    actions := [a] + rest;
    assert actions[1..] == rest;
  }

  /**
   Once the exporter has stopped, every producer inside `Enqueue` can return, whatever it was doing, and
   then the counter is exactly what is left in the channel.
   */
  lemma {:induction false} StoppedProducersReturn<R>(l: Limits<R>, s: System<R>)
    returns (actions: seq<Action<R>>, s': System<R>)
    requires Consistent(l, s) && s.consumer.Stopped?
    ensures Run(l, s, actions, s')
    ensures forall i | 0 <= i < |actions| ::
              actions[i].TryReserve? || actions[i].GiveUp? || actions[i].Abort? || actions[i].Refund?
    ensures AllIdle(s'.producers) && s'.channel == s.channel
    ensures s'.budget.queued == ChannelBytes(l, s.channel)
    decreases Open(s), Pending(s)
  {
    if AllIdle(s.producers) {
      QueuedIsLeftInChannel(l, s);
      return [], s;
    }
    var p: nat :| p < |s.producers| && !s.producers[p].Idle?;
    var a := StoppedIsNeverStuck(l, s, p);
    ApplyIsConsistent(l, s, a);
    StepsGetSmaller(l, s, a);
    var rest;
    rest, s' := StoppedProducersReturn(l, Apply(l, s, a));
    actions := [a] + rest;
    assert actions[1..] == rest;
  }
}
