/**
 The exporter's main loop: collecting received records into batches, sending a batch when it is full,
 when the next record does not fit or when the flush timer ticks, and draining the queue at the end.

 `succeeds(n)` says whether the n-th batch handed to the sender is delivered.
 */
module Batcher {
  import opened Wrappers

  datatype Settings<!R> = Settings(batchSize: nat, maxBatchBytes: nat, size: R -> nat)

  /** Why a batch was closed. */
  datatype Reason<R> = Full | NoRoom(next: R) | Ticked | Final

  datatype Sent<R> = Sent(records: seq<R>, reason: Reason<R>)

  /** What the loop reacts to before it is cancelled. */
  datatype Event<R> = Received(record: R) | Tick

  function Bytes<R>(s: Settings<R>, records: seq<R>): nat {
    if records == [] then 0 else Bytes(s, records[..|records| - 1]) + s.size(records[|records| - 1])
  }

  lemma BytesSnoc<R>(s: Settings<R>, records: seq<R>, r: R)
    ensures Bytes(s, records + [r]) == Bytes(s, records) + s.size(r)
  {
    assert (records + [r])[..|records|] == records;
  }

  function Delivered<R>(sent: seq<Sent<R>>): seq<R> {
    if sent == [] then [] else Delivered(sent[..|sent| - 1]) + sent[|sent| - 1].records
  }

  lemma DeliveredSnoc<R>(sent: seq<Sent<R>>, batch: Sent<R>)
    ensures Delivered(sent + [batch]) == Delivered(sent) + batch.records
  {
    assert (sent + [batch])[..|sent|] == sent;
  }

  /** Batches that were closed for no other reason than the timer or the end. */
  function OnTimer<R>(sent: seq<Sent<R>>): nat {
    if sent == [] then 0
    else
      var why := sent[|sent| - 1].reason;
      OnTimer(sent[..|sent| - 1]) + if why.Ticked? || why.Final? then 1 else 0
  }

  lemma OnTimerSnoc<R>(sent: seq<Sent<R>>, batch: Sent<R>)
    ensures OnTimer(sent + [batch]) == OnTimer(sent) + if batch.reason.Ticked? || batch.reason.Final? then 1 else 0
  {
    assert (sent + [batch])[..|sent|] == sent;
  }

  function Ticks<R>(events: seq<Event<R>>): nat {
    if events == [] then 0 else Ticks(events[..|events| - 1]) + if events[|events| - 1].Tick? then 1 else 0
  }

  function Records<R>(events: seq<Event<R>>): seq<R> {
    if events == [] then []
    else
      var last := events[|events| - 1];
      Records(events[..|events| - 1]) + if last.Received? then [last.record] else []
  }

  /** What may be sent: something, within both limits, except that a single record may exceed the bytes. */
  predicate Proper<R>(s: Settings<R>, batch: seq<R>) {
    0 < |batch| <= s.batchSize && (Bytes(s, batch) <= s.maxBatchBytes || |batch| == 1)
  }

  /** The batch could not have been kept open, given the record that follows it. */
  predicate Justified<R(==)>(s: Settings<R>, batch: Sent<R>, next: Option<R>) {
    match batch.reason
    case Full => |batch.records| == s.batchSize || Bytes(s, batch.records) >= s.maxBatchBytes
    case NoRoom(r) => Bytes(s, batch.records) + s.size(r) > s.maxBatchBytes && next == Some(r)
    case _ => true
  }

  /** A record of this size has to wait until the batch has been sent. */
  predicate MustClose<R>(s: Settings<R>, batch: seq<R>, size: nat) {
    batch != [] && (|batch| >= s.batchSize || Bytes(s, batch) + size > s.maxBatchBytes)
  }

  /** A limit is reached, so the batch is sent without waiting for another record. */
  predicate Filled<R>(s: Settings<R>, batch: seq<R>) {
    |batch| >= s.batchSize || Bytes(s, batch) >= s.maxBatchBytes
  }

  function ClosedBy<R>(s: Settings<R>, batch: seq<R>, record: R): Reason<R> {
    if |batch| >= s.batchSize then Full else NoRoom(record)
  }

  function Head<R>(batch: seq<R>): Option<R> {
    if batch == [] then None else Some(batch[0])
  }

  function Following<R>(sent: seq<Sent<R>>, batch: seq<R>, i: nat): Option<R>
    requires i < |sent|
  {
    if i + 1 < |sent| then Head(sent[i + 1].records) else Head(batch)
  }

  /** Every batch sent so far was proper and had to be closed where it was. */
  predicate History<R(==)>(s: Settings<R>, sent: seq<Sent<R>>, batch: seq<R>) {
    forall i | 0 <= i < |sent| :: Proper(s, sent[i].records) && Justified(s, sent[i], Following(sent, batch, i))
  }

  lemma HistoryGrows<R>(s: Settings<R>, sent: seq<Sent<R>>, batch: seq<R>, r: R)
    requires History(s, sent, batch)
    ensures History(s, sent, batch + [r])
  {
    hide Bytes;
    forall i | 0 <= i < |sent|
      ensures Justified(s, sent[i], Following(sent, batch + [r], i))
    {
      assert Justified(s, sent[i], Following(sent, batch, i));
    }
  }

  /** A batch is closed and the next one opened. */
  lemma HistoryCloses<R>(s: Settings<R>, sent: seq<Sent<R>>, batch: seq<R>, why: Reason<R>, next: seq<R>)
    requires History(s, sent, batch) && Proper(s, batch)
    requires Justified(s, Sent(batch, why), Head(next))
    ensures History(s, sent + [Sent(batch, why)], next)
  {
    hide Bytes;
    var more := sent + [Sent(batch, why)];
    forall i | 0 <= i < |more|
      ensures Proper(s, more[i].records) && Justified(s, more[i], Following(more, next, i))
    {
      if i < |sent| {
        assert Justified(s, sent[i], Following(sent, batch, i));
        assert Following(more, next, i) == Following(sent, batch, i);
      }
    }
  }

  /** A batch that no timer closed had no place for the first record of the next one. */
  lemma BatchesCannotGrow<R>(s: Settings<R>, sent: seq<Sent<R>>, batch: seq<R>, i: nat)
    requires History(s, sent, batch) && i + 1 < |sent|
    requires sent[i].reason.Full? || sent[i].reason.NoRoom?
    requires s.size(sent[i + 1].records[0]) > 0
    ensures !Proper(s, sent[i].records + [sent[i + 1].records[0]])
  {
    var next := sent[i + 1].records[0];
    assert Justified(s, sent[i], Following(sent, batch, i));
    BytesSnoc(s, sent[i].records, next);
  }

  lemma EventSnoc<R>(events: seq<Event<R>>, n: nat)
    requires n < |events|
    ensures Records(events[..n + 1]) == Records(events[..n]) + if events[n].Received? then [events[n].record] else []
    ensures Ticks(events[..n + 1]) == Ticks(events[..n]) + if events[n].Tick? then 1 else 0
  {
    assert events[..n + 1][..n] == events[..n];
  }

  lemma {:induction false} RecordsOfPrefix<R>(events: seq<Event<R>>, n: nat)
    requires n <= |events|
    ensures Records(events[..n]) <= Records(events)
    decreases |events|
  {
    assert events[..|events|] == events;
    if n < |events| {
      var last := |events| - 1;
      assert events[..last][..n] == events[..n];
      RecordsOfPrefix(events[..last], n);
    }
  }

  lemma NothingCollected<R>(s: Settings<R>)
    ensures Bytes(s, []) == 0 && Delivered<R>([]) == []
  {
  }

  lemma NothingHappened<R>()
    ensures Records<R>([]) == [] && OnTimer<R>([]) == 0 && Ticks<R>([]) == 0
  {
  }

  lemma WhyClosed<R>(s: Settings<R>, batch: seq<R>, record: R)
    requires Proper(s, batch) && MustClose(s, batch, s.size(record))
    ensures Justified(s, Sent(batch, ClosedBy(s, batch, record)), Head([record]))
  {
  }

  /** A record the batch has room for leaves it proper. */
  lemma GrownIsProper<R>(s: Settings<R>, batch: seq<R>, record: R)
    requires s.batchSize > 0 && (batch != [] ==> Proper(s, batch)) && !MustClose(s, batch, s.size(record))
    ensures Proper(s, batch + [record])
  {
    BytesSnoc(s, batch, record);
  }

  /** What has come into the queue by the n-th look at it. */
  function Came<R>(arrivals: seq<seq<R>>, n: nat): seq<R> {
    if n == 0 then []
    else Came(arrivals, n - 1) + if n <= |arrivals| then arrivals[n - 1] else []
  }

  /** At every tick all that was received before it is delivered, if not earlier. */
  ghost predicate TicksDeliver<R>(events: seq<Event<R>>, n: nat, delivered: seq<R>)
    requires n <= |events|
  {
    forall i | 0 <= i < n && events[i].Tick? :: Records(events[..i]) <= delivered
  }

  lemma OneMoreTick<R>(events: seq<Event<R>>, n: nat, before: seq<R>, after: seq<R>)
    requires n < |events| && TicksDeliver(events, n, before) && before <= after
    requires events[n].Tick? ==> Records(events[..n]) == after
    ensures TicksDeliver(events, n + 1, after)
  {
    hide Records;
  }

  lemma NoneCame<R>(arrivals: seq<seq<R>>, waiting: seq<R>)
    ensures waiting == waiting + Came(arrivals, 0)
  {
  }

  lemma MoreCame<R>(arrivals: seq<seq<R>>, n: nat, start: seq<R>, waiting: seq<R>, received: seq<R>, left: seq<R>)
    requires received + left == start + (waiting + Came(arrivals, n))
    ensures received + (left + if n < |arrivals| then arrivals[n] else []) == start + (waiting + Came(arrivals, n + 1))
  {
    var more := if n < |arrivals| then arrivals[n] else [];
    assert Came(arrivals, n + 1) == Came(arrivals, n) + more;
    assert received + (left + more) == (received + left) + more;
  }

  lemma OneTaken<R>(received: seq<R>, left: seq<R>)
    requires left != []
    ensures (received + [left[0]]) + left[1..] == received + left
  {
  }

  class Batching<R(==)> {
    const settings: Settings<R>
    const succeeds: nat -> bool
    var batch: seq<R>
    var batchBytes: nat
    var sends: nat
    var releasedBytes: nat
    /** The delivered batches, everything received, and the record a failed `AppendRecord` was left with. */
    ghost var sent: seq<Sent<R>>
    ghost var received: seq<R>
    ghost var unappended: seq<R>

    constructor (settings: Settings<R>, succeeds: nat -> bool)
      requires settings.batchSize > 0
      ensures Valid() && batch == [] && sent == [] && sends == 0 && received == [] && unappended == []
      ensures this.settings == settings && this.succeeds == succeeds
    {
      this.settings, this.succeeds := settings, succeeds;
      batch, batchBytes, sent, sends, releasedBytes := [], 0, [], 0, 0;
      received, unappended := [], [];
    }

    /** Nothing received is lost or reordered, and every batch is cut where it has to be. */
    ghost predicate Valid()
      reads this
    {
      && settings.batchSize > 0
      && batchBytes == Bytes(settings, batch)
      && (batch != [] ==> Proper(settings, batch))
      && History(settings, sent, batch)
      && received == Delivered(sent) + batch + unappended
      && releasedBytes == Bytes(settings, received)
    }

    /** Neither limit is reached. */
    predicate Open()
      reads this
    {
      batch == [] || !Filled(settings, batch)
    }

    /** Every batch handed to the sender since `from` was delivered. */
    ghost predicate AllDelivered(from: nat)
      reads this
    {
      forall n | from <= n < sends :: succeeds(n)
    }

    /** The last batch handed to the sender, and no other since `from`, failed. */
    ghost predicate LastFailed(from: nat)
      reads this
    {
      from < sends && !succeeds(sends - 1) && forall n | from <= n < sends - 1 :: succeeds(n)
    }

    /** Hands a non-empty batch to the sender; keeps it when that fails. */
    method Flush(ghost why: Reason<R>, ghost next: seq<R>) returns (ok: bool)
      requires batchBytes == Bytes(settings, batch) && History(settings, sent, batch)
      requires batch != [] ==> Proper(settings, batch) && Justified(settings, Sent(batch, why), Head(next))
      requires batch == [] ==> next == []
      modifies this`batch, this`batchBytes, this`sent, this`sends
      ensures sends == old(sends) + (if old(batch) == [] then 0 else 1)
      ensures ok <==> old(batch) == [] || succeeds(old(sends))
      ensures ok ==> batch == [] && History(settings, sent, next)
      ensures ok ==> sent == if old(batch) == [] then old(sent) else old(sent) + [Sent(old(batch), why)]
      ensures Delivered(old(sent)) <= Delivered(sent)
      ensures !ok ==> batch == old(batch) && sent == old(sent)
      ensures batchBytes == Bytes(settings, batch)
    {
      hide Justified;
      if |batch| == 0 {
        assert batch == [];
        return true;
      }
      ok := succeeds(sends);
      sends := sends + 1;
      if ok {
        HistoryCloses(settings, sent, batch, why, next);
        sent := sent + [Sent(batch, why)];
        batch := [];
        batchBytes := 0;
      }
    }

    /** Adds a record, after sending the batch it does not fit into. */
    method AppendRecord(record: R) returns (ok: bool)
      requires Valid() && unappended == []
      modifies this
      ensures Valid() && received == old(received) + [record]
      ensures var full := MustClose(settings, old(batch), settings.size(record));
              && sends == old(sends) + (if full then 1 else 0)
              && (ok <==> !full || succeeds(old(sends)))
              && (ok ==> unappended == [] && batch == (if full then [] else old(batch)) + [record])
      ensures !ok ==> unappended == [record] && batch == old(batch)
      ensures Delivered(old(sent)) <= Delivered(sent)
      ensures OnTimer(sent) == OnTimer(old(sent))
    {
      hide Bytes, History, Delivered, Justified, OnTimer, Proper;
      var size := settings.size(record);
      releasedBytes := releasedBytes + size;
      received := received + [record];
      BytesSnoc(settings, old(received), record);
      if |batch| > 0 && (|batch| >= settings.batchSize || batchBytes + size > settings.maxBatchBytes) {
        ghost var why := ClosedBy(settings, batch, record);
        WhyClosed(settings, batch, record);
        ok := Flush(why, [record]);
        if !ok {
          unappended := [record];
          return false;
        }
        DeliveredSnoc(old(sent), Sent(old(batch), why));
        OnTimerSnoc(old(sent), Sent(old(batch), why));
      } else {
        HistoryGrows(settings, sent, batch, record);
      }
      BytesSnoc(settings, batch, record);
      GrownIsProper(settings, batch, record);
      NothingCollected(settings);
      assert [] + [record] == [record];
      batch := batch + [record];
      batchBytes := batchBytes + size;
      ok := true;
    }

    /** Sends what has been collected, however little that is. */
    method FlushNow(ghost why: Reason<R>) returns (ok: bool)
      requires Valid() && unappended == [] && (why.Ticked? || why.Final?)
      modifies this`batch, this`batchBytes, this`sent, this`sends
      ensures Valid() && old(sends) <= sends <= old(sends) + 1
      ensures ok <==> AllDelivered(old(sends))
      ensures ok ==> batch == [] && Delivered(sent) == received && OnTimer(sent) <= OnTimer(old(sent)) + 1
      ensures received == old(received) && unappended == []
      ensures !ok ==> batch == old(batch) && batch != [] && sent == old(sent)
    {
      hide Bytes, History, Delivered, OnTimer;
      ok := Flush(why, []);
      if ok && old(batch) != [] {
        DeliveredSnoc(old(sent), Sent(old(batch), why));
        OnTimerSnoc(old(sent), Sent(old(batch), why));
      }
    }

    /** A record received before the loop is cancelled; a batch it fills is sent at once. */
    method TakeRecord(record: R) returns (ok: bool)
      requires Valid() && Open() && unappended == []
      modifies this
      ensures Valid() && received == old(received) + [record] && old(sends) <= sends
      ensures ok <==> AllDelivered(old(sends))
      ensures ok ==> batch == [] || (|batch| < settings.batchSize && batchBytes < settings.maxBatchBytes)
      ensures ok ==> Open() && unappended == [] && OnTimer(sent) == OnTimer(old(sent))
      ensures Delivered(old(sent)) <= Delivered(sent)
      ensures !ok ==> LastFailed(old(sends)) && |unappended| <= 1 && batch != []
    {
      hide Bytes, History, Delivered, OnTimer;
      ok := AppendRecord(record);
      if ok && (|batch| >= settings.batchSize || batchBytes >= settings.maxBatchBytes) {
        ghost var sentBefore, batchBefore := sent, batch;
        ok := Flush(Full, []);
        if ok {
          DeliveredSnoc(sentBefore, Sent(batchBefore, Full));
          OnTimerSnoc(sentBefore, Sent(batchBefore, Full));
        }
      }
    }

    /** What every part of the loop keeps, and what a failed send leaves. */
    ghost predicate Went(ok: bool, from: nat)
      reads this
    {
      && from <= sends
      && (ok <==> AllDelivered(from))
      && (ok ==> unappended == [])
      && (!ok ==> LastFailed(from) && batch != [] && |unappended| <= 1)
    }

    /** The loop before it is cancelled; a failed send ends it. */
    method Collect(events: seq<Event<R>>) returns (ok: bool)
      requires Valid() && sent == [] && batch == [] && received == [] && unappended == []
      modifies this
      ensures Valid() && Went(ok, old(sends))
      ensures received <= Records(events) && (ok ==> received == Records(events))
      ensures ok ==> Open() && OnTimer(sent) <= Ticks(events)
      ensures ok ==> TicksDeliver(events, |events|, Delivered(sent))
    {
      hide Bytes, History, Records, Ticks, OnTimer, Filled;
      ok := true;
      NothingHappened<R>();
      assert events[..0] == [];
      var n := 0;
      while n < |events| && ok
        invariant 0 <= n <= |events| && Valid() && Went(ok, old(sends))
        invariant received == Records(events[..n])
        invariant ok ==> Open() && OnTimer(sent) <= Ticks(events[..n])
        invariant ok ==> TicksDeliver(events, n, Delivered(sent))
        decreases |events| - n, ok
      {
        EventSnoc(events, n);
        ghost var delivered := Delivered(sent);
        match events[n] {
          case Received(record) => ok := TakeRecord(record);
          case Tick => ok := FlushNow(Ticked);
        }
        if ok {
          OneMoreTick(events, n, delivered, Delivered(sent));
        }
        n := n + 1;
      }
      RecordsOfPrefix(events, n);
      assert ok ==> events[..n] == events;
    }

    /**
     Empties the queue after the cancellation: `waiting` is in it then, and `arrivals[i]` comes in before the
     i-th look at it. The drain ends when a look finds nothing, or a send fails.
     */
    method Drain(waiting: seq<R>, arrivals: seq<seq<R>>) returns (ok: bool, looks: nat, left: seq<R>)
      requires Valid() && unappended == []
      modifies this
      ensures Valid() && Went(ok, old(sends))
      ensures received + left == old(received) + (waiting + Came(arrivals, looks))
      ensures looks > 0 && (ok ==> left == [])
      ensures OnTimer(sent) == OnTimer(old(sent))
    {
      hide Valid, OnTimer, Came;
      looks, left, ok := 0, waiting, true;
      NoneCame(arrivals, waiting);
      while ok
        invariant Valid() && Went(ok, old(sends)) && (looks > 0 || ok)
        invariant received + left == old(received) + (waiting + Came(arrivals, looks))
        invariant OnTimer(sent) == OnTimer(old(sent))
        decreases if looks < |arrivals| then |arrivals| - looks else 0, |left|, ok
      {
        MoreCame(arrivals, looks, old(received), waiting, received, left);
        left := left + if looks < |arrivals| then arrivals[looks] else [];
        looks := looks + 1;
        if left == [] {
          return;
        }
        ghost var before, waited := received, left;
        ok := AppendRecord(left[0]);
        left := left[1..];
        OneTaken(before, waited);
      }
    }

    /**
     The loop up to its return. It returns nil exactly when every send succeeded; then a look at the queue
     found it empty, and everything that had come into it was delivered, in order. A failed send ends the
     loop at once, with the rest of the queue left alone.
     */
    method Run(events: seq<Event<R>>, waiting: seq<R>, arrivals: seq<seq<R>>)
      returns (ok: bool, looks: nat, left: seq<R>)
      requires Valid() && sent == [] && batch == [] && received == [] && unappended == []
      modifies this
      ensures Valid() && Went(ok, old(sends))
      ensures looks > 0 ==> received + left == Records(events) + (waiting + Came(arrivals, looks))
      ensures looks == 0 ==> received <= Records(events)
      ensures ok ==> looks > 0 && left == [] && batch == [] && Delivered(sent) == received
      ensures ok ==> OnTimer(sent) <= Ticks(events) + 1
    {
      hide Bytes, History, Records, Ticks, OnTimer, Came;
      looks, left := 0, waiting;
      ok := Collect(events);
      if ok {
        ok, looks, left := Drain(waiting, arrivals);
      }
      if ok {
        ok := FlushNow(Final);
      }
    }
  }
}
