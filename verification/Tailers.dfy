/**
 The tailer: buffers of unfinished multiline records by file identity, the read round, the flush of
 expired buffers and the graceful stop. Each method is tied to the per-file functions of `Multiline`
 and `Polling`; `out` and `log` record what left the tailer and what it accepted.
 */
module Tailers {
  import opened Wrappers
  import opened Lines
  import opened LineReader
  import opened Multiline
  import opened Polling
  import opened PositionStore

  lemma NothingToRelease(rules: Rules, b: Buffer, line: Str)
    requires b.body == []
    ensures !MustRelease(rules, b, line)
  {
  }

  function BufferedRecord(b: Buffer): Record {
    Record(b.body, b.meta)
  }

  /** Acceptance in multiline mode, in terms of the record that has to go first. */
  lemma BufferedAcceptance(rules: Rules, st: FileState, e: Entry, now: nat, ok: bool)
    requires rules.multiline
    ensures var b := Buffered(st, now);
            var awaited := if MustRelease(rules, b, e.line) then Some(BufferedRecord(b)) else None;
            var cleared := if awaited.Some? then Cleared(b) else b;
            && Awaited(rules, st, e, now) == awaited
            && (Accepts(rules, st, e, now, ok) <==> awaited.None? || Released(rules, awaited.value, ok))
            && (!Accepts(rules, st, e, now, ok) ==> Multiline.Accept(rules, st, e, now, ok) == st)
            && (Accepts(rules, st, e, now, ok) ==>
                  Multiline.Accept(rules, st, e, now, ok)
                  == FileState(Some(Append(cleared, e, now)),
                               if awaited.Some? then st.out + [AsOutput(rules, awaited.value)] else st.out,
                               st.log + [Written(e, e.line != [] || cleared.body != [])]))
  {
    hide MustRelease, Append, Released, AsOutput;
  }

  lemma RefusedChangesNothing(rules: Rules, st: FileState, e: Entry, now: nat, ok: bool)
    ensures !Accepts(rules, st, e, now, ok) ==> Multiline.Accept(rules, st, e, now, ok) == st
  {
  }

  // ----- handing over a list of buffered records

  function OutOf(out: map<Identity, seq<Output>>, key: Identity): seq<Output> {
    if key in out then out[key] else []
  }

  ghost function FileOf(buffers: map<Identity, Buffer>, out: map<Identity, seq<Output>>, log: map<Identity,
                        seq<Written>>, key: Identity): FileState {
    FileState(if key in buffers then Some(buffers[key]) else None, OutOf(out, key), if key in log then log[key] else [])
  }

  function KeysOf(items: seq<(Identity, Record)>): set<Identity> {
    if items == [] then {} else KeysOf(items[..|items| - 1]) + {items[|items| - 1].0}
  }

  lemma {:induction false} KeysOfPrefix(items: seq<(Identity, Record)>, n: nat)
    requires n <= |items|
    ensures KeysOf(items[..n]) <= KeysOf(items)
    ensures n < |items| ==> KeysOf(items[..n + 1]) == KeysOf(items[..n]) + {items[n].0}
  {
    if n < |items| {
      assert items[..n + 1][..n] == items[..n];
      var last := |items| - 1;
      if n < last {
        assert items[..last][..n] == items[..n] && items[..last][..n + 1] == items[..n + 1];
        KeysOfPrefix(items[..last], n);
      } else {
        assert items[..n + 1] == items;
      }
    } else {
      assert items[..n] == items;
    }
  }

  /** No file occurs twice, and each comes with the record of its buffer. */
  ghost predicate Listed(buffers: map<Identity, Buffer>, items: seq<(Identity, Record)>) {
    forall i | 0 <= i < |items| ::
      && items[i].0 !in KeysOf(items[..i])
      && items[i].0 in buffers
      && items[i].1 == BufferedRecord(buffers[items[i].0])
  }

  lemma ListedSnoc(buffers: map<Identity, Buffer>, items: seq<(Identity, Record)>, key: Identity)
    requires Listed(buffers, items) && key in buffers && key !in KeysOf(items)
    ensures var more := items + [(key, BufferedRecord(buffers[key]))];
            Listed(buffers, more) && KeysOf(more) == KeysOf(items) + {key}
  {
    var more := items + [(key, BufferedRecord(buffers[key]))];
    assert more[..|items|] == items;
    forall i | 0 <= i < |items|
      ensures more[..i] == items[..i]
    {
    }
  }

  ghost function ExpiredKeys(rules: Identity -> Rules, buffers: map<Identity, Buffer>, now: nat): set<Identity> {
    set key | key in buffers && Expired(rules(key), FileState(Some(buffers[key]), [], []), now)
  }

  lemma ExpiredKey(rules: Identity -> Rules, buffers: map<Identity, Buffer>, now: nat, key: Identity)
    ensures key in buffers ==>
              var b := buffers[key];
              var after := if rules(key).flushAfter <= 0 then DEFAULT_FLUSH else rules(key).flushAfter;
              (key in ExpiredKeys(rules, buffers, now) <==> now - b.updated >= after && b.body != [])
  {
  }

  lemma ExpiredAreBuffered(rules: Identity -> Rules, buffers: map<Identity, Buffer>, now: nat)
    ensures ExpiredKeys(rules, buffers, now) <= buffers.Keys
  {
  }

  lemma NothingListed(buffers: map<Identity, Buffer>)
    ensures Listed(buffers, []) && KeysOf([]) == {}
  {
  }

  ghost function FilledKeys(buffers: map<Identity, Buffer>): set<Identity> {
    set key | key in buffers && buffers[key].body != []
  }

  /** The records of these files, and nothing else, were handed over between the two states of `out`. */
  ghost predicate HandedOver(rules: Identity -> Rules, buffers: map<Identity, Buffer>, gone: set<Identity>,
                             before: map<Identity, seq<Output>>, after: map<Identity, seq<Output>>) {
    && gone <= buffers.Keys
    && (forall k :: OutOf(after, k) == OutOf(before, k)
                    + if k in gone then [AsOutput(rules(k), BufferedRecord(buffers[k]))] else [])
  }

  lemma NothingHandedOver(rules: Identity -> Rules, buffers: map<Identity, Buffer>, items: seq<(Identity, Record)>,
                          out: map<Identity, seq<Output>>)
    ensures KeysOf(items[..0]) == {} && HandedOver(rules, buffers, {}, out, out)
    ensures buffers - {} == buffers
  {
  }

  lemma HandedOverOneMore(rules: Identity -> Rules, buffers: map<Identity, Buffer>, gone: set<Identity>, key: Identity,
                          before: map<Identity, seq<Output>>, after: map<Identity, seq<Output>>, after': map<Identity,
                              seq<Output>>)
    requires HandedOver(rules, buffers, gone, before, after) && key in buffers && key !in gone
    requires after' == after[key := OutOf(after, key) + [AsOutput(rules(key), BufferedRecord(buffers[key]))]]
    ensures HandedOver(rules, buffers, gone + {key}, before, after')
  {
    hide AsOutput;
    var handed := AsOutput(rules(key), BufferedRecord(buffers[key]));
    assert OutOf(after, key) == OutOf(before, key) + [];
    forall k
      ensures OutOf(after', k) == OutOf(before, k)
              + if k in gone + {key} then [AsOutput(rules(k), BufferedRecord(buffers[k]))] else []
    {
      if k == key {
        assert OutOf(after', k) == OutOf(before, key) + [handed];
      } else {
        assert OutOf(after', k) == OutOf(after, k);
      }
    }
  }

  lemma FlushedFile(rules: Identity -> Rules, buffers: map<Identity, Buffer>, gone: set<Identity>,
                    before: map<Identity, seq<Output>>, after: map<Identity, seq<Output>>, log: map<Identity,
                        seq<Written>>,
                    key: Identity, now: nat)
    requires HandedOver(rules, buffers, gone, before, after) && gone <= ExpiredKeys(rules, buffers, now)
    ensures FileOf(buffers - gone, after, log, key)
            == if key in gone then Expire(rules(key), FileOf(buffers, before, log, key), now, true)
               else FileOf(buffers, before, log, key)
    ensures gone == ExpiredKeys(rules, buffers, now) ==>
              FileOf(buffers - gone, after, log, key)
              == Expire(rules(key), FileOf(buffers, before, log, key), now, true)
  {
    assert OutOf(after, key) == OutOf(before, key)
           + if key in gone then [AsOutput(rules(key), BufferedRecord(buffers[key]))] else [];
  }

  lemma ShutFile(rules: Identity -> Rules, buffers: map<Identity, Buffer>, gone: set<Identity>,
                 before: map<Identity, seq<Output>>, after: map<Identity, seq<Output>>, log: map<Identity,
                     seq<Written>>, key: Identity)
    requires HandedOver(rules, buffers, gone, before, after) && gone <= FilledKeys(buffers)
    ensures var file, file' := FileOf(buffers, before, log, key), FileOf(map[], after, log, key);
            && (file' == Shut(rules(key), file, true) || file' == file.(buffer := None))
            && (gone == FilledKeys(buffers) ==> file' == Shut(rules(key), file, true))
  {
    assert OutOf(after, key) == OutOf(before, key)
           + if key in gone then [AsOutput(rules(key), BufferedRecord(buffers[key]))] else [];
  }

  class Tailer {
    const rules: Identity -> Rules
    const maxReadBytes: nat
    const fails: nat -> bool
    const store: Store

    var pending: map<Identity, Buffer>
    var calls: nat
    var out: map<Identity, seq<Output>>
    ghost var log: map<Identity, seq<Written>>

    constructor (rules: Identity -> Rules, maxReadBytes: nat, fails: nat -> bool, store: Store)
      ensures this.rules == rules && this.maxReadBytes == maxReadBytes && this.fails == fails && this.store == store
      ensures calls == 0 && forall key :: File(key) == INITIAL
    {
      this.rules, this.maxReadBytes, this.fails, this.store := rules, maxReadBytes, fails, store;
      pending, calls, out, log := map[], 0, map[], map[];
    }

    ghost function File(key: Identity): FileState
      reads this
    {
      FileOf(pending, out, log, key)
    }

    method EmitPrepared(key: Identity, r: Record) returns (ok: bool)
      modifies this`out, this`calls
      ensures ok <==> rules(key).dropped(r.body) || !fails(old(calls))
      ensures calls == old(calls) + if rules(key).dropped(r.body) then 0 else 1
      ensures ok ==> out == old(out)[key := OutOf(old(out), key) + [Output(r, rules(key).dropped(r.body))]]
      ensures ok == Released(rules(key), r, !fails(old(calls)))
      ensures calls == old(calls) + EmitCalls(rules(key), Some(r))
      ensures !ok ==> calls == old(calls) + 1 && fails(old(calls))
      ensures out == if ok then old(out)[key := OutOf(old(out), key) + [AsOutput(rules(key), r)]] else old(out)
    {
      var dropped := rules(key).dropped(r.body);
      if !dropped {
        ok := !fails(calls);
        calls := calls + 1;
        if !ok {
          return false;
        }
      }
      out := out[key := OutOf(out, key) + [Output(r, dropped)]];
      return true;
    }

    /** Releases the buffer of a file when the line does not fit behind it. */
    method MakeRoom(key: Identity, line: Str) returns (ok: bool)
      requires key in pending
      modifies this`pending, this`out, this`calls
      ensures var b := old(pending[key]);
              var awaited := if MustRelease(rules(key), b, line) then Some(BufferedRecord(b)) else None;
              var released := awaited.Some? && Released(rules(key), awaited.value, !fails(old(calls)));
              && ok == (awaited.None? || released)
              && calls == old(calls) + EmitCalls(rules(key), awaited)
              && pending == (if released then old(pending)[key := Cleared(b)] else old(pending))
              && out == if released then old(out)[key := OutOf(old(out), key) + [AsOutput(rules(key), awaited.value)]]
                        else old(out)
    {
      var p := pending[key];
      var boundary := rules(key).isStart(line);
      var overLimit := p.body != []
                       && (p.size + |line| + 1 > rules(key).maxBodySize || p.lines >= rules(key).maxLines);
      if (boundary || overLimit) && p.body != [] {
        ok := EmitPrepared(key, Record(p.body, p.meta));
        if !ok {
          return;
        }
        pending := pending[key := p.(body := [], size := 0, lines := 0)];
      }
      return true;
    }

    /** Writes a line to the buffer of a file. */
    method Write(key: Identity, e: Entry, now: nat)
      requires key in pending
      modifies this`pending
      ensures pending == old(pending)[key := Append(old(pending[key]), e, now)]
    {
      var p := pending[key];
      if p.body == [] {
        assert p.body + e.line == e.line;
        p := p.(meta := e.meta);
      } else {
        p := p.(body := p.body + [LF], size := p.size + 1);
      }
      p := p.(body := p.body + e.line, size := p.size + |e.line|, lines := p.lines + 1, updated := now);
      pending := pending[key := p];
    }

    /** In single-line mode an entry is a record of its own. */
    method AcceptAlone(key: Identity, e: Entry, ghost now: nat) returns (ok: bool)
      requires !rules(key).multiline
      modifies this
      ensures ok == Accepts(rules(key), old(File(key)), e, now, !fails(old(calls)))
      ensures File(key) == Multiline.Accept(rules(key), old(File(key)), e, now, !fails(old(calls)))
      ensures calls == old(calls) + EmitCalls(rules(key), Awaited(rules(key), old(File(key)), e, now))
      ensures forall k | k != key :: File(k) == old(File(k))
    {
      hide Released, AsOutput, EmitCalls;
      ok := EmitPrepared(key, Record(e.line, e.meta));
      if ok {
        log := log[key := (if key in log then log[key] else []) + [Written(e, true)]];
      }
    }

    /** In multiline mode it joins the buffer of its file, once that has room for it. */
    method AcceptBuffered(key: Identity, e: Entry, now: nat) returns (ok: bool)
      requires rules(key).multiline
      modifies this
      ensures ok == Accepts(rules(key), old(File(key)), e, now, !fails(old(calls)))
      ensures File(key) == Multiline.Accept(rules(key), old(File(key)), e, now, !fails(old(calls)))
      ensures calls == old(calls) + EmitCalls(rules(key), Awaited(rules(key), old(File(key)), e, now))
      ensures forall k | k != key :: File(k) == old(File(k))
    {
      hide Released, AsOutput, EmitCalls, Append, MustRelease, Multiline.Accept, Accepts, Awaited;
      BufferedAcceptance(rules(key), File(key), e, now, !fails(calls));
      ok := MakeBuffer(key, e.line, now);
      if ok {
        WriteEntry(key, e, now);
      }
    }

    /** The buffer of a file, made when there is none, with room for the line. */
    method MakeBuffer(key: Identity, line: Str, now: nat) returns (ok: bool)
      modifies this`pending, this`out, this`calls
      ensures var b := Buffered(old(File(key)), now);
              var awaited := if MustRelease(rules(key), b, line) then Some(BufferedRecord(b)) else None;
              var released := awaited.Some? && Released(rules(key), awaited.value, !fails(old(calls)));
              && ok == (awaited.None? || released)
              && calls == old(calls) + EmitCalls(rules(key), awaited)
              && (!ok ==> File(key) == old(File(key)))
              && (ok ==>
                    File(key) == FileState(
                      Some(if released then Cleared(b) else b),
                      old(File(key)).out + if released then [AsOutput(rules(key), awaited.value)] else [],
                      old(File(key)).log))
      ensures forall k | k != key :: File(k) == old(File(k))
    {
      hide Released, AsOutput, EmitCalls, MustRelease;
      NothingToRelease(rules(key), EmptyBuffer(now), line);
      if key !in pending {
        pending := pending[key := EmptyBuffer(now)];
      }
      ok := MakeRoom(key, line);
    }

    /** Writes an accepted entry to the buffer and remembers it. */
    method WriteEntry(key: Identity, e: Entry, now: nat)
      requires File(key).buffer.Some?
      modifies this`pending, this`log
      ensures var b := old(File(key)).buffer.value;
              File(key) == FileState(Some(Append(b, e, now)), old(File(key)).out,
                                     old(File(key)).log + [Written(e, e.line != [] || b.body != [])])
      ensures forall k | k != key :: File(k) == old(File(k))
    {
      hide Append;
      var kept := e.line != [] || pending[key].body != [];
      Write(key, e, now);
      log := log[key := (if key in log then log[key] else []) + [Written(e, kept)]];
    }

    /** Accepts one line of a file; when the record in the way cannot be released nothing changes. */
    method Accept(key: Identity, line: Str, now: nat) returns (ok: bool)
      modifies this
      ensures var e := Shape(rules(key), line);
              && ok == Accepts(rules(key), old(File(key)), e, now, !fails(old(calls)))
              && File(key) == Multiline.Accept(rules(key), old(File(key)), e, now, !fails(old(calls)))
              && calls == old(calls) + EmitCalls(rules(key), Awaited(rules(key), old(File(key)), e, now))
      ensures forall k | k != key :: File(k) == old(File(k))
    {
      hide Shape, Multiline.Accept, Accepts, Awaited, EmitCalls;
      var e := Shape(rules(key), line);
      if !rules(key).multiline {
        ok := AcceptAlone(key, e, now);
      } else {
        ok := AcceptBuffered(key, e, now);
      }
    }

    ghost function StoredOffset(key: Identity): Option<nat>
      reads store
    {
      if key in store.positions then Some(store.positions[key].offset) else None
    }

    /** A round in progress: where the reader stands, and what accepting the next line depends on. */
    ghost function Remaining(key: Identity, reader: Reader, budget: int, i: nat): Job
      requires reader.Valid()
      reads this, reader
    {
      Job(reader.data[reader.pos..], File(key), budget, i, calls)
    }

    ghost function SourceFor(key: Identity, clock: nat -> nat): Source {
      Source(rules(key), clock, fails)
    }

    /** Reads and accepts the next line; `more` says whether there was one and it was accepted. */
    method AcceptNext(key: Identity, reader: Reader, budget: int, clock: nat -> nat, i: nat)
      returns (consumed: nat, more: bool, ok: bool)
      requires reader.Valid() && budget > 0
      modifies this, reader
      ensures reader.Valid()
      ensures forall k | k != key :: File(k) == old(File(k))
      ensures var s, j := SourceFor(key, clock), old(Remaining(key, reader, budget, i));
              && more == (!Done(j) && HeadAccepted(s, j)) && ok == (Done(j) || HeadAccepted(s, j))
              && (more ==> consumed == HeadBytes(j) && reader.pos == old(reader.pos) + consumed
                           && Remaining(key, reader, budget - consumed, i + 1) == Advanced(s, j))
              && (!more ==> File(key) == j.state && calls == if Done(j) then j.calls else HeadCalls(s, j))
    {
      hide LineLength, Clean, Shape, Multiline.Accept, Accepts, Awaited, EmitCalls, Utf8.TruncateRunes;
      var line, complete, readErr;
      line, consumed, complete, readErr := ReadBoundedLine(reader, rules(key).maxLogSize);
      if consumed == 0 && readErr != NoError {
        return consumed, false, true;
      }
      if !complete {
        return consumed, false, true;
      }
      assert reader.data[reader.pos..] == reader.data[old(reader.pos)..][consumed..];
      ok := Accept(key, line, clock(i));
      more := ok;
      RefusedChangesNothing(rules(key), old(File(key)), Shape(rules(key), line), clock(i), !fails(old(calls)));
    }

    /** The loop of a read round. */
    method ReadRound(key: Identity, reader: Reader, clock: nat -> nat) returns (readBytes: nat, ok: bool)
      requires reader.Valid()
      modifies this, reader
      ensures forall k | k != key :: File(k) == old(File(k))
      ensures Round(ok, readBytes, File(key), calls)
              == ReadLines(SourceFor(key, clock), old(Remaining(key, reader, maxReadBytes, 0)))
    {
      hide HeadBytes, HeadAccepted, HeadCalls, Advanced, HasLine;
      ghost var s := SourceFor(key, clock);
      ghost var total := ReadLines(s, Remaining(key, reader, maxReadBytes, 0));
      readBytes := 0;
      ok := true;
      var i := 0;
      while readBytes < maxReadBytes
        invariant reader.Valid() && forall k | k != key :: File(k) == old(File(k))
        invariant total == Further(readBytes, ReadLines(s, Remaining(key, reader, maxReadBytes - readBytes, i)))
        invariant ok
        decreases |reader.data| - reader.pos
      {
        ghost var j := Remaining(key, reader, maxReadBytes - readBytes, i);
        var consumed, more;
        consumed, more, ok := AcceptNext(key, reader, maxReadBytes - readBytes, clock, i);
        if !more {
          assert ReadLines(s, j) == Round(ok, 0, File(key), calls);
          return;
        }
        assert ReadLines(s, j) == Further(consumed, ReadLines(s, Advanced(s, j)));
        readBytes := readBytes + consumed;
        i := i + 1;
      }
      assert Done(Remaining(key, reader, maxReadBytes - readBytes, i));
    }

    /** The round behind the offset that was sought. */
    method ReadFrom(key: Identity, rest: Str, broken: bool, clock: nat -> nat) returns (readBytes: nat, ok: bool)
      modifies this
      ensures forall k | k != key :: File(k) == old(File(k))
      ensures Round(ok, readBytes, File(key), calls)
              == ReadLines(SourceFor(key, clock), Job(rest, old(File(key)), maxReadBytes, 0, old(calls)))
    {
      hide ReadLines, LineLength;
      var reader := new Reader(rest, broken);
      assert reader.data[0..] == reader.data;
      readBytes, ok := ReadRound(key, reader, clock);
    }

    /** Stores the offset at the end of a round if it differs from the one found; a missing one counts as 0. */
    method Commit(key: Identity, path: Str, initialOffset: nat, committedOffset: nat, finishedAt: nat)
      requires initialOffset == StoredOffset(key).GetOr(0)
      modifies store
      ensures StoredOffset(key) == Stored(old(StoredOffset(key)), committedOffset)
      ensures store.InMemory()
              == if committedOffset == initialOffset then old(store.InMemory())
                 else WithPosition(old(store.InMemory()), key, Position(path, committedOffset, finishedAt))
      ensures store.disk == old(store.disk)
    {
      if committedOffset != initialOffset {
        store.Set(key, Position(path, committedOffset, finishedAt));
      }
    }

    /**
     One read round of an open file: `size` is what `stat` reported, `content` what can be read afterwards.
     The offset behind the accepted lines is stored once at the end, also when `emit` failed.
     */
    method Read(key: Identity, path: Str, startAtEnd: bool, content: Str, size: nat, broken: bool,
                clock: nat -> nat, finishedAt: nat)
      returns (ok: bool)
      modifies this, store
      ensures forall k | k != key :: File(k) == old(File(k))
      ensures var start := StartOffset(startAtEnd, old(StoredOffset(key)), size);
              var r := ReadLines(SourceFor(key, clock),
                                 Job(Unread(content, start), old(File(key)), maxReadBytes, 0, old(calls)));
              && ok == r.ok && File(key) == r.state && calls == r.calls
              && StoredOffset(key) == Stored(old(StoredOffset(key)), start + r.consumed)
              && store.InMemory()
                 == (if start + r.consumed == old(StoredOffset(key)).GetOr(0) then old(store.InMemory())
                     else WithPosition(old(store.InMemory()), key, Position(path, start + r.consumed, finishedAt)))
      ensures store.disk == old(store.disk)
    {
      hide ReadLines, LineLength;
      var pos := store.Get(key);
      var initialOffset := if pos.Some? then pos.value.offset else 0;
      var offset := initialOffset;
      if pos.None? && startAtEnd {
        offset := size;
      }
      if offset > size {
        offset := 0;
      }
      var readBytes;
      readBytes, ok := ReadFrom(key, Unread(content, offset), broken, clock);
      Commit(key, path, initialOffset, offset + readBytes, finishedAt);
    }

    /** Lists the expired buffers, going through the map in any order. */
    method CollectExpired(now: nat) returns (items: seq<(Identity, Record)>)
      ensures Listed(pending, items) && KeysOf(items) == ExpiredKeys(rules, pending, now)
    {
      hide Listed, KeysOf, ExpiredKeys;
      items := [];
      NothingListed(pending);
      ExpiredAreBuffered(rules, pending, now);
      var keys := pending.Keys;
      ghost var buffers := pending;
      ghost var expired := ExpiredKeys(rules, buffers, now);
      while keys != {}
        invariant keys <= pending.Keys && Listed(buffers, items)
        invariant KeysOf(items) !! keys && KeysOf(items) <= expired <= KeysOf(items) + keys
        decreases |keys|
      {
        var key :| key in keys;
        keys := keys - {key};
        var p := pending[key];
        ExpiredKey(rules, buffers, now, key);
        var after := if rules(key).flushAfter <= 0 then DEFAULT_FLUSH else rules(key).flushAfter;
        if now - p.updated >= after && p.body != [] {
          ListedSnoc(buffers, items, key);
          items := items + [(key, Record(p.body, p.meta))];
        }
      }
    }

    /**
     Emits what has been buffered too long. Every file is flushed whole or left alone; all expired ones
     are flushed unless a call of `emit` failed.
     */
    method FlushExpired(now: nat) returns (ok: bool)
      modifies this
      ensures forall key :: File(key) == old(File(key)) || File(key) == Expire(rules(key), old(File(key)), now, true)
      ensures ok ==> forall key :: File(key) == Expire(rules(key), old(File(key)), now, true)
      ensures !ok ==> calls > old(calls) && fails(calls - 1)
    {
      hide Expire, Expired, ExpiredKeys, HandedOver, KeysOf, Released, AsOutput, EmitCalls;
      var items := CollectExpired(now);
      ghost var buffers, out0, log0 := pending, out, log;
      NothingHandedOver(rules, buffers, items, out);
      ok := true;
      var n := 0;
      while n < |items| && ok
        invariant 0 <= n <= |items| && calls >= old(calls) && log == log0
        invariant pending == buffers - KeysOf(items[..n])
        invariant HandedOver(rules, buffers, KeysOf(items[..n]), out0, out)
        invariant !ok ==> calls > old(calls) && fails(calls - 1)
        invariant ok || n < |items|
        decreases |items| - n, ok
      {
        var key, r := items[n].0, items[n].1;
        KeysOfPrefix(items, n);
        ghost var outBefore := out;
        ok := EmitPrepared(key, r);
        if ok {
          HandedOverOneMore(rules, buffers, KeysOf(items[..n]), key, out0, outBefore, out);
          pending := pending - {key};
          n := n + 1;
        }
      }
      ghost var gone := KeysOf(items[..n]);
      KeysOfPrefix(items, n);
      assert n == |items| ==> items[..n] == items;
      forall key
        ensures File(key) == if key in gone then Expire(rules(key), old(File(key)), now, true) else old(File(key))
        ensures ok ==> File(key) == Expire(rules(key), old(File(key)), now, true)
      {
        FlushedFile(rules, buffers, gone, out0, out, log, key, now);
      }
    }

    /** Lists the buffers that hold anything. */
    method CollectPending() returns (items: seq<(Identity, Record)>)
      ensures Listed(pending, items) && KeysOf(items) == FilledKeys(pending)
    {
      hide Listed, KeysOf;
      items := [];
      NothingListed(pending);
      var keys := pending.Keys;
      ghost var buffers := pending;
      ghost var filled := FilledKeys(buffers);
      while keys != {}
        invariant keys <= pending.Keys && Listed(buffers, items)
        invariant KeysOf(items) !! keys && KeysOf(items) <= filled <= KeysOf(items) + keys
        decreases |keys|
      {
        var key :| key in keys;
        keys := keys - {key};
        var p := pending[key];
        if p.body != [] {
          ListedSnoc(buffers, items, key);
          items := items + [(key, Record(p.body, p.meta))];
        }
      }
    }

    /**
     The graceful stop: the buffers are forgotten, their records are handed over one by one and the
     positions are saved. On success every buffered record was released and the file holds the positions.
     */
    method Close(writeOk: bool) returns (ok: bool)
      modifies this, store
      ensures pending == map[]
      ensures forall key :: File(key) == Shut(rules(key), old(File(key)), true)
                            || File(key) == old(File(key)).(buffer := None)
      ensures ok ==> && (forall key :: File(key) == Shut(rules(key), old(File(key)), true))
                     && store.disk == store.positions && !store.dirty
      ensures store.positions == old(store.positions)
      ensures !ok && writeOk ==> calls > old(calls) && fails(calls - 1)
    {
      hide Shut, FilledKeys, HandedOver, KeysOf, Released, AsOutput, EmitCalls;
      var items := CollectPending();
      ghost var buffers, out0, log0 := pending, out, log;
      NothingHandedOver(rules, buffers, items, out);
      pending := map[];
      ok := true;
      var n := 0;
      while n < |items| && ok
        invariant 0 <= n <= |items| && calls >= old(calls) && log == log0 && pending == map[]
        invariant store.InMemory() == old(store.InMemory()) && store.disk == old(store.disk)
        invariant HandedOver(rules, buffers, KeysOf(items[..n]), out0, out)
        invariant !ok ==> calls > old(calls) && fails(calls - 1)
        invariant ok || n < |items|
        decreases |items| - n, ok
      {
        KeysOfPrefix(items, n);
        ghost var outBefore := out;
        ok := EmitPrepared(items[n].0, items[n].1);
        if ok {
          HandedOverOneMore(rules, buffers, KeysOf(items[..n]), items[n].0, out0, outBefore, out);
          n := n + 1;
        }
      }
      ghost var gone := KeysOf(items[..n]);
      KeysOfPrefix(items, n);
      assert n == |items| ==> items[..n] == items;
      forall key
        ensures File(key) == Shut(rules(key), old(File(key)), true) || File(key) == old(File(key)).(buffer := None)
        ensures ok ==> File(key) == Shut(rules(key), old(File(key)), true)
      {
        ShutFile(rules, buffers, gone, out0, out, log, key);
      }
      if ok {
        ok := store.Save(true, writeOk);
      }
    }
  }
}
