/** Records on their way to the exporter, and the estimate of their size in memory. */
module Records {
  import opened Lines
  import opened ResourceKey

  /** The fields of a record that size and grouping depend on, and a payload for all others. */
  datatype LogRecord = LogRecord(
    body: Str,
    traceId: Str,
    attributes: Attributes,
    resource: Attributes,
    resourceKey: Str,
    timestamp: int)

  const RECORD_OVERHEAD := 128
  const ENTRY_OVERHEAD := 32

  function EntrySize(m: Attributes, name: Str): nat
    requires name in m
  {
    |name| + |m[name]| + ENTRY_OVERHEAD
  }

  /** The sum over all entries, taken in some order. */
  ghost function EntriesSize(m: Attributes): nat
    decreases |m|
  {
    if m == map[] then 0 else
      var name :| name in m;
      EntrySize(m, name) + EntriesSize(m - {name})
  }

  ghost function SizeOf(r: LogRecord): nat {
    |r.body| + |r.traceId| + RECORD_OVERHEAD + EntriesSize(r.attributes) + EntriesSize(r.resource)
  }

  /** Whichever entry comes first, the sum is the same. */
  lemma {:induction false} AnyEntryFirst(m: Attributes, name: Str)
    requires name in m
    ensures EntriesSize(m) == EntrySize(m, name) + EntriesSize(m - {name})
    decreases |m|
  {
    var first :| first in m && EntriesSize(m) == EntrySize(m, first) + EntriesSize(m - {first});
    if first != name {
      AnyEntryFirst(m - {first}, name);
      AnyEntryFirst(m - {name}, first);
      assert m - {first} - {name} == m - {name} - {first};
      assert EntrySize(m - {first}, name) == EntrySize(m, name);
      assert EntrySize(m - {name}, first) == EntrySize(m, first);
    }
  }

  /** Adds up the entries in the order the map hands them out. */
  method AddEntries(m: Attributes, start: nat) returns (size: nat)
    ensures size == start + EntriesSize(m)
  {
    size := start;
    var left := m;
    while left != map[]
      invariant size + EntriesSize(left) == start + EntriesSize(m)
      decreases |left|
    {
      var name :| name in left;
      AnyEntryFirst(left, name);
      size := size + (|name| + |left[name]| + ENTRY_OVERHEAD);
      left := left - {name};
    }
  }

  /** The estimate does not depend on the order in which the maps are gone through. */
  method RecordSize(r: LogRecord) returns (size: nat)
    ensures size == SizeOf(r)
  {
    size := |r.body| + |r.traceId| + RECORD_OVERHEAD;
    size := AddEntries(r.attributes, size);
    size := AddEntries(r.resource, size);
  }

  lemma EntryAdded(m: Attributes, name: Str, value: Str)
    ensures name !in m ==> EntriesSize(m[name := value]) == EntriesSize(m) + |name| + |value| + 32
  {
    if name !in m {
      AnyEntryFirst(m[name := value], name);
      assert m[name := value] - {name} == m;
    }
  }

  /** A record counts 128 bytes, its body and its trace identifier, and 32 more than its bytes for each attribute. */
  lemma SizeExactly(r: LogRecord, name: Str, value: Str)
    ensures r.attributes == r.resource == map[] ==> SizeOf(r) == 128 + |r.body| + |r.traceId|
    ensures name !in r.attributes ==>
              SizeOf(r.(attributes := r.attributes[name := value])) == SizeOf(r) + |name| + |value| + 32
    ensures name !in r.resource ==>
              SizeOf(r.(resource := r.resource[name := value])) == SizeOf(r) + |name| + |value| + 32
  {
    EntryAdded(r.attributes, name, value);
    EntryAdded(r.resource, name, value);
  }
}
