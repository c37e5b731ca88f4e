/** Grouping a batch by resource, as the exporter does when it builds an OTLP request. */
module OtlpRequest {
  import opened Lines
  import opened ResourceKey
  import opened Records

  /** The records of one resource in a request. */
  datatype ResourceLogs = ResourceLogs(resource: Attributes, records: seq<LogRecord>)

  /** The key a record is grouped by: its own, or the one of its resource when it carries none. */
  ghost function GroupKey(r: LogRecord): Str {
    if r.resourceKey != [] then r.resourceKey else KeyOf(r.resource)
  }

  /** The records with this key, in order. */
  ghost function WithKey(records: seq<LogRecord>, key: Str): seq<LogRecord> {
    if records == [] then []
    else
      var n := |records| - 1;
      WithKey(records[..n], key) + if GroupKey(records[n]) == key then [records[n]] else []
  }

  ghost predicate IsGroup(records: seq<LogRecord>, key: Str, g: ResourceLogs) {
    g.records == WithKey(records, key) && g.records != [] && g.resource == g.records[0].resource
  }

  /** The groups so far, one per key that occurred. */
  ghost predicate Grouped(records: seq<LogRecord>, groups: map<Str, ResourceLogs>) {
    && (forall key | key in groups :: IsGroup(records, key, groups[key]))
    && (forall key | key !in groups :: WithKey(records, key) == [])
  }

  lemma GroupOneMore(records: seq<LogRecord>, r: LogRecord, key: Str, groups: map<Str, ResourceLogs>)
    requires Grouped(records, groups) && key == GroupKey(r)
    ensures var g := if key in groups then groups[key] else ResourceLogs(r.resource, []);
            Grouped(records + [r], groups[key := g.(records := g.records + [r])])
  {
    assert (records + [r])[..|records|] == records;
  }

  /** One entry per key that occurs, with exactly the records of that key in order and the resource of the first. */
  ghost predicate GroupedBy(records: seq<LogRecord>, request: seq<ResourceLogs>, keys: seq<Str>) {
    && |keys| == |request| && Distinct(keys)
    && (forall i | 0 <= i < |request| :: IsGroup(records, keys[i], request[i]))
    && (forall r | r in records :: GroupKey(r) in keys)
  }

  lemma NothingGrouped()
    ensures Grouped([], map[])
  {
  }

  method GroupRecords(records: seq<LogRecord>) returns (groups: map<Str, ResourceLogs>)
    ensures Grouped(records, groups)
  {
    hide WithKey;
    groups := map[];
    NothingGrouped();
    assert records[..0] == [];
    var n := 0;
    while n < |records|
      invariant 0 <= n <= |records|
      invariant Grouped(records[..n], groups)
    {
      hide Grouped;
      var r := records[n];
      var key := r.resourceKey;
      if key == [] {
        key := AttributeKey(r.resource);
      }
      GroupOneMore(records[..n], r, key, groups);
      assert records[..n + 1] == records[..n] + [r];
      var g := if key in groups then groups[key] else ResourceLogs(r.resource, []);
      groups := groups[key := g.(records := g.records + [r])];
      n := n + 1;
    }
    assert records[..n] == records;
  }

  /** The entries of the map in any order. */
  method ListGroups(groups: map<Str, ResourceLogs>) returns (request: seq<ResourceLogs>, ghost keys: seq<Str>)
    ensures |keys| == |request| && Distinct(keys) && forall key :: key in keys <==> key in groups
    ensures forall i | 0 <= i < |keys| :: keys[i] in groups && request[i] == groups[keys[i]]
  {
    request, keys := [], [];
    var left := groups.Keys;
    while left != {}
      invariant left <= groups.Keys && |keys| == |request| && Distinct(keys)
      invariant forall key :: key in keys <==> key in groups && key !in left
      invariant forall i | 0 <= i < |keys| :: keys[i] in groups && request[i] == groups[keys[i]]
      decreases |left|
    {
      var key :| key in left;
      left := left - {key};
      assert ([key] + keys)[1..] == keys;
      request, keys := [groups[key]] + request, [key] + keys;
    }
  }

  lemma {:induction false} RecordIsInItsGroup(records: seq<LogRecord>, r: LogRecord)
    requires r in records
    ensures WithKey(records, GroupKey(r)) != []
  {
    var n := |records| - 1;
    if r != records[n] {
      assert r in records[..n];
      RecordIsInItsGroup(records[..n], r);
    }
  }

  /** Puts every record into the group of its key and lists the groups in any order. */
  method BuildRequest(records: seq<LogRecord>) returns (request: seq<ResourceLogs>)
    ensures exists keys :: GroupedBy(records, request, keys)
  {
    hide Distinct, WithKey;
    var groups := GroupRecords(records);
    ghost var keys;
    request, keys := ListGroups(groups);
    forall r | r in records
      ensures GroupKey(r) in keys
    {
      RecordIsInItsGroup(records, r);
    }
    assert GroupedBy(records, request, keys);
  }

  // ----- the groups partition the batch

  ghost function Flatten(records: seq<LogRecord>, keys: seq<Str>): seq<LogRecord> {
    if keys == [] then [] else WithKey(records, keys[0]) + Flatten(records, keys[1..])
  }

  lemma {:induction false} FlattenNothing(keys: seq<Str>)
    ensures Flatten([], keys) == []
  {
    if keys != [] {
      FlattenNothing(keys[1..]);
    }
  }

  lemma {:induction false} FlattenSnoc(records: seq<LogRecord>, r: LogRecord, keys: seq<Str>)
    requires Distinct(keys)
    ensures multiset(Flatten(records + [r], keys))
            == multiset(Flatten(records, keys)) + if GroupKey(r) in keys then multiset{r} else multiset{}
  {
    if keys != [] {
      var key, rest := keys[0], keys[1..];
      assert keys == [key] + rest;
      assert (records + [r])[..|records|] == records;
      FlattenSnoc(records, r, rest);
    }
  }

  /** Each record of the batch is in exactly one group, as often as in the batch, and nothing else is. */
  lemma {:induction false} GroupsPartition(records: seq<LogRecord>, keys: seq<Str>)
    requires Distinct(keys) && forall r | r in records :: GroupKey(r) in keys
    ensures multiset(Flatten(records, keys)) == multiset(records)
  {
    if records == [] {
      FlattenNothing(keys);
    } else {
      var n := |records| - 1;
      assert records == records[..n] + [records[n]];
      GroupsPartition(records[..n], keys);
      FlattenSnoc(records[..n], records[n], keys);
    }
  }

  /** All records of a request, group by group. */
  function AllRecords(request: seq<ResourceLogs>): seq<LogRecord> {
    if request == [] then [] else request[0].records + AllRecords(request[1..])
  }

  lemma {:induction false} AllRecordsAreGroups(records: seq<LogRecord>, request: seq<ResourceLogs>, keys: seq<Str>)
    requires |keys| == |request| && forall i | 0 <= i < |request| :: IsGroup(records, keys[i], request[i])
    ensures AllRecords(request) == Flatten(records, keys)
  {
    if request != [] {
      AllRecordsAreGroups(records, request[1..], keys[1..]);
    }
  }

  /** A request holds exactly the records of its batch, each as often as the batch does. */
  lemma RequestHoldsBatch(records: seq<LogRecord>, request: seq<ResourceLogs>, keys: seq<Str>)
    requires GroupedBy(records, request, keys)
    ensures multiset(AllRecords(request)) == multiset(records)
  {
    hide Distinct, Flatten, IsGroup;
    AllRecordsAreGroups(records, request, keys);
    GroupsPartition(records, keys);
  }

  /** The batch positions of a group's records. */
  ghost function Positions(records: seq<LogRecord>, key: Str): (positions: seq<nat>)
    ensures forall i | 0 <= i < |positions| :: positions[i] < |records|
  {
    if records == [] then []
    else
      var n := |records| - 1;
      Positions(records[..n], key) + if GroupKey(records[n]) == key then [n] else []
  }

  /** A group lists the records at its positions, which increase and are all those with its key. */
  lemma {:induction false} GroupKeepsOrder(records: seq<LogRecord>, key: Str)
    ensures var positions := Positions(records, key);
            && |positions| == |WithKey(records, key)|
            && (forall i | 0 <= i < |positions| :: WithKey(records, key)[i] == records[positions[i]])
            && (forall i, j | 0 <= i < j < |positions| :: positions[i] < positions[j])
  {
    hide GroupKey;
    if records != [] {
      GroupKeepsOrder(records[..|records| - 1], key);
    }
  }

  lemma KeyOfRecord(r: LogRecord)
    ensures GroupKey(r) == if r.resourceKey == [] then KeyOf(r.resource) else r.resourceKey
  {
  }

  lemma {:induction false} PositionsAreAll(records: seq<LogRecord>, key: Str, p: nat)
    requires p < |records|
    ensures p in Positions(records, key)
            <==> key == (if records[p].resourceKey == [] then KeyOf(records[p].resource) else records[p].resourceKey)
  {
    hide GroupKey;
    KeyOfRecord(records[p]);
    var n := |records| - 1;
    if p < n {
      PositionsAreAll(records[..n], key, p);
    }
  }

  /** Records as the tailer makes them: the key discovery computed, or none, and no NUL byte in the resource. */
  ghost predicate Keyed(r: LogRecord) {
    NulFree(r.resource) && (r.resourceKey == [] || r.resourceKey == KeyOf(r.resource))
  }

  lemma {:induction false} GroupMembers(records: seq<LogRecord>, key: Str, r: LogRecord)
    requires r in WithKey(records, key)
    ensures r in records && GroupKey(r) == key
  {
    var n := |records| - 1;
    if r in WithKey(records[..n], key) {
      GroupMembers(records[..n], key, r);
    }
  }

  lemma {:induction false} DistinctAt(keys: seq<Str>, i: nat, j: nat)
    requires Distinct(keys) && i < j < |keys|
    ensures keys[i] != keys[j]
  {
    if i > 0 {
      DistinctAt(keys[1..], i - 1, j - 1);
    } else {
      assert keys[j] == keys[1..][j - 1];
    }
  }

  /** A group's resource is the resource of every record in it. */
  lemma GroupHasOneResource(records: seq<LogRecord>, key: Str, g: ResourceLogs)
    requires IsGroup(records, key, g) && forall r | r in records :: Keyed(r)
    ensures forall r | r in g.records :: r.resource == g.resource
  {
    forall r | r in g.records
      ensures r.resource == g.resource
    {
      var first := g.records[0];
      GroupMembers(records, key, first);
      GroupMembers(records, key, r);
      KeyTellsApart(first.resource, r.resource);
    }
  }

  /** And no two groups have the same resource. */
  lemma GroupsDiffer(records: seq<LogRecord>, key: Str, g: ResourceLogs, key': Str, g': ResourceLogs)
    requires IsGroup(records, key, g) && IsGroup(records, key', g') && key != key'
    requires forall r | r in records :: Keyed(r)
    ensures g.resource != g'.resource
  {
    GroupMembers(records, key, g.records[0]);
    GroupMembers(records, key', g'.records[0]);
  }

  /**
   For records keyed as discovery and the exporter key them, a request has one entry per resource: the
   entry's resource is that of all its records, and no two entries have the same one.
   */
  lemma OneEntryPerResource(records: seq<LogRecord>, request: seq<ResourceLogs>, keys: seq<Str>)
    requires GroupedBy(records, request, keys) && forall r | r in records :: Keyed(r)
    ensures forall i, r | 0 <= i < |request| && r in request[i].records :: r.resource == request[i].resource
    ensures forall i, j | 0 <= i < j < |request| :: request[i].resource != request[j].resource
  {
    hide Keyed, GroupKey, Distinct, IsGroup;
    forall i | 0 <= i < |request|
      ensures forall r | r in request[i].records :: r.resource == request[i].resource
    {
      GroupHasOneResource(records, keys[i], request[i]);
    }
    forall i, j | 0 <= i < j < |request|
      ensures request[i].resource != request[j].resource
    {
      DistinctAt(keys, i, j);
      GroupsDiffer(records, keys[i], request[i], keys[j], request[j]);
    }
  }
}
