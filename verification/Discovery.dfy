/** Targets as discovery prepares them: the canonical resource, and one target per path. */
module Discovery {
  import opened Lines
  import opened ResourceKey

  datatype Target = Target(
    path: Str,
    reportedPath: Str,
    sourceType: Str,
    rule: Str,
    attributes: Attributes,
    resource: Attributes,
    resourceKey: Str)

  const FILE_PATH: Str := [108, 111, 103, 46, 102, 105, 108, 101, 46, 112, 97, 116, 104]            // log.file.path
  const SOURCE_TYPE: Str := [108, 111, 103, 46, 115, 111, 117, 114, 99, 101, 46, 116, 121, 112, 101] // log.source.type
  const SOURCE_RULE: Str := [108, 111, 103, 46, 115, 111, 117, 114, 99, 101, 46, 114, 117, 108, 101] // log.source.rule

  function ReportedPath(t: Target): Str {
    if t.reportedPath != [] then t.reportedPath else t.path
  }

  function Resource(t: Target): Attributes {
    t.attributes[FILE_PATH := ReportedPath(t)][SOURCE_TYPE := t.sourceType][SOURCE_RULE := t.rule]
  }

  ghost predicate Prepared(t: Target, t': Target) {
    t' == t.(resource := Resource(t), resourceKey := KeyOf(Resource(t)))
  }

  lemma NothingEnumerated()
    ensures Enumerates([], {})
  {
  }

  lemma WrittenInParts(before: Str, name: Str, value: Str)
    ensures before + name + [NUL] + value + [NUL] == before + (name + [NUL] + (value + [NUL]))
  {
  }

  /** Discovery's own loops over a resource: collect the names, sort them, write names and values. */
  method CanonicalKey(resource: Attributes) returns (key: Str)
    ensures key == KeyOf(resource)
  {
    hide Enumerates, KeyOf;
    var keys: seq<Str> := [];
    var left := resource.Keys;
    NothingEnumerated();
    assert resource.Keys - left == {};
    while left != {}
      invariant left <= resource.Keys && Enumerates(keys, resource.Keys - left)
      decreases |left|
    {
      var name :| name in left;
      EnumerateOneMore(keys, resource.Keys - left, name);
      assert resource.Keys - (left - {name}) == resource.Keys - left + {name};
      left := left - {name};
      keys := [name] + keys;
    }
    assert resource.Keys - left == resource.Keys;
    AnyOrderGivesTheKey(resource, keys);
    keys := Sort(keys);
    key := [];
    var n := 0;
    while n < |keys|
      invariant 0 <= n <= |keys|
      invariant forall x | x in keys :: x in resource
      invariant key == Encode(resource, keys[..n])
    {
      var name := keys[n];
      EncodeSnoc(resource, keys[..n], name);
      assert keys[..n + 1] == keys[..n] + [name];
      key := key + name;
      key := key + [NUL];
      key := key + resource[name];
      key := key + [NUL];
      WrittenInParts(Encode(resource, keys[..n]), name, resource[name]);
      n := n + 1;
    }
    assert keys[..n] == keys;
  }

  method PrepareResource(t: Target) returns (prepared: Target)
    ensures Prepared(t, prepared)
  {
    var resource := t.attributes;
    resource := resource[FILE_PATH := ReportedPath(t)];
    resource := resource[SOURCE_TYPE := t.sourceType];
    resource := resource[SOURCE_RULE := t.rule];
    var key := CanonicalKey(resource);
    prepared := t.(resource := resource, resourceKey := key);
  }

  const FILE_PATH_NAME := "log.file.path"
  const SOURCE_TYPE_NAME := "log.source.type"
  const SOURCE_RULE_NAME := "log.source.rule"

  /**
   A resource holds the path the process sees, or the path itself when there is none, the source's type and
   its rule under their names, whatever the configured attributes say, and every other attribute.
   */
  lemma ResourceExactly(t: Target)
    ensures var r := Resource(t);
            && FILE_PATH in r && r[FILE_PATH] == (if t.reportedPath == [] then t.path else t.reportedPath)
            && SOURCE_TYPE in r && r[SOURCE_TYPE] == t.sourceType
            && SOURCE_RULE in r && r[SOURCE_RULE] == t.rule
            && (forall name | name !in {FILE_PATH, SOURCE_TYPE, SOURCE_RULE} ::
                  (name in r <==> name in t.attributes) && (name in r ==> r[name] == t.attributes[name]))
    ensures Spells(FILE_PATH, FILE_PATH_NAME) && Spells(SOURCE_TYPE, SOURCE_TYPE_NAME)
            && Spells(SOURCE_RULE, SOURCE_RULE_NAME)
  {
    assert FILE_PATH[4] != SOURCE_TYPE[4] && SOURCE_TYPE[11] != SOURCE_RULE[11];
  }

  /** The first target of every path, in order. */
  function FirstOfEachPath(targets: seq<Target>): seq<Target> {
    if targets == [] then []
    else
      var n := |targets| - 1;
      FirstOfEachPath(targets[..n])
      + if exists i :: 0 <= i < n && targets[i].path == targets[n].path then [] else [targets[n]]
  }

  method Deduplicate(targets: seq<Target>) returns (unique: seq<Target>)
    ensures |unique| == |FirstOfEachPath(targets)|
    ensures forall i | 0 <= i < |unique| :: Prepared(FirstOfEachPath(targets)[i], unique[i])
  {
    unique := [];
    var cycle: set<Str> := {};
    var n := 0;
    while n < |targets|
      invariant 0 <= n <= |targets|
      invariant cycle == set i | 0 <= i < n :: targets[i].path
      invariant |unique| == |FirstOfEachPath(targets[..n])|
      invariant forall i | 0 <= i < |unique| :: Prepared(FirstOfEachPath(targets[..n])[i], unique[i])
    {
      assert targets[..n + 1][..n] == targets[..n];
      if targets[n].path !in cycle {
        cycle := cycle + {targets[n].path};
        var prepared := PrepareResource(targets[n]);
        unique := unique + [prepared];
      }
      n := n + 1;
    }
    assert targets[..n] == targets;
  }

  /** What is kept is the first target of its path. */
  lemma {:induction false} KeptIsTarget(targets: seq<Target>, i: nat) returns (k: nat)
    requires i < |FirstOfEachPath(targets)|
    ensures k < |targets| && FirstOfEachPath(targets)[i] == targets[k]
    ensures forall j | 0 <= j < k :: targets[j].path != targets[k].path
  {
    var n := |targets| - 1;
    if i < |FirstOfEachPath(targets[..n])| {
      k := KeptIsTarget(targets[..n], i);
    } else {
      k := n;
    }
  }

  /** Every path is kept. */
  lemma {:induction false} PathIsKept(targets: seq<Target>, k: nat) returns (i: nat)
    requires k < |targets|
    ensures i < |FirstOfEachPath(targets)| && FirstOfEachPath(targets)[i].path == targets[k].path
  {
    var n := |targets| - 1;
    var before := FirstOfEachPath(targets[..n]);
    if k < n {
      i := PathIsKept(targets[..n], k);
    } else if exists j :: 0 <= j < n && targets[j].path == targets[n].path {
      var j :| 0 <= j < n && targets[j].path == targets[n].path;
      i := PathIsKept(targets[..n], j);
    } else {
      i := |before|;
    }
  }

  /** No path is kept twice. */
  lemma {:induction false} PathsAreDistinct(targets: seq<Target>, i: nat, j: nat)
    requires i < j < |FirstOfEachPath(targets)|
    ensures FirstOfEachPath(targets)[i].path != FirstOfEachPath(targets)[j].path
  {
    var n := |targets| - 1;
    if j < |FirstOfEachPath(targets[..n])| {
      PathsAreDistinct(targets[..n], i, j);
    } else {
      var k := KeptIsTarget(targets[..n], i);
    }
  }
}
