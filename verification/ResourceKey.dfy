/**
 The canonical key of a resource map: names in byte order, every name and value followed by a NUL byte.
 Discovery computes it once per target, the exporter again for records that carry none.
 */
module ResourceKey {
  import opened Lines

  type Attributes = map<Str, Str>

  const NUL: byte := 0

  // ----- byte order and sorting

  predicate Less(a: Str, b: Str) {
    b != [] && (a == [] || a[0] < b[0] || (a[0] == b[0] && Less(a[1..], b[1..])))
  }

  lemma {:induction false} LessIsIrreflexive(a: Str)
    ensures !Less(a, a)
  {
    if a != [] {
      LessIsIrreflexive(a[1..]);
    }
  }

  lemma {:induction false} LessIsTotal(a: Str, b: Str)
    ensures Less(a, b) || a == b || Less(b, a)
    ensures !(Less(a, b) && Less(b, a)) && !Less(a, a)
  {
    if a != [] {
      LessIsIrreflexive(a);
      if b != [] && a[0] == b[0] {
        LessIsTotal(a[1..], b[1..]);
        assert a == [a[0]] + a[1..] && b == [b[0]] + b[1..];
      }
    }
  }

  lemma {:induction false} LessIsTransitive(a: Str, b: Str, c: Str)
    requires Less(a, b) && Less(b, c)
    ensures Less(a, c)
  {
    if a != [] && a[0] == b[0] == c[0] {
      LessIsTransitive(a[1..], b[1..], c[1..]);
    }
  }

  /** The strings agree up to a place where the first one ends or has the smaller byte. */
  ghost predicate SmallerAt(a: Str, b: Str, i: nat) {
    i <= |a| && i < |b| && a[..i] == b[..i] && (i == |a| || a[i] < b[i])
  }

  /** Byte order: the first difference decides, and a prefix comes first. */
  lemma {:induction false} LessExactly(a: Str, b: Str)
    ensures Less(a, b) <==> exists i :: SmallerAt(a, b, i)
  {
    forall i: nat | i > 0 && SmallerAt(a, b, i)
      ensures b != [] && a[..1] == b[..1]
    {
      assert a[..i][..1] == a[..1] && b[..i][..1] == b[..1];
    }
    assert a != [] && b != [] && a[..1] == b[..1] ==> a[0] == a[..1][0] == b[..1][0] == b[0];
    if a != [] && b != [] && a[0] == b[0] {
      LessExactly(a[1..], b[1..]);
      if i: nat :| SmallerAt(a[1..], b[1..], i) {
        assert a[..i + 1] == [a[0]] + a[1..][..i] && b[..i + 1] == [b[0]] + b[1..][..i];
        assert SmallerAt(a, b, i + 1);
      }
      if i: nat :| SmallerAt(a, b, i) {
        assert a[1..][..i - 1] == a[..i][1..] && b[1..][..i - 1] == b[..i][1..];
        assert SmallerAt(a[1..], b[1..], i - 1);
      }
    } else if Less(a, b) {
      assert SmallerAt(a, b, 0);
    }
  }

  /** Strictly increasing: sorted and free of duplicates. */
  ghost predicate Increasing(names: seq<Str>) {
    names == []
    || (&& (forall i | 1 <= i < |names| :: Less(names[0], names[i]))
        && Increasing(names[1..]))
  }

  function Insert(name: Str, names: seq<Str>): (r: seq<Str>) {
    if names == [] then [name]
    else if Less(names[0], name) then [names[0]] + Insert(name, names[1..])
    else [name] + names
  }

  /** Sorting names in byte order. */
  function Sort(names: seq<Str>): seq<Str> {
    if names == [] then [] else Insert(names[0], Sort(names[1..]))
  }

  ghost predicate Distinct(names: seq<Str>) {
    names == [] || (names[0] !in names[1..] && Distinct(names[1..]))
  }

  lemma {:induction false} InsertHolds(name: Str, names: seq<Str>)
    ensures forall x :: x in Insert(name, names) <==> x == name || x in names
  {
    if names != [] && Less(names[0], name) {
      InsertHolds(name, names[1..]);
    }
  }

  lemma {:induction false} InsertKeepsOrder(name: Str, names: seq<Str>)
    requires Increasing(names) && name !in names
    ensures Increasing(Insert(name, names))
  {
    if names != [] {
      var first, rest := names[0], names[1..];
      LessIsTotal(first, name);
      if Less(first, name) {
        InsertKeepsOrder(name, rest);
        InsertHolds(name, rest);
        forall x | x in Insert(name, rest)
          ensures Less(first, x)
        {
        }
      } else {
        forall x | x in names
          ensures Less(name, x)
        {
          if x != first {
            assert x in rest;
            LessIsTransitive(name, first, x);
          }
        }
        assert ([name] + names)[1..] == names;
      }
    } else {
      assert [name][1..] == [];
    }
  }

  lemma {:induction false} SortSorts(names: seq<Str>)
    requires Distinct(names)
    ensures Increasing(Sort(names))
    ensures forall x :: x in Sort(names) <==> x in names
  {
    if names != [] {
      SortSorts(names[1..]);
      InsertKeepsOrder(names[0], Sort(names[1..]));
      InsertHolds(names[0], Sort(names[1..]));
    }
  }

  lemma SameFirst(a: seq<Str>, b: seq<Str>)
    requires a != [] && b != [] && Increasing(a) && Increasing(b) && forall x :: x in a <==> x in b
    ensures a[0] == b[0]
  {
    assert a[0] in b && b[0] in a;
    LessIsTotal(a[0], b[0]);
  }

  lemma NotInRest(names: seq<Str>, x: Str)
    requires names != [] && Increasing(names)
    ensures x in names[1..] <==> x in names && x != names[0]
  {
    LessIsIrreflexive(names[0]);
  }

  /** A set of names has one increasing enumeration. */
  lemma {:induction false} IncreasingIsUnique(a: seq<Str>, b: seq<Str>)
    requires Increasing(a) && Increasing(b) && forall x :: x in a <==> x in b
    ensures a == b
  {
    assert a != [] ==> a[0] in a;
    assert b != [] ==> b[0] in b;
    if a != [] && b != [] {
      SameFirst(a, b);
      forall x
        ensures x in a[1..] <==> x in b[1..]
      {
        NotInRest(a, x);
        NotInRest(b, x);
      }
      IncreasingIsUnique(a[1..], b[1..]);
      assert a == [a[0]] + a[1..] && b == [b[0]] + b[1..];
    }
  }

  // ----- the key

  /** What is written for the names in the given order. */
  function Encode(m: Attributes, names: seq<Str>): Str
    requires forall x | x in names :: x in m
  {
    if names == [] then [] else names[0] + [NUL] + (m[names[0]] + [NUL] + Encode(m, names[1..]))
  }

  ghost predicate Enumerates(names: seq<Str>, keys: set<Str>) {
    Distinct(names) && forall x :: x in names <==> x in keys
  }

  ghost function AnyOrder(keys: set<Str>): (names: seq<Str>)
    ensures Enumerates(names, keys)
    decreases |keys|
  {
    if keys == {} then [] else
      var key :| key in keys;
      var rest := AnyOrder(keys - {key});
      assert ([key] + rest)[1..] == rest;
      [key] + rest
  }

  ghost function SortedNames(m: Attributes): (names: seq<Str>)
    ensures Increasing(names) && forall x :: x in names <==> x in m
  {
    SortSorts(AnyOrder(m.Keys));
    Sort(AnyOrder(m.Keys))
  }

  ghost function KeyOf(m: Attributes): Str {
    Encode(m, SortedNames(m))
  }

  /** The order in which the map hands out its names does not matter. */
  lemma AnyOrderGivesTheKey(m: Attributes, names: seq<Str>)
    requires Enumerates(names, m.Keys)
    ensures forall x | x in Sort(names) :: x in m
    ensures Encode(m, Sort(names)) == KeyOf(m)
  {
    SortSorts(names);
    IncreasingIsUnique(Sort(names), SortedNames(m));
  }

  lemma WrittenFirst(name: Str, value: Str, rest: Str, more: Str)
    ensures name + (value + (rest + more)) == name + (value + rest) + more
  {
  }

  lemma {:induction false} EncodeSnoc(m: Attributes, names: seq<Str>, name: Str)
    requires (forall x | x in names :: x in m) && name in m
    ensures Encode(m, names + [name]) == Encode(m, names) + (name + [NUL] + (m[name] + [NUL]))
  {
    if names == [] {
      assert [name][1..] == [];
      assert [name] == names + [name];
    } else {
      EncodeSnoc(m, names[1..], name);
      assert (names + [name])[1..] == names[1..] + [name];
      var rest, more := Encode(m, names[1..]), name + [NUL] + (m[name] + [NUL]);
      WrittenFirst(names[0] + [NUL], m[names[0]] + [NUL], rest, more);
    }
  }

  lemma EnumerateOneMore(names: seq<Str>, keys: set<Str>, name: Str)
    requires Enumerates(names, keys) && name !in keys
    ensures Enumerates([name] + names, keys + {name})
  {
    assert ([name] + names)[1..] == names;
  }

  /** The names as the map hands them out, in any order. */
  method CollectNames(m: Attributes) returns (names: seq<Str>)
    ensures Enumerates(names, m.Keys)
  {
    names := [];
    var left := m.Keys;
    while left != {}
      invariant left <= m.Keys && Enumerates(names, m.Keys - left)
      decreases |left|
    {
      var name :| name in left;
      EnumerateOneMore(names, m.Keys - left, name);
      assert m.Keys - (left - {name}) == m.Keys - left + {name};
      left := left - {name};
      names := [name] + names;
    }
    assert m.Keys - left == m.Keys;
  }

  /** Collects the names, sorts them and writes names and values. */
  method AttributeKey(m: Attributes) returns (key: Str)
    ensures key == KeyOf(m)
  {
    hide Enumerates;
    var names := CollectNames(m);
    AnyOrderGivesTheKey(m, names);
    var sorted := Sort(names);
    key := [];
    var i := 0;
    while i < |sorted|
      invariant 0 <= i <= |sorted|
      invariant forall x | x in sorted :: x in m
      invariant key == Encode(m, sorted[..i])
    {
      EncodeSnoc(m, sorted[..i], sorted[i]);
      assert sorted[..i + 1] == sorted[..i] + [sorted[i]];
      key := key + (sorted[i] + [NUL] + (m[sorted[i]] + [NUL]));
      i := i + 1;
    }
    assert sorted[..i] == sorted;
  }

  // ----- when the key tells resources apart

  ghost predicate NulFree(m: Attributes) {
    forall name | name in m :: NUL !in name && NUL !in m[name]
  }

  lemma FirstNul(a: Str, b: Str, x: Str, y: Str)
    requires NUL !in a && NUL !in b && a + [NUL] + x == b + [NUL] + y
    ensures a == b && x == y
  {
    var s, t := a + [NUL] + x, b + [NUL] + y;
    forall i | 0 <= i < |a|
      ensures s[i] != NUL
    {
      assert s[i] == a[i];
    }
    forall i | 0 <= i < |b|
      ensures t[i] != NUL
    {
      assert t[i] == b[i];
    }
    assert s[|a|] == NUL && t[|b|] == NUL;
    assert |a| == |b|;
    assert a == s[..|a|] && b == t[..|a|];
    assert x == s[|a| + 1..] && y == t[|a| + 1..];
  }

  lemma {:induction false} EncodeIsInjective(m: Attributes, names: seq<Str>, m': Attributes, names': seq<Str>)
    requires (forall x | x in names :: x in m) && (forall x | x in names' :: x in m')
    requires forall x | x in names :: NUL !in x && NUL !in m[x]
    requires forall x | x in names' :: NUL !in x && NUL !in m'[x]
    requires Encode(m, names) == Encode(m', names')
    ensures names == names' && forall x | x in names :: m[x] == m'[x]
  {
    if names != [] && names' != [] {
      var rest, rest' := Encode(m, names[1..]), Encode(m', names'[1..]);
      FirstNul(names[0], names'[0], m[names[0]] + [NUL] + rest, m'[names'[0]] + [NUL] + rest');
      FirstNul(m[names[0]], m'[names'[0]], rest, rest');
      EncodeIsInjective(m, names[1..], m', names'[1..]);
      assert names == [names[0]] + names[1..] && names' == [names'[0]] + names'[1..];
    }
  }

  /** Resources without NUL bytes have equal keys only if they are equal. */
  lemma KeyTellsApart(m: Attributes, m': Attributes)
    requires NulFree(m) && NulFree(m')
    ensures KeyOf(m) == KeyOf(m') <==> m == m'
  {
    if KeyOf(m) == KeyOf(m') {
      EncodeIsInjective(m, SortedNames(m), m', SortedNames(m'));
      assert forall x :: x in m <==> x in SortedNames(m);
      assert forall x :: x in m' <==> x in SortedNames(m');
      assert m == m';
    }
  }

  // ----- which resources no other resource shares its key with, NUL bytes or not

  ghost predicate KeyIsUnique(m: Attributes) {
    forall m': Attributes | KeyOf(m') == KeyOf(m) :: m' == m
  }

  function Pair(name: Str, value: Str): Str {
    name + [NUL] + (value + [NUL])
  }

  lemma KeyOfOne(name: Str, value: Str)
    ensures KeyOf(map[name := value]) == Pair(name, value)
  {
    var m := map[name := value];
    var names := SortedNames(m);
    assert [name][1..] == [];
    IncreasingIsUnique(names, [name]);
    assert Encode(m, []) == [];
    assert Encode(m, [name]) == name + [NUL] + (m[name] + [NUL] + []);
  }

  lemma KeyIsEmpty(m: Attributes)
    ensures KeyOf(m) == [] <==> m == map[]
  {
    var names := SortedNames(m);
    assert names != [] ==> names[0] in names;
    if m != map[] {
      var name :| name in m;
      assert name in names;
    }
  }

  lemma {:induction false} EncodeEndsWithNul(m: Attributes, names: seq<Str>)
    requires names != [] && forall x | x in names :: x in m
    ensures Encode(m, names) != [] && Encode(m, names)[|Encode(m, names)| - 1] == NUL
  {
    if |names| > 1 {
      EncodeEndsWithNul(m, names[1..]);
    }
  }

  /** Everything behind the first name can be read as the value of a single entry. */
  lemma KeyReadAsOneEntry(m: Attributes)
    requires m != map[]
    ensures exists name, value :: KeyOf(m) == Pair(name, value)
  {
    var names := SortedNames(m);
    KeyIsEmpty(m);
    EncodeEndsWithNul(m, names);
    var tail := m[names[0]] + [NUL] + Encode(m, names[1..]);
    var value := tail[..|tail| - 1];
    assert KeyOf(m) == names[0] + [NUL] + tail;
    assert tail[|tail| - 1] == KeyOf(m)[|KeyOf(m)| - 1];
    assert tail == value + [NUL];
    assert KeyOf(m) == Pair(names[0], value);
  }

  lemma MoveNulToName(name: Str, value: Str, i: nat)
    requires i < |value| && value[i] == NUL
    ensures Pair(name, value) == Pair(name + [NUL] + value[..i], value[i + 1..])
  {
    assert value == value[..i] + [NUL] + value[i + 1..];
  }

  lemma MoveNulToValue(name: Str, value: Str, i: nat)
    requires i < |name| && name[i] == NUL
    ensures Pair(name, value) == Pair(name[..i], name[i + 1..] + [NUL] + value)
  {
    assert name == name[..i] + [NUL] + name[i + 1..];
  }

  function Nuls(s: Str): nat {
    if s == [] then 0 else (if s[0] == NUL then 1 else 0) + Nuls(s[1..])
  }

  lemma {:induction false} NulsConcat(a: Str, b: Str)
    ensures Nuls(a + b) == Nuls(a) + Nuls(b)
  {
    if a == [] {
      assert a + b == b;
    } else {
      assert (a + b)[1..] == a[1..] + b;
      NulsConcat(a[1..], b);
    }
  }

  lemma {:induction false} NulsZero(s: Str)
    ensures Nuls(s) == 0 <==> NUL !in s
  {
    if s != [] {
      NulsZero(s[1..]);
      assert s == [s[0]] + s[1..];
    }
  }

  lemma NulsOfHead(name: Str, value: Str, rest: Str)
    ensures Nuls(name + [NUL] + (value + [NUL] + rest)) == Nuls(name) + 1 + (Nuls(value) + 1 + Nuls(rest))
  {
    assert Nuls([NUL]) == 1 + Nuls([NUL][1..]);
    NulsConcat(value, [NUL]);
    NulsConcat(value + [NUL], rest);
    NulsConcat(name, [NUL]);
    NulsConcat(name + [NUL], value + [NUL] + rest);
  }

  lemma {:induction false} NulsOfEncoded(m: Attributes, names: seq<Str>)
    requires forall x | x in names :: x in m
    ensures Nuls(Encode(m, names)) >= 2 * |names|
    ensures Nuls(Encode(m, names)) == 2 * |names| ==> forall x | x in names :: NUL !in x && NUL !in m[x]
  {
    if names != [] {
      var rest := names[1..];
      NulsOfEncoded(m, rest);
      NulsOfHead(names[0], m[names[0]], Encode(m, rest));
      NulsZero(names[0]);
      NulsZero(m[names[0]]);
      assert forall x | x in names :: x == names[0] || x in rest;
    }
  }

  lemma OneEntryIsUnique(name: Str, value: Str)
    requires NUL !in name && NUL !in value
    ensures KeyIsUnique(map[name := value])
  {
    var m := map[name := value];
    KeyOfOne(name, value);
    NulsOfHead(name, value, []);
    assert Pair(name, value) == name + [NUL] + (value + [NUL] + []);
    NulsZero(name);
    NulsZero(value);
    forall m': Attributes | KeyOf(m') == KeyOf(m)
      ensures m' == m
    {
      NulsOfEncoded(m', SortedNames(m'));
      KeyIsEmpty(m');
      KeyIsEmpty(m);
      assert |SortedNames(m')| == 1;
      assert forall x | x in m' :: x in SortedNames(m');
      KeyTellsApart(m, m');
    }
  }

  lemma TwoNames(m: Attributes)
    requires |m| >= 2
    ensures !KeyIsUnique(m)
  {
    KeyReadAsOneEntry(m);
    var name, value :| KeyOf(m) == Pair(name, value);
    KeyOfOne(name, value);
    assert |map[name := value]| == 1;
  }

  lemma OneEntryWithNul(name: Str, value: Str)
    requires NUL in name || NUL in value
    ensures !KeyIsUnique(map[name := value])
  {
    var m := map[name := value];
    KeyOfOne(name, value);
    if NUL in value {
      var i: nat :| i < |value| && value[i] == NUL;
      var longer := name + [NUL] + value[..i];
      MoveNulToName(name, value, i);
      KeyOfOne(longer, value[i + 1..]);
      assert longer != name;
      assert longer !in m && longer in map[longer := value[i + 1..]];
    } else {
      var i: nat :| i < |name| && name[i] == NUL;
      var shorter := name[..i];
      MoveNulToValue(name, value, i);
      KeyOfOne(shorter, name[i + 1..] + [NUL] + value);
      assert shorter != name;
      assert shorter !in m && shorter in map[shorter := name[i + 1..] + [NUL] + value];
    }
  }

  /**
   Among all resources the key belongs to one alone exactly when it has at most one entry and no NUL
   byte: any other resource shares its key with a resource that has NUL bytes.
   */
  lemma KeyIsUniqueExactly(m: Attributes)
    ensures KeyIsUnique(m) <==> |m| <= 1 && NulFree(m)
  {
    if m == map[] {
      forall m': Attributes | KeyOf(m') == KeyOf(m)
        ensures m' == m
      {
        KeyIsEmpty(m);
        KeyIsEmpty(m');
      }
    } else if |m| >= 2 {
      TwoNames(m);
    } else {
      var name :| name in m;
      assert |m.Keys - {name}| == 0;
      assert m == map[name := m[name]];
      if NulFree(m) {
        OneEntryIsUnique(name, m[name]);
      } else {
        OneEntryWithNul(name, m[name]);
      }
    }
  }
}
