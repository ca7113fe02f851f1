/** The run-time values of the reference interpreter and the two operations
    it performs on them besides evaluation: the deep clone that gives While
    its value semantics, and the canonical printed form. */
module Values {
  import Strings

  /** What an interpreter variable can hold. Records are HashMaps from
      field names to values; EmptySet is the Collections.EMPTY_SET sentinel
      that a declaration without initialiser stores and a bare `return`
      yields. */
  datatype Value =
    | NullValue
    | BoolValue(b: bool)
    | CharValue(c: char)
    | IntValue(i: int)
    | StringValue(s: string)
    | ListValue(elements: seq<Value>)
    | RecordValue(fields: map<string, Value>)
    | EmptySet

  // ---------------------------------------------------------------------
  // Sorted field names

  /** The keys of a record in the order Collections.sort gives them. */
  function SortedKeys(s: set<string>): (r: seq<string>)
    ensures |r| == |s|
    ensures forall x :: x in r <==> x in s
    ensures StrictlySorted(r)
    decreases |s|
  {
    if s == {} then []
    else
      MinimumExists(s);
      MinimumUnique(s);
      var m :| m in s && IsMinimum(m, s);
      var rest := SortedKeys(s - {m});
      ConsSorted(m, s, rest);
      [m] + rest
  }

  lemma ConsSorted(m: string, s: set<string>, rest: seq<string>)
    requires m in s && IsMinimum(m, s)
    requires forall x :: x in rest <==> x in s - {m}
    requires StrictlySorted(rest)
    ensures StrictlySorted([m] + rest)
    ensures forall x :: x in [m] + rest <==> x in s
  {
    assert forall i | 0 <= i < |rest| :: rest[i] in rest;
    var r := [m] + rest;
    forall i, j | 0 <= i < j < |r|
      ensures Strings.Less(r[i], r[j])
    {
      assert r[j] == rest[j - 1];
      if i > 0 {
        assert r[i] == rest[i - 1];
      }
    }
  }

  predicate IsMinimum(m: string, s: set<string>) {
    forall x | x in s && x != m :: Strings.Less(m, x)
  }

  predicate StrictlySorted(r: seq<string>) {
    forall i, j | 0 <= i < j < |r| :: Strings.Less(r[i], r[j])
  }

  lemma MinimumUnique(s: set<string>)
    ensures forall m, m' | m in s && IsMinimum(m, s) && m' in s && IsMinimum(m', s) :: m == m'
  {
    forall m, m' | m in s && IsMinimum(m, s) && m' in s && IsMinimum(m', s)
      ensures m == m'
    {
      if m != m' {
        Strings.LessAsymmetric(m, m');
      }
    }
  }

  lemma MinimumExists(s: set<string>)
    requires s != {}
    ensures exists m :: m in s && IsMinimum(m, s)
    decreases |s|
  {
    var x :| x in s;
    if s - {x} == {} {
      assert s == {x};
      assert IsMinimum(x, s);
    } else {
      MinimumExists(s - {x});
      var m :| m in s - {x} && IsMinimum(m, s - {x});
      Strings.LessTotal(m, x);
      if Strings.Less(m, x) {
        assert IsMinimum(m, s);
      } else {
        forall y | y in s && y != x
          ensures Strings.Less(x, y)
        {
          if y != m {
            Strings.LessTransitive(x, m, y);
          }
        }
        assert IsMinimum(x, s);
      }
    }
  }

  /** Two strictly sorted sequences with the same elements are equal, so
      any sort of the keys gives SortedKeys. */
  lemma {:induction false} SortedUnique(a: seq<string>, b: seq<string>)
    requires StrictlySorted(a) && StrictlySorted(b)
    requires forall x :: x in a <==> x in b
    ensures a == b
    decreases |a|
  {
    EmptyTogether(a, b);
    if a != [] {
      HeadsAgree(a, b);
      TailMembers(a);
      TailMembers(b);
      SortedUnique(a[1..], b[1..]);
      assert a == [a[0]] + a[1..] && b == [b[0]] + b[1..];
    }
  }

  lemma EmptyTogether(a: seq<string>, b: seq<string>)
    requires forall x :: x in a <==> x in b
    ensures a == [] <==> b == []
  {
    if a != [] {
      assert a[0] in b;
    }
    if b != [] {
      assert b[0] in a;
    }
  }

  lemma HeadsAgree(a: seq<string>, b: seq<string>)
    requires StrictlySorted(a) && StrictlySorted(b) && a != [] && b != []
    requires forall x :: x in a <==> x in b
    ensures a[0] == b[0]
  {
    assert a[0] in b && b[0] in a;
    if a[0] != b[0] {
      var j :| 0 <= j < |b| && b[j] == a[0];
      var k :| 0 <= k < |a| && a[k] == b[0];
      Strings.LessAsymmetric(a[0], b[0]);
    }
  }

  /** The tail of a strictly sorted sequence holds everything but its head. */
  lemma TailMembers(a: seq<string>)
    requires StrictlySorted(a) && a != []
    ensures StrictlySorted(a[1..])
    ensures forall x :: x in a[1..] <==> x in a && x != a[0]
  {
    Strings.LessIrreflexive(a[0]);
    forall x | x in a && x != a[0]
      ensures x in a[1..]
    {
      var j :| 0 <= j < |a| && a[j] == x;
      assert a[1..][j - 1] == x;
    }
    forall x | x in a[1..]
      ensures x != a[0]
    {
      var j :| 0 <= j < |a[1..]| && a[1..][j] == x;
      assert Strings.Less(a[0], a[j + 1]);
    }
  }

  // ---------------------------------------------------------------------
  // toString

  /** The parts separated by sep, as the interpreter's loops build them:
      nothing before the first part, sep before each later one. */
  function Join(sep: string, parts: seq<string>): (r: string)
    decreases |parts|
  {
    if |parts| == 0 then ""
    else if |parts| == 1 then parts[0]
    else Join(sep, parts[..|parts| - 1]) + sep + parts[|parts| - 1]
  }

  /** Object.toString on an immutable value. */
  function ScalarText(v: Value): (r: string)
    requires !v.ListValue? && !v.RecordValue?
  {
    match v
    case NullValue => "null"
    case BoolValue(b) => if b then "true" else "false"
    case CharValue(c) => [c]
    case IntValue(i) => Strings.Decimal(i)
    case StringValue(s) => s
    case EmptySet => "[]"
  }

  /** toString(Object): lists as their elements separated by ", " inside
      brackets, records as `name:value` separated by "," inside braces in
      sorted field order, and everything else as Java prints it. */
  function Show(v: Value): string
    decreases v, 1
  {
    match v
    case ListValue(xs) => "[" + Join(", ", ShowElements(xs)) + "]"
    case RecordValue(m) => "{" + Join(",", ShowFields(v, SortedKeys(m.Keys))) + "}"
    case _ => ScalarText(v)
  }

  function ShowElements(xs: seq<Value>): (r: seq<string>)
    ensures |r| == |xs|
    ensures forall i | 0 <= i < |xs| :: r[i] == Show(xs[i])
    decreases xs
  {
    if xs == [] then [] else [Show(xs[0])] + ShowElements(xs[1..])
  }

  function ShowFields(v: Value, keys: seq<string>): (r: seq<string>)
    requires v.RecordValue? && forall i | 0 <= i < |keys| :: keys[i] in v.fields
    ensures |r| == |keys|
    ensures forall i | 0 <= i < |keys| :: r[i] == keys[i] + ":" + Show(v.fields[keys[i]])
    decreases v, 0, keys
  {
    if keys == [] then []
    else [keys[0] + ":" + Show(v.fields[keys[0]])] + ShowFields(v, keys[1..])
  }

  /** Joining two non-empty runs puts one separator between them. */
  lemma {:induction false} JoinAppend(sep: string, a: seq<string>, b: seq<string>)
    requires |a| > 0 && |b| > 0
    ensures Join(sep, a + b) == Join(sep, a) + sep + Join(sep, b)
    decreases |b|
  {
    if |b| > 1 {
      var b' := b[..|b| - 1];
      assert (a + b)[..|a + b| - 1] == a + b';
      JoinAppend(sep, a, b');
    } else {
      assert (a + b)[..|a + b| - 1] == a;
    }
  }

  /** A record prints the same whichever order its map iterates in, and
      two records print alike when their fields do. */
  lemma ShowRecordByFields(m: map<string, Value>, m': map<string, Value>)
    requires m.Keys == m'.Keys
    requires forall k | k in m :: Show(m[k]) == Show(m'[k])
    ensures Show(RecordValue(m)) == Show(RecordValue(m'))
  {
    var ks := SortedKeys(m.Keys);
    var a, b := ShowFields(RecordValue(m), ks), ShowFields(RecordValue(m'), ks);
    forall i | 0 <= i < |ks|
      ensures a[i] == b[i]
    {
    }
    assert a == b;
  }

  /** The empty set sentinel prints as an empty list. */
  lemma EmptyForms()
    ensures Show(EmptySet) == Show(ListValue([])) == "[]"
    ensures Show(RecordValue(map[])) == "{}"
  {
    assert SortedKeys({}) == [];
  }

  /** A one-field record prints as `{name:text}`. */
  lemma ShowSingleField(k: string, x: Value)
    ensures Show(RecordValue(map[k := x])) == "{" + k + ":" + Show(x) + "}"
  {
    var ks := SortedKeys({k});
    assert ks == [k];
  }

  // ---------------------------------------------------------------------
  // The interpreter's own loops

  /** deepClone: a fresh copy of every list and record, element by element
      and field by field in the map's iteration order. */
  method DeepClone(v: Value) returns (r: Value)
    ensures r == v
    decreases v
  {
    match v
    case ListValue(xs) =>
      var n: seq<Value> := [];
      var i := 0;
      while i != |xs|
        invariant 0 <= i <= |xs|
        invariant n == xs[..i]
      {
        var x := DeepClone(xs[i]);
        n := n + [x];
        i := i + 1;
      }
      assert xs[..i] == xs;
      r := ListValue(n);
    case RecordValue(m) =>
      var n: map<string, Value> := map[];
      var keys := m.Keys;
      while keys != {}
        invariant keys <= m.Keys
        invariant n.Keys == m.Keys - keys
        invariant forall k | k in n :: n[k] == m[k]
        decreases keys
      {
        var k :| k in keys;
        var x := DeepClone(m[k]);
        n := n[k := x];
        keys := keys - {k};
      }
      assert n == m;
      r := RecordValue(n);
    case _ =>
      r := v;
  }

  /** toString(Object): the two collection kinds are built by loops. */
  method ToText(v: Value) returns (r: string)
    ensures r == Show(v)
    decreases v, 2
  {
    if v.ListValue? {
      r := ListText(v);
    } else if v.RecordValue? {
      r := RecordText(v);
    } else {
      r := ScalarText(v);
    }
  }

  /** A list: a separator before every element but the first. */
  method ListText(v: Value) returns (r: string)
    requires v.ListValue?
    ensures r == Show(v)
    decreases v, 0
  {
    var xs := v.elements;
    ghost var parts := ShowElements(xs);
    r := "[";
    var i := 0;
    while i != |xs|
      invariant 0 <= i <= |xs|
      invariant r == "[" + Join(", ", parts[..i])
    {
      if i != 0 {
        r := r + ", ";
      }
      var t := ToText(xs[i]);
      JoinPrefix(", ", parts, i);
      r := r + t;
      i := i + 1;
    }
    assert parts[..i] == parts;
    r := r + "]";
  }

  /** A record: the field names copied out of the key set and sorted, then
      its fields inside braces. */
  method RecordText(v: Value) returns (r: string)
    requires v.RecordValue?
    ensures r == Show(v)
    decreases v, 1
  {
    var fields := SortedFieldNames(v.fields.Keys);
    var text := FieldsText(v, fields);
    r := "{" + text + "}";
  }

  /** `name:value` for each field, with a separator before every field but
      the first. */
  method FieldsText(v: Value, fields: seq<string>) returns (r: string)
    requires v.RecordValue? && forall i | 0 <= i < |fields| :: fields[i] in v.fields
    ensures r == Join(",", ShowFields(v, fields))
    decreases v, 0
  {
    ghost var parts := ShowFields(v, fields);
    r := "";
    var i := 0;
    while i != |fields|
      invariant 0 <= i <= |fields|
      invariant r == Join(",", parts[..i])
    {
      var t := ToText(v.fields[fields[i]]);
      var part := fields[i] + ":" + t;
      assert part == parts[i];
      JoinPrefix(",", parts, i);
      if i != 0 {
        r := r + ",";
      }
      r := r + part;
      i := i + 1;
    }
    assert parts[..i] == parts;
  }

  /** One more part: a separator unless it is the first. */
  lemma JoinPrefix(sep: string, parts: seq<string>, i: nat)
    requires i < |parts|
    ensures Join(sep, parts[..i + 1]) == Join(sep, parts[..i]) + (if i == 0 then "" else sep) + parts[i]
  {
    assert parts[..i + 1][..i] == parts[..i];
  }

  /** new ArrayList(m.keySet()), then Collections.sort. */
  method SortedFieldNames(s: set<string>) returns (fields: seq<string>)
    ensures fields == SortedKeys(s)
  {
    var keys := KeyList(s);
    fields := Strings.SortBy(keys, (k: string) => k);
    SortedNames(keys, fields, s);
  }

  /** new ArrayList(m.keySet()): the keys in the set's iteration order. */
  method KeyList(s: set<string>) returns (r: seq<string>)
    ensures |r| == |s|
    ensures forall x :: x in r <==> x in s
    ensures forall i, j | 0 <= i < j < |r| :: r[i] != r[j]
  {
    r := [];
    var rest := s;
    while rest != {}
      invariant rest <= s
      invariant |r| + |rest| == |s|
      invariant forall x :: x in r <==> x in s - rest
      invariant forall i, j | 0 <= i < j < |r| :: r[i] != r[j]
      decreases rest
    {
      var x :| x in rest;
      assert forall i | 0 <= i < |r| :: r[i] in r && r[i] != x;
      r := r + [x];
      rest := rest - {x};
    }
  }

  /** Sorting the distinct keys of a set gives SortedKeys. */
  lemma SortedNames(keys: seq<string>, fields: seq<string>, s: set<string>)
    requires forall x :: x in keys <==> x in s
    requires forall i, j | 0 <= i < j < |keys| :: keys[i] != keys[j]
    requires fields == Strings.SortBy(keys, (k: string) => k)
    ensures fields == SortedKeys(s)
  {
    Strings.SortBySorted(keys, (k: string) => k);
    DistinctPermutation(keys, fields);
    SortedStrict(fields);
    SameMembers(keys, fields);
    SortedUnique(fields, SortedKeys(s));
  }

  lemma SortedStrict(r: seq<string>)
    requires Strings.SortedBy(r, (k: string) => k)
    requires forall i, j | 0 <= i < j < |r| :: r[i] != r[j]
    ensures StrictlySorted(r)
  {
    forall i, j | 0 <= i < j < |r|
      ensures Strings.Less(r[i], r[j])
    {
      assert Strings.LessEq(r[i], r[j]);
    }
  }

  lemma SameMembers(a: seq<string>, b: seq<string>)
    requires multiset(a) == multiset(b)
    ensures forall x :: x in a <==> x in b
  {
    forall x
      ensures x in a <==> x in b
    {
      assert x in a <==> x in multiset(a);
      assert x in b <==> x in multiset(b);
    }
  }

  /** A sequence with the same elements, counted with multiplicity, as one
      without repetitions has none either. */
  lemma DistinctPermutation(a: seq<string>, b: seq<string>)
    requires forall i, j | 0 <= i < j < |a| :: a[i] != a[j]
    requires multiset(a) == multiset(b)
    ensures forall i, j | 0 <= i < j < |b| :: b[i] != b[j]
  {
    forall i, j | 0 <= i < j < |b|
      ensures b[i] != b[j]
    {
      if b[i] == b[j] {
        var x := b[i];
        assert b == b[..j] + b[j..];
        assert x in b[..j] && x in b[j..];
        assert multiset(b)[x] == multiset(b[..j])[x] + multiset(b[j..])[x];
        CountAtMostOne(a, x);
        assert false;
      }
    }
  }

  lemma {:induction false} CountAtMostOne(a: seq<string>, x: string)
    requires forall i, j | 0 <= i < j < |a| :: a[i] != a[j]
    ensures multiset(a)[x] <= 1
  {
    if a != [] {
      var t := a[1..];
      assert a == [a[0]] + t;
      CountAtMostOne(t, x);
      if a[0] == x {
        assert x !in t by {
          forall k | 0 <= k < |t|
            ensures t[k] != x
          {
            assert t[k] == a[k + 1];
          }
        }
      }
    }
  }
}
