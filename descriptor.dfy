/** Run-time type descriptors: addTypeConstant writes a While type into the
    data section as a tag word followed by its payload, so that the runtime
    library can decode it (X86FileWriter.java:1163-1216). The descriptor is
    specified in two steps: the canonical form of the type (named types
    resolved, record fields in name order, or the failure met on the way),
    then the encoding of that form. */
module TypeConstants {
  import opened Wrappers
  import opened Errors
  import opened Syntax
  import opened Layout
  import opened X86

  const VOID_TAG := 0
  const BOOL_TAG := 1
  const CHAR_TAG := 2
  const INT_TAG := 3
  const REAL_TAG := 4
  const STRING_TAG := 5
  const RECORD_TAG := 6
  const LIST_TAG := 7

  /** The type addTypeConstant describes: one named type resolved at each
      level, record fields in name order. A name that is not declared is a
      null dereference, a name met again on the way a cycle that would
      exhaust the stack, and the null type, unions and a name standing for a
      name are rejected. */
  function CanonicalType(types: TypeTable, onPath: set<string>, t: Type): Result<Type, Error>
    decreases types.Keys - onPath, t, 2
  {
    if t.Named? then
      if t.name !in types then Err(NullPointer("no declaration for a named type"))
      else if t.name in onPath then Err(StackOverflow("cyclic named type"))
      else CanonicalResolved(types, onPath + {t.name}, types[t.name])
    else CanonicalResolved(types, onPath, t)
  }

  function CanonicalResolved(types: TypeTable, onPath: set<string>, u: Type): Result<Type, Error>
    decreases types.Keys - onPath, u, 1
  {
    match u
    case Void | Bool | Char | Int | Real | Strung => Ok(u)
    case Record(fs) =>
      var sorted := SortedFields(fs);
      SortedFieldsWithin(fs);
      var cs :- CanonicalFields(types, onPath, u, sorted);
      Ok(Record(cs))
    case List(e) =>
      var c :- CanonicalType(types, onPath, e);
      Ok(List(c))
    case _ => Err(IllegalArgument("Unknown type encountered"))
  }

  function CanonicalFields(types: TypeTable, onPath: set<string>, parent: Type, fs: seq<Field>): (r: Result<seq<Field>, Error>)
    requires parent.Record? && forall f | f in fs :: f in parent.fields
    ensures r.Ok? ==> |r.value| == |fs| && forall i | 0 <= i < |fs| :: r.value[i].name == fs[i].name
    decreases types.Keys - onPath, parent, 0, |fs|
  {
    if fs == [] then Ok([])
    else
      assert fs[0] in parent.fields;
      var c :- CanonicalType(types, onPath, fs[0].ty);
      var rest :- CanonicalFields(types, onPath, parent, fs[1..]);
      Ok([Field(fs[0].name, c)] + rest)
  }

  /** The types a descriptor can stand for. */
  predicate Describable(c: Type) {
    match c
    case Void | Bool | Char | Int | Real | Strung => true
    case Record(fs) => forall i | 0 <= i < |fs| :: Describable(fs[i].ty)
    case List(e) => Describable(e)
    case _ => false
  }

  lemma {:induction false} CanonicalIsDescribable(types: TypeTable, onPath: set<string>, t: Type)
    ensures CanonicalType(types, onPath, t).Ok? ==> Describable(CanonicalType(types, onPath, t).value)
    decreases types.Keys - onPath, t, 2
  {
    if t.Named? {
      if t.name in types && t.name !in onPath {
        ResolvedIsDescribable(types, onPath + {t.name}, types[t.name]);
      }
    } else {
      ResolvedIsDescribable(types, onPath, t);
    }
  }

  lemma {:induction false} ResolvedIsDescribable(types: TypeTable, onPath: set<string>, u: Type)
    ensures CanonicalResolved(types, onPath, u).Ok? ==> Describable(CanonicalResolved(types, onPath, u).value)
    decreases types.Keys - onPath, u, 1
  {
    match u
    case Record(fs) =>
      SortedFieldsWithin(fs);
      FieldsAreDescribable(types, onPath, u, SortedFields(fs));
    case List(e) => CanonicalIsDescribable(types, onPath, e);
    case _ =>
  }

  /** Sorting takes no field from outside the record. */
  lemma SortedFieldsWithin(fs: seq<Field>)
    ensures forall f | f in SortedFields(fs) :: f in fs
  {
    forall f | f in SortedFields(fs) ensures f in fs {
      assert f in multiset(SortedFields(fs));
    }
  }

  lemma {:induction false} FieldsAreDescribable(types: TypeTable, onPath: set<string>, parent: Type, fs: seq<Field>)
    requires parent.Record? && forall f | f in fs :: f in parent.fields
    ensures CanonicalFields(types, onPath, parent, fs).Ok? ==>
            forall i | 0 <= i < |fs| :: Describable(CanonicalFields(types, onPath, parent, fs).value[i].ty)
    decreases types.Keys - onPath, parent, 0, |fs|
  {
    if fs != [] {
      assert fs[0] in parent.fields;
      CanonicalIsDescribable(types, onPath, fs[0].ty);
      FieldsAreDescribable(types, onPath, parent, fs[1..]);
      var r := CanonicalFields(types, onPath, parent, fs);
      if r.Ok? {
        forall i | 0 <= i < |fs| ensures Describable(r.value[i].ty) {
          if i > 0 {
            assert r.value[i] == CanonicalFields(types, onPath, parent, fs[1..]).value[i - 1];
          }
        }
      }
    }
  }

  /** The items that describe a canonical type; only the first carries `name`. */
  function Encode(target: Target, c: Type, name: Option<Label>): seq<DataItem>
    decreases c, 1
  {
    match c
    case Void => [Word(target, VOID_TAG, name)]
    case Bool => [Word(target, BOOL_TAG, name)]
    case Char => [Word(target, CHAR_TAG, name)]
    case Int => [Word(target, INT_TAG, name)]
    case Real => [Word(target, REAL_TAG, name)]
    case Strung => [Word(target, STRING_TAG, name)]
    case Record(fs) => [Word(target, RECORD_TAG, name), Word(target, |fs|, None)] + EncodeFields(target, c, fs)
    case List(e) => [Word(target, LIST_TAG, name)] + Encode(target, e, None)
    case _ => []
  }

  /** Each field as the length of its name, its name and its type. */
  function EncodeFields(target: Target, parent: Type, fs: seq<Field>): seq<DataItem>
    requires parent.Record? && forall f | f in fs :: f in parent.fields
    decreases parent, 0, |fs|
  {
    if fs == [] then []
    else
      assert fs[0] in parent.fields;
      [Word(target, |fs[0].name|, None), StringData(None, fs[0].name)] + Encode(target, fs[0].ty, None) + EncodeFields(target, parent, fs[1..])
  }

  /** addTypeConstant: the data items describing `t`, labelled `name`. */
  function TypeDescriptor(target: Target, types: TypeTable, t: Type, name: Option<Label>): Result<seq<DataItem>, Error> {
    var c :- CanonicalType(types, {}, t);
    Ok(Encode(target, c, name))
  }

  /** The primitive type a tag stands for. */
  function PrimitiveOfTag(tag: int): Option<Type> {
    if tag == VOID_TAG then Some(Void)
    else if tag == BOOL_TAG then Some(Bool)
    else if tag == CHAR_TAG then Some(Char)
    else if tag == INT_TAG then Some(Int)
    else if tag == REAL_TAG then Some(Real)
    else if tag == STRING_TAG then Some(Strung)
    else None
  }

  /** Reads one type descriptor from the front of `items`, returning the
      type and the items after it; the reading the runtime library does. */
  function DecodeType(target: Target, items: seq<DataItem>): (r: Option<(Type, seq<DataItem>)>)
    ensures r.Some? ==> |r.value.1| < |items|
    decreases |items|, 2
  {
    if items == [] then None
    else match WordValue(target, items[0])
      case None => None
      case Some(tag) =>
        if PrimitiveOfTag(tag).Some? then Some((PrimitiveOfTag(tag).value, items[1..]))
        else if tag == RECORD_TAG then DecodeRecord(target, items)
        else if tag == LIST_TAG then DecodeList(target, items)
        else None
  }

  function DecodeRecord(target: Target, items: seq<DataItem>): (r: Option<(Type, seq<DataItem>)>)
    requires items != []
    ensures r.Some? ==> |r.value.1| < |items|
    decreases |items|, 1
  {
    if |items| < 2 then None
    else match WordValue(target, items[1])
      case None => None
      case Some(n) =>
        if n < 0 then None
        else match DecodeFields(target, n, items[2..])
          case None => None
          case Some((fs, rest)) => Some((Record(fs), rest))
  }

  function DecodeList(target: Target, items: seq<DataItem>): (r: Option<(Type, seq<DataItem>)>)
    requires items != []
    ensures r.Some? ==> |r.value.1| < |items|
    decreases |items|, 1
  {
    match DecodeType(target, items[1..])
    case None => None
    case Some((e, rest)) => Some((List(e), rest))
  }

  function DecodeFields(target: Target, n: nat, items: seq<DataItem>): (r: Option<(seq<Field>, seq<DataItem>)>)
    ensures r.Some? ==> |r.value.1| <= |items|
    decreases |items|, 0, n
  {
    if n == 0 then Some(([], items))
    else if |items| < 2 || !items[1].StringData? then None
    else
      var s := items[1].text;
      if WordValue(target, items[0]) != Some(|s|) then None
      else match DecodeType(target, items[2..])
        case None => None
        case Some((ft, rest)) =>
          match DecodeFields(target, n - 1, rest)
          case None => None
          case Some((more, rest')) => Some(([Field(s, ft)] + more, rest'))
  }

  /** Reading an encoding back from the front of any data yields the type
      it encodes and leaves the rest. */
  lemma {:induction false} EncodeRoundTrip(target: Target, c: Type, name: Option<Label>, rest: seq<DataItem>)
    requires Describable(c)
    ensures DecodeType(target, Encode(target, c, name) + rest) == Some((c, rest))
    decreases c, 1
  {
    match c
    case Record(fs) => RecordRoundTrip(target, c, name, rest);
    case List(e) => ListRoundTrip(target, c, name, rest);
    case Void | Bool | Char | Int | Real | Strung =>
      var items := Encode(target, c, name) + rest;
      assert items[0] == Encode(target, c, name)[0] && items[1..] == rest;
      assert WordValue(target, items[0]).Some?;
    case _ =>
  }

  lemma {:induction false} RecordRoundTrip(target: Target, c: Type, name: Option<Label>, rest: seq<DataItem>)
    requires c.Record? && Describable(c)
    ensures DecodeType(target, Encode(target, c, name) + rest) == Some((c, rest))
    decreases c, 0, |c.fields| + 1
  {
    var fs := c.fields;
    var tail := EncodeFields(target, c, fs) + rest;
    assert Encode(target, c, name) + rest == [Word(target, RECORD_TAG, name), Word(target, |fs|, None)] + tail;
    FieldsRoundTrip(target, c, fs, rest);
    DecodeRecordHead(target, name, |fs|, tail);
  }

  lemma {:induction false} ListRoundTrip(target: Target, c: Type, name: Option<Label>, rest: seq<DataItem>)
    requires c.List? && Describable(c)
    ensures DecodeType(target, Encode(target, c, name) + rest) == Some((c, rest))
    decreases c, 0
  {
    var e := c.element;
    EncodeRoundTrip(target, e, None, rest);
    assert Encode(target, c, name) + rest == [Word(target, LIST_TAG, name)] + (Encode(target, e, None) + rest);
    DecodeListHead(target, name, Encode(target, e, None) + rest);
  }

  /** A record tag and a field count in front of the fields. */
  lemma DecodeRecordHead(target: Target, name: Option<Label>, n: nat, tail: seq<DataItem>)
    ensures DecodeType(target, [Word(target, RECORD_TAG, name), Word(target, n, None)] + tail) ==
            match DecodeFields(target, n, tail)
            case None => None
            case Some((fs, rest)) => Some((Record(fs), rest))
  {
    var items := [Word(target, RECORD_TAG, name), Word(target, n, None)] + tail;
    assert items[0] == Word(target, RECORD_TAG, name) && items[1] == Word(target, n, None) && items[2..] == tail;
    assert WordValue(target, items[0]) == Some(RECORD_TAG);
    assert WordValue(target, items[1]) == Some(n);
    assert DecodeType(target, items) == DecodeRecord(target, items);
  }

  /** A list tag in front of the element type. */
  lemma DecodeListHead(target: Target, name: Option<Label>, tail: seq<DataItem>)
    ensures DecodeType(target, [Word(target, LIST_TAG, name)] + tail) ==
            match DecodeType(target, tail)
            case None => None
            case Some((e, rest)) => Some((List(e), rest))
  {
    var items := [Word(target, LIST_TAG, name)] + tail;
    assert items[0] == Word(target, LIST_TAG, name) && items[1..] == tail;
    assert WordValue(target, items[0]) == Some(LIST_TAG);
    assert DecodeType(target, items) == DecodeList(target, items);
  }

  lemma {:induction false} FieldsRoundTrip(target: Target, parent: Type, fs: seq<Field>, rest: seq<DataItem>)
    requires parent.Record? && forall f | f in fs :: f in parent.fields
    requires forall i | 0 <= i < |fs| :: Describable(fs[i].ty)
    ensures DecodeFields(target, |fs|, EncodeFields(target, parent, fs) + rest) == Some((fs, rest))
    decreases parent, 0, |fs|
  {
    if fs == [] {
      assert EncodeFields(target, parent, fs) + rest == rest;
    } else {
      var f := fs[0];
      assert fs[0] in fs;
      var more := EncodeFields(target, parent, fs[1..]) + rest;
      var tail := Encode(target, f.ty, None) + more;
      EncodeFieldsCons(target, parent, fs, rest);
      EncodeRoundTrip(target, f.ty, None, more);
      DescribableTail(fs);
      FieldsRoundTrip(target, parent, fs[1..], rest);
      DecodeFieldsCons(target, |fs|, f.name, tail);
      assert [f] + fs[1..] == fs;
    }
  }

  /** The encoding of the first field comes first. */
  lemma EncodeFieldsCons(target: Target, parent: Type, fs: seq<Field>, rest: seq<DataItem>)
    requires parent.Record? && forall f | f in fs :: f in parent.fields
    requires fs != []
    ensures EncodeFields(target, parent, fs) + rest ==
            [Word(target, |fs[0].name|, None), StringData(None, fs[0].name)] +
            (Encode(target, fs[0].ty, None) + (EncodeFields(target, parent, fs[1..]) + rest))
  {
  }

  lemma DescribableTail(fs: seq<Field>)
    requires fs != [] && forall i | 0 <= i < |fs| :: Describable(fs[i].ty)
    ensures forall i | 0 <= i < |fs[1..]| :: Describable(fs[1..][i].ty)
  {
    forall i | 0 <= i < |fs[1..]| ensures Describable(fs[1..][i].ty) { assert fs[1..][i] == fs[i + 1]; }
  }

  /** One pass of the field loop of the decoder: a name with its length in
      front, then a type. */
  lemma DecodeFieldsCons(target: Target, n: nat, name: string, tail: seq<DataItem>)
    requires n > 0
    ensures DecodeFields(target, n, [Word(target, |name|, None), StringData(None, name)] + tail) ==
            match DecodeType(target, tail)
            case None => None
            case Some((ft, rest)) =>
              match DecodeFields(target, n - 1, rest)
              case None => None
              case Some((more, rest')) => Some(([Field(name, ft)] + more, rest'))
  {
    var items := [Word(target, |name|, None), StringData(None, name)] + tail;
    assert items[0] == Word(target, |name|, None) && items[1] == StringData(None, name) && items[2..] == tail;
    assert WordValue(target, items[0]) == Some(|name|);
  }

  /** What a descriptor promises the runtime: it exists exactly when the
      canonical type does, and decoding it gives back that type. */
  lemma DescriptorRoundTrip(target: Target, types: TypeTable, t: Type, name: Option<Label>, rest: seq<DataItem>)
    ensures TypeDescriptor(target, types, t, name).Ok? <==> CanonicalType(types, {}, t).Ok?
    ensures TypeDescriptor(target, types, t, name).Ok? ==>
            DecodeType(target, TypeDescriptor(target, types, t, name).value + rest) == Some((CanonicalType(types, {}, t).value, rest))
  {
    CanonicalIsDescribable(types, {}, t);
    if CanonicalType(types, {}, t).Ok? {
      EncodeRoundTrip(target, CanonicalType(types, {}, t).value, name, rest);
    }
  }

  /** Only the first item of a descriptor carries the label it is given. */
  lemma {:induction false} EncodeLabelsFirstItem(target: Target, c: Type, name: Option<Label>)
    requires Describable(c)
    ensures Encode(target, c, name) != [] && Encode(target, c, name)[0].name == name
    ensures forall i | 1 <= i < |Encode(target, c, name)| :: Encode(target, c, name)[i].name.None?
    decreases c, 1
  {
    match c
    case Record(fs) =>
      FieldLabelsNone(target, c, fs);
      var d := Encode(target, c, name);
      var rest := EncodeFields(target, c, fs);
      assert d == [Word(target, RECORD_TAG, name), Word(target, |fs|, None)] + rest;
      forall i | 2 <= i < |d| ensures d[i].name.None? { assert d[i] == rest[i - 2]; }
    case List(e) =>
      EncodeLabelsFirstItem(target, e, None);
      var d := Encode(target, c, name);
      forall i | 1 <= i < |d| ensures d[i].name.None? { assert d[i] == Encode(target, e, None)[i - 1]; }
    case _ =>
  }

  lemma {:induction false} FieldLabelsNone(target: Target, parent: Type, fs: seq<Field>)
    requires parent.Record? && forall f | f in fs :: f in parent.fields
    requires forall i | 0 <= i < |fs| :: Describable(fs[i].ty)
    ensures forall i | 0 <= i < |EncodeFields(target, parent, fs)| :: EncodeFields(target, parent, fs)[i].name.None?
    decreases parent, 0, |fs|
  {
    if fs != [] {
      assert fs[0] in fs;
      EncodeLabelsFirstItem(target, fs[0].ty, None);
      assert forall i | 0 <= i < |fs[1..]| :: Describable(fs[1..][i].ty) by {
        forall i | 0 <= i < |fs[1..]| ensures Describable(fs[1..][i].ty) { assert fs[1..][i] == fs[i + 1]; }
      }
      FieldLabelsNone(target, parent, fs[1..]);
      var head := [Word(target, |fs[0].name|, None), StringData(None, fs[0].name)];
      var e := Encode(target, fs[0].ty, None);
      var more := EncodeFields(target, parent, fs[1..]);
      var d := head + e + more;
      assert EncodeFields(target, parent, fs) == d;
      forall i | 0 <= i < |d| ensures d[i].name.None? {
        if i < 2 {
        } else if i < 2 + |e| {
          assert d[i] == e[i - 2];
        } else {
          assert d[i] == more[i - 2 - |e|];
        }
      }
    }
  }
}
