/** The type relations of the While type checker: subtyping, equivalence,
    castability and the kind test, over types whose names resolve through
    the table of declared types.

    Every relation carries two sets of names, the named types already
    resolved on the way to the left and to the right type. Meeting a name
    again stops the model with a StackOverflow error. The checker instead
    resolves the name once more: on a table where that recursion never ends
    it overflows the stack, but a recursive type that leads through a union
    can still reach a verdict there (RecursiveTypeRefused). */
module TypeRelations {
  import opened Wrappers
  import opened Errors
  import opened Syntax
  import opened Layout

  const UNKNOWN_TYPE := SyntaxError("unknown type encountered")
  const CYCLIC_TYPE := StackOverflow("named type refers to itself")
  const TYPE_MISMATCH := SyntaxError("expected type")

  /** Where a union on each side is examined: the checker as written looks
      at a union on the supertype side first. */
  datatype UnionOrder = SupertypeUnionFirst | SubtypeUnionFirst

  /** Both types are the same one of the six primitive kinds. */
  predicate SamePrimitive(t1: Type, t2: Type) {
    (t1.Null? && t2.Null?) || (t1.Bool? && t2.Bool?) || (t1.Char? && t2.Char?)
    || (t1.Int? && t2.Int?) || (t1.Real? && t2.Real?) || (t1.Strung? && t2.Strung?)
  }

  /** A type whose kind is one of the six primitive kinds. */
  predicate IsBasic(t: Type) {
    t.Null? || t.Bool? || t.Char? || t.Int? || t.Real? || t.Strung?
  }

  function FieldKeys(fs: seq<Field>): (r: set<string>)
    ensures forall name :: name in r <==> exists i | 0 <= i < |fs| :: fs[i].name == name
  {
    set i | 0 <= i < |fs| :: fs[i].name
  }

  /** Whether `t2` is a subtype of `t1`: the cases in the checker's order. */
  function Sub(types: TypeTable, order: UnionOrder, p1: set<string>, p2: set<string>, t1: Type, t2: Type): Result<bool, Error>
    decreases types.Keys - p1, types.Keys - p2, t1, t2
  {
    if t2.Void? then Ok(true)
    else if SamePrimitive(t1, t2) then Ok(true)
    else if t1.List? && t2.List? then Sub(types, order, p1, p2, t1.element, t2.element)
    else if t1.Record? && t2.Record? then
      if FieldKeys(t1.fields) == FieldKeys(t2.fields) then FieldsSub(types, order, p1, p2, t1.fields, t2.fields)
      else Ok(false)
    else if t1.Named? then
      if t1.name !in types then Err(UNKNOWN_TYPE)
      else if t1.name in p1 then Err(CYCLIC_TYPE)
      else Sub(types, order, p1 + {t1.name}, p2, types[t1.name], t2)
    else if t2.Named? then
      if t2.name !in types then Err(UNKNOWN_TYPE)
      else if t2.name in p2 then Err(CYCLIC_TYPE)
      else Sub(types, order, p1, p2 + {t2.name}, t1, types[t2.name])
    else if order == SupertypeUnionFirst && t1.Union? then SomeBoundSub(types, order, p1, p2, t1.bounds, t2)
    else if t2.Union? then EveryBoundSub(types, order, p1, p2, t1, t2.bounds)
    else if t1.Union? then SomeBoundSub(types, order, p1, p2, t1.bounds, t2)
    else Ok(false)
  }

  /** Field-wise subtyping over the fields of the supertype, in their
      iteration order; the first field that fails decides. */
  function FieldsSub(types: TypeTable, order: UnionOrder, p1: set<string>, p2: set<string>, fs1: seq<Field>, fs2: seq<Field>): Result<bool, Error>
    decreases types.Keys - p1, types.Keys - p2, fs1
  {
    if fs1 == [] then Ok(true)
    else
      match LookupField(fs2, fs1[0].name)
      // not reached from Sub: the key sets are equal
      case None => Ok(false)
      case Some(u) =>
        var b :- Sub(types, order, p1, p2, fs1[0].ty, u);
        if !b then Ok(false) else FieldsSub(types, order, p1, p2, fs1[1..], fs2)
  }

  /** Some bound of a union supertype is a supertype of `t2`. */
  function SomeBoundSub(types: TypeTable, order: UnionOrder, p1: set<string>, p2: set<string>, bs: seq<Type>, t2: Type): Result<bool, Error>
    decreases types.Keys - p1, types.Keys - p2, bs
  {
    if bs == [] then Ok(false)
    else
      var b :- Sub(types, order, p1, p2, bs[0], t2);
      if b then Ok(true) else SomeBoundSub(types, order, p1, p2, bs[1..], t2)
  }

  /** Every bound of a union subtype is a subtype of `t1`. */
  function EveryBoundSub(types: TypeTable, order: UnionOrder, p1: set<string>, p2: set<string>, t1: Type, bs: seq<Type>): Result<bool, Error>
    decreases types.Keys - p1, types.Keys - p2, t1, bs
  {
    if bs == [] then Ok(true)
    else
      var b :- Sub(types, order, p1, p2, t1, bs[0]);
      if !b then Ok(false) else EveryBoundSub(types, order, p1, p2, t1, bs[1..])
  }

  /** isSubtype as written. */
  function SubtypeAsWritten(types: TypeTable, t1: Type, t2: Type): Result<bool, Error> {
    Sub(types, SupertypeUnionFirst, {}, {}, t1, t2)
  }

  /** isSubtype with a union subtype examined before a union supertype. */
  function Subtype(types: TypeTable, t1: Type, t2: Type): Result<bool, Error> {
    Sub(types, SubtypeUnionFirst, {}, {}, t1, t2)
  }

  function EquivalentIn(types: TypeTable, order: UnionOrder, t1: Type, t2: Type): Result<bool, Error> {
    var a :- Sub(types, order, {}, {}, t1, t2);
    if !a then Ok(false) else Sub(types, order, {}, {}, t2, t1)
  }

  function EquivalentAsWritten(types: TypeTable, t1: Type, t2: Type): Result<bool, Error> {
    EquivalentIn(types, SupertypeUnionFirst, t1, t2)
  }

  /** equivalent: subtyping both ways. */
  function Equivalent(types: TypeTable, t1: Type, t2: Type): Result<bool, Error> {
    EquivalentIn(types, SubtypeUnionFirst, t1, t2)
  }

  /** checkSubtype: an error unless `t2` is a subtype of `t1`. */
  function CheckSubtype(types: TypeTable, t1: Type, t2: Type): (r: Result<(), Error>)
    ensures r.Ok? <==> Subtype(types, t1, t2) == Ok(true)
  {
    var b :- Subtype(types, t1, t2);
    if b then Ok(()) else Err(TYPE_MISMATCH)
  }

  /** checkCast: whether a value of type `t2` may be cast to `t1`. */
  function Cast(types: TypeTable, p1: set<string>, p2: set<string>, t1: Type, t2: Type): Result<(), Error>
    decreases types.Keys - p1, types.Keys - p2, t1, t2
  {
    if SamePrimitive(t1, t2) || (t1.Real? && t2.Int?) then Ok(())
    else if t1.List? && t2.List? then Cast(types, p1, p2, t1.element, t2.element)
    else if t1.Record? && t2.Record? then
      if FieldKeys(t1.fields) == FieldKeys(t2.fields) then FieldsCast(types, p1, p2, t1.fields, t2.fields)
      else Err(TYPE_MISMATCH)
    else if t1.Named? then
      if t1.name !in types then Err(UNKNOWN_TYPE)
      else if t1.name in p1 then Err(CYCLIC_TYPE)
      else Cast(types, p1 + {t1.name}, p2, types[t1.name], t2)
    else if t2.Named? then
      if t2.name !in types then Err(UNKNOWN_TYPE)
      else if t2.name in p2 then Err(CYCLIC_TYPE)
      else Cast(types, p1, p2 + {t2.name}, t1, types[t2.name])
    else Err(TYPE_MISMATCH)
  }

  function FieldsCast(types: TypeTable, p1: set<string>, p2: set<string>, fs1: seq<Field>, fs2: seq<Field>): Result<(), Error>
    decreases types.Keys - p1, types.Keys - p2, fs1
  {
    if fs1 == [] then Ok(())
    else
      match LookupField(fs2, fs1[0].name)
      // not reached from Cast: the key sets are equal
      case None => Err(TYPE_MISMATCH)
      case Some(u) =>
        var _ :- Cast(types, p1, p2, fs1[0].ty, u);
        FieldsCast(types, p1, p2, fs1[1..], fs2)
  }

  function CheckCast(types: TypeTable, t1: Type, t2: Type): Result<(), Error> {
    Cast(types, {}, {}, t1, t2)
  }

  /** The classes checkInstanceOf tests against. */
  datatype Kind = BoolKind | CharKind | IntKind | RealKind | StrungKind | ListKind | RecordKind

  function KindOf(t: Type): Option<Kind> {
    match t
    case Bool => Some(BoolKind)
    case Char => Some(CharKind)
    case Int => Some(IntKind)
    case Real => Some(RealKind)
    case Strung => Some(StrungKind)
    case List(_) => Some(ListKind)
    case Record(_) => Some(RecordKind)
    case _ => None
  }

  /** checkInstanceOf: the type with its names resolved, if it is of one of
      the given kinds. */
  function InstanceOf(types: TypeTable, p: set<string>, t: Type, kinds: set<Kind>): (r: Result<Type, Error>)
    decreases types.Keys - p
    ensures r.Ok? ==> KindOf(r.value).Some? && KindOf(r.value).value in kinds
    ensures r.Ok? && !t.Named? ==> r.value == t
  {
    if t.Named? then
      if t.name !in types then Err(UNKNOWN_TYPE)
      else if t.name in p then Err(CYCLIC_TYPE)
      else InstanceOf(types, p + {t.name}, types[t.name], kinds)
    else if KindOf(t).Some? && KindOf(t).value in kinds then Ok(t)
    else Err(SyntaxError("expected instance"))
  }

  function CheckInstanceOf(types: TypeTable, t: Type, kinds: set<Kind>): Result<Type, Error> {
    InstanceOf(types, {}, t, kinds)
  }

  /* ---------- Subtyping: the cases one at a time ---------- */

  /** Void is a subtype of every type, and among the primitive kinds
      subtyping is equality. */
  lemma PrimitiveSubtyping(types: TypeTable, order: UnionOrder, p1: set<string>, p2: set<string>, t1: Type, t2: Type)
    requires t2.Void? || (IsBasic(t1) && IsBasic(t2))
    ensures Sub(types, order, p1, p2, t1, t2) == Ok(t2.Void? || t1 == t2)
  {
  }

  lemma ListCovariant(types: TypeTable, order: UnionOrder, p1: set<string>, p2: set<string>, a: Type, b: Type)
    ensures Sub(types, order, p1, p2, List(a), List(b)) == Sub(types, order, p1, p2, a, b)
  {
  }

  /** Records: identical key sets, and field-wise subtyping whenever no
      field check fails with an error. */
  lemma RecordSubtyping(types: TypeTable, order: UnionOrder, p1: set<string>, p2: set<string>, fs1: seq<Field>, fs2: seq<Field>)
    requires forall i | 0 <= i < |fs1| :: LookupField(fs2, fs1[i].name).Some? ==> Sub(types, order, p1, p2, fs1[i].ty, LookupField(fs2, fs1[i].name).value).Ok?
    ensures FieldKeys(fs1) != FieldKeys(fs2) ==> Sub(types, order, p1, p2, Record(fs1), Record(fs2)) == Ok(false)
    ensures FieldKeys(fs1) == FieldKeys(fs2) ==> forall i | 0 <= i < |fs1| :: LookupField(fs2, fs1[i].name).Some?
    ensures FieldKeys(fs1) == FieldKeys(fs2) ==>
      Sub(types, order, p1, p2, Record(fs1), Record(fs2)) ==
        Ok(forall i | 0 <= i < |fs1| :: Sub(types, order, p1, p2, fs1[i].ty, LookupField(fs2, fs1[i].name).value) == Ok(true))
  {
    if FieldKeys(fs1) == FieldKeys(fs2) {
      forall i | 0 <= i < |fs1|
        ensures LookupField(fs2, fs1[i].name).Some?
      {
        assert fs1[i].name in FieldKeys(fs2);
        LookupPresent(fs2, fs1[i].name);
      }
      FieldsSubAll(types, order, p1, p2, fs1, fs2);
    }
  }

  lemma {:induction false} LookupPresent(fs: seq<Field>, name: string)
    requires name in FieldKeys(fs)
    ensures LookupField(fs, name).Some?
  {
    if fs[0].name != name {
      var i :| 0 <= i < |fs| && fs[i].name == name;
      assert fs[1..][i - 1].name == name;
      LookupPresent(fs[1..], name);
    }
  }

  lemma {:induction false} FieldsSubAll(types: TypeTable, order: UnionOrder, p1: set<string>, p2: set<string>, fs1: seq<Field>, fs2: seq<Field>)
    requires forall i | 0 <= i < |fs1| :: LookupField(fs2, fs1[i].name).Some?
    requires forall i | 0 <= i < |fs1| :: Sub(types, order, p1, p2, fs1[i].ty, LookupField(fs2, fs1[i].name).value).Ok?
    ensures FieldsSub(types, order, p1, p2, fs1, fs2) ==
      Ok(forall i | 0 <= i < |fs1| :: Sub(types, order, p1, p2, fs1[i].ty, LookupField(fs2, fs1[i].name).value) == Ok(true))
  {
    if fs1 != [] {
      assert forall i | 0 <= i < |fs1[1..]| :: fs1[1..][i] == fs1[i + 1];
      FieldsSubAll(types, order, p1, p2, fs1[1..], fs2);
    }
  }

  /** A union on the supertype side: some bound must be a supertype. */
  lemma UnionSupertype(types: TypeTable, order: UnionOrder, p1: set<string>, p2: set<string>, bs: seq<Type>, t2: Type)
    requires !t2.Void? && !t2.Named? && (t2.Union? ==> order == SupertypeUnionFirst)
    requires forall i | 0 <= i < |bs| :: Sub(types, order, p1, p2, bs[i], t2).Ok?
    ensures Sub(types, order, p1, p2, Union(bs), t2) == Ok(exists i | 0 <= i < |bs| :: Sub(types, order, p1, p2, bs[i], t2) == Ok(true))
  {
    SomeBoundExists(types, order, p1, p2, bs, t2);
  }

  lemma {:induction false} SomeBoundExists(types: TypeTable, order: UnionOrder, p1: set<string>, p2: set<string>, bs: seq<Type>, t2: Type)
    requires forall i | 0 <= i < |bs| :: Sub(types, order, p1, p2, bs[i], t2).Ok?
    ensures SomeBoundSub(types, order, p1, p2, bs, t2) == Ok(exists i | 0 <= i < |bs| :: Sub(types, order, p1, p2, bs[i], t2) == Ok(true))
  {
    if bs != [] {
      assert forall i | 0 <= i < |bs[1..]| :: bs[1..][i] == bs[i + 1];
      SomeBoundExists(types, order, p1, p2, bs[1..], t2);
      if Sub(types, order, p1, p2, bs[0], t2) != Ok(true) {
        assert forall i | 0 <= i < |bs| && Sub(types, order, p1, p2, bs[i], t2) == Ok(true) :: i > 0 && bs[1..][i - 1] == bs[i];
      }
    }
  }

  /** A union on the subtype side: every bound must be a subtype. */
  lemma UnionSubtype(types: TypeTable, order: UnionOrder, p1: set<string>, p2: set<string>, t1: Type, bs: seq<Type>)
    requires !t1.Named? && (t1.Union? ==> order == SubtypeUnionFirst)
    requires forall i | 0 <= i < |bs| :: Sub(types, order, p1, p2, t1, bs[i]).Ok?
    ensures Sub(types, order, p1, p2, t1, Union(bs)) == Ok(forall i | 0 <= i < |bs| :: Sub(types, order, p1, p2, t1, bs[i]) == Ok(true))
  {
    EveryBoundAll(types, order, p1, p2, t1, bs);
  }

  lemma {:induction false} EveryBoundAll(types: TypeTable, order: UnionOrder, p1: set<string>, p2: set<string>, t1: Type, bs: seq<Type>)
    requires forall i | 0 <= i < |bs| :: Sub(types, order, p1, p2, t1, bs[i]).Ok?
    ensures EveryBoundSub(types, order, p1, p2, t1, bs) == Ok(forall i | 0 <= i < |bs| :: Sub(types, order, p1, p2, t1, bs[i]) == Ok(true))
  {
    if bs != [] {
      assert forall i | 0 <= i < |bs[1..]| :: bs[1..][i] == bs[i + 1];
      EveryBoundAll(types, order, p1, p2, t1, bs[1..]);
    }
  }

  /** Equivalence is symmetric wherever both directions reach a verdict. */
  lemma EquivalentSymmetric(types: TypeTable, order: UnionOrder, t1: Type, t2: Type)
    requires EquivalentIn(types, order, t1, t2).Ok? && EquivalentIn(types, order, t2, t1).Ok?
    ensures EquivalentIn(types, order, t1, t2) == EquivalentIn(types, order, t2, t1)
    ensures EquivalentIn(types, order, t1, t2) == Ok(Sub(types, order, {}, {}, t1, t2) == Ok(true) && Sub(types, order, {}, {}, t2, t1) == Ok(true))
  {
  }

  /* ---------- Reflexivity ---------- */

  /** Types built without names whose records have distinct field names. */
  predicate Plain(t: Type) {
    match t
    case Named(_) => false
    case List(e) => Plain(e)
    case Record(fs) => DistinctNames(fs) && forall i | 0 <= i < |fs| :: Plain(fs[i].ty)
    case Union(bs) => forall i | 0 <= i < |bs| :: Plain(bs[i])
    case _ => true
  }

  /** Without names, subtyping never fails with an error. */
  lemma {:induction false} PlainDecided(types: TypeTable, order: UnionOrder, p1: set<string>, p2: set<string>, t1: Type, t2: Type)
    requires Plain(t1) && Plain(t2)
    ensures Sub(types, order, p1, p2, t1, t2).Ok?
    decreases t1, t2, 1
  {
    if t2.Void? || SamePrimitive(t1, t2) {
    } else if t1.List? && t2.List? {
      PlainDecided(types, order, p1, p2, t1.element, t2.element);
    } else if t1.Record? && t2.Record? {
      if FieldKeys(t1.fields) == FieldKeys(t2.fields) {
        FieldsDecided(types, order, p1, p2, t1.fields, t2.fields);
      }
    } else if order == SupertypeUnionFirst && t1.Union? {
      SomeBoundDecided(types, order, p1, p2, t1.bounds, t2);
    } else if t2.Union? {
      EveryBoundDecided(types, order, p1, p2, t1, t2.bounds);
    } else if t1.Union? {
      SomeBoundDecided(types, order, p1, p2, t1.bounds, t2);
    }
  }

  lemma {:induction false} FieldsDecided(types: TypeTable, order: UnionOrder, p1: set<string>, p2: set<string>, fs1: seq<Field>, fs2: seq<Field>)
    requires forall i | 0 <= i < |fs1| :: Plain(fs1[i].ty)
    requires forall i | 0 <= i < |fs2| :: Plain(fs2[i].ty)
    ensures FieldsSub(types, order, p1, p2, fs1, fs2).Ok?
    decreases fs1, 0
  {
    if fs1 != [] {
      match LookupField(fs2, fs1[0].name)
      case None =>
      case Some(u) =>
        LookupPlain(fs2, fs1[0].name);
        PlainDecided(types, order, p1, p2, fs1[0].ty, u);
        assert forall i | 0 <= i < |fs1[1..]| :: fs1[1..][i] == fs1[i + 1];
        FieldsDecided(types, order, p1, p2, fs1[1..], fs2);
    }
  }

  lemma {:induction false} SomeBoundDecided(types: TypeTable, order: UnionOrder, p1: set<string>, p2: set<string>, bs: seq<Type>, t2: Type)
    requires (forall i | 0 <= i < |bs| :: Plain(bs[i])) && Plain(t2)
    ensures SomeBoundSub(types, order, p1, p2, bs, t2).Ok?
    decreases bs, t2, 0
  {
    if bs != [] {
      PlainDecided(types, order, p1, p2, bs[0], t2);
      assert forall i | 0 <= i < |bs[1..]| :: bs[1..][i] == bs[i + 1];
      SomeBoundDecided(types, order, p1, p2, bs[1..], t2);
    }
  }

  lemma {:induction false} EveryBoundDecided(types: TypeTable, order: UnionOrder, p1: set<string>, p2: set<string>, t1: Type, bs: seq<Type>)
    requires Plain(t1) && forall i | 0 <= i < |bs| :: Plain(bs[i])
    ensures EveryBoundSub(types, order, p1, p2, t1, bs).Ok?
    decreases t1, bs, 0
  {
    if bs != [] {
      PlainDecided(types, order, p1, p2, t1, bs[0]);
      assert forall i | 0 <= i < |bs[1..]| :: bs[1..][i] == bs[i + 1];
      EveryBoundDecided(types, order, p1, p2, t1, bs[1..]);
    }
  }

  lemma {:induction false} LookupPlain(fs: seq<Field>, name: string)
    requires forall i | 0 <= i < |fs| :: Plain(fs[i].ty)
    requires LookupField(fs, name).Some?
    ensures Plain(LookupField(fs, name).value)
  {
    if fs[0].name != name {
      assert forall i | 0 <= i < |fs[1..]| :: fs[1..][i] == fs[i + 1];
      LookupPlain(fs[1..], name);
    }
  }

  /** With distinct field names a lookup finds the field itself. */
  lemma {:induction false} LookupDistinct(fs: seq<Field>, i: nat)
    requires DistinctNames(fs) && i < |fs|
    ensures LookupField(fs, fs[i].name) == Some(fs[i].ty)
  {
    if i > 0 {
      assert fs[0].name != fs[i].name;
      assert fs[1..][i - 1] == fs[i];
      LookupDistinct(fs[1..], i - 1);
    }
  }

  /** With a union subtype examined first, subtyping is reflexive on
      plain types. */
  lemma {:induction false} SubtypeReflexive(types: TypeTable, p1: set<string>, p2: set<string>, t: Type)
    requires Plain(t)
    ensures Sub(types, SubtypeUnionFirst, p1, p2, t, t) == Ok(true)
  {
    match t
    case List(e) =>
      SubtypeReflexive(types, p1, p2, e);
    case Record(fs) =>
      forall i | 0 <= i < |fs|
        ensures LookupField(fs, fs[i].name) == Some(fs[i].ty)
        ensures Sub(types, SubtypeUnionFirst, p1, p2, fs[i].ty, fs[i].ty) == Ok(true)
      {
        LookupDistinct(fs, i);
        SubtypeReflexive(types, p1, p2, fs[i].ty);
      }
      FieldsSubAll(types, SubtypeUnionFirst, p1, p2, fs, fs);
    case Union(bs) =>
      forall i | 0 <= i < |bs|
        ensures Sub(types, SubtypeUnionFirst, p1, p2, t, bs[i]) == Ok(true)
      {
        SubtypeReflexive(types, p1, p2, bs[i]);
        BoundBelowUnion(types, p1, p2, bs, i, bs[i]);
      }
      EveryBoundAll(types, SubtypeUnionFirst, p1, p2, t, bs);
    case _ =>
  }

  /** A union is a supertype of whatever one of its bounds is a supertype of. */
  lemma {:induction false} BoundBelowUnion(types: TypeTable, p1: set<string>, p2: set<string>, bs: seq<Type>, k: nat, x: Type)
    requires k < |bs| && Plain(x) && forall i | 0 <= i < |bs| :: Plain(bs[i])
    requires Sub(types, SubtypeUnionFirst, p1, p2, bs[k], x) == Ok(true)
    ensures Sub(types, SubtypeUnionFirst, p1, p2, Union(bs), x) == Ok(true)
    decreases x
  {
    var u := Union(bs);
    if x.Void? {
    } else if x.Union? {
      var cs := x.bounds;
      forall j | 0 <= j < |cs|
        ensures Sub(types, SubtypeUnionFirst, p1, p2, bs[k], cs[j]).Ok?
      {
        PlainDecided(types, SubtypeUnionFirst, p1, p2, bs[k], cs[j]);
      }
      EveryBoundAll(types, SubtypeUnionFirst, p1, p2, bs[k], cs);
      forall j | 0 <= j < |cs|
        ensures Sub(types, SubtypeUnionFirst, p1, p2, u, cs[j]) == Ok(true)
      {
        BoundBelowUnion(types, p1, p2, bs, k, cs[j]);
      }
      EveryBoundAll(types, SubtypeUnionFirst, p1, p2, u, cs);
    } else {
      forall i | 0 <= i < |bs|
        ensures Sub(types, SubtypeUnionFirst, p1, p2, bs[i], x).Ok?
      {
        PlainDecided(types, SubtypeUnionFirst, p1, p2, bs[i], x);
      }
      SomeBoundExists(types, SubtypeUnionFirst, p1, p2, bs, x);
    }
  }

  /** The checker as written examines a union supertype first, so a union
      is not a subtype of itself, and `int|null` and `null|int` are not
      equivalent. */
  lemma UnionAsWritten()
    ensures SubtypeAsWritten(map[], Union([Int, Bool]), Union([Int, Bool])) == Ok(false)
    ensures EquivalentAsWritten(map[], Union([Int, Null]), Union([Null, Int])) == Ok(false)
  {
    var u := Union([Int, Bool]);
    assert Sub(map[], SupertypeUnionFirst, {}, {}, Int, u) == Ok(false) by {
      assert Sub(map[], SupertypeUnionFirst, {}, {}, Int, Int) == Ok(true);
      assert EveryBoundSub(map[], SupertypeUnionFirst, {}, {}, Int, [Bool]) == Ok(false);
    }
    assert Sub(map[], SupertypeUnionFirst, {}, {}, Bool, u) == Ok(false) by {
      assert EveryBoundSub(map[], SupertypeUnionFirst, {}, {}, Bool, [Int, Bool]) == Ok(false);
    }
    assert SomeBoundSub(map[], SupertypeUnionFirst, {}, {}, [Bool], u) == Ok(false);
    var v := Union([Int, Null]);
    var w := Union([Null, Int]);
    assert Sub(map[], SupertypeUnionFirst, {}, {}, Int, w) == Ok(false) by {
      assert EveryBoundSub(map[], SupertypeUnionFirst, {}, {}, Int, [Null, Int]) == Ok(false);
    }
    assert Sub(map[], SupertypeUnionFirst, {}, {}, Null, w) == Ok(false) by {
      assert Sub(map[], SupertypeUnionFirst, {}, {}, Null, Null) == Ok(true);
      assert EveryBoundSub(map[], SupertypeUnionFirst, {}, {}, Null, [Int]) == Ok(false);
    }
    assert SomeBoundSub(map[], SupertypeUnionFirst, {}, {}, [Null], w) == Ok(false);
  }

  /** A recursive list type `L is null|{int data, L next}` is compared with
      the record `{int data, null next}`: the field `next` meets `L` a
      second time, which the model refuses in either union order, where the
      checker resolves `L` again and accepts through its `null` bound. */
  lemma RecursiveTypeRefused()
    ensures var types := map["L" := Union([Null, Record([Field("data", Int), Field("next", Named("L"))])])];
            var value := Record([Field("data", Int), Field("next", Null)]);
            SubtypeAsWritten(types, Named("L"), value) == Err(CYCLIC_TYPE)
            && Subtype(types, Named("L"), value) == Err(CYCLIC_TYPE)
  {
    var node := Record([Field("data", Int), Field("next", Named("L"))]);
    var types := map["L" := Union([Null, node])];
    var value := Record([Field("data", Int), Field("next", Null)]);
    forall order: UnionOrder
      ensures Sub(types, order, {}, {}, Named("L"), value) == Err(CYCLIC_TYPE)
    {
      assert Sub(types, order, {"L"}, {}, Named("L"), Null) == Err(CYCLIC_TYPE);
      assert Sub(types, order, {"L"}, {}, Int, Int) == Ok(true);
      assert FieldsSub(types, order, {"L"}, {}, node.fields[1..], value.fields) == Err(CYCLIC_TYPE);
      assert FieldsSub(types, order, {"L"}, {}, node.fields, value.fields) == Err(CYCLIC_TYPE);
      assert FieldKeys(node.fields) == FieldKeys(value.fields) by {
        assert FieldKeys(node.fields) == {"data", "next"};
        assert FieldKeys(value.fields) == {"data", "next"};
      }
      assert Sub(types, order, {"L"}, {}, node, value) == Err(CYCLIC_TYPE);
      assert Sub(types, order, {"L"}, {}, Null, value) == Ok(false);
      assert SomeBoundSub(types, order, {"L"}, {}, [node], value) == Err(CYCLIC_TYPE);
      assert SomeBoundSub(types, order, {"L"}, {}, [Null, node], value) == Err(CYCLIC_TYPE);
      assert Sub(types, order, {"L"}, {}, types["L"], value) == Err(CYCLIC_TYPE);
      assert {} + {"L"} == {"L"};
    }
  }

  /** With the union subtype examined first, the two orders of a union are
      equivalent. */
  lemma UnionOrderIrrelevant()
    ensures Equivalent(map[], Union([Int, Null]), Union([Null, Int])) == Ok(true)
  {
    var v := Union([Int, Null]);
    var w := Union([Null, Int]);
    SubtypeReflexive(map[], {}, {}, Int);
    SubtypeReflexive(map[], {}, {}, Null);
    BoundBelowUnion(map[], {}, {}, v.bounds, 0, Int);
    BoundBelowUnion(map[], {}, {}, v.bounds, 1, Null);
    EveryBoundAll(map[], SubtypeUnionFirst, {}, {}, v, [Null, Int]);
    BoundBelowUnion(map[], {}, {}, w.bounds, 1, Int);
    BoundBelowUnion(map[], {}, {}, w.bounds, 0, Null);
    EveryBoundAll(map[], SubtypeUnionFirst, {}, {}, w, [Int, Null]);
  }

  /* ---------- Casts ---------- */

  /** Among the primitive kinds a cast needs equal kinds, or int to real. */
  lemma PrimitiveCast(types: TypeTable, p1: set<string>, p2: set<string>, t1: Type, t2: Type)
    requires IsBasic(t1) && IsBasic(t2)
    ensures Cast(types, p1, p2, t1, t2).Ok? <==> t1 == t2 || (t1 == Real && t2 == Int)
  {
  }

  lemma RecordCastKeys(types: TypeTable, p1: set<string>, p2: set<string>, fs1: seq<Field>, fs2: seq<Field>)
    requires FieldKeys(fs1) != FieldKeys(fs2)
    ensures Cast(types, p1, p2, Record(fs1), Record(fs2)).Err?
  {
  }

  /** Types built from the primitive kinds by lists and records only. */
  predicate Structural(t: Type) {
    match t
    case List(e) => Structural(e)
    case Record(fs) => forall i | 0 <= i < |fs| :: Structural(fs[i].ty)
    case _ => IsBasic(t)
  }

  /** On such types every subtyping is also a permitted cast. */
  lemma {:induction false} CastExtendsSubtype(types: TypeTable, order: UnionOrder, p1: set<string>, p2: set<string>, t1: Type, t2: Type)
    requires Structural(t1) && Structural(t2)
    requires Sub(types, order, p1, p2, t1, t2) == Ok(true)
    ensures Cast(types, p1, p2, t1, t2).Ok?
    decreases t1, 1
  {
    if SamePrimitive(t1, t2) {
    } else if t1.List? && t2.List? {
      CastExtendsSubtype(types, order, p1, p2, t1.element, t2.element);
    } else if t1.Record? && t2.Record? {
      FieldsCastExtends(types, order, p1, p2, t1.fields, t2.fields);
    }
  }

  lemma {:induction false} FieldsCastExtends(types: TypeTable, order: UnionOrder, p1: set<string>, p2: set<string>, fs1: seq<Field>, fs2: seq<Field>)
    requires forall i | 0 <= i < |fs1| :: Structural(fs1[i].ty)
    requires forall i | 0 <= i < |fs2| :: Structural(fs2[i].ty)
    requires FieldsSub(types, order, p1, p2, fs1, fs2) == Ok(true)
    ensures FieldsCast(types, p1, p2, fs1, fs2).Ok?
    decreases fs1, 0
  {
    if fs1 != [] {
      match LookupField(fs2, fs1[0].name)
      case None =>
      case Some(u) =>
        LookupStructural(fs2, fs1[0].name);
        CastExtendsSubtype(types, order, p1, p2, fs1[0].ty, u);
        assert forall i | 0 <= i < |fs1[1..]| :: fs1[1..][i] == fs1[i + 1];
        FieldsCastExtends(types, order, p1, p2, fs1[1..], fs2);
    }
  }

  lemma {:induction false} LookupStructural(fs: seq<Field>, name: string)
    requires forall i | 0 <= i < |fs| :: Structural(fs[i].ty)
    requires LookupField(fs, name).Some?
    ensures Structural(LookupField(fs, name).value)
  {
    if fs[0].name != name {
      assert forall i | 0 <= i < |fs[1..]| :: fs[1..][i] == fs[i + 1];
      LookupStructural(fs[1..], name);
    }
  }

  /** A cast from int to real is accepted, even though int is not a
      subtype of real. */
  lemma IntToReal(types: TypeTable)
    ensures CheckCast(types, Real, Int) == Ok(())
    ensures Subtype(types, Real, Int) == Ok(false)
  {
  }
}
