/** A printer from types back to tokens, and the proof that the parser reads
    every printable type back as itself: list, record and union types,
    primitive keywords and declared type names. */
module Printing {
  import opened Wrappers
  import opened Errors
  import opened Syntax
  import opened Grammar
  import JavaInt
  import Strings

  /** The tokens p stand in ts from position i on. */
  predicate Printed(ts: seq<Token>, i: nat, p: seq<Token>) {
    i + |p| <= |ts| && forall k | 0 <= k < |p| :: ts[i + k] == p[k]
  }

  lemma Split(ts: seq<Token>, i: nat, a: seq<Token>, b: seq<Token>)
    requires Printed(ts, i, a + b)
    ensures Printed(ts, i, a) && Printed(ts, i + |a|, b)
  {
    forall k | 0 <= k < |a|
      ensures ts[i + k] == a[k]
    {
      assert ts[i + k] == (a + b)[k];
    }
    forall k | 0 <= k < |b|
      ensures ts[i + |a| + k] == b[k]
    {
      assert ts[i + (|a| + k)] == (a + b)[|a| + k];
    }
  }

  lemma One(ts: seq<Token>, i: nat, x: Token)
    requires Printed(ts, i, [x])
    ensures ts[i] == x
  {
    assert ts[i + 0] == [x][0];
  }

  /** A sequence that starts with p has p printed at 0. */
  lemma Prefix(p: seq<Token>, rest: seq<Token>)
    ensures Printed(p + rest, 0, p)
  {
    forall k | 0 <= k < |p|
      ensures (p + rest)[0 + k] == p[k]
    {
    }
  }

  /** The first k + 1 elements are the first k and the k-th. */
  lemma SliceAppend<T>(s: seq<T>, k: nat)
    requires k < |s|
    ensures s[..k] + [s[k]] == s[..k + 1]
  {
  }

  // ---------------------------------------------------------------------
  // Types

  function KeywordText(t: Type): string {
    match t
    case Null => "null"
    case Int => "int"
    case Real => "real"
    case Void => "void"
    case Bool => "bool"
    case Char => "char"
    case _ => "string"
  }

  function PrintType(t: Type): seq<Token>
    decreases t
  {
    if t.List? then [Sym(LeftSquare)] + PrintType(t.element) + [Sym(RightSquare)]
    else if t.Record? then [Sym(LeftCurly)] + PrintRecordFields(t.fields) + [Sym(RightCurly)]
    else if t.Union? then PrintUnion(t.bounds)
    else if t.Named? then [Identifier(t.name)]
    else [Keyword(KeywordText(t))]
  }

  /** `T1 n1, T2 n2, ...` */
  function PrintRecordFields(fs: seq<Field>): seq<Token>
    decreases fs
  {
    if |fs| == 0 then [] else PrintField(fs[0]) + PrintFields(fs, 1)
  }

  /** `, Tk nk, ...` from the k-th field on. */
  function PrintFields(fs: seq<Field>, k: nat): seq<Token>
    decreases fs, |fs| - k
  {
    if k >= |fs| then [] else [Sym(Comma)] + PrintField(fs[k]) + PrintFields(fs, k + 1)
  }

  function PrintField(f: Field): seq<Token>
    decreases f
  {
    PrintType(f.ty) + [Identifier(f.name)]
  }

  /** `T1 | T2 | ...` */
  function PrintUnion(bs: seq<Type>): seq<Token>
    decreases bs
  {
    if |bs| == 0 then [] else PrintType(bs[0]) + PrintBounds(bs, 1)
  }

  /** `| Tk | ...` from the k-th bound on. */
  function PrintBounds(bs: seq<Type>, k: nat): seq<Token>
    decreases bs, |bs| - k
  {
    if k >= |bs| then [] else [Sym(Bar)] + PrintType(bs[k]) + PrintBounds(bs, k + 1)
  }

  /** The types the parser can produce: a named type is not a type keyword,
      record fields have distinct names, and a union has at least two
      bounds, none of them a union itself. */
  predicate PrintableType(t: Type)
    decreases t
  {
    if t.List? then PrintableType(t.element)
    else if t.Record? then
      DistinctNames(t.fields) && forall k | 0 <= k < |t.fields| :: PrintableType(t.fields[k].ty)
    else if t.Union? then
      |t.bounds| >= 2 && forall k | 0 <= k < |t.bounds| :: !t.bounds[k].Union? && PrintableType(t.bounds[k])
    else if t.Named? then KeywordType(t.name).None?
    else true
  }

  /** Whether isType says yes to the printed type: every type keyword but
      `void`, a declared name, and a list or record whose first inner type
      does. */
  predicate TypeStarts(t: Type, u: set<string>)
    decreases t
  {
    if t.Void? then false
    else if t.List? then TypeStarts(t.element, u)
    else if t.Record? then |t.fields| > 0 && TypeStarts(t.fields[0].ty, u)
    else if t.Union? then |t.bounds| > 0 && TypeStarts(t.bounds[0], u)
    else if t.Named? then t.name in u
    else true
  }

  lemma {:induction false} TypeFirstToken(t: Type)
    requires PrintableType(t)
    ensures |PrintType(t)| > 0
    ensures PrintType(t)[0] !in {Sym(RightCurly), Sym(Bar)}
    decreases t
  {
    if t.Union? {
      TypeFirstToken(t.bounds[0]);
    }
  }

  /** The pieces of `[ T ]`. */
  lemma SplitList(ts: seq<Token>, i: nat, e: Type)
    requires Printed(ts, i, PrintType(List(e)))
    ensures ts[i] == Sym(LeftSquare) && Printed(ts, i + 1, PrintType(e))
    ensures At(ts, i + 1 + |PrintType(e)|, RightSquare)
    ensures |PrintType(List(e))| == |PrintType(e)| + 2
  {
    assert PrintType(List(e)) == [Sym(LeftSquare)] + PrintType(e) + [Sym(RightSquare)];
    Split(ts, i, [Sym(LeftSquare)] + PrintType(e), [Sym(RightSquare)]);
    Split(ts, i, [Sym(LeftSquare)], PrintType(e));
    One(ts, i, Sym(LeftSquare));
    One(ts, i + 1 + |PrintType(e)|, Sym(RightSquare));
  }

  /** The pieces of `{ ... }`. */
  lemma SplitRecord(ts: seq<Token>, i: nat, fs: seq<Field>)
    requires Printed(ts, i, PrintType(Record(fs)))
    ensures ts[i] == Sym(LeftCurly) && Printed(ts, i + 1, PrintRecordFields(fs))
    ensures At(ts, i + 1 + |PrintRecordFields(fs)|, RightCurly)
    ensures |PrintType(Record(fs))| == |PrintRecordFields(fs)| + 2
  {
    assert PrintType(Record(fs)) == [Sym(LeftCurly)] + PrintRecordFields(fs) + [Sym(RightCurly)];
    Split(ts, i, [Sym(LeftCurly)] + PrintRecordFields(fs), [Sym(RightCurly)]);
    Split(ts, i, [Sym(LeftCurly)], PrintRecordFields(fs));
    One(ts, i, Sym(LeftCurly));
    One(ts, i + 1 + |PrintRecordFields(fs)|, Sym(RightCurly));
  }

  /** The pieces of `T1 n1, ...` */
  lemma SplitFirstField(ts: seq<Token>, i: nat, fs: seq<Field>)
    requires |fs| > 0 && Printed(ts, i, PrintRecordFields(fs))
    ensures Printed(ts, i, PrintType(fs[0].ty))
    ensures var n := i + |PrintType(fs[0].ty)|;
      n < |ts| && ts[n] == Identifier(fs[0].name) && Printed(ts, n + 1, PrintFields(fs, 1))
    ensures |PrintRecordFields(fs)| == |PrintType(fs[0].ty)| + 1 + |PrintFields(fs, 1)|
  {
    Split(ts, i, PrintField(fs[0]), PrintFields(fs, 1));
    Split(ts, i, PrintType(fs[0].ty), [Identifier(fs[0].name)]);
    One(ts, i + |PrintType(fs[0].ty)|, Identifier(fs[0].name));
  }

  /** The pieces of `, Tk nk, ...` */
  lemma SplitNextField(ts: seq<Token>, i: nat, fs: seq<Field>, k: nat)
    requires k < |fs| && Printed(ts, i, PrintFields(fs, k))
    ensures At(ts, i, Comma) && Printed(ts, i + 1, PrintType(fs[k].ty))
    ensures var n := i + 1 + |PrintType(fs[k].ty)|;
      n < |ts| && ts[n] == Identifier(fs[k].name) && Printed(ts, n + 1, PrintFields(fs, k + 1))
    ensures |PrintFields(fs, k)| == 1 + |PrintType(fs[k].ty)| + 1 + |PrintFields(fs, k + 1)|
  {
    Split(ts, i, [Sym(Comma)] + PrintField(fs[k]), PrintFields(fs, k + 1));
    Split(ts, i, [Sym(Comma)], PrintField(fs[k]));
    One(ts, i, Sym(Comma));
    Split(ts, i + 1, PrintType(fs[k].ty), [Identifier(fs[k].name)]);
    One(ts, i + 1 + |PrintType(fs[k].ty)|, Identifier(fs[k].name));
  }

  /** The pieces of `T1 | T2 ...` */
  lemma SplitUnion(ts: seq<Token>, i: nat, bs: seq<Type>)
    requires |bs| > 0 && Printed(ts, i, PrintUnion(bs))
    ensures Printed(ts, i, PrintType(bs[0])) && Printed(ts, i + |PrintType(bs[0])|, PrintBounds(bs, 1))
    ensures |PrintUnion(bs)| == |PrintType(bs[0])| + |PrintBounds(bs, 1)|
  {
    Split(ts, i, PrintType(bs[0]), PrintBounds(bs, 1));
  }

  /** The pieces of `| Tk ...` */
  lemma SplitBound(ts: seq<Token>, i: nat, bs: seq<Type>, k: nat)
    requires k < |bs| && Printed(ts, i, PrintBounds(bs, k))
    ensures At(ts, i, Bar) && Printed(ts, i + 1, PrintType(bs[k]))
    ensures Printed(ts, i + 1 + |PrintType(bs[k])|, PrintBounds(bs, k + 1))
    ensures |PrintBounds(bs, k)| == 1 + |PrintType(bs[k])| + |PrintBounds(bs, k + 1)|
  {
    Split(ts, i, [Sym(Bar)] + PrintType(bs[k]), PrintBounds(bs, k + 1));
    Split(ts, i, [Sym(Bar)], PrintType(bs[k]));
    One(ts, i, Sym(Bar));
  }

  /** isType at a printed type answers TypeStarts, in both directions. */
  lemma {:induction false} IsTypeAtType(t: Type, ts: seq<Token>, u: set<string>, i: nat)
    requires PrintableType(t) && Printed(ts, i, PrintType(t))
    ensures IsType(ts, u, i) <==> TypeStarts(t, u)
    decreases t
  {
    if t.List? {
      SplitList(ts, i, t.element);
      IsTypeAtType(t.element, ts, u, i + 1);
    } else if t.Record? {
      var fs := t.fields;
      SplitRecord(ts, i, fs);
      if |fs| > 0 {
        SplitFirstField(ts, i + 1, fs);
        IsTypeAtType(fs[0].ty, ts, u, i + 1);
      }
    } else if t.Union? {
      SplitUnion(ts, i, t.bounds);
      IsTypeAtType(t.bounds[0], ts, u, i);
    } else if t.Named? {
      One(ts, i, Identifier(t.name));
    } else {
      One(ts, i, Keyword(KeywordText(t)));
    }
  }

  // How the type routines step over tokens whose parse is known

  lemma ListTypeStep(ts: seq<Token>, i: nat, e: Type, k: nat)
    requires i < |ts| && ts[i] == Sym(LeftSquare)
    requires UnionType(ts, i + 1) == Ok(Parsed(e, k)) && At(ts, k, RightSquare)
    ensures BaseType(ts, i) == Ok(Parsed(List(e), k + 1))
  {
  }

  lemma RecordTypeStep(ts: seq<Token>, i: nat, fs: seq<Field>, k: nat)
    requires i < |ts| && ts[i] == Sym(LeftCurly)
    requires i + 1 <= |ts| && FieldTypes(ts, i + 1, [], true) == Ok(Parsed(fs, k)) && At(ts, k, RightCurly)
    ensures BaseType(ts, i) == Ok(Parsed(Record(fs), k + 1))
  {
  }

  lemma NoUnionStep(ts: seq<Token>, i: nat, t: Type, j: nat)
    requires i <= |ts| && BaseType(ts, i) == Ok(Parsed(t, j)) && !At(ts, j, Bar)
    ensures UnionType(ts, i) == Ok(Parsed(t, j))
  {
  }

  lemma UnionStep(ts: seq<Token>, i: nat, j: nat, bs: seq<Type>, k: nat)
    requires i <= |ts| && bs != [] && BaseType(ts, i) == Ok(Parsed(bs[0], j)) && At(ts, j, Bar)
    requires UnionBounds(ts, j, bs[..1]) == Ok(Parsed(bs, k))
    ensures UnionType(ts, i) == Ok(Parsed(Union(bs), k))
  {
    assert bs[..1] == [bs[0]];
  }

  lemma BoundStep(ts: seq<Token>, i: nat, bounds: seq<Type>, b: Type, j: nat)
    requires At(ts, i, Bar) && BaseType(ts, i + 1) == Ok(Parsed(b, j))
    ensures UnionBounds(ts, i, bounds) == UnionBounds(ts, j, bounds + [b])
  {
  }

  lemma BoundsEnd(ts: seq<Token>, i: nat, bs: seq<Type>)
    requires i <= |ts| && !At(ts, i, Bar)
    ensures UnionBounds(ts, i, bs) == Ok(Parsed(bs, i))
    ensures PrintBounds(bs, |bs|) == []
  {
  }

  lemma FieldsEnd(ts: seq<Token>, i: nat, fs: seq<Field>)
    requires At(ts, i, RightCurly)
    ensures FieldTypes(ts, i, fs, false) == Ok(Parsed(fs, i))
    ensures PrintFields(fs, |fs|) == []
  {
  }

  lemma FirstFieldStep(ts: seq<Token>, i: nat, ty: Type, j: nat)
    requires i <= |ts| && UnionType(ts, i) == Ok(Parsed(ty, j))
    requires j < |ts| && ts[j].Identifier?
    ensures FieldType(ts, i, [], true) == Ok(Parsed(Field(ts[j].text, ty), j + 1))
  {
  }

  lemma NextFieldStep(ts: seq<Token>, i: nat, fields: seq<Field>, ty: Type, j: nat)
    requires At(ts, i, Comma) && UnionType(ts, i + 1) == Ok(Parsed(ty, j))
    requires j < |ts| && ts[j].Identifier? && ts[j].text !in FieldNames(fields)
    ensures FieldType(ts, i, fields, false) == Ok(Parsed(Field(ts[j].text, ty), j + 1))
  {
    assert Sym(Comma).Text() == ",";
    assert Expect(ts, i, ",") == Ok(i + 1);
    assert ExpectIdentifier(ts, j) == Ok(Parsed(ts[j].text, j + 1));
  }

  lemma FieldStep(ts: seq<Token>, i: nat, fields: seq<Field>, first: bool, f: Field, j: nat)
    requires i < |ts| && ts[i] != Sym(RightCurly)
    requires FieldType(ts, i, fields, first) == Ok(Parsed(f, j))
    ensures FieldTypes(ts, i, fields, first) == FieldTypes(ts, j, fields + [f], false)
  {
  }

  /** parseBaseType reads a printed type other than a union back. */
  lemma {:induction false} BaseTypeRoundTrip(t: Type, ts: seq<Token>, i: nat)
    requires PrintableType(t) && !t.Union? && Printed(ts, i, PrintType(t))
    ensures BaseType(ts, i) == Ok(Parsed(t, i + |PrintType(t)|))
    decreases t, 1
  {
    if t.List? {
      ListTypeRoundTrip(t, ts, i);
    } else if t.Record? {
      RecordTypeRoundTrip(t, ts, i);
    } else if t.Named? {
      One(ts, i, Identifier(t.name));
    } else {
      One(ts, i, Keyword(KeywordText(t)));
    }
  }

  /** The list case of BaseTypeRoundTrip. */
  lemma {:induction false} ListTypeRoundTrip(t: Type, ts: seq<Token>, i: nat)
    requires t.List? && PrintableType(t) && Printed(ts, i, PrintType(t))
    ensures BaseType(ts, i) == Ok(Parsed(t, i + |PrintType(t)|))
    decreases t, 0
  {
    var e := t.element;
    var k := i + 1 + |PrintType(e)|;
    SplitList(ts, i, e);
    UnionTypeRoundTrip(e, ts, i + 1);
    ListTypeStep(ts, i, e, k);
    assert k + 1 == i + |PrintType(t)|;
  }

  /** The record case of BaseTypeRoundTrip. */
  lemma {:induction false} RecordTypeRoundTrip(t: Type, ts: seq<Token>, i: nat)
    requires t.Record? && PrintableType(t) && Printed(ts, i, PrintType(t))
    ensures BaseType(ts, i) == Ok(Parsed(t, i + |PrintType(t)|))
    decreases t, 0, |t.fields| + 1
  {
    var fs := t.fields;
    var k := i + 1 + |PrintRecordFields(fs)|;
    SplitRecord(ts, i, fs);
    RecordFieldsRoundTrip(t, ts, i + 1);
    RecordTypeStep(ts, i, fs, k);
    assert k + 1 == i + |PrintType(t)|;
  }

  /** parseType reads any printable type back, when no `|` follows it. */
  lemma {:induction false} UnionTypeRoundTrip(t: Type, ts: seq<Token>, i: nat)
    requires PrintableType(t) && Printed(ts, i, PrintType(t))
    requires !At(ts, i + |PrintType(t)|, Bar)
    ensures UnionType(ts, i) == Ok(Parsed(t, i + |PrintType(t)|))
    decreases t, 2
  {
    if t.Union? {
      UnionOfBoundsRoundTrip(t, ts, i);
    } else {
      BaseTypeRoundTrip(t, ts, i);
      NoUnionStep(ts, i, t, i + |PrintType(t)|);
    }
  }

  /** The union case of UnionTypeRoundTrip: the first bound, then the loop. */
  lemma {:induction false} UnionOfBoundsRoundTrip(t: Type, ts: seq<Token>, i: nat)
    requires t.Union? && PrintableType(t) && Printed(ts, i, PrintType(t))
    requires !At(ts, i + |PrintType(t)|, Bar)
    ensures UnionType(ts, i) == Ok(Parsed(t, i + |PrintType(t)|))
    decreases t, 1
  {
    var bs := t.bounds;
    var j := i + |PrintType(bs[0])|;
    var end := i + |PrintType(t)|;
    assert PrintType(t) == PrintUnion(bs);
    SplitUnion(ts, i, bs);
    assert j + |PrintBounds(bs, 1)| == end;
    SplitBound(ts, j, bs, 1);
    BaseTypeRoundTrip(bs[0], ts, i);
    BoundsRoundTrip(t, 1, ts, j);
    UnionStep(ts, i, j, bs, end);
    assert Union(bs) == t;
  }

  /** One pass of parseType's loop reads the k-th printed bound back. */
  lemma BoundRoundTrip(t: Type, k: nat, ts: seq<Token>, i: nat) returns (j: nat)
    requires t.Union? && PrintableType(t) && 1 <= k < |t.bounds|
    requires Printed(ts, i, PrintBounds(t.bounds, k))
    ensures j == i + 1 + |PrintType(t.bounds[k])|
    ensures Printed(ts, j, PrintBounds(t.bounds, k + 1)) && j + |PrintBounds(t.bounds, k + 1)| == i + |PrintBounds(t.bounds, k)|
    ensures UnionBounds(ts, i, t.bounds[..k]) == UnionBounds(ts, j, t.bounds[..k + 1])
    decreases t, 0, 2 * (|t.bounds| - k)
  {
    var bs := t.bounds;
    j := i + 1 + |PrintType(bs[k])|;
    SplitBound(ts, i, bs, k);
    BaseTypeRoundTrip(bs[k], ts, i + 1);
    BoundStep(ts, i, bs[..k], bs[k], j);
    SliceAppend(bs, k);
  }

  lemma {:induction false} BoundsRoundTrip(t: Type, k: nat, ts: seq<Token>, i: nat)
    requires t.Union? && PrintableType(t) && 1 <= k <= |t.bounds|
    requires Printed(ts, i, PrintBounds(t.bounds, k))
    requires !At(ts, i + |PrintBounds(t.bounds, k)|, Bar)
    ensures UnionBounds(ts, i, t.bounds[..k]) == Ok(Parsed(t.bounds, i + |PrintBounds(t.bounds, k)|))
    decreases t, 0, 2 * (|t.bounds| - k) + 1
  {
    var bs := t.bounds;
    if k == |bs| {
      assert bs[..k] == bs;
      BoundsEnd(ts, i, bs);
    } else {
      var j := BoundRoundTrip(t, k, ts, i);
      BoundsRoundTrip(t, k + 1, ts, j);
    }
  }

  /** The k-th field of a printable record type is printable, and its name
      is not among those of the fields before it. */
  lemma FreshField(t: Type, k: nat)
    requires t.Record? && PrintableType(t) && k < |t.fields|
    ensures PrintableType(t.fields[k].ty)
    ensures t.fields[k].name !in FieldNames(t.fields[..k])
  {
    var fs := t.fields;
    assert forall j | 0 <= j < k :: FieldNames(fs[..k])[j] == fs[j].name != fs[k].name;
  }

  /** The loop of parseRecordType reads all printed fields back. */
  lemma RecordFieldsRoundTrip(t: Type, ts: seq<Token>, i: nat)
    requires t.Record? && PrintableType(t)
    requires Printed(ts, i, PrintRecordFields(t.fields)) && At(ts, i + |PrintRecordFields(t.fields)|, RightCurly)
    ensures FieldTypes(ts, i, [], true) == Ok(Parsed(t.fields, i + |PrintRecordFields(t.fields)|))
    decreases t, 0, |t.fields|
  {
    var fs := t.fields;
    if |fs| > 0 {
      var j := FirstFieldRoundTrip(t, ts, i);
      FieldsRoundTrip(t, 1, ts, j);
    } else {
      assert FieldTypes(ts, i, [], true) == Ok(Parsed([], i));
    }
  }

  /** The first pass of that loop, which reads a field without a comma. */
  lemma FirstFieldRoundTrip(t: Type, ts: seq<Token>, i: nat) returns (j: nat)
    requires t.Record? && PrintableType(t) && |t.fields| > 0
    requires Printed(ts, i, PrintRecordFields(t.fields))
    ensures j == i + 1 + |PrintType(t.fields[0].ty)|
    ensures Printed(ts, j, PrintFields(t.fields, 1)) && j + |PrintFields(t.fields, 1)| == i + |PrintRecordFields(t.fields)|
    ensures FieldTypes(ts, i, [], true) == FieldTypes(ts, j, t.fields[..1], false)
    decreases t, 0, 0
  {
    var fs := t.fields;
    var n := i + |PrintType(fs[0].ty)|;
    j := n + 1;
    SplitFirstField(ts, i, fs);
    FreshField(t, 0);
    TypeFirstToken(fs[0].ty);
    One(ts, i, PrintType(fs[0].ty)[0]) by { Split(ts, i, [PrintType(fs[0].ty)[0]], PrintType(fs[0].ty)[1..]); }
    UnionTypeRoundTrip(fs[0].ty, ts, i);
    FirstFieldStep(ts, i, fs[0].ty, n);
    FieldStep(ts, i, [], true, fs[0], n + 1);
    assert [] + [fs[0]] == fs[..1];
  }

  /** One pass of that loop after the first field. */
  lemma NextFieldRoundTrip(t: Type, k: nat, ts: seq<Token>, i: nat) returns (j: nat)
    requires t.Record? && PrintableType(t) && 1 <= k < |t.fields|
    requires Printed(ts, i, PrintFields(t.fields, k))
    ensures j == i + 2 + |PrintType(t.fields[k].ty)|
    ensures Printed(ts, j, PrintFields(t.fields, k + 1)) && j + |PrintFields(t.fields, k + 1)| == i + |PrintFields(t.fields, k)|
    ensures FieldTypes(ts, i, t.fields[..k], false) == FieldTypes(ts, j, t.fields[..k + 1], false)
    decreases t, 0, 0
  {
    var fs := t.fields;
    j := i + 2 + |PrintType(fs[k].ty)|;
    var n := i + 1 + |PrintType(fs[k].ty)|;
    SplitNextField(ts, i, fs, k);
    FreshField(t, k);
    UnionTypeRoundTrip(fs[k].ty, ts, i + 1);
    NextFieldStep(ts, i, fs[..k], fs[k].ty, n);
    FieldStep(ts, i, fs[..k], false, fs[k], n + 1);
    assert n + 1 == j;
    SliceAppend(fs, k);
  }

  lemma {:induction false} FieldsRoundTrip(t: Type, k: nat, ts: seq<Token>, i: nat)
    requires t.Record? && PrintableType(t) && 1 <= k <= |t.fields|
    requires Printed(ts, i, PrintFields(t.fields, k)) && At(ts, i + |PrintFields(t.fields, k)|, RightCurly)
    ensures FieldTypes(ts, i, t.fields[..k], false) == Ok(Parsed(t.fields, i + |PrintFields(t.fields, k)|))
    decreases t, 0, |t.fields| - k
  {
    var fs := t.fields;
    if k == |fs| {
      assert fs[..k] == fs;
      FieldsEnd(ts, i, fs);
    } else {
      var j := NextFieldRoundTrip(t, k, ts, i);
      FieldsRoundTrip(t, k + 1, ts, j);
    }
  }

  /** parseType reads a printed type back whole, whatever follows it but a
      `|`, and consumes exactly its tokens. */
  lemma TypeRoundTrip(t: Type, rest: seq<Token>)
    requires PrintableType(t) && !At(rest, 0, Bar)
    ensures UnionType(PrintType(t) + rest, 0) == Ok(Parsed(t, |PrintType(t)|))
  {
    var ts := PrintType(t) + rest;
    Prefix(PrintType(t), rest);
    assert !At(ts, |PrintType(t)|, Bar) by {
      if |PrintType(t)| < |ts| {
        assert ts[|PrintType(t)|] == rest[0];
      }
    }
    UnionTypeRoundTrip(t, ts, 0);
  }
}
