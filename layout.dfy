/** How the x86 back end lays out While values: type widths, stack
    alignment, record field offsets and the slots of a call frame
    (X86FileWriter.java). Everything here is computed from types alone. */
module Layout {
  import opened Wrappers
  import opened Errors
  import opened Syntax
  import Strings

  datatype Arch = X86_32 | X86_64

  datatype OS = Linux | MacOS

  datatype Target = Target(arch: Arch, os: OS) {
    /** The natural word: 4 bytes on x86_32 and 8 on x86_64. */
    function WidthInBytes(): nat {
      if arch == X86_32 then 4 else 8
    }
  }

  const MACOS_X86_64 := Target(X86_64, MacOS)

  /** The declared named types: name to the type it stands for. */
  type TypeTable = map<string, Type>

  /** The declaration maps built before type checking and before code
      generation: later declarations of a name replace earlier ones. */
  function DeclTables(ds: seq<Decl>, functions: map<string, FunDecl>, types: TypeTable): (map<string, FunDecl>, TypeTable)
    decreases |ds|
  {
    if ds == [] then (functions, types)
    else
      match ds[0]
      case Fun(fd) => DeclTables(ds[1..], functions[fd.name := fd], types)
      case TypeDecl(n, t) => DeclTables(ds[1..], functions, types[n := t])
      case ConstDecl(_, _) => DeclTables(ds[1..], functions, types)
  }

  /** One level of named-type resolution; a missing declaration is a null dereference. */
  function Unwrap(types: TypeTable, t: Type): Result<Type, Error> {
    if !t.Named? then Ok(t)
    else if t.name in types then Ok(types[t.name])
    else Err(NullPointer("no declaration for a named type"))
  }

  /** determineAlignedStackWidth: on x86_64 MacOS the least multiple of 16
      that is at least `minimum`; elsewhere `minimum` itself. */
  function AlignedStackWidth(target: Target, minimum: nat): (r: nat)
    ensures target == MACOS_X86_64 ==> r % 16 == 0 && minimum <= r < minimum + 16
    ensures target != MACOS_X86_64 ==> r == minimum
  {
    if target == MACOS_X86_64 then
      var tmp := (minimum / 16) * 16;
      if tmp < minimum then tmp + 16 else tmp
    else minimum
  }

  // ---------------------------------------------------------------------
  // Widths
  // ---------------------------------------------------------------------

  /** determineWidth. `onPath` holds the named types being resolved on the
      way to `t`: meeting one of them again means the declarations are
      cyclic, where the Java recursion would exhaust the stack. */
  function Width(target: Target, types: TypeTable, onPath: set<string>, t: Type): Result<nat, Error>
    decreases types.Keys - onPath, t
  {
    match t
    case Bool | Char | Int | Real | Strung | List(_) => Ok(target.WidthInBytes())
    case Record(fs) => FieldsWidth(target, types, onPath, fs)
    case Union(bs) => BoundsWidth(target, types, onPath, bs, 0)
    case Named(n) =>
      if n !in types then Err(NullPointer("no declaration for a named type"))
      else if n in onPath then Err(StackOverflow("cyclic named type"))
      else Width(target, types, onPath + {n}, types[n])
    case Void | Null => Err(IllegalArgument("Unknown type encountered"))
  }

  /** The sum of the field widths, in iteration order. */
  function FieldsWidth(target: Target, types: TypeTable, onPath: set<string>, fs: seq<Field>): Result<nat, Error>
    decreases types.Keys - onPath, fs
  {
    if fs == [] then Ok(0)
    else
      var w :- Width(target, types, onPath, fs[0].ty);
      var rest :- FieldsWidth(target, types, onPath, fs[1..]);
      Ok(w + rest)
  }

  /** The largest bound width, starting from `acc`. */
  function BoundsWidth(target: Target, types: TypeTable, onPath: set<string>, bs: seq<Type>, acc: nat): Result<nat, Error>
    decreases types.Keys - onPath, bs
  {
    if bs == [] then Ok(acc)
    else
      var w :- Width(target, types, onPath, bs[0]);
      BoundsWidth(target, types, onPath, bs[1..], if acc < w then w else acc)
  }

  function WidthOf(target: Target, types: TypeTable, t: Type): Result<nat, Error> {
    Width(target, types, {}, t)
  }

  /** The width of `t`, or 0 where it has none; used to state lemmas. */
  function SlotWidth(target: Target, types: TypeTable, t: Type): nat {
    match WidthOf(target, types, t)
    case Ok(w) => w
    case Err(_) => 0
  }

  lemma SumOfMultiples(a: nat, b: nat, w: nat)
    requires w == 4 || w == 8
    requires a % w == 0 && b % w == 0
    ensures (a + b) % w == 0
  {
    if w == 4 {
      assert (a + b) % 4 == 0;
    } else {
      assert (a + b) % 8 == 0;
    }
  }

  /** Every width is a whole number of machine words, as writeToStack's
      slot-by-slot copy relies on. */
  lemma {:induction false} WidthIsWordMultiple(target: Target, types: TypeTable, onPath: set<string>, t: Type)
    ensures Width(target, types, onPath, t).Ok? ==> Width(target, types, onPath, t).value % target.WidthInBytes() == 0
    decreases types.Keys - onPath, t
  {
    match t
    case Record(fs) => FieldsWidthIsWordMultiple(target, types, onPath, fs);
    case Union(bs) => BoundsWidthIsWordMultiple(target, types, onPath, bs, 0);
    case Named(n) =>
      if n in types && n !in onPath {
        WidthIsWordMultiple(target, types, onPath + {n}, types[n]);
      }
    case _ =>
  }

  lemma {:induction false} FieldsWidthIsWordMultiple(target: Target, types: TypeTable, onPath: set<string>, fs: seq<Field>)
    ensures FieldsWidth(target, types, onPath, fs).Ok? ==> FieldsWidth(target, types, onPath, fs).value % target.WidthInBytes() == 0
    decreases types.Keys - onPath, fs
  {
    if fs != [] {
      WidthIsWordMultiple(target, types, onPath, fs[0].ty);
      FieldsWidthIsWordMultiple(target, types, onPath, fs[1..]);
      if FieldsWidth(target, types, onPath, fs).Ok? {
        SumOfMultiples(Width(target, types, onPath, fs[0].ty).value,
                       FieldsWidth(target, types, onPath, fs[1..]).value, target.WidthInBytes());
      }
    }
  }

  lemma {:induction false} BoundsWidthIsWordMultiple(target: Target, types: TypeTable, onPath: set<string>, bs: seq<Type>, acc: nat)
    requires acc % target.WidthInBytes() == 0
    ensures BoundsWidth(target, types, onPath, bs, acc).Ok? ==> BoundsWidth(target, types, onPath, bs, acc).value % target.WidthInBytes() == 0
    decreases types.Keys - onPath, bs
  {
    if bs != [] {
      WidthIsWordMultiple(target, types, onPath, bs[0]);
      var w := Width(target, types, onPath, bs[0]);
      if w.Ok? {
        BoundsWidthIsWordMultiple(target, types, onPath, bs[1..], if acc < w.value then w.value else acc);
      }
    }
  }

  lemma {:induction false} FieldsWidthAppend(target: Target, types: TypeTable, onPath: set<string>, a: seq<Field>, b: seq<Field>)
    ensures FieldsWidth(target, types, onPath, a + b).Ok? <==>
            FieldsWidth(target, types, onPath, a).Ok? && FieldsWidth(target, types, onPath, b).Ok?
    ensures FieldsWidth(target, types, onPath, a + b).Ok? ==>
            FieldsWidth(target, types, onPath, a + b).value ==
            FieldsWidth(target, types, onPath, a).value + FieldsWidth(target, types, onPath, b).value
    decreases |a|
  {
    if a != [] {
      assert (a + b)[1..] == a[1..] + b;
      assert (a + b)[0] == a[0];
      FieldsWidthAppend(target, types, onPath, a[1..], b);
    } else {
      assert a + b == b;
    }
  }

  /** The head of `a` occurs in its permutation `b`; taking it out of
      both leaves permutations of each other. */
  lemma MatchHead<T>(a: seq<T>, b: seq<T>) returns (k: nat)
    requires a != [] && multiset(a) == multiset(b)
    ensures k < |b| && b[k] == a[0]
    ensures b == b[..k] + ([b[k]] + b[k + 1..])
    ensures multiset(a[1..]) == multiset(b[..k] + b[k + 1..])
  {
    SplitAround(a, 0);
    assert a[..0] == [];
    assert a[..0] + a[1..] == a[1..];
    MultisetWithout(a[..0], a[0], a[1..]);
    assert a[0] in multiset(b);
    k :| 0 <= k < |b| && b[k] == a[0];
    SplitAround(b, k);
    MultisetWithout(b[..k], b[k], b[k + 1..]);
  }

  /** A sequence is what lies before position `k`, the element there, and
      what lies after it. */
  lemma SplitAround<T>(b: seq<T>, k: nat)
    requires k < |b|
    ensures b == b[..k] + ([b[k]] + b[k + 1..])
  {
    assert b[k..] == [b[k]] + b[k + 1..];
    assert b == b[..k] + b[k..];
  }

  /** Taking one element out of the middle of a sequence takes it out of
      its multiset. */
  lemma MultisetWithout<T>(pre: seq<T>, x: T, post: seq<T>)
    ensures multiset(pre + post) == multiset(pre + ([x] + post)) - multiset{x}
  {
    assert multiset(pre + ([x] + post)) == multiset(pre) + multiset([x] + post);
    assert multiset([x] + post) == multiset{x} + multiset(post);
    assert multiset(pre + post) == multiset(pre) + multiset(post);
  }

  /** A record's width does not depend on the order of its fields. */
  lemma {:induction false} FieldsWidthPermutation(target: Target, types: TypeTable, onPath: set<string>, a: seq<Field>, b: seq<Field>)
    requires multiset(a) == multiset(b)
    ensures FieldsWidth(target, types, onPath, a).Ok? <==> FieldsWidth(target, types, onPath, b).Ok?
    ensures FieldsWidth(target, types, onPath, a).Ok? ==>
            FieldsWidth(target, types, onPath, a).value == FieldsWidth(target, types, onPath, b).value
    decreases |a|
  {
    if a == [] {
      assert |b| == |multiset(b)| == 0;
    } else {
      var k := MatchHead(a, b);
      var x, lo, hi := a[0], b[..k], b[k + 1..];
      FieldsWidthPermutation(target, types, onPath, a[1..], lo + hi);
      FieldsWidthAppend(target, types, onPath, lo, [x] + hi);
      FieldsWidthAppend(target, types, onPath, [x], hi);
      FieldsWidthAppend(target, types, onPath, lo, hi);
      assert a == [x] + a[1..];
      FieldsWidthAppend(target, types, onPath, [x], a[1..]);
    }
  }

  // ---------------------------------------------------------------------
  // Field offsets
  // ---------------------------------------------------------------------

  /** The fields of a record type in the order of their names, the order in
      which the back end lays them out. */
  function SortedFields(fs: seq<Field>): (r: seq<Field>)
    ensures multiset(r) == multiset(fs) && |r| == |fs|
  {
    Strings.SortBy(fs, (f: Field) => f.name)
  }

  lemma SortedFieldsOrdered(fs: seq<Field>)
    ensures forall i, j | 0 <= i < j < |fs| :: Strings.LessEq(SortedFields(fs)[i].name, SortedFields(fs)[j].name)
  {
    Strings.SortBySorted(fs, (f: Field) => f.name);
  }

  lemma {:induction false} DistinctCount(a: seq<Field>, x: Field)
    requires DistinctNames(a)
    ensures multiset(a)[x] <= 1
    decreases |a|
  {
    if a != [] {
      assert a == [a[0]] + a[1..];
      assert multiset(a) == multiset{a[0]} + multiset(a[1..]);
      DistinctCount(a[1..], x);
      if a[0] == x {
        assert x !in a[1..] by {
          forall k | 0 <= k < |a[1..]| ensures a[1..][k] != x {
            assert a[1..][k] == a[k + 1];
          }
        }
      }
    }
  }

  lemma RepeatedCount<T>(b: seq<T>, i: nat, j: nat)
    requires i < j < |b| && b[i] == b[j]
    ensures multiset(b)[b[i]] >= 2
  {
    assert b == b[..j] + b[j..];
    assert multiset(b) == multiset(b[..j]) + multiset(b[j..]);
    assert b[i] == b[..j][i];
    assert b[j] == b[j..][0];
  }

  /** Reordering the fields of a record keeps their names distinct. */
  lemma DistinctNamesPermutation(a: seq<Field>, b: seq<Field>)
    requires multiset(a) == multiset(b) && DistinctNames(a)
    ensures DistinctNames(b)
  {
    forall i, j | 0 <= i < j < |b| ensures b[i].name != b[j].name {
      if b[i] == b[j] {
        RepeatedCount(b, i, j);
        DistinctCount(a, b[i]);
      } else {
        assert b[i] in multiset(a) && b[j] in multiset(a);
        var k :| 0 <= k < |a| && a[k] == b[i];
        var l :| 0 <= l < |a| && a[l] == b[j];
        assert k != l;
      }
    }
  }

  /** The loop at X86FileWriter.java:1135-1142, over the sorted names: it
      walks down from the last name and, at every step, subtracts `step`,
      the width of the field that is looked up. */
  function ScanAsWritten(names: seq<string>, field: string, offset: int, step: int): int
    decreases |names|
  {
    if names == [] then offset
    else if names[|names| - 1] == field then offset - step
    else ScanAsWritten(names[..|names| - 1], field, offset - step, step)
  }

  /** determineFieldOffset as written. */
  function FieldOffsetAsWritten(target: Target, types: TypeTable, fs: seq<Field>, field: string): Result<int, Error> {
    var w :- FieldsWidth(target, types, {}, fs);
    var names := FieldNames(SortedFields(fs));
    if names == [] then Ok(w)
    else match LookupField(fs, field)
      case None => Err(IllegalArgument("Unknown type encountered"))
      case Some(ft) =>
        var step :- WidthOf(target, types, ft);
        Ok(ScanAsWritten(names, field, w, step))
  }

  /** The same loop subtracting the width of the field it steps over. */
  function Scan(fs: seq<Field>, target: Target, types: TypeTable, field: string, offset: int): Result<int, Error>
    decreases |fs|
  {
    if fs == [] then Ok(offset)
    else
      var last := fs[|fs| - 1];
      var w :- WidthOf(target, types, last.ty);
      if last.name == field then Ok(offset - w)
      else Scan(fs[..|fs| - 1], target, types, field, offset - w)
  }

  /** determineFieldOffset, corrected: the offset of `field` from the start
      of a record value. */
  function FieldOffset(target: Target, types: TypeTable, fs: seq<Field>, field: string): Result<int, Error> {
    var w :- FieldsWidth(target, types, {}, fs);
    var sorted := SortedFields(fs);
    if sorted == [] then Ok(w)
    else if LookupField(fs, field).None? then Err(IllegalArgument("Unknown type encountered"))
    else Scan(sorted, target, types, field, w)
  }

  /** One step of Scan: the last field, when it is not the one sought,
      is stepped over. */
  lemma ScanStep(fs: seq<Field>, target: Target, types: TypeTable, field: string, offset: int, w: nat)
    requires fs != [] && WidthOf(target, types, fs[|fs| - 1].ty) == Ok(w)
    ensures fs[|fs| - 1].name == field ==> Scan(fs, target, types, field, offset) == Ok(offset - w)
    ensures fs[|fs| - 1].name != field ==> Scan(fs, target, types, field, offset) == Scan(fs[..|fs| - 1], target, types, field, offset - w)
  {
  }

  lemma {:induction false} ScanIsSuffixWidth(fs: seq<Field>, target: Target, types: TypeTable, p: nat, offset: int)
    requires DistinctNames(fs) && p < |fs|
    requires FieldsWidth(target, types, {}, fs).Ok?
    ensures FieldsWidth(target, types, {}, fs[p..]).Ok?
    ensures Scan(fs, target, types, fs[p].name, offset) == Ok(offset - FieldsWidth(target, types, {}, fs[p..]).value)
    decreases |fs|
  {
    var n := |fs|;
    var w := LastFieldWidth(target, types, fs);
    if p == n - 1 {
      ScanFindsLast(fs, target, types, offset, w);
    } else {
      DistinctNamesInit(fs, p);
      ScanIsSuffixWidth(fs[..n - 1], target, types, p, offset - w);
      ScanSkipsLast(fs, target, types, p, offset, w);
    }
  }

  /** The base case of ScanIsSuffixWidth: the sought field is the last one. */
  lemma ScanFindsLast(fs: seq<Field>, target: Target, types: TypeTable, offset: int, w: nat)
    requires fs != []
    requires WidthOf(target, types, fs[|fs| - 1].ty) == Ok(w)
    requires FieldsWidth(target, types, {}, [fs[|fs| - 1]]) == Ok(w)
    ensures FieldsWidth(target, types, {}, fs[|fs| - 1..]) == Ok(w)
    ensures Scan(fs, target, types, fs[|fs| - 1].name, offset) == Ok(offset - w)
  {
    ScanStep(fs, target, types, fs[|fs| - 1].name, offset, w);
    assert fs[|fs| - 1..] == [fs[|fs| - 1]];
  }

  /** The inductive step of ScanIsSuffixWidth: the sought field is not the
      last one, so the scan steps over it and the suffix grows by it. */
  lemma ScanSkipsLast(fs: seq<Field>, target: Target, types: TypeTable, p: nat, offset: int, w: nat)
    requires p < |fs| - 1 && fs[p].name != fs[|fs| - 1].name
    requires WidthOf(target, types, fs[|fs| - 1].ty) == Ok(w)
    requires FieldsWidth(target, types, {}, [fs[|fs| - 1]]) == Ok(w)
    requires fs[..|fs| - 1][p] == fs[p]
    requires FieldsWidth(target, types, {}, fs[..|fs| - 1][p..]).Ok?
    requires Scan(fs[..|fs| - 1], target, types, fs[p].name, offset - w) ==
             Ok(offset - w - FieldsWidth(target, types, {}, fs[..|fs| - 1][p..]).value)
    ensures FieldsWidth(target, types, {}, fs[p..]).Ok?
    ensures Scan(fs, target, types, fs[p].name, offset) == Ok(offset - FieldsWidth(target, types, {}, fs[p..]).value)
  {
    ScanStep(fs, target, types, fs[p].name, offset, w);
    SuffixWidthStep(target, types, fs, p, w);
  }

  /** The fields before the last keep distinct names, none of them the
      last one's. */
  lemma DistinctNamesInit(fs: seq<Field>, p: nat)
    requires DistinctNames(fs) && p < |fs| - 1
    ensures DistinctNames(fs[..|fs| - 1])
    ensures fs[..|fs| - 1][p] == fs[p] && fs[p].name != fs[|fs| - 1].name
  {
    var init := fs[..|fs| - 1];
    forall i, j | 0 <= i < j < |init| ensures init[i].name != init[j].name {
      assert init[i] == fs[i] && init[j] == fs[j];
    }
  }

  /** The last field has a width, and the fields before it fit. */
  lemma LastFieldWidth(target: Target, types: TypeTable, fs: seq<Field>) returns (w: nat)
    requires fs != [] && FieldsWidth(target, types, {}, fs).Ok?
    ensures WidthOf(target, types, fs[|fs| - 1].ty) == Ok(w)
    ensures FieldsWidth(target, types, {}, [fs[|fs| - 1]]) == Ok(w)
    ensures FieldsWidth(target, types, {}, fs[..|fs| - 1]).Ok?
  {
    var last := fs[|fs| - 1];
    assert fs == fs[..|fs| - 1] + [last];
    FieldsWidthAppend(target, types, {}, fs[..|fs| - 1], [last]);
    assert [last][1..] == [];
    w := FieldsWidth(target, types, {}, [last]).value;
  }

  /** A suffix that ends with the last field is the suffix of the fields
      before it, with the last field after it. */
  lemma SuffixWidthStep(target: Target, types: TypeTable, fs: seq<Field>, p: nat, w: nat)
    requires p < |fs| - 1 && FieldsWidth(target, types, {}, [fs[|fs| - 1]]) == Ok(w)
    requires FieldsWidth(target, types, {}, fs[..|fs| - 1][p..]).Ok?
    ensures FieldsWidth(target, types, {}, fs[p..]) == Ok(FieldsWidth(target, types, {}, fs[..|fs| - 1][p..]).value + w)
  {
    assert fs[p..] == fs[..|fs| - 1][p..] + [fs[|fs| - 1]];
    FieldsWidthAppend(target, types, {}, fs[..|fs| - 1][p..], [fs[|fs| - 1]]);
  }

  /** A field sits after all the fields whose names sort before it: its
      offset is the total width of those fields. */
  lemma FieldOffsetIsPrefixWidth(target: Target, types: TypeTable, fs: seq<Field>, p: nat)
    requires DistinctNames(fs) && p < |fs|
    requires FieldsWidth(target, types, {}, fs).Ok?
    ensures FieldsWidth(target, types, {}, SortedFields(fs)[..p]).Ok?
    ensures FieldOffset(target, types, fs, SortedFields(fs)[p].name) ==
            Ok(FieldsWidth(target, types, {}, SortedFields(fs)[..p]).value)
  {
    var sorted := SortedFields(fs);
    var w := FieldsWidth(target, types, {}, fs).value;
    var f := sorted[p];
    DistinctNamesPermutation(fs, sorted);
    FieldsWidthPermutation(target, types, {}, fs, sorted);
    assert f in multiset(fs);
    LookupPresent(fs, f);
    assert FieldOffset(target, types, fs, f.name) == Scan(sorted, target, types, f.name, w);
    ScanIsSuffixWidth(sorted, target, types, p, w);
    assert sorted == sorted[..p] + sorted[p..];
    FieldsWidthAppend(target, types, {}, sorted[..p], sorted[p..]);
  }

  lemma {:induction false} LookupPresent(fs: seq<Field>, f: Field)
    requires DistinctNames(fs) && f in fs
    ensures LookupField(fs, f.name) == Some(f.ty)
    decreases |fs|
  {
    if fs[0] != f {
      assert fs[0].name != f.name by {
        var k :| 0 <= k < |fs| && fs[k] == f;
        assert k != 0;
      }
      assert f in fs[1..] by {
        var k :| 0 <= k < |fs| && fs[k] == f;
        assert fs[1..][k - 1] == f;
      }
      LookupPresent(fs[1..], f);
    }
  }

  /** All fields of the record are `k` bytes wide. */
  predicate UniformWidth(target: Target, types: TypeTable, fs: seq<Field>, k: nat) {
    forall i | 0 <= i < |fs| :: WidthOf(target, types, fs[i].ty) == Ok(k)
  }

  lemma {:induction false} FieldsWidthUniform(target: Target, types: TypeTable, fs: seq<Field>, k: nat)
    requires UniformWidth(target, types, fs, k)
    ensures FieldsWidth(target, types, {}, fs) == Ok(|fs| * k)
    decreases |fs|
  {
    if fs != [] {
      assert UniformWidth(target, types, fs[1..], k) by {
        forall i | 0 <= i < |fs[1..]| ensures WidthOf(target, types, fs[1..][i].ty) == Ok(k) {
          assert fs[1..][i] == fs[i + 1];
        }
      }
      FieldsWidthUniform(target, types, fs[1..], k);
      assert |fs| * k == k + (|fs| - 1) * k;
    }
  }

  lemma UniformPermutation(target: Target, types: TypeTable, a: seq<Field>, b: seq<Field>, k: nat)
    requires multiset(a) == multiset(b) && UniformWidth(target, types, a, k)
    ensures UniformWidth(target, types, b, k)
  {
    forall i | 0 <= i < |b| ensures WidthOf(target, types, b[i].ty) == Ok(k) {
      assert b[i] in multiset(a);
      var j :| 0 <= j < |a| && a[j] == b[i];
    }
  }

  lemma {:induction false} ScanAsWrittenSteps(names: seq<string>, p: nat, offset: int, step: int)
    requires p < |names|
    requires forall i, j | 0 <= i < j < |names| :: names[i] != names[j]
    ensures ScanAsWritten(names, names[p], offset, step) == offset - (|names| - p) * step
    decreases |names|
  {
    var n := |names|;
    if p < n - 1 {
      var init := names[..n - 1];
      assert init[p] == names[p];
      ScanAsWrittenSteps(init, p, offset - step, step);
      assert (n - p) * step == (n - 1 - p) * step + step;
    }
  }

  lemma FieldOffsetUniform(target: Target, types: TypeTable, fs: seq<Field>, p: nat, k: nat)
    requires DistinctNames(fs) && p < |fs|
    requires UniformWidth(target, types, fs, k)
    ensures FieldOffset(target, types, fs, SortedFields(fs)[p].name) == Ok(p * k)
  {
    var sorted := SortedFields(fs);
    FieldsWidthUniform(target, types, fs, k);
    UniformPermutation(target, types, fs, sorted, k);
    FieldOffsetIsPrefixWidth(target, types, fs, p);
    assert UniformWidth(target, types, sorted[..p], k) by {
      forall i | 0 <= i < p ensures WidthOf(target, types, sorted[..p][i].ty) == Ok(k) {
        assert sorted[..p][i] == sorted[i];
      }
    }
    FieldsWidthUniform(target, types, sorted[..p], k);
  }

  lemma Distribute(n: int, p: int, k: int)
    ensures n * k - (n - p) * k == p * k
  {
    assert (n - p) * k == n * k - p * k;
  }

  lemma ScanAsWrittenUniform(fs: seq<Field>, p: nat, k: nat)
    requires DistinctNames(fs) && p < |fs|
    ensures ScanAsWritten(FieldNames(fs), fs[p].name, |fs| * k, k) == p * k
  {
    var names := FieldNames(fs);
    forall i, j | 0 <= i < j < |names| ensures names[i] != names[j] {
      assert names[i] == fs[i].name && names[j] == fs[j].name;
    }
    ScanAsWrittenSteps(names, p, |fs| * k, k);
    Distribute(|fs|, p, k);
  }

  /** When all fields have the same width `k` the loop as written finds the
      right place: the field at position `p` in name order sits at `p * k`,
      exactly where the corrected offset puts it. */
  lemma FieldOffsetAsWrittenUniform(target: Target, types: TypeTable, fs: seq<Field>, p: nat, k: nat)
    requires DistinctNames(fs) && p < |fs|
    requires UniformWidth(target, types, fs, k)
    ensures FieldOffsetAsWritten(target, types, fs, SortedFields(fs)[p].name) == Ok(p * k)
    ensures FieldOffset(target, types, fs, SortedFields(fs)[p].name) == Ok(p * k)
  {
    var sorted := SortedFields(fs);
    var f := sorted[p];
    var n := |fs|;
    FieldsWidthUniform(target, types, fs, k);
    DistinctNamesPermutation(fs, sorted);
    UniformPermutation(target, types, fs, sorted, k);
    assert f in multiset(fs);
    LookupPresent(fs, f);
    assert WidthOf(target, types, f.ty) == Ok(k);
    assert FieldOffsetAsWritten(target, types, fs, f.name) == Ok(ScanAsWritten(FieldNames(sorted), f.name, n * k, k));
    ScanAsWrittenUniform(sorted, p, k);
    FieldOffsetUniform(target, types, fs, p, k);
  }

  /** A record with a two-word field `a` before a one-word field `b`: the
      loop as written subtracts the width of `a` twice and places `a` one
      word before the start of the record, where the corrected offset
      gives 0. */
  lemma FieldOffsetAsWrittenMisplacesWideField()
    ensures var fs := [Field("a", Record([Field("x", Int), Field("y", Int)])), Field("b", Int)];
            FieldOffsetAsWritten(Target(X86_64, Linux), map[], fs, "a") == Ok(-8) &&
            FieldOffset(Target(X86_64, Linux), map[], fs, "a") == Ok(0)
  {
    var t := Target(X86_64, Linux);
    var types: TypeTable := map[];
    var inner := [Field("x", Int), Field("y", Int)];
    var fs := [Field("a", Record(inner)), Field("b", Int)];
    assert Strings.Less("a", "b");
    assert SortedFields(fs) == fs by {
      assert Strings.InsertBy(fs[1], [], (f: Field) => f.name) == [fs[1]];
      assert Strings.SortBy(fs[1..], (f: Field) => f.name) == [fs[1]];
    }
    assert FieldNames(fs) == ["a", "b"];
    assert FieldsWidth(t, types, {}, inner) == Ok(16);
    assert WidthOf(t, types, Record(inner)) == Ok(16);
    assert FieldsWidth(t, types, {}, fs) == Ok(24);
    assert LookupField(fs, "a") == Some(Record(inner));
    assert ScanAsWritten(["a", "b"], "a", 24, 16) == -8;
    assert [fs[0], fs[1]][..1] == [fs[0]];
    assert Scan(fs, t, types, "a", 24) == Ok(0);
  }

  // ---------------------------------------------------------------------
  // Call frames
  // ---------------------------------------------------------------------

  /** Stack offsets of the variables of a function, from its frame pointer. */
  type Frame = map<string, int>

  /** The sum of the parameter widths, in declaration order. */
  function ParametersWidth(target: Target, types: TypeTable, ps: seq<Parameter>): Result<nat, Error> {
    if ps == [] then Ok(0)
    else
      var w :- WidthOf(target, types, ps[0].ty);
      var rest :- ParametersWidth(target, types, ps[1..]);
      Ok(w + rest)
  }

  /** determineCallerEnvironmentAlignedWidth before rounding: the space the
      caller reserves for the arguments and the return value. */
  function CallerEnvironmentWidth(target: Target, types: TypeTable, fd: FunDecl): Result<nat, Error> {
    var pw :- ParametersWidth(target, types, fd.parameters);
    if fd.ret.Void? then Ok(pw)
    else
      var rw :- WidthOf(target, types, fd.ret);
      Ok(pw + rw)
  }

  function CallerEnvironmentAlignedWidth(target: Target, types: TypeTable, fd: FunDecl): Result<nat, Error> {
    var w :- CallerEnvironmentWidth(target, types, fd);
    Ok(AlignedStackWidth(target, w))
  }

  /** The offsets given to successive parameters when the first slot ends at
      `top`: each parameter occupies the bytes just below the previous one
      (the parameter loops of allocateStackFrame and of Invoke). */
  function ParameterOffsets(target: Target, types: TypeTable, ps: seq<Parameter>, top: int): Result<seq<int>, Error> {
    if ps == [] then Ok([])
    else
      var w :- WidthOf(target, types, ps[0].ty);
      var rest :- ParameterOffsets(target, types, ps[1..], top - w);
      Ok([top - w] + rest)
  }

  /** Parameter slots are adjacent, in order, and together fill exactly
      the `ParametersWidth` bytes below `top`. */
  lemma ParameterOffsetsAdjacent(target: Target, types: TypeTable, ps: seq<Parameter>, top: int)
    ensures ParameterOffsets(target, types, ps, top).Ok? <==> ParametersWidth(target, types, ps).Ok?
    ensures ParameterOffsets(target, types, ps, top).Ok? ==>
      var os := ParameterOffsets(target, types, ps, top).value;
      |os| == |ps| &&
      (ps != [] ==> os[0] + SlotWidth(target, types, ps[0].ty) == top) &&
      (forall i | 0 < i < |ps| :: os[i] + SlotWidth(target, types, ps[i].ty) == os[i - 1]) &&
      (forall i | 0 <= i < |ps| :: top - ParametersWidth(target, types, ps).value <= os[i]) &&
      (ps != [] ==> os[|ps| - 1] == top - ParametersWidth(target, types, ps).value)
  {
    ParameterOffsetsDefined(target, types, ps, top);
    if ParameterOffsets(target, types, ps, top).Ok? {
      ParameterOffsetsChain(target, types, ps, top);
      ParameterOffsetsBottom(target, types, ps, top);
    }
  }

  /** The offsets exist exactly when the widths do, one per parameter,
      the first slot ending at `top`. */
  lemma {:induction false} ParameterOffsetsDefined(target: Target, types: TypeTable, ps: seq<Parameter>, top: int)
    ensures ParameterOffsets(target, types, ps, top).Ok? <==> ParametersWidth(target, types, ps).Ok?
    ensures ParameterOffsets(target, types, ps, top).Ok? ==>
      var os := ParameterOffsets(target, types, ps, top).value;
      |os| == |ps| && (ps != [] ==> os[0] + SlotWidth(target, types, ps[0].ty) == top)
    decreases |ps|
  {
    if ps != [] {
      ParameterOffsetsDefined(target, types, ps[1..], top - SlotWidth(target, types, ps[0].ty));
    }
  }

  /** Each slot ends where the one before it begins. */
  lemma {:induction false} ParameterOffsetsChain(target: Target, types: TypeTable, ps: seq<Parameter>, top: int)
    requires ParameterOffsets(target, types, ps, top).Ok?
    ensures var os := ParameterOffsets(target, types, ps, top).value;
      |os| == |ps| && forall i | 0 < i < |ps| :: os[i] + SlotWidth(target, types, ps[i].ty) == os[i - 1]
    decreases |ps|
  {
    if ps != [] {
      var w := SlotWidth(target, types, ps[0].ty);
      ParameterOffsetsDefined(target, types, ps[1..], top - w);
      ParameterOffsetsChain(target, types, ps[1..], top - w);
    }
  }

  /** No slot starts below the parameter area, and the last one starts at
      its bottom. */
  lemma {:induction false} ParameterOffsetsBottom(target: Target, types: TypeTable, ps: seq<Parameter>, top: int)
    requires ParameterOffsets(target, types, ps, top).Ok?
    ensures ParametersWidth(target, types, ps).Ok?
    ensures var os := ParameterOffsets(target, types, ps, top).value;
      var bottom := top - ParametersWidth(target, types, ps).value;
      |os| == |ps| && (forall i | 0 <= i < |ps| :: bottom <= os[i]) && (ps != [] ==> os[|ps| - 1] == bottom)
    decreases |ps|
  {
    ParameterOffsetsDefined(target, types, ps, top);
    if ps != [] {
      ParameterOffsetsBottom(target, types, ps[1..], top - SlotWidth(target, types, ps[0].ty));
    }
  }

  /** Moving the top of the parameter area moves every slot by the same amount. */
  lemma {:induction false} ParameterOffsetsShift(target: Target, types: TypeTable, ps: seq<Parameter>, top: int, d: int)
    ensures ParameterOffsets(target, types, ps, top + d).Ok? <==> ParameterOffsets(target, types, ps, top).Ok?
    ensures ParameterOffsets(target, types, ps, top).Ok? ==>
      |ParameterOffsets(target, types, ps, top + d).value| == |ParameterOffsets(target, types, ps, top).value| &&
      forall i | 0 <= i < |ParameterOffsets(target, types, ps, top).value| ::
        ParameterOffsets(target, types, ps, top + d).value[i] == ParameterOffsets(target, types, ps, top).value[i] + d
    decreases |ps|
  {
    if ps != [] {
      var w := SlotWidth(target, types, ps[0].ty);
      assert top + d - w == (top - w) + d;
      ParameterOffsetsShift(target, types, ps[1..], top - w, d);
    }
  }

  /** The bytes a call exchanges: the caller stores argument `i` at
      `sp + offset` inside the area it reserved with `sub A, sp`, and the
      callee, whose frame pointer lies two words below (the return address and
      the saved frame pointer), reads parameter `i` at the very same address.
      The return value slot agrees in the same way, and every slot lies
      inside the reserved area, above the callee's linkage words. */
  lemma CallerCalleeAgree(target: Target, types: TypeTable, fd: FunDecl, sp: int)
    requires CallerEnvironmentAlignedWidth(target, types, fd).Ok?
    ensures
      var a := CallerEnvironmentAlignedWidth(target, types, fd).value;
      var w := target.WidthInBytes();
      var ps := fd.parameters;
      var caller := ParameterOffsets(target, types, ps, a);
      var callee := ParameterOffsets(target, types, ps, a + 2 * w);
      caller.Ok? && callee.Ok? && |caller.value| == |callee.value| == |ps| &&
      (forall i | 0 <= i < |ps| ::
        sp + caller.value[i] == (sp - 2 * w) + callee.value[i] &&
        0 <= caller.value[i] && caller.value[i] + SlotWidth(target, types, ps[i].ty) <= a &&
        2 * w <= callee.value[i]) &&
      (!fd.ret.Void? ==>
        var off := a - CallerEnvironmentWidth(target, types, fd).value;
        0 <= off && off + SlotWidth(target, types, fd.ret) <= a - ParametersWidth(target, types, ps).value &&
        sp + off == (sp - 2 * w) + (off + 2 * w))
  {
    var a := CallerEnvironmentAlignedWidth(target, types, fd).value;
    var w := target.WidthInBytes();
    var ps := fd.parameters;
    ParameterOffsetsAdjacent(target, types, ps, a);
    ParameterOffsetsShift(target, types, ps, a, 2 * w);
    var os := ParameterOffsets(target, types, ps, a).value;
    var pw := ParametersWidth(target, types, ps).value;
    assert CallerEnvironmentWidth(target, types, fd).value <= a;
    forall i | 0 <= i < |ps|
      ensures 0 <= os[i] && os[i] + SlotWidth(target, types, ps[i].ty) <= a
    {
      SlotsBelowTop(os, i, a, target, types, ps);
    }
  }

  /** Each slot ends at or below the top of the area. */
  lemma SlotsBelowTop(os: seq<int>, i: nat, top: int, target: Target, types: TypeTable, ps: seq<Parameter>)
    requires |os| == |ps| && i < |ps|
    requires os[0] + SlotWidth(target, types, ps[0].ty) == top
    requires forall j | 0 < j < |ps| :: os[j] + SlotWidth(target, types, ps[j].ty) == os[j - 1]
    ensures os[i] + SlotWidth(target, types, ps[i].ty) <= top
  {
    if i > 0 {
      SlotsBelowTop(os, i - 1, top, target, types, ps);
    }
  }

  /** The parameter loop of allocateStackFrame: each parameter is bound to
      the slot just below the previous one, starting below `offset`. */
  function BindParameters(target: Target, types: TypeTable, ps: seq<Parameter>, offset: int, frame: Frame): Result<(Frame, int), Error> {
    if ps == [] then Ok((frame, offset))
    else
      var w :- WidthOf(target, types, ps[0].ty);
      BindParameters(target, types, ps[1..], offset - w, frame[ps[0].name := offset - w])
  }

  predicate DistinctParameters(ps: seq<Parameter>) {
    forall i, j | 0 <= i < j < |ps| :: ps[i].name != ps[j].name
  }

  /** Every parameter is bound to its slot, the offset ends below the whole
      parameter area, and no other name changes. */
  lemma {:induction false} BindParametersSlots(target: Target, types: TypeTable, ps: seq<Parameter>, offset: int, frame: Frame)
    requires DistinctParameters(ps)
    ensures BindParameters(target, types, ps, offset, frame).Ok? <==> ParameterOffsets(target, types, ps, offset).Ok?
    ensures BindParameters(target, types, ps, offset, frame).Ok? ==>
      var (f, end) := BindParameters(target, types, ps, offset, frame).value;
      var os := ParameterOffsets(target, types, ps, offset).value;
      |os| == |ps| && ParametersWidth(target, types, ps).Ok? &&
      end == offset - ParametersWidth(target, types, ps).value &&
      (forall i | 0 <= i < |ps| :: ps[i].name in f && f[ps[i].name] == os[i]) &&
      (forall k | k in frame :: k in f) &&
      (forall k | k in f :: k in frame || exists i | 0 <= i < |ps| :: ps[i].name == k) &&
      (forall k | k in frame && (forall i | 0 <= i < |ps| :: ps[i].name != k) :: f[k] == frame[k])
    decreases |ps|
  {
    ParameterOffsetsAdjacent(target, types, ps, offset);
    if ps != [] {
      var w := SlotWidth(target, types, ps[0].ty);
      var frame' := frame[ps[0].name := offset - w];
      assert DistinctParameters(ps[1..]) by {
        forall i, j | 0 <= i < j < |ps[1..]| ensures ps[1..][i].name != ps[1..][j].name {
          assert ps[1..][i] == ps[i + 1] && ps[1..][j] == ps[j + 1];
        }
      }
      BindParametersSlots(target, types, ps[1..], offset - w, frame');
      if BindParameters(target, types, ps, offset, frame).Ok? {
        var (f, end) := BindParameters(target, types, ps, offset, frame).value;
        var os := ParameterOffsets(target, types, ps, offset).value;
        forall i | 0 <= i < |ps| ensures ps[i].name in f && f[ps[i].name] == os[i] {
          if i > 0 {
            assert ps[1..][i - 1] == ps[i];
          } else {
            forall j | 0 <= j < |ps[1..]| ensures ps[1..][j].name != ps[0].name {
              assert ps[1..][j] == ps[j + 1];
            }
          }
        }
        forall k | k in f ensures k in frame || exists i | 0 <= i < |ps| :: ps[i].name == k {
          if k !in frame' {
            var i :| 0 <= i < |ps[1..]| && ps[1..][i].name == k;
            assert ps[i + 1].name == k;
          } else if k !in frame {
            assert ps[0].name == k;
          }
        }
        forall k | k in frame && (forall i | 0 <= i < |ps| :: ps[i].name != k) ensures f[k] == frame[k] {
          assert ps[0].name != k;
          forall i | 0 <= i < |ps[1..]| ensures ps[1..][i].name != k {
            assert ps[1..][i] == ps[i + 1];
          }
        }
      }
    }
  }

  // ---------------------------------------------------------------------
  // Local variables
  // ---------------------------------------------------------------------

  /** How one declaration updates the local variable types: a name seen
      before keeps its old type only when that is strictly wider. */
  function DeclareLocal(target: Target, types: TypeTable, d: VarDecl, vars: map<string, Type>): Result<map<string, Type>, Error> {
    if d.name in vars then
      var ow :- WidthOf(target, types, vars[d.name]);
      var nw :- WidthOf(target, types, d.ty);
      Ok(vars[d.name := if ow > nw then vars[d.name] else d.ty])
    else Ok(vars[d.name := d.ty])
  }

  /** extractLocalVariableTypes: the declarations of a block, of both
      branches of a conditional, of a for loop's declaration and body and of
      a while loop's body. */
  function LocalVariableTypes(target: Target, types: TypeTable, ss: seq<Stmt>, vars: map<string, Type>): Result<map<string, Type>, Error>
    decreases ss
  {
    if ss == [] then Ok(vars)
    else
      var vars' :- StmtLocals(target, types, ss[0], vars);
      LocalVariableTypes(target, types, ss[1..], vars')
  }

  function StmtLocals(target: Target, types: TypeTable, s: Stmt, vars: map<string, Type>): Result<map<string, Type>, Error>
    decreases s
  {
    match s
    case Declare(d) => DeclareLocal(target, types, d, vars)
    case IfElse(_, t, f) =>
      var vars' :- LocalVariableTypes(target, types, t, vars);
      LocalVariableTypes(target, types, f, vars')
    case For(d, _, _, body) =>
      var vars' :- DeclareLocal(target, types, d, vars);
      LocalVariableTypes(target, types, body, vars')
    case While(_, body) => LocalVariableTypes(target, types, body, vars)
    case _ => Ok(vars)
  }

  /** The declarations that extractLocalVariableTypes visits, in order. */
  function Declarations(ss: seq<Stmt>): seq<VarDecl>
    decreases ss
  {
    if ss == [] then [] else StmtDeclarations(ss[0]) + Declarations(ss[1..])
  }

  function StmtDeclarations(s: Stmt): seq<VarDecl>
    decreases s
  {
    match s
    case Declare(d) => [d]
    case IfElse(_, t, f) => Declarations(t) + Declarations(f)
    case For(d, _, _, body) => [d] + Declarations(body)
    case While(_, body) => Declarations(body)
    case _ => []
  }

  /** What extractLocalVariableTypes promises: every declared name gets a
      type, that type is one of the types it was declared with, and it is
      at least as wide as each of them. */
  predicate KeepsWidest(target: Target, types: TypeTable, ds: seq<VarDecl>, vars: map<string, Type>, r: map<string, Type>) {
    (forall k | k in vars :: k in r && SlotWidth(target, types, r[k]) >= SlotWidth(target, types, vars[k])) &&
    (forall d | d in ds :: d.name in r && SlotWidth(target, types, r[d.name]) >= SlotWidth(target, types, d.ty)) &&
    (forall k | k in r :: (k in vars && r[k] == vars[k]) || exists d | d in ds :: d.name == k && d.ty == r[k])
  }

  lemma DeclareLocalKeepsWidest(target: Target, types: TypeTable, d: VarDecl, vars: map<string, Type>)
    requires DeclareLocal(target, types, d, vars).Ok?
    ensures KeepsWidest(target, types, [d], vars, DeclareLocal(target, types, d, vars).value)
  {
  }

  lemma KeepsWidestCompose(target: Target, types: TypeTable, d1: seq<VarDecl>, d2: seq<VarDecl>,
                           v0: map<string, Type>, v1: map<string, Type>, v2: map<string, Type>)
    requires KeepsWidest(target, types, d1, v0, v1) && KeepsWidest(target, types, d2, v1, v2)
    ensures KeepsWidest(target, types, d1 + d2, v0, v2)
  {
    forall k | k in v2 ensures (k in v0 && v2[k] == v0[k]) || exists d | d in d1 + d2 :: d.name == k && d.ty == v2[k] {
      if !(k in v1 && v2[k] == v1[k]) {
        var d :| d in d2 && d.name == k && d.ty == v2[k];
        assert d in d1 + d2;
      } else if !(k in v0 && v1[k] == v0[k]) {
        var d :| d in d1 && d.name == k && d.ty == v1[k];
        assert d in d1 + d2;
      }
    }
  }

  lemma {:induction false} LocalVariableTypesKeepWidest(target: Target, types: TypeTable, ss: seq<Stmt>, vars: map<string, Type>)
    requires LocalVariableTypes(target, types, ss, vars).Ok?
    ensures KeepsWidest(target, types, Declarations(ss), vars, LocalVariableTypes(target, types, ss, vars).value)
    decreases ss
  {
    if ss != [] {
      var v1 := StmtLocals(target, types, ss[0], vars).value;
      StmtLocalsKeepWidest(target, types, ss[0], vars);
      LocalVariableTypesKeepWidest(target, types, ss[1..], v1);
      KeepsWidestCompose(target, types, StmtDeclarations(ss[0]), Declarations(ss[1..]), vars, v1,
                         LocalVariableTypes(target, types, ss, vars).value);
    }
  }

  lemma {:induction false} StmtLocalsKeepWidest(target: Target, types: TypeTable, s: Stmt, vars: map<string, Type>)
    requires StmtLocals(target, types, s, vars).Ok?
    ensures KeepsWidest(target, types, StmtDeclarations(s), vars, StmtLocals(target, types, s, vars).value)
    decreases s
  {
    match s
    case Declare(d) => DeclareLocalKeepsWidest(target, types, d, vars);
    case IfElse(_, t, f) =>
      var v1 := LocalVariableTypes(target, types, t, vars).value;
      LocalVariableTypesKeepWidest(target, types, t, vars);
      LocalVariableTypesKeepWidest(target, types, f, v1);
      KeepsWidestCompose(target, types, Declarations(t), Declarations(f), vars, v1, StmtLocals(target, types, s, vars).value);
    case For(d, _, _, body) =>
      var v1 := DeclareLocal(target, types, d, vars).value;
      DeclareLocalKeepsWidest(target, types, d, vars);
      LocalVariableTypesKeepWidest(target, types, body, v1);
      KeepsWidestCompose(target, types, [d], Declarations(body), vars, v1, StmtLocals(target, types, s, vars).value);
    case While(_, body) => LocalVariableTypesKeepWidest(target, types, body, vars);
    case _ =>
  }

  /** The locals loop of allocateStackFrame, visiting the names in `order`
      (the iteration order of the map, which the model leaves open): each
      local gets the slot just below those already placed. */
  function LocalsLayout(target: Target, types: TypeTable, vars: map<string, Type>, order: seq<string>,
                        count: nat, frame: Frame): Result<(Frame, nat), Error>
    requires forall i | 0 <= i < |order| :: order[i] in vars
    decreases |order|
  {
    if order == [] then Ok((frame, count))
    else
      var w :- WidthOf(target, types, vars[order[0]]);
      LocalsLayout(target, types, vars, order[1..], count + w, frame[order[0] := -(count + w)])
  }

  /** The sum of the local widths, in the order given. */
  function LocalsWidth(target: Target, types: TypeTable, vars: map<string, Type>, order: seq<string>): Result<nat, Error>
    requires forall i | 0 <= i < |order| :: order[i] in vars
    decreases |order|
  {
    if order == [] then Ok(0)
    else
      var w :- WidthOf(target, types, vars[order[0]]);
      var rest :- LocalsWidth(target, types, vars, order[1..]);
      Ok(w + rest)
  }

  predicate Distinct(order: seq<string>) {
    forall i, j | 0 <= i < j < |order| :: order[i] != order[j]
  }

  lemma DistinctTail(order: seq<string>)
    requires order != [] && Distinct(order)
    ensures Distinct(order[1..]) && order[0] !in order[1..]
    ensures forall k | k in order :: k == order[0] || k in order[1..]
    ensures forall k | k in order[1..] :: k in order
  {
    forall i, j | 0 <= i < j < |order[1..]| ensures order[1..][i] != order[1..][j] {
      assert order[1..][i] == order[i + 1] && order[1..][j] == order[j + 1];
    }
    forall j | 0 <= j < |order[1..]| ensures order[1..][j] != order[0] {
      assert order[1..][j] == order[j + 1];
    }
    forall k | k in order ensures k == order[0] || k in order[1..] {
      var i :| 0 <= i < |order| && order[i] == k;
      if i > 0 { assert order[1..][i - 1] == k; }
    }
  }

  /** The locals loop ends with the count grown by the width of all locals. */
  lemma {:induction false} LocalsLayoutCount(target: Target, types: TypeTable, vars: map<string, Type>, order: seq<string>,
                                             count: nat, frame: Frame)
    requires forall i | 0 <= i < |order| :: order[i] in vars
    ensures LocalsLayout(target, types, vars, order, count, frame).Ok? <==> LocalsWidth(target, types, vars, order).Ok?
    ensures LocalsLayout(target, types, vars, order, count, frame).Ok? ==>
      LocalsLayout(target, types, vars, order, count, frame).value.1 == count + LocalsWidth(target, types, vars, order).value
    decreases |order|
  {
    if order != [] {
      var k0 := order[0];
      var w := SlotWidth(target, types, vars[k0]);
      LocalsLayoutCount(target, types, vars, order[1..], count + w, frame[k0 := -(count + w)]);
    }
  }

  /** The locals occupy disjoint slots below `-count` and above the final
      count; names not placed keep their offsets. */
  lemma LocalsLayoutSlots(target: Target, types: TypeTable, vars: map<string, Type>, order: seq<string>,
                          count: nat, frame: Frame)
    requires forall i | 0 <= i < |order| :: order[i] in vars
    requires Distinct(order)
    requires LocalsLayout(target, types, vars, order, count, frame).Ok?
    ensures
      var (f, n) := LocalsLayout(target, types, vars, order, count, frame).value;
      (forall k | k in frame :: k in f) &&
      (forall k | k in f :: k in frame || k in order) &&
      (forall k | k in frame && k !in order :: f[k] == frame[k]) &&
      (forall k | k in order :: k in f && -(n as int) <= f[k] && f[k] + SlotWidth(target, types, vars[k]) <= -(count as int)) &&
      (forall k1, k2 | k1 in order && k2 in order && k1 != k2 ::
        f[k1] + SlotWidth(target, types, vars[k1]) <= f[k2] || f[k2] + SlotWidth(target, types, vars[k2]) <= f[k1])
  {
    LocalsLayoutNames(target, types, vars, order, count, frame);
    LocalsLayoutBounds(target, types, vars, order, count, frame);
    LocalsLayoutDisjoint(target, types, vars, order, count, frame);
  }

  /** One step of the locals loop: the first local is placed below the
      count grown by its width, and the loop goes on with the rest. */
  lemma LocalsLayoutStep(target: Target, types: TypeTable, vars: map<string, Type>, order: seq<string>,
                         count: nat, frame: Frame) returns (w: nat)
    requires order != [] && forall i | 0 <= i < |order| :: order[i] in vars
    requires LocalsLayout(target, types, vars, order, count, frame).Ok?
    ensures w == SlotWidth(target, types, vars[order[0]])
    ensures forall i | 0 <= i < |order[1..]| :: order[1..][i] in vars
    ensures LocalsLayout(target, types, vars, order, count, frame) ==
      LocalsLayout(target, types, vars, order[1..], count + w, frame[order[0] := -(count + w)])
  {
    w := SlotWidth(target, types, vars[order[0]]);
  }

  /** The locals loop adds the locals to the frame and changes no other name. */
  lemma {:induction false} LocalsLayoutNames(target: Target, types: TypeTable, vars: map<string, Type>, order: seq<string>,
                                             count: nat, frame: Frame)
    requires forall i | 0 <= i < |order| :: order[i] in vars
    requires Distinct(order)
    requires LocalsLayout(target, types, vars, order, count, frame).Ok?
    ensures
      var f := LocalsLayout(target, types, vars, order, count, frame).value.0;
      (forall k | k in frame :: k in f) &&
      (forall k | k in f :: k in frame || k in order) &&
      (forall k | k in frame && k !in order :: f[k] == frame[k])
    decreases |order|
  {
    if order != [] {
      var k0 := order[0];
      var w := LocalsLayoutStep(target, types, vars, order, count, frame);
      var frame' := frame[k0 := -(count + w)];
      DistinctTail(order);
      LocalsLayoutNames(target, types, vars, order[1..], count + w, frame');
    }
  }

  /** Each local lies below `-count` and above the final count. */
  lemma {:induction false} LocalsLayoutBounds(target: Target, types: TypeTable, vars: map<string, Type>, order: seq<string>,
                                             count: nat, frame: Frame)
    requires forall i | 0 <= i < |order| :: order[i] in vars
    requires Distinct(order)
    requires LocalsLayout(target, types, vars, order, count, frame).Ok?
    ensures
      var (f, n) := LocalsLayout(target, types, vars, order, count, frame).value;
      forall k | k in order :: k in f && -(n as int) <= f[k] && f[k] + SlotWidth(target, types, vars[k]) <= -(count as int)
    decreases |order|
  {
    if order != [] {
      var k0 := order[0];
      var w := LocalsLayoutStep(target, types, vars, order, count, frame);
      var frame' := frame[k0 := -(count + w)];
      DistinctTail(order);
      LocalsLayoutNames(target, types, vars, order[1..], count + w, frame');
      LocalsLayoutBounds(target, types, vars, order[1..], count + w, frame');
    }
  }

  /** No two locals overlap. */
  lemma {:induction false} LocalsLayoutDisjoint(target: Target, types: TypeTable, vars: map<string, Type>, order: seq<string>,
                                             count: nat, frame: Frame)
    requires forall i | 0 <= i < |order| :: order[i] in vars
    requires Distinct(order)
    requires LocalsLayout(target, types, vars, order, count, frame).Ok?
    ensures
      var f := LocalsLayout(target, types, vars, order, count, frame).value.0;
      (forall k | k in order :: k in f) &&
      forall k1, k2 | k1 in order && k2 in order && k1 != k2 ::
        f[k1] + SlotWidth(target, types, vars[k1]) <= f[k2] || f[k2] + SlotWidth(target, types, vars[k2]) <= f[k1]
    decreases |order|
  {
    if order != [] {
      var k0 := order[0];
      var w := LocalsLayoutStep(target, types, vars, order, count, frame);
      var frame' := frame[k0 := -(count + w)];
      DistinctTail(order);
      LocalsLayoutNames(target, types, vars, order[1..], count + w, frame');
      LocalsLayoutBounds(target, types, vars, order[1..], count + w, frame');
      LocalsLayoutDisjoint(target, types, vars, order[1..], count + w, frame');
      var f := LocalsLayout(target, types, vars, order, count, frame).value.0;
      assert order == [k0] + order[1..];
      SlotsDisjointStep(target, types, vars, f, k0, order[1..], -(count + w));
    }
  }

  /** A slot placed at `top`, above slots that end at or below it and do
      not overlap each other, overlaps none of them. */
  lemma SlotsDisjointStep(target: Target, types: TypeTable, vars: map<string, Type>, f: Frame,
                          k0: string, rest: seq<string>, top: int)
    requires k0 in vars && k0 in f && f[k0] == top
    requires forall i | 0 <= i < |rest| :: rest[i] in vars
    requires forall k | k in rest :: k in f && f[k] + SlotWidth(target, types, vars[k]) <= top
    requires forall k1, k2 | k1 in rest && k2 in rest && k1 != k2 ::
      f[k1] + SlotWidth(target, types, vars[k1]) <= f[k2] || f[k2] + SlotWidth(target, types, vars[k2]) <= f[k1]
    ensures forall k1, k2 | k1 in [k0] + rest && k2 in [k0] + rest && k1 != k2 ::
      k1 in f && k2 in f &&
      (f[k1] + SlotWidth(target, types, vars[k1]) <= f[k2] || f[k2] + SlotWidth(target, types, vars[k2]) <= f[k1])
  {
  }

  lemma {:induction false} LocalsWidthAppend(target: Target, types: TypeTable, vars: map<string, Type>, a: seq<string>, b: seq<string>)
    requires forall i | 0 <= i < |a| :: a[i] in vars
    requires forall i | 0 <= i < |b| :: b[i] in vars
    ensures forall i | 0 <= i < |a + b| :: (a + b)[i] in vars
    ensures LocalsWidth(target, types, vars, a + b).Ok? <==>
            LocalsWidth(target, types, vars, a).Ok? && LocalsWidth(target, types, vars, b).Ok?
    ensures LocalsWidth(target, types, vars, a + b).Ok? ==>
            LocalsWidth(target, types, vars, a + b).value ==
            LocalsWidth(target, types, vars, a).value + LocalsWidth(target, types, vars, b).value
    decreases |a|
  {
    assert forall i | 0 <= i < |a + b| :: (a + b)[i] in vars by {
      forall i | 0 <= i < |a + b| ensures (a + b)[i] in vars {
        if i < |a| { assert (a + b)[i] == a[i]; } else { assert (a + b)[i] == b[i - |a|]; }
      }
    }
    if a != [] {
      assert (a + b)[1..] == a[1..] + b;
      assert (a + b)[0] == a[0];
      LocalsWidthAppend(target, types, vars, a[1..], b);
    } else {
      assert a + b == b;
    }
  }

  /** The space the locals take does not depend on the map's iteration
      order: any two orders listing the same names give the same width. */
  lemma {:induction false} LocalsWidthPermutation(target: Target, types: TypeTable, vars: map<string, Type>, a: seq<string>, b: seq<string>)
    requires forall i | 0 <= i < |a| :: a[i] in vars
    requires multiset(a) == multiset(b)
    ensures forall i | 0 <= i < |b| :: b[i] in vars
    ensures LocalsWidth(target, types, vars, a).Ok? <==> LocalsWidth(target, types, vars, b).Ok?
    ensures LocalsWidth(target, types, vars, a).Ok? ==>
            LocalsWidth(target, types, vars, a).value == LocalsWidth(target, types, vars, b).value
    decreases |a|
  {
    assert forall i | 0 <= i < |b| :: b[i] in vars by {
      forall i | 0 <= i < |b| ensures b[i] in vars {
        assert b[i] in multiset(a);
        var j :| 0 <= j < |a| && a[j] == b[i];
      }
    }
    if a == [] {
      assert |b| == |multiset(b)| == 0;
    } else {
      var k := MatchHead(a, b);
      var x, lo, hi := a[0], b[..k], b[k + 1..];
      assert forall i | 0 <= i < |lo| :: lo[i] in vars by {
        forall i | 0 <= i < |lo| ensures lo[i] in vars { assert lo[i] == b[i]; }
      }
      assert forall i | 0 <= i < |hi| :: hi[i] in vars by {
        forall i | 0 <= i < |hi| ensures hi[i] in vars { assert hi[i] == b[k + 1 + i]; }
      }
      LocalsWidthAppend(target, types, vars, lo, hi);
      LocalsWidthPermutation(target, types, vars, a[1..], lo + hi);
      LocalsWidthAppend(target, types, vars, [x], hi);
      LocalsWidthAppend(target, types, vars, lo, [x] + hi);
      assert a == [x] + a[1..];
      LocalsWidthAppend(target, types, vars, [x], a[1..]);
    }
  }

  // ---------------------------------------------------------------------
  // The whole frame
  // ---------------------------------------------------------------------

  /** Whether `order` names only locals that extractLocalVariableTypes finds
      in `fd`: the iteration order of that map, which the model leaves open. */
  predicate OrderFits(target: Target, types: TypeTable, fd: FunDecl, order: seq<string>) {
    LocalVariableTypes(target, types, fd.body, map[]).Ok? ==>
      forall i | 0 <= i < |order| :: order[i] in LocalVariableTypes(target, types, fd.body, map[]).value
  }

  /** The return slot "$" just below the parameters, when the function
      returns a value. */
  function ReturnSlot(target: Target, types: TypeTable, fd: FunDecl, frame: Frame, offset: int): Result<Frame, Error> {
    if fd.ret.Void? then Ok(frame)
    else
      var rw :- WidthOf(target, types, fd.ret);
      Ok(frame["$" := offset - rw])
  }

  /** The parameter part of allocateStackFrame: the parameters bound
      downwards from the top of the caller's area plus the two linkage
      words, then the return slot. */
  function ParameterFrame(target: Target, types: TypeTable, fd: FunDecl): Result<Frame, Error> {
    var a :- CallerEnvironmentAlignedWidth(target, types, fd);
    var bound :- BindParameters(target, types, fd.parameters, a + 2 * target.WidthInBytes(), map[]);
    ReturnSlot(target, types, fd, bound.0, bound.1)
  }

  /** allocateStackFrame: the parameter frame, then the locals below the
      frame pointer; the result is the frame and the aligned size of the
      locals area. */
  function StackFrame(target: Target, types: TypeTable, fd: FunDecl, order: seq<string>): Result<(Frame, nat), Error>
    requires OrderFits(target, types, fd, order)
  {
    var withReturn :- ParameterFrame(target, types, fd);
    var vars :- LocalVariableTypes(target, types, fd.body, map[]);
    var locals :- LocalsLayout(target, types, vars, order, 0, withReturn);
    Ok((locals.0, AlignedStackWidth(target, locals.1)))
  }

  /** Parameters and the return slot sit where the caller stored the
      arguments and reserved the result, at or above the two linkage words;
      the parameter frame holds no other name. */
  lemma ParameterFrameSlots(target: Target, types: TypeTable, fd: FunDecl)
    requires ParameterFrame(target, types, fd).Ok?
    requires DistinctParameters(fd.parameters)
    ensures
      var f := ParameterFrame(target, types, fd).value;
      var a := CallerEnvironmentAlignedWidth(target, types, fd).value;
      var w := target.WidthInBytes();
      var ps := fd.parameters;
      var os := ParameterOffsets(target, types, ps, a + 2 * w);
      os.Ok? && |os.value| == |ps| &&
      (forall i | 0 <= i < |ps| && ps[i].name != "$" ::
        ps[i].name in f && f[ps[i].name] == os.value[i] &&
        2 * w <= os.value[i] && os.value[i] + SlotWidth(target, types, ps[i].ty) <= a + 2 * w) &&
      (!fd.ret.Void? ==>
        "$" in f && f["$"] == a + 2 * w - CallerEnvironmentWidth(target, types, fd).value && 2 * w <= f["$"]) &&
      (forall k | k in f :: k == "$" || exists i | 0 <= i < |ps| :: ps[i].name == k)
  {
    ParameterSlotsPlaced(target, types, fd);
    ReturnSlotPlaced(target, types, fd);
    ParameterFrameNames(target, types, fd);
  }

  /** Each parameter other than "$" is bound to the slot the caller fills. */
  lemma ParameterSlotsPlaced(target: Target, types: TypeTable, fd: FunDecl)
    requires ParameterFrame(target, types, fd).Ok?
    requires DistinctParameters(fd.parameters)
    ensures
      var f := ParameterFrame(target, types, fd).value;
      var a := CallerEnvironmentAlignedWidth(target, types, fd).value;
      var w := target.WidthInBytes();
      var ps := fd.parameters;
      var os := ParameterOffsets(target, types, ps, a + 2 * w);
      os.Ok? && |os.value| == |ps| &&
      (forall i | 0 <= i < |ps| && ps[i].name != "$" ::
        ps[i].name in f && f[ps[i].name] == os.value[i] &&
        2 * w <= os.value[i] && os.value[i] + SlotWidth(target, types, ps[i].ty) <= a + 2 * w)
  {
    var a := CallerEnvironmentAlignedWidth(target, types, fd).value;
    var w := target.WidthInBytes();
    BindParametersSlots(target, types, fd.parameters, a + 2 * w, map[]);
    CalleeSlotsInside(target, types, fd);
    var bound := BindParameters(target, types, fd.parameters, a + 2 * w, map[]).value;
    assert ParameterFrame(target, types, fd) == ReturnSlot(target, types, fd, bound.0, bound.1);
    ReturnSlotKeeps(target, types, fd, bound.0, bound.1);
  }

  /** The parameter slots, seen from the callee's frame pointer, lie above
      the two linkage words and inside the area the caller reserved. */
  lemma CalleeSlotsInside(target: Target, types: TypeTable, fd: FunDecl)
    requires CallerEnvironmentAlignedWidth(target, types, fd).Ok?
    ensures
      var a := CallerEnvironmentAlignedWidth(target, types, fd).value;
      var w := target.WidthInBytes();
      var os := ParameterOffsets(target, types, fd.parameters, a + 2 * w);
      os.Ok? && |os.value| == |fd.parameters| &&
      forall i | 0 <= i < |fd.parameters| ::
        2 * w <= os.value[i] && os.value[i] + SlotWidth(target, types, fd.parameters[i].ty) <= a + 2 * w
  {
    CallerCalleeAgree(target, types, fd, 0);
  }

  /** Adding the return slot changes no name but "$". */
  lemma ReturnSlotKeeps(target: Target, types: TypeTable, fd: FunDecl, frame: Frame, offset: int)
    requires ReturnSlot(target, types, fd, frame, offset).Ok?
    ensures var r := ReturnSlot(target, types, fd, frame, offset).value;
      forall k | k != "$" :: (k in r <==> k in frame) && (k in frame ==> r[k] == frame[k])
  {
  }

  /** The return slot "$" lies just below the parameters, above the
      linkage words. */
  lemma ReturnSlotPlaced(target: Target, types: TypeTable, fd: FunDecl)
    requires ParameterFrame(target, types, fd).Ok?
    requires DistinctParameters(fd.parameters)
    ensures
      var f := ParameterFrame(target, types, fd).value;
      var a := CallerEnvironmentAlignedWidth(target, types, fd).value;
      var w := target.WidthInBytes();
      !fd.ret.Void? ==>
        "$" in f && f["$"] == a + 2 * w - CallerEnvironmentWidth(target, types, fd).value && 2 * w <= f["$"]
  {
    var a := CallerEnvironmentAlignedWidth(target, types, fd).value;
    var w := target.WidthInBytes();
    BindParametersSlots(target, types, fd.parameters, a + 2 * w, map[]);
    CallerCalleeAgree(target, types, fd, 0);
  }

  /** The parameter frame holds the parameters and "$" and nothing else. */
  lemma ParameterFrameNames(target: Target, types: TypeTable, fd: FunDecl)
    requires ParameterFrame(target, types, fd).Ok?
    requires DistinctParameters(fd.parameters)
    ensures
      var f := ParameterFrame(target, types, fd).value;
      forall k | k in f :: k == "$" || exists i | 0 <= i < |fd.parameters| :: fd.parameters[i].name == k
  {
    var a := CallerEnvironmentAlignedWidth(target, types, fd).value;
    var w := target.WidthInBytes();
    BindParametersSlots(target, types, fd.parameters, a + 2 * w, map[]);
  }

  /** Every local sits in its own slot below the frame pointer, inside the
      area the returned size reserves, and overrides what the parameter
      frame held under its name; the frame holds no other name. */
  lemma StackFrameLocals(target: Target, types: TypeTable, fd: FunDecl, order: seq<string>)
    requires OrderFits(target, types, fd, order)
    requires StackFrame(target, types, fd, order).Ok?
    requires Distinct(order)
    requires forall k | k in LocalVariableTypes(target, types, fd.body, map[]).value :: k in order
    ensures
      var (f, size) := StackFrame(target, types, fd, order).value;
      var pf := ParameterFrame(target, types, fd).value;
      var vars := LocalVariableTypes(target, types, fd.body, map[]).value;
      (forall k | k in vars :: k in f && -(size as int) <= f[k] && f[k] + SlotWidth(target, types, vars[k]) <= 0) &&
      (forall k1, k2 | k1 in vars && k2 in vars && k1 != k2 ::
        f[k1] + SlotWidth(target, types, vars[k1]) <= f[k2] || f[k2] + SlotWidth(target, types, vars[k2]) <= f[k1]) &&
      (forall k | k in pf && k !in vars :: k in f && f[k] == pf[k]) &&
      (forall k | k in f :: k in vars || k in pf) &&
      LocalsWidth(target, types, vars, order).Ok? &&
      size == AlignedStackWidth(target, LocalsWidth(target, types, vars, order).value)
  {
    var pf := ParameterFrame(target, types, fd).value;
    var vars := LocalVariableTypes(target, types, fd.body, map[]).value;
    assert forall i | 0 <= i < |order| :: order[i] in vars;
    var layout := LocalsLayout(target, types, vars, order, 0, pf);
    assert StackFrame(target, types, fd, order).value == (layout.value.0, AlignedStackWidth(target, layout.value.1));
    LocalsPlaced(target, types, vars, order, pf);
  }

  lemma LocalsPlaced(target: Target, types: TypeTable, vars: map<string, Type>, order: seq<string>, pf: Frame)
    requires forall i | 0 <= i < |order| :: order[i] in vars
    requires Distinct(order) && forall k | k in vars :: k in order
    requires LocalsLayout(target, types, vars, order, 0, pf).Ok?
    ensures
      var (f, n) := LocalsLayout(target, types, vars, order, 0, pf).value;
      var size := AlignedStackWidth(target, n);
      (forall k | k in vars :: k in f && -(size as int) <= f[k] && f[k] + SlotWidth(target, types, vars[k]) <= 0) &&
      (forall k1, k2 | k1 in vars && k2 in vars && k1 != k2 ::
        f[k1] + SlotWidth(target, types, vars[k1]) <= f[k2] || f[k2] + SlotWidth(target, types, vars[k2]) <= f[k1]) &&
      (forall k | k in pf && k !in vars :: k in f && f[k] == pf[k]) &&
      (forall k | k in f :: k in vars || k in pf) &&
      LocalsWidth(target, types, vars, order).Ok? &&
      size == AlignedStackWidth(target, LocalsWidth(target, types, vars, order).value)
  {
    LocalsLayoutSlots(target, types, vars, order, 0, pf);
    LocalsLayoutCount(target, types, vars, order, 0, pf);
  }

  /** The size of the locals area does not depend on the order in which the
      locals are visited. */
  lemma StackFrameSizeIndependentOfOrder(target: Target, types: TypeTable, fd: FunDecl, a: seq<string>, b: seq<string>)
    requires OrderFits(target, types, fd, a) && OrderFits(target, types, fd, b)
    requires multiset(a) == multiset(b)
    ensures StackFrame(target, types, fd, a).Ok? <==> StackFrame(target, types, fd, b).Ok?
    ensures StackFrame(target, types, fd, a).Ok? ==> StackFrame(target, types, fd, a).value.1 == StackFrame(target, types, fd, b).value.1
  {
    var pf := ParameterFrame(target, types, fd);
    var lv := LocalVariableTypes(target, types, fd.body, map[]);
    if pf.Ok? && lv.Ok? {
      var vars := lv.value;
      assert forall i | 0 <= i < |a| :: a[i] in vars;
      assert forall i | 0 <= i < |b| :: b[i] in vars;
      LocalsLayoutCount(target, types, vars, a, 0, pf.value);
      LocalsLayoutCount(target, types, vars, b, 0, pf.value);
      LocalsWidthPermutation(target, types, vars, a, b);
    }
  }
}
