/** The typing rules of the While type checker. Checking an expression
    yields its type and the expression with a type attribute on every node
    it checks; checking statements threads the environment of declared
    variables, which loop bodies and branches extend in place. */
module TypeChecker {
  import opened Wrappers
  import opened Errors
  import opened Syntax
  import opened Layout
  import opened TypeRelations

  const ALREADY_DECLARED := SyntaxError("variable already declared")
  const UNKNOWN_VARIABLE := SyntaxError("unknown variable encountered")
  const NOT_IDENTICAL := SyntaxError("operands must have identical types")
  const ARGUMENT_COUNT := SyntaxError("incorrect number of arguments to function")
  const NO_SUCH_FIELD := SyntaxError("expected type to contain field")
  const UNKNOWN_FUNCTION := NullPointer("no declaration for the invoked function")
  const UNKNOWN_STATEMENT := InternalFailure("unknown statement encountered")

  /** The declared variables and their types. */
  type Env = map<string, Type>

  /** The declarations a check can see: functions and named types, and the
      return type of the function being checked. */
  datatype Context = Context(functions: map<string, FunDecl>, types: TypeTable, ret: Type)

  /** A checked expression: the expression with its attributes, and its type. */
  datatype Typed = Typed(expr: Expr, ty: Type)

  /** A checked record initialiser and the type of its value. */
  datatype TypedInit = TypedInit(init: FieldInit, ty: Type)

  /** The expression with every type attribute removed. Checking changes
      nothing else. */
  function Bare(e: Expr): Expr
    decreases e
  {
    match e
    case Binary(op, lhs, rhs, _) => Binary(op, Bare(lhs), Bare(rhs), None)
    case Cast(t, source, _) => Cast(t, Bare(source), None)
    case Constant(v, _) => Constant(v, None)
    case IndexOf(source, index, _) => IndexOf(Bare(source), Bare(index), None)
    case Invoke(name, args, _) => Invoke(name, BareAll(args), None)
    case ListConstructor(args, _) => ListConstructor(BareAll(args), None)
    case RecordAccess(source, field, _) => RecordAccess(Bare(source), field, None)
    case RecordConstructor(inits, _) => RecordConstructor(BareInits(inits), None)
    case Unary(op, operand, _) => Unary(op, Bare(operand), None)
    case Variable(name, _) => Variable(name, None)
  }

  function BareAll(es: seq<Expr>): (r: seq<Expr>)
    ensures |r| == |es|
    decreases es
  {
    if es == [] then [] else [Bare(es[0])] + BareAll(es[1..])
  }

  function BareInits(inits: seq<FieldInit>): (r: seq<FieldInit>)
    ensures |r| == |inits|
    decreases inits
  {
    if inits == [] then [] else [FieldInit(inits[0].name, Bare(inits[0].value))] + BareInits(inits[1..])
  }

  /** The types literal constants have. */
  function LiteralType(v: Literal): Type {
    match v
    case NullLit => Null
    case BoolLit(_) => Bool
    case CharLit(_) => Char
    case IntLit(_) => Int
    case RealLit(_) => Real
    case StringLit(_) => Strung
  }

  /* ---------- Expressions ---------- */

  /** check(Expr): the type of an expression, and the expression with the
      type attribute of each checked node set. */
  function ExprType(ctx: Context, env: Env, e: Expr): (r: Result<Typed, Error>)
    ensures r.Ok? ==> r.value.expr.attr == Some(r.value.ty)
    ensures r.Ok? ==> Bare(r.value.expr) == Bare(e)
    decreases e, 2
  {
    var t :- match e
      case Binary(_, _, _, _) => BinaryType(ctx, env, e)
      case Cast(_, _, _) => CastType(ctx, env, e)
      case Constant(v, _) => Ok(Typed(e, LiteralType(v)))
      case IndexOf(_, _, _) => IndexOfType(ctx, env, e)
      case Invoke(_, _, _) => InvokeType(ctx, env, e)
      case ListConstructor(_, _) => ListType(ctx, env, e)
      case RecordAccess(_, _, _) => RecordAccessType(ctx, env, e)
      case RecordConstructor(_, _) => RecordType(ctx, env, e)
      case Unary(_, _, _) => UnaryType(ctx, env, e)
      case Variable(name, _) => if name in env then Ok(Typed(e, env[name])) else Err(UNKNOWN_VARIABLE);
    Ok(Typed(t.expr.WithType(t.ty), t.ty))
  }

  /** The operand requirements and result type of a binary operator. */
  function OperatorType(types: TypeTable, op: BOp, lt: Type, rt: Type): (r: Result<Type, Error>)
    ensures r.Ok? && op != APPEND ==> Equivalent(types, lt, rt) == Ok(true)
    ensures r.Ok? && op in {EQ, NEQ, LT, LTEQ, GT, GTEQ} ==> r.value == Bool
    ensures r.Ok? && op in {AND, OR, ADD, SUB, MUL, DIV, REM} ==> r.value == lt
    ensures r.Ok? && op in {ADD, SUB, MUL, DIV, REM, LT, LTEQ, GT, GTEQ} ==>
      CheckInstanceOf(types, lt, {IntKind, RealKind}).Ok?
    ensures r.Ok? && op in {AND, OR} ==> Subtype(types, Bool, lt) == Ok(true) && Subtype(types, Bool, rt) == Ok(true)
  {
    var _ :- if op != APPEND then SameType(types, lt, rt) else Ok(());
    match op
    case AND | OR =>
      var _ :- CheckSubtype(types, Bool, lt);
      var _ :- CheckSubtype(types, Bool, rt);
      Ok(lt)
    case ADD | SUB | MUL | DIV | REM =>
      var _ :- CheckInstanceOf(types, lt, {IntKind, RealKind});
      Ok(lt)
    case EQ | NEQ => Ok(Bool)
    case LT | LTEQ | GT | GTEQ =>
      var _ :- CheckInstanceOf(types, lt, {IntKind, RealKind});
      Ok(Bool)
    case APPEND =>
      var l :- CheckInstanceOf(types, lt, {ListKind, StrungKind});
      var r :- CheckInstanceOf(types, rt, {ListKind, StrungKind});
      var same :- Equivalent(types, l, r);
      Ok(if same then l else Union([l, r]))
  }

  function SameType(types: TypeTable, lt: Type, rt: Type): (r: Result<(), Error>)
    ensures r.Ok? <==> Equivalent(types, lt, rt) == Ok(true)
  {
    var same :- Equivalent(types, lt, rt);
    if same then Ok(()) else Err(NOT_IDENTICAL)
  }

  /** A binary expression: both operands, then the operator's rule on their types. */
  function BinaryType(ctx: Context, env: Env, e: Expr): (r: Result<Typed, Error>)
    requires e.Binary?
    ensures r.Ok? ==> Bare(r.value.expr) == Bare(e)
    decreases e, 1
  {
    var l :- ExprType(ctx, env, e.lhs);
    var r :- ExprType(ctx, env, e.rhs);
    var t :- OperatorType(ctx.types, e.op, l.ty, r.ty);
    Ok(Typed(Binary(e.op, l.expr, r.expr, e.attr), t))
  }

  function CastType(ctx: Context, env: Env, e: Expr): (r: Result<Typed, Error>)
    requires e.Cast?
    ensures r.Ok? ==> Bare(r.value.expr) == Bare(e) && r.value.ty == e.castType
    decreases e, 1
  {
    var s :- ExprType(ctx, env, e.source);
    var _ :- CheckCast(ctx.types, e.castType, s.ty);
    Ok(Typed(Cast(e.castType, s.expr, e.attr), e.castType))
  }

  /** An index expression: the index must be an int; a string gives a char, a list its element type. */
  function IndexOfType(ctx: Context, env: Env, e: Expr): (r: Result<Typed, Error>)
    requires e.IndexOf?
    ensures r.Ok? ==> Bare(r.value.expr) == Bare(e)
    decreases e, 1
  {
    var s :- ExprType(ctx, env, e.source);
    var i :- ExprType(ctx, env, e.index);
    var _ :- CheckSubtype(ctx.types, Int, i.ty);
    var st :- CheckInstanceOf(ctx.types, s.ty, {ListKind, StrungKind});
    Ok(Typed(IndexOf(s.expr, i.expr, e.attr), if st.Strung? then Char else st.element))
  }

  /** An invocation: an unknown function is a null dereference; the
      arguments must match the parameters in number and each be a subtype
      of its parameter's type. */
  function InvokeType(ctx: Context, env: Env, e: Expr): (r: Result<Typed, Error>)
    requires e.Invoke?
    ensures r.Ok? ==> Bare(r.value.expr) == Bare(e)
    ensures r.Ok? ==> e.name in ctx.functions && r.value.ty == ctx.functions[e.name].ret
    ensures r.Ok? ==> |e.arguments| == |ctx.functions[e.name].parameters|
    ensures e.name !in ctx.functions ==> r == Err(UNKNOWN_FUNCTION)
    ensures e.name in ctx.functions && |e.arguments| != |ctx.functions[e.name].parameters| ==> r == Err(ARGUMENT_COUNT)
    decreases e, 1
  {
    if e.name !in ctx.functions then Err(UNKNOWN_FUNCTION)
    else
      var fd := ctx.functions[e.name];
      if |e.arguments| != |fd.parameters| then Err(ARGUMENT_COUNT)
      else
        var args :- ArgumentsType(ctx, env, e, fd.parameters, 0);
        Ok(Typed(Invoke(e.name, args, e.attr), fd.ret))
  }

  /** The arguments from the `i`th on, each checked against its parameter. */
  function ArgumentsType(ctx: Context, env: Env, e: Expr, ps: seq<Parameter>, i: nat): (r: Result<seq<Expr>, Error>)
    requires e.Invoke? && |ps| == |e.arguments| && i <= |ps|
    ensures r.Ok? ==> BareAll(r.value) == BareAll(e.arguments[i..])
    decreases e, 0, |ps| - i
  {
    if i == |ps| then Ok([])
    else
      var a :- ExprType(ctx, env, e.arguments[i]);
      var _ :- CheckSubtype(ctx.types, ps[i].ty, a.ty);
      var rest :- ArgumentsType(ctx, env, e, ps, i + 1);
      assert e.arguments[i..] == [e.arguments[i]] + e.arguments[i + 1..];
      Ok([a.expr] + rest)
  }

  /** A list constructor: the list of the element types that remain once
      every type equivalent to a later one is dropped. */
  function ListType(ctx: Context, env: Env, e: Expr): (r: Result<Typed, Error>)
    requires e.ListConstructor?
    ensures r.Ok? ==> Bare(r.value.expr) == Bare(e)
    ensures r.Ok? ==> r.value.ty.List?
    decreases e, 1
  {
    var ts :- ElementsType(ctx, env, e, 0);
    var kept :- Kept(ctx.types, Types(ts), 0);
    Ok(Typed(ListConstructor(Exprs(ts), e.attr), ListOf(kept)))
  }

  function ListOf(kept: seq<Type>): Type {
    if |kept| > 1 then List(Union(kept))
    else if |kept| == 1 then List(kept[0])
    else List(Void)
  }

  function ElementsType(ctx: Context, env: Env, e: Expr, i: nat): (r: Result<seq<Typed>, Error>)
    requires e.ListConstructor? && i <= |e.arguments|
    ensures r.Ok? ==> BareAll(Exprs(r.value)) == BareAll(e.arguments[i..])
    ensures r.Ok? ==> |r.value| == |e.arguments| - i
    decreases e, 0, |e.arguments| - i
  {
    if i == |e.arguments| then Ok([])
    else
      var a :- ExprType(ctx, env, e.arguments[i]);
      var rest :- ElementsType(ctx, env, e, i + 1);
      assert e.arguments[i..] == [e.arguments[i]] + e.arguments[i + 1..];
      assert Exprs([a] + rest) == [a.expr] + Exprs(rest);
      Ok([a] + rest)
  }

  /** Each element of a checked list constructor is its element expression, checked. */
  lemma {:induction false} ElementsTyped(ctx: Context, env: Env, e: Expr, i: nat)
    requires e.ListConstructor? && i <= |e.arguments| && ElementsType(ctx, env, e, i).Ok?
    ensures forall k | 0 <= k < |e.arguments| - i :: ExprType(ctx, env, e.arguments[i + k]) == Ok(ElementsType(ctx, env, e, i).value[k])
    decreases |e.arguments| - i
  {
    if i < |e.arguments| {
      ElementsTyped(ctx, env, e, i + 1);
      var rest := ElementsType(ctx, env, e, i + 1).value;
      assert ElementsType(ctx, env, e, i).value == [ExprType(ctx, env, e.arguments[i]).value] + rest;
    }
  }

  function Exprs(ts: seq<Typed>): (r: seq<Expr>)
    ensures |r| == |ts| && forall i | 0 <= i < |ts| :: r[i] == ts[i].expr
  {
    seq(|ts|, i requires 0 <= i < |ts| => ts[i].expr)
  }

  function Types(ts: seq<Typed>): (r: seq<Type>)
    ensures |r| == |ts| && forall i | 0 <= i < |ts| :: r[i] == ts[i].ty
  {
    seq(|ts|, i requires 0 <= i < |ts| => ts[i].ty)
  }

  /** Whether the `i`th type is equivalent to one after the `j`th. */
  function Subsumed(types: TypeTable, ts: seq<Type>, i: nat, j: nat): Result<bool, Error>
    requires i < |ts|
    decreases |ts| - j
  {
    if j >= |ts| then Ok(false)
    else
      var same :- Equivalent(types, ts[i], ts[j]);
      if same then Ok(true) else Subsumed(types, ts, i, j + 1)
  }

  /** The types from the `i`th on that no later type is equivalent to. */
  function Kept(types: TypeTable, ts: seq<Type>, i: nat): Result<seq<Type>, Error>
    requires i <= |ts|
    decreases |ts| - i
  {
    if i == |ts| then Ok([])
    else
      var subsumed :- Subsumed(types, ts, i, i + 1);
      var rest :- Kept(types, ts, i + 1);
      Ok(if subsumed then rest else [ts[i]] + rest)
  }

  /** A record access: the source must be a record with the field, whose type the access has. */
  function RecordAccessType(ctx: Context, env: Env, e: Expr): (r: Result<Typed, Error>)
    requires e.RecordAccess?
    ensures r.Ok? ==> Bare(r.value.expr) == Bare(e)
    decreases e, 1
  {
    var s :- ExprType(ctx, env, e.source);
    var rec :- CheckInstanceOf(ctx.types, s.ty, {RecordKind});
    match LookupField(rec.fields, e.field)
    case None => Err(NO_SUCH_FIELD)
    case Some(t) => Ok(Typed(RecordAccess(s.expr, e.field, e.attr), t))
  }

  /** A record constructor: the record of its fields' types, a later field of
      the same name replacing an earlier one. */
  function RecordType(ctx: Context, env: Env, e: Expr): (r: Result<Typed, Error>)
    requires e.RecordConstructor?
    ensures r.Ok? ==> Bare(r.value.expr) == Bare(e)
    ensures r.Ok? ==> r.value.ty.Record?
    decreases e, 1
  {
    var tis :- InitsType(ctx, env, e, 0);
    Ok(Typed(RecordConstructor(Inits(tis), e.attr), Record(PutFields([], tis))))
  }

  function InitsType(ctx: Context, env: Env, e: Expr, i: nat): (r: Result<seq<TypedInit>, Error>)
    requires e.RecordConstructor? && i <= |e.inits|
    ensures r.Ok? ==> BareInits(Inits(r.value)) == BareInits(e.inits[i..])
    ensures r.Ok? ==> |r.value| == |e.inits| - i
    decreases e, 0, |e.inits| - i
  {
    if i == |e.inits| then Ok([])
    else
      var v :- ExprType(ctx, env, e.inits[i].value);
      var rest :- InitsType(ctx, env, e, i + 1);
      var ti := TypedInit(FieldInit(e.inits[i].name, v.expr), v.ty);
      assert e.inits[i..] == [e.inits[i]] + e.inits[i + 1..];
      assert Inits([ti] + rest) == [ti.init] + Inits(rest);
      Ok([ti] + rest)
  }

  /** Each checked initialiser keeps its field name and holds its value, checked. */
  lemma {:induction false} InitsTyped(ctx: Context, env: Env, e: Expr, i: nat)
    requires e.RecordConstructor? && i <= |e.inits| && InitsType(ctx, env, e, i).Ok?
    ensures forall k | 0 <= k < |e.inits| - i ::
      var ti := InitsType(ctx, env, e, i).value[k];
      ti.init.name == e.inits[i + k].name && ExprType(ctx, env, e.inits[i + k].value) == Ok(Typed(ti.init.value, ti.ty))
    decreases |e.inits| - i
  {
    if i < |e.inits| {
      InitsTyped(ctx, env, e, i + 1);
      var v := ExprType(ctx, env, e.inits[i].value).value;
      var rest := InitsType(ctx, env, e, i + 1).value;
      assert InitsType(ctx, env, e, i).value == [TypedInit(FieldInit(e.inits[i].name, v.expr), v.ty)] + rest;
    }
  }

  function Inits(tis: seq<TypedInit>): (r: seq<FieldInit>)
    ensures |r| == |tis| && forall i | 0 <= i < |tis| :: r[i] == tis[i].init
  {
    seq(|tis|, i requires 0 <= i < |tis| => tis[i].init)
  }

  function PutFields(fs: seq<Field>, tis: seq<TypedInit>): seq<Field>
    decreases tis
  {
    if tis == [] then fs else PutFields(PutField(fs, tis[0].init.name, tis[0].ty), tis[1..])
  }

  /** A unary expression: negation keeps a numeric type, `!` a boolean one, and a length is an int. */
  function UnaryType(ctx: Context, env: Env, e: Expr): (r: Result<Typed, Error>)
    requires e.Unary?
    ensures r.Ok? ==> Bare(r.value.expr) == Bare(e)
    decreases e, 1
  {
    var t :- ExprType(ctx, env, e.operand);
    var ty :- match e.uop
      case NEG =>
        var _ :- CheckInstanceOf(ctx.types, t.ty, {IntKind, RealKind});
        Ok(t.ty)
      case NOT =>
        var _ :- CheckSubtype(ctx.types, Bool, t.ty);
        Ok(t.ty)
      case LENGTHOF =>
        var _ :- CheckInstanceOf(ctx.types, t.ty, {ListKind, StrungKind});
        Ok(Int);
    Ok(Typed(Unary(e.uop, t.expr, e.attr), ty))
  }

  /* ---------- What an accepted expression promises ---------- */

  /** A binary expression has the type the operator's rule gives its operands' types. */
  lemma BinaryRule(ctx: Context, env: Env, e: Expr)
    requires e.Binary? && ExprType(ctx, env, e).Ok?
    ensures ExprType(ctx, env, e.lhs).Ok? && ExprType(ctx, env, e.rhs).Ok?
    ensures OperatorType(ctx.types, e.op, ExprType(ctx, env, e.lhs).value.ty, ExprType(ctx, env, e.rhs).value.ty)
      == Ok(ExprType(ctx, env, e).value.ty)
  {
  }

  /** A cast has the type it names, and its source may be cast to it. */
  lemma CastRule(ctx: Context, env: Env, e: Expr)
    requires e.Cast? && ExprType(ctx, env, e).Ok?
    ensures ExprType(ctx, env, e).value.ty == e.castType
    ensures ExprType(ctx, env, e.source).Ok? && CheckCast(ctx.types, e.castType, ExprType(ctx, env, e.source).value.ty).Ok?
  {
  }

  /** The index is an int; indexing a string gives a char, indexing a list its element type. */
  lemma IndexOfRule(ctx: Context, env: Env, e: Expr)
    requires e.IndexOf? && ExprType(ctx, env, e).Ok?
    ensures ExprType(ctx, env, e.index).Ok? && Subtype(ctx.types, Int, ExprType(ctx, env, e.index).value.ty) == Ok(true)
    ensures ExprType(ctx, env, e.source).Ok?
    ensures ExprType(ctx, env, e.source).value.ty == Strung ==> ExprType(ctx, env, e).value.ty == Char
    ensures ExprType(ctx, env, e.source).value.ty.List? ==>
      ExprType(ctx, env, e).value.ty == ExprType(ctx, env, e.source).value.ty.element
  {
  }

  /** Each argument from the `i`th on is a subtype of its parameter. */
  lemma {:induction false} ArgumentsTyped(ctx: Context, env: Env, e: Expr, ps: seq<Parameter>, i: nat)
    requires e.Invoke? && |ps| == |e.arguments| && i <= |ps| && ArgumentsType(ctx, env, e, ps, i).Ok?
    ensures forall k | i <= k < |ps| ::
      ExprType(ctx, env, e.arguments[k]).Ok? && Subtype(ctx.types, ps[k].ty, ExprType(ctx, env, e.arguments[k]).value.ty) == Ok(true)
    decreases |ps| - i
  {
    if i < |ps| {
      ArgumentsTyped(ctx, env, e, ps, i + 1);
    }
  }

  /** A call has its function's return type, and each argument is a subtype of its parameter. */
  lemma InvokeRule(ctx: Context, env: Env, e: Expr)
    requires e.Invoke? && ExprType(ctx, env, e).Ok?
    ensures e.name in ctx.functions && |e.arguments| == |ctx.functions[e.name].parameters|
    ensures ExprType(ctx, env, e).value.ty == ctx.functions[e.name].ret
    ensures forall k | 0 <= k < |e.arguments| ::
      ExprType(ctx, env, e.arguments[k]).Ok? &&
      Subtype(ctx.types, ctx.functions[e.name].parameters[k].ty, ExprType(ctx, env, e.arguments[k]).value.ty) == Ok(true)
  {
    ArgumentsTyped(ctx, env, e, ctx.functions[e.name].parameters, 0);
  }

  /** Every element of an accepted list constructor is accepted. */
  lemma ListRule(ctx: Context, env: Env, e: Expr)
    requires e.ListConstructor? && ExprType(ctx, env, e).Ok?
    ensures ExprType(ctx, env, e).value.ty.List?
    ensures forall k | 0 <= k < |e.arguments| :: ExprType(ctx, env, e.arguments[k]).Ok?
  {
    assert ListType(ctx, env, e).Ok?;
    ElementsTyped(ctx, env, e, 0);
    var ts := ElementsType(ctx, env, e, 0).value;
    forall k | 0 <= k < |e.arguments|
      ensures ExprType(ctx, env, e.arguments[k]).Ok?
    {
      assert ExprType(ctx, env, e.arguments[0 + k]) == Ok(ts[k]);
    }
  }

  /** A record access needs a record with the field, and has the field's type. */
  lemma RecordAccessRule(ctx: Context, env: Env, e: Expr)
    requires e.RecordAccess? && ExprType(ctx, env, e.source).Ok? && ExprType(ctx, env, e.source).value.ty.Record?
    ensures var fs := ExprType(ctx, env, e.source).value.ty.fields;
      (LookupField(fs, e.field).None? ==> ExprType(ctx, env, e) == Err(NO_SUCH_FIELD)) &&
      (LookupField(fs, e.field).Some? ==> ExprType(ctx, env, e).Ok? && ExprType(ctx, env, e).value.ty == LookupField(fs, e.field).value)
  {
  }

  /** Negation keeps a numeric type, `!` a boolean one, and a length is an int. */
  lemma UnaryRule(ctx: Context, env: Env, e: Expr)
    requires e.Unary? && ExprType(ctx, env, e).Ok?
    ensures ExprType(ctx, env, e.operand).Ok?
    ensures e.uop == LENGTHOF ==> ExprType(ctx, env, e).value.ty == Int
    ensures e.uop != LENGTHOF ==> ExprType(ctx, env, e).value.ty == ExprType(ctx, env, e.operand).value.ty
    ensures e.uop == NEG ==> CheckInstanceOf(ctx.types, ExprType(ctx, env, e).value.ty, {IntKind, RealKind}).Ok?
    ensures e.uop == NOT ==> Subtype(ctx.types, Bool, ExprType(ctx, env, e).value.ty) == Ok(true)
  {
  }

  /* ---------- Statements ---------- */

  /** A checked statement and the environment after it. */
  datatype StmtTyped = StmtTyped(stmt: Stmt, env: Env)

  /** Checked statements and the environment after them. */
  datatype StmtsTyped = StmtsTyped(stmts: seq<Stmt>, env: Env)

  /** `after` keeps every variable of `before` with its type. */
  predicate Extends(before: Env, after: Env) {
    forall x | x in before :: x in after && after[x] == before[x]
  }

  /** check(List<Stmt>): every statement in order, on one environment. */
  function StmtsType(ctx: Context, env: Env, ss: seq<Stmt>): (r: Result<StmtsTyped, Error>)
    ensures r.Ok? ==> Extends(env, r.value.env) && |r.value.stmts| == |ss|
    decreases ss
  {
    if ss == [] then Ok(StmtsTyped([], env))
    else
      var first :- StmtType(ctx, env, ss[0]);
      var rest :- StmtsType(ctx, first.env, ss[1..]);
      Ok(StmtsTyped([first.stmt] + rest.stmts, rest.env))
  }

  /** check(Stmt): one statement. */
  function StmtType(ctx: Context, env: Env, s: Stmt): (r: Result<StmtTyped, Error>)
    ensures r.Ok? ==> Extends(env, r.value.env)
    decreases s, 1
  {
    match s
    case Assign(lhs, rhs) =>
      var l :- ExprType(ctx, env, lhs);
      var r :- ExprType(ctx, env, rhs);
      var _ :- CheckSubtype(ctx.types, l.ty, r.ty);
      Ok(StmtTyped(Assign(l.expr, r.expr), env))
    case Print(e) =>
      var t :- ExprType(ctx, env, e);
      Ok(StmtTyped(Print(t.expr), env))
    case Return(None) => Ok(StmtTyped(s, env))
    case Return(Some(e)) =>
      var t :- ExprType(ctx, env, e);
      var _ :- CheckSubtype(ctx.types, ctx.ret, t.ty);
      Ok(StmtTyped(Return(Some(t.expr)), env))
    case Declare(d) =>
      var t :- DeclType(ctx, env, d);
      Ok(StmtTyped(Declare(t.0), t.1))
    case InvokeStmt(call) =>
      // the call is checked as an invocation, without a type attribute of its own
      if call.Invoke? then
        var t :- InvokeType(ctx, env, call);
        Ok(StmtTyped(InvokeStmt(t.expr), env))
      else Err(UNKNOWN_STATEMENT)
    case IfElse(_, _, _) => IfElseType(ctx, env, s)
    case For(_, _, _, _) => ForType(ctx, env, s)
    case While(_, _) => WhileType(ctx, env, s)
  }

  /** A declaration: a name already declared is an error; the initialiser,
      if any, must have a subtype of the declared type. */
  function DeclType(ctx: Context, env: Env, d: VarDecl): (r: Result<(VarDecl, Env), Error>)
    ensures d.name in env ==> r == Err(ALREADY_DECLARED)
    ensures r.Ok? ==> r.value.1 == env[d.name := d.ty]
    ensures r.Ok? ==> r.value.0.ty == d.ty && r.value.0.name == d.name && (r.value.0.init.Some? <==> d.init.Some?)
    ensures d.name !in env && d.init.None? ==> r == Ok((d, env[d.name := d.ty]))
  {
    if d.name in env then Err(ALREADY_DECLARED)
    else
      match d.init
      case None => Ok((d, env[d.name := d.ty]))
      case Some(e) =>
        var t :- ExprType(ctx, env, e);
        var _ :- CheckSubtype(ctx.types, d.ty, t.ty);
        Ok((VarDecl(d.ty, d.name, Some(t.expr)), env[d.name := d.ty]))
  }

  /** Both branches are checked on the one environment, the false branch
      after the true one. */
  function IfElseType(ctx: Context, env: Env, s: Stmt): (r: Result<StmtTyped, Error>)
    requires s.IfElse?
    ensures r.Ok? ==> Extends(env, r.value.env)
    decreases s, 0
  {
    var c :- ExprType(ctx, env, s.condition);
    var _ :- CheckSubtype(ctx.types, Bool, c.ty);
    var t :- StmtsType(ctx, env, s.trueBranch);
    var f :- StmtsType(ctx, t.env, s.falseBranch);
    Ok(StmtTyped(IfElse(c.expr, t.stmts, f.stmts), f.env))
  }

  /** A for loop as written: the declaration is checked on the enclosing
      environment, which therefore keeps the loop variable, and the rest on
      a copy. */
  function ForTypeAsWritten(ctx: Context, env: Env, s: Stmt): (r: Result<StmtTyped, Error>)
    requires s.For?
    ensures r.Ok? ==> r.value.env == env[s.declaration.name := s.declaration.ty]
  {
    var d :- DeclType(ctx, env, s.declaration);
    var b :- ForRest(ctx, d.1[s.declaration.name := s.declaration.ty], s, d.0);
    Ok(StmtTyped(b, d.1))
  }

  /** A for loop with the loop variable scoped to the loop: the enclosing
      environment is left as it was. */
  function ForType(ctx: Context, env: Env, s: Stmt): (r: Result<StmtTyped, Error>)
    requires s.For?
    ensures r.Ok? ==> r.value.env == env
    decreases s, 0, 1
  {
    var d :- DeclType(ctx, env, s.declaration);
    var b :- ForRest(ctx, d.1, s, d.0);
    Ok(StmtTyped(b, env))
  }

  /** Condition, increment and body of a for loop, on the loop's environment. */
  function ForRest(ctx: Context, inner: Env, s: Stmt, decl: VarDecl): (r: Result<Stmt, Error>)
    requires s.For?
    ensures r.Ok? ==> r.value.For?
    decreases s, 0, 0
  {
    var c :- ExprType(ctx, inner, s.condition);
    var _ :- CheckSubtype(ctx.types, Bool, c.ty);
    var i :- StmtType(ctx, inner, s.increment);
    var b :- StmtsType(ctx, i.env, s.body);
    Ok(For(decl, c.expr, i.stmt, b.stmts))
  }

  /** The body of a while loop is checked on the enclosing environment. */
  function WhileType(ctx: Context, env: Env, s: Stmt): (r: Result<StmtTyped, Error>)
    requires s.While?
    ensures r.Ok? ==> Extends(env, r.value.env)
    decreases s, 0
  {
    var c :- ExprType(ctx, env, s.condition);
    var _ :- CheckSubtype(ctx.types, Bool, c.ty);
    var b :- StmtsType(ctx, env, s.body);
    Ok(StmtTyped(While(c.expr, b.stmts), b.env))
  }

  /** What an accepted statement promises: an assignment's right-hand side
      is a subtype of its left-hand side, a returned value of the return
      type, and a condition of bool. */
  lemma StatementRules(ctx: Context, env: Env, s: Stmt)
    requires StmtType(ctx, env, s).Ok?
    ensures s.Assign? ==> (ExprType(ctx, env, s.lhs).Ok? && ExprType(ctx, env, s.rhs).Ok? &&
      Subtype(ctx.types, ExprType(ctx, env, s.lhs).value.ty, ExprType(ctx, env, s.rhs).value.ty) == Ok(true))
    ensures s.Return? && s.result.Some? ==> (ExprType(ctx, env, s.result.value).Ok? &&
      Subtype(ctx.types, ctx.ret, ExprType(ctx, env, s.result.value).value.ty) == Ok(true))
    ensures s.Print? ==> ExprType(ctx, env, s.expr).Ok?
    ensures s.IfElse? || s.While? ==> (ExprType(ctx, env, s.condition).Ok? &&
      Subtype(ctx.types, Bool, ExprType(ctx, env, s.condition).value.ty) == Ok(true))
    ensures s.Assign? || s.Print? || s.Return? || s.InvokeStmt? ==> StmtType(ctx, env, s).value.env == env
  {
    match s
    case IfElse(_, _, _) =>
      assert IfElseType(ctx, env, s).Ok?;
    case While(_, _) =>
      assert WhileType(ctx, env, s).Ok?;
    case _ =>
  }

  /* ---------- Declarations ---------- */

  /** The parameters, in order, a later one of the same name replacing an
      earlier one. */
  function ParameterEnv(ps: seq<Parameter>): Env
    decreases |ps|
  {
    if ps == [] then map[] else ParameterEnv(ps[..|ps| - 1])[ps[|ps| - 1].name := ps[|ps| - 1].ty]
  }

  /** check(FunDecl): the body, on the environment of the parameters. */
  function FunctionType(functions: map<string, FunDecl>, types: TypeTable, fd: FunDecl): (r: Result<FunDecl, Error>)
    ensures r.Ok? ==> r.value.name == fd.name && r.value.ret == fd.ret && r.value.parameters == fd.parameters
    ensures r.Ok? ==> |r.value.body| == |fd.body|
  {
    var b :- StmtsType(Context(functions, types, fd.ret), ParameterEnv(fd.parameters), fd.body);
    Ok(FunDecl(fd.name, fd.ret, fd.parameters, b.stmts))
  }

  /** Every function declaration in order; the others are left as they are. */
  function DeclsType(functions: map<string, FunDecl>, types: TypeTable, ds: seq<Decl>): (r: Result<seq<Decl>, Error>)
    ensures r.Ok? ==> |r.value| == |ds|
    ensures r.Ok? ==> forall i | 0 <= i < |ds| :: r.value[i].Name() == ds[i].Name() && (r.value[i].Fun? <==> ds[i].Fun?)
    decreases ds
  {
    if ds == [] then Ok([])
    else
      var d :- match ds[0]
        case Fun(fd) =>
          var checked :- FunctionType(functions, types, fd);
          Ok(Fun(checked))
        case _ => Ok(ds[0]);
      var rest :- DeclsType(functions, types, ds[1..]);
      Ok([d] + rest)
  }

  /** check(WhileFile): the declaration tables, then every function. */
  function FileType(wf: WhileFile): (r: Result<WhileFile, Error>)
    ensures r.Ok? ==> |r.value.declarations| == |wf.declarations|
  {
    var (functions, types) := DeclTables(wf.declarations, map[], map[]);
    var ds :- DeclsType(functions, types, wf.declarations);
    Ok(WhileFile(ds))
  }

  /* ---------- Properties ---------- */

  /** Operands of equal primitive type: arithmetic keeps the type,
      comparisons give bool, and operands of different kinds are refused. */
  lemma OperatorExamples(types: TypeTable)
    ensures OperatorType(types, ADD, Int, Int) == Ok(Int)
    ensures OperatorType(types, LT, Int, Int) == Ok(Bool)
    ensures OperatorType(types, AND, Bool, Bool) == Ok(Bool)
    ensures OperatorType(types, ADD, Int, Bool) == Err(NOT_IDENTICAL)
    ensures OperatorType(types, AND, Int, Int).Err?
  {
    assert Equivalent(types, Int, Int) == Ok(true);
    assert Subtype(types, Int, Bool) == Ok(false);
    assert Subtype(types, Bool, Int) == Ok(false);
  }

  /** The reference reading of the list-constructor rule: each type that no
      later type is equivalent to, in order. */
  function Survivors(types: TypeTable, ts: seq<Type>, i: nat): seq<Type>
    requires i <= |ts|
    decreases |ts| - i
  {
    if i == |ts| then []
    else if exists j | i < j < |ts| :: Equivalent(types, ts[i], ts[j]) == Ok(true) then Survivors(types, ts, i + 1)
    else [ts[i]] + Survivors(types, ts, i + 1)
  }

  lemma {:induction false} SubsumedExists(types: TypeTable, ts: seq<Type>, i: nat, j: nat)
    requires i < |ts| && forall k | j <= k < |ts| :: Equivalent(types, ts[i], ts[k]).Ok?
    ensures Subsumed(types, ts, i, j) == Ok(exists k | j <= k < |ts| :: Equivalent(types, ts[i], ts[k]) == Ok(true))
    decreases |ts| - j
  {
    if j < |ts| {
      SubsumedExists(types, ts, i, j + 1);
    }
  }

  /** Where every equivalence the rule asks about reaches a verdict, the
      rule keeps exactly the survivors. */
  lemma {:induction false} KeptSurvivors(types: TypeTable, ts: seq<Type>, i: nat)
    requires i <= |ts|
    requires forall a, b | i <= a < b < |ts| :: Equivalent(types, ts[a], ts[b]).Ok?
    ensures Kept(types, ts, i) == Ok(Survivors(types, ts, i))
    decreases |ts| - i
  {
    if i < |ts| {
      SubsumedExists(types, ts, i, i + 1);
      KeptSurvivors(types, ts, i + 1);
    }
  }

  /** When all element types are equivalent only the last one remains. */
  lemma {:induction false} AllEquivalentKeepsLast(types: TypeTable, ts: seq<Type>, i: nat)
    requires i < |ts|
    requires forall a, b | i <= a < b < |ts| :: Equivalent(types, ts[a], ts[b]) == Ok(true)
    ensures Kept(types, ts, i) == Ok([ts[|ts| - 1]])
    ensures ListOf([ts[|ts| - 1]]) == List(ts[|ts| - 1])
    decreases |ts| - i
  {
    KeptSurvivors(types, ts, i);
    if i < |ts| - 1 {
      assert Equivalent(types, ts[i], ts[i + 1]) == Ok(true);
      assert Survivors(types, ts, i) == Survivors(types, ts, i + 1);
      AllEquivalentKeepsLast(types, ts, i + 1);
      KeptSurvivors(types, ts, i + 1);
    } else {
      assert Survivors(types, ts, i + 1) == [];
      assert Survivors(types, ts, i) == [ts[i]];
    }
  }

  /** An empty list constructor has the type of a list of void. */
  lemma EmptyListType(ctx: Context, env: Env, a: Option<Type>)
    ensures ExprType(ctx, env, ListConstructor([], a)) == Ok(Typed(ListConstructor([], Some(List(Void))), List(Void)))
  {
    var e := ListConstructor([], a);
    assert ElementsType(ctx, env, e, 0) == Ok([]);
    assert Kept(ctx.types, Types([]), 0) == Ok([]);
  }

  /** A variable outside the environment is an error. */
  lemma UnknownVariable(ctx: Context, env: Env, name: string, a: Option<Type>)
    requires name !in env
    ensures ExprType(ctx, env, Variable(name, a)) == Err(UNKNOWN_VARIABLE)
  {
  }

  /** As written, a for loop leaves its variable declared, so a second loop
      with the same variable is always refused. */
  lemma {:induction false} SecondLoopAsWritten(ctx: Context, env: Env, s: Stmt)
    requires s.For? && ForTypeAsWritten(ctx, env, s).Ok?
    ensures s.declaration.name in ForTypeAsWritten(ctx, env, s).value.env
    ensures ForTypeAsWritten(ctx, ForTypeAsWritten(ctx, env, s).value.env, s) == Err(ALREADY_DECLARED)
  {
  }

  /** With the loop variable scoped, a loop accepted once is accepted again
      straight after itself. */
  lemma {:induction false} SecondLoop(ctx: Context, env: Env, s: Stmt)
    requires s.For? && ForType(ctx, env, s).Ok?
    ensures StmtsType(ctx, env, [s, s]).Ok?
    ensures StmtsType(ctx, env, [s, s]).value.env == env
  {
    var first := StmtType(ctx, env, s);
    assert first == ForType(ctx, env, s);
    assert [s, s][1..] == [s];
    assert [s][1..] == [];
    assert first.value.env == env;
    assert StmtsType(ctx, env, []) == Ok(StmtsTyped([], env));
    assert [first.value.stmt] + [] == [first.value.stmt];
    assert StmtsType(ctx, env, [s]) == Ok(StmtsTyped([first.value.stmt], env));
  }

  /** `for (int i = 0; i < 10; i = i + 1) {}`: accepted on an empty
      environment by both readings, after which the checker as written
      keeps `i` declared. */
  function SampleLoop(): Stmt {
    var i := Variable("i", None);
    For(VarDecl(Int, "i", Some(Constant(IntLit(0), None))),
        Binary(LT, i, Constant(IntLit(10), None), None),
        Assign(i, Binary(ADD, i, Constant(IntLit(1), None), None)),
        [])
  }

  lemma SampleLoopIncrement(ctx: Context, env: Env)
    requires env == map["i" := Int]
    ensures StmtType(ctx, env, SampleLoop().increment).Ok?
    ensures StmtType(ctx, env, SampleLoop().increment).value.env == env
  {
    var i := Variable("i", None);
    var one := Constant(IntLit(1), None);
    assert ExprType(ctx, env, i) == Ok(Typed(i.WithType(Int), Int));
    assert ExprType(ctx, env, one) == Ok(Typed(one.WithType(Int), Int));
    assert Equivalent(ctx.types, Int, Int) == Ok(true);
    assert OperatorType(ctx.types, ADD, Int, Int) == Ok(Int);
    assert BinaryType(ctx, env, Binary(ADD, i, one, None)).Ok?;
    assert CheckSubtype(ctx.types, Int, Int) == Ok(());
  }

  lemma SampleLoopCondition(ctx: Context, env: Env)
    requires env == map["i" := Int]
    ensures ExprType(ctx, env, SampleLoop().condition).Ok?
    ensures ExprType(ctx, env, SampleLoop().condition).value.ty == Bool
  {
    var i := Variable("i", None);
    var ten := Constant(IntLit(10), None);
    assert ExprType(ctx, env, i) == Ok(Typed(i.WithType(Int), Int));
    assert ExprType(ctx, env, ten) == Ok(Typed(ten.WithType(Int), Int));
    assert Equivalent(ctx.types, Int, Int) == Ok(true);
    assert OperatorType(ctx.types, LT, Int, Int) == Ok(Bool);
    assert BinaryType(ctx, env, SampleLoop().condition).Ok?;
  }

  lemma SampleLoopAccepted(ctx: Context)
    ensures ForTypeAsWritten(ctx, map[], SampleLoop()).Ok?
    ensures ForType(ctx, map[], SampleLoop()).Ok?
  {
    var s := SampleLoop();
    var env := map["i" := Int];
    var zero := Constant(IntLit(0), None);
    assert ExprType(ctx, map[], zero) == Ok(Typed(zero.WithType(Int), Int));
    assert CheckSubtype(ctx.types, Int, Int) == Ok(());
    assert DeclType(ctx, map[], s.declaration).Ok?;
    assert DeclType(ctx, map[], s.declaration).value.1 == env;
    SampleLoopCondition(ctx, env);
    assert CheckSubtype(ctx.types, Bool, Bool) == Ok(());
    SampleLoopIncrement(ctx, env);
    assert env[s.declaration.name := s.declaration.ty] == env;
    assert ForRest(ctx, env, s, DeclType(ctx, map[], s.declaration).value.0).Ok?;
  }

  // ---------------------------------------------------------------------
  // The checker
  // ---------------------------------------------------------------------

  /** The environment of a check, a map updated in place. */
  class TypeEnvironment {
    var vars: Env

    constructor (vars: Env)
      ensures this.vars == vars
    {
      this.vars := vars;
    }

    method Put(x: string, t: Type)
      modifies this
      ensures vars == old(vars)[x := t]
    {
      vars := vars[x := t];
    }
  }

  /** A result of a check that a loop has built up to `out`, followed by
      the result of the rest. */
  function Prefixed<T>(out: seq<T>, rest: Result<seq<T>, Error>): Result<seq<T>, Error> {
    match rest
    case Err(err) => Err(err)
    case Ok(v) => Ok(out + v)
  }

  function Cons<T>(a: T, rest: Result<seq<T>, Error>): Result<seq<T>, Error> {
    match rest
    case Err(err) => Err(err)
    case Ok(v) => Ok([a] + v)
  }

  lemma PrefixedNil<T>(rest: Result<seq<T>, Error>)
    ensures Prefixed([], rest) == rest
  {
    if rest.Ok? {
      assert [] + rest.value == rest.value;
    }
  }

  lemma PrefixedEnd<T>(out: seq<T>)
    ensures Prefixed(out, Ok([])) == Ok(out)
  {
    assert out + [] == out;
  }

  lemma PrefixedCons<T>(out: seq<T>, a: T, rest: Result<seq<T>, Error>)
    ensures Prefixed(out, Cons(a, rest)) == Prefixed(out + [a], rest)
  {
    if rest.Ok? {
      assert out + ([a] + rest.value) == (out + [a]) + rest.value;
    }
  }

  function StmtsPrefixed(out: seq<Stmt>, rest: Result<StmtsTyped, Error>): Result<StmtsTyped, Error> {
    match rest
    case Err(err) => Err(err)
    case Ok(v) => Ok(StmtsTyped(out + v.stmts, v.env))
  }

  lemma StmtsPrefixedNil(rest: Result<StmtsTyped, Error>)
    ensures StmtsPrefixed([], rest) == rest
  {
    if rest.Ok? {
      assert [] + rest.value.stmts == rest.value.stmts;
    }
  }

  lemma StmtsPrefixedCons(out: seq<Stmt>, st: Stmt, rest: Result<StmtsTyped, Error>)
    ensures StmtsPrefixed(out + [st], rest) ==
      StmtsPrefixed(out, match rest case Err(err) => Err(err) case Ok(v) => Ok(StmtsTyped([st] + v.stmts, v.env)))
  {
    if rest.Ok? {
      assert out + ([st] + rest.value.stmts) == (out + [st]) + rest.value.stmts;
    }
  }

  /** The checker's result and environment against a check of statements. */
  predicate StmtsAgree(r: Result<seq<Stmt>, Error>, spec: Result<StmtsTyped, Error>, env: Env) {
    match spec
    case Err(err) => r == Err(err)
    case Ok(v) => r == Ok(v.stmts) && env == v.env
  }

  predicate StmtAgrees(r: Result<Stmt, Error>, spec: Result<StmtTyped, Error>, env: Env) {
    match spec
    case Err(err) => r == Err(err)
    case Ok(v) => r == Ok(v.stmt) && env == v.env
  }

  predicate DeclAgrees(r: Result<VarDecl, Error>, spec: Result<(VarDecl, Env), Error>, env: Env) {
    match spec
    case Err(err) => r == Err(err)
    case Ok(v) => r == Ok(v.0) && env == v.1
  }

  /** One declaration of the second pass: a function is checked, the rest kept. */
  lemma DeclsTypeStep(functions: map<string, FunDecl>, types: TypeTable, ds: seq<Decl>, i: nat)
    requires i < |ds|
    ensures !ds[i].Fun? ==> DeclsType(functions, types, ds[i..]) == Cons(ds[i], DeclsType(functions, types, ds[i + 1..]))
    ensures ds[i].Fun? ==> match FunctionType(functions, types, ds[i].fun)
      case Err(e) => DeclsType(functions, types, ds[i..]) == Err(e)
      case Ok(c) => DeclsType(functions, types, ds[i..]) == Cons(Fun(c), DeclsType(functions, types, ds[i + 1..]))
  {
    assert ds[i..][1..] == ds[i + 1..];
  }

  lemma LastFunctionStep(ds: seq<Decl>, i: nat, f: Option<FunDecl>)
    requires i < |ds|
    ensures LastFunction(ds[..i + 1], f) == if ds[i].Fun? then Some(ds[i].fun) else LastFunction(ds[..i], f)
  {
    assert ds[..i + 1][..i] == ds[..i];
  }

  function LastFunction(ds: seq<Decl>, f: Option<FunDecl>): Option<FunDecl>
    decreases |ds|
  {
    if ds == [] then f
    else if ds[|ds| - 1].Fun? then Some(ds[|ds| - 1].fun)
    else LastFunction(ds[..|ds| - 1], f)
  }

  lemma {:induction false} PutFieldsAppend(fs: seq<Field>, tis: seq<TypedInit>, ti: TypedInit)
    ensures PutFields(fs, tis + [ti]) == PutField(PutFields(fs, tis), ti.init.name, ti.ty)
    decreases tis
  {
    if tis == [] {
      assert [] + [ti] == [ti];
    } else {
      assert (tis + [ti])[1..] == tis[1..] + [ti];
      PutFieldsAppend(PutField(fs, tis[0].init.name, tis[0].ty), tis[1..], ti);
    }
  }

  /** The type of the last initialiser of field `name`, if there is one. */
  function LastInit(tis: seq<TypedInit>, name: string): Option<Type>
    decreases |tis|
  {
    if tis == [] then None
    else if tis[|tis| - 1].init.name == name then Some(tis[|tis| - 1].ty)
    else LastInit(tis[..|tis| - 1], name)
  }

  lemma {:induction false} PutFieldLookup(fs: seq<Field>, name: string, ty: Type, other: string)
    ensures LookupField(PutField(fs, name, ty), other) == if other == name then Some(ty) else LookupField(fs, other)
  {
    if fs != [] && fs[0].name != name {
      PutFieldLookup(fs[1..], name, ty, other);
    }
  }

  /** Like HashMap.put, a later initialiser of a field replaces an earlier one. */
  lemma {:induction false} PutFieldsLookup(fs: seq<Field>, tis: seq<TypedInit>, name: string)
    ensures LookupField(PutFields(fs, tis), name) == if LastInit(tis, name).Some? then LastInit(tis, name) else LookupField(fs, name)
    decreases |tis|
  {
    if tis != [] {
      var front := tis[..|tis| - 1];
      var ti := tis[|tis| - 1];
      assert tis == front + [ti];
      PutFieldsAppend(fs, front, ti);
      PutFieldLookup(PutFields(fs, front), ti.init.name, ti.ty, name);
      PutFieldsLookup(fs, front, name);
    }
  }

  /** In a checked record constructor the field named like the last initialiser of that name has its type. */
  lemma RecordFieldTypes(ctx: Context, env: Env, e: Expr, name: string)
    requires e.RecordConstructor? && RecordType(ctx, env, e).Ok?
    ensures LookupField(RecordType(ctx, env, e).value.ty.fields, name) == LastInit(InitsType(ctx, env, e, 0).value, name)
  {
    PutFieldsLookup([], InitsType(ctx, env, e, 0).value, name);
  }

  class Checker {
    var functions: map<string, FunDecl>
    var types: TypeTable
    /** The function whose body is being checked. */
    var current: Option<FunDecl>

    constructor ()
      ensures functions == map[] && types == map[] && current == None
    {
      functions := map[];
      types := map[];
      current := None;
    }

    function Ctx(): Context
      reads this
    {
      Context(functions, types, if current.Some? then current.value.ret else Void)
    }

    /** check(WhileFile): the declaration tables, then every function. */
    method CheckFile(wf: WhileFile) returns (r: Result<WhileFile, Error>)
      modifies this
      ensures (functions, types) == DeclTables(wf.declarations, map[], map[])
      ensures r == FileType(wf)
      ensures r.Ok? ==> current == LastFunction(wf.declarations, old(current))
    {
      CollectDeclarations(wf.declarations);
      var ds :- CheckDeclarations(wf.declarations);
      return Ok(WhileFile(ds));
    }

    /** The first pass over the declarations: the function and type maps. */
    method CollectDeclarations(ds: seq<Decl>)
      modifies this
      ensures (functions, types) == DeclTables(ds, map[], map[])
      ensures current == old(current)
    {
      functions := map[];
      types := map[];
      var i := 0;
      while i < |ds|
        invariant 0 <= i <= |ds|
        invariant DeclTables(ds[i..], functions, types) == DeclTables(ds, map[], map[])
        invariant current == old(current)
      {
        assert ds[i..][1..] == ds[i + 1..];
        match ds[i] {
          case Fun(fd) => functions := functions[fd.name := fd];
          case TypeDecl(n, t) => types := types[n := t];
          case ConstDecl(_, _) =>
        }
        i := i + 1;
      }
    }

    /** The second pass: every function declaration, in order. */
    method CheckDeclarations(ds: seq<Decl>) returns (r: Result<seq<Decl>, Error>)
      modifies this
      ensures functions == old(functions) && types == old(types)
      ensures r == DeclsType(functions, types, ds)
      ensures r.Ok? ==> current == LastFunction(ds, old(current))
    {
      var out: seq<Decl> := [];
      var i := 0;
      PrefixedNil(DeclsType(functions, types, ds));
      while i < |ds|
        invariant 0 <= i <= |ds|
        invariant functions == old(functions) && types == old(types)
        invariant current == LastFunction(ds[..i], old(current))
        invariant DeclsType(functions, types, ds) == Prefixed(out, DeclsType(functions, types, ds[i..]))
      {
        DeclsTypeStep(functions, types, ds, i);
        LastFunctionStep(ds, i, old(current));
        var d := ds[i];
        if d.Fun? {
          var checked :- CheckFunction(d.fun);
          PrefixedCons(out, Fun(checked), DeclsType(functions, types, ds[i + 1..]));
          out := out + [Fun(checked)];
        } else {
          PrefixedCons(out, d, DeclsType(functions, types, ds[i + 1..]));
          out := out + [d];
        }
        i := i + 1;
      }
      assert ds[..i] == ds;
      PrefixedEnd(out);
      return Ok(out);
    }

    /** check(FunDecl): the parameters make the environment of the body. */
    method CheckFunction(fd: FunDecl) returns (r: Result<FunDecl, Error>)
      modifies this
      ensures functions == old(functions) && types == old(types) && current == Some(fd)
      ensures r == FunctionType(functions, types, fd)
    {
      current := Some(fd);
      var env := new TypeEnvironment(map[]);
      var i := 0;
      while i < |fd.parameters|
        invariant 0 <= i <= |fd.parameters|
        invariant env.vars == ParameterEnv(fd.parameters[..i])
        invariant functions == old(functions) && types == old(types) && current == Some(fd)
      {
        assert fd.parameters[..i + 1][..i] == fd.parameters[..i];
        env.Put(fd.parameters[i].name, fd.parameters[i].ty);
        i := i + 1;
      }
      assert fd.parameters[..i] == fd.parameters;
      var body :- CheckStmts(fd.body, env);
      return Ok(FunDecl(fd.name, fd.ret, fd.parameters, body));
    }

    /** check(List<Stmt>): every statement in order. */
    method CheckStmts(ss: seq<Stmt>, env: TypeEnvironment) returns (r: Result<seq<Stmt>, Error>)
      requires current.Some?
      modifies env
      ensures StmtsAgree(r, StmtsType(Ctx(), old(env.vars), ss), env.vars)
      decreases ss
    {
      var out: seq<Stmt> := [];
      var i := 0;
      StmtsPrefixedNil(StmtsType(Ctx(), env.vars, ss));
      while i < |ss|
        invariant 0 <= i <= |ss|
        invariant StmtsType(Ctx(), old(env.vars), ss) == StmtsPrefixed(out, StmtsType(Ctx(), env.vars, ss[i..]))
      {
        assert ss[i..][1..] == ss[i + 1..];
        var checked :- CheckStmt(ss[i], env);
        StmtsPrefixedCons(out, checked, StmtsType(Ctx(), env.vars, ss[i + 1..]));
        out := out + [checked];
        i := i + 1;
      }
      assert out + [] == out;
      return Ok(out);
    }

    /** check(Stmt): one statement. */
    method CheckStmt(s: Stmt, env: TypeEnvironment) returns (r: Result<Stmt, Error>)
      requires current.Some?
      modifies env
      ensures StmtAgrees(r, StmtType(Ctx(), old(env.vars), s), env.vars)
      decreases s, 1
    {
      match s {
        case Assign(lhs, rhs) =>
          var l :- CheckExpr(lhs, env);
          var rt :- CheckExpr(rhs, env);
          var _ :- CheckSubtype(types, l.ty, rt.ty);
          return Ok(Assign(l.expr, rt.expr));
        case Print(e) =>
          var t :- CheckExpr(e, env);
          return Ok(Print(t.expr));
        case Return(result) =>
          if result.None? {
            return Ok(s);
          }
          var t :- CheckExpr(result.value, env);
          var _ :- CheckSubtype(types, current.value.ret, t.ty);
          return Ok(Return(Some(t.expr)));
        case Declare(d) =>
          var checked :- CheckDecl(d, env);
          return Ok(Declare(checked));
        case InvokeStmt(call) =>
          if !call.Invoke? {
            return Err(UNKNOWN_STATEMENT);
          }
          var t :- CheckInvoke(call, env);
          return Ok(InvokeStmt(t.expr));
        case IfElse(_, _, _) =>
          r := CheckIfElse(s, env);
        case For(_, _, _, _) =>
          r := CheckFor(s, env);
        case While(_, _) =>
          r := CheckWhile(s, env);
      }
    }

    method CheckDecl(d: VarDecl, env: TypeEnvironment) returns (r: Result<VarDecl, Error>)
      modifies env
      ensures DeclAgrees(r, DeclType(Ctx(), old(env.vars), d), env.vars)
    {
      if d.name in env.vars {
        return Err(ALREADY_DECLARED);
      }
      var checked := d;
      if d.init.Some? {
        var t :- CheckExpr(d.init.value, env);
        var _ :- CheckSubtype(types, d.ty, t.ty);
        checked := VarDecl(d.ty, d.name, Some(t.expr));
      }
      env.Put(d.name, d.ty);
      return Ok(checked);
    }

    method CheckIfElse(s: Stmt, env: TypeEnvironment) returns (r: Result<Stmt, Error>)
      requires s.IfElse? && current.Some?
      modifies env
      ensures StmtAgrees(r, IfElseType(Ctx(), old(env.vars), s), env.vars)
      decreases s, 0
    {
      var c :- CheckExpr(s.condition, env);
      var _ :- CheckSubtype(types, Bool, c.ty);
      var t :- CheckStmts(s.trueBranch, env);
      var f :- CheckStmts(s.falseBranch, env);
      return Ok(IfElse(c.expr, t, f));
    }

    /** A for loop, with everything after the declaration checked on a copy
        of the environment, and the declaration too. */
    method CheckFor(s: Stmt, env: TypeEnvironment) returns (r: Result<Stmt, Error>)
      requires s.For? && current.Some?
      modifies env
      ensures StmtAgrees(r, ForType(Ctx(), old(env.vars), s), env.vars)
      decreases s, 0
    {
      var inner := new TypeEnvironment(env.vars);
      var d :- CheckDecl(s.declaration, inner);
      ghost var declared := inner.vars;
      inner.Put(s.declaration.name, s.declaration.ty);
      assert inner.vars == declared;
      var c :- CheckExpr(s.condition, inner);
      var _ :- CheckSubtype(types, Bool, c.ty);
      var i :- CheckStmt(s.increment, inner);
      var b :- CheckStmts(s.body, inner);
      return Ok(For(d, c.expr, i, b));
    }

    method CheckWhile(s: Stmt, env: TypeEnvironment) returns (r: Result<Stmt, Error>)
      requires s.While? && current.Some?
      modifies env
      ensures StmtAgrees(r, WhileType(Ctx(), old(env.vars), s), env.vars)
      decreases s, 0
    {
      var c :- CheckExpr(s.condition, env);
      var _ :- CheckSubtype(types, Bool, c.ty);
      var b :- CheckStmts(s.body, env);
      return Ok(While(c.expr, b));
    }

    /** check(Expr): the expression's type, with the attribute set. */
    method CheckExpr(e: Expr, env: TypeEnvironment) returns (r: Result<Typed, Error>)
      ensures r == ExprType(Ctx(), env.vars, e)
      decreases e, 2
    {
      var t: Result<Typed, Error>;
      match e {
        case Binary(_, _, _, _) => t := CheckBinary(e, env);
        case Cast(_, _, _) => t := CheckCast(e, env);
        case Constant(v, _) => t := Ok(Typed(e, LiteralType(v)));
        case IndexOf(_, _, _) => t := CheckIndexOf(e, env);
        case Invoke(_, _, _) => t := CheckInvoke(e, env);
        case ListConstructor(_, _) => t := CheckList(e, env);
        case RecordAccess(_, _, _) => t := CheckRecordAccess(e, env);
        case RecordConstructor(_, _) => t := CheckRecord(e, env);
        case Unary(_, _, _) => t := CheckUnary(e, env);
        case Variable(name, _) =>
          t := if name in env.vars then Ok(Typed(e, env.vars[name])) else Err(UNKNOWN_VARIABLE);
      }
      var typed :- t;
      return Ok(Typed(typed.expr.WithType(typed.ty), typed.ty));
    }

    method CheckBinary(e: Expr, env: TypeEnvironment) returns (r: Result<Typed, Error>)
      requires e.Binary?
      ensures r == BinaryType(Ctx(), env.vars, e)
      decreases e, 1
    {
      var l :- CheckExpr(e.lhs, env);
      var rt :- CheckExpr(e.rhs, env);
      var t :- OperatorType(types, e.op, l.ty, rt.ty);
      return Ok(Typed(Binary(e.op, l.expr, rt.expr, e.attr), t));
    }

    method CheckCast(e: Expr, env: TypeEnvironment) returns (r: Result<Typed, Error>)
      requires e.Cast?
      ensures r == CastType(Ctx(), env.vars, e)
      decreases e, 1
    {
      var src :- CheckExpr(e.source, env);
      var _ :- TypeRelations.CheckCast(types, e.castType, src.ty);
      return Ok(Typed(Cast(e.castType, src.expr, e.attr), e.castType));
    }

    method CheckIndexOf(e: Expr, env: TypeEnvironment) returns (r: Result<Typed, Error>)
      requires e.IndexOf?
      ensures r == IndexOfType(Ctx(), env.vars, e)
      decreases e, 1
    {
      var src :- CheckExpr(e.source, env);
      var index :- CheckExpr(e.index, env);
      var _ :- CheckSubtype(types, Int, index.ty);
      var st :- CheckInstanceOf(types, src.ty, {ListKind, StrungKind});
      return Ok(Typed(IndexOf(src.expr, index.expr, e.attr), if st.Strung? then Char else st.element));
    }

    method CheckInvoke(e: Expr, env: TypeEnvironment) returns (r: Result<Typed, Error>)
      requires e.Invoke?
      ensures r == InvokeType(Ctx(), env.vars, e)
      decreases e, 1
    {
      if e.name !in functions {
        return Err(UNKNOWN_FUNCTION);
      }
      var fd := functions[e.name];
      if |e.arguments| != |fd.parameters| {
        return Err(ARGUMENT_COUNT);
      }
      var args: seq<Expr> := [];
      var i := 0;
      PrefixedNil(ArgumentsType(Ctx(), env.vars, e, fd.parameters, 0));
      while i < |fd.parameters|
        invariant 0 <= i <= |fd.parameters|
        invariant ArgumentsType(Ctx(), env.vars, e, fd.parameters, 0) == Prefixed(args, ArgumentsType(Ctx(), env.vars, e, fd.parameters, i))
      {
        var a :- CheckExpr(e.arguments[i], env);
        var _ :- CheckSubtype(types, fd.parameters[i].ty, a.ty);
        assert ArgumentsType(Ctx(), env.vars, e, fd.parameters, i) == Cons(a.expr, ArgumentsType(Ctx(), env.vars, e, fd.parameters, i + 1));
        PrefixedCons(args, a.expr, ArgumentsType(Ctx(), env.vars, e, fd.parameters, i + 1));
        args := args + [a.expr];
        i := i + 1;
      }
      PrefixedEnd(args);
      return Ok(Typed(Invoke(e.name, args, e.attr), fd.ret));
    }

    method CheckList(e: Expr, env: TypeEnvironment) returns (r: Result<Typed, Error>)
      requires e.ListConstructor?
      ensures r == ListType(Ctx(), env.vars, e)
      decreases e, 1
    {
      var ts: seq<Typed> := [];
      var i := 0;
      PrefixedNil(ElementsType(Ctx(), env.vars, e, 0));
      while i < |e.arguments|
        invariant 0 <= i <= |e.arguments|
        invariant ElementsType(Ctx(), env.vars, e, 0) == Prefixed(ts, ElementsType(Ctx(), env.vars, e, i))
      {
        var a :- CheckExpr(e.arguments[i], env);
        assert ElementsType(Ctx(), env.vars, e, i) == Cons(a, ElementsType(Ctx(), env.vars, e, i + 1));
        PrefixedCons(ts, a, ElementsType(Ctx(), env.vars, e, i + 1));
        ts := ts + [a];
        i := i + 1;
      }
      PrefixedEnd(ts);
      var kept :- Simplify(Types(ts));
      return Ok(Typed(ListConstructor(Exprs(ts), e.attr), ListOf(kept)));
    }

    /** The element types with each one equivalent to a later one dropped. */
    method Simplify(ts: seq<Type>) returns (r: Result<seq<Type>, Error>)
      ensures r == Kept(types, ts, 0)
    {
      var kept: seq<Type> := [];
      var i := 0;
      PrefixedNil(Kept(types, ts, 0));
      while i < |ts|
        invariant 0 <= i <= |ts|
        invariant Kept(types, ts, 0) == Prefixed(kept, Kept(types, ts, i))
      {
        var subsumed := false;
        var j := i + 1;
        while j < |ts|
          invariant i + 1 <= j <= |ts|
          invariant Subsumed(types, ts, i, i + 1) == Subsumed(types, ts, i, j)
        {
          var same :- Equivalent(types, ts[i], ts[j]);
          if same {
            assert Subsumed(types, ts, i, j) == Ok(true);
            subsumed := true;
            break;
          }
          j := j + 1;
        }
        assert Subsumed(types, ts, i, i + 1) == Ok(subsumed);
        if !subsumed {
          assert Kept(types, ts, i) == Cons(ts[i], Kept(types, ts, i + 1));
          PrefixedCons(kept, ts[i], Kept(types, ts, i + 1));
          kept := kept + [ts[i]];
        }
        i := i + 1;
      }
      PrefixedEnd(kept);
      return Ok(kept);
    }

    method CheckRecordAccess(e: Expr, env: TypeEnvironment) returns (r: Result<Typed, Error>)
      requires e.RecordAccess?
      ensures r == RecordAccessType(Ctx(), env.vars, e)
      decreases e, 1
    {
      var src :- CheckExpr(e.source, env);
      var rec :- CheckInstanceOf(types, src.ty, {RecordKind});
      var field := LookupField(rec.fields, e.field);
      if field.None? {
        return Err(NO_SUCH_FIELD);
      }
      return Ok(Typed(RecordAccess(src.expr, e.field, e.attr), field.value));
    }

    method CheckRecord(e: Expr, env: TypeEnvironment) returns (r: Result<Typed, Error>)
      requires e.RecordConstructor?
      ensures r == RecordType(Ctx(), env.vars, e)
      decreases e, 1
    {
      var tis: seq<TypedInit> := [];
      var fields: seq<Field> := [];
      var i := 0;
      PrefixedNil(InitsType(Ctx(), env.vars, e, 0));
      while i < |e.inits|
        invariant 0 <= i <= |e.inits|
        invariant InitsType(Ctx(), env.vars, e, 0) == Prefixed(tis, InitsType(Ctx(), env.vars, e, i))
        invariant fields == PutFields([], tis)
      {
        var v :- CheckExpr(e.inits[i].value, env);
        var ti := TypedInit(FieldInit(e.inits[i].name, v.expr), v.ty);
        assert InitsType(Ctx(), env.vars, e, i) == Cons(ti, InitsType(Ctx(), env.vars, e, i + 1));
        PrefixedCons(tis, ti, InitsType(Ctx(), env.vars, e, i + 1));
        PutFieldsAppend([], tis, ti);
        fields := PutField(fields, e.inits[i].name, v.ty);
        tis := tis + [ti];
        i := i + 1;
      }
      PrefixedEnd(tis);
      return Ok(Typed(RecordConstructor(Inits(tis), e.attr), Record(fields)));
    }

    method CheckUnary(e: Expr, env: TypeEnvironment) returns (r: Result<Typed, Error>)
      requires e.Unary?
      ensures r == UnaryType(Ctx(), env.vars, e)
      decreases e, 1
    {
      var t :- CheckExpr(e.operand, env);
      var ty := t.ty;
      match e.uop {
        case NEG =>
          var _ :- CheckInstanceOf(types, t.ty, {IntKind, RealKind});
        case NOT =>
          var _ :- CheckSubtype(types, Bool, t.ty);
        case LENGTHOF =>
          var _ :- CheckInstanceOf(types, t.ty, {ListKind, StrungKind});
          ty := Int;
      }
      return Ok(Typed(Unary(e.uop, t.expr, e.attr), ty));
    }
  }
}
