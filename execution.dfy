/** The reference interpreter: big-step execution of While programs over
    values. A statement yields a signal (carry on, or leave the function
    with a value) together with the updated frame and the printed lines; an
    expression yields a value and the printed lines. Loop iterations and
    calls each spend one unit of fuel, which stands in for the source's
    unbounded execution. */
module Execution {
  import opened Wrappers
  import opened Errors
  import opened Syntax
  import opened Values
  import JavaInt

  const NULL_DEREFERENCE := NullPointer("null dereference")
  const WRONG_KIND := ClassCast("value of the wrong kind")
  const OUT_OF_BOUNDS := IndexOutOfBounds("index out of range")
  const DIVIDE_BY_ZERO := Arithmetic("/ by zero")
  const WRONG_ARGUMENT_COUNT := Runtime("invalid number of arguments supplied")
  const UNKNOWN_BINARY := InternalFailure("unknown binary expression encountered")
  const UNKNOWN_LVAL := InternalFailure("unknown lval encountered")
  const FLOATING_POINT := Unsupported("floating point")
  const NO_MAIN := "Cannot find a main() function"

  /** How a statement's Java result is read. The source returns a plain
      Object from every statement and treats null as "carry on"; Intended
      is the reading its comments describe, where only a return statement
      leaves a block. */
  datatype Mode = AsWritten | Intended

  /** The declarations by name, as the interpreter's HashMap holds them. */
  datatype Context = Context(decls: map<string, Decl>, mode: Mode)

  type Frame = map<string, Value>

  datatype Signal = Normal | Returned(value: Value)

  datatype Evaluated = Evaluated(value: Value, output: seq<string>)

  datatype EvaluatedList = EvaluatedList(values: seq<Value>, output: seq<string>)

  datatype EvaluatedFields = EvaluatedFields(fields: map<string, Value>, output: seq<string>)

  datatype Executed = Executed(signal: Signal, frame: Frame, output: seq<string>)

  /** Where an assignment's target lives: a variable, then field names and
      list positions. */
  datatype Step = FieldStep(name: string) | IndexStep(index: int)

  datatype Path = Path(root: string, steps: seq<Step>)

  /** An lval's source evaluated, with its location when it has one. */
  datatype Located = Located(value: Value, location: Option<Path>, output: seq<string>)

  // ---------------------------------------------------------------------
  // Casts and operators on values

  /** `(Boolean) v` used as a boolean. */
  function AsBool(v: Value): (r: Result<bool, Error>)
    ensures r.Ok? <==> v.BoolValue?
    ensures r.Ok? ==> r.value == v.b
    ensures v == NullValue ==> r == Err(NULL_DEREFERENCE)
  {
    match v
    case BoolValue(b) => Ok(b)
    case NullValue => Err(NULL_DEREFERENCE)
    case _ => Err(WRONG_KIND)
  }

  /** `(Integer) v` used as an int. */
  function AsInt(v: Value): (r: Result<int, Error>)
    ensures r.Ok? <==> v.IntValue?
    ensures r.Ok? ==> r.value == v.i
    ensures v == NullValue ==> r == Err(NULL_DEREFERENCE)
  {
    match v
    case IntValue(i) => Ok(i)
    case NullValue => Err(NULL_DEREFERENCE)
    case _ => Err(WRONG_KIND)
  }

  /** The Java value of a literal; real literals are not modelled. */
  function LiteralValue(lit: Literal): (r: Result<Value, Error>)
    ensures r.Err? <==> lit.RealLit?
  {
    match lit
    case NullLit => Ok(NullValue)
    case BoolLit(b) => Ok(BoolValue(b))
    case CharLit(c) => Ok(CharValue(c))
    case IntLit(i) => Ok(IntValue(i))
    case StringLit(s) => Ok(StringValue(s))
    case RealLit(_) => Err(FLOATING_POINT)
  }

  predicate IsArithmetic(op: BOp) {
    op == ADD || op == SUB || op == MUL || op == DIV || op == REM
  }

  predicate IsComparison(op: BOp) {
    op == LT || op == LTEQ || op == GT || op == GTEQ
  }

  /** The left operand of an arithmetic or comparison operator when it is
      not an Integer: the source casts it to Double, which fails for every
      value the model has. */
  function NotInteger(l: Value): Error {
    if l == NullValue then NULL_DEREFERENCE else WRONG_KIND
  }

  /** `+ - * / %` on Java ints. */
  function Arith(op: BOp, x: int, y: int): (r: Result<Value, Error>)
    requires IsArithmetic(op)
    ensures r.Err? <==> (op == DIV || op == REM) && y == 0
  {
    match op
    case ADD => Ok(IntValue(JavaInt.Add(x, y)))
    case SUB => Ok(IntValue(JavaInt.Sub(x, y)))
    case MUL => Ok(IntValue(JavaInt.Mul(x, y)))
    case DIV => if y == 0 then Err(DIVIDE_BY_ZERO) else Ok(IntValue(JavaInt.Div(x, y)))
    case REM => if y == 0 then Err(DIVIDE_BY_ZERO) else Ok(IntValue(JavaInt.Rem(x, y)))
  }

  function Compare(op: BOp, x: int, y: int): bool
    requires IsComparison(op)
  {
    match op
    case LT => x < y
    case LTEQ => x <= y
    case GT => x > y
    case GTEQ => x >= y
  }

  /** `++`: string concatenation, printing the other operand when only one
      side is a string, and list concatenation. */
  function Append(l: Value, r: Value): Result<Value, Error> {
    if l.StringValue? && r.StringValue? then Ok(StringValue(l.s + r.s))
    else if l.StringValue? then Ok(StringValue(l.s + Show(r)))
    else if r.StringValue? then Ok(StringValue(Show(l) + r.s))
    else if l.ListValue? && r.ListValue? then Ok(ListValue(l.elements + r.elements))
    else Err(UNKNOWN_BINARY)
  }

  /** A binary operator other than `&&` and `||` on evaluated operands.
      Equality is `lhs.equals(rhs)`, which is structural on every value the
      interpreter builds and fails on a null left side. */
  function ApplyBinary(op: BOp, l: Value, r: Value): Result<Value, Error>
    requires op != AND && op != OR
  {
    if op == EQ || op == NEQ then
      if l == NullValue then Err(NULL_DEREFERENCE) else Ok(BoolValue((l == r) == (op == EQ)))
    else if op == APPEND then Append(l, r)
    else if !l.IntValue? then Err(NotInteger(l))
    else
      var y :- AsInt(r);
      if IsArithmetic(op) then Arith(op, l.i, y) else Ok(BoolValue(Compare(op, l.i, y)))
  }

  /** `!`, unary `-` and `|...|`. */
  function UnaryValue(op: UOp, v: Value): Result<Value, Error> {
    match op
    case NOT =>
      var b :- AsBool(v);
      Ok(BoolValue(!b))
    case NEG =>
      var i :- AsInt(v);
      Ok(IntValue(JavaInt.Neg(i)))
    case LENGTHOF =>
      if v.StringValue? then Ok(IntValue(|v.s|))
      else if v.ListValue? then Ok(IntValue(|v.elements|))
      else if v == NullValue then Err(NULL_DEREFERENCE)
      else Err(WRONG_KIND)
  }

  /** `src[idx]` on a string or a list. */
  function IndexValue(src: Value, idx: Value): (r: Result<Value, Error>)
    ensures r.Ok? ==> idx.IntValue?
  {
    var i :- AsInt(idx);
    if src.StringValue? then
      if 0 <= i < |src.s| then Ok(CharValue(src.s[i])) else Err(OUT_OF_BOUNDS)
    else if src.ListValue? then
      if 0 <= i < |src.elements| then Ok(src.elements[i]) else Err(OUT_OF_BOUNDS)
    else if src == NullValue then Err(NULL_DEREFERENCE)
    else Err(WRONG_KIND)
  }

  /** `src.f`: HashMap.get, so a missing field reads as null. */
  function FieldValue(src: Value, f: string): (r: Result<Value, Error>)
    ensures r.Ok? <==> src.RecordValue?
    ensures src.RecordValue? && f !in src.fields ==> r == Ok(NullValue)
    ensures src == NullValue ==> r == Err(NULL_DEREFERENCE)
  {
    if src.RecordValue? then Ok(if f in src.fields then src.fields[f] else NullValue)
    else if src == NullValue then Err(NULL_DEREFERENCE)
    else Err(WRONG_KIND)
  }

  /** HashMap.get on the frame. */
  function Lookup(frame: Frame, n: string): Value {
    if n in frame then frame[n] else NullValue
  }

  /** The signal a Java statement result stands for: null carries on. */
  function ObjectSignal(v: Value): Signal {
    if v == NullValue then Normal else Returned(v)
  }

  /** What a call gives back: the returned value, or null when the body
      ran to its end. */
  function ResultOf(s: Signal): Value {
    if s.Returned? then s.value else NullValue
  }

  /** The frame of a call: parameter i bound to argument i, a later
      parameter of the same name winning. */
  function Bind(ps: seq<Parameter>, args: seq<Value>): (f: Frame)
    requires |ps| == |args|
    ensures f.Keys == set i | 0 <= i < |ps| :: ps[i].name
    decreases |ps|
  {
    if ps == [] then map[]
    else
      var n := |ps| - 1;
      Bind(ps[..n], args[..n])[ps[n].name := args[n]]
  }

  /** The declarations by name; a later declaration replaces an earlier
      one of the same name. */
  function Declarations(ds: seq<Decl>): (m: map<string, Decl>)
    ensures m.Keys == set i | 0 <= i < |ds| :: ds[i].Name()
    decreases |ds|
  {
    if ds == [] then map[]
    else
      var n := |ds| - 1;
      Declarations(ds[..n])[ds[n].Name() := ds[n]]
  }

  /** The value at the end of a path, after the assignment put v there. */
  function Update(root: Value, steps: seq<Step>, v: Value): Value
    decreases |steps|
  {
    if steps == [] then v
    else
      match steps[0]
      case FieldStep(f) =>
        if root.RecordValue? then
          RecordValue(root.fields[f := Update(if f in root.fields then root.fields[f] else NullValue, steps[1..], v)])
        else root
      case IndexStep(i) =>
        if root.ListValue? && 0 <= i < |root.elements| then
          ListValue(root.elements[i := Update(root.elements[i], steps[1..], v)])
        else root
  }

  /** The frame after a store through a location; a value with no location
      is a fresh object, and storing into it changes no variable. */
  function Store(frame: Frame, loc: Option<Path>, v: Value): Frame {
    match loc
    case None => frame
    case Some(p) => frame[p.root := Update(Lookup(frame, p.root), p.steps, v)]
  }

  function Extend(loc: Option<Path>, s: Step): Option<Path> {
    match loc
    case None => None
    case Some(p) => Some(Path(p.root, p.steps + [s]))
  }

  // ---------------------------------------------------------------------
  // Evaluation and execution

  /** execute(Expr): the value and the lines printed by the calls it
      makes. Expressions never change the frame. */
  function Eval(ctx: Context, frame: Frame, out: seq<string>, e: Expr, fuel: nat): (r: Result<Evaluated, Error>)
    ensures r.Ok? ==> out <= r.value.output
    decreases fuel, e, 2
  {
    match e
    case Binary(_, _, _, _) => EvalBinary(ctx, frame, out, e, fuel)
    case Cast(_, source, _) => Eval(ctx, frame, out, source, fuel)
    case Constant(lit, _) =>
      var v :- LiteralValue(lit);
      Ok(Evaluated(v, out))
    case IndexOf(source, index, _) =>
      var s :- Eval(ctx, frame, out, source, fuel);
      var i :- Eval(ctx, frame, s.output, index, fuel);
      var v :- IndexValue(s.value, i.value);
      Ok(Evaluated(v, i.output))
    case Invoke(_, _, _) => EvalInvoke(ctx, frame, out, e, fuel)
    case ListConstructor(args, _) =>
      var vs :- EvalList(ctx, frame, out, args, fuel);
      Ok(Evaluated(ListValue(vs.values), vs.output))
    case RecordAccess(source, f, _) =>
      var s :- Eval(ctx, frame, out, source, fuel);
      var v :- FieldValue(s.value, f);
      Ok(Evaluated(v, s.output))
    case RecordConstructor(inits, _) =>
      var fs :- EvalFields(ctx, frame, out, inits, map[], fuel);
      Ok(Evaluated(RecordValue(fs.fields), fs.output))
    case Unary(op, operand, _) =>
      var x :- Eval(ctx, frame, out, operand, fuel);
      var v :- UnaryValue(op, x.value);
      Ok(Evaluated(v, x.output))
    case Variable(n, _) => Ok(Evaluated(Lookup(frame, n), out))
  }

  /** The left operand first; `&&` and `||` evaluate the right operand only
      when the left one does not decide the result. */
  function EvalBinary(ctx: Context, frame: Frame, out: seq<string>, e: Expr, fuel: nat): (r: Result<Evaluated, Error>)
    requires e.Binary?
    ensures r.Ok? ==> out <= r.value.output
    decreases fuel, e, 1
  {
    var l :- Eval(ctx, frame, out, e.lhs, fuel);
    if e.op == AND || e.op == OR then
      var b :- AsBool(l.value);
      if b == (e.op == OR) then Ok(Evaluated(BoolValue(b), l.output))
      else
        var r :- Eval(ctx, frame, l.output, e.rhs, fuel);
        var c :- AsBool(r.value);
        Ok(Evaluated(BoolValue(c), r.output))
    else
      var r :- Eval(ctx, frame, l.output, e.rhs, fuel);
      var v :- ApplyBinary(e.op, l.value, r.value);
      Ok(Evaluated(v, r.output))
  }

  /** A call: the arguments in order, then the declaration of that name,
      which must be a function. */
  function EvalInvoke(ctx: Context, frame: Frame, out: seq<string>, e: Expr, fuel: nat): (r: Result<Evaluated, Error>)
    requires e.Invoke?
    ensures r.Ok? ==> out <= r.value.output
    decreases fuel, e, 1
  {
    var args :- EvalList(ctx, frame, out, e.arguments, fuel);
    if e.name !in ctx.decls then Err(NULL_DEREFERENCE)
    else if !ctx.decls[e.name].Fun? then Err(WRONG_KIND)
    else if fuel == 0 then Err(OutOfFuel)
    else Call(ctx, ctx.decls[e.name].fun, args.values, args.output, fuel - 1)
  }

  function EvalList(ctx: Context, frame: Frame, out: seq<string>, es: seq<Expr>, fuel: nat): (r: Result<EvaluatedList, Error>)
    ensures r.Ok? ==> out <= r.value.output && |r.value.values| == |es|
    decreases fuel, es, 2
  {
    if es == [] then Ok(EvaluatedList([], out))
    else
      var x :- Eval(ctx, frame, out, es[0], fuel);
      var rest :- EvalList(ctx, frame, x.output, es[1..], fuel);
      Ok(EvaluatedList([x.value] + rest.values, rest.output))
  }

  /** A record constructor's fields in order, each put into the map. */
  function EvalFields(ctx: Context, frame: Frame, out: seq<string>, inits: seq<FieldInit>, acc: map<string, Value>, fuel: nat): (r: Result<EvaluatedFields, Error>)
    ensures r.Ok? ==> out <= r.value.output
    decreases fuel, inits, 2
  {
    if inits == [] then Ok(EvaluatedFields(acc, out))
    else
      var x :- Eval(ctx, frame, out, inits[0].value, fuel);
      EvalFields(ctx, frame, x.output, inits[1..], acc[inits[0].name := x.value], fuel)
  }

  /** execute(FunDecl, Object...): the argument count is checked, the
      parameters are bound by position and the body runs in the new frame. */
  function Call(ctx: Context, fd: FunDecl, args: seq<Value>, out: seq<string>, fuel: nat): (r: Result<Evaluated, Error>)
    ensures r.Ok? ==> out <= r.value.output
    decreases fuel, fd, 0
  {
    if |fd.parameters| != |args| then Err(WRONG_ARGUMENT_COUNT)
    else
      var x :- ExecBlock(ctx, Bind(fd.parameters, args), out, fd.body, fuel);
      Ok(Evaluated(ResultOf(x.signal), x.output))
  }

  /** execute(List<Stmt>): the statements in order until one returns. */
  function ExecBlock(ctx: Context, frame: Frame, out: seq<string>, ss: seq<Stmt>, fuel: nat): (r: Result<Executed, Error>)
    ensures r.Ok? ==> out <= r.value.output
    decreases fuel, ss, 0
  {
    if ss == [] then Ok(Executed(Normal, frame, out))
    else
      var x :- Exec(ctx, frame, out, ss[0], fuel);
      if x.signal.Returned? then Ok(x) else ExecBlock(ctx, x.frame, x.output, ss[1..], fuel)
  }

  /** execute(Stmt). */
  function Exec(ctx: Context, frame: Frame, out: seq<string>, s: Stmt, fuel: nat): (r: Result<Executed, Error>)
    ensures r.Ok? ==> out <= r.value.output
    decreases fuel, s, 2
  {
    match s
    case Assign(_, _) => ExecAssign(ctx, frame, out, s, fuel)
    case Print(e) =>
      var x :- Eval(ctx, frame, out, e, fuel);
      Ok(Executed(Normal, frame, x.output + [Show(x.value)]))
    case Return(None) => Ok(Executed(Returned(EmptySet), frame, out))
    case Return(Some(e)) =>
      var x :- Eval(ctx, frame, out, e, fuel);
      Ok(Executed(if ctx.mode == AsWritten then ObjectSignal(x.value) else Returned(x.value), frame, x.output))
    case Declare(d) => ExecDeclare(ctx, frame, out, d, fuel)
    case InvokeStmt(call) =>
      var x :- Eval(ctx, frame, out, call, fuel);
      Ok(Executed(if ctx.mode == AsWritten then ObjectSignal(x.value) else Normal, frame, x.output))
    case IfElse(condition, t, f) =>
      var c :- Eval(ctx, frame, out, condition, fuel);
      var b :- AsBool(c.value);
      ExecBlock(ctx, frame, c.output, if b then t else f, fuel)
    case For(_, _, _, _) =>
      var d :- ExecDeclare(ctx, frame, out, s.declaration, fuel);
      ForLoop(ctx, d.frame, d.output, s, fuel)
    case While(_, _) => WhileLoop(ctx, frame, out, s, fuel)
  }

  /** A declaration stores its initialiser's value, or the EMPTY_SET
      sentinel when it has none. */
  function ExecDeclare(ctx: Context, frame: Frame, out: seq<string>, d: VarDecl, fuel: nat): (r: Result<Executed, Error>)
    ensures r.Ok? ==> out <= r.value.output && r.value.signal == Normal
    decreases fuel, d, 0
  {
    match d.init
    case None => Ok(Executed(Normal, frame[d.name := EmptySet], out))
    case Some(e) =>
      var x :- Eval(ctx, frame, out, e, fuel);
      Ok(Executed(Normal, frame[d.name := x.value], x.output))
  }

  /** An assignment to a variable, a record field or a list element. The
      source of a field or element target is evaluated first, then the
      index, then the right side; the new value is stored where the source
      lives. */
  function ExecAssign(ctx: Context, frame: Frame, out: seq<string>, s: Stmt, fuel: nat): (r: Result<Executed, Error>)
    requires s.Assign?
    ensures r.Ok? ==> out <= r.value.output && r.value.signal == Normal
    decreases fuel, s, 1
  {
    var lhs := s.lhs;
    if lhs.Variable? then
      var x :- Eval(ctx, frame, out, s.rhs, fuel);
      Ok(Executed(Normal, frame[lhs.name := x.value], x.output))
    else if lhs.RecordAccess? then
      var src :- EvalLocation(ctx, frame, out, lhs.source, fuel);
      if !src.value.RecordValue? && src.value != NullValue then Err(WRONG_KIND)
      else
        var x :- Eval(ctx, frame, src.output, s.rhs, fuel);
        if src.value == NullValue then Err(NULL_DEREFERENCE)
        else
          var updated := RecordValue(src.value.fields[lhs.field := x.value]);
          Ok(Executed(Normal, Store(frame, src.location, updated), x.output))
    else if lhs.IndexOf? then
      var src :- EvalLocation(ctx, frame, out, lhs.source, fuel);
      if !src.value.ListValue? && src.value != NullValue then Err(WRONG_KIND)
      else
        var i :- Eval(ctx, frame, src.output, lhs.index, fuel);
        if !i.value.IntValue? && i.value != NullValue then Err(WRONG_KIND)
        else
          var x :- Eval(ctx, frame, i.output, s.rhs, fuel);
          if src.value == NullValue || i.value == NullValue then Err(NULL_DEREFERENCE)
          else if !(0 <= i.value.i < |src.value.elements|) then Err(OUT_OF_BOUNDS)
          else
            var updated := ListValue(src.value.elements[i.value.i := x.value]);
            Ok(Executed(Normal, Store(frame, src.location, updated), x.output))
    else Err(UNKNOWN_LVAL)
  }

  /** An expression evaluated as the source of an assignment target: its
      value as Eval gives it, and where that value lives when it is reached
      from a variable through fields, indices and casts. */
  function EvalLocation(ctx: Context, frame: Frame, out: seq<string>, e: Expr, fuel: nat): (r: Result<Located, Error>)
    ensures r.Ok? ==> out <= r.value.output
    decreases fuel, e, 3
  {
    match e
    case Variable(n, _) => Ok(Located(Lookup(frame, n), Some(Path(n, [])), out))
    case RecordAccess(source, f, _) =>
      var s :- EvalLocation(ctx, frame, out, source, fuel);
      var v :- FieldValue(s.value, f);
      Ok(Located(v, Extend(s.location, FieldStep(f)), s.output))
    case IndexOf(source, index, _) =>
      var s :- EvalLocation(ctx, frame, out, source, fuel);
      var i :- Eval(ctx, frame, s.output, index, fuel);
      var v :- IndexValue(s.value, i.value);
      Ok(Located(v, Extend(s.location, IndexStep(i.value.i)), i.output))
    case Cast(_, source, _) => EvalLocation(ctx, frame, out, source, fuel)
    case _ =>
      var x :- Eval(ctx, frame, out, e, fuel);
      Ok(Located(x.value, None, x.output))
  }

  /** A while loop: the condition, then the body; a return from the body
      leaves the loop. */
  function WhileLoop(ctx: Context, frame: Frame, out: seq<string>, s: Stmt, fuel: nat): (r: Result<Executed, Error>)
    requires s.While?
    ensures r.Ok? ==> out <= r.value.output
    decreases fuel, s, 1
  {
    var c :- Eval(ctx, frame, out, s.condition, fuel);
    var b :- AsBool(c.value);
    if !b then Ok(Executed(Normal, frame, c.output))
    else
      var x :- ExecBlock(ctx, frame, c.output, s.body, fuel);
      if x.signal.Returned? then Ok(x)
      else if fuel == 0 then Err(OutOfFuel)
      else WhileLoop(ctx, x.frame, x.output, s, fuel - 1)
  }

  /** A for loop after its declaration: condition, body, increment. A
      return from the body leaves before the increment; the increment's own
      result is ignored. */
  function ForLoop(ctx: Context, frame: Frame, out: seq<string>, s: Stmt, fuel: nat): (r: Result<Executed, Error>)
    requires s.For?
    ensures r.Ok? ==> out <= r.value.output
    decreases fuel, s, 1
  {
    var c :- Eval(ctx, frame, out, s.condition, fuel);
    var b :- AsBool(c.value);
    if !b then Ok(Executed(Normal, frame, c.output))
    else
      var x :- ExecBlock(ctx, frame, c.output, s.body, fuel);
      if x.signal.Returned? then Ok(x)
      else
        var i :- Exec(ctx, x.frame, x.output, s.increment, fuel);
        if fuel == 0 then Err(OutOfFuel)
        else ForLoop(ctx, i.frame, i.output, s, fuel - 1)
  }

  /** run(WhileFile), after the console lines out: main, called with no
      arguments, or a message when the file declares no function of that
      name. */
  function Run(wf: WhileFile, mode: Mode, out: seq<string>, fuel: nat): (r: Result<seq<string>, Error>)
    ensures r.Ok? ==> out <= r.value
  {
    var decls := Declarations(wf.declarations);
    if "main" in decls && decls["main"].Fun? then
      var x :- Call(Context(decls, mode), decls["main"].fun, [], out, fuel);
      Ok(x.output)
    else Ok(out + [NO_MAIN])
  }

  /** The last declaration named main decides: a function is called, and
      anything else prints the message. */
  lemma {:induction false} MainLookup(ds: seq<Decl>, i: nat)
    requires i < |ds| && ds[i].Name() == "main"
    requires forall j | i < j < |ds| :: ds[j].Name() != "main"
    ensures Declarations(ds)["main"] == ds[i]
    decreases |ds|
  {
    var n := |ds| - 1;
    if i < n {
      MainLookup(ds[..n], i);
    }
  }

  lemma NoMain(wf: WhileFile, mode: Mode, out: seq<string>, fuel: nat)
    requires forall j | 0 <= j < |wf.declarations| :: !(wf.declarations[j].Fun? && wf.declarations[j].Name() == "main")
    ensures Run(wf, mode, out, fuel) == Ok(out + [NO_MAIN])
  {
    var decls := Declarations(wf.declarations);
    if "main" in decls {
      var i :| 0 <= i < |wf.declarations| && wf.declarations[i].Name() == "main";
      var k := |wf.declarations| - 1;
      while wf.declarations[k].Name() != "main"
        invariant i <= k < |wf.declarations|
        invariant forall j | k < j < |wf.declarations| :: wf.declarations[j].Name() != "main"
        decreases k
      {
        k := k - 1;
      }
      MainLookup(wf.declarations, k);
      assert !decls["main"].Fun?;
    }
  }

  // ---------------------------------------------------------------------
  // Blocks

  /** Running a + b is running a, then b when a neither failed nor
      returned. */
  lemma {:induction false} BlockConcat(ctx: Context, frame: Frame, out: seq<string>, a: seq<Stmt>, b: seq<Stmt>, fuel: nat)
    ensures ExecBlock(ctx, frame, out, a + b, fuel) ==
      match ExecBlock(ctx, frame, out, a, fuel)
      case Err(err) => Err(err)
      case Ok(x) => if x.signal.Returned? then Ok(x) else ExecBlock(ctx, x.frame, x.output, b, fuel)
    decreases |a|
  {
    if a == [] {
      assert a + b == b;
    } else {
      assert (a + b)[0] == a[0] && (a + b)[1..] == a[1..] + b;
      match Exec(ctx, frame, out, a[0], fuel)
      case Err(_) =>
      case Ok(x) =>
        if !x.signal.Returned? {
          BlockConcat(ctx, x.frame, x.output, a[1..], b, fuel);
        }
    }
  }

  /** A return statement with a value leaves the block with that value;
      nothing after it runs. */
  lemma ReturnLeavesBlock(ctx: Context, frame: Frame, out: seq<string>, e: Expr, rest: seq<Stmt>, fuel: nat, x: Evaluated)
    requires ctx.mode == Intended
    requires Eval(ctx, frame, out, e, fuel) == Ok(x)
    ensures ExecBlock(ctx, frame, out, [Return(Some(e))] + rest, fuel) == Ok(Executed(Returned(x.value), frame, x.output))
  {
    assert ([Return(Some(e))] + rest)[0] == Return(Some(e));
  }

  /** A bare `return;` leaves the block with the EMPTY_SET sentinel. */
  lemma BareReturnLeavesBlock(ctx: Context, frame: Frame, out: seq<string>, rest: seq<Stmt>, fuel: nat)
    ensures ExecBlock(ctx, frame, out, [Return(None)] + rest, fuel) == Ok(Executed(Returned(EmptySet), frame, out))
  {
    assert ([Return(None)] + rest)[0] == Return(None);
  }

  /** As written, `return e;` where e is null does not stop the block:
      the statements after it run. */
  lemma ReturnNullContinuesAsWritten(ctx: Context, frame: Frame, out: seq<string>, e: Expr, rest: seq<Stmt>, fuel: nat, o: seq<string>)
    requires ctx.mode == AsWritten
    requires Eval(ctx, frame, out, e, fuel) == Ok(Evaluated(NullValue, o))
    ensures ExecBlock(ctx, frame, out, [Return(Some(e))] + rest, fuel) == ExecBlock(ctx, frame, o, rest, fuel)
  {
    var ss := [Return(Some(e))] + rest;
    assert ss[0] == Return(Some(e)) && ss[1..] == rest;
  }

  /** As written, a call used as a statement whose callee returns a
      non-null value ends the calling block with that value. */
  lemma InvokeStatementReturnsAsWritten(ctx: Context, frame: Frame, out: seq<string>, call: Expr, rest: seq<Stmt>, fuel: nat, x: Evaluated)
    requires ctx.mode == AsWritten
    requires Eval(ctx, frame, out, call, fuel) == Ok(x) && x.value != NullValue
    ensures ExecBlock(ctx, frame, out, [InvokeStmt(call)] + rest, fuel) == Ok(Executed(Returned(x.value), frame, x.output))
  {
    assert ([InvokeStmt(call)] + rest)[0] == InvokeStmt(call);
  }

  /** A call used as a statement discards its result and the block goes
      on. */
  lemma InvokeStatementContinues(ctx: Context, frame: Frame, out: seq<string>, call: Expr, rest: seq<Stmt>, fuel: nat, x: Evaluated)
    requires ctx.mode == Intended
    requires Eval(ctx, frame, out, call, fuel) == Ok(x)
    ensures ExecBlock(ctx, frame, out, [InvokeStmt(call)] + rest, fuel) == ExecBlock(ctx, frame, x.output, rest, fuel)
  {
    var ss := [InvokeStmt(call)] + rest;
    assert ss[0] == InvokeStmt(call) && ss[1..] == rest;
  }

  // ---------------------------------------------------------------------
  // Operators

  /** `&&` with a false left operand and `||` with a true one give that
      operand without evaluating the right side, whatever it would do. */
  lemma ShortCircuit(ctx: Context, frame: Frame, out: seq<string>, op: BOp, l: Expr, r: Expr, attr: Option<Type>, fuel: nat, o: seq<string>)
    requires op == AND || op == OR
    requires Eval(ctx, frame, out, l, fuel) == Ok(Evaluated(BoolValue(op == OR), o))
    ensures Eval(ctx, frame, out, Binary(op, l, r, attr), fuel) == Ok(Evaluated(BoolValue(op == OR), o))
  {
  }

  /** Otherwise the result is the right operand's, which must be a
      boolean. */
  lemma NoShortCircuit(ctx: Context, frame: Frame, out: seq<string>, op: BOp, l: Expr, r: Expr, attr: Option<Type>, fuel: nat, o: seq<string>)
    requires op == AND || op == OR
    requires Eval(ctx, frame, out, l, fuel) == Ok(Evaluated(BoolValue(op == AND), o))
    ensures var v := Eval(ctx, frame, out, Binary(op, l, r, attr), fuel);
      match Eval(ctx, frame, o, r, fuel)
      case Err(err) => v == Err(err)
      case Ok(y) => if y.value.BoolValue? then v == Ok(Evaluated(y.value, y.output)) else v.Err?
  {
  }

  /** Integer `/` and `%` truncate toward zero: they recombine to the
      dividend, the remainder is smaller than the divisor and takes the
      dividend's sign, and a zero divisor throws. */
  lemma IntegerDivision(x: int, y: int)
    requires JavaInt.InRange(x) && JavaInt.InRange(y)
    ensures y == 0 ==> ApplyBinary(DIV, IntValue(x), IntValue(y)) == Err(DIVIDE_BY_ZERO)
    ensures y == 0 ==> ApplyBinary(REM, IntValue(x), IntValue(y)) == Err(DIVIDE_BY_ZERO)
    ensures y != 0 ==>
      var d, m := ApplyBinary(DIV, IntValue(x), IntValue(y)), ApplyBinary(REM, IntValue(x), IntValue(y));
      d.Ok? && d.value.IntValue? && m.Ok? && m.value.IntValue? &&
      JavaInt.Wrap(d.value.i * y + m.value.i) == x &&
      JavaInt.Abs(m.value.i) < JavaInt.Abs(y) &&
      (x >= 0 ==> m.value.i >= 0) && (x < 0 ==> m.value.i <= 0)
  {
    if y != 0 {
      JavaInt.RemProperties(x, y);
      var q := JavaInt.Quotient(x, y);
      var m := JavaInt.Rem(x, y);
      if x == JavaInt.MIN && y == -1 {
        assert m == 0;
        assert JavaInt.Div(x, y) == JavaInt.MIN;
      } else {
        assert JavaInt.Div(x, y) == q;
      }
    }
  }

  /** Arithmetic on ints stays within 32 bits. */
  lemma ArithmeticInRange(op: BOp, x: int, y: int)
    requires IsArithmetic(op) && JavaInt.InRange(x) && JavaInt.InRange(y)
    ensures var v := ApplyBinary(op, IntValue(x), IntValue(y));
      v.Err? || (v.value.IntValue? && JavaInt.InRange(v.value.i))
  {
    if (op == DIV || op == REM) && y != 0 {
      IntegerDivision(x, y);
      JavaInt.RemProperties(x, y);
    }
  }

  /** `==` is structural equality of values, `!=` its negation, and a null
      left operand throws. */
  lemma Equality(l: Value, r: Value)
    ensures l == NullValue ==> ApplyBinary(EQ, l, r) == Err(NULL_DEREFERENCE)
    ensures l != NullValue ==> ApplyBinary(EQ, l, r) == Ok(BoolValue(l == r))
    ensures l != NullValue ==> ApplyBinary(NEQ, l, r) == Ok(BoolValue(l != r))
    ensures l != NullValue && r != NullValue ==> ApplyBinary(EQ, l, r) == ApplyBinary(EQ, r, l)
  {
  }

  /** Indexing a string or a list succeeds exactly for the positions below
      its `|...|`, and throws an index error elsewhere. */
  lemma IndexWithinLength(v: Value, i: int)
    requires v.StringValue? || v.ListValue?
    ensures var n := UnaryValue(LENGTHOF, v);
      n.Ok? && n.value.IntValue? &&
      (IndexValue(v, IntValue(i)).Ok? <==> 0 <= i < n.value.i) &&
      (IndexValue(v, IntValue(i)).Err? ==> IndexValue(v, IntValue(i)).error == OUT_OF_BOUNDS)
  {
  }

  /** `++` with a string on either side is the concatenation of the two
      operands' printed forms. */
  lemma AppendText(l: Value, r: Value)
    requires l.StringValue? || r.StringValue?
    ensures Append(l, r) == Ok(StringValue(Show(l) + Show(r)))
  {
  }

  /** `++` on two lists: the elements of the left list, then those of the
      right one. */
  lemma AppendIndex(a: seq<Value>, b: seq<Value>, i: int)
    ensures Append(ListValue(a), ListValue(b)).Ok?
    ensures var c := Append(ListValue(a), ListValue(b)).value;
      UnaryValue(LENGTHOF, c) == Ok(IntValue(|a| + |b|)) &&
      IndexValue(c, IntValue(i)) ==
        if i < |a| then IndexValue(ListValue(a), IntValue(i)) else IndexValue(ListValue(b), IntValue(i - |a|))
  {
  }

  /** `!` undoes itself, and unary `-` wraps around at the smallest int. */
  lemma UnaryProperties(b: bool, x: int)
    requires JavaInt.InRange(x)
    ensures UnaryValue(NOT, BoolValue(b)).Ok? && UnaryValue(NOT, UnaryValue(NOT, BoolValue(b)).value) == Ok(BoolValue(b))
    ensures x != JavaInt.MIN ==> UnaryValue(NEG, IntValue(x)) == Ok(IntValue(-x))
    ensures UnaryValue(NEG, IntValue(JavaInt.MIN)) == Ok(IntValue(JavaInt.MIN))
    ensures UnaryValue(NOT, NullValue) == Err(NULL_DEREFERENCE) && UnaryValue(NEG, NullValue) == Err(NULL_DEREFERENCE)
  {
    if x != JavaInt.MIN {
      JavaInt.NegExact(x);
    }
    JavaInt.NegMin();
  }

  /** A cast evaluates its operand and checks nothing. */
  lemma CastUnchecked(ctx: Context, frame: Frame, out: seq<string>, t: Type, e: Expr, attr: Option<Type>, fuel: nat)
    ensures Eval(ctx, frame, out, Cast(t, e, attr), fuel) == Eval(ctx, frame, out, e, fuel)
  {
  }

  /** A variable missing from the frame reads as null; the source never
      binds constants, so this includes every constant's name. */
  lemma UnboundVariable(ctx: Context, frame: Frame, out: seq<string>, n: string, attr: Option<Type>, fuel: nat)
    requires n !in frame
    ensures Eval(ctx, frame, out, Variable(n, attr), fuel) == Ok(Evaluated(NullValue, out))
  {
  }

  /** A record constructor's record has exactly the constructor's field
      names. */
  lemma {:induction false} RecordConstructorKeys(ctx: Context, frame: Frame, out: seq<string>, inits: seq<FieldInit>, acc: map<string, Value>, fuel: nat)
    ensures var r := EvalFields(ctx, frame, out, inits, acc, fuel);
      r.Ok? ==> r.value.fields.Keys == acc.Keys + set i | 0 <= i < |inits| :: inits[i].name
    decreases |inits|
  {
    if inits != [] {
      match Eval(ctx, frame, out, inits[0].value, fuel)
      case Err(_) =>
      case Ok(x) =>
        RecordConstructorKeys(ctx, frame, x.output, inits[1..], acc[inits[0].name := x.value], fuel);
        var names := set i | 0 <= i < |inits| :: inits[i].name;
        var later := set i | 0 <= i < |inits[1..]| :: inits[1..][i].name;
        assert names == {inits[0].name} + later by {
          forall n | n in names ensures n in {inits[0].name} + later {
            var i :| 0 <= i < |inits| && inits[i].name == n;
            if i > 0 {
              assert inits[1..][i - 1].name == n;
            }
          }
          forall n | n in later ensures n in names {
            var i :| 0 <= i < |inits[1..]| && inits[1..][i].name == n;
            assert inits[i + 1].name == n;
          }
        }
    }
  }

  // ---------------------------------------------------------------------
  // Loops and calls

  /** Statements whose Java result is always null. */
  predicate AlwaysContinues(s: Stmt) {
    s.Assign? || s.Print? || s.Declare?
  }

  lemma ContinuingStatement(ctx: Context, frame: Frame, out: seq<string>, s: Stmt, fuel: nat)
    requires AlwaysContinues(s)
    ensures var r := Exec(ctx, frame, out, s, fuel); r.Ok? ==> r.value.signal == Normal
  {
  }

  /** After its declaration, a for loop is the while loop whose body ends
      with the increment, as long as the increment cannot return. */
  lemma {:induction false} ForAsWhile(ctx: Context, frame: Frame, out: seq<string>, s: Stmt, fuel: nat)
    requires s.For? && AlwaysContinues(s.increment)
    ensures ForLoop(ctx, frame, out, s, fuel) == WhileLoop(ctx, frame, out, While(s.condition, s.body + [s.increment]), fuel)
    decreases fuel
  {
    var w := While(s.condition, s.body + [s.increment]);
    match Eval(ctx, frame, out, s.condition, fuel)
    case Err(_) =>
    case Ok(c) =>
      match AsBool(c.value)
      case Err(_) =>
      case Ok(b) =>
        if b {
          BlockConcat(ctx, frame, c.output, s.body, [s.increment], fuel);
          match ExecBlock(ctx, frame, c.output, s.body, fuel)
          case Err(_) =>
          case Ok(x) =>
            if !x.signal.Returned? {
              ContinuingStatement(ctx, x.frame, x.output, s.increment, fuel);
              IncrementAlone(ctx, x.frame, x.output, s.increment, fuel);
              match Exec(ctx, x.frame, x.output, s.increment, fuel)
              case Err(_) =>
              case Ok(i) =>
                if fuel > 0 {
                  ForAsWhile(ctx, i.frame, i.output, s, fuel - 1);
                }
            }
        }
  }

  lemma IncrementAlone(ctx: Context, frame: Frame, out: seq<string>, s: Stmt, fuel: nat)
    requires AlwaysContinues(s)
    ensures ExecBlock(ctx, frame, out, [s], fuel) == Exec(ctx, frame, out, s, fuel)
  {
    assert [s][1..] == [];
    ContinuingStatement(ctx, frame, out, s, fuel);
  }

  /** A for loop whose body returns leaves without running the increment. */
  lemma ForReturnSkipsIncrement(ctx: Context, frame: Frame, out: seq<string>, s: Stmt, fuel: nat, c: seq<string>, x: Executed)
    requires s.For?
    requires Eval(ctx, frame, out, s.condition, fuel) == Ok(Evaluated(BoolValue(true), c))
    requires ExecBlock(ctx, frame, c, s.body, fuel) == Ok(x) && x.signal.Returned?
    ensures ForLoop(ctx, frame, out, s, fuel) == Ok(x)
  {
  }

  /** A call with the wrong number of arguments throws before the body
      runs. */
  lemma WrongArgumentCount(ctx: Context, fd: FunDecl, args: seq<Value>, out: seq<string>, fuel: nat)
    requires |fd.parameters| != |args|
    ensures Call(ctx, fd, args, out, fuel) == Err(WRONG_ARGUMENT_COUNT)
  {
  }

  /** Parameters with distinct names are bound to the arguments by
      position. */
  lemma {:induction false} BindByPosition(ps: seq<Parameter>, args: seq<Value>, i: nat)
    requires |ps| == |args| && i < |ps|
    requires forall j, k | 0 <= j < k < |ps| :: ps[j].name != ps[k].name
    ensures Bind(ps, args)[ps[i].name] == args[i]
    decreases |ps|
  {
    var n := |ps| - 1;
    if i < n {
      BindByPosition(ps[..n], args[..n], i);
    }
  }

  // ---------------------------------------------------------------------
  // Assignment targets

  /** The variable an assignment target is reached from, if any. */
  function Root(e: Expr): Option<string> {
    match e
    case Variable(n, _) => Some(n)
    case RecordAccess(source, _, _) => Root(source)
    case IndexOf(source, _, _) => Root(source)
    case Cast(_, source, _) => Root(source)
    case _ => None
  }

  /** An lval source evaluates as the expression does. */
  lemma {:induction false} LocationValue(ctx: Context, frame: Frame, out: seq<string>, e: Expr, fuel: nat)
    ensures var l, v := EvalLocation(ctx, frame, out, e, fuel), Eval(ctx, frame, out, e, fuel);
      (l.Ok? <==> v.Ok?) &&
      (l.Ok? ==> l.value.value == v.value.value && l.value.output == v.value.output) &&
      (l.Err? ==> l.error == v.error)
    decreases e
  {
    match e
    case RecordAccess(source, _, _) => LocationValue(ctx, frame, out, source, fuel);
    case IndexOf(source, _, _) => LocationValue(ctx, frame, out, source, fuel);
    case Cast(_, source, _) => LocationValue(ctx, frame, out, source, fuel);
    case _ =>
  }

  /** The location of an lval source, when it has one, starts at the
      variable the expression is reached from. */
  lemma {:induction false} LocationRoot(ctx: Context, frame: Frame, out: seq<string>, e: Expr, fuel: nat)
    ensures var l := EvalLocation(ctx, frame, out, e, fuel);
      l.Ok? ==>
        (l.value.location.Some? <==> Root(e).Some?) &&
        (l.value.location.Some? ==> l.value.location.value.root == Root(e).value)
    decreases e
  {
    match e
    case RecordAccess(source, _, _) => LocationRoot(ctx, frame, out, source, fuel);
    case IndexOf(source, _, _) => LocationRoot(ctx, frame, out, source, fuel);
    case Cast(_, source, _) => LocationRoot(ctx, frame, out, source, fuel);
    case _ =>
  }

  /** An assignment changes at most the variable its target is reached
      from: every other variable keeps its value. */
  lemma AssignChangesOnlyRoot(ctx: Context, frame: Frame, out: seq<string>, s: Stmt, fuel: nat, y: string)
    requires s.Assign?
    requires ExecAssign(ctx, frame, out, s, fuel).Ok?
    requires Root(s.lhs) != Some(y)
    ensures Lookup(ExecAssign(ctx, frame, out, s, fuel).value.frame, y) == Lookup(frame, y)
  {
    if s.lhs.RecordAccess? || s.lhs.IndexOf? {
      LocationRoot(ctx, frame, out, s.lhs.source, fuel);
    }
  }

  /** The value at a path. */
  function Read(root: Value, steps: seq<Step>): Option<Value>
    decreases |steps|
  {
    if steps == [] then Some(root)
    else
      match steps[0]
      case FieldStep(f) =>
        if root.RecordValue? && f in root.fields then Read(root.fields[f], steps[1..]) else None
      case IndexStep(i) =>
        if root.ListValue? && 0 <= i < |root.elements| then Read(root.elements[i], steps[1..]) else None
  }

  /** After an update along a path that exists, the path reads the new
      value. */
  lemma {:induction false} UpdateThenRead(root: Value, steps: seq<Step>, v: Value)
    requires Read(root, steps).Some?
    ensures Read(Update(root, steps, v), steps) == Some(v)
    decreases |steps|
  {
    if steps != [] {
      match steps[0]
      case FieldStep(f) => UpdateThenRead(root.fields[f], steps[1..], v);
      case IndexStep(i) => UpdateThenRead(root.elements[i], steps[1..], v);
    }
  }
}
