/** Definite assignment: every variable an expression reads must be
    assigned on every path that reaches it. A check of a statement yields
    whether control can continue past it and the names definitely assigned
    afterwards; the environment only grows. */
module DefiniteAssignment {
  import opened Wrappers
  import opened Errors
  import opened Syntax

  const NOT_ASSIGNED := SyntaxError("variable is not definitely assigned")
  const ALREADY_DECLARED := SyntaxError("variable already declared")
  const UNKNOWN_EXPRESSION := InternalFailure("unknown expression encountered")

  /** The variables an expression reads. */
  function Uses(e: Expr): set<string>
    decreases e
  {
    match e
    case Binary(_, lhs, rhs, _) => Uses(lhs) + Uses(rhs)
    case Cast(_, source, _) => Uses(source)
    case Constant(_, _) => {}
    case IndexOf(source, index, _) => Uses(source) + Uses(index)
    case Invoke(_, args, _) => set i, x | 0 <= i < |args| && x in Uses(args[i]) :: x
    case ListConstructor(args, _) => set i, x | 0 <= i < |args| && x in Uses(args[i]) :: x
    case RecordAccess(source, _, _) => Uses(source)
    case RecordConstructor(inits, _) => set i, x | 0 <= i < |inits| && x in Uses(inits[i].value) :: x
    case Unary(_, operand, _) => Uses(operand)
    case Variable(name, _) => {name}
  }

  /** check(Expr): succeeds, with the flag true, exactly when every
      variable the expression reads is in the environment. */
  function ExprCheck(e: Expr, env: set<string>): Result<bool, Error> {
    if Uses(e) <= env then Ok(true) else Err(NOT_ASSIGNED)
  }

  /** Whether control continues past a statement, and the names definitely
      assigned after it. */
  datatype Outcome = Outcome(continues: bool, env: set<string>)

  /** check(List<Stmt>): the statements in order; once one cannot continue
      the rest are not checked. */
  function StmtsCheck(ss: seq<Stmt>, env: set<string>): (r: Result<Outcome, Error>)
    ensures r.Ok? ==> env <= r.value.env
    decreases ss
  {
    if ss == [] then Ok(Outcome(true, env))
    else
      var o :- StmtCheck(ss[0], env);
      if !o.continues then Ok(o) else StmtsCheck(ss[1..], o.env)
  }

  /** check(Stmt): one statement. The environment never loses a name. */
  function StmtCheck(s: Stmt, env: set<string>): (r: Result<Outcome, Error>)
    ensures r.Ok? ==> env <= r.value.env
    decreases s, 1
  {
    match s
    case Assign(lhs, rhs) => AssignCheck(lhs, rhs, env)
    case Print(e) =>
      var _ :- ExprCheck(e, env);
      Ok(Outcome(true, env))
    case Return(result) => ReturnCheck(result, env)
    case Declare(d) => DeclCheck(d, env)
    case InvokeStmt(call) =>
      var _ :- ExprCheck(call, env);
      Ok(Outcome(true, env))
    case IfElse(_, _, _) => IfElseCheck(s, env)
    case For(_, _, _, _) => ForCheck(s, env)
    case While(_, _) => WhileCheck(s, env)
  }

  /** An assignment as written: a plain variable on the left is added to
      the environment before the right side is checked, so the right side
      may read the variable it assigns. */
  function AssignCheckAsWritten(lhs: Expr, rhs: Expr, env: set<string>): (r: Result<Outcome, Error>)
    ensures r.Ok? ==> env <= r.value.env
  {
    if lhs.Variable? then
      var _ :- ExprCheck(rhs, env + {lhs.name});
      Ok(Outcome(true, env + {lhs.name}))
    else
      var _ :- ExprCheck(lhs, env);
      var _ :- ExprCheck(rhs, env);
      Ok(Outcome(true, env))
  }

  /** An assignment: the right side is checked in the environment before
      the assignment, then a plain variable on the left becomes assigned;
      any other left side is a use of the variables it reads. */
  function AssignCheck(lhs: Expr, rhs: Expr, env: set<string>): (r: Result<Outcome, Error>)
    ensures r.Ok? ==> env <= r.value.env
  {
    if lhs.Variable? then
      var _ :- ExprCheck(rhs, env);
      Ok(Outcome(true, env + {lhs.name}))
    else
      var _ :- ExprCheck(lhs, env);
      var _ :- ExprCheck(rhs, env);
      Ok(Outcome(true, env))
  }

  /** A return as written: the returned expression is checked, and a
      return without one falls through every case of check(Expr). */
  function ReturnCheckAsWritten(result: Option<Expr>, env: set<string>): Result<Outcome, Error> {
    match result
    case None => Err(UNKNOWN_EXPRESSION)
    case Some(e) =>
      var _ :- ExprCheck(e, env);
      Ok(Outcome(false, env))
  }

  /** A return: control does not continue past it, with or without a
      value. */
  function ReturnCheck(result: Option<Expr>, env: set<string>): Result<Outcome, Error> {
    match result
    case None => Ok(Outcome(false, env))
    case Some(e) =>
      var _ :- ExprCheck(e, env);
      Ok(Outcome(false, env))
  }

  /** A declaration: a name already assigned is declared twice; an
      initialiser is checked and assigns the name; without one the name
      stays unassigned. */
  function DeclCheck(d: VarDecl, env: set<string>): Result<Outcome, Error> {
    if d.name in env then Err(ALREADY_DECLARED)
    else
      match d.init
      case None => Ok(Outcome(true, env))
      case Some(e) =>
        var _ :- ExprCheck(e, env);
        Ok(Outcome(true, env + {d.name}))
  }

  /** The names assigned after an if/else: when exactly one branch can
      continue, what that branch assigned; otherwise what both assigned. */
  function Merge(env: set<string>, t: Outcome, f: Outcome): Outcome {
    if t.continues && !f.continues then Outcome(true, env + t.env)
    else if !t.continues && f.continues then Outcome(true, env + f.env)
    else Outcome(t.continues || f.continues, env + (t.env * f.env))
  }

  /** An if/else: the condition, then each branch on its own copy of the
      environment, merged. */
  function IfElseCheck(s: Stmt, env: set<string>): (r: Result<Outcome, Error>)
    requires s.IfElse?
    ensures r.Ok? ==> env <= r.value.env
    decreases s, 0
  {
    var _ :- ExprCheck(s.condition, env);
    var t :- StmtsCheck(s.trueBranch, env);
    var f :- StmtsCheck(s.falseBranch, env);
    Ok(Merge(env, t, f))
  }

  /** A for loop: the declaration, condition and increment act on the
      environment; the body is checked on a copy and assigns nothing
      outside. */
  function ForCheck(s: Stmt, env: set<string>): (r: Result<Outcome, Error>)
    requires s.For?
    ensures r.Ok? ==> env <= r.value.env
    decreases s, 0
  {
    var d :- DeclCheck(s.declaration, env);
    var _ :- ExprCheck(s.condition, d.env);
    var i :- StmtCheck(s.increment, d.env);
    if !i.continues then Ok(i)
    else
      var b :- StmtsCheck(s.body, i.env);
      Ok(Outcome(b.continues, i.env))
  }

  /** A while loop: the condition, then the body on a copy. */
  function WhileCheck(s: Stmt, env: set<string>): (r: Result<Outcome, Error>)
    requires s.While?
    ensures r.Ok? ==> env <= r.value.env
    decreases s, 0
  {
    var _ :- ExprCheck(s.condition, env);
    var b :- StmtsCheck(s.body, env);
    Ok(Outcome(b.continues, env))
  }

  /** The names of the constants a file declares. */
  function ConstantNames(ds: seq<Decl>): (r: set<string>)
    ensures forall n :: n in r <==> exists i | 0 <= i < |ds| :: ds[i].ConstDecl? && ds[i].name == n
  {
    set i | 0 <= i < |ds| && ds[i].ConstDecl? :: ds[i].name
  }

  function ParameterNames(ps: seq<Parameter>): set<string> {
    set i | 0 <= i < |ps| :: ps[i].name
  }

  /** check(FunDecl): the body, with the constants and parameters assigned. */
  function FunctionCheck(fd: FunDecl, constants: set<string>): Result<Outcome, Error> {
    StmtsCheck(fd.body, constants + ParameterNames(fd.parameters))
  }

  /** check(WhileFile): every function in file order; the first error
      stops the check. */
  function FunctionsCheck(ds: seq<Decl>, constants: set<string>): Result<(), Error>
    decreases |ds|
  {
    if ds == [] then Ok(())
    else
      var _ :- if ds[0].Fun? then FunctionCheck(ds[0].fun, constants) else Ok(Outcome(true, {}));
      FunctionsCheck(ds[1..], constants)
  }

  function FileCheck(wf: WhileFile): Result<(), Error> {
    FunctionsCheck(wf.declarations, ConstantNames(wf.declarations))
  }

  // ---------------------------------------------------------------------
  // Properties
  // ---------------------------------------------------------------------

  /** Checking a concatenation checks the first part, then, only if it can
      continue, the second part from where the first left off. */
  lemma {:induction false} StmtsAppend(a: seq<Stmt>, b: seq<Stmt>, env: set<string>)
    ensures StmtsCheck(a + b, env) ==
      match StmtsCheck(a, env)
      case Err(err) => Err(err)
      case Ok(o) => if o.continues then StmtsCheck(b, o.env) else Ok(o)
    decreases |a|
  {
    if a == [] {
      assert a + b == b;
    } else {
      assert (a + b)[0] == a[0] && (a + b)[1..] == a[1..] + b;
      match StmtCheck(a[0], env)
      case Err(_) =>
      case Ok(o) =>
        if o.continues {
          StmtsAppend(a[1..], b, o.env);
        }
    }
  }

  /** Once a statement cannot continue, whatever follows it is never
      checked: the outcome is the same for every continuation. */
  lemma StopsAfterReturn(a: seq<Stmt>, b: seq<Stmt>, env: set<string>)
    requires StmtsCheck(a, env).Ok? && !StmtsCheck(a, env).value.continues
    ensures StmtsCheck(a + b, env) == StmtsCheck(a, env)
  {
    StmtsAppend(a, b, env);
  }

  /** An if/else continues when either branch does. When only one branch
      continues the environment becomes what that branch assigned;
      otherwise it becomes what both branches assigned. */
  lemma IfElseMerge(s: Stmt, env: set<string>)
    requires s.IfElse? && StmtCheck(s, env).Ok?
    ensures StmtsCheck(s.trueBranch, env).Ok? && StmtsCheck(s.falseBranch, env).Ok?
    ensures var t, f, r := StmtsCheck(s.trueBranch, env).value, StmtsCheck(s.falseBranch, env).value, StmtCheck(s, env).value;
      r.continues == (t.continues || f.continues) &&
      r.env == (if t.continues && !f.continues then t.env
                else if !t.continues && f.continues then f.env
                else t.env * f.env)
  {
    var t, f := StmtsCheck(s.trueBranch, env).value, StmtsCheck(s.falseBranch, env).value;
    assert env <= t.env && env <= f.env;
  }

  /** An if/else fails exactly when its condition reads an unassigned
      variable or one of its branches fails. */
  lemma IfElseFails(s: Stmt, env: set<string>)
    requires s.IfElse?
    ensures StmtCheck(s, env).Err? <==>
      !(Uses(s.condition) <= env) || StmtsCheck(s.trueBranch, env).Err? || StmtsCheck(s.falseBranch, env).Err?
  {
  }

  /** Nothing a while body assigns reaches the environment after the loop. */
  lemma WhileKeepsEnvironment(s: Stmt, env: set<string>)
    requires s.While? && StmtCheck(s, env).Ok?
    ensures StmtCheck(s, env).value.env == env
  {
  }

  /** Nothing a for body assigns reaches the environment after the loop:
      two loops that differ only in their bodies leave the same names
      assigned. */
  lemma ForBodyIsLocal(s: Stmt, body: seq<Stmt>, env: set<string>)
    requires s.For?
    requires StmtCheck(s, env).Ok? && StmtCheck(For(s.declaration, s.condition, s.increment, body), env).Ok?
    ensures StmtCheck(s, env).value.env == StmtCheck(For(s.declaration, s.condition, s.increment, body), env).value.env
  {
  }

  /** A return stops a block whatever follows it. */
  lemma ReturnStopsBlock(result: Option<Expr>, rest: seq<Stmt>, env: set<string>)
    requires result.Some? ==> Uses(result.value) <= env
    ensures StmtsCheck([Return(result)] + rest, env) == Ok(Outcome(false, env))
  {
    assert ([Return(result)] + rest)[0] == Return(result);
  }

  /** A declaration without an initialiser leaves its name unassigned, so
      a later read of it is rejected. */
  lemma DeclarationWithoutInit(ty: Type, name: string, env: set<string>)
    requires name !in env
    ensures StmtsCheck([Declare(VarDecl(ty, name, None)), Print(Variable(name, None))], env) == Err(NOT_ASSIGNED)
  {
    var ss := [Declare(VarDecl(ty, name, None)), Print(Variable(name, None))];
    assert StmtCheck(ss[0], env) == Ok(Outcome(true, env));
    assert Uses(Variable(name, None)) == {name};
    assert StmtCheck(Print(Variable(name, None)), env) == Err(NOT_ASSIGNED);
    assert ss[1..] == [Print(Variable(name, None))];
    assert StmtsCheck(ss[1..], env) == Err(NOT_ASSIGNED);
  }

  /** As written, `x = x;` is accepted although x is not assigned. */
  lemma SelfAssignmentAsWritten(x: string)
    ensures AssignCheckAsWritten(Variable(x, None), Variable(x, None), {}) == Ok(Outcome(true, {x}))
  {
    var none: set<string> := {};
    assert none + {x} == {x};
    assert Uses(Variable(x, None)) == {x};
    assert ExprCheck(Variable(x, None), {x}) == Ok(true);
  }

  /** Corrected, an assignment to a variable is accepted exactly when its
      right side reads only assigned variables, and then assigns it. */
  lemma AssignmentReadsBefore(x: string, rhs: Expr, env: set<string>)
    ensures AssignCheck(Variable(x, None), rhs, env).Ok? <==> Uses(rhs) <= env
    ensures AssignCheck(Variable(x, None), rhs, env).Ok? ==>
      AssignCheck(Variable(x, None), rhs, env).value == Outcome(true, env + {x})
  {
  }

  /** As written, `return;` fails with an internal failure. */
  lemma BareReturnAsWritten(env: set<string>)
    ensures ReturnCheckAsWritten(None, env) == Err(UNKNOWN_EXPRESSION)
  {
  }

  /** Corrected, a return with or without a value stops the block, and
      fails only when its value reads an unassigned variable. */
  lemma ReturnStops(result: Option<Expr>, env: set<string>)
    ensures ReturnCheck(result, env).Ok? <==> (result.None? || Uses(result.value) <= env)
    ensures ReturnCheck(result, env).Ok? ==> ReturnCheck(result, env).value == Outcome(false, env)
  {
  }

  // ---------------------------------------------------------------------
  // The checker
  // ---------------------------------------------------------------------

  /** A mutable set of names, as the checker passes its environment. */
  class NameSet {
    var elems: set<string>

    constructor (s: set<string>)
      ensures elems == s
    {
      elems := s;
    }

    method Add(x: string)
      modifies this
      ensures elems == old(elems) + {x}
    {
      elems := elems + {x};
    }

    method AddAll(other: NameSet)
      modifies this
      ensures elems == old(elems) + old(other.elems)
    {
      elems := elems + other.elems;
    }
  }

  /** The flag a check returns, or its error. */
  function Flag(spec: Result<Outcome, Error>): Result<bool, Error> {
    match spec
    case Err(err) => Err(err)
    case Ok(o) => Ok(o.continues)
  }

  /** The checker's result and environment against a check's outcome. */
  predicate Agrees(r: Result<bool, Error>, spec: Result<Outcome, Error>, env: set<string>) {
    r == Flag(spec) && (spec.Ok? ==> env == spec.value.env)
  }

  lemma UsesArgument(e: Expr, i: int)
    requires (e.Invoke? || e.ListConstructor?) && 0 <= i < |e.arguments|
    ensures Uses(e.arguments[i]) <= Uses(e)
  {
  }

  lemma UsesInit(e: Expr, i: int)
    requires e.RecordConstructor? && 0 <= i < |e.inits|
    ensures Uses(e.inits[i].value) <= Uses(e)
  {
  }

  class Checker {
    var constants: set<string>

    constructor ()
      ensures constants == {}
    {
      constants := {};
    }

    /** check(WhileFile): the constants first, then every function. */
    method CheckFile(wf: WhileFile) returns (r: Result<(), Error>)
      modifies this
      ensures constants == ConstantNames(wf.declarations)
      ensures r == FileCheck(wf)
    {
      var ds := wf.declarations;
      constants := {};
      var i := 0;
      while i < |ds|
        invariant 0 <= i <= |ds|
        invariant constants == ConstantNames(ds[..i])
      {
        if ds[i].ConstDecl? {
          constants := constants + {ds[i].name};
        }
        i := i + 1;
        assert ds[..i] == ds[..i - 1] + [ds[i - 1]];
      }
      assert ds[..i] == ds;
      i := 0;
      while i < |ds|
        invariant 0 <= i <= |ds|
        invariant constants == ConstantNames(ds)
        invariant FunctionsCheck(ds, constants) == FunctionsCheck(ds[i..], constants)
      {
        assert ds[i..][0] == ds[i] && ds[i..][1..] == ds[i + 1..];
        if ds[i].Fun? {
          var _ :- CheckFunction(ds[i].fun);
        }
        i := i + 1;
      }
      r := Ok(());
    }

    /** check(FunDecl): the constants and parameters are assigned on entry. */
    method CheckFunction(fd: FunDecl) returns (r: Result<bool, Error>)
      ensures r == Flag(FunctionCheck(fd, constants))
    {
      var env := new NameSet(constants);
      var i := 0;
      while i < |fd.parameters|
        invariant 0 <= i <= |fd.parameters|
        invariant env.elems == constants + ParameterNames(fd.parameters[..i])
      {
        env.Add(fd.parameters[i].name);
        i := i + 1;
        assert ParameterNames(fd.parameters[..i]) == ParameterNames(fd.parameters[..i - 1]) + {fd.parameters[i - 1].name} by {
          assert forall j | 0 <= j < i - 1 :: fd.parameters[..i][j] == fd.parameters[..i - 1][j];
        }
      }
      assert fd.parameters[..i] == fd.parameters;
      r := CheckStmts(fd.body, env);
    }

    /** check(List<Stmt>): a false flag skips the remaining statements. */
    method CheckStmts(ss: seq<Stmt>, env: NameSet) returns (r: Result<bool, Error>)
      modifies env
      ensures Agrees(r, StmtsCheck(ss, old(env.elems)), env.elems)
      decreases ss
    {
      var flag := true;
      var i := 0;
      while i < |ss|
        invariant 0 <= i <= |ss|
        invariant flag ==> StmtsCheck(ss, old(env.elems)) == StmtsCheck(ss[i..], env.elems)
        invariant !flag ==> StmtsCheck(ss, old(env.elems)) == Ok(Outcome(false, env.elems))
      {
        assert ss[i..][0] == ss[i] && ss[i..][1..] == ss[i + 1..];
        if flag {
          var b :- CheckStmt(ss[i], env);
          flag := b;
        }
        i := i + 1;
      }
      r := Ok(flag);
    }

    method CheckStmt(s: Stmt, env: NameSet) returns (r: Result<bool, Error>)
      modifies env
      ensures Agrees(r, StmtCheck(s, old(env.elems)), env.elems)
      decreases s, 1
    {
      match s
      case Assign(lhs, rhs) => r := CheckAssign(lhs, rhs, env);
      case Print(e) =>
        var _ :- CheckExpr(e, env);
        r := Ok(true);
      case Return(result) => r := CheckReturn(result, env);
      case Declare(d) => r := CheckDecl(d, env);
      case InvokeStmt(call) =>
        var _ :- CheckExpr(call, env);
        r := Ok(true);
      case IfElse(_, _, _) => r := CheckIfElse(s, env);
      case For(_, _, _, _) => r := CheckFor(s, env);
      case While(_, _) => r := CheckWhile(s, env);
    }

    method CheckAssign(lhs: Expr, rhs: Expr, env: NameSet) returns (r: Result<bool, Error>)
      modifies env
      ensures Agrees(r, AssignCheck(lhs, rhs, old(env.elems)), env.elems)
    {
      if lhs.Variable? {
        var _ :- CheckExpr(rhs, env);
        env.Add(lhs.name);
      } else {
        var _ :- CheckExpr(lhs, env);
        var _ :- CheckExpr(rhs, env);
      }
      r := Ok(true);
    }

    method CheckReturn(result: Option<Expr>, env: NameSet) returns (r: Result<bool, Error>)
      ensures Agrees(r, ReturnCheck(result, env.elems), env.elems)
    {
      if result.Some? {
        var _ :- CheckExpr(result.value, env);
      }
      r := Ok(false);
    }

    method CheckDecl(d: VarDecl, env: NameSet) returns (r: Result<bool, Error>)
      modifies env
      ensures Agrees(r, DeclCheck(d, old(env.elems)), env.elems)
    {
      if d.name in env.elems {
        return Err(ALREADY_DECLARED);
      }
      if d.init.Some? {
        var _ :- CheckExpr(d.init.value, env);
        env.Add(d.name);
      }
      r := Ok(true);
    }

    /** Both branches on copies of the environment, then the merge; when
        both or neither continue, the names of the true branch's copy are
        visited in an arbitrary order. */
    method CheckIfElse(s: Stmt, env: NameSet) returns (r: Result<bool, Error>)
      requires s.IfElse?
      modifies env
      ensures Agrees(r, StmtCheck(s, old(env.elems)), env.elems)
      decreases s, 0
    {
      var _ :- CheckExpr(s.condition, env);
      var trueEnv := new NameSet(env.elems);
      var falseEnv := new NameSet(env.elems);
      var tc :- CheckStmts(s.trueBranch, trueEnv);
      var fc :- CheckStmts(s.falseBranch, falseEnv);
      if tc && !fc {
        env.AddAll(trueEnv);
      } else if !tc && fc {
        env.AddAll(falseEnv);
      } else {
        var rest := trueEnv.elems;
        ghost var t0, f0 := trueEnv.elems, falseEnv.elems;
        while rest != {}
          invariant trueEnv.elems == t0 && falseEnv.elems == f0
          invariant rest <= trueEnv.elems
          invariant env.elems == old(env.elems) + ((trueEnv.elems - rest) * falseEnv.elems)
          decreases rest
        {
          var x :| x in rest;
          if x in falseEnv.elems {
            env.Add(x);
          }
          rest := rest - {x};
        }
        assert trueEnv.elems - rest == trueEnv.elems;
      }
      assert StmtCheck(s, old(env.elems)) == IfElseCheck(s, old(env.elems));
      r := Ok(tc || fc);
    }

    /** The body is checked on a copy, and only when the increment can
        continue. */
    method CheckFor(s: Stmt, env: NameSet) returns (r: Result<bool, Error>)
      requires s.For?
      modifies env
      ensures Agrees(r, StmtCheck(s, old(env.elems)), env.elems)
      decreases s, 0
    {
      var _ :- CheckDecl(s.declaration, env);
      var _ :- CheckExpr(s.condition, env);
      var ic :- CheckStmt(s.increment, env);
      if !ic {
        return Ok(false);
      }
      var copy := new NameSet(env.elems);
      var bc :- CheckStmts(s.body, copy);
      r := Ok(bc);
    }

    method CheckWhile(s: Stmt, env: NameSet) returns (r: Result<bool, Error>)
      requires s.While?
      modifies env
      ensures Agrees(r, StmtCheck(s, old(env.elems)), env.elems)
      decreases s, 0
    {
      var _ :- CheckExpr(s.condition, env);
      var copy := new NameSet(env.elems);
      var bc :- CheckStmts(s.body, copy);
      r := Ok(bc);
    }

    /** check(Expr): every sub-expression in order; a variable not in the
        environment is an error. */
    method CheckExpr(e: Expr, env: NameSet) returns (r: Result<bool, Error>)
      ensures r == ExprCheck(e, env.elems)
      decreases e, 1
    {
      match e
      case Binary(_, lhs, rhs, _) =>
        var a :- CheckExpr(lhs, env);
        var b :- CheckExpr(rhs, env);
        r := Ok(a && b);
      case Cast(_, source, _) => r := CheckExpr(source, env);
      case Constant(_, _) => r := Ok(true);
      case IndexOf(source, index, _) =>
        var a :- CheckExpr(source, env);
        var b :- CheckExpr(index, env);
        r := Ok(a && b);
      case Invoke(_, _, _) => r := CheckArguments(e, env);
      case ListConstructor(_, _) => r := CheckArguments(e, env);
      case RecordAccess(source, _, _) => r := CheckExpr(source, env);
      case RecordConstructor(_, _) => r := CheckInits(e, env);
      case Unary(_, operand, _) => r := CheckExpr(operand, env);
      case Variable(name, _) =>
        if name !in env.elems {
          r := Err(NOT_ASSIGNED);
        } else {
          r := Ok(true);
        }
    }

    /** The arguments of a call or a list constructor, in order. */
    method CheckArguments(e: Expr, env: NameSet) returns (r: Result<bool, Error>)
      requires e.Invoke? || e.ListConstructor?
      ensures r == ExprCheck(e, env.elems)
      decreases e, 0
    {
      var args := e.arguments;
      var flag := true;
      var i := 0;
      while i < |args|
        invariant 0 <= i <= |args|
        invariant flag
        invariant forall j | 0 <= j < i :: Uses(args[j]) <= env.elems
      {
        UsesArgument(e, i);
        var b := CheckExpr(args[i], env);
        if b.Err? {
          return b;
        }
        flag := flag && b.value;
        i := i + 1;
      }
      r := Ok(flag);
    }

    /** The field values of a record constructor, in order. */
    method CheckInits(e: Expr, env: NameSet) returns (r: Result<bool, Error>)
      requires e.RecordConstructor?
      ensures r == ExprCheck(e, env.elems)
      decreases e, 0
    {
      var inits := e.inits;
      var flag := true;
      var i := 0;
      while i < |inits|
        invariant 0 <= i <= |inits|
        invariant flag
        invariant forall j | 0 <= j < i :: Uses(inits[j].value) <= env.elems
      {
        UsesInit(e, i);
        var b := CheckExpr(inits[i].value, env);
        if b.Err? {
          return b;
        }
        flag := flag && b.value;
        i := i + 1;
      }
      r := Ok(flag);
    }
  }
}
