/** The interpreter as the source writes it: an object holding the
    declarations by name, statements that update a stack frame in place and
    print to a console, and loops for blocks, while and for statements and
    for binding a call's arguments. Every routine is proved to compute what
    the corresponding function of module Execution says: the same error, or
    the same signal with the frame and the console where that function
    leaves them. Expressions are evaluated by module Execution directly. */
module Interpreting {
  import opened Wrappers
  import opened Errors
  import opened Syntax
  import opened Values
  import opened Execution

  /** A statement routine's result and the state it leaves, compared with
      what the specification function gives. */
  predicate Agrees(r: Result<Signal, Error>, spec: Result<Executed, Error>, vars: Frame, lines: seq<string>) {
    match spec
    case Err(e) => r == Err(e)
    case Ok(x) => r == Ok(x.signal) && vars == x.frame && lines == x.output
  }

  /** Standard output: the lines printed so far. */
  class Console {
    var lines: seq<string>

    constructor()
      ensures lines == []
    {
      lines := [];
    }
  }

  /** The HashMap from variable names to values that a call executes in. */
  class StackFrame {
    var vars: Frame

    constructor()
      ensures vars == map[]
    {
      vars := map[];
    }
  }

  class Interpreter {
    var declarations: map<string, Decl>
    const mode: Mode
    const console: Console

    constructor(mode: Mode)
      ensures this.mode == mode && declarations == map[]
      ensures fresh(console) && console.lines == []
    {
      this.mode := mode;
      declarations := map[];
      console := new Console();
    }

    function Ctx(): Context
      reads this
    {
      Context(declarations, mode)
    }

    /** run: register the declarations by name, then call main with no
        arguments, or print that there is none. */
    method Run(wf: WhileFile, fuel: nat) returns (r: Result<(), Error>)
      modifies this, console
      ensures declarations == Declarations(wf.declarations)
      ensures match Execution.Run(wf, mode, old(console.lines), fuel)
        case Err(e) => r == Err(e)
        case Ok(lines) => r.Ok? && console.lines == lines
    {
      declarations := map[];
      var i := 0;
      while i < |wf.declarations|
        invariant i <= |wf.declarations|
        invariant declarations == Declarations(wf.declarations[..i])
        invariant console.lines == old(console.lines)
      {
        var d := wf.declarations[i];
        assert wf.declarations[..i + 1][..i] == wf.declarations[..i];
        declarations := declarations[d.Name() := d];
        i := i + 1;
      }
      assert wf.declarations[..i] == wf.declarations;
      if "main" in declarations && declarations["main"].Fun? {
        var x := ExecuteFunction(declarations["main"].fun, [], fuel);
        if x.Err? {
          return Err(x.error);
        }
      } else {
        console.lines := console.lines + [NO_MAIN];
      }
      r := Ok(());
    }

    /** execute(FunDecl, Object...): check the argument count, bind the
        parameters in a new frame, run the body. */
    method ExecuteFunction(fd: FunDecl, args: seq<Value>, fuel: nat) returns (r: Result<Value, Error>)
      modifies console
      ensures match Call(Ctx(), fd, args, old(console.lines), fuel)
        case Err(e) => r == Err(e)
        case Ok(x) => r == Ok(x.value) && console.lines == x.output
    {
      if |fd.parameters| != |args| {
        return Err(WRONG_ARGUMENT_COUNT);
      }
      var frame := new StackFrame();
      var i := 0;
      while i != |args|
        invariant i <= |args|
        invariant frame.vars == Bind(fd.parameters[..i], args[..i])
        invariant console.lines == old(console.lines)
      {
        assert fd.parameters[..i + 1][..i] == fd.parameters[..i];
        assert args[..i + 1][..i] == args[..i];
        frame.vars := frame.vars[fd.parameters[i].name := args[i]];
        i := i + 1;
      }
      assert fd.parameters[..i] == fd.parameters && args[..i] == args;
      var b := ExecuteBlock(frame, fd.body, fuel);
      if b.Err? {
        return Err(b.error);
      }
      r := Ok(ResultOf(b.value));
    }

    /** execute(List<Stmt>, HashMap): the statements in order until one
        returns. */
    method ExecuteBlock(frame: StackFrame, block: seq<Stmt>, fuel: nat) returns (r: Result<Signal, Error>)
      modifies frame, console
      ensures Agrees(r, ExecBlock(Ctx(), old(frame.vars), old(console.lines), block, fuel), frame.vars, console.lines)
      decreases fuel, block, 0
    {
      var i := 0;
      while i != |block|
        invariant i <= |block|
        invariant ExecBlock(Ctx(), old(frame.vars), old(console.lines), block, fuel) == ExecBlock(Ctx(), frame.vars, console.lines, block[i..], fuel)
      {
        assert block[i..][0] == block[i] && block[i..][1..] == block[i + 1..];
        var s := ExecuteStatement(frame, block[i], fuel);
        if s.Err? || s.value.Returned? {
          return s;
        }
        i := i + 1;
      }
      r := Ok(Normal);
    }

    /** execute(Stmt, HashMap): dispatch on the kind of statement. */
    method ExecuteStatement(frame: StackFrame, s: Stmt, fuel: nat) returns (r: Result<Signal, Error>)
      modifies frame, console
      ensures Agrees(r, Exec(Ctx(), old(frame.vars), old(console.lines), s, fuel), frame.vars, console.lines)
      decreases fuel, s, 2
    {
      match s
      case Assign(_, _) => r := ExecuteAssign(frame, s, fuel);
      case For(_, _, _, _) => r := ExecuteFor(frame, s, fuel);
      case While(_, _) => r := ExecuteWhile(frame, s, fuel);
      case IfElse(_, _, _) => r := ExecuteIf(frame, s, fuel);
      case Return(_) => r := ExecuteReturn(frame, s, fuel);
      case Declare(d) => r := ExecuteDeclaration(frame, d, fuel);
      case Print(_) => r := ExecutePrint(frame, s, fuel);
      case InvokeStmt(_) => r := ExecuteInvoke(frame, s, fuel);
    }

    /** execute(Assign, HashMap): store a clone of the right side in the
        variable, field or element the left side names. */
    method ExecuteAssign(frame: StackFrame, s: Stmt, fuel: nat) returns (r: Result<Signal, Error>)
      requires s.Assign?
      modifies frame, console
      ensures Agrees(r, Exec(Ctx(), old(frame.vars), old(console.lines), s, fuel), frame.vars, console.lines)
    {
      var lhs := s.lhs;
      if lhs.Variable? {
        var x := Eval(Ctx(), frame.vars, console.lines, s.rhs, fuel);
        if x.Err? {
          return Err(x.error);
        }
        console.lines := x.value.output;
        var v := DeepClone(x.value.value);
        frame.vars := frame.vars[lhs.name := v];
      } else if lhs.RecordAccess? {
        var src := EvalLocation(Ctx(), frame.vars, console.lines, lhs.source, fuel);
        if src.Err? {
          return Err(src.error);
        }
        console.lines := src.value.output;
        var record := src.value.value;
        if !record.RecordValue? && record != NullValue {
          return Err(WRONG_KIND);
        }
        var x := Eval(Ctx(), frame.vars, console.lines, s.rhs, fuel);
        if x.Err? {
          return Err(x.error);
        }
        console.lines := x.value.output;
        if record == NullValue {
          return Err(NULL_DEREFERENCE);
        }
        var v := DeepClone(x.value.value);
        frame.vars := Store(frame.vars, src.value.location, RecordValue(record.fields[lhs.field := v]));
      } else if lhs.IndexOf? {
        r := AssignElement(frame, s, fuel);
        return;
      } else {
        return Err(UNKNOWN_LVAL);
      }
      r := Ok(Normal);
    }

    /** The list element case of an assignment: source, index, right side,
        then the bounds check. */
    method AssignElement(frame: StackFrame, s: Stmt, fuel: nat) returns (r: Result<Signal, Error>)
      requires s.Assign? && s.lhs.IndexOf?
      modifies frame, console
      ensures Agrees(r, Exec(Ctx(), old(frame.vars), old(console.lines), s, fuel), frame.vars, console.lines)
    {
      var lhs := s.lhs;
      var src := EvalLocation(Ctx(), frame.vars, console.lines, lhs.source, fuel);
      if src.Err? {
        return Err(src.error);
      }
      console.lines := src.value.output;
      var list := src.value.value;
      if !list.ListValue? && list != NullValue {
        return Err(WRONG_KIND);
      }
      var i := Eval(Ctx(), frame.vars, console.lines, lhs.index, fuel);
      if i.Err? {
        return Err(i.error);
      }
      console.lines := i.value.output;
      var index := i.value.value;
      if !index.IntValue? && index != NullValue {
        return Err(WRONG_KIND);
      }
      var x := Eval(Ctx(), frame.vars, console.lines, s.rhs, fuel);
      if x.Err? {
        return Err(x.error);
      }
      console.lines := x.value.output;
      if list == NullValue || index == NullValue {
        return Err(NULL_DEREFERENCE);
      }
      if !(0 <= index.i < |list.elements|) {
        return Err(OUT_OF_BOUNDS);
      }
      var v := DeepClone(x.value.value);
      frame.vars := Store(frame.vars, src.value.location, ListValue(list.elements[index.i := v]));
      r := Ok(Normal);
    }

    /** execute(For, HashMap): the declaration, then condition, body and
        increment until the condition fails or the body returns. */
    method ExecuteFor(frame: StackFrame, s: Stmt, fuel: nat) returns (r: Result<Signal, Error>)
      requires s.For?
      modifies frame, console
      ensures Agrees(r, Exec(Ctx(), old(frame.vars), old(console.lines), s, fuel), frame.vars, console.lines)
      decreases fuel, s, 1
    {
      var d := ExecuteDeclaration(frame, s.declaration, fuel);
      if d.Err? {
        return d;
      }
      var f: nat := fuel;
      while true
        invariant f <= fuel
        invariant Exec(Ctx(), old(frame.vars), old(console.lines), s, fuel) == ForLoop(Ctx(), frame.vars, console.lines, s, f)
        decreases f
      {
        var c := Eval(Ctx(), frame.vars, console.lines, s.condition, f);
        if c.Err? {
          return Err(c.error);
        }
        console.lines := c.value.output;
        var b := AsBool(c.value.value);
        if b.Err? {
          return Err(b.error);
        }
        if !b.value {
          return Ok(Normal);
        }
        var x := ExecuteBlock(frame, s.body, f);
        if x.Err? || x.value.Returned? {
          return x;
        }
        var i := ExecuteStatement(frame, s.increment, f);
        if i.Err? {
          return Err(i.error);
        }
        if f == 0 {
          return Err(OutOfFuel);
        }
        f := f - 1;
      }
    }

    /** execute(While, HashMap): the body while the condition holds, until
        it returns. */
    method ExecuteWhile(frame: StackFrame, s: Stmt, fuel: nat) returns (r: Result<Signal, Error>)
      requires s.While?
      modifies frame, console
      ensures Agrees(r, Exec(Ctx(), old(frame.vars), old(console.lines), s, fuel), frame.vars, console.lines)
      decreases fuel, s, 1
    {
      var f: nat := fuel;
      while true
        invariant f <= fuel
        invariant Exec(Ctx(), old(frame.vars), old(console.lines), s, fuel) == WhileLoop(Ctx(), frame.vars, console.lines, s, f)
        decreases f
      {
        var c := Eval(Ctx(), frame.vars, console.lines, s.condition, f);
        if c.Err? {
          return Err(c.error);
        }
        console.lines := c.value.output;
        var b := AsBool(c.value.value);
        if b.Err? {
          return Err(b.error);
        }
        if !b.value {
          return Ok(Normal);
        }
        var x := ExecuteBlock(frame, s.body, f);
        if x.Err? || x.value.Returned? {
          return x;
        }
        if f == 0 {
          return Err(OutOfFuel);
        }
        f := f - 1;
      }
    }

    /** execute(IfElse, HashMap): one branch or the other. */
    method ExecuteIf(frame: StackFrame, s: Stmt, fuel: nat) returns (r: Result<Signal, Error>)
      requires s.IfElse?
      modifies frame, console
      ensures Agrees(r, Exec(Ctx(), old(frame.vars), old(console.lines), s, fuel), frame.vars, console.lines)
      decreases fuel, s, 1
    {
      var c := Eval(Ctx(), frame.vars, console.lines, s.condition, fuel);
      if c.Err? {
        return Err(c.error);
      }
      console.lines := c.value.output;
      var b := AsBool(c.value.value);
      if b.Err? {
        return Err(b.error);
      }
      if b.value {
        r := ExecuteBlock(frame, s.trueBranch, fuel);
      } else {
        r := ExecuteBlock(frame, s.falseBranch, fuel);
      }
    }

    /** execute(Return, HashMap): the value, or EMPTY_SET for a bare
        return. */
    method ExecuteReturn(frame: StackFrame, s: Stmt, fuel: nat) returns (r: Result<Signal, Error>)
      requires s.Return?
      modifies console
      ensures Agrees(r, Exec(Ctx(), frame.vars, old(console.lines), s, fuel), frame.vars, console.lines)
    {
      if s.result.None? {
        return Ok(Returned(EmptySet));
      }
      var x := Eval(Ctx(), frame.vars, console.lines, s.result.value, fuel);
      if x.Err? {
        return Err(x.error);
      }
      console.lines := x.value.output;
      r := Ok(if mode == AsWritten then ObjectSignal(x.value.value) else Returned(x.value.value));
    }

    /** execute(VariableDeclaration, HashMap): store a clone of the
        initialiser's value, or EMPTY_SET. */
    method ExecuteDeclaration(frame: StackFrame, d: VarDecl, fuel: nat) returns (r: Result<Signal, Error>)
      modifies frame, console
      ensures Agrees(r, ExecDeclare(Ctx(), old(frame.vars), old(console.lines), d, fuel), frame.vars, console.lines)
    {
      var value := EmptySet;
      if d.init.Some? {
        var x := Eval(Ctx(), frame.vars, console.lines, d.init.value, fuel);
        if x.Err? {
          return Err(x.error);
        }
        console.lines := x.value.output;
        value := x.value.value;
      }
      var v := DeepClone(value);
      frame.vars := frame.vars[d.name := v];
      r := Ok(Normal);
    }

    /** execute(Print, HashMap): print the value's text as a line. */
    method ExecutePrint(frame: StackFrame, s: Stmt, fuel: nat) returns (r: Result<Signal, Error>)
      requires s.Print?
      modifies console
      ensures Agrees(r, Exec(Ctx(), frame.vars, old(console.lines), s, fuel), frame.vars, console.lines)
    {
      var x := Eval(Ctx(), frame.vars, console.lines, s.expr, fuel);
      if x.Err? {
        return Err(x.error);
      }
      var text := ToText(x.value.value);
      console.lines := x.value.output + [text];
      r := Ok(Normal);
    }

    /** A call used as a statement: its value is the statement's result. */
    method ExecuteInvoke(frame: StackFrame, s: Stmt, fuel: nat) returns (r: Result<Signal, Error>)
      requires s.InvokeStmt?
      modifies console
      ensures Agrees(r, Exec(Ctx(), frame.vars, old(console.lines), s, fuel), frame.vars, console.lines)
    {
      var x := Eval(Ctx(), frame.vars, console.lines, s.call, fuel);
      if x.Err? {
        return Err(x.error);
      }
      console.lines := x.value.output;
      r := Ok(if mode == AsWritten then ObjectSignal(x.value.value) else Normal);
    }
  }
}
