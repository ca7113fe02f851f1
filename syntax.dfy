/** The abstract syntax of While programs: types, expressions, statements and
    declarations, as the parser builds them and the later passes read them.
    An expression's `attr` is the type attribute the type checker attaches
    to it (None until then). */
module Syntax {
  import opened Wrappers

  datatype Type =
    | Void
    | Null
    | Bool
    | Char
    | Int
    | Real
    | Strung
    | List(element: Type)
      /** The fields in the iteration order of the map holding them; that
          order carries no meaning. */
    | Record(fields: seq<Field>)
    | Union(bounds: seq<Type>)
    | Named(name: string)
  {
    /** The types the back end keeps in a single machine word. */
    predicate IsPrimitive() {
      Bool? || Char? || Int? || Real? || Strung?
    }
  }

  datatype Field = Field(name: string, ty: Type)

  function FieldNames(fs: seq<Field>): (r: seq<string>)
    ensures |r| == |fs|
    ensures forall i | 0 <= i < |fs| :: r[i] == fs[i].name
  {
    if fs == [] then [] else [fs[0].name] + FieldNames(fs[1..])
  }

  predicate DistinctNames(fs: seq<Field>) {
    forall i, j | 0 <= i < j < |fs| :: fs[i].name != fs[j].name
  }

  /** Map.get on the fields of a record type. */
  function LookupField(fs: seq<Field>, name: string): Option<Type> {
    if fs == [] then None
    else if fs[0].name == name then Some(fs[0].ty)
    else LookupField(fs[1..], name)
  }

  /** Map.put on the fields of a record type. */
  function PutField(fs: seq<Field>, name: string, ty: Type): seq<Field> {
    if fs == [] then [Field(name, ty)]
    else if fs[0].name == name then [Field(name, ty)] + fs[1..]
    else [fs[0]] + PutField(fs[1..], name, ty)
  }

  datatype Literal =
    | NullLit
    | BoolLit(b: bool)
    | CharLit(c: char)
    | IntLit(i: int)
    | RealLit(r: real)
    | StringLit(s: string)

  datatype BOp = AND | OR | ADD | SUB | MUL | DIV | REM | EQ | NEQ | LT | LTEQ | GT | GTEQ | APPEND

  datatype UOp = NOT | NEG | LENGTHOF

  datatype Expr =
    | Binary(op: BOp, lhs: Expr, rhs: Expr, attr: Option<Type>)
    | Cast(castType: Type, source: Expr, attr: Option<Type>)
    | Constant(value: Literal, attr: Option<Type>)
    | IndexOf(source: Expr, index: Expr, attr: Option<Type>)
    | Invoke(name: string, arguments: seq<Expr>, attr: Option<Type>)
    | ListConstructor(arguments: seq<Expr>, attr: Option<Type>)
    | RecordAccess(source: Expr, field: string, attr: Option<Type>)
    | RecordConstructor(inits: seq<FieldInit>, attr: Option<Type>)
    | Unary(uop: UOp, operand: Expr, attr: Option<Type>)
    | Variable(name: string, attr: Option<Type>)
  {
    /** The expressions that may stand on the left of an assignment. */
    predicate IsLVal() {
      Variable? || RecordAccess? || IndexOf?
    }

    /** The expression with its type attribute set. */
    function WithType(t: Type): Expr {
      this.(attr := Some(t))
    }
  }

  datatype FieldInit = FieldInit(name: string, value: Expr)

  datatype VarDecl = VarDecl(ty: Type, name: string, init: Option<Expr>)

  datatype Stmt =
    | Assign(lhs: Expr, rhs: Expr)
    | Print(expr: Expr)
    | Return(result: Option<Expr>)
    | Declare(decl: VarDecl)
      /** A call used as a statement; `call` is an `Invoke` expression. */
    | InvokeStmt(call: Expr)
    | IfElse(condition: Expr, trueBranch: seq<Stmt>, falseBranch: seq<Stmt>)
    | For(declaration: VarDecl, condition: Expr, increment: Stmt, body: seq<Stmt>)
    | While(condition: Expr, body: seq<Stmt>)

  datatype Parameter = Parameter(ty: Type, name: string)

  datatype FunDecl = FunDecl(name: string, ret: Type, parameters: seq<Parameter>, body: seq<Stmt>)

  datatype Decl =
    | Fun(fun: FunDecl)
    | TypeDecl(name: string, ty: Type)
    | ConstDecl(name: string, constant: Expr)
  {
    function Name(): string {
      if Fun? then fun.name else name
    }
  }

  datatype WhileFile = WhileFile(declarations: seq<Decl>)
}
