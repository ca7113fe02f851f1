/** The recursive-descent parser of While source, read as functions. Each
    routine takes the token sequence, the names of the types declared so far
    and the position of the cursor; it yields the syntax it built together
    with the position after it, or the error that stopped it. The Parser
    class in module Parsers runs the same routines over a mutable cursor and
    is proved to agree with these functions. */
module Grammar {
  import opened Wrappers
  import opened Errors
  import opened Syntax
  import JavaInt

  datatype Symbol =
    | LeftBrace | RightBrace | LeftSquare | RightSquare | LeftCurly | RightCurly
    | Comma | SemiColon | Colon | Dot
    | Plus | PlusPlus | Minus | Star | RightSlash | Percent
    | Bar | Shreak | LogicalAnd | LogicalOr
    | Equals | EqualsEquals | NotEquals
    | LeftAngle | RightAngle | LessEquals | GreaterEquals

  function SymbolText(s: Symbol): string {
    match s
    case LeftBrace => "("
    case RightBrace => ")"
    case LeftSquare => "["
    case RightSquare => "]"
    case LeftCurly => "{"
    case RightCurly => "}"
    case Comma => ","
    case SemiColon => ";"
    case Colon => ":"
    case Dot => "."
    case Plus => "+"
    case PlusPlus => "++"
    case Minus => "-"
    case Star => "*"
    case RightSlash => "/"
    case Percent => "%"
    case Bar => "|"
    case Shreak => "!"
    case LogicalAnd => "&&"
    case LogicalOr => "||"
    case Equals => "="
    case EqualsEquals => "=="
    case NotEquals => "!="
    case LeftAngle => "<"
    case RightAngle => ">"
    case LessEquals => "<="
    case GreaterEquals => ">="
  }

  /** The lexer's tokens. A symbol's text is fixed by its kind; the other
      tokens carry the source text they were read from, and literals also
      their value. */
  datatype Token =
    | Keyword(text: string)
    | Identifier(text: string)
    | CharToken(text: string, c: char)
    | IntToken(text: string, i: int)
    | RealToken(text: string, r: real)
    | StringToken(text: string, s: string)
    | Sym(symbol: Symbol)
  {
    function Text(): string {
      if Sym? then SymbolText(symbol) else text
    }

    predicate IsLiteral() {
      CharToken? || IntToken? || RealToken? || StringToken?
    }
  }

  /** A routine's result: what it built and the cursor after it. */
  datatype Parsed<T> = Parsed(node: T, next: nat)

  const END_OF_FILE := SyntaxError("unexpected end-of-file")
  const UNEXPECTED_TOKEN := SyntaxError("unexpected token")
  const IDENTIFIER_EXPECTED := SyntaxError("identifier expected")
  const KEYWORD_EXPECTED := SyntaxError("keyword expected")
  const UNRECOGNISED_TERM := SyntaxError("unrecognised term")
  const DUPLICATE_KEY := SyntaxError("duplicate tuple key")
  const LVAL_EXPECTED := SyntaxError("expecting lval")
  /** ArrayList.get past the last token, where a token is read without
      checkNotEof first. */
  const NO_TOKEN := IndexOutOfBounds("token index")

  /** The token at i exists and is the symbol s (an `instanceof` test). */
  predicate At(ts: seq<Token>, i: nat, s: Symbol) {
    i < |ts| && ts[i] == Sym(s)
  }

  // ---------------------------------------------------------------------
  // Matching single tokens

  /** match(op): the current token must have the text op; the cursor moves
      past it. */
  function Expect(ts: seq<Token>, i: nat, op: string): (r: Result<nat, Error>)
    ensures r.Ok? <==> i < |ts| && ts[i].Text() == op
    ensures r.Ok? ==> r.value == i + 1
    ensures i >= |ts| ==> r == Err(END_OF_FILE)
  {
    if i >= |ts| then Err(END_OF_FILE)
    else if ts[i].Text() != op then Err(UNEXPECTED_TOKEN)
    else Ok(i + 1)
  }

  /** matchIdentifier: the current token must be an identifier. */
  function ExpectIdentifier(ts: seq<Token>, i: nat): (r: Result<Parsed<string>, Error>)
    ensures r.Ok? <==> i < |ts| && ts[i].Identifier?
    ensures r.Ok? ==> r.value == Parsed(ts[i].text, i + 1)
    ensures i >= |ts| ==> r == Err(END_OF_FILE)
  {
    if i >= |ts| then Err(END_OF_FILE)
    else if ts[i].Identifier? then Ok(Parsed(ts[i].text, i + 1))
    else Err(IDENTIFIER_EXPECTED)
  }

  /** matchKeyword(kw): the current token must be the keyword kw. */
  function ExpectKeyword(ts: seq<Token>, i: nat, kw: string): (r: Result<nat, Error>)
    ensures r.Ok? <==> i < |ts| && ts[i] == Keyword(kw)
    ensures r.Ok? ==> r.value == i + 1
    ensures i >= |ts| ==> r == Err(END_OF_FILE)
  {
    if i >= |ts| then Err(END_OF_FILE)
    else if ts[i].Keyword? && ts[i].text == kw then Ok(i + 1)
    else Err(KEYWORD_EXPECTED)
  }

  /** The constant a literal token stands for. */
  function LiteralOf(t: Token): Literal
    requires t.IsLiteral()
  {
    match t
    case CharToken(_, c) => CharLit(c)
    case IntToken(_, v) => IntLit(v)
    case RealToken(_, v) => RealLit(v)
    case StringToken(_, s) => StringLit(s)
  }

  /** isType: whether a type starts at i. Only previously declared names
      count as types, and `{` and `[` defer to the token after them. */
  predicate IsType(ts: seq<Token>, u: set<string>, i: nat)
    decreases |ts| - i
  {
    if i >= |ts| then false
    else match ts[i]
      case Keyword(k) => k in {"null", "bool", "int", "real", "char", "string"}
      case Identifier(n) => n in u
      case Sym(LeftCurly) => IsType(ts, u, i + 1)
      case Sym(LeftSquare) => IsType(ts, u, i + 1)
      case _ => false
  }

  // ---------------------------------------------------------------------
  // Types

  /** The type a type keyword names. */
  function KeywordType(text: string): Option<Type> {
    if text == "null" then Some(Null)
    else if text == "int" then Some(Int)
    else if text == "real" then Some(Real)
    else if text == "void" then Some(Void)
    else if text == "bool" then Some(Bool)
    else if text == "char" then Some(Char)
    else if text == "string" then Some(Strung)
    else None
  }

  /** parseType: a base type, or a union when `|` follows it. */
  function UnionType(ts: seq<Token>, i: nat): (r: Result<Parsed<Type>, Error>)
    requires i <= |ts|
    ensures r.Ok? ==> i < r.value.next <= |ts|
    ensures i == |ts| ==> r == Err(END_OF_FILE)
    decreases |ts| - i, 1
  {
    var base :- BaseType(ts, i);
    if At(ts, base.next, Bar) then
      var bounds :- UnionBounds(ts, base.next, [base.node]);
      Ok(Parsed(Union(bounds.node), bounds.next))
    else
      Ok(base)
  }

  /** The loop of parseType: each `|` (matched by the lookahead) is followed
      by one more base type. */
  function UnionBounds(ts: seq<Token>, i: nat, bounds: seq<Type>): (r: Result<Parsed<seq<Type>>, Error>)
    requires i <= |ts|
    ensures r.Ok? ==> i <= r.value.next <= |ts|
    decreases |ts| - i, 0
  {
    if At(ts, i, Bar) then
      var b :- BaseType(ts, i + 1);
      UnionBounds(ts, b.next, bounds + [b.node])
    else
      Ok(Parsed(bounds, i))
  }

  /** parseBaseType. The token after a record type's `{` is read without an
      end-of-file check. */
  function BaseType(ts: seq<Token>, i: nat): (r: Result<Parsed<Type>, Error>)
    requires i <= |ts|
    ensures r.Ok? ==> i < r.value.next <= |ts|
    decreases |ts| - i, 0
  {
    if i >= |ts| then Err(END_OF_FILE)
    else if KeywordType(ts[i].Text()).Some? then
      var j :- ExpectKeyword(ts, i, ts[i].Text());
      Ok(Parsed(KeywordType(ts[i].Text()).value, j))
    else if ts[i] == Sym(LeftCurly) then
      if i + 1 >= |ts| then Err(NO_TOKEN)
      else
        var fields :- FieldTypes(ts, i + 1, [], true);
        var j :- Expect(ts, fields.next, "}");
        Ok(Parsed(Record(fields.node), j))
    else if ts[i] == Sym(LeftSquare) then
      var element :- UnionType(ts, i + 1);
      var j :- Expect(ts, element.next, "]");
      Ok(Parsed(List(element.node), j))
    else
      var name :- ExpectIdentifier(ts, i);
      Ok(Parsed(Named(name.node), name.next))
  }

  /** The loop over the fields of a record type, up to the closing `}`. */
  function FieldTypes(ts: seq<Token>, i: nat, fields: seq<Field>, first: bool): (r: Result<Parsed<seq<Field>>, Error>)
    requires i <= |ts|
    ensures r.Ok? ==> i <= r.value.next <= |ts|
    decreases |ts| - i, 3
  {
    if i >= |ts| then Err(END_OF_FILE)
    else if ts[i] == Sym(RightCurly) then Ok(Parsed(fields, i))
    else
      var field :- FieldType(ts, i, fields, first);
      FieldTypes(ts, field.next, fields + [field.node], false)
  }

  /** One pass of that loop: the `,` unless it is the first field, then a
      type and a name; a name already among the fields is a duplicate. */
  function FieldType(ts: seq<Token>, i: nat, fields: seq<Field>, first: bool): (r: Result<Parsed<Field>, Error>)
    requires i <= |ts|
    ensures r.Ok? ==> i < r.value.next <= |ts|
    decreases |ts| - i, 2
  {
    var j :- if first then Ok(i) else Expect(ts, i, ",");
    var ty :- UnionType(ts, j);
    var name :- ExpectIdentifier(ts, ty.next);
    if name.node in FieldNames(fields) then Err(DUPLICATE_KEY)
    else Ok(Parsed(Field(name.node, ty.node), name.next))
  }

  // ---------------------------------------------------------------------
  // Expressions, from the loosest binding level to the tightest

  function LogicalOp(t: Token): Option<BOp> {
    match t
    case Sym(LogicalAnd) => Some(AND)
    case Sym(LogicalOr) => Some(OR)
    case _ => None
  }

  function ComparisonOp(t: Token): Option<BOp> {
    match t
    case Sym(LessEquals) => Some(LTEQ)
    case Sym(LeftAngle) => Some(LT)
    case Sym(GreaterEquals) => Some(GTEQ)
    case Sym(RightAngle) => Some(GT)
    case Sym(EqualsEquals) => Some(EQ)
    case Sym(NotEquals) => Some(NEQ)
    case _ => None
  }

  function AdditiveOp(t: Token): Option<BOp> {
    match t
    case Sym(Plus) => Some(ADD)
    case Sym(Minus) => Some(SUB)
    case _ => None
  }

  function MultiplicativeOp(t: Token): Option<BOp> {
    match t
    case Sym(Star) => Some(MUL)
    case Sym(RightSlash) => Some(DIV)
    case Sym(Percent) => Some(REM)
    case _ => None
  }

  /** parseCondition: `&&` and `||`, whose right operand is again a whole
      condition. */
  function Condition(ts: seq<Token>, u: set<string>, i: nat): (r: Result<Parsed<Expr>, Error>)
    requires i <= |ts|
    ensures r.Ok? ==> i < r.value.next <= |ts|
    decreases |ts| - i, 7
  {
    if i >= |ts| then Err(END_OF_FILE)
    else
      var lhs :- ConditionExpression(ts, u, i);
      var op := if lhs.next < |ts| then LogicalOp(ts[lhs.next]) else None;
      if op.Some? then
        var rhs :- Condition(ts, u, lhs.next + 1);
        Ok(Parsed(Binary(op.value, lhs.node, rhs.node, None), rhs.next))
      else
        Ok(lhs)
  }

  /** parseConditionExpression: at most one comparison between two append
      expressions. */
  function ConditionExpression(ts: seq<Token>, u: set<string>, i: nat): (r: Result<Parsed<Expr>, Error>)
    requires i <= |ts|
    ensures r.Ok? ==> i < r.value.next <= |ts|
    decreases |ts| - i, 6
  {
    var lhs :- AppendExpression(ts, u, i);
    var op := if lhs.next < |ts| then ComparisonOp(ts[lhs.next]) else None;
    if op.Some? then
      var rhs :- AppendExpression(ts, u, lhs.next + 1);
      Ok(Parsed(Binary(op.value, lhs.node, rhs.node, None), rhs.next))
    else
      Ok(lhs)
  }

  /** parseAppendExpression: `++`, whose right operand is again an append
      expression. */
  function AppendExpression(ts: seq<Token>, u: set<string>, i: nat): (r: Result<Parsed<Expr>, Error>)
    requires i <= |ts|
    ensures r.Ok? ==> i < r.value.next <= |ts|
    decreases |ts| - i, 5
  {
    var lhs :- AddSubExpression(ts, u, i);
    if At(ts, lhs.next, PlusPlus) then
      var rhs :- AppendExpression(ts, u, lhs.next + 1);
      Ok(Parsed(Binary(APPEND, lhs.node, rhs.node, None), rhs.next))
    else
      Ok(lhs)
  }

  /** parseAddSubExpression: `+` and `-`, whose right operand is again an
      add/sub expression. */
  function AddSubExpression(ts: seq<Token>, u: set<string>, i: nat): (r: Result<Parsed<Expr>, Error>)
    requires i <= |ts|
    ensures r.Ok? ==> i < r.value.next <= |ts|
    decreases |ts| - i, 4
  {
    var lhs :- MulDivExpression(ts, u, i);
    var op := if lhs.next < |ts| then AdditiveOp(ts[lhs.next]) else None;
    if op.Some? then
      var rhs :- AddSubExpression(ts, u, lhs.next + 1);
      Ok(Parsed(Binary(op.value, lhs.node, rhs.node, None), rhs.next))
    else
      Ok(lhs)
  }

  /** parseMulDivExpression: `*`, `/` and `%`, whose right operand is again
      a mul/div expression. */
  function MulDivExpression(ts: seq<Token>, u: set<string>, i: nat): (r: Result<Parsed<Expr>, Error>)
    requires i <= |ts|
    ensures r.Ok? ==> i < r.value.next <= |ts|
    decreases |ts| - i, 3
  {
    var lhs :- IndexTerm(ts, u, i);
    var op := if lhs.next < |ts| then MultiplicativeOp(ts[lhs.next]) else None;
    if op.Some? then
      var rhs :- MulDivExpression(ts, u, lhs.next + 1);
      Ok(Parsed(Binary(op.value, lhs.node, rhs.node, None), rhs.next))
    else
      Ok(lhs)
  }

  /** parseIndexTerm: a term and its postfix chain. The token after the
      term is read without an end-of-file check. */
  function IndexTerm(ts: seq<Token>, u: set<string>, i: nat): (r: Result<Parsed<Expr>, Error>)
    requires i <= |ts|
    ensures r.Ok? ==> i < r.value.next <= |ts|
    decreases |ts| - i, 2
  {
    if i >= |ts| then Err(END_OF_FILE)
    else
      var lhs :- Term(ts, u, i);
      if lhs.next >= |ts| then Err(NO_TOKEN)
      else Postfix(ts, u, lhs.node, lhs.next)
  }

  /** The loop of parseIndexTerm: `[e]` and `.f` wrap what was built so far.
      A `(` also enters the loop, where it fails the match of `.`. */
  function Postfix(ts: seq<Token>, u: set<string>, lhs: Expr, i: nat): (r: Result<Parsed<Expr>, Error>)
    requires i <= |ts|
    ensures r.Ok? ==> i <= r.value.next <= |ts|
    decreases |ts| - i, 1
  {
    if At(ts, i, LeftSquare) || At(ts, i, Dot) || At(ts, i, LeftBrace) then
      var s :- Suffix(ts, u, lhs, i);
      Postfix(ts, u, s.node, s.next)
    else
      Ok(Parsed(lhs, i))
  }

  /** One pass of that loop: `[e]` after a `[`, and `.f` otherwise. */
  function Suffix(ts: seq<Token>, u: set<string>, lhs: Expr, i: nat): (r: Result<Parsed<Expr>, Error>)
    requires i < |ts|
    ensures r.Ok? ==> i < r.value.next <= |ts|
    decreases |ts| - i, 0
  {
    if ts[i] == Sym(LeftSquare) then
      var index :- AddSubExpression(ts, u, i + 1);
      var j :- Expect(ts, index.next, "]");
      Ok(Parsed(IndexOf(lhs, index.node, None), j))
    else
      var j :- Expect(ts, i, ".");
      var field :- ExpectIdentifier(ts, j);
      Ok(Parsed(RecordAccess(lhs, field.node, None), field.next))
  }

  /** parseTerm. A `(` followed by a type is a cast whose operand is a
      whole condition; `!` applies to a term, before any postfix. */
  function Term(ts: seq<Token>, u: set<string>, i: nat): (r: Result<Parsed<Expr>, Error>)
    requires i <= |ts|
    ensures r.Ok? ==> i < r.value.next <= |ts|
    decreases |ts| - i, 1
  {
    if i >= |ts| then Err(END_OF_FILE)
    else if ts[i] == Sym(LeftBrace) then
      Bracketed(ts, u, i)
    else if ts[i].Identifier? && At(ts, i + 1, LeftBrace) then
      InvokeExpr(ts, u, i)
    else if ts[i].Text() == "null" then
      var j :- ExpectKeyword(ts, i, "null");
      Ok(Parsed(Constant(NullLit, None), j))
    else if ts[i].Text() == "true" then
      var j :- ExpectKeyword(ts, i, "true");
      Ok(Parsed(Constant(BoolLit(true), None), j))
    else if ts[i].Text() == "false" then
      var j :- ExpectKeyword(ts, i, "false");
      Ok(Parsed(Constant(BoolLit(false), None), j))
    else if ts[i].Identifier? then
      Ok(Parsed(Variable(ts[i].text, None), i + 1))
    else if ts[i].IsLiteral() then
      Ok(Parsed(Constant(LiteralOf(ts[i]), None), i + 1))
    else if ts[i] == Sym(Minus) then
      Negation(ts, u, i)
    else if ts[i] == Sym(Bar) then
      LengthOf(ts, u, i)
    else if ts[i] == Sym(LeftSquare) then
      ListVal(ts, u, i)
    else if ts[i] == Sym(LeftCurly) then
      RecordVal(ts, u, i)
    else if ts[i] == Sym(Shreak) then
      var e :- Term(ts, u, i + 1);
      Ok(Parsed(Unary(NOT, e.node, None), e.next))
    else
      Err(UNRECOGNISED_TERM)
  }

  /** The `(` case of parseTerm: a cast when a type follows, whose operand
      is a whole condition, and a parenthesised condition otherwise. */
  function Bracketed(ts: seq<Token>, u: set<string>, i: nat): (r: Result<Parsed<Expr>, Error>)
    requires i <= |ts|
    ensures r.Ok? ==> i < r.value.next <= |ts|
    decreases |ts| - i, 0
  {
    var j :- Expect(ts, i, "(");
    if IsType(ts, u, j) then
      var t :- UnionType(ts, j);
      var k :- Expect(ts, t.next, ")");
      var e :- Condition(ts, u, k);
      Ok(Parsed(Cast(t.node, e.node, None), e.next))
    else
      var e :- Condition(ts, u, j);
      var k :- Expect(ts, e.next, ")");
      Ok(Parsed(e.node, k))
  }

  /** parseListVal: `[`, expressions separated by `,`, `]`. */
  function ListVal(ts: seq<Token>, u: set<string>, i: nat): (r: Result<Parsed<Expr>, Error>)
    requires i <= |ts|
    ensures r.Ok? ==> i < r.value.next <= |ts|
    decreases |ts| - i, 0
  {
    var j :- Expect(ts, i, "[");
    var elements :- ListElements(ts, u, j, [], true);
    var k :- Expect(ts, elements.next, "]");
    Ok(Parsed(ListConstructor(elements.node, None), k))
  }

  /** The loop of parseListVal, up to the closing `]`. */
  function ListElements(ts: seq<Token>, u: set<string>, i: nat, elements: seq<Expr>, first: bool): (r: Result<Parsed<seq<Expr>>, Error>)
    requires i <= |ts|
    ensures r.Ok? ==> i <= r.value.next <= |ts|
    decreases |ts| - i, 8
  {
    if i >= |ts| then Err(END_OF_FILE)
    else if ts[i] == Sym(RightSquare) then Ok(Parsed(elements, i))
    else
      var j :- if first then Ok(i) else Expect(ts, i, ",");
      var e :- Condition(ts, u, j);
      ListElements(ts, u, e.next, elements + [e.node], false)
  }

  /** parseRecordVal: `{`, `name : expression` pairs separated by `,`, `}`. */
  function RecordVal(ts: seq<Token>, u: set<string>, i: nat): (r: Result<Parsed<Expr>, Error>)
    requires i <= |ts|
    ensures r.Ok? ==> i < r.value.next <= |ts|
    decreases |ts| - i, 0
  {
    var j :- Expect(ts, i, "{");
    var inits :- FieldInits(ts, u, j, [], true);
    var k :- Expect(ts, inits.next, "}");
    Ok(Parsed(RecordConstructor(inits.node, None), k))
  }

  /** The names given so far in a record value (its `keys`). */
  function InitKeys(inits: seq<FieldInit>): set<string> {
    if inits == [] then {} else InitKeys(inits[..|inits| - 1]) + {inits[|inits| - 1].name}
  }

  /** The loop of parseRecordVal, up to the closing `}`. */
  function FieldInits(ts: seq<Token>, u: set<string>, i: nat, inits: seq<FieldInit>, first: bool): (r: Result<Parsed<seq<FieldInit>>, Error>)
    requires i <= |ts|
    ensures r.Ok? ==> i <= r.value.next <= |ts|
    decreases |ts| - i, 8
  {
    if i >= |ts| then Err(END_OF_FILE)
    else if ts[i] == Sym(RightCurly) then Ok(Parsed(inits, i))
    else
      var entry :- RecordEntry(ts, u, i, InitKeys(inits), first);
      FieldInits(ts, u, entry.next, inits + [entry.node], false)
  }

  /** One pass of that loop: the `,` unless it is the first entry, then
      `name : e`; a name among the keys given before is a duplicate. */
  function RecordEntry(ts: seq<Token>, u: set<string>, i: nat, keys: set<string>, first: bool): (r: Result<Parsed<FieldInit>, Error>)
    requires i <= |ts|
    ensures r.Ok? ==> i < r.value.next <= |ts|
    decreases |ts| - i, 0
  {
    var j :- if first then Ok(i) else Expect(ts, i, ",");
    var name :- ExpectIdentifier(ts, j);
    if name.node in keys then Err(DUPLICATE_KEY)
    else
      var k :- Expect(ts, name.next, ":");
      var e :- Condition(ts, u, k);
      Ok(Parsed(FieldInit(name.node, e.node), e.next))
  }

  /** parseLengthOf: `|e|` around an index term. */
  function LengthOf(ts: seq<Token>, u: set<string>, i: nat): (r: Result<Parsed<Expr>, Error>)
    requires i <= |ts|
    ensures r.Ok? ==> i < r.value.next <= |ts|
    decreases |ts| - i, 0
  {
    var j :- Expect(ts, i, "|");
    var e :- IndexTerm(ts, u, j);
    var k :- Expect(ts, e.next, "|");
    Ok(Parsed(Unary(LENGTHOF, e.node, None), k))
  }

  /** parseNegation: `-` before an index term; a negated integer or real
      constant is folded into the constant (with Java's int negation). */
  function Negation(ts: seq<Token>, u: set<string>, i: nat): (r: Result<Parsed<Expr>, Error>)
    requires i <= |ts|
    ensures r.Ok? ==> i < r.value.next <= |ts|
    decreases |ts| - i, 0
  {
    var j :- Expect(ts, i, "-");
    var e :- IndexTerm(ts, u, j);
    Ok(Parsed(Negated(e.node), e.next))
  }

  /** The expression parseNegation builds around its operand. */
  function Negated(e: Expr): Expr {
    match e
    case Constant(IntLit(v), _) => Constant(IntLit(JavaInt.Neg(v)), None)
    case Constant(RealLit(v), _) => Constant(RealLit(-v), None)
    case _ => Unary(NEG, e, None)
  }

  /** parseInvokeExpr (and parseInvokeStmt, which has the same body): a
      name, `(`, arguments separated by `,`, `)`. */
  function InvokeExpr(ts: seq<Token>, u: set<string>, i: nat): (r: Result<Parsed<Expr>, Error>)
    requires i <= |ts|
    ensures r.Ok? ==> i < r.value.next <= |ts| && r.value.node.Invoke?
    decreases |ts| - i, 0
  {
    var name :- ExpectIdentifier(ts, i);
    var j :- Expect(ts, name.next, "(");
    var args :- Arguments(ts, u, j, [], true);
    var k :- Expect(ts, args.next, ")");
    Ok(Parsed(Invoke(name.node, args.node, None), k))
  }

  /** The loop over the arguments of a call, up to `)` or the end. */
  function Arguments(ts: seq<Token>, u: set<string>, i: nat, args: seq<Expr>, first: bool): (r: Result<Parsed<seq<Expr>>, Error>)
    requires i <= |ts|
    ensures r.Ok? ==> i <= r.value.next <= |ts|
    decreases |ts| - i, 8
  {
    if i < |ts| && ts[i] != Sym(RightBrace) then
      var j :- if first then Ok(i) else Expect(ts, i, ",");
      var e :- Condition(ts, u, j);
      Arguments(ts, u, e.next, args + [e.node], false)
    else
      Ok(Parsed(args, i))
  }

  // ---------------------------------------------------------------------
  // Statements

  /** parseStatement. Keywords decide first; then a name followed by `(` is
      a call, a type starts a declaration, and anything else is parsed as a
      condition: a call stands as it is, otherwise the cursor goes back and
      the statement is parsed again as an assignment. */
  function Statement(ts: seq<Token>, u: set<string>, i: nat, withSemiColon: bool): (r: Result<Parsed<Stmt>, Error>)
    requires i <= |ts|
    ensures r.Ok? ==> i < r.value.next <= |ts|
    decreases |ts| - i, 2
  {
    if i >= |ts| then Err(END_OF_FILE)
    else if ts[i].Text() == "return" then
      var s :- ReturnStatement(ts, u, i);
      Terminated(ts, s, withSemiColon)
    else if ts[i].Text() == "print" then
      var s :- PrintStatement(ts, u, i);
      Terminated(ts, s, withSemiColon)
    else if ts[i].Text() == "if" then
      IfStatement(ts, u, i)
    else if ts[i].Text() == "while" then
      WhileStatement(ts, u, i)
    else if ts[i].Text() == "for" then
      ForStatement(ts, u, i)
    else if At(ts, i + 1, LeftBrace) then
      var call :- InvokeExpr(ts, u, i);
      Terminated(ts, Parsed(InvokeStmt(call.node), call.next), withSemiColon)
    else if IsType(ts, u, i) then
      var d :- VariableDeclaration(ts, u, i);
      Terminated(ts, Parsed(Declare(d.node), d.next), withSemiColon)
    else
      var e :- Condition(ts, u, i);
      if e.node.Invoke? then
        Terminated(ts, Parsed(InvokeStmt(e.node), e.next), withSemiColon)
      else
        var s :- Assignment(ts, u, i);
        Terminated(ts, s, withSemiColon)
  }

  /** The `;` after a simple statement, when one is expected. */
  function Terminated(ts: seq<Token>, s: Parsed<Stmt>, withSemiColon: bool): (r: Result<Parsed<Stmt>, Error>)
    requires s.next <= |ts|
    ensures r.Ok? ==> r.value.node == s.node && s.next <= r.value.next <= |ts|
  {
    if withSemiColon then
      var j :- Expect(ts, s.next, ";");
      Ok(Parsed(s.node, j))
    else
      Ok(s)
  }

  /** parseBlock: `{`, statements, `}`. */
  function Block(ts: seq<Token>, u: set<string>, i: nat): (r: Result<Parsed<seq<Stmt>>, Error>)
    requires i <= |ts|
    ensures r.Ok? ==> i < r.value.next <= |ts|
    decreases |ts| - i, 0
  {
    var j :- Expect(ts, i, "{");
    var body :- Statements(ts, u, j, []);
    var k :- Expect(ts, body.next, "}");
    Ok(Parsed(body.node, k))
  }

  /** The loop of parseBlock, up to `}` or the end. */
  function Statements(ts: seq<Token>, u: set<string>, i: nat, stmts: seq<Stmt>): (r: Result<Parsed<seq<Stmt>>, Error>)
    requires i <= |ts|
    ensures r.Ok? ==> i <= r.value.next <= |ts|
    decreases |ts| - i, 3
  {
    if i < |ts| && ts[i] != Sym(RightCurly) then
      var s :- Statement(ts, u, i, true);
      Statements(ts, u, s.next, stmts + [s.node])
    else
      Ok(Parsed(stmts, i))
  }

  /** parseReturn: an expression follows unless the next token is `;` or
      there is none. */
  function ReturnStatement(ts: seq<Token>, u: set<string>, i: nat): (r: Result<Parsed<Stmt>, Error>)
    requires i <= |ts|
    ensures r.Ok? ==> i < r.value.next <= |ts| && r.value.node.Return?
  {
    var j :- ExpectKeyword(ts, i, "return");
    if j < |ts| && ts[j] != Sym(SemiColon) then
      var e :- Condition(ts, u, j);
      Ok(Parsed(Return(Some(e.node)), e.next))
    else
      Ok(Parsed(Return(None), j))
  }

  /** parsePrint. */
  function PrintStatement(ts: seq<Token>, u: set<string>, i: nat): (r: Result<Parsed<Stmt>, Error>)
    requires i <= |ts|
    ensures r.Ok? ==> i < r.value.next <= |ts| && r.value.node.Print?
  {
    var j :- ExpectKeyword(ts, i, "print");
    var e :- Condition(ts, u, j);
    Ok(Parsed(Print(e.node), e.next))
  }

  /** parseIf. An `else` counts only when a token follows it; `else if`
      nests the second conditional as the only statement of the false
      branch. */
  function IfStatement(ts: seq<Token>, u: set<string>, i: nat): (r: Result<Parsed<Stmt>, Error>)
    requires i <= |ts|
    ensures r.Ok? ==> i < r.value.next <= |ts|
    decreases |ts| - i, 1
  {
    var j :- ExpectKeyword(ts, i, "if");
    var k :- Expect(ts, j, "(");
    var c :- Condition(ts, u, k);
    var l :- Expect(ts, c.next, ")");
    var t :- Block(ts, u, l);
    if t.next + 1 < |ts| && ts[t.next].Text() == "else" then
      var m :- ExpectKeyword(ts, t.next, "else");
      if m < |ts| && ts[m].Text() == "if" then
        var s :- IfStatement(ts, u, m);
        Ok(Parsed(IfElse(c.node, t.node, [s.node]), s.next))
      else
        var f :- Block(ts, u, m);
        Ok(Parsed(IfElse(c.node, t.node, f.node), f.next))
    else
      Ok(Parsed(IfElse(c.node, t.node, []), t.next))
  }

  /** parseWhile. */
  function WhileStatement(ts: seq<Token>, u: set<string>, i: nat): (r: Result<Parsed<Stmt>, Error>)
    requires i <= |ts|
    ensures r.Ok? ==> i < r.value.next <= |ts|
    decreases |ts| - i, 1
  {
    var j :- ExpectKeyword(ts, i, "while");
    var k :- Expect(ts, j, "(");
    var c :- Condition(ts, u, k);
    var l :- Expect(ts, c.next, ")");
    var body :- Block(ts, u, l);
    Ok(Parsed(While(c.node, body.node), body.next))
  }

  /** parseFor: a declaration, a condition and an increment statement
      without its `;`, then the body. */
  function ForStatement(ts: seq<Token>, u: set<string>, i: nat): (r: Result<Parsed<Stmt>, Error>)
    requires i <= |ts|
    ensures r.Ok? ==> i < r.value.next <= |ts|
    decreases |ts| - i, 1
  {
    var j :- ExpectKeyword(ts, i, "for");
    var k :- Expect(ts, j, "(");
    var d :- VariableDeclaration(ts, u, k);
    var l :- Expect(ts, d.next, ";");
    var c :- Condition(ts, u, l);
    var m :- Expect(ts, c.next, ";");
    var incr :- Statement(ts, u, m, false);
    var n :- Expect(ts, incr.next, ")");
    var body :- Block(ts, u, n);
    Ok(Parsed(For(d.node, c.node, incr.node, body.node), body.next))
  }

  /** parseVariableDeclaration: a type, a name and an optional `= e`. */
  function VariableDeclaration(ts: seq<Token>, u: set<string>, i: nat): (r: Result<Parsed<VarDecl>, Error>)
    requires i <= |ts|
    ensures r.Ok? ==> i < r.value.next <= |ts|
  {
    var ty :- UnionType(ts, i);
    var name :- ExpectIdentifier(ts, ty.next);
    if At(ts, name.next, Equals) then
      var e :- Condition(ts, u, name.next + 1);
      Ok(Parsed(VarDecl(ty.node, name.node, Some(e.node)), e.next))
    else
      Ok(Parsed(VarDecl(ty.node, name.node, None), name.next))
  }

  /** parseAssign: the left side must be a variable, a field access or an
      index. */
  function Assignment(ts: seq<Token>, u: set<string>, i: nat): (r: Result<Parsed<Stmt>, Error>)
    requires i <= |ts|
    ensures r.Ok? ==> i < r.value.next <= |ts| && r.value.node.Assign? && r.value.node.lhs.IsLVal()
  {
    var lhs :- Condition(ts, u, i);
    if !lhs.node.IsLVal() then Err(LVAL_EXPECTED)
    else
      var j :- Expect(ts, lhs.next, "=");
      var rhs :- Condition(ts, u, j);
      Ok(Parsed(Assign(lhs.node, rhs.node), rhs.next))
  }

  // ---------------------------------------------------------------------
  // Declarations

  /** parseFunction: return type, name, parameters in parentheses, body. */
  function FunctionDeclaration(ts: seq<Token>, u: set<string>, i: nat): (r: Result<Parsed<FunDecl>, Error>)
    requires i <= |ts|
    ensures r.Ok? ==> i < r.value.next <= |ts|
  {
    var ret :- UnionType(ts, i);
    var name :- ExpectIdentifier(ts, ret.next);
    var j :- Expect(ts, name.next, "(");
    var params :- Parameters(ts, j, [], true);
    var k :- Expect(ts, params.next, ")");
    var body :- Block(ts, u, k);
    Ok(Parsed(FunDecl(name.node, ret.node, params.node, body.node), body.next))
  }

  /** The loop over the parameters of parseFunction, up to `)` or the end. */
  function Parameters(ts: seq<Token>, i: nat, params: seq<Parameter>, first: bool): (r: Result<Parsed<seq<Parameter>>, Error>)
    requires i <= |ts|
    ensures r.Ok? ==> i <= r.value.next <= |ts|
    decreases |ts| - i
  {
    if i < |ts| && ts[i] != Sym(RightBrace) then
      var j :- if first then Ok(i) else Expect(ts, i, ",");
      var ty :- UnionType(ts, j);
      var name :- ExpectIdentifier(ts, ty.next);
      Parameters(ts, name.next, params + [Parameter(ty.node, name.node)], false)
    else
      Ok(Parsed(params, i))
  }

  /** parseTypeDeclaration: `type name is T`. */
  function TypeDeclaration(ts: seq<Token>, i: nat): (r: Result<Parsed<Decl>, Error>)
    requires i <= |ts|
    ensures r.Ok? ==> i < r.value.next <= |ts| && r.value.node.TypeDecl?
  {
    var j :- ExpectKeyword(ts, i, "type");
    var name :- ExpectIdentifier(ts, j);
    var k :- ExpectKeyword(ts, name.next, "is");
    var ty :- UnionType(ts, k);
    Ok(Parsed(TypeDecl(name.node, ty.node), ty.next))
  }

  /** parseConstantDeclaration: `const name is e`. */
  function ConstantDeclaration(ts: seq<Token>, u: set<string>, i: nat): (r: Result<Parsed<Decl>, Error>)
    requires i <= |ts|
    ensures r.Ok? ==> i < r.value.next <= |ts| && r.value.node.ConstDecl?
  {
    var j :- ExpectKeyword(ts, i, "const");
    var name :- ExpectIdentifier(ts, j);
    var k :- ExpectKeyword(ts, name.next, "is");
    var e :- Condition(ts, u, k);
    Ok(Parsed(ConstDecl(name.node, e.node), e.next))
  }

  /** The loop of read: declarations until the tokens run out; a type
      declaration makes its name a type for everything after it. */
  function Declarations(ts: seq<Token>, u: set<string>, i: nat, decls: seq<Decl>): (r: Result<seq<Decl>, Error>)
    requires i <= |ts|
    decreases |ts| - i
  {
    if i >= |ts| then Ok(decls)
    else if ts[i] == Keyword("type") then
      var d :- TypeDeclaration(ts, i);
      Declarations(ts, u + {d.node.name}, d.next, decls + [d.node])
    else if ts[i] == Keyword("const") then
      var d :- ConstantDeclaration(ts, u, i);
      Declarations(ts, u, d.next, decls + [d.node])
    else
      var f :- FunctionDeclaration(ts, u, i);
      Declarations(ts, u, f.next, decls + [Fun(f.node)])
  }

  /** read, from cursor i with the type names u already declared. */
  function ReadFrom(ts: seq<Token>, u: set<string>, i: nat): Result<WhileFile, Error>
    requires i <= |ts|
  {
    var decls :- Declarations(ts, u, i, []);
    Ok(WhileFile(decls))
  }

  /** read on a fresh parser: the whole token sequence as a While file. */
  function Read(ts: seq<Token>): Result<WhileFile, Error> {
    ReadFrom(ts, {}, 0)
  }

  /** The names that the type declarations among decls introduce. */
  function TypeNames(decls: seq<Decl>): set<string> {
    if decls == [] then {}
    else TypeNames(decls[..|decls| - 1]) + (if decls[|decls| - 1].TypeDecl? then {decls[|decls| - 1].name} else {})
  }
}
