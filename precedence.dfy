/** How the expression routines group operators: each binding level takes
    its left operand from the next tighter level and its right operand from
    itself (so every level but comparison is right-associative), postfix
    chains fold to the left, `-` folds into an integer literal, and repeated
    record keys and non-assignable left sides are errors. Each law is stated
    for every token sequence; the examples at the end apply them to short
    programs. */
module Precedence {
  import opened Wrappers
  import opened Errors
  import opened Syntax
  import opened Grammar
  import JavaInt

  // ---------------------------------------------------------------------
  // The binding levels

  /** A binary operator of the mul/div level applies to an index term on
      its left and a whole mul/div expression on its right. */
  lemma MulDivStep(ts: seq<Token>, u: set<string>, i: nat, l: Expr, j: nat, op: BOp, r: Expr, k: nat)
    requires j < |ts| && MultiplicativeOp(ts[j]) == Some(op)
    requires i <= |ts| && IndexTerm(ts, u, i) == Ok(Parsed(l, j))
    requires MulDivExpression(ts, u, j + 1) == Ok(Parsed(r, k))
    ensures MulDivExpression(ts, u, i) == Ok(Parsed(Binary(op, l, r, None), k))
  {
  }

  /** Without a mul/div operator after it, an index term is the whole
      mul/div expression. */
  lemma MulDivEnd(ts: seq<Token>, u: set<string>, i: nat, l: Expr, j: nat)
    requires j >= |ts| || MultiplicativeOp(ts[j]).None?
    requires i <= |ts| && IndexTerm(ts, u, i) == Ok(Parsed(l, j))
    ensures MulDivExpression(ts, u, i) == Ok(Parsed(l, j))
  {
  }

  lemma AddSubStep(ts: seq<Token>, u: set<string>, i: nat, l: Expr, j: nat, op: BOp, r: Expr, k: nat)
    requires j < |ts| && AdditiveOp(ts[j]) == Some(op)
    requires i <= |ts| && MulDivExpression(ts, u, i) == Ok(Parsed(l, j))
    requires AddSubExpression(ts, u, j + 1) == Ok(Parsed(r, k))
    ensures AddSubExpression(ts, u, i) == Ok(Parsed(Binary(op, l, r, None), k))
  {
  }

  lemma AddSubEnd(ts: seq<Token>, u: set<string>, i: nat, l: Expr, j: nat)
    requires j >= |ts| || AdditiveOp(ts[j]).None?
    requires i <= |ts| && MulDivExpression(ts, u, i) == Ok(Parsed(l, j))
    ensures AddSubExpression(ts, u, i) == Ok(Parsed(l, j))
  {
  }

  lemma AppendStep(ts: seq<Token>, u: set<string>, i: nat, l: Expr, j: nat, r: Expr, k: nat)
    requires At(ts, j, PlusPlus)
    requires i <= |ts| && AddSubExpression(ts, u, i) == Ok(Parsed(l, j))
    requires AppendExpression(ts, u, j + 1) == Ok(Parsed(r, k))
    ensures AppendExpression(ts, u, i) == Ok(Parsed(Binary(APPEND, l, r, None), k))
  {
  }

  lemma AppendEnd(ts: seq<Token>, u: set<string>, i: nat, l: Expr, j: nat)
    requires !At(ts, j, PlusPlus)
    requires i <= |ts| && AddSubExpression(ts, u, i) == Ok(Parsed(l, j))
    ensures AppendExpression(ts, u, i) == Ok(Parsed(l, j))
  {
  }

  /** A comparison takes an append expression on each side: its right
      operand is not a comparison, so comparisons do not chain. */
  lemma ComparisonStep(ts: seq<Token>, u: set<string>, i: nat, l: Expr, j: nat, op: BOp, r: Expr, k: nat)
    requires j < |ts| && ComparisonOp(ts[j]) == Some(op)
    requires i <= |ts| && AppendExpression(ts, u, i) == Ok(Parsed(l, j))
    requires AppendExpression(ts, u, j + 1) == Ok(Parsed(r, k))
    ensures ConditionExpression(ts, u, i) == Ok(Parsed(Binary(op, l, r, None), k))
  {
  }

  lemma ComparisonEnd(ts: seq<Token>, u: set<string>, i: nat, l: Expr, j: nat)
    requires j >= |ts| || ComparisonOp(ts[j]).None?
    requires i <= |ts| && AppendExpression(ts, u, i) == Ok(Parsed(l, j))
    ensures ConditionExpression(ts, u, i) == Ok(Parsed(l, j))
  {
  }

  lemma ConditionStep(ts: seq<Token>, u: set<string>, i: nat, l: Expr, j: nat, op: BOp, r: Expr, k: nat)
    requires j < |ts| && LogicalOp(ts[j]) == Some(op)
    requires i < |ts| && ConditionExpression(ts, u, i) == Ok(Parsed(l, j))
    requires Condition(ts, u, j + 1) == Ok(Parsed(r, k))
    ensures Condition(ts, u, i) == Ok(Parsed(Binary(op, l, r, None), k))
  {
  }

  lemma ConditionEnd(ts: seq<Token>, u: set<string>, i: nat, l: Expr, j: nat)
    requires j >= |ts| || LogicalOp(ts[j]).None?
    requires i < |ts| && ConditionExpression(ts, u, i) == Ok(Parsed(l, j))
    ensures Condition(ts, u, i) == Ok(Parsed(l, j))
  {
  }

  /** The operators each level reads are disjoint, so an operator token is
      read by exactly one level. */
  lemma OperatorLevels(t: Token)
    ensures MultiplicativeOp(t).Some? ==> AdditiveOp(t).None? && t != Sym(PlusPlus) && ComparisonOp(t).None? && LogicalOp(t).None?
    ensures AdditiveOp(t).Some? ==> t != Sym(PlusPlus) && ComparisonOp(t).None? && LogicalOp(t).None?
    ensures t == Sym(PlusPlus) ==> ComparisonOp(t).None? && LogicalOp(t).None?
    ensures ComparisonOp(t).Some? ==> LogicalOp(t).None?
  {
  }

  // ---------------------------------------------------------------------
  // Terms and postfix chains

  /** A name that is not a keyword constant and is followed by neither `(`
      nor a postfix operator is read as a variable. */
  lemma VariableTerm(ts: seq<Token>, u: set<string>, i: nat)
    requires i + 1 < |ts| && ts[i].Identifier? && ts[i].text !in {"null", "true", "false"}
    requires ts[i + 1] !in {Sym(LeftBrace), Sym(LeftSquare), Sym(Dot)}
    ensures IndexTerm(ts, u, i) == Ok(Parsed(Variable(ts[i].text, None), i + 1))
  {
  }

  /** `.f` wraps what the chain has built so far: chains fold to the left. */
  lemma PostfixField(ts: seq<Token>, u: set<string>, lhs: Expr, i: nat)
    requires At(ts, i, Dot) && i + 1 < |ts| && ts[i + 1].Identifier?
    ensures Postfix(ts, u, lhs, i) == Postfix(ts, u, RecordAccess(lhs, ts[i + 1].text, None), i + 2)
  {
  }

  /** `[e]` likewise, with an add/sub expression as the index. */
  lemma PostfixIndex(ts: seq<Token>, u: set<string>, lhs: Expr, i: nat, index: Expr, j: nat)
    requires At(ts, i, LeftSquare) && AddSubExpression(ts, u, i + 1) == Ok(Parsed(index, j))
    requires At(ts, j, RightSquare)
    ensures Postfix(ts, u, lhs, i) == Postfix(ts, u, IndexOf(lhs, index, None), j + 1)
  {
  }

  lemma PostfixEnd(ts: seq<Token>, u: set<string>, lhs: Expr, i: nat)
    requires i <= |ts| && !At(ts, i, LeftSquare) && !At(ts, i, Dot) && !At(ts, i, LeftBrace)
    ensures Postfix(ts, u, lhs, i) == Ok(Parsed(lhs, i))
  {
  }

  /** A term followed by a token starts its postfix chain there. */
  lemma IndexTermStep(ts: seq<Token>, u: set<string>, i: nat, e: Expr, j: nat)
    requires i < |ts| && Term(ts, u, i) == Ok(Parsed(e, j)) && j < |ts|
    ensures IndexTerm(ts, u, i) == Postfix(ts, u, e, j)
  {
  }

  /** A term that ends the input is an error: the token after it is read
      without an end-of-file check. */
  lemma IndexTermAtEnd(ts: seq<Token>, u: set<string>, i: nat, e: Expr)
    requires i < |ts| && Term(ts, u, i) == Ok(Parsed(e, |ts|))
    ensures IndexTerm(ts, u, i) == Err(NO_TOKEN)
  {
  }

  /** `-` applies to an index term; an integer literal absorbs it, negated
      as a Java int, and any other operand is wrapped in a NEG. */
  lemma NegationStep(ts: seq<Token>, u: set<string>, i: nat, e: Expr, j: nat)
    requires i < |ts| && ts[i] == Sym(Minus) && IndexTerm(ts, u, i + 1) == Ok(Parsed(e, j))
    ensures e.Constant? && e.value.IntLit? ==> Term(ts, u, i) == Ok(Parsed(Constant(IntLit(JavaInt.Neg(e.value.i)), None), j))
    ensures !(e.Constant? && (e.value.IntLit? || e.value.RealLit?)) ==> Term(ts, u, i) == Ok(Parsed(Unary(NEG, e, None), j))
  {
  }

  /** `!` applies to a term, before any postfix operator. */
  lemma NotStep(ts: seq<Token>, u: set<string>, i: nat, e: Expr, j: nat)
    requires i < |ts| && ts[i] == Sym(Shreak) && Term(ts, u, i + 1) == Ok(Parsed(e, j))
    ensures Term(ts, u, i) == Ok(Parsed(Unary(NOT, e, None), j))
  {
  }

  // ---------------------------------------------------------------------
  // Errors

  /** A record value naming a key twice fails at the second one. */
  lemma RecordEntryDuplicate(ts: seq<Token>, u: set<string>, i: nat, keys: set<string>, first: bool)
    requires i <= |ts| && (first || At(ts, i, Comma))
    requires var j := if first then i else i + 1;
      j < |ts| && ts[j].Identifier? && ts[j].text in keys
    ensures RecordEntry(ts, u, i, keys, first) == Err(DUPLICATE_KEY)
  {
  }

  /** A record type naming a field twice fails at the second one. */
  lemma FieldTypeDuplicate(ts: seq<Token>, i: nat, fields: seq<Field>, first: bool, ty: Type, j: nat)
    requires i <= |ts| && (first || At(ts, i, Comma))
    requires UnionType(ts, if first then i else i + 1) == Ok(Parsed(ty, j))
    requires j < |ts| && ts[j].Identifier? && ts[j].text in FieldNames(fields)
    ensures FieldType(ts, i, fields, first) == Err(DUPLICATE_KEY)
  {
  }

  /** An assignment whose left side parses to something other than a
      variable, a field access or an index is an error, whatever follows. */
  lemma AssignmentNeedsLVal(ts: seq<Token>, u: set<string>, i: nat, e: Expr, j: nat)
    requires i <= |ts| && Condition(ts, u, i) == Ok(Parsed(e, j)) && !e.IsLVal()
    ensures Assignment(ts, u, i) == Err(LVAL_EXPECTED)
  {
  }

  // ---------------------------------------------------------------------
  // Examples

  function Var(n: string): Expr {
    Variable(n, None)
  }

  /** `a - b - c ;` is `a - (b - c)`. */
  lemma RightAssociative()
    ensures var ts := [Identifier("a"), Sym(Minus), Identifier("b"), Sym(Minus), Identifier("c"), Sym(SemiColon)];
      AddSubExpression(ts, {}, 0) == Ok(Parsed(Binary(SUB, Var("a"), Binary(SUB, Var("b"), Var("c"), None), None), 5))
  {
    var ts := [Identifier("a"), Sym(Minus), Identifier("b"), Sym(Minus), Identifier("c"), Sym(SemiColon)];
    VariableTerm(ts, {}, 4);
    MulDivEnd(ts, {}, 4, Var("c"), 5);
    AddSubEnd(ts, {}, 4, Var("c"), 5);
    VariableTerm(ts, {}, 2);
    MulDivEnd(ts, {}, 2, Var("b"), 3);
    AddSubStep(ts, {}, 2, Var("b"), 3, SUB, Var("c"), 5);
    VariableTerm(ts, {}, 0);
    MulDivEnd(ts, {}, 0, Var("a"), 1);
    AddSubStep(ts, {}, 0, Var("a"), 1, SUB, Binary(SUB, Var("b"), Var("c"), None), 5);
  }

  predicate IsSumOfProduct(ts: seq<Token>) {
    ts == [Identifier("a"), Sym(Plus), Identifier("b"), Sym(Star), Identifier("c"), Sym(SemiColon)]
  }

  lemma ProductOperand(ts: seq<Token>)
    requires IsSumOfProduct(ts)
    ensures AddSubExpression(ts, {}, 2) == Ok(Parsed(Binary(MUL, Var("b"), Var("c"), None), 5))
  {
    VariableTerm(ts, {}, 4);
    MulDivEnd(ts, {}, 4, Var("c"), 5);
    VariableTerm(ts, {}, 2);
    MulDivStep(ts, {}, 2, Var("b"), 3, MUL, Var("c"), 5);
    AddSubEnd(ts, {}, 2, Binary(MUL, Var("b"), Var("c"), None), 5);
  }

  /** `a + b * c ;` multiplies first. */
  lemma MultiplicationBindsTighter(ts: seq<Token>)
    requires IsSumOfProduct(ts)
    ensures AddSubExpression(ts, {}, 0) == Ok(Parsed(Binary(ADD, Var("a"), Binary(MUL, Var("b"), Var("c"), None), None), 5))
  {
    ProductOperand(ts);
    VariableTerm(ts, {}, 0);
    MulDivEnd(ts, {}, 0, Var("a"), 1);
    AddSubStep(ts, {}, 0, Var("a"), 1, ADD, Binary(MUL, Var("b"), Var("c"), None), 5);
  }

  /** `a < b < c` stops after `a < b`, leaving the second `<` unread. */
  lemma ComparisonsDoNotChain()
    ensures var ts := [Identifier("a"), Sym(LeftAngle), Identifier("b"), Sym(LeftAngle), Identifier("c")];
      Condition(ts, {}, 0) == Ok(Parsed(Binary(LT, Var("a"), Var("b"), None), 3))
  {
    var ts := [Identifier("a"), Sym(LeftAngle), Identifier("b"), Sym(LeftAngle), Identifier("c")];
    VariableTerm(ts, {}, 2);
    MulDivEnd(ts, {}, 2, Var("b"), 3);
    AddSubEnd(ts, {}, 2, Var("b"), 3);
    AppendEnd(ts, {}, 2, Var("b"), 3);
    VariableTerm(ts, {}, 0);
    MulDivEnd(ts, {}, 0, Var("a"), 1);
    AddSubEnd(ts, {}, 0, Var("a"), 1);
    AppendEnd(ts, {}, 0, Var("a"), 1);
    ComparisonStep(ts, {}, 0, Var("a"), 1, LT, Var("b"), 3);
    ConditionEnd(ts, {}, 0, Binary(LT, Var("a"), Var("b"), None), 3);
  }

  /** `x . a . b ;` is `(x.a).b`. */
  lemma PostfixFoldsLeft()
    ensures var ts := [Identifier("x"), Sym(Dot), Identifier("a"), Sym(Dot), Identifier("b"), Sym(SemiColon)];
      IndexTerm(ts, {}, 0) == Ok(Parsed(RecordAccess(RecordAccess(Var("x"), "a", None), "b", None), 5))
  {
    var ts := [Identifier("x"), Sym(Dot), Identifier("a"), Sym(Dot), Identifier("b"), Sym(SemiColon)];
    assert Term(ts, {}, 0) == Ok(Parsed(Var("x"), 1));
    IndexTermStep(ts, {}, 0, Var("x"), 1);
    PostfixField(ts, {}, Var("x"), 1);
    PostfixField(ts, {}, RecordAccess(Var("x"), "a", None), 3);
    PostfixEnd(ts, {}, RecordAccess(RecordAccess(Var("x"), "a", None), "b", None), 5);
  }

  /** `- 5 ;` is the constant -5, and `- x ;` a negation. */
  lemma NegationFolds()
    ensures Term([Sym(Minus), IntToken("5", 5), Sym(SemiColon)], {}, 0) == Ok(Parsed(Constant(IntLit(-5), None), 2))
    ensures Term([Sym(Minus), Identifier("x"), Sym(SemiColon)], {}, 0) == Ok(Parsed(Unary(NEG, Var("x"), None), 2))
  {
    var ts := [Sym(Minus), IntToken("5", 5), Sym(SemiColon)];
    assert Term(ts, {}, 1) == Ok(Parsed(Constant(IntLit(5), None), 2));
    IndexTermStep(ts, {}, 1, Constant(IntLit(5), None), 2);
    PostfixEnd(ts, {}, Constant(IntLit(5), None), 2);
    NegationStep(ts, {}, 0, Constant(IntLit(5), None), 2);
    var vs := [Sym(Minus), Identifier("x"), Sym(SemiColon)];
    VariableTerm(vs, {}, 1);
    NegationStep(vs, {}, 0, Var("x"), 2);
  }

  /** `{ a : x , a : y }` repeats the key a. */
  lemma DuplicateKeyExample()
    ensures var ts := [Sym(Comma), Identifier("a"), Sym(Colon), Identifier("y"), Sym(RightCurly)];
      RecordEntry(ts, {}, 0, {"a"}, false) == Err(DUPLICATE_KEY)
  {
    var ts := [Sym(Comma), Identifier("a"), Sym(Colon), Identifier("y"), Sym(RightCurly)];
    RecordEntryDuplicate(ts, {}, 0, {"a"}, false);
  }
}
