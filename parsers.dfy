/** The parser as the source writes it: an object holding the tokens, a
    cursor that the match routines advance, and the set of type names that
    type declarations register. Every routine is proved to compute what the
    corresponding function of module Grammar says, and to leave the cursor
    where that function says. */
module Parsers {
  import opened Wrappers
  import opened Errors
  import opened Syntax
  import opened Grammar

  /** A routine's return value together with the cursor it leaves, in the
      shape of the Grammar functions' results. */
  function Outcome<T>(r: Result<T, Error>, index: nat): Result<Parsed<T>, Error> {
    if r.Ok? then Ok(Parsed(r.value, index)) else Err(r.error)
  }

  class Parser {
    const tokens: seq<Token>
    var userDefinedTypes: set<string>
    var index: nat

    /** The cursor never moves past the end of the tokens. */
    predicate Valid()
      reads this
    {
      index <= |tokens|
    }

    constructor(tokens: seq<Token>)
      ensures this.tokens == tokens && userDefinedTypes == {} && index == 0
      ensures Valid()
    {
      this.tokens := tokens;
      userDefinedTypes := {};
      index := 0;
    }

    // -------------------------------------------------------------------
    // Declarations

    /** read: declarations until the tokens run out. */
    method Read() returns (r: Result<WhileFile, Error>)
      requires Valid()
      modifies this
      ensures Valid()
      ensures r == ReadFrom(tokens, old(userDefinedTypes), old(index))
      ensures r.Ok? ==> index == |tokens| && userDefinedTypes == old(userDefinedTypes) + TypeNames(r.value.declarations)
    {
      var decls: seq<Decl> := [];
      while index < |tokens|
        invariant Valid()
        invariant Declarations(tokens, old(userDefinedTypes), old(index), []) == Declarations(tokens, userDefinedTypes, index, decls)
        invariant userDefinedTypes == old(userDefinedTypes) + TypeNames(decls)
        decreases |tokens| - index
      {
        var t := tokens[index];
        if t.Keyword? && t.text == "type" {
          var d := ParseTypeDeclaration();
          if d.Err? {
            return Err(d.error);
          }
          assert TypeNames(decls + [d.value]) == TypeNames(decls) + {d.value.name} by {
            assert (decls + [d.value])[..|decls|] == decls;
          }
          decls := decls + [d.value];
        } else if t.Keyword? && t.text == "const" {
          var d := ParseConstantDeclaration();
          if d.Err? {
            return Err(d.error);
          }
          assert TypeNames(decls + [d.value]) == TypeNames(decls) by {
            assert (decls + [d.value])[..|decls|] == decls;
          }
          decls := decls + [d.value];
        } else {
          var f := ParseFunction();
          if f.Err? {
            return Err(f.error);
          }
          assert TypeNames(decls + [Fun(f.value)]) == TypeNames(decls) by {
            assert (decls + [Fun(f.value)])[..|decls|] == decls;
          }
          decls := decls + [Fun(f.value)];
        }
      }
      return Ok(WhileFile(decls));
    }

    /** parseFunction: return type, name, parameters, body. */
    method ParseFunction() returns (r: Result<FunDecl, Error>)
      requires Valid()
      modifies this`index
      ensures Valid()
      ensures Outcome(r, index) == FunctionDeclaration(tokens, userDefinedTypes, old(index))
    {
      var ret := ParseType();
      if ret.Err? {
        return Err(ret.error);
      }
      var name := MatchIdentifier();
      if name.Err? {
        return Err(name.error);
      }
      var open := Match("(");
      if open.Err? {
        return Err(open.error);
      }
      var start := index;
      var params: seq<Parameter> := [];
      var firstTime := true;
      while index < |tokens| && tokens[index] != Sym(RightBrace)
        invariant start <= index <= |tokens|
        invariant Parameters(tokens, start, [], true) == Parameters(tokens, index, params, firstTime)
        decreases |tokens| - index
      {
        if !firstTime {
          var comma := Match(",");
          if comma.Err? {
            return Err(comma.error);
          }
        }
        firstTime := false;
        var t := ParseType();
        if t.Err? {
          return Err(t.error);
        }
        var n := MatchIdentifier();
        if n.Err? {
          return Err(n.error);
        }
        params := params + [Parameter(t.value, n.value)];
      }
      var close := Match(")");
      if close.Err? {
        return Err(close.error);
      }
      var body := ParseBlock();
      if body.Err? {
        return Err(body.error);
      }
      return Ok(FunDecl(name.value, ret.value, params, body.value));
    }

    /** parseTypeDeclaration: `type name is T`, after which name counts as a
        type. */
    method ParseTypeDeclaration() returns (r: Result<Decl, Error>)
      requires Valid()
      modifies this
      ensures Valid()
      ensures Outcome(r, index) == TypeDeclaration(tokens, old(index))
      ensures userDefinedTypes == if r.Ok? then old(userDefinedTypes) + {r.value.name} else old(userDefinedTypes)
    {
      var kw := MatchKeyword("type");
      if kw.Err? {
        return Err(kw.error);
      }
      var name := MatchIdentifier();
      if name.Err? {
        return Err(name.error);
      }
      var isKw := MatchKeyword("is");
      if isKw.Err? {
        return Err(isKw.error);
      }
      var t := ParseType();
      if t.Err? {
        return Err(t.error);
      }
      userDefinedTypes := userDefinedTypes + {name.value};
      return Ok(TypeDecl(name.value, t.value));
    }

    /** parseConstantDeclaration: `const name is e`. */
    method ParseConstantDeclaration() returns (r: Result<Decl, Error>)
      requires Valid()
      modifies this`index
      ensures Valid()
      ensures Outcome(r, index) == ConstantDeclaration(tokens, userDefinedTypes, old(index))
    {
      var kw := MatchKeyword("const");
      if kw.Err? {
        return Err(kw.error);
      }
      var name := MatchIdentifier();
      if name.Err? {
        return Err(name.error);
      }
      var isKw := MatchKeyword("is");
      if isKw.Err? {
        return Err(isKw.error);
      }
      var e := ParseCondition();
      if e.Err? {
        return Err(e.error);
      }
      return Ok(ConstDecl(name.value, e.value));
    }

    // -------------------------------------------------------------------
    // Statements

    /** parseBlock: `{`, statements, `}`. */
    method ParseBlock() returns (r: Result<seq<Stmt>, Error>)
      requires Valid()
      modifies this`index
      ensures Valid()
      ensures Outcome(r, index) == Block(tokens, userDefinedTypes, old(index))
      decreases |tokens| - index, 0
    {
      var open := Match("{");
      if open.Err? {
        return Err(open.error);
      }
      var start := index;
      var stmts: seq<Stmt> := [];
      while index < |tokens| && tokens[index] != Sym(RightCurly)
        invariant start <= index <= |tokens|
        invariant Statements(tokens, userDefinedTypes, start, []) == Statements(tokens, userDefinedTypes, index, stmts)
        decreases |tokens| - index
      {
        var s := ParseStatement(true);
        if s.Err? {
          return Err(s.error);
        }
        stmts := stmts + [s.value];
      }
      var close := Match("}");
      if close.Err? {
        return Err(close.error);
      }
      return Ok(stmts);
    }

    /** parseStatement. */
    method ParseStatement(withSemiColon: bool) returns (r: Result<Stmt, Error>)
      requires Valid()
      modifies this`index
      ensures Valid()
      ensures Outcome(r, index) == Statement(tokens, userDefinedTypes, old(index), withSemiColon)
      decreases |tokens| - index, 2
    {
      var eof := CheckNotEof();
      if eof.Err? {
        return Err(eof.error);
      }
      var token := tokens[index];
      var stmt: Stmt;
      if token.Text() == "return" {
        var s := ParseReturn();
        if s.Err? {
          return Err(s.error);
        }
        stmt := s.value;
      } else if token.Text() == "print" {
        var s := ParsePrint();
        if s.Err? {
          return Err(s.error);
        }
        stmt := s.value;
      } else if token.Text() == "if" {
        r := ParseIf();
        return;
      } else if token.Text() == "while" {
        r := ParseWhile();
        return;
      } else if token.Text() == "for" {
        r := ParseFor();
        return;
      } else if index + 1 < |tokens| && tokens[index + 1] == Sym(LeftBrace) {
        var call := ParseInvoke();
        if call.Err? {
          return Err(call.error);
        }
        stmt := InvokeStmt(call.value);
      } else {
        var isDecl := IsTypeAt(index);
        if isDecl {
          var d := ParseVariableDeclaration();
          if d.Err? {
            return Err(d.error);
          }
          stmt := Declare(d.value);
        } else {
          var start := index;
          var e := ParseCondition();
          if e.Err? {
            return Err(e.error);
          }
          if e.value.Invoke? {
            stmt := InvokeStmt(e.value);
          } else {
            index := start;
            var a := ParseAssign();
            if a.Err? {
              return Err(a.error);
            }
            stmt := a.value;
          }
        }
      }
      if withSemiColon {
        var semi := Match(";");
        if semi.Err? {
          return Err(semi.error);
        }
      }
      return Ok(stmt);
    }

    /** isType, as a recursive query that leaves the cursor alone. */
    method IsTypeAt(i: nat) returns (b: bool)
      ensures b == IsType(tokens, userDefinedTypes, i)
      decreases |tokens| - i
    {
      if i >= |tokens| {
        return false;
      }
      var lookahead := tokens[i];
      if lookahead.Keyword? {
        return lookahead.text in {"null", "bool", "int", "real", "char", "string"};
      } else if lookahead.Identifier? {
        return lookahead.text in userDefinedTypes;
      } else if lookahead == Sym(LeftCurly) {
        b := IsTypeAt(i + 1);
      } else if lookahead == Sym(LeftSquare) {
        b := IsTypeAt(i + 1);
      } else {
        b := false;
      }
    }

    /** parseVariableDeclaration. */
    method ParseVariableDeclaration() returns (r: Result<VarDecl, Error>)
      requires Valid()
      modifies this`index
      ensures Valid()
      ensures Outcome(r, index) == VariableDeclaration(tokens, userDefinedTypes, old(index))
    {
      var t := ParseType();
      if t.Err? {
        return Err(t.error);
      }
      var id := MatchIdentifier();
      if id.Err? {
        return Err(id.error);
      }
      var initialiser: Option<Expr> := None;
      if index < |tokens| && tokens[index] == Sym(Equals) {
        var _ := Match("=");
        var e := ParseCondition();
        if e.Err? {
          return Err(e.error);
        }
        initialiser := Some(e.value);
      }
      return Ok(VarDecl(t.value, id.value, initialiser));
    }

    /** parseReturn. */
    method ParseReturn() returns (r: Result<Stmt, Error>)
      requires Valid()
      modifies this`index
      ensures Valid()
      ensures Outcome(r, index) == ReturnStatement(tokens, userDefinedTypes, old(index))
    {
      var kw := MatchKeyword("return");
      if kw.Err? {
        return Err(kw.error);
      }
      var e: Option<Expr> := None;
      if index < |tokens| && tokens[index] != Sym(SemiColon) {
        var c := ParseCondition();
        if c.Err? {
          return Err(c.error);
        }
        e := Some(c.value);
      }
      return Ok(Return(e));
    }

    /** parsePrint. */
    method ParsePrint() returns (r: Result<Stmt, Error>)
      requires Valid()
      modifies this`index
      ensures Valid()
      ensures Outcome(r, index) == PrintStatement(tokens, userDefinedTypes, old(index))
    {
      var kw := MatchKeyword("print");
      if kw.Err? {
        return Err(kw.error);
      }
      var eof := CheckNotEof();
      if eof.Err? {
        return Err(eof.error);
      }
      var e := ParseCondition();
      if e.Err? {
        return Err(e.error);
      }
      return Ok(Print(e.value));
    }

    /** parseIf. */
    method ParseIf() returns (r: Result<Stmt, Error>)
      requires Valid()
      modifies this`index
      ensures Valid()
      ensures Outcome(r, index) == IfStatement(tokens, userDefinedTypes, old(index))
      decreases |tokens| - index, 1
    {
      var kw := MatchKeyword("if");
      if kw.Err? {
        return Err(kw.error);
      }
      var open := Match("(");
      if open.Err? {
        return Err(open.error);
      }
      var c := ParseCondition();
      if c.Err? {
        return Err(c.error);
      }
      var close := Match(")");
      if close.Err? {
        return Err(close.error);
      }
      var tblk := ParseBlock();
      if tblk.Err? {
        return Err(tblk.error);
      }
      var fblk: seq<Stmt> := [];
      if index + 1 < |tokens| && tokens[index].Text() == "else" {
        var e := MatchKeyword("else");
        if e.Err? {
          return Err(e.error);
        }
        if index < |tokens| && tokens[index].Text() == "if" {
          var if2 := ParseIf();
          if if2.Err? {
            return Err(if2.error);
          }
          fblk := [if2.value];
        } else {
          var f := ParseBlock();
          if f.Err? {
            return Err(f.error);
          }
          fblk := f.value;
        }
      }
      return Ok(IfElse(c.value, tblk.value, fblk));
    }

    /** parseWhile. */
    method ParseWhile() returns (r: Result<Stmt, Error>)
      requires Valid()
      modifies this`index
      ensures Valid()
      ensures Outcome(r, index) == WhileStatement(tokens, userDefinedTypes, old(index))
      decreases |tokens| - index, 1
    {
      var kw := MatchKeyword("while");
      if kw.Err? {
        return Err(kw.error);
      }
      var open := Match("(");
      if open.Err? {
        return Err(open.error);
      }
      var c := ParseCondition();
      if c.Err? {
        return Err(c.error);
      }
      var close := Match(")");
      if close.Err? {
        return Err(close.error);
      }
      var body := ParseBlock();
      if body.Err? {
        return Err(body.error);
      }
      return Ok(While(c.value, body.value));
    }

    /** parseFor. */
    method ParseFor() returns (r: Result<Stmt, Error>)
      requires Valid()
      modifies this`index
      ensures Valid()
      ensures Outcome(r, index) == ForStatement(tokens, userDefinedTypes, old(index))
      decreases |tokens| - index, 1
    {
      var kw := MatchKeyword("for");
      if kw.Err? {
        return Err(kw.error);
      }
      var open := Match("(");
      if open.Err? {
        return Err(open.error);
      }
      var d := ParseVariableDeclaration();
      if d.Err? {
        return Err(d.error);
      }
      var semi1 := Match(";");
      if semi1.Err? {
        return Err(semi1.error);
      }
      var c := ParseCondition();
      if c.Err? {
        return Err(c.error);
      }
      var semi2 := Match(";");
      if semi2.Err? {
        return Err(semi2.error);
      }
      var incr := ParseStatement(false);
      if incr.Err? {
        return Err(incr.error);
      }
      var close := Match(")");
      if close.Err? {
        return Err(close.error);
      }
      var body := ParseBlock();
      if body.Err? {
        return Err(body.error);
      }
      return Ok(For(d.value, c.value, incr.value, body.value));
    }

    /** parseAssign. */
    method ParseAssign() returns (r: Result<Stmt, Error>)
      requires Valid()
      modifies this`index
      ensures Valid()
      ensures Outcome(r, index) == Assignment(tokens, userDefinedTypes, old(index))
    {
      var lhs := ParseCondition();
      if lhs.Err? {
        return Err(lhs.error);
      }
      if !lhs.value.IsLVal() {
        return Err(LVAL_EXPECTED);
      }
      var eq := Match("=");
      if eq.Err? {
        return Err(eq.error);
      }
      var rhs := ParseCondition();
      if rhs.Err? {
        return Err(rhs.error);
      }
      return Ok(Assign(lhs.value, rhs.value));
    }

    // -------------------------------------------------------------------
    // Expressions

    /** parseCondition. */
    method ParseCondition() returns (r: Result<Expr, Error>)
      requires Valid()
      modifies this`index
      ensures Valid()
      ensures Outcome(r, index) == Condition(tokens, userDefinedTypes, old(index))
      decreases |tokens| - index, 7
    {
      var eof := CheckNotEof();
      if eof.Err? {
        return Err(eof.error);
      }
      var c1 := ParseConditionExpression();
      if c1.Err? {
        return c1;
      }
      if index < |tokens| && LogicalOp(tokens[index]).Some? {
        var op := LogicalOp(tokens[index]).value;
        var _ := Match(tokens[index].Text());
        var c2 := ParseCondition();
        if c2.Err? {
          return c2;
        }
        return Ok(Binary(op, c1.value, c2.value, None));
      }
      return c1;
    }

    /** parseConditionExpression. */
    method ParseConditionExpression() returns (r: Result<Expr, Error>)
      requires Valid()
      modifies this`index
      ensures Valid()
      ensures Outcome(r, index) == ConditionExpression(tokens, userDefinedTypes, old(index))
      decreases |tokens| - index, 6
    {
      var lhs := ParseAppendExpression();
      if lhs.Err? {
        return lhs;
      }
      if index < |tokens| && ComparisonOp(tokens[index]).Some? {
        var op := ComparisonOp(tokens[index]).value;
        var _ := Match(tokens[index].Text());
        var rhs := ParseAppendExpression();
        if rhs.Err? {
          return rhs;
        }
        return Ok(Binary(op, lhs.value, rhs.value, None));
      }
      return lhs;
    }

    /** parseAppendExpression. */
    method ParseAppendExpression() returns (r: Result<Expr, Error>)
      requires Valid()
      modifies this`index
      ensures Valid()
      ensures Outcome(r, index) == AppendExpression(tokens, userDefinedTypes, old(index))
      decreases |tokens| - index, 5
    {
      var lhs := ParseAddSubExpression();
      if lhs.Err? {
        return lhs;
      }
      if index < |tokens| && tokens[index] == Sym(PlusPlus) {
        var _ := Match("++");
        var rhs := ParseAppendExpression();
        if rhs.Err? {
          return rhs;
        }
        return Ok(Binary(APPEND, lhs.value, rhs.value, None));
      }
      return lhs;
    }

    /** parseAddSubExpression. */
    method ParseAddSubExpression() returns (r: Result<Expr, Error>)
      requires Valid()
      modifies this`index
      ensures Valid()
      ensures Outcome(r, index) == AddSubExpression(tokens, userDefinedTypes, old(index))
      decreases |tokens| - index, 4
    {
      var lhs := ParseMulDivExpression();
      if lhs.Err? {
        return lhs;
      }
      if index < |tokens| && AdditiveOp(tokens[index]).Some? {
        var op := AdditiveOp(tokens[index]).value;
        var _ := Match(tokens[index].Text());
        var rhs := ParseAddSubExpression();
        if rhs.Err? {
          return rhs;
        }
        return Ok(Binary(op, lhs.value, rhs.value, None));
      }
      return lhs;
    }

    /** parseMulDivExpression. */
    method ParseMulDivExpression() returns (r: Result<Expr, Error>)
      requires Valid()
      modifies this`index
      ensures Valid()
      ensures Outcome(r, index) == MulDivExpression(tokens, userDefinedTypes, old(index))
      decreases |tokens| - index, 3
    {
      var lhs := ParseIndexTerm();
      if lhs.Err? {
        return lhs;
      }
      if index < |tokens| && MultiplicativeOp(tokens[index]).Some? {
        var op := MultiplicativeOp(tokens[index]).value;
        var _ := Match(tokens[index].Text());
        var rhs := ParseMulDivExpression();
        if rhs.Err? {
          return rhs;
        }
        return Ok(Binary(op, lhs.value, rhs.value, None));
      }
      return lhs;
    }

    /** parseIndexTerm: a term, then `[e]` and `.f` as long as they follow. */
    method ParseIndexTerm() returns (r: Result<Expr, Error>)
      requires Valid()
      modifies this`index
      ensures Valid()
      ensures Outcome(r, index) == IndexTerm(tokens, userDefinedTypes, old(index))
      decreases |tokens| - index, 2
    {
      var eof := CheckNotEof();
      if eof.Err? {
        return Err(eof.error);
      }
      var t := ParseTerm();
      if t.Err? {
        return t;
      }
      if index >= |tokens| {
        return Err(NO_TOKEN);
      }
      var lhs := t.value;
      var start := index;
      while index < |tokens| && tokens[index] in {Sym(LeftSquare), Sym(Dot), Sym(LeftBrace)}
        invariant old(index) < start <= index <= |tokens|
        invariant Postfix(tokens, userDefinedTypes, t.value, start) == Postfix(tokens, userDefinedTypes, lhs, index)
        decreases |tokens| - index
      {
        var s := ParseSuffix(lhs);
        if s.Err? {
          return s;
        }
        lhs := s.value;
      }
      return Ok(lhs);
    }

    /** The body of the loop of parseIndexTerm. */
    method ParseSuffix(lhs: Expr) returns (r: Result<Expr, Error>)
      requires index < |tokens|
      modifies this`index
      ensures Valid()
      ensures Outcome(r, index) == Suffix(tokens, userDefinedTypes, lhs, old(index))
      decreases |tokens| - index, 0
    {
      if tokens[index] == Sym(LeftSquare) {
        var _ := Match("[");
        var rhs := ParseAddSubExpression();
        if rhs.Err? {
          return rhs;
        }
        var close := Match("]");
        if close.Err? {
          return Err(close.error);
        }
        return Ok(IndexOf(lhs, rhs.value, None));
      } else {
        var dot := Match(".");
        if dot.Err? {
          return Err(dot.error);
        }
        var name := MatchIdentifier();
        if name.Err? {
          return Err(name.error);
        }
        return Ok(RecordAccess(lhs, name.value, None));
      }
    }

    /** parseTerm. */
    method ParseTerm() returns (r: Result<Expr, Error>)
      requires Valid()
      modifies this`index
      ensures Valid()
      ensures Outcome(r, index) == Term(tokens, userDefinedTypes, old(index))
      decreases |tokens| - index, 1
    {
      var eof := CheckNotEof();
      if eof.Err? {
        return Err(eof.error);
      }
      var token := tokens[index];
      if token == Sym(LeftBrace) {
        r := ParseBracketed();
      } else if index + 1 < |tokens| && token.Identifier? && tokens[index + 1] == Sym(LeftBrace) {
        r := ParseInvoke();
      } else if token.Text() == "null" {
        var kw := MatchKeyword("null");
        if kw.Err? {
          return Err(kw.error);
        }
        return Ok(Constant(NullLit, None));
      } else if token.Text() == "true" {
        var kw := MatchKeyword("true");
        if kw.Err? {
          return Err(kw.error);
        }
        return Ok(Constant(BoolLit(true), None));
      } else if token.Text() == "false" {
        var kw := MatchKeyword("false");
        if kw.Err? {
          return Err(kw.error);
        }
        return Ok(Constant(BoolLit(false), None));
      } else if token.Identifier? {
        var name := MatchIdentifier();
        return Ok(Variable(name.value, None));
      } else if token.IsLiteral() {
        var value := MatchLiteral();
        return Ok(Constant(value.value, None));
      } else if token == Sym(Minus) {
        r := ParseNegation();
      } else if token == Sym(Bar) {
        r := ParseLengthOf();
      } else if token == Sym(LeftSquare) {
        r := ParseListVal();
      } else if token == Sym(LeftCurly) {
        r := ParseRecordVal();
      } else if token == Sym(Shreak) {
        var _ := Match("!");
        var e := ParseTerm();
        if e.Err? {
          return e;
        }
        return Ok(Unary(NOT, e.value, None));
      } else {
        return Err(UNRECOGNISED_TERM);
      }
    }

    /** The `(` case of parseTerm: a cast or a parenthesised condition. */
    method ParseBracketed() returns (r: Result<Expr, Error>)
      requires Valid()
      modifies this`index
      ensures Valid()
      ensures Outcome(r, index) == Bracketed(tokens, userDefinedTypes, old(index))
      decreases |tokens| - index, 0
    {
      var open := Match("(");
      if open.Err? {
        return Err(open.error);
      }
      var isCast := IsTypeAt(index);
      if isCast {
        var t := ParseType();
        if t.Err? {
          return Err(t.error);
        }
        var eof := CheckNotEof();
        if eof.Err? {
          return Err(eof.error);
        }
        var close := Match(")");
        if close.Err? {
          return Err(close.error);
        }
        var e := ParseCondition();
        if e.Err? {
          return e;
        }
        return Ok(Cast(t.value, e.value, None));
      } else {
        var e := ParseCondition();
        if e.Err? {
          return e;
        }
        var eof := CheckNotEof();
        if eof.Err? {
          return Err(eof.error);
        }
        var close := Match(")");
        if close.Err? {
          return Err(close.error);
        }
        return e;
      }
    }

    /** parseListVal. */
    method ParseListVal() returns (r: Result<Expr, Error>)
      requires Valid()
      modifies this`index
      ensures Valid()
      ensures Outcome(r, index) == ListVal(tokens, userDefinedTypes, old(index))
      decreases |tokens| - index, 0
    {
      var open := Match("[");
      if open.Err? {
        return Err(open.error);
      }
      var exprs: seq<Expr> := [];
      var firstTime := true;
      var start := index;
      var eof := CheckNotEof();
      if eof.Err? {
        return Err(eof.error);
      }
      while tokens[index] != Sym(RightSquare)
        invariant old(index) < start <= index < |tokens|
        invariant ListElements(tokens, userDefinedTypes, start, [], true) == ListElements(tokens, userDefinedTypes, index, exprs, firstTime)
        decreases |tokens| - index
      {
        if !firstTime {
          var comma := Match(",");
          if comma.Err? {
            return Err(comma.error);
          }
        }
        firstTime := false;
        var e := ParseCondition();
        if e.Err? {
          return e;
        }
        exprs := exprs + [e.value];
        var eof2 := CheckNotEof();
        if eof2.Err? {
          return Err(eof2.error);
        }
      }
      var _ := Match("]");
      return Ok(ListConstructor(exprs, None));
    }

    /** parseRecordVal. */
    method ParseRecordVal() returns (r: Result<Expr, Error>)
      requires Valid()
      modifies this`index
      ensures Valid()
      ensures Outcome(r, index) == RecordVal(tokens, userDefinedTypes, old(index))
      decreases |tokens| - index, 0
    {
      var open := Match("{");
      if open.Err? {
        return Err(open.error);
      }
      var keys: set<string> := {};
      var exprs: seq<FieldInit> := [];
      var start := index;
      var eof := CheckNotEof();
      if eof.Err? {
        return Err(eof.error);
      }
      var firstTime := true;
      while tokens[index] != Sym(RightCurly)
        invariant old(index) < start <= index < |tokens|
        invariant FieldInits(tokens, userDefinedTypes, start, [], true) == FieldInits(tokens, userDefinedTypes, index, exprs, firstTime)
        invariant keys == InitKeys(exprs)
        decreases |tokens| - index
      {
        var entry := ParseRecordEntry(keys, firstTime);
        if entry.Err? {
          return Err(entry.error);
        }
        firstTime := false;
        assert InitKeys(exprs + [entry.value]) == keys + {entry.value.name} by {
          assert (exprs + [entry.value])[..|exprs|] == exprs;
        }
        exprs := exprs + [entry.value];
        keys := keys + {entry.value.name};
        var eof2 := CheckNotEof();
        if eof2.Err? {
          return Err(eof2.error);
        }
      }
      var _ := Match("}");
      return Ok(RecordConstructor(exprs, None));
    }

    /** The body of the loop of parseRecordVal. */
    method ParseRecordEntry(keys: set<string>, firstTime: bool) returns (r: Result<FieldInit, Error>)
      requires Valid()
      modifies this`index
      ensures Valid()
      ensures Outcome(r, index) == RecordEntry(tokens, userDefinedTypes, old(index), keys, firstTime)
      decreases |tokens| - index, 0
    {
      if !firstTime {
        var comma := Match(",");
        if comma.Err? {
          return Err(comma.error);
        }
      }
      var eof := CheckNotEof();
      if eof.Err? {
        return Err(eof.error);
      }
      var n := MatchIdentifier();
      if n.Err? {
        return Err(n.error);
      }
      if n.value in keys {
        return Err(DUPLICATE_KEY);
      }
      var colon := Match(":");
      if colon.Err? {
        return Err(colon.error);
      }
      var e := ParseCondition();
      if e.Err? {
        return Err(e.error);
      }
      return Ok(FieldInit(n.value, e.value));
    }

    /** parseLengthOf. */
    method ParseLengthOf() returns (r: Result<Expr, Error>)
      requires Valid()
      modifies this`index
      ensures Valid()
      ensures Outcome(r, index) == LengthOf(tokens, userDefinedTypes, old(index))
      decreases |tokens| - index, 0
    {
      var open := Match("|");
      if open.Err? {
        return Err(open.error);
      }
      var e := ParseIndexTerm();
      if e.Err? {
        return e;
      }
      var close := Match("|");
      if close.Err? {
        return Err(close.error);
      }
      return Ok(Unary(LENGTHOF, e.value, None));
    }

    /** parseNegation. */
    method ParseNegation() returns (r: Result<Expr, Error>)
      requires Valid()
      modifies this`index
      ensures Valid()
      ensures Outcome(r, index) == Negation(tokens, userDefinedTypes, old(index))
      decreases |tokens| - index, 0
    {
      var minus := Match("-");
      if minus.Err? {
        return Err(minus.error);
      }
      var e := ParseIndexTerm();
      if e.Err? {
        return e;
      }
      return Ok(Negated(e.value));
    }

    /** parseInvokeExpr, and parseInvokeStmt with the same body. */
    method ParseInvoke() returns (r: Result<Expr, Error>)
      requires Valid()
      modifies this`index
      ensures Valid()
      ensures Outcome(r, index) == InvokeExpr(tokens, userDefinedTypes, old(index))
      decreases |tokens| - index, 0
    {
      var name := MatchIdentifier();
      if name.Err? {
        return Err(name.error);
      }
      var open := Match("(");
      if open.Err? {
        return Err(open.error);
      }
      var start := index;
      var firstTime := true;
      var args: seq<Expr> := [];
      while index < |tokens| && tokens[index] != Sym(RightBrace)
        invariant old(index) < start <= index <= |tokens|
        invariant Arguments(tokens, userDefinedTypes, start, [], true) == Arguments(tokens, userDefinedTypes, index, args, firstTime)
        decreases |tokens| - index
      {
        if !firstTime {
          var comma := Match(",");
          if comma.Err? {
            return Err(comma.error);
          }
        }
        firstTime := false;
        var e := ParseCondition();
        if e.Err? {
          return e;
        }
        args := args + [e.value];
      }
      var close := Match(")");
      if close.Err? {
        return Err(close.error);
      }
      return Ok(Invoke(name.value, args, None));
    }

    // -------------------------------------------------------------------
    // Types

    /** parseType. */
    method ParseType() returns (r: Result<Type, Error>)
      requires Valid()
      modifies this`index
      ensures Valid()
      ensures Outcome(r, index) == UnionType(tokens, old(index))
      decreases |tokens| - index, 1
    {
      var t := ParseBaseType();
      if t.Err? {
        return t;
      }
      if index < |tokens| && tokens[index] == Sym(Bar) {
        var types: seq<Type> := [t.value];
        var start := index;
        while index < |tokens| && tokens[index] == Sym(Bar)
          invariant start <= index <= |tokens|
          invariant UnionBounds(tokens, start, [t.value]) == UnionBounds(tokens, index, types)
          decreases |tokens| - index
        {
          var _ := Match("|");
          var b := ParseBaseType();
          if b.Err? {
            return b;
          }
          types := types + [b.value];
        }
        return Ok(Union(types));
      }
      return t;
    }

    /** parseBaseType. */
    method ParseBaseType() returns (r: Result<Type, Error>)
      requires Valid()
      modifies this`index
      ensures Valid()
      ensures Outcome(r, index) == BaseType(tokens, old(index))
      decreases |tokens| - index, 0
    {
      var eof := CheckNotEof();
      if eof.Err? {
        return Err(eof.error);
      }
      var token := tokens[index];
      if KeywordType(token.Text()).Some? {
        var kw := MatchKeyword(token.Text());
        if kw.Err? {
          return Err(kw.error);
        }
        return Ok(KeywordType(token.Text()).value);
      } else if token == Sym(LeftCurly) {
        var _ := Match("{");
        if index >= |tokens| {
          return Err(NO_TOKEN);
        }
        var fields: seq<Field> := [];
        var start := index;
        var firstTime := true;
        while tokens[index] != Sym(RightCurly)
          invariant old(index) < start <= index < |tokens|
          invariant FieldTypes(tokens, start, [], true) == FieldTypes(tokens, index, fields, firstTime)
          decreases |tokens| - index
        {
          var field := ParseFieldType(fields, firstTime);
          if field.Err? {
            return Err(field.error);
          }
          firstTime := false;
          fields := fields + [field.value];
          var eof2 := CheckNotEof();
          if eof2.Err? {
            return Err(eof2.error);
          }
        }
        var _ := Match("}");
        return Ok(Record(fields));
      } else if token == Sym(LeftSquare) {
        var _ := Match("[");
        var t := ParseType();
        if t.Err? {
          return t;
        }
        var close := Match("]");
        if close.Err? {
          return Err(close.error);
        }
        return Ok(List(t.value));
      } else {
        var id := MatchIdentifier();
        if id.Err? {
          return Err(id.error);
        }
        return Ok(Named(id.value));
      }
    }

    /** The body of the loop over the fields of a record type in
        parseBaseType. */
    method ParseFieldType(fields: seq<Field>, firstTime: bool) returns (r: Result<Field, Error>)
      requires Valid()
      modifies this`index
      ensures Valid()
      ensures Outcome(r, index) == FieldType(tokens, old(index), fields, firstTime)
      decreases |tokens| - index, 2
    {
      if !firstTime {
        var comma := Match(",");
        if comma.Err? {
          return Err(comma.error);
        }
      }
      var eof := CheckNotEof();
      if eof.Err? {
        return Err(eof.error);
      }
      var tmp := ParseType();
      if tmp.Err? {
        return Err(tmp.error);
      }
      var n := MatchIdentifier();
      if n.Err? {
        return Err(n.error);
      }
      if n.value in FieldNames(fields) {
        return Err(DUPLICATE_KEY);
      }
      return Ok(Field(n.value, tmp.value));
    }

    // -------------------------------------------------------------------
    // Single tokens

    /** checkNotEof: fails exactly at the end of the tokens. */
    method CheckNotEof() returns (r: Result<(), Error>)
      ensures r.Ok? <==> index < |tokens|
      ensures r.Err? ==> r.error == END_OF_FILE
    {
      if index >= |tokens| {
        return Err(END_OF_FILE);
      }
      return Ok(());
    }

    /** match(op): moves past the current token when its text is op. */
    method Match(op: string) returns (r: Result<Token, Error>)
      requires Valid()
      modifies this`index
      ensures Valid()
      ensures (if r.Ok? then Ok(index) else Err(r.error)) == Expect(tokens, old(index), op)
      ensures r.Ok? ==> r.value == tokens[old(index)]
    {
      var eof := CheckNotEof();
      if eof.Err? {
        return Err(eof.error);
      }
      var t := tokens[index];
      if t.Text() != op {
        return Err(UNEXPECTED_TOKEN);
      }
      index := index + 1;
      return Ok(t);
    }

    /** match(Class, name) on the four literal token classes: moves past the
        current token when it is a literal, giving its value. */
    method MatchLiteral() returns (r: Result<Literal, Error>)
      requires Valid()
      modifies this`index
      ensures Valid()
      ensures r.Ok? <==> old(index) < |tokens| && tokens[old(index)].IsLiteral()
      ensures r.Ok? ==> r.value == LiteralOf(tokens[old(index)]) && index == old(index) + 1
      ensures old(index) >= |tokens| ==> r == Err(END_OF_FILE)
    {
      var eof := CheckNotEof();
      if eof.Err? {
        return Err(eof.error);
      }
      var t := tokens[index];
      if !t.IsLiteral() {
        return Err(UNEXPECTED_TOKEN);
      }
      index := index + 1;
      return Ok(LiteralOf(t));
    }

    /** matchIdentifier: moves past an identifier, giving its text. */
    method MatchIdentifier() returns (r: Result<string, Error>)
      requires Valid()
      modifies this`index
      ensures Valid()
      ensures Outcome(r, index) == ExpectIdentifier(tokens, old(index))
    {
      var eof := CheckNotEof();
      if eof.Err? {
        return Err(eof.error);
      }
      var t := tokens[index];
      if t.Identifier? {
        index := index + 1;
        return Ok(t.text);
      }
      return Err(IDENTIFIER_EXPECTED);
    }

    /** matchKeyword(keyword): moves past that keyword. */
    method MatchKeyword(keyword: string) returns (r: Result<Token, Error>)
      requires Valid()
      modifies this`index
      ensures Valid()
      ensures (if r.Ok? then Ok(index) else Err(r.error)) == ExpectKeyword(tokens, old(index), keyword)
      ensures r.Ok? ==> r.value == Keyword(keyword)
    {
      var eof := CheckNotEof();
      if eof.Err? {
        return Err(eof.error);
      }
      var t := tokens[index];
      if t.Keyword? {
        if t.text == keyword {
          index := index + 1;
          return Ok(t);
        }
      }
      return Err(KEYWORD_EXPECTED);
    }
  }

  /** new Parser(filename, tokens).read(). */
  method ParseFile(tokens: seq<Token>) returns (r: Result<WhileFile, Error>)
    ensures r == Read(tokens)
  {
    var p := new Parser(tokens);
    r := p.Read();
  }
}
