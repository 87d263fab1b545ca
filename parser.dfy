/**
  The recursive-descent parser of Parser.cs: a token list and a cursor `pos` that
  `Eat` advances. Each method computes exactly the function of `ParserSpec` that
  shares its name, and leaves the cursor where that function says; a method that
  fails reports the same exception. The recursion terminates because every
  successful primary consumes at least one token.
*/
module Parsing {
  import opened TokenTypes
  import opened Errors
  import opened CSharpInt
  import opened Ast
  import Spec = ParserSpec

  /** The method result `r` with cursor `pos` is what the specification `spec` computed. */
  predicate Agrees<T(==)>(spec: Result<(T, nat)>, r: Result<T>, pos: nat)
  {
    match spec
    case Success(v) => r == Success(v.0) && pos == v.1
    case Failure(e) => r == Failure(e)
  }

  class Parser {
    const tokens: seq<Token>
    var pos: nat

    ghost predicate Valid()
      reads this
    {
      Spec.Valid(tokens, pos)
    }

    constructor(tokens: seq<Token>)
      requires 0 < |tokens|
      ensures Valid() && this.tokens == tokens && pos == 0
    {
      this.tokens := tokens;
      pos := 0;
    }

    function Current(): Token
      requires Valid()
      reads this
    {
      Spec.Current(tokens, pos)
    }

    function Peek(offset: nat): Option<Token>
      reads this
    {
      Spec.Peek(tokens, pos, offset)
    }

    /** Advances only on a matching kind; a mismatch leaves the cursor where it was. */
    method Eat(kind: TokenKind) returns (r: Result<Token>)
      requires Valid()
      modifies this
      ensures Valid()
      ensures Agrees(Spec.Eat(tokens, old(pos), kind), r, pos)
      ensures r.Failure? ==> pos == old(pos)
    {
      if Current().kind != kind {
        return Failure(ExpectedToken(kind, Current().kind));
      }
      if pos >= |tokens| {
        return Failure(TokenIndexOutOfRange);
      }
      r := Success(tokens[pos]);
      pos := pos + 1;
    }

    /** Parses statements until EOF and returns them, in order, as one block. */
    method Parse() returns (r: Result<Stmt>)
      requires Valid() && pos == 0
      modifies this
      ensures Valid()
      ensures r == Spec.Parse(tokens)
    {
      var statements: seq<Stmt> := [];
      PrependNil(Spec.Statements(tokens, pos));
      while Current().kind != EOF
        invariant Valid()
        invariant Spec.Statements(tokens, 0) == Prepend(statements, Spec.Statements(tokens, pos))
        decreases |tokens| - pos
      {
        var s := ParseStatement();
        if s.Failure? {
          return Failure(s.error);
        }
        PrependPrepend(statements, [s.value], Spec.Statements(tokens, pos));
        statements := statements + [s.value];
      }
      PrependEmpty(statements);
      r := Success(BlockStmt(statements));
    }

    method ParseStatement() returns (r: Result<Stmt>)
      requires Valid()
      modifies this
      ensures Valid()
      ensures Agrees(Spec.Statement(tokens, old(pos)), r, pos)
    {
      if Current().kind == Print {
        var kw := Eat(Print);
        if kw.Failure? {
          return Failure(kw.error);
        }
        var e := ParseExpression();
        if e.Failure? {
          return Failure(e.error);
        }
        return Success(PrintStmt(e.value));
      }
      if Current().kind == Identifier && Peek(1).Some? && Peek(1).value.kind == Equal {
        var id := Eat(Identifier);
        if id.Failure? {
          return Failure(id.error);
        }
        var eq := Eat(Equal);
        if eq.Failure? {
          return Failure(eq.error);
        }
        var e := ParseExpression();
        if e.Failure? {
          return Failure(e.error);
        }
        return Success(AssignStmt(id.value.text, e.value));
      }
      r := Failure(UnexpectedToken(Current().kind));
    }

    method ParseExpression() returns (r: Result<Expr>)
      requires Valid()
      modifies this
      ensures Valid()
      ensures Agrees(Spec.Expression(tokens, old(pos)), r, pos)
      decreases |tokens| - pos, 3
    {
      var t := ParseTerm();
      if t.Failure? {
        return Failure(t.error);
      }
      r := ParseTermTail(t.value);
    }

    method ParseTerm() returns (r: Result<Expr>)
      requires Valid()
      modifies this
      ensures Valid()
      ensures Agrees(Spec.Term(tokens, old(pos)), r, pos)
      decreases |tokens| - pos, 2
    {
      ghost var start := pos;
      var f := ParseFactor();
      if f.Failure? {
        return Failure(f.error);
      }
      var expr := f.value;
      while IsAdditive(Current().kind)
        invariant Valid() && start < pos
        invariant Spec.Term(tokens, start) == Spec.TermTail(tokens, expr, pos)
        decreases |tokens| - pos
      {
        var op := Current().kind;
        var e := Eat(op);
        if e.Failure? {
          return Failure(e.error);
        }
        var right := ParseFactor();
        if right.Failure? {
          return Failure(right.error);
        }
        expr := BinaryExpr(expr, op, right.value);
      }
      r := Success(expr);
    }

    method ParseTermTail(left: Expr) returns (r: Result<Expr>)
      requires Valid()
      modifies this
      ensures Valid()
      ensures Agrees(Spec.TermTail(tokens, left, old(pos)), r, pos)
      decreases |tokens| - pos, 1
    {
      ghost var start := pos;
      var expr := left;
      while IsAdditive(Current().kind)
        invariant Valid() && start <= pos
        invariant Spec.TermTail(tokens, left, start) == Spec.TermTail(tokens, expr, pos)
        decreases |tokens| - pos
      {
        var op := Current().kind;
        var e := Eat(op);
        if e.Failure? {
          return Failure(e.error);
        }
        var right := ParseFactor();
        if right.Failure? {
          return Failure(right.error);
        }
        expr := BinaryExpr(expr, op, right.value);
      }
      r := Success(expr);
    }

    method ParseFactor() returns (r: Result<Expr>)
      requires Valid()
      modifies this
      ensures Valid()
      ensures Agrees(Spec.Factor(tokens, old(pos)), r, pos)
      decreases |tokens| - pos, 1
    {
      ghost var start := pos;
      var p := ParsePrimary();
      if p.Failure? {
        return Failure(p.error);
      }
      var expr := p.value;
      while IsMultiplicative(Current().kind)
        invariant Valid() && start < pos
        invariant Spec.Factor(tokens, start) == Spec.FactorTail(tokens, expr, pos)
        decreases |tokens| - pos
      {
        var op := Current().kind;
        var e := Eat(op);
        if e.Failure? {
          return Failure(e.error);
        }
        var right := ParsePrimary();
        if right.Failure? {
          return Failure(right.error);
        }
        expr := BinaryExpr(expr, op, right.value);
      }
      r := Success(expr);
    }

    method ParsePrimary() returns (r: Result<Expr>)
      requires Valid()
      modifies this
      ensures Valid()
      ensures Agrees(Spec.Primary(tokens, old(pos)), r, pos)
      decreases |tokens| - pos, 0
    {
      if Current().kind == Number {
        var n := Eat(Number);
        if n.Failure? {
          return Failure(n.error);
        }
        var value := ParseInt(n.value.text);
        if value.Failure? {
          return Failure(value.error);
        }
        return Success(NumberExpr(value.value));
      }
      if Current().kind == Identifier {
        var id := Eat(Identifier);
        if id.Failure? {
          return Failure(id.error);
        }
        return Success(VariableExpr(id.value.text));
      }
      if Current().kind == LParen {
        var lparen := Eat(LParen);
        if lparen.Failure? {
          return Failure(lparen.error);
        }
        var inner := ParseExpression();
        if inner.Failure? {
          return Failure(inner.error);
        }
        var rparen := Eat(RParen);
        if rparen.Failure? {
          return Failure(rparen.error);
        }
        return Success(inner.value);
      }
      r := Failure(UnexpectedToken(Current().kind));
    }
  }
}
