/**
  Concrete token streams taken through the parser, and concrete programs taken
  through the interpreter: how malformed submissions are rejected at the first
  token the grammar cannot accept, and how C#'s `int` shows through evaluation.
*/
module Scenarios {
  import opened Errors
  import opened TokenTypes
  import opened CSharpInt
  import opened Ast
  import opened ParserSpec
  import opened ParserProps
  import opened Evaluation
  import CodeGen
  import RoundTrip

  const EndToken := Token(EOF, "")

  /**
    `x=1 print x`: statements need no separator. The parser reads an assignment,
    sees `print` where the expression ends, and reads a print.
  */
  lemma TwoStatementsWithoutSeparator()
    ensures Parse([Token(Identifier, "x"), Token(Equal, "="), Token(Number, "1"), Token(Print, "print"), Token(Identifier, "x"), EndToken])
         == Success(BlockStmt([AssignStmt("x", NumberExpr(1)), PrintStmt(VariableExpr("x"))]))
  {
    var ss := [AssignStmt("x", NumberExpr(1)), PrintStmt(VariableExpr("x"))];
    assert DecimalText(1) == "1";
    assert IsIdentifierName("x");
    assert RoundTrip.AllWellFormed(ss[1..][1..]);
    assert RoundTrip.ProgramTokens(ss) + [EndToken]
        == [Token(Identifier, "x"), Token(Equal, "="), Token(Number, "1"), Token(Print, "print"), Token(Identifier, "x"), EndToken];
    RoundTrip.ParseRoundTrip(ss);
  }

  /** `=5`: no statement starts with `=`. */
  lemma AssignmentWithoutName()
    ensures Parse([Token(Equal, "="), Token(Number, "5"), EndToken]) == Failure(UnexpectedToken(Equal))
  {
  }

  /** `x`: an identifier must be followed by `=`. */
  lemma BareName()
    ensures Parse([Token(Identifier, "x"), EndToken]) == Failure(UnexpectedToken(Identifier))
  {
  }

  /** `print`: the parser meets EOF where a primary should start. */
  lemma BarePrint()
    ensures Parse([Token(Print, "print"), EndToken]) == Failure(UnexpectedToken(EOF))
  {
    var toks := [Token(Print, "print"), EndToken];
    assert Primary(toks, 1) == Failure(UnexpectedToken(EOF));
    ExpressionFailsAtPrimary(toks, 1);
    assert Statement(toks, 0) == Failure(UnexpectedToken(EOF));
  }

  /** The tokens of `print (1`. */
  const UnclosedGroup := [Token(Print, "print"), Token(LParen, "("), Token(Number, "1"), EndToken]

  /** Inside `print (1` the group's expression is the number alone, ending at EOF. */
  lemma UnclosedGroupExpression()
    ensures Expression(UnclosedGroup, 2) == Success((NumberExpr(1), 3))
  {
    var toks := UnclosedGroup;
    assert ParseInt("1") == Success(1);
    PrimaryAtom(toks, 2, NumberExpr(1));
    FactorOfPrimary(toks, 2, NumberExpr(1), 3);
    ExpressionOfFactor(toks, 2, NumberExpr(1), 3);
  }

  /** So the group fails where `)` is required. */
  lemma UnclosedGroupPrimary()
    ensures Primary(UnclosedGroup, 1) == Failure(ExpectedToken(RParen, EOF))
  {
    UnclosedGroupExpression();
  }

  /** `print (1`: the parenthesis is never closed. */
  lemma MissingClosingParenthesis()
    ensures Parse(UnclosedGroup) == Failure(ExpectedToken(RParen, EOF))
  {
    UnclosedGroupPrimary();
    ExpressionFailsAtPrimary(UnclosedGroup, 1);
    assert Statement(UnclosedGroup, 0) == Failure(ExpectedToken(RParen, EOF));
  }

  /** `print (0 - 7) / 2` writes -3: the quotient is truncated toward zero, not floored. */
  lemma NegativeQuotientTruncates()
    ensures Evaluate(map[], BinaryExpr(BinaryExpr(NumberExpr(0), Minus, NumberExpr(7)), Slash, NumberExpr(2)))
         == Success(-3)
  {
    assert Sub(0, 7) == -7;
    assert TruncDiv(-7, 2) == -3;
  }

  /** `2147483647 + 1` is int.MinValue: unchecked addition wraps around. */
  lemma AdditionWraps()
    ensures Evaluate(map[], BinaryExpr(NumberExpr(MAX), Plus, NumberExpr(1))) == Success(MIN)
  {
    assert Wrap(MAX + 1) == MIN;
  }

  /**
    `x = 1; print x; print x / 0; print 2`: the binding and the first value stay,
    the division throws, and the last statement never runs.
  */
  lemma DivisionByZeroStopsTheRun()
    ensures Run(map[], [AssignStmt("x", NumberExpr(1)), PrintStmt(VariableExpr("x")),
                        PrintStmt(BinaryExpr(VariableExpr("x"), Slash, NumberExpr(0))), PrintStmt(NumberExpr(2))])
         == Trace(map["x" := 1], [1], Some(DivideByZero))
  {
    var env := map["x" := 1];
    var stmts := [AssignStmt("x", NumberExpr(1)), PrintStmt(VariableExpr("x")),
                  PrintStmt(BinaryExpr(VariableExpr("x"), Slash, NumberExpr(0))), PrintStmt(NumberExpr(2))];
    assert Exec(map[], stmts[0]) == Success((env, []));
    assert Exec(env, stmts[1]) == Success((env, [1]));
    assert Exec(env, stmts[2]) == Failure(DivideByZero);
    assert Run(env, stmts[2..]) == Trace(env, [], Some(DivideByZero));
    assert Run(env, stmts[1..]) == Trace(env, [1], Some(DivideByZero)) by { assert stmts[1..][1..] == stmts[2..]; }
  }

  /**
    `(1 = (2 ( 3))`, a tree no parser produces: the node's own operator `=` is
    reported, since it is translated before the right operand.
  */
  lemma OperatorBeforeRightOperand()
    ensures CodeGen.GenerateExpression(BinaryExpr(NumberExpr(1), Equal, BinaryExpr(NumberExpr(2), LParen, NumberExpr(3))))
         == Failure(UnknownOperator(Equal))
  {
    CodeGen.GenerateLeftToRight(NumberExpr(1), Equal, BinaryExpr(NumberExpr(2), LParen, NumberExpr(3)));
  }
}
