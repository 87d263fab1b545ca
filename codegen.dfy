/**
  CodeGenerator.cs without `CompileAndRun`: a syntax tree becomes C# source text.
  Expressions and statements translate by pure functions; `Generate` builds the
  program text line by line.
*/
module CodeGen {
  import opened TokenTypes
  import opened Errors
  import opened CSharpInt
  import opened Ast
  import opened Chars
  import opened TextLines

  /** The C# spelling of the four arithmetic operators; any other kind is an unknown operator. */
  function OpToString(op: TokenKind): (r: Result<string>)
    ensures r.Success? <==> IsArithmetic(op)
    ensures r.Failure? ==> r.error == UnknownOperator(op)
    ensures r.Success? ==> |r.value| == 1 && !IsLetter(r.value[0]) && !IsDigit(r.value[0]) && r.value[0] != '\n'
  {
    match op
    case Plus => Success("+")
    case Minus => Success("-")
    case Star => Success("*")
    case Slash => Success("/")
    case _ => Failure(UnknownOperator(op))
  }

  /** Distinct operators are spelled differently. */
  lemma OpToStringInjective(a: TokenKind, b: TokenKind)
    requires IsArithmetic(a) && OpToString(a) == OpToString(b)
    ensures a == b
  {
  }

  /**
    A number is its decimal text, a variable its name, and a binary node
    `(L op R)`: every binary node is parenthesised. Generation fails exactly
    when some node carries a non-arithmetic operator, and a parser-produced tree
    yields one line of text.
  */
  function GenerateExpression(e: Expr): (r: Result<string>)
    ensures r.Success? <==> OpsKnown(e)
    ensures r.Failure? ==> r.error.UnknownOperator?
    ensures r.Success? && e.BinaryExpr? ==> |r.value| >= 2 && r.value[0] == '(' && r.value[|r.value| - 1] == ')'
    ensures WellFormed(e) ==> r.Success? && NoNewline(r.value)
  {
    match e
    case NumberExpr(v) =>
      Success(DecimalText(v))
    case VariableExpr(name) =>
      Success(name)
    case BinaryExpr(l, op, rt) =>
      var left :- GenerateExpression(l);
      var o :- OpToString(op);
      var right :- GenerateExpression(rt);
      Success("(" + left + " " + o + " " + right + ")")
  }

  /**
    The interpolation of a binary node evaluates the left operand, then the
    operator, then the right operand: the first failure in that order is the
    one reported.
  */
  lemma GenerateLeftToRight(l: Expr, op: TokenKind, r: Expr)
    ensures GenerateExpression(l).Failure? ==>
      GenerateExpression(BinaryExpr(l, op, r)) == Failure(GenerateExpression(l).error)
    ensures GenerateExpression(l).Success? && !IsArithmetic(op) ==>
      GenerateExpression(BinaryExpr(l, op, r)) == Failure(UnknownOperator(op))
    ensures GenerateExpression(l).Success? && IsArithmetic(op) && GenerateExpression(r).Failure? ==>
      GenerateExpression(BinaryExpr(l, op, r)) == Failure(GenerateExpression(r).error)
  {
  }

  /** `print e` becomes `Console.WriteLine(e);`, `x = e` becomes `var x = e;`, a nested block is an unknown statement. */
  function GenerateStatement(s: Stmt): (r: Result<string>)
    ensures r.Success? <==> (s.PrintStmt? && OpsKnown(s.expr)) || (s.AssignStmt? && OpsKnown(s.value))
    ensures s.BlockStmt? ==> r == Failure(UnknownStatement)
    ensures WellFormedStmt(s) ==> r.Success? && NoNewline(r.value)
  {
    match s
    case PrintStmt(e) =>
      var g :- GenerateExpression(e);
      Success("Console.WriteLine(" + g + ");")
    case AssignStmt(name, e) =>
      var g :- GenerateExpression(e);
      Success("var " + name + " = " + g + ";")
    case BlockStmt(_) => Failure(UnknownStatement)
  }

  /** Statement `k` is the first one that cannot be translated. */
  predicate FirstFailure(stmts: seq<Stmt>, k: int)
  {
    && 0 <= k < |stmts|
    && GenerateStatement(stmts[k]).Failure?
    && forall i :: 0 <= i < k ==> GenerateStatement(stmts[i]).Success?
  }

  /**
    One line per statement, in order; the first statement that cannot be
    translated decides the failure.
  */
  function StatementLines(stmts: seq<Stmt>): (r: Result<seq<string>>)
    ensures r.Success? ==> |r.value| == |stmts|
  {
    if stmts == [] then Success([])
    else
      var first :- GenerateStatement(stmts[0]);
      var rest :- StatementLines(stmts[1..]);
      Success([first] + rest)
  }

  /**
    `StatementLines` succeeds exactly when every statement translates, and then
    line `i` is statement `i`'s translation; otherwise the error is that of the
    first statement that does not translate.
  */
  lemma {:induction false} StatementLinesSpec(stmts: seq<Stmt>)
    ensures StatementLines(stmts).Success? <==> forall i :: 0 <= i < |stmts| ==> GenerateStatement(stmts[i]).Success?
    ensures StatementLines(stmts).Success? ==>
      forall i :: 0 <= i < |stmts| ==> StatementLines(stmts).value[i] == GenerateStatement(stmts[i]).value
    ensures StatementLines(stmts).Failure? ==>
      exists k :: FirstFailure(stmts, k) && StatementLines(stmts).error == GenerateStatement(stmts[k]).error
  {
    if stmts != [] {
      StatementLinesSpec(stmts[1..]);
      assert forall i :: 1 <= i < |stmts| ==> stmts[i] == stmts[1..][i - 1];
      if GenerateStatement(stmts[0]).Failure? {
        assert FirstFailure(stmts, 0);
      } else if StatementLines(stmts[1..]).Failure? {
        var k :| FirstFailure(stmts[1..], k) && StatementLines(stmts[1..]).error == GenerateStatement(stmts[1..][k]).error;
        assert FirstFailure(stmts, k + 1);
      }
    }
  }

  /** Parser-produced statements translate to lines without a newline. */
  lemma StatementLinesNoNewline(stmts: seq<Stmt>)
    requires forall i :: 0 <= i < |stmts| ==> WellFormedStmt(stmts[i])
    ensures StatementLines(stmts).Success? && AllNoNewline(StatementLines(stmts).value)
  {
    StatementLinesSpec(stmts);
  }

  lemma StatementLinesStep(stmts: seq<Stmt>)
    requires stmts != []
    ensures GenerateStatement(stmts[0]).Failure? ==> StatementLines(stmts) == Failure(GenerateStatement(stmts[0]).error)
    ensures GenerateStatement(stmts[0]).Success? ==>
      StatementLines(stmts) == Prepend([GenerateStatement(stmts[0]).value], StatementLines(stmts[1..]))
  {
  }

  const Prologue: seq<string> := ["using System;", "public static class ScriptProgram {", "  public static void Run() {"]
  const Epilogue: seq<string> := ["  }", "}"]

  /** The text `Generate` returns for a block: prologue, one line per statement, epilogue, each newline-terminated. */
  function GenerateText(block: Stmt): Result<string>
    requires block.BlockStmt?
  {
    var body :- StatementLines(block.statements);
    Success(Lines(Prologue + body + Epilogue))
  }

  /** `Generate`: appends the prologue, each statement's line and the epilogue to a buffer. */
  method Generate(block: Stmt) returns (r: Result<string>)
    requires block.BlockStmt?
    ensures r == GenerateText(block)
  {
    var stmts := block.statements;
    var sb := Lines(Prologue);
    ghost var body: seq<string> := [];
    PrependNil(StatementLines(stmts));
    assert Prologue + body == Prologue;
    for i := 0 to |stmts|
      invariant StatementLines(stmts) == Prepend(body, StatementLines(stmts[i..]))
      invariant sb == Lines(Prologue + body)
    {
      StatementLinesStep(stmts[i..]);
      assert stmts[i..][0] == stmts[i] && stmts[i..][1..] == stmts[i + 1..];
      var line := GenerateStatement(stmts[i]);
      if line.Failure? {
        assert StatementLines(stmts) == Failure(line.error);
        return Failure(line.error);
      }
      PrependPrepend(body, [line.value], StatementLines(stmts[i + 1..]));
      LinesSnoc(Prologue + body, line.value);
      assert Prologue + body + [line.value] == Prologue + (body + [line.value]);
      sb := sb + line.value + "\n";
      body := body + [line.value];
    }
    assert stmts[|stmts|..] == [];
    PrependEmpty(body);
    LinesSnoc(Prologue + body, "  }");
    LinesSnoc(Prologue + body + ["  }"], "}");
    assert Prologue + body + ["  }"] + ["}"] == Prologue + body + Epilogue;
    sb := sb + "  }\n";
    sb := sb + "}\n";
    assert StatementLines(stmts) == Success(body);
    assert sb == Lines(Prologue + body + Epilogue);
    r := Success(sb);
  }

  lemma LinesSnoc(ls: seq<string>, l: string)
    ensures Lines(ls + [l]) == Lines(ls) + l + "\n"
  {
    LinesAppend(ls, [l]);
    LinesSingle(l);
  }

  /**
    The text splits on newlines into exactly 3 + n + 3 pieces: the prologue,
    the n statement lines, the epilogue and one empty piece. So dropping the
    first three and the last three pieces leaves the statement lines.
  */
  lemma GenerateSplits(block: Stmt)
    requires block.BlockStmt? && forall i :: 0 <= i < |block.statements| ==> WellFormedStmt(block.statements[i])
    ensures GenerateText(block).Success?
    ensures var pieces := Split(GenerateText(block).value);
      && |pieces| == 3 + |block.statements| + 3
      && pieces[..3] == Prologue
      && pieces[3..|pieces| - 3] == StatementLines(block.statements).value
      && pieces[|pieces| - 3..] == Epilogue + [""]
  {
    StatementLinesNoNewline(block.statements);
    var body := StatementLines(block.statements).value;
    PrologueEpilogueNoNewline();
    AllNoNewlineConcat(Prologue, body, Epilogue);
    SplitLines(Prologue + body + Epilogue);
    SliceThree(Prologue + body + Epilogue + [""], Prologue, body, Epilogue + [""]);
  }

  lemma PrologueEpilogueNoNewline()
    ensures AllNoNewline(Prologue) && AllNoNewline(Epilogue)
  {
    PrologueLinesNoNewline();
    assert |Prologue| == 3 && |Epilogue| == 2;
  }

  lemma PrologueLinesNoNewline()
    ensures NoNewline(Prologue[0]) && NoNewline(Prologue[1]) && NoNewline(Prologue[2])
    ensures NoNewline(Epilogue[0]) && NoNewline(Epilogue[1])
  {
  }
}
