/** The syntax tree of Node.cs: closed, immutable variants. */
module Ast {
  import opened TokenTypes
  import opened CSharpInt
  import opened Chars

  /** An expression is a number, a variable, or a binary node. */
  datatype Expr =
    | NumberExpr(value: Int)
    | VariableExpr(name: string)
    | BinaryExpr(left: Expr, op: TokenKind, right: Expr)

  /**
    A statement is a print, an assignment or a block. A block is itself a statement,
    so nesting is representable, though neither back end accepts a nested block.
  */
  datatype Stmt =
    | PrintStmt(expr: Expr)
    | AssignStmt(name: string, value: Expr)
    | BlockStmt(statements: seq<Stmt>)

  /** A name the lexer can produce as an `Identifier`: a run of letters other than `print`. */
  predicate IsIdentifierName(s: string)
  {
    |s| > 0 && (forall i :: 0 <= i < |s| ==> IsLetter(s[i])) && s != "print"
  }

  /** An expression the parser can produce from the lexer's tokens. */
  predicate WellFormed(e: Expr)
  {
    match e
    case NumberExpr(v) => 0 <= v
    case VariableExpr(name) => IsIdentifierName(name)
    case BinaryExpr(l, op, r) => IsArithmetic(op) && WellFormed(l) && WellFormed(r)
  }

  /** A top-level statement the parser can produce: never a block. */
  predicate WellFormedStmt(s: Stmt)
  {
    match s
    case PrintStmt(e) => WellFormed(e)
    case AssignStmt(name, e) => IsIdentifierName(name) && WellFormed(e)
    case BlockStmt(_) => false
  }

  /** Every operator in `e` is one of the four the back ends handle. */
  predicate OpsKnown(e: Expr)
  {
    match e
    case NumberExpr(_) => true
    case VariableExpr(_) => true
    case BinaryExpr(l, op, r) => IsArithmetic(op) && OpsKnown(l) && OpsKnown(r)
  }

  /** The variables `e` reads. */
  function Vars(e: Expr): set<string>
  {
    match e
    case NumberExpr(_) => {}
    case VariableExpr(name) => {name}
    case BinaryExpr(l, _, r) => Vars(l) + Vars(r)
  }
}
