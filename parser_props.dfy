/** Properties of the grammar: precedence, associativity, the no-op tail, the cursor. */
module ParserProps {
  import opened TokenTypes
  import opened Errors
  import opened CSharpInt
  import opened Ast
  import opened ParserSpec

  /** `Current` never reads out of range: once past the end it keeps reading the final EOF. */
  lemma CurrentPastEnd(toks: seq<Token>, pos: nat)
    requires 0 < |toks| && toks[|toks| - 1].kind == EOF && pos >= |toks| - 1
    ensures Current(toks, pos).kind == EOF
    ensures Peek(toks, pos, 1) == None
  {
  }

  /** `ParseExpression` is `ParseTerm`: the term loop already consumed every `+` and `-`. */
  lemma {:induction false} TermTailIsNoOp(toks: seq<Token>, pos: nat)
    requires Valid(toks, pos)
    ensures Term(toks, pos).Success? ==>
      TermTail(toks, Term(toks, pos).value.0, Term(toks, pos).value.1) == Term(toks, pos)
    ensures Expression(toks, pos) == Term(toks, pos)
  {
    var t := Term(toks, pos);
    if t.Success? {
      // Term ends where its own loop stopped, at a token that is neither `+` nor `-`.
      assert !IsAdditive(Current(toks, t.value.1).kind);
    }
  }

  /** An expression whose first primary fails fails with that primary's error. */
  lemma ExpressionFailsAtPrimary(toks: seq<Token>, pos: nat)
    requires Valid(toks, pos) && Primary(toks, pos).Failure?
    ensures Expression(toks, pos) == Failure(Primary(toks, pos).error)
  {
    assert Factor(toks, pos) == Failure(Primary(toks, pos).error);
    assert Term(toks, pos) == Failure(Primary(toks, pos).error);
  }

  /** A number or a variable: a primary that is one token. */
  predicate IsAtom(e: Expr)
  {
    e.NumberExpr? || e.VariableExpr?
  }

  /** Token `t` reads as the atom `e`: a number token whose text `int.Parse` reads as the value, or the variable's name. */
  predicate AtomAt(t: Token, e: Expr)
  {
    match e
    case NumberExpr(v) => t.kind == Number && ParseInt(t.text) == Success(v)
    case VariableExpr(name) => t == Token(Identifier, name)
    case BinaryExpr(_, _, _) => false
  }

  /** The token the lexer makes of a parser-produced atom. */
  function AtomToken(e: Expr): Token
    requires IsAtom(e)
  {
    if e.NumberExpr? then Token(Number, DecimalText(e.value)) else Token(Identifier, e.name)
  }

  /** The token a well-formed atom is written as reads back as that atom. */
  lemma AtomTokenReads(e: Expr)
    requires IsAtom(e) && WellFormed(e)
    ensures AtomAt(AtomToken(e), e)
  {
    if e.NumberExpr? {
      ParseDecimalText(e.value);
    }
  }

  lemma PrimaryAtom(toks: seq<Token>, pos: nat, e: Expr)
    requires Valid(toks, pos) && pos < |toks| && AtomAt(toks[pos], e)
    ensures Primary(toks, pos) == Success((e, pos + 1))
  {
    assert Eat(toks, pos, toks[pos].kind) == Success((toks[pos], (pos + 1) as nat));
  }

  /** `left op0 a0 op1 a1 ...` combined from the left. */
  function FoldLeft(left: Expr, ops: seq<TokenKind>, atoms: seq<Expr>): Expr
    requires |ops| == |atoms|
    decreases |ops|
  {
    if ops == [] then left
    else FoldLeft(BinaryExpr(left, ops[0], atoms[0]), ops[1..], atoms[1..])
  }

  /** From `pos` on, the tokens are `op0 a0 op1 a1 ...` followed by a token that is no operator. */
  predicate Chain(toks: seq<Token>, pos: nat, ops: seq<TokenKind>, atoms: seq<Expr>)
    decreases |ops|
  {
    && |ops| == |atoms|
    && pos + 2 * |ops| < |toks|
    && if ops == [] then !IsArithmetic(toks[pos].kind)
       else toks[pos].kind == ops[0] && AtomAt(toks[pos + 1], atoms[0]) && Chain(toks, pos + 2, ops[1..], atoms[1..])
  }

  /** The first token of an additive chain is not `*` or `/`: the factor before it ends there. */
  lemma AdditiveChainHead(toks: seq<Token>, pos: nat, ops: seq<TokenKind>, atoms: seq<Expr>)
    requires Chain(toks, pos, ops, atoms) && forall i :: 0 <= i < |ops| ==> IsAdditive(ops[i])
    ensures pos < |toks| && !IsMultiplicative(toks[pos].kind)
  {
  }

  /** The first round of the `+`/`-` loop over a chain consumes its first operator and atom; the rest is a chain. */
  lemma AdditiveChainStep(toks: seq<Token>, left: Expr, pos: nat, ops: seq<TokenKind>, atoms: seq<Expr>)
    requires Valid(toks, pos) && Chain(toks, pos, ops, atoms) && |ops| > 0
    requires forall i :: 0 <= i < |ops| ==> IsAdditive(ops[i])
    ensures Valid(toks, pos + 2) && Chain(toks, pos + 2, ops[1..], atoms[1..])
    ensures forall i :: 0 <= i < |ops[1..]| ==> IsAdditive(ops[1..][i])
    ensures TermTail(toks, left, pos) == TermTail(toks, BinaryExpr(left, ops[0], atoms[0]), pos + 2)
  {
    assert forall i :: 0 <= i < |ops| - 1 ==> ops[1..][i] == ops[i + 1];
    AdditiveChainHead(toks, pos + 2, ops[1..], atoms[1..]);
    PrimaryAtom(toks, pos + 1, atoms[0]);
    FactorOfPrimary(toks, pos + 1, atoms[0], pos + 2);
    TermTailStep(toks, left, pos, atoms[0], pos + 2);
  }

  /** The `+`/`-` loop combines a chain of atoms from the left. */
  lemma {:induction false} AdditiveChain(toks: seq<Token>, left: Expr, pos: nat, ops: seq<TokenKind>, atoms: seq<Expr>)
    requires Valid(toks, pos) && Chain(toks, pos, ops, atoms)
    requires forall i :: 0 <= i < |ops| ==> IsAdditive(ops[i])
    ensures TermTail(toks, left, pos) == Success((FoldLeft(left, ops, atoms), pos + 2 * |ops|))
    decreases |ops|
  {
    if ops != [] {
      var next := BinaryExpr(left, ops[0], atoms[0]);
      AdditiveChainStep(toks, left, pos, ops, atoms);
      AdditiveChain(toks, next, pos + 2, ops[1..], atoms[1..]);
      assert FoldLeft(left, ops, atoms) == FoldLeft(next, ops[1..], atoms[1..]);
      assert pos + 2 + 2 * |ops[1..]| == pos + 2 * |ops|;
    } else {
      TermTailEnd(toks, left, pos);
    }
  }

  /** The first round of the `*`/`/` loop over a chain consumes its first operator and atom; the rest is a chain. */
  lemma MultiplicativeChainStep(toks: seq<Token>, left: Expr, pos: nat, ops: seq<TokenKind>, atoms: seq<Expr>)
    requires Valid(toks, pos) && Chain(toks, pos, ops, atoms) && |ops| > 0
    requires forall i :: 0 <= i < |ops| ==> IsMultiplicative(ops[i])
    ensures Valid(toks, pos + 2) && Chain(toks, pos + 2, ops[1..], atoms[1..])
    ensures forall i :: 0 <= i < |ops[1..]| ==> IsMultiplicative(ops[1..][i])
    ensures FactorTail(toks, left, pos) == FactorTail(toks, BinaryExpr(left, ops[0], atoms[0]), pos + 2)
  {
    assert forall i :: 0 <= i < |ops| - 1 ==> ops[1..][i] == ops[i + 1];
    PrimaryAtom(toks, pos + 1, atoms[0]);
    FactorTailStep(toks, left, pos, atoms[0], pos + 2);
  }

  /** The `*`/`/` loop combines a chain of atoms from the left. */
  lemma {:induction false} MultiplicativeChain(toks: seq<Token>, left: Expr, pos: nat, ops: seq<TokenKind>, atoms: seq<Expr>)
    requires Valid(toks, pos) && Chain(toks, pos, ops, atoms)
    requires forall i :: 0 <= i < |ops| ==> IsMultiplicative(ops[i])
    ensures FactorTail(toks, left, pos) == Success((FoldLeft(left, ops, atoms), pos + 2 * |ops|))
    decreases |ops|
  {
    if ops != [] {
      var next := BinaryExpr(left, ops[0], atoms[0]);
      MultiplicativeChainStep(toks, left, pos, ops, atoms);
      MultiplicativeChain(toks, next, pos + 2, ops[1..], atoms[1..]);
      assert FoldLeft(left, ops, atoms) == FoldLeft(next, ops[1..], atoms[1..]);
      assert pos + 2 + 2 * |ops[1..]| == pos + 2 * |ops|;
    } else {
      FactorTailEnd(toks, left, pos);
    }
  }

  /** Both precedence levels are left-associative: `a - b - c` is `(a - b) - c`. */
  lemma LeftAssociative(toks: seq<Token>, first: Expr, ops: seq<TokenKind>, atoms: seq<Expr>)
    requires 0 < |toks| && AtomAt(toks[0], first) && Chain(toks, 1, ops, atoms)
    requires (forall i :: 0 <= i < |ops| ==> IsAdditive(ops[i])) || (forall i :: 0 <= i < |ops| ==> IsMultiplicative(ops[i]))
    ensures Expression(toks, 0) == Success((FoldLeft(first, ops, atoms), 1 + 2 * |ops|))
  {
    PrimaryAtom(toks, 0, first);
    if forall i :: 0 <= i < |ops| ==> IsAdditive(ops[i]) {
      LeftAssociativeSum(toks, first, ops, atoms);
    } else {
      LeftAssociativeProduct(toks, first, ops, atoms);
    }
  }

  lemma LeftAssociativeSum(toks: seq<Token>, first: Expr, ops: seq<TokenKind>, atoms: seq<Expr>)
    requires 0 < |toks| && Primary(toks, 0) == Success((first, 1)) && Chain(toks, 1, ops, atoms)
    requires forall i :: 0 <= i < |ops| ==> IsAdditive(ops[i])
    ensures Expression(toks, 0) == Success((FoldLeft(first, ops, atoms), 1 + 2 * |ops|))
  {
    AdditiveChainHead(toks, 1, ops, atoms);
    FactorOfPrimary(toks, 0, first, 1);
    AdditiveChain(toks, first, 1, ops, atoms);
    ExpressionOfFactor(toks, 0, FoldLeft(first, ops, atoms), 1 + 2 * |ops|);
  }

  lemma LeftAssociativeProduct(toks: seq<Token>, first: Expr, ops: seq<TokenKind>, atoms: seq<Expr>)
    requires 0 < |toks| && Primary(toks, 0) == Success((first, 1)) && Chain(toks, 1, ops, atoms)
    requires forall i :: 0 <= i < |ops| ==> IsMultiplicative(ops[i])
    ensures Expression(toks, 0) == Success((FoldLeft(first, ops, atoms), 1 + 2 * |ops|))
  {
    MultiplicativeChain(toks, first, 1, ops, atoms);
    ExpressionOfFactor(toks, 0, FoldLeft(first, ops, atoms), 1 + 2 * |ops|);
  }

  /** `*` and `/` bind tighter than `+` and `-`: `a + b * c` is `a + (b * c)`. */
  lemma MultiplicativeBindsTighterOnRight(toks: seq<Token>, a: Expr, op1: TokenKind, b: Expr, op2: TokenKind, c: Expr)
    requires IsAdditive(op1) && IsMultiplicative(op2)
    requires |toks| == 6 && AtomAt(toks[0], a) && toks[1].kind == op1 && AtomAt(toks[2], b)
    requires toks[3].kind == op2 && AtomAt(toks[4], c) && toks[5].kind == EOF
    ensures Expression(toks, 0) == Success((BinaryExpr(a, op1, BinaryExpr(b, op2, c)), 5))
  {
    var bc := BinaryExpr(b, op2, c);
    PrimaryAtom(toks, 0, a);
    PrimaryAtom(toks, 2, b);
    PrimaryAtom(toks, 4, c);
    FactorOfPrimary(toks, 0, a, 1);
    FactorTailStep(toks, b, 3, c, 5);
    FactorTailEnd(toks, bc, 5);
    SumStep(toks, a, op1, bc, 1, 5);
    ExpressionOfFactor(toks, 0, BinaryExpr(a, op1, bc), 5);
  }

  /** ... and on the left: `a * b + c` is `(a * b) + c`. */
  lemma MultiplicativeBindsTighterOnLeft(toks: seq<Token>, a: Expr, op1: TokenKind, b: Expr, op2: TokenKind, c: Expr)
    requires IsMultiplicative(op1) && IsAdditive(op2)
    requires |toks| == 6 && AtomAt(toks[0], a) && toks[1].kind == op1 && AtomAt(toks[2], b)
    requires toks[3].kind == op2 && AtomAt(toks[4], c) && toks[5].kind == EOF
    ensures Expression(toks, 0) == Success((BinaryExpr(BinaryExpr(a, op1, b), op2, c), 5))
  {
    var ab := BinaryExpr(a, op1, b);
    PrimaryAtom(toks, 0, a);
    PrimaryAtom(toks, 2, b);
    PrimaryAtom(toks, 4, c);
    FactorTailStep(toks, a, 1, b, 3);
    FactorTailEnd(toks, ab, 3);
    FactorOfPrimary(toks, 4, c, 5);
    SumStep(toks, ab, op2, c, 3, 5);
    ExpressionOfFactor(toks, 0, BinaryExpr(ab, op2, c), 5);
  }

  /** One round of the `+`/`-` loop. */
  lemma TermTailStep(toks: seq<Token>, left: Expr, pos: nat, right: Expr, next: nat)
    requires Valid(toks, pos) && pos < |toks| && IsAdditive(toks[pos].kind)
    requires Factor(toks, pos + 1) == Success((right, next))
    ensures TermTail(toks, left, pos) == TermTail(toks, BinaryExpr(left, toks[pos].kind, right), next)
  {
    assert Eat(toks, pos, toks[pos].kind) == Success((toks[pos], (pos + 1) as nat));
  }

  /** One round of the `*`/`/` loop. */
  lemma FactorTailStep(toks: seq<Token>, left: Expr, pos: nat, right: Expr, next: nat)
    requires Valid(toks, pos) && pos < |toks| && IsMultiplicative(toks[pos].kind)
    requires Primary(toks, pos + 1) == Success((right, next))
    ensures FactorTail(toks, left, pos) == FactorTail(toks, BinaryExpr(left, toks[pos].kind, right), next)
  {
    assert Eat(toks, pos, toks[pos].kind) == Success((toks[pos], (pos + 1) as nat));
  }

  /** The `*`/`/` loop stops at any other token. */
  lemma FactorTailEnd(toks: seq<Token>, left: Expr, pos: nat)
    requires Valid(toks, pos) && pos < |toks| && !IsMultiplicative(toks[pos].kind)
    ensures FactorTail(toks, left, pos) == Success((left, pos))
  {
  }

  /** The `+`/`-` loop stops at any other token. */
  lemma TermTailEnd(toks: seq<Token>, left: Expr, pos: nat)
    requires Valid(toks, pos) && pos < |toks| && !IsAdditive(toks[pos].kind)
    ensures TermTail(toks, left, pos) == Success((left, pos))
  {
  }

  /** One round of the `+`/`-` loop that ends at a token other than `+` and `-`. */
  lemma SumStep(toks: seq<Token>, l: Expr, op: TokenKind, r: Expr, p1: nat, p2: nat)
    requires Valid(toks, p1) && p1 < |toks| && toks[p1].kind == op && IsAdditive(op)
    requires Valid(toks, p1 + 1) && Factor(toks, p1 + 1) == Success((r, p2))
    requires p2 < |toks| && !IsAdditive(toks[p2].kind)
    ensures TermTail(toks, l, p1) == Success((BinaryExpr(l, op, r), p2))
  {
    TermTailStep(toks, l, p1, r, p2);
    TermTailEnd(toks, BinaryExpr(l, op, r), p2);
  }

  /** A primary followed by a token other than `*` and `/` is a whole factor. */
  lemma FactorOfPrimary(toks: seq<Token>, pos: nat, e: Expr, end: nat)
    requires Valid(toks, pos) && Primary(toks, pos) == Success((e, end))
    requires end < |toks| && !IsMultiplicative(toks[end].kind)
    ensures Factor(toks, pos) == Success((e, end))
  {
    FactorTailEnd(toks, e, end);
  }

  /**
    A factor followed by a token other than `+` and `-` is a whole expression;
    so is a factor whose `+`/`-` loop has already been run.
  */
  lemma ExpressionOfFactor(toks: seq<Token>, pos: nat, e: Expr, end: nat)
    requires Valid(toks, pos) && end < |toks| && !IsArithmetic(toks[end].kind)
    requires Factor(toks, pos) == Success((e, end)) ||
      (Factor(toks, pos).Success? && TermTail(toks, Factor(toks, pos).value.0, Factor(toks, pos).value.1) == Success((e, end)))
    ensures Expression(toks, pos) == Success((e, end))
  {
    assert TermTail(toks, e, end) == Success((e, end));
    assert Term(toks, pos) == Success((e, end));
  }
}
