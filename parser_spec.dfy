/**
  The grammar that Parser.cs implements, as pure functions over the token list and
  a position. Each function returns the node it parsed and the position after it,
  or the exception the parser throws. The class `Parsing.Parser` is proved to
  compute exactly these functions.

    program    := statement* EOF
    statement  := "print" expression | Identifier "=" expression
    expression := term                                   (ParseExpression: ParseTermTail(ParseTerm()))
    term       := factor (("+" | "-") factor)*
    factor     := primary (("*" | "/") primary)*
    primary    := Number | Identifier | "(" expression ")"
*/
module ParserSpec {
  import opened TokenTypes
  import opened Errors
  import opened CSharpInt
  import opened Ast
  import Lexing

  /** A token list the parser accepts: `Current` reads the last token past the end. */
  predicate Valid(toks: seq<Token>, pos: nat)
  {
    0 < |toks| && pos <= |toks|
  }

  /** `Current`: the token at `pos`, or the last token once past the end. */
  function Current(toks: seq<Token>, pos: nat): Token
    requires 0 < |toks|
  {
    if pos < |toks| then toks[pos] else toks[|toks| - 1]
  }

  /** `Peek(offset)`: the token `offset` places ahead, or nothing beyond the list. */
  function Peek(toks: seq<Token>, pos: nat, offset: nat): Option<Token>
  {
    if pos + offset < |toks| then Some(toks[pos + offset]) else None
  }

  /**
    `Eat(kind)`: consumes the current token when it has the expected kind and
    fails otherwise. Past the end of a list that does not end with the expected
    kind it fails with the index exception of `tokens[_pos++]`.
  */
  function Eat(toks: seq<Token>, pos: nat, kind: TokenKind): (r: Result<(Token, nat)>)
    requires Valid(toks, pos)
    ensures r.Success? <==> Current(toks, pos).kind == kind && pos < |toks|
    ensures r.Success? ==> r.value == (toks[pos], pos + 1) && toks[pos].kind == kind
    ensures Current(toks, pos).kind != kind ==> r == Failure(ExpectedToken(kind, Current(toks, pos).kind))
  {
    if Current(toks, pos).kind != kind then Failure(ExpectedToken(kind, Current(toks, pos).kind))
    else if pos < |toks| then Success((toks[pos], pos + 1))
    else Failure(TokenIndexOutOfRange)
  }

  /**
    Every identifier token is a letter run other than `print` and every number
    token a digit run, as the lexer guarantees. Trees parsed from such tokens are
    well formed.
  */
  predicate FromLexer(toks: seq<Token>)
  {
    Lexing.WellFormedTokens(toks)
  }

  /** `ParseExpression`: a term, then `ParseTermTail` on it. */
  function Expression(toks: seq<Token>, pos: nat): (r: Result<(Expr, nat)>)
    requires Valid(toks, pos)
    ensures r.Success? ==> pos < r.value.1 <= |toks|
    ensures r.Success? && FromLexer(toks) ==> WellFormed(r.value.0)
    decreases |toks| - pos, 3
  {
    var t :- Term(toks, pos);
    TermTail(toks, t.0, t.1)
  }

  /** `ParseTerm`: a factor, then the loop over `+` and `-`. */
  function Term(toks: seq<Token>, pos: nat): (r: Result<(Expr, nat)>)
    requires Valid(toks, pos)
    ensures r.Success? ==> pos < r.value.1 <= |toks|
    ensures r.Success? && FromLexer(toks) ==> WellFormed(r.value.0)
    decreases |toks| - pos, 2
  {
    var f :- Factor(toks, pos);
    TermTail(toks, f.0, f.1)
  }

  /**
    The loop of `ParseTerm` and of `ParseTermTail` (the two are the same loop):
    while the current token is `+` or `-`, eat it, parse a factor and make
    `left op right` the new left operand. It stops exactly at a token that is
    neither `+` nor `-`.
  */
  function TermTail(toks: seq<Token>, left: Expr, pos: nat): (r: Result<(Expr, nat)>)
    requires Valid(toks, pos)
    ensures r.Success? ==> pos <= r.value.1 <= |toks|
    ensures r.Success? ==> !IsAdditive(Current(toks, r.value.1).kind)
    ensures r.Success? && FromLexer(toks) && WellFormed(left) ==> WellFormed(r.value.0)
    decreases |toks| - pos, 0
  {
    var op := Current(toks, pos).kind;
    if IsAdditive(op) then
      var e :- Eat(toks, pos, op);
      var right :- Factor(toks, e.1);
      TermTail(toks, BinaryExpr(left, op, right.0), right.1)
    else
      Success((left, pos))
  }

  /** `ParseFactor`: a primary, then the loop over `*` and `/`. */
  function Factor(toks: seq<Token>, pos: nat): (r: Result<(Expr, nat)>)
    requires Valid(toks, pos)
    ensures r.Success? ==> pos < r.value.1 <= |toks|
    ensures r.Success? && FromLexer(toks) ==> WellFormed(r.value.0)
    decreases |toks| - pos, 1
  {
    var p :- Primary(toks, pos);
    FactorTail(toks, p.0, p.1)
  }

  /** The loop of `ParseFactor`; it stops exactly at a token that is neither `*` nor `/`. */
  function FactorTail(toks: seq<Token>, left: Expr, pos: nat): (r: Result<(Expr, nat)>)
    requires Valid(toks, pos)
    ensures r.Success? ==> pos <= r.value.1 <= |toks|
    ensures r.Success? ==> !IsMultiplicative(Current(toks, r.value.1).kind)
    ensures r.Success? && FromLexer(toks) && WellFormed(left) ==> WellFormed(r.value.0)
    decreases |toks| - pos, 0
  {
    var op := Current(toks, pos).kind;
    if IsMultiplicative(op) then
      var e :- Eat(toks, pos, op);
      var right :- Primary(toks, e.1);
      FactorTail(toks, BinaryExpr(left, op, right.0), right.1)
    else
      Success((left, pos))
  }

  /**
    `ParsePrimary`: a number (through `int.Parse`), a variable, or a parenthesised
    expression, which is returned as it is, with no node of its own.
  */
  function Primary(toks: seq<Token>, pos: nat): (r: Result<(Expr, nat)>)
    requires Valid(toks, pos)
    ensures r.Success? ==> pos < r.value.1 <= |toks|
    ensures r.Success? && FromLexer(toks) ==> WellFormed(r.value.0)
    decreases |toks| - pos, 0
  {
    var cur := Current(toks, pos).kind;
    if cur == Number then
      var n :- Eat(toks, pos, Number);
      var value :- ParseInt(n.0.text);
      Success((NumberExpr(value), n.1))
    else if cur == Identifier then
      var id :- Eat(toks, pos, Identifier);
      Success((VariableExpr(id.0.text), id.1))
    else if cur == LParen then
      var lparen :- Eat(toks, pos, LParen);
      var inner :- Expression(toks, lparen.1);
      var close :- Eat(toks, inner.1, RParen);
      Success((inner.0, close.1))
    else
      Failure(UnexpectedToken(cur))
  }

  /**
    `ParseStatement`: `print` and an expression, or an identifier immediately
    followed by `=` (one token of lookahead) and an expression.
  */
  function Statement(toks: seq<Token>, pos: nat): (r: Result<(Stmt, nat)>)
    requires Valid(toks, pos)
    ensures r.Success? ==> pos < r.value.1 <= |toks|
    ensures r.Success? && FromLexer(toks) ==> WellFormedStmt(r.value.0)
  {
    var cur := Current(toks, pos).kind;
    if cur == Print then
      var kw :- Eat(toks, pos, Print);
      var e :- Expression(toks, kw.1);
      Success((PrintStmt(e.0), e.1))
    else if cur == Identifier && Peek(toks, pos, 1).Some? && Peek(toks, pos, 1).value.kind == Equal then
      // the lookahead has seen both tokens, so neither `Eat` can fail
      var id := Eat(toks, pos, Identifier).value;
      var eq := Eat(toks, id.1, Equal).value;
      var e :- Expression(toks, eq.1);
      Success((AssignStmt(id.0.text, e.0), e.1))
    else
      Failure(UnexpectedToken(cur))
  }

  /**
    What `ParseStatement` returns in each of its three cases: `print e` is a
    print of the expression after the keyword, `x = e` binds the identifier's
    text to the expression after `=`, and any other start is rejected at the
    current token.
  */
  lemma StatementCases(toks: seq<Token>, pos: nat)
    requires Valid(toks, pos)
    ensures pos < |toks| && toks[pos].kind == Print ==>
      var e := Expression(toks, pos + 1);
      && (e.Success? ==> Statement(toks, pos) == Success((PrintStmt(e.value.0), e.value.1)))
      && (e.Failure? ==> Statement(toks, pos) == Failure(e.error))
    ensures pos + 1 < |toks| && toks[pos].kind == Identifier && toks[pos + 1].kind == Equal ==>
      var e := Expression(toks, pos + 2);
      && (e.Success? ==> Statement(toks, pos) == Success((AssignStmt(toks[pos].text, e.value.0), e.value.1)))
      && (e.Failure? ==> Statement(toks, pos) == Failure(e.error))
    ensures Current(toks, pos).kind != Print &&
            !(Current(toks, pos).kind == Identifier && Peek(toks, pos, 1).Some? && Peek(toks, pos, 1).value.kind == Equal) ==>
      Statement(toks, pos) == Failure(UnexpectedToken(Current(toks, pos).kind))
  {
  }

  /** The loop of `Parse`: statements in source order until the current token is EOF. */
  function Statements(toks: seq<Token>, pos: nat): (r: Result<seq<Stmt>>)
    requires Valid(toks, pos)
    ensures r.Success? && FromLexer(toks) ==> forall i :: 0 <= i < |r.value| ==> WellFormedStmt(r.value[i])
    // the loop stops with no statement exactly when it starts at EOF
    ensures r == Success([]) <==> Current(toks, pos).kind == EOF
    // otherwise the first statement is the one `ParseStatement` reads here
    ensures Current(toks, pos).kind != EOF && Statement(toks, pos).Failure? ==> r == Failure(Statement(toks, pos).error)
    ensures r.Success? && r.value != [] ==> Statement(toks, pos).Success? && r.value[0] == Statement(toks, pos).value.0
    decreases |toks| - pos
  {
    if Current(toks, pos).kind == EOF then Success([])
    else
      var s :- Statement(toks, pos);
      var rest :- Statements(toks, s.1);
      Success([s.0] + rest)
  }

  /** `Parse`: the whole token list as one block of top-level statements. */
  function Parse(toks: seq<Token>): (r: Result<Stmt>)
    requires 0 < |toks|
    ensures r.Success? ==> r.value.BlockStmt?
    ensures r.Success? && FromLexer(toks) ==>
      forall i :: 0 <= i < |r.value.statements| ==> WellFormedStmt(r.value.statements[i])
  {
    var ss :- Statements(toks, 0);
    Success(BlockStmt(ss))
  }
}
