/**
  Generated expression text reads back as the tree it came from: lexing
  `GenerateExpression(e)` yields the tokens `TokensOf(e)`, and the parser turns
  those tokens into `e` again. Full parenthesisation is what makes this hold
  whatever the precedence and associativity of the tree.
*/
module RoundTrip {
  import opened Chars
  import opened TokenTypes
  import opened Errors
  import opened CSharpInt
  import opened Ast
  import opened Lexing
  import opened ParserSpec
  import opened ParserProps
  import opened CodeGen

  /** The generated text of an expression the back end can translate. */
  function Gen(e: Expr): string
    requires WellFormed(e)
  {
    GenerateExpression(e).value
  }

  /** The one-character token of an operator (empty text for a kind that is no operator). */
  function OpToken(op: TokenKind): Token
  {
    Token(op, match OpToString(op) case Success(o) => o case Failure(_) => "")
  }

  /** The tokens the generated text of `e` lexes into. */
  function TokensOf(e: Expr): (ts: seq<Token>)
    ensures |ts| == Size(e)
  {
    match e
    case NumberExpr(v) => [Token(Number, DecimalText(v))]
    case VariableExpr(name) => [Token(Identifier, name)]
    case BinaryExpr(l, op, r) => [Token(LParen, "(")] + (TokensOf(l) + ([OpToken(op)] + (TokensOf(r) + [Token(RParen, ")")])))
  }

  /** The number of tokens of `e`: one per leaf, three more per binary node. */
  function Size(e: Expr): (n: nat)
    ensures n > 0
  {
    match e
    case NumberExpr(_) => 1
    case VariableExpr(_) => 1
    case BinaryExpr(l, _, r) => Size(l) + Size(r) + 3
  }

  /** The lexer reads an operator's spelling back as that operator. */
  lemma OpLexes(op: TokenKind)
    requires IsArithmetic(op)
    ensures |OpToString(op).value| == 1 && SingleCharKind(OpToString(op).value[0]) == Some(op)
  {
  }

  // ---- lexing ----

  /** A leading space changes nothing but how far `Next` reads. */
  lemma NextSpace(x: string)
    ensures Next(" " + x).Success? == Next(x).Success?
    ensures Next(x).Success? ==>
      Next(" " + x).value.0 == Next(x).value.0 && Next(" " + x).value.1 == Next(x).value.1 + 1
    ensures Next(x).Failure? ==> Next(" " + x).error == Next(x).error
  {
    var s := " " + x;
    assert s[1..] == x;
    var k := Span(x, Space);
    assert Span(s, Space) == k + 1;
    assert s[k + 1..] == x[k..];
    assert forall j :: k <= j <= |x| ==> s[k + 1..j + 1] == x[k..j];
  }

  /** Leading space does not change the tokens. */
  lemma TokensSpace(x: string)
    ensures Tokens(" " + x) == Tokens(x)
  {
    NextSpace(x);
    TokensStep(x);
    TokensStep(" " + x);
    if Next(x).Success? {
      assert (" " + x)[Next(x).value.1 + 1..] == x[Next(x).value.1..];
    }
  }

  /** A run of digits followed by a non-digit is one number token. */
  lemma LexDigits(d: string, rest: string)
    requires |d| > 0 && AllDigits(d)
    requires rest == [] || !IsDigit(rest[0])
    ensures Tokens(d + rest) == Prepend([Token(Number, d)], Tokens(rest))
  {
    var s := d + rest;
    assert s[0] == d[0];
    assert Span(s, Space) == 0;
    assert s[0..] == s;
    SpanPrefix(d, rest, Digit);
    assert s[..|d|] == d && s[|d|..] == rest;
    TokensStep(s);
  }

  /** A run of letters followed by a non-letter is one word token. */
  lemma LexLetters(w: string, rest: string)
    requires |w| > 0 && forall i :: 0 <= i < |w| ==> IsLetter(w[i])
    requires rest == [] || !IsLetter(rest[0])
    ensures Tokens(w + rest) == Prepend([Word(w)], Tokens(rest))
  {
    var s := w + rest;
    assert s[0] == w[0];
    assert Span(s, Space) == 0;
    assert s[0..] == s;
    SpanPrefix(w, rest, Letter);
    assert s[..|w|] == w && s[|w|..] == rest;
    TokensStep(s);
  }

  /** A one-character token character is its own token. */
  lemma LexSingle(c: char, rest: string)
    requires SingleCharKind(c).Some?
    ensures Tokens([c] + rest) == Prepend([Token(SingleCharKind(c).value, [c])], Tokens(rest))
  {
    var s := [c] + rest;
    NextSingleChar(c, rest);
    assert s[1..] == rest;
    TokensStep(s);
  }

  lemma NextSingleChar(c: char, rest: string)
    requires SingleCharKind(c).Some?
    ensures Next([c] + rest) == Success((Token(SingleCharKind(c).value, [c]), 1))
  {
    var s := [c] + rest;
    assert s[0] == c;
    assert Span(s, Space) == 0;
  }

  lemma GenBinary(l: Expr, op: TokenKind, r: Expr)
    requires WellFormed(BinaryExpr(l, op, r))
    ensures Gen(BinaryExpr(l, op, r)) == "(" + Gen(l) + " " + OpToString(op).value + " " + Gen(r) + ")"
  {
  }

  lemma Reassociate(a: string, o: string, b: string, rest: string)
    ensures ("(" + a + " " + o + " " + b + ")") + rest == "(" + (a + (" " + (o + (" " + (b + (")" + rest))))))
  {
  }

  lemma LexParen(a: string, b: string)
    ensures Tokens(['('] + a) == Prepend([Token(LParen, "(")], Tokens(a))
    ensures Tokens([')'] + b) == Prepend([Token(RParen, ")")], Tokens(b))
  {
    assert SingleCharKind('(') == Some(LParen) && SingleCharKind(')') == Some(RParen);
    LexSingle('(', a);
    LexSingle(')', b);
  }

  /** What follows the left operand of a binary node: ` op R)` and then `rest`. */
  lemma LexRightPart(op: TokenKind, r: Expr, rest: string)
    requires IsArithmetic(op) && WellFormed(r)
    requires Tokens(Gen(r) + (")" + rest)) == Prepend(TokensOf(r), Tokens(")" + rest))
    ensures Tokens(" " + (OpToString(op).value + (" " + (Gen(r) + (")" + rest))))) ==
      Prepend([OpToken(op)] + (TokensOf(r) + [Token(RParen, ")")]), Tokens(rest))
  {
    var o := OpToString(op).value;
    OpLexes(op);
    var s5 := Gen(r) + (")" + rest);
    var s4 := " " + s5;
    var s3 := o + s4;
    var rp, ot := Token(RParen, ")"), OpToken(op);
    var tr, tz := TokensOf(r), Tokens(rest);
    assert o == [o[0]];
    calc {
      Tokens(" " + s3);
      { TokensSpace(s3); }
      Tokens([o[0]] + s4);
      { LexSingle(o[0], s4); }
      Prepend([ot], Tokens(" " + s5));
      { TokensSpace(s5); }
      Prepend([ot], Prepend(tr, Tokens([')'] + rest)));
      { LexParen(rest, rest); }
      Prepend([ot], Prepend(tr, Prepend([rp], tz)));
      { PrependPrepend(tr, [rp], tz); PrependPrepend([ot], tr + [rp], tz); }
      Prepend([ot] + (tr + [rp]), tz);
    }
  }

  /** The binary case of `LexGenerated`, given its two operands' cases. */
  lemma LexBinary(l: Expr, op: TokenKind, r: Expr, rest: string)
    requires WellFormed(BinaryExpr(l, op, r))
    requires rest == [] || (!IsLetter(rest[0]) && !IsDigit(rest[0]))
    requires Tokens(Gen(r) + (")" + rest)) == Prepend(TokensOf(r), Tokens(")" + rest))
    requires var s2 := " " + (OpToString(op).value + (" " + (Gen(r) + (")" + rest))));
      Tokens(Gen(l) + s2) == Prepend(TokensOf(l), Tokens(s2))
    ensures Tokens(Gen(BinaryExpr(l, op, r)) + rest) == Prepend(TokensOf(BinaryExpr(l, op, r)), Tokens(rest))
  {
    var o := OpToString(op).value;
    var gl, gr := Gen(l), Gen(r);
    var s2 := " " + (o + (" " + (gr + (")" + rest))));
    var s1 := gl + s2;
    var lp, tail := Token(LParen, "("), [OpToken(op)] + (TokensOf(r) + [Token(RParen, ")")]);
    var tl, tz := TokensOf(l), Tokens(rest);
    LexRightPart(op, r, rest);
    calc {
      Tokens(Gen(BinaryExpr(l, op, r)) + rest);
      { GenBinary(l, op, r); Reassociate(gl, o, gr, rest); }
      Tokens(['('] + s1);
      { LexParen(s1, rest); }
      Prepend([lp], Tokens(s1));
      Prepend([lp], Prepend(tl, Prepend(tail, tz)));
      { PrependPrepend(tl, tail, tz); PrependPrepend([lp], tl + tail, tz); }
      Prepend([lp] + (tl + tail), tz);
      Prepend(TokensOf(BinaryExpr(l, op, r)), tz);
    }
  }

  /**
    The generated text of a parser-produced expression, followed by anything that
    does not continue a word or a number, lexes into `TokensOf(e)` and then the
    tokens of what follows.
  */
  lemma {:induction false} LexGenerated(e: Expr, rest: string)
    requires WellFormed(e)
    requires rest == [] || (!IsLetter(rest[0]) && !IsDigit(rest[0]))
    ensures Tokens(Gen(e) + rest) == Prepend(TokensOf(e), Tokens(rest))
  {
    match e
    case NumberExpr(v) =>
      LexDigits(DecimalText(v), rest);
    case VariableExpr(name) =>
      LexLetters(name, rest);
    case BinaryExpr(l, op, r) =>
      var o := OpToString(op).value;
      var s2 := " " + (o + (" " + (Gen(r) + (")" + rest))));
      LexGenerated(r, ")" + rest);
      LexGenerated(l, s2);
      LexBinary(l, op, r, rest);
  }

  // ---- parsing ----

  /**
    Inside the parentheses of a generated binary node: two operands that each
    parse as a primary, separated by an operator and followed by `)`, parse as
    one binary node whichever precedence level the operator belongs to.
  */
  lemma ParenthesisedBinary(toks: seq<Token>, pos: nat, l: Expr, op: TokenKind, r: Expr, p1: nat, p2: nat)
    requires Valid(toks, pos) && IsArithmetic(op)
    requires Primary(toks, pos) == Success((l, p1))
    requires p1 < |toks| && toks[p1].kind == op
    requires Valid(toks, p1 + 1) && Primary(toks, p1 + 1) == Success((r, p2))
    requires p2 < |toks| && toks[p2].kind == RParen
    ensures Expression(toks, pos) == Success((BinaryExpr(l, op, r), p2))
  {
    if IsMultiplicative(op) {
      ParenthesisedProduct(toks, pos, l, op, r, p1, p2);
    } else {
      ParenthesisedSum(toks, pos, l, op, r, p1, p2);
    }
    ExpressionOfFactor(toks, pos, BinaryExpr(l, op, r), p2);
  }

  lemma ParenthesisedProduct(toks: seq<Token>, pos: nat, l: Expr, op: TokenKind, r: Expr, p1: nat, p2: nat)
    requires Valid(toks, pos) && IsMultiplicative(op)
    requires Primary(toks, pos) == Success((l, p1))
    requires p1 < |toks| && toks[p1].kind == op
    requires Valid(toks, p1 + 1) && Primary(toks, p1 + 1) == Success((r, p2))
    requires p2 < |toks| && toks[p2].kind == RParen
    ensures Factor(toks, pos) == Success((BinaryExpr(l, op, r), p2))
  {
    FactorTailStep(toks, l, p1, r, p2);
    FactorTailEnd(toks, BinaryExpr(l, op, r), p2);
  }

  lemma ParenthesisedSum(toks: seq<Token>, pos: nat, l: Expr, op: TokenKind, r: Expr, p1: nat, p2: nat)
    requires Valid(toks, pos) && IsAdditive(op)
    requires Primary(toks, pos) == Success((l, p1))
    requires p1 < |toks| && toks[p1].kind == op
    requires Valid(toks, p1 + 1) && Primary(toks, p1 + 1) == Success((r, p2))
    requires p2 < |toks| && toks[p2].kind == RParen
    ensures Factor(toks, pos) == Success((l, p1))
    ensures TermTail(toks, l, p1) == Success((BinaryExpr(l, op, r), p2))
  {
    FactorOfPrimary(toks, pos, l, p1);
    FactorOfPrimary(toks, p1 + 1, r, p2);
    SumStep(toks, l, op, r, p1, p2);
  }

  /**
    The tokens of `e` occur in `toks` from `pos` on, stated node by node: a leaf
    is its token, a binary node is `(`, its left operand, its operator, its right
    operand and `)`.
  */
  predicate Occurs(toks: seq<Token>, pos: nat, e: Expr)
    decreases e
  {
    match e
    case NumberExpr(v) => pos < |toks| && toks[pos].kind == Number && ParseInt(toks[pos].text) == Success(v)
    case VariableExpr(name) => pos < |toks| && toks[pos] == Token(Identifier, name)
    case BinaryExpr(l, op, r) =>
      var p1 := pos + 1 + Size(l);
      Layout(toks, pos, p1, p1 + 1 + Size(r), op) && Occurs(toks, pos + 1, l) && Occurs(toks, p1 + 1, r)
  }

  /** `(` at `pos`, the operator at `p1` and `)` at `p2`: the punctuation of a binary node. */
  predicate Layout(toks: seq<Token>, pos: nat, p1: nat, p2: nat, op: TokenKind)
  {
    pos < p1 < p2 < |toks| && toks[pos].kind == LParen && toks[p1].kind == op && toks[p2].kind == RParen
  }

  /** `s` appears in `big` from index `off` on. */
  ghost predicate Embedded<T>(big: seq<T>, off: nat, s: seq<T>)
  {
    off + |s| <= |big| && forall i :: 0 <= i < |s| ==> big[off + i] == s[i]
  }

  /** The five parts of `[a] + b + [c] + d + [e]`, embedded where the whole is. */
  lemma EmbeddedParts<T>(big: seq<T>, off: nat, a: T, b: seq<T>, c: T, d: seq<T>, e: T)
    requires Embedded(big, off, [a] + (b + ([c] + (d + [e]))))
    ensures Embedded(big, off + 1, b) && Embedded(big, off + 2 + |b|, d)
    ensures big[off] == a && big[off + 1 + |b|] == c && big[off + 2 + |b| + |d|] == e
  {
    var s := [a] + (b + ([c] + (d + [e])));
    assert big[off + 0] == s[0];
    assert big[off + (1 + |b|)] == s[1 + |b|];
    assert big[off + (2 + |b| + |d|)] == s[2 + |b| + |d|];
    forall i | 0 <= i < |b|
      ensures big[off + 1 + i] == b[i]
    {
      assert big[off + (1 + i)] == s[1 + i];
    }
    forall i | 0 <= i < |d|
      ensures big[off + 2 + |b| + i] == d[i]
    {
      assert big[off + (2 + |b| + i)] == s[2 + |b| + i];
    }
  }

  /** The tokens of `e`, wherever they are embedded, are an occurrence of `e`. */
  lemma {:induction false} OccursOfTokens(big: seq<Token>, off: nat, e: Expr)
    requires WellFormed(e) && Embedded(big, off, TokensOf(e))
    ensures Occurs(big, off, e)
    decreases e, 1
  {
    match e
    case NumberExpr(v) =>
      OccursNumber(big, off, v);
    case VariableExpr(name) =>
      assert big[off + 0] == TokensOf(e)[0];
    case BinaryExpr(l, op, r) =>
      EmbeddedParts(big, off, Token(LParen, "("), TokensOf(l), OpToken(op), TokensOf(r), Token(RParen, ")"));
      var p1 := off + 1 + Size(l);
      OccursOfBinary(big, off, l, op, r, p1, p1 + 1 + Size(r));
  }

  lemma {:induction false} OccursOfBinary(big: seq<Token>, off: nat, l: Expr, op: TokenKind, r: Expr, p1: nat, p2: nat)
    requires WellFormed(l) && WellFormed(r)
    requires p1 == off + 1 + Size(l) && p2 == p1 + 1 + Size(r) && Layout(big, off, p1, p2, op)
    requires Embedded(big, off + 1, TokensOf(l)) && Embedded(big, p1 + 1, TokensOf(r))
    ensures Occurs(big, off, BinaryExpr(l, op, r))
    decreases BinaryExpr(l, op, r), 0
  {
    OccursOfTokens(big, off + 1, l);
    OccursOfTokens(big, p1 + 1, r);
    OccursBinary(big, off, l, op, r, p1, p2);
  }

  lemma OccursBinary(toks: seq<Token>, pos: nat, l: Expr, op: TokenKind, r: Expr, p1: nat, p2: nat)
    requires p1 == pos + 1 + Size(l) && p2 == p1 + 1 + Size(r) && Layout(toks, pos, p1, p2, op)
    requires Occurs(toks, pos + 1, l) && Occurs(toks, p1 + 1, r)
    ensures Occurs(toks, pos, BinaryExpr(l, op, r))
  {
  }

  lemma OccursNumber(big: seq<Token>, off: nat, v: Int)
    requires v >= 0 && Embedded(big, off, [Token(Number, DecimalText(v))])
    ensures Occurs(big, off, NumberExpr(v))
  {
    assert big[off + 0] == [Token(Number, DecimalText(v))][0];
    ParseDecimalText(v);
  }

  /**
    An occurrence of a parser-produced expression, whatever token follows it,
    parses back as that expression at the primary level: a number, a name, or a
    parenthesised node.
  */
  lemma {:induction false} PrimaryOf(toks: seq<Token>, pos: nat, e: Expr)
    requires WellFormed(e) && Valid(toks, pos) && Occurs(toks, pos, e)
    ensures Primary(toks, pos).Success? && Primary(toks, pos).value.0 == e && Primary(toks, pos).value.1 == pos + Size(e)
    decreases e, 1
  {
    match e
    case NumberExpr(v) =>
      PrimaryNumber(toks, pos, v);
    case VariableExpr(name) =>
      PrimaryVariable(toks, pos, name);
    case BinaryExpr(l, op, r) =>
      var p1 := pos + 1 + Size(l);
      PrimaryOfBinary(toks, pos, l, op, r, p1, p1 + 1 + Size(r));
  }

  lemma {:induction false} PrimaryOfBinary(toks: seq<Token>, pos: nat, l: Expr, op: TokenKind, r: Expr, p1: nat, p2: nat)
    requires WellFormed(l) && WellFormed(r) && IsArithmetic(op)
    requires p1 == pos + 1 + Size(l) && p2 == p1 + 1 + Size(r) && Layout(toks, pos, p1, p2, op)
    requires Occurs(toks, pos + 1, l) && Occurs(toks, p1 + 1, r)
    ensures Primary(toks, pos) == Success((BinaryExpr(l, op, r), p2 + 1))
    decreases BinaryExpr(l, op, r), 0
  {
    PrimaryOf(toks, pos + 1, l);
    PrimaryOf(toks, p1 + 1, r);
    PrimaryBinary(toks, pos, l, op, r, p1, p2);
  }

  /** The binary case of `PrimaryOf`, given where its parts sit and what its operands parse as. */
  lemma PrimaryBinary(toks: seq<Token>, pos: nat, l: Expr, op: TokenKind, r: Expr, p1: nat, p2: nat)
    requires Valid(toks, pos) && IsArithmetic(op) && pos < p1 < p2 < |toks|
    requires toks[pos].kind == LParen && toks[p1].kind == op && toks[p2].kind == RParen
    requires Primary(toks, pos + 1).Success? && Primary(toks, pos + 1).value.0 == l && Primary(toks, pos + 1).value.1 == p1
    requires Primary(toks, p1 + 1).Success? && Primary(toks, p1 + 1).value.0 == r && Primary(toks, p1 + 1).value.1 == p2
    ensures Primary(toks, pos) == Success((BinaryExpr(l, op, r), p2 + 1))
  {
    assert Primary(toks, pos + 1) == Success((l, p1));
    assert Primary(toks, p1 + 1) == Success((r, p2));
    ParenthesisedBinary(toks, pos + 1, l, op, r, p1, p2);
    PrimaryParen(toks, pos, BinaryExpr(l, op, r), p2);
  }

  lemma PrimaryVariable(toks: seq<Token>, pos: nat, name: string)
    requires Valid(toks, pos) && pos < |toks| && toks[pos] == Token(Identifier, name)
    ensures Primary(toks, pos) == Success((VariableExpr(name), pos + 1))
  {
    assert Eat(toks, pos, Identifier) == Success((toks[pos], (pos + 1) as nat));
  }

  lemma PrimaryNumber(toks: seq<Token>, pos: nat, v: Int)
    requires Valid(toks, pos) && pos < |toks| && toks[pos].kind == Number && ParseInt(toks[pos].text) == Success(v)
    ensures Primary(toks, pos) == Success((NumberExpr(v), pos + 1))
  {
    assert Eat(toks, pos, Number) == Success((toks[pos], (pos + 1) as nat));
  }

  lemma PrimaryParen(toks: seq<Token>, pos: nat, inner: Expr, close: nat)
    requires Valid(toks, pos) && pos < |toks| && toks[pos].kind == LParen
    requires Valid(toks, pos + 1) && Expression(toks, pos + 1) == Success((inner, close))
    requires close < |toks| && toks[close].kind == RParen
    ensures Primary(toks, pos) == Success((inner, close + 1))
  {
    assert Eat(toks, pos, LParen) == Success((toks[pos], (pos + 1) as nat));
    assert Eat(toks, close, RParen) == Success((toks[close], (close + 1) as nat));
  }

  /** The tokens of an expression followed by a token that is not an operator parse as that expression. */
  lemma ExpressionOf(toks: seq<Token>, pos: nat, e: Expr)
    requires WellFormed(e) && Valid(toks, pos)
    requires Occurs(toks, pos, e) && pos + Size(e) < |toks|
    requires !IsArithmetic(toks[pos + Size(e)].kind)
    ensures Expression(toks, pos) == Success((e, pos + Size(e)))
  {
    PrimaryOf(toks, pos, e);
    ExpressionOfPrimary(toks, pos, e, pos + Size(e));
  }

  /** A primary followed by a token that is no operator is a whole expression. */
  lemma ExpressionOfPrimary(toks: seq<Token>, pos: nat, e: Expr, end: nat)
    requires Valid(toks, pos) && end < |toks| && !IsArithmetic(toks[end].kind)
    requires Primary(toks, pos).Success? && Primary(toks, pos).value.0 == e && Primary(toks, pos).value.1 == end
    ensures Expression(toks, pos) == Success((e, end))
  {
    assert Primary(toks, pos) == Success((e, end));
    FactorOfPrimary(toks, pos, e, end);
    ExpressionOfFactor(toks, pos, e, end);
  }

  /**
    Round trip: lexing the generated text of any expression the parser can
    produce gives its tokens and EOF, and parsing an expression from them gives
    the expression back and stops at EOF.
  */
  lemma ExpressionRoundTrip(e: Expr)
    requires WellFormed(e)
    ensures Tokens(Gen(e)) == Success(TokensOf(e) + [Token(EOF, "")])
    ensures Expression(TokensOf(e) + [Token(EOF, "")], 0) == Success((e, Size(e)))
  {
    LexAlone(e);
    ParseAlone(e);
  }

  lemma ParseAlone(e: Expr)
    requires WellFormed(e)
    ensures Expression(TokensOf(e) + [Token(EOF, "")], 0) == Success((e, Size(e)))
  {
    var ts := TokensOf(e);
    var toks := ts + [Token(EOF, "")];
    assert Embedded(toks, 0, ts) by {
      forall i | 0 <= i < |ts|
        ensures toks[0 + i] == ts[i]
      {
      }
    }
    OccursOfTokens(toks, 0, e);
    assert toks[|ts|].kind == EOF;
    ExpressionOf(toks, 0, e);
  }

  lemma LexAlone(e: Expr)
    requires WellFormed(e)
    ensures Tokens(Gen(e)) == Success(TokensOf(e) + [Token(EOF, "")])
  {
    LexGenerated(e, "");
    assert Gen(e) + "" == Gen(e);
    assert Tokens("") == Success([Token(EOF, "")]);
  }

  // ---- statements ----

  /** The tokens of a top-level statement: `print` and its expression, or the name, `=` and its expression. */
  function StmtTokens(s: Stmt): (ts: seq<Token>)
    requires WellFormedStmt(s)
    ensures 0 < |ts| && (ts[0].kind == Print || ts[0].kind == Identifier)
  {
    if s.PrintStmt? then [Token(Print, "print")] + TokensOf(s.expr)
    else [Token(Identifier, s.name), Token(Equal, "=")] + TokensOf(s.value)
  }

  /** Every statement of `ss` is one the parser can produce. */
  predicate AllWellFormed(ss: seq<Stmt>)
    decreases |ss|
  {
    ss == [] || (WellFormedStmt(ss[0]) && AllWellFormed(ss[1..]))
  }

  /** `AllWellFormed` is "each statement is well formed", index by index. */
  lemma {:induction false} AllWellFormedEach(ss: seq<Stmt>)
    ensures AllWellFormed(ss) <==> forall i :: 0 <= i < |ss| ==> WellFormedStmt(ss[i])
    decreases |ss|
  {
    if ss != [] {
      AllWellFormedEach(ss[1..]);
      assert forall i :: 1 <= i < |ss| ==> ss[i] == ss[1..][i - 1];
    }
  }

  /** The tokens of a program: the statements' tokens one after the other, with no separator. */
  function ProgramTokens(ss: seq<Stmt>): seq<Token>
    requires AllWellFormed(ss)
    decreases |ss|
  {
    if ss == [] then [] else StmtTokens(ss[0]) + ProgramTokens(ss[1..])
  }

  /** Both halves of an embedded concatenation are embedded, one after the other. */
  lemma EmbeddedConcat<T>(big: seq<T>, off: nat, a: seq<T>, b: seq<T>)
    requires Embedded(big, off, a + b)
    ensures Embedded(big, off, a) && Embedded(big, off + |a|, b)
  {
    forall i | 0 <= i < |a|
      ensures big[off + i] == a[i]
    {
      assert (a + b)[i] == a[i];
    }
    forall i | 0 <= i < |b|
      ensures big[off + |a| + i] == b[i]
    {
      assert big[off + (|a| + i)] == (a + b)[|a| + i];
    }
  }

  /** The number of tokens of a statement. */
  function StmtSize(s: Stmt): nat
    requires WellFormedStmt(s)
  {
    if s.PrintStmt? then 1 + Size(s.expr) else 2 + Size(s.value)
  }

  /** Token by token, a statement's tokens sit at `pos`: its keyword or name and `=`, then its expression. */
  predicate StmtAt(toks: seq<Token>, pos: nat, s: Stmt)
    requires WellFormedStmt(s)
  {
    if s.PrintStmt? then pos < |toks| && toks[pos].kind == Print && Occurs(toks, pos + 1, s.expr)
    else pos + 1 < |toks| && toks[pos] == Token(Identifier, s.name) && toks[pos + 1].kind == Equal && Occurs(toks, pos + 2, s.value)
  }

  /** From `pos` on, the statements of `ss` sit one after the other, then EOF. */
  predicate ProgramAt(toks: seq<Token>, pos: nat, ss: seq<Stmt>)
    decreases |ss|
  {
    if ss == [] then pos < |toks| && toks[pos].kind == EOF
    else WellFormedStmt(ss[0]) && StmtAt(toks, pos, ss[0]) && ProgramAt(toks, pos + StmtSize(ss[0]), ss[1..])
  }

  /** A statement's tokens, wherever they are embedded, are an occurrence of the statement. */
  lemma StmtAtOfTokens(toks: seq<Token>, pos: nat, s: Stmt)
    requires WellFormedStmt(s) && Embedded(toks, pos, StmtTokens(s))
    ensures StmtAt(toks, pos, s) && |StmtTokens(s)| == StmtSize(s)
  {
    match s
    case PrintStmt(e) =>
      var head := [Token(Print, "print")];
      EmbeddedConcat(toks, pos, head, TokensOf(e));
      assert toks[pos + 0] == head[0];
      OccursOfTokens(toks, pos + 1, e);
    case AssignStmt(name, e) =>
      var head := [Token(Identifier, name), Token(Equal, "=")];
      EmbeddedConcat(toks, pos, head, TokensOf(e));
      assert toks[pos + 0] == head[0] && toks[pos + 1] == head[1];
      OccursOfTokens(toks, pos + 2, e);
  }

  /** Index `i` of `t` is index `|p| + i` of `p + t`. */
  lemma ShiftIndex<T>(p: seq<T>, t: seq<T>, i: nat)
    requires i < |t|
    ensures |p| + i < |p + t| && (p + t)[|p| + i] == t[i]
  {
  }

  /** An occurrence of an expression is still one after tokens are put in front of it. */
  lemma {:induction false} OccursShift(p: seq<Token>, t: seq<Token>, pos: nat, e: Expr)
    requires Occurs(t, pos, e)
    ensures Occurs(p + t, |p| + pos, e)
    decreases e, 1
  {
    if e.BinaryExpr? {
      OccursShiftBinary(p, t, pos, e.left, e.op, e.right);
    } else {
      ShiftIndex(p, t, pos);
    }
  }

  lemma {:induction false} OccursShiftBinary(p: seq<Token>, t: seq<Token>, pos: nat, l: Expr, op: TokenKind, r: Expr)
    requires Occurs(t, pos, BinaryExpr(l, op, r))
    ensures Occurs(p + t, |p| + pos, BinaryExpr(l, op, r))
    decreases BinaryExpr(l, op, r), 0
  {
    var p1 := pos + 1 + Size(l);
    var p2 := p1 + 1 + Size(r);
    ShiftIndex(p, t, pos);
    ShiftIndex(p, t, p1);
    ShiftIndex(p, t, p2);
    OccursShift(p, t, pos + 1, l);
    OccursShift(p, t, p1 + 1, r);
  }

  /** A statement sitting at `pos` still sits there, moved along, after tokens are put in front of it. */
  lemma StmtAtShift(p: seq<Token>, t: seq<Token>, pos: nat, s: Stmt)
    requires WellFormedStmt(s) && StmtAt(t, pos, s)
    ensures StmtAt(p + t, |p| + pos, s)
  {
    ShiftIndex(p, t, pos);
    if s.PrintStmt? {
      OccursShift(p, t, pos + 1, s.expr);
    } else {
      ShiftIndex(p, t, pos + 1);
      OccursShift(p, t, pos + 2, s.value);
    }
  }

  /** A laid-out program is still laid out after tokens are put in front of it. */
  lemma {:induction false} ProgramAtShift(p: seq<Token>, t: seq<Token>, pos: nat, ss: seq<Stmt>)
    requires ProgramAt(t, pos, ss)
    ensures ProgramAt(p + t, |p| + pos, ss)
    decreases |ss|
  {
    if ss == [] {
      ShiftIndex(p, t, pos);
    } else {
      StmtAtShift(p, t, pos, ss[0]);
      ProgramAtShift(p, t, pos + StmtSize(ss[0]), ss[1..]);
    }
  }

  /** Where a program is laid out, the first token is `print`, an identifier or EOF: never an operator. */
  lemma ProgramAtStart(toks: seq<Token>, pos: nat, ss: seq<Stmt>)
    requires ProgramAt(toks, pos, ss)
    ensures pos < |toks| && !IsArithmetic(toks[pos].kind)
    ensures ss != [] <==> toks[pos].kind != EOF
  {
  }

  /** A statement that sits at `pos`, followed by a token that is no operator, parses back to the statement. */
  lemma StatementOf(toks: seq<Token>, pos: nat, s: Stmt)
    requires WellFormedStmt(s) && Valid(toks, pos) && StmtAt(toks, pos, s)
    requires pos + StmtSize(s) < |toks| && !IsArithmetic(toks[pos + StmtSize(s)].kind)
    ensures Statement(toks, pos) == Success((s, pos + StmtSize(s)))
  {
    if s.PrintStmt? {
      ExpressionOf(toks, pos + 1, s.expr);
    } else {
      ExpressionOf(toks, pos + 2, s.value);
    }
    StatementCases(toks, pos);
  }

  /** A laid-out program is read back statement by statement. */
  lemma {:induction false} StatementsOf(toks: seq<Token>, pos: nat, ss: seq<Stmt>)
    requires ProgramAt(toks, pos, ss)
    ensures Valid(toks, pos) && Statements(toks, pos) == Success(ss)
    decreases |ss|
  {
    ProgramAtStart(toks, pos, ss);
    if ss != [] {
      var first, rest := ss[0], ss[1..];
      var next := pos + StmtSize(first);
      ProgramAtStart(toks, next, rest);
      StatementOf(toks, pos, first);
      StatementsOf(toks, next, rest);
      StatementsStep(toks, pos, first, next, rest);
      assert ss == [first] + rest;
    }
  }

  /** One round of the statement loop of `Parse`. */
  lemma StatementsStep(toks: seq<Token>, pos: nat, s: Stmt, next: nat, rest: seq<Stmt>)
    requires Valid(toks, pos) && Current(toks, pos).kind != EOF
    requires Statement(toks, pos) == Success((s, next))
    requires Valid(toks, next) && Statements(toks, next) == Success(rest)
    ensures Statements(toks, pos) == Success([s] + rest)
  {
  }

  /**
    Round trip at the statement level: the tokens of well-formed statements,
    written one after the other and followed by EOF, parse to exactly those
    statements in that order.
  */
  lemma ParseRoundTrip(ss: seq<Stmt>)
    requires AllWellFormed(ss)
    ensures Parse(ProgramTokens(ss) + [Token(EOF, "")]) == Success(BlockStmt(ss))
  {
    ProgramLaidOut(ss);
    StatementsOf(ProgramTokens(ss) + [Token(EOF, "")], 0, ss);
  }

  /** A program's tokens followed by EOF are laid out statement by statement from the start. */
  lemma {:induction false} ProgramLaidOut(ss: seq<Stmt>)
    requires AllWellFormed(ss)
    ensures ProgramAt(ProgramTokens(ss) + [Token(EOF, "")], 0, ss)
    decreases |ss|
  {
    if ss != [] {
      var ts, t := StmtTokens(ss[0]), ProgramTokens(ss[1..]) + [Token(EOF, "")];
      ProgramLaidOut(ss[1..]);
      ProgramAtShift(ts, t, 0, ss[1..]);
      assert StmtAt(ts + t, 0, ss[0]) && |ts| == StmtSize(ss[0]) by {
        assert Embedded(ts + t, 0, ts);
        StmtAtOfTokens(ts + t, 0, ss[0]);
      }
      assert ProgramTokens(ss) + [Token(EOF, "")] == ts + t;
    }
  }
}
