/** Token kinds and tokens, as declared at the top of Lexer.cs. */
module TokenTypes {

  /** The eleven token kinds. There is no string-literal kind. */
  datatype TokenKind =
    | Identifier
    | Number
    | Plus
    | Minus
    | Star
    | Slash
    | Equal
    | LParen
    | RParen
    | Print
    | EOF

  /** A token is its kind and the text it was read from; it carries no position. */
  datatype Token = Token(kind: TokenKind, text: string)

  /** The four kinds that a binary node may carry and that the back ends handle. */
  predicate IsArithmetic(k: TokenKind)
  {
    k == Plus || k == Minus || k == Star || k == Slash
  }

  /** The two kinds combined by the lower precedence level (`ParseTerm`, `ParseTermTail`). */
  predicate IsAdditive(k: TokenKind)
  {
    k == Plus || k == Minus
  }

  /** The two kinds combined by the higher precedence level (`ParseFactor`). */
  predicate IsMultiplicative(k: TokenKind)
  {
    k == Star || k == Slash
  }
}
