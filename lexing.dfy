/**
  The lexer of Lexer.cs: a cursor over the input text that yields one token per
  `NextToken` call. `Next` and `Tokens` are the pure specification; the class
  `Lexer` is the cursor, proved against them.
*/
module Lexing {
  import opened Chars
  import opened TokenTypes
  import opened Errors
  import opened CSharpInt
  import opened Ast

  datatype CharClass = Space | Letter | Digit

  predicate InClass(c: char, k: CharClass)
  {
    match k
    case Space => IsWhiteSpace(c)
    case Letter => IsLetter(c)
    case Digit => IsDigit(c)
  }

  /** The length of the longest prefix of `s` made only of characters of class `k`. */
  function Span(s: string, k: CharClass): (n: nat)
    ensures n <= |s|
  {
    if |s| > 0 && InClass(s[0], k) then 1 + Span(s[1..], k) else 0
  }

  /** `Span` is the longest such prefix: every character before it is in the class, the next is not. */
  lemma {:induction false} SpanMaximal(s: string, k: CharClass)
    ensures forall i :: 0 <= i < Span(s, k) ==> InClass(s[i], k)
    ensures Span(s, k) == |s| || !InClass(s[Span(s, k)], k)
  {
    if |s| > 0 && InClass(s[0], k) {
      SpanMaximal(s[1..], k);
      assert forall i :: 1 <= i < Span(s, k) ==> s[i] == s[1..][i - 1];
    }
  }

  /** A run of class `k` followed by a character outside `k` spans exactly the run. */
  lemma {:induction false} SpanPrefix(a: string, b: string, k: CharClass)
    requires forall i :: 0 <= i < |a| ==> InClass(a[i], k)
    requires b == [] || !InClass(b[0], k)
    ensures Span(a + b, k) == |a|
  {
    if a != [] {
      assert (a + b)[1..] == a[1..] + b;
      SpanPrefix(a[1..], b, k);
    } else {
      assert a + b == b;
    }
  }

  /** The kind of each one-character token `+ - * / = ( )`. */
  function SingleCharKind(c: char): Option<TokenKind>
  {
    match c
    case '+' => Some(Plus)
    case '-' => Some(Minus)
    case '*' => Some(Star)
    case '/' => Some(Slash)
    case '=' => Some(Equal)
    case '(' => Some(LParen)
    case ')' => Some(RParen)
    case _ => None
  }

  /** A character that can begin a token. */
  predicate StartsToken(c: char)
  {
    IsLetter(c) || IsDigit(c) || SingleCharKind(c).Some?
  }

  /** The token a run of letters makes: `Print` for exactly `print`, else an identifier. */
  function Word(id: string): Token
  {
    Token(if id == "print" then Print else Identifier, id)
  }

  /**
    One `NextToken` call on the unread text `s`: the token, and how many characters
    it consumed (the skipped whitespace and the token's text).
  */
  function Next(s: string): (r: Result<(Token, nat)>)
    // whitespace is skipped and the token's text follows it directly
    ensures r.Success? ==>
      var (t, n) := r.value;
      && n <= |s|
      && n == Span(s, Space) + |t.text|
      && t.text == s[Span(s, Space)..n]
    // EOF exactly when only whitespace is left; it has empty text and reads to the end
    ensures r.Success? ==> (r.value.0.kind == EOF <==> Span(s, Space) == |s|)
    ensures r.Success? && r.value.0.kind == EOF ==> r.value == (Token(EOF, ""), |s|)
    // any other character fails
    ensures r.Failure? <==> Span(s, Space) < |s| && !StartsToken(s[Span(s, Space)])
    ensures r.Failure? ==> r.error == UnexpectedCharacter(s[Span(s, Space)])
  {
    var k := Span(s, Space);
    if k == |s| then Success((Token(EOF, ""), k))
    else
      var c := s[k];
      if IsLetter(c) then
        var n := Span(s[k..], Letter);
        Success((Word(s[k..k + n]), k + n))
      else if IsDigit(c) then
        var n := Span(s[k..], Digit);
        Success((Token(Number, s[k..k + n]), k + n))
      else
        match SingleCharKind(c)
        case Some(kind) => Success((Token(kind, [c]), k + 1))
        case None => Failure(UnexpectedCharacter(c))
  }

  /** A token other than EOF is non-empty and contains no whitespace. */
  lemma NextTokenText(s: string)
    requires Next(s).Success? && Next(s).value.0.kind != EOF
    ensures var t := Next(s).value.0;
      |t.text| > 0 && forall i :: 0 <= i < |t.text| ==> !IsWhiteSpace(t.text[i])
  {
    var k := Span(s, Space);
    var c := s[k];
    if IsLetter(c) {
      SpanMaximal(s[k..], Letter);
      assert s[k..][..Span(s[k..], Letter)] == s[k..k + Span(s[k..], Letter)];
    } else if IsDigit(c) {
      SpanMaximal(s[k..], Digit);
      assert s[k..][..Span(s[k..], Digit)] == s[k..k + Span(s[k..], Digit)];
    }
  }

  /** A run of letters is read whole; it is `Print` exactly when it spells `print`. */
  lemma NextWord(s: string)
    requires Next(s).Success? && Next(s).value.0.kind in {Identifier, Print}
    ensures var (t, n) := Next(s).value;
      && |t.text| > 0
      && (forall i :: 0 <= i < |t.text| ==> IsLetter(t.text[i]))
      && (n == |s| || !IsLetter(s[n]))
      && (t.kind == Print <==> t.text == "print")
  {
    var k := Span(s, Space);
    var m := Span(s[k..], Letter);
    SpanMaximal(s[k..], Letter);
    assert s[k..][..m] == s[k..k + m];
    assert k + m == |s| || s[k + m] == s[k..][m];
  }

  /** A run of digits is read whole as one unsigned number token. */
  lemma NextNumber(s: string)
    requires Next(s).Success? && Next(s).value.0.kind == Number
    ensures var (t, n) := Next(s).value;
      && |t.text| > 0
      && AllDigits(t.text)
      && (n == |s| || !IsDigit(s[n]))
  {
    var k := Span(s, Space);
    var m := Span(s[k..], Digit);
    SpanMaximal(s[k..], Digit);
    assert s[k..][..m] == s[k..k + m];
    assert k + m == |s| || s[k + m] == s[k..][m];
  }

  /** Each of `+ - * / = ( )` is its own one-character token. */
  lemma NextSingle(s: string)
    requires Next(s).Success? && Next(s).value.0.kind in {Plus, Minus, Star, Slash, Equal, LParen, RParen}
    ensures var t := Next(s).value.0;
      |t.text| == 1 && SingleCharKind(t.text[0]) == Some(t.kind)
  {
  }

  /** The tokens of a successful lex: identifiers are names, numbers are digit runs. */
  predicate WellFormedTokens(ts: seq<Token>)
  {
    && (forall i :: 0 <= i < |ts| && ts[i].kind == Identifier ==> IsIdentifierName(ts[i].text))
    && (forall i :: 0 <= i < |ts| && ts[i].kind == Number ==> |ts[i].text| > 0 && AllDigits(ts[i].text))
  }

  /**
    The whole token list the session collects by calling `NextToken` until it
    returns `EOF`; it always ends with the EOF token.
  */
  function Tokens(s: string): (r: Result<seq<Token>>)
    ensures r.Success? ==> |r.value| > 0 && r.value[|r.value| - 1] == Token(EOF, "")
    decreases |s|
  {
    var step :- Next(s);
    if step.0.kind == EOF then Success([step.0])
    else
      var rest :- Tokens(s[step.1..]);
      Success([step.0] + rest)
  }

  /** EOF comes last and only last, and every token is well formed. */
  lemma {:induction false} TokensShape(s: string)
    requires Tokens(s).Success?
    ensures forall i :: 0 <= i < |Tokens(s).value| - 1 ==> Tokens(s).value[i].kind != EOF
    ensures WellFormedTokens(Tokens(s).value)
    decreases |s|
  {
    var (t, n) := Next(s).value;
    TokensStep(s);
    if t.kind != EOF {
      NextTokenText(s);
      TokensShape(s[n..]);
      NextWellFormed(s);
      var ts := Tokens(s).value;
      assert ts == [t] + Tokens(s[n..]).value;
      assert forall i :: 1 <= i < |ts| ==> ts[i] == Tokens(s[n..]).value[i - 1];
    }
  }

  /** A single token from `Next` is well formed. */
  lemma NextWellFormed(s: string)
    requires Next(s).Success?
    ensures WellFormedTokens([Next(s).value.0])
  {
    var t := Next(s).value.0;
    if t.kind == Identifier {
      NextWord(s);
    } else if t.kind == Number {
      NextNumber(s);
    }
  }

  /** The texts of `ts`, concatenated. */
  function Texts(ts: seq<Token>): string
  {
    if ts == [] then "" else ts[0].text + Texts(ts[1..])
  }

  /** `s` with every whitespace character removed. */
  function NonSpace(s: string): string
  {
    if s == [] then "" else (if IsWhiteSpace(s[0]) then "" else [s[0]]) + NonSpace(s[1..])
  }

  lemma {:induction false} NonSpaceConcat(a: string, b: string)
    ensures NonSpace(a + b) == NonSpace(a) + NonSpace(b)
  {
    if a == [] {
      assert a + b == b;
    } else {
      assert (a + b)[1..] == a[1..] + b;
      NonSpaceConcat(a[1..], b);
    }
  }

  lemma {:induction false} NonSpaceOfSpace(s: string)
    requires forall i :: 0 <= i < |s| ==> IsWhiteSpace(s[i])
    ensures NonSpace(s) == ""
  {
    if s != [] {
      NonSpaceOfSpace(s[1..]);
    }
  }

  lemma {:induction false} NonSpaceOfWord(s: string)
    requires forall i :: 0 <= i < |s| ==> !IsWhiteSpace(s[i])
    ensures NonSpace(s) == s
  {
    if s != [] {
      NonSpaceOfWord(s[1..]);
    }
  }

  /** One token accounts for the non-whitespace characters it consumed. */
  lemma NextNonSpace(s: string)
    requires Next(s).Success?
    ensures NonSpace(s) == Next(s).value.0.text + NonSpace(s[Next(s).value.1..])
  {
    var (t, n) := Next(s).value;
    var k := Span(s, Space);
    SplitThree(s, k, n);
    NonSpaceThree(s[..k], s[k..n], s[n..]);
    LeadingSpace(s);
    TokenNonSpace(s);
    assert "" + t.text == t.text;
  }

  lemma SplitThree<T>(s: seq<T>, k: nat, n: nat)
    requires k <= n <= |s|
    ensures s == s[..k] + s[k..n] + s[n..]
  {
  }

  lemma NonSpaceThree(a: string, b: string, c: string)
    ensures NonSpace(a + b + c) == NonSpace(a) + NonSpace(b) + NonSpace(c)
  {
    NonSpaceConcat(a + b, c);
    NonSpaceConcat(a, b);
  }

  /** The whitespace `Next` skips contributes nothing. */
  lemma LeadingSpace(s: string)
    ensures NonSpace(s[..Span(s, Space)]) == ""
  {
    SpanMaximal(s, Space);
    NonSpaceOfSpace(s[..Span(s, Space)]);
  }

  /** The text of a token has no whitespace to drop. */
  lemma TokenNonSpace(s: string)
    requires Next(s).Success?
    ensures NonSpace(Next(s).value.0.text) == Next(s).value.0.text
  {
    if Next(s).value.0.kind != EOF {
      NextTokenText(s);
    }
    NonSpaceOfWord(Next(s).value.0.text);
  }

  /**
    Lexing loses nothing but whitespace: the texts of the tokens, in order, spell
    the input with its whitespace removed.
  */
  lemma {:induction false} TokensText(s: string)
    requires Tokens(s).Success?
    ensures Texts(Tokens(s).value) == NonSpace(s)
    decreases |s|
  {
    var (t, n) := Next(s).value;
    NextNonSpace(s);
    TokensStep(s);
    if t.kind == EOF {
      assert s[n..] == [];
    } else {
      NextTokenText(s);
      TokensText(s[n..]);
      var ts := Tokens(s).value;
      assert ts[1..] == Tokens(s[n..]).value;
    }
  }

  /** `Tokens` unfolded once: the first token, then the tokens of the rest. */
  lemma TokensStep(s: string)
    ensures Next(s).Failure? ==> Tokens(s) == Failure(Next(s).error)
    ensures Next(s).Success? && Next(s).value.0.kind == EOF ==> Tokens(s) == Success([Next(s).value.0])
    ensures Next(s).Success? && Next(s).value.0.kind != EOF ==>
      Tokens(s) == Prepend([Next(s).value.0], Tokens(s[Next(s).value.1..]))
  {
  }

  /**
    What `Next` does once the whitespace before `pos` has been skipped: it reads
    the token that starts at `pos`. One lemma per kind of first character.
  */
  lemma NextAfterSpace(text: string, start: nat, pos: nat)
    requires start <= pos < |text| && !IsWhiteSpace(text[pos])
    requires Span(text[start..], Space) == pos - start + Span(text[pos..], Space)
    ensures Span(text[start..], Space) == pos - start
    ensures text[start..][pos - start..] == text[pos..]
  {
    assert text[pos..][0] == text[pos];
  }

  /** Two sequences that agree from `k` and from `p` on agree on the next `m` elements. */
  lemma SliceShift<T>(s: seq<T>, t: seq<T>, k: nat, p: nat, m: nat)
    requires k + m <= |s| && p <= |t| && s[k..] == t[p..]
    ensures s[k..k + m] == t[p..p + m]
  {
    assert s[k..k + m] == s[k..][..m];
    assert t[p..p + m] == t[p..][..m];
  }

  lemma NextLetterAt(text: string, start: nat, pos: nat, end: nat)
    requires start <= pos < |text| && IsLetter(text[pos]) && end == pos + Span(text[pos..], Letter)
    requires Span(text[start..], Space) == pos - start && text[start..][pos - start..] == text[pos..]
    ensures Next(text[start..]) == Success((Word(text[pos..end]), end - start))
  {
    var s, k, m := text[start..], pos - start, Span(text[pos..], Letter);
    assert s[k] == text[pos];
    SliceShift(s, text, k, pos, m);
  }

  lemma NextDigitAt(text: string, start: nat, pos: nat, end: nat)
    requires start <= pos < |text| && IsDigit(text[pos]) && end == pos + Span(text[pos..], Digit)
    requires Span(text[start..], Space) == pos - start && text[start..][pos - start..] == text[pos..]
    ensures Next(text[start..]) == Success((Token(Number, text[pos..end]), end - start))
  {
    var s, k, m := text[start..], pos - start, Span(text[pos..], Digit);
    assert s[k] == text[pos];
    SliceShift(s, text, k, pos, m);
  }

  lemma NextOtherAt(text: string, start: nat, pos: nat)
    requires start <= pos < |text| && !IsLetter(text[pos]) && !IsDigit(text[pos])
    requires Span(text[start..], Space) == pos - start && text[start..][pos - start..] == text[pos..]
    ensures Next(text[start..]) == match SingleCharKind(text[pos])
      case Some(kind) => Success((Token(kind, [text[pos]]), pos - start + 1))
      case None => Failure(UnexpectedCharacter(text[pos]))
  {
    var s, k := text[start..], pos - start;
    assert s[k] == text[pos];
  }

  /** The cursor of Lexer.cs: the text it reads and the position `_pos`. */
  class Lexer {
    const text: string
    var pos: nat

    ghost predicate Valid()
      reads this
    {
      pos <= |text|
    }

    constructor(text: string)
      ensures Valid() && this.text == text && pos == 0
    {
      this.text := text;
      pos := 0;
    }

    /**
      Skips whitespace and reads one token. At the end of the text it returns EOF
      and no longer moves; on a bad character the cursor has passed that character.
    */
    method NextToken() returns (r: Result<Token>)
      requires Valid()
      modifies this
      ensures Valid() && old(pos) <= pos
      ensures Next(text[old(pos)..]).Success? ==>
        r == Success(Next(text[old(pos)..]).value.0) && pos == old(pos) + Next(text[old(pos)..]).value.1
      ensures Next(text[old(pos)..]).Failure? ==>
        r == Failure(Next(text[old(pos)..]).error) && pos == old(pos) + Span(text[old(pos)..], Space) + 1
    {
      ghost var start := pos;
      while pos < |text|
        invariant start <= pos <= |text|
        invariant Span(text[start..], Space) == (pos - start) + Span(text[pos..], Space)
      {
        var c := text[pos];
        if IsWhiteSpace(c) {
          assert text[pos..][0] == c && text[pos..][1..] == text[pos + 1..];
          assert Span(text[pos..], Space) == 1 + Span(text[pos + 1..], Space);
          pos := pos + 1;
          continue;
        }
        NextAfterSpace(text, start, pos);
        ghost var at := pos;
        if IsLetter(c) {
          r := ReadIdentifier();
          NextLetterAt(text, start, at, pos);
          return;
        }
        if IsDigit(c) {
          r := ReadNumber();
          NextDigitAt(text, start, at, pos);
          return;
        }
        NextOtherAt(text, start, pos);
        pos := pos + 1;
        match SingleCharKind(c) {
          case Some(kind) => r := Success(Token(kind, [c]));
          case None => r := Failure(UnexpectedCharacter(c));
        }
        return;
      }
      r := Success(Token(EOF, ""));
    }

    /** Reads a maximal run of letters; the run `print` is the keyword. */
    method ReadIdentifier() returns (r: Result<Token>)
      requires Valid() && pos < |text| && IsLetter(text[pos])
      modifies this
      ensures Valid()
      ensures pos == old(pos) + Span(text[old(pos)..], Letter)
      ensures r == Success(Word(text[old(pos)..pos]))
    {
      var start := pos;
      while pos < |text| && IsLetter(text[pos])
        invariant start <= pos <= |text|
        invariant Span(text[start..], Letter) == (pos - start) + Span(text[pos..], Letter)
      {
        assert text[pos..][0] == text[pos] && text[pos..][1..] == text[pos + 1..];
        pos := pos + 1;
      }
      var id := text[start..pos];
      r := Success(if id == "print" then Token(Print, id) else Token(Identifier, id));
    }

    /** Reads a maximal run of digits as one number token. */
    method ReadNumber() returns (r: Result<Token>)
      requires Valid() && pos < |text| && IsDigit(text[pos])
      modifies this
      ensures Valid()
      ensures pos == old(pos) + Span(text[old(pos)..], Digit)
      ensures r == Success(Token(Number, text[old(pos)..pos]))
    {
      var start := pos;
      while pos < |text| && IsDigit(text[pos])
        invariant start <= pos <= |text|
        invariant Span(text[start..], Digit) == (pos - start) + Span(text[pos..], Digit)
      {
        assert text[pos..][0] == text[pos] && text[pos..][1..] == text[pos + 1..];
        pos := pos + 1;
      }
      r := Success(Token(Number, text[start..pos]));
    }
  }

  /** How the token loop ends, given the tokens collected before the unread `rest`. */
  lemma TokenizeEnd(rest: string, tokens: seq<Token>)
    ensures Next(rest).Failure? ==> Prepend(tokens, Tokens(rest)) == Failure(Next(rest).error)
    ensures Next(rest).Success? && Next(rest).value.0.kind == EOF ==>
      Prepend(tokens, Tokens(rest)) == Success(tokens + [Next(rest).value.0])
  {
    TokensStep(rest);
  }

  /** One more round of the token loop: the token is kept and the cursor moves past it. */
  lemma TokenizeStep(rest: string, t: Token, n: nat, tokens: seq<Token>)
    requires Next(rest) == Success((t, n)) && t.kind != EOF
    ensures 0 < n <= |rest|
    ensures Prepend(tokens, Tokens(rest)) == Prepend(tokens + [t], Tokens(rest[n..]))
  {
    TokensStep(rest);
    NextTokenText(rest);
    PrependPrepend(tokens, [t], Tokens(rest[n..]));
  }

  /**
    The token loop of the session: call `NextToken` until it returns EOF, keeping
    every token including the EOF. A lexing failure aborts the loop.
  */
  method Tokenize(text: string) returns (r: Result<seq<Token>>)
    ensures r == Tokens(text)
  {
    var lexer := new Lexer(text);
    var tokens: seq<Token> := [];
    assert text[lexer.pos..] == text;
    PrependNil(Tokens(text));
    while true
      invariant lexer.Valid() && lexer.text == text
      invariant Tokens(text) == Prepend(tokens, Tokens(text[lexer.pos..]))
      decreases |text| - lexer.pos
    {
      ghost var before := lexer.pos;
      ghost var rest := text[before..];
      var token := lexer.NextToken();
      TokenizeEnd(rest, tokens);
      if token.Failure? {
        return Failure(token.error);
      }
      if token.value.kind == EOF {
        tokens := tokens + [token.value];
        return Success(tokens);
      }
      TokenizeStep(rest, token.value, lexer.pos - before, tokens);
      assert rest[lexer.pos - before..] == text[lexer.pos..];
      tokens := tokens + [token.value];
    }
  }
}
