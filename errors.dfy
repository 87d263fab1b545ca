/**
  Every exception the core can throw, as a value. The session catches each one at the
  submission boundary and writes `ERROR: <message>`; the model keeps the kind and the
  datum the message names, not its wording.
*/
module Errors {
  import opened TokenTypes

  datatype Error =
    | UnexpectedCharacter(c: char)                          // lexer: a character no token starts with
    | ExpectedToken(expected: TokenKind, got: TokenKind)    // parser: `Eat` saw another kind
    | UnexpectedToken(got: TokenKind)                       // parser: no statement or primary starts here
    | TokenIndexOutOfRange                                  // parser: `Eat` indexed past the token list
    | InvalidNumber(text: string)                           // int.Parse: not a run of digits
    | NumberOverflow(text: string)                          // int.Parse: above int.MaxValue
    | UndefinedVariable(name: string)                       // evaluator: unbound name
    | DivideByZero                                          // evaluator: `/` by zero
    | DivisionOverflow                                      // evaluator: int.MinValue / -1
    | UnknownOperator(op: TokenKind)                        // back ends: a binary node with a non-arithmetic kind
    | UnknownStatement                                      // back ends: a nested block statement

  /** The outcome of an operation that may throw. */
  datatype Result<T> = Success(value: T) | Failure(error: Error) {
    predicate IsFailure() { Failure? }

    function PropagateFailure<U>(): Result<U>
      requires Failure?
    {
      Failure(error)
    }

    function Extract(): T
      requires Success?
    {
      value
    }
  }

  datatype Option<T> = None | Some(value: T)

  /** `Prepend(xs, r)` is `xs + ys` when `r` is `Success(ys)`, and `r`'s failure otherwise. */
  function Prepend<T>(xs: seq<T>, r: Result<seq<T>>): Result<seq<T>>
  {
    match r
    case Success(ys) => Success(xs + ys)
    case Failure(e) => Failure(e)
  }

  lemma PrependNil<T>(r: Result<seq<T>>)
    ensures Prepend([], r) == r
  {
    if r.Success? {
      assert [] + r.value == r.value;
    }
  }

  lemma PrependEmpty<T>(xs: seq<T>)
    ensures Prepend(xs, Success([])) == Success(xs)
  {
    assert xs + [] == xs;
  }

  lemma PrependPrepend<T>(xs: seq<T>, ys: seq<T>, r: Result<seq<T>>)
    ensures Prepend(xs, Prepend(ys, r)) == Prepend(xs + ys, r)
  {
    if r.Success? {
      assert xs + (ys + r.value) == (xs + ys) + r.value;
    }
  }
}
