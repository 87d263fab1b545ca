/**
  The semantics of C#'s 32-bit `int` that the core relies on: unchecked `+ - *`
  wrap modulo 2^32, `/` truncates toward zero and throws on a zero divisor and on
  int.MinValue / -1, `ToString` writes decimal digits and `int.Parse` reads them.
*/
module CSharpInt {
  import opened Errors
  import opened Chars

  const MIN: int := -0x8000_0000
  const MAX: int := 0x7FFF_FFFF
  const MODULUS: int := 0x1_0000_0000

  /** A value of C#'s `int`. */
  type Int = x: int | MIN <= x <= MAX

  function Abs(x: int): nat
  {
    if x < 0 then -x else x
  }

  /** The unique `int` congruent to `x` modulo 2^32: what unchecked arithmetic keeps. */
  function Wrap(x: int): (r: Int)
    ensures (r - x) % MODULUS == 0
    ensures MIN <= x <= MAX ==> r == x
  {
    (x - MIN) % MODULUS + MIN
  }

  /** Two integers congruent modulo 2^32 wrap to the same `int`. */
  lemma {:induction false} WrapCongruent(x: int, y: int)
    requires (x - y) % MODULUS == 0
    ensures Wrap(x) == Wrap(y)
  {
    var k := (x - y) / MODULUS;
    assert x - MIN == (y - MIN) + k * MODULUS;
    ModShift(y - MIN, k);
  }

  lemma ModShift(a: int, k: int)
    ensures (a + k * MODULUS) % MODULUS == a % MODULUS
  {
  }

  lemma MultipleOfModulus(a: int)
    requires a % MODULUS == 0
    ensures a == MODULUS * (a / MODULUS)
  {
  }

  /** Wrapping after every `+` gives what wrapping once at the end gives. */
  lemma {:induction false} WrapAdd(x: int, y: int)
    ensures Wrap(Wrap(x) + Wrap(y)) == Wrap(x + y)
  {
    var j, k := (Wrap(x) - x) / MODULUS, (Wrap(y) - y) / MODULUS;
    MultipleOfModulus(Wrap(x) - x);
    MultipleOfModulus(Wrap(y) - y);
    assert Wrap(x) + Wrap(y) == x + y + (j + k) * MODULUS;
    ModShift(x + y, j + k);
    WrapCongruent(Wrap(x) + Wrap(y), x + y);
  }

  /** Wrapping after every `-` gives what wrapping once at the end gives. */
  lemma {:induction false} WrapSub(x: int, y: int)
    ensures Wrap(Wrap(x) - Wrap(y)) == Wrap(x - y)
  {
    var j, k := (Wrap(x) - x) / MODULUS, (Wrap(y) - y) / MODULUS;
    MultipleOfModulus(Wrap(x) - x);
    MultipleOfModulus(Wrap(y) - y);
    assert Wrap(x) - Wrap(y) == x - y + (j - k) * MODULUS;
    ModShift(x - y, j - k);
    WrapCongruent(Wrap(x) - Wrap(y), x - y);
  }

  /** Wrapping after every `*` gives what wrapping once at the end gives. */
  lemma {:induction false} WrapMul(x: int, y: int)
    ensures Wrap(Wrap(x) * Wrap(y)) == Wrap(x * y)
  {
    var j := WrapOffset(x);
    var k := WrapOffset(y);
    var wx: int, wy: int, m := Wrap(x), Wrap(y), MODULUS;
    ProductExpand(x, y, j, k, m);
    var c := j * y + k * x + j * k * m;
    assert wx * wy == x * y + c * m;
    WrapShift(x * y, c);
  }

  lemma WrapOffset(x: int) returns (j: int)
    ensures Wrap(x) == x + j * MODULUS
  {
    j := (Wrap(x) - x) / MODULUS;
    MultipleOfModulus(Wrap(x) - x);
  }

  lemma WrapShift(x: int, c: int)
    ensures Wrap(x + c * MODULUS) == Wrap(x)
  {
    ModShift(0, c);
    WrapCongruent(x + c * MODULUS, x);
  }

  lemma ProductExpand(x: int, y: int, j: int, k: int, m: int)
    ensures (x + j * m) * (y + k * m) == x * y + (j * y + k * x + j * k * m) * m
  {
  }

  /** Unchecked `+`, `-` and `*` on `int`. */
  function Add(a: Int, b: Int): Int { Wrap(a + b) }
  function Sub(a: Int, b: Int): Int { Wrap(a - b) }
  function Mul(a: Int, b: Int): Int { Wrap(a * b) }

  /**
    Division truncating toward zero. The remainder `a - b * q` is zero or has the
    sign of `a`, and is smaller than `b` in magnitude: that pins `q` down.
  */
  function TruncDiv(a: int, b: int): (q: int)
    requires b != 0
    ensures Abs(a - b * q) < Abs(b)
    ensures a - b * q == 0 || (a - b * q < 0) == (a < 0)
    ensures Abs(q) <= Abs(a)
  {
    var u := Abs(a) / Abs(b);
    TruncDivFacts(a, b, u);
    if (a < 0) == (b < 0) then u else -u
  }

  lemma TruncDivFacts(a: int, b: int, u: int)
    requires b != 0 && u == Abs(a) / Abs(b)
    ensures var q := if (a < 0) == (b < 0) then u else -u;
      && Abs(a - b * q) < Abs(b)
      && (a - b * q == 0 || (a - b * q < 0) == (a < 0))
      && Abs(q) <= Abs(a)
  {
    var n, d := Abs(a), Abs(b);
    DivFacts(n, d);
    var q := if (a < 0) == (b < 0) then u else -u;
    SignedProduct(a, b, d, u);
    var rem: int := n % d;
    assert a - b * q == (if a < 0 then -rem else rem);
  }

  /** Euclidean division of naturals: `n == d * (n / d) + n % d` with the remainder below `d`. */
  lemma DivFacts(n: nat, d: nat)
    requires d > 0
    ensures n == d * (n / d) + n % d && 0 <= n % d < d && 0 <= n / d <= n
  {
    MulAtLeast(d, n / d);
  }

  /** The product `b * q` for the quotient `q = ±u` whose sign makes it agree with `a`. */
  lemma SignedProduct(a: int, b: int, d: int, u: int)
    requires b != 0 && d == Abs(b)
    ensures b * (if (a < 0) == (b < 0) then u else -u) == (if a < 0 then -(d * u) else d * u)
  {
    if b < 0 && a < 0 {
      NegMul(d, u);
    } else if b < 0 {
      NegNegMul(d, u);
    } else if a < 0 {
      NegMul2(d, u);
    }
  }

  lemma MulAtLeast(d: int, u: int)
    requires d >= 1 && u >= 0
    ensures d * u >= u
  {
    assert d * u == u + (d - 1) * u;
    assert (d - 1) * u >= 0;
  }

  lemma NegMul(d: int, q: int)
    ensures (-d) * q == -(d * q)
  {
  }

  lemma NegNegMul(d: int, u: int)
    ensures (-d) * (-u) == d * u
  {
  }

  lemma NegMul2(d: int, u: int)
    ensures d * (-u) == -(d * u)
  {
  }

  /**
    C#'s `int` division: a zero divisor throws DivideByZeroException, and
    int.MinValue / -1 throws OverflowException on .NET even in unchecked code.
  */
  function Div(a: Int, b: Int): (r: Result<Int>)
    ensures r.Failure? <==> b == 0 || (a == MIN && b == -1)
    ensures r.Success? ==> r.value == TruncDiv(a, b)
  {
    if b == 0 then Failure(DivideByZero)
    else if a == MIN && b == -1 then Failure(DivisionOverflow)
    else
      var q := TruncDiv(a, b);
      assert MIN <= q <= MAX by { TruncDivInRange(a, b); }
      Success(q)
  }

  lemma TruncDivInRange(a: Int, b: Int)
    requires b != 0 && !(a == MIN && b == -1)
    ensures MIN <= TruncDiv(a, b) <= MAX
  {
    // |q| <= |a| <= 2^31 leaves only q == 2^31, which needs a == MIN and b == -1.
  }

  predicate AllDigits(s: string)
  {
    forall i :: 0 <= i < |s| ==> IsDigit(s[i])
  }

  /** The decimal digits of a natural number, most significant first, without leading zeros. */
  function Digits(n: nat): (s: string)
    ensures |s| > 0 && AllDigits(s)
    ensures s[0] == '0' ==> n == 0
  {
    var last := ['0' + (n % 10) as char];
    if n < 10 then last else Digits(n / 10) + last
  }

  /** The number a run of decimal digits denotes; leading zeros do not matter. */
  function DigitsValue(s: string): nat
    requires AllDigits(s)
  {
    if s == [] then 0
    else DigitsValue(s[..|s| - 1]) * 10 + (s[|s| - 1] - '0') as nat
  }

  /** Reading back the digits of `n` gives `n`. */
  lemma {:induction false} DigitsRoundTrip(n: nat)
    ensures DigitsValue(Digits(n)) == n
  {
    var s := Digits(n);
    if n >= 10 {
      DigitsRoundTrip(n / 10);
      assert s[..|s| - 1] == Digits(n / 10);
    }
  }

  /** `int.ToString()`: a minus sign for negative values, then the decimal digits. */
  function DecimalText(n: int): (s: string)
    ensures |s| > 0
    ensures n >= 0 <==> AllDigits(s)
  {
    if n < 0 then
      var s := "-" + Digits(-n);
      assert !IsDigit(s[0]);
      s
    else Digits(n)
  }

  /**
    `int.Parse` of a lexer's number text: a run of digits reads as its value and
    fails with an overflow above int.MaxValue; any other text is a format error.
  */
  function ParseInt(text: string): (r: Result<Int>)
    ensures r.Success? <==> |text| > 0 && AllDigits(text) && DigitsValue(text) <= MAX
    ensures r.Success? ==> 0 <= r.value && r.value == DigitsValue(text)
    ensures r.Failure? && |text| > 0 && AllDigits(text) ==> r.error == NumberOverflow(text)
  {
    if |text| > 0 && AllDigits(text) then
      var v := DigitsValue(text);
      if v <= MAX then Success(v) else Failure(NumberOverflow(text))
    else Failure(InvalidNumber(text))
  }

  /** What `ToString` writes, `int.Parse` reads back, for every non-negative `int`. */
  lemma ParseDecimalText(n: Int)
    requires n >= 0
    ensures ParseInt(DecimalText(n)) == Success(n)
  {
    DigitsRoundTrip(n);
  }
}
