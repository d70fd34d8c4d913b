/** Constructive reals (the `com.hp.creals` library the calculator links against) as
    a free term algebra: every CR operation the evaluator calls is a constructor, so
    two values are the same term exactly when they were built by the same calls. The
    library itself is not part of this model. `IntValue` interprets the integer
    fragment of a term: integers, integral decimal literals, + - x, quotients that
    leave no remainder and the inverse of 1 or -1 denote integers; everything else
    (a proper fraction, the transcendental operations) is left uninterpreted. */
module Reals {
  import opened Text

  datatype CR =
    | OfInt(n: int)            // CR.valueOf(BigInteger)
    | OfDecimal(text: string)  // CR.valueOf(String, 10)
    | Pi                       // CR.PI
    | Neg(a: CR)               // negate
    | Add(a: CR, b: CR)
    | Sub(a: CR, b: CR)
    | Mul(a: CR, b: CR)
    | Div(a: CR, b: CR)
    | Inverse(a: CR)
    | Sqrt(a: CR)
    | Exp(a: CR)
    | Ln(a: CR)
    | Sin(a: CR)
    | Cos(a: CR)
    | Asin(a: CR)              // UnaryCRFunction.asinFunction
    | Acos(a: CR)
    | Atan(a: CR)

  /** What a term denotes in the integer fragment: an integer, or nothing known. */
  datatype Num = Known(n: int) | Unknown

  /** The integer a decimal literal `whole[.fraction]` denotes, when the fraction is
      absent or all zeros. */
  function DecimalValue(text: string): Num
  {
    var p := IndexOf(text, '.');
    if p == -1 then PartsValue(text, "") else PartsValue(text[..p], text[p + 1..])
  }

  function PartsValue(w: string, f: string): Num
  {
    if AllDigits(w) && AllZeros(f) then Known(DigitsValue(w)) else Unknown
  }

  /** The integer a term denotes, or Unknown outside the integer fragment. */
  function IntValue(x: CR): Num
  {
    match x
    case OfInt(n) => Known(n)
    case OfDecimal(t) => DecimalValue(t)
    case Mul(a, b) => NumMul(IntValue(a), IntValue(b))
    case Add(a, b) => NumAdd(IntValue(a), IntValue(b))
    case Sub(a, b) => NumSub(IntValue(a), IntValue(b))
    case Neg(a) => NumSub(Known(0), IntValue(a))
    case Div(a, b) => NumDiv(IntValue(a), IntValue(b))
    case Inverse(a) => NumDiv(Known(1), IntValue(a))
    case _ => Unknown
  }

  function NumAdd(u: Num, v: Num): Num
  {
    if u.Known? && v.Known? then Known(u.n + v.n) else Unknown
  }

  function NumSub(u: Num, v: Num): Num
  {
    if u.Known? && v.Known? then Known(u.n - v.n) else Unknown
  }

  function NumMul(u: Num, v: Num): Num
  {
    if u.Known? && v.Known? then Known(u.n * v.n) else Unknown
  }

  /** An exact quotient; a zero divisor or a remainder leaves the integer fragment. */
  function NumDiv(u: Num, v: Num): Num
  {
    if u.Known? && v.Known? && v.n != 0 && u.n % v.n == 0 then Known(u.n / v.n) else Unknown
  }

  /** An integral literal, with or without a fraction of zeros, denotes its whole part. */
  lemma DecimalValueOfInteger(w: string, f: string)
    requires AllDigits(w) && AllZeros(f)
    ensures DecimalValue(w) == Known(DigitsValue(w))
    ensures DecimalValue(w + "." + f) == Known(DigitsValue(w))
  {
    NoPointIn(w);
    var t := w + "." + f;
    PointAfter(w, f);
    assert t[..|w|] == w;
    assert t[|w| + 1..] == f;
  }

  lemma NoPointIn(w: string)
    requires AllDigits(w)
    ensures IndexOf(w, '.') == -1
  {
  }

  lemma PointAfter(w: string, f: string)
    requires AllDigits(w)
    ensures IndexOf(w + "." + f, '.') == |w|
  {
    var t := w + "." + f;
    assert forall j | 0 <= j < |w| :: t[j] == w[j] && IsDigit(t[j]);
    assert t[|w|] == '.';
  }

  /** `b.pow(n)` on integers. */
  function Power(b: int, n: nat): int
  {
    if n == 0 then 1 else b * Power(b, n - 1)
  }

  lemma {:induction false} PowerAdd(b: int, m: nat, n: nat)
    ensures Power(b, m + n) == Power(b, m) * Power(b, n)
  {
    if m > 0 {
      PowerAdd(b, m - 1, n);
      assert Power(b, m + n) == b * Power(b, m - 1 + n);
    }
  }

  /** `pow(CR base, BigInteger exp)`: repeated squaring, and the inverse of the
      positive power for a negative exponent. */
  function CRPow(base: CR, exp: int): CR
    decreases if exp < 0 then 1 - exp else exp
  {
    if exp < 0 then Inverse(CRPow(base, -exp))
    else if exp == 1 then base
    else if exp % 2 == 1 then Mul(CRPow(base, exp - 1), base)
    else if exp == 0 then OfInt(1)
    else
      var t := CRPow(base, exp / 2);
      Mul(t, t)
  }

  /** `pow` computes b^e for e >= 0, and for e < 0 the inverse of b^-e, which is an
      integer only when that power is 1 or -1. */
  lemma CRPowValue(base: CR, v: int, exp: int)
    requires IntValue(base) == Known(v)
    ensures exp >= 0 ==> IntValue(CRPow(base, exp)) == Known(Power(v, exp))
    ensures exp < 0 ==> IntValue(CRPow(base, exp)) == NumDiv(Known(1), Known(Power(v, -exp)))
  {
    if exp < 0 {
      CRPowNonNegative(base, v, -exp);
      assert CRPow(base, exp) == Inverse(CRPow(base, -exp));
    } else {
      CRPowNonNegative(base, v, exp);
    }
  }

  lemma {:induction false} CRPowNonNegative(base: CR, v: int, exp: nat)
    requires IntValue(base) == Known(v)
    ensures IntValue(CRPow(base, exp)) == Known(Power(v, exp))
  {
    if exp == 1 {
      assert Power(v, 1) == v * Power(v, 0);
    } else if exp % 2 == 1 {
      var t := CRPow(base, exp - 1);
      assert CRPow(base, exp) == Mul(t, base);
      CRPowNonNegative(base, v, exp - 1);
      assert Power(v, exp) == v * Power(v, exp - 1) == Power(v, exp - 1) * v;
    } else if exp > 0 {
      var t := CRPow(base, exp / 2);
      assert CRPow(base, exp) == Mul(t, t);
      CRPowNonNegative(base, v, exp / 2);
      assert exp / 2 + exp / 2 == exp;
      PowerAdd(v, exp / 2, exp / 2);
    }
  }
}
