/** String helpers shared by the model: Java's `String.indexOf`, and decimal digit
    strings with their integer values (the conversions `BigInteger(String)`,
    `BigInteger.toString()` and `Integer.toString(int)` perform on the plain ASCII
    digits the calculator uses internally). */
module Text {
  import opened Wrappers

  /** Java's `s.indexOf(c, from)` for `from >= 0`: the first index at or after `from`
      holding `c`, or -1. */
  function IndexOfFrom(s: string, c: char, from: nat): (r: int)
    ensures r == -1 || (from <= r < |s| && s[r] == c)
    ensures r == -1 ==> forall j :: from <= j < |s| ==> s[j] != c
    ensures r != -1 ==> forall j :: from <= j < r ==> s[j] != c
    decreases |s| - from
  {
    if from >= |s| then -1 else if s[from] == c then from else IndexOfFrom(s, c, from + 1)
  }

  /** Java's `s.indexOf(c)`. */
  function IndexOf(s: string, c: char): int
  {
    IndexOfFrom(s, c, 0)
  }

  predicate IsDigit(c: char) { '0' <= c <= '9' }

  predicate AllDigits(s: string) { forall i :: 0 <= i < |s| ==> IsDigit(s[i]) }

  predicate AllZeros(s: string) { forall i :: 0 <= i < |s| ==> s[i] == '0' }

  function DigitChar(d: nat): (c: char)
    requires d < 10
    ensures IsDigit(c) && c as int - '0' as int == d
  {
    ('0' as int + d) as char
  }

  /** The value of a digit string read most significant digit first; the empty string is 0. */
  function DigitsValue(s: string): nat
    requires AllDigits(s)
  {
    if s == [] then 0
    else DigitsValue(s[..|s| - 1]) * 10 + (s[|s| - 1] as int - '0' as int)
  }

  /** Decimal rendering of a natural number without leading zeros. */
  function NatToString(n: nat): (s: string)
    ensures |s| >= 1 && AllDigits(s)
    ensures s[0] == '0' ==> n == 0
  {
    if n < 10 then [DigitChar(n)] else NatToString(n / 10) + [DigitChar(n % 10)]
  }

  /** Java's `toString()` of an integer: an optional '-' followed by the digits. */
  function IntToString(i: int): (s: string)
    ensures |s| >= 1
    ensures i < 0 <==> s[0] == '-'
  {
    if i < 0 then "-" + NatToString(-i) else NatToString(i)
  }

  /** Inverse of IntToString: Java's `new BigInteger(s)` on an optionally signed digit string. */
  function ParseInt(s: string): Option<int>
  {
    if |s| > 0 && s[0] == '-' then
      if |s| > 1 && AllDigits(s[1..]) then Some(0 - DigitsValue(s[1..]) as int) else None
    else if |s| > 0 && AllDigits(s) then Some(DigitsValue(s) as int)
    else None
  }

  lemma {:induction false} NatToStringValue(n: nat)
    ensures DigitsValue(NatToString(n)) == n
  {
    if n >= 10 {
      var s := NatToString(n);
      NatToStringValue(n / 10);
      assert s[..|s| - 1] == NatToString(n / 10);
    }
  }

  /** Reading back what IntToString wrote gives the same integer. */
  lemma ParseIntToString(i: int)
    ensures ParseInt(IntToString(i)) == Some(i)
  {
    if i < 0 {
      assert IntToString(i)[1..] == NatToString(-i);
      NatToStringValue(-i);
    } else {
      NatToStringValue(i);
    }
  }

  /** A digit string is worth zero exactly when every digit is '0'. */
  lemma {:induction false} DigitsValueZero(s: string)
    requires AllDigits(s)
    ensures DigitsValue(s) == 0 <==> AllZeros(s)
  {
    if s != [] {
      var p := s[..|s| - 1];
      DigitsValueZero(p);
      if AllZeros(s) {
        assert AllZeros(p);
      } else if AllZeros(p) {
        assert s[|s| - 1] != '0';
      } else {
        assert DigitsValue(p) > 0;
      }
    }
  }

  /** Ten to the power k. */
  function Pow10(k: nat): (r: nat)
    ensures r >= 1
  {
    if k == 0 then 1 else 10 * Pow10(k - 1)
  }

  /** Powers of ten outgrow their exponent. */
  lemma {:induction false} Pow10Exceeds(k: nat)
    ensures k + 1 <= Pow10(k)
  {
    if k > 0 {
      Pow10Exceeds(k - 1);
    }
  }

  /** A number below 10^L is written with at most L digits. */
  lemma {:induction false} NatToStringShort(n: nat, len: nat)
    requires 1 <= len && n < Pow10(len)
    ensures |NatToString(n)| <= len
  {
    if n >= 10 {
      assert len >= 2;
      assert n / 10 < Pow10(len - 1);
      NatToStringShort(n / 10, len - 1);
    }
  }

  /** A number written with L digits is below 10^L. */
  lemma {:induction false} NatToStringBound(n: nat)
    ensures n < Pow10(|NatToString(n)|)
  {
    if n >= 10 {
      NatToStringBound(n / 10);
    }
  }

  /** A larger number is never written with fewer digits. */
  lemma NatToStringMonotone(a: nat, b: nat)
    requires a <= b
    ensures |NatToString(a)| <= |NatToString(b)|
  {
    NatToStringBound(b);
    NatToStringShort(a, |NatToString(b)|);
  }
}
