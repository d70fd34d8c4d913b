/** The tokens of a calculator expression as values (CalculatorExpr.java's `Token`
    hierarchy): a numeric constant still being typed, an operator or function key,
    or a previously evaluated subexpression. */
module Tokens {
  import opened Wrappers
  import opened Text
  import opened Keys
  import opened Reals

  /** The state of a `Constant` token: the digits before the point, whether a point
      was typed, and the digits after it. */
  datatype ConstValue = ConstValue(whole: string, sawDecimal: bool, fraction: string)
  {
    /** The shape `Constant` keeps: digit strings, and no fraction without a point. */
    predicate Valid()
    {
      AllDigits(whole) && AllDigits(fraction) && (!sawDecimal ==> fraction == [])
    }

    /** `isEmpty`: nothing typed yet. */
    predicate IsEmpty()
    {
      !sawDecimal && whole == []
    }

    /** `isInt`: no point, or only zeros after it. */
    predicate IsInt()
    {
      !sawDecimal || AllZeros(fraction)
    }

    /** `toString`: the whole part, then the point and the fraction if a point was typed. */
    function ToString(): string
    {
      whole + (if sawDecimal then "." + fraction else "")
    }
  }

  const EmptyConstant := ConstValue("", false, "")

  /** The keys `Constant.add` accepts: a digit or the decimal point. */
  predicate IsConstPiece(k: Key)
  {
    DigVal(k) != NOT_DIGIT || k == DecPoint
  }

  /** `Constant.add`: append a digit to the current part, or take the decimal point;
      a second decimal point is refused (None). */
  function ConstAdd(c: ConstValue, k: Key): (r: Option<ConstValue>)
    requires IsConstPiece(k)
  {
    if k == DecPoint then
      if c.sawDecimal then None else Some(c.(sawDecimal := true))
    else if c.sawDecimal then Some(c.(fraction := c.fraction + [DigitChar(DigVal(k))]))
    else Some(c.(whole := c.whole + [DigitChar(DigVal(k))]))
  }

  /** `Constant.delete`: undo the last `add` of a nonempty constant. */
  function ConstDelete(c: ConstValue): ConstValue
    requires !c.IsEmpty()
  {
    if c.fraction != [] then c.(fraction := c.fraction[..|c.fraction| - 1])
    else if c.sawDecimal then c.(sawDecimal := false)
    else c.(whole := c.whole[..|c.whole| - 1])
  }

  /** `add` refuses exactly a second decimal point; otherwise it keeps the constant
      well formed and nonempty, `delete` undoes it, and the text grows by the key's
      character. */
  lemma ConstAddDelete(c: ConstValue, k: Key)
    requires c.Valid() && IsConstPiece(k)
    ensures ConstAdd(c, k).None? <==> k == DecPoint && c.sawDecimal
    ensures ConstAdd(c, k).Some? ==>
              var c' := ConstAdd(c, k).value;
              c'.Valid() && !c'.IsEmpty() && ConstDelete(c') == c
              && c'.ToString() == c.ToString() + [if k == DecPoint then '.' else DigitChar(DigVal(k))]
  {
    if k != DecPoint {
      var d := DigitChar(DigVal(k));
      if c.sawDecimal {
        assert (c.fraction + [d])[..|c.fraction|] == c.fraction;
      } else {
        assert (c.whole + [d])[..|c.whole|] == c.whole;
      }
    }
  }

  /** `delete` keeps a constant well formed. */
  lemma ConstDeleteValid(c: ConstValue)
    requires c.Valid() && !c.IsEmpty()
    ensures ConstDelete(c).Valid()
  {
  }

  /** `isInt` as the source writes it, `!sawDecimal || fraction.isEmpty() ||
      new BigInteger(fraction).equals(ZERO)`, agrees with IsInt. */
  lemma IsIntAsWritten(c: ConstValue)
    requires c.Valid()
    ensures c.IsInt() <==> !c.sawDecimal || c.fraction == [] || DigitsValue(c.fraction) == 0
  {
    DigitsValueZero(c.fraction);
  }

  /** An integral constant's text denotes the integer `new BigInteger(whole)` reads. */
  lemma IntConstantValue(c: ConstValue)
    requires c.Valid() && c.IsInt()
    ensures IntValue(OfDecimal(c.ToString())) == Known(DigitsValue(c.whole))
  {
    if c.sawDecimal {
      DecimalValueOfInteger(c.whole, c.fraction);
      assert c.ToString() == c.whole + "." + c.fraction;
    } else {
      DecimalValueOfInteger(c.whole, "");
      assert c.ToString() == c.whole;
    }
  }

  /** A pre-evaluated subexpression (`PreEval`): its value, its exact integer value if
      known, the expression and degree mode it came from, and its display string.
      `valueId` stands for the identity of the `mValue` object, which is what the
      output map of the serialiser is keyed on. */
  datatype PreEvalValue = PreEvalValue(value: CR, intValue: Option<int>, expr: seq<TokenValue>,
                                       degreeMode: bool, shortRep: string, valueId: nat)

  datatype TokenValue =
    | Const(c: ConstValue)
    | Op(id: Key)
    | PreEval(p: PreEvalValue)

  /** What the evaluator needs of a token for its exact channel to be right: a
      constant is well formed, and a pre-evaluated value's integer is the integer its
      CR denotes. */
  predicate TokenSound(t: TokenValue)
  {
    match t
    case Const(c) => c.Valid()
    case Op(_) => true
    case PreEval(p) => p.intValue.Some? ==> IntValue(p.value) == Known(p.intValue.value)
  }

  predicate ExactInputs(e: seq<TokenValue>)
  {
    forall j :: 0 <= j < |e| ==> TokenSound(e[j])
  }
}
