/** The recursive-descent evaluator of CalculatorExpr.java (`evalExpr` down to
    `evalUnary`). Each level returns an `EvalRet`: the index of the first token it did
    not use, the constructive-real value, and the exact integer value when it is
    known. The functions here are the specification; the methods that follow them
    are the loops of the source, each proved equal to its function. */
module Parser {
  import opened Wrappers
  import opened Text
  import opened Keys
  import opened Reals
  import opened Tokens

  const MILLION: int := 1000000
  const BILLION: int := 1000000000

  /** The exceptions evaluation can raise: `SyntaxError` (also for running off the end
      of the token list), `ArithmeticException`, and the `NumberFormatException` that
      `new BigInteger("")` throws for a constant with an empty whole part. */
  datatype EvalError = SyntaxError | ArithmeticError | NumberFormatError

  /** `EvalContext` (degree mode), together with `CR.BigIntegerValue`, which the model
      does not interpret. */
  datatype Context = Context(degreeMode: bool, bigIntegerValue: CR -> int)

  datatype EvalRet = EvalRet(pos: nat, val: CR, exact: Option<int>)

  /** The exact channel is right: when an integer is reported, the CR denotes it. */
  predicate Sound(r: EvalRet)
  {
    r.exact.Some? ==> IntValue(r.val) == Known(r.exact.value)
  }

  function Abs(n: int): nat { if n < 0 then -n else n }

  /** n!, the value the evaluator means by `genFactorial(n, 1)`. */
  function Fact(n: nat): (f: nat)
    ensures f >= 1
  {
    if n == 0 then 1 else n * Fact(n - 1)
  }

  /** `isOperator(i, op)`: position i holds operator `op` (false past the end). */
  predicate IsOperator(e: seq<TokenValue>, i: int, op: Key)
  {
    0 <= i < |e| && e[i].Op? && e[i].id == op
  }

  /** `canStartFactor`: a token that can begin an implicitly multiplied factor. */
  predicate CanStartFactor(e: seq<TokenValue>, i: nat)
  {
    if i >= |e| then false
    else match e[i]
      case Op(id) => !IsBinary(id) && id != OpFact && id != RParen
      case _ => true
  }

  function ToRadians(x: CR, ctx: Context): CR
  {
    if ctx.degreeMode then Mul(x, Div(Pi, OfInt(180))) else x
  }

  function FromRadians(x: CR, ctx: Context): CR
  {
    if ctx.degreeMode then Mul(x, Div(OfInt(180), Pi)) else x
  }

  /** The optional closing parenthesis after a parenthesised argument. */
  function CloseParen(e: seq<TokenValue>, a: EvalRet): (r: EvalRet)
    requires a.pos <= |e|
    ensures r.pos <= |e| && a.pos <= r.pos && r.val == a.val && r.exact == a.exact
  {
    if IsOperator(e, a.pos, RParen) then a.(pos := a.pos + 1) else a
  }

  predicate IsFunctionKey(id: Key)
  {
    id in {LParen, FunSin, FunCos, FunTan, FunLn, FunLog, FunArcsin, FunArccos, FunArctan}
  }

  /** The value of a parenthesised argument after the function key `id`. Only a plain
      parenthesis keeps the exact channel. */
  function ApplyFunction(id: Key, a: EvalRet, ctx: Context): (r: EvalRet)
    requires IsFunctionKey(id)
    ensures r.pos == a.pos
    ensures r.exact.Some? ==> id == LParen
    ensures id == LParen ==> r == a
  {
    match id
    case LParen => a
    case FunSin => EvalRet(a.pos, Sin(ToRadians(a.val, ctx)), None)
    case FunCos => EvalRet(a.pos, Cos(ToRadians(a.val, ctx)), None)
    case FunTan =>
      var arg := ToRadians(a.val, ctx);
      EvalRet(a.pos, Div(Sin(arg), Cos(arg)), None)
    case FunLn => EvalRet(a.pos, Ln(a.val), None)
    case FunLog => EvalRet(a.pos, Div(Ln(a.val), Ln(OfInt(10))), None)
    case FunArcsin => EvalRet(a.pos, FromRadians(Asin(a.val), ctx), None)
    case FunArccos => EvalRet(a.pos, FromRadians(Acos(a.val), ctx), None)
    case FunArctan => EvalRet(a.pos, FromRadians(Atan(a.val), ctx), None)
  }

  /** A constant token: its decimal text as a CR, and `new BigInteger(whole)` when it
      is integral, which throws `NumberFormatException` unless the whole part is a
      nonempty digit string. */
  function ConstantToken(c: ConstValue, i: nat): (r: Result<EvalRet, EvalError>)
    ensures r.Err? <==> c.IsInt() && (c.whole == [] || !AllDigits(c.whole))
    ensures r.Err? ==> r.error == NumberFormatError
    ensures r.Ok? ==> r.value.pos == i + 1 && r.value.val == OfDecimal(c.ToString())
    ensures r.Ok? ==> (r.value.exact.Some? <==> c.IsInt())
    ensures r.Ok? && c.Valid() ==> Sound(r.value)
  {
    if c.IsInt() then
      if c.whole == [] || !AllDigits(c.whole) then Err(NumberFormatError)
      else
        var r := EvalRet(i + 1, OfDecimal(c.ToString()), Some(DigitsValue(c.whole)));
        if c.Valid() then IntConstantValue(c); Ok(r) else Ok(r)
    else Ok(EvalRet(i + 1, OfDecimal(c.ToString()), None))
  }

  // ---- The exact channel of the binary operators ----

  /** `+`: exact only when both operands are, and then the same number as the CR sum. */
  function AddStep(l: EvalRet, t: EvalRet): (r: EvalRet)
    ensures r.pos == t.pos
    ensures r.exact.Some? <==> l.exact.Some? && t.exact.Some?
    ensures Sound(l) && Sound(t) ==> Sound(r) && IntValue(r.val) == IntValue(Add(l.val, t.val))
  {
    if l.exact.Some? && t.exact.Some? then
      var v := l.exact.value + t.exact.value;
      EvalRet(t.pos, OfInt(v), Some(v))
    else EvalRet(t.pos, Add(l.val, t.val), None)
  }

  /** `-`: as for `+`. */
  function SubStep(l: EvalRet, t: EvalRet): (r: EvalRet)
    ensures r.pos == t.pos
    ensures r.exact.Some? <==> l.exact.Some? && t.exact.Some?
    ensures Sound(l) && Sound(t) ==> Sound(r) && IntValue(r.val) == IntValue(Sub(l.val, t.val))
  {
    if l.exact.Some? && t.exact.Some? then
      var v := l.exact.value - t.exact.value;
      EvalRet(t.pos, OfInt(v), Some(v))
    else EvalRet(t.pos, Sub(l.val, t.val), None)
  }

  /** `x` and implicit multiplication: as for `+`. */
  function MulStep(l: EvalRet, t: EvalRet): (r: EvalRet)
    ensures r.pos == t.pos
    ensures r.exact.Some? <==> l.exact.Some? && t.exact.Some?
    ensures Sound(l) && Sound(t) ==> Sound(r) && IntValue(r.val) == IntValue(Mul(l.val, t.val))
  {
    if l.exact.Some? && t.exact.Some? then
      var v := l.exact.value * t.exact.value;
      EvalRet(t.pos, OfInt(v), Some(v))
    else EvalRet(t.pos, Mul(l.val, t.val), None)
  }

  /** `/`: with two exact operands `BigInteger.mod` is called first, and it throws for a
      zero or negative divisor; the result stays exact only when nothing remains. */
  function DivStep(l: EvalRet, t: EvalRet): (r: Result<EvalRet, EvalError>)
    ensures r.Err? <==> l.exact.Some? && t.exact.Some? && t.exact.value <= 0
    ensures r.Err? ==> r.error == ArithmeticError
    ensures r.Ok? ==> r.value.pos == t.pos
    ensures r.Ok? ==> (r.value.exact.Some? <==>
              l.exact.Some? && t.exact.Some? && l.exact.value % t.exact.value == 0)
    ensures r.Ok? && Sound(l) && Sound(t) ==>
              Sound(r.value) && IntValue(r.value.val) == IntValue(Div(l.val, t.val))
  {
    if l.exact.Some? && t.exact.Some? then
      if t.exact.value <= 0 then Err(ArithmeticError)
      else if l.exact.value % t.exact.value == 0 then
        var v := l.exact.value / t.exact.value;
        Ok(EvalRet(t.pos, OfInt(v), Some(v)))
      else Ok(EvalRet(t.pos, Div(l.val, t.val), None))
    else Ok(EvalRet(t.pos, Div(l.val, t.val), None))
  }

  /** `^` once both sides are evaluated: 1^x is 1, small integer powers are exact,
      other integer exponents use `pow`, and anything else exp(ln(b) * x). */
  function PowStep(f: EvalRet, x: EvalRet): (r: EvalRet)
    ensures r.pos == x.pos
    ensures r.exact.Some? <==>
              f.exact == Some(1)
              || (f.exact.Some? && x.exact.Some? && 0 <= x.exact.value < MILLION
                  && Abs(f.exact.value) < MILLION)
    ensures Sound(f) ==> Sound(r)
  {
    if f.exact == Some(1) then EvalRet(x.pos, f.val, f.exact)
    else if x.exact.Some? then
      if f.exact.Some? && 0 <= x.exact.value < MILLION && Abs(f.exact.value) < MILLION then
        var p := Power(f.exact.value, x.exact.value);
        EvalRet(x.pos, OfInt(p), Some(p))
      else EvalRet(x.pos, CRPow(f.val, x.exact.value), None)
    else EvalRet(x.pos, Exp(Mul(Ln(f.val), x.val)), None)
  }

  /** With an exact exponent, whichever way `^` is computed it denotes the integer
      `pow(base, exponent)` denotes. */
  lemma PowStepAgrees(f: EvalRet, x: EvalRet)
    requires Sound(f) && x.exact.Some?
    ensures IntValue(PowStep(f, x).val) == IntValue(CRPow(f.val, x.exact.value))
  {
    var n := x.exact.value;
    if f.exact.Some? {
      CRPowValue(f.val, f.exact.value, n);
      if f.exact == Some(1) {
        PowerOfOne(Abs(n));
      }
    }
  }

  lemma {:induction false} PowerOfOne(n: nat)
    ensures Power(1, n) == 1
  {
    if n > 0 {
      PowerOfOne(n - 1);
    }
  }

  /** `-` in front of a factor. */
  function Negate(f: EvalRet): (r: EvalRet)
    ensures r.pos == f.pos && r.exact.Some? == f.exact.Some?
    ensures Sound(f) ==> Sound(r) && IntValue(r.val) == NumSub(Known(0), IntValue(f.val))
  {
    EvalRet(f.pos, Neg(f.val), if f.exact.Some? then Some(-f.exact.value) else None)
  }

  // ---- The grammar ----

  /** A binary or suffix operator never starts an implicitly multiplied factor: after
      a value, such an operator belongs to the term or the factorial before it. */
  lemma OperatorEndsFactor(e: seq<TokenValue>, i: nat)
    requires i < |e| && e[i].Op? && (IsBinary(e[i].id) || IsSuffix(e[i].id))
    ensures !CanStartFactor(e, i)
  {
  }

  /** `evalUnary`: a constant, a pre-evaluated value, pi, e, a square root of a unary
      expression, or a parenthesis or function followed by an expression and an
      optional `)`. Reading past the end is a syntax error. */
  function Unary(e: seq<TokenValue>, i: nat, ctx: Context): (r: Result<EvalRet, EvalError>)
    requires i <= |e|
    ensures r.Ok? ==> i < r.value.pos <= |e|
    ensures r.Ok? && ExactInputs(e) ==> Sound(r.value)
    ensures i >= |e| ==> r == Err(SyntaxError)
    decreases |e| - i, 0
  {
    if i >= |e| then Err(SyntaxError)
    else match e[i]
      case Const(c) => ConstantToken(c, i)
      case PreEval(p) => Ok(EvalRet(i + 1, p.value, p.intValue))
      case Op(id) =>
        if id == ConstPi then Ok(EvalRet(i + 1, Pi, None))
        else if id == ConstE then Ok(EvalRet(i + 1, Exp(OfInt(1)), None))
        else if id == OpSqrt then
          var a :- Unary(e, i + 1, ctx);
          Ok(EvalRet(a.pos, Sqrt(a.val), None))
        else if IsFunctionKey(id) then
          var a :- Expr(e, i + 1, ctx);
          Ok(ApplyFunction(id, CloseParen(e, a), ctx))
        else Err(SyntaxError)
  }

  /** `evalFactorial`: a unary expression followed by any number of `!`. */
  function Factorial(e: seq<TokenValue>, i: nat, ctx: Context): (r: Result<EvalRet, EvalError>)
    requires i <= |e|
    ensures r.Ok? ==> i < r.value.pos <= |e|
    ensures r.Ok? ==> Sound(r.value)
    decreases |e| - i, 1
  {
    var u :- Unary(e, i, ctx);
    FactorialRest(e, u, ctx)
  }

  /** The `!` loop of `evalFactorial`: the argument is the exact value, or
      `BigIntegerValue()` of the CR when there is none, and must lie in [1, 10^9].
      An exact result replaces the CR by `CR.valueOf` of it. */
  function FactorialRest(e: seq<TokenValue>, acc: EvalRet, ctx: Context): (r: Result<EvalRet, EvalError>)
    requires acc.pos <= |e|
    ensures r.Ok? ==> acc.pos <= r.value.pos <= |e|
    ensures r.Ok? ==> Sound(r.value)
    ensures r.Ok? && !IsOperator(e, acc.pos, OpFact) ==> r.value.exact == acc.exact
    ensures IsOperator(e, acc.pos, OpFact) ==>
              var n := if acc.exact.Some? then acc.exact.value else ctx.bigIntegerValue(acc.val);
              (n <= 0 || n > BILLION ==> r == Err(ArithmeticError))
              && (0 < n <= BILLION && !IsOperator(e, acc.pos + 1, OpFact) ==>
                    r == Ok(EvalRet(acc.pos + 1, OfInt(Fact(n)), Some(Fact(n)))))
    ensures r.Ok? && IsOperator(e, acc.pos, OpFact) ==> r.value.exact.Some? && r.value.exact.value >= 1
    decreases |e| - acc.pos
  {
    if IsOperator(e, acc.pos, OpFact) then
      var n := if acc.exact.Some? then acc.exact.value else ctx.bigIntegerValue(acc.val);
      if n <= 0 || n > BILLION then Err(ArithmeticError)
      else FactorialRest(e, EvalRet(acc.pos + 1, acc.val, Some(Fact(n))), ctx)
    else if acc.exact.Some? then Ok(acc.(val := OfInt(acc.exact.value)))
    else Ok(acc)
  }

  /** `evalFactor`: a factorial expression, optionally raised to a signed factor. */
  function Factor(e: seq<TokenValue>, i: nat, ctx: Context): (r: Result<EvalRet, EvalError>)
    requires i <= |e|
    ensures r.Ok? ==> i < r.value.pos <= |e|
    ensures r.Ok? ==> Sound(r.value)
    decreases |e| - i, 2
  {
    var f :- Factorial(e, i, ctx);
    if IsOperator(e, f.pos, OpPow) then
      var x :- SignedFactor(e, f.pos + 1, ctx);
      Ok(PowStep(f, x))
    else Ok(f)
  }

  /** `evalSignedFactor`: an optional `-` before a factor. */
  function SignedFactor(e: seq<TokenValue>, i: nat, ctx: Context): (r: Result<EvalRet, EvalError>)
    requires i <= |e|
    ensures r.Ok? ==> i < r.value.pos <= |e|
    ensures r.Ok? ==> Sound(r.value)
    decreases |e| - i, 3
  {
    var negative := IsOperator(e, i, OpSub);
    var f :- Factor(e, if negative then i + 1 else i, ctx);
    Ok(if negative then Negate(f) else f)
  }

  /** `evalTerm`: a signed factor, then the `x`/`/`/implicit-multiplication loop. */
  function Term(e: seq<TokenValue>, i: nat, ctx: Context): (r: Result<EvalRet, EvalError>)
    requires i <= |e|
    ensures r.Ok? ==> i < r.value.pos <= |e|
    ensures r.Ok? ==> Sound(r.value)
    decreases |e| - i, 4
  {
    var s :- SignedFactor(e, i, ctx);
    TermRest(e, s, ctx)
  }

  /** The loop of `evalTerm`. Its right operand is a whole `evalTerm`, so `x` and `/`
      group to the right. */
  function TermRest(e: seq<TokenValue>, acc: EvalRet, ctx: Context): (r: Result<EvalRet, EvalError>)
    requires acc.pos <= |e|
    ensures r.Ok? ==> acc.pos <= r.value.pos <= |e|
    ensures r.Ok? && Sound(acc) ==> Sound(r.value)
    decreases |e| - acc.pos, 5
  {
    var isMul := IsOperator(e, acc.pos, OpMul);
    var isDiv := !isMul && IsOperator(e, acc.pos, OpDiv);
    if isMul || isDiv || CanStartFactor(e, acc.pos) then
      var t :- Term(e, if isMul || isDiv then acc.pos + 1 else acc.pos, ctx);
      var next :- if isDiv then DivStep(acc, t) else Ok(MulStep(acc, t));
      TermRest(e, next, ctx)
    else Ok(acc)
  }

  /** `evalExpr`: a term, then the `+`/`-` loop. */
  function Expr(e: seq<TokenValue>, i: nat, ctx: Context): (r: Result<EvalRet, EvalError>)
    requires i <= |e|
    ensures r.Ok? ==> i < r.value.pos <= |e|
    ensures r.Ok? ==> Sound(r.value)
    decreases |e| - i, 6
  {
    var t :- Term(e, i, ctx);
    ExprRest(e, t, ctx)
  }

  /** The loop of `evalExpr`. */
  function ExprRest(e: seq<TokenValue>, acc: EvalRet, ctx: Context): (r: Result<EvalRet, EvalError>)
    requires acc.pos <= |e|
    ensures r.Ok? ==> acc.pos <= r.value.pos <= |e|
    ensures r.Ok? && Sound(acc) ==> Sound(r.value)
    decreases |e| - acc.pos, 6
  {
    var plus := IsOperator(e, acc.pos, OpAdd);
    if plus || IsOperator(e, acc.pos, OpSub) then
      var t :- Term(e, acc.pos + 1, ctx);
      ExprRest(e, if plus then AddStep(acc, t) else SubStep(acc, t), ctx)
    else Ok(acc)
  }

  /** `eval`: the whole list must be consumed, otherwise the result is null (None). */
  function Evaluate(e: seq<TokenValue>, ctx: Context): (r: Result<Option<EvalRet>, EvalError>)
    ensures r.Ok? && r.value.Some? ==> r.value.value.pos == |e| && Sound(r.value.value)
    ensures Expr(e, 0, ctx).Err? ==> r == Err(Expr(e, 0, ctx).error)
    ensures Expr(e, 0, ctx).Ok? ==>
              r == if Expr(e, 0, ctx).value.pos == |e| then Ok(Some(Expr(e, 0, ctx).value)) else Ok(None)
  {
    var res :- Expr(e, 0, ctx);
    if res.pos != |e| then Ok(None) else Ok(Some(res))
  }

  // ---- genFactorial ----

  /** m * (m - s) * (m - 2s) * ..., over the factors greater than 1. */
  function Tail(m: int, s: int): int
    requires s >= 1
    decreases m
  {
    if m > 1 then m * Tail(m - s, s) else 1
  }

  /** What `genFactorial(n, step)` computes: n * (n - step) * (n - 2 step) * ... down
      to the last factor above 1 (n itself is always a factor). */
  function StepProduct(n: int, s: int): int
    requires s >= 1
  {
    n * Tail(n - s, s)
  }

  // Two rearrangements of a product, kept apart from the proofs below so that the
  // solver meets the nonlinear arithmetic in a small context.

  lemma MulRearrange(a: int, b: int, c: int)
    ensures a * (b * c) == (a * c) * b
  {
  }

  lemma MulAssoc(a: int, b: int, c: int)
    ensures a * (b * c) == (a * b) * c
  {
  }

  /** Taking every other factor: the products with step 2s from m and from m - s
      together make the product with step s. */
  lemma {:induction false} TailSplit(m: int, s: int)
    requires s >= 1
    ensures Tail(m, s) == Tail(m, 2 * s) * Tail(m - s, 2 * s)
    decreases m
  {
    if m > 1 {
      TailSplit(m - s, s);
      var x := Tail(m - s, 2 * s);
      var y := Tail(m - s - s, 2 * s);
      assert Tail(m - s, s) == x * y;
      assert Tail(m, 2 * s) == m * y;
      MulRearrange(m, x, y);
    }
  }

  /** The recursive case of `genFactorial` is right: above 4 * step, the two halves
      multiply to the whole product. */
  lemma StepProductSplit(n: int, s: int)
    requires s >= 1 && n > 4 * s
    ensures StepProduct(n, s) == StepProduct(n, 2 * s) * StepProduct(n - s, 2 * s)
  {
    TailSplit(n - s, s);
    var y := Tail(n - s - s, 2 * s);
    var z := Tail(n - s - 2 * s, 2 * s);
    assert Tail(n - s, 2 * s) == (n - s) * z;
    assert StepProduct(n, s) == n * (((n - s) * z) * y);
    assert StepProduct(n, 2 * s) == n * y;
    assert StepProduct(n - s, 2 * s) == (n - s) * z;
    MulRearrange(n, (n - s) * z, y);
  }

  lemma {:induction false} TailFact(m: int)
    requires m >= 0
    ensures Tail(m, 1) == Fact(m)
    decreases m
  {
    if m > 1 {
      TailFact(m - 1);
    }
  }

  /** With step 1 the product is the factorial. */
  lemma StepProductFact(n: nat)
    requires n >= 1
    ensures StepProduct(n, 1) == Fact(n)
  {
    TailFact(n - 1);
  }

  /** `genFactorial`: split into two interleaved products while n > 4 * step, then
      multiply the remaining factors in a loop. */
  method GenFactorial(n: int, step: int) returns (r: int)
    requires step >= 1
    ensures r == StepProduct(n, step)
    ensures step == 1 && n >= 1 ==> r == Fact(n)
    decreases n - step
  {
    if n > 4 * step {
      var prod1 := GenFactorial(n, 2 * step);
      var prod2 := GenFactorial(n - step, 2 * step);
      StepProductSplit(n, step);
      r := prod1 * prod2;
    } else {
      r := n;
      var i := n - step;
      while i > 1
        invariant r * Tail(i, step) == StepProduct(n, step)
        decreases i
      {
        var rest := Tail(i - step, step);
        assert Tail(i, step) == i * rest;
        MulAssoc(r, i, rest);
        r := r * i;
        i := i - step;
      }
    }
    if step == 1 && n >= 1 {
      StepProductFact(n);
    }
  }

  // ---- The evaluator's methods, each equal to its function ----

  /** `evalUnary`. */
  method EvalUnary(e: seq<TokenValue>, i: nat, ctx: Context) returns (r: Result<EvalRet, EvalError>)
    requires i <= |e|
    ensures r == Unary(e, i, ctx)
    decreases |e| - i, 0
  {
    if i >= |e| {
      return Err(SyntaxError);
    }
    match e[i] {
      case Const(c) =>
        r := ConstantToken(c, i);
      case PreEval(p) =>
        r := Ok(EvalRet(i + 1, p.value, p.intValue));
      case Op(id) =>
        if id == ConstPi {
          r := Ok(EvalRet(i + 1, Pi, None));
        } else if id == ConstE {
          r := Ok(EvalRet(i + 1, Exp(OfInt(1)), None));
        } else if id == OpSqrt {
          var a :- EvalUnary(e, i + 1, ctx);
          r := Ok(EvalRet(a.pos, Sqrt(a.val), None));
        } else if IsFunctionKey(id) {
          var a :- EvalExpr(e, i + 1, ctx);
          r := Ok(ApplyFunction(id, CloseParen(e, a), ctx));
        } else {
          r := Err(SyntaxError);
        }
    }
  }

  /** `evalFactorial`: the `!` loop. */
  method EvalFactorial(e: seq<TokenValue>, i: nat, ctx: Context) returns (r: Result<EvalRet, EvalError>)
    requires i <= |e|
    ensures r == Factorial(e, i, ctx)
    decreases |e| - i, 1
  {
    var acc :- EvalUnary(e, i, ctx);
    while IsOperator(e, acc.pos, OpFact)
      invariant i < acc.pos <= |e|
      invariant Factorial(e, i, ctx) == FactorialRest(e, acc, ctx)
      decreases |e| - acc.pos
    {
      var n := if acc.exact.Some? then acc.exact.value else ctx.bigIntegerValue(acc.val);
      if n <= 0 || n > BILLION {
        return Err(ArithmeticError);
      }
      var f := GenFactorial(n, 1);
      acc := EvalRet(acc.pos + 1, acc.val, Some(f));
    }
    if acc.exact.Some? {
      acc := acc.(val := OfInt(acc.exact.value));
    }
    r := Ok(acc);
  }

  /** `evalFactor`. */
  method EvalFactor(e: seq<TokenValue>, i: nat, ctx: Context) returns (r: Result<EvalRet, EvalError>)
    requires i <= |e|
    ensures r == Factor(e, i, ctx)
    decreases |e| - i, 2
  {
    var f :- EvalFactorial(e, i, ctx);
    if IsOperator(e, f.pos, OpPow) {
      var x :- EvalSignedFactor(e, f.pos + 1, ctx);
      r := Ok(PowStep(f, x));
    } else {
      r := Ok(f);
    }
  }

  /** `evalSignedFactor`. */
  method EvalSignedFactor(e: seq<TokenValue>, i: nat, ctx: Context) returns (r: Result<EvalRet, EvalError>)
    requires i <= |e|
    ensures r == SignedFactor(e, i, ctx)
    decreases |e| - i, 3
  {
    var negative := IsOperator(e, i, OpSub);
    var f :- EvalFactor(e, if negative then i + 1 else i, ctx);
    r := Ok(if negative then Negate(f) else f);
  }

  /** `evalTerm`: the multiplication and division loop. */
  method EvalTerm(e: seq<TokenValue>, i: nat, ctx: Context) returns (r: Result<EvalRet, EvalError>)
    requires i <= |e|
    ensures r == Term(e, i, ctx)
    decreases |e| - i, 4
  {
    var acc :- EvalSignedFactor(e, i, ctx);
    var isMul := IsOperator(e, acc.pos, OpMul);
    var isDiv := !isMul && IsOperator(e, acc.pos, OpDiv);
    while isMul || isDiv || CanStartFactor(e, acc.pos)
      invariant i < acc.pos <= |e|
      invariant isMul == IsOperator(e, acc.pos, OpMul)
      invariant isDiv == (!isMul && IsOperator(e, acc.pos, OpDiv))
      invariant Term(e, i, ctx) == TermRest(e, acc, ctx)
      decreases |e| - acc.pos
    {
      var t :- EvalTerm(e, if isMul || isDiv then acc.pos + 1 else acc.pos, ctx);
      if isDiv {
        acc :- DivStep(acc, t);
      } else {
        acc := MulStep(acc, t);
      }
      isMul := IsOperator(e, acc.pos, OpMul);
      isDiv := !isMul && IsOperator(e, acc.pos, OpDiv);
    }
    r := Ok(acc);
  }

  /** `evalExpr`: the addition and subtraction loop. */
  method EvalExpr(e: seq<TokenValue>, i: nat, ctx: Context) returns (r: Result<EvalRet, EvalError>)
    requires i <= |e|
    ensures r == Expr(e, i, ctx)
    decreases |e| - i, 6
  {
    var acc :- EvalTerm(e, i, ctx);
    while IsOperator(e, acc.pos, OpAdd) || IsOperator(e, acc.pos, OpSub)
      invariant i < acc.pos <= |e|
      invariant Expr(e, i, ctx) == ExprRest(e, acc, ctx)
      decreases |e| - acc.pos
    {
      var plus := IsOperator(e, acc.pos, OpAdd);
      var t :- EvalTerm(e, acc.pos + 1, ctx);
      acc := if plus then AddStep(acc, t) else SubStep(acc, t);
    }
    r := Ok(acc);
  }

  /** `eval`: evaluate from position 0; an unused token makes the result null. */
  method EvaluateTokens(e: seq<TokenValue>, ctx: Context) returns (r: Result<Option<EvalRet>, EvalError>)
    ensures r == Evaluate(e, ctx)
  {
    var res :- EvalExpr(e, 0, ctx);
    if res.pos != |e| {
      return Ok(None);
    }
    return Ok(Some(res));
  }

  // ---- The grammar on small expressions ----

  /** An integer literal token. */
  function Lit(digits: string): TokenValue
  {
    Const(ConstValue(digits, false, ""))
  }

  /** An integer literal token reads as its digits, exactly. */
  lemma LiteralToken(digits: string, i: nat, ctx: Context)
    requires digits != [] && AllDigits(digits)
    ensures ConstantToken(ConstValue(digits, false, ""), i)
            == Ok(EvalRet(i + 1, OfDecimal(digits), Some(DigitsValue(digits))))
  {
    assert ConstValue(digits, false, "").ToString() == digits + "" == digits;
  }

  // One step of the grammar at a time, so that the small expressions below are
  // evaluated level by level rather than by unfolding the whole descent at once.

  /** A unary expression followed by neither `!` nor `^` is a factor, and, without a
      leading `-`, a signed factor; an exact value gets the CR of that integer. */
  lemma PlainFactor(e: seq<TokenValue>, i: nat, ctx: Context, u: EvalRet)
    requires i < |e| && Unary(e, i, ctx) == Ok(u)
    requires !IsOperator(e, u.pos, OpFact) && !IsOperator(e, u.pos, OpPow)
    ensures var v := if u.exact.Some? then u.(val := OfInt(u.exact.value)) else u;
            Factor(e, i, ctx) == Ok(v) && (!IsOperator(e, i, OpSub) ==> SignedFactor(e, i, ctx) == Ok(v))
  {
  }

  /** A parenthesis before an expression: the expression and its optional `)`. */
  lemma UnaryParen(e: seq<TokenValue>, i: nat, ctx: Context, a: EvalRet)
    requires i < |e| && e[i] == Op(LParen) && Expr(e, i + 1, ctx) == Ok(a)
    ensures Unary(e, i, ctx) == Ok(CloseParen(e, a))
  {
  }

  lemma TermStart(e: seq<TokenValue>, i: nat, ctx: Context, s: EvalRet)
    requires i <= |e| && SignedFactor(e, i, ctx) == Ok(s)
    ensures Term(e, i, ctx) == TermRest(e, s, ctx)
  {
  }

  lemma TermRestEnd(e: seq<TokenValue>, acc: EvalRet, ctx: Context)
    requires acc.pos <= |e|
    requires !IsOperator(e, acc.pos, OpMul) && !IsOperator(e, acc.pos, OpDiv) && !CanStartFactor(e, acc.pos)
    ensures TermRest(e, acc, ctx) == Ok(acc)
  {
  }

  lemma TermRestMul(e: seq<TokenValue>, acc: EvalRet, t: EvalRet, ctx: Context)
    requires acc.pos <= |e| && IsOperator(e, acc.pos, OpMul) && Term(e, acc.pos + 1, ctx) == Ok(t)
    ensures TermRest(e, acc, ctx) == TermRest(e, MulStep(acc, t), ctx)
  {
  }

  lemma TermRestImplicit(e: seq<TokenValue>, acc: EvalRet, t: EvalRet, ctx: Context)
    requires acc.pos <= |e| && !IsOperator(e, acc.pos, OpMul) && !IsOperator(e, acc.pos, OpDiv)
    requires CanStartFactor(e, acc.pos) && Term(e, acc.pos, ctx) == Ok(t)
    ensures TermRest(e, acc, ctx) == TermRest(e, MulStep(acc, t), ctx)
  {
  }

  lemma TermRestDiv(e: seq<TokenValue>, acc: EvalRet, t: EvalRet, ctx: Context)
    requires acc.pos <= |e| && IsOperator(e, acc.pos, OpDiv) && Term(e, acc.pos + 1, ctx) == Ok(t)
    ensures DivStep(acc, t).Err? ==> TermRest(e, acc, ctx) == Err(ArithmeticError)
    ensures DivStep(acc, t).Ok? ==> TermRest(e, acc, ctx) == TermRest(e, DivStep(acc, t).value, ctx)
  {
  }

  lemma ExprStart(e: seq<TokenValue>, i: nat, ctx: Context, t: EvalRet)
    requires i <= |e| && Term(e, i, ctx) == Ok(t)
    ensures Expr(e, i, ctx) == ExprRest(e, t, ctx)
  {
  }

  lemma ExprRestEnd(e: seq<TokenValue>, acc: EvalRet, ctx: Context)
    requires acc.pos <= |e| && !IsOperator(e, acc.pos, OpAdd) && !IsOperator(e, acc.pos, OpSub)
    ensures ExprRest(e, acc, ctx) == Ok(acc)
  {
  }

  lemma ExprRestAdd(e: seq<TokenValue>, acc: EvalRet, t: EvalRet, ctx: Context)
    requires acc.pos <= |e| && IsOperator(e, acc.pos, OpAdd) && Term(e, acc.pos + 1, ctx) == Ok(t)
    ensures ExprRest(e, acc, ctx) == ExprRest(e, AddStep(acc, t), ctx)
  {
  }

  /** An integer literal not followed by `!` or `^` is a signed factor whose value is
      exact. */
  lemma LiteralFactor(e: seq<TokenValue>, i: nat, ctx: Context, digits: string)
    requires i < |e| && e[i] == Lit(digits) && digits != [] && AllDigits(digits)
    requires !IsOperator(e, i + 1, OpFact) && !IsOperator(e, i + 1, OpPow)
    ensures SignedFactor(e, i, ctx) == Ok(EvalRet(i + 1, OfInt(DigitsValue(digits)), Some(DigitsValue(digits))))
  {
    LiteralToken(digits, i, ctx);
    PlainFactor(e, i, ctx, EvalRet(i + 1, OfDecimal(digits), Some(DigitsValue(digits))));
  }

  /** A literal that nothing multiplies is a whole term. */
  lemma LiteralTerm(e: seq<TokenValue>, i: nat, ctx: Context, digits: string)
    requires i < |e| && e[i] == Lit(digits) && digits != [] && AllDigits(digits)
    requires !IsOperator(e, i + 1, OpFact) && !IsOperator(e, i + 1, OpPow)
    requires !IsOperator(e, i + 1, OpMul) && !IsOperator(e, i + 1, OpDiv) && !CanStartFactor(e, i + 1)
    ensures Term(e, i, ctx) == Ok(EvalRet(i + 1, OfInt(DigitsValue(digits)), Some(DigitsValue(digits))))
  {
    var lit := EvalRet(i + 1, OfInt(DigitsValue(digits)), Some(DigitsValue(digits)));
    LiteralFactor(e, i, ctx, digits);
    TermStart(e, i, ctx, lit);
    TermRestEnd(e, lit, ctx);
  }

  /** 2 + 2: addition of two integers is exact. */
  lemma TwoPlusTwo(e: seq<TokenValue>, ctx: Context)
    requires |e| == 3 && e[0] == Lit("2") && e[1] == Op(OpAdd) && e[2] == Lit("2")
    ensures Evaluate(e, ctx) == Ok(Some(EvalRet(3, OfInt(4), Some(4))))
  {
    assert DigitsValue("2") == 2;
    var two0 := EvalRet(1, OfInt(2), Some(2));
    var two2 := EvalRet(3, OfInt(2), Some(2));
    LiteralTerm(e, 0, ctx, "2");
    LiteralTerm(e, 2, ctx, "2");
    var four := AddStep(two0, two2);
    assert four == EvalRet(3, OfInt(4), Some(4));
    ExprStart(e, 0, ctx, two0);
    ExprRestAdd(e, two0, two2, ctx);
    ExprRestEnd(e, four, ctx);
  }

  /** 6 / 2 x 3 is 1: the right operand of `/` is the whole term `2 x 3`. */
  lemma DivisionGroupsRight(e: seq<TokenValue>, ctx: Context)
    requires |e| == 5 && e[0] == Lit("6") && e[1] == Op(OpDiv) && e[2] == Lit("2")
    requires e[3] == Op(OpMul) && e[4] == Lit("3")
    ensures Evaluate(e, ctx) == Ok(Some(EvalRet(5, OfInt(1), Some(1))))
  {
    assert DigitsValue("6") == 6 && DigitsValue("2") == 2 && DigitsValue("3") == 3;
    var six := EvalRet(1, OfInt(6), Some(6));
    var two := EvalRet(3, OfInt(2), Some(2));
    var three := EvalRet(5, OfInt(3), Some(3));
    LiteralFactor(e, 0, ctx, "6");
    LiteralFactor(e, 2, ctx, "2");
    LiteralTerm(e, 4, ctx, "3");
    var product := MulStep(two, three);
    assert product == EvalRet(5, OfInt(6), Some(6));
    TermStart(e, 2, ctx, two);
    TermRestMul(e, two, three, ctx);
    TermRestEnd(e, product, ctx);
    var one := EvalRet(5, OfInt(1), Some(1));
    assert DivStep(six, product) == Ok(one);
    TermStart(e, 0, ctx, six);
    TermRestDiv(e, six, product, ctx);
    TermRestEnd(e, one, ctx);
    ExprStart(e, 0, ctx, one);
    ExprRestEnd(e, one, ctx);
  }

  /** A parenthesised literal at the end of the list is a term with the literal's value. */
  lemma ParenthesisedLiteral(e: seq<TokenValue>, i: nat, ctx: Context, digits: string)
    requires i + 3 == |e| && e[i] == Op(LParen) && e[i + 1] == Lit(digits) && e[i + 2] == Op(RParen)
    requires digits != [] && AllDigits(digits)
    ensures Term(e, i, ctx) == Ok(EvalRet(i + 3, OfInt(DigitsValue(digits)), Some(DigitsValue(digits))))
  {
    var v := DigitsValue(digits);
    var inner := EvalRet(i + 2, OfInt(v), Some(v));
    var closed := EvalRet(i + 3, OfInt(v), Some(v));
    LiteralTerm(e, i + 1, ctx, digits);
    ExprStart(e, i + 1, ctx, inner);
    ExprRestEnd(e, inner, ctx);
    UnaryParen(e, i, ctx, inner);
    assert CloseParen(e, inner) == closed;
    PlainFactor(e, i, ctx, closed);
    TermStart(e, i, ctx, closed);
    TermRestEnd(e, closed, ctx);
  }

  /** A factor followed directly by a term that ends the list's product is their
      implicit product. */
  lemma ImplicitProductStep(e: seq<TokenValue>, i: nat, ctx: Context, a: EvalRet, b: EvalRet)
    requires i <= |e| && SignedFactor(e, i, ctx) == Ok(a) && a.pos <= |e|
    requires !IsOperator(e, a.pos, OpMul) && !IsOperator(e, a.pos, OpDiv) && CanStartFactor(e, a.pos)
    requires Term(e, a.pos, ctx) == Ok(b)
    requires MulStep(a, b).pos <= |e| && !IsOperator(e, MulStep(a, b).pos, OpMul)
    requires !IsOperator(e, MulStep(a, b).pos, OpDiv) && !CanStartFactor(e, MulStep(a, b).pos)
    ensures Term(e, i, ctx) == Ok(MulStep(a, b))
  {
    TermStart(e, i, ctx, a);
    TermRestImplicit(e, a, b, ctx);
    TermRestEnd(e, MulStep(a, b), ctx);
  }

  /** The exact product step on 2 and 3. */
  lemma TwoTimesThree()
    ensures MulStep(EvalRet(1, OfInt(2), Some(2)), EvalRet(4, OfInt(3), Some(3))) == EvalRet(4, OfInt(6), Some(6))
  {
  }

  /** A literal followed by a parenthesised literal is their implicit product. */
  lemma LiteralTimesParenthesised(e: seq<TokenValue>, ctx: Context, x: string, y: string)
    requires |e| == 4 && e[0] == Lit(x) && e[1] == Op(LParen) && e[2] == Lit(y) && e[3] == Op(RParen)
    requires x != [] && AllDigits(x) && y != [] && AllDigits(y)
    ensures Term(e, 0, ctx)
            == Ok(MulStep(EvalRet(1, OfInt(DigitsValue(x)), Some(DigitsValue(x))),
                          EvalRet(4, OfInt(DigitsValue(y)), Some(DigitsValue(y)))))
  {
    var a := EvalRet(1, OfInt(DigitsValue(x)), Some(DigitsValue(x)));
    var b := EvalRet(4, OfInt(DigitsValue(y)), Some(DigitsValue(y)));
    assert SignedFactor(e, 0, ctx) == Ok(a) by {
      LiteralFactor(e, 0, ctx, x);
    }
    assert Term(e, 1, ctx) == Ok(b) by {
      ParenthesisedLiteral(e, 1, ctx, y);
    }
    ImplicitProductStep(e, 0, ctx, a, b);
  }

  /** The term 2(3): the parenthesis is a factor that can start a product. */
  lemma ImplicitProductTerm(e: seq<TokenValue>, ctx: Context)
    requires |e| == 4 && e[0] == Lit("2") && e[1] == Op(LParen) && e[2] == Lit("3")
    requires e[3] == Op(RParen)
    ensures Term(e, 0, ctx) == Ok(EvalRet(4, OfInt(6), Some(6)))
  {
    assert DigitsValue("2") == 2 && DigitsValue("3") == 3;
    LiteralTimesParenthesised(e, ctx, "2", "3");
    TwoTimesThree();
  }

  /** 2(3) is 6: a parenthesis after a number multiplies. */
  lemma ImplicitMultiplication(e: seq<TokenValue>, ctx: Context)
    requires |e| == 4 && e[0] == Lit("2") && e[1] == Op(LParen) && e[2] == Lit("3")
    requires e[3] == Op(RParen)
    ensures Evaluate(e, ctx) == Ok(Some(EvalRet(4, OfInt(6), Some(6))))
  {
    ImplicitProductTerm(e, ctx);
    var six := EvalRet(4, OfInt(6), Some(6));
    ExprStart(e, 0, ctx, six);
    ExprRestEnd(e, six, ctx);
  }

  /** (2 is 2: a missing closing parenthesis is tolerated. */
  lemma MissingParenthesis(e: seq<TokenValue>, ctx: Context)
    requires |e| == 2 && e[0] == Op(LParen) && e[1] == Lit("2")
    ensures Evaluate(e, ctx) == Ok(Some(EvalRet(2, OfInt(2), Some(2))))
  {
    assert DigitsValue("2") == 2;
    var two := EvalRet(2, OfInt(2), Some(2));
    LiteralTerm(e, 1, ctx, "2");
    ExprStart(e, 1, ctx, two);
    ExprRestEnd(e, two, ctx);
    UnaryParen(e, 0, ctx, two);
    assert CloseParen(e, two) == two;
    PlainFactor(e, 0, ctx, two);
    TermStart(e, 0, ctx, two);
    TermRestEnd(e, two, ctx);
    ExprStart(e, 0, ctx, two);
  }

  /** 0! is an arithmetic error: the factorial argument must be at least 1. */
  lemma ZeroFactorial(e: seq<TokenValue>, ctx: Context)
    requires |e| == 2 && e[0] == Lit("0") && e[1] == Op(OpFact)
    ensures Evaluate(e, ctx) == Err(ArithmeticError)
  {
    assert DigitsValue("0") == 0;
    var zero := EvalRet(1, OfDecimal("0"), Some(0));
    LiteralToken("0", 0, ctx);
    assert Unary(e, 0, ctx) == Ok(zero);
    assert FactorialRest(e, zero, ctx) == Err(ArithmeticError);
    assert Factorial(e, 0, ctx) == Err(ArithmeticError);
    assert SignedFactor(e, 0, ctx) == Err(ArithmeticError);
    assert Term(e, 0, ctx) == Err(ArithmeticError);
    assert Expr(e, 0, ctx) == Err(ArithmeticError);
  }

  /** 6 / -2 is an arithmetic error: `BigInteger.mod` refuses a negative divisor. */
  lemma NegativeDivisor(e: seq<TokenValue>, ctx: Context)
    requires |e| == 4 && e[0] == Lit("6") && e[1] == Op(OpDiv) && e[2] == Op(OpSub)
    requires e[3] == Lit("2")
    ensures Evaluate(e, ctx) == Err(ArithmeticError)
  {
    assert DigitsValue("6") == 6 && DigitsValue("2") == 2;
    var six := EvalRet(1, OfInt(6), Some(6));
    var two := EvalRet(4, OfInt(2), Some(2));
    LiteralFactor(e, 0, ctx, "6");
    LiteralToken("2", 3, ctx);
    PlainFactor(e, 3, ctx, EvalRet(4, OfDecimal("2"), Some(2)));
    var minusTwo := Negate(two);
    assert SignedFactor(e, 2, ctx) == Ok(minusTwo);
    TermStart(e, 2, ctx, minusTwo);
    TermRestEnd(e, minusTwo, ctx);
    assert DivStep(six, minusTwo).Err?;
    TermStart(e, 0, ctx, six);
    TermRestDiv(e, six, minusTwo, ctx);
  }

  /** 5 / 0 is an arithmetic error. */
  lemma DivisionByZero(e: seq<TokenValue>, ctx: Context)
    requires |e| == 3 && e[0] == Lit("5") && e[1] == Op(OpDiv) && e[2] == Lit("0")
    ensures Evaluate(e, ctx) == Err(ArithmeticError)
  {
    assert DigitsValue("5") == 5 && DigitsValue("0") == 0;
    var five := EvalRet(1, OfInt(5), Some(5));
    var zero := EvalRet(3, OfInt(0), Some(0));
    LiteralFactor(e, 0, ctx, "5");
    LiteralTerm(e, 2, ctx, "0");
    assert DivStep(five, zero).Err?;
    TermStart(e, 0, ctx, five);
    TermRestDiv(e, five, zero, ctx);
  }

  /** 2) leaves a token unused, and `eval` answers null. */
  lemma UnusedToken(e: seq<TokenValue>, ctx: Context)
    requires |e| == 2 && e[0] == Lit("2") && e[1] == Op(RParen)
    ensures Evaluate(e, ctx) == Ok(None)
  {
    assert DigitsValue("2") == 2;
    var two := EvalRet(1, OfInt(2), Some(2));
    LiteralTerm(e, 0, ctx, "2");
    ExprStart(e, 0, ctx, two);
    ExprRestEnd(e, two, ctx);
  }

  /** The empty expression runs off the end of the list: a syntax error. */
  lemma EmptyExpression(ctx: Context)
    ensures Evaluate([], ctx) == Err(SyntaxError)
  {
    assert Unary([], 0, ctx) == Err(SyntaxError);
    assert Factorial([], 0, ctx) == Err(SyntaxError);
    assert SignedFactor([], 0, ctx) == Err(SyntaxError);
    assert Term([], 0, ctx) == Err(SyntaxError);
  }

  /** A lone decimal point is an integral constant with no whole digits, and
      `new BigInteger("")` throws. */
  lemma LonePoint(e: seq<TokenValue>, ctx: Context)
    requires |e| == 1 && e[0] == Const(ConstValue("", true, ""))
    ensures Evaluate(e, ctx) == Err(NumberFormatError)
  {
    assert Unary(e, 0, ctx) == Err(NumberFormatError);
    assert Factorial(e, 0, ctx) == Err(NumberFormatError);
    assert SignedFactor(e, 0, ctx) == Err(NumberFormatError);
    assert Term(e, 0, ctx) == Err(NumberFormatError);
  }
}
