/** Editing the expression of CalculatorExpr.java one key press at a time. The pure
    functions `AddSpec` and `DeleteSpec` say what `add` and `delete` do to the list of
    token values; the classes `Constant` and `CalculatorExpr` below carry out the same
    edits in place and are proved to follow them. */
module Expressions {
  import opened Wrappers
  import opened Text
  import opened Keys
  import opened Reals
  import opened Tokens
  import opened Parser

  /** What the editor keeps of every list it builds: each constant is a well formed,
      nonempty digit string (the class comment's "tokens are always nonempty"). */
  predicate WellFormed(e: seq<TokenValue>)
  {
    forall i :: 0 <= i < |e| ==> (e[i].Const? ==> e[i].c.Valid() && !e[i].c.IsEmpty())
  }

  /** `hasTrailingBinary`: the last token is a binary operator. */
  predicate HasTrailingBinary(e: seq<TokenValue>)
  {
    |e| > 0 && e[|e| - 1].Op? && IsBinary(e[|e| - 1].id)
  }

  /** The operators after which a digit can never follow. */
  predicate EndsOperand(id: Key)
  {
    id == ConstE || id == ConstPi || id == OpFact || id == RParen
  }

  /** The constant a digit or point starts when it begins a new `Constant`. */
  function NewConstant(k: Key): (c: ConstValue)
    requires IsConstPiece(k)
    ensures ConstAdd(EmptyConstant, k) == Some(c)
    ensures c.Valid() && !c.IsEmpty()
  {
    ConstAddDelete(EmptyConstant, k);
    ConstAdd(EmptyConstant, k).value
  }

  /** `add(id)`: the new list, or None when the key press is refused. */
  function AddSpec(e: seq<TokenValue>, k: Key): Option<seq<TokenValue>>
  {
    var s := |e|;
    var binary := IsBinary(k);
    if s == 0 && binary && k != OpSub then None
    else if binary && HasTrailingBinary(e) && (k != OpSub || IsOperator(e, s - 1, OpSub)) then None
    else if IsConstPiece(k) then
      if s == 0 then Some([Const(NewConstant(k))])
      else match e[s - 1]
        case Const(c) =>
          (match ConstAdd(c, k)
           case None => None
           case Some(c') => Some(e[..s - 1] + [Const(c')]))
        case PreEval(_) => None
        case Op(id) => if EndsOperand(id) then None else Some(e + [Const(NewConstant(k))])
    else Some(e + [Op(k)])
  }

  /** `delete`: nothing on an empty list; otherwise undo the last key of a trailing
      constant, dropping the constant when that empties it, or drop the last token. */
  function DeleteSpec(e: seq<TokenValue>): seq<TokenValue>
  {
    if e == [] then []
    else match e[|e| - 1]
      case Const(c) =>
        if c.IsEmpty() then e[..|e| - 1]
        else
          var c' := ConstDelete(c);
          if c'.IsEmpty() then e[..|e| - 1] else e[..|e| - 1] + [Const(c')]
      case _ => e[..|e| - 1]
  }

  /** A binary operator other than `-` cannot start an expression; `-` can. */
  lemma BinaryOnEmpty(k: Key)
    requires IsBinary(k)
    ensures AddSpec([], k) == if k == OpSub then Some([Op(OpSub)]) else None
  {
    assert !IsConstPiece(k);
    assert [] + [Op(k)] == [Op(k)];
  }

  /** After a binary operator, another binary operator is accepted only when it is
      `-` and the trailing one is not, and then it is appended. */
  lemma BinaryAfterBinary(e: seq<TokenValue>, k: Key)
    requires HasTrailingBinary(e) && IsBinary(k)
    ensures AddSpec(e, k) == if k == OpSub && e[|e| - 1] != Op(OpSub) then Some(e + [Op(k)]) else None
  {
  }

  /** A digit or point cannot follow e, pi, `!`, `)` or a pre-evaluated value. */
  lemma NoDigitAfterOperand(e: seq<TokenValue>, k: Key)
    requires IsConstPiece(k) && |e| > 0
    requires e[|e| - 1].PreEval? || (e[|e| - 1].Op? && EndsOperand(e[|e| - 1].id))
    ensures AddSpec(e, k) == None
  {
  }

  /** A second decimal point in the trailing constant is refused. */
  lemma SecondDecimalPoint(e: seq<TokenValue>)
    requires |e| > 0 && e[|e| - 1].Const? && e[|e| - 1].c.sawDecimal
    ensures AddSpec(e, DecPoint) == None
  {
  }

  /** Digits extend the trailing constant in place: the list keeps its length and its
      last constant's text grows by the digit. */
  lemma DigitExtendsConstant(e: seq<TokenValue>, k: Key)
    requires WellFormed(e) && |e| > 0 && e[|e| - 1].Const? && DigVal(k) < NOT_DIGIT
    ensures AddSpec(e, k).Some?
    ensures var e' := AddSpec(e, k).value;
            |e'| == |e| && e'[..|e| - 1] == e[..|e| - 1] && e'[|e| - 1].Const?
            && e'[|e| - 1].c.ToString() == e[|e| - 1].c.ToString() + [DigitChar(DigVal(k))]
  {
    ConstAddDelete(e[|e| - 1].c, k);
    var e' := AddSpec(e, k).value;
    assert e'[..|e| - 1] == e[..|e| - 1];
  }

  /** Accepted key presses keep the list well formed. */
  lemma {:induction false} AddWellFormed(e: seq<TokenValue>, k: Key)
    requires WellFormed(e) && AddSpec(e, k).Some?
    ensures WellFormed(AddSpec(e, k).value)
  {
    var e' := AddSpec(e, k).value;
    if IsConstPiece(k) && |e| > 0 && e[|e| - 1].Const? {
      ConstAddDelete(e[|e| - 1].c, k);
      forall i | 0 <= i < |e'| && e'[i].Const?
        ensures e'[i].c.Valid() && !e'[i].c.IsEmpty()
      {
        if i < |e| - 1 {
          assert e'[i] == e[i];
        }
      }
    }
  }

  /** `delete` keeps the list well formed. */
  lemma {:induction false} DeleteWellFormed(e: seq<TokenValue>)
    requires WellFormed(e)
    ensures WellFormed(DeleteSpec(e))
  {
    if e != [] && e[|e| - 1].Const? {
      ConstDeleteValid(e[|e| - 1].c);
    }
  }

  /** `delete` undoes an accepted `add`. */
  lemma {:induction false} DeleteUndoesAdd(e: seq<TokenValue>, k: Key)
    requires WellFormed(e) && AddSpec(e, k).Some?
    ensures DeleteSpec(AddSpec(e, k).value) == e
  {
    var e' := AddSpec(e, k).value;
    if IsConstPiece(k) {
      if |e| > 0 && e[|e| - 1].Const? {
        var c := e[|e| - 1].c;
        ConstAddDelete(c, k);
        assert e'[|e'| - 1] == Const(ConstAdd(c, k).value);
        assert e'[..|e'| - 1] + [Const(c)] == e;
      } else {
        var c := NewConstant(k);
        ConstAddDelete(EmptyConstant, k);
        assert ConstDelete(c) == EmptyConstant;
        assert e'[..|e'| - 1] == e;
      }
    } else {
      assert e'[..|e'| - 1] == e;
    }
  }

  /** Typing "." into an empty expression is accepted, and the resulting expression
      reaches `new BigInteger("")` in `evalUnary`: the one well formed list on which
      evaluation throws `NumberFormatException`, outside the exceptions the evaluator
      catches. */
  lemma LonePointReachable(ctx: Context)
    ensures AddSpec([], DecPoint) == Some([Const(ConstValue("", true, ""))])
    ensures WellFormed([Const(ConstValue("", true, ""))])
    ensures Evaluate([Const(ConstValue("", true, ""))], ctx) == Err(NumberFormatError)
  {
    LonePoint([Const(ConstValue("", true, ""))], ctx);
  }

  // ---- The mutable tokens and expression ----

  /** `Constant`: a numeric constant being typed, changed in place by `add`/`delete`. */
  class Constant {
    var whole: string
    var sawDecimal: bool
    var fraction: string

    function Value(): ConstValue
      reads this
    {
      ConstValue(whole, sawDecimal, fraction)
    }

    constructor ()
      ensures Value() == EmptyConstant
    {
      whole := "";
      sawDecimal := false;
      fraction := "";
    }

    /** `add`: refuses (false) only a second decimal point, and then changes nothing. */
    method Add(k: Key) returns (ok: bool)
      requires IsConstPiece(k)
      modifies this
      ensures ok == ConstAdd(old(Value()), k).Some?
      ensures Value() == if ok then ConstAdd(old(Value()), k).value else old(Value())
    {
      if k == DecPoint {
        if sawDecimal {
          return false;
        }
        sawDecimal := true;
        return true;
      }
      var d := DigitChar(DigVal(k));
      if sawDecimal {
        fraction := fraction + [d];
      } else {
        whole := whole + [d];
      }
      ok := true;
    }

    /** `delete`: undo the last `add`; the constant must not be empty. */
    method Delete()
      requires !Value().IsEmpty()
      modifies this
      ensures Value() == ConstDelete(old(Value()))
    {
      if fraction != [] {
        fraction := fraction[..|fraction| - 1];
      } else if sawDecimal {
        sawDecimal := false;
      } else {
        whole := whole[..|whole| - 1];
      }
    }

    /** `clone`: a new object with the same state. */
    method Clone() returns (c: Constant)
      ensures fresh(c) && c.Value() == Value()
    {
      c := new Constant();
      c.whole := whole;
      c.fraction := fraction;
      c.sawDecimal := sawDecimal;
    }
  }

  /** An element of `mExpr`: constants are objects, the other tokens immutable values. */
  datatype Token = ConstTok(c: Constant) | OpTok(id: Key) | PreEvalTok(p: PreEvalValue)

  /** The constant objects a list of tokens refers to. */
  function Objects(ts: seq<Token>): set<Constant>
  {
    set i | 0 <= i < |ts| && ts[i].ConstTok? :: ts[i].c
  }

  function TokenOf(t: Token): TokenValue
    reads if t.ConstTok? then {t.c} else {}
  {
    match t
    case ConstTok(c) => Const(c.Value())
    case OpTok(id) => Op(id)
    case PreEvalTok(p) => PreEval(p)
  }

  /** The token values a list of tokens currently holds. */
  function Values(ts: seq<Token>): (r: seq<TokenValue>)
    reads Objects(ts)
    ensures |r| == |ts|
    ensures forall i :: 0 <= i < |ts| ==> r[i] == TokenOf(ts[i])
  {
    seq(|ts|, i requires 0 <= i < |ts| reads Objects(ts) => TokenOf(ts[i]))
  }

  /** No constant object occurs twice in the list. */
  predicate Distinct(ts: seq<Token>)
  {
    forall i, j :: 0 <= i < j < |ts| && ts[i].ConstTok? && ts[j].ConstTok? ==> ts[i].c != ts[j].c
  }

  /** The objects of a concatenation, and when it is still free of repeats. */
  lemma ObjectsConcat(a: seq<Token>, b: seq<Token>)
    ensures Objects(a + b) == Objects(a) + Objects(b)
    ensures Distinct(a) && Distinct(b) && Objects(a) !! Objects(b) ==> Distinct(a + b)
  {
    forall c | c in Objects(a + b) ensures c in Objects(a) + Objects(b) {
      var j :| 0 <= j < |a + b| && (a + b)[j].ConstTok? && (a + b)[j].c == c;
      if j >= |a| {
        assert b[j - |a|] == (a + b)[j];
      }
    }
    forall c | c in Objects(a) ensures c in Objects(a + b) {
      var j :| 0 <= j < |a| && a[j].ConstTok? && a[j].c == c;
      assert (a + b)[j] == a[j];
    }
    forall c | c in Objects(b) ensures c in Objects(a + b) {
      var j :| 0 <= j < |b| && b[j].ConstTok? && b[j].c == c;
      assert (a + b)[|a| + j] == b[j];
    }
    if Distinct(a) && Distinct(b) && Objects(a) !! Objects(b) {
      forall i, j | 0 <= i < j < |a + b| && (a + b)[i].ConstTok? && (a + b)[j].ConstTok?
        ensures (a + b)[i].c != (a + b)[j].c
      {
        if j < |a| {
        } else if i >= |a| {
          assert (a + b)[i] == b[i - |a|] && (a + b)[j] == b[j - |a|];
        } else {
          assert (a + b)[j] == b[j - |a|];
          assert (a + b)[i].c in Objects(a) && (a + b)[j].c in Objects(b);
        }
      }
    }
  }

  lemma ObjectsSingleton(t: Token)
    ensures Objects([t]) == if t.ConstTok? then {t.c} else {}
  {
    if t.ConstTok? {
      assert [t][0].c == t.c;
    }
  }

  /** `CalculatorExpr`: the token list `mExpr`, edited in place. */
  class CalculatorExpr {
    var tokens: seq<Token>

    function ConstObjects(): set<Constant>
      reads this
    {
      Objects(tokens)
    }

    function Contents(): seq<TokenValue>
      reads this, ConstObjects()
    {
      Values(tokens)
    }

    predicate Valid()
      reads this, ConstObjects()
    {
      Distinct(tokens) && WellFormed(Contents())
    }

    constructor ()
      ensures Valid() && Contents() == [] && ConstObjects() == {}
    {
      tokens := [];
    }

    /** `add(id)`: true and the list `AddSpec` gives, or false and the list unchanged. */
    method Add(k: Key) returns (ok: bool)
      requires Valid()
      modifies this, ConstObjects()
      ensures Valid()
      ensures ok == AddSpec(old(Contents()), k).Some?
      ensures Contents() == if ok then AddSpec(old(Contents()), k).value else old(Contents())
      ensures forall c :: c in ConstObjects() ==> c in old(ConstObjects()) || fresh(c)
    {
      var e := Contents();
      var s := |tokens|;
      var binary := IsBinary(k);
      if s == 0 && binary && k != OpSub {
        return false;
      }
      if binary && HasTrailingBinary(e) && (k != OpSub || IsOperator(e, s - 1, OpSub)) {
        return false;
      }
      if DigVal(k) != NOT_DIGIT || k == DecPoint {
        if s == 0 {
          ok := PushConstant(k);
        } else {
          match tokens[s - 1] {
            case ConstTok(c) =>
              ok := ExtendLast(k);
            case PreEvalTok(_) =>
              return false;
            case OpTok(lastOp) =>
              if EndsOperand(lastOp) {
                return false;
              }
              ok := PushConstant(k);
          }
        }
      } else {
        tokens := tokens + [OpTok(k)];
        assert Contents() == e + [Op(k)];
        ok := true;
      }
      if ok {
        AddWellFormed(e, k);
      }
    }

    /** Append a new `Constant` and `add` the digit or point `k` to it, which a new
        constant always accepts. */
    method PushConstant(k: Key) returns (ok: bool)
      requires Valid() && IsConstPiece(k)
      modifies this
      ensures ok && Distinct(tokens)
      ensures Contents() == old(Contents()) + [Const(NewConstant(k))]
      ensures forall c :: c in ConstObjects() ==> c in old(ConstObjects()) || fresh(c)
    {
      var c := new Constant();
      ok := c.Add(k);
      var e := Contents();
      tokens := tokens + [ConstTok(c)];
      assert Contents() == e + [Const(c.Value())] by {
        forall i | 0 <= i < |e| ensures Contents()[i] == e[i] {
        }
      }
    }

    /** `Constant.add` on the trailing constant. */
    method ExtendLast(k: Key) returns (ok: bool)
      requires Valid() && IsConstPiece(k) && |tokens| > 0 && tokens[|tokens| - 1].ConstTok?
      modifies ConstObjects()
      ensures Distinct(tokens)
      ensures var e := old(Contents());
              var c := e[|e| - 1].c;
              ok == ConstAdd(c, k).Some?
              && Contents() == if ok then e[..|e| - 1] + [Const(ConstAdd(c, k).value)] else e
    {
      var s := |tokens|;
      var c := tokens[s - 1].c;
      ghost var e := Contents();
      ghost var prefix := Values(tokens[..s - 1]);
      assert prefix == e[..s - 1];
      assert c !in Objects(tokens[..s - 1]);
      ok := c.Add(k);
      assert Values(tokens[..s - 1]) == prefix;
      assert Contents() == prefix + [Const(c.Value())] by {
        forall i | 0 <= i < s - 1 ensures Contents()[i] == prefix[i] {
          assert tokens[..s - 1][i] == tokens[i];
        }
      }
      if !ok {
        assert Contents() == e;
      }
    }
  
    /** `delete`: the list `DeleteSpec` gives. */
    method Delete()
      requires Valid()
      modifies this, ConstObjects()
      ensures Valid()
      ensures Contents() == DeleteSpec(old(Contents()))
      ensures ConstObjects() <= old(ConstObjects())
    {
      var s := |tokens|;
      if s == 0 {
        return;
      }
      ghost var e := Contents();
      if tokens[s - 1].ConstTok? {
        var c := tokens[s - 1].c;
        ghost var prefix := Values(tokens[..s - 1]);
        assert prefix == e[..s - 1];
        assert c !in Objects(tokens[..s - 1]);
        c.Delete();
        assert Values(tokens[..s - 1]) == prefix;
        if !c.Value().IsEmpty() {
          assert Contents() == prefix + [Const(c.Value())] by {
            forall i | 0 <= i < s - 1 ensures Contents()[i] == prefix[i] {
              assert tokens[..s - 1][i] == tokens[i];
            }
          }
          DeleteWellFormed(e);
          return;
        }
      }
      var prefixTokens := tokens[..s - 1];
      assert Values(prefixTokens) == e[..s - 1] by {
        forall i | 0 <= i < s - 1 ensures Values(prefixTokens)[i] == e[i] {
          assert prefixTokens[i] == tokens[i];
        }
      }
      tokens := prefixTokens;
      DeleteWellFormed(e);
    }

    /** `append`: the other expression's tokens follow ours; its constant objects are
        shared, not copied, so they must be distinct from ours. */
    method Append(other: CalculatorExpr)
      requires Valid() && other.Valid() && ConstObjects() !! other.ConstObjects()
      modifies this
      ensures Valid()
      ensures Contents() == old(Contents()) + old(other.Contents())
      ensures ConstObjects() == old(ConstObjects()) + old(other.ConstObjects())
    {
      var more := other.tokens;
      var i := 0;
      while i < |more|
        invariant 0 <= i <= |more|
        invariant tokens == old(tokens) + more[..i]
      {
        tokens := tokens + [more[i]];
        i := i + 1;
        assert more[..i] == more[..i - 1] + [more[i - 1]];
      }
      assert more[..|more|] == more;
      ObjectsConcat(old(tokens), more);
      assert Contents() == old(Contents()) + old(other.Contents()) by {
        forall j | 0 <= j < |tokens| ensures Contents()[j] == (old(Contents()) + old(other.Contents()))[j] {
          if j >= |old(tokens)| {
            assert tokens[j] == more[j - |old(tokens)|];
          }
        }
      }
    }

    /** `clear`. */
    method Clear()
      modifies this
      ensures Valid() && Contents() == [] && ConstObjects() == {}
    {
      tokens := [];
    }

    /** `isEmpty`. */
    predicate IsEmpty()
      reads this
    {
      tokens == []
    }

    /** `clone`: a new expression with the same contents whose constants are new
        objects; operators and pre-evaluated values are shared. */
    method Clone() returns (r: CalculatorExpr)
      requires Valid()
      ensures fresh(r) && r.Valid()
      ensures r.Contents() == Contents()
      ensures forall c :: c in r.ConstObjects() ==> fresh(c)
    {
      var copies: seq<Token> := [];
      var i := 0;
      while i < |tokens|
        invariant 0 <= i <= |tokens|
        invariant |copies| == i && Distinct(copies)
        invariant forall c :: c in Objects(copies) ==> fresh(c)
        invariant Values(copies) == Contents()[..i]
      {
        var t := tokens[i];
        var copy := t;
        if t.ConstTok? {
          var c := t.c.Clone();
          copy := ConstTok(c);
        }
        ObjectsConcat(copies, [copy]);
        ObjectsSingleton(copy);
        ghost var before := Values(copies);
        copies := copies + [copy];
        assert Values(copies) == before + [TokenOf(t)];
        i := i + 1;
      }
      r := new CalculatorExpr();
      r.tokens := copies;
    }

    /** `eval`: the evaluation of the current contents. */
    method Eval(degreeMode: bool, bigIntegerValue: CR -> int)
      returns (r: Result<Option<EvalRet>, EvalError>)
      ensures r == Evaluate(Contents(), Context(degreeMode, bigIntegerValue))
    {
      var e := Contents();
      var ctx := Context(degreeMode, bigIntegerValue);
      r := EvaluateTokens(e, ctx);
      assert r == Evaluate(e, ctx);
      assert e == Contents();
    }
  }
}
