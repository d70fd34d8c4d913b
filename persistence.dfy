/** Saving an expression (CalculatorExpr.java's `write` methods). The data stream is
    a sequence of typed items; a pre-evaluated value is written in full the first
    time its CR value is met, under a new index counting up from 1, and as that
    index alone afterwards. CR identity (the `IdentityHashMap` key) is `valueId`. */
module Persistence {
  import opened Wrappers
  import opened Keys
  import opened Tokens

  /** One `DataOutput` call: writeByte, writeInt, writeInt of a button id,
      writeBoolean, writeUTF. */
  datatype Item = Byte(b: int) | Int(n: int) | KeyId(k: Key) | Bool(v: bool) | UTF(s: string)

  /** `TokenKind` ordinals. */
  const CONSTANT: int := 0
  const OPERATOR: int := 1
  const PRE_EVAL: int := 2

  /** The thread-local output state: CR identity to index, and the last index used. */
  datatype OutState = OutState(outMap: map<nat, nat>, exprIndex: nat)

  datatype Written = Written(out: seq<Item>, st: OutState)

  /** The indices in use are exactly 1..exprIndex, one per value. */
  predicate IndexInv(st: OutState)
  {
    |st.outMap.Keys| == st.exprIndex
    && (forall id :: id in st.outMap ==> 1 <= st.outMap[id] <= st.exprIndex)
    && (forall a, b :: a in st.outMap && b in st.outMap && a != b ==> st.outMap[a] != st.outMap[b])
  }

  /** Indices, once given, are kept. */
  predicate Extends(st: OutState, st': OutState)
  {
    st.exprIndex <= st'.exprIndex
    && forall id :: id in st.outMap ==> id in st'.outMap && st'.outMap[id] == st.outMap[id]
  }

  /** `Token.write` of one token. */
  function TokenOutput(t: TokenValue, st: OutState): Written
    decreases t
  {
    match t
    case Const(c) => Written([Byte(CONSTANT), UTF(c.whole), Bool(c.sawDecimal), UTF(c.fraction)], st)
    case Op(id) => Written([Byte(OPERATOR), KeyId(id)], st)
    case PreEval(p) =>
      if p.valueId in st.outMap then Written([Byte(PRE_EVAL), Int(st.outMap[p.valueId])], st)
      else
        var next := st.exprIndex + 1;
        var st1 := OutState(st.outMap[p.valueId := next], next);
        var body := ExprOutput(p.expr, st1);
        Written([Byte(PRE_EVAL), Int(next)] + body.out + [Bool(p.degreeMode), UTF(p.shortRep)], body.st)
  }

  /** `CalculatorExpr.write`: the size, then the tokens. */
  function ExprOutput(e: seq<TokenValue>, st: OutState): Written
    decreases e, 1
  {
    var w := TokensOutput(e, st);
    Written([Int(|e|)] + w.out, w.st)
  }

  /** The tokens of `write`, in order. */
  function TokensOutput(ts: seq<TokenValue>, st: OutState): Written
    decreases ts, 0
  {
    if ts == [] then Written([], st)
    else
      var w := TokensOutput(ts[..|ts| - 1], st);
      var w' := TokenOutput(ts[|ts| - 1], w.st);
      Written(w.out + w'.out, w'.st)
  }

  /** A value met for the first time takes the next index, and the invariant holds. */
  lemma NewIndex(st: OutState, id: nat)
    requires IndexInv(st) && id !in st.outMap
    ensures var st1 := OutState(st.outMap[id := st.exprIndex + 1], st.exprIndex + 1);
            IndexInv(st1) && Extends(st, st1)
  {
    var m' := st.outMap[id := st.exprIndex + 1];
    assert m'.Keys == st.outMap.Keys + {id};
  }

  /** Writing a token keeps the indices 1..exprIndex, one per value, never changes an
      index already given, and leaves a pre-evaluated value's identity in the map, so
      every later occurrence is written as its index. */
  lemma {:induction false} TokenOutputIndices(t: TokenValue, st: OutState)
    requires IndexInv(st)
    ensures var w := TokenOutput(t, st);
            IndexInv(w.st) && Extends(st, w.st) && (t.PreEval? ==> t.p.valueId in w.st.outMap)
    decreases t
  {
    if t.PreEval? && t.p.valueId !in st.outMap {
      var p := t.p;
      var st1 := OutState(st.outMap[p.valueId := st.exprIndex + 1], st.exprIndex + 1);
      NewIndex(st, p.valueId);
      ExprOutputIndices(p.expr, st1);
    }
  }

  lemma {:induction false} ExprOutputIndices(e: seq<TokenValue>, st: OutState)
    requires IndexInv(st)
    ensures var w := ExprOutput(e, st);
            IndexInv(w.st) && Extends(st, w.st)
    decreases e, 1
  {
    TokensOutputIndices(e, st);
  }

  lemma {:induction false} TokensOutputIndices(ts: seq<TokenValue>, st: OutState)
    requires IndexInv(st)
    ensures var w := TokensOutput(ts, st);
            IndexInv(w.st) && Extends(st, w.st)
            && forall j :: 0 <= j < |ts| && ts[j].PreEval? ==> ts[j].p.valueId in w.st.outMap
    decreases ts, 0
  {
    if ts != [] {
      var init := ts[..|ts| - 1];
      TokensOutputIndices(init, st);
      var w := TokensOutput(init, st);
      TokenOutputIndices(ts[|ts| - 1], w.st);
      forall j | 0 <= j < |ts| - 1
        ensures ts[j] == init[j]
      {
      }
    }
  }

  /** Once a value has been written, writing it again gives only its kind and the
      same index. */
  lemma RepeatIsIndex(t: TokenValue, st: OutState)
    requires IndexInv(st) && t.PreEval?
    ensures var w := TokenOutput(t, st);
            |w.out| >= 2 && w.out[1].Int?
            && TokenOutput(t, w.st) == Written([Byte(PRE_EVAL), w.out[1]], w.st)
  {
    TokenOutputIndices(t, st);
    var p := t.p;
    if p.valueId !in st.outMap {
      var st1 := OutState(st.outMap[p.valueId := st.exprIndex + 1], st.exprIndex + 1);
      NewIndex(st, p.valueId);
      ExprOutputIndices(p.expr, st1);
    }
  }

  /** The output stream and the two thread-local variables `initExprOutput` sets up. */
  class Writer {
    var out: seq<Item>
    var outMap: map<nat, nat>
    var exprIndex: nat

    function State(): OutState
      reads this
    {
      OutState(outMap, exprIndex)
    }

    /** `initExprOutput`: an empty map and index 0, over an empty stream. */
    constructor ()
      ensures out == [] && State() == OutState(map[], 0) && IndexInv(State())
    {
      out := [];
      outMap := map[];
      exprIndex := 0;
    }

    /** `Token.write`. */
    method WriteToken(t: TokenValue)
      modifies this
      ensures var w := TokenOutput(t, old(State()));
              out == old(out) + w.out && State() == w.st
      decreases t
    {
      match t {
        case Const(c) =>
          out := out + [Byte(CONSTANT), UTF(c.whole), Bool(c.sawDecimal), UTF(c.fraction)];
        case Op(id) =>
          out := out + [Byte(OPERATOR), KeyId(id)];
        case PreEval(p) =>
          out := out + [Byte(PRE_EVAL)];
          if p.valueId !in outMap {
            var nextIndex := exprIndex + 1;
            exprIndex := nextIndex;
            outMap := outMap[p.valueId := nextIndex];
            out := out + [Int(nextIndex)];
            WriteExpr(p.expr);
            out := out + [Bool(p.degreeMode)];
            out := out + [UTF(p.shortRep)];
          } else {
            out := out + [Int(outMap[p.valueId])];
          }
      }
    }

    /** `CalculatorExpr.write`: the size, then each token. */
    method WriteExpr(e: seq<TokenValue>)
      modifies this
      ensures var w := ExprOutput(e, old(State()));
              out == old(out) + w.out && State() == w.st
      decreases e, 1
    {
      out := out + [Int(|e|)];
      ghost var start := out;
      var i := 0;
      while i < |e|
        invariant 0 <= i <= |e|
        invariant var w := TokensOutput(e[..i], old(State()));
                  out == start + w.out && State() == w.st
      {
        WriteToken(e[i]);
        assert e[..i + 1][..i] == e[..i];
        i := i + 1;
      }
      assert e[..|e|] == e;
    }
  }
}
