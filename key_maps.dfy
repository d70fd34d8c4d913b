/** The key, digit and character tables of KeyMaps.java. Button resource ids become
    the constructors of `Key`; the locale-dependent pieces (button labels, the
    locale's decimal separator, the one-character pi glyph) are parameters. */
module Keys {
  import opened Text

  /** The button ids that can reach an expression, plus `NoId` for View.NO_ID. */
  datatype Key =
    | Digit0 | Digit1 | Digit2 | Digit3 | Digit4 | Digit5 | Digit6 | Digit7 | Digit8 | Digit9
    | DecPoint
    | OpAdd | OpSub | OpMul | OpDiv | OpPow | OpFact | OpSqrt
    | LParen | RParen
    | ConstPi | ConstE
    | FunSin | FunCos | FunTan | FunArcsin | FunArccos | FunArctan | FunLn | FunLog
    | NoId

  /** Value `digVal` returns for a key that is not a digit. */
  const NOT_DIGIT: nat := 10

  const BinaryOps: set<Key> := {OpPow, OpMul, OpDiv, OpAdd, OpSub}

  const DigitKeys: seq<Key> :=
    [Digit0, Digit1, Digit2, Digit3, Digit4, Digit5, Digit6, Digit7, Digit8, Digit9]

  /** `isBinary`: the keys of the five binary operators. */
  predicate IsBinary(k: Key)
    ensures IsBinary(k) <==> k in BinaryOps
  {
    match k
    case OpPow | OpMul | OpDiv | OpAdd | OpSub => true
    case _ => false
  }

  /** `isSuffix`: only the factorial key is a suffix operator. */
  predicate IsSuffix(k: Key)
    ensures IsSuffix(k) ==> !IsBinary(k) && DigVal(k) == NOT_DIGIT
  {
    k == OpFact
  }

  /** `digVal`: the digit a key stands for, or NOT_DIGIT. */
  function DigVal(k: Key): (d: nat)
    ensures d <= NOT_DIGIT
    ensures d < NOT_DIGIT <==> k in DigitKeys
    ensures d < NOT_DIGIT ==> DigitKeys[d] == k
  {
    match k
    case Digit0 => 0
    case Digit1 => 1
    case Digit2 => 2
    case Digit3 => 3
    case Digit4 => 4
    case Digit5 => 5
    case Digit6 => 6
    case Digit7 => 7
    case Digit8 => 8
    case Digit9 => 9
    case _ => NOT_DIGIT
  }

  /** `keyForDigVal`: the digit key for 0..9, NoId for anything else. */
  function KeyForDigVal(v: int): (k: Key)
    ensures 0 <= v <= 9 ==> k == DigitKeys[v]
    ensures !(0 <= v <= 9) ==> k == NoId
  {
    match v
    case 0 => Digit0
    case 1 => Digit1
    case 2 => Digit2
    case 3 => Digit3
    case 4 => Digit4
    case 5 => Digit5
    case 6 => Digit6
    case 7 => Digit7
    case 8 => Digit8
    case 9 => Digit9
    case _ => NoId
  }

  /** digVal and keyForDigVal are mutual inverses on the ten digits. */
  lemma DigValRoundTrip(k: Key, v: int)
    ensures DigVal(k) < NOT_DIGIT ==> KeyForDigVal(DigVal(k)) == k
    ensures 0 <= v <= 9 ==> DigVal(KeyForDigVal(v)) == v
  {
    if 0 <= v <= 9 {
      var d := DigVal(KeyForDigVal(v));
      assert d < NOT_DIGIT && DigitKeys[d] == DigitKeys[v];
    }
  }

  /** `keyForChar` for a keyboard character. Only the ASCII digits are recognised as
      digits here; `decimalPt` is the locale's separator and `piChar` the pi glyph
      (the NUL character when the localised pi string is longer than one char). */
  function KeyForChar(c: char, decimalPt: char, piChar: char): (k: Key)
    ensures IsDigit(c) ==> DigVal(k) == c as int - '0' as int
    ensures !IsDigit(c) && (c == '.' || c == ',') ==> k == DecPoint
    ensures c == 'e' || c == 'E' ==> k == ConstE
    ensures c == 'p' || c == 'P' ==> k == ConstPi
    ensures c == '-' ==> k == OpSub
    ensures c == '+' ==> k == OpAdd
    ensures c == '*' ==> k == OpMul
    ensures c == '/' ==> k == OpDiv
    ensures c == '^' ==> k == OpPow
    ensures c == '!' ==> k == OpFact
    ensures c == '(' ==> k == LParen
    ensures c == ')' ==> k == RParen
    ensures !IsDigit(c) && c !in ".,-+*/eEpP^!()" ==>
              k == if c == decimalPt then DecPoint else if c == piChar then ConstPi else NoId
    ensures k == NoId || DigVal(k) < NOT_DIGIT || k == DecPoint || IsBinary(k)
            || k in {OpFact, LParen, RParen, ConstE, ConstPi}
  {
    if IsDigit(c) then KeyForDigVal(c as int - '0' as int)
    else match c
      case '.' => DecPoint
      case ',' => DecPoint
      case '-' => OpSub
      case '+' => OpAdd
      case '*' => OpMul
      case '/' => OpDiv
      case 'e' => ConstE
      case 'E' => ConstE
      case 'p' => ConstPi
      case 'P' => ConstPi
      case '^' => OpPow
      case '!' => OpFact
      case '(' => LParen
      case ')' => RParen
      case _ =>
        if c == decimalPt then DecPoint
        else if c == piChar then ConstPi
        else NoId
  }

  /** The English function names `validateMaps` always enters. */
  const EnglishFunNames: map<string, Key> :=
    map["sin" := FunSin, "cos" := FunCos, "tan" := FunTan,
        "arcsin" := FunArcsin, "arccos" := FunArccos, "arctan" := FunArctan,
        "asin" := FunArcsin, "acos" := FunArccos, "atan" := FunArctan,
        "ln" := FunLn, "log" := FunLog, "sqrt" := OpSqrt]

  /** sKeyValForFun: the English names, then the localised button labels, which
      replace an English entry with the same text. */
  function FunMap(labels: map<string, Key>): map<string, Key>
  {
    EnglishFunNames + labels
  }

  /** `funForString(s, pos)`: the function key named by `s[pos..]` up to the next '('. */
  function FunForString(s: string, pos: nat, labels: map<string, Key>): (k: Key)
    ensures IndexOfFrom(s, '(', pos) == -1 ==> k == NoId
    ensures var p := IndexOfFrom(s, '(', pos);
            p != -1 ==> pos <= p < |s| && (k == if s[pos..p] in FunMap(labels) then FunMap(labels)[s[pos..p]] else NoId)
    ensures k != NoId ==>
      exists p :: pos <= p < |s| && s[p] == '(' && '(' !in s[pos..p]
                  && s[pos..p] in FunMap(labels) && FunMap(labels)[s[pos..p]] == k
  {
    var paren := IndexOfFrom(s, '(', pos);
    if paren != -1 then
      var name := s[pos..paren];
      assert '(' !in name by {
        forall j | 0 <= j < |name| ensures name[j] != '(' { assert name[j] == s[pos + j]; }
      }
      if name in FunMap(labels) then FunMap(labels)[name] else NoId
    else
      NoId
  }

  /** Both spellings of each inverse function reach the same key, unless a localised
      label reuses one of those spellings. */
  lemma InverseFunctionSpellings(labels: map<string, Key>, rest: string)
    requires "asin" !in labels && "arcsin" !in labels && "acos" !in labels
    requires "arccos" !in labels && "atan" !in labels && "arctan" !in labels
    ensures FunForString("asin(" + rest, 0, labels) == FunForString("arcsin(" + rest, 0, labels) == FunArcsin
    ensures FunForString("acos(" + rest, 0, labels) == FunForString("arccos(" + rest, 0, labels) == FunArccos
    ensures FunForString("atan(" + rest, 0, labels) == FunForString("arctan(" + rest, 0, labels) == FunArctan
  {
    assert "asin(" + rest == "asin" + "(" + rest;
    assert "arcsin(" + rest == "arcsin" + "(" + rest;
    SpellingPair("asin", "arcsin", rest, labels);
    assert "acos(" + rest == "acos" + "(" + rest;
    assert "arccos(" + rest == "arccos" + "(" + rest;
    SpellingPair("acos", "arccos", rest, labels);
    assert "atan(" + rest == "atan" + "(" + rest;
    assert "arctan(" + rest == "arctan" + "(" + rest;
    SpellingPair("atan", "arctan", rest, labels);
  }

  /** Two names for the same English entry, neither overridden by a label, reach the
      same key. */
  lemma SpellingPair(a: string, b: string, rest: string, labels: map<string, Key>)
    requires '(' !in a && a in EnglishFunNames && a !in labels
    requires '(' !in b && b in EnglishFunNames && b !in labels
    requires EnglishFunNames[a] == EnglishFunNames[b]
    ensures FunForString(a + "(" + rest, 0, labels) == FunForString(b + "(" + rest, 0, labels)
            == EnglishFunNames[a]
  {
    EnglishSpelling(a, rest, labels);
    EnglishSpelling(b, rest, labels);
  }

  /** A name without '(' that no label overrides, followed by '(', finds its English entry. */
  lemma EnglishSpelling(name: string, rest: string, labels: map<string, Key>)
    requires '(' !in name && name in EnglishFunNames && name !in labels
    ensures FunForString(name + "(" + rest, 0, labels) == EnglishFunNames[name]
  {
    var s := name + "(" + rest;
    assert forall j | 0 <= j < |name| :: s[j] == name[j];
    assert s[|name|] == '(';
    assert s[0..|name|] == name;
  }

  /** One character of `translateResult`: its entry in the output map, or the
      character itself when it has none. */
  function TranslateChar(c: char, out: map<char, string>): string
  {
    if c in out then out[c] else [c]
  }

  /** The specification of `translateResult`: the per-character translations, concatenated. */
  function Translated(s: string, out: map<char, string>): string
  {
    if s == [] then [] else Translated(s[..|s| - 1], out) + TranslateChar(s[|s| - 1], out)
  }

  /** `translateResult`, building its result one character at a time. */
  method TranslateResult(s: string, out: map<char, string>) returns (r: string)
    ensures r == Translated(s, out)
  {
    r := "";
    var i := 0;
    while i < |s|
      invariant 0 <= i <= |s|
      invariant r == Translated(s[..i], out)
    {
      var c := s[i];
      var t: string;
      if c in out {
        t := out[c];
      } else {
        t := [c];
      }
      assert s[..i + 1][..i] == s[..i];
      r := r + t;
      i := i + 1;
    }
    assert s[..|s|] == s;
  }

  /** Translation distributes over concatenation. */
  lemma {:induction false} TranslatedAppend(a: string, b: string, out: map<char, string>)
    ensures Translated(a + b, out) == Translated(a, out) + Translated(b, out)
  {
    if b != [] {
      var b' := b[..|b| - 1];
      assert (a + b)[..|a + b| - 1] == a + b';
      TranslatedAppend(a, b', out);
    } else {
      assert a + b == a;
    }
  }

  /** With one-character translations the result is as long as the input. */
  lemma {:induction false} TranslatedLength(s: string, out: map<char, string>)
    requires forall c :: c in out ==> |out[c]| == 1
    ensures |Translated(s, out)| == |s|
  {
    if s != [] {
      TranslatedLength(s[..|s| - 1], out);
    }
  }

  /** Figure space, the glyph that stands for a digit not yet computed. */
  const CHAR_DIGIT_UNKNOWN: char := '\U{2007}'

  const ELLIPSIS: string := "\U{2026}"

  /** sOutputForResultChar as `validateMaps` fills it: fixed entries for the exponent
      mark, blank, ellipsis and slash, then the labels of the minus, decimal point and
      digit buttons. */
  function ResultCharMap(minusLabel: string, pointLabel: string, digitLabels: seq<string>): (m: map<char, string>)
    requires |digitLabels| == 10
    ensures forall d :: 0 <= d < 10 ==> DigitChar(d) in m && m[DigitChar(d)] == digitLabels[d]
    ensures '-' in m && m['-'] == minusLabel && '.' in m && m['.'] == pointLabel
    ensures 'e' in m && 'E' in m && ' ' in m && '/' in m
    ensures m['e'] == m['E'] == "E" && m[' '] == [CHAR_DIGIT_UNKNOWN] && m['/'] == "/"
    ensures ELLIPSIS[0] in m && m[ELLIPSIS[0]] == ELLIPSIS
    ensures m.Keys == {'e', 'E', ' ', ELLIPSIS[0], '/', '-', '.'} + (set d | 0 <= d < 10 :: DigitChar(d))
  {
    var fixed := map['e' := "E", 'E' := "E", ' ' := [CHAR_DIGIT_UNKNOWN],
                     ELLIPSIS[0] := ELLIPSIS, '/' := "/"];
    var withOps := fixed['-' := minusLabel]['.' := pointLabel];
    var digits := map c: char | IsDigit(c) :: digitLabels[c as int - '0' as int];
    withOps + digits
  }
}
