/** Evaluator.java: the cache of the current result's decimal approximation, the
    small state machine that keeps it precise enough for the display, and the
    string algorithms that turn the cached digits into what the display shows.

    The constructive-real library is not modelled: a result's value is a `CR`
    term, and `CR.toString(prec)` is an oracle whose answers the completion
    handlers receive as arguments. The two background tasks are modelled by their
    state alone: a started task is a value in a field, and its completion is a
    method called with what the background computation produced. */
module Evaluation {
  import opened Wrappers
  import opened Text
  import opened Keys
  import opened Reals
  import opened Parser
  import opened Expressions

  /** Extra digits computed beyond those displayed, so scrolling rarely waits. */
  const EXTRA_DIGITS: int := 20
  /** Extra digits requested beyond those asked for by `ensureCachePrec`. */
  const PRECOMPUTE_DIGITS: int := 20
  /** Java's Integer.MIN_VALUE, the marker for an unknown most significant digit. */
  const INVALID_MSD: int := -0x8000_0000
  /** Java's Integer.MAX_VALUE, the number of digits a non-terminating value needs. */
  const INT_MAX: int := 0x7fff_ffff
  /** Precision up to which a value is recomputed to find its leading digit. */
  const MAX_MSD_PREC: int := 100
  /** Precision of the first approximation, enough for a short representation. */
  const INIT_PREC: int := 3

  function Min(a: int, b: int): int { if a <= b then a else b }

  /** The shape of a `CR.toString(prec)` answer: an optional minus sign, at least one
      whole digit, a decimal point and exactly `prec` fraction digits. */
  predicate Approximation(s: string, prec: int)
  {
    var d := IndexOf(s, '.');
    var sign := if |s| > 0 && s[0] == '-' then 1 else 0;
    sign < d && |s| - d - 1 == prec && AllDigits(s[sign..d]) && AllDigits(s[d + 1..])
  }

  /** A well-formed approximation has its decimal point after at least one digit. */
  lemma ApproximationPoint(s: string, prec: int)
    requires Approximation(s, prec)
    ensures 0 < IndexOf(s, '.') < |s| && s[IndexOf(s, '.')] == '.' && prec >= 0
  {
  }

  // ---------------------------------------------------------------------------
  // Scans of a decimal string

  /** A character that can be the most significant digit: not a sign, a point or a zero. */
  predicate Significant(c: char)
  {
    c != '-' && c != '.' && c != '0'
  }

  /** The first significant position at or after `from`, or -1. */
  function FirstSignificant(s: string, from: nat): (r: int)
    requires from <= |s|
    ensures r == -1 || (from <= r < |s| && Significant(s[r]))
    ensures forall j :: from <= j < |s| && (r == -1 || j < r) ==> !Significant(s[j])
    decreases |s| - from
  {
    if from == |s| then -1
    else if Significant(s[from]) then from
    else FirstSignificant(s, from + 1)
  }

  /** The specification of `getMsdPos`: the position of the first significant
      character, unless there is none or it is a final lone 1, which could still
      change on reevaluation; then INVALID_MSD. */
  function MsdPos(s: string): (r: int)
    ensures r == INVALID_MSD || 0 <= r < |s|
    ensures r != INVALID_MSD ==>
              Significant(s[r]) && (forall j :: 0 <= j < r ==> !Significant(s[j]))
              && (r < |s| - 1 || s[r] != '1')
    ensures r == INVALID_MSD <==>
              forall j :: 0 <= j < |s| && Significant(s[j]) ==> j == |s| - 1 && s[j] == '1'
  {
    var p := FirstSignificant(s, 0);
    if p >= 0 && (p < |s| - 1 || s[p] != '1') then p else INVALID_MSD
  }

  /** `getMsdPos`: a scan that stops at the first significant character. */
  method GetMsdPos(s: string) returns (r: int)
    ensures r == MsdPos(s)
  {
    ghost var first := FirstSignificant(s, 0);
    var nonzeroPos := -1;
    var i := 0;
    while i < |s|
      invariant 0 <= i <= |s|
      invariant nonzeroPos == -1 || nonzeroPos == first
      invariant nonzeroPos == -1 ==> first == FirstSignificant(s, i)
    {
      if Significant(s[i]) {
        nonzeroPos := i;
        break;
      }
      i := i + 1;
    }
    if nonzeroPos >= 0 && (nonzeroPos < |s| - 1 || s[nonzeroPos] != '1') {
      r := nonzeroPos;
    } else {
      r := INVALID_MSD;
    }
  }

  /** The number of '0' characters that begin `s`. */
  function ZeroRun(s: string): (r: nat)
    ensures r <= |s|
    ensures forall j :: 0 <= j < r ==> s[j] == '0'
    ensures r < |s| ==> s[r] != '0'
  {
    if s != [] && s[0] == '0' then 1 + ZeroRun(s[1..]) else 0
  }

  /** `leadingZeroes`. */
  method LeadingZeroes(s: string) returns (r: nat)
    ensures r == ZeroRun(s)
  {
    r := 0;
    while r < |s| && s[r] == '0'
      invariant r <= |s|
      invariant ZeroRun(s) == r + ZeroRun(s[r..])
    {
      assert s[r..][1..] == s[r + 1..];
      r := r + 1;
    }
  }

  /** The specification of `getPadding`: `n` placeholder characters (none when n <= 0). */
  function Padding(n: int, placeholder: char): (r: string)
    ensures |r| == if n > 0 then n else 0
    ensures forall j :: 0 <= j < |r| ==> r[j] == placeholder
  {
    if n <= 0 then [] else Padding(n - 1, placeholder) + [placeholder]
  }

  /** `getPadding`. */
  method GetPadding(n: int, placeholder: char) returns (r: string)
    ensures r == Padding(n, placeholder)
  {
    r := [];
    var i := 0;
    while i < n
      invariant 0 <= i && (i <= n || i == 0)
      invariant r == Padding(i, placeholder)
    {
      r := r + [placeholder];
      i := i + 1;
    }
  }

  // ---------------------------------------------------------------------------
  // Precision choice and short representation

  /** `BoundedRational.digitsRequired` through the integer channel: an exact integer
      needs no fraction digits; an unknown value may need arbitrarily many. */
  function DigitsRequired(exact: Option<int>): int
  {
    if exact.Some? then 0 else INT_MAX
  }

  /** `getPreferredPrec`, with the display's line length as a parameter. The
      returned number of fraction digits is -1 (no decimal point) for an integer
      whose whole part fits the line, `lastDigit` for a terminating value that fits,
      and otherwise puts the leading digit (or the units digit, for a value just
      below 1) near the left edge of the line. */
  function PreferredPrec(cache: string, msd: int, lastDigit: int, lineLength: int): (r: int)
    ensures var wholeSize := IndexOf(cache, '.');
            lastDigit == 0 && wholeSize <= lineLength ==> r == -1
    ensures var wholeSize := IndexOf(cache, '.');
            0 < lastDigit < INT_MAX && wholeSize + lastDigit + 1 <= lineLength ==> r == lastDigit
    ensures var wholeSize := IndexOf(cache, '.');
            var fits := if lastDigit == 0 then wholeSize <= lineLength
                        else lastDigit != INT_MAX && wholeSize + lastDigit + 1 <= lineLength;
            !fits ==>
              var lead := if wholeSize < msd <= wholeSize + 4 then wholeSize - 1 else msd;
              r + wholeSize + 2 == Min(lead, MAX_MSD_PREC) + lineLength
  {
    var wholeSize := IndexOf(cache, '.');
    var last := if lastDigit == 0 then -1 else lastDigit;
    if last != INT_MAX && ((wholeSize <= lineLength && last == 0) || wholeSize + last + 1 <= lineLength) then
      if last == 0 then -1 else last
    else
      var lead := if msd > wholeSize && msd <= wholeSize + 4 then wholeSize - 1 else msd;
      Min(lead, MAX_MSD_PREC) - wholeSize + lineLength - 2
  }

  /** The leading digits `getShortString` keeps when the value is not a small integer:
      five characters when the fourth is the decimal point, otherwise four, so that
      the kept prefix never ends in the point. */
  function ShortDigits(cache: string): (p: string)
    requires |cache| >= 5
    ensures (|p| == 4 || |p| == 5) && p == cache[..|p|]
    ensures |p| == 5 <==> cache[3] == '.'
    ensures p[|p| - 1] != '.' || cache[3] == cache[4] == '.'
  {
    var res := cache[..5];
    if res[3] != '.' then res[..4] else res
  }

  /** `getShortString`: an exact integer below a million in absolute value in full,
      otherwise a few leading characters of the cache and an ellipsis, each character
      translated for display. */
  function ShortString(cache: string, i: Option<int>, out: map<char, string>, ellipsis: string): (r: string)
    requires (i.Some? && Abs(i.value) < MILLION) || |cache| >= 5
    ensures i.Some? && Abs(i.value) < MILLION ==> r == Translated(IntToString(i.value), out)
    ensures !(i.Some? && Abs(i.value) < MILLION) ==>
              exists p :: 4 <= |p| <= |cache| && p == cache[..|p|] && r == Translated(p, out) + ellipsis
    ensures !(i.Some? && Abs(i.value) < MILLION) ==> r == Translated(ShortDigits(cache), out) + ellipsis
  {
    if i.Some? && Abs(i.value) < MILLION then
      Translated(IntToString(i.value), out)
    else
      Translated(ShortDigits(cache), out) + ellipsis
  }

  /** Without a translation table, the short form of a small exact integer reads back
      as that integer. */
  lemma ShortIntegerReadsBack(cache: string, i: int, ellipsis: string)
    requires Abs(i) < MILLION
    ensures ParseInt(ShortString(cache, Some(i), map[], ellipsis)) == Some(i)
  {
    TranslatedIdentity(IntToString(i));
    ParseIntToString(i);
  }

  lemma {:induction false} TranslatedIdentity(s: string)
    ensures Translated(s, map[]) == s
  {
    if s != [] {
      TranslatedIdentity(s[..|s| - 1]);
      assert s[..|s| - 1] + [s[|s| - 1]] == s;
    }
  }

  // ---------------------------------------------------------------------------
  // The digit window of `getString`

  /** The window of the cached string that `getString` shows: the clamped `digs`,
      the number of placeholders for digits not yet computed, and the end and start
      indices in the cache. */
  datatype Window = Window(digs: int, deficit: int, endIndx: int, startIndx: int)

  /** The digits left of the point in a cache of `len` characters with `cacheDigs`
      fraction digits (counting the point, not counting a minus sign). */
  function IntegralDigits(len: int, cacheDigs: int, negative: bool): int
  {
    len - cacheDigs - (if negative then 1 else 0)
  }

  /** The window computation at the start of `getString`. Before any exponent is
      added, the cached characters plus the placeholders fit in `maxDigs`, leading
      characters are dropped exactly when they would not fit, and `digs` never asks
      for a position left of the leading digit. */
  function WindowOf(len: int, cacheDigs: int, negative: bool, digs: int, maxDigs: int): (w: Window)
    ensures var integral := IntegralDigits(len, cacheDigs, negative);
            w.digs >= 1 - integral && (digs >= 1 - integral ==> w.digs == digs)
            && (digs < 1 - integral ==> w.digs == 1 - integral)
    ensures w.deficit == if w.digs > cacheDigs then Min(w.digs - cacheDigs, maxDigs) else 0
    ensures w.endIndx == len - (if w.digs > cacheDigs then 0 else cacheDigs - w.digs)
    ensures w.endIndx <= len
    ensures maxDigs >= 0 ==> 0 <= w.startIndx <= w.endIndx || w.endIndx < 0
    ensures maxDigs >= 0 && 0 <= w.endIndx ==>
              w.endIndx - w.startIndx + (if w.deficit > 0 then w.deficit else 0) <= maxDigs
    ensures w.startIndx != 0 <==> w.endIndx + w.deficit > maxDigs
  {
    var integralDigits := IntegralDigits(len, cacheDigs, negative);
    var d := if digs < -integralDigits + 1 then -integralDigits + 1 else digs;
    var offset := cacheDigs - d;
    var deficit := if offset < 0 then Min(d - cacheDigs, maxDigs) else 0;
    var endIndx := len - (if offset < 0 then 0 else offset);
    var startIndx := if endIndx + deficit <= maxDigs then 0 else endIndx + deficit - maxDigs;
    Window(d, deficit, endIndx, startIndx)
  }

  /** The window of a well-formed cache always holds at least one character, so the
      single-blank answer of `getString` is never produced for one. */
  lemma WindowNeverEmpty(cache: string, cacheDigs: int, digs: int, maxDigs: int)
    requires Approximation(cache, cacheDigs)
    ensures |cache| > 0
    ensures WindowOf(|cache|, cacheDigs, cache[0] == '-', digs, maxDigs).endIndx >= 1
  {
    var d := IndexOf(cache, '.');
    assert d < |cache|;
  }

  /** The window's characters: the cached digits between the two indices, then the
      placeholders. */
  function WindowText(cache: string, w: Window, placeholder: char): (res: string)
    requires 0 <= w.startIndx <= w.endIndx <= |cache|
    ensures |res| == w.endIndx - w.startIndx + (if w.deficit > 0 then w.deficit else 0)
    ensures res[..w.endIndx - w.startIndx] == cache[w.startIndx..w.endIndx]
  {
    cache[w.startIndx..w.endIndx] + Padding(w.deficit, placeholder)
  }

  /** A displayed string, and whether its leading characters were dropped. */
  datatype Shown = Shown(text: string, truncated: bool)

  /** The exponent a window would need before scientific notation: the number of
      digit positions between the last shown digit and the units digit. */
  function BaseExponent(digs: int): int
  {
    if digs > 0 then -digs else -digs - 1
  }

  /** The scientific-notation step of `getString`: when the leading digit lies in the
      window, well left of its end, it becomes the single digit before a new decimal
      point. Returns the text, the exponent, whether leading digits count as dropped,
      and whether the text now has a point. */
  function Scientific(cache: string, res: string, w: Window, msd: int, truncated: bool): (r: (Shown, int, bool))
    requires 0 <= w.startIndx <= w.endIndx <= |cache| && |cache| > 0
    requires |res| >= w.endIndx - w.startIndx
    ensures var exp := BaseExponent(w.digs);
            if msd < w.endIndx - 6 && msd >= w.startIndx then
              var sign := if cache[0] == '-' then "-" else "";
              r.2 && !r.0.truncated && |sign| + 2 <= |r.0.text| <= |res|
              && r.0.text[..|sign| + 2] == sign + [cache[msd], '.']
              && |r.0.text| == |res| - (msd - w.startIndx)
              && r.0.text[|sign| + 2..] == res[msd + 1 - w.startIndx..|res| - 1 - |sign|]
              && r.1 - exp == |res| - ZeroRun(res) - 1 - (if cache[0] == '-' then 1 else 0)
            else
              r == (Shown(res, truncated), exp, false)
  {
    var exp := BaseExponent(w.digs);
    if msd < w.endIndx - 6 && msd >= w.startIndx then
      var hasMinus := if cache[0] == '-' then 1 else 0;
      var resLen := |res|;
      var fraction := res[msd + 1 - w.startIndx..resLen - 1 - hasMinus];
      var text := (if hasMinus != 0 then "-" else "") + cache[msd..msd + 1] + "." + fraction;
      (Shown(text, false), exp + resLen - ZeroRun(res) - 1 - hasMinus, true)
    else
      (Shown(res, truncated), exp, false)
  }

  /** The exponent step of `getString`: no exponent when it is zero and nothing was
      dropped; otherwise "e" and the exponent, after cutting as many trailing
      characters as the exponent needs room for (and moving the exponent by the
      cut when there is no point). None when the cut would be longer than the text,
      where the source's `substring` throws. */
  function WithExponent(s: Shown, exp: int, hasPoint: bool, maxDigs: int): (r: Option<Shown>)
    ensures exp == 0 && !s.truncated ==> r == Some(s)
    ensures r.Some? ==> r.value.truncated == s.truncated
    ensures r.Some? && (exp != 0 || s.truncated) ==>
              exists k :: 0 <= k <= |s.text|
                && r.value.text == s.text[..k] + "e" + IntToString(if hasPoint then exp else exp + |s.text| - k)
    ensures (exp != 0 || s.truncated) && |s.text| + |IntToString(exp)| + 1 <= maxDigs ==>
              r == Some(Shown(s.text + "e" + IntToString(exp), s.truncated))
  {
    if exp != 0 || s.truncated then
      var expDigits := |IntToString(exp)|;
      var resLen := |s.text|;
      var dropDigits := resLen + expDigits + 1 - maxDigs;
      if dropDigits < 0 then
        assert s.text[..resLen] == s.text;
        Some(Shown(s.text + "e" + IntToString(exp), s.truncated))
      else
        var exp2 := if hasPoint then exp else exp + dropDigits;
        var bump := !hasPoint && exp2 > 0 && dropDigits > 0 && |IntToString(exp2)| > expDigits;
        var drop := if bump then dropDigits + 1 else dropDigits;
        var exp3 := if bump then exp2 + 1 else exp2;
        assert s.text[..resLen] == s.text;
        if resLen - drop < 0 then None
        else Some(Shown(s.text[..resLen - drop] + "e" + IntToString(exp3), s.truncated))
    else
      Some(s)
  }

  /** The exponent step keeps `getString`'s promise that the result is no longer than
      `maxDigs`, provided the text it starts from fits (as the window always does) or
      already has its point: the characters cut make room for the exponent, and the one
      extra digit an exponent may gain from the cut is paid for by one more cut. */
  lemma WithExponentFits(s: Shown, exp: int, hasPoint: bool, maxDigs: int)
    requires exp != 0 || s.truncated
    requires hasPoint || |s.text| <= maxDigs
    requires WithExponent(s, exp, hasPoint, maxDigs).Some?
    ensures |WithExponent(s, exp, hasPoint, maxDigs).value.text| <= maxDigs
  {
    var d := |IntToString(exp)|;
    var dropDigits := |s.text| + d + 1 - maxDigs;
    if dropDigits > 0 && !hasPoint {
      if exp + dropDigits > 0 {
        BumpedExponentDigits(exp, dropDigits);
      } else {
        ExponentDigitsShrink(exp, dropDigits);
      }
    }
  }

  /** Moving a positive exponent by a cut no longer than its own text plus one, and then
      by one more, adds at most one digit. */
  lemma BumpedExponentDigits(exp: int, drop: int)
    requires 0 < drop <= |IntToString(exp)| + 1 && exp + drop > 0
    ensures |IntToString(exp + drop + 1)| <= |IntToString(exp)| + 1
  {
    var d := |IntToString(exp)|;
    if exp >= 0 {
      NatToStringBound(exp);
      Pow10Exceeds(d);
      assert exp + drop + 1 <= 2 * Pow10(d);
    } else {
      Pow10Exceeds(d + 1);
    }
    NatToStringShort(exp + drop + 1, d + 1);
  }

  /** Moving an exponent towards zero without passing it never lengthens its text. */
  lemma ExponentDigitsShrink(exp: int, drop: int)
    requires 0 <= drop && exp + drop <= 0
    ensures |IntToString(exp + drop)| <= |IntToString(exp)|
  {
    if exp + drop < 0 {
      NatToStringMonotone(-(exp + drop), -exp);
    }
  }

  /** Whether `getString` reaches its exponent block: the window shows no decimal
      point and does not end just right of the units digit. */
  predicate NeedsExponent(res: string, w: Window)
  {
    IndexOf(res, '.') == -1 && w.digs != 1
  }

  /** The specification of `getString` for a non-null cache, given the value `getMsd`
      reports. None stands for a `StringIndexOutOfBoundsException`. */
  function Format(cache: string, cacheDigs: int, digs: int, maxDigs: int, msd: int,
                  placeholder: char, ellipsis: string): (r: Option<string>)
    ensures |cache| == 0 ==> r == None
  {
    if |cache| == 0 then None
    else
      var w := WindowOf(|cache|, cacheDigs, cache[0] == '-', digs, maxDigs);
      if w.endIndx < 1 then Some(" ")
      else if w.startIndx > w.endIndx then None
      else
        FormatTail(cache, WindowText(cache, w, placeholder), w, msd, maxDigs, ellipsis)
  }

  /** `getString`'s result is no longer than `maxDigs` whenever it is produced, for a
      well-formed cache and a one-character ellipsis. */
  lemma FormatFits(cache: string, cacheDigs: int, digs: int, maxDigs: int, msd: int,
                   placeholder: char, ellipsis: string)
    requires Approximation(cache, cacheDigs) && maxDigs >= 0 && |ellipsis| == 1
    requires Format(cache, cacheDigs, digs, maxDigs, msd, placeholder, ellipsis).Some?
    ensures |Format(cache, cacheDigs, digs, maxDigs, msd, placeholder, ellipsis).value| <= maxDigs
  {
    WindowNeverEmpty(cache, cacheDigs, digs, maxDigs);
    var w := WindowOf(|cache|, cacheDigs, cache[0] == '-', digs, maxDigs);
    var res := WindowText(cache, w, placeholder);
    if NeedsExponent(res, w) {
      var sc := Scientific(cache, res, w, msd, w.startIndx != 0);
      if sc.1 != 0 || sc.0.truncated {
        WithExponentFits(sc.0, sc.1, sc.2, maxDigs);
      }
    }
  }

  /** `getString` after the window is cut: the exponent block when the window needs
      one, then the ellipsis. */
  function FormatTail(cache: string, res: string, w: Window, msd: int, maxDigs: int, ellipsis: string)
    : (r: Option<string>)
    requires 0 <= w.startIndx <= w.endIndx <= |cache| && |cache| > 0
    requires |res| >= w.endIndx - w.startIndx
    ensures !NeedsExponent(res, w) && w.startIndx == 0 ==> r == Some(res)
    ensures !NeedsExponent(res, w) && w.startIndx != 0 && |res| > 0 ==> r == Some(ellipsis + res[1..])
    ensures (NeedsExponent(res, w) && !(msd < w.endIndx - 6 && msd >= w.startIndx)
             && BaseExponent(w.digs) == 0 && w.startIndx == 0) ==> r == Some(res)
  {
    var shown :-
      if NeedsExponent(res, w) then
        var sc := Scientific(cache, res, w, msd, w.startIndx != 0);
        WithExponent(sc.0, sc.1, sc.2, maxDigs)
      else
        Some(Shown(res, w.startIndx != 0));
    Decorate(shown, ellipsis)
  }

  /** The last step of `getString`: when leading digits were dropped, the ellipsis
      replaces the first character. */
  function Decorate(shown: Shown, ellipsis: string): (r: Option<string>)
    ensures !shown.truncated ==> r == Some(shown.text)
    ensures shown.truncated && |shown.text| > 0 ==> r == Some(ellipsis + shown.text[1..])
  {
    if !shown.truncated then Some(shown.text)
    else if |shown.text| == 0 then None
    else Some(ellipsis + shown.text[1..])
  }

  /** Every character of a well-formed approximation is a digit, the sign or the point. */
  lemma ApproximationChars(s: string, prec: int)
    requires Approximation(s, prec)
    ensures forall j :: 0 <= j < |s| ==> s[j] == '-' || s[j] == '.' || IsDigit(s[j])
  {
    var d := IndexOf(s, '.');
    var sign := if |s| > 0 && s[0] == '-' then 1 else 0;
    forall j | 0 <= j < |s| ensures s[j] == '-' || s[j] == '.' || IsDigit(s[j]) {
      if sign <= j < d {
        assert s[sign..d][j - sign] == s[j];
      } else if j > d {
        assert s[d + 1..][j - d - 1] == s[j];
      }
    }
  }

  /** A window of a well-formed cache holds no 'e' unless the placeholder is one. */
  lemma WindowTextHasNoE(cache: string, cacheDigs: int, w: Window, placeholder: char)
    requires Approximation(cache, cacheDigs) && placeholder != 'e'
    requires 0 <= w.startIndx <= w.endIndx <= |cache|
    ensures 'e' !in WindowText(cache, w, placeholder)
  {
    ApproximationChars(cache, cacheDigs);
    var res := WindowText(cache, w, placeholder);
    forall j | 0 <= j < |res| ensures res[j] != 'e' {
      if j < w.endIndx - w.startIndx {
        assert res[j] == res[..w.endIndx - w.startIndx][j] == cache[w.startIndx + j];
      } else {
        assert res[j] == Padding(w.deficit, placeholder)[j - (w.endIndx - w.startIndx)];
      }
    }
  }

  /** Scientific notation adds no 'e' of its own. */
  lemma ScientificHasNoE(cache: string, cacheDigs: int, res: string, w: Window, msd: int, truncated: bool)
    requires Approximation(cache, cacheDigs) && 'e' !in res
    requires 0 <= w.startIndx <= w.endIndx <= |cache| && |cache| > 0
    requires |res| >= w.endIndx - w.startIndx
    ensures 'e' !in Scientific(cache, res, w, msd, truncated).0.text
  {
    if msd < w.endIndx - 6 && msd >= w.startIndx {
      ApproximationChars(cache, cacheDigs);
      var hasMinus := if cache[0] == '-' then 1 else 0;
      var fraction := res[msd + 1 - w.startIndx..|res| - 1 - hasMinus];
      assert 'e' !in fraction;
      assert cache[msd] != 'e';
    }
  }

  /** Decorating a text without 'e' with an ellipsis without 'e' gives none. */
  lemma DecorateHasNoE(shown: Shown, ellipsis: string)
    requires 'e' !in shown.text && 'e' !in ellipsis
    ensures var r := Decorate(shown, ellipsis); r.Some? ==> 'e' !in r.value
  {
    if shown.truncated && |shown.text| > 0 {
      assert 'e' !in shown.text[1..];
    }
  }

  /** `getString` appends an exponent only when the window shows no decimal point,
      `digs` (after clamping) is not 1, and the exponent is nonzero or leading
      digits were dropped: an 'e' in the answer for a well-formed cache comes from
      the exponent block and nowhere else. */
  lemma {:induction false} ExponentOnlyWhenNeeded(cache: string, cacheDigs: int, digs: int, maxDigs: int,
                                                  msd: int, placeholder: char, ellipsis: string)
    requires Approximation(cache, cacheDigs) && placeholder != 'e' && 'e' !in ellipsis
    ensures var r := Format(cache, cacheDigs, digs, maxDigs, msd, placeholder, ellipsis);
            r.Some? && 'e' in r.value ==>
              var w := WindowOf(|cache|, cacheDigs, cache[0] == '-', digs, maxDigs);
              0 <= w.startIndx <= w.endIndx <= |cache|
              && var res := WindowText(cache, w, placeholder);
              NeedsExponent(res, w)
              && var sc := Scientific(cache, res, w, msd, w.startIndx != 0);
              sc.1 != 0 || sc.0.truncated
  {
    WindowNeverEmpty(cache, cacheDigs, digs, maxDigs);
    var w := WindowOf(|cache|, cacheDigs, cache[0] == '-', digs, maxDigs);
    if w.startIndx <= w.endIndx {
      var res := WindowText(cache, w, placeholder);
      WindowTextHasNoE(cache, cacheDigs, w, placeholder);
      if !NeedsExponent(res, w) {
        DecorateHasNoE(Shown(res, w.startIndx != 0), ellipsis);
      } else {
        var sc := Scientific(cache, res, w, msd, w.startIndx != 0);
        if sc.1 == 0 && !sc.0.truncated {
          ScientificHasNoE(cache, cacheDigs, res, w, msd, w.startIndx != 0);
          DecorateHasNoE(sc.0, ellipsis);
        }
      }
    }
  }

  // ---------------------------------------------------------------------------
  // The result cache and its background tasks

  /** The error messages `onError` receives. */
  datatype ErrorKind = ErrorSyntax | ErrorNan | ErrorOverflow | ErrorAborted

  /** What the evaluator tells the calculator activity; `Fatal` is an uncaught
      exception or `Error`, which ends the app. */
  datatype Notice =
    | Quiet
    | OnError(kind: ErrorKind)
    | OnReevaluate
    | OnEvaluate(initPrec: int, wholePart: string)
    | Fatal

  /** A running initial evaluation (`AsyncDisplayResult`): its angle mode, and whether
      the user explicitly asked for the result (which lengthens its timeout). */
  datatype Task = Task(degreeMode: bool, required: bool)

  /** The fields of the evaluator that its operations update: the value and exact
      value of the last result, the last precision shown, the cache (`mCache`,
      `mCacheDigs`, `mCacheDigsReq`, `mMsd`), the precision a running reevaluation
      computes, and the running initial evaluation. */
  datatype EvalState = EvalState(
    val: Option<CR>, exact: Option<int>, lastDigs: int,
    cache: Option<string>, cacheDigs: int, cacheDigsReq: int, msd: int,
    reevaluator: Option<int>, evaluator: Option<Task>)

  /** What every operation keeps: a cache is a well-formed approximation to exactly
      `cacheDigs` fraction digits, an absent cache has zero digits, and the requested
      precision is never negative. */
  predicate Consistent(s: EvalState)
  {
    s.cacheDigsReq >= 0
    && (s.cache.None? ==> s.cacheDigs == 0)
    && (s.cache.Some? ==> Approximation(s.cache.value, s.cacheDigs))
  }

  /** The digits before the decimal point of a well-formed cache. */
  function WholePart(cache: string): (w: string)
    requires IndexOf(cache, '.') >= 0
    ensures w + "." <= cache && '.' !in w
  {
    var d := IndexOf(cache, '.');
    assert cache[..d] + "." == cache[..d + 1];
    cache[..d]
  }

  /** The specification of `ensureCachePrec(prec)`. It does nothing when the cache
      already has `prec` digits or that many were requested; otherwise it replaces
      any running reevaluation by one for `prec + PRECOMPUTE_DIGITS` digits, always
      more than the cache holds. Afterwards `prec` digits are cached or requested. */
  function EnsureCachePrecSpec(s: EvalState, prec: int): (r: EvalState)
    ensures (r.cache.Some? && r.cacheDigs >= prec) || r.cacheDigsReq >= prec
    ensures (s.cache.Some? && s.cacheDigs >= prec) || s.cacheDigsReq >= prec ==> r == s
    ensures r != s ==>
              r == s.(cacheDigsReq := prec + PRECOMPUTE_DIGITS, reevaluator := Some(prec + PRECOMPUTE_DIGITS))
              && (Consistent(s) ==> r.cacheDigsReq > r.cacheDigs)
    ensures r.cacheDigsReq >= s.cacheDigsReq
    ensures Consistent(s) ==> Consistent(r)
  {
    if (s.cache.Some? && s.cacheDigs >= prec) || s.cacheDigsReq >= prec then s
    else
      var req := prec + PRECOMPUTE_DIGITS;
      s.(cacheDigsReq := req, reevaluator := Some(req))
  }

  /** The specification of `clearCache`: no cache, nothing requested, msd unknown. */
  function Cleared(s: EvalState): (r: EvalState)
    ensures Consistent(r) && r.cache.None? && r.cacheDigs == r.cacheDigsReq == 0
    ensures r.msd == INVALID_MSD
    ensures r.(cache := s.cache, cacheDigs := s.cacheDigs, cacheDigsReq := s.cacheDigsReq, msd := s.msd) == s
  {
    s.(cache := None, cacheDigs := 0, cacheDigsReq := 0, msd := INVALID_MSD)
  }

  /** The specification of `cancelAll`: afterwards no task runs; a cancelled
      reevaluation's request is forgotten, and the answer is whether an initial
      evaluation was cancelled. */
  function Cancelled(s: EvalState): (r: (EvalState, bool))
    ensures r.0.reevaluator.None? && r.0.evaluator.None?
    ensures r.1 <==> s.evaluator.Some?
    ensures r.0.cacheDigsReq == if s.reevaluator.Some? then s.cacheDigs else s.cacheDigsReq
    ensures r.0.(cacheDigsReq := s.cacheDigsReq, reevaluator := s.reevaluator, evaluator := s.evaluator) == s
    ensures Consistent(s) ==> Consistent(r.0)
  {
    var s1 := if s.reevaluator.Some? then s.(cacheDigsReq := s.cacheDigs, reevaluator := None) else s;
    if s1.evaluator.Some? then (s1.(evaluator := None), true) else (s1, false)
  }

  /** The specification of `evaluateAndShowResult`: unless an initial evaluation is
      already running, clear the cache and start one. A running reevaluation is left
      running. */
  function Started(s: EvalState, degreeMode: bool): (r: EvalState)
    ensures r.evaluator.Some? && r.reevaluator == s.reevaluator
    ensures s.evaluator.Some? ==> r == s
    ensures s.evaluator.None? ==>
              r.evaluator == Some(Task(degreeMode, false)) && r.cache.None?
              && r.cacheDigs == r.cacheDigsReq == 0 && r.msd == INVALID_MSD
    ensures s.evaluator.None? ==>
              r.(cache := s.cache, cacheDigs := s.cacheDigs, cacheDigsReq := s.cacheDigsReq,
                 msd := s.msd, evaluator := s.evaluator) == s
    ensures Consistent(s) ==> Consistent(r)
  {
    if s.evaluator.None? then Cleared(s).(evaluator := Some(Task(degreeMode, false))) else s
  }

  /** The specification of `requireResult`: with no cache, cancel everything and start
      an initial evaluation the user asked for; otherwise report the cached result at
      the last precision shown, without touching the cache. The boolean says whether
      an initial evaluation was cancelled. */
  function Required(s: EvalState, degreeMode: bool): (r: (EvalState, Notice, bool))
    requires Consistent(s)
    ensures s.cache.None? ==>
              r.0.evaluator == Some(Task(degreeMode, true)) && r.0.reevaluator.None? && r.1 == Quiet
              && (r.2 <==> s.evaluator.Some?)
              && r.0.cacheDigsReq == (if s.reevaluator.Some? then s.cacheDigs else s.cacheDigsReq)
              && r.0.(cacheDigsReq := s.cacheDigsReq, reevaluator := s.reevaluator, evaluator := s.evaluator) == s
    ensures s.cache.Some? ==>
              r.0 == s && !r.2 && r.1.OnEvaluate? && r.1.initPrec == s.lastDigs
              && r.1.wholePart + "." <= s.cache.value && '.' !in r.1.wholePart
    ensures Consistent(r.0)
  {
    if s.cache.None? then
      var c := Cancelled(s);
      (c.0.(evaluator := Some(Task(degreeMode, true))), Quiet, c.1)
    else
      ApproximationPoint(s.cache.value, s.cacheDigs);
      (s, OnEvaluate(s.lastDigs, WholePart(s.cache.value)), false)
  }

  /** The specification of `AsyncReevaluator.onPostExecute` for the running
      reevaluation, given what it computed (None when the evaluation failed).
      Precision never drops: a result with fewer digits than the cache is a fatal
      error and changes nothing; any other result replaces the cache. */
  function Reevaluated(s: EvalState, result: Option<string>): (r: (EvalState, Notice))
    requires s.reevaluator.Some?
    ensures r.0.cacheDigs >= s.cacheDigs
    ensures r.1 == Fatal <==> result.Some? && s.reevaluator.value < s.cacheDigs
    ensures r.1 == Fatal ==> r.0 == s
    ensures result.None? ==> r == (s.(reevaluator := None), OnError(ErrorNan))
    ensures result.Some? && r.1 != Fatal ==>
              r.1 == OnReevaluate && r.0.cache == result && r.0.cacheDigs == s.reevaluator.value
              && r.0 == s.(cache := result, cacheDigs := s.reevaluator.value, reevaluator := None)
    ensures (Consistent(s) && (result.Some? ==> Approximation(result.value, s.reevaluator.value)))
              ==> Consistent(r.0)
  {
    match result
    case None => (s.(reevaluator := None), OnError(ErrorNan))
    case Some(text) =>
      var digs := s.reevaluator.value;
      if digs < s.cacheDigs then (s, Fatal)
      else (s.(cache := Some(text), cacheDigs := digs, reevaluator := None), OnReevaluate)
  }

  /** What `AsyncDisplayResult.doInBackground` hands to `onPostExecute`. */
  datatype InitialOutcome =
    | NoResult    // `eval` returned null: not every token was consumed
    | Crashed     // an exception the AsyncTask does not catch
    | Failed(kind: ErrorKind)
    | Computed(val: CR, exact: Option<int>, cache: string, prec: int, initDisplayPrec: int)

  /** The precision of the first approximation whose leading digit is used, given the
      approximation to INIT_PREC digits: INIT_PREC, or MAX_MSD_PREC when the value is
      not an exact integer and that approximation shows no leading digit. */
  function ProbePrec(exact: Option<int>, first: string): (p: int)
    ensures p == INIT_PREC || p == MAX_MSD_PREC
    ensures p == MAX_MSD_PREC <==> exact.None? && MsdPos(first) == INVALID_MSD
  {
    if exact.None? && MsdPos(first) == INVALID_MSD then MAX_MSD_PREC else INIT_PREC
  }

  /** The specification of `AsyncDisplayResult.doInBackground`, given the evaluation's
      result, `CR.toString` as the oracle `approx` (None where it throws the
      ArithmeticException of a value outside a function's domain), and the display's
      line length. The cache it produces is an approximation of the value, with at
      least EXTRA_DIGITS more digits than the precision it proposes to display. */
  function DisplayResult(r: Result<Option<EvalRet>, EvalError>, approx: (CR, int) -> Option<string>,
                         lineLength: int): (o: InitialOutcome)
    ensures r == Err(SyntaxError) ==> o == Failed(ErrorSyntax)
    ensures r == Err(ArithmeticError) ==> o == Failed(ErrorNan)
    ensures r == Err(NumberFormatError) ==> o == Crashed
    ensures r == Ok(None) ==> o == NoResult
    ensures o.Computed? ==> r.Ok? && r.value.Some?
    ensures r.Ok? && r.value.Some? && !o.Computed? ==>
              o == Failed(ErrorNan) && exists p :: approx(r.value.value.val, p).None?
    ensures r.Ok? && r.value.Some? && (forall p :: approx(r.value.value.val, p).Some?) ==> o.Computed?
    ensures o.Computed? ==>
              var res := r.value.value;
              var first := approx(res.val, INIT_PREC);
              first.Some?
              && var probe := ProbePrec(res.exact, first.value);
              var probed := approx(res.val, probe);
              probed.Some?
              && o.val == res.val && o.exact == res.exact
              && approx(o.val, o.prec) == Some(o.cache)
              && o.prec >= probe && o.prec >= o.initDisplayPrec + EXTRA_DIGITS
              && (o.prec == probe || o.prec == o.initDisplayPrec + EXTRA_DIGITS)
              && o.initDisplayPrec == PreferredPrec(probed.value, MsdPos(probed.value),
                                                    DigitsRequired(res.exact), lineLength)
  {
    match r
    case Err(SyntaxError) => Failed(ErrorSyntax)
    case Err(ArithmeticError) => Failed(ErrorNan)
    case Err(NumberFormatError) => Crashed
    case Ok(None) => NoResult
    case Ok(Some(res)) =>
      var first := approx(res.val, INIT_PREC);
      if first.None? then Failed(ErrorNan)
      else
        var prec := ProbePrec(res.exact, first.value);
        var probed := approx(res.val, prec);
        if probed.None? then Failed(ErrorNan)
        else
          var initCache := probed.value;
          var initDisplayPrec := PreferredPrec(initCache, MsdPos(initCache), DigitsRequired(res.exact), lineLength);
          var newPrec := initDisplayPrec + EXTRA_DIGITS;
          if newPrec > prec then
            var cache := approx(res.val, newPrec);
            if cache.None? then Failed(ErrorNan)
            else Computed(res.val, res.exact, cache.value, newPrec, initDisplayPrec)
          else
            Computed(res.val, res.exact, initCache, prec, initDisplayPrec)
  }

  /** The specification of `AsyncDisplayResult.onPostExecute`: the initial evaluation
      ends; an error is reported; a value fills the cache and is reported with the
      smaller of the proposed precision and the one the current line length gives. */
  function Displayed(s: EvalState, o: InitialOutcome, lineLength: int): (r: (EvalState, Notice))
    requires o.Computed? ==> Approximation(o.cache, o.prec)
    ensures o.Crashed? ==> r == (s, Fatal)
    ensures !o.Crashed? ==> r.0.evaluator.None?
    ensures o.NoResult? ==> r == (s.(evaluator := None), Fatal)
    ensures o.Failed? ==> r == (s.(evaluator := None), OnError(o.kind))
    ensures o.Computed? ==>
              r.0 == s.(val := Some(o.val), exact := o.exact, cache := Some(o.cache), cacheDigs := o.prec,
                        lastDigs := o.initDisplayPrec, evaluator := None)
              && r.1.OnEvaluate? && r.1.initPrec <= o.initDisplayPrec
              && r.1.initPrec == Min(o.initDisplayPrec,
                                     PreferredPrec(o.cache, MsdPos(o.cache), DigitsRequired(o.exact), lineLength))
              && r.1.wholePart + "." <= o.cache && '.' !in r.1.wholePart
    ensures Consistent(s) ==> Consistent(r.0)
  {
    match o
    case Crashed => (s, Fatal)
    case NoResult => (s.(evaluator := None), Fatal)
    case Failed(kind) => (s.(evaluator := None), OnError(kind))
    case Computed(v, exact, cache, prec, initDisplayPrec) =>
      var s1 := s.(val := Some(v), exact := exact, cache := Some(cache), cacheDigs := prec,
                   lastDigs := initDisplayPrec, evaluator := None);
      var newInitPrec := PreferredPrec(cache, MsdPos(cache), DigitsRequired(exact), lineLength);
      ApproximationPoint(cache, prec);
      (s1, OnEvaluate(Min(initDisplayPrec, newInitPrec), WholePart(cache)))
  }

  /** The specification of `getMsd`'s answer: a known msd, none for an exact zero,
      else the leading digit of the cache. */
  function MsdOf(s: EvalState): (r: int)
    ensures r == INVALID_MSD || r == s.msd
            || (s.cache.Some? && s.exact != Some(0) && r == MsdPos(s.cache.value) && Significant(s.cache.value[r]))
    ensures s.msd != INVALID_MSD ==> r == s.msd
    ensures s.msd == INVALID_MSD && s.exact == Some(0) ==> r == INVALID_MSD
    ensures s.msd == INVALID_MSD && s.exact != Some(0) ==>
              r == (if s.cache.Some? then MsdPos(s.cache.value) else INVALID_MSD)
  {
    if s.msd != INVALID_MSD then s.msd
    else if s.exact == Some(0) then INVALID_MSD
    else if s.cache.Some? then MsdPos(s.cache.value)
    else INVALID_MSD
  }

  /** Whether `getMsd` asks for more digits: the leading digit is neither recorded nor
      known to be absent, the cache does not show it, no task runs, and fewer than
      MAX_MSD_PREC digits are cached. */
  predicate ProbesMsd(s: EvalState)
  {
    s.msd == INVALID_MSD && s.exact != Some(0) && MsdOf(s) == INVALID_MSD
    && s.evaluator.None? && s.reevaluator.None? && s.cacheDigs < MAX_MSD_PREC
  }

  /** The specification of `getMsd`'s effect: when the leading digit is unknown and no
      task runs, ask for MAX_MSD_PREC digits. */
  function AfterGetMsd(s: EvalState): (r: EvalState)
    ensures r == s || r == EnsureCachePrecSpec(s, MAX_MSD_PREC)
    ensures r != s ==> s.evaluator.None? && s.reevaluator.None? && MsdOf(s) == INVALID_MSD
    ensures ProbesMsd(s) ==> r == EnsureCachePrecSpec(s, MAX_MSD_PREC)
    ensures !ProbesMsd(s) ==> r == s
    ensures Consistent(s) ==> Consistent(r)
  {
    if s.msd != INVALID_MSD || s.exact == Some(0) then s
    else if MsdOf(s) == INVALID_MSD && s.evaluator.None? && s.reevaluator.None? && s.cacheDigs < MAX_MSD_PREC then
      EnsureCachePrecSpec(s, MAX_MSD_PREC)
    else s
  }

  /** Whether `getString` on this cache reaches its exponent block, and so calls `getMsd`. */
  predicate ReachesExponent(cache: string, cacheDigs: int, digs: int, maxDigs: int, placeholder: char)
  {
    |cache| > 0
    && var w := WindowOf(|cache|, cacheDigs, cache[0] == '-', digs, maxDigs);
    1 <= w.endIndx && 0 <= w.startIndx <= w.endIndx <= |cache|
    && NeedsExponent(WindowText(cache, w, placeholder), w)
  }

  /** The state after `getString(digs, maxDigs)`. */
  function AfterGetString(s: EvalState, digs: int, maxDigs: int, placeholder: char): EvalState
  {
    var s1 := EnsureCachePrecSpec(s.(lastDigs := digs), digs + EXTRA_DIGITS);
    if s.cache.Some? && ReachesExponent(s.cache.value, s.cacheDigs, digs, maxDigs, placeholder)
    then AfterGetMsd(s1) else s1
  }

  /** The scientific-notation step of `getString`, as the source writes it. */
  method ScientificForm(cache: string, res: string, w: Window, msd: int, truncated: bool)
    returns (shown: Shown, exp: int, hasPoint: bool)
    requires 0 <= w.startIndx <= w.endIndx <= |cache| && |cache| > 0
    requires |res| >= w.endIndx - w.startIndx
    ensures (shown, exp, hasPoint) == Scientific(cache, res, w, msd, truncated)
  {
    exp := if w.digs > 0 then -w.digs else -w.digs - 1;
    hasPoint := false;
    shown := Shown(res, truncated);
    if msd < w.endIndx - 6 && msd >= w.startIndx {
      var hasMinus := if cache[0] == '-' then 1 else 0;
      var resLen := |res|;
      var resZeroes := LeadingZeroes(res);
      var fraction := res[msd + 1 - w.startIndx..resLen - 1 - hasMinus];
      shown := Shown((if hasMinus != 0 then "-" else "") + cache[msd..msd + 1] + "." + fraction, false);
      exp := exp + resLen - resZeroes - 1 - hasMinus;
      hasPoint := true;
    }
  }

  /** The exponent step of `getString`, as the source writes it. */
  method AppendExponent(shown: Shown, exp0: int, hasPoint: bool, maxDigs: int) returns (r: Option<Shown>)
    ensures r == WithExponent(shown, exp0, hasPoint, maxDigs)
  {
    var exp := exp0;
    var text := shown.text;
    if exp != 0 || shown.truncated {
      var expDigits := |IntToString(exp)|;
      var resLen := |text|;
      var dropDigits := resLen + expDigits + 1 - maxDigs;
      if dropDigits < 0 {
        dropDigits := 0;
      } else {
        if !hasPoint {
          exp := exp + dropDigits;
          if exp > 0 && dropDigits > 0 && |IntToString(exp)| > expDigits {
            dropDigits := dropDigits + 1;
            exp := exp + 1;
          }
        }
        if resLen - dropDigits < 0 {
          return None;
        }
        text := text[..resLen - dropDigits];
      }
      text := text + "e" + IntToString(exp);
    }
    r := Some(Shown(text, shown.truncated));
  }

  /** The window steps of `getString`, as the source writes them. */
  method GetWindow(cache: string, cacheDigs: int, digs: int, maxDigs: int) returns (w: Window)
    requires |cache| > 0
    ensures w == WindowOf(|cache|, cacheDigs, cache[0] == '-', digs, maxDigs)
  {
    var len := |cache|;
    var integralDigits := len - cacheDigs;
    if cache[0] == '-' {
      integralDigits := integralDigits - 1;
    }
    var d := digs;
    if d < -integralDigits + 1 {
      d := -integralDigits + 1;
    }
    var offset := cacheDigs - d;
    var deficit := 0;
    if offset < 0 {
      offset := 0;
      deficit := Min(d - cacheDigs, maxDigs);
    }
    var endIndx := len - offset;
    var startIndx := if endIndx + deficit <= maxDigs then 0 else endIndx + deficit - maxDigs;
    w := Window(d, deficit, endIndx, startIndx);
  }

  /** `Format` taken apart into the stages `getString` runs: the early answers, then
      the tail on the window's characters, where the msd matters only in the
      exponent block. */
  lemma FormatByStages(cache: string, cacheDigs: int, digs: int, maxDigs: int, msd: int, other: int,
                       placeholder: char, ellipsis: string)
    requires |cache| > 0
    ensures var w := WindowOf(|cache|, cacheDigs, cache[0] == '-', digs, maxDigs);
            var r := Format(cache, cacheDigs, digs, maxDigs, msd, placeholder, ellipsis);
            (w.endIndx < 1 ==> r == Some(" ") && !ReachesExponent(cache, cacheDigs, digs, maxDigs, placeholder))
            && (1 <= w.endIndx && w.startIndx > w.endIndx ==>
                  r == None && !ReachesExponent(cache, cacheDigs, digs, maxDigs, placeholder))
            && (1 <= w.endIndx && w.startIndx <= w.endIndx ==>
                  var res := WindowText(cache, w, placeholder);
                  r == FormatTail(cache, res, w, msd, maxDigs, ellipsis)
                  && (ReachesExponent(cache, cacheDigs, digs, maxDigs, placeholder) <==> NeedsExponent(res, w))
                  && (!NeedsExponent(res, w) ==>
                        FormatTail(cache, res, w, other, maxDigs, ellipsis) == r))
  {
    var w := WindowOf(|cache|, cacheDigs, cache[0] == '-', digs, maxDigs);
    if 1 <= w.endIndx && w.startIndx <= w.endIndx {
      var res := WindowText(cache, w, placeholder);
      assert Format(cache, cacheDigs, digs, maxDigs, msd, placeholder, ellipsis)
          == FormatTail(cache, res, w, msd, maxDigs, ellipsis);
    }
  }

  /** The first steps of `getString`: the window, and its characters. `early` holds
      the answer when the source returns (or throws) before the exponent block. */
  method WindowStage(cache: string, cacheDigs: int, digs: int, maxDigs: int, placeholder: char)
    returns (w: Window, res: string, early: Option<Option<string>>)
    requires |cache| > 0
    ensures w == WindowOf(|cache|, cacheDigs, cache[0] == '-', digs, maxDigs)
    ensures early.Some? <==> w.endIndx < 1 || w.startIndx > w.endIndx
    ensures early.Some? ==> early.value == if w.endIndx < 1 then Some(" ") else None
    ensures early.None? ==> res == WindowText(cache, w, placeholder)
  {
    w := GetWindow(cache, cacheDigs, digs, maxDigs);
    res := "";
    if w.endIndx < 1 {
      return w, res, Some(Some(" "));
    }
    if w.startIndx > w.endIndx {
      return w, res, Some(None);
    }
    res := cache[w.startIndx..w.endIndx];
    if w.deficit > 0 {
      var pad := GetPadding(w.deficit, placeholder);
      res := res + pad;
    }
    early := None;
  }

  /** The last steps of `getString`: the exponent block when the window needs one,
      then the ellipsis. */
  method FinishString(cache: string, res: string, w: Window, msd: int, maxDigs: int, ellipsis: string)
    returns (r: Option<string>)
    requires 0 <= w.startIndx <= w.endIndx <= |cache| && |cache| > 0
    requires |res| >= w.endIndx - w.startIndx
    ensures r == FormatTail(cache, res, w, msd, maxDigs, ellipsis)
  {
    var shown := Shown(res, w.startIndx != 0);
    if IndexOf(res, '.') == -1 && w.digs != 1 {
      var sc, exp, hasPoint := ScientificForm(cache, res, w, msd, w.startIndx != 0);
      var withExp := AppendExponent(sc, exp, hasPoint, maxDigs);
      if withExp.None? {
        return None;
      }
      shown := withExp.value;
    }
    if shown.truncated {
      if |shown.text| == 0 {
        return None;
      }
      r := Some(ellipsis + shown.text[1..]);
    } else {
      r := Some(shown.text);
    }
  }

  /** The body of `AsyncDisplayResult.doInBackground` after the evaluation: map an
      error to its message, or pick the first display precision and compute the
      cache at a precision above it. */
  method InitialResult(res: Result<Option<EvalRet>, EvalError>, approx: (CR, int) -> Option<string>,
                       lineLength: int)
    returns (o: InitialOutcome)
    ensures o == DisplayResult(res, approx, lineLength)
  {
    match res
    case Err(SyntaxError) => o := Failed(ErrorSyntax);
    case Err(ArithmeticError) => o := Failed(ErrorNan);
    case Err(NumberFormatError) => o := Crashed;
    case Ok(None) => o := NoResult;
    case Ok(Some(r)) =>
      var prec := INIT_PREC;
      var initCache := approx(r.val, prec);
      if initCache.None? {
        return Failed(ErrorNan);
      }
      var msdPos := GetMsdPos(initCache.value);
      if r.exact.None? && msdPos == INVALID_MSD {
        prec := MAX_MSD_PREC;
        initCache := approx(r.val, prec);
        if initCache.None? {
          return Failed(ErrorNan);
        }
        msdPos := GetMsdPos(initCache.value);
      }
      var initDisplayPrec := PreferredPrec(initCache.value, msdPos, DigitsRequired(r.exact), lineLength);
      var newPrec := initDisplayPrec + EXTRA_DIGITS;
      if newPrec > prec {
        prec := newPrec;
        initCache := approx(r.val, prec);
        if initCache.None? {
          return Failed(ErrorNan);
        }
      }
      o := Computed(r.val, r.exact, initCache.value, prec, initDisplayPrec);
  }

  /** `evaluateAndShowResult` clears the cache but leaves a running reevaluation
      alone. When the new initial result is more precise than that reevaluation,
      and the initial evaluation's `onPostExecute` runs before the reevaluation's
      (the model fixes this order of the two background completions; the program
      does not promise it), the reevaluation's completion is the fatal "unexpected
      timing" error. */
  lemma StaleReevaluationIsFatal(s: EvalState, prec: int, o: InitialOutcome, lineLength: int,
                                 stale: string, degreeMode: bool)
    requires Consistent(s) && s.cache.Some? && s.cacheDigsReq < prec && s.cacheDigs < prec
    requires s.evaluator.None?
    requires o.Computed? && Approximation(o.cache, o.prec) && o.prec > prec + PRECOMPUTE_DIGITS
    ensures var s1 := EnsureCachePrecSpec(s, prec);
            var s2 := Started(s1, degreeMode);
            var s3 := Displayed(s2, o, lineLength).0;
            s3.reevaluator.Some? && Reevaluated(s3, Some(stale)).1 == Fatal
  {
    var s1 := EnsureCachePrecSpec(s, prec);
    assert s1.reevaluator == Some(prec + PRECOMPUTE_DIGITS);
  }

  /** The notice `onPostExecute` sends for a computed result: the smaller of the
      initial precision and the one the leading digit prefers, with the digits
      before the point. */
  method EvaluatedNotice(o: InitialOutcome, lineLength: int) returns (notice: Notice)
    requires o.Computed? && Approximation(o.cache, o.prec)
    ensures notice == Displayed(EvalState(None, None, 0, None, 0, 0, INVALID_MSD, None, None), o, lineLength).1
  {
    var c := o.cache;
    ApproximationPoint(c, o.prec);
    var dotPos := IndexOf(c, '.');
    var truncatedWholePart := c[..dotPos];
    var initPrec := o.initDisplayPrec;
    var msdPos := GetMsdPos(c);
    var newInitPrec := PreferredPrec(c, msdPos, DigitsRequired(o.exact), lineLength);
    if newInitPrec < initPrec {
      initPrec := newInitPrec;
    }
    notice := OnEvaluate(initPrec, truncatedWholePart);
  }

  /** The evaluator: the expression being edited, the angle mode, and the cached
      result with its background tasks. `placeholder` is the glyph for digits not yet
      computed and `ellipsis` the mark for dropped leading digits, both display
      resources. */
  class Evaluator {
    var expr: CalculatorExpr
    var degreeMode: bool
    var val: Option<CR>
    var exact: Option<int>
    var lastDigs: int
    var cache: Option<string>
    var cacheDigs: int
    var cacheDigsReq: int
    var msd: int
    var reevaluator: Option<int>
    var evaluator: Option<Task>
    const placeholder: char
    const ellipsis: string

    function State(): EvalState
      reads this
    {
      EvalState(val, exact, lastDigs, cache, cacheDigs, cacheDigsReq, msd, reevaluator, evaluator)
    }

    predicate Valid()
      reads this, expr, expr.ConstObjects()
    {
      expr.Valid() && Consistent(State())
    }

    constructor (placeholder: char, ellipsis: string)
      ensures Valid() && fresh(expr) && expr.Contents() == [] && !degreeMode
      ensures State() == EvalState(None, None, 0, None, 0, 0, INVALID_MSD, None, None)
      ensures this.placeholder == placeholder && this.ellipsis == ellipsis
    {
      expr := new CalculatorExpr();
      degreeMode := false;
      val := None;
      exact := None;
      lastDigs := 0;
      cache := None;
      cacheDigs := 0;
      cacheDigsReq := 0;
      msd := INVALID_MSD;
      reevaluator := None;
      evaluator := None;
      this.placeholder := placeholder;
      this.ellipsis := ellipsis;
    }

    /** `ensureCachePrec`: starting a reevaluation is recorded by its precision. */
    method EnsureCachePrec(prec: int)
      modifies this
      ensures State() == EnsureCachePrecSpec(old(State()), prec)
      ensures expr == old(expr) && degreeMode == old(degreeMode)
    {
      if (cache.Some? && cacheDigs >= prec) || cacheDigsReq >= prec {
        return;
      }
      if reevaluator.Some? {
        reevaluator := None;
      }
      cacheDigsReq := prec + PRECOMPUTE_DIGITS;
      reevaluator := Some(cacheDigsReq);
    }

    /** `clearCache`. */
    method ClearCache()
      modifies this
      ensures State() == Cleared(old(State()))
      ensures expr == old(expr) && degreeMode == old(degreeMode)
    {
      cache := None;
      cacheDigs := 0;
      cacheDigsReq := 0;
      msd := INVALID_MSD;
    }

    /** `clear`: empty the expression and the cache. */
    method Clear()
      requires Valid()
      modifies this, expr
      ensures Valid() && expr == old(expr) && expr.Contents() == []
      ensures State() == Cleared(old(State())) && degreeMode == old(degreeMode)
    {
      expr.Clear();
      ClearCache();
    }

    /** `evaluateAndShowResult`. */
    method EvaluateAndShowResult()
      requires Valid()
      modifies this
      ensures Valid() && State() == Started(old(State()), degreeMode)
      ensures expr == old(expr) && degreeMode == old(degreeMode)
    {
      if evaluator.None? {
        ClearCache();
        evaluator := Some(Task(degreeMode, false));
      }
    }

    /** `cancelAll`: when an initial evaluation is cancelled, it may still be reading
        the expression, so the evaluator continues on a copy. */
    method CancelAll() returns (cancelled: bool)
      requires Valid()
      modifies this
      ensures Valid() && (State(), cancelled) == Cancelled(old(State()))
      ensures cancelled ==> fresh(expr) && expr.Contents() == old(expr.Contents())
      ensures !cancelled ==> expr == old(expr)
      ensures degreeMode == old(degreeMode)
    {
      if reevaluator.Some? {
        cacheDigsReq := cacheDigs;
        reevaluator := None;
      }
      if evaluator.Some? {
        expr := expr.Clone();
        evaluator := None;
        return true;
      }
      return false;
    }

    /** `requireResult`. */
    method RequireResult() returns (notice: Notice)
      requires Valid()
      modifies this
      ensures Valid()
      ensures var r := Required(old(State()), old(degreeMode));
              State() == r.0 && notice == r.1
              && (if r.2 then fresh(expr) && expr.Contents() == old(expr.Contents()) else expr == old(expr))
      ensures degreeMode == old(degreeMode)
    {
      if cache.None? {
        var _ := CancelAll();
        evaluator := Some(Task(degreeMode, true));
        notice := Quiet;
      } else {
        ApproximationPoint(cache.value, cacheDigs);
        var dotPos := IndexOf(cache.value, '.');
        notice := OnEvaluate(lastDigs, cache.value[..dotPos]);
      }
    }

    /** `AsyncReevaluator.onPostExecute`, called with what the running reevaluation
        computed: `CR.toString` at its precision, or None when that failed. */
    method ReevaluationDone(result: Option<string>) returns (notice: Notice)
      requires Valid() && reevaluator.Some?
      requires result.Some? ==> Approximation(result.value, reevaluator.value)
      modifies this
      ensures Valid() && (State(), notice) == Reevaluated(old(State()), result)
      ensures expr == old(expr) && degreeMode == old(degreeMode)
    {
      if result.None? {
        notice := OnError(ErrorNan);
      } else {
        if reevaluator.value < cacheDigs {
          return Fatal;
        }
        cache := result;
        cacheDigs := reevaluator.value;
        notice := OnReevaluate;
      }
      reevaluator := None;
    }

    /** `AsyncDisplayResult.doInBackground`: evaluate the expression in the AsyncTask's
        angle mode and pick the first display precision. */
    method ComputeInitialResult(bigIntegerValue: CR -> int, approx: (CR, int) -> Option<string>, lineLength: int)
      returns (o: InitialOutcome)
      requires Valid() && evaluator.Some?
      ensures o == DisplayResult(Evaluate(expr.Contents(), Context(evaluator.value.degreeMode, bigIntegerValue)),
                                 approx, lineLength)
    {
      var dm := evaluator.value.degreeMode;
      var res := expr.Eval(dm, bigIntegerValue);
      ghost var c := expr.Contents();
      o := InitialResult(res, approx, lineLength);
      assert c == expr.Contents();
    }

    /** `AsyncDisplayResult.onPostExecute`, with the display's current line length. */
    method DisplayDone(o: InitialOutcome, lineLength: int) returns (notice: Notice)
      requires Valid()
      requires o.Computed? ==> Approximation(o.cache, o.prec)
      modifies this
      ensures Valid() && (State(), notice) == Displayed(old(State()), o, lineLength)
      ensures expr == old(expr) && degreeMode == old(degreeMode)
    {
      if o.Crashed? {
        return Fatal;
      }
      evaluator := None;
      match o
      case NoResult => notice := Fatal;
      case Failed(kind) => notice := OnError(kind);
      case Computed(v, ex, c, prec, initDisplayPrec) =>
        val := Some(v);
        exact := ex;
        cache := Some(c);
        cacheDigs := prec;
        lastDigs := initDisplayPrec;
        notice := EvaluatedNotice(o, lineLength);
    }

    /** `getMsd`. */
    method GetMsd() returns (r: int)
      modifies this
      ensures r == MsdOf(old(State())) && State() == AfterGetMsd(old(State()))
      ensures expr == old(expr) && degreeMode == old(degreeMode)
    {
      if msd != INVALID_MSD {
        return msd;
      }
      if exact == Some(0) {
        return INVALID_MSD;
      }
      r := INVALID_MSD;
      if cache.Some? {
        r := GetMsdPos(cache.value);
      }
      if r == INVALID_MSD && evaluator.None? && reevaluator.None? && cacheDigs < MAX_MSD_PREC {
        EnsureCachePrec(MAX_MSD_PREC);
      }
    }

    /** `getString(digs, maxDigs)`: the cached result to `digs` fraction digits in at
        most `maxDigs` characters, with placeholders for digits not yet computed, an
        exponent when the window shows no point, and an ellipsis for dropped leading
        digits; it records `digs` and asks for EXTRA_DIGITS more digits than shown.
        None stands for a `StringIndexOutOfBoundsException`. */
    method GetString(digs: int, maxDigs: int) returns (r: Option<string>)
      requires Valid()
      modifies this
      ensures Valid() && expr == old(expr) && degreeMode == old(degreeMode)
      ensures State() == AfterGetString(old(State()), digs, maxDigs, placeholder)
      ensures old(cache).None? ==> r == Some(Padding(1, placeholder))
      ensures old(cache).Some? ==>
                r == Format(old(cache).value, old(cacheDigs), digs, maxDigs, MsdOf(old(State())), placeholder, ellipsis)
    {
      ghost var s0 := State();
      lastDigs := digs;
      EnsureCachePrec(digs + EXTRA_DIGITS);
      assert MsdOf(State()) == MsdOf(s0);
      if cache.None? {
        var padding := GetPadding(1, placeholder);
        return Some(padding);
      }
      r := ShowCache(digs, maxDigs);
    }

    /** The part of `getString` after the null check. */
    method ShowCache(digs: int, maxDigs: int) returns (r: Option<string>)
      requires Valid() && cache.Some?
      modifies this
      ensures Valid() && expr == old(expr) && degreeMode == old(degreeMode)
      ensures State() == if ReachesExponent(old(cache).value, old(cacheDigs), digs, maxDigs, placeholder)
                         then AfterGetMsd(old(State())) else old(State())
      ensures r == Format(old(cache).value, old(cacheDigs), digs, maxDigs, MsdOf(old(State())), placeholder, ellipsis)
    {
      ghost var s0 := State();
      var c := cache.value;
      ApproximationPoint(c, cacheDigs);
      var w, res, early := WindowStage(c, cacheDigs, digs, maxDigs, placeholder);
      FormatByStages(c, cacheDigs, digs, maxDigs, MsdOf(s0), INVALID_MSD, placeholder, ellipsis);
      if early.Some? {
        return early.value;
      }
      var m := INVALID_MSD;
      if NeedsExponent(res, w) {
        m := GetMsd();
        assert State() == AfterGetMsd(s0) && Consistent(State());
      }
      r := FinishString(c, res, w, m, maxDigs, ellipsis);
    }
  }
}
