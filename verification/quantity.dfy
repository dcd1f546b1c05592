/** `QUANTITY_REGEX` and `parseQuantity` (src/lib/recipeUtils.ts): the
    leading quantity of a cleaned ingredient line.

    The pattern is `^(A|B)\s*(.*)$` with `A` = digits, optionally `.` and
    digits, and `B` = digits `/` digits. `A` is tried first; `.` matches any
    character except a line terminator. Because `A` accepts any leading digit
    and `(.*)$` accepts any remainder without a line terminator, `B` can only
    take over when the remainder after `A` holds a line terminator that `B`'s
    own `\s*` can swallow, as in "1/2" + CR + "cup". */
module Quantity {
  import opened Optional
  import opened Strings
  import opened Numerals

  /** The first capture group. */
  datatype Token =
    | Decimal(whole: string, fraction: string)  // `fraction` is "" when there is no decimal point
    | Ratio(numerator: string, denominator: string)

  predicate WellFormed(t: Token) {
    match t
    case Decimal(w, f) => |w| > 0 && AllDigits(w) && AllDigits(f)
    case Ratio(n, d) => |n| > 0 && |d| > 0 && AllDigits(n) && AllDigits(d)
  }

  /** The text of the line the token was read from. */
  function TokenText(t: Token): string {
    match t
    case Decimal(w, f) => if f == "" then w else w + "." + f
    case Ratio(n, d) => n + "/" + d
  }

  /** A successful match: the token and the second capture group. */
  datatype QuantityMatch = QuantityMatch(token: Token, rest: string)

  /** The end of the run of ASCII digits that starts at `i`. */
  function DigitRunEnd(s: string, i: nat): (j: nat)
    requires i <= |s|
    ensures i <= j <= |s|
    ensures AllDigits(s[i..j])
    ensures j < |s| ==> !IsDigit(s[j])
    decreases |s| - i
  {
    if i < |s| && IsDigit(s[i]) then DigitRunEnd(s, i + 1) else i
  }

  /** `\s*(.*)$` from position `p`: the whitespace run is skipped and the
      remainder must hold no line terminator. Giving whitespace back to
      `(.*)` cannot help, so the greedy choice decides. */
  function TailFrom(s: string, p: nat): (r: Option<string>)
    requires p <= |s|
    ensures r.Some? ==> r.value == s[SpaceRunEnd(s, p)..]
    ensures r.Some? ==>
              && |r.value| <= |s| - p
              && AllSpaces(s[p..|s| - |r.value|])
              && NoLineTerminator(r.value)
              && (|r.value| > 0 ==> !IsSpace(r.value[0]))
  {
    var q := SpaceRunEnd(s, p);
    if NoLineTerminator(s[q..]) then Some(s[q..]) else None
  }

  /** `s.match(QUANTITY_REGEX)`. Shorter digit runs never rescue a failed
      tail (they only lengthen the remainder), so each alternative is
      decided by its longest token. */
  function MatchQuantity(s: string): (m: Option<QuantityMatch>)
    ensures (|s| == 0 || !IsDigit(s[0])) ==> m.None?
    ensures m.Some? ==> WellFormed(m.value.token)
    ensures m.Some? ==> Reads(s, m.value)
    ensures m.Some? ==> NoLineTerminator(m.value.rest)
    ensures m.Some? && |m.value.rest| > 0 ==> !IsSpace(m.value.rest[0])
  {
    if |s| == 0 || !IsDigit(s[0]) then None
    else
      var a := DigitRunEnd(s, 0);
      var hasFraction := a + 1 < |s| && s[a] == '.' && IsDigit(s[a + 1]);
      var p := if hasFraction then DigitRunEnd(s, a + 1) else a;
      var tok := Decimal(s[..a], if hasFraction then s[a + 1..p] else "");
      assert hasFraction ==> s[..p] == s[..a] + "." + s[a + 1..p];
      match TailFrom(s, p)
      case Some(rest) =>
        TailReads(s, tok, p, rest);
        Some(QuantityMatch(tok, rest))
      case None =>
        if a + 1 < |s| && s[a] == '/' && IsDigit(s[a + 1]) then
          var b := DigitRunEnd(s, a + 1);
          var ratio := Ratio(s[..a], s[a + 1..b]);
          assert s[..b] == s[..a] + "/" + s[a + 1..b];
          match TailFrom(s, b)
          case Some(rest) =>
            TailReads(s, ratio, b, rest);
            Some(QuantityMatch(ratio, rest))
          case None => None
        else None
  }

  /** `m` spells `s`: the token's text, a whitespace run, the remainder. */
  predicate Reads(s: string, m: QuantityMatch) {
    var t := TokenText(m.token);
    && |t| + |m.rest| <= |s|
    && s[..|t|] == t
    && AllSpaces(s[|t|..|s| - |m.rest|])
    && s[|s| - |m.rest|..] == m.rest
  }

  lemma TailReads(s: string, tok: Token, p: nat, rest: string)
    requires p <= |s| && s[..p] == TokenText(tok)
    requires TailFrom(s, p) == Some(rest)
    ensures Reads(s, QuantityMatch(tok, rest))
  {
  }

  /** `parseQuantity(match[1])`: `parseFloat` of a decimal token; for a
      ratio, `Number` of each side and their quotient, or 0 when the
      denominator is 0. */
  function ParseQuantity(t: Token): (r: real)
    requires WellFormed(t)
    ensures r >= 0.0
    ensures t.Decimal? ==> r.Floor == DigitsValue(t.whole)
    ensures t.Decimal? ==> AllDigits(t.whole + t.fraction)
    ensures t.Decimal? ==> r == PointValue(t.whole + t.fraction, |t.fraction|)
    ensures t.Ratio? ==> r == Quotient(DigitsValue(t.numerator), DigitsValue(t.denominator))
  {
    if t.Decimal? then DecimalValue(t.whole, t.fraction)
    else Quotient(DigitsValue(t.numerator), DigitsValue(t.denominator))
  }

  /** The value of `w.f`: the digits `wf` read with the point before the
      last `|f|` of them; its whole part is the value of `w`. */
  function DecimalValue(w: string, f: string): (r: real)
    requires AllDigits(w) && AllDigits(f)
    ensures r >= 0.0 && r.Floor == DigitsValue(w)
    ensures AllDigits(w + f)
    ensures r == PointValue(w + f, |f|)
  {
    FractionBelowOne(f);
    WholePlusFraction(DigitsValue(w), FractionValue(f));
    DigitsConcat(w, f);
    ShiftedDecimal(DigitsValue(w), DigitsValue(f), Pow10(|f|));
    DigitsValue(w) as real + FractionValue(f)
  }

  /** "1.5" is one and a half, not just something with integer part 1. */
  lemma OneAndAHalf(t: Token)
    requires t == Decimal("1", "5")
    ensures WellFormed(t) && ParseQuantity(t) == 1.5
  {
    assert t.whole + t.fraction == "15";
    assert DigitsValue("15") == 15 by {
      assert "15"[..1] == "1";
    }
  }

  lemma ShiftedDecimal(w: nat, d: nat, p: nat)
    requires p >= 1
    ensures w as real + d as real / p as real == (w * p + d) as real / p as real
  {
    var q := d as real / p as real;
    assert q * p as real == d as real;
    assert (w as real + q) * p as real == w as real * p as real + q * p as real;
  }

  /** `n / d`, or 0 when `d` is 0. */
  function Quotient(n: nat, d: nat): (r: real)
    ensures r >= 0.0
    ensures d == 0 ==> r == 0.0
    ensures d != 0 ==> r * d as real == n as real
  {
    if d != 0 then
      QuotientOfNats(n, d);
      n as real / d as real
    else 0.0
  }

  lemma WholePlusFraction(w: nat, f: real)
    requires 0.0 <= f < 1.0
    ensures (w as real + f).Floor == w
    ensures w as real + f >= 0.0
  {
  }

  lemma QuotientOfNats(n: nat, d: nat)
    requires d != 0
    ensures n as real / d as real >= 0.0
    ensures (n as real / d as real) * d as real == n as real
  {
  }

  lemma {:induction false} DigitsBelowPower(s: string)
    requires AllDigits(s)
    ensures DigitsValue(s) < Pow10(|s|)
    decreases |s|
  {
    if |s| > 0 {
      DigitsBelowPower(s[..|s| - 1]);
    }
  }

  lemma FractionBelowOne(s: string)
    requires AllDigits(s)
    ensures FractionValue(s) < 1.0
  {
    DigitsBelowPower(s);
    QuotientBelowOne(DigitsValue(s) as real, Pow10(|s|) as real);
  }

  lemma QuotientBelowOne(d: real, p: real)
    requires 0.0 <= d < p
    ensures d / p < 1.0
  {
    var x := d / p;
    assert x * p == d;
  }

  /** The token a match reports is the longest number at the start: the
      digits stop at a non-digit, and a decimal token without fraction is
      not followed by a point and a digit. */
  lemma MatchIsLongest(s: string)
    requires MatchQuantity(s).Some?
    ensures var t := TokenText(MatchQuantity(s).value.token);
            |t| == |s| || !IsDigit(s[|t|])
    ensures var tok := MatchQuantity(s).value.token;
            tok.Decimal? && tok.fraction == "" ==>
              !(|tok.whole| + 1 < |s| && s[|tok.whole|] == '.' && IsDigit(s[|tok.whole| + 1]))
  {
    var a := DigitRunEnd(s, 0);
    var hasFraction := a + 1 < |s| && s[a] == '.' && IsDigit(s[a + 1]);
    var p := if hasFraction then DigitRunEnd(s, a + 1) else a;
    var tok := MatchQuantity(s).value.token;
    if TailFrom(s, p).Some? {
      assert tok == Decimal(s[..a], if hasFraction then s[a + 1..p] else "");
      assert |TokenText(tok)| == p;
    } else {
      var b := DigitRunEnd(s, a + 1);
      assert tok == Ratio(s[..a], s[a + 1..b]);
      assert |TokenText(tok)| == b;
    }
  }

  /** On a line without line terminators the fraction alternative never
      fires: a leading digit always yields a decimal token. */
  lemma LeadingDigitGivesDecimal(s: string)
    requires |s| > 0 && IsDigit(s[0])
    requires NoLineTerminator(s)
    ensures MatchQuantity(s).Some?
    ensures MatchQuantity(s).value.token.Decimal?
  {
    var a := DigitRunEnd(s, 0);
    var hasFraction := a + 1 < |s| && s[a] == '.' && IsDigit(s[a + 1]);
    var p := if hasFraction then DigitRunEnd(s, a + 1) else a;
    var q := SpaceRunEnd(s, p);
    assert forall k :: 0 <= k < |s[q..]| ==> s[q..][k] == s[q + k];
  }

  /** An integer, optional whitespace, then text that cannot extend the
      number: the integer is the token and the text is the rest. */
  lemma IntegerThenText(digits: string, w: string, rest: string)
    requires |digits| > 0 && AllDigits(digits)
    requires AllSpaces(w)
    requires NoLineTerminator(rest)
    requires |rest| > 0 ==> !IsDigit(rest[0]) && !IsSpace(rest[0])
    requires |w| == 0 && |rest| > 1 ==> !(rest[0] == '.' && IsDigit(rest[1]))
    ensures MatchQuantity(digits + w + rest) == Some(QuantityMatch(Decimal(digits, ""), rest))
  {
    var s := digits + w + rest;
    var a := |digits|;
    IntegerRunEnds(digits, w, rest);
    assert !(a + 1 < |s| && s[a] == '.' && IsDigit(s[a + 1])) by {
      if |w| > 0 {
        assert s[a] == w[0];
      } else if |rest| > 1 {
        assert s[a] == rest[0] && s[a + 1] == rest[1];
      }
    }
    IntegerTail(digits, w, rest);
    assert s[..a] == digits;
  }

  lemma IntegerRunEnds(digits: string, w: string, rest: string)
    requires |digits| > 0 && AllDigits(digits)
    requires AllSpaces(w)
    requires |rest| > 0 ==> !IsDigit(rest[0])
    ensures DigitRunEnd(digits + w + rest, 0) == |digits|
  {
    var s := digits + w + rest;
    assert s[..|digits|] == digits;
    if |digits| < |s| {
      if |w| > 0 {
        assert s[|digits|] == w[0];
      } else {
        assert s[|digits|] == rest[0];
      }
    }
    DigitRunOver(s, digits);
  }

  lemma IntegerTail(digits: string, w: string, rest: string)
    requires AllSpaces(w)
    requires NoLineTerminator(rest)
    requires |rest| > 0 ==> !IsSpace(rest[0])
    ensures TailFrom(digits + w + rest, |digits|) == Some(rest)
  {
    var s := digits + w + rest;
    assert s == digits + (w + rest);
    SpaceRunAcross(w, rest, 0);
    SpaceRunShifted(digits, w + rest, 0);
    assert SpaceRunEnd(rest, 0) == 0;
    assert s[|digits| + |w|..] == rest;
  }

  /** A decimal `a.b`, optional whitespace, then text that cannot extend
      the number. */
  lemma DecimalThenText(whole: string, fraction: string, w: string, rest: string)
    requires |whole| > 0 && AllDigits(whole)
    requires |fraction| > 0 && AllDigits(fraction)
    requires AllSpaces(w)
    requires NoLineTerminator(rest)
    requires |rest| > 0 ==> !IsDigit(rest[0]) && !IsSpace(rest[0])
    ensures MatchQuantity(whole + "." + fraction + w + rest)
            == Some(QuantityMatch(Decimal(whole, fraction), rest))
  {
    var s := whole + "." + fraction + w + rest;
    DecimalShape(whole, fraction, w, rest);
    IntegerTail(whole + "." + fraction, w, rest);
    DecimalMatchAt(s, |whole|, |whole| + 1 + |fraction|, Decimal(whole, fraction), rest);
  }

  lemma DecimalShape(whole: string, fraction: string, w: string, rest: string)
    requires |whole| > 0 && AllDigits(whole)
    requires |fraction| > 0 && AllDigits(fraction)
    requires AllSpaces(w)
    requires |rest| > 0 ==> !IsDigit(rest[0])
    ensures var s, a, p := whole + "." + fraction + w + rest, |whole|, |whole| + 1 + |fraction|;
            && 0 < a && a + 1 < p <= |s| && IsDigit(s[0])
            && DigitRunEnd(s, 0) == a && s[a] == '.' && IsDigit(s[a + 1])
            && DigitRunEnd(s, a + 1) == p
            && Decimal(s[..a], s[a + 1..p]) == Decimal(whole, fraction)
  {
    var t := whole + "." + fraction;
    var s := t + w + rest;
    assert s == t + (w + rest);
    DecimalRunsEnd(whole, fraction, w + rest);
    DecimalPieces(t, whole, fraction, w + rest);
  }

  lemma DecimalPieces(t: string, whole: string, fraction: string, tail: string)
    requires t == whole + "." + fraction && |fraction| > 0
    ensures var s, a := t + tail, |whole|;
            && s[a] == '.' && s[a + 1] == fraction[0]
            && s[..a] == whole && s[a + 1..|t|] == fraction
  {
    var s := t + tail;
    assert s[..|t|] == t;
  }

  /** The first branch of the expression on a decimal whose digit runs end
      at `a` and `p`. */
  lemma DecimalMatchAt(s: string, a: nat, p: nat, tok: Token, rest: string)
    requires 0 < a && a + 1 < p <= |s| && IsDigit(s[0])
    requires DigitRunEnd(s, 0) == a && s[a] == '.' && IsDigit(s[a + 1])
    requires DigitRunEnd(s, a + 1) == p && TailFrom(s, p) == Some(rest)
    requires tok == Decimal(s[..a], s[a + 1..p])
    ensures MatchQuantity(s) == Some(QuantityMatch(tok, rest))
  {
  }

  lemma DecimalRunsEnd(whole: string, fraction: string, tail: string)
    requires |whole| > 0 && AllDigits(whole)
    requires |fraction| > 0 && AllDigits(fraction)
    requires |tail| > 0 ==> !IsDigit(tail[0])
    ensures DigitRunEnd(whole + "." + fraction + tail, 0) == |whole|
    ensures DigitRunEnd(whole + "." + fraction + tail, |whole| + 1) == |whole| + 1 + |fraction|
  {
    var s := whole + "." + fraction + tail;
    assert s[..|whole|] == whole;
    assert s[|whole|] == '.';
    DigitRunOver(s, whole);
    var t := whole + ".";
    assert s[..|t| + |fraction|] == t + fraction;
    if |t| + |fraction| < |s| {
      assert s[|t| + |fraction|] == tail[0];
    }
    DigitRunOverAt(s, t, fraction);
  }

  /** A digit run that is a prefix ends where the prefix ends, if the next
      character is not a digit. */
  lemma DigitRunOver(s: string, digits: string)
    requires |digits| <= |s| && s[..|digits|] == digits && AllDigits(digits)
    requires |digits| < |s| ==> !IsDigit(s[|digits|])
    ensures DigitRunEnd(s, 0) == |digits|
  {
    DigitRunOverFrom(s, digits, 0);
  }

  lemma {:induction false} DigitRunOverFrom(s: string, digits: string, i: nat)
    requires |digits| <= |s| && s[..|digits|] == digits && AllDigits(digits)
    requires |digits| < |s| ==> !IsDigit(s[|digits|])
    requires i <= |digits|
    ensures DigitRunEnd(s, i) == |digits|
    decreases |digits| - i
  {
    if i < |digits| {
      assert s[i] == digits[i];
      DigitRunOverFrom(s, digits, i + 1);
    }
  }

  /** A digit run starting after a prefix `t` covers exactly `digits`. */
  lemma DigitRunOverAt(s: string, t: string, digits: string)
    requires |t| + |digits| <= |s| && s[..|t| + |digits|] == t + digits
    requires AllDigits(digits)
    requires |t| + |digits| < |s| ==> !IsDigit(s[|t| + |digits|])
    ensures DigitRunEnd(s, |t|) == |t| + |digits|
  {
    DigitRunAtFrom(s, t, digits, 0);
  }

  lemma {:induction false} DigitRunAtFrom(s: string, t: string, digits: string, i: nat)
    requires |t| + |digits| <= |s| && s[..|t| + |digits|] == t + digits
    requires AllDigits(digits)
    requires |t| + |digits| < |s| ==> !IsDigit(s[|t| + |digits|])
    requires i <= |digits|
    ensures DigitRunEnd(s, |t| + i) == |t| + |digits|
    decreases |digits| - i
  {
    if i < |digits| {
      assert s[|t| + i] == (t + digits)[|t| + i] == digits[i];
      DigitRunAtFrom(s, t, digits, i + 1);
    }
  }

  /** The fraction alternative does fire when a line terminator follows
      the ratio: `"1/2" + CR + "cup"` reads as one half. */
  lemma RatioBeforeTerminator(s: string)
    requires s == "1/2\rcup"
    ensures MatchQuantity(s) == Some(QuantityMatch(Ratio("1", "2"), "cup"))
    ensures ParseQuantity(Ratio("1", "2")) == 0.5
  {
    assert DigitRunEnd(s, 0) == 1 by {
      assert DigitRunEnd(s, 1) == 1;
    }
    assert SpaceRunEnd(s, 1) == 1;
    assert IsLineTerminator(s[1..][2]);
    assert !NoLineTerminator(s[1..]);
    assert DigitRunEnd(s, 2) == 3 by {
      assert DigitRunEnd(s, 3) == 3;
    }
    assert SpaceRunEnd(s, 3) == 4 by {
      assert SpaceRunEnd(s, 4) == 4;
    }
    assert s[4..] == "cup";
    assert s[..1] == "1" && s[2..3] == "2";
    assert DigitsValue("1") == 1 && DigitsValue("2") == 2 by {
      assert "1"[..0] == "" && "2"[..0] == "";
    }
  }
}
