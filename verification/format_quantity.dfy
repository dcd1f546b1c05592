/** `formatQuantity` (src/lib/recipeUtils.ts): how a scaled quantity is
    written back, as a whole number, a vulgar fraction or one decimal.
    Numbers are exact reals here; JavaScript's `%` (truncating) and
    `toFixed` (sign, then round half up on the magnitude) are written out. */
module QuantityFormat {
  import opened Optional
  import opened Strings
  import opened Numerals

  function Abs(x: real): (r: real)
    ensures r >= 0.0 && (r == x || r == -x)
  {
    if x < 0.0 then -x else x
  }

  /** JavaScript's `x % 1`: the part after the point, carrying the sign of
      `x`. */
  function Mod1(x: real): (d: real)
    ensures -1.0 < d < 1.0
    ensures x >= 0.0 ==> d >= 0.0 && x - d == x.Floor as real
    ensures x < 0.0 ==> d <= 0.0 && x - d == -((-x).Floor as real)
  {
    if x >= 0.0 then x - x.Floor as real else x + (-x).Floor as real
  }

  /** The integer `Number.prototype.toFixed` picks for a magnitude: the
      nearest one, the larger on a tie. */
  function RoundHalfUp(m: real): (n: nat)
    requires m >= 0.0
    ensures n as real - 0.5 <= m < n as real + 0.5
  {
    (m + 0.5).Floor
  }

  function Sign(x: real): string {
    if x < 0.0 then "-" else ""
  }

  /** `x.toFixed(0)`. */
  function ToFixed0(x: real): string {
    Sign(x) + NatToString(RoundHalfUp(Abs(x)))
  }

  /** `x.toFixed(1)`: the rounded tenths with a point before the last
      digit. */
  function ToFixed1(x: real): string {
    var n := RoundHalfUp(10.0 * Abs(x));
    Sign(x) + NatToString(n / 10) + "." + [DigitChar(n % 10)]
  }

  /** `.replace(/\.0$/, '')`. */
  function DropPointZero(s: string): (r: string)
    ensures EndsWith(s, ".0") ==> s == r + ".0"
    ensures !EndsWith(s, ".0") ==> r == s
  {
    if EndsWith(s, ".0") then s[..|s| - 2] else s
  }

  /** The five fractions the formatter knows. */
  datatype Glyph = Quarter | Third | Half | TwoThirds | ThreeQuarters {
    function Text(): string {
      match this
      case Quarter => "1/4"
      case Third => "1/3"
      case Half => "1/2"
      case TwoThirds => "2/3"
      case ThreeQuarters => "3/4"
    }

    /** The constant the source compares the decimal part against. */
    function Target(): real {
      match this
      case Quarter => 0.25
      case Third => 0.33
      case Half => 0.5
      case TwoThirds => 0.66
      case ThreeQuarters => 0.75
    }

    /** What the printed fraction reads as. */
    function Value(): real {
      match this
      case Quarter => 1.0 / 4.0
      case Third => 1.0 / 3.0
      case Half => 1.0 / 2.0
      case TwoThirds => 2.0 / 3.0
      case ThreeQuarters => 3.0 / 4.0
    }
  }

  /** The order of the `if … else if` chain. */
  const Glyphs: seq<Glyph> := [Quarter, Third, Half, TwoThirds, ThreeQuarters]

  predicate CloseTo(n: real, target: real) {
    Abs(n - target) < 0.05
  }

  /** The first glyph in `gs` whose target is close to `d`. */
  function FirstClose(d: real, gs: seq<Glyph>): (g: Option<Glyph>)
    ensures g.Some? ==> exists i :: 0 <= i < |gs| && gs[i] == g.value && CloseTo(d, g.value.Target())
                                    && forall j :: 0 <= j < i ==> !CloseTo(d, gs[j].Target())
    ensures g.None? ==> forall j :: 0 <= j < |gs| ==> !CloseTo(d, gs[j].Target())
  {
    if |gs| == 0 then None
    else if CloseTo(d, gs[0].Target()) then Some(gs[0])
    else
      var g := FirstClose(d, gs[1..]);
      if g.Some? then
        var i :| 0 <= i < |gs[1..]| && gs[1..][i] == g.value && CloseTo(d, g.value.Target())
                   && forall j :: 0 <= j < i ==> !CloseTo(d, gs[1..][j].Target());
        assert gs[i + 1] == g.value;
        g
      else g
  }

  /** The characters a formatted quantity is made of, after its sign. */
  predicate DisplayChar(c: char) {
    IsDigit(c) || c == ' ' || c == '/' || c == '.'
  }

  predicate DisplayText(s: string) {
    forall k :: 0 <= k < |s| ==> DisplayChar(s[k])
  }

  /** `formatQuantity(num)`. Defined on every real: a minus sign exactly
      for negative input, then digits, spaces, slashes and points only. */
  function FormatQuantity(x: real): (r: string)
    ensures |r| >= 1
    ensures x < 0.0 ==> r[0] == '-' && DisplayText(r[1..])
    ensures x >= 0.0 ==> DisplayText(r)
  {
    var d := Mod1(x);
    if Abs(d) < 0.01 then ToFixed0(x)
    else
      match FirstClose(d, Glyphs)
      case Some(g) =>
        GlyphNeedsPositive(d, g);
        WithGlyph(x.Floor, g)
      case None =>
        var r := ToFixed1(x);
        FixedShown(x, r);
        DropPointZero(r)
  }

  /** The whole part, a space and the fraction; the fraction alone when
      the whole part is not positive. */
  function WithGlyph(whole: int, g: Glyph): (r: string)
    ensures |r| >= 3 && DisplayText(r)
    ensures r[|r| - 3..] == g.Text()
    ensures whole <= 0 <==> r == g.Text()
    ensures whole > 0 ==> |r| >= 5 && r[|r| - 4] == ' ' && AllDigits(r[..|r| - 4])
                          && DigitsValue(r[..|r| - 4]) == whole
  {
    var t := g.Text();
    assert DisplayText(t) && |t| == 3;
    if whole > 0 then
      var n := NatToString(whole);
      DigitsShown(n);
      ShownConcat(n + " ", t);
      var r := n + " " + t;
      assert r[..|r| - 4] == n && r[|r| - 4] == ' ' && r[|r| - 3..] == t;
      r
    else t
  }

  /** Only a non-negative decimal part is close to a glyph's target. */
  lemma GlyphNeedsPositive(d: real, g: Glyph)
    requires FirstClose(d, Glyphs) == Some(g)
    ensures d > 0.0
  {
  }

  lemma DigitsShown(n: string)
    requires AllDigits(n)
    ensures DisplayText(n + " ")
  {
  }

  lemma ShownConcat(a: string, b: string)
    requires DisplayText(a) && DisplayText(b)
    ensures DisplayText(a + b)
  {
  }

  /** `toFixed(1)` writes the sign, then digits with one point. */
  lemma FixedShown(x: real, r: string)
    requires r == ToFixed1(x)
    ensures |r| >= 3 && (x < 0.0 ==> r[0] == '-' && DisplayText(r[1..])) && (x >= 0.0 ==> DisplayText(r))
  {
  }

  /** The three shapes a formatted quantity takes after its sign. */
  datatype Display = Whole(n: nat) | Mixed(whole: nat, glyph: Glyph) | Tenths(tenths: nat)

  function Render(d: Display): string {
    match d
    case Whole(n) => NatToString(n)
    case Mixed(w, g) => WithGlyph(w, g)
    case Tenths(t) =>
      if t % 10 == 0 then NatToString(t / 10)
      else NatToString(t / 10) + "." + [DigitChar(t % 10)]
  }

  /** The number a reader takes a display for. */
  function Value(d: Display): real {
    match d
    case Whole(n) => n as real
    case Mixed(w, g) => w as real + g.Value()
    case Tenths(t) => t as real / 10.0
  }

  /** Every real is written as its sign followed by a display that reads
      within 0.06 of its magnitude: 0.01 for whole numbers, 0.05 for
      tenths, and 0.05 plus the gap between 0.33 and 1/3 (or 0.66 and 2/3)
      for fractions. */
  lemma FormatIsClose(x: real)
    ensures exists d :: FormatQuantity(x) == Sign(x) + Render(d) && Abs(Value(d) - Abs(x)) < 0.06
  {
    var d := Mod1(x);
    if Abs(d) < 0.01 {
      var n := RoundHalfUp(Abs(x));
      NearWholeRounds(x);
      assert FormatQuantity(x) == Sign(x) + Render(Whole(n));
    } else {
      match FirstClose(d, Glyphs)
      case Some(g) =>
        var w := x.Floor;
        GlyphClose(x, g);
        assert FormatQuantity(x) == Sign(x) + Render(Mixed(w, g));
      case None =>
        var n := RoundHalfUp(10.0 * Abs(x));
        ToFixed1Tenths(x);
    }
  }

  lemma NearWholeRounds(x: real)
    requires Abs(Mod1(x)) < 0.01
    ensures Abs(RoundHalfUp(Abs(x)) as real - Abs(x)) < 0.01
  {
    var m := Abs(x);
    assert m - m.Floor as real < 0.01;
    FloorUnique(m + 0.5, m.Floor);
  }

  lemma FloorUnique(r: real, k: int)
    requires k as real <= r < k as real + 1.0
    ensures r.Floor == k
  {
  }

  lemma GlyphClose(x: real, g: Glyph)
    requires Abs(Mod1(x)) >= 0.01
    requires FirstClose(Mod1(x), Glyphs) == Some(g)
    ensures x >= 0.0 && x.Floor >= 0
    ensures Abs(x.Floor as real + g.Value() - x) < 0.06
  {
    assert Abs(g.Value() - g.Target()) < 0.01;
  }

  lemma ToFixed1Tenths(x: real)
    ensures DropPointZero(ToFixed1(x)) == Sign(x) + Render(Tenths(RoundHalfUp(10.0 * Abs(x))))
    ensures Abs(Value(Tenths(RoundHalfUp(10.0 * Abs(x)))) - Abs(x)) <= 0.05
  {
    var n := RoundHalfUp(10.0 * Abs(x));
    var s := ToFixed1(x);
    var head := Sign(x) + NatToString(n / 10);
    assert s == head + ".0" || s == head + "." + [DigitChar(n % 10)];
    if n % 10 == 0 {
      assert s == head + ".0";
      assert s[|s| - 2..] == ".0";
      assert s[..|s| - 2] == head;
    } else {
      assert s[|s| - 1] == DigitChar(n % 10) != '0';
    }
  }

  /** Whole numbers print as plain numerals. */
  lemma FormatWholeNumber(n: nat)
    ensures FormatQuantity(n as real) == NatToString(n)
  {
    var x := n as real;
    assert x.Floor == n;
    assert Mod1(x) == 0.0;
    FloorUnique(x + 0.5, n);
  }

  /** The first branch: a non-negative number whose remainder is below
      0.01 prints as the digits of its whole part. */
  lemma NearWholeIsFloor(x: real)
    requires x >= 0.0 && Mod1(x) < 0.01
    ensures FormatQuantity(x) == NatToString(x.Floor)
  {
    FloorUnique(x + 0.5, x.Floor);
  }

  /** The second branch: the first close target gives its fraction, after
      the whole part and a blank when that part is positive. */
  lemma FractionForm(x: real, g: Glyph)
    requires Abs(Mod1(x)) >= 0.01 && FirstClose(Mod1(x), Glyphs) == Some(g)
    ensures x.Floor >= 0
    ensures x.Floor > 0 ==> FormatQuantity(x) == NatToString(x.Floor) + " " + g.Text()
    ensures x.Floor == 0 ==> FormatQuantity(x) == g.Text()
  {
    GlyphClose(x, g);
  }

  /** The last branch: with no target close, the number prints as its
      sign and its rounded tenths, without a trailing ".0". */
  lemma TenthsForm(x: real)
    requires Abs(Mod1(x)) >= 0.01 && FirstClose(Mod1(x), Glyphs).None?
    ensures FormatQuantity(x) == Sign(x) + Render(Tenths(RoundHalfUp(10.0 * Abs(x))))
  {
    ToFixed1Tenths(x);
  }

  /** Negative input never gets a fraction: the truncating `%` leaves a
      non-positive decimal part, far from every target. */
  lemma NegativeHasNoFraction(x: real)
    requires x < 0.0
    ensures '/' !in FormatQuantity(x) && ' ' !in FormatQuantity(x)
  {
    var d := Mod1(x);
    if Abs(d) >= 0.01 {
      assert FirstClose(d, Glyphs).None?;
    }
  }

  lemma OneAndAHalf(x: real)
    requires x == 1.5
    ensures FormatQuantity(x) == "1 1/2"
  {
    assert x.Floor == 1;
    assert FirstClose(0.5, Glyphs) == Some(Half);
    assert NatToString(1) == "1";
  }

  lemma JustAHalf(x: real)
    requires x == 0.5
    ensures FormatQuantity(x) == "1/2"
  {
    assert x.Floor == 0;
    assert FirstClose(0.5, Glyphs) == Some(Half);
  }

  lemma TwoAndThreeQuarters(x: real)
    requires x == 2.75
    ensures FormatQuantity(x) == "2 3/4"
  {
    assert x.Floor == 2;
    assert FirstClose(0.75, Glyphs) == Some(ThreeQuarters);
    assert NatToString(2) == "2";
  }

  /** Within 0.05 of both 0.25 and 0.33, the earlier target wins. */
  lemma FirstTargetWins(x: real)
    requires x == 0.29
    ensures FormatQuantity(x) == "1/4"
  {
    assert x.Floor == 0;
    assert FirstClose(0.29, Glyphs) == Some(Quarter);
  }

  lemma OneDecimal(x: real)
    requires x == 2.1
    ensures FormatQuantity(x) == "2.1"
  {
    assert x.Floor == 2;
    assert FirstClose(0.1, Glyphs) == None;
    TenthsOf(x, 21);
  }

  /** A decimal part below 0.01 takes the first branch: `toFixed(0)`. */
  lemma NearWholePrintsWhole(x: real)
    requires x == 2.005
    ensures Abs(Mod1(x)) < 0.01
    ensures FormatQuantity(x) == "2"
  {
    assert x.Floor == 2;
    FloorUnique(x + 0.5, 2);
  }

  /** A decimal part between 0.01 and 0.05 rounds to a whole number on the
      one-decimal path and loses its ".0". */
  lemma RoundsToWhole(x: real)
    requires x == 2.03
    ensures Abs(Mod1(x)) >= 0.01
    ensures FormatQuantity(x) == "2"
  {
    assert x.Floor == 2;
    assert FirstClose(0.03, Glyphs) == None;
    TenthsOf(x, 20);
  }

  /** 0.995 is not close to a whole number by the first test, which uses
      the remainder, but `toFixed(1)` rounds it up to "1.0". */
  lemma RoundsUpToOne(x: real)
    requires x == 0.995
    ensures Abs(Mod1(x)) >= 0.01
    ensures FormatQuantity(x) == "1"
  {
    assert x.Floor == 0;
    assert FirstClose(0.995, Glyphs) == None;
    TenthsOf(x, 10);
  }

  /** Negative halves print as decimals, not fractions. */
  lemma NegativeHalf(x: real)
    requires x == -1.5
    ensures FormatQuantity(x) == "-1.5"
  {
    assert (-x).Floor == 1;
    assert Mod1(x) == -0.5;
    assert FirstClose(-0.5, Glyphs) == None;
    TenthsOf(x, 15);
  }

  lemma TenthsOf(x: real, n: nat)
    requires n as real - 0.5 <= 10.0 * Abs(x) < n as real + 0.5
    ensures DropPointZero(ToFixed1(x)) == Sign(x) + Render(Tenths(n))
  {
    FloorUnique(10.0 * Abs(x) + 0.5, n);
    ToFixed1Tenths(x);
  }
}
