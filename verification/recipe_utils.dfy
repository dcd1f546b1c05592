/** `parseIngredientLine` (src/lib/recipeUtils.ts): one free-text line
    becomes a `ParsedItem` with an optional quantity, a display name, a
    staple flag and an id. `Date.now()` is the parameter `now`. */
module RecipeUtils {
  import opened Optional
  import opened Strings
  import opened Numerals
  import opened LineCleaner
  import opened Quantity
  import opened Staples

  /** `ParsedItem`. `unit` is always `None`: no unit is ever extracted. */
  datatype ParsedItem = ParsedItem(
    original: string,
    name: string,
    quantity: Option<real>,
    unit: Option<string>,
    isStandard: bool,
    isChecked: bool,
    id: string
  )

  /** `item-${idx}-${Date.now()}`. */
  function ItemId(idx: nat, now: nat): string {
    "item-" + NatToString(idx) + "-" + NatToString(now)
  }

  /** Ids are distinct as soon as the index or the clock reading differs. */
  lemma ItemIdInjective(i1: nat, n1: nat, i2: nat, n2: nat)
    requires ItemId(i1, n1) == ItemId(i2, n2)
    ensures i1 == i2 && n1 == n2
  {
    var a, c := NatToString(i1), NatToString(i2);
    var b, d := NatToString(n1), NatToString(n2);
    DigitsExclude(a, '-');
    DigitsExclude(c, '-');
    var x, y := "item-" + a + "-" + b, "item-" + c + "-" + d;
    assert x[5..] == a + "-" + b;
    assert y[5..] == c + "-" + d;
    SplitAtFirst(a, b, c, d, '-');
    NatToStringInjective(i1, i2);
    NatToStringInjective(n1, n2);
  }

  /** Text before the first separator, and after it, are determined. */
  lemma SplitAtFirst(a: string, b: string, c: string, d: string, sep: char)
    requires sep !in a && sep !in c
    requires a + [sep] + b == c + [sep] + d
    ensures a == c && b == d
  {
    var s := a + [sep] + b;
    assert s[|a|] == sep && s[|c|] == sep;
    assert forall k :: 0 <= k < |c| ==> s[k] == c[k] != sep;
    assert forall k :: 0 <= k < |a| ==> s[k] == a[k] != sep;
    assert |a| == |c|;
    assert a == s[..|a|] && c == s[..|c|];
    assert b == s[|a| + 1..] && d == s[|c| + 1..];
  }

  /** `parseIngredientLine(line, idx)` with the clock reading `now`. */
  function ParseIngredientLine(line: string, idx: nat, now: nat): (item: ParsedItem)
    ensures item.original == line && item.unit.None? && item.id == ItemId(idx, now)
    ensures item.isChecked == !item.isStandard
    ensures item.isStandard <==> IsStandard(item.name)
    ensures item.quantity.None? <==> MatchQuantity(CleanLine(line)).None?
    ensures item.quantity.None? ==> item.name == CleanLine(line)
  {
    var c := CleanLine(line);
    match MatchQuantity(c)
    case Some(m) => Item(line, m.rest, Some(ParseQuantity(m.token)), ItemId(idx, now))
    case None => Item(line, c, None, ItemId(idx, now))
  }

  /** An item whose checkbox starts ticked exactly when it is not a staple. */
  function Item(line: string, name: string, quantity: Option<real>, id: string): (item: ParsedItem)
    ensures item.original == line && item.name == name && item.quantity == quantity
    ensures item.unit.None? && item.id == id
    ensures item.isChecked == !item.isStandard && (item.isStandard <==> IsStandard(name))
  {
    var standard := IsStandard(name);
    ParsedItem(line, name, quantity, None, standard, !standard, id)
  }

  /** With a quantity, the name is what follows the number: a proper suffix
      of a cleaned line that starts with a digit. */
  lemma NameAfterNumber(line: string, idx: nat, now: nat)
    ensures var item := ParseIngredientLine(line, idx, now);
            var c := CleanLine(line);
            item.quantity.Some? ==> |c| > 0 && IsDigit(c[0]) && |item.name| < |c| && EndsWith(c, item.name)
  {
    RestOfMatch(CleanLine(line));
    MatchedItem(line, idx, now);
  }

  /** A cleaned line that starts with a digit and holds no line terminator
      always yields a quantity. */
  lemma DigitLineHasQuantity(line: string, idx: nat, now: nat)
    requires var c := CleanLine(line); |c| > 0 && IsDigit(c[0]) && NoLineTerminator(c)
    ensures ParseIngredientLine(line, idx, now).quantity.Some?
  {
    QuantityWhenDigitLeads(CleanLine(line));
  }

  /** Quantities are never negative. */
  lemma QuantityNonNegative(line: string, idx: nat, now: nat)
    ensures var item := ParseIngredientLine(line, idx, now);
            item.quantity.Some? ==> item.quantity.value >= 0.0
  {
    MatchedItem(line, idx, now);
  }

  /** The name is never longer than the line and never begins or ends with
      whitespace. */
  lemma NameTrimmed(line: string, idx: nat, now: nat)
    ensures var name := ParseIngredientLine(line, idx, now).name;
            && |name| <= |line|
            && (|name| > 0 ==> !IsSpace(name[0]) && !IsSpace(name[|name| - 1]))
  {
    var c := CleanLine(line);
    var item := ParseIngredientLine(line, idx, now);
    assert |c| <= |line| && (|c| > 0 ==> !IsSpace(c[0]) && !IsSpace(c[|c| - 1]));
    if item.quantity.Some? {
      RestOfMatch(c);
      MatchedItem(line, idx, now);
      assert |item.name| < |c|;
    } else {
      assert item.name == c;
    }
  }

  lemma MatchedItem(line: string, idx: nat, now: nat)
    ensures var item := ParseIngredientLine(line, idx, now);
            var m := MatchQuantity(CleanLine(line));
            item.quantity.Some? ==>
              m.Some? && item.name == m.value.rest && item.quantity.value == ParseQuantity(m.value.token)
  {
  }

  /** With a quantity, the cleaned line is a well-formed number, blanks and
      the name; the number is the longest one at the start, and the
      quantity is its value. */
  lemma NameFromMatch(line: string, idx: nat, now: nat)
    ensures var item := ParseIngredientLine(line, idx, now);
            var c := CleanLine(line);
            item.quantity.Some? ==>
              exists t :: WellFormed(t) && Reads(c, QuantityMatch(t, item.name))
                && item.quantity.value == ParseQuantity(t)
                && (|TokenText(t)| == |c| || !IsDigit(c[|TokenText(t)|]))
  {
    var item := ParseIngredientLine(line, idx, now);
    var c := CleanLine(line);
    MatchedItem(line, idx, now);
    if item.quantity.Some? {
      MatchIsLongest(c);
      var t := MatchQuantity(c).value.token;
      assert WellFormed(t) && Reads(c, QuantityMatch(t, item.name));
    }
  }

  /** The name is cut from the cleaned line, so it holds no character the
      line lacks. */
  lemma NameFree(line: string, idx: nat, now: nat, ch: char)
    requires ch !in line
    ensures ch !in ParseIngredientLine(line, idx, now).name
  {
    CleanLineFree(line, ch);
    var c := CleanLine(line);
    var item := ParseIngredientLine(line, idx, now);
    NameAfterNumber(line, idx, now);
    if item.quantity.Some? {
      SuffixFree(c, item.name, ch);
    }
  }

  lemma SuffixFree(s: string, t: string, ch: char)
    requires ch !in s && EndsWith(s, t)
    ensures ch !in t
  {
    assert forall k :: 0 <= k < |t| ==> t[k] == s[|s| - |t| + k];
  }

  lemma QuantityWhenDigitLeads(c: string)
    ensures |c| > 0 && IsDigit(c[0]) && NoLineTerminator(c) ==> MatchQuantity(c).Some?
  {
    if |c| > 0 && IsDigit(c[0]) && NoLineTerminator(c) {
      LeadingDigitGivesDecimal(c);
    }
  }

  /** The remainder of a match is a proper suffix of the line; on a line
      without trailing whitespace it has none at either end. */
  lemma RestOfMatch(c: string)
    requires |c| > 0 ==> !IsSpace(c[|c| - 1])
    ensures MatchQuantity(c).Some? ==>
              var r := MatchQuantity(c).value.rest;
              && |c| > 0 && IsDigit(c[0]) && |r| < |c| && EndsWith(c, r)
              && (|r| > 0 ==> !IsSpace(r[0]) && !IsSpace(r[|r| - 1]))
  {
    if MatchQuantity(c).Some? {
      var m := MatchQuantity(c).value;
      assert Reads(c, m);
      assert |TokenText(m.token)| > 0;
      if |m.rest| > 0 {
        assert m.rest[|m.rest| - 1] == c[|c| - 1];
      }
    }
  }

  /** The item is determined by the match on the cleaned line. */
  lemma ParsedFromMatch(line: string, idx: nat, now: nat, tok: Token, rest: string, v: real)
    requires MatchQuantity(CleanLine(line)) == Some(QuantityMatch(tok, rest))
    requires WellFormed(tok) && ParseQuantity(tok) == v
    ensures var item := ParseIngredientLine(line, idx, now);
            item.quantity == Some(v) && item.name == rest
  {
  }

  lemma ValueOf(whole: string, fraction: string, v: real)
    requires |whole| > 0 && AllDigits(whole) && AllDigits(fraction)
    requires DigitsValue(whole) as real + FractionValue(fraction) == v
    ensures WellFormed(Decimal(whole, fraction)) && ParseQuantity(Decimal(whole, fraction)) == v
  {
  }

  lemma ValueOne()
    ensures WellFormed(Decimal("1", "")) && ParseQuantity(Decimal("1", "")) == 1.0
  {
    ValueOf("1", "", 1.0);
  }

  lemma ValueThree()
    ensures WellFormed(Decimal("3", "")) && ParseQuantity(Decimal("3", "")) == 3.0
  {
    ValueOf("3", "", 3.0);
  }

  lemma ValueOneAndAHalf()
    ensures WellFormed(Decimal("1", "5")) && ParseQuantity(Decimal("1", "5")) == 1.5
  {
    ValueOf("1", "5", 1.5);
  }

  /** A whole number, a space and a plain name read back as that number
      and that name: what the lists write for whole quantities parses to
      the same quantity. */
  lemma WholeQuantityReadsBack(n: nat, name: string, idx: nat, now: nat)
    requires '[' !in name && NoLineTerminator(name)
    requires |name| > 0 ==> !IsDigit(name[0]) && !IsSpace(name[0]) && !IsSpace(name[|name| - 1])
    ensures var item := ParseIngredientLine(NatToString(n) + " " + name, idx, now);
            item.quantity == Some(n as real) && item.name == name
  {
    var digits := NatToString(n);
    WholeQuantityMatches(digits, name);
    WholeValue(n);
    ParsedFromMatch(digits + " " + name, idx, now, Decimal(digits, ""), name, n as real);
  }

  lemma WholeValue(n: nat)
    ensures WellFormed(Decimal(NatToString(n), ""))
    ensures ParseQuantity(Decimal(NatToString(n), "")) == n as real
  {
  }

  lemma WholeQuantityMatches(digits: string, name: string)
    requires |digits| > 0 && AllDigits(digits)
    requires '[' !in name && NoLineTerminator(name)
    requires |name| > 0 ==> !IsDigit(name[0]) && !IsSpace(name[0]) && !IsSpace(name[|name| - 1])
    ensures MatchQuantity(CleanLine(digits + " " + name)) == Some(QuantityMatch(Decimal(digits, ""), name))
  {
    if |name| == 0 {
      NumberOnlyMatches(digits);
      assert digits + " " + name == digits + " ";
    } else {
      NumberNameMatches(digits, name);
    }
  }

  lemma NumberOnlyMatches(digits: string)
    requires |digits| > 0 && AllDigits(digits)
    ensures MatchQuantity(CleanLine(digits + " ")) == Some(QuantityMatch(Decimal(digits, ""), ""))
  {
    NumberSpaceCleans(digits);
    BareDigitsMatch(digits);
  }

  lemma NumberNameMatches(digits: string, name: string)
    requires |digits| > 0 && AllDigits(digits)
    requires '[' !in name && NoLineTerminator(name)
    requires |name| > 0 && !IsDigit(name[0]) && !IsSpace(name[0]) && !IsSpace(name[|name| - 1])
    ensures MatchQuantity(CleanLine(digits + " " + name)) == Some(QuantityMatch(Decimal(digits, ""), name))
  {
    NumberNameCleans(digits, name);
    NumberNameRaw(digits, name);
  }

  lemma NumberNameRaw(digits: string, name: string)
    requires |digits| > 0 && AllDigits(digits)
    requires NoLineTerminator(name)
    requires |name| > 0 && !IsDigit(name[0]) && !IsSpace(name[0])
    ensures MatchQuantity(digits + " " + name) == Some(QuantityMatch(Decimal(digits, ""), name))
  {
    assert AllSpaces(" ") by { assert " "[0] == ' '; }
    IntegerThenText(digits, " ", name);
  }

  lemma BareDigitsMatch(digits: string)
    requires |digits| > 0 && AllDigits(digits)
    ensures MatchQuantity(digits) == Some(QuantityMatch(Decimal(digits, ""), ""))
  {
    assert digits == digits + "" + "";
    IntegerThenText(digits, "", "");
  }

  lemma NumberNameCleans(digits: string, name: string)
    requires |digits| > 0 && AllDigits(digits)
    requires '[' !in name
    requires |name| > 0 && !IsSpace(name[|name| - 1])
    ensures CleanLine(digits + " " + name) == digits + " " + name
  {
    var s := digits + " " + name;
    assert s == digits + (" " + name);
    NumberLineIsPlain(digits, " " + name);
    assert s[0] == digits[0] && s[|s| - 1] == name[|name| - 1];
    DigitIsNotSpace(digits[0]);
    TrimOfSpaceFree(s);
  }

  lemma NumberSpaceCleans(digits: string)
    requires |digits| > 0 && AllDigits(digits)
    ensures CleanLine(digits + " ") == digits
  {
    NumberLineIsPlain(digits, " ");
    DigitIsNotSpace(digits[0]);
    DigitIsNotSpace(digits[|digits| - 1]);
    TrailingSpaceTrims(digits);
  }

  lemma DigitIsNotSpace(c: char)
    requires IsDigit(c)
    ensures !IsSpace(c)
  {
  }

  /** A line with no `[`, opening with a character that is neither a
      hyphen, a bullet nor whitespace, and not ending in whitespace, is
      left as it is by cleaning. */
  lemma PlainLineCleans(line: string)
    requires |line| > 0 && '[' !in line
    requires line[0] != '-' && !IsBulletChar(line[0]) && !IsSpace(line[0]) && !IsSpace(line[|line| - 1])
    ensures CleanLine(line) == line
  {
    CleanPlainLine(line);
    TrimOfSpaceFree(line);
  }

  lemma TrailingSpaceTrims(x: string)
    requires |x| > 0 && !IsSpace(x[0]) && !IsSpace(x[|x| - 1])
    ensures Trim(x + " ") == x
  {
    var s := x + " ";
    assert s[0] == x[0];
    TrimStartOfNonSpace(s);
    assert s[..|s| - 1] == x;
    assert TrimEnd(s) == TrimEnd(x);
  }

  /** A line that opens with digits and has no `[` is only trimmed. */
  lemma NumberLineIsPlain(digits: string, tail: string)
    requires |digits| > 0 && AllDigits(digits)
    requires '[' !in tail
    ensures CleanLine(digits + tail) == Trim(digits + tail)
  {
    var s := digits + tail;
    DigitsExclude(digits, '[');
    assert s[0] == digits[0];
    CleanPlainLine(s);
  }

  /** "1/2 cup sugar": the decimal alternative takes the "1", so the
      quantity is 1 and the name keeps "/2". */
  lemma HalfCupOfSugar(line: string, idx: nat, now: nat)
    requires line == "1/2 cup sugar"
    ensures var item := ParseIngredientLine(line, idx, now);
            item.quantity == Some(1.0) && item.name == "/2 cup sugar"
            && item.isStandard && !item.isChecked
  {
    HalfCupOfSugarMatches(line);
    ValueOne();
    ParsedFromMatch(line, idx, now, Decimal("1", ""), "/2 cup sugar", 1.0);
    SugarIsStandard("/2 cup sugar");
  }

  lemma HalfCupOfSugarMatches(line: string)
    requires line == "1/2 cup sugar"
    ensures MatchQuantity(CleanLine(line)) == Some(QuantityMatch(Decimal("1", ""), "/2 cup sugar"))
  {
    HalfCupOfSugarCleans(line);
    HalfCupOfSugarMatch(line);
  }

  lemma HalfCupOfSugarCleans(line: string)
    requires line == "1/2 cup sugar"
    ensures CleanLine(line) == line
  {
    HalfCupOfSugarEnds(line);
    PlainLineCleans(line);
  }

  lemma HalfCupOfSugarEnds(line: string)
    requires line == "1/2 cup sugar"
    ensures '[' !in line && line[0] == '1' && line[|line| - 1] == 'r'
  {
  }

  lemma HalfCupOfSugarMatch(line: string)
    requires line == "1/2 cup sugar"
    ensures MatchQuantity(line) == Some(QuantityMatch(Decimal("1", ""), "/2 cup sugar"))
  {
    assert line == "1" + "" + "/2 cup sugar";
    IntegerThenText("1", "", "/2 cup sugar");
  }

  lemma SugarIsStandard(name: string)
    requires name == "/2 cup sugar"
    ensures IsStandard(name)
  {
    SugarLower(name);
    StandardByLastWord(name, "/2 cup", 10);
  }

  lemma SugarLower(name: string)
    requires name == "/2 cup sugar"
    ensures Lower(name) == "/2 cup" + " " + StandardItems[10]
  {
  }

  /** A bare number leaves an empty name, which is not a staple. */
  lemma BareNumber(line: string, idx: nat, now: nat)
    requires line == "3"
    ensures var item := ParseIngredientLine(line, idx, now);
            item.quantity == Some(3.0) && item.name == "" && item.isChecked
  {
    BareNumberMatches(line);
    ValueThree();
    ParsedFromMatch(line, idx, now, Decimal("3", ""), "", 3.0);
    EmptyIsNotStandard();
  }

  lemma BareNumberMatches(line: string)
    requires line == "3"
    ensures MatchQuantity(CleanLine(line)) == Some(QuantityMatch(Decimal("3", ""), ""))
  {
    BareNumberCleans(line);
    BareNumberMatch(line);
  }

  lemma BareNumberCleans(line: string)
    requires line == "3"
    ensures CleanLine(line) == line
  {
    BareNumberEnds(line);
    PlainLineCleans(line);
  }

  lemma BareNumberEnds(line: string)
    requires line == "3"
    ensures '[' !in line && line[0] == '3' && line[|line| - 1] == '3'
  {
  }

  lemma BareNumberMatch(line: string)
    requires line == "3"
    ensures MatchQuantity(line) == Some(QuantityMatch(Decimal("3", ""), ""))
  {
    assert line == "3" + "" + "";
    IntegerThenText("3", "", "");
  }

  lemma EmptyIsNotStandard()
    ensures !IsStandard("")
  {
    StandardIffStapleWord("");
    assert Lower("") == "";
    SplitOneWord("");
  }

  /** A unit glued to a decimal stays in the name. */
  lemma GluedUnit(line: string, idx: nat, now: nat)
    requires line == "1.5kg Oxtail"
    ensures var item := ParseIngredientLine(line, idx, now);
            item.quantity == Some(1.5) && item.name == "kg Oxtail"
  {
    GluedUnitMatches(line);
    ValueOneAndAHalf();
    ParsedFromMatch(line, idx, now, Decimal("1", "5"), "kg Oxtail", 1.5);
  }

  lemma GluedUnitMatches(line: string)
    requires line == "1.5kg Oxtail"
    ensures MatchQuantity(CleanLine(line)) == Some(QuantityMatch(Decimal("1", "5"), "kg Oxtail"))
  {
    GluedUnitCleans(line);
    GluedUnitMatch(line);
  }

  lemma GluedUnitCleans(line: string)
    requires line == "1.5kg Oxtail"
    ensures CleanLine(line) == line
  {
    GluedUnitEnds(line);
    PlainLineCleans(line);
  }

  lemma GluedUnitEnds(line: string)
    requires line == "1.5kg Oxtail"
    ensures '[' !in line && line[0] == '1' && line[|line| - 1] == 'l'
  {
  }

  lemma GluedUnitMatch(line: string)
    requires line == "1.5kg Oxtail"
    ensures MatchQuantity(line) == Some(QuantityMatch(Decimal("1", "5"), "kg Oxtail"))
  {
    assert line == "1" + "." + "5" + "" + "kg Oxtail";
    DecimalThenText("1", "5", "", "kg Oxtail");
  }

  /** A shopping-list line of a staple reads back with its quantity taken
      from the leading digits only. */
  lemma CheckboxStaple(line: string, idx: nat, now: nat)
    requires line == "- [ ] " + "1/3 cup olive oil"
    ensures var item := ParseIngredientLine(line, idx, now);
            item.quantity == Some(1.0) && item.name == "/3 cup olive oil" && item.isStandard
  {
    CheckboxStapleMatches(line);
    ValueOne();
    ParsedFromMatch(line, idx, now, Decimal("1", ""), "/3 cup olive oil", 1.0);
    OliveOilIsStandard("/3 cup olive oil");
  }

  lemma CheckboxStapleMatches(line: string)
    requires line == "- [ ] " + "1/3 cup olive oil"
    ensures MatchQuantity(CleanLine(line)) == Some(QuantityMatch(Decimal("1", ""), "/3 cup olive oil"))
  {
    CheckboxStapleCleans(line);
    CheckboxStapleMatch("1/3 cup olive oil");
  }

  lemma CheckboxStapleCleans(line: string)
    requires line == "- [ ] " + "1/3 cup olive oil"
    ensures CleanLine(line) == "1/3 cup olive oil"
  {
    CheckboxLineReadsBack("1/3 cup olive oil");
    OliveOilTrimmed("1/3 cup olive oil");
  }

  lemma OliveOilTrimmed(i: string)
    requires i == "1/3 cup olive oil"
    ensures Trim(i) == i
  {
    assert i[0] == '1' && i[|i| - 1] == 'l';
    TrimOfSpaceFree(i);
  }

  lemma CheckboxStapleMatch(i: string)
    requires i == "1/3 cup olive oil"
    ensures MatchQuantity(i) == Some(QuantityMatch(Decimal("1", ""), "/3 cup olive oil"))
  {
    assert i == "1" + "" + "/3 cup olive oil";
    IntegerThenText("1", "", "/3 cup olive oil");
  }

  lemma OliveOilIsStandard(name: string)
    requires name == "/3 cup olive oil"
    ensures IsStandard(name)
  {
    OliveOilLower(name);
    StandardByLastWord(name, "/3 cup olive", 4);
  }

  lemma OliveOilLower(name: string)
    requires name == "/3 cup olive oil"
    ensures Lower(name) == "/3 cup olive" + " " + StandardItems[4]
  {
  }
}
