/** Reading a copied line back: what the lists put on the clipboard for
    an item parses, line by line, to that item's quantity and name. */
module CopyReadBack {
  import opened Optional
  import opened Strings
  import opened Numerals
  import opened LineCleaner
  import opened RecipeUtils
  import opened QuantityFormat
  import opened ItemLists

  /** A name the line parser gives back unchanged: one line, no `[`, not
      led by a digit or a bullet character, no whitespace at either end. */
  predicate PlainName(name: string) {
    && '[' !in name && NoLineTerminator(name)
    && (|name| > 0 ==> !IsDigit(name[0]) && !IsSpace(name[0]) && !IsSpace(name[|name| - 1]))
  }

  /** An item whose quantity is a whole number `n`, copied at scale 1,
      gives a line that parses back to quantity `n` and the same name. */
  lemma CopyLineReadsBack(item: ParsedItem, n: nat, idx: nat, now: nat)
    requires item.quantity == Some(n as real)
    requires PlainName(item.name)
    ensures var back := ParseIngredientLine(CopyLine(item, 1.0), idx, now);
            back.quantity == Some(n as real) && back.name == item.name
  {
    var line := CopyLine(item, 1.0);
    ReadsBackVia(line, NatToString(n) + " " + item.name, n, item.name, idx, now, item);
  }

  /** The copied line parses like the plain line "n name", and that line
      reads back as `n` and the name. */
  lemma ReadsBackVia(line: string, plain: string, n: nat, name: string, idx: nat, now: nat, item: ParsedItem)
    requires item.quantity == Some(n as real) && PlainName(name) && name == item.name
    requires line == CopyLine(item, 1.0) && plain == NatToString(n) + " " + name
    ensures var back := ParseIngredientLine(line, idx, now);
            back.quantity == Some(n as real) && back.name == name
  {
    ParsesAsNumberLine(item, n, idx, now);
    WholeQuantityReadsBack(n, name, idx, now);
  }

  /** The copied line parses like the number, a blank and the name. */
  lemma ParsesAsNumberLine(item: ParsedItem, n: nat, idx: nat, now: nat)
    requires item.quantity == Some(n as real)
    requires '[' !in item.name
    ensures var a := ParseIngredientLine(CopyLine(item, 1.0), idx, now);
            var b := ParseIngredientLine(NatToString(n) + " " + item.name, idx, now);
            a.quantity == b.quantity && a.name == b.name
  {
    CleansAsNumberLine(item, n);
    SameCleanLineSameItem(CopyLine(item, 1.0), NatToString(n) + " " + item.name, idx, now);
  }

  lemma CleansAsNumberLine(item: ParsedItem, n: nat)
    requires item.quantity == Some(n as real)
    requires '[' !in item.name
    ensures CleanLine(CopyLine(item, 1.0)) == CleanLine(NatToString(n) + " " + item.name)
  {
    var digits := NatToString(n);
    assert digits + (" " + item.name) == digits + " " + item.name;
    WholeCopyLine(item, n);
    CheckboxAroundNumber(digits, " " + item.name);
  }

  lemma WholeCopyLine(item: ParsedItem, n: nat)
    requires item.quantity == Some(n as real)
    ensures CopyLine(item, 1.0) == "- [ ] " + (NatToString(n) + (" " + item.name))
  {
    FormatWholeNumber(n);
  }

  /** The checkbox in front of a line led by digits makes no difference
      to the cleaned line. */
  lemma CheckboxAroundNumber(digits: string, tail: string)
    requires |digits| > 0 && AllDigits(digits) && '[' !in tail
    ensures CleanLine("- [ ] " + (digits + tail)) == CleanLine(digits + tail)
  {
    var i := digits + tail;
    DigitsExclude(digits, '[');
    assert '[' !in i;
    TrimStartOfNonSpace(i);
    assert !IsBulletChar(i[0]);
    CheckboxLineReadsBack(i);
    NumberLineIsPlain(digits, tail);
  }

  /** An item without a quantity is copied as a line that parses back to
      no quantity and the same name, unless the name is led by a bullet
      character, which the cleaner strips. */
  lemma PlainCopyLineReadsBack(item: ParsedItem, scale: real, idx: nat, now: nat)
    requires item.quantity.None?
    requires PlainName(item.name)
    requires |item.name| > 0 ==> !IsBulletChar(item.name[0])
    ensures var back := ParseIngredientLine(CopyLine(item, scale), idx, now);
            back.quantity.None? && back.name == item.name
  {
    var name := item.name;
    assert CopyLine(item, scale) == "- [ ] " + name;
    TrimStartOfNonSpace(name);
    CheckboxLineReadsBack(name);
    TrimOfSpaceFree(name);
  }

  /** Lines that clean to the same text give the same quantity and name. */
  lemma SameCleanLineSameItem(a: string, b: string, idx: nat, now: nat)
    requires CleanLine(a) == CleanLine(b)
    ensures ParseIngredientLine(a, idx, now).quantity == ParseIngredientLine(b, idx, now).quantity
    ensures ParseIngredientLine(a, idx, now).name == ParseIngredientLine(b, idx, now).name
  {
  }
}
