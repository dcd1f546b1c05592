/** What `ShoppingList` and `IngredientList` share: turning a stored
    multi-line block into items, the scale guard, and the line each item
    is copied as. */
module ItemLists {
  import opened Optional
  import opened Strings
  import opened Seqs
  import opened RecipeUtils
  import opened QuantityFormat

  predicate NonBlank(line: string) {
    |Trim(line)| > 0
  }

  /** `text.split('\n').filter(line => line.trim().length > 0)`. */
  function NonBlankLines(text: string): (lines: seq<string>)
    ensures forall k :: 0 <= k < |lines| ==> NonBlank(lines[k]) && '\n' !in lines[k]
    ensures IsSubsequence(lines, Split(text, '\n'))
    ensures forall k :: 0 <= k < |Split(text, '\n')| && NonBlank(Split(text, '\n')[k]) ==>
              Split(text, '\n')[k] in lines
    ensures forall k :: 0 <= k < |Split(text, '\n')| ==>
              multiset(lines)[Split(text, '\n')[k]] ==
                if NonBlank(Split(text, '\n')[k]) then multiset(Split(text, '\n'))[Split(text, '\n')[k]] else 0
  {
    var parts := Split(text, '\n');
    FilterIsSubsequence(parts, NonBlank);
    FilterCounts(parts, NonBlank);
    Filter(parts, NonBlank)
  }

  /** `lines.map((line, idx) => parseIngredientLine(line, idx))`, where the
      k-th call reads the clock as `stamps(k)`. */
  function ParseLines(lines: seq<string>, stamps: nat -> nat): (items: seq<ParsedItem>)
    ensures |items| == |lines|
    ensures forall k :: 0 <= k < |items| ==> items[k] == ParseIngredientLine(lines[k], k, stamps(k))
  {
    seq(|lines|, k requires 0 <= k < |lines| => ParseIngredientLine(lines[k], k, stamps(k)))
  }

  /** Item ids differ pairwise within one parse, whatever the clock
      readings: the position sits between `item-` and the next `-`. */
  predicate DistinctIds(items: seq<ParsedItem>) {
    forall i, j :: 0 <= i < j < |items| ==> items[i].id != items[j].id
  }

  /** The parsing effect: a missing or empty block gives no items;
      otherwise one item per non-blank line, in order, each remembering
      its line, with pairwise distinct ids. */
  function ParseBlock(text: Option<string>, stamps: nat -> nat): (items: seq<ParsedItem>)
    ensures text.None? || text == Some("") ==> items == []
    ensures text.Some? ==> |items| == |NonBlankLines(text.value)|
    ensures text.Some? ==> forall k :: 0 <= k < |items| ==> items[k].original == NonBlankLines(text.value)[k]
    ensures text.Some? ==> forall k :: 0 <= k < |items| ==>
              items[k] == ParseIngredientLine(NonBlankLines(text.value)[k], k, stamps(k))
    ensures DistinctIds(items)
  {
    if text.None? || text.value == "" then []
    else
      var items := ParseLines(NonBlankLines(text.value), stamps);
      IdsDistinct(items, stamps);
      items
  }

  lemma IdsDistinct(items: seq<ParsedItem>, stamps: nat -> nat)
    requires forall k :: 0 <= k < |items| ==> items[k].id == ItemId(k, stamps(k))
    ensures DistinctIds(items)
  {
    forall i, j | 0 <= i < j < |items|
      ensures items[i].id != items[j].id
    {
      if items[i].id == items[j].id {
        ItemIdInjective(i, stamps(i), j, stamps(j));
      }
    }
  }

  /** Parsed names are single lines. */
  lemma ParsedNamesAreLines(text: Option<string>, stamps: nat -> nat)
    ensures var items := ParseBlock(text, stamps);
            forall k :: 0 <= k < |items| ==> '\n' !in items[k].name
  {
    if text.Some? && text.value != "" {
      var lines := NonBlankLines(text.value);
      var items := ParseLines(lines, stamps);
      assert ParseBlock(text, stamps) == items;
      forall k | 0 <= k < |items|
        ensures '\n' !in items[k].name
      {
        NameFree(lines[k], k, stamps(k), '\n');
      }
    }
  }

  /** `handleScale`: values below 0.5 are ignored, any other value is
      taken as is. */
  function HandleScale(current: real, proposed: real): (next: real)
    ensures proposed < 0.5 ==> next == current
    ensures proposed >= 0.5 ==> next == proposed
  {
    if proposed < 0.5 then current else proposed
  }

  /** Starting from an allowed scale, no sequence of slider events reaches
      a scale below 0.5. */
  lemma {:induction false} ScaleStaysAllowed(current: real, events: seq<real>)
    requires current >= 0.5
    ensures ApplyScales(current, events) >= 0.5
    decreases |events|
  {
    if |events| > 0 {
      ScaleStaysAllowed(HandleScale(current, events[0]), events[1..]);
    }
  }

  function ApplyScales(current: real, events: seq<real>): real
    decreases |events|
  {
    if |events| == 0 then current else ApplyScales(HandleScale(current, events[0]), events[1..])
  }

  /** The text of an item at a scale: the name, behind the formatted
      scaled quantity when there is one. */
  function ItemText(item: ParsedItem, scale: real): (text: string)
    ensures item.quantity.None? ==> text == item.name
    ensures item.quantity.Some? ==> EndsWith(text, " " + item.name)
  {
    if item.quantity.None? then item.name
    else
      var a := FormatQuantity(item.quantity.value * scale);
      EndsWithAppended(a, " " + item.name);
      a + (" " + item.name)
  }

  lemma EndsWithAppended(a: string, b: string)
    ensures EndsWith(a + b, b)
  {
    assert (a + b)[|a|..] == b;
  }

  /** The Markdown task line an item is copied as. */
  function CopyLine(item: ParsedItem, scale: real): (line: string)
    ensures StartsWith(line, "- [ ] ")
  {
    "- [ ] " + ItemText(item, scale)
  }

  function CopyLines(items: seq<ParsedItem>, scale: real): (lines: seq<string>)
    ensures |lines| == |items|
    ensures forall k :: 0 <= k < |lines| ==> lines[k] == CopyLine(items[k], scale)
  {
    seq(|items|, k requires 0 <= k < |items| => CopyLine(items[k], scale))
  }

  const ListOpen: string := "<ul class=\"checklist\" " + "style=\"list-style-type: none; padding: 0;\">"

  lemma ListOpenIsOneLine()
    ensures '\n' !in ListOpen
  {
    var a := "<ul class=\"checklist\" ";
    var b := "style=\"list-style-type: ";
    var c := "none; padding: 0;\">";
    assert '\n' !in a && '\n' !in b && '\n' !in c;
    assert ListOpen == a + (b + c);
    ConcatIsOneLine(b, c);
    ConcatIsOneLine(a, b + c);
  }

  lemma ConcatIsOneLine(a: string, b: string)
    requires '\n' !in a && '\n' !in b
    ensures '\n' !in a + b
  {
  }

  /** The HTML list item an item's text is copied as: the text sits,
      unchanged, between the 30-character checkbox opening and `</li>`. */
  function HtmlLine(text: string): (line: string)
    ensures StartsWith(line, "<li><input type=\"checkbox\" /> ") && EndsWith(line, "</li>")
    ensures |line| == |text| + 35 && line[30..|line| - 5] == text
  {
    var line := "<li><input type=\"checkbox\" /> " + text + "</li>";
    assert line[|line| - 5..] == "</li>";
    assert line[30..|line| - 5] == text;
    line
  }

  function HtmlLines(items: seq<ParsedItem>, scale: real): (lines: seq<string>)
    ensures |lines| == |items|
    ensures forall k :: 0 <= k < |lines| ==> lines[k] == HtmlLine(ItemText(items[k], scale))
  {
    seq(|items|, k requires 0 <= k < |items| => HtmlLine(ItemText(items[k], scale)))
  }

  /** The `text/html` clipboard payload around the item lines. */
  function HtmlDocument(lines: seq<string>): string {
    ListOpen + "\n" + Join(lines, "\n") + "\n</ul>"
  }

  /** A formatted quantity is one line. */
  lemma FormattedIsOneLine(x: real)
    ensures '\n' !in FormatQuantity(x)
  {
    var r := FormatQuantity(x);
    if x < 0.0 {
      assert r == [r[0]] + r[1..];
    }
  }

  /** An item whose name is one line is copied as one line. */
  lemma CopyLineIsOneLine(item: ParsedItem, scale: real)
    requires '\n' !in item.name
    ensures '\n' !in CopyLine(item, scale) && '\n' !in ItemText(item, scale)
  {
    ItemTextIsOneLine(item, scale);
    var text := ItemText(item, scale);
    assert CopyLine(item, scale) == "- [ ] " + text;
    assert '\n' !in "- [ ] ";
  }

  lemma ItemTextIsOneLine(item: ParsedItem, scale: real)
    requires '\n' !in item.name
    ensures '\n' !in ItemText(item, scale)
  {
    match item.quantity
    case None =>
    case Some(q) =>
      FormattedIsOneLine(q * scale);
      SpacedIsOneLine(FormatQuantity(q * scale), item.name);
  }

  lemma SpacedIsOneLine(a: string, b: string)
    requires '\n' !in a && '\n' !in b
    ensures '\n' !in a + (" " + b)
  {
    assert forall k :: 0 <= k < |a + (" " + b)| ==> (a + (" " + b))[k] != '\n';
  }

  /** A copied line is never blank: it starts with `-`. */
  lemma CopyLineNonBlank(item: ParsedItem, scale: real)
    ensures NonBlank(CopyLine(item, scale))
  {
    var line := CopyLine(item, scale);
    assert line[0] == '-';
    TrimStartOfNonSpace(line);
    TrimEndKeepsNonSpace(line);
  }

  /** Trimming the end of a string whose first character is not
      whitespace leaves at least that character. */
  lemma {:induction false} TrimEndKeepsNonSpace(s: string)
    requires |s| > 0 && !IsSpace(s[0])
    ensures |TrimEnd(s)| > 0
    decreases |s|
  {
    if |s| > 1 && IsSpace(s[|s| - 1]) {
      TrimEndKeepsNonSpace(s[..|s| - 1]);
    }
  }

  /** Copied text pasted back as a block parses to one item per copied
      item, each remembering its copied line. */
  lemma CopiedTextReparses(items: seq<ParsedItem>, scale: real, stamps: nat -> nat)
    requires forall k :: 0 <= k < |items| ==> '\n' !in items[k].name
    ensures var lines := CopyLines(items, scale);
            var back := ParseBlock(Some(Join(lines, "\n")), stamps);
            |back| == |items|
            && forall k :: 0 <= k < |back| ==> back[k].original == lines[k]
  {
    var lines := CopyLines(items, scale);
    if |items| > 0 {
      forall k | 0 <= k < |lines|
        ensures '\n' !in lines[k] && NonBlank(lines[k])
      {
        CopyLineIsOneLine(items[k], scale);
        CopyLineNonBlank(items[k], scale);
      }
      SplitJoin(lines, '\n');
      FilterAll(lines, NonBlank);
    }
  }

  /** The HTML payload splits into the opening tag, one line per item
      and the closing tag. */
  lemma HtmlDocumentLines(lines: seq<string>)
    requires |lines| >= 1
    requires forall k :: 0 <= k < |lines| ==> '\n' !in lines[k]
    ensures Split(HtmlDocument(lines), '\n') == [ListOpen] + lines + ["</ul>"]
  {
    var parts := [ListOpen] + lines + ["</ul>"];
    JoinCons(ListOpen, lines, "\n");
    JoinSnoc([ListOpen] + lines, "</ul>", "\n");
    assert Join(parts, "\n") == HtmlDocument(lines);
    forall k | 0 <= k < |parts|
      ensures '\n' !in parts[k]
    {
      if k == 0 {
        ListOpenIsOneLine();
      } else if k < |parts| - 1 {
        assert parts[k] == lines[k - 1];
      } else {
        assert parts[k] == "</ul>";
      }
    }
    SplitJoin(parts, '\n');
  }
}
