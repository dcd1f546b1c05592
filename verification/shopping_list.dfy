/** `ShoppingList` (src/components/ShoppingList.tsx): the parsed shopping
    list, checking items off, and copying the checked ones. */
module ShoppingList {
  import opened Optional
  import opened Strings
  import opened Seqs
  import opened Staples
  import opened RecipeUtils
  import opened ItemLists

  /** `handleToggle(id)`: every item carrying `id` has its check flipped. */
  function Toggle(items: seq<ParsedItem>, id: string): (r: seq<ParsedItem>)
    ensures |r| == |items|
    ensures forall k :: 0 <= k < |r| ==> r[k].(isChecked := items[k].isChecked) == items[k]
    ensures forall k :: 0 <= k < |r| ==> (r[k].isChecked != items[k].isChecked <==> items[k].id == id)
  {
    seq(|items|, k requires 0 <= k < |items| =>
      if items[k].id == id then items[k].(isChecked := !items[k].isChecked) else items[k])
  }

  /** Toggling the same id twice restores the list. */
  lemma ToggleTwice(items: seq<ParsedItem>, id: string)
    ensures Toggle(Toggle(items, id), id) == items
  {
    var r := Toggle(Toggle(items, id), id);
    forall k | 0 <= k < |items|
      ensures r[k] == items[k]
    {
    }
  }

  /** With distinct ids, toggling an item's id flips that item alone. */
  lemma ToggleOne(items: seq<ParsedItem>, j: nat)
    requires DistinctIds(items) && j < |items|
    ensures Toggle(items, items[j].id) == items[j := items[j].(isChecked := !items[j].isChecked)]
  {
    var r := Toggle(items, items[j].id);
    forall k | 0 <= k < |items| && k != j
      ensures r[k] == items[k]
    {
      assert items[k].id != items[j].id;
    }
  }

  /** An id no item carries changes nothing. */
  lemma ToggleUnknown(items: seq<ParsedItem>, id: string)
    requires forall k :: 0 <= k < |items| ==> items[k].id != id
    ensures Toggle(items, id) == items
  {
  }

  predicate IsChecked(item: ParsedItem) {
    item.isChecked
  }

  /** `items.filter(item => item.isChecked)`. */
  function Checked(items: seq<ParsedItem>): (r: seq<ParsedItem>)
    ensures IsSubsequence(r, items)
    ensures forall k :: 0 <= k < |r| ==> r[k].isChecked
    ensures forall k :: 0 <= k < |items| && items[k].isChecked ==> items[k] in r
  {
    FilterIsSubsequence(items, IsChecked);
    Filter(items, IsChecked)
  }

  /** The `text/plain` payload of `handleCopy`. */
  function CopyText(items: seq<ParsedItem>, scale: real): string {
    Join(CopyLines(Checked(items), scale), "\n")
  }

  /** The `text/html` payload of `handleCopy`. */
  function CopyHtml(items: seq<ParsedItem>, scale: real): string {
    HtmlDocument(HtmlLines(Checked(items), scale))
  }

  /** The copied text is exactly the checked items' task lines, in list
      order, one per line. */
  lemma CopyTextLines(items: seq<ParsedItem>, scale: real)
    requires forall k :: 0 <= k < |items| ==> '\n' !in items[k].name
    requires |Checked(items)| >= 1
    ensures Split(CopyText(items, scale), '\n') == CopyLines(Checked(items), scale)
  {
    var lines := CopyLines(Checked(items), scale);
    forall k | 0 <= k < |lines|
      ensures '\n' !in lines[k]
    {
      CheckedNameIsLine(items, k);
      CopyLineIsOneLine(Checked(items)[k], scale);
    }
    SplitJoin(lines, '\n');
  }

  lemma CheckedNameIsLine(items: seq<ParsedItem>, k: nat)
    requires forall i :: 0 <= i < |items| ==> '\n' !in items[i].name
    requires k < |Checked(items)|
    ensures '\n' !in Checked(items)[k].name
  {
    var c := Checked(items)[k];
    assert c in items;
  }

  /** The HTML payload is the list opening tag, one list item per checked
      item in list order, and the closing tag, each on its own line. */
  lemma CopyHtmlLines(items: seq<ParsedItem>, scale: real)
    requires forall k :: 0 <= k < |items| ==> '\n' !in items[k].name
    requires |Checked(items)| >= 1
    ensures Split(CopyHtml(items, scale), '\n') == [ListOpen] + HtmlLines(Checked(items), scale) + ["</ul>"]
  {
    HtmlLinesAreLines(items, scale);
    HtmlDocumentLines(HtmlLines(Checked(items), scale));
  }

  lemma HtmlLinesAreLines(items: seq<ParsedItem>, scale: real)
    requires forall k :: 0 <= k < |items| ==> '\n' !in items[k].name
    ensures var lines := HtmlLines(Checked(items), scale);
            forall k :: 0 <= k < |lines| ==> '\n' !in lines[k]
  {
    var checked := Checked(items);
    var lines := HtmlLines(checked, scale);
    forall k | 0 <= k < |lines|
      ensures '\n' !in lines[k]
    {
      CheckedNameIsLine(items, k);
      ItemTextIsOneLine(checked[k], scale);
      ListItemIsOneLine(ItemText(checked[k], scale));
    }
  }

  lemma ListItemIsOneLine(text: string)
    requires '\n' !in text
    ensures '\n' !in HtmlLine(text)
  {
    var a := "<li><input type=\"checkbox\" /> ";
    assert '\n' !in a && '\n' !in "</li>";
    assert HtmlLine(text) == a + text + "</li>";
  }

  /** A freshly parsed list starts with exactly the non-staples checked. */
  lemma FreshListChecksNonStaples(text: Option<string>, stamps: nat -> nat)
    ensures var items := ParseBlock(text, stamps);
            forall k :: 0 <= k < |items| ==> (items[k].isChecked <==> !IsStandard(items[k].name))
  {
  }

  /** Copying a parsed list and pasting it back as a new list gives one
      item per checked item, in order. */
  lemma CopyRoundTrip(text: Option<string>, stamps: nat -> nat, scale: real, stamps2: nat -> nat)
    ensures var items := ParseBlock(text, stamps);
            var back := ParseBlock(Some(CopyText(items, scale)), stamps2);
            |back| == |Checked(items)|
            && forall k :: 0 <= k < |back| ==> back[k].original == CopyLine(Checked(items)[k], scale)
  {
    var items := ParseBlock(text, stamps);
    var checked := Checked(items);
    var lines := CopyLines(checked, scale);
    ParsedNamesAreLines(text, stamps);
    CheckedNamesAreLines(items);
    CopiedTextReparses(checked, scale, stamps2);
    assert CopyText(items, scale) == Join(lines, "\n");
  }

  lemma CheckedNamesAreLines(items: seq<ParsedItem>)
    requires forall k :: 0 <= k < |items| ==> '\n' !in items[k].name
    ensures var checked := Checked(items);
            forall k :: 0 <= k < |checked| ==> '\n' !in checked[k].name
  {
    var checked := Checked(items);
    forall k | 0 <= k < |checked|
      ensures '\n' !in checked[k].name
    {
      CheckedNameIsLine(items, k);
    }
  }
}
