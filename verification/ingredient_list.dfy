/** `IngredientList` (src/components/IngredientList.tsx): the recipe's
    ingredients as items, copied in full. */
module IngredientList {
  import opened Optional
  import opened Strings
  import opened RecipeUtils
  import opened ItemLists

  /** The `text/plain` payload of `handleCopy`: every item, checked or
      not. */
  function CopyText(items: seq<ParsedItem>, scale: real): string {
    Join(CopyLines(items, scale), "\n")
  }

  /** The `text/html` payload of `handleCopy`. */
  function CopyHtml(items: seq<ParsedItem>, scale: real): string {
    HtmlDocument(HtmlLines(items, scale))
  }

  /** Copying the parsed ingredients gives one line per non-blank input
      line, each the task line of the item parsed from it. */
  lemma CopyKeepsEveryLine(text: string, stamps: nat -> nat, scale: real)
    requires |NonBlankLines(text)| >= 1
    ensures var items := ParseBlock(Some(text), stamps);
            var copied := Split(CopyText(items, scale), '\n');
            |copied| == |NonBlankLines(text)|
            && forall k :: 0 <= k < |copied| ==>
                 copied[k] == CopyLine(items[k], scale) && items[k].original == NonBlankLines(text)[k]
  {
    var items := ParseBlock(Some(text), stamps);
    var lines := CopyLines(items, scale);
    ParsedNamesAreLines(Some(text), stamps);
    forall k | 0 <= k < |lines|
      ensures '\n' !in lines[k]
    {
      CopyLineIsOneLine(items[k], scale);
    }
    SplitJoin(lines, '\n');
  }

  /** Pasting the copied ingredients back as a list parses to as many
      items as the recipe had non-blank lines. */
  lemma CopyRoundTrip(text: string, stamps: nat -> nat, scale: real, stamps2: nat -> nat)
    ensures var items := ParseBlock(Some(text), stamps);
            |ParseBlock(Some(CopyText(items, scale)), stamps2)| == |NonBlankLines(text)|
  {
    var items := ParseBlock(Some(text), stamps);
    ParsedNamesAreLines(Some(text), stamps);
    CopiedTextReparses(items, scale, stamps2);
  }
}
