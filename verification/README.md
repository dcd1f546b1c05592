# Our Menu: ingredient lines, lists and recipe forms in Dafny

Our Menu is a small recipe-collection web app. Recipes carry a title, a list
of categories, an optional link, a picture and free-text ingredient and
shopping-list blocks. This project models the logic beneath its screens as
pure Dafny functions and proves what that logic promises.

- **The ingredient-line engine** (`src/lib/recipeUtils.ts`):
  - cleaning a pasted line of checkboxes, hyphens and bullets;
  - reading a leading quantity with the app's regular expression, including
    JavaScript's backtracking and line-terminator rules;
  - turning the number text into a value;
  - deciding whether the rest names a pantry staple;
  - writing a scaled quantity back as a whole number, a vulgar fraction or
    one decimal.
- **The two list views** (`ShoppingList`, `IngredientList`):
  - splitting a stored block into items with distinct ids;
  - the check-mark toggle and the scale guard;
  - the plain-text and HTML checklists put on the clipboard.
- **The recipe screens** (`MenuContainer`, `DecisionMaker`,
  `EditRecipeModal`, `AddRecipeModal`):
  - the grid filter and prepending an inserted recipe;
  - the seeding loop's count and last error;
  - the random picker;
  - the category chips, including the migration of a legacy single-string
    category;
  - the regenerated picture URL.
- **The enrichment script's pure parts** (`scripts/extract_ingredients.ts`):
  - the `.env` reader;
  - the fallback bullet-list reader for model output;
  - the shopping-list and category update rules.

Modules follow the source:

| module | models |
|---|---|
| `Strings` | whitespace, `trim`, ASCII lower-casing, `split`, `join` and UTF-16 length |
| `Seqs` | `filter` and first-occurrence de-duplication |
| `Numerals` | digit strings and their values |
| `Optional` | the option and result types |
| `LineCleaner` | `cleanIngredientLine` |
| `Quantity` | `QUANTITY_REGEX` and `parseQuantity` |
| `Staples` | the staple test |
| `QuantityFormat` | `formatQuantity` |
| `RecipeUtils` | `parseIngredientLine` |
| `ItemLists` | what the two list components share |
| `CopyReadBack` | reading a copied checklist line back as an item |
| `ShoppingList` | the `ShoppingList` component |
| `IngredientList` | the `IngredientList` component |
| `Recipes` | the recipe record and the chip toggle |
| `MenuContainer` | the `MenuContainer` component |
| `DecisionMaker` | the `DecisionMaker` component |
| `EditRecipeModal` | the `EditRecipeModal` component |
| `AddRecipeModal` | the `AddRecipeModal` component |
| `ExtractIngredients` | the enrichment script |

Inputs the code takes from the environment become parameters:

- `Date.now()` is the reading `now`, or `stamps(k)` for the k-th line of a
  block.
- `Math.random()` is a draw `r` with 0 ≤ r < 1.
- The database's answer to an insert is an `InsertResponse`: a row, an
  error, or no data.
- The seeding loop's per-recipe results are a sequence of optional error
  messages.
- `encodeURIComponent` is a function parameter.
- The browser's test of a `type="url"` field is the predicate `validUrl`.
- The allowed-category list is a parameter.

The model follows the code as written, including where it does less than
its own comments and names suggest (the comment on the quantity pattern in
`src/lib/recipeUtils.ts`, line 21, lists "1/2 tsp..." among the lines it
reads):

- **Fractions are not parsed as fractions.** The quantity pattern tries
  `\d+(\.\d+)?` first. So on "1/2 cup sugar" it reads the quantity 1 and
  leaves the name "/2 cup sugar". The fraction alternative is reached only
  when a line terminator sits in the blank run after "a/b", as in
  "1/2\rcup" (`RatioBeforeTerminator`). Fractions scale wrongly as a result.
- **The bullet class is not U+2022.** The character class in the bullet
  pattern holds `*`, `â`, `€` and `¢`: a UTF-8 "•" read as Windows-1252. A
  real U+2022 bullet is not stripped (`RealBulletSurvives`).
- **Cleaning is not idempotent.** Only one leading hyphen is removed, so
  "- - salt" cleans to "- salt" (`SecondHyphenSurvives`).
- **The fraction targets are 0.33 and 0.66**, not 1/3 and 2/3. Every
  target is tried in order, with a tolerance of 0.05.
- **`formatQuantity` never shows the fraction part of a negative number.**
  Every real, negative ones included, is formatted. For a negative number
  the remainder is negative, so no fraction target is close. The number
  is printed by `toFixed(0)` or `toFixed(1)`, and -1.5 prints as "-1.5".
- **Near-whole numbers collapse, by two routes.** A number whose remainder
  is below 0.01 prints through `toFixed(0)` (2.005 gives "2"). A number
  whose remainder is between 0.01 and 0.05 and far from every fraction
  target prints through `toFixed(1)`, and the trailing ".0" is dropped
  (2.03 gives "2", and 0.995 gives "1").
- **Item ids come from a wall clock**, so they are distinct within one
  parse only because the line index is part of the id.
- **The grid's category filter compares a whole category with a
  string.** It never matches a list-valued category
  (`ListCategoryHiddenBySelection`).
- **The category update can fire on existing categories alone.** It fires
  when some category was found and the merged, allowed list is non-empty,
  even if everything found was disallowed (`UnknownFindsStillRewrite`).

## Model

| member | source | states |
|---|---|---|
| Strings.Trim | src/lib/recipeUtils.ts:59 | the trimmed text starts and ends with a non-blank character |
| Strings.TrimRemovesOuterSpaces | src/lib/recipeUtils.ts:59 | the trimmed text is a slice of the input with only whitespace on either side of it |
| Strings.TrimAfterTrimStart | src/lib/recipeUtils.ts:57-59 | trimming after removing leading blanks equals trimming directly |
| Strings.TrimIndented | src/lib/recipeUtils.ts:59 | blanks before a text with non-blank ends are exactly what trimming removes |
| Strings.Lower | src/lib/recipeUtils.ts:74 | lower-casing keeps the length and maps every character through the ASCII case map |
| Strings.ContainsIffOccurs | src/components/MenuContainer.tsx:59-61 | substring search succeeds exactly when the pattern occurs at some position |
| Strings.IndexOf | scripts/extract_ingredients.ts:14 | the index found holds the character and nothing before it does |
| Strings.Split | src/components/ShoppingList.tsx:25 | `split` gives at least one piece and no piece holds the separator |
| Strings.JoinSplit | src/components/ShoppingList.tsx:25 | joining the pieces of a split with the separator gives back the text |
| Strings.SplitJoin | src/components/ShoppingList.tsx:55 | splitting a join of separator-free pieces gives back the pieces |
| Strings.JoinFree | src/components/ShoppingList.tsx:55 | a join of pieces and a separator that all lack a character lacks it too |
| Strings.Utf16Length | scripts/extract_ingredients.ts:242 | the JavaScript string length lies between the code-point count and twice it |
| Seqs.Filter | src/components/MenuContainer.tsx:56-63 | `filter` keeps only elements satisfying the test, drops none that does, and never grows the list |
| Seqs.FilterCounts | src/components/MenuContainer.tsx:56-63 | `filter` keeps every passing value as often as it occurs and no failing one |
| Seqs.FilterIsSubsequence | src/components/MenuContainer.tsx:56-63 | the kept elements stay in their original order |
| Seqs.FilterAppend | src/components/MenuContainer.tsx:56-63 | filtering distributes over concatenation |
| Seqs.FilterKeepsDistinct | scripts/extract_ingredients.ts:255 | filtering a duplicate-free list keeps it duplicate-free |
| Seqs.Dedup | scripts/extract_ingredients.ts:253 | `Array.from(new Set(..))` is duplicate-free and has the same members |
| Seqs.FirstIndex | scripts/extract_ingredients.ts:253 | the first position of a value holds it and nothing before it does |
| Seqs.FirstIndexUnique | scripts/extract_ingredients.ts:253 | a position holding the value with no copy before it is the first position |
| Seqs.DedupKeepsFirstOrder | scripts/extract_ingredients.ts:253 | a `Set` keeps insertion order: the de-duplicated values appear in the order of their first occurrences |
| Seqs.FilterKeepsOrder | scripts/extract_ingredients.ts:255 | filtering keeps the survivors' relative order |
| Seqs.DedupFilterOrder | scripts/extract_ingredients.ts:253-255 | de-duplicating then filtering leaves values in the order of their first occurrences |
| Seqs.DedupKeepsDistinctPrefix | scripts/extract_ingredients.ts:253 | a duplicate-free front survives de-duplication unchanged and first |
| Numerals.NatToString | src/lib/recipeUtils.ts:89 | a number's decimal text is non-empty, all digits, and reads back as the number |
| Numerals.NatToStringInjective | src/lib/recipeUtils.ts:89 | different numbers have different decimal texts |
| Numerals.DigitsConcat | src/lib/recipeUtils.ts:29 | digits written after other digits shift them by a power of ten |
| LineCleaner.RemoveEmptyBoxes | src/lib/recipeUtils.ts:56 | deleting empty bracket pairs never lengthens the text |
| LineCleaner.RemoveEmptyBoxesKeepsText | src/lib/recipeUtils.ts:56 | every character other than brackets and blanks survives, in order |
| LineCleaner.RemoveEmptyBoxesPrefix | src/lib/recipeUtils.ts:56 | text without an opening bracket passes through box deletion unchanged |
| LineCleaner.NestedBoxExample | src/lib/recipeUtils.ts:56 | one global pass turns "[[]]" into "[]", so the inner box's removal does not expose the outer one again |
| LineCleaner.CleanLine | src/lib/recipeUtils.ts:53-60 | a cleaned line has non-blank ends and is no longer than the line |
| LineCleaner.CleanLineFree | src/lib/recipeUtils.ts:53-60 | cleaning introduces no character the line lacked |
| LineCleaner.CleanPlainLine | src/lib/recipeUtils.ts:53-60 | a line without brackets, leading hyphen or bullet is only trimmed |
| LineCleaner.CleanIdempotentWhenPlain | src/lib/recipeUtils.ts:53-60 | cleaning twice equals cleaning once when the first result is plain |
| LineCleaner.CheckboxLineReadsBack | src/lib/recipeUtils.ts:56-59 | "- [ ] " followed by a plain ingredient cleans to the trimmed ingredient |
| LineCleaner.CleanCheckboxExample | src/lib/recipeUtils.ts:53-60 | "- [ ] 1 onion" cleans to "1 onion" |
| LineCleaner.HyphenLine | src/lib/recipeUtils.ts:57 | "- " followed by a plain text cleans to that text |
| LineCleaner.SecondHyphenSurvives | src/lib/recipeUtils.ts:57 | for every plain word w, only one hyphen goes: "- - w" cleans to "- w", which cleans to w, so cleaning is not idempotent |
| LineCleaner.HyphensPeel | src/lib/recipeUtils.ts:57 | for every plain word w, "- w" cleans to w and "- - w" cleans to "- w" |
| LineCleaner.IndentedHyphenSurvives | src/lib/recipeUtils.ts:57-59 | the hyphen pattern is anchored before trimming, so "  - salt" keeps its hyphen |
| LineCleaner.RealBulletSurvives | src/lib/recipeUtils.ts:58 | a line starting with U+2022 is left unchanged, because the bullet class does not hold that character |
| Quantity.DigitRunEnd | src/lib/recipeUtils.ts:22 | a maximal run of digits: all digits up to the end, and a non-digit or the end after it |
| Quantity.TailFrom | src/lib/recipeUtils.ts:22 | `\s*(.*)$` succeeds with the rest after the blank run only when that rest has no line terminator |
| Quantity.MatchQuantity | src/lib/recipeUtils.ts:22-64 | no match unless the text opens with a digit; a match's token is well-formed, the text is token + blanks + rest, and the rest has no line terminator and no leading blank |
| Quantity.MatchIsLongest | src/lib/recipeUtils.ts:22 | the token is greedy: no digit follows it, and a whole number is never followed by ".digit" |
| Quantity.LeadingDigitGivesDecimal | src/lib/recipeUtils.ts:22 | a line opening with a digit and free of line terminators always matches the number alternative, never the fraction |
| Quantity.IntegerThenText | src/lib/recipeUtils.ts:22 | digits, blanks and a text give the token of those digits and that text as the rest |
| Quantity.DecimalThenText | src/lib/recipeUtils.ts:22 | "w.f", blanks and a text give the token w.f and that text as the rest |
| Quantity.RatioBeforeTerminator | src/lib/recipeUtils.ts:22-28 | "1/2\rcup" is read by the fraction alternative as 1/2 with rest "cup", and its value is 0.5 |
| Quantity.ParseQuantity | src/lib/recipeUtils.ts:24-30 | the value is never negative; a decimal "w.f" has exactly the value of the digits wf over ten to the number of fraction digits, with integer part w; a ratio's value is the quotient of its parts, or 0 over a zero denominator |
| Quantity.OneAndAHalf | src/lib/recipeUtils.ts:24-30 | "1.5" reads as exactly one and a half |
| Quantity.DecimalValue | src/lib/recipeUtils.ts:29 | `parseFloat` of "w.f" is exactly wf / 10^|f|: non-negative, with integer part w |
| Quantity.Quotient | src/lib/recipeUtils.ts:26-27 | a zero denominator gives 0; otherwise the value times the denominator is the numerator |
| Quantity.FractionBelowOne | src/lib/recipeUtils.ts:29 | the digits after the point are worth less than one |
| Staples.MatchesTermIffWords | src/lib/recipeUtils.ts:75-80 | the four string tests together say that the term occurs as whole words |
| Staples.StandardIffStapleWord | src/lib/recipeUtils.ts:12-80 | a name is a staple exactly when one of its blank-separated lower-case words is salt, pepper, oil, water, sugar, flour, spices or spice |
| Staples.SingleWordIffPiece | src/lib/recipeUtils.ts:75-80 | a one-word term occurs as whole words exactly when it is one of the blank-separated pieces |
| Staples.EndWordOf | src/lib/recipeUtils.ts:12-19 | every staple is a one-word staple or ends in one after a blank |
| Staples.StandardByLastWord | src/lib/recipeUtils.ts:78 | a name whose lowered form ends in " " + a staple is a staple |
| Staples.KosherSaltIsStandard | src/lib/recipeUtils.ts:76-78 | "Kosher Salt" is a staple, because lower-casing comes first |
| Staples.SaltFlakesIsStandard | src/lib/recipeUtils.ts:77 | "salt flakes" is a staple |
| Staples.UnsaltedButterIsNot | src/lib/recipeUtils.ts:75-80 | "unsalted butter" is not a staple: "salt" inside a word does not count |
| Staples.SaltineIsNot | src/lib/recipeUtils.ts:75-80 | "saltine crackers" is not a staple: a staple word at the front of a longer word does not count |
| Staples.SaltCommaIsNot | src/lib/recipeUtils.ts:75-80 | "salt, to taste" is not a staple, because the comma glues to the word |
| QuantityFormat.Mod1 | src/lib/recipeUtils.ts:33-35 | JavaScript's `num % 1` lies strictly between -1 and 1, carries the sign of the number and differs from it by its truncation |
| QuantityFormat.RoundHalfUp | src/lib/recipeUtils.ts:33-50 | `toFixed` picks the integer within one half of the magnitude, the larger on a tie |
| QuantityFormat.DropPointZero | src/lib/recipeUtils.ts:50 | a trailing ".0" is removed and any other text is kept |
| QuantityFormat.FirstClose | src/lib/recipeUtils.ts:37-44 | the chosen fraction is the first target within 0.05 of the remainder, and none is chosen when no target is that close |
| QuantityFormat.FormatQuantity | src/lib/recipeUtils.ts:32-51 | the text is non-empty and built only from digits, a point, blanks, "/" and a leading "-" for negatives |
| QuantityFormat.WithGlyph | src/lib/recipeUtils.ts:46-47 | the text ends in the fraction; it is the fraction alone exactly when the whole part is not positive, and otherwise digits reading back as the whole part, a blank and the fraction |
| QuantityFormat.FormatIsClose | src/lib/recipeUtils.ts:32-51 | the printed text, read back, is within 0.06 of the number |
| QuantityFormat.GlyphClose | src/lib/recipeUtils.ts:36-47 | when a fraction is chosen, the number is non-negative and whole part + fraction is within 0.06 of it |
| QuantityFormat.ToFixed1Tenths | src/lib/recipeUtils.ts:50 | one-decimal output reads back within 0.05 of the number |
| QuantityFormat.NearWholeRounds | src/lib/recipeUtils.ts:33 | a number within 0.01 of a whole one rounds to within 0.01 of it |
| QuantityFormat.NearWholeIsFloor | src/lib/recipeUtils.ts:33 | a non-negative number whose remainder is below 0.01 prints as the digits of its whole part |
| QuantityFormat.FractionForm | src/lib/recipeUtils.ts:35-48 | when the remainder is not near-whole and a target is close, the number is non-negative and prints as "<whole> <fraction>" for a positive whole part, else the fraction alone |
| QuantityFormat.TenthsForm | src/lib/recipeUtils.ts:33-50 | when the remainder is not near-whole and no target is close, the number prints as its sign and its rounded tenths, with a ".0" dropped |
| QuantityFormat.FormatWholeNumber | src/lib/recipeUtils.ts:33 | a whole number prints as its decimal digits |
| QuantityFormat.NegativeHasNoFraction | src/lib/recipeUtils.ts:35-50 | a negative number never prints a fraction or a blank |
| QuantityFormat.OneAndAHalf | src/lib/recipeUtils.ts:42-47 | 1.5 prints as "1 1/2" |
| QuantityFormat.JustAHalf | src/lib/recipeUtils.ts:42-47 | 0.5 prints as "1/2" |
| QuantityFormat.TwoAndThreeQuarters | src/lib/recipeUtils.ts:44-47 | 2.75 prints as "2 3/4" |
| QuantityFormat.FirstTargetWins | src/lib/recipeUtils.ts:40-41 | 0.29 is near both 0.25 and 0.33, and the first test wins: "1/4" |
| QuantityFormat.OneDecimal | src/lib/recipeUtils.ts:50 | 2.1 prints as "2.1" |
| QuantityFormat.NearWholePrintsWhole | src/lib/recipeUtils.ts:33 | 2.005 passes the near-whole test and prints as "2" through `toFixed(0)` |
| QuantityFormat.RoundsToWhole | src/lib/recipeUtils.ts:33-50 | 2.03 fails the near-whole test, matches no fraction, and prints as "2" once `toFixed(1)` gives "2.0" and the ".0" is dropped |
| QuantityFormat.RoundsUpToOne | src/lib/recipeUtils.ts:33-50 | 0.995 fails the near-whole test, matches no fraction, and prints as "1" once `toFixed(1)` gives "1.0" and the ".0" is dropped |
| QuantityFormat.NegativeHalf | src/lib/recipeUtils.ts:35-50 | -1.5 prints as "-1.5", not as a fraction |
| RecipeUtils.ItemIdInjective | src/lib/recipeUtils.ts:89 | two ids are equal only when both the index and the clock reading are |
| RecipeUtils.ParseIngredientLine | src/lib/recipeUtils.ts:62-90 | the item keeps the line and has no unit; a staple is unchecked and anything else is checked; a quantity exists exactly when the cleaned line matches; without one, the name is the cleaned line |
| RecipeUtils.NameFromMatch | src/lib/recipeUtils.ts:62-72 | with a quantity, the cleaned line is a well-formed number, a run of blanks and the name; the number is the longest at the start and the quantity is its value |
| RecipeUtils.NameAfterNumber | src/lib/recipeUtils.ts:63-72 | with a quantity, the cleaned line opens with a digit and the name is a shorter tail of it |
| RecipeUtils.DigitLineHasQuantity | src/lib/recipeUtils.ts:63-72 | a cleaned line that opens with a digit and has no line terminator always yields a quantity |
| RecipeUtils.QuantityNonNegative | src/lib/recipeUtils.ts:70 | a parsed quantity is never negative |
| RecipeUtils.NameTrimmed | src/lib/recipeUtils.ts:63-84 | the name is no longer than the line and has non-blank ends |
| RecipeUtils.NameFree | src/lib/recipeUtils.ts:63-84 | the name holds no character the line lacks |
| RecipeUtils.WholeQuantityReadsBack | src/lib/recipeUtils.ts:62-90 | "n name" parses to quantity n and that name |
| RecipeUtils.HalfCupOfSugar | src/lib/recipeUtils.ts:22-90 | "1/2 cup sugar" parses to quantity 1 with name "/2 cup sugar", a staple, unchecked |
| RecipeUtils.BareNumber | src/lib/recipeUtils.ts:62-90 | "3" parses to quantity 3 with an empty name, checked |
| RecipeUtils.EmptyIsNotStandard | src/lib/recipeUtils.ts:74-80 | an empty name is not a staple |
| RecipeUtils.GluedUnit | src/lib/recipeUtils.ts:22-90 | "1.5kg Oxtail" parses to 1.5 with the unit left in the name "kg Oxtail" |
| RecipeUtils.CheckboxStaple | src/lib/recipeUtils.ts:53-90 | "- [ ] 1/3 cup olive oil" parses to quantity 1, name "/3 cup olive oil", a staple |
| ItemLists.NonBlankLines | src/components/ShoppingList.tsx:25 | the kept lines are one-line, non-blank and in order, and each non-blank piece of the split is kept as often as it occurs, each blank one never |
| ItemLists.ParseLines | src/components/ShoppingList.tsx:26 | one item per line, the k-th parsed with index k and the k-th clock reading |
| ItemLists.ParseBlock | src/components/ShoppingList.tsx:19-28 | a missing or empty block gives no items; otherwise the k-th item is the k-th non-blank line parsed with index k and the k-th clock reading, and ids are pairwise distinct |
| ItemLists.IdsDistinct | src/lib/recipeUtils.ts:89 | ids built from distinct indexes differ whatever the clock says |
| ItemLists.ParsedNamesAreLines | src/components/ShoppingList.tsx:25-26 | no parsed name holds a newline |
| ItemLists.HandleScale | src/components/ShoppingList.tsx:37-40 | a proposed scale below 0.5 is ignored and any other replaces the current one |
| ItemLists.ScaleStaysAllowed | src/components/ShoppingList.tsx:37-40 | starting from at least 0.5, any sequence of slider events keeps the scale at least 0.5 |
| ItemLists.ItemText | src/components/ShoppingList.tsx:47-50 | without a quantity the text is the name; with one it ends in a blank and the name |
| ItemLists.CopyLine | src/components/ShoppingList.tsx:51 | a copied line opens with the unchecked-box marker "- [ ] " |
| ItemLists.CopyLines | src/components/IngredientList.tsx:35-42 | one copied line per item, in order |
| ItemLists.HtmlLine | src/components/ShoppingList.tsx:52 | an HTML line is the item's text, unchanged, between an unchecked-checkbox opening and "</li>" |
| ItemLists.HtmlLines | src/components/IngredientList.tsx:41 | one HTML line per item, in order, around the item's text |
| ItemLists.FormattedIsOneLine | src/lib/recipeUtils.ts:32-51 | a formatted quantity holds no newline |
| ItemLists.CopyLineIsOneLine | src/components/ShoppingList.tsx:47-51 | an item with a one-line name copies as one line |
| ItemLists.CopyLineNonBlank | src/components/ShoppingList.tsx:51 | a copied line is never blank |
| ItemLists.CopiedTextReparses | src/components/ShoppingList.tsx:25-55 | splitting the copied text back into non-blank lines gives exactly the copied lines |
| ItemLists.HtmlDocumentLines | src/components/ShoppingList.tsx:56 | the HTML copy's lines are the list opening, the item lines and "</ul>" |
| CopyReadBack.CopyLineReadsBack | src/components/ShoppingList.tsx:47-51 | an item with a whole-number quantity, copied at scale 1, parses back to that quantity and the same name |
| CopyReadBack.PlainCopyLineReadsBack | src/components/ShoppingList.tsx:47-51 | an item without a quantity and with a plain name, copied at any scale, parses back to no quantity and that name |
| CopyReadBack.CheckboxAroundNumber | src/lib/recipeUtils.ts:53-59 | the "- [ ] " marker in front of a digit-led line makes no difference to the cleaned line |
| CopyReadBack.SameCleanLineSameItem | src/lib/recipeUtils.ts:62-72 | the parsed quantity and name depend on the line only through its cleaned form |
| ShoppingList.Toggle | src/components/ShoppingList.tsx:31-35 | only the check mark of items with the given id flips; everything else stays |
| ShoppingList.ToggleTwice | src/components/ShoppingList.tsx:31-35 | toggling the same id twice restores the list |
| ShoppingList.ToggleOne | src/components/ShoppingList.tsx:31-35 | with distinct ids, toggling an item's id flips exactly that item |
| ShoppingList.ToggleUnknown | src/components/ShoppingList.tsx:31-35 | toggling an id no item has changes nothing |
| ShoppingList.Checked | src/components/ShoppingList.tsx:46 | the checked items, in order, and every checked item |
| ShoppingList.FreshListChecksNonStaples | src/components/ShoppingList.tsx:19-28 | after parsing, exactly the non-staple items are checked |
| ShoppingList.CopyTextLines | src/components/ShoppingList.tsx:42-55 | the copied text splits into one copy line per checked item |
| ShoppingList.CopyHtmlLines | src/components/ShoppingList.tsx:42-56 | the HTML copy splits into the list opening, one HTML line per checked item, and "</ul>" |
| ShoppingList.CopyRoundTrip | src/components/ShoppingList.tsx:19-55 | pasting the copied text back into a list gives one item per checked item, whose line is that item's copy line |
| ShoppingList.CheckedNamesAreLines | src/components/ShoppingList.tsx:46 | checked items of one-line names have one-line names |
| IngredientList.CopyKeepsEveryLine | src/components/IngredientList.tsx:17-44 | the copied text has one line per non-blank ingredient line, each the copy of that line's item |
| IngredientList.CopyRoundTrip | src/components/IngredientList.tsx:17-44 | re-parsing the copied text gives as many items as the ingredient block had non-blank lines |
| Recipes.RandomBelow | src/components/DecisionMaker.tsx:34 | `Math.floor(r * n)` is an index below n, the integer part of r·n |
| Recipes.ToggleCategory | src/components/AddRecipeModal.tsx:74-80 | the clicked category flips membership, every other keeps it, and an added one goes last |
| Recipes.ToggleKeepsOthers | src/components/EditRecipeModal.tsx:88-93 | apart from the clicked category the list is unchanged, in order |
| Recipes.ToggleTwiceAbsent | src/components/AddRecipeModal.tsx:74-80 | selecting and then deselecting an absent category restores the list |
| Recipes.ToggleTwicePresentMoves | src/components/AddRecipeModal.tsx:74-80 | deselecting and then reselecting a present category moves it to the end |
| MenuContainer.FilterRecipes | src/components/MenuContainer.tsx:56-63 | the grid shows exactly the recipes passing the category and search tests |
| MenuContainer.FilterKeepsOrder | src/components/MenuContainer.tsx:56-63 | the grid keeps the recipes' order |
| MenuContainer.AllWithEmptySearchShowsEverything | src/components/MenuContainer.tsx:56-63 | "All" with an empty search shows every recipe |
| MenuContainer.ListCategoryHiddenBySelection | src/components/MenuContainer.tsx:57-58 | choosing a category hides every recipe whose category is a list |
| MenuContainer.AddRecipe | src/components/MenuContainer.tsx:66-75 | an error fails with the alert's message; an inserted row goes on top of the unchanged list; no data changes nothing |
| MenuContainer.AddedRecipeOnTop | src/components/MenuContainer.tsx:56-75 | after an insert the grid is the old grid, with the new row on top if it passes the filter |
| MenuContainer.Successes | src/components/MenuContainer.tsx:85-93 | the count of successful inserts never exceeds the number of seed recipes |
| MenuContainer.SeedData | src/components/MenuContainer.tsx:83-93 | the loop's count is the number of successful inserts and its last error is the last failure |
| MenuContainer.LastErrorIsLast | src/components/MenuContainer.tsx:84-92 | a last error exists exactly when some insert failed, and no insert after it failed |
| MenuContainer.SuccessesAllOrNothing | src/components/MenuContainer.tsx:85-93 | every insert counted exactly when none failed |
| MenuContainer.SeedReport | src/components/MenuContainer.tsx:95-99 | the failure alert is shown exactly when nothing was seeded and there was an error |
| MenuContainer.SeedFailsIffAllFail | src/components/MenuContainer.tsx:83-99 | the failure alert appears exactly when there was at least one recipe and every insert failed |
| MenuContainer.NoSuccessesAllFail | src/components/MenuContainer.tsx:85-93 | a zero count means every insert failed |
| DecisionMaker.Candidates | src/components/DecisionMaker.tsx:20-22 | under "All" every recipe; otherwise exactly the recipes whose category includes the choice |
| DecisionMaker.CandidatesKeepOrder | src/components/DecisionMaker.tsx:20-22 | candidates keep the recipes' order |
| DecisionMaker.LegacySubstringMatches | src/components/DecisionMaker.tsx:22 | a legacy string category matches by substring: "Midweek Pasta" includes "Pasta" |
| DecisionMaker.EveryIndexReachable | src/components/DecisionMaker.tsx:34 | every index below n is drawn by some random value |
| DecisionMaker.StartPick | src/components/DecisionMaker.tsx:19-30 | a pick clears the selection; it starts spinning when there are candidates and otherwise leaves the spin state alone |
| DecisionMaker.Land | src/components/DecisionMaker.tsx:33-37 | landing stops the spin on a recipe from the list that passes the category choice |
| DecisionMaker.LandReachesEveryCandidate | src/components/DecisionMaker.tsx:33-37 | every candidate can be the one landed on |
| DecisionMaker.AutoPickOnOpen | src/components/DecisionMaker.tsx:40-44 | opening picks automatically exactly when the recipe list is non-empty |
| DecisionMaker.OnOpenChange | src/components/DecisionMaker.tsx:16-46 | opening on a non-empty collection runs a pick under the category chosen last and clears the selection; anything else leaves the picker as it was |
| DecisionMaker.OpenSpins | src/components/DecisionMaker.tsx:16-46 | opening an idle picker on a non-empty collection spins exactly when the remembered category has a candidate |
| DecisionMaker.FirstOpenSpins | src/components/DecisionMaker.tsx:16-60 | the initial choice "All" is the first chip, and under it opening on a non-empty collection spins |
| DecisionMaker.ReopenOnEmptyCategoryStaysIdle | src/components/DecisionMaker.tsx:16-66 | "Soup" is one of the chips, and after choosing it, reopening on a collection of one "Mains" recipe does not spin |
| EditRecipeModal.LoadForm | src/components/EditRecipeModal.tsx:17-26 | the form is the recipe with missing ingredients, instructions and notes set to empty text and nothing else changed |
| EditRecipeModal.CurrentCats | src/components/EditRecipeModal.tsx:77 | a missing or empty-string category becomes the empty list and any other is kept |
| EditRecipeModal.AsList | src/components/EditRecipeModal.tsx:88 | the list a click starts from holds exactly the selected chips |
| EditRecipeModal.ClickChip | src/components/EditRecipeModal.tsx:87-94 | a click always leaves a list category and changes nothing else in the form |
| EditRecipeModal.ClickFlipsOnlyThatChip | src/components/EditRecipeModal.tsx:77-94 | a click flips the clicked chip's highlight and no other |
| EditRecipeModal.ClickMigratesLegacy | src/components/EditRecipeModal.tsx:88-93 | a click on a legacy string category wraps it in a list before toggling |
| EditRecipeModal.ImageUrl | src/components/EditRecipeModal.tsx:45 | the picture URL carries the encoded title in the prompt and ends with the seed |
| EditRecipeModal.ImageUrlSeedInjective | src/components/EditRecipeModal.tsx:45 | different seeds give different URLs for the same title |
| EditRecipeModal.RegenerateImage | src/components/EditRecipeModal.tsx:43-47 | an empty title changes nothing; otherwise only the picture changes, to a URL with a seed below 10000 |
| AddRecipeModal.ClickChip | src/components/AddRecipeModal.tsx:69-79 | a click flips the clicked category only and leaves the rest of the form |
| AddRecipeModal.FreshFormDeselectMains | src/components/AddRecipeModal.tsx:19-76 | in a fresh form, clicking "Mains" leaves no category selected |
| AddRecipeModal.Submit | src/components/AddRecipeModal.tsx:28-110 | an empty title, a non-empty link or image that is not a valid URL, or a failed insert keeps the form open and unchanged; otherwise the modal closes, the form resets and an inserted row goes on top |
| AddRecipeModal.NoDataStillResets | src/components/AddRecipeModal.tsx:28-40 | an insert that returns no row still closes and resets the form |
| AddRecipeModal.EmptyUrlsPass | src/components/AddRecipeModal.tsx:92-110 | the optional URL fields left empty never block a titled form |
| ExtractIngredients.SplitAtFirstEquals | scripts/extract_ingredients.ts:14-17 | a line has at least two pieces exactly when it holds "="; the key is the text before the first "=", and re-joining the rest gives the text after it |
| ExtractIngredients.ParseEnvLine | scripts/extract_ingredients.ts:14-18 | an entry is read exactly when there is an "=" with non-blank text on both sides; it is the trimmed text before and after the first "=" |
| ExtractIngredients.EnvValueKeepsEquals | scripts/extract_ingredients.ts:17 | "A = b=c" reads as key "A" with value "b=c" |
| ExtractIngredients.ApplyEnvLine | scripts/extract_ingredients.ts:13-21 | a line stores its entry only when the key has no non-empty value yet, and touches no other key |
| ExtractIngredients.StoreEntry | scripts/extract_ingredients.ts:18-19 | storing never overwrites a set variable and touches no other key |
| ExtractIngredients.LoadLines | scripts/extract_ingredients.ts:13-22 | variables set before loading keep their values |
| ExtractIngredients.LoadEnv | scripts/extract_ingredients.ts:8-28 | with no file nothing changes; variables already set keep their values |
| ExtractIngredients.FirstDeclarationWins | scripts/extract_ingredients.ts:13-22 | for an unset key, the first line declaring it decides its value |
| ExtractIngredients.UndeclaredKeyUntouched | scripts/extract_ingredients.ts:13-22 | a key no line declares keeps its value or stays absent |
| ExtractIngredients.StripBulletPrefix | scripts/extract_ingredients.ts:130 | only a leading run of hyphens, asterisks and blanks is removed |
| ExtractIngredients.BulletItem | scripts/extract_ingredients.ts:130 | an extracted item starts with no bullet character and ends with no blank |
| ExtractIngredients.BulletLines | scripts/extract_ingredients.ts:130 | one item per line whose trimmed form starts with "-", in order, none holding a newline |
| ExtractIngredients.BulletListRoundTrip | scripts/extract_ingredients.ts:130 | the bullet-fallback expression reads a "- " list of plain items back as the items |
| ExtractIngredients.FallbackKeepsCheckbox | scripts/extract_ingredients.ts:130 | the bullet-fallback expression alone turns "- [ ] 1 onion" into "[ ] 1 onion": the box survives the bullet strip |
| ExtractIngredients.CheckboxList | scripts/extract_ingredients.ts:243 | one "- [ ] " line per ingredient, in order |
| ExtractIngredients.ShoppingListUpdate | scripts/extract_ingredients.ts:241-244 | the list is written exactly when it is missing or shorter than 10 and ingredients were found; it is their checkbox lines joined by newlines |
| ExtractIngredients.WrittenListReadsBack | scripts/extract_ingredients.ts:243 | the app parses a written list into one item per ingredient, each cleaning back to the trimmed ingredient |
| ExtractIngredients.CheckboxLinesSurvive | scripts/extract_ingredients.ts:243 | the written list's non-blank lines are exactly the checkbox lines |
| ExtractIngredients.MergeCategories | scripts/extract_ingredients.ts:250-255 | the merged list is duplicate-free, holds exactly the allowed categories that were existing or found, and lists them in the order of their first occurrence in existing-then-found |
| ExtractIngredients.KeptAllowed | scripts/extract_ingredients.ts:253-255 | de-duplicating then keeping the allowed values gives each allowed value once |
| ExtractIngredients.MergeKeepsExistingFirst | scripts/extract_ingredients.ts:252-253 | existing allowed categories keep their place at the front |
| ExtractIngredients.MergeDropsLegacy | scripts/extract_ingredients.ts:252 | a legacy string category is discarded and only found ones can survive |
| ExtractIngredients.CategoryUpdate | scripts/extract_ingredients.ts:250-260 | the category is written exactly when something was found and some existing or found category is allowed; it is the merged list |
| ExtractIngredients.UnknownFindsStillRewrite | scripts/extract_ingredients.ts:250-260 | finding only a disallowed category still rewrites the existing list, minus what is disallowed |
| ExtractIngredients.BuildUpdate | scripts/extract_ingredients.ts:239-262 | an update is needed exactly when the shopping-list rule or the category rule fires |
| ExtractIngredients.ApplyUpdate | scripts/extract_ingredients.ts:262-266 | only the shopping list and category change; with nothing to write, nothing changes |
| ExtractIngredients.FilledListKept | scripts/extract_ingredients.ts:242 | a shopping list of 10 or more characters is never replaced |

## Left out

- React rendering, state hooks and effects are left out. Each handler is a
  function from the old state to the new state.
- The clipboard, `ClipboardItem`, timers, `alert`, `window` and console
  output are left out. They have no effect on the data.
- `MenuContainer.SeedData` models the seeding run after the confirmation
  is accepted. A declined `confirm` (MenuContainer.tsx:79) returns before
  any insert and leaves the data unchanged.
- `fetchRecipes` and the database client are left out, and so are the
  seeding loop's refetch and the script's database calls. A database answer
  is a parameter.
- `handleAddRecipe`: an empty `data` array, where `data[0]` is undefined
  and would be prepended, is not modelled. Only a row, an error or no data
  are.
- The page fetch, the JSON-LD search and the LLM request and `JSON.parse`
  in the enrichment script are left out. They are network and parsing of
  foreign formats. The found ingredients and categories are parameters.
- `ALLOWED_CATEGORIES` and `enrichWithLLM` are used by
  `scripts/extract_ingredients.ts` but defined nowhere in it, and
  `extractWithLLM` (line 55) has no caller. As written, the call at line
  191 throws, the catch at line 193 returns null, and lines 130 and
  239-266 never run. The model treats the bullet expression of line 130
  and the update rules of lines 239-266 as if both names were defined:
  the allowed list and the found ingredients and categories are
  parameters.
- The chat, probe and check scripts, the header, cards, grid and detail
  modal are outside this core.
- The seed recipes in `src/lib/initialData.ts` are static data. The seeding
  loop takes only each insert's outcome.
- The edit form's submit merge is left out. It is a record spread handed
  to a callback.
- The browser's form checks are modelled as refusing an empty title and a
  non-empty URL field the parameter `validUrl` rejects. The URL grammar
  itself is that parameter.
- `encodeURIComponent` is a function parameter.
- Numbers are exact reals, not IEEE-754 doubles. Representation error and
  `toFixed`'s exponent form for huge values are not modelled.
- `toLowerCase` is modelled on ASCII letters only. Other scripts' case
  mappings are left out.
- CopyReadBack.CopyLineReadsBack: stated at scale 1 only. At another scale
  the proof needs products of two unknown reals, which the solver does not
  settle here. The text printed for a scaled quantity is stated branch by
  branch by `QuantityFormat.NearWholeIsFloor`, `QuantityFormat.FractionForm`
  and `QuantityFormat.TenthsForm`.
