/** The recipe editor (src/components/EditRecipeModal.tsx): loading a
    recipe into the form, the category chips, which also migrate a legacy
    single-string category to a list, and regenerating the image link.
    `encodeURIComponent` is a parameter `encode`; the random draw is `r`. */
module EditRecipeModal {
  import opened Optional
  import opened Strings
  import opened Numerals
  import opened Recipes

  function OrEmpty(t: Option<string>): (r: Option<string>)
    ensures r.Some?
    ensures t.Some? ==> r == t
    ensures t.None? ==> r == Some("")
  {
    if t.Some? then t else Some("")
  }

  /** The form starts as a copy of the recipe whose missing long texts
      become empty strings. */
  function LoadForm(recipe: Recipe): (form: Recipe)
    ensures form.ingredients.Some? && form.instructions.Some? && form.notes.Some?
    ensures form.(ingredients := recipe.ingredients, instructions := recipe.instructions, notes := recipe.notes) == recipe
    ensures recipe.ingredients.Some? ==> form.ingredients == recipe.ingredients
    ensures recipe.instructions.Some? ==> form.instructions == recipe.instructions
    ensures recipe.notes.Some? ==> form.notes == recipe.notes
  {
    recipe.(ingredients := OrEmpty(recipe.ingredients),
            instructions := OrEmpty(recipe.instructions),
            notes := OrEmpty(recipe.notes))
  }

  /** `formData.category || []`: a missing or empty category reads as the
      empty list. */
  function CurrentCats(c: Category): (r: Category)
    ensures !r.Missing?
    ensures r.Legacy? ==> r.text != "" && r == c
    ensures c.Many? ==> r == c
    ensures c.Missing? || c == Legacy("") ==> r == Many([])
  {
    match c
    case Missing => Many([])
    case Legacy(text) => if text == "" then Many([]) else c
    case Many(_) => c
  }

  /** Whether chip `c` shows as selected: membership in a list, equality
      with a legacy string. */
  predicate IsSelected(cats: Category, c: string) {
    match cats
    case Missing => false
    case Legacy(text) => text == c
    case Many(items) => c in items
  }

  /** The list a chip click starts from: a legacy string is wrapped. */
  function AsList(cats: Category): (xs: seq<string>)
    requires !cats.Missing?
    ensures forall c :: c in xs <==> IsSelected(cats, c)
  {
    if cats.Many? then cats.items else [cats.text]
  }

  /** Clicking chip `c`: the form's category becomes a list with `c`
      toggled. */
  function ClickChip(form: Recipe, c: string): (r: Recipe)
    ensures r.category.Many?
    ensures r == form.(category := r.category)
  {
    form.(category := Many(ToggleCategory(AsList(CurrentCats(form.category)), c)))
  }

  /** A click flips exactly the clicked chip's highlight. */
  lemma ClickFlipsOnlyThatChip(form: Recipe, c: string, d: string)
    ensures IsSelected(CurrentCats(ClickChip(form, c).category), c) <==> !IsSelected(CurrentCats(form.category), c)
    ensures d != c ==> (IsSelected(CurrentCats(ClickChip(form, c).category), d) <==> IsSelected(CurrentCats(form.category), d))
  {
  }

  /** A legacy string category becomes a list holding it, plus the
      clicked category unless that is the legacy one itself. */
  lemma ClickMigratesLegacy(form: Recipe, text: string, c: string)
    requires form.category == Legacy(text) && text != ""
    ensures c != text ==> ClickChip(form, c).category == Many([text, c])
    ensures c == text ==> ClickChip(form, c).category == Many([])
  {
    if c == text {
      assert Seqs.Filter([text], Other(c)) == [] by {
        assert [text][1..] == [];
      }
    } else {
      assert [text] + [c] == [text, c];
    }
  }

  const ImagePrefix := "https://image.pollinations.ai/prompt/delicious%20"
  const ImageMiddle := "%20gourmet%20plated%20food%20photography?width=800&height=600&nologo=true&seed="

  function ImageUrl(encodedTitle: string, seed: nat): (url: string)
    ensures StartsWith(url, ImagePrefix + encodedTitle + ImageMiddle)
    ensures EndsWith(url, NatToString(seed))
  {
    var head := ImagePrefix + encodedTitle + ImageMiddle;
    var url := head + NatToString(seed);
    assert url[..|head|] == head;
    assert url[|url| - |NatToString(seed)|..] == NatToString(seed);
    url
  }

  /** The seed can be read back: two links for the same title differ
      whenever their seeds do. */
  lemma ImageUrlSeedInjective(encodedTitle: string, s: nat, t: nat)
    requires ImageUrl(encodedTitle, s) == ImageUrl(encodedTitle, t)
    ensures s == t
  {
    var head := ImagePrefix + encodedTitle + ImageMiddle;
    var u := ImageUrl(encodedTitle, s);
    assert u[|head|..] == NatToString(s) by {
      assert u == head + NatToString(s);
    }
    assert u[|head|..] == NatToString(t) by {
      assert u == head + NatToString(t);
    }
    NatToStringInjective(s, t);
  }

  /** Regenerating the picture: nothing happens without a title; otherwise
      only the image link changes, to a link for this title with a seed
      below 10000. */
  function RegenerateImage(form: Recipe, encode: string -> string, r: real): (out: Recipe)
    requires 0.0 <= r < 1.0
    ensures form.title == "" ==> out == form
    ensures out == form.(imageUrl := out.imageUrl)
    ensures form.title != "" ==>
              exists seed: nat :: seed < 10000 && out.imageUrl == ImageUrl(encode(form.title), seed)
  {
    if form.title == "" then form
    else
      var seed := RandomBelow(10000, r);
      form.(imageUrl := ImageUrl(encode(form.title), seed))
  }
}
