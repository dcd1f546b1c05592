/** The new-recipe form (src/components/AddRecipeModal.tsx): its initial
    state, the category chips, and what a submit does to the form and the
    collection, through the container's insert handler. */
module AddRecipeModal {
  import opened Optional
  import opened Recipes
  import MenuContainer

  datatype AddForm = AddForm(title: string, category: seq<string>, link: string, imageUrl: string)

  /** A fresh form: empty fields, "Mains" preselected. */
  const InitialForm := AddForm("", ["Mains"], "", "")

  function ClickChip(form: AddForm, c: string): (r: AddForm)
    ensures c in r.category <==> c !in form.category
    ensures forall d :: d != c ==> (d in r.category <==> d in form.category)
    ensures r == form.(category := r.category)
  {
    form.(category := ToggleCategory(form.category, c))
  }

  /** Deselecting the preselected category on a fresh form leaves none. */
  lemma FreshFormDeselectMains()
    ensures ClickChip(InitialForm, "Mains").category == []
  {
    assert Seqs.Filter(["Mains"], Other("Mains")) == [] by {
      assert ["Mains"][1..] == [];
    }
  }

  datatype Screen = Screen(form: AddForm, recipes: seq<Recipe>, open: bool)

  /** The browser's own checks before the submit handler runs: the title
      is required, and the link and image fields, of type url, must hold
      a valid URL when they are not empty. `validUrl` is the browser's
      URL test. */
  predicate Blocked(form: AddForm, validUrl: string -> bool) {
    || form.title == ""
    || (form.link != "" && !validUrl(form.link))
    || (form.imageUrl != "" && !validUrl(form.imageUrl))
  }

  /** Submitting: a form the browser blocks stays as typed; otherwise the
      container's handler runs; if it raises, the dialog stays open with
      the form as typed; if it returns, the dialog closes and the form is
      reset. */
  function Submit(form: AddForm, recipes: seq<Recipe>, response: MenuContainer.InsertResponse,
                  validUrl: string -> bool): (s: Screen)
    ensures form.title == "" ==> s == Screen(form, recipes, true)
    ensures form.link != "" && !validUrl(form.link) ==> s == Screen(form, recipes, true)
    ensures form.imageUrl != "" && !validUrl(form.imageUrl) ==> s == Screen(form, recipes, true)
    ensures !Blocked(form, validUrl) && response.InsertError? ==> s == Screen(form, recipes, true)
    ensures !Blocked(form, validUrl) && !response.InsertError? ==> !s.open && s.form == InitialForm
    ensures !Blocked(form, validUrl) && response.Inserted? ==> s.recipes == [response.row] + recipes
  {
    if Blocked(form, validUrl) then Screen(form, recipes, true)
    else
      match MenuContainer.AddRecipe(recipes, response)
      case Failure(_) => Screen(form, recipes, true)
      case Success(updated) => Screen(InitialForm, updated, false)
  }

  /** When the insert returns no row the dialog still closes and resets,
      although nothing was added. */
  lemma NoDataStillResets(form: AddForm, recipes: seq<Recipe>, validUrl: string -> bool)
    requires !Blocked(form, validUrl)
    ensures Submit(form, recipes, MenuContainer.NoData, validUrl) == Screen(InitialForm, recipes, false)
  {
  }

  /** The optional URL fields may stay empty: a titled form with both
      left blank reaches the handler whatever the URL test says. */
  lemma EmptyUrlsPass(form: AddForm, recipes: seq<Recipe>, row: Recipe, validUrl: string -> bool)
    requires form.title != "" && form.link == "" && form.imageUrl == ""
    ensures Submit(form, recipes, MenuContainer.Inserted(row), validUrl) == Screen(InitialForm, [row] + recipes, false)
  {
  }
}
