/** The recipe grid's container (src/components/MenuContainer.tsx): the
    category/search filter, prepending a newly inserted recipe, and the
    seeding loop that counts successful inserts. */
module MenuContainer {
  import opened Optional
  import opened Seqs
  import opened Strings
  import opened Recipes

  /** The header's category choice: "All" or one category name. The
      component would read `Only("All")` as `All`, but its category list
      (src/components/MenuContainer.tsx:13) has no "All" entry, so that value never
      arises. */
  datatype Selection = All | Only(name: string)

  /** A recipe passes the category test under "All", or when its stored
      category is the legacy single string equal to the choice; a list
      category is never strictly equal to a string. */
  predicate MatchesCategory(r: Recipe, sel: Selection) {
    sel.All? || (r.category.Legacy? && r.category.text == sel.name)
  }

  /** Case-insensitive substring search on the title. */
  predicate MatchesSearch(r: Recipe, term: string) {
    Contains(Lower(r.title), Lower(term))
  }

  predicate Shown(r: Recipe, sel: Selection, term: string) {
    MatchesCategory(r, sel) && MatchesSearch(r, term)
  }

  function ShownBy(sel: Selection, term: string): Recipe -> bool {
    r => Shown(r, sel, term)
  }

  /** The grid's contents: the recipes that pass both tests, in order. */
  function FilterRecipes(recipes: seq<Recipe>, sel: Selection, term: string): (r: seq<Recipe>)
    ensures |r| <= |recipes|
    ensures forall k :: 0 <= k < |r| ==> r[k] in recipes && Shown(r[k], sel, term)
    ensures forall k :: 0 <= k < |recipes| && Shown(recipes[k], sel, term) ==> recipes[k] in r
  {
    var r := Filter(recipes, ShownBy(sel, term));
    assert forall k :: 0 <= k < |r| ==> ShownBy(sel, term)(r[k]);
    r
  }

  /** The grid keeps the stored order. */
  lemma FilterKeepsOrder(recipes: seq<Recipe>, sel: Selection, term: string)
    ensures IsSubsequence(FilterRecipes(recipes, sel, term), recipes)
  {
    FilterIsSubsequence(recipes, ShownBy(sel, term));
  }

  lemma EmptySearchMatches(r: Recipe)
    ensures MatchesSearch(r, "")
  {
    assert Lower("") == "";
    assert Lower(r.title)[..0] == "";
  }

  /** With "All" and an empty search box the whole collection is shown. */
  lemma AllWithEmptySearchShowsEverything(recipes: seq<Recipe>)
    ensures FilterRecipes(recipes, All, "") == recipes
  {
    forall k | 0 <= k < |recipes|
      ensures ShownBy(All, "")(recipes[k])
    {
      EmptySearchMatches(recipes[k]);
    }
    FilterAll(recipes, ShownBy(All, ""));
  }

  /** A recipe stored with a category list disappears under every specific
      category choice, including one its list contains. */
  lemma ListCategoryHiddenBySelection(recipes: seq<Recipe>, name: string, term: string)
    requires forall k :: 0 <= k < |recipes| ==> recipes[k].category.Many?
    ensures FilterRecipes(recipes, Only(name), term) == []
  {
    FilterNone(recipes, ShownBy(Only(name), term));
  }

  /** What the insert call hands back. */
  datatype InsertResponse = InsertError(message: string) | Inserted(row: Recipe) | NoData

  /** Adding a recipe: an error is reported and raised (the list is left as
      it was); an inserted row goes to the front; no data changes nothing. */
  function AddRecipe(recipes: seq<Recipe>, response: InsertResponse): (r: Result<seq<Recipe>, string>)
    ensures response.InsertError? <==> r.Failure?
    ensures r.Failure? ==> r.error == "Error adding recipe! " + response.message
    ensures response.Inserted? ==>
              r.Success? && |r.value| == |recipes| + 1 && r.value[0] == response.row && r.value[1..] == recipes
    ensures response.NoData? ==> r == Success(recipes)
  {
    match response
    case InsertError(message) => Failure("Error adding recipe! " + message)
    case Inserted(row) => Success([row] + recipes)
    case NoData => Success(recipes)
  }

  /** A newly added recipe appears at the top of the grid exactly when it
      passes the current filter; the rest of the grid is unchanged. */
  lemma AddedRecipeOnTop(recipes: seq<Recipe>, row: Recipe, sel: Selection, term: string)
    ensures var shown := FilterRecipes(AddRecipe(recipes, Inserted(row)).value, sel, term);
            shown == (if Shown(row, sel, term) then [row] else []) + FilterRecipes(recipes, sel, term)
  {
    FilterAppend([row], recipes, ShownBy(sel, term));
    assert [row][1..] == [];
  }

  /** Number of inserts that reported no error. */
  function Successes(outcomes: seq<Option<string>>): (n: nat)
    ensures n <= |outcomes|
  {
    if |outcomes| == 0 then 0
    else Successes(outcomes[..|outcomes| - 1]) + (if outcomes[|outcomes| - 1].None? then 1 else 0)
  }

  /** The error of the last failed insert, if any failed. */
  function LastError(outcomes: seq<Option<string>>): (e: Option<string>)
    ensures e.Some? ==> e in outcomes
  {
    if |outcomes| == 0 then None
    else if outcomes[|outcomes| - 1].Some? then outcomes[|outcomes| - 1]
    else LastError(outcomes[..|outcomes| - 1])
  }

  /** The last failure really is the last one: every insert after it
      succeeded, and there is one exactly when some insert failed. */
  lemma {:induction false} LastErrorIsLast(outcomes: seq<Option<string>>)
    ensures LastError(outcomes).Some? <==> exists k :: 0 <= k < |outcomes| && outcomes[k].Some?
    ensures LastError(outcomes).Some? ==>
              exists k :: 0 <= k < |outcomes| && outcomes[k] == LastError(outcomes)
                && forall j :: k < j < |outcomes| ==> outcomes[j].None?
    decreases |outcomes|
  {
    if |outcomes| > 0 {
      var n := |outcomes| - 1;
      var front := outcomes[..n];
      if outcomes[n].Some? {
        assert LastError(outcomes) == outcomes[n];
      } else {
        assert LastError(outcomes) == LastError(front);
        LastErrorIsLast(front);
        FrontSomeIff(outcomes);
        if LastError(front).Some? {
          var k :| 0 <= k < |front| && front[k] == LastError(front)
                   && forall j :: k < j < |front| ==> front[j].None?;
          assert outcomes[k] == front[k];
          assert forall j :: k < j < |outcomes| ==> outcomes[j].None?;
        }
      }
    }
  }

  lemma FrontSomeIff(outcomes: seq<Option<string>>)
    requires |outcomes| > 0 && outcomes[|outcomes| - 1].None?
    ensures var front := outcomes[..|outcomes| - 1];
            (exists k :: 0 <= k < |outcomes| && outcomes[k].Some?) <==>
            (exists k :: 0 <= k < |front| && front[k].Some?)
  {
    var front := outcomes[..|outcomes| - 1];
    if exists k :: 0 <= k < |outcomes| && outcomes[k].Some? {
      var k :| 0 <= k < |outcomes| && outcomes[k].Some?;
      assert front[k] == outcomes[k];
    }
    if exists k :: 0 <= k < |front| && front[k].Some? {
      var k :| 0 <= k < |front| && front[k].Some?;
      assert outcomes[k] == front[k];
    }
  }

  /** Successes and failures account for every insert. */
  lemma {:induction false} SuccessesAllOrNothing(outcomes: seq<Option<string>>)
    ensures Successes(outcomes) == |outcomes| <==> forall k :: 0 <= k < |outcomes| ==> outcomes[k].None?
    decreases |outcomes|
  {
    if |outcomes| > 0 {
      var n := |outcomes| - 1;
      SuccessesAllOrNothing(outcomes[..n]);
      assert forall k :: 0 <= k < n ==> outcomes[..n][k] == outcomes[k];
    }
  }

  /** The seeding loop: one insert per initial recipe, counting successes
      and remembering the last error. `outcomes[i]` is the error the i-th
      insert reported, if any. */
  method SeedData(outcomes: seq<Option<string>>) returns (count: nat, lastError: Option<string>)
    ensures count == Successes(outcomes)
    ensures lastError == LastError(outcomes)
  {
    count := 0;
    lastError := None;
    for i := 0 to |outcomes|
      invariant count == Successes(outcomes[..i])
      invariant lastError == LastError(outcomes[..i])
    {
      assert outcomes[..i + 1][..i] == outcomes[..i];
      if outcomes[i].None? {
        count := count + 1;
      } else {
        lastError := outcomes[i];
      }
    }
    assert outcomes[..|outcomes|] == outcomes;
  }

  /** The alert shown once seeding finishes. */
  datatype SeedAlert = SeedFailed(error: string) | Seeded(count: nat)

  function SeedReport(count: nat, lastError: Option<string>): (a: SeedAlert)
    ensures a.SeedFailed? <==> count == 0 && lastError.Some?
  {
    if count == 0 && lastError.Some? then SeedFailed(lastError.value) else Seeded(count)
  }

  /** Seeding is reported as a failure exactly when every insert failed
      (and there was at least one); a partial failure reports the count. */
  lemma SeedFailsIffAllFail(outcomes: seq<Option<string>>)
    ensures SeedReport(Successes(outcomes), LastError(outcomes)).SeedFailed? <==>
              |outcomes| > 0 && forall k :: 0 <= k < |outcomes| ==> outcomes[k].Some?
  {
    LastErrorIsLast(outcomes);
    NoSuccessesAllFail(outcomes);
  }

  lemma {:induction false} NoSuccessesAllFail(outcomes: seq<Option<string>>)
    ensures Successes(outcomes) == 0 <==> forall k :: 0 <= k < |outcomes| ==> outcomes[k].Some?
    decreases |outcomes|
  {
    if |outcomes| > 0 {
      var n := |outcomes| - 1;
      NoSuccessesAllFail(outcomes[..n]);
      assert forall k :: 0 <= k < n ==> outcomes[..n][k] == outcomes[k];
    }
  }
}
