/** The "what shall we cook" picker (src/components/DecisionMaker.tsx):
    candidates by category, the random landing, and when opening the
    picker spins on its own. The random draw is a parameter `r` in [0, 1). */
module DecisionMaker {
  import opened Optional
  import opened Seqs
  import opened Strings
  import opened Recipes

  /** The picker's category buttons, "All" first. */
  const PickerCategories: seq<string> := ["All", "Mains", "Midweek", "Salad", "Pasta", "Soup", "Snacks"]

  /** The candidate test for a specific category: the stored category must
      be present and non-empty, and include the choice; on a legacy string
      that is a substring test, on a list a membership test. */
  predicate Includes(r: Recipe, sel: string) {
    match r.category
    case Missing => false
    case Legacy(text) => text != "" && Contains(text, sel)
    case Many(items) => sel in items
  }

  function IncludesSel(sel: string): Recipe -> bool {
    r => Includes(r, sel)
  }

  function Candidates(recipes: seq<Recipe>, sel: string): (c: seq<Recipe>)
    ensures sel == "All" ==> c == recipes
    ensures |c| <= |recipes|
    ensures sel != "All" ==> forall k :: 0 <= k < |c| ==> c[k] in recipes && Includes(c[k], sel)
    ensures sel != "All" ==> forall k :: 0 <= k < |recipes| && Includes(recipes[k], sel) ==> recipes[k] in c
  {
    if sel == "All" then recipes
    else
      var c := Filter(recipes, IncludesSel(sel));
      assert forall k :: 0 <= k < |c| ==> IncludesSel(sel)(c[k]);
      c
  }

  lemma CandidatesKeepOrder(recipes: seq<Recipe>, sel: string)
    ensures IsSubsequence(Candidates(recipes, sel), recipes)
  {
    if sel == "All" {
      FilterAll(recipes, _ => true);
      FilterIsSubsequence(recipes, _ => true);
    } else {
      FilterIsSubsequence(recipes, IncludesSel(sel));
    }
  }

  /** A legacy category string is matched by substring: "Pasta" is a
      candidate under a button whose name occurs inside it. */
  lemma LegacySubstringMatches(r: Recipe)
    requires r.category == Legacy("Midweek Pasta")
    ensures Includes(r, "Pasta")
  {
    assert OccursAt("Midweek Pasta", "Pasta", 8);
    ContainsIffOccurs("Midweek Pasta", "Pasta");
  }

  /** Every candidate can be the one landed on. */
  lemma EveryIndexReachable(n: nat, i: nat)
    requires i < n
    ensures var r := i as real / n as real; 0.0 <= r < 1.0 && RandomBelow(n, r) == i
  {
    var r := i as real / n as real;
    assert r * n as real == i as real;
  }

  datatype PickerState = PickerState(selected: Option<Recipe>, spinning: bool)

  /** Pressing spin (or the automatic pick): with no candidates the
      selection is cleared and nothing spins up; otherwise the selection is
      cleared and the wheel spins. */
  function StartPick(state: PickerState, recipes: seq<Recipe>, sel: string): (s: PickerState)
    ensures s.selected.None?
    ensures Candidates(recipes, sel) == [] ==> s.spinning == state.spinning
    ensures Candidates(recipes, sel) != [] ==> s.spinning
  {
    if |Candidates(recipes, sel)| == 0 then state.(selected := None)
    else PickerState(None, true)
  }

  /** The delayed landing: the random candidate is selected and the wheel
      stops. */
  function Land(recipes: seq<Recipe>, sel: string, r: real): (s: PickerState)
    requires Candidates(recipes, sel) != [] && 0.0 <= r < 1.0
    ensures !s.spinning && s.selected.Some?
    ensures s.selected.value in recipes
    ensures sel != "All" ==> Includes(s.selected.value, sel)
  {
    var c := Candidates(recipes, sel);
    PickerState(Some(c[RandomBelow(|c|, r)]), false)
  }

  /** Every candidate, and only a candidate, can be the landed pick. */
  lemma LandReachesEveryCandidate(recipes: seq<Recipe>, sel: string, k: nat)
    requires k < |Candidates(recipes, sel)|
    ensures exists r: real :: 0.0 <= r < 1.0 && Land(recipes, sel, r).selected == Some(Candidates(recipes, sel)[k])
  {
    var n := |Candidates(recipes, sel)|;
    EveryIndexReachable(n, k);
    var r := k as real / n as real;
    assert Land(recipes, sel, r).selected == Some(Candidates(recipes, sel)[k]);
  }

  /** Opening the picker spins by itself exactly when it opens on a
      non-empty collection. */
  function AutoPickOnOpen(isOpen: bool, recipes: seq<Recipe>): (spin: bool)
    ensures spin ==> |Candidates(recipes, "All")| > 0
    ensures spin <==> isOpen && recipes != []
  {
    isOpen && |recipes| > 0
  }

  /** The effect of the open flag changing: when the picker opens on a
      non-empty collection it picks under the category chip chosen last,
      which outlives closing because the picker stays mounted; otherwise
      nothing changes. */
  function OnOpenChange(state: PickerState, isOpen: bool, recipes: seq<Recipe>, sel: string): (s: PickerState)
    ensures !AutoPickOnOpen(isOpen, recipes) ==> s == state
    ensures AutoPickOnOpen(isOpen, recipes) ==> s.selected.None?
  {
    if AutoPickOnOpen(isOpen, recipes) then StartPick(state, recipes, sel) else state
  }

  /** Opening an idle picker on a non-empty collection starts the wheel
      exactly when the remembered category has a candidate. */
  lemma OpenSpins(recipes: seq<Recipe>, state: PickerState, sel: string)
    requires recipes != [] && !state.spinning
    ensures OnOpenChange(state, true, recipes, sel).spinning <==> Candidates(recipes, sel) != []
  {
  }

  /** On the first opening the chip is still "All", so the wheel starts. */
  lemma FirstOpenSpins(recipes: seq<Recipe>, state: PickerState)
    requires recipes != []
    ensures "All" == PickerCategories[0]
    ensures OnOpenChange(state, true, recipes, PickerCategories[0]).spinning
  {
  }

  /** Reopening after choosing a category no recipe carries leaves the
      picker idle: "Soup" on a collection of one "Mains" recipe. */
  lemma ReopenOnEmptyCategoryStaysIdle(recipes: seq<Recipe>, state: PickerState)
    requires |recipes| == 1 && recipes[0].category == Many(["Mains"]) && !state.spinning
    ensures "Soup" in PickerCategories
    ensures !OnOpenChange(state, true, recipes, "Soup").spinning
  {
    assert PickerCategories[5] == "Soup";
    assert !Includes(recipes[0], "Soup");
    FilterNone(recipes, IncludesSel("Soup"));
  }
}
