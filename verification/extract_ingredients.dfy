/** The pure steps of the enrichment script (scripts/extract_ingredients.ts):
    the `.env` reader, the bullet-point fallback for a language model's
    answer, and how one recipe's database update is assembled from the
    ingredients and categories found for it. The list of allowed categories
    is a parameter. */
module ExtractIngredients {
  import opened Optional
  import opened Seqs
  import opened Strings
  import opened LineCleaner
  import opened Recipes
  import opened Numerals
  import opened RecipeUtils
  import opened ItemLists

  // ---- .env reading ----

  datatype EnvEntry = EnvEntry(key: string, value: string)

  /** Splitting at every `=` and joining all but the first piece with `=`
      again cuts the line at its first `=`. */
  lemma SplitAtFirstEquals(line: string)
    ensures |Split(line, '=')| >= 2 <==> '=' in line
    ensures '=' in line ==>
              var i := IndexOf(line, '=');
              Split(line, '=')[0] == line[..i] && Join(Split(line, '=')[1..], "=") == line[i + 1..]
  {
    var parts := Split(line, '=');
    if '=' in line {
      var i := IndexOf(line, '=');
      var tail := Split(line[i + 1..], '=');
      assert parts == [line[..i]] + tail;
      assert parts[1..] == tail;
      JoinSplit(line[i + 1..], '=');
    } else {
      assert parts == [line];
    }
  }

  /** One `.env` line: the key is the trimmed text before the first `=`,
      the value the trimmed text after it; a line without `=`, or with an
      empty key or value, gives nothing. */
  function ParseEnvLine(line: string): (e: Option<EnvEntry>)
    ensures e.Some? <==>
              '=' in line && Trim(line[..IndexOf(line, '=')]) != "" && Trim(line[IndexOf(line, '=') + 1..]) != ""
    ensures e.Some? ==>
              var i := IndexOf(line, '=');
              e.value == EnvEntry(Trim(line[..i]), Trim(line[i + 1..]))
  {
    var parts := Split(line, '=');
    SplitAtFirstEquals(line);
    if |parts| >= 2 then
      var key := Trim(parts[0]);
      var value := Trim(Join(parts[1..], "="));
      if key != "" && value != "" then Some(EnvEntry(key, value)) else None
    else None
  }

  /** A later `=` belongs to the value. */
  lemma EnvValueKeepsEquals(line: string)
    requires line == "A = b=c"
    ensures ParseEnvLine(line) == Some(EnvEntry("A", "b=c"))
  {
    assert line[0] == 'A' && line[1] == ' ' && line[2] == '=';
    assert '=' in line && IndexOf(line, '=') == 2;
    var key, value := line[..2], line[3..];
    assert key == "A " && value == " b=c";
    assert TrimStart(key) == key;
    assert key[..1] == "A";
    assert TrimEnd(key[..1]) == "A";
    var v := "b=c";
    assert value == " " + v;
    assert AllSpaces(" ") by { assert " "[0] == ' '; }
    assert v[0] == 'b' && v[|v| - 1] == 'c';
    TrimIndented(" ", v);
  }

  /** `process.env[key]` is truthy. */
  predicate IsSet(env: map<string, string>, k: string) {
    k in env && env[k] != ""
  }

  /** One line's effect: a parsed entry is stored unless its key already
      has a non-empty value. */
  function ApplyEnvLine(env: map<string, string>, line: string): (r: map<string, string>)
    ensures ParseEnvLine(line).None? ==> r == env
    ensures forall k :: IsSet(env, k) ==> k in r && r[k] == env[k]
    ensures forall k :: k in env && (ParseEnvLine(line).None? || ParseEnvLine(line).value.key != k) ==> k in r && r[k] == env[k]
    ensures forall k :: k in r && (ParseEnvLine(line).None? || ParseEnvLine(line).value.key != k) ==> k in env
    ensures ParseEnvLine(line).Some? ==>
              var e := ParseEnvLine(line).value;
              !IsSet(env, e.key) ==> e.key in r && r[e.key] == e.value
  {
    match ParseEnvLine(line)
    case None => env
    case Some(e) => StoreEntry(env, e)
  }

  /** Stores `e` unless its key already has a non-empty value. */
  function StoreEntry(env: map<string, string>, e: EnvEntry): (r: map<string, string>)
    ensures forall k :: IsSet(env, k) ==> k in r && r[k] == env[k]
    ensures forall k :: k != e.key ==> (k in r <==> k in env)
    ensures forall k :: k != e.key && k in env ==> r[k] == env[k]
    ensures !IsSet(env, e.key) ==> e.key in r && r[e.key] == e.value
  {
    if IsSet(env, e.key) then env else env[e.key := e.value]
  }

  /** The file's lines applied in order. */
  function LoadLines(env: map<string, string>, lines: seq<string>): (r: map<string, string>)
    ensures forall k :: IsSet(env, k) ==> k in r && r[k] == env[k]
    decreases |lines|
  {
    if |lines| == 0 then env
    else LoadLines(ApplyEnvLine(env, lines[0]), lines[1..])
  }

  /** `loadEnv`: without a `.env` file nothing changes. */
  function LoadEnv(env: map<string, string>, file: Option<string>): (r: map<string, string>)
    ensures file.None? ==> r == env
    ensures forall k :: IsSet(env, k) ==> k in r && r[k] == env[k]
  {
    if file.None? then env else LoadLines(env, Split(file.value, '\n'))
  }

  predicate Declares(line: string, k: string) {
    ParseEnvLine(line).Some? && ParseEnvLine(line).value.key == k
  }

  /** Within one file the first line declaring an unset key decides its
      value; later lines for the same key are ignored. */
  lemma {:induction false} FirstDeclarationWins(env: map<string, string>, lines: seq<string>, i: nat, k: string, v: string)
    requires i < |lines| && ParseEnvLine(lines[i]) == Some(EnvEntry(k, v))
    requires forall j :: 0 <= j < i ==> !Declares(lines[j], k)
    requires !IsSet(env, k)
    ensures k in LoadLines(env, lines) && LoadLines(env, lines)[k] == v
    decreases i
  {
    var next := ApplyEnvLine(env, lines[0]);
    if i == 0 {
      assert IsSet(next, k);
    } else {
      assert !Declares(lines[0], k);
      assert !IsSet(next, k);
      forall j | 0 <= j < i - 1
        ensures !Declares(lines[1..][j], k)
      {
        assert lines[1..][j] == lines[j + 1];
      }
      FirstDeclarationWins(next, lines[1..], i - 1, k, v);
    }
  }

  /** A key no line declares keeps its state. */
  lemma {:induction false} UndeclaredKeyUntouched(env: map<string, string>, lines: seq<string>, k: string)
    requires forall j :: 0 <= j < |lines| ==> !Declares(lines[j], k)
    ensures k in LoadLines(env, lines) <==> k in env
    ensures k in env ==> LoadLines(env, lines)[k] == env[k]
    decreases |lines|
  {
    if |lines| > 0 {
      assert !Declares(lines[0], k);
      forall j | 0 <= j < |lines| - 1
        ensures !Declares(lines[1..][j], k)
      {
        assert lines[1..][j] == lines[j + 1];
      }
      UndeclaredKeyUntouched(ApplyEnvLine(env, lines[0]), lines[1..], k);
    }
  }

  // ---- bullet-point fallback ----

  /** Characters of the leading run `^[-\s*]+` removes. */
  predicate IsBulletPrefixChar(c: char) {
    c == '-' || c == '*' || IsSpace(c)
  }

  /** Removes the leading run of hyphens, asterisks and whitespace. */
  function StripBulletPrefix(s: string): (r: string)
    ensures |r| <= |s| && r == s[|s| - |r|..]
    ensures |r| > 0 ==> !IsBulletPrefixChar(r[0])
    ensures forall k :: 0 <= k < |s| - |r| ==> IsBulletPrefixChar(s[k])
    decreases |s|
  {
    if |s| > 0 && IsBulletPrefixChar(s[0]) then
      var r := StripBulletPrefix(s[1..]);
      assert forall k :: 1 <= k < |s| - |r| ==> s[k] == s[1..][k - 1];
      r
    else s
  }

  /** A kept line's trimmed form starts with a hyphen. */
  predicate IsDashLine(line: string) {
    StartsWith(Trim(line), "-")
  }

  function BulletItem(line: string): (item: string)
    ensures |item| > 0 ==> !IsBulletPrefixChar(item[0]) && !IsSpace(item[|item| - 1])
  {
    var r := StripBulletPrefix(line);
    TrimStartOfNonSpace(r);
    Trim(r)
  }

  function BulletItems(lines: seq<string>): (items: seq<string>)
    ensures |items| == |lines|
    ensures forall k :: 0 <= k < |items| ==> items[k] == BulletItem(lines[k])
  {
    seq(|lines|, k requires 0 <= k < |lines| => BulletItem(lines[k]))
  }

  /** The fallback when the answer holds no JSON array: the lines whose
      trimmed form starts with a hyphen, stripped of their bullet. */
  function BulletLines(content: string): (items: seq<string>)
    ensures var kept := Filter(Split(content, '\n'), IsDashLine);
            |items| == |kept| && forall k :: 0 <= k < |items| ==> items[k] == BulletItem(kept[k])
    ensures forall k :: 0 <= k < |items| ==> '\n' !in items[k]
  {
    var kept := Filter(Split(content, '\n'), IsDashLine);
    var items := BulletItems(kept);
    assert forall k :: 0 <= k < |items| ==> '\n' !in items[k] by {
      forall k | 0 <= k < |items|
        ensures '\n' !in items[k]
      {
        assert kept[k] in Split(content, '\n');
        SliceFree(StripBulletPrefix(kept[k]), '\n');
        TrimFree(StripBulletPrefix(kept[k]), '\n');
      }
    }
    items
  }

  lemma TrimFree(s: string, c: char)
    requires c !in s
    ensures c !in Trim(s)
  {
    var t := TrimStart(s);
    assert forall k :: 0 <= k < |t| ==> t[k] == s[|s| - |t| + k];
    var u := TrimEnd(t);
    assert forall k :: 0 <= k < |u| ==> u[k] == t[k];
  }

  predicate PlainItem(name: string) {
    && |name| > 0 && '\n' !in name
    && !IsBulletPrefixChar(name[0]) && !IsSpace(name[|name| - 1])
  }

  function DashList(names: seq<string>): (lines: seq<string>)
    ensures |lines| == |names|
    ensures forall k :: 0 <= k < |names| ==> lines[k] == "- " + names[k]
  {
    seq(|names|, k requires 0 <= k < |names| => "- " + names[k])
  }

  /** A hyphen list written by hand, one item per line, reads back as its
      items: the bullet expression inverts `"- " + item` joined by
      newlines. */
  lemma BulletListRoundTrip(names: seq<string>)
    requires |names| >= 1
    requires forall k :: 0 <= k < |names| ==> PlainItem(names[k])
    ensures BulletLines(Join(DashList(names), "\n")) == names
  {
    var lines := DashList(names);
    forall k | 0 <= k < |lines|
      ensures '\n' !in lines[k] && IsDashLine(lines[k]) && BulletItem(lines[k]) == names[k]
    {
      DashLine(names[k]);
    }
    SplitJoin(lines, '\n');
    FilterAll(lines, IsDashLine);
    var items := BulletLines(Join(lines, "\n"));
    assert |items| == |names|;
  }

  /** `"- "` in front of a bullet-free start is exactly what is stripped. */
  lemma StripDashSpace(rest: string)
    requires |rest| > 0 && !IsBulletPrefixChar(rest[0])
    ensures StripBulletPrefix("- " + rest) == rest
  {
    var line := "- " + rest;
    assert line[1..] == " " + rest;
    assert line[1..][1..] == rest;
    assert IsBulletPrefixChar(line[0]) && IsBulletPrefixChar(line[1..][0]);
  }

  lemma DashLine(name: string)
    requires PlainItem(name)
    ensures var line := "- " + name;
            '\n' !in line && IsDashLine(line) && BulletItem(line) == name
  {
    var line := "- " + name;
    assert '\n' !in line by {
      assert forall k :: 2 <= k < |line| ==> line[k] == name[k - 2];
    }
    TrimOfSpaceFree(line);
    assert StartsWith(line, "-");
    StripDashSpace(name);
    TrimOfSpaceFree(name);
  }

  /** A checkbox line run through the bullet expression keeps its box:
      only hyphens, asterisks and blanks are stripped. */
  lemma FallbackKeepsCheckbox(line: string, rest: string)
    requires rest == "[ ] 1 onion" && line == "- " + rest
    ensures BulletItem(line) == rest
  {
    assert rest[0] == '[' && rest[|rest| - 1] == 'n';
    StripDashSpace(rest);
    TrimOfSpaceFree(rest);
  }

  // ---- shopping-list update ----

  /** A stored list counts as empty when it is missing or shorter than ten
      UTF-16 code units. */
  predicate ListNeedsFilling(current: Option<string>) {
    current.None? || Utf16Length(current.value) < 10
  }

  function CheckboxList(ingredients: seq<string>): (lines: seq<string>)
    ensures |lines| == |ingredients|
    ensures forall k :: 0 <= k < |lines| ==> lines[k] == "- [ ] " + ingredients[k]
  {
    seq(|ingredients|, k requires 0 <= k < |ingredients| => "- [ ] " + ingredients[k])
  }

  /** The new shopping list, written only over an empty one and only when
      ingredients were found: one unchecked checkbox line per ingredient. */
  function ShoppingListUpdate(current: Option<string>, ingredients: seq<string>): (u: Option<string>)
    ensures u.Some? <==> ListNeedsFilling(current) && |ingredients| > 0
    ensures u.Some? ==> u.value == Join(CheckboxList(ingredients), "\n")
    ensures current.Some? && |current.value| >= 10 ==> u.None?
  {
    if ListNeedsFilling(current) && |ingredients| > 0 then Some(Join(CheckboxList(ingredients), "\n"))
    else None
  }

  /** What the app makes of a list the script wrote: one item per
      ingredient, each cleaned back to the trimmed ingredient; an
      ingredient not starting with a digit becomes the item's name with no
      quantity. */
  lemma WrittenListReadsBack(current: Option<string>, ingredients: seq<string>, stamps: nat -> nat)
    requires ShoppingListUpdate(current, ingredients).Some?
    requires forall k :: 0 <= k < |ingredients| ==> ReadableIngredient(ingredients[k])
    ensures var items := ParseBlock(ShoppingListUpdate(current, ingredients), stamps);
            && |items| == |ingredients|
            && forall k :: 0 <= k < |items| ==>
                 && items[k].original == "- [ ] " + ingredients[k]
                 && CleanLine(items[k].original) == Trim(ingredients[k])
                 && (!StartsWithDigit(Trim(ingredients[k])) ==>
                       items[k].quantity.None? && items[k].name == Trim(ingredients[k]))
  {
    var lines := CheckboxList(ingredients);
    CheckboxLinesSurvive(ingredients);
    var items := ParseBlock(Some(Join(lines, "\n")), stamps);
    assert items == ParseLines(lines, stamps);
    forall k | 0 <= k < |items|
      ensures && items[k].original == "- [ ] " + ingredients[k]
              && CleanLine(items[k].original) == Trim(ingredients[k])
              && (!StartsWithDigit(Trim(ingredients[k])) ==>
                    items[k].quantity.None? && items[k].name == Trim(ingredients[k]))
    {
      CheckboxItem(ingredients[k], k, stamps(k));
    }
  }

  /** One written line, parsed by the app. */
  lemma CheckboxItem(i: string, idx: nat, now: nat)
    requires ReadableIngredient(i)
    ensures var item := ParseIngredientLine("- [ ] " + i, idx, now);
            && item.original == "- [ ] " + i
            && CleanLine(item.original) == Trim(i)
            && (!StartsWithDigit(Trim(i)) ==> item.quantity.None? && item.name == Trim(i))
  {
    CheckboxLineReadsBack(i);
  }

  /** Every written line survives the blank-line filter. */
  lemma CheckboxLinesSurvive(ingredients: seq<string>)
    requires |ingredients| > 0
    requires forall k :: 0 <= k < |ingredients| ==> '\n' !in ingredients[k]
    ensures var lines := CheckboxList(ingredients);
            Join(lines, "\n") != "" && NonBlankLines(Join(lines, "\n")) == lines
  {
    var lines := CheckboxList(ingredients);
    forall k | 0 <= k < |lines|
      ensures '\n' !in lines[k] && NonBlank(lines[k])
    {
      CheckboxLineShape(ingredients[k]);
    }
    SplitJoin(lines, '\n');
    FilterAll(lines, NonBlank);
    JoinNonEmpty(lines);
  }

  lemma JoinNonEmpty(lines: seq<string>)
    requires |lines| > 0 && |lines[0]| > 0
    ensures Join(lines, "\n") != ""
  {
    if |lines| > 1 {
      assert Join(lines, "\n")[0] == lines[0][0];
    }
  }

  /** An ingredient the checkbox form reads back faithfully: one line, no
      `[`, and not starting with a bullet character. */
  predicate ReadableIngredient(i: string) {
    && '\n' !in i && '[' !in i
    && (|TrimStart(i)| > 0 ==> !IsBulletChar(TrimStart(i)[0]))
  }

  predicate StartsWithDigit(s: string) {
    |s| > 0 && IsDigit(s[0])
  }

  lemma CheckboxLineShape(i: string)
    requires '\n' !in i
    ensures '\n' !in "- [ ] " + i && NonBlank("- [ ] " + i)
  {
    var line := "- [ ] " + i;
    assert line[0] == '-';
    TrimStartOfNonSpace(line);
    TrimEndKeepsNonSpace(line);
  }

  // ---- category merge ----

  /** `Array.isArray(recipe.category) ? recipe.category : []`. */
  function ExistingList(c: Category): seq<string> {
    if c.Many? then c.items else []
  }

  function AllowedBy(allowed: seq<string>): string -> bool {
    c => c in allowed
  }

  /** The existing categories followed by the found ones, each kept once
      at its first position, restricted to the allowed list. */
  function MergeCategories(existing: Category, found: seq<string>, allowed: seq<string>): (m: seq<string>)
    ensures NoDuplicates(m)
    ensures forall c :: c in m <==> c in allowed && (c in ExistingList(existing) || c in found)
    ensures forall i, j :: 0 <= i < j < |m| ==>
              Rank(ExistingList(existing) + found, m[i]) < Rank(ExistingList(existing) + found, m[j])
  {
    var all := ExistingList(existing) + found;
    KeptAllowed(all, allowed);
    DedupFilterOrder(all, AllowedBy(allowed));
    Filter(Dedup(all), AllowedBy(allowed))
  }

  /** What survives de-duplication and the allowed filter: each allowed
      value of `all`, once. */
  lemma KeptAllowed(all: seq<string>, allowed: seq<string>)
    ensures NoDuplicates(Filter(Dedup(all), AllowedBy(allowed)))
    ensures forall c :: c in Filter(Dedup(all), AllowedBy(allowed)) <==> c in allowed && c in all
  {
    var d := Dedup(all);
    FilterKeepsDistinct(d, AllowedBy(allowed));
    var m := Filter(d, AllowedBy(allowed));
    assert forall c :: c in m ==> c in allowed by {
      forall c | c in m ensures c in allowed {
        var k :| 0 <= k < |m| && m[k] == c;
        assert AllowedBy(allowed)(m[k]);
      }
    }
    forall c | c in all
      ensures c in d
    {
      var k :| 0 <= k < |all| && all[k] == c;
    }
    forall c | c in allowed && c in d
      ensures c in m
    {
      var k :| 0 <= k < |d| && d[k] == c;
      assert AllowedBy(allowed)(d[k]);
    }
  }

  /** Allowed, distinct existing categories keep their places at the
      front; found ones can only be added after them. */
  lemma MergeKeepsExistingFirst(xs: seq<string>, found: seq<string>, allowed: seq<string>)
    requires NoDuplicates(xs)
    requires forall k :: 0 <= k < |xs| ==> xs[k] in allowed
    ensures var m := MergeCategories(Many(xs), found, allowed);
            |m| >= |xs| && m[..|xs|] == xs
  {
    var d := Dedup(xs + found);
    DedupKeepsDistinctPrefix(xs, found);
    assert d == xs + d[|xs|..];
    FilterAppend(xs, d[|xs|..], AllowedBy(allowed));
    FilterAll(xs, AllowedBy(allowed));
  }

  /** A legacy single-string category is dropped by the merge. */
  lemma MergeDropsLegacy(text: string, found: seq<string>, allowed: seq<string>)
    ensures forall c :: c in MergeCategories(Legacy(text), found, allowed) ==> c in found
  {
  }

  predicate AnyAllowed(xs: seq<string>, allowed: seq<string>) {
    exists c :: c in xs && c in allowed
  }

  /** The category field is written only when categories were found and
      something allowed survives the merge, which may be an existing
      category alone. */
  function CategoryUpdate(existing: Category, found: seq<string>, allowed: seq<string>): (u: Option<seq<string>>)
    ensures u.Some? <==> |found| > 0 && (AnyAllowed(ExistingList(existing), allowed) || AnyAllowed(found, allowed))
    ensures u.Some? ==> u.value == MergeCategories(existing, found, allowed)
  {
    if |found| > 0 then
      var m := MergeCategories(existing, found, allowed);
      assert |m| > 0 ==> m[0] in m;
      if |m| > 0 then Some(m) else None
    else None
  }

  /** Found categories that are all unknown still rewrite the field when
      the recipe already had an allowed one: the rewrite then drops the
      recipe's disallowed categories. */
  lemma UnknownFindsStillRewrite(existing: seq<string>, found: seq<string>, allowed: seq<string>)
    requires existing == ["Mains", "Old"] && found == ["Foo"] && allowed == ["Mains", "Soup"]
    ensures CategoryUpdate(Many(existing), found, allowed) == Some(["Mains"])
  {
    var all := existing + found;
    assert all == ["Mains", "Old", "Foo"];
    DedupDistinct(all);
    var p := AllowedBy(allowed);
    assert all[1..] == ["Old", "Foo"] && all[1..][1..] == ["Foo"] && ["Foo"][1..] == [];
    assert p("Mains") && !p("Old") && !p("Foo");
    assert Filter(["Foo"], p) == [];
    assert Filter(all[1..], p) == [];
    assert Filter(all, p) == ["Mains"] + Filter(all[1..], p);
    assert ExistingList(Many(existing)) + found == all;
    assert MergeCategories(Many(existing), found, allowed) == ["Mains"];
  }

  // ---- the per-recipe update ----

  datatype Update = Update(shoppingList: Option<string>, category: Option<seq<string>>)

  /** A database write happens only when some field was set. */
  predicate NeedsWrite(u: Update) {
    u.shoppingList.Some? || u.category.Some?
  }

  /** The update for one recipe, given what enrichment found for it. */
  function BuildUpdate(recipe: Recipe, ingredients: seq<string>, categories: seq<string>, allowed: seq<string>): (u: Update)
    ensures NeedsWrite(u) <==>
              || (ListNeedsFilling(recipe.shoppingList) && |ingredients| > 0)
              || (|categories| > 0 && (AnyAllowed(ExistingList(recipe.category), allowed) || AnyAllowed(categories, allowed)))
  {
    Update(ShoppingListUpdate(recipe.shoppingList, ingredients), CategoryUpdate(recipe.category, categories, allowed))
  }

  /** Writing the update changes only the two fields it sets. */
  function ApplyUpdate(recipe: Recipe, u: Update): (r: Recipe)
    ensures r.(shoppingList := recipe.shoppingList, category := recipe.category) == recipe
    ensures !NeedsWrite(u) ==> r == recipe
    ensures u.category.Some? ==> r.category == Many(u.category.value)
  {
    recipe.(shoppingList := if u.shoppingList.Some? then u.shoppingList else recipe.shoppingList,
            category := if u.category.Some? then Many(u.category.value) else recipe.category)
  }

  /** A recipe whose list is already filled keeps it, whatever was found. */
  lemma FilledListKept(recipe: Recipe, ingredients: seq<string>, categories: seq<string>, allowed: seq<string>)
    requires recipe.shoppingList.Some? && |recipe.shoppingList.value| >= 10
    ensures ApplyUpdate(recipe, BuildUpdate(recipe, ingredients, categories, allowed)).shoppingList == recipe.shoppingList
  {
  }
}
