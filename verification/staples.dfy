/** The pantry-staple classifier of `parseIngredientLine`
    (src/lib/recipeUtils.ts): `STANDARD_ITEMS` and the four-way
    space-delimited test on the lower-cased name. */
module Staples {
  import opened Strings

  /** `STANDARD_ITEMS`, in source order. */
  const StandardItems: seq<string> := [
    "salt", "pepper", "black pepper", "white pepper",
    "oil", "olive oil", "vegetable oil", "sunflower oil", "canola oil",
    "water",
    "sugar",
    "flour",
    "spices", "spice"
  ]

  /** The one-word entries of `StandardItems`; every other entry ends in
      one of them. */
  const StapleWords: seq<string> := ["salt", "pepper", "oil", "water", "sugar", "flour", "spices", "spice"]

  /** The test applied to each `si`: equals, starts with `si + ' '`, ends
      with `' ' + si`, or includes `' ' + si + ' '`. */
  predicate MatchesTerm(lower: string, term: string) {
    || lower == term
    || StartsWith(lower, term + " ")
    || EndsWith(lower, " " + term)
    || Contains(lower, " " + term + " ")
  }

  /** `STANDARD_ITEMS.some(...)` on `rest.toLowerCase()`. */
  predicate IsStandard(name: string) {
    exists k :: 0 <= k < |StandardItems| && MatchesTerm(Lower(name), StandardItems[k])
  }

  /** `term` occurs at `i` with a space or an end of the string on each
      side. */
  predicate WordAt(s: string, term: string, i: nat) {
    && OccursAt(s, term, i)
    && (i == 0 || s[i - 1] == ' ')
    && (i + |term| == |s| || s[i + |term|] == ' ')
  }

  predicate OccursAsWords(s: string, term: string) {
    exists i: nat :: i <= |s| && WordAt(s, term, i)
  }

  /** The four string tests together say exactly that the term occurs
      delimited by spaces or the string's ends. */
  lemma MatchesTermIffWords(s: string, term: string)
    ensures MatchesTerm(s, term) <==> OccursAsWords(s, term)
  {
    if MatchesTerm(s, term) {
      MatchesTermGivesWord(s, term);
    }
    if OccursAsWords(s, term) {
      var i: nat :| WordAt(s, term, i);
      WordGivesMatchesTerm(s, term, i);
    }
  }

  lemma MatchesTermGivesWord(s: string, term: string)
    requires MatchesTerm(s, term)
    ensures OccursAsWords(s, term)
  {
    if s == term {
      assert WordAt(s, term, 0);
    } else if StartsWith(s, term + " ") {
      LeadingWord(s, term);
    } else if EndsWith(s, " " + term) {
      TrailingWord(s, term);
    } else {
      var p := " " + term + " ";
      ContainsIffOccurs(s, p);
      var j: nat :| OccursAt(s, p, j);
      SpacedWord(s, term, j);
    }
  }

  lemma LeadingWord(s: string, term: string)
    requires StartsWith(s, term + " ")
    ensures WordAt(s, term, 0)
  {
    var p := term + " ";
    assert forall k :: 0 <= k < |p| ==> s[k] == p[k];
    assert s[|term|] == ' ';
    assert s[..|term|] == term;
  }

  lemma TrailingWord(s: string, term: string)
    requires EndsWith(s, " " + term)
    ensures WordAt(s, term, |s| - |term|)
  {
    var p := " " + term;
    var i := |s| - |p|;
    assert forall k :: 0 <= k < |p| ==> s[i + k] == p[k];
    assert s[i] == ' ';
    assert s[i + 1..] == term;
  }

  lemma SpacedWord(s: string, term: string, j: nat)
    requires OccursAt(s, " " + term + " ", j)
    ensures WordAt(s, term, j + 1)
  {
    var p := " " + term + " ";
    assert forall k :: 0 <= k < |p| ==> s[j + k] == p[k];
    assert s[j] == ' ' && s[j + 1 + |term|] == ' ';
    assert forall k :: 0 <= k < |term| ==> s[j + 1 + k] == term[k];
    assert s[j + 1..j + 1 + |term|] == term;
  }

  lemma WordGivesMatchesTerm(s: string, term: string, i: nat)
    requires WordAt(s, term, i)
    ensures MatchesTerm(s, term)
  {
    var e := i + |term|;
    if i == 0 && e == |s| {
      assert s == s[i..e];
    } else if i == 0 {
      assert s[..|term| + 1] == term + " ";
    } else if e == |s| {
      assert s[i - 1..] == " " + term;
    } else {
      var p := " " + term + " ";
      assert s[i - 1..e + 1] == p;
      assert OccursAt(s, p, i - 1);
      ContainsIffOccurs(s, p);
    }
  }

  /** A multi-word term occurring as words ends in a last word that also
      occurs as a word. */
  lemma LastWordOccurs(s: string, front: string, last: string, i: nat)
    requires WordAt(s, front + " " + last, i)
    ensures WordAt(s, last, i + |front| + 1)
  {
    var t := front + " " + last;
    assert s[i..i + |t|] == t;
    assert s[i + |front|] == t[|front|];
    assert s[i + |front| + 1..i + |t|] == t[|front| + 1..];
  }

  /** For a term without spaces, occurring as words is membership among
      the space-separated pieces of the string. */
  lemma {:induction false} SingleWordIffPiece(s: string, term: string)
    requires ' ' !in term
    ensures OccursAsWords(s, term) <==> term in Split(s, ' ')
    decreases |s|
  {
    if ' ' in s {
      var j := IndexOf(s, ' ');
      var tail := s[j + 1..];
      assert Split(s, ' ') == [s[..j]] + Split(tail, ' ');
      SingleWordIffPiece(tail, term);
      if OccursAsWords(s, term) {
        var i: nat :| WordAt(s, term, i);
        if i == 0 {
          FirstPieceWord(s, term, j);
        } else {
          assert i > j;
          ShiftWordLeft(s, term, i, j);
        }
      }
      if term in Split(s, ' ') {
        if term == s[..j] {
          assert WordAt(s, term, 0);
        } else {
          assert term in Split(tail, ' ');
          var i: nat :| WordAt(tail, term, i);
          ShiftWordRight(s, term, i, j);
        }
      }
    } else {
      if OccursAsWords(s, term) {
        var i: nat :| WordAt(s, term, i);
        assert WordAt(s, term, i);
        assert i == 0 && i + |term| == |s|;
        assert s == s[i..i + |term|];
      }
      if term in Split(s, ' ') {
        assert WordAt(s, term, 0);
      }
    }
  }

  lemma FirstPieceWord(s: string, term: string, j: nat)
    requires ' ' !in term
    requires j < |s| && s[j] == ' ' && ' ' !in s[..j]
    requires WordAt(s, term, 0)
    ensures term == s[..j]
  {
  }

  lemma ShiftWordLeft(s: string, term: string, i: nat, j: nat)
    requires j < |s| && s[j] == ' '
    requires i > j
    requires WordAt(s, term, i)
    ensures WordAt(s[j + 1..], term, i - j - 1)
  {
    var tail := s[j + 1..];
    assert tail[i - j - 1..i - j - 1 + |term|] == s[i..i + |term|];
    if i - j - 1 > 0 {
      assert tail[i - j - 2] == s[i - 1];
    }
    if i + |term| < |s| {
      assert tail[i - j - 1 + |term|] == s[i + |term|];
    }
  }

  lemma ShiftWordRight(s: string, term: string, i: nat, j: nat)
    requires j < |s| && s[j] == ' '
    requires WordAt(s[j + 1..], term, i)
    ensures WordAt(s, term, i + j + 1)
  {
    var tail := s[j + 1..];
    assert tail[i..i + |term|] == s[i + j + 1..i + j + 1 + |term|];
    if i > 0 {
      assert tail[i - 1] == s[i + j];
    }
    if i + |term| < |tail| {
      assert tail[i + |term|] == s[i + j + 1 + |term|];
    }
  }

  /** The classifier is a word test: a name is a staple exactly when one of
      its space-separated lower-case words is one of `StapleWords`. Tabs
      and other whitespace do not separate words. */
  lemma StandardIffStapleWord(name: string)
    ensures IsStandard(name) <==>
              exists k :: 0 <= k < |StapleWords| && StapleWords[k] in Split(Lower(name), ' ')
  {
    var s := Lower(name);
    forall k | 0 <= k < |StapleWords|
      ensures OccursAsWords(s, StapleWords[k]) <==> StapleWords[k] in Split(s, ' ')
    {
      SingleWordIffPiece(s, StapleWords[k]);
    }
    if IsStandard(name) {
      var k :| 0 <= k < |StandardItems| && MatchesTerm(s, StandardItems[k]);
      MatchesTermIffWords(s, StandardItems[k]);
      var i: nat :| WordAt(s, StandardItems[k], i);
      var w := EndWordOf(k);
      if StandardItems[k] != StapleWords[w] {
        var front := FrontOf(k);
        assert StandardItems[k] == front + " " + StapleWords[w];
        LastWordOccurs(s, front, StapleWords[w], i);
      }
      assert OccursAsWords(s, StapleWords[w]);
    }
    if exists k :: 0 <= k < |StapleWords| && StapleWords[k] in Split(s, ' ') {
      var k :| 0 <= k < |StapleWords| && StapleWords[k] in Split(s, ' ');
      var m := StapleIndex(k);
      MatchesTermIffWords(s, StandardItems[m]);
    }
  }

  /** Index in `StapleWords` of the last word of `StandardItems[k]`. */
  function EndWordOf(k: nat): (w: nat)
    requires k < |StandardItems|
    ensures w < |StapleWords|
    ensures StandardItems[k] == StapleWords[w] || StandardItems[k] == FrontOf(k) + " " + StapleWords[w]
  {
    if k == 0 then 0
    else if k == 1 || k == 2 || k == 3 then 1
    else if 4 <= k <= 8 then 2
    else k - 6
  }

  /** The words before the last word of `StandardItems[k]`. */
  function FrontOf(k: nat): string
    requires k < |StandardItems|
  {
    if k == 2 then "black"
    else if k == 3 then "white"
    else if k == 5 then "olive"
    else if k == 6 then "vegetable"
    else if k == 7 then "sunflower"
    else if k == 8 then "canola"
    else ""
  }

  /** Index in `StandardItems` of `StapleWords[k]`. */
  function StapleIndex(k: nat): (m: nat)
    requires k < |StapleWords|
    ensures m < |StandardItems| && StandardItems[m] == StapleWords[k]
  {
    if k == 0 then 0
    else if k == 1 then 1
    else if k == 2 then 4
    else k + 6
  }

  /** A name is a staple when a staple word is among its words. */
  lemma StandardByWords(name: string, words: seq<string>, k: nat)
    requires Split(Lower(name), ' ') == words
    requires k < |StapleWords| && StapleWords[k] in words
    ensures IsStandard(name)
  {
    StandardIffStapleWord(name);
  }

  /** A name whose lower-cased form is some text, a space and an entry of
      `StandardItems` is a staple. */
  lemma StandardByLastWord(name: string, front: string, k: nat)
    requires k < |StandardItems| && Lower(name) == front + " " + StandardItems[k]
    ensures IsStandard(name)
  {
    var lower, term := Lower(name), StandardItems[k];
    assert lower == front + (" " + term);
    assert lower[|lower| - |" " + term|..] == " " + term;
    assert MatchesTerm(lower, term);
  }

  /** A name is not a staple when no staple word is among its words. */
  lemma NotStandardByWords(name: string, words: seq<string>)
    requires Split(Lower(name), ' ') == words
    requires forall k :: 0 <= k < |StapleWords| ==> StapleWords[k] !in words
    ensures !IsStandard(name)
  {
    StandardIffStapleWord(name);
  }

  /** A staple word at the end of the name counts, whatever its case. */
  lemma KosherSaltIsStandard(name: string)
    requires name == "Kosher Salt"
    ensures IsStandard(name)
  {
    KosherSaltWords(name);
    StandardByWords(name, ["kosher", "salt"], 0);
  }

  lemma KosherSaltWords(name: string)
    requires name == "Kosher Salt"
    ensures Split(Lower(name), ' ') == ["kosher", "salt"]
  {
    KosherSaltLower(name);
    TwoWords(Lower(name), "kosher", "salt");
  }

  lemma KosherSaltLower(name: string)
    requires name == "Kosher Salt"
    ensures Lower(name) == "kosher" + " " + "salt"
  {
  }

  /** A staple word at the start of the name counts. */
  lemma SaltFlakesIsStandard(name: string)
    requires name == "salt flakes"
    ensures IsStandard(name)
  {
    SaltFlakesWords(name);
    StandardByWords(name, ["salt", "flakes"], 0);
  }

  lemma SaltFlakesWords(name: string)
    requires name == "salt flakes"
    ensures Split(Lower(name), ' ') == ["salt", "flakes"]
  {
    SaltFlakesLower(name);
    TwoWords(Lower(name), "salt", "flakes");
  }

  lemma SaltFlakesLower(name: string)
    requires name == "salt flakes"
    ensures Lower(name) == "salt" + " " + "flakes"
  {
  }

  /** A staple word inside a longer word does not count. */
  lemma UnsaltedButterIsNot(name: string)
    requires name == "unsalted butter"
    ensures !IsStandard(name)
  {
    UnsaltedButterWords(name);
    NoStapleIn(["unsalted", "butter"]);
    NotStandardByWords(name, ["unsalted", "butter"]);
  }

  lemma UnsaltedButterWords(name: string)
    requires name == "unsalted butter"
    ensures Split(Lower(name), ' ') == ["unsalted", "butter"]
  {
    UnsaltedButterLower(name);
    TwoWords(Lower(name), "unsalted", "butter");
  }

  lemma UnsaltedButterLower(name: string)
    requires name == "unsalted butter"
    ensures Lower(name) == "unsalted" + " " + "butter"
  {
  }

  /** A staple word as the front of a longer word does not count either. */
  lemma SaltineIsNot(name: string)
    requires name == "saltine crackers"
    ensures !IsStandard(name)
  {
    SaltineWords(name);
    NoStapleIn(["saltine", "crackers"]);
    NotStandardByWords(name, ["saltine", "crackers"]);
  }

  lemma SaltineWords(name: string)
    requires name == "saltine crackers"
    ensures Split(Lower(name), ' ') == ["saltine", "crackers"]
  {
    SaltineLower(name);
    TwoWords(Lower(name), "saltine", "crackers");
  }

  lemma SaltineLower(name: string)
    requires name == "saltine crackers"
    ensures Lower(name) == "saltine" + " " + "crackers"
  {
  }

  /** Punctuation glued to a staple word defeats the test. */
  lemma SaltCommaIsNot(name: string)
    requires name == "salt, to taste"
    ensures !IsStandard(name)
  {
    var words := ["salt,", "to", "taste"];
    SaltCommaWords(name);
    SaltCommaNoStaple(words);
    NotStandardByWords(name, words);
  }

  lemma SaltCommaNoStaple(words: seq<string>)
    requires words == ["salt,", "to", "taste"]
    ensures forall k :: 0 <= k < |StapleWords| ==> StapleWords[k] !in words
  {
    assert forall w :: w in words ==> w == "salt," || w == "to" || w == "taste";
    NoStapleIn(words);
  }

  lemma SaltCommaWords(name: string)
    requires name == "salt, to taste"
    ensures Split(Lower(name), ' ') == ["salt,", "to", "taste"]
  {
    SaltCommaLower(name);
    ThreeWords(Lower(name), "salt,", "to", "taste");
  }

  lemma SaltCommaLower(name: string)
    requires name == "salt, to taste"
    ensures Lower(name) == "salt," + " " + ("to" + " " + "taste")
  {
  }

  /** No staple word is among `words`: each staple word is checked apart. */
  lemma NoStapleIn(words: seq<string>)
    requires forall w :: w in words ==> w != "salt" && w != "pepper" && w != "oil" && w != "water"
    requires forall w :: w in words ==> w != "sugar" && w != "flour" && w != "spices" && w != "spice"
    ensures forall k :: 0 <= k < |StapleWords| ==> StapleWords[k] !in words
  {
  }

  lemma ThreeWords(s: string, a: string, b: string, c: string)
    requires s == a + " " + (b + " " + c) && ' ' !in a && ' ' !in b && ' ' !in c
    ensures Split(s, ' ') == [a, b, c]
  {
    SplitTwoWords(a, b + " " + c);
    TwoWords(b + " " + c, b, c);
  }

  lemma TwoWords(s: string, a: string, b: string)
    requires s == a + " " + b && ' ' !in a && ' ' !in b
    ensures Split(s, ' ') == [a, b]
  {
    SplitTwoWords(a, b);
    SplitOneWord(b);
  }

  lemma SplitOneWord(a: string)
    requires ' ' !in a
    ensures Split(a, ' ') == [a]
  {
  }

  lemma SplitTwoWords(a: string, b: string)
    requires ' ' !in a
    ensures Split(a + " " + b, ' ') == [a] + Split(b, ' ')
  {
    var s := a + " " + b;
    IndexOfFirstSpace(a, b);
    assert s[..|a|] == a;
    assert s[|a| + 1..] == b;
  }

  lemma IndexOfFirstSpace(a: string, b: string)
    requires ' ' !in a
    ensures ' ' in a + " " + b && IndexOf(a + " " + b, ' ') == |a|
  {
    var s := a + " " + b;
    assert s[|a|] == ' ';
  }
}
