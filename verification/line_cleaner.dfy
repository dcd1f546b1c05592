/** `cleanIngredientLine` (src/lib/recipeUtils.ts): strips checkbox and
    bullet markup from a raw ingredient line before the quantity is read. */
module LineCleaner {
  import opened Strings
  import Seqs

  /** An empty checkbox (`[`, any whitespace, `]`) starts at position 0. */
  predicate BoxAtStart(s: string)
    requires |s| > 0
  {
    s[0] == '[' && SpaceRunEnd(s, 1) < |s| && s[SpaceRunEnd(s, 1)] == ']'
  }

  /** The global replace of `[`, whitespace, `]` by nothing: one
      left-to-right pass deleting every empty checkbox found; text the
      deletion brings together is not searched again. */
  function RemoveEmptyBoxes(s: string): (r: string)
    ensures |r| <= |s|
    decreases |s|
  {
    if |s| == 0 then ""
    else if BoxAtStart(s) then RemoveEmptyBoxes(s[SpaceRunEnd(s, 1) + 1..])
    else [s[0]] + RemoveEmptyBoxes(s[1..])
  }

  /** The characters a checkbox deletion may remove. */
  predicate IsBoxChar(c: char) {
    c == '[' || c == ']' || IsSpace(c)
  }

  predicate IsKept(c: char) {
    !IsBoxChar(c)
  }

  /** What survives of a line once brackets and whitespace are ignored. */
  function Kept(s: string): string {
    Seqs.Filter(s, IsKept)
  }

  /** Deleting checkboxes removes only brackets and whitespace: every other
      character survives, in order. */
  lemma {:induction false} RemoveEmptyBoxesKeepsText(s: string)
    ensures Kept(RemoveEmptyBoxes(s)) == Kept(s)
    decreases |s|
  {
    if |s| > 0 {
      if BoxAtStart(s) {
        var j := SpaceRunEnd(s, 1) + 1;
        RemoveEmptyBoxesKeepsText(s[j..]);
        BoxIsDropped(s);
        assert s == s[..j] + s[j..];
        Seqs.FilterAppend(s[..j], s[j..], IsKept);
      } else {
        RemoveEmptyBoxesKeepsText(s[1..]);
        assert s == [s[0]] + s[1..];
        Seqs.FilterAppend([s[0]], s[1..], IsKept);
        Seqs.FilterAppend([s[0]], RemoveEmptyBoxes(s[1..]), IsKept);
      }
    }
  }

  /** A whole empty checkbox consists of deletable characters only. */
  lemma BoxIsDropped(s: string)
    requires |s| > 0 && BoxAtStart(s)
    ensures Kept(s[..SpaceRunEnd(s, 1) + 1]) == []
  {
    var j := SpaceRunEnd(s, 1) + 1;
    forall k | 0 <= k < j
      ensures !IsKept(s[..j][k])
    {
      if 0 < k < j - 1 {
        assert s[1..j - 1][k - 1] == s[k];
      }
    }
    Seqs.FilterNone(s[..j], IsKept);
  }

  /** Text before the first `[` passes through the deletion untouched. */
  lemma {:induction false} RemoveEmptyBoxesPrefix(a: string, b: string)
    requires '[' !in a
    ensures RemoveEmptyBoxes(a + b) == a + RemoveEmptyBoxes(b)
    decreases |a|
  {
    if |a| > 0 {
      assert (a + b)[0] == a[0];
      assert (a + b)[1..] == a[1..] + b;
      RemoveEmptyBoxesPrefix(a[1..], b);
    } else {
      assert a + b == b;
    }
  }

  /** Deleting checkboxes never introduces a character. */
  lemma {:induction false} RemoveEmptyBoxesFree(s: string, c: char)
    requires c !in s
    ensures c !in RemoveEmptyBoxes(s)
    decreases |s|
  {
    if |s| > 0 {
      if BoxAtStart(s) {
        var j := SpaceRunEnd(s, 1) + 1;
        SuffixFree(s, j, c);
        RemoveEmptyBoxesFree(s[j..], c);
      } else {
        SuffixFree(s, 1, c);
        RemoveEmptyBoxesFree(s[1..], c);
        assert RemoveEmptyBoxes(s) == [s[0]] + RemoveEmptyBoxes(s[1..]);
      }
    }
  }

  lemma SuffixFree(s: string, j: nat, c: char)
    requires c !in s && j <= |s|
    ensures c !in s[j..]
  {
    assert forall k :: 0 <= k < |s[j..]| ==> s[j..][k] == s[j + k];
  }

  /** Cleaning only deletes: a character absent from the line is absent
      from the cleaned line. */
  lemma CleanLineFree(line: string, c: char)
    requires c !in line
    ensures c !in CleanLine(line)
  {
    var a := RemoveEmptyBoxes(line);
    RemoveEmptyBoxesFree(line, c);
    var b := StripLeadingHyphen(a);
    assert c !in b by {
      if |a| > 0 && a[0] == '-' {
        assert forall k :: 0 <= k < |a[1..]| ==> a[1..][k] == a[1 + k];
        SliceFree(a[1..], c);
      }
    }
    var d := StripLeadingBullet(b);
    assert c !in d by {
      if |b| > 0 && IsBulletChar(b[0]) {
        assert forall k :: 0 <= k < |b[1..]| ==> b[1..][k] == b[1 + k];
        SliceFree(b[1..], c);
      }
    }
    SliceFree(d, c);
    SliceFree(TrimStart(d), c);
    assert CleanLine(line) == TrimEnd(TrimStart(d));
  }

  /** Trimming either end only deletes. */
  lemma SliceFree(s: string, c: char)
    requires c !in s
    ensures c !in TrimStart(s) && c !in TrimEnd(s)
  {
    var r := TrimStart(s);
    assert forall k :: 0 <= k < |r| ==> r[k] == s[|s| - |r| + k];
    var e := TrimEnd(s);
    assert forall k :: 0 <= k < |e| ==> e[k] == s[k];
  }

  /** The bullet class exactly as written in the source: the
      characters `*`, U+00E2, U+20AC and U+00A2 (the UTF-8 bytes of `•`
      read as Windows-1252). The bullet `•` (U+2022) itself is not in it. */
  predicate IsBulletChar(c: char) {
    c == '*' || c == '\U{00E2}' || c == '\U{20AC}' || c == '\U{00A2}'
  }

  /** Deletes one hyphen at position 0 together with the whitespace after it. */
  function StripLeadingHyphen(s: string): string {
    if |s| > 0 && s[0] == '-' then TrimStart(s[1..]) else s
  }

  /** Deletes one bullet character at position 0 together with the whitespace
      after it. */
  function StripLeadingBullet(s: string): string {
    if |s| > 0 && IsBulletChar(s[0]) then TrimStart(s[1..]) else s
  }

  /** `cleanIngredientLine`: checkboxes out, then one leading hyphen, then
      one leading bullet, then `trim`. */
  function CleanLine(line: string): (r: string)
    ensures |r| > 0 ==> !IsSpace(r[0]) && !IsSpace(r[|r| - 1])
    ensures |r| <= |line|
  {
    Trim(StripLeadingBullet(StripLeadingHyphen(RemoveEmptyBoxes(line))))
  }

  /** A line with no `[` that does not begin with a hyphen or a bullet
      character is only trimmed. */
  lemma CleanPlainLine(s: string)
    requires '[' !in s
    requires |s| > 0 ==> s[0] != '-' && !IsBulletChar(s[0])
    ensures CleanLine(s) == Trim(s)
  {
    RemoveEmptyBoxesPrefix(s, "");
    assert s + "" == s;
  }

  /** Cleaning is idempotent exactly on lines whose cleaned form carries no
      `[` and does not itself begin with a hyphen or a bullet character. */
  lemma CleanIdempotentWhenPlain(s: string)
    requires '[' !in CleanLine(s)
    requires var c := CleanLine(s); |c| > 0 ==> c[0] != '-' && !IsBulletChar(c[0])
    ensures CleanLine(CleanLine(s)) == CleanLine(s)
  {
    CleanPlainLine(CleanLine(s));
    TrimOfSpaceFree(CleanLine(s));
  }

  /** A shopping-list line written as `"- [ ] " + i` cleans back to the
      trimmed ingredient, provided the ingredient carries no `[` and does
      not start with a bullet character. */
  lemma CheckboxLineReadsBack(i: string)
    requires '[' !in i
    requires var t := TrimStart(i); |t| > 0 ==> !IsBulletChar(t[0])
    ensures CleanLine("- [ ] " + i) == Trim(i)
  {
    CheckboxRemoved(i);
    HyphenRemoved(i);
    TrimAfterTrimStart(i);
  }

  lemma CheckboxRemoved(i: string)
    requires '[' !in i
    ensures RemoveEmptyBoxes("- [ ] " + i) == "-  " + i
  {
    CheckboxSplit(i);
    CheckboxRemovedSplit(i);
  }

  lemma CheckboxSplit(i: string)
    ensures "- [ ] " + i == "- " + ("[ ] " + i)
  {
  }

  lemma CheckboxRemovedSplit(i: string)
    requires '[' !in i
    ensures RemoveEmptyBoxes("- " + ("[ ] " + i)) == "-  " + i
  {
    RemoveEmptyBoxesPrefix("- ", "[ ] " + i);
    BoxDeleted(i);
    SpaceKept(i);
    assert "- " + (" " + i) == "-  " + i;
  }

  lemma BoxDeleted(i: string)
    ensures RemoveEmptyBoxes("[ ] " + i) == RemoveEmptyBoxes(" " + i)
  {
    BoxOpensLine(i);
    assert ("[ ] " + i)[3..] == " " + i;
  }

  lemma SpaceKept(i: string)
    requires '[' !in i
    ensures RemoveEmptyBoxes(" " + i) == " " + i
  {
    RemoveEmptyBoxesPrefix(" " + i, "");
    assert " " + i + "" == " " + i;
  }

  lemma HyphenRemoved(i: string)
    ensures StripLeadingHyphen("-  " + i) == TrimStart(i)
  {
    assert ("-  " + i)[1..] == "  " + i;
    TrimStartOfSpaces("  ", i);
  }

  lemma BoxOpensLine(i: string)
    ensures |"[ ] " + i| > 0 && BoxAtStart("[ ] " + i)
    ensures SpaceRunEnd("[ ] " + i, 1) == 2
  {
    var box := "[ ] " + i;
    assert box[1] == ' ' && box[2] == ']';
    assert SpaceRunEnd(box, 2) == 2;
  }

  /** The exact line the enrichment script writes reads back as its item. */
  lemma CleanCheckboxExample(i: string)
    requires i == "1 onion"
    ensures CleanLine("- [ ] " + i) == i
  {
    CheckboxLineReadsBack(i);
    PlainTrimmed(i);
  }

  lemma PlainTrimmed(i: string)
    requires i == "1 onion"
    ensures Trim(i) == i
  {
    TrimOfSpaceFree(i);
  }

  /** Deletion is a single pass: the box formed by removing the inner
      one stays. */
  lemma NestedBoxExample(s: string)
    requires s == "[[]]"
    ensures RemoveEmptyBoxes(s) == "[]"
  {
    assert !BoxAtStart(s) by {
      assert SpaceRunEnd(s, 1) == 1;
    }
    assert s[1..] == "[]]";
    assert BoxAtStart("[]]") by {
      assert SpaceRunEnd("[]]", 1) == 1;
    }
    assert "[]]"[2..] == "]";
    assert RemoveEmptyBoxes("]") == "]" by {
      assert RemoveEmptyBoxes("]"[1..]) == "";
    }
  }

  /** A line opening with a hyphen and no checkbox loses the hyphen, the
      whitespace after it, and its trailing whitespace. */
  lemma HyphenLine(s: string, rest: string)
    requires s == "- " + rest
    requires '[' !in rest
    requires |rest| > 0 && !IsSpace(rest[0]) && !IsBulletChar(rest[0]) && !IsSpace(rest[|rest| - 1])
    ensures CleanLine(s) == rest
  {
    assert RemoveEmptyBoxes(s) == s by {
      RemoveEmptyBoxesPrefix(s, "");
      assert s + "" == s;
    }
    assert StripLeadingHyphen(s) == rest by {
      assert s[0] == '-' && s[1..] == " " + rest;
      TrimStartOfSpaces(" ", rest);
      TrimStartOfNonSpace(rest);
    }
    assert StripLeadingBullet(rest) == rest;
    TrimOfSpaceFree(rest);
  }

  /** Only one hyphen is removed, so cleaning is not idempotent: for a
      plain word such as `salt`, `"- - salt"` cleans to `"- salt"`, which
      cleans to `"salt"`. */
  lemma SecondHyphenSurvives(word: string)
    requires '[' !in word
    requires |word| > 0 && !IsSpace(word[0]) && !IsBulletChar(word[0]) && word[0] != '-' && !IsSpace(word[|word| - 1])
    ensures CleanLine("- " + ("- " + word)) == "- " + word
    ensures CleanLine(CleanLine("- " + ("- " + word))) == word
    ensures CleanLine(CleanLine("- " + ("- " + word))) != CleanLine("- " + ("- " + word))
  {
    var once := "- " + word;
    HyphensPeel(word);
    assert |once| != |word|;
  }

  /** Each cleaning pass peels one hyphen off a plain word. */
  lemma HyphensPeel(word: string)
    requires '[' !in word
    requires |word| > 0 && !IsSpace(word[0]) && !IsBulletChar(word[0]) && word[0] != '-' && !IsSpace(word[|word| - 1])
    ensures CleanLine("- " + word) == word
    ensures CleanLine("- " + ("- " + word)) == "- " + word
  {
    var once := "- " + word;
    var dash := once[0];
    assert dash == '-';
    assert !IsSpace(dash) && !IsBulletChar(dash);
    assert '[' !in once && once[|once| - 1] == word[|word| - 1];
    assert CleanLine(once) == word by { HyphenLine(once, word); }
    assert CleanLine("- " + once) == once by { HyphenLine("- " + once, once); }
  }

  /** The hyphen is only removed at position 0, before trimming. */
  lemma IndentedHyphenSurvives(s: string)
    requires s == "  - salt"
    ensures CleanLine(s) == "- salt"
  {
    IndentedIsPlain(s);
    IndentedTrim(s);
  }

  lemma IndentedIsPlain(s: string)
    requires s == "  - salt"
    ensures CleanLine(s) == Trim(s)
  {
    CleanPlainLine(s);
  }

  lemma IndentedTrim(s: string)
    requires s == "  - salt"
    ensures Trim(s) == "- salt"
  {
    assert s == "  " + "- salt";
    TrimIndented("  ", "- salt");
  }

  /** The real bullet U+2022 is not in the bullet class. */
  lemma RealBulletSurvives(s: string)
    requires s == "\U{2022} 6 Leader prawns"
    ensures CleanLine(s) == s
  {
    RealBulletPlain(s);
    RealBulletEnds(s);
    TrimOfSpaceFree(s);
  }

  lemma RealBulletEnds(s: string)
    requires s == "\U{2022} 6 Leader prawns"
    ensures !IsSpace(s[0]) && !IsSpace(s[|s| - 1])
  {
    assert s[0] == '\U{2022}' && s[|s| - 1] == 's';
  }

  lemma RealBulletPlain(s: string)
    requires s == "\U{2022} 6 Leader prawns"
    ensures CleanLine(s) == Trim(s)
  {
    CleanPlainLine(s);
  }
}
