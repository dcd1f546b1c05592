/** The recipe record (src/lib/types.ts) and the category-chip toggle the
    two recipe forms share. */
module Recipes {
  import opened Optional
  import opened Seqs

  /** A stored category: absent, a legacy single string from before the
      migration to lists, or a list. */
  datatype Category = Missing | Legacy(text: string) | Many(items: seq<string>)

  datatype Recipe = Recipe(
    id: string,
    title: string,
    category: Category,
    link: Option<string>,
    imageUrl: string,
    ingredients: Option<string>,
    instructions: Option<string>,
    notes: Option<string>,
    shoppingList: Option<string>
  )

  /** `Math.floor(Math.random() * n)` for a draw `r` in [0, 1). */
  function RandomBelow(n: nat, r: real): (i: nat)
    requires n > 0 && 0.0 <= r < 1.0
    ensures i < n
    ensures i as real <= r * n as real < i as real + 1.0
  {
    assert r * n as real < n as real by {
      assert r * n as real < 1.0 * n as real;
    }
    (r * n as real).Floor
  }

  function Other(c: string): string -> bool {
    x => x != c
  }

  /** The chip toggle: a selected category is filtered out (every
      occurrence), an unselected one is appended. */
  function ToggleCategory(xs: seq<string>, c: string): (r: seq<string>)
    ensures c in r <==> c !in xs
    ensures forall d :: d != c ==> (d in r <==> d in xs)
    ensures c in xs ==> |r| < |xs|
    ensures c !in xs ==> |r| == |xs| + 1 && r[|xs|] == c
  {
    if c in xs then
      var r := Filter(xs, Other(c));
      assert c !in r by {
        forall k | 0 <= k < |r| ensures r[k] != c {
          assert Other(c)(r[k]);
        }
      }
      FilterDrops(xs, c);
      r
    else xs + [c]
  }

  lemma FilterDrops(xs: seq<string>, c: string)
    requires c in xs
    ensures |Filter(xs, Other(c))| < |xs|
    ensures forall d :: d != c && d in xs ==> d in Filter(xs, Other(c))
  {
    var k :| 0 <= k < |xs| && xs[k] == c;
    assert xs == xs[..k] + xs[k..];
    assert xs[k..] == [c] + xs[k + 1..];
    FilterAppend(xs[..k], xs[k..], Other(c));
    FilterAppend([c], xs[k + 1..], Other(c));
    assert Filter([c], Other(c)) == [] by {
      assert !Other(c)(c);
      assert [c][1..] == [];
    }
    forall d | d != c && d in xs
      ensures d in Filter(xs, Other(c))
    {
      var j :| 0 <= j < |xs| && xs[j] == d;
      assert Other(c)(xs[j]);
    }
  }

  /** The other categories keep their relative order. */
  lemma ToggleKeepsOthers(xs: seq<string>, c: string)
    ensures Filter(ToggleCategory(xs, c), Other(c)) == Filter(xs, Other(c))
  {
    if c in xs {
      FilterIdempotent(xs, Other(c));
    } else {
      FilterAppend(xs, [c], Other(c));
      assert Filter([c], Other(c)) == [] by {
        assert [c][1..] == [];
      }
      assert Filter(xs, Other(c)) + [] == Filter(xs, Other(c));
    }
  }

  lemma FilterIdempotent<T>(s: seq<T>, p: T -> bool)
    ensures Filter(Filter(s, p), p) == Filter(s, p)
  {
    FilterAll(Filter(s, p), p);
  }

  /** Toggling an unselected category twice restores the list. */
  lemma ToggleTwiceAbsent(xs: seq<string>, c: string)
    requires c !in xs
    ensures ToggleCategory(ToggleCategory(xs, c), c) == xs
  {
    var ys := xs + [c];
    FilterAppend(xs, [c], Other(c));
    assert Filter([c], Other(c)) == [] by {
      assert [c][1..] == [];
    }
    forall k | 0 <= k < |xs|
      ensures Other(c)(xs[k])
    {
    }
    FilterAll(xs, Other(c));
  }

  /** Toggling a selected category twice does not restore the list: the
      category moves to the end. */
  lemma ToggleTwicePresentMoves(xs: seq<string>)
    requires xs == ["Mains", "Soup"]
    ensures ToggleCategory(ToggleCategory(xs, "Mains"), "Mains") == ["Soup", "Mains"]
  {
    assert "Mains" in xs;
    assert Filter(xs, Other("Mains")) == ["Soup"] by {
      assert xs[1..] == ["Soup"];
      assert ["Soup"][1..] == [];
    }
  }
}
