/** Order-preserving filtering and duplicate removal over sequences: the
    `Array.prototype.filter` and `Array.from(new Set(...))` idioms. */
module Seqs {

  /** Keeps the elements satisfying `p`, in order. */
  function Filter<T>(s: seq<T>, p: T -> bool): (r: seq<T>)
    ensures |r| <= |s|
    ensures forall k :: 0 <= k < |r| ==> p(r[k])
    ensures forall k :: 0 <= k < |r| ==> r[k] in s
    ensures forall k :: 0 <= k < |s| && p(s[k]) ==> s[k] in r
    decreases |s|
  {
    if |s| == 0 then []
    else if p(s[0]) then [s[0]] + Filter(s[1..], p)
    else Filter(s[1..], p)
  }

  /** Filtering keeps every passing value as often as it occurs, and no
      failing one. */
  lemma {:induction false} FilterCounts<T>(s: seq<T>, p: T -> bool)
    ensures forall k :: 0 <= k < |s| ==>
              multiset(Filter(s, p))[s[k]] == if p(s[k]) then multiset(s)[s[k]] else 0
    decreases |s|
  {
    if |s| > 0 {
      FilterCounts(s[1..], p);
      assert s == [s[0]] + s[1..];
      var rest := Filter(s[1..], p);
      forall k | 0 <= k < |s|
        ensures multiset(Filter(s, p))[s[k]] == if p(s[k]) then multiset(s)[s[k]] else 0
      {
        if k > 0 {
          assert s[k] == s[1..][k - 1];
        }
        if s[k] !in s[1..] {
          assert multiset(s[1..])[s[k]] == 0;
          assert multiset(rest)[s[k]] == 0;
        }
      }
    }
  }

  /** `a` occurs in `b` in the same order, possibly with gaps. */
  predicate IsSubsequence<T(==)>(a: seq<T>, b: seq<T>)
    decreases |b|
  {
    if |a| == 0 then true
    else if |b| == 0 then false
    else if a[0] == b[0] then IsSubsequence(a[1..], b[1..])
    else IsSubsequence(a, b[1..])
  }

  predicate NoDuplicates<T(==)>(s: seq<T>) {
    forall i, j :: 0 <= i < j < |s| ==> s[i] != s[j]
  }

  lemma {:induction false} FilterIsSubsequence<T>(s: seq<T>, p: T -> bool)
    ensures IsSubsequence(Filter(s, p), s)
    decreases |s|
  {
    if |s| > 0 {
      FilterIsSubsequence(s[1..], p);
      if !p(s[0]) {
        assert s == [s[0]] + s[1..];
        SubsequenceCons(Filter(s[1..], p), s[1..], s[0]);
      }
    }
  }

  /** A subsequence of `t` stays one when an element is put in front of `t`. */
  lemma {:induction false} SubsequenceCons<T>(a: seq<T>, t: seq<T>, x: T)
    requires IsSubsequence(a, t)
    ensures IsSubsequence(a, [x] + t)
    decreases |t|, 1
  {
    assert ([x] + t)[1..] == t;
    if |a| > 0 && a[0] == x {
      SubsequenceTail(a, t);
    }
  }

  /** Dropping the head of a non-empty subsequence keeps it a subsequence. */
  lemma {:induction false} SubsequenceTail<T>(a: seq<T>, b: seq<T>)
    requires |a| > 0
    requires IsSubsequence(a, b)
    ensures IsSubsequence(a[1..], b)
    decreases |b|, 0
  {
    assert |b| > 0;
    assert b == [b[0]] + b[1..];
    if a[0] == b[0] {
      SubsequenceCons(a[1..], b[1..], b[0]);
    } else {
      SubsequenceTail(a, b[1..]);
      SubsequenceCons(a[1..], b[1..], b[0]);
    }
  }

  lemma {:induction false} FilterAppend<T>(a: seq<T>, b: seq<T>, p: T -> bool)
    ensures Filter(a + b, p) == Filter(a, p) + Filter(b, p)
    decreases |a|
  {
    if |a| > 0 {
      assert (a + b)[1..] == a[1..] + b;
      FilterAppend(a[1..], b, p);
    } else {
      assert a + b == b;
    }
  }

  /** Filtering keeps everything when every element passes. */
  lemma {:induction false} FilterAll<T>(s: seq<T>, p: T -> bool)
    requires forall k :: 0 <= k < |s| ==> p(s[k])
    ensures Filter(s, p) == s
    decreases |s|
  {
    if |s| > 0 {
      FilterAll(s[1..], p);
    }
  }

  /** Filtering keeps nothing when no element passes. */
  lemma {:induction false} FilterNone<T>(s: seq<T>, p: T -> bool)
    requires forall k :: 0 <= k < |s| ==> !p(s[k])
    ensures Filter(s, p) == []
    decreases |s|
  {
    if |s| > 0 {
      FilterNone(s[1..], p);
    }
  }

  /** Filtering a duplicate-free sequence keeps it duplicate-free. */
  lemma {:induction false} FilterKeepsDistinct<T>(s: seq<T>, p: T -> bool)
    requires NoDuplicates(s)
    ensures NoDuplicates(Filter(s, p))
    decreases |s|
  {
    if |s| > 0 {
      FilterKeepsDistinct(s[1..], p);
      var rest := Filter(s[1..], p);
      assert s[0] !in s[1..];
      assert forall k :: 0 <= k < |rest| ==> rest[k] != s[0];
    }
  }

  /** The position where `x` first occurs in `s`. */
  function FirstIndex<T(==)>(s: seq<T>, x: T): (i: nat)
    requires x in s
    ensures i < |s| && s[i] == x && x !in s[..i]
  {
    if s[0] == x then 0
    else
      assert s == [s[0]] + s[1..];
      var i := 1 + FirstIndex(s[1..], x);
      assert s[..i] == [s[0]] + s[1..][..i - 1];
      i
  }

  /** The first occurrence is the only one with nothing equal before it. */
  lemma FirstIndexUnique<T>(s: seq<T>, x: T, i: nat)
    requires i < |s| && s[i] == x && x !in s[..i]
    ensures FirstIndex(s, x) == i
  {
    var j := FirstIndex(s, x);
    assert forall k :: 0 <= k < i ==> s[..i][k] == s[k];
    assert forall k :: 0 <= k < j ==> s[..j][k] == s[k];
  }

  /** Appending to a sequence leaves the first positions of its values alone. */
  lemma FirstIndexAppend<T>(a: seq<T>, b: seq<T>, x: T)
    requires x in a
    ensures x in a + b && FirstIndex(a + b, x) == FirstIndex(a, x)
  {
    var i := FirstIndex(a, x);
    assert (a + b)[..i] == a[..i];
    FirstIndexUnique(a + b, x, i);
  }

  /** Where `x` first occurs in `s`, or `|s|` when it does not occur. */
  function Rank<T(==)>(s: seq<T>, x: T): (i: nat)
    ensures x in s ==> i == FirstIndex(s, x)
    ensures x !in s ==> i == |s|
  {
    if x in s then FirstIndex(s, x) else |s|
  }

  /** Filtering keeps the relative order of the survivors. */
  lemma {:induction false} FilterKeepsOrder<T>(s: seq<T>, p: T -> bool, t: seq<T>)
    requires forall i, j :: 0 <= i < j < |s| ==> Rank(t, s[i]) < Rank(t, s[j])
    ensures forall i, j :: 0 <= i < j < |Filter(s, p)| ==>
              Rank(t, Filter(s, p)[i]) < Rank(t, Filter(s, p)[j])
    decreases |s|
  {
    if |s| > 0 && p(s[0]) {
      FilterKeepsOrder(s[1..], p, t);
      HeadRanksFirst(s, Filter(s[1..], p), t);
    } else if |s| > 0 {
      FilterKeepsOrder(s[1..], p, t);
    }
  }

  /** The head of a rank-ordered sequence, put before survivors of its tail,
      keeps the order. */
  lemma HeadRanksFirst<T>(s: seq<T>, rest: seq<T>, t: seq<T>)
    requires |s| > 0
    requires forall i, j :: 0 <= i < j < |s| ==> Rank(t, s[i]) < Rank(t, s[j])
    requires forall k :: 0 <= k < |rest| ==> rest[k] in s[1..]
    requires forall i, j :: 0 <= i < j < |rest| ==> Rank(t, rest[i]) < Rank(t, rest[j])
    ensures forall i, j :: 0 <= i < j < |[s[0]] + rest| ==>
              Rank(t, ([s[0]] + rest)[i]) < Rank(t, ([s[0]] + rest)[j])
  {
    var r := [s[0]] + rest;
    forall i, j | 0 <= i < j < |r|
      ensures Rank(t, r[i]) < Rank(t, r[j])
    {
      assert r[j] == rest[j - 1];
      if i == 0 {
        var m :| 0 <= m < |s[1..]| && s[1..][m] == rest[j - 1];
        assert s[m + 1] == r[j];
      } else {
        assert r[i] == rest[i - 1];
      }
    }
  }

  /** Removes later duplicates, keeping each value at its first position. */
  function Dedup<T(==)>(s: seq<T>): (r: seq<T>)
    ensures NoDuplicates(r)
    ensures forall k :: 0 <= k < |r| ==> r[k] in s
    ensures forall k :: 0 <= k < |s| ==> s[k] in r
    decreases |s|
  {
    if |s| == 0 then []
    else
      var d := Dedup(s[..|s| - 1]);
      var last := s[|s| - 1];
      assert s == s[..|s| - 1] + [last];
      if last in d then d else d + [last]
  }

  /** The survivors of `Dedup` appear in the order of their first
      occurrences in the input. */
  lemma {:induction false} DedupKeepsFirstOrder<T>(s: seq<T>)
    ensures forall i, j :: 0 <= i < j < |Dedup(s)| ==>
              FirstIndex(s, Dedup(s)[i]) < FirstIndex(s, Dedup(s)[j])
    decreases |s|
  {
    if |s| > 0 {
      var front := s[..|s| - 1];
      var last := s[|s| - 1];
      var d := Dedup(front);
      DedupKeepsFirstOrder(front);
      assert s == front + [last];
      assert Dedup(s) == if last in d then d else d + [last];
      OrderAfterAppend(front, d, last);
    }
  }

  /** Filtering after `Dedup` leaves the survivors in the order of their
      first occurrences. */
  lemma DedupFilterOrder<T>(s: seq<T>, p: T -> bool)
    ensures forall i, j :: 0 <= i < j < |Filter(Dedup(s), p)| ==>
              Rank(s, Filter(Dedup(s), p)[i]) < Rank(s, Filter(Dedup(s), p)[j])
  {
    var d := Dedup(s);
    DedupKeepsFirstOrder(s);
    assert forall i, j :: 0 <= i < j < |d| ==> Rank(s, d[i]) < Rank(s, d[j]);
    FilterKeepsOrder(d, p, s);
  }

  /** One step of `Dedup`: appending `last` keeps the order of first
      occurrences, whether `last` is new or already kept. */
  lemma OrderAfterAppend<T>(front: seq<T>, d: seq<T>, last: T)
    requires forall k :: 0 <= k < |d| ==> d[k] in front
    requires forall k :: 0 <= k < |front| ==> front[k] in d
    requires forall i, j :: 0 <= i < j < |d| ==> FirstIndex(front, d[i]) < FirstIndex(front, d[j])
    ensures last in d ==>
              forall i, j :: 0 <= i < j < |d| ==>
                FirstIndex(front + [last], d[i]) < FirstIndex(front + [last], d[j])
    ensures last !in d ==>
              forall i, j :: 0 <= i < j < |d + [last]| ==>
                FirstIndex(front + [last], (d + [last])[i]) < FirstIndex(front + [last], (d + [last])[j])
  {
    OrderKept(front, d, [last]);
    if last !in d {
      assert last !in front;
      OrderExtended(front, d, last);
    }
  }

  /** Appending anything keeps the order of values already present. */
  lemma OrderKept<T>(front: seq<T>, d: seq<T>, tail: seq<T>)
    requires forall k :: 0 <= k < |d| ==> d[k] in front
    requires forall i, j :: 0 <= i < j < |d| ==> FirstIndex(front, d[i]) < FirstIndex(front, d[j])
    ensures forall i, j :: 0 <= i < j < |d| ==> FirstIndex(front + tail, d[i]) < FirstIndex(front + tail, d[j])
  {
    forall i, j | 0 <= i < j < |d|
      ensures FirstIndex(front + tail, d[i]) < FirstIndex(front + tail, d[j])
    {
      FirstIndexAppend(front, tail, d[i]);
      FirstIndexAppend(front, tail, d[j]);
    }
  }

  /** A value new to `front`, appended, comes after every value of it. */
  lemma OrderExtended<T>(front: seq<T>, d: seq<T>, last: T)
    requires forall k :: 0 <= k < |d| ==> d[k] in front
    requires last !in front
    requires forall i, j :: 0 <= i < j < |d| ==> FirstIndex(front + [last], d[i]) < FirstIndex(front + [last], d[j])
    ensures var s := front + [last];
            var r := d + [last];
            forall i, j :: 0 <= i < j < |r| ==> FirstIndex(s, r[i]) < FirstIndex(s, r[j])
  {
    var s := front + [last];
    var r := d + [last];
    assert s[..|front|] == front;
    FirstIndexUnique(s, last, |front|);
    forall i | 0 <= i < |d|
      ensures FirstIndex(s, d[i]) < |front|
    {
      FirstIndexAppend(front, [last], d[i]);
    }
    forall i, j | 0 <= i < j < |r|
      ensures FirstIndex(s, r[i]) < FirstIndex(s, r[j])
    {
      if j < |d| {
        assert r[i] == d[i] && r[j] == d[j];
      } else {
        assert r[i] == d[i] && r[j] == last;
      }
    }
  }

  /** A duplicate-free prefix survives `Dedup` unchanged. */
  lemma {:induction false} DedupKeepsDistinctPrefix<T>(a: seq<T>, b: seq<T>)
    requires NoDuplicates(a)
    ensures |Dedup(a + b)| >= |a|
    ensures Dedup(a + b)[..|a|] == a
    decreases |b|
  {
    if |b| == 0 {
      assert a + b == a;
      DedupDistinct(a);
    } else {
      var b' := b[..|b| - 1];
      assert (a + b)[..|a + b| - 1] == a + b';
      DedupKeepsDistinctPrefix(a, b');
    }
  }

  lemma {:induction false} DedupDistinct<T>(a: seq<T>)
    requires NoDuplicates(a)
    ensures Dedup(a) == a
    decreases |a|
  {
    if |a| > 0 {
      var a' := a[..|a| - 1];
      DedupDistinct(a');
      assert a[|a| - 1] !in a';
      assert a == a' + [a[|a| - 1]];
    }
  }
}
