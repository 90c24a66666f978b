/** Python's ordering of `str` values (code point by code point, a proper prefix first)
    and the two sorts the source uses: `sorted(xs)` and `sorted(set(xs))`. */
module Ordering {

  /** Python's `a < b` on strings. */
  predicate Less(a: string, b: string)
    decreases |a|
  {
    if |a| == 0 then |b| > 0
    else if |b| == 0 then false
    else if a[0] != b[0] then a[0] < b[0]
    else Less(a[1..], b[1..])
  }

  lemma {:induction false} LessIrreflexive(a: string)
    ensures !Less(a, a)
    decreases |a|
  {
    if |a| > 0 {
      LessIrreflexive(a[1..]);
    }
  }

  lemma {:induction false} LessAsymmetric(a: string, b: string)
    requires Less(a, b)
    ensures !Less(b, a)
    decreases |a|
  {
    if |a| > 0 && |b| > 0 && a[0] == b[0] {
      LessAsymmetric(a[1..], b[1..]);
    }
  }

  lemma {:induction false} LessTransitive(a: string, b: string, c: string)
    requires Less(a, b) && Less(b, c)
    ensures Less(a, c)
    decreases |a|
  {
    if |a| > 0 && a[0] == b[0] && b[0] == c[0] {
      LessTransitive(a[1..], b[1..], c[1..]);
    }
  }

  lemma {:induction false} LessTotal(a: string, b: string)
    requires a != b
    ensures Less(a, b) || Less(b, a)
    decreases |a|
  {
    if |a| > 0 && |b| > 0 && a[0] == b[0] {
      assert a == [a[0]] + a[1..] && b == [b[0]] + b[1..];
      LessTotal(a[1..], b[1..]);
    }
  }

  /** Strictly ascending: what `sorted(set(xs))` returns. */
  predicate StrictlySorted(s: seq<string>) {
    forall i :: 0 < i < |s| ==> Less(s[i - 1], s[i])
  }

  /** Ascending with repeats allowed: what `sorted(xs)` returns. */
  predicate Sorted(s: seq<string>) {
    forall i :: 0 < i < |s| ==> !Less(s[i], s[i - 1])
  }

  /** A strictly ascending list is ascending between any two positions, so it holds
      no duplicates. */
  lemma {:induction false} StrictlySortedPairwise(s: seq<string>)
    requires StrictlySorted(s)
    ensures forall i, j :: 0 <= i < j < |s| ==> Less(s[i], s[j])
    ensures forall i, j :: 0 <= i < j < |s| ==> s[i] != s[j]
  {
    forall i, j | 0 <= i < j < |s|
      ensures Less(s[i], s[j])
    {
      StrictlySortedFrom(s, i, j);
    }
    forall i, j | 0 <= i < j < |s|
      ensures s[i] != s[j]
    {
      LessIrreflexive(s[i]);
    }
  }

  /** A strictly ascending list has as many entries as distinct elements. */
  lemma {:induction false} StrictlySortedCard(s: seq<string>)
    requires StrictlySorted(s)
    ensures |set p | p in s| == |s|
  {
    if |s| > 0 {
      var t := s[1..];
      assert StrictlySorted(t);
      StrictlySortedCard(t);
      StrictlySortedPairwise(s);
      assert s[0] !in t;
      assert (set p | p in s) == {s[0]} + (set p | p in t);
    }
  }

  lemma {:induction false} StrictlySortedFrom(s: seq<string>, i: nat, j: nat)
    requires StrictlySorted(s) && i < j < |s|
    ensures Less(s[i], s[j])
    decreases j - i
  {
    if i + 1 < j {
      StrictlySortedFrom(s, i + 1, j);
      LessTransitive(s[i], s[i + 1], s[j]);
    }
  }

  /** Inserts `x` into a strictly ascending list, dropping it when already present. */
  function InsertUnique(x: string, s: seq<string>): (r: seq<string>)
    requires StrictlySorted(s)
    ensures StrictlySorted(r)
    ensures forall y :: y in r <==> y == x || y in s
    ensures |r| > 0 && (r[0] == x || (|s| > 0 && r[0] == s[0]))
  {
    if |s| == 0 then [x]
    else if x == s[0] then s
    else if Less(x, s[0]) then [x] + s
    else
      LessTotal(x, s[0]);
      var t := InsertUnique(x, s[1..]);
      assert forall y :: y in s <==> y == s[0] || y in s[1..];
      [s[0]] + t
  }

  /** Python's `sorted(set(xs))`: strictly ascending, holding exactly the elements of
      `xs`. */
  function SortedUnique(xs: seq<string>): (r: seq<string>)
    ensures StrictlySorted(r)
    ensures forall y :: y in r <==> y in xs
  {
    if |xs| == 0 then []
    else
      var r := InsertUnique(xs[0], SortedUnique(xs[1..]));
      assert forall y :: y in xs <==> y == xs[0] || y in xs[1..];
      r
  }

  /** Two strictly ascending lists with the same elements are equal: the result of
      `sorted(set(xs))` depends only on the set of `xs`, not on order or repeats. */
  lemma {:induction false} StrictlySortedUniqueness(a: seq<string>, b: seq<string>)
    requires StrictlySorted(a) && StrictlySorted(b)
    requires forall y :: y in a <==> y in b
    ensures a == b
    decreases |a|
  {
    if |a| == 0 {
      HeadIn(b);
    } else {
      assert a[0] in b;
      assert |b| > 0;
      StrictlySortedPairwise(a);
      StrictlySortedPairwise(b);
      if a[0] != b[0] {
        var j :| 0 <= j < |b| && b[j] == a[0];
        assert b[0] in a;
        var k :| 0 <= k < |a| && a[k] == b[0];
        assert j > 0 && k > 0;
        LessAsymmetric(b[0], a[0]);
        assert false;
      }
      assert forall y :: y in a[1..] <==> y in b[1..] by {
        forall y ensures y in a[1..] <==> y in b[1..] {
          if y in a[1..] {
            var i :| 1 <= i < |a| && a[i] == y;
            assert y != a[0];
            assert y in b;
            var j :| 0 <= j < |b| && b[j] == y;
            assert j != 0;
          }
          if y in b[1..] {
            var i :| 1 <= i < |b| && b[i] == y;
            assert y != b[0];
            assert y in a;
            var j :| 0 <= j < |a| && a[j] == y;
            assert j != 0;
          }
        }
      }
      StrictlySortedUniqueness(a[1..], b[1..]);
      assert a == [a[0]] + a[1..] && b == [b[0]] + b[1..];
    }
  }

  lemma HeadIn(s: seq<string>)
    ensures |s| == 0 || s[0] in s
  {
  }

  /** `sorted(set(xs))` of a list that is already strictly ascending is the list. */
  lemma SortedUniqueOfSorted(xs: seq<string>)
    requires StrictlySorted(xs)
    ensures SortedUnique(xs) == xs
  {
    StrictlySortedUniqueness(SortedUnique(xs), xs);
  }

  /** Inserts `x` into an ascending list, keeping repeats. */
  function InsertSorted(x: string, s: seq<string>): (r: seq<string>)
    requires Sorted(s)
    ensures Sorted(r)
    ensures multiset(r) == multiset(s) + multiset{x}
    ensures |r| > 0 && (r[0] == x || (|s| > 0 && r[0] == s[0]))
  {
    if |s| == 0 then [x]
    else if !Less(s[0], x) then [x] + s
    else
      LessAsymmetric(s[0], x);
      var t := InsertSorted(x, s[1..]);
      assert s == [s[0]] + s[1..];
      [s[0]] + t
  }

  /** Python's `sorted(xs)`: ascending and a permutation of `xs`. */
  function Sort(xs: seq<string>): (r: seq<string>)
    ensures Sorted(r)
    ensures multiset(r) == multiset(xs)
  {
    if |xs| == 0 then []
    else
      assert xs == [xs[0]] + xs[1..];
      InsertSorted(xs[0], Sort(xs[1..]))
  }
}
