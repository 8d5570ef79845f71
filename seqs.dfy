/**
  `Array.prototype.filter` over sequences, with the facts about it that the
  task store needs: which elements survive and how often, that it works
  piecewise (and so keeps the original order), and what it keeps of a
  pairwise relation.
 */
module Seqs {

  /** The elements of `s` that satisfy `p`, in their original order. */
  function Filter<T(!new)>(p: T -> bool, s: seq<T>): (r: seq<T>)
    ensures |r| <= |s|
    ensures forall x :: x in r <==> x in s && p(x)
    ensures forall x :: multiset(r)[x] == if p(x) then multiset(s)[x] else 0
  {
    if s == [] then []
    else
      assert s == [s[0]] + s[1..];
      (if p(s[0]) then [s[0]] else []) + Filter(p, s[1..])
  }

  /** Filtering a concatenation filters each part and concatenates the
      results: surviving elements keep their relative order. */
  lemma {:induction false} FilterAppend<T(!new)>(p: T -> bool, a: seq<T>, b: seq<T>)
    ensures Filter(p, a + b) == Filter(p, a) + Filter(p, b)
  {
    if a == [] {
      assert a + b == b;
    } else {
      assert (a + b)[1..] == a[1..] + b;
      FilterAppend(p, a[1..], b);
    }
  }

  /** When every element passes, filtering changes nothing. */
  lemma {:induction false} FilterKeepsAll<T(!new)>(p: T -> bool, s: seq<T>)
    requires forall x :: x in s ==> p(x)
    ensures Filter(p, s) == s
  {
    if s != [] {
      FilterKeepsAll(p, s[1..]);
    }
  }

  /** When no element passes, filtering leaves nothing. */
  lemma {:induction false} FilterDropsAll<T(!new)>(p: T -> bool, s: seq<T>)
    requires forall x :: x in s ==> !p(x)
    ensures Filter(p, s) == []
  {
    if s != [] {
      FilterDropsAll(p, s[1..]);
    }
  }

  /** Filtering twice with the same test is filtering once. */
  lemma FilterIdempotent<T(!new)>(p: T -> bool, s: seq<T>)
    ensures Filter(p, Filter(p, s)) == Filter(p, s)
  {
    FilterKeepsAll(p, Filter(p, s));
  }

  /** `R` holds of every pair of elements in sequence order. */
  ghost predicate Pairwise<T>(R: (T, T) -> bool, s: seq<T>) {
    forall i, j :: 0 <= i < j < |s| ==> R(s[i], s[j])
  }

  /** Dropping elements keeps every ordered-pair relation. */
  lemma {:induction false} FilterKeepsPairwise<T(!new)>(p: T -> bool, R: (T, T) -> bool, s: seq<T>)
    requires Pairwise(R, s)
    ensures Pairwise(R, Filter(p, s))
  {
    if s != [] {
      var tail := Filter(p, s[1..]);
      assert Pairwise(R, s[1..]) by {
        forall i, j | 0 <= i < j < |s| - 1 ensures R(s[1..][i], s[1..][j]) {
          assert R(s[i + 1], s[j + 1]);
        }
      }
      FilterKeepsPairwise(p, R, s[1..]);
      forall y | y in tail ensures R(s[0], y) {
        var j :| 0 <= j < |s[1..]| && s[1..][j] == y;
        assert R(s[0], s[j + 1]);
      }
    }
  }
}
