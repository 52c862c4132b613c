/**
  Sequence helpers shared by the model: the order-preserving `filter` every
  view of the source is built from, and what it means for one sequence to be
  an order-preserving subsequence of another.
 */
module Seqs {

  /** `a` can be obtained from `b` by deleting elements, keeping the order. */
  predicate IsSubsequence<T(==)>(a: seq<T>, b: seq<T>)
    decreases |b|
  {
    if a == [] then true
    else if b == [] then false
    else if a[0] == b[0] then IsSubsequence(a[1..], b[1..])
    else IsSubsequence(a, b[1..])
  }

  /** The elements of `s` that satisfy `p`, in their original order (JavaScript `Array.prototype.filter`). */
  function Filter<T(==,!new)>(s: seq<T>, p: T -> bool): (r: seq<T>)
    ensures |r| <= |s|
    ensures IsSubsequence(r, s)
    ensures forall x :: x in r <==> x in s && p(x)
  {
    if s == [] then []
    else
      var rest := Filter(s[1..], p);
      assert s == [s[0]] + s[1..];
      if p(s[0]) then
        [s[0]] + rest
      else
        assert rest != [] ==> rest[0] != s[0] by {
          if rest != [] { assert rest[0] in rest; }
        }
        rest
  }

  /** Each element is kept as often as it occurs in `s` if it passes, and not at all otherwise. */
  lemma {:induction false} FilterCounts<T(!new)>(s: seq<T>, p: T -> bool)
    ensures forall x :: multiset(Filter(s, p))[x] == if p(x) then multiset(s)[x] else 0
  {
    if s != [] {
      FilterCounts(s[1..], p);
      assert s == [s[0]] + s[1..];
      assert multiset(s) == multiset{s[0]} + multiset(s[1..]);
      if p(s[0]) {
        assert Filter(s, p) == [s[0]] + Filter(s[1..], p);
        assert multiset(Filter(s, p)) == multiset{s[0]} + multiset(Filter(s[1..], p));
      }
    }
  }

  /** One step of `Filter`: the head is kept exactly when it passes. */
  lemma FilterCons<T(!new)>(x: T, s: seq<T>, p: T -> bool)
    ensures Filter([x] + s, p) == (if p(x) then [x] else []) + Filter(s, p)
  {
    assert ([x] + s)[1..] == s;
  }

  /**
    `r` holds exactly the elements of `s` that pass both the first-stage
    filter `p` and the second-stage filter `q`, each as often as in `s`,
    in the order of `s`.
   */
  ghost predicate FiltersBy<T(!new)>(r: seq<T>, s: seq<T>, p: T -> bool, q: T -> bool)
  {
    && IsSubsequence(r, s)
    && (forall x :: x in r <==> x in s && p(x) && q(x))
    && (forall x :: multiset(r)[x] == if p(x) && q(x) then multiset(s)[x] else 0)
  }

  /** Filtering once with `p` and once with `q` is filtering once with their conjunction. */
  lemma {:induction false} FilterFilter<T(!new)>(s: seq<T>, p: T -> bool, q: T -> bool, pq: T -> bool)
    requires forall x :: pq(x) == (p(x) && q(x))
    ensures Filter(Filter(s, p), q) == Filter(s, pq)
  {
    if s != [] {
      FilterFilter(s[1..], p, q, pq);
    }
  }

  /** A two-stage filter, as the source writes each restriction, selects exactly what both stages accept. */
  lemma TwoStageFilter<T(!new)>(s: seq<T>, p: T -> bool, q: T -> bool)
    ensures FiltersBy(Filter(Filter(s, p), q), s, p, q)
  {
    FilterFilter(s, p, q, x => p(x) && q(x));
    FilterCounts(s, x => p(x) && q(x));
  }

  /** Two filters that agree wherever `keep` holds leave the same elements passing `keep`. */
  lemma {:induction false} FilterAgreeingWhereKept<T(!new)>(s: seq<T>, p: T -> bool, q: T -> bool, keep: T -> bool)
    requires forall x :: keep(x) ==> p(x) == q(x)
    ensures Filter(Filter(s, p), keep) == Filter(Filter(s, q), keep)
  {
    if s != [] {
      FilterAgreeingWhereKept(s[1..], p, q, keep);
      assert s == [s[0]] + s[1..];
      FilterCons(s[0], s[1..], p);
      FilterCons(s[0], s[1..], q);
      if p(s[0]) {
        FilterCons(s[0], Filter(s[1..], p), keep);
      }
      if q(s[0]) {
        FilterCons(s[0], Filter(s[1..], q), keep);
      }
    }
  }

  /** Applying a filter a second time changes nothing. */
  lemma FilterIdempotent<T(!new)>(s: seq<T>, p: T -> bool)
    ensures Filter(Filter(s, p), p) == Filter(s, p)
  {
    FilterFilter(s, p, p, p);
  }

  /** Removing every occurrence of `x` shortens `s` by the number of those occurrences. */
  lemma {:induction false} FilterOutLength<T(!new)>(s: seq<T>, x: T, notX: T -> bool)
    requires forall y :: notX(y) == (y != x)
    ensures |Filter(s, notX)| + multiset(s)[x] == |s|
  {
    if s != [] {
      FilterOutLength(s[1..], x, notX);
      assert s == [s[0]] + s[1..];
      assert multiset(s)[x] == multiset(s[1..])[x] + (if s[0] == x then 1 else 0);
      assert |Filter(s, notX)| == |Filter(s[1..], notX)| + (if s[0] == x then 0 else 1);
    }
  }

  /** No element occurs twice. */
  predicate Distinct<T(==)>(s: seq<T>)
  {
    forall i, j :: 0 <= i < j < |s| ==> s[i] != s[j]
  }

  /** Filtering a sequence without repetitions gives one without repetitions. */
  lemma {:induction false} FilterDistinct<T(!new)>(s: seq<T>, p: T -> bool)
    requires Distinct(s)
    ensures Distinct(Filter(s, p))
  {
    if s != [] {
      assert Distinct(s[1..]);
      FilterDistinct(s[1..], p);
      assert s[0] !in s[1..];
    }
  }

  /** In a sequence without repeats, an element occurs once if present and not at all otherwise. */
  lemma {:induction false} DistinctCountAtMostOne<T>(s: seq<T>, x: T)
    requires Distinct(s)
    ensures multiset(s)[x] == if x in s then 1 else 0
  {
    if s != [] {
      assert s == [s[0]] + s[1..];
      assert Distinct(s[1..]);
      DistinctCountAtMostOne(s[1..], x);
      assert s[0] !in s[1..];
    }
  }

  /**
    Two sequences without repeats that agree once `x` is removed, and of
    which exactly one holds `x`, differ in length by one.
   */
  lemma DifferByOneElement<T(!new)>(a: seq<T>, b: seq<T>, x: T, notX: T -> bool)
    requires forall y :: notX(y) == (y != x)
    requires Distinct(a) && Distinct(b)
    requires (x in a) != (x in b)
    requires Filter(a, notX) == Filter(b, notX)
    ensures |a| == |b| + 1 || |b| == |a| + 1
  {
    FilterOutLength(a, x, notX);
    FilterOutLength(b, x, notX);
    DistinctCountAtMostOne(a, x);
    DistinctCountAtMostOne(b, x);
  }
}
