/** Table operations shared by the queries: a `where` filter, a `reduce` sum and
    a first-match lookup. Every table is a sequence of rows in table order. */
module Seqs {
  import opened Wrappers

  /** The rows of `s` that satisfy `p`, in their table order. */
  function Filter<T(==,!new)>(s: seq<T>, p: T -> bool): (r: seq<T>)
    ensures |r| <= |s|
    ensures forall x :: x in r <==> x in s && p(x)
    ensures multiset(r) <= multiset(s)
  {
    if |s| == 0 then []
    else
      var init := Filter(s[..|s| - 1], p);
      assert s == s[..|s| - 1] + [s[|s| - 1]];
      if p(s[|s| - 1]) then init + [s[|s| - 1]] else init
  }

  /** `s.reduce((sum, x) => sum + f(x), 0)`: a left fold, so the last row is added last. */
  function Sum<T>(s: seq<T>, f: T -> int): int {
    if |s| == 0 then 0 else Sum(s[..|s| - 1], f) + f(s[|s| - 1])
  }

  /** The first row of `s` that satisfies `p` (Prisma's `findFirst`/`findUnique`). */
  function FindFirst<T>(s: seq<T>, p: T -> bool): (r: Option<T>)
    ensures r.None? <==> forall i :: 0 <= i < |s| ==> !p(s[i])
    ensures r.Some? ==> exists i :: (0 <= i < |s| && s[i] == r.value && p(s[i])
                                     && forall j :: 0 <= j < i ==> !p(s[j]))
  {
    if |s| == 0 then None
    else if p(s[0]) then Some(s[0])
    else
      var r := FindFirst(s[1..], p);
      assert forall i :: 1 <= i < |s| ==> s[i] == s[1..][i - 1];
      if r.Some? then
        ghost var k :| 0 <= k < |s[1..]| && s[1..][k] == r.value && p(s[1..][k])
                       && forall j :: 0 <= j < k ==> !p(s[1..][j]);
        assert s[k + 1] == r.value && forall j :: 0 <= j < k + 1 ==> !p(s[j]);
        r
      else r
  }

  lemma {:induction false} SumAppend<T>(s: seq<T>, x: T, f: T -> int)
    ensures Sum(s + [x], f) == Sum(s, f) + f(x)
  {
    assert (s + [x])[..|s|] == s;
  }

  /** Replacing one element changes the sum by the difference. */
  lemma {:induction false} SumUpdate<T>(s: seq<T>, i: int, x: T, f: T -> int)
    requires 0 <= i < |s|
    ensures Sum(s[i := x], f) == Sum(s, f) - f(s[i]) + f(x)
  {
    var init := s[..|s| - 1];
    if i == |s| - 1 {
      assert s[i := x] == init + [x];
      SumAppend(init, x, f);
    } else {
      assert s[i := x] == init[i := x] + [s[|s| - 1]];
      SumAppend(init[i := x], s[|s| - 1], f);
      SumUpdate(init, i, x, f);
    }
  }

  lemma {:induction false} SumPrepend<T>(x: T, s: seq<T>, f: T -> int)
    ensures Sum([x] + s, f) == f(x) + Sum(s, f)
    decreases |s|
  {
    if |s| == 0 {
      assert [x] + s == [x];
      assert [x][..0] == [];
    } else {
      var init := s[..|s| - 1];
      assert [x] + s == ([x] + init) + [s[|s| - 1]];
      SumAppend([x] + init, s[|s| - 1], f);
      SumPrepend(x, init, f);
      SumAppend(init, s[|s| - 1], f);
      assert init + [s[|s| - 1]] == s;
    }
  }

  /** Splitting a table by a second condition splits its sum: what the rows that
      satisfy `q` add up to, plus what the others add up to, is the whole sum. */
  lemma {:induction false} SumSplit<T(!new)>(s: seq<T>, q: T -> bool, notQ: T -> bool, f: T -> int)
    requires forall x :: notQ(x) == !q(x)
    ensures Sum(s, f) == Sum(Filter(s, q), f) + Sum(Filter(s, notQ), f)
  {
    if |s| > 0 {
      var init, last := s[..|s| - 1], s[|s| - 1];
      SumSplit(init, q, notQ, f);
      if q(last) {
        SumAppend(Filter(init, q), last, f);
      } else {
        SumAppend(Filter(init, notQ), last, f);
      }
    }
  }

  /** Filtering with a stronger condition keeps a sub-multiset of the rows. */
  lemma {:induction false} FilterStronger<T(!new)>(s: seq<T>, p: T -> bool, q: T -> bool)
    requires forall x :: q(x) ==> p(x)
    ensures multiset(Filter(s, q)) <= multiset(Filter(s, p))
  {
    if |s| > 0 {
      FilterStronger(s[..|s| - 1], p, q);
    }
  }

  /** Filtering twice is filtering once by both conditions. */
  lemma {:induction false} FilterFilter<T(!new)>(s: seq<T>, p: T -> bool, q: T -> bool, pq: T -> bool)
    requires forall x :: pq(x) == (p(x) && q(x))
    ensures Filter(Filter(s, p), q) == Filter(s, pq)
  {
    if |s| > 0 {
      FilterFilter(s[..|s| - 1], p, q, pq);
      var init := Filter(s[..|s| - 1], p);
      if p(s[|s| - 1]) {
        assert (init + [s[|s| - 1]])[..|init|] == init;
      }
    }
  }

  lemma {:induction false} FilterAppend<T(!new)>(s: seq<T>, x: T, p: T -> bool)
    ensures Filter(s + [x], p) == if p(x) then Filter(s, p) + [x] else Filter(s, p)
  {
    assert (s + [x])[..|s|] == s;
  }

  /** Rows that no row of the table satisfies leave nothing after filtering. */
  lemma {:induction false} FilterNone<T(!new)>(s: seq<T>, p: T -> bool)
    requires forall x :: x in s ==> !p(x)
    ensures Filter(s, p) == []
  {
    if |s| > 0 {
      assert s[..|s| - 1] <= s;
      FilterNone(s[..|s| - 1], p);
    }
  }

  /** `rel` holds between every row and every later row. */
  ghost predicate Pairwise<T>(s: seq<T>, rel: (T, T) -> bool) {
    forall i, j :: 0 <= i < j < |s| ==> rel(s[i], s[j])
  }

  /** Filtering keeps the order of the rows, so it keeps every pairwise property. */
  lemma {:induction false} FilterPairwise<T(!new)>(s: seq<T>, p: T -> bool, rel: (T, T) -> bool)
    requires Pairwise(s, rel)
    ensures Pairwise(Filter(s, p), rel)
  {
    if |s| > 0 {
      var init, last := s[..|s| - 1], s[|s| - 1];
      FilterAppend(init, last, p);
      assert s == init + [last];
      PairwiseInit(init, last, rel);
      FilterPairwise(init, p, rel);
      if p(last) {
        var f := Filter(init, p);
        RelatedToLast(init, last, f, rel);
        PairwiseAppend(f, last, rel);
      }
    }
  }

  lemma PairwiseInit<T>(init: seq<T>, last: T, rel: (T, T) -> bool)
    requires Pairwise(init + [last], rel)
    ensures Pairwise(init, rel)
    ensures forall x :: x in init ==> rel(x, last)
  {
    var s := init + [last];
    forall x | x in init ensures rel(x, last) {
      var k :| 0 <= k < |init| && init[k] == x;
      assert s[k] == x && s[|init|] == last;
    }
    forall i, j | 0 <= i < j < |init| ensures rel(init[i], init[j]) {
      assert s[i] == init[i] && s[j] == init[j];
    }
  }

  lemma RelatedToLast<T>(init: seq<T>, last: T, f: seq<T>, rel: (T, T) -> bool)
    requires forall x :: x in init ==> rel(x, last)
    requires forall x :: x in f ==> x in init
    ensures forall i :: 0 <= i < |f| ==> rel(f[i], last)
  {
    forall i | 0 <= i < |f| ensures rel(f[i], last) {
      assert f[i] in f;
    }
  }

  lemma PairwiseAppend<T>(f: seq<T>, last: T, rel: (T, T) -> bool)
    requires Pairwise(f, rel)
    requires forall i :: 0 <= i < |f| ==> rel(f[i], last)
    ensures Pairwise(f + [last], rel)
  {
    var r := f + [last];
    forall i, j | 0 <= i < j < |r| ensures rel(r[i], r[j]) {
      if j < |f| {
        assert r[i] == f[i] && r[j] == f[j];
      } else {
        assert r[i] == f[i] && r[j] == last;
      }
    }
  }
}
