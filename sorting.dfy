/** `orderBy` and `Array.prototype.sort`: an insertion sort by a total preorder. */
module Sorting {
  import Seqs

  ghost predicate TotalPreorder<T(!new)>(le: (T, T) -> bool) {
    && (forall a, b :: le(a, b) || le(b, a))
    && (forall a, b, c :: le(a, b) && le(b, c) ==> le(a, c))
  }

  ghost predicate SortedBy<T>(s: seq<T>, le: (T, T) -> bool) {
    forall i, j :: 0 <= i < j < |s| ==> le(s[i], s[j])
  }

  function Insert<T(==)>(x: T, s: seq<T>, le: (T, T) -> bool): (r: seq<T>)
    ensures |r| == |s| + 1
    ensures multiset(r) == multiset(s) + multiset{x}
  {
    if |s| == 0 then [x]
    else if le(x, s[0]) then [x] + s
    else
      assert s == [s[0]] + s[1..];
      [s[0]] + Insert(x, s[1..], le)
  }

  /** The rows of `s` rearranged so that `le` holds between every earlier and later row. */
  function Sort<T(==)>(s: seq<T>, le: (T, T) -> bool): (r: seq<T>)
    ensures |r| == |s|
    ensures multiset(r) == multiset(s)
  {
    if |s| == 0 then []
    else
      assert s == [s[0]] + s[1..];
      Insert(s[0], Sort(s[1..], le), le)
  }

  lemma {:induction false} InsertSorted<T(!new)>(x: T, s: seq<T>, le: (T, T) -> bool)
    requires TotalPreorder(le)
    requires SortedBy(s, le)
    ensures SortedBy(Insert(x, s, le), le)
  {
    if |s| > 0 && !le(x, s[0]) {
      var t := s[1..];
      assert SortedBy(t, le);
      InsertSorted(x, t, le);
      var r := Insert(x, t, le);
      assert le(s[0], x);
      forall k | 0 <= k < |r| ensures le(s[0], r[k]) {
        assert r[k] in multiset(r);
        assert r[k] in multiset(t) + multiset{x};
        if r[k] != x {
          assert r[k] in t;
          var m :| 0 <= m < |t| && t[m] == r[k];
          assert s[m + 1] == t[m];
        }
      }
    }
  }

  lemma {:induction false} SortSorted<T(!new)>(s: seq<T>, le: (T, T) -> bool)
    requires TotalPreorder(le)
    ensures SortedBy(Sort(s, le), le)
  {
    if |s| > 0 {
      SortSorted(s[1..], le);
      InsertSorted(s[0], Sort(s[1..], le), le);
    }
  }

  lemma {:induction false} InsertSum<T>(x: T, s: seq<T>, le: (T, T) -> bool, f: T -> int)
    ensures Seqs.Sum(Insert(x, s, le), f) == f(x) + Seqs.Sum(s, f)
  {
    if |s| == 0 {
      Seqs.SumPrepend(x, s, f);
    } else if le(x, s[0]) {
      Seqs.SumPrepend(x, s, f);
    } else {
      InsertSum(x, s[1..], le, f);
      Seqs.SumPrepend(s[0], Insert(x, s[1..], le), f);
      Seqs.SumPrepend(s[0], s[1..], f);
      assert [s[0]] + s[1..] == s;
    }
  }

  /** Sorting rearranges the rows and so keeps their sum. */
  lemma {:induction false} SortSum<T>(s: seq<T>, le: (T, T) -> bool, f: T -> int)
    ensures Seqs.Sum(Sort(s, le), f) == Seqs.Sum(s, f)
  {
    if |s| > 0 {
      var t := Sort(s[1..], le);
      assert Sort(s, le) == Insert(s[0], t, le);
      SortSum(s[1..], le, f);
      InsertSum(s[0], t, le, f);
      Seqs.SumPrepend(s[0], s[1..], f);
      assert [s[0]] + s[1..] == s;
    }
  }
}
