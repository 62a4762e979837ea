/** The `chartData` memo of src/components/EarningsChart.tsx and of
    src/app/pulpit/EarningsChart.tsx (the two are the same computation): zero
    buckets for every day or month of the window, each booking's price added
    to its own bucket, the buckets sorted by date.

    A bucket key stands for the formatted date ("YYYY-MM-DD" or "YYYY-MM") as
    a day or month number; those strings compare in the same order as the
    numbers. The `Map` is an association list in insertion order. */
module Chart {
  import opened Wrappers
  import opened Records
  import opened Seqs
  import opened Sorting
  import opened Days
  import Users
  import Bookings

  datatype Bucket = Bucket(key: int, total: int)

  ghost predicate DistinctKeys(m: seq<Bucket>) {
    forall i, j :: 0 <= i < j < |m| ==> m[i].key != m[j].key
  }

  predicate HasKey(m: seq<Bucket>, k: int) {
    exists i :: 0 <= i < |m| && m[i].key == k
  }

  /** The position of key `k`, if the map has it. */
  function IndexOf(m: seq<Bucket>, k: int): (r: Option<nat>)
    ensures r.Some? ==> r.value < |m| && m[r.value].key == k
    ensures r.None? ==> !HasKey(m, k)
  {
    if |m| == 0 then None
    else if m[|m| - 1].key == k then Some(|m| - 1)
    else IndexOf(m[..|m| - 1], k)
  }

  /** `map.get(k)`: the total stored under `k`, or undefined. */
  function Get(m: seq<Bucket>, k: int): (r: Option<int>)
    requires DistinctKeys(m)
    ensures r.None? <==> !HasKey(m, k)
    ensures forall i :: 0 <= i < |m| && m[i].key == k ==> r == Some(m[i].total)
  {
    match IndexOf(m, k)
    case Some(i) => Some(m[i].total)
    case None => None
  }

  /** `map.set(k, v)`: overwrites the bucket of `k` in place, or appends one. */
  function Set(m: seq<Bucket>, k: int, v: int): (r: seq<Bucket>)
    requires DistinctKeys(m)
    ensures DistinctKeys(r)
    ensures HasKey(m, k) ==> |r| == |m| && forall i :: 0 <= i < |m| ==> r[i] == if m[i].key == k then Bucket(k, v) else m[i]
    ensures !HasKey(m, k) ==> r == m + [Bucket(k, v)]
  {
    match IndexOf(m, k)
    case Some(i) => m[i := Bucket(k, v)]
    case None => m + [Bucket(k, v)]
  }

  /** After a `set`, `k` reads back `v` and every other key is unaffected. */
  lemma GetSet(m: seq<Bucket>, k: int, v: int, k': int)
    requires DistinctKeys(m)
    ensures Get(Set(m, k, v), k') == if k' == k then Some(v) else Get(m, k')
  {
    var r := Set(m, k, v);
    if !HasKey(m, k) {
      assert r[|m|] == Bucket(k, v);
      if k' != k && HasKey(r, k') {
        var i :| 0 <= i < |r| && r[i].key == k';
        assert m[i] == r[i];
      }
    } else {
      var i :| 0 <= i < |m| && m[i].key == k;
      assert r[i] == Bucket(k, v);
      if HasKey(r, k') {
        var j :| 0 <= j < |r| && r[j].key == k';
        if k' != k {
          assert m[j] == r[j];
        }
      }
      if HasKey(m, k') && k' != k {
        var j :| 0 <= j < |m| && m[j].key == k';
        assert r[j] == m[j];
      }
    }
  }

  function TotalOf(): Bucket -> int { (b: Bucket) => b.total }

  /** A `set` changes the grand total by the difference it makes to its bucket. */
  lemma SumSet(m: seq<Bucket>, k: int, v: int)
    requires DistinctKeys(m)
    ensures Sum(Set(m, k, v), TotalOf()) == Sum(m, TotalOf()) - Get(m, k).GetOr(0) + v
  {
    match IndexOf(m, k)
    case Some(i) =>
      SumUpdate(m, i, Bucket(k, v), TotalOf());
    case None =>
      SumAppend(m, Bucket(k, v), TotalOf());
  }

  /** The prices of the items whose day (or month) is `k`, added up. */
  function KeyTotal(items: seq<ChartItem>, unitOf: int -> int, k: int): int {
    if |items| == 0 then 0
    else
      var c := items[|items| - 1];
      KeyTotal(items[..|items| - 1], unitOf, k) + (if unitOf(c.createdAt) == k then c.price else 0)
  }

  lemma KeyTotalAppend(items: seq<ChartItem>, c: ChartItem, unitOf: int -> int, k: int)
    ensures KeyTotal(items + [c], unitOf, k) == KeyTotal(items, unitOf, k) + (if unitOf(c.createdAt) == k then c.price else 0)
  {
    assert (items + [c])[..|items|] == items;
  }

  /** How many buckets the zero-fill loop `for (i = 0; i <= diff; i++)` makes. */
  function Filled(diff: int): (n: nat)
    ensures diff >= 0 ==> n == diff + 1
    ensures diff < 0 ==> n == 0
  {
    if diff < 0 then 0 else diff + 1
  }

  function KeyLe(): (Bucket, Bucket) -> bool { (a: Bucket, b: Bucket) => a.key <= b.key }

  /** Two positions of a permutation hold elements found at two positions of the original. */
  lemma DistinctPositions(a: seq<Bucket>, b: seq<Bucket>, i: int, j: int)
    requires multiset(a) == multiset(b) && 0 <= i < j < |b|
    ensures exists p, q :: 0 <= p < |a| && 0 <= q < |a| && p != q && a[p] == b[i] && a[q] == b[j]
  {
    assert b[i] in multiset(a) && b[j] in multiset(a);
    var p :| 0 <= p < |a| && a[p] == b[i];
    if b[i] != b[j] {
      var q :| 0 <= q < |a| && a[q] == b[j];
      assert p != q;
    } else {
      var x := b[i];
      assert b == b[..j] + b[j..];
      assert x in b[..j] && x in b[j..];
      assert multiset(b)[x] == multiset(b[..j])[x] + multiset(b[j..])[x];
      assert a == a[..p] + [x] + a[p + 1..];
      assert multiset(a)[x] == multiset(a[..p])[x] + 1 + multiset(a[p + 1..])[x];
      if x in a[..p] {
        var q :| 0 <= q < p && a[..p][q] == x;
        assert a[q] == x;
      } else {
        assert x in multiset(a[p + 1..]);
        var q :| 0 <= q < |a| - p - 1 && a[p + 1..][q] == x;
        assert a[p + 1 + q] == x;
      }
    }
  }

  lemma DistinctKeysPermutation(a: seq<Bucket>, b: seq<Bucket>)
    requires multiset(a) == multiset(b) && DistinctKeys(a)
    ensures DistinctKeys(b)
  {
    forall i, j | 0 <= i < j < |b| ensures b[i].key != b[j].key {
      DistinctPositions(a, b, i, j);
      var p, q :| 0 <= p < |a| && 0 <= q < |a| && p != q && a[p] == b[i] && a[q] == b[j];
      if p < q {
        assert a[p].key != a[q].key;
      } else {
        assert a[q].key != a[p].key;
      }
    }
  }

  /** The sort of `Array.from(map.entries())` by date: keys strictly ascending,
      and the same buckets. */
  lemma SortBuckets(m: seq<Bucket>)
    requires DistinctKeys(m)
    ensures forall i, j :: 0 <= i < j < |Sort(m, KeyLe())| ==> Sort(m, KeyLe())[i].key < Sort(m, KeyLe())[j].key
    ensures forall k :: HasKey(Sort(m, KeyLe()), k) <==> HasKey(m, k)
    ensures forall b :: b in Sort(m, KeyLe()) <==> b in m
    ensures Sum(Sort(m, KeyLe()), TotalOf()) == Sum(m, TotalOf())
  {
    var r := Sort(m, KeyLe());
    SortSorted(m, KeyLe());
    DistinctKeysPermutation(m, r);
    SortSum(m, KeyLe(), TotalOf());
    assert forall b :: b in r <==> b in multiset(r);
    assert forall b :: b in m <==> b in multiset(m);
    forall k ensures HasKey(r, k) <==> HasKey(m, k) {
      if HasKey(r, k) {
        var i :| 0 <= i < |r| && r[i].key == k;
        assert r[i] in m;
      }
      if HasKey(m, k) {
        var i :| 0 <= i < |m| && m[i].key == k;
        assert m[i] in r;
      }
    }
  }

  /** The units the items fall in, in order. */
  function Units(items: seq<ChartItem>, unitOf: int -> int): (r: seq<int>)
    ensures |r| == |items| && forall t :: 0 <= t < |items| ==> r[t] == unitOf(items[t].createdAt)
  {
    seq(|items|, t requires 0 <= t < |items| => unitOf(items[t].createdAt))
  }

  lemma UnitsMembers(items: seq<ChartItem>, unitOf: int -> int, k: int)
    ensures k in Units(items, unitOf) <==> exists c :: c in items && unitOf(c.createdAt) == k
  {
    var u := Units(items, unitOf);
    if k in u {
      var t :| 0 <= t < |u| && u[t] == k;
      assert items[t] in items;
    }
    if exists c :: c in items && unitOf(c.createdAt) == k {
      var c :| c in items && unitOf(c.createdAt) == k;
      var t :| 0 <= t < |items| && items[t] == c;
      assert u[t] == k;
    }
  }

  lemma UnitsStep(items: seq<ChartItem>, j: int, unitOf: int -> int)
    requires 0 <= j < |items|
    ensures forall k :: k in Units(items[..j + 1], unitOf) <==> k in Units(items[..j], unitOf) || k == unitOf(items[j].createdAt)
  {
    assert Units(items[..j + 1], unitOf) == Units(items[..j], unitOf) + [unitOf(items[j].createdAt)];
  }

  /** A unit no item falls in totals 0. */
  lemma {:induction false} KeyTotalUnseen(items: seq<ChartItem>, unitOf: int -> int, k: int)
    requires k !in Units(items, unitOf)
    ensures KeyTotal(items, unitOf, k) == 0
  {
    if |items| > 0 {
      var init := items[..|items| - 1];
      assert Units(items, unitOf)[|items| - 1] == unitOf(items[|items| - 1].createdAt);
      forall t | 0 <= t < |init| ensures Units(init, unitOf)[t] == Units(items, unitOf)[t] {
        assert init[t] == items[t];
      }
      assert k !in Units(init, unitOf);
      KeyTotalUnseen(init, unitOf, k);
    }
  }

  predicate InWindow(k: int, start: int, diff: int) {
    start <= k <= start + diff
  }

  /** The zero-fill loop: one bucket of 0 for each of the `diff + 1` units
      from `start` on, in that order. */
  method ZeroFill(start: int, diff: int) returns (m: seq<Bucket>)
    ensures |m| == Filled(diff)
    ensures forall t :: 0 <= t < |m| ==> m[t] == Bucket(start + t, 0)
  {
    m := [];
    var i := 0;
    while i <= diff
      invariant 0 <= i && (diff >= 0 ==> i <= diff + 1) && (diff < 0 ==> i == 0)
      invariant |m| == i
      invariant forall t :: 0 <= t < i ==> m[t] == Bucket(start + t, 0)
    {
      assert !HasKey(m, start + i);
      m := Set(m, start + i, 0);
      i := i + 1;
    }
  }

  /** What the zero-filled map holds: distinct keys, exactly the window's. */
  lemma ZeroFilled(m: seq<Bucket>, start: int, diff: int)
    requires |m| == Filled(diff)
    requires forall t :: 0 <= t < |m| ==> m[t] == Bucket(start + t, 0)
    ensures DistinctKeys(m)
    ensures forall k :: HasKey(m, k) <==> InWindow(k, start, diff)
    ensures Sum(m, TotalOf()) == 0
  {
    forall k | InWindow(k, start, diff) ensures HasKey(m, k) {
      assert m[k - start].key == k;
    }
    ZeroTotal(m);
  }

  /** The keys of the map: the window's units and those of the first `j` items. */
  ghost predicate KeysCover(m: seq<Bucket>, items: seq<ChartItem>, j: int, unitOf: int -> int, start: int, diff: int)
    requires 0 <= j <= |items|
  {
    forall k :: HasKey(m, k) <==> InWindow(k, start, diff) || k in Units(items[..j], unitOf)
  }

  /** Every bucket holds the total of the first `j` items of its unit. */
  ghost predicate TotalsMatch(m: seq<Bucket>, items: seq<ChartItem>, j: int, unitOf: int -> int)
    requires 0 <= j <= |items|
  {
    forall i :: 0 <= i < |m| ==> m[i].total == KeyTotal(items[..j], unitOf, m[i].key)
  }

  /** What the map holds once the first `j` items are added in. */
  ghost predicate Accumulated(m: seq<Bucket>, items: seq<ChartItem>, j: int, unitOf: int -> int, start: int, diff: int) {
    && 0 <= j <= |items|
    && DistinctKeys(m)
    && KeysCover(m, items, j, unitOf, start, diff)
    && TotalsMatch(m, items, j, unitOf)
    && Sum(m, TotalOf()) == Sum(items[..j], Bookings.ItemPrice())
  }

  lemma HasKeySet(m: seq<Bucket>, k: int, v: int)
    requires DistinctKeys(m)
    ensures forall k' :: HasKey(Set(m, k, v), k') <==> HasKey(m, k') || k' == k
  {
    var r := Set(m, k, v);
    if !HasKey(m, k) {
      assert r[|m|].key == k;
      forall k' | HasKey(m, k') ensures HasKey(r, k') {
        var i :| 0 <= i < |m| && m[i].key == k';
        assert r[i] == m[i];
      }
    } else {
      forall k' | HasKey(m, k') || k' == k ensures HasKey(r, k') {
        var i :| 0 <= i < |m| && m[i].key == (if HasKey(m, k') then k' else k);
        assert r[i].key == m[i].key;
      }
      forall k' | HasKey(r, k') ensures HasKey(m, k') || k' == k {
        var i :| 0 <= i < |r| && r[i].key == k';
        assert r[i].key == m[i].key;
      }
    }
  }

  /** One turn of the `forEach`: `map.set(key, (map.get(key) || 0) + price)`. */
  function AddItem(m: seq<Bucket>, c: ChartItem, unitOf: int -> int): (r: seq<Bucket>)
    requires DistinctKeys(m)
    ensures DistinctKeys(r)
  {
    Set(m, unitOf(c.createdAt), Get(m, unitOf(c.createdAt)).GetOr(0) + c.price)
  }

  /** After one turn the item's unit reads its old total (0 when it had none)
      plus the item's price, and every other unit reads what it read before. */
  lemma AddItemAdds(m: seq<Bucket>, c: ChartItem, unitOf: int -> int, k: int)
    requires DistinctKeys(m)
    ensures Get(AddItem(m, c, unitOf), k)
            == if k == unitOf(c.createdAt) then Some(Get(m, k).GetOr(0) + c.price) else Get(m, k)
  {
    GetSet(m, unitOf(c.createdAt), Get(m, unitOf(c.createdAt)).GetOr(0) + c.price, k);
  }

  lemma KeysStep(m: seq<Bucket>, items: seq<ChartItem>, j: int, unitOf: int -> int, start: int, diff: int)
    requires DistinctKeys(m) && 0 <= j < |items| && KeysCover(m, items, j, unitOf, start, diff)
    ensures KeysCover(AddItem(m, items[j], unitOf), items, j + 1, unitOf, start, diff)
    ensures InWindow(unitOf(items[j].createdAt), start, diff) ==> |AddItem(m, items[j], unitOf)| == |m|
  {
    var key := unitOf(items[j].createdAt);
    HasKeySet(m, key, Get(m, key).GetOr(0) + items[j].price);
    UnitsStep(items, j, unitOf);
  }

  /** A turn of the `forEach` adds the item's price to its unit's bucket only. */
  lemma TotalsStep(m: seq<Bucket>, items: seq<ChartItem>, j: int, unitOf: int -> int, start: int, diff: int)
    requires DistinctKeys(m) && 0 <= j < |items|
    requires KeysCover(m, items, j, unitOf, start, diff) && TotalsMatch(m, items, j, unitOf)
    ensures TotalsMatch(AddItem(m, items[j], unitOf), items, j + 1, unitOf)
  {
    var key := unitOf(items[j].createdAt);
    var m' := Set(m, key, Get(m, key).GetOr(0) + items[j].price);
    assert items[..j + 1] == items[..j] + [items[j]];
    if !HasKey(m, key) {
      KeyTotalUnseen(items[..j], unitOf, key);
      assert m'[|m|] == Bucket(key, items[j].price);
    }
    forall i | 0 <= i < |m'| ensures m'[i].total == KeyTotal(items[..j + 1], unitOf, m'[i].key) {
      KeyTotalAppend(items[..j], items[j], unitOf, m'[i].key);
      if i < |m| && m[i].key == key {
        assert Get(m, key) == Some(m[i].total);
      }
    }
  }

  lemma SumStep(m: seq<Bucket>, items: seq<ChartItem>, j: int, unitOf: int -> int)
    requires DistinctKeys(m) && 0 <= j < |items|
    requires Sum(m, TotalOf()) == Sum(items[..j], Bookings.ItemPrice())
    ensures Sum(AddItem(m, items[j], unitOf), TotalOf()) == Sum(items[..j + 1], Bookings.ItemPrice())
  {
    var key := unitOf(items[j].createdAt);
    SumSet(m, key, Get(m, key).GetOr(0) + items[j].price);
    assert items[..j + 1] == items[..j] + [items[j]];
    SumAppend(items[..j], items[j], Bookings.ItemPrice());
  }

  /** Every item falls inside the window. */
  predicate AllInWindow(items: seq<ChartItem>, unitOf: int -> int, start: int, diff: int) {
    forall c :: c in items ==> InWindow(unitOf(c.createdAt), start, diff)
  }

  /** What a turn of the `forEach` keeps. */
  lemma AccumulateStep(m: seq<Bucket>, items: seq<ChartItem>, j: int, unitOf: int -> int, start: int, diff: int)
    requires Accumulated(m, items, j, unitOf, start, diff) && j < |items|
    ensures Accumulated(AddItem(m, items[j], unitOf), items, j + 1, unitOf, start, diff)
    ensures AllInWindow(items, unitOf, start, diff) ==> |AddItem(m, items[j], unitOf)| == |m|
  {
    KeysStep(m, items, j, unitOf, start, diff);
    TotalsStep(m, items, j, unitOf, start, diff);
    SumStep(m, items, j, unitOf);
    if AllInWindow(items, unitOf, start, diff) {
      assert items[j] in items;
    }
  }

  /** Before the `forEach`: the zero-filled map. */
  lemma AccumulatedStart(m: seq<Bucket>, items: seq<ChartItem>, unitOf: int -> int, start: int, diff: int)
    requires DistinctKeys(m) && Sum(m, TotalOf()) == 0
    requires forall t :: 0 <= t < |m| ==> m[t].total == 0
    requires forall k :: HasKey(m, k) <==> InWindow(k, start, diff)
    ensures Accumulated(m, items, 0, unitOf, start, diff)
  {
    assert items[..0] == [];
    assert Units(items[..0], unitOf) == [];
  }

  /** The `forEach` over the query's rows. */
  method Accumulate(m0: seq<Bucket>, items: seq<ChartItem>, unitOf: int -> int, start: int, diff: int) returns (m: seq<Bucket>)
    requires Accumulated(m0, items, 0, unitOf, start, diff)
    ensures Accumulated(m, items, |items|, unitOf, start, diff)
    ensures AllInWindow(items, unitOf, start, diff) ==> |m| == |m0|
  {
    m := m0;
    var j := 0;
    while j < |items|
      invariant Accumulated(m, items, j, unitOf, start, diff)
      invariant AllInWindow(items, unitOf, start, diff) ==> |m| == |m0|
    {
      AccumulateStep(m, items, j, unitOf, start, diff);
      m := AddItem(m, items[j], unitOf);
      j := j + 1;
    }
  }

  /** `chartData`: nothing while the query has no data; otherwise one bucket per
      unit of the window plus one per other unit an item falls in, keys
      strictly ascending, each bucket holding the total of its items' prices,
      so that the buckets together hold every price exactly once. */
  method ChartData(data: Option<seq<ChartItem>>, start: int, diff: int, unitOf: int -> int) returns (r: seq<Bucket>)
    ensures data.None? ==> r == []
    ensures data.Some? ==> forall i, j :: 0 <= i < j < |r| ==> r[i].key < r[j].key
    ensures data.Some? ==> forall k :: HasKey(r, k) <==>
              (InWindow(k, start, diff) || exists c :: c in data.value && unitOf(c.createdAt) == k)
    ensures data.Some? ==> forall i :: 0 <= i < |r| ==> r[i].total == KeyTotal(data.value, unitOf, r[i].key)
    ensures data.Some? ==> Sum(r, TotalOf()) == Sum(data.value, Bookings.ItemPrice())
    ensures data.Some? && (forall c :: c in data.value ==> InWindow(unitOf(c.createdAt), start, diff)) ==>
              |r| == Filled(diff)
  {
    if data.None? {
      return [];
    }
    var items := data.value;
    var m := ZeroFill(start, diff);
    ZeroFilled(m, start, diff);
    AccumulatedStart(m, items, unitOf, start, diff);
    m := Accumulate(m, items, unitOf, start, diff);
    r := Sort(m, KeyLe());
    SortedChart(m, items, unitOf, start, diff);
  }

  /** After the sort: what `chartData` promises, stated for the sorted map. */
  lemma SortedChart(m: seq<Bucket>, items: seq<ChartItem>, unitOf: int -> int, start: int, diff: int)
    requires Accumulated(m, items, |items|, unitOf, start, diff)
    ensures var r := Sort(m, KeyLe());
            && (forall i, j :: 0 <= i < j < |r| ==> r[i].key < r[j].key)
            && (forall k :: HasKey(r, k) <==> (InWindow(k, start, diff) || exists c :: c in items && unitOf(c.createdAt) == k))
            && (forall i :: 0 <= i < |r| ==> r[i].total == KeyTotal(items, unitOf, r[i].key))
            && Sum(r, TotalOf()) == Sum(items, Bookings.ItemPrice())
            && |r| == |m|
  {
    assert items[..|items|] == items;
    SortBuckets(m);
    var r := Sort(m, KeyLe());
    forall i | 0 <= i < |r| ensures r[i].total == KeyTotal(items, unitOf, r[i].key) {
      assert r[i] in m;
    }
    forall k ensures HasKey(r, k) <==> (InWindow(k, start, diff) || exists c :: c in items && unitOf(c.createdAt) == k) {
      UnitsMembers(items, unitOf, k);
    }
  }

  /** A map holding only zeros totals 0. */
  lemma {:induction false} ZeroTotal(m: seq<Bucket>)
    requires forall t :: 0 <= t < |m| ==> m[t].total == 0
    ensures Sum(m, TotalOf()) == 0
  {
    if |m| > 0 {
      ZeroTotal(m[..|m| - 1]);
    }
  }

  datatype ViewMode = Daily | Monthly

  /** The window the chart asks for, in the mode's units (day numbers or month
      numbers): from 7 days, or 6 months, before the unit `now` falls in, up to
      that unit. The result is the first unit and `diff`. */
  function Window(mode: ViewMode, now: int): (w: (int, int))
    ensures w.0 + w.1 == now
    ensures mode == Daily ==> Filled(w.1) == 8
    ensures mode == Monthly ==> Filled(w.1) == 7
  {
    match mode
    case Daily => (now - 7, 7)
    case Monthly => (now - 6, 6)
  }

  /** Every item of the chart query over the days `first`..`last` has its day
      in that span: the query's date filter already stays inside the window. */
  lemma ChartItemsInWindow(cal: Calendar, users: seq<User>, bookings: seq<Booking>, userId: int, first: int, last: int)
    requires cal.Valid() && UniqueUserIds(users)
    ensures forall c :: c in Bookings.GetAllBookingsChart(cal, users, bookings, userId, first, last) ==>
              first <= cal.dayOf(c.createdAt) <= last
  {
    var items := Bookings.GetAllBookingsChart(cal, users, bookings, userId, first, last);
    forall c | c in items ensures first <= cal.dayOf(c.createdAt) <= last {
      var b :| b in bookings && c == ChartItem(b.price, b.createdAt) && cal.InDays(first, last, b.createdAt)
               && (Users.IsUserAdmin(users, userId) || b.userId == userId);
      InDaysDayOf(cal, first, last, b.createdAt);
    }
  }

  /** The daily chart as the component assembles it: the window from 7 days
      before `today` up to today, the chart query over that span, and the
      buckets by day. Every charted booking falls inside the window, so there
      is exactly one bucket per day of it, 8 in all. */
  method DailyChart(cal: Calendar, users: seq<User>, bookings: seq<Booking>, userId: int, today: int)
    returns (r: seq<Bucket>)
    requires cal.Valid() && UniqueUserIds(users)
    ensures |r| == 8
    ensures forall i, j :: 0 <= i < j < |r| ==> r[i].key < r[j].key
    ensures forall k :: HasKey(r, k) <==> today - 7 <= k <= today
    ensures forall i :: 0 <= i < |r| ==>
              r[i].total == KeyTotal(Bookings.GetAllBookingsChart(cal, users, bookings, userId, today - 7, today), cal.dayOf, r[i].key)
    ensures Sum(r, TotalOf()) == Sum(Bookings.GetAllBookingsChart(cal, users, bookings, userId, today - 7, today), Bookings.ItemPrice())
  {
    var w := Window(Daily, today);
    assert w == (today - 7, 7);
    var items := Bookings.GetAllBookingsChart(cal, users, bookings, userId, today - 7, today);
    ChartItemsInWindow(cal, users, bookings, userId, today - 7, today);
    r := ChartData(Some(items), today - 7, 7, cal.dayOf);
  }
}
