/** src/lib/actions/start.ts: the day's opening cash float. The day listing and
    the conflict check that keeps at most one float per day; the inserts,
    edits and deletes are methods of `Db.Store`. */
module Starts {
  import opened Wrappers
  import opened Records
  import opened Seqs
  import opened Sorting
  import opened Days

  const CREATE_CONFLICT := "Startowy hajs został już dodany na dzień "
  const UPDATE_CONFLICT := "Startowy hajs już istnieje na dzień "
  const DELETE_FAILED := "Nie udało się usunąć startowego hajsu"

  function InDayOf(cal: Calendar, d: int): Start -> bool { (s: Start) => cal.InDay(d, s.createdAt) }

  function NewestFirst(): (Start, Start) -> bool { (a: Start, b: Start) => a.createdAt >= b.createdAt }

  lemma NewestFirstIsTotalPreorder()
    ensures TotalPreorder(NewestFirst())
  {
  }

  /** The day a listing shows: the requested `date`, or today when it is absent. */
  function ListedDay(today: int, date: Option<int>): (d: int)
    ensures date.Some? ==> d == date.value
    ensures date.None? ==> d == today
  {
    date.GetOr(today)
  }

  /** `getAllStarts(date)`: the starts inside the day filter, newest first. */
  function GetAllStarts(cal: Calendar, today: int, starts: seq<Start>, date: Option<int>): (r: seq<Start>)
    ensures forall s :: s in r <==> s in starts && cal.InDay(ListedDay(today, date), s.createdAt)
    ensures multiset(r) == multiset(Filter(starts, InDayOf(cal, ListedDay(today, date))))
    ensures SortedBy(r, NewestFirst())
  {
    var rows := Filter(starts, InDayOf(cal, ListedDay(today, date)));
    NewestFirstIsTotalPreorder();
    SortSorted(rows, NewestFirst());
    var r := Sort(rows, NewestFirst());
    assert forall s :: s in r <==> s in multiset(r);
    assert forall s :: s in rows <==> s in multiset(rows);
    r
  }

  /** `getStartById(id)`: the start with that id, or null. */
  function GetStartById(starts: seq<Start>, id: int): (r: Option<Start>)
    requires UniqueStartIds(starts)
    ensures r.None? <==> forall s :: s in starts ==> s.id != id
    ensures forall s :: s in starts && s.id == id ==> r == Some(s)
  {
    FindFirst(starts, (s: Start) => s.id == id)
  }

  /** The `findFirst` the conflict check runs: a start other than `except` lying in
      the day filter of the day the calendar puts `createdAt` on. */
  function Conflict(cal: Calendar, starts: seq<Start>, createdAt: int, except: Option<int>): (r: Option<Start>)
    ensures r.None? <==> forall s :: s in starts && Some(s.id) != except ==> !cal.InDay(cal.dayOf(createdAt), s.createdAt)
    ensures r.Some? ==> r.value in starts && Some(r.value.id) != except && cal.InDay(cal.dayOf(createdAt), r.value.createdAt)
  {
    FindFirst(starts, (s: Start) => Some(s.id) != except && cal.InDay(cal.dayOf(createdAt), s.createdAt))
  }

  /** No day filter matches two starts of the table. */
  ghost predicate OnePerDay(cal: Calendar, starts: seq<Start>) {
    forall i, j, d :: 0 <= i < j < |starts| && cal.InDay(d, starts[i].createdAt) ==> !cal.InDay(d, starts[j].createdAt)
  }

  /** With at most one float per day, a day listing shows at most one float. */
  lemma {:induction false} OnePerDayListsAtMostOne(cal: Calendar, starts: seq<Start>, d: int)
    requires OnePerDay(cal, starts)
    ensures |Filter(starts, InDayOf(cal, d))| <= 1
  {
    if |starts| > 0 {
      var init, last := starts[..|starts| - 1], starts[|starts| - 1];
      assert starts == init + [last];
      FilterAppend(init, last, InDayOf(cal, d));
      assert OnePerDay(cal, init);
      if cal.InDay(d, last.createdAt) {
        NoneBeforeLastInDay(cal, starts, d);
      } else {
        OnePerDayListsAtMostOne(cal, init, d);
      }
    }
  }

  /** When the last float falls on day `d`, no earlier float does. */
  lemma NoneBeforeLastInDay(cal: Calendar, starts: seq<Start>, d: int)
    requires OnePerDay(cal, starts) && |starts| > 0 && cal.InDay(d, starts[|starts| - 1].createdAt)
    ensures Filter(starts[..|starts| - 1], InDayOf(cal, d)) == []
  {
    var init := starts[..|starts| - 1];
    forall x | x in init ensures !InDayOf(cal, d)(x) {
      var i :| 0 <= i < |init| && init[i] == x;
      assert starts[i] == x;
    }
    FilterNone(init, InDayOf(cal, d));
  }

  lemma OnePerDayListingIsShort(cal: Calendar, today: int, starts: seq<Start>, date: Option<int>)
    requires OnePerDay(cal, starts)
    ensures |GetAllStarts(cal, today, starts, date)| <= 1
  {
    OnePerDayListsAtMostOne(cal, starts, ListedDay(today, date));
  }

  /** `createStart` writes only after an empty conflict check; the new float then
      keeps the table at one float per day. */
  lemma CreateKeepsOnePerDay(cal: Calendar, starts: seq<Start>, s: Start)
    requires cal.Valid() && OnePerDay(cal, starts)
    requires Conflict(cal, starts, s.createdAt, None).None?
    ensures OnePerDay(cal, starts + [s])
  {
    var r := starts + [s];
    forall i, j, d | 0 <= i < j < |r| && cal.InDay(d, r[i].createdAt) ensures !cal.InDay(d, r[j].createdAt) {
      if j == |starts| && cal.InDay(d, s.createdAt) {
        InDayIsDayOf(cal, d, s.createdAt);
      }
    }
  }

  /** `updateStart`'s write: the start with `id` takes the new price and time. */
  function Restamped(starts: seq<Start>, id: int, price: int, createdAt: int): (r: seq<Start>)
    ensures |r| == |starts|
    ensures forall i :: 0 <= i < |starts| ==>
              r[i] == if starts[i].id == id then Start(id, price, createdAt) else starts[i]
  {
    if |starts| == 0 then []
    else
      var s := starts[|starts| - 1];
      Restamped(starts[..|starts| - 1], id, price, createdAt) + [if s.id == id then Start(id, price, createdAt) else s]
  }

  /** An edit that passes the check (which ignores the edited float itself) keeps
      one float per day. */
  lemma UpdateKeepsOnePerDay(cal: Calendar, starts: seq<Start>, id: int, price: int, createdAt: int)
    requires cal.Valid() && OnePerDay(cal, starts) && UniqueStartIds(starts)
    requires Conflict(cal, starts, createdAt, Some(id)).None?
    ensures OnePerDay(cal, Restamped(starts, id, price, createdAt))
  {
    var r := Restamped(starts, id, price, createdAt);
    forall i, j, d | 0 <= i < j < |r| && cal.InDay(d, r[i].createdAt) ensures !cal.InDay(d, r[j].createdAt) {
      if starts[i].id == id && cal.InDay(d, r[j].createdAt) {
        InDayIsDayOf(cal, d, createdAt);
      } else if starts[j].id == id && cal.InDay(d, r[j].createdAt) {
        InDayIsDayOf(cal, d, createdAt);
      }
    }
  }

  /** Moving a float to another time of the day it already lies in never
      conflicts, because the check leaves the float itself out. */
  lemma SameDayEditHasNoConflict(cal: Calendar, starts: seq<Start>, i: int, createdAt: int)
    requires cal.Valid() && OnePerDay(cal, starts) && UniqueStartIds(starts) && 0 <= i < |starts|
    requires cal.InDay(cal.dayOf(createdAt), starts[i].createdAt)
    ensures Conflict(cal, starts, createdAt, Some(starts[i].id)).None?
  {
    var d := cal.dayOf(createdAt);
    forall s | s in starts && Some(s.id) != Some(starts[i].id) ensures !cal.InDay(d, s.createdAt) {
      var k :| 0 <= k < |starts| && starts[k] == s;
      assert k != i;
    }
  }

  function IdIsNot(id: int): Start -> bool { (s: Start) => s.id != id }

  /** Removing rows keeps one float per day. */
  lemma {:induction false} FilterKeepsOnePerDay(cal: Calendar, starts: seq<Start>, p: Start -> bool)
    requires OnePerDay(cal, starts)
    ensures OnePerDay(cal, Filter(starts, p))
  {
    if |starts| > 0 {
      var init, last := starts[..|starts| - 1], starts[|starts| - 1];
      assert starts == init + [last];
      FilterAppend(init, last, p);
      assert OnePerDay(cal, init);
      FilterKeepsOnePerDay(cal, init, p);
      if p(last) {
        var f := Filter(init, p);
        var r := f + [last];
        forall i, j, d | 0 <= i < j < |r| && cal.InDay(d, r[i].createdAt) ensures !cal.InDay(d, r[j].createdAt) {
          if j == |f| {
            assert r[i] in init;
            var k :| 0 <= k < |init| && init[k] == r[i];
            assert starts[k] == r[i];
          } else {
            assert r[i] == f[i] && r[j] == f[j];
          }
        }
      }
    }
  }

  lemma DeleteKeepsOnePerDay(cal: Calendar, starts: seq<Start>, id: int)
    requires OnePerDay(cal, starts)
    ensures OnePerDay(cal, Filter(starts, IdIsNot(id)))
  {
    FilterKeepsOnePerDay(cal, starts, IdIsNot(id));
  }
}
