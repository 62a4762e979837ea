/** src/lib/actions/bookings.ts: the day listings of sold services, the chart
    query over a range of days, and the lookups; the inserts and the edit are
    methods of `Db.Store`. */
module Bookings {
  import opened Wrappers
  import opened Records
  import opened Seqs
  import opened Sorting
  import opened Days
  import Users

  function InDayOf(cal: Calendar, d: int): Booking -> bool { (b: Booking) => cal.InDay(d, b.createdAt) }

  function OwnInDay(cal: Calendar, d: int, userId: int): Booking -> bool {
    (b: Booking) => b.userId == userId && cal.InDay(d, b.createdAt)
  }

  function NewestFirst(): (Booking, Booking) -> bool { (a: Booking, b: Booking) => a.createdAt >= b.createdAt }

  function OldestFirst(): (ChartItem, ChartItem) -> bool { (a: ChartItem, b: ChartItem) => a.createdAt <= b.createdAt }

  lemma OrdersAreTotalPreorders()
    ensures TotalPreorder(NewestFirst()) && TotalPreorder(OldestFirst())
  {
  }

  function Price(): Booking -> int { (b: Booking) => b.price }

  function ItemPrice(): ChartItem -> int { (c: ChartItem) => c.price }

  /** The rows of a `where` sorted by `orderBy: { createdAt: "desc" }`. */
  function NewestFirstListing(rows: seq<Booking>): (r: seq<Booking>)
    ensures multiset(r) == multiset(rows)
    ensures forall b :: b in r <==> b in rows
    ensures SortedBy(r, NewestFirst())
    ensures Sum(r, Price()) == Sum(rows, Price())
  {
    OrdersAreTotalPreorders();
    SortSorted(rows, NewestFirst());
    SortSum(rows, NewestFirst(), Price());
    var r := Sort(rows, NewestFirst());
    assert forall b :: b in r <==> b in multiset(r);
    assert forall b :: b in rows <==> b in multiset(rows);
    r
  }

  /** `getAllBookings(userId, date)`: the day's bookings, every worker's for an
      admin and only the caller's otherwise, newest first. */
  function GetAllBookings(cal: Calendar, today: int, users: seq<User>, bookings: seq<Booking>, userId: int, date: Option<int>)
    : (r: seq<Booking>)
    requires UniqueUserIds(users)
    ensures forall b :: b in r <==> b in bookings && cal.InDay(date.GetOr(today), b.createdAt)
                                     && (Users.IsUserAdmin(users, userId) || b.userId == userId)
    ensures Users.IsUserAdmin(users, userId) ==> multiset(r) == multiset(Filter(bookings, InDayOf(cal, date.GetOr(today))))
    ensures !Users.IsUserAdmin(users, userId) ==>
              multiset(r) == multiset(Filter(bookings, OwnInDay(cal, date.GetOr(today), userId)))
    ensures SortedBy(r, NewestFirst())
  {
    var d := date.GetOr(today);
    if Users.IsUserAdmin(users, userId) then NewestFirstListing(Filter(bookings, InDayOf(cal, d)))
    else NewestFirstListing(Filter(bookings, OwnInDay(cal, d, userId)))
  }

  /** `getBookingsByUser(userId, date)`: the caller's bookings of the day, newest
      first, whatever the caller's role. */
  function GetBookingsByUser(cal: Calendar, today: int, bookings: seq<Booking>, userId: int, date: Option<int>)
    : (r: seq<Booking>)
    ensures forall b :: b in r <==> b in bookings && b.userId == userId && cal.InDay(date.GetOr(today), b.createdAt)
    ensures multiset(r) == multiset(Filter(bookings, OwnInDay(cal, date.GetOr(today), userId)))
    ensures SortedBy(r, NewestFirst())
    ensures Sum(r, Price()) == Sum(Filter(bookings, OwnInDay(cal, date.GetOr(today), userId)), Price())
  {
    NewestFirstListing(Filter(bookings, OwnInDay(cal, date.GetOr(today), userId)))
  }

  /** For a worker who is not an admin the two day listings coincide. */
  lemma NonAdminListingIsOwnListing(cal: Calendar, today: int, users: seq<User>, bookings: seq<Booking>, userId: int, date: Option<int>)
    requires UniqueUserIds(users) && !Users.IsUserAdmin(users, userId)
    ensures GetAllBookings(cal, today, users, bookings, userId, date) == GetBookingsByUser(cal, today, bookings, userId, date)
  {
  }

  /** An admin's listing holds every worker's listing of the same day. */
  lemma AdminListingHoldsEveryOwnListing(cal: Calendar, today: int, users: seq<User>, bookings: seq<Booking>,
                                         adminId: int, userId: int, date: Option<int>)
    requires UniqueUserIds(users) && Users.IsUserAdmin(users, adminId)
    ensures multiset(GetBookingsByUser(cal, today, bookings, userId, date))
            <= multiset(GetAllBookings(cal, today, users, bookings, adminId, date))
  {
    var d := date.GetOr(today);
    FilterStronger(bookings, InDayOf(cal, d), OwnInDay(cal, d, userId));
  }

  function InRange(cal: Calendar, first: int, last: int): Booking -> bool {
    (b: Booking) => cal.InDays(first, last, b.createdAt)
  }

  function OwnInRange(cal: Calendar, first: int, last: int, userId: int): Booking -> bool {
    (b: Booking) => cal.InDays(first, last, b.createdAt) && b.userId == userId
  }

  /** `select: { price, createdAt }`. */
  function ItemsOf(rows: seq<Booking>): (r: seq<ChartItem>)
    ensures |r| == |rows| && forall i :: 0 <= i < |r| ==> r[i] == ChartItem(rows[i].price, rows[i].createdAt)
  {
    if |rows| == 0 then [] else ItemsOf(rows[..|rows| - 1]) + [ChartItem(rows[|rows| - 1].price, rows[|rows| - 1].createdAt)]
  }

  lemma {:induction false} ItemsOfSum(rows: seq<Booking>)
    ensures Sum(ItemsOf(rows), ItemPrice()) == Sum(rows, Price())
  {
    if |rows| > 0 {
      ItemsOfSum(rows[..|rows| - 1]);
      assert ItemsOf(rows)[..|rows| - 1] == ItemsOf(rows[..|rows| - 1]);
    }
  }

  /** `getAllBookingsChart(userId, startDate, endDate)`: price and time of every
      booking from the first millisecond of day `first` up to and including the
      last millisecond of day `last`, restricted to the caller unless an admin,
      oldest first. */
  function GetAllBookingsChart(cal: Calendar, users: seq<User>, bookings: seq<Booking>, userId: int, first: int, last: int)
    : (r: seq<ChartItem>)
    requires UniqueUserIds(users)
    ensures forall c :: c in r <==> exists b :: b in bookings && c == ChartItem(b.price, b.createdAt)
                                                && cal.InDays(first, last, b.createdAt)
                                                && (Users.IsUserAdmin(users, userId) || b.userId == userId)
    ensures Users.IsUserAdmin(users, userId) ==>
              multiset(r) == multiset(ItemsOf(Filter(bookings, InRange(cal, first, last))))
    ensures !Users.IsUserAdmin(users, userId) ==>
              multiset(r) == multiset(ItemsOf(Filter(bookings, OwnInRange(cal, first, last, userId))))
    ensures SortedBy(r, OldestFirst())
  {
    var rows := ChartRows(cal, users, bookings, userId, first, last);
    ItemsOfMembers(rows);
    OldestFirstListing(ItemsOf(rows))
  }

  /** The rows the chart's `where` selects. */
  function ChartRows(cal: Calendar, users: seq<User>, bookings: seq<Booking>, userId: int, first: int, last: int)
    : (rows: seq<Booking>)
    requires UniqueUserIds(users)
    ensures forall b :: b in rows <==> b in bookings && cal.InDays(first, last, b.createdAt)
                                       && (Users.IsUserAdmin(users, userId) || b.userId == userId)
  {
    if Users.IsUserAdmin(users, userId) then Filter(bookings, InRange(cal, first, last))
    else Filter(bookings, OwnInRange(cal, first, last, userId))
  }

  lemma ItemsOfMembers(rows: seq<Booking>)
    ensures forall c :: c in ItemsOf(rows) <==> exists b :: b in rows && c == ChartItem(b.price, b.createdAt)
  {
    var items := ItemsOf(rows);
    forall c | c in items ensures exists b :: b in rows && c == ChartItem(b.price, b.createdAt) {
      var i :| 0 <= i < |items| && items[i] == c;
      assert rows[i] in rows;
    }
    forall b | b in rows ensures ChartItem(b.price, b.createdAt) in items {
      var i :| 0 <= i < |rows| && rows[i] == b;
      assert items[i] == ChartItem(b.price, b.createdAt);
    }
  }

  /** Chart items sorted by `orderBy: { createdAt: "asc" }`. */
  function OldestFirstListing(items: seq<ChartItem>): (r: seq<ChartItem>)
    ensures multiset(r) == multiset(items)
    ensures forall c :: c in r <==> c in items
    ensures SortedBy(r, OldestFirst())
  {
    OrdersAreTotalPreorders();
    SortSorted(items, OldestFirst());
    var r := Sort(items, OldestFirst());
    assert forall c :: c in r <==> c in multiset(r);
    assert forall c :: c in items <==> c in multiset(items);
    r
  }

  /** The chart's total is the total of the bookings it selects. */
  lemma ChartConservesPrices(cal: Calendar, users: seq<User>, bookings: seq<Booking>, userId: int, first: int, last: int)
    requires UniqueUserIds(users)
    ensures Sum(GetAllBookingsChart(cal, users, bookings, userId, first, last), ItemPrice())
            == Sum(if Users.IsUserAdmin(users, userId) then Filter(bookings, InRange(cal, first, last))
                   else Filter(bookings, OwnInRange(cal, first, last, userId)), Price())
  {
    var rows := if Users.IsUserAdmin(users, userId) then Filter(bookings, InRange(cal, first, last))
                else Filter(bookings, OwnInRange(cal, first, last, userId));
    SortSum(ItemsOf(rows), OldestFirst(), ItemPrice());
    ItemsOfSum(rows);
  }

  /** Every booking a day listing shows, for a day inside the range, is on the
      chart of that range. */
  lemma DayListingIsCharted(cal: Calendar, today: int, users: seq<User>, bookings: seq<Booking>, userId: int,
                            first: int, d: int, last: int, b: Booking)
    requires cal.Valid() && UniqueUserIds(users) && first <= d <= last
    requires b in GetAllBookings(cal, today, users, bookings, userId, Some(d))
    ensures ChartItem(b.price, b.createdAt) in GetAllBookingsChart(cal, users, bookings, userId, first, last)
  {
    InDayWithinInDays(cal, first, d, last, b.createdAt);
  }

  /** A booking made in the last millisecond of day `d` is charted for that day
      but shown in no day listing at all. */
  lemma LastMillisecondIsOnlyCharted(cal: Calendar, today: int, users: seq<User>, bookings: seq<Booking>,
                                     userId: int, d: int, b: Booking, date: Option<int>)
    requires cal.Valid() && UniqueUserIds(users)
    requires b in bookings && b.userId == userId && b.createdAt == cal.EndOfDay(d)
    ensures ChartItem(b.price, b.createdAt) in GetAllBookingsChart(cal, users, bookings, userId, d, d)
    ensures b !in GetAllBookings(cal, today, users, bookings, userId, date)
  {
    LastMillisecondInNoDay(cal, d, date.GetOr(today));
    assert cal.dayStart(d) < cal.dayStart(d + 1);
  }

  /** `getBookingById(id)`: the booking with that id, or null. */
  function GetBookingById(bookings: seq<Booking>, id: int): (r: Option<Booking>)
    requires UniqueBookingIds(bookings)
    ensures r.None? <==> forall b :: b in bookings ==> b.id != id
    ensures forall b :: b in bookings && b.id == id ==> r == Some(b)
  {
    FindFirst(bookings, (b: Booking) => b.id == id)
  }

  /** `editBooking`'s write: the booking with `id` takes the new service, price
      and time and keeps its id and worker. */
  function Edited(bookings: seq<Booking>, id: int, serviceId: int, price: int, createdAt: int): (r: seq<Booking>)
    ensures |r| == |bookings|
    ensures forall i :: 0 <= i < |bookings| ==>
              r[i] == if bookings[i].id == id
                      then bookings[i].(serviceId := serviceId, price := price, createdAt := createdAt)
                      else bookings[i]
  {
    if |bookings| == 0 then []
    else
      var b := bookings[|bookings| - 1];
      Edited(bookings[..|bookings| - 1], id, serviceId, price, createdAt)
      + [if b.id == id then b.(serviceId := serviceId, price := price, createdAt := createdAt) else b]
  }
}
