/** src/lib/actions/dashboard.ts: today's totals. "Today" is day number `today`
    of the calendar, and every query uses today's half-open day filter. */
module Dashboard {
  import opened Wrappers
  import opened Records
  import opened Seqs
  import opened Sorting
  import opened Days
  import Users
  import Starts
  import Bookings
  import Products

  /** `...(userId && { userId })`: the worker filter is added only for a truthy
      id, so an absent id and the id 0 both select every worker. */
  predicate Truthy(userId: Option<int>) {
    userId.Some? && userId.value != 0
  }

  function TodayBookings(cal: Calendar, today: int, bookings: seq<Booking>, userId: Option<int>): (r: seq<Booking>)
    ensures forall b :: b in r <==> b in bookings && cal.InDay(today, b.createdAt)
                                     && (Truthy(userId) ==> b.userId == userId.value)
  {
    if Truthy(userId) then Filter(bookings, Bookings.OwnInDay(cal, today, userId.value))
    else Filter(bookings, Bookings.InDayOf(cal, today))
  }

  function ProductPrice(): Product -> int { (p: Product) => p.price }

  function TodayProducts(cal: Calendar, today: int, products: seq<Product>, userId: Option<int>): (r: seq<Product>)
    ensures forall p :: p in r <==> p in products && cal.InDay(today, p.createdAt)
                                     && (Truthy(userId) ==> p.userId == userId.value)
  {
    if Truthy(userId) then Filter(products, Products.OwnInDay(cal, today, userId.value))
    else Filter(products, Products.InDayOf(cal, today))
  }

  /** `getTodaySumBookings(userId)`. */
  function GetTodaySumBookings(cal: Calendar, today: int, bookings: seq<Booking>, userId: Option<int>): int {
    Sum(TodayBookings(cal, today, bookings, userId), Bookings.Price())
  }

  /** `getTodaySumProducts(userId)`. */
  function GetTodaySumProducts(cal: Calendar, today: int, products: seq<Product>, userId: Option<int>): int {
    Sum(TodayProducts(cal, today, products, userId), ProductPrice())
  }

  /** `getTodayBookingCount(userId)`. */
  function GetTodayBookingCount(cal: Calendar, today: int, bookings: seq<Booking>, userId: Option<int>): int {
    |TodayBookings(cal, today, bookings, userId)|
  }

  /** `getTodayStart(_userId)`: the price of the newest float of today, or 0;
      the argument is not used. */
  function GetTodayStart(cal: Calendar, today: int, starts: seq<Start>): (r: int)
    ensures (forall s :: s in starts ==> !cal.InDay(today, s.createdAt)) ==> r == 0
    ensures (exists s :: s in starts && cal.InDay(today, s.createdAt)) ==>
              exists s :: s in starts && cal.InDay(today, s.createdAt) && r == s.price
                          && forall t :: t in starts && cal.InDay(today, t.createdAt) ==> t.createdAt <= s.createdAt
  {
    var listing := Starts.GetAllStarts(cal, today, starts, None);
    if |listing| == 0 then 0
    else
      assert forall j :: 0 <= j < |listing| ==> listing[0].createdAt >= listing[j].createdAt;
      assert forall t :: t in listing ==> listing[0].createdAt >= t.createdAt;
      assert listing[0] in listing;
      listing[0].price
  }

  /** With one float per day, today's float is the one `getTodayStart` reports. */
  lemma TodayStartIsTheFloat(cal: Calendar, today: int, starts: seq<Start>, s: Start)
    requires Starts.OnePerDay(cal, starts)
    requires s in starts && cal.InDay(today, s.createdAt)
    ensures GetTodayStart(cal, today, starts) == s.price
  {
    Starts.OnePerDayListingIsShort(cal, today, starts, None);
    var listing := Starts.GetAllStarts(cal, today, starts, None);
    assert s in listing;
  }

  /** With a truthy id the sum is the total of that worker's day listing;
      without one it is the total of an admin's listing, i.e. every worker's. */
  lemma SumMatchesListings(cal: Calendar, today: int, users: seq<User>, bookings: seq<Booking>, userId: Option<int>, adminId: int)
    requires UniqueUserIds(users) && Users.IsUserAdmin(users, adminId)
    ensures Truthy(userId) ==>
              GetTodaySumBookings(cal, today, bookings, userId)
              == Sum(Bookings.GetBookingsByUser(cal, today, bookings, userId.value, None), Bookings.Price())
    ensures !Truthy(userId) ==>
              GetTodaySumBookings(cal, today, bookings, userId)
              == Sum(Bookings.GetAllBookings(cal, today, users, bookings, adminId, None), Bookings.Price())
  {
  }

  function WorkerIs(u: int): Booking -> bool { (b: Booking) => b.userId == u }

  function WorkerIsNot(u: int): Booking -> bool { (b: Booking) => b.userId != u }

  /** Today's total over all workers is one worker's total plus everyone else's. */
  lemma SumSplitsByWorker(cal: Calendar, today: int, bookings: seq<Booking>, u: int)
    requires u != 0
    ensures GetTodaySumBookings(cal, today, bookings, None)
            == GetTodaySumBookings(cal, today, bookings, Some(u))
               + Sum(Filter(TodayBookings(cal, today, bookings, None), WorkerIsNot(u)), Bookings.Price())
  {
    var day := TodayBookings(cal, today, bookings, None);
    SumSplit(day, WorkerIs(u), WorkerIsNot(u), Bookings.Price());
    FilterFilter(bookings, Bookings.InDayOf(cal, today), WorkerIs(u), Bookings.OwnInDay(cal, today, u));
  }

  /** A day without rows sums to 0 and counts 0, whatever the id. */
  lemma EmptyDayIsZero(cal: Calendar, today: int, bookings: seq<Booking>, products: seq<Product>, userId: Option<int>)
    requires forall b :: b in bookings ==> !cal.InDay(today, b.createdAt)
    requires forall p :: p in products ==> !cal.InDay(today, p.createdAt)
    ensures GetTodaySumBookings(cal, today, bookings, userId) == 0
    ensures GetTodaySumProducts(cal, today, products, userId) == 0
    ensures GetTodayBookingCount(cal, today, bookings, userId) == 0
  {
    if Truthy(userId) {
      FilterNone(bookings, Bookings.OwnInDay(cal, today, userId.value));
      FilterNone(products, Products.OwnInDay(cal, today, userId.value));
    } else {
      FilterNone(bookings, Bookings.InDayOf(cal, today));
      FilterNone(products, Products.InDayOf(cal, today));
    }
  }

  datatype AdminTotals = AdminTotals(allBookings: int, allProducts: int, allBookingCount: int)

  /** What the dashboard shows. `admin` holds the three all-worker fields, which
      are present only for an admin. */
  datatype DashboardData = DashboardData(userBookings: int, userProducts: int, userBookingCount: int,
                                         startCash: int, admin: Option<AdminTotals>, isAdmin: bool)

  /** `getDashboardData(userId)`. The worker's part always filters by `userId`
      (even 0); the float is the newest of today, 0 when there is none; the
      all-worker part is there exactly for an admin. */
  function GetDashboardData(cal: Calendar, today: int, users: seq<User>, bookings: seq<Booking>,
                            products: seq<Product>, starts: seq<Start>, userId: int): (r: DashboardData)
    requires UniqueUserIds(users)
    ensures r.isAdmin == Users.IsUserAdmin(users, userId)
    ensures r.admin.Some? <==> r.isAdmin
    ensures r.userBookings == Sum(Bookings.GetBookingsByUser(cal, today, bookings, userId, None), Bookings.Price())
    ensures multiset(Bookings.GetBookingsByUser(cal, today, bookings, userId, None))
            == multiset(Filter(bookings, Bookings.OwnInDay(cal, today, userId)))
    ensures r.userProducts == Sum(Filter(products, Products.OwnInDay(cal, today, userId)), ProductPrice())
    ensures r.userBookingCount == |Bookings.GetBookingsByUser(cal, today, bookings, userId, None)|
    ensures r.startCash == GetTodayStart(cal, today, starts)
    ensures userId != 0 ==>
              && r.userBookings == GetTodaySumBookings(cal, today, bookings, Some(userId))
              && r.userProducts == GetTodaySumProducts(cal, today, products, Some(userId))
              && r.userBookingCount == GetTodayBookingCount(cal, today, bookings, Some(userId))
    ensures r.admin.Some? ==>
              && r.admin.value.allBookings == GetTodaySumBookings(cal, today, bookings, None)
              && r.admin.value.allProducts == GetTodaySumProducts(cal, today, products, None)
              && r.admin.value.allBookingCount == GetTodayBookingCount(cal, today, bookings, None)
  {
    var own := Filter(bookings, Bookings.OwnInDay(cal, today, userId));
    var isAdmin := Users.IsUserAdmin(users, userId);
    var listing := Bookings.GetBookingsByUser(cal, today, bookings, userId, None);
    assert |listing| == |multiset(listing)| == |multiset(own)| == |own|;
    DashboardData(
      Sum(own, Bookings.Price()),
      Sum(Filter(products, Products.OwnInDay(cal, today, userId)), ProductPrice()),
      |own|,
      GetTodayStart(cal, today, starts),
      if isAdmin then
        Some(AdminTotals(GetTodaySumBookings(cal, today, bookings, None),
                         GetTodaySumProducts(cal, today, products, None),
                         GetTodayBookingCount(cal, today, bookings, None)))
      else None,
      isAdmin)
  }

  /** One worker's count of the day never exceeds the all-worker count. */
  lemma OwnCountWithinAllCount(cal: Calendar, today: int, bookings: seq<Booking>, u: int)
    requires u != 0
    ensures GetTodayBookingCount(cal, today, bookings, Some(u)) <= GetTodayBookingCount(cal, today, bookings, None)
  {
    FilterStronger(bookings, Bookings.InDayOf(cal, today), Bookings.OwnInDay(cal, today, u));
    var own := Filter(bookings, Bookings.OwnInDay(cal, today, u));
    var all := Filter(bookings, Bookings.InDayOf(cal, today));
    assert multiset(all) == multiset(own) + (multiset(all) - multiset(own));
    assert |multiset(own)| <= |multiset(all)|;
  }
}
