/** src/lib/actions/service.action.ts: the older actions the sales screen still
    calls. The three readers return whole tables in table order; the insert is
    `Db.Store.CreateBookingAtNow`. */
module Legacy {
  import opened Wrappers
  import opened Records
  import Services

  /** `getServices()`. */
  function GetServices(services: seq<Service>): seq<Service> { services }

  /** `getUsers()`: unlike the admin listing, rows come with their PINs. */
  function GetUsers(users: seq<User>): seq<User> { users }

  /** `getBookings()`. */
  function GetBookings(bookings: seq<Booking>): seq<Booking> { bookings }

  /** `getUserServicePrice(userId, serviceId)`: `findUnique` on the pair's key,
      the price of the row or null; `enabled` is not consulted. */
  function GetUserServicePrice(prices: seq<PriceRow>, userId: int, serviceId: int): (r: Option<int>)
    requires UniquePriceKeys(prices)
    ensures r.None? <==> !Services.HasRow(prices, userId, serviceId)
    ensures forall row :: row in prices && row.userId == userId && row.serviceId == serviceId ==> r == Some(row.price)
  {
    match Services.KeyIndex(prices, userId, serviceId)
    case Some(i) => Some(prices[i].price)
    case None => None
  }

  /** The legacy lookup and `getUserServicePriceAll` of services.ts agree, so a
      disabled price still reaches the sales screen through this action. */
  lemma AgreesWithPriceAll(prices: seq<PriceRow>, userId: int, serviceId: int)
    requires UniquePriceKeys(prices)
    ensures GetUserServicePrice(prices, userId, serviceId) == Services.GetUserServicePriceAll(prices, userId, serviceId)
  {
    match Services.KeyIndex(prices, userId, serviceId)
    case Some(i) =>
    case None =>
  }

  /** After a worker's service is switched off, the enabled lookup finds nothing
      while this one still answers the old price. */
  lemma DisabledPriceStillAnswered(prices: seq<PriceRow>, userId: int, serviceId: int, row: PriceRow)
    requires UniquePriceKeys(prices)
    requires row in prices && row.userId == userId && row.serviceId == serviceId
    ensures Services.GetUserServicePrice(Services.Disable(prices, userId, serviceId), userId, serviceId).None?
    ensures GetUserServicePrice(Services.Disable(prices, userId, serviceId), userId, serviceId) == Some(row.price)
  {
    Services.DisableHidesButKeepsPrice(prices, userId, serviceId);
    var d := Services.Disable(prices, userId, serviceId);
    var i :| 0 <= i < |prices| && prices[i] == row;
    assert d[i] in d;
  }
}
