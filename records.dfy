/** The rows of the six tables. Ids are database-assigned integers, prices are
    whole numbers and `createdAt` is a timestamp in milliseconds. */
module Records {

  const ADMIN := "ADMIN"
  const USER := "USER"

  /** A worker; `name` and `pin` are unique over the table, `role` is "USER" or "ADMIN". */
  datatype User = User(id: int, name: string, pin: string, role: string)

  datatype Service = Service(id: int, name: string)

  /** The price worker `userId` charges for service `serviceId`; "removing" a
      service from a worker clears `enabled` instead of deleting the row. */
  datatype PriceRow = PriceRow(userId: int, serviceId: int, price: int, enabled: bool)

  datatype Booking = Booking(id: int, userId: int, serviceId: int, price: int, createdAt: int)

  datatype Product = Product(id: int, userId: int, name: string, price: int, createdAt: int)

  /** The opening cash float of a day. */
  datatype Start = Start(id: int, price: int, createdAt: int)

  /** `BookingChartData`: the two columns the chart query selects. */
  datatype ChartItem = ChartItem(price: int, createdAt: int)

  predicate UniqueUserIds(users: seq<User>) {
    forall i, j :: 0 <= i < j < |users| ==> users[i].id != users[j].id
  }

  /** The schema's constraints on the user table: unique id, unique name, unique pin. */
  predicate WellFormedUsers(users: seq<User>) {
    && UniqueUserIds(users)
    && (forall i, j :: 0 <= i < j < |users| ==> users[i].name != users[j].name)
    && (forall i, j :: 0 <= i < j < |users| ==> users[i].pin != users[j].pin)
  }

  predicate UniqueServiceIds(services: seq<Service>) {
    forall i, j :: 0 <= i < j < |services| ==> services[i].id != services[j].id
  }

  /** The composite unique key `userId_serviceId`: at most one row per pair. */
  predicate UniquePriceKeys(prices: seq<PriceRow>) {
    forall i, j :: 0 <= i < j < |prices| ==>
      (prices[i].userId, prices[i].serviceId) != (prices[j].userId, prices[j].serviceId)
  }

  predicate UniqueBookingIds(bookings: seq<Booking>) {
    forall i, j :: 0 <= i < j < |bookings| ==> bookings[i].id != bookings[j].id
  }

  predicate UniqueProductIds(products: seq<Product>) {
    forall i, j :: 0 <= i < j < |products| ==> products[i].id != products[j].id
  }

  predicate UniqueStartIds(starts: seq<Start>) {
    forall i, j :: 0 <= i < j < |starts| ==> starts[i].id != starts[j].id
  }

  predicate HasUser(users: seq<User>, id: int) {
    exists i :: 0 <= i < |users| && users[i].id == id
  }

  predicate HasService(services: seq<Service>, id: int) {
    exists i :: 0 <= i < |services| && services[i].id == id
  }

  /** Every price row refers to an existing worker and an existing service (foreign keys). */
  predicate PricesReferenceRows(prices: seq<PriceRow>, users: seq<User>, services: seq<Service>) {
    forall i :: 0 <= i < |prices| ==> HasUser(users, prices[i].userId) && HasService(services, prices[i].serviceId)
  }

  /** Every booking refers to an existing worker and an existing service (foreign keys). */
  predicate BookingsReferenceRows(bookings: seq<Booking>, users: seq<User>, services: seq<Service>) {
    forall i :: 0 <= i < |bookings| ==> HasUser(users, bookings[i].userId) && HasService(services, bookings[i].serviceId)
  }

  /** Every product refers to an existing worker (foreign key). */
  predicate ProductsReferenceUsers(products: seq<Product>, users: seq<User>) {
    forall i :: 0 <= i < |products| ==> HasUser(users, products[i].userId)
  }
}
