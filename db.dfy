/** The database behind the server actions: the six tables and the writes the
    actions make to them. Each write is one method that checks what its action
    checks, then changes one table; the queries are the functions of the
    per-file modules, applied to `Contents()`. */
module Db {
  import opened Wrappers
  import opened Records
  import opened Seqs
  import opened Days
  import Users
  import Auth
  import Admin
  import Services
  import Starts
  import Bookings

  /** Prisma's errors, each stood for by its code: P2025 for the not-found error
      when the row to update or delete is missing, P2003 for the foreign-key
      failure when a key points at no row. Where an action rethrows the error's
      message, the code stands for Prisma's text. */
  const RECORD_NOT_FOUND := "P2025"
  const FOREIGN_KEY_FAILED := "P2003"
  const SET_PRICE_FAILED := "Nie udało się ustawić ceny usługi"

  datatype Tables = Tables(users: seq<User>, services: seq<Service>, prices: seq<PriceRow>,
                           bookings: seq<Booking>, products: seq<Product>, starts: seq<Start>)

  lemma HasUserAppend(users: seq<User>, u: User)
    ensures forall id :: HasUser(users, id) ==> HasUser(users + [u], id)
    ensures HasUser(users + [u], u.id)
  {
    forall id | HasUser(users, id) ensures HasUser(users + [u], id) {
      var i :| 0 <= i < |users| && users[i].id == id;
      assert (users + [u])[i] == users[i];
    }
    assert (users + [u])[|users|] == u;
  }

  /** Renaming a worker keeps every id, so every foreign key still resolves. */
  lemma RenamedKeepsReferences(users: seq<User>, id: int, name: string, pin: string, nextUserId: int,
                               services: seq<Service>, prices: seq<PriceRow>, bookings: seq<Booking>, products: seq<Product>)
    requires PricesReferenceRows(prices, users, services) && BookingsReferenceRows(bookings, users, services)
    requires ProductsReferenceUsers(products, users)
    requires forall i :: 0 <= i < |users| ==> users[i].id < nextUserId
    ensures PricesReferenceRows(prices, Admin.Renamed(users, id, name, pin), services)
    ensures BookingsReferenceRows(bookings, Admin.Renamed(users, id, name, pin), services)
    ensures ProductsReferenceUsers(products, Admin.Renamed(users, id, name, pin))
    ensures forall i :: 0 <= i < |Admin.Renamed(users, id, name, pin)| ==> Admin.Renamed(users, id, name, pin)[i].id < nextUserId
  {
    var r := Admin.Renamed(users, id, name, pin);
    forall x | HasUser(users, x) ensures HasUser(r, x) {
      var i :| 0 <= i < |users| && users[i].id == x;
      assert r[i].id == x;
    }
  }

  /** Restamping a float keeps every id. */
  lemma RestampedKeepsIds(starts: seq<Start>, id: int, price: int, createdAt: int, nextStartId: int)
    requires UniqueStartIds(starts)
    requires forall i :: 0 <= i < |starts| ==> starts[i].id < nextStartId
    ensures UniqueStartIds(Starts.Restamped(starts, id, price, createdAt))
    ensures forall i :: 0 <= i < |starts| ==> Starts.Restamped(starts, id, price, createdAt)[i].id < nextStartId
  {
    var r := Starts.Restamped(starts, id, price, createdAt);
    assert forall i :: 0 <= i < |starts| ==> r[i].id == starts[i].id;
  }

  /** Deleting floats keeps the ids distinct and below the counter. */
  lemma DeleteKeepsIds(starts: seq<Start>, id: int, nextStartId: int)
    requires UniqueStartIds(starts)
    requires forall i :: 0 <= i < |starts| ==> starts[i].id < nextStartId
    ensures UniqueStartIds(Filter(starts, Starts.IdIsNot(id)))
    ensures forall i :: 0 <= i < |Filter(starts, Starts.IdIsNot(id))| ==> Filter(starts, Starts.IdIsNot(id))[i].id < nextStartId
  {
    var r := Filter(starts, Starts.IdIsNot(id));
    assert Pairwise(starts, DistinctIds());
    FilterPairwise(starts, Starts.IdIsNot(id), DistinctIds());
    assert Pairwise(r, DistinctIds());
    forall i | 0 <= i < |r| ensures r[i].id < nextStartId {
      assert r[i] in r;
      assert r[i] in starts;
    }
  }

  /** In a table with distinct ids, deleting by id removes exactly that row. */
  lemma DeleteRemovesRow(starts: seq<Start>, id: int, s: Start)
    requires s in starts && s.id == id
    ensures s !in Filter(starts, Starts.IdIsNot(id))
  {
  }

  lemma UpsertKeepsReferences(prices: seq<PriceRow>, users: seq<User>, services: seq<Service>,
                              userId: int, serviceId: int, price: int, enabled: bool)
    requires UniquePriceKeys(prices) && PricesReferenceRows(prices, users, services)
    requires HasUser(users, userId) && HasService(services, serviceId)
    ensures PricesReferenceRows(Services.Upsert(prices, userId, serviceId, price, enabled), users, services)
  {
    var r := Services.Upsert(prices, userId, serviceId, price, enabled);
    forall i | 0 <= i < |r| ensures HasUser(users, r[i].userId) && HasService(services, r[i].serviceId) {
      if (r[i].userId, r[i].serviceId) != (userId, serviceId) {
        assert r[i] in prices;
        var k :| 0 <= k < |prices| && prices[k] == r[i];
      }
    }
  }

  /** The schema's unique and foreign-key constraints, and every id below the
      counter the next insert takes its id from. */
  ghost predicate Consistent(t: Tables, nextUserId: int, nextBookingId: int, nextProductId: int, nextStartId: int) {
    && WellFormedUsers(t.users) && UniqueServiceIds(t.services) && UniquePriceKeys(t.prices)
    && PricesReferenceRows(t.prices, t.users, t.services)
    && UniqueBookingIds(t.bookings) && BookingsReferenceRows(t.bookings, t.users, t.services)
    && UniqueProductIds(t.products) && ProductsReferenceUsers(t.products, t.users)
    && UniqueStartIds(t.starts)
    && (forall i :: 0 <= i < |t.users| ==> t.users[i].id < nextUserId)
    && (forall i :: 0 <= i < |t.bookings| ==> t.bookings[i].id < nextBookingId)
    && (forall i :: 0 <= i < |t.products| ==> t.products[i].id < nextProductId)
    && (forall i :: 0 <= i < |t.starts| ==> t.starts[i].id < nextStartId)
  }

  /** A rename that passes `updateUser`'s checks keeps the tables consistent. */
  lemma RenameKeepsConsistent(t: Tables, nu: int, nb: int, np: int, ns: int, i: int, name: string, pin: string)
    requires Consistent(t, nu, nb, np, ns) && 0 <= i < |t.users|
    requires Admin.DetailsCheck(t.users, Some(t.users[i].id), name, pin).None?
    ensures Consistent(t.(users := Admin.Renamed(t.users, t.users[i].id, name, pin)), nu, nb, np, ns)
  {
    Admin.UpdateKeepsUsersWellFormed(t.users, i, name, pin);
    RenamedKeepsReferences(t.users, t.users[i].id, name, pin, nu, t.services, t.prices, t.bookings, t.products);
  }

  /** So does restamping a float. */
  lemma RestampKeepsConsistent(t: Tables, nu: int, nb: int, np: int, ns: int, id: int, price: int, createdAt: int)
    requires Consistent(t, nu, nb, np, ns)
    ensures Consistent(t.(starts := Starts.Restamped(t.starts, id, price, createdAt)), nu, nb, np, ns)
  {
    RestampedKeepsIds(t.starts, id, price, createdAt, ns);
  }

  /** Editing a booking onto an existing service keeps the tables consistent. */
  lemma EditKeepsConsistent(t: Tables, nu: int, nb: int, np: int, ns: int, id: int, serviceId: int, price: int, createdAt: int)
    requires Consistent(t, nu, nb, np, ns) && HasService(t.services, serviceId)
    ensures Consistent(t.(bookings := Bookings.Edited(t.bookings, id, serviceId, price, createdAt)), nu, nb, np, ns)
  {
    var e := Bookings.Edited(t.bookings, id, serviceId, price, createdAt);
    assert forall i :: 0 <= i < |e| ==> e[i].id == t.bookings[i].id && e[i].userId == t.bookings[i].userId;
  }

  /** Adding a worker that passed `createUser`'s checks keeps the tables consistent. */
  lemma AddUserKeepsConsistent(t: Tables, nu: int, nb: int, np: int, ns: int, name: string, pin: string)
    requires Consistent(t, nu, nb, np, ns)
    requires Admin.DetailsCheck(t.users, None, name, pin).None?
    ensures Consistent(t.(users := t.users + [User(nu, name, pin, USER)]), nu + 1, nb, np, ns)
  {
    var u := User(nu, name, pin, USER);
    Admin.CreateKeepsUsersWellFormed(t.users, nu, name, pin);
    HasUserAppend(t.users, u);
  }

  /** Opening a float under the next start id keeps the tables consistent. */
  lemma AppendStartKeepsConsistent(t: Tables, nu: int, nb: int, np: int, ns: int, price: int, createdAt: int)
    requires Consistent(t, nu, nb, np, ns)
    ensures Consistent(t.(starts := t.starts + [Start(ns, price, createdAt)]), nu, nb, np, ns + 1)
  {
    var after := t.starts + [Start(ns, price, createdAt)];
    assert forall i :: 0 <= i < |t.starts| ==> after[i] == t.starts[i];
  }

  /** So does deleting the float with a given id. */
  lemma DeleteStartKeepsConsistent(t: Tables, nu: int, nb: int, np: int, ns: int, id: int)
    requires Consistent(t, nu, nb, np, ns)
    ensures Consistent(t.(starts := Filter(t.starts, Starts.IdIsNot(id))), nu, nb, np, ns)
  {
    DeleteKeepsIds(t.starts, id, ns);
  }

  function DistinctIds(): (Start, Start) -> bool { (a: Start, b: Start) => a.id != b.id }

  class Store {
    var users: seq<User>
    var services: seq<Service>
    var prices: seq<PriceRow>
    var bookings: seq<Booking>
    var products: seq<Product>
    var starts: seq<Start>
    /** The value each autoincrement id takes next. */
    var nextUserId: int
    var nextBookingId: int
    var nextProductId: int
    var nextStartId: int

    function Contents(): Tables
      reads this
    {
      Tables(users, services, prices, bookings, products, starts)
    }

    /** The schema's unique and foreign-key constraints, and ids below the counters. */
    ghost predicate Valid()
      reads this
    {
      Consistent(Contents(), nextUserId, nextBookingId, nextProductId, nextStartId)
    }

    /** A database seeded with workers and services and nothing sold yet. */
    constructor (users: seq<User>, services: seq<Service>, nextUserId: int)
      requires WellFormedUsers(users) && UniqueServiceIds(services)
      requires forall i :: 0 <= i < |users| ==> users[i].id < nextUserId
      ensures Valid()
      ensures Contents() == Tables(users, services, [], [], [], [])
    {
      this.users := users;
      this.services := services;
      this.prices := [];
      this.bookings := [];
      this.products := [];
      this.starts := [];
      this.nextUserId := nextUserId;
      this.nextBookingId := 1;
      this.nextProductId := 1;
      this.nextStartId := 1;
    }

    /** `createUser`: refused for a non-admin, for an empty field or a name or
        PIN already in use (the name checked first), with nothing written;
        otherwise exactly one worker with role "USER" is added. */
    method CreateUser(session: Option<Auth.Claims>, name: string, pin: string) returns (r: Reply<User>)
      requires Valid()
      modifies this
      ensures Valid()
      ensures Admin.RequireAdmin(session) != Pass ==> r == Raise(Admin.NOT_ADMIN) && Contents() == old(Contents())
      ensures Admin.RequireAdmin(session) == Pass && Admin.DetailsCheck(old(users), None, name, pin).Some? ==>
                r == Fail(Admin.DetailsCheck(old(users), None, name, pin).value) && Contents() == old(Contents())
      ensures Admin.RequireAdmin(session) == Pass && Admin.DetailsCheck(old(users), None, name, pin).None? ==>
                && r == Ok(User(old(nextUserId), name, pin, USER))
                && Contents() == old(Contents()).(users := old(users) + [r.data])
                && Users.GetUser(users, pin) == Some(Users.UserInfo(r.data.id, name, USER))
    {
      if Admin.RequireAdmin(session) != Pass {
        return Raise(Admin.NOT_ADMIN);
      }
      var problem := Admin.DetailsCheck(users, None, name, pin);
      if problem.Some? {
        return Fail(problem.value);
      }
      var user := AddUser(name, pin);
      r := Ok(user);
    }

    /** The insert `createUser` makes once its checks have passed. */
    method AddUser(name: string, pin: string) returns (user: User)
      requires Valid() && Admin.DetailsCheck(users, None, name, pin).None?
      modifies this
      ensures Valid()
      ensures user == User(old(nextUserId), name, pin, USER)
      ensures Contents() == old(Contents()).(users := old(users) + [user])
      ensures Users.GetUser(users, pin) == Some(Users.UserInfo(user.id, name, USER))
    {
      user := User(nextUserId, name, pin, USER);
      ghost var after := Contents().(users := users + [user]);
      Admin.CreateKeepsUsersWellFormed(users, nextUserId, name, pin);
      AddUserKeepsConsistent(Contents(), nextUserId, nextBookingId, nextProductId, nextStartId, name, pin);
      users := users + [user];
      nextUserId := nextUserId + 1;
      assert Contents() == after;
    }

    /** `updateUser`: the same checks, each leaving out the worker's own row; a
        missing worker makes the update fail; otherwise only that worker's name
        and PIN change. */
    method UpdateUser(session: Option<Auth.Claims>, id: int, name: string, pin: string) returns (r: Reply<User>)
      requires Valid()
      modifies this
      ensures Valid()
      ensures Admin.RequireAdmin(session) != Pass ==> r == Raise(Admin.NOT_ADMIN) && Contents() == old(Contents())
      ensures Admin.RequireAdmin(session) == Pass && Admin.DetailsCheck(old(users), Some(id), name, pin).Some? ==>
                r == Fail(Admin.DetailsCheck(old(users), Some(id), name, pin).value) && Contents() == old(Contents())
      ensures Admin.RequireAdmin(session) == Pass && Admin.DetailsCheck(old(users), Some(id), name, pin).None?
              && !HasUser(old(users), id) ==>
                r == Fail(Admin.UPDATE_FAILED) && Contents() == old(Contents())
      ensures Admin.RequireAdmin(session) == Pass && Admin.DetailsCheck(old(users), Some(id), name, pin).None?
              && HasUser(old(users), id) ==>
                && Contents() == old(Contents()).(users := Admin.Renamed(old(users), id, name, pin))
                && r.Ok? && r.data in users && r.data.id == id && r.data.name == name && r.data.pin == pin
    {
      if Admin.RequireAdmin(session) != Pass {
        return Raise(Admin.NOT_ADMIN);
      }
      var problem := Admin.DetailsCheck(users, Some(id), name, pin);
      if problem.Some? {
        return Fail(problem.value);
      }
      var found := FindFirst(users, Users.IdIs(id));
      if found.None? {
        return Fail(Admin.UPDATE_FAILED);
      }
      ghost var i :| 0 <= i < |users| && users[i] == found.value && users[i].id == id;
      Rename(i, id, name, pin);
      r := Ok(found.value.(name := name, pin := pin));
      assert users[i] == r.data;
    }

    /** The write `updateUser` makes once its checks have passed. */
    method Rename(ghost i: int, id: int, name: string, pin: string)
      requires Valid() && 0 <= i < |users| && users[i].id == id
      requires Admin.DetailsCheck(users, Some(id), name, pin).None?
      modifies this
      ensures Valid()
      ensures Contents() == old(Contents()).(users := Admin.Renamed(old(users), id, name, pin))
    {
      RenameKeepsConsistent(Contents(), nextUserId, nextBookingId, nextProductId, nextStartId, i, name, pin);
      users := Admin.Renamed(users, id, name, pin);
    }

    /** `assignServiceToUser`: refused for a non-admin, a negative price, a
        missing worker or a missing service; otherwise the upsert leaves exactly
        one row for the pair, with the price and `enabled` (true by default). */
    method AssignServiceToUser(session: Option<Auth.Claims>, userId: int, serviceId: int, price: int, enabled: Option<bool>)
      returns (r: Reply<Services.PricedService>)
      requires Valid()
      modifies this
      ensures Valid()
      ensures Admin.RequireAdmin(session) != Pass ==> r == Raise(Admin.NOT_ADMIN) && Contents() == old(Contents())
      ensures Admin.RequireAdmin(session) == Pass && Admin.AssignCheck(old(users), old(services), userId, serviceId, price).Some? ==>
                r == Fail(Admin.AssignCheck(old(users), old(services), userId, serviceId, price).value)
                && Contents() == old(Contents())
      ensures Admin.RequireAdmin(session) == Pass && Admin.AssignCheck(old(users), old(services), userId, serviceId, price).None? ==>
                && Contents() == old(Contents()).(prices := Services.Upsert(old(prices), userId, serviceId, price, enabled.GetOr(true)))
                && r.Ok? && r.data.row == PriceRow(userId, serviceId, price, enabled.GetOr(true))
                && r.data.service in services && r.data.service.id == serviceId
    {
      if Admin.RequireAdmin(session) != Pass {
        return Raise(Admin.NOT_ADMIN);
      }
      var problem := Admin.AssignCheck(users, services, userId, serviceId, price);
      if problem.Some? {
        return Fail(problem.value);
      }
      var on := enabled.GetOr(true);
      WritePrice(userId, serviceId, price, on);
      r := Ok(Services.PricedService(PriceRow(userId, serviceId, price, on), Services.ServiceById(services, serviceId)));
    }

    /** The upsert of a price row for an existing worker and service. */
    method WritePrice(userId: int, serviceId: int, price: int, enabled: bool)
      requires Valid() && HasUser(users, userId) && HasService(services, serviceId)
      modifies this
      ensures Valid()
      ensures Contents() == old(Contents()).(prices := Services.Upsert(old(prices), userId, serviceId, price, enabled))
    {
      UpsertKeepsReferences(prices, users, services, userId, serviceId, price, enabled);
      prices := Services.Upsert(prices, userId, serviceId, price, enabled);
    }

    /** `removeServiceFromUser`: for an admin, clears `enabled` on the pair's row;
        a missing row counts as success and no row is created. */
    method RemoveServiceFromUser(session: Option<Auth.Claims>, userId: int, serviceId: int) returns (r: Reply<()>)
      requires Valid()
      modifies this
      ensures Valid()
      ensures Admin.RequireAdmin(session) != Pass ==> r == Raise(Admin.NOT_ADMIN) && Contents() == old(Contents())
      ensures Admin.RequireAdmin(session) == Pass ==>
                r == Ok(()) && Contents() == old(Contents()).(prices := Services.Disable(old(prices), userId, serviceId))
    {
      if Admin.RequireAdmin(session) != Pass {
        return Raise(Admin.NOT_ADMIN);
      }
      prices := Services.Disable(prices, userId, serviceId);
      r := Ok(());
    }

    /** `setUserServicePrice`: upserts the pair's row with `enabled` true. Creating
        a row for a missing worker or service breaks a foreign key, which is
        rethrown as the action's own error with nothing written. */
    method SetUserServicePrice(userId: int, serviceId: int, price: int) returns (r: Reply<PriceRow>)
      requires Valid()
      modifies this
      ensures Valid()
      ensures Services.HasRow(old(prices), userId, serviceId) || (HasUser(old(users), userId) && HasService(old(services), serviceId))
              ==> && r == Ok(PriceRow(userId, serviceId, price, true))
                  && Contents() == old(Contents()).(prices := Services.Upsert(old(prices), userId, serviceId, price, true))
      ensures !Services.HasRow(old(prices), userId, serviceId) && !(HasUser(old(users), userId) && HasService(old(services), serviceId))
              ==> r == Raise(SET_PRICE_FAILED) && Contents() == old(Contents())
    {
      var existing := Services.KeyIndex(prices, userId, serviceId);
      if existing.None? && !(HasUser(users, userId) && HasService(services, serviceId)) {
        return Raise(SET_PRICE_FAILED);
      }
      if existing.Some? {
        assert HasUser(users, prices[existing.value].userId) && HasService(services, prices[existing.value].serviceId);
      }
      WritePrice(userId, serviceId, price, true);
      r := Ok(PriceRow(userId, serviceId, price, true));
    }

    /** `updateUserServicePrice`: the same action as `setUserServicePrice`. */
    method UpdateUserServicePrice(userId: int, serviceId: int, price: int) returns (r: Reply<PriceRow>)
      requires Valid()
      modifies this
      ensures Valid()
      ensures Services.HasRow(old(prices), userId, serviceId) || (HasUser(old(users), userId) && HasService(old(services), serviceId))
              ==> && r == Ok(PriceRow(userId, serviceId, price, true))
                  && Contents() == old(Contents()).(prices := Services.Upsert(old(prices), userId, serviceId, price, true))
      ensures !Services.HasRow(old(prices), userId, serviceId) && !(HasUser(old(users), userId) && HasService(old(services), serviceId))
              ==> r == Raise(SET_PRICE_FAILED) && Contents() == old(Contents())
    {
      r := SetUserServicePrice(userId, serviceId, price);
    }

    /** Appends one booking with the next id; a missing worker or service breaks a foreign key. */
    method InsertBooking(userId: int, serviceId: int, price: int, createdAt: int) returns (r: Option<Booking>)
      requires Valid()
      modifies this
      ensures Valid()
      ensures HasUser(old(users), userId) && HasService(old(services), serviceId) ==>
                && r == Some(Booking(old(nextBookingId), userId, serviceId, price, createdAt))
                && Contents() == old(Contents()).(bookings := old(bookings) + [r.value])
      ensures !(HasUser(old(users), userId) && HasService(old(services), serviceId)) ==>
                r == None && Contents() == old(Contents())
    {
      if !(HasUser(users, userId) && HasService(services, serviceId)) {
        return None;
      }
      var booking := Booking(nextBookingId, userId, serviceId, price, createdAt);
      bookings := bookings + [booking];
      nextBookingId := nextBookingId + 1;
      r := Some(booking);
    }

    /** `createBooking` of bookings.ts: the caller gives the time; a failed
        insert answers null instead of throwing. */
    method CreateBooking(userId: int, serviceId: int, price: int, createdAt: int) returns (r: Option<Booking>)
      requires Valid()
      modifies this
      ensures Valid()
      ensures HasUser(old(users), userId) && HasService(old(services), serviceId) ==>
                && r == Some(Booking(old(nextBookingId), userId, serviceId, price, createdAt))
                && Contents() == old(Contents()).(bookings := old(bookings) + [r.value])
      ensures !(HasUser(old(users), userId) && HasService(old(services), serviceId)) ==>
                r == None && Contents() == old(Contents())
    {
      r := InsertBooking(userId, serviceId, price, createdAt);
    }

    /** `createBooking` of service.action.ts: the time is the database's `now()`
        default, given here as `now`; a failed insert throws Prisma's error. */
    method CreateBookingAtNow(userId: int, serviceId: int, price: int, now: int) returns (r: Reply<Booking>)
      requires Valid()
      modifies this
      ensures Valid()
      ensures HasUser(old(users), userId) && HasService(old(services), serviceId) ==>
                && r == Ok(Booking(old(nextBookingId), userId, serviceId, price, now))
                && Contents() == old(Contents()).(bookings := old(bookings) + [r.data])
      ensures !(HasUser(old(users), userId) && HasService(old(services), serviceId)) ==>
                r == Raise(FOREIGN_KEY_FAILED) && Contents() == old(Contents())
    {
      var inserted := InsertBooking(userId, serviceId, price, now);
      r := if inserted.Some? then Ok(inserted.value) else Raise(FOREIGN_KEY_FAILED);
    }

    /** `editBooking`: the booking with `id` takes the new service, price and
        time and keeps its id and worker; every other booking is kept. A missing
        booking or service makes Prisma throw, with nothing written. */
    method EditBooking(id: int, serviceId: int, price: int, createdAt: int) returns (r: Reply<Booking>)
      requires Valid()
      modifies this
      ensures Valid()
      ensures (forall b :: b in old(bookings) ==> b.id != id) ==> r == Raise(RECORD_NOT_FOUND) && Contents() == old(Contents())
      ensures (exists b :: b in old(bookings) && b.id == id) && !HasService(old(services), serviceId) ==>
                r == Raise(FOREIGN_KEY_FAILED) && Contents() == old(Contents())
      ensures forall b :: b in old(bookings) && b.id == id && HasService(old(services), serviceId) ==>
                && r == Ok(b.(serviceId := serviceId, price := price, createdAt := createdAt))
                && Contents() == old(Contents()).(bookings := Bookings.Edited(old(bookings), id, serviceId, price, createdAt))
    {
      var found := Bookings.GetBookingById(bookings, id);
      if found.None? {
        return Raise(RECORD_NOT_FOUND);
      }
      if !HasService(services, serviceId) {
        return Raise(FOREIGN_KEY_FAILED);
      }
      WriteBooking(id, serviceId, price, createdAt);
      r := Ok(found.value.(serviceId := serviceId, price := price, createdAt := createdAt));
    }

    /** The update of a booking onto an existing service. */
    method WriteBooking(id: int, serviceId: int, price: int, createdAt: int)
      requires Valid() && HasService(services, serviceId)
      modifies this
      ensures Valid()
      ensures Contents() == old(Contents()).(bookings := Bookings.Edited(old(bookings), id, serviceId, price, createdAt))
    {
      EditKeepsConsistent(Contents(), nextUserId, nextBookingId, nextProductId, nextStartId, id, serviceId, price, createdAt);
      bookings := Bookings.Edited(bookings, id, serviceId, price, createdAt);
    }

    /** `createProduct`: appends one product; a failed insert answers null. */
    method CreateProduct(userId: int, name: string, price: int, createdAt: int) returns (r: Option<Product>)
      requires Valid()
      modifies this
      ensures Valid()
      ensures HasUser(old(users), userId) ==>
                && r == Some(Product(old(nextProductId), userId, name, price, createdAt))
                && Contents() == old(Contents()).(products := old(products) + [r.value])
      ensures !HasUser(old(users), userId) ==> r == None && Contents() == old(Contents())
    {
      if !HasUser(users, userId) {
        return None;
      }
      var product := Product(nextProductId, userId, name, price, createdAt);
      products := products + [product];
      nextProductId := nextProductId + 1;
      r := Some(product);
    }

    /** `createStart`: refused, naming the date, when a float already lies in the
        day of `createdAt`; otherwise one float is appended, which keeps the
        table at one float per day. */
    method CreateStart(cal: Calendar, price: int, createdAt: int) returns (r: Reply<Start>)
      requires Valid()
      modifies this
      ensures Valid()
      ensures Starts.Conflict(cal, old(starts), createdAt, None).Some? ==>
                r == Raise(Starts.CREATE_CONFLICT + cal.dateText(createdAt)) && Contents() == old(Contents())
      ensures Starts.Conflict(cal, old(starts), createdAt, None).None? ==>
                && r == Ok(Start(old(nextStartId), price, createdAt))
                && Contents() == old(Contents()).(starts := old(starts) + [r.data])
      ensures cal.Valid() && Starts.OnePerDay(cal, old(starts)) ==> Starts.OnePerDay(cal, starts)
    {
      if Starts.Conflict(cal, starts, createdAt, None).Some? {
        return Raise(Starts.CREATE_CONFLICT + cal.dateText(createdAt));
      }
      var start := Start(nextStartId, price, createdAt);
      if cal.Valid() && Starts.OnePerDay(cal, starts) {
        Starts.CreateKeepsOnePerDay(cal, starts, start);
      }
      AppendStart(price, createdAt);
      r := Ok(start);
    }

    /** `updateStart`: refused, naming the date, when a float other than this one
        lies in the target day; a missing float makes Prisma's update throw;
        otherwise only this float's price and time change. */
    method UpdateStart(cal: Calendar, id: int, price: int, createdAt: int) returns (r: Reply<Start>)
      requires Valid()
      modifies this
      ensures Valid()
      ensures Starts.Conflict(cal, old(starts), createdAt, Some(id)).Some? ==>
                r == Raise(Starts.UPDATE_CONFLICT + cal.dateText(createdAt)) && Contents() == old(Contents())
      ensures Starts.Conflict(cal, old(starts), createdAt, Some(id)).None? && (forall s :: s in old(starts) ==> s.id != id) ==>
                r == Raise(RECORD_NOT_FOUND) && Contents() == old(Contents())
      ensures Starts.Conflict(cal, old(starts), createdAt, Some(id)).None? && (exists s :: s in old(starts) && s.id == id) ==>
                && r == Ok(Start(id, price, createdAt))
                && Contents() == old(Contents()).(starts := Starts.Restamped(old(starts), id, price, createdAt))
      ensures cal.Valid() && Starts.OnePerDay(cal, old(starts)) ==> Starts.OnePerDay(cal, starts)
    {
      if Starts.Conflict(cal, starts, createdAt, Some(id)).Some? {
        return Raise(Starts.UPDATE_CONFLICT + cal.dateText(createdAt));
      }
      if Starts.GetStartById(starts, id).None? {
        return Raise(RECORD_NOT_FOUND);
      }
      if cal.Valid() && Starts.OnePerDay(cal, starts) {
        Starts.UpdateKeepsOnePerDay(cal, starts, id, price, createdAt);
      }
      WriteStart(id, price, createdAt);
      r := Ok(Start(id, price, createdAt));
    }

    /** The insert of a float under the next start id. */
    method AppendStart(price: int, createdAt: int)
      requires Valid()
      modifies this
      ensures Valid()
      ensures Contents() == old(Contents()).(starts := old(starts) + [Start(old(nextStartId), price, createdAt)])
      ensures nextStartId == old(nextStartId) + 1
    {
      ghost var after := Contents().(starts := starts + [Start(nextStartId, price, createdAt)]);
      AppendStartKeepsConsistent(Contents(), nextUserId, nextBookingId, nextProductId, nextStartId, price, createdAt);
      starts := starts + [Start(nextStartId, price, createdAt)];
      nextStartId := nextStartId + 1;
      assert Contents() == after;
    }

    /** The delete of every float with the given id. */
    method DropStart(id: int)
      requires Valid()
      modifies this
      ensures Valid()
      ensures Contents() == old(Contents()).(starts := Filter(old(starts), Starts.IdIsNot(id)))
    {
      DeleteStartKeepsConsistent(Contents(), nextUserId, nextBookingId, nextProductId, nextStartId, id);
      starts := Filter(starts, Starts.IdIsNot(id));
    }

    /** The update of a float's amount and time. */
    method WriteStart(id: int, price: int, createdAt: int)
      requires Valid()
      modifies this
      ensures Valid()
      ensures Contents() == old(Contents()).(starts := Starts.Restamped(old(starts), id, price, createdAt))
    {
      RestampKeepsConsistent(Contents(), nextUserId, nextBookingId, nextProductId, nextStartId, id, price, createdAt);
      starts := Starts.Restamped(starts, id, price, createdAt);
    }

    /** `deleteStart`: removes exactly the float with `id` and answers it; a
        missing float raises the action's error. One float per day, under any
        calendar, survives the delete. */
    method DeleteStart(id: int) returns (r: Reply<Start>)
      requires Valid()
      modifies this
      ensures Valid()
      ensures (forall s :: s in old(starts) ==> s.id != id) ==>
                r == Raise(Starts.DELETE_FAILED) && Contents() == old(Contents())
      ensures forall s :: s in old(starts) && s.id == id ==>
                && r == Ok(s)
                && Contents() == old(Contents()).(starts := Filter(old(starts), Starts.IdIsNot(id)))
                && s !in starts
      ensures forall cal: Calendar :: Starts.OnePerDay(cal, old(starts)) ==> Starts.OnePerDay(cal, starts)
    {
      var found := Starts.GetStartById(starts, id);
      if found.None? {
        return Raise(Starts.DELETE_FAILED);
      }
      forall cal: Calendar | Starts.OnePerDay(cal, starts) ensures Starts.OnePerDay(cal, Filter(starts, Starts.IdIsNot(id))) {
        Starts.DeleteKeepsOnePerDay(cal, starts, id);
      }
      DeleteRemovesRow(starts, id, found.value);
      DropStart(id);
      r := Ok(found.value);
    }
  }
}
