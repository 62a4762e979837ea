/** src/lib/actions/admin.ts: the admin gate, input validation, the uniqueness
    checks that guard creating and editing workers, and the admin listings.
    The table updates themselves are methods of `Db.Store`. */
module Admin {
  import opened Wrappers
  import opened Records
  import opened Strings
  import opened Seqs
  import opened Sorting
  import opened Services
  import Users
  import Auth

  const NOT_ADMIN := "Brak uprawnień administratora"
  const NAME_REQUIRED := "Nazwa jest wymagana"
  const PIN_REQUIRED := "PIN jest wymagany"
  const PRICE_NEGATIVE := "Cena musi być większa lub równa 0"
  const NAME_TAKEN := "Użytkownik o tej nazwie już istnieje"
  const PIN_TAKEN := "PIN jest już używany przez innego użytkownika"
  const USER_NOT_FOUND := "Użytkownik nie został znaleziony"
  const SERVICE_NOT_FOUND := "Usługa nie została znaleziona"
  const UPDATE_FAILED := "Nie udało się zaktualizować użytkownika"

  /** `requireAdmin()`: `session` is what `auth()` returned (`None` when signed out).
      It passes exactly when there is a session user whose role is "ADMIN". */
  function RequireAdmin(session: Option<Auth.Claims>): (r: Outcome)
    ensures r == Pass <==> exists c :: session == Some(Auth.Claims(Some(c))) && c.role == Some(ADMIN)
    ensures r != Pass ==> r == Throw(NOT_ADMIN)
  {
    if session.None? || session.value.user.None? || session.value.user.value.role != Some(ADMIN) then
      Throw(NOT_ADMIN)
    else
      Pass
  }

  /** The whole sign-in: `authorize` with the PIN, the `jwt` callback, the
      `session` callback, then `requireAdmin` on the resulting session. The
      gate opens exactly for the PIN of a worker whose role is "ADMIN". */
  method SignInThenRequireAdmin(users: seq<User>, pin: string) returns (gate: Outcome)
    requires WellFormedUsers(users)
    ensures gate == Pass <==> pin != "" && exists u :: u in users && u.pin == pin && u.role == ADMIN
    ensures gate != Pass ==> gate == Throw(NOT_ADMIN)
  {
    var user := Auth.Authorize(users, Some(pin));
    var token := new Auth.Token(None, None, None);
    token := Auth.Jwt(token, user);
    var sessionUser := new Auth.SessionUser(None, None, None);
    var session := new Auth.Session(sessionUser);
    session := Auth.SessionCallback(session, token);
    gate := RequireAdmin(Some(session.View()));
  }

  /** The schema checks on `name` and `pin`, reported in field order. */
  function ValidateDetails(name: string, pin: string): (r: Option<string>)
    ensures r.None? <==> name != "" && pin != ""
    ensures name == "" ==> r == Some(NAME_REQUIRED)
    ensures name != "" && pin == "" ==> r == Some(PIN_REQUIRED)
  {
    if name == "" then Some(NAME_REQUIRED)
    else if pin == "" then Some(PIN_REQUIRED)
    else None
  }

  predicate NameTakenByOther(users: seq<User>, id: Option<int>, name: string) {
    exists i :: 0 <= i < |users| && users[i].name == name && Some(users[i].id) != id
  }

  predicate PinTakenByOther(users: seq<User>, id: Option<int>, pin: string) {
    exists i :: 0 <= i < |users| && users[i].pin == pin && Some(users[i].id) != id
  }

  /** The first user other than `id` whose field `f` equals `v`, as `findFirst` /
      `findUnique` would return it. */
  function FindOther(users: seq<User>, id: Option<int>, f: User -> string, v: string): (r: Option<User>)
    ensures r.None? <==> forall i :: 0 <= i < |users| ==> !(f(users[i]) == v && Some(users[i].id) != id)
    decreases |users|
  {
    if |users| == 0 then None
    else if f(users[0]) == v && Some(users[0].id) != id then Some(users[0])
    else FindOther(users[1..], id, f, v)
  }

  function NameOf(): User -> string { (u: User) => u.name }

  function PinOf(): User -> string { (u: User) => u.pin }

  /** What `createUser` (`id == None`) or `updateUser` (`id == Some(worker)`)
      answers before it writes: a validation message, a clash with another
      worker's name, then with another worker's PIN; `None` lets the write go ahead. */
  function DetailsCheck(users: seq<User>, id: Option<int>, name: string, pin: string): (r: Option<string>)
    ensures r.None? <==> name != "" && pin != "" && !NameTakenByOther(users, id, name) && !PinTakenByOther(users, id, pin)
    ensures ValidateDetails(name, pin).Some? ==> r == ValidateDetails(name, pin)
    ensures ValidateDetails(name, pin).None? && NameTakenByOther(users, id, name) ==> r == Some(NAME_TAKEN)
    ensures ValidateDetails(name, pin).None? && !NameTakenByOther(users, id, name) && PinTakenByOther(users, id, pin)
            ==> r == Some(PIN_TAKEN)
  {
    if ValidateDetails(name, pin).Some? then ValidateDetails(name, pin)
    else if FindOther(users, id, NameOf(), name).Some? then Some(NAME_TAKEN)
    else if FindOther(users, id, PinOf(), pin).Some? then Some(PIN_TAKEN)
    else None
  }

  /** `updateUser`'s write: the worker with `id` gets the new name and PIN. */
  function Renamed(users: seq<User>, id: int, name: string, pin: string): (r: seq<User>)
    ensures |r| == |users|
    ensures forall i :: 0 <= i < |users| ==>
              r[i] == if users[i].id == id then users[i].(name := name, pin := pin) else users[i]
  {
    if |users| == 0 then []
    else
      var u := users[|users| - 1];
      Renamed(users[..|users| - 1], id, name, pin) + [if u.id == id then u.(name := name, pin := pin) else u]
  }

  /** A worker created after the checks pass keeps names and PINs unique, and
      their PIN signs them in. */
  lemma CreateKeepsUsersWellFormed(users: seq<User>, id: int, name: string, pin: string)
    requires WellFormedUsers(users) && !HasUser(users, id)
    requires DetailsCheck(users, None, name, pin).None?
    ensures WellFormedUsers(users + [User(id, name, pin, USER)])
    ensures Users.GetUser(users + [User(id, name, pin, USER)], pin) == Some(Users.UserInfo(id, name, USER))
  {
    var users' := users + [User(id, name, pin, USER)];
    assert users'[|users|] == User(id, name, pin, USER);
    forall i | 0 <= i < |users| ensures users'[i].name != name && users'[i].pin != pin && users'[i].id != id {
      assert users'[i] == users[i];
    }
  }

  /** An edit that passes the checks keeps names and PINs unique. */
  lemma UpdateKeepsUsersWellFormed(users: seq<User>, i: int, name: string, pin: string)
    requires WellFormedUsers(users) && 0 <= i < |users|
    requires DetailsCheck(users, Some(users[i].id), name, pin).None?
    ensures WellFormedUsers(Renamed(users, users[i].id, name, pin))
  {
    var r := Renamed(users, users[i].id, name, pin);
    assert r[i] == users[i].(name := name, pin := pin);
    forall j | 0 <= j < |users| && j != i ensures r[j] == users[j] && users[j].name != name && users[j].pin != pin {
      assert users[j].id != users[i].id;
    }
  }

  /** After such an edit the new PIN signs in that worker and a replaced PIN
      signs in nobody. */
  lemma UpdatedPinSignsIn(users: seq<User>, i: int, name: string, pin: string)
    requires WellFormedUsers(users) && 0 <= i < |users|
    requires DetailsCheck(users, Some(users[i].id), name, pin).None?
    ensures WellFormedUsers(Renamed(users, users[i].id, name, pin))
    ensures Users.GetUser(Renamed(users, users[i].id, name, pin), pin)
            == Some(Users.UserInfo(users[i].id, name, users[i].role))
    ensures users[i].pin != pin ==> Users.GetUser(Renamed(users, users[i].id, name, pin), users[i].pin).None?
  {
    UpdateKeepsUsersWellFormed(users, i, name, pin);
    var r := Renamed(users, users[i].id, name, pin);
    assert r[i] == users[i].(name := name, pin := pin);
    forall j | 0 <= j < |users| && j != i ensures r[j] == users[j] && users[j].pin != pin {
      assert users[j].id != users[i].id;
    }
  }

  /** Saving a worker's own name and PIN again is never refused as a clash. */
  lemma ResavingOwnDetailsIsAccepted(users: seq<User>, i: int)
    requires WellFormedUsers(users) && 0 <= i < |users|
    requires users[i].name != "" && users[i].pin != ""
    ensures DetailsCheck(users, Some(users[i].id), users[i].name, users[i].pin) == None
  {
  }

  /** What `assignServiceToUser` answers before its upsert: a negative price,
      then a missing worker, then a missing service. */
  function AssignCheck(users: seq<User>, services: seq<Service>, userId: int, serviceId: int, price: int): (r: Option<string>)
    ensures r.None? <==> price >= 0 && HasUser(users, userId) && HasService(services, serviceId)
    ensures price < 0 ==> r == Some(PRICE_NEGATIVE)
    ensures price >= 0 && !HasUser(users, userId) ==> r == Some(USER_NOT_FOUND)
    ensures price >= 0 && HasUser(users, userId) && !HasService(services, serviceId) ==> r == Some(SERVICE_NOT_FOUND)
  {
    if price < 0 then Some(PRICE_NEGATIVE)
    else if FindFirst(users, Users.IdIs(userId)).None? then Some(USER_NOT_FOUND)
    else if FindFirst(services, (s: Service) => s.id == serviceId).None? then Some(SERVICE_NOT_FOUND)
    else None
  }

  /** A worker with the price rows `include` attaches. */
  datatype UserWithPrices = UserWithPrices(user: User, prices: seq<PricedService>)

  function UserByName(): (User, User) -> bool { (a: User, b: User) => StrLe(a.name, b.name) }

  function ServiceByName(): (Service, Service) -> bool { (a: Service, b: Service) => StrLe(a.name, b.name) }

  lemma NameOrdersAreTotalPreorders()
    ensures TotalPreorder(UserByName()) && TotalPreorder(ServiceByName())
  {
    StrLeIsTotalPreorder();
  }

  function UsersOf(listing: seq<UserWithPrices>): (r: seq<User>)
    ensures |r| == |listing| && forall i :: 0 <= i < |r| ==> r[i] == listing[i].user
  {
    if |listing| == 0 then [] else UsersOf(listing[..|listing| - 1]) + [listing[|listing| - 1].user]
  }

  /** One worker with their enabled rows, in table order. */
  function EnabledListing(u: User, prices: seq<PriceRow>, services: seq<Service>): (l: UserWithPrices)
    requires forall i :: 0 <= i < |prices| ==> HasService(services, prices[i].serviceId)
    ensures l.user == u && RowsOf(l.prices) == Filter(prices, EnabledFor(u.id))
    ensures JoinedWith(l.prices, services)
  {
    var rows := Filter(prices, EnabledFor(u.id));
    assert forall k :: 0 <= k < |rows| ==> rows[k] in prices;
    RowsOfWithServices(rows, services);
    WithServicesJoined(rows, services);
    UserWithPrices(u, WithServices(rows, services))
  }

  /** Each worker of `us`, in that order, with their enabled rows. */
  function Listings(us: seq<User>, prices: seq<PriceRow>, services: seq<Service>): (r: seq<UserWithPrices>)
    requires forall i :: 0 <= i < |prices| ==> HasService(services, prices[i].serviceId)
    ensures UsersOf(r) == us
    ensures forall i :: 0 <= i < |r| ==> RowsOf(r[i].prices) == Filter(prices, EnabledFor(r[i].user.id))
    ensures forall i :: 0 <= i < |r| ==> JoinedWith(r[i].prices, services)
  {
    var r := seq(|us|, i requires 0 <= i < |us| => EnabledListing(us[i], prices, services));
    assert UsersOf(r) == us;
    r
  }

  /** `getAllUsers()`: for an admin, every worker by name with the enabled rows. */
  function GetAllUsers(session: Option<Auth.Claims>, users: seq<User>, prices: seq<PriceRow>, services: seq<Service>)
    : (r: Reply<seq<UserWithPrices>>)
    requires PricesReferenceRows(prices, users, services)
    ensures RequireAdmin(session) != Pass <==> r == Raise(NOT_ADMIN)
    ensures RequireAdmin(session) == Pass ==>
              && r.Ok?
              && multiset(UsersOf(r.data)) == multiset(users)
              && SortedBy(UsersOf(r.data), UserByName())
              && (forall i :: 0 <= i < |r.data| ==> RowsOf(r.data[i].prices) == Filter(prices, EnabledFor(r.data[i].user.id)))
              && forall i :: 0 <= i < |r.data| ==> JoinedWith(r.data[i].prices, services)
  {
    if RequireAdmin(session) != Pass then Raise(NOT_ADMIN)
    else
      var sorted := Sort(users, UserByName());
      NameOrdersAreTotalPreorders();
      SortSorted(users, UserByName());
      Ok(Listings(sorted, prices, services))
  }

  /** `getUserById(id)` (and `getUserByIdWithAllServices`, which is the same query):
      the worker with every price row, enabled or not, by service name. */
  function GetUserById(session: Option<Auth.Claims>, users: seq<User>, prices: seq<PriceRow>, services: seq<Service>, id: int)
    : (r: Reply<UserWithPrices>)
    requires UniqueUserIds(users) && PricesReferenceRows(prices, users, services)
    ensures RequireAdmin(session) != Pass <==> r == Raise(NOT_ADMIN)
    ensures RequireAdmin(session) == Pass && !HasUser(users, id) ==> r == Fail(USER_NOT_FOUND)
    ensures RequireAdmin(session) == Pass ==>
              forall u :: u in users && u.id == id ==>
                && r.Ok? && r.data.user == u
                && multiset(RowsOf(r.data.prices)) == multiset(Filter(prices, OwnedBy(id)))
                && SortedBy(r.data.prices, ByServiceName())
                && JoinedWith(r.data.prices, services)
  {
    if RequireAdmin(session) != Pass then Raise(NOT_ADMIN)
    else
      match FindFirst(users, Users.IdIs(id))
      case None => Fail(USER_NOT_FOUND)
      case Some(u) =>
        var rows := Filter(prices, OwnedBy(id));
        OwnRowsReferenceServices(prices, users, services, id);
        FoundIsTheUser(users, id);
        Ok(UserWithPrices(u, SortByServiceName(rows, services)))
  }

  lemma OwnRowsReferenceServices(prices: seq<PriceRow>, users: seq<User>, services: seq<Service>, id: int)
    requires PricesReferenceRows(prices, users, services)
    ensures forall k :: 0 <= k < |Filter(prices, OwnedBy(id))| ==> HasService(services, Filter(prices, OwnedBy(id))[k].serviceId)
  {
    var rows := Filter(prices, OwnedBy(id));
    forall k | 0 <= k < |rows| ensures HasService(services, rows[k].serviceId) {
      assert rows[k] in prices;
      var i :| 0 <= i < |prices| && prices[i] == rows[k];
    }
  }

  /** With unique ids, the first worker with the id is every worker with it. */
  lemma FoundIsTheUser(users: seq<User>, id: int)
    requires UniqueUserIds(users)
    ensures FindFirst(users, Users.IdIs(id)).Some? ==>
              forall u :: u in users && u.id == id ==> FindFirst(users, Users.IdIs(id)) == Some(u)
  {
  }

  /** `getAllServices()`: the service table by name. */
  function GetAllServices(session: Option<Auth.Claims>, services: seq<Service>): (r: Reply<seq<Service>>)
    ensures RequireAdmin(session) != Pass <==> r == Raise(NOT_ADMIN)
    ensures RequireAdmin(session) == Pass ==>
              r.Ok? && multiset(r.data) == multiset(services) && SortedBy(r.data, ServiceByName())
  {
    if RequireAdmin(session) != Pass then Raise(NOT_ADMIN)
    else
      NameOrdersAreTotalPreorders();
      SortSorted(services, ServiceByName());
      Ok(Sort(services, ServiceByName()))
  }
}
