/** src/lib/actions/services.ts: the per-worker price table, its enabled-only and
    all-rows views, and the upsert that assigns a price. */
module Services {
  import opened Wrappers
  import opened Records
  import opened Strings
  import opened Seqs
  import opened Sorting

  /** A price row together with its service, as `include: { service: true }` returns it. */
  datatype PricedService = PricedService(row: PriceRow, service: Service)

  predicate HasRow(prices: seq<PriceRow>, userId: int, serviceId: int) {
    exists i :: 0 <= i < |prices| && prices[i].userId == userId && prices[i].serviceId == serviceId
  }

  predicate HasEnabledRow(prices: seq<PriceRow>, userId: int, serviceId: int) {
    exists i :: 0 <= i < |prices| && prices[i].userId == userId && prices[i].serviceId == serviceId
                && prices[i].enabled
  }

  function OwnedBy(userId: int): PriceRow -> bool { (r: PriceRow) => r.userId == userId }

  function EnabledFor(userId: int): PriceRow -> bool { (r: PriceRow) => r.userId == userId && r.enabled }

  function KeyIs(userId: int, serviceId: int): PriceRow -> bool {
    (r: PriceRow) => r.userId == userId && r.serviceId == serviceId
  }

  function OfferedBy(prices: seq<PriceRow>, userId: int): Service -> bool {
    (s: Service) => HasEnabledRow(prices, userId, s.id)
  }

  function EverOfferedBy(prices: seq<PriceRow>, userId: int): Service -> bool {
    (s: Service) => HasRow(prices, userId, s.id)
  }

  /** `getUserServices(userId)`: the services with an enabled price row for the worker. */
  function GetUserServices(services: seq<Service>, prices: seq<PriceRow>, userId: int): (r: seq<Service>)
    ensures forall s :: s in r <==> s in services && HasEnabledRow(prices, userId, s.id)
    ensures multiset(r) <= multiset(services)
  {
    Filter(services, OfferedBy(prices, userId))
  }

  /** `getUserServicesAll(userId)`: the services with any price row for the worker. */
  function GetUserServicesAll(services: seq<Service>, prices: seq<PriceRow>, userId: int): (r: seq<Service>)
    ensures forall s :: s in r <==> s in services && HasRow(prices, userId, s.id)
    ensures multiset(r) <= multiset(services)
  {
    Filter(services, EverOfferedBy(prices, userId))
  }

  /** Every service offered now is one the worker has ever offered. */
  lemma OfferedAreEverOffered(services: seq<Service>, prices: seq<PriceRow>, userId: int)
    ensures multiset(GetUserServices(services, prices, userId)) <= multiset(GetUserServicesAll(services, prices, userId))
  {
    FilterStronger(services, EverOfferedBy(prices, userId), OfferedBy(prices, userId));
  }

  /** `getUserServicePrice(userId, serviceId)`: the price only while the row is enabled. */
  function GetUserServicePrice(prices: seq<PriceRow>, userId: int, serviceId: int): (r: Option<int>)
    requires UniquePriceKeys(prices)
    ensures r.Some? <==> HasEnabledRow(prices, userId, serviceId)
    ensures forall i :: (0 <= i < |prices| && prices[i].userId == userId && prices[i].serviceId == serviceId
                         && prices[i].enabled) ==> r == Some(prices[i].price)
  {
    match FindFirst(prices, KeyIs(userId, serviceId))
    case Some(row) => if row.enabled then Some(row.price) else None
    case None => None
  }

  /** `getUserServicePriceAll(userId, serviceId)`: the price whatever `enabled` says. */
  function GetUserServicePriceAll(prices: seq<PriceRow>, userId: int, serviceId: int): (r: Option<int>)
    requires UniquePriceKeys(prices)
    ensures r.Some? <==> HasRow(prices, userId, serviceId)
    ensures forall i :: 0 <= i < |prices| && prices[i].userId == userId && prices[i].serviceId == serviceId
                        ==> r == Some(prices[i].price)
  {
    match FindFirst(prices, KeyIs(userId, serviceId))
    case Some(row) => Some(row.price)
    case None => None
  }

  /** Where the enabled-only lookup finds a price, the historical lookup finds the same one. */
  lemma EnabledPriceIsHistoricalPrice(prices: seq<PriceRow>, userId: int, serviceId: int)
    requires UniquePriceKeys(prices)
    requires GetUserServicePrice(prices, userId, serviceId).Some?
    ensures GetUserServicePriceAll(prices, userId, serviceId) == GetUserServicePrice(prices, userId, serviceId)
  {
  }

  /** The position of the row for (userId, serviceId), if there is one. */
  function KeyIndex(prices: seq<PriceRow>, userId: int, serviceId: int): (r: Option<nat>)
    ensures r.Some? ==> r.value < |prices| && prices[r.value].userId == userId
                        && prices[r.value].serviceId == serviceId
    ensures r.None? ==> !HasRow(prices, userId, serviceId)
  {
    if |prices| == 0 then None
    else
      var last := prices[|prices| - 1];
      if last.userId == userId && last.serviceId == serviceId then Some(|prices| - 1)
      else KeyIndex(prices[..|prices| - 1], userId, serviceId)
  }

  /** Prisma's `upsert` on `userId_serviceId`: afterwards exactly one row has the
      key and it carries `price` and `enabled`; every other row is kept. */
  function Upsert(prices: seq<PriceRow>, userId: int, serviceId: int, price: int, enabled: bool): (r: seq<PriceRow>)
    requires UniquePriceKeys(prices)
    ensures UniquePriceKeys(r)
    ensures HasRow(r, userId, serviceId)
    ensures forall i :: 0 <= i < |r| && r[i].userId == userId && r[i].serviceId == serviceId ==>
                        r[i] == PriceRow(userId, serviceId, price, enabled)
    ensures forall x :: x in r && (x.userId, x.serviceId) != (userId, serviceId) <==>
                        x in prices && (x.userId, x.serviceId) != (userId, serviceId)
    ensures HasRow(prices, userId, serviceId) ==> |r| == |prices|
    ensures !HasRow(prices, userId, serviceId) ==> r == prices + [PriceRow(userId, serviceId, price, enabled)]
  {
    var row := PriceRow(userId, serviceId, price, enabled);
    match KeyIndex(prices, userId, serviceId)
    case Some(i) =>
      assert forall j :: 0 <= j < |prices| && j != i ==> prices[j] == prices[i := row][j];
      assert prices[i := row][i] == row;
      prices[i := row]
    case None =>
      assert (prices + [row])[|prices|] == row;
      prices + [row]
  }

  /** Assigning the same price twice leaves the table as assigning it once. */
  lemma UpsertIdempotent(prices: seq<PriceRow>, userId: int, serviceId: int, price: int, enabled: bool)
    requires UniquePriceKeys(prices)
    ensures Upsert(Upsert(prices, userId, serviceId, price, enabled), userId, serviceId, price, enabled)
            == Upsert(prices, userId, serviceId, price, enabled)
  {
    var once := Upsert(prices, userId, serviceId, price, enabled);
    var i := KeyIndex(once, userId, serviceId).value;
    assert once[i] == PriceRow(userId, serviceId, price, enabled);
    assert once[i := PriceRow(userId, serviceId, price, enabled)] == once;
  }

  /** `update({ where: userId_serviceId, data: { enabled: false } })`, where a
      missing row (P2025) changes nothing. */
  function Disable(prices: seq<PriceRow>, userId: int, serviceId: int): (r: seq<PriceRow>)
    requires UniquePriceKeys(prices)
    ensures UniquePriceKeys(r) && |r| == |prices|
    ensures forall i :: 0 <= i < |prices| ==>
              r[i] == if prices[i].userId == userId && prices[i].serviceId == serviceId
                      then prices[i].(enabled := false) else prices[i]
  {
    match KeyIndex(prices, userId, serviceId)
    case Some(i) => prices[i := prices[i].(enabled := false)]
    case None => prices
  }

  /** Disabling keeps the row and its price for historical edits, hides it from the
      enabled-only lookup, and disabling again changes nothing. */
  lemma DisableHidesButKeepsPrice(prices: seq<PriceRow>, userId: int, serviceId: int)
    requires UniquePriceKeys(prices)
    ensures GetUserServicePrice(Disable(prices, userId, serviceId), userId, serviceId) == None
    ensures GetUserServicePriceAll(Disable(prices, userId, serviceId), userId, serviceId)
            == GetUserServicePriceAll(prices, userId, serviceId)
    ensures Disable(Disable(prices, userId, serviceId), userId, serviceId) == Disable(prices, userId, serviceId)
    ensures !HasRow(prices, userId, serviceId) ==> Disable(prices, userId, serviceId) == prices
  {
    var r := Disable(prices, userId, serviceId);
    if !HasRow(prices, userId, serviceId) {
      assert r == prices;
    }
    assert Disable(r, userId, serviceId) == r;
  }

  function ServiceById(services: seq<Service>, id: int): (s: Service)
    requires HasService(services, id)
    ensures s in services && s.id == id
  {
    FindFirst(services, (s: Service) => s.id == id).value
  }

  /** Each row paired with its service. */
  function WithServices(rows: seq<PriceRow>, services: seq<Service>): (r: seq<PricedService>)
    requires forall i :: 0 <= i < |rows| ==> HasService(services, rows[i].serviceId)
    ensures |r| == |rows|
    ensures forall i :: 0 <= i < |r| ==> r[i].row == rows[i] && r[i].service in services
                                         && r[i].service.id == rows[i].serviceId
  {
    if |rows| == 0 then []
    else WithServices(rows[..|rows| - 1], services)
         + [PricedService(rows[|rows| - 1], ServiceById(services, rows[|rows| - 1].serviceId))]
  }

  function ByServiceName(): (PricedService, PricedService) -> bool {
    (a: PricedService, b: PricedService) => StrLe(a.service.name, b.service.name)
  }

  lemma ByServiceNameIsTotalPreorder()
    ensures TotalPreorder(ByServiceName())
  {
    StrLeIsTotalPreorder();
  }

  function RowsOf(views: seq<PricedService>): (r: seq<PriceRow>)
    ensures |r| == |views| && forall i :: 0 <= i < |r| ==> r[i] == views[i].row
  {
    if |views| == 0 then [] else RowsOf(views[..|views| - 1]) + [views[|views| - 1].row]
  }

  lemma {:induction false} RowsOfMultiset(a: seq<PricedService>, b: seq<PricedService>)
    requires multiset(a) == multiset(b)
    ensures multiset(RowsOf(a)) == multiset(RowsOf(b))
    decreases |a|
  {
    if |a| == 0 {
      assert |multiset(b)| == 0;
    } else {
      var x := a[|a| - 1];
      assert x in multiset(b);
      var k :| 0 <= k < |b| && b[k] == x;
      var a', l, r := a[..|a| - 1], b[..k], b[k + 1..];
      assert a == a' + [x];
      assert b == l + [x] + r;
      RemoveOne(a', x, l, r);
      RowsOfMultiset(a', l + r);
      RowsOfLast(a);
      RowsOfPick(l, x, r);
    }
  }

  lemma RowsOfLast(a: seq<PricedService>)
    requires |a| > 0
    ensures multiset(RowsOf(a)) == multiset(RowsOf(a[..|a| - 1])) + multiset{a[|a| - 1].row}
  {
  }

  lemma RowsOfPick(l: seq<PricedService>, x: PricedService, r: seq<PricedService>)
    ensures multiset(RowsOf(l + [x] + r)) == multiset(RowsOf(l + r)) + multiset{x.row}
  {
    RowsOfSplit(l, x, r);
    RowsOfConcat(l, r);
    assert multiset(RowsOf(l) + [x.row] + RowsOf(r)) == multiset(RowsOf(l) + RowsOf(r)) + multiset{x.row};
  }

  lemma RemoveOne<T>(a: seq<T>, x: T, l: seq<T>, r: seq<T>)
    requires multiset(a + [x]) == multiset(l + [x] + r)
    ensures multiset(a) == multiset(l + r)
  {
    assert multiset(a + [x]) == multiset(a) + multiset{x};
    assert multiset(l + [x] + r) == multiset(l + r) + multiset{x};
    forall y ensures multiset(a)[y] == multiset(l + r)[y] {
      assert (multiset(a) + multiset{x})[y] == (multiset(l + r) + multiset{x})[y];
    }
  }

  lemma RowsOfConcat(a: seq<PricedService>, b: seq<PricedService>)
    ensures RowsOf(a + b) == RowsOf(a) + RowsOf(b)
  {
    assert |RowsOf(a + b)| == |RowsOf(a) + RowsOf(b)|;
  }

  lemma RowsOfSplit(a: seq<PricedService>, x: PricedService, b: seq<PricedService>)
    ensures RowsOf(a + [x] + b) == RowsOf(a) + [x.row] + RowsOf(b)
  {
    assert |RowsOf(a + [x] + b)| == |RowsOf(a) + [x.row] + RowsOf(b)|;
  }

  lemma RowsOfWithServices(rows: seq<PriceRow>, services: seq<Service>)
    requires forall i :: 0 <= i < |rows| ==> HasService(services, rows[i].serviceId)
    ensures RowsOf(WithServices(rows, services)) == rows
  {
  }

  /** Every view carries the service its row refers to, as the join attaches it. */
  predicate JoinedWith(views: seq<PricedService>, services: seq<Service>) {
    forall v :: v in views ==> v.service in services && v.service.id == v.row.serviceId
  }

  /** Joining attaches to every row its own service. */
  lemma WithServicesJoined(rows: seq<PriceRow>, services: seq<Service>)
    requires forall i :: 0 <= i < |rows| ==> HasService(services, rows[i].serviceId)
    ensures JoinedWith(WithServices(rows, services), services)
  {
    var views := WithServices(rows, services);
    forall v | v in views ensures v.service in services && v.service.id == v.row.serviceId {
      var i :| 0 <= i < |views| && views[i] == v;
    }
  }

  /** With unique service ids the joined service is the row's own service, so
      ordering the views by their service's name orders the rows by the names
      of the services they refer to. */
  lemma JoinedServiceIsRowService(views: seq<PricedService>, services: seq<Service>)
    requires UniqueServiceIds(services) && JoinedWith(views, services)
    ensures forall v :: v in views ==> HasService(services, v.row.serviceId)
                                       && v.service == ServiceById(services, v.row.serviceId)
  {
    forall v | v in views ensures HasService(services, v.row.serviceId) && v.service == ServiceById(services, v.row.serviceId) {
      var i :| 0 <= i < |services| && services[i] == v.service;
      var s := ServiceById(services, v.row.serviceId);
      var j :| 0 <= j < |services| && services[j] == s;
      assert i == j;
    }
  }

  /** Sorting priced rows by service name keeps exactly the rows it was given. */
  function SortByServiceName(rows: seq<PriceRow>, services: seq<Service>): (r: seq<PricedService>)
    requires forall i :: 0 <= i < |rows| ==> HasService(services, rows[i].serviceId)
    ensures multiset(RowsOf(r)) == multiset(rows)
    ensures SortedBy(r, ByServiceName())
    ensures JoinedWith(r, services)
  {
    SortedViews(rows, services);
    Sort(WithServices(rows, services), ByServiceName())
  }

  lemma SortedViews(rows: seq<PriceRow>, services: seq<Service>)
    requires forall i :: 0 <= i < |rows| ==> HasService(services, rows[i].serviceId)
    ensures var sorted := Sort(WithServices(rows, services), ByServiceName());
            && multiset(RowsOf(sorted)) == multiset(rows)
            && SortedBy(sorted, ByServiceName())
            && JoinedWith(sorted, services)
  {
    var views := WithServices(rows, services);
    var sorted := Sort(views, ByServiceName());
    ByServiceNameIsTotalPreorder();
    SortSorted(views, ByServiceName());
    RowsOfMultiset(sorted, views);
    RowsOfWithServices(rows, services);
    SortedViewsMatch(views, sorted, services);
  }

  lemma SortedViewsMatch(views: seq<PricedService>, sorted: seq<PricedService>, services: seq<Service>)
    requires forall i :: 0 <= i < |views| ==> views[i].service in services && views[i].service.id == views[i].row.serviceId
    requires multiset(sorted) == multiset(views)
    ensures JoinedWith(sorted, services)
  {
    forall v | v in sorted ensures v.service in services && v.service.id == v.row.serviceId {
      assert v in multiset(sorted);
      assert v in multiset(views);
      var i :| 0 <= i < |views| && views[i] == v;
    }
  }

  /** `getUserServicePrices(userId)`: the worker's enabled rows with their services,
      by service name. */
  function GetUserServicePrices(prices: seq<PriceRow>, services: seq<Service>, userId: int): (r: seq<PricedService>)
    requires forall i :: 0 <= i < |prices| ==> HasService(services, prices[i].serviceId)
    ensures multiset(RowsOf(r)) == multiset(Filter(prices, EnabledFor(userId)))
    ensures forall v :: v in r ==> v.row in prices && v.row.userId == userId && v.row.enabled
    ensures SortedBy(r, ByServiceName())
    ensures JoinedWith(r, services)
  {
    var rows := Filter(prices, EnabledFor(userId));
    assert forall i :: 0 <= i < |rows| ==> rows[i] in prices;
    var r := SortByServiceName(rows, services);
    forall v | v in r ensures v.row in rows {
      RowsOfMember(r, v);
      assert v.row in multiset(RowsOf(r));
    }
    r
  }

  lemma RowsOfMember(views: seq<PricedService>, v: PricedService)
    requires v in views
    ensures v.row in RowsOf(views)
  {
    var i :| 0 <= i < |views| && views[i] == v;
    assert RowsOf(views)[i] == v.row;
  }
}
