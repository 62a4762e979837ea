/** src/lib/actions/products.ts: the products a worker sold, all time and per
    day; the insert is a method of `Db.Store`. */
module Products {
  import opened Wrappers
  import opened Records
  import opened Seqs
  import opened Sorting
  import opened Days
  import Users

  function OwnedBy(userId: int): Product -> bool { (p: Product) => p.userId == userId }

  function InDayOf(cal: Calendar, d: int): Product -> bool { (p: Product) => cal.InDay(d, p.createdAt) }

  function OwnInDay(cal: Calendar, d: int, userId: int): Product -> bool {
    (p: Product) => p.userId == userId && cal.InDay(d, p.createdAt)
  }

  function NewestFirst(): (Product, Product) -> bool { (a: Product, b: Product) => a.createdAt >= b.createdAt }

  /** `getUserProducts(userId)`: every product of the worker, on any day, in no promised order. */
  function GetUserProducts(products: seq<Product>, userId: int): (r: seq<Product>)
    ensures forall p :: p in r <==> p in products && p.userId == userId
    ensures multiset(r) <= multiset(products)
  {
    Filter(products, OwnedBy(userId))
  }

  /** `getAllProducts(userId, date)`: the day's products, every worker's for an
      admin and only the caller's otherwise, newest first. */
  function GetAllProducts(cal: Calendar, today: int, users: seq<User>, products: seq<Product>, userId: int, date: Option<int>)
    : (r: seq<Product>)
    requires UniqueUserIds(users)
    ensures forall p :: p in r <==> p in products && cal.InDay(date.GetOr(today), p.createdAt)
                                     && (Users.IsUserAdmin(users, userId) || p.userId == userId)
    ensures Users.IsUserAdmin(users, userId) ==> multiset(r) == multiset(Filter(products, InDayOf(cal, date.GetOr(today))))
    ensures !Users.IsUserAdmin(users, userId) ==>
              multiset(r) == multiset(Filter(products, OwnInDay(cal, date.GetOr(today), userId)))
    ensures SortedBy(r, NewestFirst())
  {
    var d := date.GetOr(today);
    var rows := if Users.IsUserAdmin(users, userId) then Filter(products, InDayOf(cal, d))
                else Filter(products, OwnInDay(cal, d, userId));
    SortSorted(rows, NewestFirst());
    var r := Sort(rows, NewestFirst());
    assert forall p :: p in r <==> p in multiset(r);
    assert forall p :: p in rows <==> p in multiset(rows);
    r
  }

  /** A non-admin's day listing is the day's part of their all-time listing. */
  lemma DayListingWithinUserProducts(cal: Calendar, today: int, users: seq<User>, products: seq<Product>,
                                     userId: int, date: Option<int>)
    requires UniqueUserIds(users) && !Users.IsUserAdmin(users, userId)
    ensures forall p :: p in GetAllProducts(cal, today, users, products, userId, date) <==>
                        p in GetUserProducts(products, userId) && cal.InDay(date.GetOr(today), p.createdAt)
  {
  }
}
