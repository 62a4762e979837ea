# oldroad barbershop point of sale, modelled in Dafny

The application is a point-of-sale and bookkeeping tool for a barbershop.
Workers sign in with a PIN and record the services they perform (bookings),
the products they sell, and the day's opening cash float (a "start"). An admin
manages the workers, the services each worker offers and what each charges.
This project models the server actions over the six database tables, the
sign-in and its session callbacks, the route guard, the earnings chart's
bucketing, the month picker and the navigation bar's highlight rule. It then
proves what these promise.

Layout:

- **The tables.** `records.dfy` holds the rows and the schema's constraints.
  `db.dfy` models the database as a `Store` class with one `seq` field per
  table plus the autoincrement counters. Every write an action makes is a
  method of `Store`. The reads are functions, one module per action file:
  `users.dfy`, `services.dfy`, `admin.dfy`, `starts.dfy`, `bookings.dfy`,
  `products.dfy`, `dashboard.dfy`, and `legacy.dfy` for `service.action.ts`.
- **Shared parts.**
  - `wrappers.dfy` has `Option` and `Reply`. A `Reply` is `Ok`, `Fail` (the
    `{ success: false, error }` answers) or `Raise` (a thrown error).
  - `seqs.dfy` has filters, sums and lookups.
  - `sorting.dfy` is an insertion sort standing for `orderBy`.
  - `strings.dfy` has name order, `startsWith` and decimals.
  - `calendar.dfy` has the day filters.
- **The interface.**
  - `auth.dfy` models `authorize` and the `jwt` and `session` callbacks, with
    the token and session as objects the callbacks update.
  - `middleware.dfy` is the route guard.
  - `chart.dfy` is the `chartData` bucketing of both earnings charts.
  - `monthpicker.dfy` and `bottomnav.dfy` model the month picker and the
    navigation bar.

Time is a number of milliseconds. A `Calendar` supplies the start of each
Europe/Warsaw day and the day a timestamp falls in. `InDay` is the half-open
filter `gte startOf('day')`, `lt endOf('day')`. `InDays` is the chart's closed
filter `gte`, `lte`. "Today" and the database's `now()` are parameters.

## Model

| member | source | states |
|---|---|---|
| Db.Store.constructor | src/lib/actions/types.ts:1-36 | a new database holds the given workers and services and no other rows, and satisfies every unique and foreign-key constraint |
| Db.Store.CreateUser | src/lib/actions/admin.ts:67-109 | non-admin: thrown "Brak uprawnień administratora", nothing written; empty name or PIN, or taken name (checked first) or taken PIN: that error, nothing written; otherwise exactly one worker with role USER and the next id is appended, the PIN signs in as that worker, and the constraints still hold |
| Db.Store.UpdateUser | src/lib/actions/admin.ts:176-225 | the same checks, each ignoring the worker's own row; a missing worker gives "Nie udało się zaktualizować użytkownika"; otherwise only that worker's name and PIN change and the constraints hold |
| Db.Store.AssignServiceToUser | src/lib/actions/admin.ts:246-302 | non-admin thrown; negative price, missing worker, missing service refused in that order; otherwise the price table is the upsert of the pair with `enabled` defaulting to true, and the answer carries that row and its service |
| Db.Store.RemoveServiceFromUser | src/lib/actions/admin.ts:305-333 | for an admin only `enabled` of the pair's row is cleared; a missing row is a success that creates nothing |
| Db.Store.SetUserServicePrice | src/lib/actions/services.ts:75-101 | an existing pair, or a valid worker and service, gets exactly one enabled row with the price; otherwise the action throws "Nie udało się ustawić ceny usługi" and writes nothing |
| Db.Store.UpdateUserServicePrice | src/lib/actions/services.ts:127-129 | behaves exactly as `setUserServicePrice` |
| Db.Store.InsertBooking | src/lib/actions/bookings.ts:138-156 | a booking with a valid worker and service is appended with the next id; otherwise nothing is written |
| Db.Store.CreateBooking | src/lib/actions/bookings.ts:138-156 | the insert answers the new booking, or null when a foreign key fails |
| Db.Store.CreateBookingAtNow | src/lib/actions/service.action.ts:20-36 | the booking takes the database's current time; a failing foreign key is thrown, not caught |
| Db.Store.EditBooking | src/lib/actions/bookings.ts:103-109 | a missing booking throws Prisma's not-found error ("P2025") and a missing service its foreign-key error ("P2003"), nothing written; otherwise that booking takes the new service, price and time, keeps its id and worker, and all other rows stay |
| Db.Store.CreateProduct | src/lib/actions/products.ts:61-79 | a product of an existing worker is appended with the next id; otherwise null and nothing written |
| Db.Store.CreateStart | src/lib/actions/start.ts:7-49 | with a float already in the day of `createdAt` the action throws "Startowy hajs został już dodany na dzień " plus the date, writing nothing; otherwise it appends one float; one float per day is preserved |
| Db.Store.UpdateStart | src/lib/actions/start.ts:84-131 | a float other than this one in the target day throws "Startowy hajs już istnieje na dzień " plus the date; a missing id throws Prisma's not-found error, rethrown with its message, which "P2025" stands for; otherwise only this float's price and time change; one float per day is preserved |
| Db.Store.DeleteStart | src/lib/actions/start.ts:133-143 | a missing id throws "Nie udało się usunąć startowego hajsu"; otherwise exactly the rows with that id go, the deleted float is answered, and one float per day survives for every calendar |
| Db.RenameKeepsConsistent | src/lib/actions/admin.ts:183-212 | a rename that passed the checks keeps names and PINs unique and every foreign key resolving |
| Db.UpsertKeepsReferences | src/lib/actions/admin.ts:270-290 | upserting a row of an existing worker and service keeps every price row's foreign keys valid |
| Db.DeleteKeepsIds | src/lib/actions/start.ts:133-143 | deleting floats keeps their ids distinct and below the counter |
| Db.RestampKeepsConsistent | src/lib/actions/start.ts:113-119 | editing a float keeps every table constraint and counter bound |
| Db.DeleteRemovesRow | src/lib/actions/start.ts:135-137 | the deleted float is no longer in the table |
| Users.GetUser | src/lib/actions/users.ts:9-21 | the id, name and role of the one worker holding the PIN, or null when nobody holds it |
| Users.IsUserAdmin | src/lib/actions/users.ts:24-30 | true exactly when a worker with that id has role ADMIN |
| Users.UnknownIdIsNotAdmin | src/lib/actions/users.ts:24-30 | an id no worker has is never an admin |
| Auth.Authorize | src/lib/auth.ts:34-55 | an absent or empty PIN gives null; otherwise the worker holding the PIN, with the id as decimal text, no email and the worker's role; null when nobody holds it |
| Auth.AuthorizeAgreesWithGetUser | src/lib/auth.ts:34-55 | sign-in succeeds exactly when `getUser` finds the PIN, and reports that worker |
| Auth.Jwt | src/lib/auth.ts:62-68 | on sign-in the token takes the user's role and id; otherwise it is returned unchanged |
| Auth.SessionCallback | src/lib/auth.ts:69-75 | with a token, the session user receives its id and role; otherwise the session is unchanged |
| Admin.RequireAdmin | src/lib/actions/admin.ts:30-36 | passes exactly when the session has a user whose role is ADMIN; otherwise throws "Brak uprawnień administratora" |
| Admin.SignInThenRequireAdmin | src/lib/auth.ts:34-75 | after sign-in and both callbacks, `requireAdmin` passes exactly when the PIN is non-empty and belongs to an admin |
| Admin.ValidateDetails | src/lib/actions/admin.ts:9-27 | the zod schema's answer: an empty name is refused first, then an empty PIN |
| Admin.DetailsCheck | src/lib/actions/admin.ts:73-89 | no error exactly when name and PIN are non-empty and no other worker has either; the name is checked before the PIN |
| Admin.Renamed | src/lib/actions/admin.ts:206-212 | that worker's name and PIN are replaced, every other row and every id is kept |
| Admin.CreateKeepsUsersWellFormed | src/lib/actions/admin.ts:91-101 | appending a worker that passed the checks keeps ids, names and PINs unique, and its PIN finds it |
| Admin.UpdateKeepsUsersWellFormed | src/lib/actions/admin.ts:206-212 | a rename that passed the checks keeps names, PINs and ids unique |
| Admin.UpdatedPinSignsIn | src/lib/actions/admin.ts:206-212 | after such a rename the new PIN finds the worker and the old PIN finds nobody |
| Admin.ResavingOwnDetailsIsAccepted | src/lib/actions/admin.ts:183-204 | re-submitting a worker's own name and PIN never clashes |
| Admin.AssignCheck | src/lib/actions/admin.ts:253-267 | the negative-price, missing-worker and missing-service errors, in that order |
| Admin.EnabledListing | src/lib/actions/admin.ts:44-53 | one worker with exactly their enabled price rows in table order, each row joined to its own service |
| Admin.Listings | src/lib/actions/admin.ts:43-57 | the given workers in their order, each with exactly their enabled rows, each row joined to its own service |
| Admin.GetAllUsers | src/lib/actions/admin.ts:39-64 | non-admin thrown; otherwise a permutation of the workers sorted by name, each with exactly its enabled price rows, each row carrying the service its `serviceId` names |
| Admin.GetUserById | src/lib/actions/admin.ts:112-173 | non-admin thrown; a missing worker gives "Użytkownik nie został znaleziony"; otherwise the worker with all of its price rows, each carrying the service its `serviceId` names, sorted by that service's name |
| Admin.GetAllServices | src/lib/actions/admin.ts:228-243 | non-admin thrown; otherwise a permutation of the services sorted by name |
| Services.GetUserServices | src/lib/actions/services.ts:6-18 | exactly the services the worker has an enabled row for |
| Services.GetUserServicesAll | src/lib/actions/services.ts:21-32 | exactly the services the worker has any row for |
| Services.OfferedAreEverOffered | src/lib/actions/services.ts:6-32 | the enabled list is part of the full list |
| Services.GetUserServicePrice | src/lib/actions/services.ts:34-52 | the price of the pair's row when it is enabled, otherwise null |
| Services.GetUserServicePriceAll | src/lib/actions/services.ts:55-73 | the price of the pair's row whatever `enabled` says, null without a row |
| Services.EnabledPriceIsHistoricalPrice | src/lib/actions/services.ts:34-73 | where the enabled lookup answers, the unfiltered one answers the same price |
| Services.Upsert | src/lib/actions/admin.ts:270-290 | afterwards exactly one row has the key and it holds the price and flag; every other row is kept; the table grows by one row only when the key was new |
| Services.UpsertIdempotent | src/lib/actions/admin.ts:270-290 | repeating the same upsert changes nothing |
| Services.Disable | src/lib/actions/admin.ts:315-325 | only the pair's row loses `enabled`; keys stay unique |
| Services.DisableHidesButKeepsPrice | src/lib/actions/admin.ts:305-333 | after removal the enabled lookup finds nothing, the unfiltered one still finds the old price, a second removal changes nothing, and without a row nothing changes |
| Services.WithServicesJoined | src/lib/actions/services.ts:103-119 | the join attaches to every row the service its `serviceId` names |
| Services.JoinedServiceIsRowService | src/lib/actions/services.ts:103-119 | with unique service ids the attached service is the one service with the row's `serviceId`, so ordering by the attached name orders by the row's own service |
| Services.SortByServiceName | src/lib/actions/services.ts:103-125 | the rows joined with their services, sorted by service name, as a permutation |
| Services.GetUserServicePrices | src/lib/actions/services.ts:103-125 | exactly the worker's enabled rows, each carrying the service its `serviceId` names, sorted by that service's name |
| Legacy.GetUserServicePrice | src/lib/actions/service.action.ts:37-57 | the pair's price by unique key, null without a row; `enabled` is not consulted |
| Legacy.AgreesWithPriceAll | src/lib/actions/service.action.ts:37-57 | the legacy lookup equals `getUserServicePriceAll` |
| Legacy.DisabledPriceStillAnswered | src/lib/actions/service.action.ts:37-57 | after a removal the legacy lookup still gives the old price while the enabled lookup gives null |
| Starts.GetAllStarts | src/lib/actions/start.ts:51-70 | exactly the floats of the requested day (today when absent), newest first |
| Starts.GetStartById | src/lib/actions/start.ts:72-82 | the float with that id, or null |
| Starts.Conflict | src/lib/actions/start.ts:11-29 | null exactly when no float other than the excepted one lies in the day of the new time |
| Starts.OnePerDayListsAtMostOne | src/lib/actions/start.ts:11-29 | with one float per day, a day filter matches at most one float |
| Starts.OnePerDayListingIsShort | src/lib/actions/start.ts:51-70 | with one float per day, the listing of any day has at most one entry |
| Starts.CreateKeepsOnePerDay | src/lib/actions/start.ts:11-38 | an insert that passed the check keeps one float per day |
| Starts.Restamped | src/lib/actions/start.ts:113-119 | only floats with that id take the new price and time; length and order are kept |
| Starts.UpdateKeepsOnePerDay | src/lib/actions/start.ts:88-119 | an edit that passed the check keeps one float per day |
| Starts.SameDayEditHasNoConflict | src/lib/actions/start.ts:88-111 | moving a float within its own day never conflicts |
| Starts.FilterKeepsOnePerDay | src/lib/actions/start.ts:133-143 | removing rows keeps one float per day |
| Starts.DeleteKeepsOnePerDay | src/lib/actions/start.ts:133-143 | deleting a float by id keeps one float per day |
| Bookings.GetAllBookings | src/lib/actions/bookings.ts:9-53 | the requested day's bookings, every worker's for an admin and only the caller's otherwise, newest first, as a permutation of that filter |
| Bookings.GetBookingsByUser | src/lib/actions/bookings.ts:111-136 | the worker's bookings of that day, newest first, with the filter's total |
| Bookings.NonAdminListingIsOwnListing | src/lib/actions/bookings.ts:9-53 | for a non-admin both listings are the same |
| Bookings.AdminListingHoldsEveryOwnListing | src/lib/actions/bookings.ts:9-53 | every worker's own listing is inside the admin's listing |
| Bookings.ChartRows | src/lib/actions/bookings.ts:63-83 | exactly the bookings in the closed range, everyone's for an admin and only the caller's otherwise |
| Bookings.GetAllBookingsChart | src/lib/actions/bookings.ts:55-90 | the price and time of every booking in the closed day range, everyone's for an admin and the caller's otherwise, oldest first |
| Bookings.ChartConservesPrices | src/lib/actions/bookings.ts:55-90 | the chart rows total exactly the prices of the bookings in the range |
| Bookings.DayListingIsCharted | src/lib/actions/bookings.ts:9-90 | a booking in a day listing appears in every chart range covering that day |
| Bookings.LastMillisecondIsOnlyCharted | src/lib/actions/bookings.ts:16-26 | a booking at the day's last millisecond is charted yet in no day listing |
| Bookings.GetBookingById | src/lib/actions/bookings.ts:92-101 | the booking with the id, or null |
| Bookings.Edited | src/lib/actions/bookings.ts:103-109 | only the booking with the id changes service, price and time |
| Days.Calendar.EndOfDay | src/lib/actions/bookings.ts:16 | `endOf('day')` is the last millisecond before the next day starts |
| Days.Calendar.InDay | src/lib/actions/bookings.ts:24-27 | the day filter `gte` the day's start and `lt` its last millisecond |
| Days.Calendar.InDays | src/lib/actions/bookings.ts:68-72 | the chart filter `gte` the first day's start and `lte` the last day's last millisecond |
| Days.DayFiltersDisjoint | src/lib/actions/start.ts:51-70 | no timestamp lies in the half-open filters of two different days |
| Days.InDayIsDayOf | src/lib/actions/start.ts:14-21 | a time in the half-open filter of a day belongs to that day |
| Days.LastMillisecondInNoDay | src/lib/actions/bookings.ts:16-26 | the last millisecond of a day lies in no half-open day filter |
| Days.InDayWithinInDays | src/lib/actions/bookings.ts:63-71 | a time in a day's half-open filter lies in the closed range of any span covering that day |
| Products.GetUserProducts | src/lib/actions/products.ts:8-15 | exactly the worker's products, each row at most as often as in the table |
| Products.GetAllProducts | src/lib/actions/products.ts:17-59 | the requested day's products, everyone's for an admin and the caller's otherwise, newest first |
| Products.DayListingWithinUserProducts | src/lib/actions/products.ts:8-59 | a non-admin's day listing is the day's part of their full listing |
| Dashboard.TodayBookings | src/lib/actions/dashboard.ts:7-30 | today's bookings, limited to the worker only for a truthy id |
| Dashboard.TodayProducts | src/lib/actions/dashboard.ts:32-55 | today's products, limited to the worker only for a truthy id |
| Dashboard.GetTodayStart | src/lib/actions/dashboard.ts:57-78 | 0 with no float today; otherwise the price of a newest float of today |
| Dashboard.TodayStartIsTheFloat | src/lib/actions/dashboard.ts:57-78 | with one float per day it is today's float's price |
| Dashboard.SumMatchesListings | src/lib/actions/dashboard.ts:7-30 | the sum equals the total of the worker's day listing, and without an id the total of an admin's listing |
| Dashboard.SumSplitsByWorker | src/lib/actions/dashboard.ts:7-30 | the all-worker total is one worker's total plus everyone else's |
| Dashboard.EmptyDayIsZero | src/lib/actions/dashboard.ts:7-95 | a day without rows sums and counts to 0 |
| Dashboard.GetDashboardData | src/lib/actions/dashboard.ts:97-223 | the worker's booking sum, product sum and booking count of today, filtered by `userId` whatever its value, the float, and the all-worker totals present exactly for an admin |
| Dashboard.OwnCountWithinAllCount | src/lib/actions/dashboard.ts:80-95 | one worker's count never exceeds the all-worker count |
| Middleware.Guard | src/middleware.ts:3-29 | "/api…" passes first; "/login…" redirects to "/" with a session and passes without; any other path passes with a session and otherwise redirects to "/login?from=" plus the encoded path and query |
| Middleware.LoginPrefixCountsAsLoginPage | src/middleware.ts:5-17 | "/loginx" is treated as the login page |
| Middleware.ApiPassesEvenWithoutSession | src/middleware.ts:6-10 | every "/api" path passes, session or not |
| Middleware.NoRedirectLoop | src/middleware.ts:12-28 | the page a redirect leads to is then let through |
| Middleware.WhoIsRedirectedToLogin | src/middleware.ts:12-28 | the login redirect happens exactly without a session, off the api and login pages |
| BottomNav.IsActive | src/components/nav/BottomNav.tsx:34-38 | home is active only when the path is "/"; any other button when the path starts with its own; otherwise not |
| BottomNav.HomeOnlyOnRoot | src/components/nav/BottomNav.tsx:34-38 | the home button is active exactly on "/" |
| BottomNav.OtherButtonsByPrefix | src/components/nav/BottomNav.tsx:34-38 | any other button is active exactly when its path is a prefix of the current one |
| BottomNav.ActiveOnExtensions | src/components/nav/BottomNav.tsx:36 | an active button stays active on every longer path |
| BottomNav.AccountActiveOnLongerName | src/components/nav/BottomNav.tsx:36 | "/konto" is active on "/kontoX" and on "/konto/dane" |
| BottomNav.HomeAndAccountExclusive | src/components/nav/BottomNav.tsx:46-149 | the two buttons the bar asks about are never active together |
| MonthPicker.MonthsGridInOrder | src/components/MonthPicker.tsx:11-30 | three rows of four holding month numbers 0 to 11 once each, in order |
| MonthPicker.ClampMin | src/components/MonthPicker.tsx:116 | a minimum later than the maximum becomes the maximum; otherwise the minimum is kept |
| MonthPicker.OutOfRange | src/components/MonthPicker.tsx:174-183 | a month after `maxDate`'s month or before the clamped `minDate`'s; an absent bound restricts nothing |
| MonthPicker.Listed | src/components/MonthPicker.tsx:184-189 | some disabled date falls in that month of the shown year |
| MonthPicker.Disabled | src/components/MonthPicker.tsx:173-190 | out of range or listed |
| MonthPicker.EnabledRangeIsInterval | src/components/MonthPicker.tsx:173-183 | with both bounds, the months the bounds allow are exactly the closed range from the clamped minimum's month to the maximum's |
| MonthPicker.MaxMonthStaysInRange | src/components/MonthPicker.tsx:116-183 | the maximum's own month is never out of range |
| MonthPicker.ClampRescuesMaxMonth | src/components/MonthPicker.tsx:116-183 | with a June minimum and a May maximum, May alone stays enabled |
| MonthPicker.ListedMonthIsDisabled | src/components/MonthPicker.tsx:184-189 | a disabled date disables its own month of its own year |
| MonthPicker.NoBoundsNoneDisabled | src/components/MonthPicker.tsx:173-190 | without bounds or disabled dates no month is disabled |
| MonthPicker.Picker.constructor | src/components/MonthPicker.tsx:108-114 | the selected month's year and month, or today's, with the grid on that year |
| MonthPicker.Picker.IsSelected | src/components/MonthPicker.tsx:194 | a month is drawn as selected when it is the selected month and the shown year is the selected year |
| MonthPicker.Picker.Backward | src/components/MonthPicker.tsx:130-133 | the shown year drops by one, the selection is kept, and the callback fires when given |
| MonthPicker.Picker.Forward | src/components/MonthPicker.tsx:142-145 | the shown year rises by one, the selection is kept, and the callback fires when given |
| MonthPicker.Picker.Select | src/components/MonthPicker.tsx:167-171 | the month and the shown year become the selection, only that month is drawn selected, and the parent hears that year and month |
| Chart.ChartData | src/components/EarningsChart.tsx:59-92 | no data gives no buckets; otherwise keys strictly ascending, exactly the window's units plus those the items fall in, each bucket the total of its items, the grand total the sum of the prices, and diff+1 buckets when every item is inside the window |
| Chart.Accumulate | src/app/pulpit/EarningsChart.tsx:70-73 | after the `forEach` every bucket holds its items' total, new units have buckets, and the totals add up to the prices |
| Chart.ZeroFill | src/app/pulpit/EarningsChart.tsx:55-67 | diff+1 consecutive zero buckets from the first unit, none for a negative diff |
| Chart.AddItem | src/components/EarningsChart.tsx:81-84 | one turn of the `forEach`; the keys stay distinct |
| Chart.AddItemAdds | src/components/EarningsChart.tsx:81-84 | after the turn the item's unit reads its old total, 0 when absent, plus the price; every other unit is unchanged |
| Chart.Get | src/components/EarningsChart.tsx:83 | `map.get` answers the total stored under the key, and undefined exactly when no bucket has it |
| Chart.Set | src/components/EarningsChart.tsx:83 | `map.set` overwrites the key's bucket where it stands, or appends a bucket for a new key; keys stay distinct |
| Chart.SortedChart | src/app/pulpit/EarningsChart.tsx:75-80 | the sort leaves keys strictly ascending and keeps buckets and total |
| Chart.GetSet | src/components/EarningsChart.tsx:83 | after `map.set`, the key reads back the new value and every other key is unchanged |
| Chart.SumSet | src/components/EarningsChart.tsx:83 | a `set` changes the grand total by the change in its bucket |
| Chart.Window | src/components/EarningsChart.tsx:43-52 | the daily window ends today and has 8 units; the monthly one ends this month and has 7 |
| Chart.DailyChart | src/app/pulpit/EarningsChart.tsx:32-81 | the daily view end to end (window from 7 days back to today, the chart query over those days, buckets by day): exactly 8 buckets, one per day from today-7 to today in ascending order, each the total of that day's charted bookings, and the grand total the sum of the charted prices |
| Chart.ChartItemsInWindow | src/lib/actions/bookings.ts:63-72 | every item the chart query returns for the days first..last lies on a day of that span |
| Days.InDaysDayOf | src/lib/actions/bookings.ts:63-72 | a time the chart filter of the days first..last matches is one the calendar puts on a day of that span |

## Left out

- Rendering, forms, toasts and query caching are left out; only the logic of the listed components is modelled.
- Prisma is replaced by the `seq` tables. The `include: { service: true }` joins of the price rows are modelled. The other joins are left out: rows are returned without their attached records. These are the `service` and `user` of `getAllBookings`, `getBookingById` and `getBookingsByUser`, and the `user` of `getAllProducts`.
- Calls made from other files are left out: `revalidatePath`, `console.error`, and next-auth's own cookie and JWT handling.
- Time zones are not computed. The `Calendar` supplies day starts and day numbers, and the server-local versus Europe/Warsaw difference is not modelled.
- The chart takes the unit of each item as a function and ignores that `moment()` and `.tz(timezone)` may disagree.
- The monthly chart window, Chart.Window: `diff` is taken to be exactly 6. moment's month arithmetic at the end of a month is not modelled.
- Names are ordered by character code; the database's collation (case, Polish letters) is not modelled. This affects the `orderBy: { name: "asc" }` orders stated by Admin.GetAllUsers, Admin.GetAllServices, Services.GetUserServicePrices and the other name-sorted listings.
- src/components/EarningsChart.tsx imports `getAllBookingsChart` from `service.action.ts`, which does not export it, so that component's data source does not resolve. Its `chartData` is modelled with the data as a parameter (Chart.ChartData); Chart.DailyChart composes the query with the chart as src/app/pulpit/EarningsChart.tsx does, whose import resolves.
- Prisma's errors are modelled by their codes. "P2025" stands for its not-found error and "P2003" for its foreign-key failure. Where `updateStart` rethrows `err.message`, the real answer is Prisma's message text, which the code stands for.
- "One float per day" (Starts.OnePerDay) is stated per day filter: no half-open filter `gte startOf('day')`, `lt endOf('day')` matches two floats. A float stamped at a day's last millisecond, `EndOfDay(d)`, lies in no such filter. So a second float can be created on that calendar day and the invariant still holds, as src/lib/actions/start.ts:14-21 allows.
- Prices are integers. `toFixed(2)` and all floating point are left out.
- `Number()` of anything but a decimal id is left out.
- Nothing runs concurrently.
  - The check-then-insert in `createStart` and `updateStart` is atomic here, so one float per day holds only below that assumption.
  - `Promise.all` in `getDashboardData` is sequential.
- A `catch` for a database failure other than the ones named in the table is not modelled, because the in-memory tables do not fail. This covers the generic "Nie udało się pobrać…" answers.
- The `config.matcher` of the middleware is left out. `encodeURIComponent` is an uninterpreted function parameter. Redirect URLs are paths on the request's origin.
- The month picker:
  - its callbacks are recorded as events;
  - the browser's suppression of clicks on disabled buttons is not modelled (Select does not check Disabled);
  - `Date` values are (year, month, offset) triples.
- Dashboard.GetTodaySumBookings, Dashboard.GetTodaySumProducts and Dashboard.GetTodayBookingCount: these have no contract of their own. They are stated through SumMatchesListings, SumSplitsByWorker, EmptyDayIsZero and GetDashboardData.
- The three `…Legacy` wrappers of `dashboard.ts` (lines 226-236) just call the functions above.
- The whole-table reads `getUsers` and `getServices`/`getBookings` of `users.ts` and `service.action.ts` are the identity on their table. They have no rows above.
- The zustand user store, localStorage, the `useAuth` hook, configuration files and the re-exports in `index.ts` are left out.
- `getAllBookingsGroupedByMonth` is called but not defined in the shown files, and is not part of this model.
