/** src/components/MonthPicker.tsx: the month grid, which months can be picked,
    and the picker's year, month and shown-year state. */
module MonthPicker {
  import opened Wrappers

  datatype Month = Month(number: int, name: string)

  /** The grid: three rows of four months, numbered as `Date.getMonth()` numbers them. */
  const MONTHS: seq<seq<Month>> := [
    [Month(0, "Sty"), Month(1, "Lut"), Month(2, "Mar"), Month(3, "Kwi")],
    [Month(4, "Maj"), Month(5, "Cze"), Month(6, "Lip"), Month(7, "Sie")],
    [Month(8, "Wrz"), Month(9, "Paź"), Month(10, "Lis"), Month(11, "Gru")]
  ]

  /** Reading the grid row by row gives each month number 0..11 once, in order. */
  lemma MonthsGridInOrder()
    ensures |MONTHS| == 3
    ensures forall a :: 0 <= a < 3 ==> |MONTHS[a]| == 4
    ensures forall a, c :: 0 <= a < 3 && 0 <= c < 4 ==> MONTHS[a][c].number == 4 * a + c
    ensures forall n :: 0 <= n < 12 ==> MONTHS[n / 4][n % 4].number == n
  {
  }

  /** A `Date` as the picker sees it: its year, its month, and its time in
      milliseconds since the month began. Comparing two dates compares these
      in that order. */
  datatype Moment = Moment(year: int, month: int, offset: int)

  predicate Later(a: Moment, b: Moment) {
    a.year > b.year || (a.year == b.year && (a.month > b.month || (a.month == b.month && a.offset > b.offset)))
  }

  /** The minimum the picker works with: a given minimum later than a given
      maximum is replaced by that maximum; otherwise the minimum is kept. */
  function ClampMin(minDate: Option<Moment>, maxDate: Option<Moment>): (r: Option<Moment>)
    ensures r.Some? <==> minDate.Some?
    ensures minDate.Some? && maxDate.Some? ==> !Later(r.value, maxDate.value)
    ensures minDate.Some? && maxDate.Some? && !Later(minDate.value, maxDate.value) ==> r == minDate
    ensures minDate.Some? && maxDate.Some? && Later(minDate.value, maxDate.value) ==> r == maxDate
    ensures maxDate.None? ==> r == minDate
  {
    if minDate.Some? && maxDate.Some? && Later(minDate.value, maxDate.value) then maxDate else minDate
  }

  /** The props that restrict the choice. */
  datatype Bounds = Bounds(minDate: Option<Moment>, maxDate: Option<Moment>, disabledDates: Option<seq<Moment>>)

  /** The first two parts of the `disabled` expression: after `maxDate`'s month
      or before the (clamped) `minDate`'s. An absent bound restricts nothing. */
  predicate OutOfRange(b: Bounds, menuYear: int, m: int) {
    var minDate := ClampMin(b.minDate, b.maxDate);
    (match b.maxDate
     case Some(mx) => menuYear > mx.year || (menuYear == mx.year && m > mx.month)
     case None => false)
    || (match minDate
        case Some(mn) => menuYear < mn.year || (menuYear == mn.year && m < mn.month)
        case None => false)
  }

  /** The last part: some disabled date falls in month `m` of `menuYear`. */
  predicate Listed(b: Bounds, menuYear: int, m: int) {
    match b.disabledDates
    case Some(ds) => exists d :: d in ds && d.year == menuYear && d.month == m
    case None => false
  }

  /** Whether the button of month `m` is disabled while `menuYear` is shown. */
  predicate Disabled(b: Bounds, menuYear: int, m: int) {
    OutOfRange(b, menuYear, m) || Listed(b, menuYear, m)
  }

  /** (y1, m1) comes no later than (y2, m2). */
  predicate MonthLe(y1: int, m1: int, y2: int, m2: int) {
    y1 < y2 || (y1 == y2 && m1 <= m2)
  }

  /** With both bounds given, the months left enabled by them are exactly the
      closed range from the clamped minimum's month to the maximum's. */
  lemma EnabledRangeIsInterval(b: Bounds, y: int, m: int)
    requires b.minDate.Some? && b.maxDate.Some?
    ensures !OutOfRange(b, y, m) <==>
              && MonthLe(ClampMin(b.minDate, b.maxDate).value.year, ClampMin(b.minDate, b.maxDate).value.month, y, m)
              && MonthLe(y, m, b.maxDate.value.year, b.maxDate.value.month)
  {
  }

  /** Thanks to the clamp, the month of `maxDate` is never out of range: a
      minimum later than the maximum cannot disable the whole grid. */
  lemma MaxMonthStaysInRange(b: Bounds)
    requires b.maxDate.Some?
    ensures !OutOfRange(b, b.maxDate.value.year, b.maxDate.value.month)
  {
  }

  /** An example of the clamp at work: with the minimum in June and the
      maximum in May, May lies before the minimum's month and would be
      disabled by it, yet it stays enabled because the minimum becomes May. */
  lemma ClampRescuesMaxMonth(y: int)
    ensures var b := Bounds(Some(Moment(y, 5, 0)), Some(Moment(y, 4, 0)), None);
            && Later(b.minDate.value, b.maxDate.value)
            && 4 < b.minDate.value.month
            && !OutOfRange(b, y, 4)
            && (forall m :: 0 <= m < 12 && m != 4 ==> OutOfRange(b, y, m))
  {
  }

  /** A disabled date disables exactly its own month of its own year. */
  lemma ListedMonthIsDisabled(b: Bounds, d: Moment)
    requires b.disabledDates.Some? && d in b.disabledDates.value
    ensures Disabled(b, d.year, d.month)
  {
  }

  /** Without restricting props no month is disabled. */
  lemma NoBoundsNoneDisabled(y: int, m: int)
    ensures !Disabled(Bounds(None, None, None), y, m)
  {
  }

  /** What the picker reports to its parent through the optional callbacks. */
  datatype Event = YearBackward | YearForward | MonthSelected(year: int, month: int)

  /** The picker's state: the selected `year` and `month`, and `menuYear`, the
      year the grid shows. */
  class Picker {
    var year: int
    var month: int
    var menuYear: int

    /** The initial state: the selected month's year and month, or today's;
        the grid opens on that year. */
    constructor (selectedMonth: Option<Moment>, now: Moment)
      ensures year == selectedMonth.GetOr(now).year && month == selectedMonth.GetOr(now).month
      ensures menuYear == year
    {
      year := selectedMonth.GetOr(now).year;
      month := selectedMonth.GetOr(now).month;
      menuYear := selectedMonth.GetOr(now).year;
    }

    /** Month `m` is drawn as selected. */
    predicate IsSelected(m: int)
      reads this
    {
      month == m && menuYear == year
    }

    /** The back arrow: the grid shows the previous year; the selection is kept. */
    method Backward(hasCallback: bool) returns (events: seq<Event>)
      modifies this
      ensures menuYear == old(menuYear) - 1 && year == old(year) && month == old(month)
      ensures events == if hasCallback then [YearBackward] else []
    {
      menuYear := menuYear - 1;
      events := if hasCallback then [YearBackward] else [];
    }

    /** The forward arrow: the grid shows the next year. */
    method Forward(hasCallback: bool) returns (events: seq<Event>)
      modifies this
      ensures menuYear == old(menuYear) + 1 && year == old(year) && month == old(month)
      ensures events == if hasCallback then [YearForward] else []
    {
      menuYear := menuYear + 1;
      events := if hasCallback then [YearForward] else [];
    }

    /** A click on month `m`: it becomes the selection, in the year shown, and
        is the only month drawn as selected; the parent hears of it. */
    method Select(m: int, hasCallback: bool) returns (events: seq<Event>)
      modifies this
      ensures month == m && year == old(menuYear) && menuYear == old(menuYear)
      ensures IsSelected(m) && forall k :: k != m ==> !IsSelected(k)
      ensures events == if hasCallback then [MonthSelected(old(menuYear), m)] else []
    {
      month := m;
      year := menuYear;
      events := if hasCallback then [MonthSelected(menuYear, m)] else [];
    }
  }
}
