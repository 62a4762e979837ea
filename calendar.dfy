/** Calendar days over millisecond timestamps.

    The business day boundaries (Europe/Warsaw, with its daylight-saving shifts)
    are not computed here: a `Calendar` carries them as functions.
    `dayStart(d)` is the first millisecond of day number `d`; `dayOf(t)` is the
    day a timestamp is formatted as when the server derives "the selected date";
    `dateText(t)` is the `DD/MM/YYYY` text shown in error messages. */
module Days {

  datatype Calendar = Calendar(dayStart: int -> int, dayOf: int -> int, dateText: int -> string) {

    /** Days follow each other, and `dayOf` names the day a timestamp lies in. */
    ghost predicate Valid() {
      && (forall d, e :: d < e ==> dayStart(d) < dayStart(e))
      && (forall t :: dayStart(dayOf(t)) <= t < dayStart(dayOf(t) + 1))
    }

    /** `moment(day).endOf("day")`: the last millisecond of day `d`. */
    function EndOfDay(d: int): int {
      dayStart(d + 1) - 1
    }

    /** The day filter `{ gte: startOf(day), lt: endOf(day) }`. */
    predicate InDay(d: int, t: int) {
      dayStart(d) <= t < EndOfDay(d)
    }

    /** The chart filter `{ gte: startOf(first) } AND { lte: endOf(last) }`. */
    predicate InDays(first: int, last: int, t: int) {
      dayStart(first) <= t <= EndOfDay(last)
    }
  }

  /** A timestamp that passes the filter of day `d` is one the calendar puts on day `d`,
      so the filters of two different days never match the same row. */
  lemma InDayIsDayOf(cal: Calendar, d: int, t: int)
    requires cal.Valid()
    requires cal.InDay(d, t)
    ensures cal.dayOf(t) == d
  {
  }

  lemma DayFiltersDisjoint(cal: Calendar, d: int, e: int, t: int)
    requires cal.Valid()
    requires d != e && cal.InDay(d, t)
    ensures !cal.InDay(e, t)
  {
    InDayIsDayOf(cal, d, t);
    if cal.InDay(e, t) {
      InDayIsDayOf(cal, e, t);
    }
  }

  /** The last millisecond of a day passes no day filter at all: `lt endOf(day)`
      leaves out exactly that instant, although the calendar puts it on day `d`. */
  lemma LastMillisecondInNoDay(cal: Calendar, d: int, e: int)
    requires cal.Valid()
    ensures cal.dayOf(cal.EndOfDay(d)) == d
    ensures !cal.InDay(e, cal.EndOfDay(d))
  {
    var t := cal.EndOfDay(d);
    assert cal.dayStart(d) < cal.dayStart(d + 1);
    if cal.InDay(e, t) {
      InDayIsDayOf(cal, e, t);
    }
  }

  /** Every row the day filter matches is matched by the chart filter of that day. */
  lemma InDayWithinInDays(cal: Calendar, first: int, d: int, last: int, t: int)
    requires cal.Valid()
    requires first <= d <= last && cal.InDay(d, t)
    ensures cal.InDays(first, last, t)
  {
    if first < d { assert cal.dayStart(first) < cal.dayStart(d); }
    if d < last { assert cal.dayStart(d + 1) < cal.dayStart(last + 1); }
  }

  /** A timestamp the chart filter of days `first`..`last` matches is one the
      calendar puts on a day of that span. */
  lemma InDaysDayOf(cal: Calendar, first: int, last: int, t: int)
    requires cal.Valid() && cal.InDays(first, last, t)
    ensures first <= cal.dayOf(t) <= last
  {
  }
}
