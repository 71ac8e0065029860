/** The parts of ECMAScript `Date` the booking logic relies on: time values
    in milliseconds, `TimeClip`, and the three-argument constructor
    `new Date(year, month, day)`. Local time is taken to be UTC. */
module JsDate {
  import opened Wrappers
  import Calendar

  /** A time value: a number of milliseconds since the epoch, or NaN
      (an "Invalid Date"). */
  datatype TimeValue = Valid(ms: int) | NaN

  /** Largest magnitude of a time value (section 21.4.1.1 of ECMA-262). */
  const MaxTime: int := 8_640_000_000_000_000

  predicate InRange(t: int) {
    -MaxTime <= t <= MaxTime
  }

  /** The same range counted in days: 100 000 000 days either side of the epoch. */
  const MaxDays: int := 100_000_000

  predicate DayInRange(day: int) {
    -MaxDays <= day <= MaxDays
  }

  /** `TimeClip`: times beyond the representable range become NaN. */
  function TimeClip(t: int): (r: TimeValue)
    ensures r.Valid? <==> InRange(t)
    ensures r.Valid? ==> r.ms == t
  {
    if InRange(t) then Valid(t) else NaN
  }

  /** `MakeFullYear`: a year between 0 and 99 names a year of the 1900s. */
  function MakeFullYear(y: int): (r: int)
    ensures 0 <= y <= 99 ==> r == 1900 + y
    ensures !(0 <= y <= 99) ==> r == y
  {
    if 0 <= y <= 99 then 1900 + y else y
  }

  /** The first day of the zero-based `month` of `year`, after months
      outside 0..11 have rolled into adjacent years. */
  function MonthStart(year: int, month: int): int {
    Calendar.DaysFromCivil(year + month / 12, month % 12 + 1, 1)
  }

  /** `MakeDay`: the day number of day `date` counted from the first of the
      zero-based `month` of `year`; days outside the month roll into
      adjacent months. When that first day is not itself within the
      time-value range there is no such day and the result is None (NaN). */
  function MakeDay(year: int, month: int, date: int): (r: Option<int>)
    ensures r.Some? <==> DayInRange(MonthStart(year, month))
    ensures r.Some? ==> r.value - date == MonthStart(year, month) - 1
  {
    var first := MonthStart(year, month);
    if DayInRange(first) then Some(first + date - 1) else None
  }

  /** `new Date(year, month, date)` with its arguments already converted to
      numbers (None is NaN). */
  function NewDate(year: Option<int>, month: Option<int>, date: Option<int>): (t: TimeValue)
    ensures year.None? || month.None? || date.None? ==> t.NaN?
    ensures t.Valid? ==> t.ms % Calendar.MsPerDay == 0
  {
    if year.None? || month.None? || date.None? then NaN
    else
      match MakeDay(MakeFullYear(year.value), month.value, date.value)
      case None => NaN
      case Some(day) =>
        WholeDays(day);
        TimeClip(day * Calendar.MsPerDay)
  }

  /** A whole number of days is a midnight. */
  lemma WholeDays(day: int)
    ensures (day * Calendar.MsPerDay) % Calendar.MsPerDay == 0
  {
  }

  /** For an in-range month and day the constructor gives midnight of that
      civil date (a year of 100 or more is taken literally). */
  lemma NewDateCivil(y: int, m: int, d: int)
    requires !(0 <= y <= 99)
    requires Calendar.ValidDate(y, m + 1, d)
    ensures NewDate(Some(y), Some(m), Some(d))
      == if DayInRange(Calendar.DaysFromCivil(y, m + 1, 1))
         then TimeClip(Calendar.DaysFromCivil(y, m + 1, d) * Calendar.MsPerDay)
         else NaN
  {
    assert MakeFullYear(y) == y;
    assert m / 12 == 0 && m % 12 == m;
    assert MonthStart(y, m) == Calendar.DaysFromCivil(y, m + 1, 1);
    assert Calendar.DaysFromCivil(y, m + 1, 1) + d - 1 == Calendar.DaysFromCivil(y, m + 1, d);
  }

  /** The range step matters: a year far beyond the time-value range is an
      invalid date even when the day count brings the sum back near the
      epoch (here to 11 January 1970). */
  lemma FarYearIsInvalid()
    ensures MonthStart(1_001_957, 0) - 365_237_741 - 1 == 10
    ensures MakeDay(1_001_957, 0, -365_237_741).None?
    ensures NewDate(Some(1_001_957), Some(0), Some(-365_237_741)) == NaN
  {
    assert MonthStart(1_001_957, 0) == Calendar.YearStart(1_001_957);
  }

  /** Month 12 rolls over into January of the following year. */
  lemma MonthRollOver(y: int, m: int, d: int)
    ensures MakeDay(y, m + 12, d) == MakeDay(y + 1, m, d)
  {
    assert (m + 12) / 12 == m / 12 + 1;
    assert (m + 12) % 12 == m % 12;
  }

  /** Day 0 of a month is the last day of the previous month. */
  lemma DayZeroRollsBack(y: int, m: int)
    requires 1 <= m <= 11
    ensures MakeDay(y, m, 0)
      == if DayInRange(Calendar.DaysFromCivil(y, m + 1, 1))
         then Some(Calendar.DaysFromCivil(y, m, Calendar.DaysInMonth(y, m)))
         else None
  {
    assert MonthStart(y, m) == Calendar.DaysFromCivil(y, m + 1, 1);
    Calendar.MonthEnd(y, m);
  }
}
