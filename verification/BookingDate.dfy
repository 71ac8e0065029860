/** Normalisation of a booking's date token into a time value
    (`parseBookingDate`). The "today" and "tomorrow" tokens are the
    locale-formatted dates computed once when the data module loads; they
    arrive here with the clock reading taken at that moment. */
module BookingDate {
  import opened Wrappers
  import opened Strings
  import opened Numeric
  import opened JsDate
  import Calendar

  /** The reading of the wall clock at module load, in milliseconds, and
      the two sentinel tokens formatted from it. */
  datatype Clock = Clock(now: int, todayToken: string, tomorrowToken: string)

  /** A clock reading is itself a valid time value. */
  predicate ValidClock(c: Clock) {
    InRange(c.now)
  }

  /** A short date's two-digit year counts from 2500 in the Buddhist era,
      which is 543 years ahead of the civil year. */
  const BuddhistCentury: int := 2500
  const BuddhistEraOffset: int := 543

  /** `today`: the clock reading with the time of day set to midnight. */
  function TodayMidnight(now: int): (t: int)
    ensures t <= now < t + Calendar.MsPerDay
    ensures t % Calendar.MsPerDay == 0
  {
    (now / Calendar.MsPerDay) * Calendar.MsPerDay
  }

  /** `tomorrow`: one calendar day after the clock reading, keeping its time
      of day (only `today` is set to midnight). */
  function Tomorrow(now: int): TimeValue {
    TimeClip(now + Calendar.MsPerDay)
  }

  /** `parseBookingDate`. The cases are tried in order: the empty token, the
      today sentinel, the tomorrow sentinel, a token with exactly three
      `/`-separated parts read as a Buddhist-era `dd/mm/yy`, and lastly the
      engine's free-form parser (`fallback`, None when it yields an invalid
      date), whose failure gives the epoch. */
  function ParseBookingDate(token: string, clock: Clock, fallback: string -> Option<int>): (r: TimeValue)
    ensures token == "" ==> r == Valid(0)
    ensures Ordinary(token, clock) && |Split(token, '/')| != 3 ==> r.Valid?
    ensures Ordinary(token, clock) && |Split(token, '/')| == 3 && r.Valid? ==> r.ms % Calendar.MsPerDay == 0
  {
    if token == "" then Valid(0)
    else if token == clock.todayToken then Valid(TodayMidnight(clock.now))
    else if token == clock.tomorrowToken then Tomorrow(clock.now)
    else
      var parts := Split(token, '/');
      if |parts| == 3 then ReadShortDate(ParseInt(parts[0]), ParseInt(parts[1]), ParseInt(parts[2]))
      else
        match fallback(token)
        case Some(ms) => Valid(ms)
        case None => Valid(0)
  }

  /** The instant of a short date read as numbers (None is NaN): the
      two-digit Buddhist-era year becomes a civil year and the one-based month
      a zero-based one before they reach the date constructor. */
  function ReadShortDate(day: Option<int>, month: Option<int>, yy: Option<int>): (t: TimeValue)
    ensures day.None? || month.None? || yy.None? ==> t.NaN?
    ensures t.Valid? ==> t.ms % Calendar.MsPerDay == 0
  {
    if day.None? || month.None? || yy.None? then NaN
    else NewDate(Some(yy.value + BuddhistCentury - BuddhistEraOffset), Some(month.value - 1), Some(day.value))
  }

  /** True when `token` reaches the short-date branch: it is neither empty
      nor one of the sentinels. */
  predicate Ordinary(token: string, clock: Clock) {
    token != "" && token != clock.todayToken && token != clock.tomorrowToken
  }
}

/** Properties of the booking-date normaliser. */
module BookingDateFacts {
  import opened Wrappers
  import opened Strings
  import opened Numeric
  import opened JsDate
  import opened BookingDate
  import Calendar

  /** The `dd/mm/yy` token with two-digit fields, as the data shows them. */
  function TwoDigits(n: nat): (s: string)
    requires n < 100
    ensures |s| == 2 && IsDigit(s[0]) && IsDigit(s[1])
  {
    [DigitChar(n / 10), DigitChar(n % 10)]
  }

  function ShortDate(d: nat, m: nat, yy: nat): string
    requires d < 100 && m < 100 && yy < 100
  {
    TwoDigits(d) + "/" + TwoDigits(m) + "/" + TwoDigits(yy)
  }

  /** An empty token is the epoch, so it sorts last in a descending list. */
  lemma EmptyIsEpoch(clock: Clock, fallback: string -> Option<int>)
    ensures ParseBookingDate("", clock, fallback) == Valid(0)
  {
  }

  /** The today sentinel gives midnight of the clock's day, whatever time of
      day the clock read, even when the token also looks like a short date. */
  lemma TodaySentinel(clock: Clock, clock': Clock, fallback: string -> Option<int>)
    requires clock.todayToken != "" && clock'.todayToken == clock.todayToken
    requires clock.now / Calendar.MsPerDay == clock'.now / Calendar.MsPerDay
    ensures var t := ParseBookingDate(clock.todayToken, clock, fallback);
      && t.Valid? && t.ms % Calendar.MsPerDay == 0
      && t.ms <= clock.now < t.ms + Calendar.MsPerDay
      && t == ParseBookingDate(clock.todayToken, clock', fallback)
  {
  }

  /** The tomorrow sentinel gives exactly one day after the clock reading:
      it keeps the reading's time of day and is midnight only if the reading
      was. */
  lemma TomorrowSentinel(clock: Clock, fallback: string -> Option<int>)
    requires clock.tomorrowToken != "" && clock.tomorrowToken != clock.todayToken
    requires InRange(clock.now + Calendar.MsPerDay)
    ensures var t := ParseBookingDate(clock.tomorrowToken, clock, fallback);
      && t == Valid(clock.now + Calendar.MsPerDay)
      && (t.ms % Calendar.MsPerDay == 0 <==> clock.now % Calendar.MsPerDay == 0)
  {
  }

  lemma TwoDigitsValue(n: nat)
    requires n < 100
    ensures DigitsValue(TwoDigits(n)) == n
  {
    var s := TwoDigits(n);
    assert s[..1] == [s[0]];
    assert [s[0]][..0] == [];
    assert DigitsValue(s[..1]) == n / 10;
  }

  lemma ParseTwoDigits(n: nat)
    requires n < 100
    ensures ParseInt(TwoDigits(n)) == Some(n)
  {
    var s := TwoDigits(n);
    assert forall i :: 0 <= i < |s| ==> IsDigit(s[i]);
    ParseDigits(s);
    TwoDigitsValue(n);
  }

  lemma SplitShortDate(d: nat, m: nat, yy: nat)
    requires d < 100 && m < 100 && yy < 100
    ensures Split(ShortDate(d, m, yy), '/') == [TwoDigits(d), TwoDigits(m), TwoDigits(yy)]
  {
    var parts := [TwoDigits(d), TwoDigits(m), TwoDigits(yy)];
    assert Join(parts, '/') == ShortDate(d, m, yy) by {
      assert Join(parts[1..], '/') == TwoDigits(m) + "/" + Join(parts[2..], '/');
    }
    SplitJoin(parts, '/');
  }

  /** The years a two-digit Buddhist-era year can denote (1957 to 2056) lie
      well inside the time-value range. */
  lemma ShortDateInRange(y: int, m: int, d: int)
    requires 1957 <= y <= 2056 && Calendar.ValidDate(y, m, d)
    ensures DayInRange(Calendar.DaysFromCivil(y, m, d))
    ensures InRange(Calendar.DaysFromCivil(y, m, d) * Calendar.MsPerDay)
  {
    Calendar.InYear(y, m, d);
    if 1957 < y { Calendar.YearStartMonotone(1957, y); }
    if y + 1 < 2057 { Calendar.YearStartMonotone(y + 1, 2057); }
    assert Calendar.YearStart(1957) == -4748;
    assert Calendar.YearStart(2057) == 31777;
  }

  /** An ordinary token of three parts is read by the date constructor. */
  lemma ThreeParts(token: string, clock: Clock, fallback: string -> Option<int>, d: int, m: int, yy: int)
    requires Ordinary(token, clock)
    requires var parts := Split(token, '/');
      |parts| == 3 && ParseInt(parts[0]) == Some(d) && ParseInt(parts[1]) == Some(m) && ParseInt(parts[2]) == Some(yy)
    ensures ParseBookingDate(token, clock, fallback) == ReadShortDate(Some(d), Some(m), Some(yy))
  {
  }

  /** The three fields of a short date read back as the numbers written. */
  lemma ShortDateFields(d: nat, m: nat, yy: nat)
    requires d < 100 && m < 100 && yy < 100
    ensures var parts := Split(ShortDate(d, m, yy), '/');
      |parts| == 3 && ParseInt(parts[0]) == Some(d) && ParseInt(parts[1]) == Some(m) && ParseInt(parts[2]) == Some(yy)
  {
    SplitShortDate(d, m, yy);
    var parts := Split(ShortDate(d, m, yy), '/');
    assert ParseInt(parts[0]) == Some(d) by {
      assert parts[0] == TwoDigits(d);
      ParseTwoDigits(d);
    }
    assert ParseInt(parts[1]) == Some(m) by {
      assert parts[1] == TwoDigits(m);
      ParseTwoDigits(m);
    }
    assert ParseInt(parts[2]) == Some(yy) by {
      assert parts[2] == TwoDigits(yy);
      ParseTwoDigits(yy);
    }
  }

  /** With all three fields present, the reading is `new Date` on the
      Buddhist-era year converted to the common era and the zero-based month. */
  lemma ReadShortDateFields(d: int, m: int, yy: int)
    ensures ReadShortDate(Some(d), Some(m), Some(yy)) == NewDate(Some(yy + 1957), Some(m - 1), Some(d))
  {
  }

  /** For in-range fields the Buddhist-era reading is midnight of the civil date. */
  lemma ReadShortDateCivil(d: nat, m: nat, yy: nat)
    requires yy < 100 && Calendar.ValidDate(yy + 1957, m, d)
    ensures ReadShortDate(Some(d), Some(m), Some(yy))
      == Valid(Calendar.DaysFromCivil(yy + BuddhistCentury - BuddhistEraOffset, m, d) * Calendar.MsPerDay)
  {
    var y := yy + 1957;
    assert y == yy + BuddhistCentury - BuddhistEraOffset;
    var ms := Calendar.DaysFromCivil(y, m, d) * Calendar.MsPerDay;
    ReadShortDateFields(d, m, yy);
    assert NewDate(Some(y), Some(m - 1), Some(d)) == TimeClip(ms) by {
      ShortDateInRange(y, m, 1);
      JsDate.NewDateCivil(y, m - 1, d);
    }
    assert TimeClip(ms) == Valid(ms) by {
      ShortDateInRange(y, m, d);
    }
  }

  /** A Buddhist-era short date `dd/mm/yy` with an in-range day and month is
      midnight of civil date (yy + 2500 - 543)-mm-dd. */
  lemma ShortDateValue(d: nat, m: nat, yy: nat, clock: Clock, fallback: string -> Option<int>)
    requires yy < 100 && Calendar.ValidDate(yy + 1957, m, d)
    requires Ordinary(ShortDate(d, m, yy), clock)
    ensures ParseBookingDate(ShortDate(d, m, yy), clock, fallback)
      == Valid(Calendar.DaysFromCivil(yy + BuddhistCentury - BuddhistEraOffset, m, d) * Calendar.MsPerDay)
  {
    ShortDateFields(d, m, yy);
    ThreeParts(ShortDate(d, m, yy), clock, fallback, d, m, yy);
    ReadShortDateCivil(d, m, yy);
  }

  lemma FourteenJulyToken()
    ensures ShortDate(14, 7, 68) == "14/07/68"
  {
    assert TwoDigits(14) == "14" && TwoDigits(7) == "07" && TwoDigits(68) == "68";
  }

  lemma FourteenJulyInstant()
    ensures Calendar.ValidDate(2025, 7, 14)
    ensures Calendar.DaysFromCivil(2025, 7, 14) * Calendar.MsPerDay == 1_752_451_200_000
  {
    assert Calendar.YearStart(2025) == 20089;
  }

  /** '14/07/68' is 14 July 2025 (2568 in the Buddhist era), midnight UTC. */
  lemma FourteenJuly2568(clock: Clock, fallback: string -> Option<int>)
    requires Ordinary("14/07/68", clock)
    ensures ParseBookingDate("14/07/68", clock, fallback) == Valid(1_752_451_200_000)
  {
    FourteenJulyToken();
    FourteenJulyInstant();
    ShortDateValue(14, 7, 68, clock, fallback);
  }

  /** Short dates are ordered as the calendar orders them: a token earlier
      in (yy, mm, dd) order normalises to a strictly earlier instant. */
  lemma ShortDateMonotone(d: nat, m: nat, yy: nat, d': nat, m': nat, yy': nat,
                          clock: Clock, fallback: string -> Option<int>)
    requires yy < 100 && Calendar.ValidDate(yy + 1957, m, d)
    requires yy' < 100 && Calendar.ValidDate(yy' + 1957, m', d')
    requires Ordinary(ShortDate(d, m, yy), clock) && Ordinary(ShortDate(d', m', yy'), clock)
    requires yy < yy' || (yy == yy' && m < m') || (yy == yy' && m == m' && d < d')
    ensures ParseBookingDate(ShortDate(d, m, yy), clock, fallback).Valid?
    ensures ParseBookingDate(ShortDate(d', m', yy'), clock, fallback).Valid?
    ensures ParseBookingDate(ShortDate(d, m, yy), clock, fallback).ms
          < ParseBookingDate(ShortDate(d', m', yy'), clock, fallback).ms
  {
    ShortDateValue(d, m, yy, clock, fallback);
    ShortDateValue(d', m', yy', clock, fallback);
    Calendar.CivilMonotone(yy + 1957, m, d, yy' + 1957, m', d');
  }

  /** A three-part token whose day, month or year has no leading digits is an
      invalid date (NaN), not the epoch. */
  lemma NonNumericShortDate(token: string, clock: Clock, fallback: string -> Option<int>)
    requires Ordinary(token, clock)
    requires var parts := Split(token, '/');
      |parts| == 3 && (ParseInt(parts[0]).None? || ParseInt(parts[1]).None? || ParseInt(parts[2]).None?)
    ensures ParseBookingDate(token, clock, fallback) == NaN
  {
  }

  /** A token without exactly three parts goes to the free-form parser, and
      to the epoch when that fails. */
  lemma FreeFormToken(token: string, clock: Clock, fallback: string -> Option<int>)
    requires Ordinary(token, clock) && Count('/', token) != 2
    ensures ParseBookingDate(token, clock, fallback) == Valid(fallback(token).GetOr(0))
  {
  }

  /** The parser never fails except with NaN, and NaN only comes from a
      three-part token or from a tomorrow beyond the time range. */
  lemma OnlyShortDatesAreInvalid(token: string, clock: Clock, fallback: string -> Option<int>)
    ensures ParseBookingDate(token, clock, fallback).NaN? ==>
      (Ordinary(token, clock) && |Split(token, '/')| == 3)
      || (token == clock.tomorrowToken && !InRange(clock.now + Calendar.MsPerDay))
  {
  }
}
