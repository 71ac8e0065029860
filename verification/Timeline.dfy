/** The two booking timelines of the data module: the farmer's own bookings
    and the merged farmer-and-factory list shown to the administrator, both
    newest first. */
module Timeline {
  import opened Wrappers
  import opened JsDate
  import opened Domain
  import opened BookingDate
  import opened StableSort
  import BookingDateFacts

  /** The sort key: a booking's normalised date. */
  function DateKey(clock: Clock, fallback: string -> Option<int>): Booking -> TimeValue {
    (b: Booking) => ParseBookingDate(b.date, clock, fallback)
  }

  /** `farmerBookings`: the unsorted farmer list sorted newest first. The
      source sorts that array in place, so afterwards both names denote
      this sequence. */
  function FarmerBookings(unsorted: seq<Booking>, clock: Clock, fallback: string -> Option<int>): (r: seq<Booking>)
    ensures multiset(r) == multiset(unsorted)
  {
    Sort(DateKey(clock, fallback), unsorted)
  }

  /** `allAdminBookings`: the sorted farmer list followed by the factory
      schedule, sorted newest first. */
  function AdminBookings(farmer: seq<Booking>, factory: seq<Booking>, clock: Clock, fallback: string -> Option<int>): (r: seq<Booking>)
    ensures multiset(r) == multiset(farmer) + multiset(factory)
  {
    Sort(DateKey(clock, fallback), farmer + factory)
  }

  /** The farmer timeline is a permutation of its input and, when every date
      is valid, non-increasing by date. */
  lemma FarmerTimeline(unsorted: seq<Booking>, clock: Clock, fallback: string -> Option<int>)
    ensures multiset(FarmerBookings(unsorted, clock, fallback)) == multiset(unsorted)
    ensures AllValid(DateKey(clock, fallback), unsorted) ==>
      Descending(DateKey(clock, fallback), FarmerBookings(unsorted, clock, fallback))
  {
    if AllValid(DateKey(clock, fallback), unsorted) {
      SortDescending(DateKey(clock, fallback), unsorted);
    }
  }

  /** The administrator's timeline is a permutation of the farmer list and
      the factory schedule together, non-increasing by date when every date
      is valid, and of the bookings sharing a date the farmer's come first,
      each source in its own order. */
  lemma AdminTimeline(farmer: seq<Booking>, factory: seq<Booking>, clock: Clock,
                      fallback: string -> Option<int>, k: TimeValue)
    ensures var r := AdminBookings(farmer, factory, clock, fallback);
      && multiset(r) == multiset(farmer) + multiset(factory)
      && (AllValid(DateKey(clock, fallback), farmer + factory) ==> Descending(DateKey(clock, fallback), r))
      && WithKey(DateKey(clock, fallback), r, k)
         == WithKey(DateKey(clock, fallback), farmer, k) + WithKey(DateKey(clock, fallback), factory, k)
  {
    var key := DateKey(clock, fallback);
    SortStable(key, farmer + factory, k);
    WithKeyAppend(key, farmer, factory, k);
    if AllValid(key, farmer + factory) {
      SortDescending(key, farmer + factory);
    }
  }

  /** Rebuilding a timeline from the same data gives the same sequence, and
      re-sorting a timeline of valid dates changes nothing. */
  lemma TimelineIdempotent(unsorted: seq<Booking>, clock: Clock, fallback: string -> Option<int>)
    requires AllValid(DateKey(clock, fallback), unsorted)
    ensures FarmerBookings(FarmerBookings(unsorted, clock, fallback), clock, fallback)
         == FarmerBookings(unsorted, clock, fallback)
  {
    SortIdempotent(DateKey(clock, fallback), unsorted);
  }

  /** A booking with an empty date sorts below every booking with a later
      date: once one appears in a timeline of valid dates whose other dates
      all lie after the epoch, only empty-dated bookings follow it. */
  lemma EmptyDatesSinkToBottom(s: seq<Booking>, clock: Clock, fallback: string -> Option<int>)
    requires AllValid(DateKey(clock, fallback), s)
    requires forall b :: b in s && b.date != "" ==> ParseBookingDate(b.date, clock, fallback).ms > 0
    ensures var r := FarmerBookings(s, clock, fallback);
      forall i, j :: 0 <= i < j < |r| && r[i].date == "" ==> r[j].date == ""
  {
    var key := DateKey(clock, fallback);
    var r := FarmerBookings(s, clock, fallback);
    SortDescending(key, s);
    forall i, j | 0 <= i < j < |r| && r[i].date == ""
      ensures r[j].date == ""
    {
      assert r[j] in multiset(r);
      assert r[j] in s;
      assert !Precedes(key, r[j], r[i]);
      assert key(r[i]) == Valid(0);
    }
  }

  /** A farmer booking and a factory booking with the same date token (such
      as '14/07/68') keep the farmer booking first. */
  lemma SameDateFarmerFirst(f: Booking, g: Booking, clock: Clock, fallback: string -> Option<int>)
    requires f.date == g.date
    ensures AdminBookings([f], [g], clock, fallback) == [f, g]
  {
    var key := DateKey(clock, fallback);
    assert key(f) == key(g);
    assert [f] + [g] == [f, g];
    SortPair(key, f, g);
  }

  /** Of two bookings from different sources, the one with the later
      valid date comes first, whichever source holds which. */
  lemma LaterFirst(f: Booking, g: Booking, clock: Clock, fallback: string -> Option<int>)
    requires ParseBookingDate(f.date, clock, fallback).Valid? && ParseBookingDate(g.date, clock, fallback).Valid?
    requires ParseBookingDate(f.date, clock, fallback).ms < ParseBookingDate(g.date, clock, fallback).ms
    ensures AdminBookings([f], [g], clock, fallback) == [g, f]
    ensures AdminBookings([g], [f], clock, fallback) == [g, f]
  {
    var key := DateKey(clock, fallback);
    assert Precedes(key, g, f) && !Precedes(key, f, g);
    assert [f] + [g] == [f, g] && [g] + [f] == [g, f];
    SortPair(key, f, g);
    SortPair(key, g, f);
  }

  /** For example, bookings on '10/07/68' and '09/07/68' are ordered with
      the 10th first. */
  lemma LaterDateFirst(f: Booking, g: Booking, clock: Clock, fallback: string -> Option<int>)
    requires f.date == BookingDateFacts.ShortDate(9, 7, 68) && g.date == BookingDateFacts.ShortDate(10, 7, 68)
    requires Ordinary(f.date, clock) && Ordinary(g.date, clock)
    ensures AdminBookings([f], [g], clock, fallback) == [g, f]
    ensures AdminBookings([g], [f], clock, fallback) == [g, f]
  {
    BookingDateFacts.ShortDateMonotone(9, 7, 68, 10, 7, 68, clock, fallback);
    LaterFirst(f, g, clock, fallback);
  }
}
