/** The farmer booking page: a list shown a page at a time with a
    "load more" button, and the dialog that creates a booking. */
module BookingPage {
  import opened Wrappers
  import opened Domain
  import FarmerView

  /** Rows shown when the page opens, and rows added by each "load more". */
  const InitialVisible: nat := 8
  const LoadStep: nat := 5

  datatype BookingPageState = BookingPageState(modalOpen: bool, visible: nat)

  function InitialPage(): (s: BookingPageState)
    ensures !s.modalOpen && s.visible == InitialVisible
  {
    BookingPageState(false, InitialVisible)
  }

  function LoadMore(s: BookingPageState): (t: BookingPageState)
    ensures t.visible == s.visible + LoadStep && t.modalOpen == s.modalOpen
  {
    s.(visible := s.visible + LoadStep)
  }

  function Min(a: nat, b: nat): nat {
    if a <= b then a else b
  }

  /** `bookings.slice(0, visible)`: the first `visible` bookings, or all of them. */
  function Displayed(s: BookingPageState, bookings: seq<Booking>): (shown: seq<Booking>)
    ensures |shown| == Min(s.visible, |bookings|)
    ensures shown == bookings[..|shown|]
  {
    if s.visible <= |bookings| then bookings[..s.visible] else bookings
  }

  /** The button shows while some booking is hidden. */
  function ShowLoadMore(s: BookingPageState, bookings: seq<Booking>): (shown: bool)
    ensures shown <==> |Displayed(s, bookings)| < |bookings|
  {
    s.visible < |bookings|
  }

  function LoadMoreTimes(s: BookingPageState, k: nat): (t: BookingPageState)
    ensures t.visible == s.visible + k * LoadStep
  {
    if k == 0 then s else LoadMore(LoadMoreTimes(s, k - 1))
  }

  /** Loading more only ever extends what is shown. */
  lemma LoadMoreExtends(s: BookingPageState, bookings: seq<Booking>)
    ensures var before := Displayed(s, bookings);
      var after := Displayed(LoadMore(s), bookings);
      |before| <= |after| && after[..|before|] == before
  {
  }

  /** After enough "load more" clicks every booking is shown and the button
      is gone: ceil((n - 8) / 5) clicks for n bookings. */
  lemma EnoughLoadsShowAll(bookings: seq<Booking>)
    ensures var k := if |bookings| <= InitialVisible then 0 else (|bookings| - InitialVisible + LoadStep - 1) / LoadStep;
      var s := LoadMoreTimes(InitialPage(), k);
      Displayed(s, bookings) == bookings && !ShowLoadMore(s, bookings)
      && (k > 0 ==> ShowLoadMore(LoadMoreTimes(InitialPage(), k - 1), bookings))
  {
    var k := if |bookings| <= InitialVisible then 0 else (|bookings| - InitialVisible + LoadStep - 1) / LoadStep;
    var s := LoadMoreTimes(InitialPage(), k);
    assert s.visible == InitialVisible + k * LoadStep;
    if k > 0 {
      assert LoadMoreTimes(InitialPage(), k - 1).visible == InitialVisible + (k - 1) * LoadStep;
    }
  }

  function OpenModal(s: BookingPageState): (t: BookingPageState)
    ensures t.modalOpen && t.visible == s.visible
  {
    s.(modalOpen := true)
  }

  /** The dialog's close button. */
  function CloseModal(s: BookingPageState): (t: BookingPageState)
    ensures !t.modalOpen && t.visible == s.visible
  {
    s.(modalOpen := false)
  }

  /** `handleConfirmBooking`: the request goes to the farmer area's add
      handler and the dialog closes; the page keeps its visible count. */
  function ConfirmBooking(s: BookingPageState, area: FarmerView.FarmerState, req: FarmerView.BookingRequest,
                          stamp: nat): (r: (BookingPageState, FarmerView.FarmerState))
    ensures !r.0.modalOpen && r.0.visible == s.visible
    ensures r.1 == FarmerView.AddBooking(area, req, stamp)
  {
    (s.(modalOpen := false), FarmerView.AddBooking(area, req, stamp))
  }

  /** A confirmed booking appears at the top of the page, whatever was
      loaded before. */
  lemma ConfirmedBookingShownFirst(s: BookingPageState, area: FarmerView.FarmerState,
                                   req: FarmerView.BookingRequest, stamp: nat)
    requires s.visible > 0
    ensures var r := ConfirmBooking(s, area, req, stamp);
      var shown := Displayed(r.0, r.1.bookings);
      |shown| > 0 && shown[0].description == req.description && shown[0].date == req.date
  {
  }
}
