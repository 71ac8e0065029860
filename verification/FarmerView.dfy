/** The farmer area's shared state: the page shown, the article picked for
    the knowledge page, the farmer's bookings and profile. */
module FarmerView {
  import opened Wrappers
  import opened Domain
  import opened Strings
  import opened Numeric

  datatype Page =
    | DashboardPage
    | PlotManagementPage
    | ProfilePage
    | BookingPage
    | FinancePage
    | KnowledgePage
    | ContractPage
    | CheckStatusPage
    | ShipmentStatusPage

  datatype FarmerState = FarmerState(
    page: Page,
    selectedArticleId: Option<string>,
    bookings: seq<Booking>,
    selectedBooking: Option<Booking>,
    profile: Profile,
    sidebarOpen: bool,
    notificationOpen: bool)

  /** The state when the farmer area opens, on the dashboard. */
  function InitialFarmer(bookings: seq<Booking>, profile: Profile): (s: FarmerState)
    ensures s.page == DashboardPage && s.selectedArticleId.None? && s.selectedBooking.None?
    ensures s.bookings == bookings && s.profile == profile
    ensures !s.sidebarOpen && !s.notificationOpen
  {
    FarmerState(DashboardPage, None, bookings, None, profile, false, false)
  }

  /** What the booking dialog submits. */
  datatype BookingRequest = BookingRequest(description: string, date: string)

  /** `b<count + 1>-<stamp>`, where `stamp` is the millisecond clock reading. */
  function BookingId(count: nat, stamp: nat): string {
    "b" + DecimalString(count + 1) + "-" + DecimalString(stamp)
  }

  /** A string of digits has no dash. */
  lemma DigitsNoDash(t: string)
    requires forall i :: 0 <= i < |t| ==> IsDigit(t[i])
    ensures '-' !in t
  {
    forall i | 0 <= i < |t|
      ensures t[i] != '-'
    {
      assert IsDigit(t[i]);
    }
  }

  /** The id splits at its one dash. */
  lemma SplitBookingId(count: nat, stamp: nat)
    ensures Split(BookingId(count, stamp), '-') == ["b" + DecimalString(count + 1), DecimalString(stamp)]
  {
    var n := DecimalString(count + 1);
    var t := DecimalString(stamp);
    DigitsNoDash(n);
    DigitsNoDash(t);
    assert '-' !in "b" + n by {
      assert forall c :: c in "b" + n ==> c == 'b' || c in n;
    }
    assert BookingId(count, stamp) == ("b" + n) + (['-'] + t);
    SplitPrefix("b" + n, t, '-');
    SplitPiece(t, '-');
  }

  /** The id's two numbers can be read back from it: the part before the
      dash, after the `b`, is the new list length, and the part after the
      dash is the clock reading. */
  lemma BookingIdRoundTrip(count: nat, stamp: nat)
    ensures var parts := Split(BookingId(count, stamp), '-');
      && |parts| == 2 && parts[0][0] == 'b'
      && ParseInt(parts[0][1..]) == Some(count + 1)
      && ParseInt(parts[1]) == Some(stamp)
  {
    var n := DecimalString(count + 1);
    var t := DecimalString(stamp);
    var parts := Split(BookingId(count, stamp), '-');
    SplitBookingId(count, stamp);
    assert parts[0][1..] == n + "";
    assert parts[1] == t + "";
    ParseDecimal(count + 1, "");
    ParseDecimal(stamp, "");
  }

  /** Distinct (length, clock reading) pairs give distinct ids. */
  lemma BookingIdInjective(c1: nat, t1: nat, c2: nat, t2: nat)
    requires BookingId(c1, t1) == BookingId(c2, t2)
    ensures c1 == c2 && t1 == t2
  {
    BookingIdRoundTrip(c1, t1);
    BookingIdRoundTrip(c2, t2);
  }

  /** `handleAddBooking`: a pending farmer booking in the farmer's name,
      with the submitted description and date, goes on top of the list;
      the list is not re-sorted. */
  function AddBooking(s: FarmerState, req: BookingRequest, stamp: nat): (t: FarmerState)
    ensures |t.bookings| == |s.bookings| + 1 && t.bookings[1..] == s.bookings
    ensures var b := t.bookings[0];
      && b.status == Pending && b.userType == Farmer && b.factory.None?
      && b.description == req.description && b.date == req.date
      && b.userName == FullName(s.profile)
      && b.id == BookingId(|s.bookings|, stamp)
    ensures t.(bookings := s.bookings) == s
  {
    var b := Booking(BookingId(|s.bookings|, stamp), req.date, req.description, Pending, Farmer,
                     FullName(s.profile), None);
    s.(bookings := [b] + s.bookings)
  }

  /** Bookings added one after the other stack up newest first, above the
      untouched original list. */
  lemma AddTwice(s: FarmerState, r1: BookingRequest, t1: nat, r2: BookingRequest, t2: nat)
    ensures var u := AddBooking(AddBooking(s, r1, t1), r2, t2);
      && u.bookings[2..] == s.bookings
      && u.bookings[0].description == r2.description && u.bookings[1].description == r1.description
      && u.bookings[0].id != u.bookings[1].id
  {
    var u := AddBooking(AddBooking(s, r1, t1), r2, t2);
    if u.bookings[0].id == u.bookings[1].id {
      BookingIdInjective(|s.bookings| + 1, t2, |s.bookings|, t1);
    }
  }

  /** `handleNavClick`: shows the page, forgets the picked article and
      closes the menu. */
  function NavClick(s: FarmerState, page: Page): (t: FarmerState)
    ensures t.page == page && t.selectedArticleId.None? && !t.sidebarOpen
    ensures t.bookings == s.bookings && t.profile == s.profile && t.selectedBooking == s.selectedBooking
    ensures t.notificationOpen == s.notificationOpen
  {
    s.(selectedArticleId := None, page := page, sidebarOpen := false)
  }

  /** `handleSelectArticle`: remembers the article and opens the knowledge page. */
  function SelectArticle(s: FarmerState, articleId: string): (t: FarmerState)
    ensures t.page == KnowledgePage && t.selectedArticleId == Some(articleId)
    ensures t.(page := s.page, selectedArticleId := s.selectedArticleId) == s
  {
    s.(selectedArticleId := Some(articleId), page := KnowledgePage)
  }

  /** `handleViewBookingDetails`. */
  function ViewBookingDetails(s: FarmerState, b: Booking): (t: FarmerState)
    ensures t.selectedBooking == Some(b)
    ensures t.(selectedBooking := s.selectedBooking) == s
  {
    s.(selectedBooking := Some(b))
  }

  /** `handleUpdateProfile`: the saved profile replaces the old one, and the
      next booking is made in the new name. */
  function UpdateProfile(s: FarmerState, p: Profile): (t: FarmerState)
    ensures t.profile == p && t.(profile := s.profile) == s
  {
    s.(profile := p)
  }

  lemma NewNameOnNextBooking(s: FarmerState, p: Profile, req: BookingRequest, stamp: nat)
    ensures AddBooking(UpdateProfile(s, p), req, stamp).bookings[0].userName == p.firstName + " " + p.lastName
  {
  }

  /** Picking an article then navigating anywhere forgets the article. */
  lemma NavigationClearsArticle(s: FarmerState, articleId: string, page: Page)
    ensures NavClick(SelectArticle(s, articleId), page).selectedArticleId.None?
    ensures NavClick(SelectArticle(s, articleId), page).page == page
  {
  }
}
