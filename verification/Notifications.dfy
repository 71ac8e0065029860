/** The farmer's notification feed (`getFarmerNotifications`): a fixed
    announcement from the administrator, a reminder for each booking due
    within the next two days, and an entry for the newest knowledge article. */
module Notifications {
  import opened Wrappers
  import opened Domain
  import opened JsDate
  import opened BookingDate
  import Calendar
  import Timeline

  datatype NotificationType = AdminUpdate | BookingReminder | Knowledge

  /** A feed entry; `date` is a display string, never re-parsed. */
  datatype Notification = Notification(
    id: string,
    kind: NotificationType,
    title: string,
    message: string,
    date: string,
    read: bool)

  /** The administrator's maintenance announcement, always first and unread. */
  const AdminAnnouncement: Notification :=
    Notification("n-admin-1", AdminUpdate, "ประกาศจากแอดมิน",
      "จะมีการปิดปรับปรุงระบบในวันที่ 30 ก.ค. 2568 เวลา 02:00-04:00", "20/07/68", false)

  /** Bookings are reminded from the current day up to this many days ahead. */
  const ReminderWindowDays: int := 2

  /** Division rounded up, for a positive divisor. */
  function CeilDiv(a: int, b: int): (q: int)
    requires b > 0
    ensures b * (q - 1) < a <= b * q
  {
    -((-a) / b)
  }

  /** `Math.ceil((t - now) / msPerDay)`: whole days from `now` to `t`, rounded up. */
  function DaysUntil(t: int, now: int): int {
    CeilDiv(t - now, Calendar.MsPerDay)
  }

  /** A booking gets a reminder when its date is valid, it is 0 to 2 days
      ahead (rounding up), and it is not completed. */
  predicate IsDue(b: Booking, key: Booking -> TimeValue, now: int) {
    var t := key(b);
    t.Valid? && 0 <= DaysUntil(t.ms, now) <= ReminderWindowDays && b.status != Completed
  }

  /** The reminder for booking `b`; it echoes the raw date token. */
  function Reminder(b: Booking): Notification {
    Notification("n-booking-" + b.id, BookingReminder, "แจ้งเตือนนัดหมาย",
      "คุณมีนัดหมาย \"" + b.description + "\" ในวันที่ " + b.date, b.date, false)
  }

  /** The reminders, in the order of the bookings they remind of. */
  function Reminders(bookings: seq<Booking>, key: Booking -> TimeValue, now: int): (rs: seq<Notification>)
    ensures |rs| <= |bookings|
  {
    if |bookings| == 0 then []
    else
      (if IsDue(bookings[0], key, now) then [Reminder(bookings[0])] else [])
      + Reminders(bookings[1..], key, now)
  }

  /** Exactly the due bookings are reminded: every due booking has its
      reminder in the list, and every reminder belongs to a due booking. */
  lemma {:induction false} RemindersMembers(bookings: seq<Booking>, key: Booking -> TimeValue, now: int)
    ensures forall b :: b in bookings && IsDue(b, key, now) ==> Reminder(b) in Reminders(bookings, key, now)
    ensures forall n :: n in Reminders(bookings, key, now) ==>
      exists b :: b in bookings && IsDue(b, key, now) && n == Reminder(b)
  {
    if |bookings| > 0 {
      var rs := Reminders(bookings, key, now);
      var rest := Reminders(bookings[1..], key, now);
      RemindersMembers(bookings[1..], key, now);
      assert forall b :: b in bookings ==> b == bookings[0] || b in bookings[1..];
      if IsDue(bookings[0], key, now) {
        assert rs == [Reminder(bookings[0])] + rest;
      } else {
        assert rs == rest;
      }
      forall n | n in rs
        ensures exists b :: b in bookings && IsDue(b, key, now) && n == Reminder(b)
      {
        if n in rest {
          var b :| b in bookings[1..] && IsDue(b, key, now) && n == Reminder(b);
          assert b in bookings;
        } else {
          assert n == Reminder(bookings[0]) && bookings[0] in bookings;
        }
      }
    }
  }

  /** The entry announcing the newest article; it is marked read. */
  function KnowledgeEntry(a: Article): Notification {
    Notification("n-knowledge-" + a.id, Knowledge, "บทความใหม่", "มีบทความใหม่: \"" + a.title + "\"", a.postDate, true)
  }

  /** `getFarmerNotifications(bookings, articles)` at wall-clock time `now`;
      `clock` is the reading taken when the data module loaded. Nothing is
      re-sorted: the announcement, the reminders, then the article entry. */
  function FarmerNotifications(bookings: seq<Booking>, articles: seq<Article>, clock: Clock,
                               fallback: string -> Option<int>, now: int): (r: seq<Notification>)
    ensures 1 <= |r| <= |bookings| + 2 && r[0] == AdminAnnouncement
  {
    Assemble(Reminders(bookings, Timeline.DateKey(clock, fallback), now), articles)
  }

  /** The feed around a list of reminders: the announcement, the reminders,
      then an entry for the newest article when there is one. */
  function Assemble(reminders: seq<Notification>, articles: seq<Article>): seq<Notification> {
    [AdminAnnouncement] + reminders + (if |articles| > 0 then [KnowledgeEntry(articles[0])] else [])
  }

  /** Reminders follow the booking order: the reminders for a concatenation
      are the reminders for each part, in turn. */
  lemma {:induction false} RemindersAppend(a: seq<Booking>, b: seq<Booking>, key: Booking -> TimeValue, now: int)
    ensures Reminders(a + b, key, now) == Reminders(a, key, now) + Reminders(b, key, now)
  {
    if |a| == 0 {
      assert a + b == b;
    } else {
      var head := if IsDue(a[0], key, now) then [Reminder(a[0])] else [];
      assert (a + b)[0] == a[0] && (a + b)[1..] == a[1..] + b;
      assert Reminders(a + b, key, now) == head + Reminders(a[1..] + b, key, now);
      RemindersAppend(a[1..], b, key, now);
      assert Reminders(a, key, now) == head + Reminders(a[1..], key, now);
    }
  }

  /** The reminder window in milliseconds: a booking is 0 to 2 days ahead,
      rounding up, exactly when it lies after one day before `now` and no
      later than two days after it. */
  lemma ReminderWindow(t: int, now: int)
    ensures 0 <= DaysUntil(t, now) <= ReminderWindowDays
       <==> now - Calendar.MsPerDay < t <= now + 2 * Calendar.MsPerDay
  {
    var q := DaysUntil(t, now);
    assert Calendar.MsPerDay * (q - 1) < t - now <= Calendar.MsPerDay * q;
  }

  /** Due, stated in milliseconds rather than rounded days. */
  lemma DueIff(b: Booking, key: Booking -> TimeValue, now: int)
    ensures IsDue(b, key, now)
      <==> key(b).Valid? && b.status != Completed
           && now - Calendar.MsPerDay < key(b).ms <= now + 2 * Calendar.MsPerDay
  {
    if key(b).Valid? {
      ReminderWindow(key(b).ms, now);
    }
  }

  /** A pending booking exactly two days ahead is reminded; one three days
      ahead is not. Completed bookings never are. */
  lemma WindowEdges(b: Booking, key: Booking -> TimeValue, now: int)
    requires key(b).Valid?
    ensures key(b).ms == now + 2 * Calendar.MsPerDay && b.status != Completed ==> IsDue(b, key, now)
    ensures key(b).ms == now + 3 * Calendar.MsPerDay ==> !IsDue(b, key, now)
    ensures b.status == Completed ==> !IsDue(b, key, now)
  {
    ReminderWindow(key(b).ms, now);
  }

  /** An empty date is the epoch, which is a valid date: such a booking is
      reminded when `now` lies within two days before to one day after the
      epoch, and never otherwise. */
  lemma EmptyDateReminder(b: Booking, clock: Clock, fallback: string -> Option<int>, now: int)
    requires b.date == ""
    ensures IsDue(b, Timeline.DateKey(clock, fallback), now)
      <==> b.status != Completed && -2 * Calendar.MsPerDay <= now < Calendar.MsPerDay
  {
    assert Timeline.DateKey(clock, fallback)(b) == Valid(0);
    ReminderWindow(0, now);
  }

  /** The shape of the feed: the announcement first, the reminders in
      booking order, and a last, read, entry for `articles[0]` exactly when
      there are articles; no other entry is an announcement or an article. */
  lemma FeedShape(bookings: seq<Booking>, articles: seq<Article>, clock: Clock,
                  fallback: string -> Option<int>, now: int)
    ensures var r := FarmerNotifications(bookings, articles, clock, fallback, now);
      var rs := Reminders(bookings, Timeline.DateKey(clock, fallback), now);
      && |r| == 1 + |rs| + (if |articles| > 0 then 1 else 0)
      && r[0] == AdminAnnouncement && !r[0].read
      && r[1..1 + |rs|] == rs
      && (forall i :: 1 <= i < 1 + |rs| ==> r[i].kind == BookingReminder && !r[i].read)
      && (|articles| > 0 ==> r[|r| - 1] == KnowledgeEntry(articles[0]) && r[|r| - 1].read)
      && ((exists i :: 0 <= i < |r| && r[i].kind == Knowledge) <==> |articles| > 0)
  {
    var key := Timeline.DateKey(clock, fallback);
    var rs := Reminders(bookings, key, now);
    ReminderKinds(bookings, key, now);
    assert forall j :: 0 <= j < |rs| ==> rs[j].kind == BookingReminder && !rs[j].read;
    assert FarmerNotifications(bookings, articles, clock, fallback, now) == Assemble(rs, articles);
    AssembleShape(rs, articles);
  }

  /** `FeedShape` for any list of unread booking reminders. */
  lemma AssembleShape(rs: seq<Notification>, articles: seq<Article>)
    requires forall j :: 0 <= j < |rs| ==> rs[j].kind == BookingReminder && !rs[j].read
    ensures var r := Assemble(rs, articles);
      && |r| == 1 + |rs| + (if |articles| > 0 then 1 else 0)
      && r[0] == AdminAnnouncement && !r[0].read
      && r[1..1 + |rs|] == rs
      && (forall i :: 1 <= i < 1 + |rs| ==> r[i].kind == BookingReminder && !r[i].read)
      && (|articles| > 0 ==> r[|r| - 1] == KnowledgeEntry(articles[0]) && r[|r| - 1].read)
      && ((exists i :: 0 <= i < |r| && r[i].kind == Knowledge) <==> |articles| > 0)
  {
    var r := Assemble(rs, articles);
    forall i | 1 <= i < 1 + |rs|
      ensures r[i] == rs[i - 1]
    {
    }
    if |articles| == 0 {
      forall i | 0 <= i < |r|
        ensures r[i].kind != Knowledge
      {
        if i > 0 {
          assert r[i] == rs[i - 1];
        }
      }
    } else {
      assert r[|r| - 1].kind == Knowledge;
    }
  }

  /** Every reminder is an unread booking reminder. */
  lemma ReminderKinds(bookings: seq<Booking>, key: Booking -> TimeValue, now: int)
    ensures forall j :: 0 <= j < |Reminders(bookings, key, now)| ==>
      Reminders(bookings, key, now)[j].kind == BookingReminder && !Reminders(bookings, key, now)[j].read
  {
    var rs := Reminders(bookings, key, now);
    forall j | 0 <= j < |rs|
      ensures rs[j].kind == BookingReminder && !rs[j].read
    {
      assert rs[j] in rs;
      RemindersMembers(bookings, key, now);
      var b :| b in bookings && IsDue(b, key, now) && rs[j] == Reminder(b);
    }
  }

  /** Distinct strings behind a common prefix stay distinct. */
  lemma PrefixInjective(p: string, x: string, y: string)
    requires p + x == p + y
    ensures x == y
  {
    assert x == (p + x)[|p|..];
    assert y == (p + y)[|p|..];
  }

  predicate DistinctIds(ns: seq<Notification>) {
    forall i, j :: 0 <= i < j < |ns| ==> ns[i].id != ns[j].id
  }

  predicate DistinctBookingIds(bs: seq<Booking>) {
    forall i, j :: 0 <= i < j < |bs| ==> bs[i].id != bs[j].id
  }

  lemma {:induction false} RemindersDistinct(bookings: seq<Booking>, key: Booking -> TimeValue, now: int)
    requires DistinctBookingIds(bookings)
    ensures DistinctIds(Reminders(bookings, key, now))
  {
    if |bookings| > 0 {
      var rest := Reminders(bookings[1..], key, now);
      assert DistinctBookingIds(bookings[1..]);
      RemindersDistinct(bookings[1..], key, now);
      if IsDue(bookings[0], key, now) {
        var r := Reminders(bookings, key, now);
        assert r == [Reminder(bookings[0])] + rest;
        forall j | 1 <= j < |r|
          ensures r[0].id != r[j].id
        {
          assert r[j] == rest[j - 1] && rest[j - 1] in rest;
          RemindersMembers(bookings[1..], key, now);
          var b :| b in bookings[1..] && IsDue(b, key, now) && rest[j - 1] == Reminder(b);
          var k :| 0 <= k < |bookings[1..]| && bookings[1..][k] == b;
          assert bookings[k + 1] == b;
          if r[0].id == r[j].id {
            PrefixInjective("n-booking-", bookings[0].id, b.id);
          }
        }
      }
    }
  }

  /** The first three characters of an entry's id tell its kind apart. */
  function Tag(n: Notification): string {
    if |n.id| >= 3 then n.id[..3] else n.id
  }

  lemma ReminderTags(bookings: seq<Booking>, key: Booking -> TimeValue, now: int)
    ensures forall n :: n in Reminders(bookings, key, now) ==> Tag(n) == "n-b"
  {
    RemindersMembers(bookings, key, now);
    forall n | n in Reminders(bookings, key, now)
      ensures Tag(n) == "n-b"
    {
      var b :| b in bookings && IsDue(b, key, now) && n == Reminder(b);
    }
  }

  /** Gluing the announcement, distinct reminders and the article entry
      gives distinct ids, because the three kinds carry different tags. */
  lemma GlueDistinct(rs: seq<Notification>, articles: seq<Article>)
    requires DistinctIds(rs)
    requires forall n :: n in rs ==> Tag(n) == "n-b"
    ensures DistinctIds(Assemble(rs, articles))
  {
    var tail := if |articles| > 0 then [KnowledgeEntry(articles[0])] else [];
    assert forall n :: n in tail ==> Tag(n) == "n-k";
    var r := Assemble(rs, articles);
    assert r == [AdminAnnouncement] + rs + tail;
    assert Tag(AdminAnnouncement) == "n-a";
    forall i, j | 0 <= i < j < |r|
      ensures r[i].id != r[j].id
    {
      if i == 0 {
        if j < 1 + |rs| {
          assert r[j] == rs[j - 1] && r[j] in rs;
        } else {
          assert r[j] == tail[j - 1 - |rs|] && r[j] in tail;
        }
        assert Tag(r[i]) != Tag(r[j]);
      } else if j < 1 + |rs| {
        assert r[i] == rs[i - 1] && r[j] == rs[j - 1];
      } else {
        assert r[i] == rs[i - 1] && r[i] in rs;
        assert r[j] == tail[j - 1 - |rs|] && r[j] in tail;
        assert Tag(r[i]) != Tag(r[j]);
      }
    }
  }

  /** When booking ids are distinct, so are the ids of every feed entry. */
  lemma FeedIdsDistinct(bookings: seq<Booking>, articles: seq<Article>, clock: Clock,
                        fallback: string -> Option<int>, now: int)
    requires DistinctBookingIds(bookings)
    ensures DistinctIds(FarmerNotifications(bookings, articles, clock, fallback, now))
  {
    var key := Timeline.DateKey(clock, fallback);
    RemindersDistinct(bookings, key, now);
    ReminderTags(bookings, key, now);
    GlueDistinct(Reminders(bookings, key, now), articles);
  }
}
