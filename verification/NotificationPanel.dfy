/** The notification dialog: entries split into a "latest" and an
    "earlier" section, and what the dialog shows. */
module NotificationPanel {
  import opened Wrappers
  import opened Sequences

  datatype SimpleNotification = SimpleNotification(id: string, message: string, timestamp: string, isLatest: bool)

  /** `latestNotifications`: the entries flagged latest, in input order. */
  function Latest(ns: seq<SimpleNotification>): (r: seq<SimpleNotification>)
    ensures |r| <= |ns|
  {
    if |ns| == 0 then []
    else
      (if ns[0].isLatest then [ns[0]] else []) + Latest(ns[1..])
  }

  /** `previousNotifications`: the other entries, in input order. */
  function Previous(ns: seq<SimpleNotification>): (r: seq<SimpleNotification>)
    ensures |r| <= |ns|
  {
    if |ns| == 0 then []
    else
      (if !ns[0].isLatest then [ns[0]] else []) + Previous(ns[1..])
  }

  /** The latest section holds exactly the entries flagged latest, and
      the earlier section exactly the others. */
  lemma {:induction false} Members(ns: seq<SimpleNotification>)
    ensures forall n :: n in Latest(ns) <==> n in ns && n.isLatest
    ensures forall n :: n in Previous(ns) <==> n in ns && !n.isLatest
  {
    if |ns| > 0 {
      Members(ns[1..]);
      assert forall n :: n in ns <==> n == ns[0] || n in ns[1..];
    }
  }

  /** The two sections partition the entries: together they hold every
      entry exactly as often as the input does, and no entry is in both. */
  lemma {:induction false} Partition(ns: seq<SimpleNotification>)
    ensures multiset(Latest(ns)) + multiset(Previous(ns)) == multiset(ns)
  {
    if |ns| > 0 {
      Partition(ns[1..]);
      PartitionStep(ns);
    }
  }

  /** One step of `Partition`: the first entry goes to exactly one section. */
  lemma PartitionStep(ns: seq<SimpleNotification>)
    requires |ns| > 0
    requires multiset(Latest(ns[1..])) + multiset(Previous(ns[1..])) == multiset(ns[1..])
    ensures multiset(Latest(ns)) + multiset(Previous(ns)) == multiset(ns)
  {
    HeadMultiset(ns);
    LatestFront(ns);
    PreviousFront(ns);
    AddToOne(multiset{ns[0]}, multiset(Latest(ns[1..])), multiset(Previous(ns[1..])),
             multiset(Latest(ns)), multiset(Previous(ns)), ns[0].isLatest);
  }

  /** Adding one item `h` to one of two parts adds it to their union. */
  lemma AddToOne<T>(h: multiset<T>, l: multiset<T>, p: multiset<T>, l': multiset<T>, p': multiset<T>, toFirst: bool)
    requires toFirst ==> l' == h + l && p' == p
    requires !toFirst ==> l' == l && p' == h + p
    ensures l' + p' == h + (l + p)
  {
    if toFirst {
      assert (h + l) + p == h + (l + p);
    } else {
      assert l + (h + p) == h + (l + p);
    }
  }

  /** The latest section of a non-empty list: its head when flagged, then
      the latest section of the rest. */
  lemma LatestFront(ns: seq<SimpleNotification>)
    requires |ns| > 0
    ensures ns[0].isLatest ==> multiset(Latest(ns)) == multiset{ns[0]} + multiset(Latest(ns[1..]))
    ensures !ns[0].isLatest ==> Latest(ns) == Latest(ns[1..])
  {
    if ns[0].isLatest {
      var ls := Latest(ns);
      assert ls == [ns[0]] + Latest(ns[1..]);
      assert ls[0] == ns[0] && ls[1..] == Latest(ns[1..]);
      HeadMultiset(ls);
    }
  }

  /** The earlier section of a non-empty list: its head when not flagged,
      then the earlier section of the rest. */
  lemma PreviousFront(ns: seq<SimpleNotification>)
    requires |ns| > 0
    ensures !ns[0].isLatest ==> multiset(Previous(ns)) == multiset{ns[0]} + multiset(Previous(ns[1..]))
    ensures ns[0].isLatest ==> Previous(ns) == Previous(ns[1..])
  {
    if !ns[0].isLatest {
      var ps := Previous(ns);
      assert ps == [ns[0]] + Previous(ns[1..]);
      assert ps[0] == ns[0] && ps[1..] == Previous(ns[1..]);
      HeadMultiset(ps);
    }
  }

  /** Hence the two sections' sizes add up to the number of entries. */
  lemma PartitionSizes(ns: seq<SimpleNotification>)
    ensures |Latest(ns)| + |Previous(ns)| == |ns|
  {
    Partition(ns);
    assert |multiset(Latest(ns))| + |multiset(Previous(ns))| == |multiset(ns)|;
  }

  lemma Disjoint(ns: seq<SimpleNotification>)
    ensures multiset(Latest(ns)) * multiset(Previous(ns)) == multiset{}
  {
    Members(ns);
    var l := multiset(Latest(ns));
    var p := multiset(Previous(ns));
    forall n | n in l
      ensures n !in p
    {
      assert n in Latest(ns);
    }
  }

  /** Each section keeps the input order: the split distributes over
      concatenation. */
  lemma {:induction false} LatestAppend(a: seq<SimpleNotification>, b: seq<SimpleNotification>)
    ensures Latest(a + b) == Latest(a) + Latest(b)
  {
    if |a| == 0 {
      assert a + b == b;
    } else {
      var x := a[0];
      var head := if x.isLatest then [x] else [];
      assert (a + b)[0] == x && (a + b)[1..] == a[1..] + b;
      assert Latest(a + b) == head + Latest(a[1..] + b);
      LatestAppend(a[1..], b);
      assert Latest(a) == head + Latest(a[1..]);
      assert head + (Latest(a[1..]) + Latest(b)) == (head + Latest(a[1..])) + Latest(b);
    }
  }

  lemma {:induction false} PreviousAppend(a: seq<SimpleNotification>, b: seq<SimpleNotification>)
    ensures Previous(a + b) == Previous(a) + Previous(b)
  {
    if |a| == 0 {
      assert a + b == b;
    } else {
      var x := a[0];
      var head := if !x.isLatest then [x] else [];
      assert (a + b)[0] == x && (a + b)[1..] == a[1..] + b;
      assert Previous(a + b) == head + Previous(a[1..] + b);
      PreviousAppend(a[1..], b);
      assert Previous(a) == head + Previous(a[1..]);
      assert head + (Previous(a[1..]) + Previous(b)) == (head + Previous(a[1..])) + Previous(b);
    }
  }

  /** Each section is an order-preserving subsequence of the entries. */
  lemma {:induction false} SectionsInOrder(ns: seq<SimpleNotification>)
    ensures Subsequence(Latest(ns), ns) && Subsequence(Previous(ns), ns)
  {
    if |ns| > 0 {
      var x := ns[0];
      var l, p := Latest(ns[1..]), Previous(ns[1..]);
      SectionsInOrder(ns[1..]);
      Members(ns[1..]);
      if x.isLatest {
        assert Latest(ns) == [x] + l && ([x] + l)[1..] == l;
        assert Previous(ns) == p && (|p| > 0 ==> p[0] in p);
      } else {
        assert Latest(ns) == l && (|l| > 0 ==> l[0] in l);
        assert Previous(ns) == [x] + p && ([x] + p)[1..] == p;
      }
    }
  }

  /** What the open dialog shows. */
  datatype Panel = Panel(
    latest: seq<SimpleNotification>,
    previous: seq<SimpleNotification>,
    showLatestSection: bool,
    showPreviousSection: bool,
    showEmptyMessage: bool)

  /** Nothing when closed; otherwise each section when it has entries and
      the empty message when there are no entries at all. */
  function Render(isOpen: bool, ns: seq<SimpleNotification>): (p: Option<Panel>)
    ensures p.None? <==> !isOpen
    ensures p.Some? ==> p.value.latest == Latest(ns) && p.value.previous == Previous(ns)
    ensures p.Some? ==> (p.value.showLatestSection <==> exists n :: n in ns && n.isLatest)
    ensures p.Some? ==> (p.value.showPreviousSection <==> exists n :: n in ns && !n.isLatest)
    ensures p.Some? ==> (p.value.showEmptyMessage <==> !p.value.showLatestSection && !p.value.showPreviousSection)
  {
    if !isOpen then None
    else
      var l := Latest(ns);
      var q := Previous(ns);
      Members(ns);
      assert |l| > 0 ==> l[0] in l;
      assert |q| > 0 ==> q[0] in q;
      Some(Panel(l, q, |l| > 0, |q| > 0, |ns| == 0))
  }
}
