/** `Array.prototype.sort` with the comparator `(a, b) => key(b) - key(a)`,
    modelled as a stable insertion sort. ECMA-262 requires the sort to be
    stable; with valid keys the comparator is consistent and the result is
    determined. A NaN result (from an invalid date) makes the comparator
    inconsistent and the engine's order implementation-defined; this model
    treats it as 0, so here an element with an invalid key never moves
    past another. */
module StableSort {
  import opened JsDate

  /** `x` belongs strictly before `y`: the comparator on (x, y) is negative,
      that is, `x` has the later valid date. */
  predicate Precedes<T>(key: T -> TimeValue, x: T, y: T) {
    key(x).Valid? && key(y).Valid? && key(x).ms > key(y).ms
  }

  /** Inserts `x` in front of the first element it does not come after. */
  function Insert<T>(key: T -> TimeValue, x: T, ys: seq<T>): (r: seq<T>)
    ensures |r| == |ys| + 1
    ensures multiset(r) == multiset(ys) + multiset{x}
  {
    if |ys| == 0 then [x]
    else
      assert ys == [ys[0]] + ys[1..];
      if Precedes(key, ys[0], x) then [ys[0]] + Insert(key, x, ys[1..])
      else [x] + ys
  }

  /** The sorted sequence; the input is left as it is. */
  function Sort<T>(key: T -> TimeValue, s: seq<T>): (r: seq<T>)
    ensures |r| == |s|
    ensures multiset(r) == multiset(s)
  {
    if |s| == 0 then []
    else
      assert s == [s[0]] + s[1..];
      Insert(key, s[0], Sort(key, s[1..]))
  }

  predicate AllValid<T>(key: T -> TimeValue, s: seq<T>) {
    forall i :: 0 <= i < |s| ==> key(s[i]).Valid?
  }

  /** Non-increasing by date: no element belongs strictly before an earlier one. */
  predicate Descending<T>(key: T -> TimeValue, s: seq<T>) {
    forall i, j :: 0 <= i < j < |s| ==> !Precedes(key, s[j], s[i])
  }

  /** The elements of `s` whose key is `k`, in their order in `s`. */
  function WithKey<T>(key: T -> TimeValue, s: seq<T>, k: TimeValue): seq<T> {
    if |s| == 0 then []
    else (if key(s[0]) == k then [s[0]] else []) + WithKey(key, s[1..], k)
  }

  lemma {:induction false} WithKeyAppend<T>(key: T -> TimeValue, a: seq<T>, b: seq<T>, k: TimeValue)
    ensures WithKey(key, a + b, k) == WithKey(key, a, k) + WithKey(key, b, k)
  {
    if |a| == 0 {
      assert a + b == b;
    } else {
      var head := if key(a[0]) == k then [a[0]] else [];
      assert (a + b)[0] == a[0] && (a + b)[1..] == a[1..] + b;
      assert WithKey(key, a + b, k) == head + WithKey(key, a[1..] + b, k);
      WithKeyAppend(key, a[1..], b, k);
      assert WithKey(key, a, k) == head + WithKey(key, a[1..], k);
      assert head + (WithKey(key, a[1..], k) + WithKey(key, b, k))
          == (head + WithKey(key, a[1..], k)) + WithKey(key, b, k);
    }
  }

  /** Every element of a permutation of an all-valid sequence has a valid key. */
  lemma PermutationValid<T>(key: T -> TimeValue, s: seq<T>, r: seq<T>)
    requires multiset(r) == multiset(s) && AllValid(key, s)
    ensures AllValid(key, r)
  {
    forall i | 0 <= i < |r|
      ensures key(r[i]).Valid?
    {
      assert r[i] in multiset(r);
      assert r[i] in s;
    }
  }

  /** No element of `s` belongs strictly before `h`. */
  predicate NotAbove<T>(key: T -> TimeValue, h: T, s: seq<T>) {
    forall i :: 0 <= i < |s| ==> !Precedes(key, s[i], h)
  }

  /** A head that nothing after it precedes extends a non-increasing sequence. */
  lemma DescendingCons<T>(key: T -> TimeValue, h: T, t: seq<T>)
    requires NotAbove(key, h, t) && Descending(key, t)
    ensures Descending(key, [h] + t)
  {
    var r := [h] + t;
    forall i, j | 0 <= i < j < |r|
      ensures !Precedes(key, r[j], r[i])
    {
      assert r[j] == t[j - 1];
      if i > 0 {
        assert r[i] == t[i - 1];
      }
    }
  }

  /** Inserting an element that does not belong before `h` keeps `h` on top. */
  lemma {:induction false} InsertNotAbove<T>(key: T -> TimeValue, h: T, x: T, ys: seq<T>)
    requires NotAbove(key, h, ys) && !Precedes(key, x, h)
    ensures NotAbove(key, h, Insert(key, x, ys))
  {
    var r := Insert(key, x, ys);
    if |ys| > 0 && Precedes(key, ys[0], x) {
      InsertNotAbove(key, h, x, ys[1..]);
      var tail := Insert(key, x, ys[1..]);
      assert r == [ys[0]] + tail;
      forall i | 0 <= i < |r|
        ensures !Precedes(key, r[i], h)
      {
        if i > 0 {
          assert r[i] == tail[i - 1];
        }
      }
    } else if |ys| > 0 {
      assert r == [x] + ys;
      forall i | 0 <= i < |r|
        ensures !Precedes(key, r[i], h)
      {
        if i > 0 {
          assert r[i] == ys[i - 1];
        }
      }
    }
  }

  /** Inserting into a non-increasing sequence keeps it non-increasing. */
  lemma {:induction false} InsertDescending<T>(key: T -> TimeValue, x: T, ys: seq<T>)
    requires AllValid(key, ys) && key(x).Valid?
    requires Descending(key, ys)
    ensures Descending(key, Insert(key, x, ys))
  {
    if |ys| > 0 {
      var h := ys[0];
      var rest := ys[1..];
      assert AllValid(key, rest) && Descending(key, rest);
      assert NotAbove(key, h, rest) by {
        forall i | 0 <= i < |rest|
          ensures !Precedes(key, rest[i], h)
        {
          assert rest[i] == ys[i + 1];
        }
      }
      if Precedes(key, h, x) {
        InsertDescending(key, x, rest);
        InsertNotAbove(key, h, x, rest);
        assert Insert(key, x, ys) == [h] + Insert(key, x, rest);
        DescendingCons(key, h, Insert(key, x, rest));
      } else {
        assert Insert(key, x, ys) == [x] + ys;
        assert NotAbove(key, x, ys) by {
          forall i | 0 <= i < |ys|
            ensures !Precedes(key, ys[i], x)
          {
            if i > 0 {
              assert !Precedes(key, ys[i], h) && key(ys[i]).Valid?;
            }
          }
        }
        DescendingCons(key, x, ys);
      }
    }
  }

  /** With valid dates, the sorted sequence is non-increasing by date. */
  lemma {:induction false} SortDescending<T>(key: T -> TimeValue, s: seq<T>)
    requires AllValid(key, s)
    ensures Descending(key, Sort(key, s))
  {
    if |s| > 0 {
      assert AllValid(key, s[1..]);
      SortDescending(key, s[1..]);
      PermutationValid(key, s[1..], Sort(key, s[1..]));
      InsertDescending(key, s[0], Sort(key, s[1..]));
    }
  }

  lemma {:induction false} InsertStable<T>(key: T -> TimeValue, x: T, ys: seq<T>, k: TimeValue)
    ensures WithKey(key, Insert(key, x, ys), k) == (if key(x) == k then [x] else []) + WithKey(key, ys, k)
  {
    var r := Insert(key, x, ys);
    if |ys| == 0 {
      assert r == [x];
      assert r[1..] == [];
    } else if Precedes(key, ys[0], x) {
      InsertStable(key, x, ys[1..], k);
      assert r[0] == ys[0] && r[1..] == Insert(key, x, ys[1..]);
      assert key(ys[0]) != key(x);
      assert WithKey(key, r, k) == (if key(ys[0]) == k then [ys[0]] else []) + WithKey(key, r[1..], k);
      assert WithKey(key, ys, k) == (if key(ys[0]) == k then [ys[0]] else []) + WithKey(key, ys[1..], k);
    } else {
      assert r[0] == x && r[1..] == ys;
    }
  }

  /** Stability: the elements sharing any one key keep their input order. */
  lemma {:induction false} SortStable<T>(key: T -> TimeValue, s: seq<T>, k: TimeValue)
    ensures WithKey(key, Sort(key, s), k) == WithKey(key, s, k)
  {
    if |s| > 0 {
      SortStable(key, s[1..], k);
      InsertStable(key, s[0], Sort(key, s[1..]), k);
    }
  }

  /** An already non-increasing sequence of valid dates is left unchanged. */
  lemma {:induction false} SortSorted<T>(key: T -> TimeValue, s: seq<T>)
    requires AllValid(key, s) && Descending(key, s)
    ensures Sort(key, s) == s
  {
    if |s| > 0 {
      assert AllValid(key, s[1..]) && Descending(key, s[1..]);
      SortSorted(key, s[1..]);
      if |s| > 1 {
        assert !Precedes(key, s[1], s[0]);
        assert s[1..][0] == s[1];
      }
      assert [s[0]] + s[1..] == s;
    }
  }

  /** Sorting twice gives the same timeline as sorting once. */
  lemma SortIdempotent<T>(key: T -> TimeValue, s: seq<T>)
    requires AllValid(key, s)
    ensures Sort(key, Sort(key, s)) == Sort(key, s)
  {
    SortDescending(key, s);
    PermutationValid(key, s, Sort(key, s));
    SortSorted(key, Sort(key, s));
  }

  /** Two elements are swapped exactly when the second has the later valid date. */
  lemma SortPair<T>(key: T -> TimeValue, x: T, y: T)
    ensures Precedes(key, y, x) ==> Sort(key, [x, y]) == [y, x]
    ensures !Precedes(key, y, x) ==> Sort(key, [x, y]) == [x, y]
  {
    assert [x, y][1..] == [y];
    assert [y][1..] == [];
    assert Sort(key, [y]) == [y];
    assert Sort(key, [x, y]) == Insert(key, x, [y]);
    assert [y][1..] == [];
  }
}
