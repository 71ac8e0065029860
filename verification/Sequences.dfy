/** Order-preserving selection from a sequence. */
module Sequences {

  /** `r` is obtained from `s` by deleting elements, the rest keeping their
      order. Matching greedily from the left decides it. */
  predicate Subsequence<T(==)>(r: seq<T>, s: seq<T>)
    decreases |s|
  {
    if |r| == 0 then true
    else if |s| == 0 then false
    else if r[0] == s[0] then Subsequence(r[1..], s[1..])
    else Subsequence(r, s[1..])
  }

  /** The multiset of a non-empty sequence is its head plus the rest. */
  lemma HeadMultiset<T>(s: seq<T>)
    requires |s| > 0
    ensures multiset(s) == multiset{s[0]} + multiset(s[1..])
  {
    assert s == [s[0]] + s[1..];
  }
}
