/** Order-preserving selection of elements from a sequence, witnessed by increasing indices. */
module Subsequences {

  /** `a` is `b` restricted to the strictly increasing positions `idx`. */
  ghost predicate SubsequenceAt<T>(a: seq<T>, b: seq<T>, idx: seq<nat>)
  {
    |idx| == |a| &&
    (forall k :: 0 <= k < |idx| ==> idx[k] < |b| && a[k] == b[idx[k]]) &&
    (forall k, l :: 0 <= k < l < |idx| ==> idx[k] < idx[l])
  }

  ghost predicate IsSubsequence<T>(a: seq<T>, b: seq<T>)
  {
    exists idx :: SubsequenceAt(a, b, idx)
  }

  /** Appending to `b` keeps a selection valid. */
  lemma ExtendSource<T>(a: seq<T>, b: seq<T>, w: seq<T>, idx: seq<nat>)
    requires SubsequenceAt(a, b, idx)
    ensures SubsequenceAt(a, b + w, idx)
  {
  }

  /** Selecting one more element appended to `b`. */
  lemma ExtendBoth<T>(a: seq<T>, b: seq<T>, x: T, idx: seq<nat>)
    requires SubsequenceAt(a, b, idx)
    ensures SubsequenceAt(a + [x], b + [x], idx + [|b|])
  {
  }

  /** A selection never has more of any element than its source. */
  lemma {:induction false} SubsequenceMultiset<T>(a: seq<T>, b: seq<T>, idx: seq<nat>)
    requires SubsequenceAt(a, b, idx)
    ensures multiset(a) <= multiset(b)
    decreases |a|
  {
    if |a| > 0 {
      var n := |a| - 1;
      var i := idx[n];
      assert SubsequenceAt(a[..n], b[..i], idx[..n]);
      SubsequenceMultiset(a[..n], b[..i], idx[..n]);
      assert a == a[..n] + [b[i]];
      assert b == b[..i] + [b[i]] + b[i + 1..];
      calc {
        multiset(a);
        multiset(a[..n]) + multiset{b[i]};
      <=
        multiset(b[..i]) + multiset{b[i]};
      <=
        multiset(b[..i]) + multiset{b[i]} + multiset(b[i + 1..]);
        multiset(b);
      }
    }
  }
}
