/** Sequence helpers shared by the filter, the partitioner and the path builder. */
module Seqs {

  /** `a` can be obtained from `b` by deleting elements: an order-preserving sub-sequence. */
  predicate IsSubsequence<T(==)>(a: seq<T>, b: seq<T>)
    decreases |b|
  {
    |a| == 0 ||
    (|b| > 0 && ((a[0] == b[0] && IsSubsequence(a[1..], b[1..])) || IsSubsequence(a, b[1..])))
  }

  /** `Array.prototype.filter`: keeps, in order, the elements the callback accepts. */
  function Filter<T(==)>(f: T -> bool, s: seq<T>): (r: seq<T>)
    ensures |r| <= |s|
    ensures IsSubsequence(r, s)
    ensures forall i :: 0 <= i < |r| ==> r[i] in s && f(r[i])
    ensures forall i :: 0 <= i < |s| && f(s[i]) ==> s[i] in r
    ensures multiset(r) <= multiset(s)
    ensures forall x :: x in s ==> multiset(r)[x] == (if f(x) then multiset(s)[x] else 0)
  {
    if |s| == 0 then []
    else
      assert s == [s[0]] + s[1..];
      var rest := Filter(f, s[1..]);
      assert multiset(s) == multiset{s[0]} + multiset(s[1..]);
      if f(s[0]) then
        assert multiset([s[0]] + rest) == multiset{s[0]} + multiset(rest);
        [s[0]] + rest
      else rest
  }

  /** Filtering keeps every element exactly when all of them are accepted. */
  lemma {:induction false} FilterKeepsAll<T>(f: T -> bool, s: seq<T>)
    ensures Filter(f, s) == s <==> forall x :: x in s ==> f(x)
  {
    if |s| > 0 {
      FilterKeepsAll(f, s[1..]);
      if !f(s[0]) {
        assert |Filter(f, s)| < |s|;
      }
    }
  }

  /** Filtering drops everything exactly when no element is accepted. */
  lemma {:induction false} FilterKeepsNone<T>(f: T -> bool, s: seq<T>)
    ensures Filter(f, s) == [] <==> forall x :: x in s ==> !f(x)
  {
    if |s| > 0 {
      FilterKeepsNone(f, s[1..]);
      if f(s[0]) {
        assert s[0] in Filter(f, s);
      }
    }
  }

  /** Applying the same filter twice gives the same result as applying it once. */
  lemma {:induction false} FilterIdempotent<T>(f: T -> bool, s: seq<T>)
    ensures Filter(f, Filter(f, s)) == Filter(f, s)
  {
    var r := Filter(f, s);
    assert forall x :: x in r ==> f(x);
    FilterKeepsAll(f, r);
  }
}
