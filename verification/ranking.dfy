/**
 * Waypoint selection inside one grid cell (script.js:605-607):
 * `cellCrimes.sort((a, b) => b.intensity - a.intensity)` followed by
 * `slice(0, Math.min(5, cellCrimes.length))`. `Array.prototype.sort` is
 * stable, so equal intensities keep their input order; insertion sort with
 * a non-strict comparison has the same behaviour.
 */
module Ranking {

  /** `{lat, lng, intensity}`, the route-point record of script.js:548-552. */
  datatype Waypoint = Waypoint(lat: real, lng: real, intensity: real)

  /** Most waypoints a route visits. */
  const MaxWaypoints: nat := 5

  predicate SortedByIntensity(s: seq<Waypoint>)
  {
    forall i, j :: 0 <= i < j < |s| ==> s[i].intensity >= s[j].intensity
  }

  /** Places `x` before the first element it is at least as intense as. */
  function Insert(x: Waypoint, s: seq<Waypoint>): (r: seq<Waypoint>)
    ensures |r| == |s| + 1
    ensures multiset(r) == multiset(s) + multiset{x}
    ensures r[0] == x || (|s| > 0 && r[0] == s[0])
  {
    if |s| == 0 then [x]
    else if x.intensity >= s[0].intensity then [x] + s
    else
      assert s == [s[0]] + s[1..];
      [s[0]] + Insert(x, s[1..])
  }

  /** Inserting into a sorted sequence keeps it sorted. */
  lemma {:induction false} InsertKeepsSorted(x: Waypoint, s: seq<Waypoint>)
    requires SortedByIntensity(s)
    ensures SortedByIntensity(Insert(x, s))
  {
    if |s| > 0 && x.intensity < s[0].intensity {
      var rest := Insert(x, s[1..]);
      var r := Insert(x, s);
      assert r == [s[0]] + rest;
      assert SortedByIntensity(s[1..]);
      InsertKeepsSorted(x, s[1..]);
      assert rest[0].intensity <= s[0].intensity;
      forall i, j | 0 <= i < j < |r|
        ensures r[i].intensity >= r[j].intensity
      {
        if i == 0 {
          assert r[j] == rest[j - 1];
        } else {
          assert r[i] == rest[i - 1] && r[j] == rest[j - 1];
        }
      }
    }
  }

  /** Stable sort by descending intensity. */
  function SortByIntensity(s: seq<Waypoint>): (r: seq<Waypoint>)
    ensures |r| == |s|
    ensures multiset(r) == multiset(s)
    ensures SortedByIntensity(r)
  {
    if |s| == 0 then []
    else
      assert s == [s[0]] + s[1..];
      InsertKeepsSorted(s[0], SortByIntensity(s[1..]));
      Insert(s[0], SortByIntensity(s[1..]))
  }

  /** The points of intensity exactly `v`, in their order in `s`. */
  function WithIntensity(s: seq<Waypoint>, v: real): (r: seq<Waypoint>)
  {
    if |s| == 0 then []
    else (if s[0].intensity == v then [s[0]] else []) + WithIntensity(s[1..], v)
  }

  lemma WithIntensityOfCons(a: Waypoint, s: seq<Waypoint>, v: real)
    ensures WithIntensity([a] + s, v) == (if a.intensity == v then [a] else []) + WithIntensity(s, v)
  {
    assert ([a] + s)[1..] == s;
  }

  lemma {:induction false} WithIntensityOfInsert(x: Waypoint, s: seq<Waypoint>, v: real)
    ensures WithIntensity(Insert(x, s), v) == (if x.intensity == v then [x] else []) + WithIntensity(s, v)
  {
    if |s| == 0 {
      WithIntensityOfCons(x, s, v);
      assert Insert(x, s) == [x] + s;
    } else if x.intensity >= s[0].intensity {
      WithIntensityOfCons(x, s, v);
    } else {
      WithIntensityOfInsert(x, s[1..], v);
      assert Insert(x, s) == [s[0]] + Insert(x, s[1..]);
      WithIntensityBehind(s[0], x, s[1..], Insert(x, s[1..]), v);
      assert [s[0]] + s[1..] == s;
    }
  }

  /** Putting a point in front of both sides keeps `x`'s place when the two do not share intensity `v`. */
  lemma WithIntensityBehind(a: Waypoint, x: Waypoint, s: seq<Waypoint>, rest: seq<Waypoint>, v: real)
    requires a.intensity != v || x.intensity != v
    requires WithIntensity(rest, v) == (if x.intensity == v then [x] else []) + WithIntensity(s, v)
    ensures WithIntensity([a] + rest, v) == (if x.intensity == v then [x] else []) + WithIntensity([a] + s, v)
  {
    WithIntensityOfCons(a, rest, v);
    WithIntensityOfCons(a, s, v);
  }

  /**
   * The sort is stable: for every intensity, the points of that intensity
   * appear in the output in the same order as in the input.
   */
  lemma {:induction false} SortIsStable(s: seq<Waypoint>, v: real)
    ensures WithIntensity(SortByIntensity(s), v) == WithIntensity(s, v)
  {
    if |s| > 0 {
      SortIsStable(s[1..], v);
      WithIntensityOfInsert(s[0], SortByIntensity(s[1..]), v);
    }
  }

  lemma {:induction false} WithIntensityAppend(a: seq<Waypoint>, b: seq<Waypoint>, v: real)
    ensures WithIntensity(a + b, v) == WithIntensity(a, v) + WithIntensity(b, v)
  {
    if |a| == 0 {
      assert a + b == b;
    } else {
      WithIntensityAppend(a[1..], b, v);
      assert (a + b)[0] == a[0] && (a + b)[1..] == a[1..] + b;
    }
  }

  function Min(a: nat, b: nat): nat
  {
    if a <= b then a else b
  }

  /**
   * The at most five most intense points, most intense first: every point
   * left out is no more intense than any point taken.
   */
  function TopFive(s: seq<Waypoint>): (r: seq<Waypoint>)
    ensures |r| == Min(MaxWaypoints, |s|)
    ensures SortedByIntensity(r)
    ensures multiset(r) <= multiset(s)
    ensures forall x, y :: x in multiset(s) - multiset(r) && y in r ==> x.intensity <= y.intensity
  {
    var sorted := SortByIntensity(s);
    var k := Min(MaxWaypoints, |s|);
    PrefixIsMostIntense(sorted, k);
    sorted[..k]
  }

  /**
   * Among equally intense points the earliest are taken, in input order:
   * for every intensity, the points taken are a prefix of the input's
   * points of that intensity, as a stable sort followed by a slice gives.
   */
  lemma TopFiveTakesFirstTies(s: seq<Waypoint>, v: real)
    ensures WithIntensity(TopFive(s), v) <= WithIntensity(s, v)
  {
    var sorted := SortByIntensity(s);
    var k := Min(MaxWaypoints, |s|);
    assert sorted == sorted[..k] + sorted[k..];
    WithIntensityAppend(sorted[..k], sorted[k..], v);
    SortIsStable(s, v);
    assert TopFive(s) == sorted[..k];
  }

  /** A prefix of a sorted sequence is no less intense than anything the rest holds. */
  lemma PrefixIsMostIntense(s: seq<Waypoint>, k: nat)
    requires SortedByIntensity(s) && k <= |s|
    ensures multiset(s[..k]) <= multiset(s)
    ensures forall x, y :: x in multiset(s) - multiset(s[..k]) && y in s[..k] ==> x.intensity <= y.intensity
  {
    assert s == s[..k] + s[k..];
    assert multiset(s) - multiset(s[..k]) == multiset(s[k..]);
    forall x, y | x in multiset(s) - multiset(s[..k]) && y in s[..k]
      ensures x.intensity <= y.intensity
    {
      assert x in s[k..];
      var j :| k <= j < |s| && s[j] == x;
      var i :| 0 <= i < k && s[i] == y;
    }
  }
}
