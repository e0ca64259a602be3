/**
 * The even-odd ray-casting test (`isPointInPolygon`, script.js:231-244).
 *
 * The source destructures a point as `[x, y]` and every caller passes
 * `[lat, lng]`, so here `x` is the latitude and `y` the longitude: the ray
 * leaves the point towards increasing latitude, and an edge is counted when it
 * straddles the point's longitude and its latitude at that longitude is
 * strictly greater than the point's.
 */
module Geometry {

  datatype LatLng = LatLng(lat: real, lng: real)

  /** A polygon as the source stores it: vertices in order, implicitly closed. */
  type Ring = seq<LatLng>

  /** Edge `i` of the loop: `cur` is `polygon[i]`, `prev` is `polygon[j]`. */
  datatype Edge = Edge(cur: LatLng, prev: LatLng)

  /** The guard `(yi > y) !== (yj > y)`: the edge's end points lie on different sides of `y`. */
  predicate Straddles(e: Edge, y: real)
  {
    (e.cur.lng > y) != (e.prev.lng > y)
  }

  /** `(xj - xi) * (y - yi) / (yj - yi) + xi`: the edge's latitude at longitude `y`. */
  function Intercept(e: Edge, y: real): real
    requires e.cur.lng != e.prev.lng
  {
    (e.prev.lat - e.cur.lat) * (y - e.cur.lng) / (e.prev.lng - e.cur.lng) + e.cur.lat
  }

  /**
   * The `intersect` test of one loop iteration. The guard makes the division
   * defined: an edge that crosses is never horizontal, and in particular a
   * zero-length edge (a repeated vertex) never crosses.
   */
  function Crosses(p: LatLng, e: Edge): (r: bool)
    ensures r ==> e.cur.lng != e.prev.lng
    ensures e.cur == e.prev ==> !r
  {
    Straddles(e, p.lng) && p.lat < Intercept(e, p.lng)
  }

  /** Index of the vertex before `i` in a ring of `n` vertices (the loop's `j`). */
  function Prev(n: nat, i: nat): nat
    requires i < n
  {
    if i == 0 then n - 1 else i - 1
  }

  /** The ring's edges in the order the loop visits them. */
  function Edges(ring: Ring): (es: seq<Edge>)
    ensures |es| == |ring|
  {
    seq(|ring|, i requires 0 <= i < |ring| => Edge(ring[i], ring[Prev(|ring|, i)]))
  }

  /** Number of edges in `es` that the point's ray crosses. */
  function Crossings(p: LatLng, es: seq<Edge>): nat
  {
    if |es| == 0 then 0
    else (if Crosses(p, es[0]) then 1 else 0) + Crossings(p, es[1..])
  }

  /** Even-odd rule: inside exactly when the ray crosses an odd number of edges. */
  predicate InPolygon(p: LatLng, ring: Ring)
  {
    Crossings(p, Edges(ring)) % 2 == 1
  }

  lemma {:induction false} CrossingsAppend(p: LatLng, a: seq<Edge>, b: seq<Edge>)
    ensures Crossings(p, a + b) == Crossings(p, a) + Crossings(p, b)
  {
    if |a| == 0 {
      assert a + b == b;
    } else {
      assert (a + b)[1..] == a[1..] + b;
      CrossingsAppend(p, a[1..], b);
    }
  }

  /**
   * The source's loop, `for (i = 0, j = n - 1; i < n; j = i++)`, toggling
   * `inside` on every crossing edge; it computes the even-odd rule.
   */
  method IsPointInPolygon(point: LatLng, polygon: Ring) returns (inside: bool)
    ensures inside == InPolygon(point, polygon)
  {
    inside := false;
    var n := |polygon|;
    var i := 0;
    var j := n - 1;
    ghost var es := Edges(polygon);
    while i < n
      invariant 0 <= i <= n
      invariant i < n ==> j == Prev(n, i)
      invariant inside == (Crossings(point, es[..i]) % 2 == 1)
    {
      var intersect := Crosses(point, Edge(polygon[i], polygon[j]));
      assert es[i] == Edge(polygon[i], polygon[j]);
      assert es[..i + 1] == es[..i] + [es[i]];
      CrossingsAppend(point, es[..i], [es[i]]);
      if intersect {
        inside := !inside;
      }
      j, i := i, i + 1;
    }
    assert es[..n] == es;
  }

  /** `s` rotated left by `k` places. */
  function Rotate<T>(s: seq<T>, k: nat): (r: seq<T>)
    requires k <= |s|
    ensures |r| == |s|
  {
    s[k..] + s[..k]
  }

  lemma EdgesOfRotation(ring: Ring, k: nat)
    requires k <= |ring|
    ensures Edges(Rotate(ring, k)) == Rotate(Edges(ring), k)
  {
    var n := |ring|;
    var r := Rotate(ring, k);
    var es := Edges(ring);
    forall m | 0 <= m < n
      ensures Edges(r)[m] == Rotate(es, k)[m]
    {
      var idx := if m < n - k then m + k else m + k - n;
      assert r[m] == ring[idx];
      assert Rotate(es, k)[m] == es[idx];
      var pm := Prev(n, m);
      var pidx := if pm < n - k then pm + k else pm + k - n;
      assert r[pm] == ring[pidx];
      assert pidx == Prev(n, idx);
    }
  }

  /** Starting the ring at another vertex changes neither the crossing count nor the verdict. */
  lemma RotationInvariant(p: LatLng, ring: Ring, k: nat)
    requires k <= |ring|
    ensures Crossings(p, Edges(Rotate(ring, k))) == Crossings(p, Edges(ring))
    ensures InPolygon(p, Rotate(ring, k)) == InPolygon(p, ring)
  {
    var es := Edges(ring);
    EdgesOfRotation(ring, k);
    CrossingsAppend(p, es[k..], es[..k]);
    CrossingsAppend(p, es[..k], es[k..]);
    assert es[..k] + es[k..] == es;
  }

  /**
   * A ring stored closed (last vertex repeating the first, as every region
   * polygon of the source is) gives the same count as the open ring: the
   * zero-length wrap-around edge never toggles the result.
   */
  lemma ClosingVertexIgnored(p: LatLng, ring: Ring)
    requires |ring| >= 2 && ring[0] == ring[|ring| - 1]
    ensures Crossings(p, Edges(ring)) == Crossings(p, Edges(ring[..|ring| - 1]))
    ensures InPolygon(p, ring) == InPolygon(p, ring[..|ring| - 1])
  {
    var n := |ring|;
    var open := ring[..n - 1];
    var e := Edges(ring);
    var o := Edges(open);
    assert e == [e[0]] + e[1..n - 1] + [e[n - 1]];
    assert o == [o[0]] + o[1..];
    assert o[0] == e[n - 1];
    assert o[1..] == e[1..n - 1];
    assert !Crosses(p, e[0]);
    CrossingsAppend(p, [e[0]] + e[1..n - 1], [e[n - 1]]);
    CrossingsAppend(p, [e[0]], e[1..n - 1]);
    CrossingsAppend(p, [o[0]], o[1..]);
  }

  /** The source's axis-aligned region rings: south-west, north-west... in the order of script.js:23. */
  function RectRing(sw: LatLng, ne: LatLng): Ring
  {
    [sw, LatLng(ne.lat, sw.lng), ne, LatLng(sw.lat, ne.lng), sw]
  }

  /**
   * For an axis-aligned rectangle ring, the ray-casting verdict is membership
   * in the half-open box: the south and west sides count as inside, the north
   * and east sides as outside.
   */
  lemma RectangleMembership(p: LatLng, sw: LatLng, ne: LatLng)
    requires sw.lat < ne.lat && sw.lng < ne.lng
    ensures InPolygon(p, RectRing(sw, ne)) <==>
              sw.lat <= p.lat < ne.lat && sw.lng <= p.lng < ne.lng
  {
    var nw := LatLng(ne.lat, sw.lng);
    var se := LatLng(sw.lat, ne.lng);
    var es := Edges(RectRing(sw, ne));
    assert es == [Edge(sw, sw), Edge(nw, sw), Edge(ne, nw), Edge(se, ne), Edge(sw, se)];
    var band := sw.lng <= p.lng < ne.lng;
    assert !Crosses(p, Edge(nw, sw));
    assert !Crosses(p, Edge(se, ne));
    LevelEdgeCrossing(p, Edge(ne, nw));
    LevelEdgeCrossing(p, Edge(sw, se));
    assert Crosses(p, Edge(ne, nw)) <==> band && p.lat < ne.lat;
    assert Crosses(p, Edge(sw, se)) <==> band && p.lat < sw.lat;
    assert Crossings(p, es[4..]) == (if Crosses(p, Edge(sw, se)) then 1 else 0);
    assert Crossings(p, es[3..]) == Crossings(p, es[4..]);
    assert Crossings(p, es[2..]) == (if Crosses(p, Edge(ne, nw)) then 1 else 0) + Crossings(p, es[3..]);
    assert Crossings(p, es[1..]) == Crossings(p, es[2..]);
    assert Crossings(p, es) == Crossings(p, es[1..]);
  }

  /** An edge along a parallel is crossed exactly by the points south of it within its longitude span. */
  lemma LevelEdgeCrossing(p: LatLng, e: Edge)
    requires e.cur.lat == e.prev.lat
    ensures Crosses(p, e) <==> Straddles(e, p.lng) && p.lat < e.cur.lat
  {
    if Straddles(e, p.lng) {
      assert e.prev.lat - e.cur.lat == 0.0;
      assert Intercept(e, p.lng) == 0.0 * (p.lng - e.cur.lng) / (e.prev.lng - e.cur.lng) + e.cur.lat;
    }
  }

  /** At a longitude the edge straddles, its latitude lies between its end points' latitudes. */
  lemma InterceptBetweenEnds(e: Edge, y: real)
    requires Straddles(e, y)
    ensures e.cur.lng != e.prev.lng
    ensures e.cur.lat <= e.prev.lat ==> e.cur.lat <= Intercept(e, y) <= e.prev.lat
    ensures e.prev.lat <= e.cur.lat ==> e.prev.lat <= Intercept(e, y) <= e.cur.lat
  {
    var t := (y - e.cur.lng) / (e.prev.lng - e.cur.lng);
    UnitFraction(y - e.cur.lng, e.prev.lng - e.cur.lng);
    InterceptIsScaled(e, y);
    ScaleWithin(e.prev.lat - e.cur.lat, t);
  }

  /** The intercept moves from `cur` towards `prev` by the fraction of the way `y` lies between them. */
  lemma InterceptIsScaled(e: Edge, y: real)
    requires e.cur.lng != e.prev.lng
    ensures Intercept(e, y) == e.cur.lat + (e.prev.lat - e.cur.lat) * ((y - e.cur.lng) / (e.prev.lng - e.cur.lng))
  {
    ScaledQuotient(e.prev.lat - e.cur.lat, y - e.cur.lng, e.prev.lng - e.cur.lng);
  }

  lemma UnitFraction(num: real, den: real)
    requires (0.0 <= num < den) || (den <= num < 0.0)
    ensures 0.0 <= num / den <= 1.0
  {
    var t := num / den;
    assert t * den == num;
  }

  lemma ScaledQuotient(d: real, num: real, den: real)
    requires den != 0.0
    ensures d * num / den == d * (num / den)
  {
  }

  lemma ScaleWithin(d: real, t: real)
    requires 0.0 <= t <= 1.0
    ensures d >= 0.0 ==> 0.0 <= d * t <= d
    ensures d < 0.0 ==> d <= d * t <= 0.0
  {
  }

  /** Number of edges of `es` that straddle longitude `y`. */
  function StraddleCount(y: real, es: seq<Edge>): nat
  {
    if |es| == 0 then 0
    else (if Straddles(es[0], y) then 1 else 0) + StraddleCount(y, es[1..])
  }

  lemma {:induction false} StraddleCountAppend(y: real, a: seq<Edge>, b: seq<Edge>)
    ensures StraddleCount(y, a + b) == StraddleCount(y, a) + StraddleCount(y, b)
  {
    if |a| == 0 {
      assert a + b == b;
    } else {
      assert (a + b)[1..] == a[1..] + b;
      StraddleCountAppend(y, a[1..], b);
    }
  }

  /**
   * Along the open path ring[0], ..., ring[n-1] the side of `y` changes an odd
   * number of times exactly when the first and last vertices lie on different
   * sides.
   */
  lemma {:induction false} PathStraddleParity(ring: Ring, y: real)
    requires |ring| >= 1
    ensures StraddleCount(y, Edges(ring)[1..]) % 2 ==
              (if Straddles(Edge(ring[0], ring[|ring| - 1]), y) then 1 else 0)
    decreases |ring|
  {
    var n := |ring|;
    if n > 1 {
      var shorter := ring[..n - 1];
      PathStraddleParity(shorter, y);
      var es := Edges(ring);
      var fs := Edges(shorter);
      assert es[1..] == fs[1..] + [es[n - 1]];
      StraddleCountAppend(y, fs[1..], [es[n - 1]]);
      assert es[n - 1] == Edge(ring[n - 1], ring[n - 2]);
      assert StraddleCount(y, [es[n - 1]]) == if Straddles(es[n - 1], y) then 1 else 0;
    }
  }

  /** A closed ring crosses every horizontal line an even number of times. */
  lemma StraddlesEven(ring: Ring, y: real)
    ensures StraddleCount(y, Edges(ring)) % 2 == 0
  {
    if |ring| > 0 {
      PathStraddleParity(ring, y);
    }
  }

  /** When every edge lies north of the point, the ray crosses exactly the straddling edges. */
  lemma {:induction false} CrossingsSouthOfEdges(p: LatLng, es: seq<Edge>)
    requires forall i :: 0 <= i < |es| ==> es[i].cur.lat > p.lat && es[i].prev.lat > p.lat
    ensures Crossings(p, es) == StraddleCount(p.lng, es)
  {
    if |es| > 0 {
      if Straddles(es[0], p.lng) {
        InterceptBetweenEnds(es[0], p.lng);
      }
      CrossingsSouthOfEdges(p, es[1..]);
    }
  }

  /** When no edge reaches north of the point, the ray crosses nothing. */
  lemma {:induction false} CrossingsNorthOfEdges(p: LatLng, es: seq<Edge>)
    requires forall i :: 0 <= i < |es| ==> es[i].cur.lat <= p.lat && es[i].prev.lat <= p.lat
    ensures Crossings(p, es) == 0
  {
    if |es| > 0 {
      if Straddles(es[0], p.lng) {
        InterceptBetweenEnds(es[0], p.lng);
      }
      CrossingsNorthOfEdges(p, es[1..]);
    }
  }

  /** When no edge straddles the point's longitude, the ray crosses nothing. */
  lemma {:induction false} CrossingsBesideEdges(p: LatLng, es: seq<Edge>)
    requires forall i :: 0 <= i < |es| ==> !Straddles(es[i], p.lng)
    ensures Crossings(p, es) == 0
  {
    if |es| > 0 {
      CrossingsBesideEdges(p, es[1..]);
    }
  }

  /** The point lies outside the box spanned by the ring's vertices (its north and east sides included). */
  predicate OutsideVertexBox(p: LatLng, ring: Ring)
  {
    || (forall v :: v in ring ==> v.lng > p.lng)
    || (forall v :: v in ring ==> v.lng <= p.lng)
    || (forall v :: v in ring ==> v.lat > p.lat)
    || (forall v :: v in ring ==> v.lat <= p.lat)
  }

  /** Both ends of every edge are vertices of the ring. */
  lemma EdgeEndsInRing(ring: Ring)
    ensures forall i :: 0 <= i < |ring| ==> Edges(ring)[i].cur in ring && Edges(ring)[i].prev in ring
  {
    forall i | 0 <= i < |ring|
      ensures Edges(ring)[i].cur in ring && Edges(ring)[i].prev in ring
    {
      assert Edges(ring)[i] == Edge(ring[i], ring[Prev(|ring|, i)]);
    }
  }

  /** A point outside the box spanned by the ring's vertices is never reported inside. */
  lemma FarOutsideIsOutside(p: LatLng, ring: Ring)
    requires OutsideVertexBox(p, ring)
    ensures !InPolygon(p, ring)
  {
    var es := Edges(ring);
    EdgeEndsInRing(ring);
    if (forall v :: v in ring ==> v.lng > p.lng) || (forall v :: v in ring ==> v.lng <= p.lng) {
      forall i | 0 <= i < |es|
        ensures !Straddles(es[i], p.lng)
      {
        assert es[i].cur in ring && es[i].prev in ring;
      }
      CrossingsBesideEdges(p, es);
    } else if forall v :: v in ring ==> v.lat > p.lat {
      forall i | 0 <= i < |es|
        ensures es[i].cur.lat > p.lat && es[i].prev.lat > p.lat
      {
        assert es[i].cur in ring && es[i].prev in ring;
      }
      CrossingsSouthOfEdges(p, es);
      StraddlesEven(ring, p.lng);
    } else {
      forall i | 0 <= i < |es|
        ensures es[i].cur.lat <= p.lat && es[i].prev.lat <= p.lat
      {
        assert es[i].cur in ring && es[i].prev in ring;
      }
      CrossingsNorthOfEdges(p, es);
    }
  }
}
