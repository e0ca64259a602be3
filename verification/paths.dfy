/**
 * Road paths for planned routes (`getRoadRoutes`, script.js:656-706).
 *
 * Each route with waypoints asks the road router for a closed tour through
 * its waypoints, in the router's `[lng, lat]` order. A successful answer's
 * geometry is flipped back to `[lat, lng]`; any failure, whether a refused
 * request or an answer without usable geometry, falls back to the straight
 * closed polyline through the waypoints. The router itself is a function
 * parameter from the requested coordinates to its reply.
 */
module Paths {
  import opened Wrappers
  import opened Geometry
  import opened Ranking
  import opened Partition

  /** A coordinate in the router's `[lng, lat]` order. */
  datatype LngLat = LngLat(lng: real, lat: real)

  /** The geometry of one route of a router reply; `None` when `geometry.coordinates` is absent. */
  datatype RouteGeometry = RouteGeometry(coordinates: Option<seq<LngLat>>)

  /** What `fetch` and `response.json()` produce: a thrown error, or the decoded reply. */
  datatype Reply =
    | Failed
    | Answer(code: string, routes: seq<RouteGeometry>)

  /** Returns to the first point when there is more than one (script.js:669-672, 690-693). */
  function CloseLoop<T>(s: seq<T>): (r: seq<T>)
    ensures |r| == (if |s| > 1 then |s| + 1 else |s|)
    ensures r[..|s|] == s
    ensures |s| > 1 ==> r[|s|] == r[0]
  {
    if |s| > 1 then s + [s[0]] else s
  }

  /** The straight closed polyline through the waypoints, as `[lat, lng]` points. */
  function FallbackPath(ws: seq<Waypoint>): (path: seq<LatLng>)
    ensures |path| == (if |ws| > 1 then |ws| + 1 else |ws|)
    ensures forall i :: 0 <= i < |ws| ==> path[i] == LatLng(ws[i].lat, ws[i].lng)
    ensures |ws| > 1 ==> path[|ws|] == path[0]
  {
    var open := seq(|ws|, i requires 0 <= i < |ws| => Where(ws[i]));
    var path := CloseLoop(open);
    assert forall i :: 0 <= i < |ws| ==> path[i] == path[..|ws|][i];
    path
  }

  /** The coordinates of the routing request, `${lng},${lat}` per waypoint, closed like the fallback. */
  function RequestCoordinates(ws: seq<Waypoint>): (cs: seq<LngLat>)
    ensures |cs| == (if |ws| > 1 then |ws| + 1 else |ws|)
    ensures forall i :: 0 <= i < |ws| ==> cs[i] == LngLat(ws[i].lng, ws[i].lat)
    ensures |ws| > 1 ==> cs[|ws|] == cs[0]
  {
    var open := seq(|ws|, i requires 0 <= i < |ws| => LngLat(ws[i].lng, ws[i].lat));
    var cs := CloseLoop(open);
    assert forall i :: 0 <= i < |ws| ==> cs[i] == cs[..|ws|][i];
    cs
  }

  /** `coord => [coord[1], coord[0]]`: from the router's order to the map's. */
  function Flip(cs: seq<LngLat>): (ps: seq<LatLng>)
    ensures |ps| == |cs|
    ensures forall i :: 0 <= i < |cs| ==> ps[i].lat == cs[i].lat && ps[i].lng == cs[i].lng
  {
    seq(|cs|, i requires 0 <= i < |cs| => LatLng(cs[i].lat, cs[i].lng))
  }

  /** From the map's order to the router's. */
  function Unflip(ps: seq<LatLng>): (cs: seq<LngLat>)
    ensures |cs| == |ps|
    ensures forall i :: 0 <= i < |ps| ==> cs[i].lat == ps[i].lat && cs[i].lng == ps[i].lng
  {
    seq(|ps|, i requires 0 <= i < |ps| => LngLat(ps[i].lng, ps[i].lat))
  }

  /** The flip loses nothing: it and its reverse undo each other. */
  lemma FlipRoundTrip(cs: seq<LngLat>, ps: seq<LatLng>)
    ensures Unflip(Flip(cs)) == cs
    ensures Flip(Unflip(ps)) == ps
  {
    assert forall i :: 0 <= i < |cs| ==> Unflip(Flip(cs))[i] == cs[i];
    assert forall i :: 0 <= i < |ps| ==> Flip(Unflip(ps))[i] == ps[i];
  }

  /** A router that answers with the requested coordinates yields exactly the fallback path. */
  lemma EchoedRequestIsFallback(ws: seq<Waypoint>)
    ensures Flip(RequestCoordinates(ws)) == FallbackPath(ws)
  {
    var a, b := Flip(RequestCoordinates(ws)), FallbackPath(ws);
    assert |a| == |b|;
    forall i | 0 <= i < |a|
      ensures a[i] == b[i]
    {
      if i == |ws| {
        assert a[i] == a[0] && b[i] == b[0];
      }
    }
  }

  /** The reply carries a usable road geometry (script.js:682-685). */
  predicate Routed(reply: Reply)
  {
    && reply.Answer?
    && reply.code == "Ok"
    && |reply.routes| > 0
    && reply.routes[0].coordinates.Some?
  }

  /**
   * The path of one route: routes without waypoints are skipped; otherwise
   * the flipped geometry of a usable reply, or else the straight fallback.
   */
  function ResolvePath(r: Route, router: seq<LngLat> -> Reply): (out: Route)
    ensures |r.waypoints| == 0 ==> out == r
    ensures out.id == r.id && out.waypoints == r.waypoints
    ensures out.center == r.center && out.pointCount == r.pointCount
    ensures |r.waypoints| > 0 ==> out.path.Some?
    ensures |r.waypoints| > 0 && Routed(router(RequestCoordinates(r.waypoints))) ==>
              Unflip(out.path.value) == router(RequestCoordinates(r.waypoints)).routes[0].coordinates.value
    ensures |r.waypoints| > 0 && !Routed(router(RequestCoordinates(r.waypoints))) ==>
              out.path.value == FallbackPath(r.waypoints)
  {
    if |r.waypoints| == 0 then r
    else
      var reply := router(RequestCoordinates(r.waypoints));
      if Routed(reply) then
        var cs := reply.routes[0].coordinates.value;
        FlipRoundTrip(cs, []);
        r.(path := Some(Flip(cs)))
      else r.(path := Some(FallbackPath(r.waypoints)))
  }

  /** A route with waypoints asks the router for exactly those waypoints, and its path follows the answer. */
  lemma PathFollowsRouter(rt: Route, router: seq<LngLat> -> Reply)
    requires |rt.waypoints| > 0
    ensures var out := ResolvePath(rt, router);
            var reply := router(RequestCoordinates(out.waypoints));
            && out.path.Some?
            && (Routed(reply) ==> Unflip(out.path.value) == reply.routes[0].coordinates.value)
            && (!Routed(reply) ==> out.path.value == FallbackPath(out.waypoints))
  {
  }

  /** Every route's path, one routing request per route with waypoints. */
  function ResolvePaths(rs: seq<Route>, router: seq<LngLat> -> Reply): (out: seq<Route>)
    ensures |out| == |rs|
    ensures forall i :: 0 <= i < |rs| ==> out[i] == ResolvePath(rs[i], router)
  {
    seq(|rs|, i requires 0 <= i < |rs| => ResolvePath(rs[i], router))
  }

  /**
   * Resolving paths keeps the routes as planned and gives each a path; a
   * route of more than one waypoint whose request fails gets a closed path
   * one point longer than its waypoint list.
   */
  lemma ResolvedRoutesKeepPlan(rs: seq<Route>, router: seq<LngLat> -> Reply, polygon: Option<Ring>)
    requires RoutesWellFormed(rs, polygon)
    ensures var out := ResolvePaths(rs, router);
            && (forall i :: 0 <= i < |rs| ==> out[i].id == i + 1 && out[i].waypoints == rs[i].waypoints)
            && (forall i :: 0 <= i < |rs| ==> out[i].path.Some?)
            && (forall i ::
                  (0 <= i < |rs| && |rs[i].waypoints| > 1 && !Routed(router(RequestCoordinates(rs[i].waypoints)))) ==>
                  |out[i].path.value| == |rs[i].waypoints| + 1
                  && out[i].path.value[0] == out[i].path.value[|rs[i].waypoints|])
  {
  }

  /** With a router that always fails, every planned route gets its straight closed fallback. */
  lemma FailingRouterFallsBack(rs: seq<Route>, polygon: Option<Ring>)
    requires RoutesWellFormed(rs, polygon)
    ensures var out := ResolvePaths(rs, (cs: seq<LngLat>) => Failed);
            forall i :: 0 <= i < |rs| ==> out[i].path == Some(FallbackPath(rs[i].waypoints))
  {
  }
}
