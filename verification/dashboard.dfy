/**
 * The dashboard's state and the user actions that change it (script.js:1-10,
 * 331-422, 493-511, 514-653, 787-795): the forecast points, the filtered
 * subset, the map lock with its selected region, and the patrol routes.
 * Rendering, widgets and alerts are not part of the state.
 */
module Dashboard {
  import opened Wrappers
  import opened Seqs
  import opened Geometry
  import opened Regions
  import opened Filters
  import opened Partition
  import opened Paths

  datatype Session = Session(
    data: seq<RiskPoint>,       // crimeData
    filtered: seq<RiskPoint>,   // filteredCrimeData
    lock: LockState,            // isMapLocked, selectedRegion
    routes: seq<Route>)         // routes

  /** The state right after the points were generated: everything shown, nothing locked, no routes. */
  function Start(data: seq<RiskPoint>): (s: Session)
    ensures s.filtered == s.data == data && !s.lock.locked && s.lock.selected.None? && s.routes == []
  {
    Session(data, data, LockState(false, None), [])
  }

  /** The polygon of the selected region, when there is one and it has a polygon. */
  function SelectedPolygon(lock: LockState): Option<Ring>
  {
    if lock.selected.Some? then lock.selected.value.polygon else None
  }

  /** The polygon the filter re-checks is the one of the region it has just selected. */
  lemma SelectionSetsFilterPolygon(prev: LockState, place: PlaceFilter)
    ensures SelectedPolygon(SelectRegion(prev, place)) == FilterPolygon(place)
    ensures SelectedPolygon(SelectRegion(prev, place)).Some? ==> place.Place? && IsDistrict(place.key)
  {
    if place.Place? {
      PolygonExactlyForDistricts(place.key);
    }
  }

  /**
   * `applyFilters`: select (and lock to) the region, then filter every
   * point with the new selection's polygon. Routes are left alone.
   */
  function ApplyFilters(s: Session, crit: Criteria, now: int): (t: Session)
    ensures t.data == s.data && t.routes == s.routes
    ensures t.lock == SelectRegion(s.lock, crit.place)
    ensures IsSubsequence(t.filtered, s.data)
    ensures forall c :: c in t.filtered <==> c in s.data && Keep(c, crit, now, FilterPolygon(crit.place))
    ensures forall c :: c in s.data ==>
              multiset(t.filtered)[c] == (if Keep(c, crit, now, FilterPolygon(crit.place)) then multiset(s.data)[c] else 0)
  {
    var lock := SelectRegion(s.lock, crit.place);
    SelectionSetsFilterPolygon(s.lock, crit.place);
    var kept := FilterPoints(s.data, crit, now, SelectedPolygon(lock));
    assert forall c :: c in s.data && Keep(c, crit, now, FilterPolygon(crit.place)) ==> c in kept by {
      forall c | c in s.data && Keep(c, crit, now, FilterPolygon(crit.place))
        ensures c in kept
      {
        var i :| 0 <= i < |s.data| && s.data[i] == c;
      }
    }
    s.(filtered := kept, lock := lock)
  }

  /** `resetFilters`: every point shown again (past ones too), selection cleared, map unlocked. */
  function ResetFilters(s: Session): (t: Session)
    ensures t.filtered == t.data == s.data
    ensures t.lock == SelectRegion(s.lock, AllPlaces)
    ensures t.routes == s.routes
  {
    s.(filtered := s.data, lock := LockState(false, None))
  }

  /** The selections `resetFilters` puts back on the form. */
  const DefaultCriteria: Criteria := Criteria(AllPlaces, NoDate, AllBands, AllCategories)

  /** Reading the values `resetFilters` writes into the form gives the default criteria. */
  lemma ResetFormReadsDefault()
    ensures ReadForm("all", NoDate, "all", "all") == DefaultCriteria
  {
  }

  /**
   * Resetting and applying the default form are not the same: applying it
   * again hides past forecasts, so it reproduces the reset view exactly
   * when no forecast lies in the past.
   */
  lemma ApplyAfterReset(s: Session, now: int)
    ensures var r := ResetFilters(s);
            var a := ApplyFilters(r, DefaultCriteria, now);
            a.lock == r.lock && a.routes == r.routes
            && (a.filtered == r.filtered <==> forall c :: c in s.data ==> c.forecastTime >= now)
  {
    OpenFiltersKeepFuture(s.data, now);
    SelectionSetsFilterPolygon(LockState(false, None), AllPlaces);
  }

  /** `clearRoutes`. */
  function ClearRoutes(s: Session): (t: Session)
    ensures t.routes == [] && t.data == s.data && t.filtered == s.filtered && t.lock == s.lock
  {
    s.(routes := [])
  }

  /**
   * `parseInt(value) || 3`: an unparsable or zero count becomes 3; a
   * negative count leaves the slot loop with nothing to do.
   */
  function PatrolCount(parsed: Option<int>): (n: nat)
    ensures parsed.None? || parsed.value == 0 ==> n == 3
    ensures parsed.Some? && parsed.value > 0 ==> n == parsed.value
    ensures parsed.Some? && parsed.value < 0 ==> n == 0
  {
    match parsed
    case None => 3
    case Some(v) => if v == 0 then 3 else if v < 0 then 0 else v
  }

  /**
   * `calculatePatrolRoutes` followed, when routes were planned, by
   * `getRoadRoutes` with the given router. The region polygon is that of
   * the selected region. Only the routes change.
   */
  function CalculatePatrolRoutes(s: Session, parsed: Option<int>, router: seq<LngLat> -> Reply): (r: (Session, Outcome))
    ensures r.0.data == s.data && r.0.filtered == s.filtered && r.0.lock == s.lock
    ensures r.1 == NoData <==> |s.filtered| == 0
  {
    Finish(s, PlanRoutes(s.routes, s.filtered, PatrolCount(parsed), SelectedPolygon(s.lock)), router)
  }

  /**
   * With nothing to plan from the old routes stay; every other failure
   * leaves the map without routes, and "no points in the region" needs a
   * selected region with a polygon.
   */
  lemma FailedPlanningClearsRoutes(s: Session, parsed: Option<int>, router: seq<LngLat> -> Reply)
    ensures var r := CalculatePatrolRoutes(s, parsed, router);
            && (r.1 == NoData ==> r.0.routes == s.routes)
            && (r.1 == NoPointsInRegion || r.1 == NoRoutes ==> r.0.routes == [])
            && (r.1 == NoPointsInRegion ==> SelectedPolygon(s.lock).Some?)
  {
    var run := PlanRoutes(s.routes, s.filtered, PatrolCount(parsed), SelectedPolygon(s.lock));
    assert CalculatePatrolRoutes(s, parsed, router) == Finish(s, run, router);
  }

  /** A successful run installs between one and the requested number of routes, numbered from 1, each with a path. */
  lemma PlannedRoutesHavePaths(s: Session, parsed: Option<int>, router: seq<LngLat> -> Reply)
    ensures var r := CalculatePatrolRoutes(s, parsed, router);
            r.1 == Planned ==>
              && 1 <= |r.0.routes| <= PatrolCount(parsed)
              && forall i :: 0 <= i < |r.0.routes| ==> r.0.routes[i].id == i + 1 && r.0.routes[i].path.Some?
  {
    var run := PlanRoutes(s.routes, s.filtered, PatrolCount(parsed), SelectedPolygon(s.lock));
    var r := Finish(s, run, router);
    assert CalculatePatrolRoutes(s, parsed, router) == r;
    if r.1 == Planned {
      assert run.outcome == Planned;
      assert 1 <= |run.routes| <= PatrolCount(parsed);
      assert |r.0.routes| == |run.routes|;
    }
  }

  /** With a region selected, every planned route is centred inside its polygon. */
  lemma PlannedRoutesInRegion(s: Session, parsed: Option<int>, router: seq<LngLat> -> Reply)
    requires SelectedPolygon(s.lock).Some?
    ensures var r := CalculatePatrolRoutes(s, parsed, router);
            r.1 == Planned ==> forall i :: 0 <= i < |r.0.routes| ==>
              InPolygon(r.0.routes[i].center, SelectedPolygon(s.lock).value)
  {
    var run := PlanRoutes(s.routes, s.filtered, PatrolCount(parsed), SelectedPolygon(s.lock));
    assert CalculatePatrolRoutes(s, parsed, router) == Finish(s, run, router);
  }

  /**
   * Every installed route of a successful run asked the router for its own
   * waypoints: it carries the flipped geometry of a usable answer, and the
   * straight closed fallback for any other answer or a failure.
   */
  lemma PlannedPathsFollowRouter(s: Session, parsed: Option<int>, router: seq<LngLat> -> Reply)
    ensures var r := CalculatePatrolRoutes(s, parsed, router);
            r.1 == Planned ==> forall i :: 0 <= i < |r.0.routes| ==>
              var ws := r.0.routes[i].waypoints;
              var reply := router(RequestCoordinates(ws));
              && r.0.routes[i].path.Some?
              && (Routed(reply) ==> Unflip(r.0.routes[i].path.value) == reply.routes[0].coordinates.value)
              && (!Routed(reply) ==> r.0.routes[i].path.value == FallbackPath(ws))
  {
    var run := PlanRoutes(s.routes, s.filtered, PatrolCount(parsed), SelectedPolygon(s.lock));
    var r := Finish(s, run, router);
    assert CalculatePatrolRoutes(s, parsed, router) == r;
    if r.1 == Planned {
      forall i | 0 <= i < |r.0.routes|
        ensures var ws := r.0.routes[i].waypoints;
                var reply := router(RequestCoordinates(ws));
                && r.0.routes[i].path.Some?
                && (Routed(reply) ==> Unflip(r.0.routes[i].path.value) == reply.routes[0].coordinates.value)
                && (!Routed(reply) ==> r.0.routes[i].path.value == FallbackPath(ws))
      {
        assert r.0.routes[i] == ResolvePath(run.routes[i], router);
        PathFollowsRouter(run.routes[i], router);
      }
    }
  }

  /** Installs a planning run's routes, resolving their paths when some were planned. */
  function Finish(s: Session, run: RouteRun, router: seq<LngLat> -> Reply): (r: (Session, Outcome))
    requires run.outcome == Planned ==> RoutesWellFormed(run.routes, SelectedPolygon(s.lock))
    ensures r.0.data == s.data && r.0.filtered == s.filtered && r.0.lock == s.lock
    ensures r.1 == run.outcome && |r.0.routes| == |run.routes|
    ensures r.1 != Planned ==> r.0.routes == run.routes
    ensures r.1 == Planned ==> forall i :: 0 <= i < |r.0.routes| ==> r.0.routes[i] == ResolvePath(run.routes[i], router)
    ensures r.1 == Planned ==>
              (forall i :: 0 <= i < |r.0.routes| ==> r.0.routes[i].id == i + 1 && r.0.routes[i].path.Some?)
              && (forall i :: 0 <= i < |r.0.routes| ==>
                    && r.0.routes[i].waypoints == run.routes[i].waypoints
                    && r.0.routes[i].center == run.routes[i].center
                    && r.0.routes[i].pointCount == run.routes[i].pointCount)
              && (SelectedPolygon(s.lock).Some? ==> forall i :: 0 <= i < |r.0.routes| ==>
                    InPolygon(r.0.routes[i].center, SelectedPolygon(s.lock).value))
  {
    if run.outcome == Planned then
      (s.(routes := ResolvePaths(run.routes, router)), run.outcome)
    else (s.(routes := run.routes), run.outcome)
  }

  /**
   * After filters for a district are applied, a planned route set lies in
   * that district: every route's centre is inside the district's bounds,
   * and the planner's polygon is the one the filter used.
   */
  lemma DistrictRoutesStayInDistrict(s: Session, crit: Criteria, now: int, parsed: Option<int>,
                                     router: seq<LngLat> -> Reply)
    requires crit.place.Place? && IsDistrict(crit.place.key)
    ensures Lookup(crit.place.key).Some?
    ensures var r := CalculatePatrolRoutes(ApplyFilters(s, crit, now), parsed, router);
            r.1 == Planned ==> forall i :: 0 <= i < |r.0.routes| ==>
              InBox(r.0.routes[i].center, Lookup(crit.place.key).value.bounds)
  {
    var t := ApplyFilters(s, crit, now);
    var r := CalculatePatrolRoutes(t, parsed, router);
    var region := Lookup(crit.place.key).value;
    assert t.lock.selected == Some(region);
    PlannedRoutesInRegion(t, parsed, router);
    if r.1 == Planned {
      forall i | 0 <= i < |r.0.routes|
        ensures InBox(r.0.routes[i].center, region.bounds)
      {
        DistrictPolygonIsBounds(crit.place.key, r.0.routes[i].center);
      }
    }
  }
}
