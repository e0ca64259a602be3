/**
 * The grid route partitioner: the body of `calculatePatrolRoutes`
 * (script.js:514-653) up to the call into the road router.
 *
 * The points are restricted to the active polygon, the min/max box of what
 * remains is cut into a `rows x cols` grid, and each of the first `count`
 * row-major cells whose centre lies in the polygon yields one route: the five
 * most intense points within half a cell of the centre, or a small default
 * triangle when there are none.
 */
module Partition {
  import opened Wrappers
  import opened Seqs
  import opened Geometry
  import opened Grid
  import opened Ranking
  import opened Filters

  /** A patrol route descriptor (script.js:634-640); `path` is filled in later. */
  datatype Route = Route(id: nat, waypoints: seq<Waypoint>, center: LatLng, pointCount: nat, path: Option<seq<LatLng>>)

  /** Why a run produced no routes, or that it produced some. */
  datatype Outcome =
    | NoData            // no filtered points at all (script.js:517-520)
    | NoPointsInRegion  // none of them inside the region polygon (script.js:561-564)
    | NoRoutes          // every grid slot was skipped (script.js:643-646)
    | Planned

  datatype RouteRun = RouteRun(routes: seq<Route>, outcome: Outcome)

  /** The grid laid over the points' bounding box. */
  datatype Layout = Layout(
    count: nat, cols: nat, rows: nat,
    latMin: real, latMax: real, lngMin: real, lngMax: real,
    cellLat: real, cellLng: real)

  function ToWaypoint(c: RiskPoint): Waypoint
  {
    Waypoint(c.lat, c.lng, c.intensity)
  }

  function Where(w: Waypoint): LatLng
  {
    LatLng(w.lat, w.lng)
  }

  /** `filteredCrimeData.map(...)` to `{lat, lng, intensity}` records (script.js:548-552). */
  function ToWaypoints(cs: seq<RiskPoint>): (ws: seq<Waypoint>)
    ensures |ws| == |cs|
    ensures forall i :: 0 <= i < |cs| ==> ws[i] == ToWaypoint(cs[i])
  {
    seq(|cs|, i requires 0 <= i < |cs| => ToWaypoint(cs[i]))
  }

  function InsideOf(ring: Ring): Waypoint -> bool
  {
    (w: Waypoint) => InPolygon(Where(w), ring)
  }

  /** Keeps the points inside the polygon, when there is one (script.js:555-559, 625-628). */
  function RestrictToPolygon(ws: seq<Waypoint>, polygon: Option<Ring>): (r: seq<Waypoint>)
    ensures polygon.Some? ==> IsSubsequence(r, ws)
    ensures polygon.Some? ==> forall w :: w in r ==> InPolygon(Where(w), polygon.value)
    ensures polygon.Some? ==> forall i :: 0 <= i < |ws| && InPolygon(Where(ws[i]), polygon.value) ==> ws[i] in r
    ensures polygon.Some? ==> forall w :: w in ws ==>
              multiset(r)[w] == (if InPolygon(Where(w), polygon.value) then multiset(ws)[w] else 0)
    ensures polygon.None? ==> r == ws
  {
    match polygon
    case None => ws
    case Some(ring) => Filter(InsideOf(ring), ws)
  }

  function MinOf(xs: seq<real>): (m: real)
    requires |xs| > 0
    ensures m in xs
    ensures forall x :: x in xs ==> m <= x
  {
    if |xs| == 1 then xs[0]
    else
      var rest := MinOf(xs[1..]);
      assert forall x :: x in xs ==> x == xs[0] || x in xs[1..];
      if xs[0] <= rest then xs[0] else rest
  }

  function MaxOf(xs: seq<real>): (m: real)
    requires |xs| > 0
    ensures m in xs
    ensures forall x :: x in xs ==> x <= m
  {
    if |xs| == 1 then xs[0]
    else
      var rest := MaxOf(xs[1..]);
      assert forall x :: x in xs ==> x == xs[0] || x in xs[1..];
      if xs[0] >= rest then xs[0] else rest
  }

  function Lats(ws: seq<Waypoint>): (xs: seq<real>)
    ensures |xs| == |ws| && forall i :: 0 <= i < |ws| ==> xs[i] == ws[i].lat
  {
    seq(|ws|, i requires 0 <= i < |ws| => ws[i].lat)
  }

  function Lngs(ws: seq<Waypoint>): (xs: seq<real>)
    ensures |xs| == |ws| && forall i :: 0 <= i < |ws| ==> xs[i] == ws[i].lng
  {
    seq(|ws|, i requires 0 <= i < |ws| => ws[i].lng)
  }

  /** A grid with slots has columns to place them in. */
  predicate HasColumns(l: Layout)
  {
    l.count > 0 ==> l.cols > 0
  }

  /** The grid is the one the source builds for `count` slots, with non-negative cell sizes. */
  predicate WellFormed(l: Layout)
  {
    && HasColumns(l)
    && l.cols == Cols(l.count)
    && l.rows == Rows(l.count)
    && l.latMin <= l.latMax && l.lngMin <= l.lngMax
    && l.cellLat >= 0.0 && l.cellLng >= 0.0
  }

  lemma CoordinateRange(ws: seq<Waypoint>)
    requires |ws| > 0
    ensures forall w :: w in ws ==>
              MinOf(Lats(ws)) <= w.lat <= MaxOf(Lats(ws)) && MinOf(Lngs(ws)) <= w.lng <= MaxOf(Lngs(ws))
    ensures exists w :: w in ws && w.lat == MinOf(Lats(ws))
    ensures exists w :: w in ws && w.lat == MaxOf(Lats(ws))
    ensures exists w :: w in ws && w.lng == MinOf(Lngs(ws))
    ensures exists w :: w in ws && w.lng == MaxOf(Lngs(ws))
  {
    forall w | w in ws
      ensures w.lat in Lats(ws) && w.lng in Lngs(ws)
    {
      var i :| 0 <= i < |ws| && ws[i] == w;
      assert Lats(ws)[i] == w.lat;
      assert Lngs(ws)[i] == w.lng;
    }
    var i :| 0 <= i < |ws| && Lats(ws)[i] == MaxOf(Lats(ws));
    assert ws[i] in ws && ws[i].lat == MaxOf(Lats(ws));
    var j :| 0 <= j < |ws| && Lngs(ws)[j] == MaxOf(Lngs(ws));
    assert ws[j] in ws && ws[j].lng == MaxOf(Lngs(ws));
    var i' :| 0 <= i' < |ws| && Lats(ws)[i'] == MinOf(Lats(ws));
    assert ws[i'] in ws && ws[i'].lat == MinOf(Lats(ws));
    var j' :| 0 <= j' < |ws| && Lngs(ws)[j'] == MinOf(Lngs(ws));
    assert ws[j'] in ws && ws[j'].lng == MinOf(Lngs(ws));
  }

  /** `span / n` cells of that size cover the span exactly. */
  function CellSize(span: real, n: nat): (size: real)
    requires span >= 0.0
    ensures size >= 0.0
    ensures n > 0 ==> size * (n as real) == span
  {
    if n == 0 then 0.0 else span / n as real
  }

  /** `rows` cells of height `cellLat` and `cols` cells of width `cellLng` exactly fill the box. */
  predicate CellsTileBox(l: Layout)
  {
    && l.cellLat * (l.rows as real) == l.latMax - l.latMin
    && l.cellLng * (l.cols as real) == l.lngMax - l.lngMin
  }

  /** The grid for `count` slots over the given box, cells of equal size (script.js:573-580). */
  function GridOver(count: nat, latMin: real, latMax: real, lngMin: real, lngMax: real): (l: Layout)
    requires latMin <= latMax && lngMin <= lngMax
    ensures WellFormed(l) && l.count == count
    ensures l.latMin == latMin && l.latMax == latMax && l.lngMin == lngMin && l.lngMax == lngMax
    ensures count > 0 ==> CellsTileBox(l)
  {
    var cols, rows := Cols(count), Rows(count);
    Layout(count, cols, rows, latMin, latMax, lngMin, lngMax,
           CellSize(latMax - latMin, rows), CellSize(lngMax - lngMin, cols))
  }

  /** The grid over the points' own min/max box (script.js:566-580). */
  function LayoutFor(ws: seq<Waypoint>, count: nat): (l: Layout)
    requires |ws| > 0
    ensures WellFormed(l) && l.count == count
    ensures count > 0 ==> CellsTileBox(l)
  {
    GridOver(count, MinOf(Lats(ws)), MaxOf(Lats(ws)), MinOf(Lngs(ws)), MaxOf(Lngs(ws)))
  }

  /** The grid's box is the tightest one around the points: each lies in it and some reach each of its four edges. */
  lemma LayoutCoversPoints(ws: seq<Waypoint>, count: nat)
    requires |ws| > 0
    ensures var l := LayoutFor(ws, count);
            && (forall w :: w in ws ==> l.latMin <= w.lat <= l.latMax && l.lngMin <= w.lng <= l.lngMax)
            && (exists w :: w in ws && w.lat == l.latMin)
            && (exists w :: w in ws && w.lat == l.latMax)
            && (exists w :: w in ws && w.lng == l.lngMin)
            && (exists w :: w in ws && w.lng == l.lngMax)
  {
    CoordinateRange(ws);
  }

  /** Centre of row-major slot `i` (script.js:585-590). */
  function CellCentre(l: Layout, i: nat): LatLng
    requires l.cols > 0
  {
    LatLng(l.latMin + ((i / l.cols) as real + 0.5) * l.cellLat,
           l.lngMin + ((i % l.cols) as real + 0.5) * l.cellLng)
  }

  function Abs(x: real): real
  {
    if x < 0.0 then -x else x
  }

  /** Within half a cell of the centre in both directions, boundary included (script.js:599-603). */
  function InCell(c: LatLng, l: Layout): Waypoint -> bool
  {
    (w: Waypoint) => Abs(w.lat - c.lat) <= l.cellLat / 2.0 && Abs(w.lng - c.lng) <= l.cellLng / 2.0
  }

  /** Within half a cell of the middle of `[min + k * cell, min + (k + 1) * cell]` is within that span. */
  lemma HalfCellWindow(min: real, k: real, cell: real, x: real)
    ensures Abs(x - (min + (k + 0.5) * cell)) <= cell / 2.0 <==> min + k * cell <= x <= min + (k + 1.0) * cell
  {
    assert (k + 0.5) * cell == k * cell + 0.5 * cell;
    assert (k + 1.0) * cell == k * cell + cell;
  }

  /** The window around the middle of the cell at `row`, `col` is that cell. */
  lemma WindowAroundMiddle(l: Layout, row: real, col: real, w: Waypoint)
    ensures var c := LatLng(l.latMin + (row + 0.5) * l.cellLat, l.lngMin + (col + 0.5) * l.cellLng);
            InCell(c, l)(w) <==>
              && l.latMin + row * l.cellLat <= w.lat <= l.latMin + (row + 1.0) * l.cellLat
              && l.lngMin + col * l.cellLng <= w.lng <= l.lngMin + (col + 1.0) * l.cellLng
  {
    HalfCellWindow(l.latMin, row, l.cellLat, w.lat);
    HalfCellWindow(l.lngMin, col, l.cellLng, w.lng);
  }

  /**
   * A point counts for slot `i` exactly when it lies in the closed cell of
   * row `i / cols` and column `i % cols`: the window around the centre is
   * that cell.
   */
  lemma CellWindowIsCell(l: Layout, i: nat, w: Waypoint)
    requires l.cols > 0
    ensures var row := (i / l.cols) as real;
            var col := (i % l.cols) as real;
            InCell(CellCentre(l, i), l)(w) <==>
              && l.latMin + row * l.cellLat <= w.lat <= l.latMin + (row + 1.0) * l.cellLat
              && l.lngMin + col * l.cellLng <= w.lng <= l.lngMin + (col + 1.0) * l.cellLng
  {
    var row := (i / l.cols) as real;
    var col := (i % l.cols) as real;
    assert CellCentre(l, i) == LatLng(l.latMin + (row + 0.5) * l.cellLat, l.lngMin + (col + 0.5) * l.cellLng);
    WindowAroundMiddle(l, row, col, w);
  }

  /** Intensity given to every waypoint of a default route. */
  const DefaultIntensity: real := 0.3

  /** The default route of an empty cell: its centre and two points offset north and east (script.js:613-618). */
  function DefaultTriangle(c: LatLng, l: Layout): (r: seq<Waypoint>)
    ensures |r| == 3 && r[0] == Waypoint(c.lat, c.lng, DefaultIntensity)
    ensures forall k :: 0 <= k < |r| ==> r[k].intensity == DefaultIntensity
    ensures r[1].lng == c.lng && r[2].lat == c.lat && r[1].lat - c.lat == r[2].lng - c.lng
  {
    var offset := (if l.cellLat <= l.cellLng then l.cellLat else l.cellLng) * 0.3;
    [Waypoint(c.lat, c.lng, DefaultIntensity),
     Waypoint(c.lat + offset, c.lng, DefaultIntensity),
     Waypoint(c.lat, c.lng + offset, DefaultIntensity)]
  }

  /** The default offset is three tenths of the cell's shorter side, north and east alike. */
  lemma DefaultTriangleOffset(c: LatLng, l: Layout)
    ensures var r := DefaultTriangle(c, l);
            && (l.cellLat <= l.cellLng ==> r[1].lat - c.lat == 0.3 * l.cellLat)
            && (l.cellLng <= l.cellLat ==> r[1].lat - c.lat == 0.3 * l.cellLng)
            && r[2].lng - c.lng == r[1].lat - c.lat
  {
  }

  /**
   * The default route stays in its cell: both offset points lie within half
   * a cell of the centre, and on a cell of positive size the three points
   * are distinct.
   */
  lemma DefaultTriangleInCell(c: LatLng, l: Layout)
    requires l.cellLat >= 0.0 && l.cellLng >= 0.0
    ensures var r := DefaultTriangle(c, l);
            && (forall k :: 0 <= k < |r| ==> InCell(c, l)(r[k]))
            && (l.cellLat > 0.0 && l.cellLng > 0.0 ==> r[0] != r[1] && r[0] != r[2] && r[1] != r[2])
  {
  }

  /** The waypoints slot `i` contributes, or `None` when the slot is skipped (script.js:585-631). */
  function SlotWaypoints(ws: seq<Waypoint>, l: Layout, polygon: Option<Ring>, i: nat): (r: Option<seq<Waypoint>>)
    requires l.cols > 0
    ensures r.Some? ==> 1 <= |r.value| <= MaxWaypoints
    ensures r.Some? && polygon.Some? ==>
              InPolygon(CellCentre(l, i), polygon.value)
              && forall w :: w in r.value ==> InPolygon(Where(w), polygon.value)
  {
    var c := CellCentre(l, i);
    if polygon.Some? && !InPolygon(c, polygon.value) then None
    else
      var picked := TopFive(Filter(InCell(c, l), ws));
      if |picked| == 0 && !(polygon.None? || InPolygon(c, polygon.value)) then None
      else
        var chosen := if |picked| == 0 then DefaultTriangle(c, l) else picked;
        var kept := RestrictToPolygon(chosen, polygon);
        if polygon.Some? && |kept| == 0 then None
        else
          assert |kept| <= |chosen| <= MaxWaypoints;
          Some(kept)
  }

  /** What every emitted route set satisfies: ids 1..m, 1..5 waypoints counted in `pointCount`, within the polygon. */
  predicate RoutesWellFormed(rs: seq<Route>, polygon: Option<Ring>)
  {
    && (forall j :: 0 <= j < |rs| ==> rs[j].id == j + 1)
    && (forall j :: 0 <= j < |rs| ==>
          1 <= |rs[j].waypoints| <= MaxWaypoints
          && rs[j].pointCount == |rs[j].waypoints|
          && rs[j].path.None?)
    && (polygon.Some? ==> forall j :: 0 <= j < |rs| ==>
          InPolygon(rs[j].center, polygon.value)
          && forall w :: w in rs[j].waypoints ==> InPolygon(Where(w), polygon.value))
  }

  /** Slot `i` may yield a route: its centre lies in the polygon, or there is none (script.js:593-596). */
  predicate CentreAdmitted(l: Layout, polygon: Option<Ring>, i: nat)
    requires l.cols > 0
  {
    polygon.None? || InPolygon(CellCentre(l, i), polygon.value)
  }

  /** What each of the first slots yields: 1..5 waypoints, and with a polygon a centre and waypoints inside it. */
  predicate SlotsWellFormed(slots: seq<Option<seq<Waypoint>>>, l: Layout, polygon: Option<Ring>)
    requires HasColumns(l) && |slots| <= l.count
  {
    forall i :: 0 <= i < |slots| && slots[i].Some? ==>
      && 1 <= |slots[i].value| <= MaxWaypoints
      && (polygon.Some? ==>
            InPolygon(CellCentre(l, i), polygon.value)
            && forall w :: w in slots[i].value ==> InPolygon(Where(w), polygon.value))
  }

  /** The outcome of every slot of the loop, in slot order (script.js:584-641). */
  function Slots(ws: seq<Waypoint>, l: Layout, polygon: Option<Ring>): (slots: seq<Option<seq<Waypoint>>>)
    requires HasColumns(l)
    ensures |slots| == l.count
    ensures forall i :: 0 <= i < |slots| ==> slots[i] == SlotWaypoints(ws, l, polygon, i)
    ensures SlotsWellFormed(slots, l, polygon)
  {
    seq(l.count, i requires 0 <= i < l.count => SlotWaypoints(ws, l, polygon, i))
  }

  /**
   * The routes emitted by the first `k` slots of the loop: one per yielding
   * slot, in slot order, numbered from 1.
   */
  function Emitted(slots: seq<Option<seq<Waypoint>>>, l: Layout, k: nat): (rs: seq<Route>)
    requires HasColumns(l) && k <= |slots| <= l.count
    ensures |rs| <= k
    ensures |rs| == Yielding(slots, k)
    ensures FollowsSlots(rs, slots, l, YieldingSlots(slots, k))
  {
    if k == 0 then []
    else
      var before := Emitted(slots, l, k - 1);
      match slots[k - 1]
      case None => before
      case Some(wps) =>
        FollowsOneMoreSlot(before, slots, l, YieldingSlots(slots, k - 1), k - 1);
        before + [Route(|before| + 1, wps, CellCentre(l, k - 1), |wps|, None)]
  }

  /** Routes built from well-formed slots are well formed: what each slot promises, its route keeps. */
  lemma EmittedWellFormed(slots: seq<Option<seq<Waypoint>>>, l: Layout, polygon: Option<Ring>, k: nat)
    requires HasColumns(l) && k <= |slots| <= l.count && SlotsWellFormed(slots, l, polygon)
    ensures RoutesWellFormed(Emitted(slots, l, k), polygon)
  {
    var rs := Emitted(slots, l, k);
    var idx := YieldingSlots(slots, k);
    forall j | 0 <= j < |rs|
      ensures rs[j].id == j + 1 && 1 <= |rs[j].waypoints| <= MaxWaypoints
      ensures rs[j].pointCount == |rs[j].waypoints| && rs[j].path.None?
      ensures polygon.Some? ==>
                InPolygon(rs[j].center, polygon.value)
                && forall w :: w in rs[j].waypoints ==> InPolygon(Where(w), polygon.value)
    {
      assert rs[j] == Route(j + 1, slots[idx[j]].value, CellCentre(l, idx[j]), |slots[idx[j]].value|, None);
    }
  }

  /**
   * One run of `calculatePatrolRoutes` on the current route set `prev`.
   * With no filtered points it stops before `clearRoutes`, so the old routes
   * stay; every later failure happens after the routes were cleared.
   */
  function PlanRoutes(prev: seq<Route>, filtered: seq<RiskPoint>, count: nat, polygon: Option<Ring>): (run: RouteRun)
    ensures run.outcome == NoData <==> |filtered| == 0
    ensures run.outcome == NoData ==> run.routes == prev
    ensures run.outcome == NoPointsInRegion || run.outcome == NoRoutes ==> run.routes == []
    ensures run.outcome == NoPointsInRegion ==> polygon.Some?
    ensures run.outcome == Planned ==> 1 <= |run.routes| <= count && RoutesWellFormed(run.routes, polygon)
  {
    if |filtered| == 0 then RouteRun(prev, NoData)
    else
      var ws := RestrictToPolygon(ToWaypoints(filtered), polygon);
      if |ws| == 0 then RouteRun([], NoPointsInRegion)
      else
        var l := LayoutFor(ws, count);
        var slots := Slots(ws, l, polygon);
        var rs := Emitted(slots, l, count);
        EmittedWellFormed(slots, l, polygon, count);
        if |rs| == 0 then RouteRun([], NoRoutes) else RouteRun(rs, Planned)
  }

  lemma MulMonotoneReal(a: real, b: real, c: real)
    requires a <= b && c >= 0.0
    ensures a * c <= b * c
  {
  }

  lemma PositiveProduct(a: real, b: real)
    requires a >= 0.0 && b >= 0.0
    ensures a * b >= 0.0
  {
  }

  /** The middle of cell `idx` of `n` equal cells lies within the span they cover. */
  lemma MiddleOfCell(min: real, max: real, cell: real, n: nat, idx: nat)
    requires idx < n && cell >= 0.0 && cell * (n as real) == max - min
    ensures min <= min + (idx as real + 0.5) * cell <= max
  {
    PositiveProduct(idx as real + 0.5, cell);
    MulMonotoneReal(idx as real + 0.5, n as real, cell);
  }

  /** A centre in grid row `i / cols < rows` and column `i % cols` of a tiled box lies in the box. */
  lemma CentreOfTiledCell(l: Layout, i: nat)
    requires l.cols > 0 && i / l.cols < l.rows
    requires l.cellLat >= 0.0 && l.cellLng >= 0.0 && CellsTileBox(l)
    ensures l.latMin <= CellCentre(l, i).lat <= l.latMax
    ensures l.lngMin <= CellCentre(l, i).lng <= l.lngMax
  {
    MiddleOfCell(l.latMin, l.latMax, l.cellLat, l.rows, i / l.cols);
    MiddleOfCell(l.lngMin, l.lngMax, l.cellLng, l.cols, i % l.cols);
  }

  /** Every slot's centre lies within the points' bounding box. */
  lemma CentreInsideBox(l: Layout, i: nat)
    requires WellFormed(l) && CellsTileBox(l) && i < l.count
    ensures l.cols > 0
    ensures l.latMin <= CellCentre(l, i).lat <= l.latMax
    ensures l.lngMin <= CellCentre(l, i).lng <= l.lngMax
  {
    SlotInGrid(l.count, i);
    CentreOfTiledCell(l, i);
  }

  /** The first element of a filter's output, when the filter accepts the first input. */
  lemma FilterKeepsHead<T>(f: T -> bool, s: seq<T>)
    requires |s| > 0 && f(s[0])
    ensures |Filter(f, s)| > 0 && Filter(f, s)[0] == s[0]
  {
  }

  /** The points of the half-cell box around slot `i`'s centre. */
  function CellPoints(ws: seq<Waypoint>, l: Layout, i: nat): seq<Waypoint>
    requires l.cols > 0
  {
    Filter(InCell(CellCentre(l, i), l), ws)
  }

  /**
   * Given points already restricted to the polygon, a slot is skipped
   * exactly when its centre lies outside the polygon: the later skips of
   * script.js:619-621 and 630 never fire.
   */
  lemma SlotSkippedExactlyOutside(ws: seq<Waypoint>, l: Layout, polygon: Option<Ring>, i: nat)
    requires l.cols > 0
    requires polygon.Some? ==> forall w :: w in ws ==> InPolygon(Where(w), polygon.value)
    ensures SlotWaypoints(ws, l, polygon, i).Some? <==> CentreAdmitted(l, polygon, i)
  {
    var c := CellCentre(l, i);
    if polygon.Some? && InPolygon(c, polygon.value) {
      var ring := polygon.value;
      var picked := TopFive(CellPoints(ws, l, i));
      if |picked| > 0 {
        TopFiveInside(ws, CellPoints(ws, l, i), ring);
      } else {
        FilterKeepsHead(InsideOf(ring), DefaultTriangle(c, l));
      }
    }
  }

  /**
   * A cell with points gets its at most five most intense ones, most intense
   * first, unchanged by the polygon re-check.
   */
  lemma SlotTakesTopFive(ws: seq<Waypoint>, l: Layout, polygon: Option<Ring>, i: nat)
    requires l.cols > 0
    requires polygon.Some? ==> forall w :: w in ws ==> InPolygon(Where(w), polygon.value)
    requires |CellPoints(ws, l, i)| > 0
    requires polygon.None? || InPolygon(CellCentre(l, i), polygon.value)
    ensures SlotWaypoints(ws, l, polygon, i) == Some(TopFive(CellPoints(ws, l, i)))
  {
    var picked := TopFive(CellPoints(ws, l, i));
    assert |picked| > 0;
    if polygon.Some? {
      TopFiveInside(ws, CellPoints(ws, l, i), polygon.value);
      assert RestrictToPolygon(picked, polygon) == picked;
    }
  }

  /**
   * An empty cell gets the default triangle, re-checked against the
   * polygon; its first waypoint, the centre itself, always stays.
   */
  lemma SlotDefaultRoute(ws: seq<Waypoint>, l: Layout, polygon: Option<Ring>, i: nat)
    requires l.cols > 0
    requires |CellPoints(ws, l, i)| == 0
    requires polygon.None? || InPolygon(CellCentre(l, i), polygon.value)
    ensures var c := CellCentre(l, i);
            var r := SlotWaypoints(ws, l, polygon, i);
            && r == Some(RestrictToPolygon(DefaultTriangle(c, l), polygon))
            && r.value[0] == Waypoint(c.lat, c.lng, DefaultIntensity)
  {
    var c := CellCentre(l, i);
    if polygon.Some? {
      FilterKeepsHead(InsideOf(polygon.value), DefaultTriangle(c, l));
    }
  }

  /** Points picked from within a restricted set stay when the set's polygon is applied again. */
  lemma TopFiveInside(ws: seq<Waypoint>, cell: seq<Waypoint>, ring: Ring)
    requires forall w :: w in ws ==> InPolygon(Where(w), ring)
    requires forall w :: w in cell ==> w in ws
    ensures Filter(InsideOf(ring), TopFive(cell)) == TopFive(cell)
  {
    var picked := TopFive(cell);
    forall w | w in picked
      ensures InsideOf(ring)(w)
    {
      assert w in multiset(picked);
      assert w in multiset(cell);
    }
    FilterKeepsAll(InsideOf(ring), picked);
  }

  /** Number of the first `k` slots whose centre lies in the polygon (all of them without one). */
  function InsideSlots(l: Layout, polygon: Option<Ring>, k: nat): nat
    requires HasColumns(l) && k <= l.count
  {
    if k == 0 then 0
    else InsideSlots(l, polygon, k - 1) + (if CentreAdmitted(l, polygon, k - 1) then 1 else 0)
  }

  /** Number of the first `k` slots that yield a route. */
  function Yielding(slots: seq<Option<seq<Waypoint>>>, k: nat): nat
    requires k <= |slots|
  {
    if k == 0 then 0
    else Yielding(slots, k - 1) + (if slots[k - 1].Some? then 1 else 0)
  }

  /** Indices of the first `k` slots that yield a route, in slot order. */
  function YieldingSlots(slots: seq<Option<seq<Waypoint>>>, k: nat): (idx: seq<nat>)
    requires k <= |slots|
    ensures |idx| == Yielding(slots, k)
    ensures forall j :: 0 <= j < |idx| ==> idx[j] < k && slots[idx[j]].Some?
    ensures forall j, j' :: 0 <= j < j' < |idx| ==> idx[j] < idx[j']
    ensures forall i :: 0 <= i < k && slots[i].Some? ==> i in idx
  {
    if k == 0 then []
    else YieldingSlots(slots, k - 1) + (if slots[k - 1].Some? then [k - 1] else [])
  }

  /**
   * Route `j` of `rs` is built from slot `idx[j]`: its id is `j + 1`, its
   * waypoints and count are the slot's, its centre is the slot's cell centre.
   */
  predicate FollowsSlots(rs: seq<Route>, slots: seq<Option<seq<Waypoint>>>, l: Layout, idx: seq<nat>)
  {
    && |rs| == |idx|
    && forall j :: 0 <= j < |idx| ==>
         && l.cols > 0 && idx[j] < |slots| && slots[idx[j]].Some?
         && rs[j] == Route(j + 1, slots[idx[j]].value, CellCentre(l, idx[j]), |slots[idx[j]].value|, None)
  }

  lemma FollowsOneMoreSlot(rs: seq<Route>, slots: seq<Option<seq<Waypoint>>>, l: Layout, idx: seq<nat>, i: nat)
    requires FollowsSlots(rs, slots, l, idx)
    requires l.cols > 0 && i < |slots| && slots[i].Some?
    ensures FollowsSlots(rs + [Route(|rs| + 1, slots[i].value, CellCentre(l, i), |slots[i].value|, None)], slots, l, idx + [i])
  {
    var rs' := rs + [Route(|rs| + 1, slots[i].value, CellCentre(l, i), |slots[i].value|, None)];
    assert forall j :: 0 <= j < |rs| ==> rs'[j] == rs[j];
  }

  /** Slots that yield exactly when admitted are counted alike. */
  lemma {:induction false} YieldingCountsInside(slots: seq<Option<seq<Waypoint>>>, l: Layout, polygon: Option<Ring>, k: nat)
    requires HasColumns(l) && k <= |slots| <= l.count
    requires forall i :: 0 <= i < |slots| ==> (slots[i].Some? <==> CentreAdmitted(l, polygon, i))
    ensures Yielding(slots, k) == InsideSlots(l, polygon, k)
  {
    if k > 0 {
      YieldingCountsInside(slots, l, polygon, k - 1);
      assert slots[k - 1].Some? <==> CentreAdmitted(l, polygon, k - 1);
    }
  }

  /** Over points restricted to the polygon, a slot yields exactly when its centre is admitted. */
  lemma SlotsYieldExactlyAdmitted(ws: seq<Waypoint>, l: Layout, polygon: Option<Ring>)
    requires HasColumns(l)
    requires polygon.Some? ==> forall w :: w in ws ==> InPolygon(Where(w), polygon.value)
    ensures forall i :: 0 <= i < l.count ==> (Slots(ws, l, polygon)[i].Some? <==> CentreAdmitted(l, polygon, i))
  {
    var slots := Slots(ws, l, polygon);
    forall i | 0 <= i < l.count
      ensures slots[i].Some? <==> CentreAdmitted(l, polygon, i)
    {
      SlotSkippedExactlyOutside(ws, l, polygon, i);
    }
  }

  /** One route per slot whose centre lies in the polygon; without a polygon, one per slot. */
  lemma EmittedCountsInsideSlots(ws: seq<Waypoint>, l: Layout, polygon: Option<Ring>)
    requires HasColumns(l)
    requires polygon.Some? ==> forall w :: w in ws ==> InPolygon(Where(w), polygon.value)
    ensures |Emitted(Slots(ws, l, polygon), l, l.count)| == InsideSlots(l, polygon, l.count)
  {
    var slots := Slots(ws, l, polygon);
    SlotsYieldExactlyAdmitted(ws, l, polygon);
    YieldingCountsInside(slots, l, polygon, l.count);
  }

  /** When every slot centre lies in the polygon, every slot counts. */
  lemma {:induction false} AllSlotsInside(l: Layout, polygon: Option<Ring>, k: nat)
    requires HasColumns(l) && k <= l.count
    requires polygon.Some? ==> forall i :: 0 <= i < k ==> InPolygon(CellCentre(l, i), polygon.value)
    ensures InsideSlots(l, polygon, k) == k
  {
    if k > 0 {
      AllSlotsInside(l, polygon, k - 1);
    }
  }

  /**
   * When no filtered point lies in the region polygon the run reports it
   * and leaves no routes; this is the only way that report arises.
   */
  lemma NoPointsInRegionExactly(prev: seq<Route>, filtered: seq<RiskPoint>, count: nat, polygon: Option<Ring>)
    ensures var run := PlanRoutes(prev, filtered, count, polygon);
            run.outcome == NoPointsInRegion <==>
              |filtered| > 0 && polygon.Some? && forall c :: c in filtered ==> !InPolygon(Position(c), polygon.value)
  {
    if |filtered| > 0 && polygon.Some? {
      NothingInsideExactly(filtered, polygon.value);
    }
  }

  /** Restricting the points to a polygon leaves nothing exactly when none of them lies inside it. */
  lemma NothingInsideExactly(filtered: seq<RiskPoint>, ring: Ring)
    ensures |RestrictToPolygon(ToWaypoints(filtered), Some(ring))| == 0 <==>
              forall c :: c in filtered ==> !InPolygon(Position(c), ring)
  {
    var ws := ToWaypoints(filtered);
    var kept := RestrictToPolygon(ws, Some(ring));
    if |kept| == 0 {
      forall c | c in filtered
        ensures !InPolygon(Position(c), ring)
      {
        var i :| 0 <= i < |filtered| && filtered[i] == c;
        assert Where(ws[i]) == Position(c);
      }
    } else {
      assert kept == Filter(InsideOf(ring), ws);
      var w := kept[0];
      assert w in ws && InPolygon(Where(w), ring);
      var i :| 0 <= i < |ws| && ws[i] == w;
      assert filtered[i] in filtered && Position(filtered[i]) == Where(w);
    }
  }

  /**
   * Once some points remain inside the region, the run either plans or
   * reports "no routes", and it reports "no routes" exactly when no slot
   * yields. A planned run's routes are the routes of the yielding slots, in
   * slot order: route `j` carries the top waypoints of the `j`-th yielding
   * cell, their count and that cell's centre, and has id `j + 1`.
   */
  lemma PlannedRoutesFollowSlots(prev: seq<Route>, filtered: seq<RiskPoint>, count: nat, polygon: Option<Ring>)
    ensures var run := PlanRoutes(prev, filtered, count, polygon);
            var ws := RestrictToPolygon(ToWaypoints(filtered), polygon);
            (run.outcome == Planned || run.outcome == NoRoutes) <==> |filtered| > 0 && |ws| > 0
    ensures var run := PlanRoutes(prev, filtered, count, polygon);
            var ws := RestrictToPolygon(ToWaypoints(filtered), polygon);
            |filtered| > 0 && |ws| > 0 ==>
              var l := LayoutFor(ws, count);
              var slots := Slots(ws, l, polygon);
              && (forall i :: 0 <= i < count ==> slots[i] == SlotWaypoints(ws, l, polygon, i))
              && (run.outcome == NoRoutes <==> Yielding(slots, count) == 0)
              && (run.outcome == Planned ==> FollowsSlots(run.routes, slots, l, YieldingSlots(slots, count)))
  {
  }

  /** With no polygon and some points, every one of the `count` slots yields a route. */
  lemma OpenAreaFillsEverySlot(prev: seq<Route>, filtered: seq<RiskPoint>, count: nat)
    requires |filtered| > 0 && count > 0
    ensures var run := PlanRoutes(prev, filtered, count, None);
            run.outcome == Planned && |run.routes| == count
  {
    var ws := ToWaypoints(filtered);
    AllSlotsInside(LayoutFor(ws, count), None, count);
    EmittedCountsInsideSlots(ws, LayoutFor(ws, count), None);
  }

  /**
   * In an axis-aligned rectangular region (every district of the region
   * table is one), as soon as one filtered point lies inside, every one of
   * the `count` slots yields a route: the grid box lies within the region.
   */
  lemma RectangleFillsEverySlot(prev: seq<Route>, filtered: seq<RiskPoint>, count: nat, sw: LatLng, ne: LatLng)
    requires sw.lat < ne.lat && sw.lng < ne.lng
    requires count > 0
    requires exists c :: c in filtered && InPolygon(Position(c), RectRing(sw, ne))
    ensures var run := PlanRoutes(prev, filtered, count, Some(RectRing(sw, ne)));
            run.outcome == Planned && |run.routes| == count
  {
    var ring := RectRing(sw, ne);
    var polygon := Some(ring);
    var c0 :| c0 in filtered && InPolygon(Position(c0), ring);
    var all := ToWaypoints(filtered);
    assert ToWaypoint(c0) in all;
    var ws := RestrictToPolygon(all, polygon);
    assert ToWaypoint(c0) in ws;
    var l := LayoutFor(ws, count);
    LayoutCoversPoints(ws, count);
    forall w | w in ws
      ensures sw.lat <= w.lat < ne.lat && sw.lng <= w.lng < ne.lng
    {
      RectangleMembership(Where(w), sw, ne);
    }
    assert ws[0] in ws;
    var wl :| wl in ws && wl.lat == l.latMax;
    var wn :| wn in ws && wn.lng == l.lngMax;
    forall i | 0 <= i < count
      ensures InPolygon(CellCentre(l, i), ring)
    {
      CentreInsideBox(l, i);
      RectangleMembership(CellCentre(l, i), sw, ne);
    }
    AllSlotsInside(l, polygon, count);
    EmittedCountsInsideSlots(ws, l, polygon);
  }
}
