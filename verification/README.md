# NajaDashboard core in Dafny

NajaDashboard is a map dashboard for forecast crime risk in Tehran. Its core
logic lives in `script.js`. This project models that logic as pure Dafny
functions and lemmas:

- the even-odd ray-casting test `isPointInPolygon`;
- the region table;
- the filter callback of `applyFilters`, and the map-lock / selected-region pair it maintains;
- `resetFilters` and `clearRoutes`;
- the grid partitioner of `calculatePatrolRoutes`;
- the path construction of `getRoadRoutes`: the straight closed fallback
  polyline and the `[lng, lat]` to `[lat, lng]` flip of a router answer.

The modules follow the program's pieces:

| module | file | what it holds |
|---|---|---|
| `Wrappers` | wrappers.dfy | `Option` |
| `Seqs` | seqs.dfy | order-preserving `Filter` and the subsequence relation |
| `Geometry` | geometry.dfy | points as `[lat, lng]`, ring edges, the crossing count, `isPointInPolygon` |
| `Regions` | regions.dfy | the `tehranRegions` table with its literal bounds and rings |
| `Filters` | filters.dfy | risk points, the filter criteria, the four checks of the callback, region selection |
| `Grid` | grid.dfy | `cols = ceil(sqrt n)`, `rows = ceil(n / cols)` in integer arithmetic |
| `Ranking` | ranking.dfy | stable sort by descending intensity and the top five |
| `Partition` | partition.dfy | the partition loop: bounding box, grid cells, per-slot waypoints, route emission |
| `Paths` | paths.dfy | fallback paths, request coordinates, the flip, per-route path resolution |
| `Dashboard` | dashboard.dfy | the session state (`crimeData`, `filteredCrimeData`, lock, `routes`) and the user actions |

Conventions:

- Coordinates and intensities are `real`.
- Forecast times are integer milliseconds.
- The hour of day comes with each point.
- The road router is a function parameter from the requested coordinates to a reply. That reply is either a thrown failure or a decoded answer.

A failed route calculation clears the previous routes. `clearRoutes()`
runs at script.js:523, before the "no points in region" exit at
script.js:561-564 and the "no route could be built" exit at
script.js:643-646. Only the "no data" exit at script.js:517-520 keeps the
old routes. `Partition.PlanRoutes` and `Dashboard.FailedPlanningClearsRoutes`
state this behaviour.

## Model

| member | source | states |
|---|---|---|
| Geometry.IsPointInPolygon | script.js:231-244 | The source's loop, walking `i` with `j` trailing one vertex behind and toggling on each crossing, returns exactly the even-odd verdict: an odd number of edges cross the ray north of the point. |
| Geometry.Crosses | script.js:239 | The guard `(yi > y) !== (yj > y)` forces the edge's two longitudes apart, so the division never divides by zero. A zero-length edge is never crossed. |
| Geometry.RotationInvariant | script.js:235-242 | Starting the ring at any other vertex leaves both the crossing count and the verdict unchanged, because the result depends only on the cyclic edge list. |
| Geometry.ClosingVertexIgnored | script.js:23 | A ring stored closed, with the last vertex repeating the first as every region polygon is, gives the same count and verdict as the open ring. The zero-length wrap-around edge never toggles. |
| Geometry.RectangleMembership | script.js:23 | On the axis-aligned ring of a box, the test is exactly half-open membership: the south and west sides are inside, the north and east sides outside. |
| Geometry.LevelEdgeCrossing | script.js:239 | An edge along a parallel is crossed exactly by the points south of it whose longitude it straddles. |
| Geometry.InterceptBetweenEnds | script.js:239 | Where an edge straddles the ray's longitude, the intercept latitude lies between the edge's end latitudes. |
| Geometry.FarOutsideIsOutside | script.js:231-244 | A point outside the box spanned by the ring's vertices is never reported inside. |
| Regions.DistrictPolygonIsBounds | script.js:13-59 | Every region with a polygon is one of the five districts. Its polygon is the closed rectangle ring of its bounds, so the polygon test is exactly membership in those bounds, and its label centre lies inside the polygon. |
| Regions.PolygonExactlyForDistricts | script.js:13-59 | Exactly the five district keys carry a polygon; "all" and unknown keys do not. |
| Filters.FilterPoints | script.js:346-419 | The output is an order-preserving subsequence of the points, and it holds exactly the points the callback keeps. With a district selected, kept points carry its tag and lie in its polygon. With a category selected, they carry that category. With a day picked, forecast times lie in the day widened by 12 hours on each side, inclusive. With no day picked, times are not in the past. Every kept hour is accepted by the band. A kept point appears as many times as in the input, and a rejected one not at all. |
| Filters.FilterPointsIdempotent | script.js:346-419 | Filtering the filtered set again with the same criteria changes nothing. |
| Filters.FilterByDistrict | script.js:348-358 | With every band and category accepted and a date that does not parse, which turns the time check off: a district no point is tagged with keeps nothing, and when every point is tagged with the district and lies in its polygon, every point is kept. |
| Filters.OpenFiltersKeepFuture | script.js:376-380 | With every filter open and no day picked, the output equals the input exactly when no forecast lies in the past. |
| Filters.BandIsWidenedWindow | script.js:392-416 | Morning, afternoon, evening and night each accept their nominal six-hour window widened by two hours on both sides, wrapping at midnight. |
| Filters.BandCoverage | script.js:391-418 | "all" accepts every hour, an unlisted band value accepts none, and every hour of the day falls in some named band. |
| Filters.SelectRegion | script.js:337-344 | "all" unlocks the map and clears the selection. A known key selects its region and locks the map. An unknown key clears the selection, and the lock keeps its previous state because `lockMapToRegion` returns early. |
| Filters.ParsePlace | script.js:332-338 | The place value "all" opens the region filter. Any other value names a region key. |
| Filters.ParseBand | script.js:334-416 | "all" and the four listed band values read as their bands, and each reads back to the value it came from. Any other value is the unlisted band, which accepts no hour. |
| Filters.BandValueRoundTrip | script.js:391-416 | Every listed band is read back from its own option value. |
| Filters.ParseCategory | script.js:335-389 | The crime-type value "all" opens the category filter. Any other value names the crime type to match. |
| Filters.ReadForm | script.js:331-335 | Each of the region, band and category filters is open exactly when its form value is "all". Otherwise the place value is the region key, the category value is the crime type, and a listed band is the one whose option value was read. The band is unlisted exactly when its value is none of the five options. The date is taken as converted. |
| Dashboard.Start | script.js:2-10 | At start the filtered set is a copy of all the data, as script.js:227 makes it, the map is unlocked, no region is selected and there are no routes. |
| Dashboard.ApplyFilters | script.js:331-422 | `applyFilters` keeps the data and the routes and sets the lock by region selection. The new filtered set is a subsequence of the data, and a point is in it exactly when it is in the data and passes the callback with the selected region's polygon. Each kept point keeps its multiplicity in the data. |
| Dashboard.SelectionSetsFilterPolygon | script.js:337-358 | The polygon the callback re-checks is the polygon of the region just selected. Only districts have one. |
| Dashboard.ResetFilters | script.js:493-510 | After a reset, all data is shown, the selection is cleared, the map is unlocked and the routes are kept. |
| Dashboard.ApplyAfterReset | script.js:493-510 | Applying the reset form's default selections again reproduces the reset view exactly when no forecast lies in the past. Otherwise it hides the past ones. |
| Dashboard.ResetFormReadsDefault | script.js:493-497 | The values `resetFilters` writes into the form read back as the default criteria, with every filter open and no date. |
| Dashboard.ClearRoutes | script.js:787-795 | Only the routes are emptied. |
| Dashboard.PatrolCount | script.js:515 | `parseInt(...) \|\| 3`: an unparsable or zero count becomes 3, a positive count is kept, and a negative count leaves nothing for the slot loop to do. |
| Dashboard.CalculatePatrolRoutes | script.js:514-653 | Calculating routes changes only the route set. The run reports "no data" exactly when the filtered set is empty. |
| Dashboard.FailedPlanningClearsRoutes | script.js:517-523 | "No data" keeps the old routes. The later failures leave no routes, because `clearRoutes` ran first. "No points in region" arises only with a selected polygon. |
| Dashboard.PlannedRoutesHavePaths | script.js:584-653 | A successful run installs between one and the requested number of routes, with ids 1, 2, ... in order, each with a path. |
| Dashboard.PlannedRoutesInRegion | script.js:593-596 | With a region selected, every planned route is centred inside its polygon. |
| Dashboard.DistrictRoutesStayInDistrict | script.js:337-358 | After filtering for a district, every planned route's centre lies inside that district's bounds. |
| Dashboard.Finish | script.js:643-653 | Installing a run keeps its routes as planned. In a planned run each installed route is its planned route with the path resolved on its own, so it keeps its id, waypoints, centre and point count, its centre stays in the polygon, and it has a path. |
| Dashboard.PlannedPathsFollowRouter | script.js:660-706 | After a successful run, every route's path follows the router's answer to that route's own waypoints. A usable "Ok" answer gives its geometry flipped to `[lat, lng]`. Any other answer or a failure gives the straight closed fallback through the waypoints. |
| Grid.CeilSqrt | script.js:573 | `Math.ceil(Math.sqrt(n))` is positive for positive `n`. |
| Grid.CeilSqrtIsLeast | script.js:573 | `Math.ceil(Math.sqrt(n))` is the least `c` with `c * c >= n`. |
| Grid.CeilSqrtFromIsLeast | script.js:573 | Counting up from below the root stops at the least `c` with `c * c >= n`. |
| Grid.CeilDivIsLeast | script.js:574 | `ceil(n / d)` is the least `q` with `q * d >= n`. |
| Grid.GridCoversSlots | script.js:573-586 | For `n > 0` slots, both sides are positive and `rows * cols >= n`. No row is wasted: the last slot lies in the last row. The grid is never taller than it is wide. Every slot's row `i / cols` and column `i % cols` are in range. |
| Grid.SlotInGrid | script.js:584-586 | Slot `i < n` has row `i / cols < rows` and column `i % cols < cols`. |
| Ranking.SortByIntensity | script.js:606 | The sort returns a permutation of its input, ordered by non-increasing intensity. |
| Ranking.InsertKeepsSorted | script.js:606 | Inserting one point into a sorted sequence keeps it sorted. |
| Ranking.SortIsStable | script.js:606 | For every intensity, the points with that intensity come out in their input order, as `Array.prototype.sort` guarantees. |
| Ranking.TopFive | script.js:605-607 | It takes `min(5, k)` points, sorted, drawn from the input as a sub-multiset. No point left out is more intense than a point taken. |
| Ranking.TopFiveTakesFirstTies | script.js:606-607 | Among equally intense points the earliest are taken, in input order: for every intensity, the points taken are a prefix of the input's points of that intensity, as a stable sort followed by `slice(0, 5)` gives. |
| Ranking.PrefixIsMostIntense | script.js:607 | A prefix of a sorted sequence is at least as intense as everything after it. |
| Partition.RestrictToPolygon | script.js:555-559 | With a polygon, the output keeps exactly the points inside it, in order and with their multiplicity. Without one, the points are unchanged. |
| Partition.LayoutFor | script.js:566-580 | The grid is built for `count` slots over the points' box, and its equal cells tile that box exactly. |
| Partition.LayoutCoversPoints | script.js:566-570 | The box is the tightest around the points: every point lies in it, and some point reaches each of its four edges. |
| Partition.CentreInsideBox | script.js:584-590 | Every slot's centre lies within the points' bounding box. |
| Partition.SlotWaypoints | script.js:593-631 | A slot that yields a route yields one to five waypoints. With a polygon, its centre and every waypoint lie inside that polygon. |
| Partition.SlotSkippedExactlyOutside | script.js:593-631 | Once the points are restricted to the polygon, a slot is skipped exactly when its centre lies outside the polygon. The later skips at lines 619-621 and 630 never fire. |
| Partition.SlotTakesTopFive | script.js:598-607 | A cell holding points yields its at most five most intense points in the closed half-cell box, most intense first. The polygon re-check leaves them unchanged. |
| Partition.DefaultTriangle | script.js:613-618 | Three points at intensity 0.3: the centre, one offset due north along the centre's meridian, one offset due east along its parallel, by the same distance. |
| Partition.DefaultTriangleInCell | script.js:613-618 | On a grid with non-negative cell sizes, the three default points lie within half a cell of the centre, so inside the cell. On a cell of positive size they are three distinct points. |
| Partition.DefaultTriangleOffset | script.js:613-618 | The north and east offsets of the default triangle are equal, and both are three tenths of the cell's shorter side. |
| Partition.CellWindowIsCell | script.js:585-603 | A point is within half a cell of slot `i`'s centre exactly when it lies in the closed cell of row `i / cols` and column `i % cols`. |
| Partition.SlotDefaultRoute | script.js:609-618 | An empty admitted cell yields the three-point default triangle at the centre, whose offset `Partition.DefaultTriangleOffset` states as `0.3 * min(cellLat, cellLng)`, every point at intensity 0.3, re-checked against the polygon. Its first point, the centre, always stays. |
| Partition.Slots | script.js:584-631 | Each of the `count` slots yields what `SlotWaypoints` says for it. Every yielded list has one to five waypoints, inside the polygon when there is one. |
| Partition.YieldingSlots | script.js:584-641 | Lists, in increasing order, exactly the slots below `k` that yield waypoints, one entry per yielding slot. |
| Partition.Emitted | script.js:633-640 | The loop emits one route per yielding slot, in slot order. Route `j` comes from the `j`-th yielding slot: its id is `j + 1`, its waypoints and `pointCount` are that slot's, its centre is that slot's cell centre, and its path is not yet set. |
| Partition.EmittedWellFormed | script.js:633-640 | Routes built from slots of one to five waypoints, inside the polygon when there is one, have ids 1..m, one to five waypoints counted in `pointCount`, no path, and their centres and waypoints inside the polygon. |
| Partition.PlannedRoutesFollowSlots | script.js:584-646 | Once some filtered points remain inside the region, the run either plans or reports "no routes", and it reports "no routes" exactly when no slot of the grid over those points yields waypoints. In a planned run, route `j` carries the waypoints that the `j`-th yielding slot picks, their count, and that slot's cell centre. |
| Partition.EmittedCountsInsideSlots | script.js:584-641 | Over points restricted to the polygon, the number of routes is the number of slots whose centre lies in the polygon. Without a polygon, it is the number of slots. |
| Partition.PlanRoutes | script.js:514-646 | "No data" happens exactly for an empty filtered set and keeps the old routes. "No points in region" needs a polygon, and it and "no routes" leave none. A planned run holds 1..count well-formed routes. |
| Partition.NoPointsInRegionExactly | script.js:555-564 | The run reports "no points in region" exactly when some points are filtered, a polygon is active, and none of them lies inside it. |
| Partition.NothingInsideExactly | script.js:555-564 | Restricting the filtered points to the polygon leaves none exactly when no point lies inside it. |
| Partition.OpenAreaFillsEverySlot | script.js:584-641 | Without a region polygon, any non-empty data gives exactly `count` routes. |
| Partition.RectangleFillsEverySlot | script.js:555-641 | In a rectangular region, as every district is, one point inside suffices for exactly `count` routes, because the grid box lies within the region. |
| Paths.CloseLoop | script.js:669-672 | More than one point gets the first appended; otherwise the list is unchanged. |
| Paths.FallbackPath | script.js:689-692 | The fallback is the waypoints as `[lat, lng]` points. With more than one waypoint, the first is repeated at the end, so the length is n+1 when n > 1 and n otherwise. |
| Paths.RequestCoordinates | script.js:666-672 | The request lists the waypoints as `lng,lat` in order and is closed like the fallback. |
| Paths.Flip | script.js:686 | Each `[lng, lat]` coordinate becomes the `[lat, lng]` point with the same latitude and longitude, one for one and in order. |
| Paths.FlipRoundTrip | script.js:686 | The `[lng, lat]` to `[lat, lng]` flip and its reverse undo each other. |
| Paths.EchoedRequestIsFallback | script.js:666-692 | A router that echoes the requested coordinates produces exactly the fallback path. |
| Paths.ResolvePath | script.js:660-706 | A route without waypoints is left alone. Otherwise the route keeps its plan and gets a path: the flipped geometry when the reply is "Ok" with a route and coordinates, and the closed straight fallback for every other reply or a failure. |
| Paths.ResolvePaths | script.js:660-706 | Every route's path is resolved on its own, in order. |
| Paths.PathFollowsRouter | script.js:660-706 | A route with waypoints gets a path. It is the flipped geometry of a usable answer to the request for those waypoints, and otherwise their closed fallback. |
| Paths.ResolvedRoutesKeepPlan | script.js:660-706 | Resolving paths keeps ids and waypoints and gives every planned route a path. A route of more than one waypoint whose request fails gets a closed path one point longer than its waypoint list. |
| Paths.FailingRouterFallsBack | script.js:701-706 | With a router that always fails, every planned route gets its straight closed fallback. |

## Left out

- Leaflet rendering is left out: the map, tiles, heat layer, region polygons, markers, `visualizeRoutes`, `displayRouteInfo` and `updateStatistics`. These are foreign library calls and DOM output, and the distance figure they show is display only.
- The widget calls of `lockMapToRegion` and `unlockMap` are left out. Only the `(isMapLocked, selectedRegion)` pair they leave is modelled.
- `generateForecastedCrimeData` is left out, because it depends on `Math.random`. The points are an input of the model.
- `jalaliToGregorian` and `gregorianToJalali` are left out, because they depend on an external calendar library and local-time `Date` behaviour. A picked day is given as its start and end in milliseconds, or as "unparsable". A point's hour of day is given with the point.
- The OSRM request is left out: the URL string, `fetch`, JSON decoding, `async` sequencing and `try`/`catch`. The router is a function parameter returning a failure or a decoded answer. The requested coordinates are modelled as a list, not as the `;`-joined string.
- IEEE-754 doubles are modelled as exact reals. `Math.ceil(Math.sqrt(n))` is the least `c` with `c * c >= n`. Results on cell boundaries may differ from doubles.
- Region display names are left out, as are the `bounds` check in `lockMapToRegion` (every table entry has bounds) and object-key lookups that reach inherited properties. An unknown key is `undefined`.
- `routeBounds` (script.js:526-545) is left out, because it is computed but never used. The grid box comes from the restricted points, as in the code.
- The alerts and the `.then` that draws the routes are left out. The outcome of a run is returned as a value instead.
- Filters.FilterPoints: reads the clock once, as `now`, for the whole filter. script.js:377-379 builds a fresh `new Date()` for every point, so a point whose forecast time passes during the filter can be judged against a later clock. `Filters.OpenFiltersKeepFuture` and `Dashboard.ApplyAfterReset` rely on the single reading.
- Dashboard.CalculatePatrolRoutes: states only the session fields and the "no data" case itself. Its failure, path and region properties are in `Dashboard.FailedPlanningClearsRoutes`, `Dashboard.PlannedRoutesHavePaths`, `Dashboard.PlannedPathsFollowRouter` and `Dashboard.PlannedRoutesInRegion`.
