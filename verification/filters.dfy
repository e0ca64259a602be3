/**
 * The risk-point filter of `applyFilters` (script.js:331-422): the callback
 * given to `crimeData.filter` (script.js:346-419) and the region selection and
 * map-lock state it sets first (script.js:337-344, 424-490).
 *
 * Forecast times are integer milliseconds; the local hour of a point's
 * forecast time (`getHours()`) is carried by the point, since the time zone is
 * outside the model. The calendar conversion of the picked date is outside the
 * model too: a parsed date arrives as the millisecond bounds of its day.
 */
module Filters {
  import opened Wrappers
  import opened Seqs
  import opened Geometry
  import opened Regions

  datatype RiskPoint = RiskPoint(
    lat: real,
    lng: real,
    intensity: real,
    district: string,
    forecastTime: int,  // milliseconds since the epoch
    hour: int,          // local hour of forecastTime, 0..23
    riskType: string,
    probability: int)

  function Position(c: RiskPoint): LatLng
  {
    LatLng(c.lat, c.lng)
  }

  /** The region selector; the sentinel value "all" is `AllPlaces`. */
  datatype PlaceFilter = AllPlaces | Place(key: string)

  /**
   * The date picker: empty, a value the calendar conversion rejects
   * (`jalaliToGregorian` returns null), or a day given by its first and last
   * millisecond (00:00:00.000 and 23:59:59.999).
   */
  datatype DateFilter = NoDate | UnparsedDate | OnDay(startOfDay: int, endOfDay: int)

  /** The time-of-day selector; any value the `switch` does not list is `OtherBand`. */
  datatype Band = AllBands | Morning | Afternoon | Evening | Night | OtherBand

  /** The crime-type selector; the sentinel value "all" is `AllCategories`. */
  datatype CategoryFilter = AllCategories | Category(name: string)

  datatype Criteria = Criteria(place: PlaceFilter, date: DateFilter, band: Band, category: CategoryFilter)

  /** The region selector's value: "all" or a region key. */
  function ParsePlace(value: string): (p: PlaceFilter)
    ensures p.AllPlaces? <==> value == "all"
    ensures p.Place? ==> p.key == value
  {
    if value == "all" then AllPlaces else Place(value)
  }

  /** The option value that stands for a listed band. */
  function BandValue(b: Band): string
    requires b != OtherBand
  {
    match b
    case AllBands => "all"
    case Morning => "morning"
    case Afternoon => "afternoon"
    case Evening => "evening"
    case Night => "night"
  }

  /** The time-of-day selector's value; anything the `switch` does not list is `OtherBand`. */
  function ParseBand(value: string): (b: Band)
    ensures b != OtherBand ==> BandValue(b) == value
    ensures b == OtherBand <==> value !in ["all", "morning", "afternoon", "evening", "night"]
  {
    if value == "all" then AllBands
    else if value == "morning" then Morning
    else if value == "afternoon" then Afternoon
    else if value == "evening" then Evening
    else if value == "night" then Night
    else OtherBand
  }

  /** Every listed band is read back from its own option value. */
  lemma BandValueRoundTrip(b: Band)
    requires b != OtherBand
    ensures ParseBand(BandValue(b)) == b
  {
  }

  /** The crime-type selector's value: "all" or a crime type. */
  function ParseCategory(value: string): (c: CategoryFilter)
    ensures c.AllCategories? <==> value == "all"
    ensures c.Category? ==> c.name == value
  {
    if value == "all" then AllCategories else Category(value)
  }

  /**
   * The four form values `applyFilters` reads (script.js:332-335); the date
   * arrives already converted, as the calendar conversion is not modelled.
   */
  function ReadForm(place: string, date: DateFilter, band: string, category: string): (crit: Criteria)
    ensures crit.place.AllPlaces? <==> place == "all"
    ensures crit.category.AllCategories? <==> category == "all"
    ensures crit.band.AllBands? <==> band == "all"
    ensures crit.band.OtherBand? <==> band !in ["all", "morning", "afternoon", "evening", "night"]
    ensures crit.place.Place? ==> crit.place.key == place
    ensures crit.category.Category? ==> crit.category.name == category
    ensures crit.band != OtherBand ==> BandValue(crit.band) == band
    ensures crit.date == date
  {
    Criteria(ParsePlace(place), date, ParseBand(band), ParseCategory(category))
  }

  /** 12 hours in milliseconds: the slack added on each side of the picked day. */
  const Buffer: int := 12 * 60 * 60 * 1000

  /** Region check: the district tag, then the polygon re-check when the region has one. */
  predicate PlaceOk(c: RiskPoint, place: PlaceFilter, polygon: Option<Ring>)
  {
    match place
    case AllPlaces => true
    case Place(key) =>
      c.district == key && (polygon.None? || InPolygon(Position(c), polygon.value))
  }

  /** Date check; with no date picked only future forecasts pass. */
  predicate TimeOk(t: int, date: DateFilter, now: int)
  {
    match date
    case NoDate => t >= now
    case UnparsedDate => true
    case OnDay(startOfDay, endOfDay) => startOfDay - Buffer <= t <= endOfDay + Buffer
  }

  predicate CategoryOk(c: RiskPoint, category: CategoryFilter)
  {
    match category
    case AllCategories => true
    case Category(name) => c.riskType == name
  }

  /** The widened time-of-day bands of the `switch`; an unlisted band accepts nothing. */
  predicate BandAccepts(band: Band, hour: int)
  {
    match band
    case AllBands => true
    case Morning => 4 <= hour < 14
    case Afternoon => 10 <= hour < 20
    case Evening => hour >= 16 || hour < 2
    case Night => hour >= 22 || hour < 8
    case OtherBand => false
  }

  /** The filter callback: region, then date, then category, then time of day. */
  predicate Keep(c: RiskPoint, crit: Criteria, now: int, polygon: Option<Ring>)
  {
    && PlaceOk(c, crit.place, polygon)
    && TimeOk(c.forecastTime, crit.date, now)
    && CategoryOk(c, crit.category)
    && BandAccepts(crit.band, c.hour)
  }

  /** The polygon the callback re-checks: that of the selected region, if it has one. */
  function FilterPolygon(place: PlaceFilter): Option<Ring>
  {
    match place
    case AllPlaces => None
    case Place(key) =>
      if Lookup(key).Some? then Lookup(key).value.polygon else None
  }

  /** `crimeData.filter(callback)` for the given criteria, clock and region polygon. */
  function FilterPoints(points: seq<RiskPoint>, crit: Criteria, now: int, polygon: Option<Ring>): (r: seq<RiskPoint>)
    ensures IsSubsequence(r, points)
    ensures forall i :: 0 <= i < |points| && Keep(points[i], crit, now, polygon) ==> points[i] in r
    ensures forall c :: c in r ==> c in points && Keep(c, crit, now, polygon)
    ensures forall c :: c in points ==>
              multiset(r)[c] == (if Keep(c, crit, now, polygon) then multiset(points)[c] else 0)
    ensures crit.place.Place? ==> forall c :: c in r ==>
              c.district == crit.place.key && (polygon.Some? ==> InPolygon(Position(c), polygon.value))
    ensures crit.category.Category? ==> forall c :: c in r ==> c.riskType == crit.category.name
    ensures crit.date.OnDay? ==> forall c :: c in r ==>
              crit.date.startOfDay - 43_200_000 <= c.forecastTime <= crit.date.endOfDay + 43_200_000
    ensures crit.date.NoDate? ==> forall c :: c in r ==> c.forecastTime >= now
    ensures forall c :: c in r ==> BandAccepts(crit.band, c.hour)
  {
    Filter(c => Keep(c, crit, now, polygon), points)
  }

  /** Filtering an already filtered set with the same criteria changes nothing. */
  lemma FilterPointsIdempotent(points: seq<RiskPoint>, crit: Criteria, now: int, polygon: Option<Ring>)
    ensures FilterPoints(FilterPoints(points, crit, now, polygon), crit, now, polygon)
            == FilterPoints(points, crit, now, polygon)
  {
    FilterIdempotent(c => Keep(c, crit, now, polygon), points);
  }

  /**
   * The region filter against the data: selecting a district no point is
   * tagged with yields nothing, and with the other three filters open, a
   * district whose points all lie inside its polygon keeps every point.
   */
  lemma FilterByDistrict(points: seq<RiskPoint>, key: string, now: int, polygon: Option<Ring>)
    ensures (forall c :: c in points ==> c.district != key) ==>
              FilterPoints(points, Criteria(Place(key), UnparsedDate, AllBands, AllCategories), now, polygon) == []
    ensures (forall c :: c in points ==>
               c.district == key && (polygon.Some? ==> InPolygon(Position(c), polygon.value))) ==>
              FilterPoints(points, Criteria(Place(key), UnparsedDate, AllBands, AllCategories), now, polygon) == points
  {
    var crit := Criteria(Place(key), UnparsedDate, AllBands, AllCategories);
    FilterKeepsNone(c => Keep(c, crit, now, polygon), points);
    FilterKeepsAll(c => Keep(c, crit, now, polygon), points);
  }

  /** With every filter open and no date picked, exactly the future forecasts remain. */
  lemma OpenFiltersKeepFuture(points: seq<RiskPoint>, now: int)
    ensures var r := FilterPoints(points, Criteria(AllPlaces, NoDate, AllBands, AllCategories), now, None);
            r == points <==> forall c :: c in points ==> c.forecastTime >= now
  {
    var crit := Criteria(AllPlaces, NoDate, AllBands, AllCategories);
    if forall c :: c in points ==> c.forecastTime >= now {
      assert forall c :: c in points ==> Keep(c, crit, now, None);
      FilterKeepsAll(c => Keep(c, crit, now, None), points);
    }
  }

  /** Where each band's nominal six-hour window starts (morning 6-12, ..., night 0-6). */
  function NominalStart(band: Band): int
    requires band in {Morning, Afternoon, Evening, Night}
  {
    match band
    case Morning => 6
    case Afternoon => 12
    case Evening => 18
    case Night => 0
  }

  /**
   * Each listed band accepts its nominal six-hour window widened by two hours
   * on each side, wrapping around midnight: ten hours in all.
   */
  lemma BandIsWidenedWindow(band: Band, hour: int)
    requires band in {Morning, Afternoon, Evening, Night}
    requires 0 <= hour < 24
    ensures BandAccepts(band, hour) <==> (hour - NominalStart(band) + 2) % 24 < 10
  {
  }

  /** "all" accepts every hour; an unlisted band accepts none; every hour lies in some listed band. */
  lemma BandCoverage(hour: int)
    requires 0 <= hour < 24
    ensures BandAccepts(AllBands, hour) && !BandAccepts(OtherBand, hour)
    ensures BandAccepts(Morning, hour) || BandAccepts(Afternoon, hour)
            || BandAccepts(Evening, hour) || BandAccepts(Night, hour)
  {
  }

  /** The map-lock state that `applyFilters` leaves behind, with the region it selected. */
  datatype LockState = LockState(locked: bool, selected: Option<Region>)

  /**
   * Region selection: "all" unlocks and clears the selection; a known key
   * selects and locks to that region; an unknown key clears the selection
   * and `lockMapToRegion` returns early, leaving the lock as it was.
   */
  function SelectRegion(prev: LockState, place: PlaceFilter): (r: LockState)
    ensures place.AllPlaces? ==> r == LockState(false, None)
    ensures place.Place? ==> (r.locked <==> Lookup(place.key).Some? || prev.locked)
    ensures place.Place? ==> r.selected == Lookup(place.key)
  {
    match place
    case AllPlaces => LockState(false, None)
    case Place(key) =>
      match Lookup(key)
      case None => LockState(prev.locked, None)
      case Some(region) => LockState(true, Some(region))
  }
}
