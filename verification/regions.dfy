/**
 * The municipal region table (`tehranRegions`, script.js:13-59): the "all"
 * pseudo-region and five districts, each an axis-aligned rectangle stored as a
 * closed five-vertex ring. Display names are left out.
 */
module Regions {
  import opened Wrappers
  import opened Geometry

  /** `bounds: [[south, west], [north, east]]`. */
  datatype Box = Box(sw: LatLng, ne: LatLng)

  datatype Region = Region(bounds: Box, polygon: Option<Ring>, center: Option<LatLng>)

  /** Half-open membership in a box: south and west edges in, north and east edges out. */
  predicate InBox(p: LatLng, b: Box)
  {
    b.sw.lat <= p.lat < b.ne.lat && b.sw.lng <= p.lng < b.ne.lng
  }

  const AllRegions: Region :=
    Region(Box(LatLng(35.55, 51.20), LatLng(35.85, 51.65)), None, None)

  const Downtown: Region :=
    Region(Box(LatLng(35.67, 51.35), LatLng(35.71, 51.43)),
           Some([LatLng(35.67, 51.35), LatLng(35.71, 51.35), LatLng(35.71, 51.43),
                 LatLng(35.67, 51.43), LatLng(35.67, 51.35)]),
           Some(LatLng(35.6892, 51.3890)))

  const North: Region :=
    Region(Box(LatLng(35.78, 51.38), LatLng(35.85, 51.50)),
           Some([LatLng(35.78, 51.38), LatLng(35.85, 51.38), LatLng(35.85, 51.50),
                 LatLng(35.78, 51.50), LatLng(35.78, 51.38)]),
           Some(LatLng(35.8150, 51.4400)))

  const South: Region :=
    Region(Box(LatLng(35.55, 51.30), LatLng(35.62, 51.45)),
           Some([LatLng(35.55, 51.30), LatLng(35.62, 51.30), LatLng(35.62, 51.45),
                 LatLng(35.55, 51.45), LatLng(35.55, 51.30)]),
           Some(LatLng(35.5850, 51.3750)))

  const East: Region :=
    Region(Box(LatLng(35.70, 51.45), LatLng(35.78, 51.55)),
           Some([LatLng(35.70, 51.45), LatLng(35.78, 51.45), LatLng(35.78, 51.55),
                 LatLng(35.70, 51.55), LatLng(35.70, 51.45)]),
           Some(LatLng(35.7400, 51.5000)))

  const West: Region :=
    Region(Box(LatLng(35.65, 51.20), LatLng(35.72, 51.32)),
           Some([LatLng(35.65, 51.20), LatLng(35.72, 51.20), LatLng(35.72, 51.32),
                 LatLng(35.65, 51.32), LatLng(35.65, 51.20)]),
           Some(LatLng(35.6850, 51.2600)))

  /** `tehranRegions[key]`; an unknown key is `undefined`. */
  function Lookup(key: string): Option<Region>
  {
    if key == "all" then Some(AllRegions)
    else if key == "downtown" then Some(Downtown)
    else if key == "north" then Some(North)
    else if key == "south" then Some(South)
    else if key == "east" then Some(East)
    else if key == "west" then Some(West)
    else None
  }

  /** The five districts; every other key has no polygon. */
  predicate IsDistrict(key: string)
  {
    key in {"downtown", "north", "south", "east", "west"}
  }

  /**
   * Every region polygon in the table is the closed rectangle ring of that
   * region's bounds, so the ray-casting test on it is exactly half-open
   * membership in the bounds; and the polygon's label position lies inside it.
   */
  lemma DistrictPolygonIsBounds(key: string, p: LatLng)
    requires Lookup(key).Some? && Lookup(key).value.polygon.Some?
    ensures IsDistrict(key)
    ensures var r := Lookup(key).value;
            && r.polygon.value == RectRing(r.bounds.sw, r.bounds.ne)
            && (InPolygon(p, r.polygon.value) <==> InBox(p, r.bounds))
            && r.center.Some? && InPolygon(r.center.value, r.polygon.value)
  {
    var r := Lookup(key).value;
    RectangleMembership(p, r.bounds.sw, r.bounds.ne);
    RectangleMembership(r.center.value, r.bounds.sw, r.bounds.ne);
  }

  /** Exactly the five districts carry a polygon; "all" and unknown keys do not. */
  lemma PolygonExactlyForDistricts(key: string)
    ensures (Lookup(key).Some? && Lookup(key).value.polygon.Some?) <==> IsDistrict(key)
  {
  }
}
