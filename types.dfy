/** The two zoom scales of the calendar, temporal and spatial, and the fixed
    tables that couple them to each other, to the calendar views and to the
    map's zoom levels. */
module Types {
  import opened Wrappers

  // ---------------------------------------------------------------------------
  // Temporal granularity: ordinals 0..9, finest first

  datatype Temporal = Moment | Hour | Day | Week | Month | Season | Year | Decade | Century | Cosmic

  function TemporalOrdinal(t: Temporal): (n: nat)
    ensures n < 10
  {
    match t
    case Moment => 0
    case Hour => 1
    case Day => 2
    case Week => 3
    case Month => 4
    case Season => 5
    case Year => 6
    case Decade => 7
    case Century => 8
    case Cosmic => 9
  }

  /** The level with ordinal `n` (a numeric enum value read back). */
  function TemporalOf(n: nat): (t: Temporal)
    requires n < 10
    ensures TemporalOrdinal(t) == n
  {
    [Moment, Hour, Day, Week, Month, Season, Year, Decade, Century, Cosmic][n]
  }

  /** Ordinals number the ten levels one to one. */
  lemma TemporalOrdinalBijective(a: Temporal, b: Temporal)
    ensures TemporalOf(TemporalOrdinal(a)) == a
    ensures TemporalOrdinal(a) == TemporalOrdinal(b) <==> a == b
  {
  }

  // ---------------------------------------------------------------------------
  // Spatial granularity: ordinals 0..8, coarsest first

  datatype Spatial = Planet | Continent | Bioregion | Country | Region | City | Neighborhood | Address | Coordinates

  function SpatialOrdinal(s: Spatial): (n: nat)
    ensures n < 9
  {
    match s
    case Planet => 0
    case Continent => 1
    case Bioregion => 2
    case Country => 3
    case Region => 4
    case City => 5
    case Neighborhood => 6
    case Address => 7
    case Coordinates => 8
  }

  function SpatialOf(n: nat): (s: Spatial)
    requires n < 9
    ensures SpatialOrdinal(s) == n
  {
    [Planet, Continent, Bioregion, Country, Region, City, Neighborhood, Address, Coordinates][n]
  }

  lemma SpatialOrdinalBijective(a: Spatial, b: Spatial)
    ensures SpatialOf(SpatialOrdinal(a)) == a
    ensures SpatialOrdinal(a) == SpatialOrdinal(b) <==> a == b
  {
  }

  // ---------------------------------------------------------------------------
  // Views

  /** The calendar's view types: 'month', 'week', 'day', 'year', 'timeline'. */
  datatype ViewType = MonthGrid | WeekGrid | DayGrid | YearGrid | Timeline

  /** TEMPORAL_TO_VIEW, a partial table: only five levels have a view of their own. */
  function TemporalToView(t: Temporal): (v: Option<ViewType>)
    ensures v.Some? <==> t in {Day, Week, Month, Year, Decade}
  {
    match t
    case Day => Some(DayGrid)
    case Week => Some(WeekGrid)
    case Month => Some(MonthGrid)
    case Year => Some(YearGrid)
    case Decade => Some(Timeline)
    case _ => None
  }

  /** No two levels share a view. */
  lemma TemporalToViewInjective(a: Temporal, b: Temporal)
    requires TemporalToView(a).Some? && TemporalToView(a) == TemporalToView(b)
    ensures a == b
  {
  }

  // ---------------------------------------------------------------------------
  // Temporal to spatial coupling

  /** TEMPORAL_TO_SPATIAL: the map scale that goes with a time scale. Only
      six of the nine map levels are used: the coupling never lands on
      BIOREGION, REGION or NEIGHBORHOOD. */
  function TemporalToSpatial(t: Temporal): (s: Spatial)
    ensures s != Bioregion && s != Region && s != Neighborhood
    ensures s == Country <==> t == Month || t == Season
  {
    match t
    case Moment => Coordinates
    case Hour => Address
    case Day => Address
    case Week => City
    case Month => Country
    case Season => Country
    case Year => Continent
    case Decade => Continent
    case Century => Planet
    case Cosmic => Planet
  }

  /** Zooming out in time never zooms in on the map: the table is antitone. */
  lemma TemporalToSpatialAntitone(a: Temporal, b: Temporal)
    requires TemporalOrdinal(a) <= TemporalOrdinal(b)
    ensures SpatialOrdinal(TemporalToSpatial(b)) <= SpatialOrdinal(TemporalToSpatial(a))
  {
  }

  /** The month view goes with country-level maps (the fallback of the selector). */
  lemma MonthIsCountry()
    ensures TemporalToSpatial(Month) == Country
  {
  }

  // ---------------------------------------------------------------------------
  // Map zoom

  /** SPATIAL_TO_LEAFLET_ZOOM: the map zoom that shows a spatial level. */
  function SpatialToLeafletZoom(s: Spatial): (z: int)
    ensures 2 <= z <= 18
  {
    match s
    case Planet => 2
    case Continent => 4
    case Bioregion => 5
    case Country => 6
    case Region => 8
    case City => 11
    case Neighborhood => 14
    case Address => 16
    case Coordinates => 18
  }

  /** The zoom grows strictly with the spatial ordinal. */
  lemma LeafletZoomStrictlyIncreasing(a: Spatial, b: Spatial)
    requires SpatialOrdinal(a) < SpatialOrdinal(b)
    ensures SpatialToLeafletZoom(a) < SpatialToLeafletZoom(b)
  {
  }

  /** leafletZoomToSpatial: the spatial level a (possibly fractional) map zoom
      shows, by thresholds 2, 4, 5, 7, 9, 12, 15, 17. */
  function LeafletZoomToSpatial(zoom: real): (s: Spatial)
    ensures zoom <= 2.0 ==> s == Planet
    ensures zoom > 17.0 ==> s == Coordinates
  {
    if zoom <= 2.0 then Planet
    else if zoom <= 4.0 then Continent
    else if zoom <= 5.0 then Bioregion
    else if zoom <= 7.0 then Country
    else if zoom <= 9.0 then Region
    else if zoom <= 12.0 then City
    else if zoom <= 15.0 then Neighborhood
    else if zoom <= 17.0 then Address
    else Coordinates
  }

  /** Zooming the map in never gives a coarser spatial level. */
  lemma LeafletZoomToSpatialMonotone(z1: real, z2: real)
    requires z1 <= z2
    ensures SpatialOrdinal(LeafletZoomToSpatial(z1)) <= SpatialOrdinal(LeafletZoomToSpatial(z2))
  {
  }

  /** Each level's own zoom maps back to that level. */
  lemma LeafletZoomRoundTrip(s: Spatial)
    ensures LeafletZoomToSpatial(SpatialToLeafletZoom(s) as real) == s
  {
  }
}
