/** The semantic location label of an event at a spatial zoom level, read off
    the event's breadcrumb (`"Earth > Europe > Germany > Berlin > Mitte"`) with
    fallbacks to its display and raw locations, and the grouping of events by
    that label. */
module Location {
  import opened Wrappers
  import opened Text
  import opened Types
  import opened Events
  import opened Grouping

  const CrumbSeparator := " > "

  /** `crumbs[i]`, where a missing index reads as `undefined` (falsy, like `""`). */
  function Crumb(crumbs: seq<string>, i: nat): (c: string)
    ensures c == "" || c in crumbs
  {
    if i < |crumbs| then crumbs[i] else ""
  }

  /** `crumbs.slice(-2)`: the last two crumbs, or all of them when fewer. */
  function LastTwo(crumbs: seq<string>): (r: seq<string>)
    ensures |r| == if |crumbs| < 2 then |crumbs| else 2
    ensures r == crumbs[|crumbs| - |r|..]
  {
    if |crumbs| < 2 then crumbs else crumbs[|crumbs| - 2..]
  }

  /** `location_breadcrumb?.split(' > ') || []`. */
  function Crumbs(e: Event): (crumbs: seq<string>)
    ensures e.locationBreadcrumb.None? <==> crumbs == []
  {
    match e.locationBreadcrumb
    case None => []
    case Some(b) => Split(b, CrumbSeparator)
  }

  /** Where a label comes from: a location field of the event, a crumb of its
      breadcrumb or the last two joined, or one of the fixed fallbacks. */
  predicate FromEvent(e: Event, text: string) {
    text == e.locationRaw || e.locationDisplay == Some(text) || text == e.virtualPlatform ||
    text == "" || text == "Virtual" || text == "Earth" ||
    text in Crumbs(e) || text == Join(LastTwo(Crumbs(e)), ", ")
  }

  /** getSemanticLocationLabel: the best location text for `e` at level `s`,
      always taken from the event or one of the fixed fallbacks. */
  function Label(e: Event, s: Spatial): (text: string)
    ensures FromEvent(e, text)
  {
    match e.locationDisplay
    case None => Or(e.locationRaw, "")
    case Some(display) =>
      var raw := e.locationRaw;
      if raw == "" && display == "" then
        (if e.isVirtual then Or(e.virtualPlatform, "Virtual") else "")
      else
        var crumbs := Crumbs(e);
        if |crumbs| == 0 then Or(display, Or(raw, ""))
        else
          match s
          case Planet => Or(Crumb(crumbs, 0), "Earth")
          case Continent => Or(Crumb(crumbs, 1), Or(Crumb(crumbs, 0), Or(display, "")))
          case Bioregion => Or(Crumb(crumbs, 2), Or(Crumb(crumbs, 1), Or(display, "")))
          case Country => Or(Crumb(crumbs, 2), Or(Crumb(crumbs, 1), Or(display, "")))
          case Region => Or(Crumb(crumbs, 3), Or(Crumb(crumbs, 2), Or(display, "")))
          case City => Or(Crumb(crumbs, 3), Or(Crumb(crumbs, 2), Or(display, raw)))
          case Neighborhood => Or(Join(LastTwo(crumbs), ", "), Or(display, raw))
          case Address => Or(raw, Or(display, ""))
          case Coordinates => Or(raw, Or(display, ""))
  }

  // ---------------------------------------------------------------------------
  // Properties of the label

  /** A list item without a `location_display` field is labelled by its raw
      location at every level. */
  lemma LabelWithoutDisplayField(e: Event, s: Spatial)
    requires e.locationDisplay.None?
    ensures Label(e, s) == e.locationRaw
  {
  }

  /** With neither a raw nor a display location, a virtual event is labelled by
      its platform (or "Virtual") and any other event gets the empty label. */
  lemma LabelWithoutLocation(e: Event, s: Spatial)
    requires e.locationDisplay == Some("") && e.locationRaw == ""
    ensures e.isVirtual ==> Label(e, s) == (if e.virtualPlatform != "" then e.virtualPlatform else "Virtual")
    ensures !e.isVirtual ==> Label(e, s) == ""
  {
  }

  /** Without a breadcrumb the label ignores the level: the display location,
      else the raw one. */
  lemma LabelWithoutBreadcrumb(e: Event, s: Spatial, display: string)
    requires e.locationDisplay == Some(display) && e.locationBreadcrumb.None?
    requires e.locationRaw != "" || display != ""
    ensures Label(e, s) == if display != "" then display else e.locationRaw
  {
  }

  /** An empty breadcrumb still splits into one (empty) crumb, so it reaches
      the level switch: at planet level it reads "Earth". */
  lemma EmptyBreadcrumbReachesSwitch(e: Event, display: string)
    requires e.locationDisplay == Some(display) && e.locationBreadcrumb == Some("")
    requires e.locationRaw != "" || display != ""
    ensures Crumbs(e) == [""]
    ensures Label(e, Planet) == "Earth"
  {
    assert !OccursAt("", CrumbSeparator, 0);
  }

  /** With a breadcrumb, the planet label is never empty, and the bioregion and
      country labels always agree. */
  lemma PlanetAndCountryLabels(e: Event, display: string)
    requires e.locationDisplay == Some(display) && e.locationBreadcrumb.Some?
    requires e.locationRaw != "" || display != ""
    ensures Label(e, Planet) != ""
    ensures Label(e, Planet) == Crumb(Crumbs(e), 0) || Label(e, Planet) == "Earth"
    ensures Label(e, Bioregion) == Label(e, Country)
  {
  }

  /** At address and coordinate level a non-empty raw location wins over the
      display location, once a breadcrumb is present. */
  lemma AddressPrefersRaw(e: Event, display: string)
    requires e.locationDisplay == Some(display) && e.locationBreadcrumb.Some?
    requires e.locationRaw != ""
    ensures Label(e, Address) == e.locationRaw && Label(e, Coordinates) == e.locationRaw
  {
  }

  /** At neighborhood level, with two or more crumbs, the label is the last two
      joined by ", " (never empty, so the fallbacks are not reached). */
  lemma NeighborhoodJoinsLastTwo(e: Event, display: string, b: string)
    requires e.locationDisplay == Some(display) && e.locationBreadcrumb == Some(b)
    requires e.locationRaw != "" || display != ""
    requires |Split(b, CrumbSeparator)| >= 2
    ensures var crumbs := Split(b, CrumbSeparator);
            var pair := crumbs[|crumbs| - 2] + ", " + crumbs[|crumbs| - 1];
            Label(e, Neighborhood) == pair
  {
    var crumbs := Split(b, CrumbSeparator);
    var last := LastTwo(crumbs);
    assert last == [crumbs[|crumbs| - 2], crumbs[|crumbs| - 1]];
    assert last[1..] == [crumbs[|crumbs| - 1]];
    assert Join(last, ", ") == crumbs[|crumbs| - 2] + ", " + crumbs[|crumbs| - 1];
  }

  // ---------------------------------------------------------------------------
  // groupEventsByLocation

  /** The grouping key of an event: its label, or none when the label is empty. */
  function LocationKey(s: Spatial): (key: Event -> Option<string>)
    ensures forall e :: key(e).Some? <==> Label(e, s) != ""
    ensures forall e :: key(e).Some? ==> key(e).value == Label(e, s)
  {
    e => if Label(e, s) == "" then None else Some(Label(e, s))
  }

  /** groupEventsByLocation: the events with a non-empty label at level `s`,
      grouped by label, each group in input order. */
  method GroupEventsByLocation(events: seq<Event>, s: Spatial) returns (grouped: Grouped<Event>)
    ensures GroupedBy(grouped, events, LocationKey(s))
    ensures Size(grouped) == |Kept(events, LocationKey(s))|
    ensures "" !in grouped.items
  {
    var key := LocationKey(s);
    grouped := Empty();
    for i := 0 to |events|
      invariant GroupedBy(grouped, events[..i], key)
      invariant Size(grouped) == |Kept(events[..i], key)|
    {
      var event := events[i];
      PrefixStep(events, i);
      var text := Label(event, s);
      if text == "" {
        StepSkip(grouped, events[..i], key, event);
        continue;
      }
      var existing := if text in grouped.items then grouped.items[text] else [];
      StepPush(grouped, events[..i], key, event, text);
      existing := existing + [event];
      grouped := Set(grouped, text, existing);
    }
    assert events[..|events|] == events;
    if "" in grouped.items {
      OnlyOccurringKeys(grouped, events, key, "");
    }
  }
}
