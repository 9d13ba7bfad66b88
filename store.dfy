/** The calendar's navigation state (the persisted zustand store of
    src/lib/store.ts): the temporal zoom level, the spatial level and whether
    the two are coupled, the view, the current date and the hidden sources,
    with the actions that change them. */
module Store {
  import opened Wrappers
  import opened Types
  import opened Civil

  // ---------------------------------------------------------------------------
  // Zoom levels

  /** The level `zoomIn` moves to: `Math.max(DAY, g - 1)`. */
  function ZoomInLevel(g: Temporal): (r: Temporal)
    ensures TemporalOrdinal(r) >= TemporalOrdinal(Day)
    ensures TemporalOrdinal(g) > TemporalOrdinal(Day) ==> TemporalOrdinal(r) == TemporalOrdinal(g) - 1
    ensures TemporalOrdinal(g) <= TemporalOrdinal(Day) ==> r == Day
  {
    var n := TemporalOrdinal(g) - 1;
    TemporalOf(if n < TemporalOrdinal(Day) then TemporalOrdinal(Day) else n)
  }

  /** The level `zoomOut` moves to: `Math.min(DECADE, g + 1)`. */
  function ZoomOutLevel(g: Temporal): (r: Temporal)
    ensures TemporalOrdinal(r) <= TemporalOrdinal(Decade)
    ensures TemporalOrdinal(g) < TemporalOrdinal(Decade) ==> TemporalOrdinal(r) == TemporalOrdinal(g) + 1
    ensures TemporalOrdinal(g) >= TemporalOrdinal(Decade) ==> r == Decade
  {
    var n := TemporalOrdinal(g) + 1;
    TemporalOf(if n > TemporalOrdinal(Decade) then TemporalOrdinal(Decade) else n)
  }

  /** Between DAY and DECADE, zooming out and back in (or in and back out)
      returns to the same level; at the clamps the level stays put. */
  lemma ZoomRoundTrip(g: Temporal)
    ensures TemporalOrdinal(Day) <= TemporalOrdinal(g) < TemporalOrdinal(Decade) ==> ZoomInLevel(ZoomOutLevel(g)) == g
    ensures TemporalOrdinal(Day) < TemporalOrdinal(g) <= TemporalOrdinal(Decade) ==> ZoomOutLevel(ZoomInLevel(g)) == g
    ensures ZoomInLevel(Day) == Day && ZoomOutLevel(Decade) == Decade
  {
    TemporalOrdinalBijective(ZoomInLevel(ZoomOutLevel(g)), g);
    TemporalOrdinalBijective(ZoomOutLevel(ZoomInLevel(g)), g);
  }

  /** Zooming in never reaches MOMENT or HOUR, and zooming out never reaches
      CENTURY or COSMIC. */
  lemma ZoomStaysInRange(g: Temporal)
    ensures ZoomInLevel(g) != Moment && ZoomInLevel(g) != Hour
    ensures ZoomOutLevel(g) != Century && ZoomOutLevel(g) != Cosmic
  {
  }

  /** The spatial level the map shows (useEffectiveSpatialGranularity): the
      coupled level, or else the manual one, falling back to the month's level. */
  function EffectiveSpatial(zoomCoupled: bool, temporal: Temporal, spatial: Option<Spatial>): (s: Spatial)
    ensures zoomCoupled ==> s == TemporalToSpatial(temporal)
    ensures !zoomCoupled && spatial.Some? ==> s == spatial.value
    ensures !zoomCoupled && spatial.None? ==> s == Country
  {
    if zoomCoupled then TemporalToSpatial(temporal) else spatial.GetOr(TemporalToSpatial(Month))
  }

  // ---------------------------------------------------------------------------
  // Navigation

  datatype Direction = Next | Prev

  /** +1 for 'next' and -1 for 'prev'. */
  function Delta(dir: Direction): int {
    if dir == Next then 1 else -1
  }

  /** The date navigateByGranularity moves to from `date` at level `g`. */
  function Navigate(g: Temporal, dir: Direction, date: Date): (r: Date)
    requires Valid(date)
    ensures Valid(r)
  {
    var delta := Delta(dir);
    match g
    case Day => AddDays(date, delta)
    case Week => AddDays(date, delta * 7)
    case Month => AddMonths(date, delta)
    case Season => AddMonths(date, delta * 3)
    case Year => AddYears(date, delta)
    case Decade => AddYears(date, delta * 10)
    case Century => AddYears(date, delta * 100)
    case _ => AddDays(date, delta)
  }

  /** The step, in days, of the levels that move by days (all but the month-
      and year-based ones). */
  function DayStep(g: Temporal): int {
    if g == Week then 7 else 1
  }

  predicate MovesByDays(g: Temporal) {
    g in {Moment, Hour, Day, Week, Cosmic}
  }

  predicate MovesByMonths(g: Temporal) {
    g in {Month, Season}
  }

  /** Day-based levels move exactly one day (a week for WEEK) either way. */
  lemma NavigateByDays(g: Temporal, dir: Direction, date: Date)
    requires Valid(date) && MovesByDays(g)
    ensures DayNumber(Navigate(g, dir, date)) == DayNumber(date) + Delta(dir) * DayStep(g)
  {
  }

  /** Month-based levels keep the day of month whenever it exists in every month. */
  lemma NavigateByMonths(g: Temporal, dir: Direction, date: Date)
    requires Valid(date) && MovesByMonths(g) && date.day <= 28
    ensures var k := Delta(dir) * (if g == Season then 3 else 1);
            var (ty, tm) := ShiftMonth(date.year, date.month, k);
            Navigate(g, dir, date) == Date(ty, tm, date.day)
  {
    var k := Delta(dir) * (if g == Season then 3 else 1);
    var (ty, tm) := ShiftMonth(date.year, date.month, k);
    AddMonthsKeepsDay(date, k, ty, tm);
  }

  /** Year-based levels keep month and day, except on February 29. */
  lemma NavigateByYears(g: Temporal, dir: Direction, date: Date)
    requires Valid(date) && g in {Year, Decade, Century} && !(date.month == 2 && date.day == 29)
    ensures var k := Delta(dir) * (if g == Year then 1 else if g == Decade then 10 else 100);
            Navigate(g, dir, date) == Date(date.year + k, date.month, date.day)
  {
    var k := Delta(dir) * (if g == Year then 1 else if g == Decade then 10 else 100);
    AddYearsKeepsDay(date, k);
  }

  /** 'prev' undoes 'next' at every level, for days that every month has (and
      that are not a leap day, for the year-based levels). */
  lemma NavigateInverse(g: Temporal, date: Date)
    requires Valid(date) && date.day <= 28
    ensures Navigate(g, Prev, Navigate(g, Next, date)) == date
  {
    var there := Navigate(g, Next, date);
    if MovesByDays(g) {
      NavigateByDays(g, Next, date);
      NavigateByDays(g, Prev, there);
      DayNumberInjective(Navigate(g, Prev, there), date);
    } else if MovesByMonths(g) {
      AddMonthsInverse(date, if g == Season then 3 else 1);
    } else {
      NavigateByYears(g, Next, date);
      NavigateByYears(g, Prev, there);
    }
  }

  /** At MONTH level, January 31 steps to March 2 in a leap year. */
  lemma NavigateMonthOverflow()
    ensures Navigate(Month, Next, Date(2024, 1, 31)) == Date(2024, 3, 2)
  {
    var (ty, tm) := ShiftMonth(2024, 1, 1);
    AddMonthsCarries(Date(2024, 1, 31), 1, ty, tm);
  }

  /** At YEAR level, February 29 steps to March 1 of the next year. */
  lemma NavigateLeapDay()
    ensures Navigate(Year, Next, Date(2024, 2, 29)) == Date(2025, 3, 1)
  {
    AddYearsLeapDay(Date(2024, 2, 29), 1);
  }

  /** At SEASON level the date moves three months and keeps its day. */
  lemma NavigateSeason()
    ensures Navigate(Season, Next, Date(2024, 2, 15)) == Date(2024, 5, 15)
  {
    NavigateByMonths(Season, Next, Date(2024, 2, 15));
  }

  // ---------------------------------------------------------------------------
  // Hidden sources

  /** `ids.filter((id) => id !== x)`. */
  function RemoveAll(ids: seq<string>, x: string): (r: seq<string>)
    ensures x !in r
    ensures forall y :: y != x ==> (y in r <==> y in ids)
    ensures |r| <= |ids|
  {
    if ids == [] then []
    else (if ids[0] == x then [] else [ids[0]]) + RemoveAll(ids[1..], x)
  }

  /** Removing an id that is absent changes nothing. */
  lemma {:induction false} RemoveAllAbsent(ids: seq<string>, x: string)
    requires x !in ids
    ensures RemoveAll(ids, x) == ids
  {
    if ids != [] {
      RemoveAllAbsent(ids[1..], x);
      assert ids == [ids[0]] + ids[1..];
    }
  }

  /** The hidden list after toggleSourceVisibility: the id is appended when
      absent and every copy of it is removed when present. */
  function ToggledSources(hidden: seq<string>, id: string): (r: seq<string>)
    ensures id in r <==> id !in hidden
    ensures forall y :: y != id ==> (y in r <==> y in hidden)
  {
    if id in hidden then RemoveAll(hidden, id) else hidden + [id]
  }

  /** Toggling twice restores visibility of every source, and restores the
      list itself when the source was visible to begin with. */
  lemma ToggleTwice(hidden: seq<string>, id: string)
    ensures forall y :: y in ToggledSources(ToggledSources(hidden, id), id) <==> y in hidden
    ensures id !in hidden ==> ToggledSources(ToggledSources(hidden, id), id) == hidden
  {
    if id !in hidden {
      RemoveAllAbsent(hidden, id);
      RemoveAllAppended(hidden, id);
    }
  }

  lemma {:induction false} RemoveAllAppended(ids: seq<string>, x: string)
    requires x !in ids
    ensures RemoveAll(ids + [x], x) == ids
  {
    if ids == [] {
      assert [x][1..] == [];
    } else {
      assert (ids + [x])[1..] == ids[1..] + [x];
      RemoveAllAppended(ids[1..], x);
      assert ids == [ids[0]] + ids[1..];
    }
  }

  // ---------------------------------------------------------------------------
  // The store

  class CalendarStore {
    var viewType: ViewType
    var temporalGranularity: Temporal
    var spatialGranularity: Option<Spatial>
    var zoomCoupled: bool
    var currentDate: Date
    var hiddenSources: seq<string>

    ghost predicate Valid()
      reads this
    {
      Civil.Valid(currentDate)
    }

    /** The store's initial state; `today` stands for `new Date()`. */
    constructor (today: Date)
      requires Civil.Valid(today)
      ensures Valid()
      ensures viewType == MonthGrid && temporalGranularity == Month && spatialGranularity == None
      ensures zoomCoupled && currentDate == today && hiddenSources == []
    {
      viewType := MonthGrid;
      temporalGranularity := Month;
      spatialGranularity := None;
      zoomCoupled := true;
      currentDate := today;
      hiddenSources := [];
    }

    method SetViewType(v: ViewType)
      modifies this
      ensures viewType == v
      ensures temporalGranularity == old(temporalGranularity) && spatialGranularity == old(spatialGranularity)
      ensures zoomCoupled == old(zoomCoupled) && currentDate == old(currentDate) && hiddenSources == old(hiddenSources)
    {
      viewType := v;
    }

    /** Moves to level `g`; the view follows when the level has one, and the
        spatial level follows when zoom is coupled. */
    method SetTemporalGranularity(g: Temporal)
      modifies this
      ensures temporalGranularity == g
      ensures viewType == TemporalToView(g).GetOr(old(viewType))
      ensures spatialGranularity == if old(zoomCoupled) then Some(TemporalToSpatial(g)) else old(spatialGranularity)
      ensures zoomCoupled == old(zoomCoupled) && currentDate == old(currentDate) && hiddenSources == old(hiddenSources)
    {
      var view := TemporalToView(g);
      temporalGranularity := g;
      if view.Some? {
        viewType := view.value;
      }
      if zoomCoupled {
        spatialGranularity := Some(TemporalToSpatial(g));
      }
    }

    /** One level finer, but never finer than DAY. */
    method ZoomIn()
      modifies this
      ensures temporalGranularity == ZoomInLevel(old(temporalGranularity))
      ensures viewType == TemporalToView(temporalGranularity).GetOr(old(viewType))
      ensures spatialGranularity == if old(zoomCoupled) then Some(TemporalToSpatial(temporalGranularity)) else old(spatialGranularity)
      ensures zoomCoupled == old(zoomCoupled) && currentDate == old(currentDate) && hiddenSources == old(hiddenSources)
    {
      SetTemporalGranularity(ZoomInLevel(temporalGranularity));
    }

    /** One level coarser, but never coarser than DECADE. */
    method ZoomOut()
      modifies this
      ensures temporalGranularity == ZoomOutLevel(old(temporalGranularity))
      ensures viewType == TemporalToView(temporalGranularity).GetOr(old(viewType))
      ensures spatialGranularity == if old(zoomCoupled) then Some(TemporalToSpatial(temporalGranularity)) else old(spatialGranularity)
      ensures zoomCoupled == old(zoomCoupled) && currentDate == old(currentDate) && hiddenSources == old(hiddenSources)
    {
      SetTemporalGranularity(ZoomOutLevel(temporalGranularity));
    }

    method SetSpatialGranularity(s: Option<Spatial>)
      modifies this
      ensures spatialGranularity == s
      ensures viewType == old(viewType) && temporalGranularity == old(temporalGranularity)
      ensures zoomCoupled == old(zoomCoupled) && currentDate == old(currentDate) && hiddenSources == old(hiddenSources)
    {
      spatialGranularity := s;
    }

    /** Flips coupling; re-coupling snaps the spatial level to the temporal one. */
    method ToggleZoomCoupled()
      modifies this
      ensures zoomCoupled == !old(zoomCoupled)
      ensures spatialGranularity == if zoomCoupled then Some(TemporalToSpatial(temporalGranularity)) else old(spatialGranularity)
      ensures viewType == old(viewType) && temporalGranularity == old(temporalGranularity)
      ensures currentDate == old(currentDate) && hiddenSources == old(hiddenSources)
    {
      zoomCoupled := !zoomCoupled;
      if zoomCoupled {
        spatialGranularity := Some(TemporalToSpatial(temporalGranularity));
      }
    }

    /** The spatial level the map shows. */
    method EffectiveSpatialGranularity() returns (s: Spatial)
      ensures s == EffectiveSpatial(zoomCoupled, temporalGranularity, spatialGranularity)
      ensures zoomCoupled ==> s == TemporalToSpatial(temporalGranularity)
    {
      if zoomCoupled {
        s := TemporalToSpatial(temporalGranularity);
      } else {
        s := spatialGranularity.GetOr(TemporalToSpatial(Month));
      }
    }

    method SetCurrentDate(date: Date)
      requires Civil.Valid(date)
      modifies this
      ensures Valid() && currentDate == date && OnlyDateChanged()
    {
      currentDate := date;
    }

    /** `today` stands for `new Date()`. */
    method GoToToday(today: Date)
      requires Civil.Valid(today)
      modifies this
      ensures Valid() && currentDate == today && OnlyDateChanged()
    {
      SetCurrentDate(today);
    }

    /** Only the current date differs from the state before. */
    twostate predicate OnlyDateChanged()
      reads this
    {
      viewType == old(viewType) && temporalGranularity == old(temporalGranularity)
      && spatialGranularity == old(spatialGranularity) && zoomCoupled == old(zoomCoupled)
      && hiddenSources == old(hiddenSources)
    }

    method GoToNextMonth()
      requires Valid()
      modifies this
      ensures Valid() && currentDate == AddMonths(old(currentDate), 1) && OnlyDateChanged()
    {
      currentDate := AddMonths(currentDate, 1);
    }

    method GoToPreviousMonth()
      requires Valid()
      modifies this
      ensures Valid() && currentDate == AddMonths(old(currentDate), -1) && OnlyDateChanged()
    {
      currentDate := AddMonths(currentDate, -1);
    }

    method GoToNextYear()
      requires Valid()
      modifies this
      ensures Valid() && currentDate == AddYears(old(currentDate), 1) && OnlyDateChanged()
    {
      currentDate := AddYears(currentDate, 1);
    }

    method GoToPreviousYear()
      requires Valid()
      modifies this
      ensures Valid() && currentDate == AddYears(old(currentDate), -1) && OnlyDateChanged()
    {
      currentDate := AddYears(currentDate, -1);
    }

    method GoToNextDecade()
      requires Valid()
      modifies this
      ensures Valid() && currentDate == AddYears(old(currentDate), 10) && OnlyDateChanged()
    {
      currentDate := AddYears(currentDate, 10);
    }

    method GoToPreviousDecade()
      requires Valid()
      modifies this
      ensures Valid() && currentDate == AddYears(old(currentDate), -10) && OnlyDateChanged()
    {
      currentDate := AddYears(currentDate, -10);
    }

    /** Moves the current date one step of the current level; nothing else changes. */
    method NavigateByGranularity(dir: Direction)
      requires Valid()
      modifies this
      ensures Valid()
      ensures currentDate == Navigate(temporalGranularity, dir, old(currentDate)) && OnlyDateChanged()
    {
      currentDate := Navigate(temporalGranularity, dir, currentDate);
    }

    method ToggleSourceVisibility(sourceId: string)
      modifies this
      ensures hiddenSources == ToggledSources(old(hiddenSources), sourceId)
      ensures viewType == old(viewType) && temporalGranularity == old(temporalGranularity)
      ensures spatialGranularity == old(spatialGranularity) && zoomCoupled == old(zoomCoupled)
      ensures currentDate == old(currentDate)
    {
      hiddenSources := ToggledSources(hiddenSources, sourceId);
    }

    method IsSourceVisible(sourceId: string) returns (visible: bool)
      ensures visible <==> sourceId !in hiddenSources
    {
      visible := sourceId !in hiddenSources;
    }
  }
}
