/** The temporal zoom controller: the six zoom levels it offers, whether its
    zoom buttons are enabled, the keyboard and wheel shortcuts, and the
    decade label. The state it acts on is the store's. */
module ZoomController {
  import opened Wrappers
  import opened Text
  import opened Civil
  import opened Types
  import opened Store

  // ---------------------------------------------------------------------------
  // Zoom levels

  /** ZOOM_LEVELS: the temporal levels the controller offers, finest first. */
  const ZoomLevels: seq<Temporal> := [Day, Week, Month, Season, Year, Decade]

  /** SPATIAL_LEVELS: the spatial levels of the uncoupled filter, coarsest first. */
  const SpatialLevels: seq<Spatial> := [Planet, Continent, Country, City]

  /** `Array.prototype.indexOf`: the first position of `g`, or -1. */
  function IndexOf(levels: seq<Temporal>, g: Temporal): (i: int)
    ensures -1 <= i < |levels|
    ensures i == -1 <==> g !in levels
    ensures 0 <= i ==> levels[i] == g && forall j :: 0 <= j < i ==> levels[j] != g
  {
    if levels == [] then -1
    else if levels[0] == g then 0
    else
      var i := IndexOf(levels[1..], g);
      if i == -1 then -1 else i + 1
  }

  /** `currentZoomIndex`. */
  function ZoomIndex(g: Temporal): int {
    IndexOf(ZoomLevels, g)
  }

  /** `canZoomIn`: the level is in the list and not its first entry. */
  predicate CanZoomIn(g: Temporal)
    ensures CanZoomIn(g) <==> TemporalOrdinal(Day) < TemporalOrdinal(g) <= TemporalOrdinal(Decade)
  {
    ZoomLevelsAreDayToDecade(g);
    ZoomIndex(g) > 0
  }

  /** `canZoomOut`: the level is not the list's last entry (a level outside
      the list, at index -1, counts as able to zoom out). */
  predicate CanZoomOut(g: Temporal)
    ensures CanZoomOut(g) <==> g != Decade
  {
    ZoomLevelsAreDayToDecade(g);
    ZoomIndex(g) < |ZoomLevels| - 1
  }

  /** The list is the levels DAY..DECADE in order: the position of a level is
      its ordinal less that of DAY, and the levels outside are at -1. */
  lemma ZoomLevelsAreDayToDecade(g: Temporal)
    ensures g in ZoomLevels <==> TemporalOrdinal(Day) <= TemporalOrdinal(g) <= TemporalOrdinal(Decade)
    ensures g in ZoomLevels ==> ZoomIndex(g) == TemporalOrdinal(g) - TemporalOrdinal(Day)
    ensures forall i :: 0 <= i < |ZoomLevels| ==> TemporalOrdinal(ZoomLevels[i]) == TemporalOrdinal(Day) + i
  {
    var levels := ZoomLevels;
    assert forall i :: 0 <= i < |levels| ==> TemporalOrdinal(levels[i]) == TemporalOrdinal(Day) + i;
    var n := TemporalOrdinal(g);
    if TemporalOrdinal(Day) <= n <= TemporalOrdinal(Decade) {
      TemporalOrdinalBijective(levels[n - TemporalOrdinal(Day)], g);
      assert levels[n - TemporalOrdinal(Day)] == g;
    }
    if g in levels {
      assert levels[ZoomIndex(g)] == g;
    }
  }

  /** The list's ends are where the store's zoom actions stop, so from a
      level of the list both actions stay in the list. */
  lemma StoreZoomStaysInList(g: Temporal)
    requires g in ZoomLevels
    ensures ZoomInLevel(g) in ZoomLevels && ZoomOutLevel(g) in ZoomLevels
    ensures ZoomInLevel(ZoomLevels[0]) == ZoomLevels[0]
    ensures ZoomOutLevel(ZoomLevels[|ZoomLevels| - 1]) == ZoomLevels[|ZoomLevels| - 1]
  {
    ZoomLevelsAreDayToDecade(g);
    ZoomLevelsAreDayToDecade(ZoomInLevel(g));
    ZoomLevelsAreDayToDecade(ZoomOutLevel(g));
  }

  /** For a level in the list, a zoom button is enabled exactly when the
      store's action would move to another level. Outside the list, zoom in is
      disabled and zoom out enabled, although the store's zoom in from MOMENT,
      HOUR, CENTURY or COSMIC would move too. */
  lemma ButtonsAgreeWithStore(g: Temporal)
    ensures g in ZoomLevels ==> (CanZoomIn(g) <==> ZoomInLevel(g) != g)
    ensures g in ZoomLevels ==> (CanZoomOut(g) <==> ZoomOutLevel(g) != g)
    ensures g !in ZoomLevels ==> !CanZoomIn(g) && CanZoomOut(g) && ZoomInLevel(g) != g
  {
    ZoomLevelsAreDayToDecade(g);
  }

  /** The filter's spatial levels go from coarse to fine. */
  lemma SpatialLevelsCoarseFirst()
    ensures forall i, j :: 0 <= i < j < |SpatialLevels| ==> SpatialOrdinal(SpatialLevels[i]) < SpatialOrdinal(SpatialLevels[j])
  {
  }

  // ---------------------------------------------------------------------------
  // Keyboard and wheel

  /** What the key's target element is. */
  datatype Target = InputElement | TextAreaElement | OtherElement

  datatype KeyEvent = KeyEvent(key: string, metaKey: bool, ctrlKey: bool, target: Target)

  datatype WheelEvent = WheelEvent(deltaY: real, ctrlKey: bool, metaKey: bool)

  /** The store action a shortcut calls. */
  datatype Action = ZoomInAction | ZoomOutAction | NavigateAction(dir: Direction) | TodayAction | SetLevel(level: Temporal)

  /** handleKeyDown: the action a key calls, or None when it does nothing.
      `preventDefault` is called exactly when there is an action. A key can
      only select a level of the list, and only an arrow navigates. */
  function KeyAction(e: KeyEvent): (a: Option<Action>)
    ensures a.Some? && a.value.SetLevel? ==> a.value.level in ZoomLevels
    ensures a.Some? && a.value.NavigateAction? ==> ArrowKey(e.key) && (a.value.dir == Next <==> e.key == "ArrowRight")
  {
    if e.target == InputElement || e.target == TextAreaElement then None
    else if e.key == "+" || e.key == "=" then Some(ZoomInAction)
    else if e.key == "-" || e.key == "_" then Some(ZoomOutAction)
    else if e.key == "ArrowLeft" then
      if !e.metaKey && !e.ctrlKey then Some(NavigateAction(Prev)) else None
    else if e.key == "ArrowRight" then
      if !e.metaKey && !e.ctrlKey then Some(NavigateAction(Next)) else None
    else if e.key == "t" || e.key == "T" then Some(TodayAction)
    else if e.key == "1" then Some(SetLevel(Day))
    else if e.key == "2" then Some(SetLevel(Week))
    else if e.key == "3" then Some(SetLevel(Month))
    else if e.key == "4" then Some(SetLevel(Season))
    else if e.key == "5" then Some(SetLevel(Year))
    else if e.key == "6" then Some(SetLevel(Decade))
    else None
  }

  /** The keys that act whatever the modifiers. */
  predicate PlainShortcut(key: string) {
    key in {"+", "=", "-", "_", "t", "T", "1", "2", "3", "4", "5", "6"}
  }

  predicate ArrowKey(key: string) {
    key == "ArrowLeft" || key == "ArrowRight"
  }

  /** A key acts exactly when its target is not a text field and it is one of
      the plain shortcuts, or an arrow pressed without meta or ctrl. */
  lemma KeyActsWhen(e: KeyEvent)
    ensures KeyAction(e).Some? <==>
              e.target == OtherElement &&
              (PlainShortcut(e.key) || (ArrowKey(e.key) && !e.metaKey && !e.ctrlKey))
  {
  }

  /** The digit keys 1..6 select the zoom levels in the list's order. */
  lemma DigitKeysFollowList(i: int, metaKey: bool, ctrlKey: bool)
    requires 0 <= i < |ZoomLevels|
    ensures KeyAction(KeyEvent([DigitChar(i + 1)], metaKey, ctrlKey, OtherElement)) == Some(SetLevel(ZoomLevels[i]))
  {
    var key := [DigitChar(i + 1)];
    assert key == ["1", "2", "3", "4", "5", "6"][i];
  }

  /** handleWheel: with ctrl or meta held, scrolling up zooms in and anything
      else zooms out; without them the wheel does nothing. */
  function WheelAction(e: WheelEvent): (a: Option<Action>)
    ensures a.Some? <==> e.ctrlKey || e.metaKey
    ensures a.Some? ==> (a.value == ZoomInAction <==> e.deltaY < 0.0)
    ensures a.Some? ==> (a.value == ZoomInAction || a.value == ZoomOutAction)
  {
    if e.ctrlKey || e.metaKey then
      if e.deltaY < 0.0 then Some(ZoomInAction) else Some(ZoomOutAction)
    else None
  }

  /** Scrolling with ctrl held does what the '+' and '-' keys do. */
  lemma WheelMatchesKeys(deltaY: real)
    ensures WheelAction(WheelEvent(deltaY, true, false)) ==
              KeyAction(KeyEvent(if deltaY < 0.0 then "+" else "-", false, true, OtherElement))
  {
  }

  /** The store moved to level `g` as `setTemporalGranularity` does: the view
      follows when the level has one, the spatial level follows when zoom is
      coupled, and nothing else changes. */
  twostate predicate LevelSet(store: CalendarStore, g: Temporal)
    reads store
  {
    store.temporalGranularity == g &&
    store.viewType == TemporalToView(g).GetOr(old(store.viewType)) &&
    store.spatialGranularity == (if old(store.zoomCoupled) then Some(TemporalToSpatial(g)) else old(store.spatialGranularity)) &&
    store.zoomCoupled == old(store.zoomCoupled) &&
    store.currentDate == old(store.currentDate) &&
    store.hiddenSources == old(store.hiddenSources)
  }

  /** The store's date became `d` and nothing else changed. */
  twostate predicate DateSet(store: CalendarStore, d: Date)
    reads store
  {
    store.currentDate == d &&
    store.temporalGranularity == old(store.temporalGranularity) &&
    store.viewType == old(store.viewType) &&
    store.spatialGranularity == old(store.spatialGranularity) &&
    store.zoomCoupled == old(store.zoomCoupled) &&
    store.hiddenSources == old(store.hiddenSources)
  }

  /** The new state of the store once action `a` has run: a zoom or a digit
      key sets the level, an arrow moves the date by the current level, and
      't' sets it to `today`. */
  twostate predicate Performed(store: CalendarStore, a: Action, today: Date)
    reads store
  {
    match a
    case ZoomInAction => LevelSet(store, ZoomInLevel(old(store.temporalGranularity)))
    case ZoomOutAction => LevelSet(store, ZoomOutLevel(old(store.temporalGranularity)))
    case SetLevel(g) => LevelSet(store, g)
    case NavigateAction(dir) =>
      old(Civil.Valid(store.currentDate)) &&
      DateSet(store, Navigate(old(store.temporalGranularity), dir, old(store.currentDate)))
    case TodayAction => DateSet(store, today)
  }

  /** Calls the store action `a`; `today` stands for the clock. */
  method Perform(store: CalendarStore, a: Action, today: Date)
    requires store.Valid() && Civil.Valid(today)
    modifies store
    ensures store.Valid()
    ensures Performed(store, a, today)
  {
    match a
    case ZoomInAction => store.ZoomIn();
    case ZoomOutAction => store.ZoomOut();
    case NavigateAction(dir) => store.NavigateByGranularity(dir);
    case TodayAction => store.GoToToday(today);
    case SetLevel(g) => store.SetTemporalGranularity(g);
  }

  /** handleKeyDown: performs the key's action, if it has one, and otherwise
      leaves the store alone. */
  method HandleKeyDown(store: CalendarStore, e: KeyEvent, today: Date)
    requires store.Valid() && Civil.Valid(today)
    modifies store
    ensures store.Valid()
    ensures KeyAction(e).None? ==> unchanged(store)
    ensures KeyAction(e).Some? ==> Performed(store, KeyAction(e).value, today)
    ensures KeyAction(e).Some? && KeyAction(e).value.SetLevel? ==> store.temporalGranularity in ZoomLevels
  {
    var action := KeyAction(e);
    if action.Some? {
      Perform(store, action.value, today);
    }
  }

  /** handleWheel: performs the wheel's zoom, if any, and otherwise leaves the
      store alone; the level stays within the list whenever it changes. */
  method HandleWheel(store: CalendarStore, e: WheelEvent, today: Date)
    requires store.Valid() && Civil.Valid(today)
    modifies store
    ensures store.Valid()
    ensures !(e.ctrlKey || e.metaKey) ==> unchanged(store)
    ensures (e.ctrlKey || e.metaKey) && e.deltaY < 0.0 ==> LevelSet(store, ZoomInLevel(old(store.temporalGranularity)))
    ensures (e.ctrlKey || e.metaKey) && e.deltaY >= 0.0 ==> LevelSet(store, ZoomOutLevel(old(store.temporalGranularity)))
    ensures WheelAction(e).Some? ==> Performed(store, WheelAction(e).value, today)
    ensures old(store.temporalGranularity) in ZoomLevels ==> store.temporalGranularity in ZoomLevels
  {
    var action := WheelAction(e);
    if action.Some? {
      if store.temporalGranularity in ZoomLevels {
        StoreZoomStaysInList(store.temporalGranularity);
      }
      if action.value == ZoomInAction {
        store.ZoomIn();
      } else {
        store.ZoomOut();
      }
    }
  }

  // ---------------------------------------------------------------------------
  // The decade label

  /** `Math.floor(year / 10) * 10`. */
  function DecadeStart(year: int): (start: int)
    ensures start % 10 == 0 && start <= year < start + 10
  {
    year / 10 * 10
  }

  /** The DECADE level's date label, `${decadeStart}s`. */
  function DecadeLabel(year: int): (s: string)
    ensures |s| >= 2 && s[|s| - 1] == 's'
  {
    IntToString(DecadeStart(year)) + "s"
  }

  /** Two years get the same label exactly when they lie in the same decade. */
  lemma DecadeLabelSameDecade(a: int, b: int)
    ensures DecadeLabel(a) == DecadeLabel(b) <==> DecadeStart(a) == DecadeStart(b)
  {
    if DecadeLabel(a) == DecadeLabel(b) {
      var la, lb := IntToString(DecadeStart(a)), IntToString(DecadeStart(b));
      assert la == DecadeLabel(a)[..|DecadeLabel(a)| - 1];
      assert lb == DecadeLabel(b)[..|DecadeLabel(b)| - 1];
      IntToStringInjective(DecadeStart(a), DecadeStart(b));
    }
  }

  /** The year 2024 is labelled "2020s" and the year -5 "-10s". */
  lemma DecadeLabelExamples()
    ensures DecadeLabel(2024) == "2020s"
    ensures DecadeLabel(-5) == "-10s"
  {
    DecadeLabelOfPositive();
    DecadeLabelOfNegative();
  }

  lemma DecadeLabelOfPositive()
    ensures DecadeLabel(2024) == "2020s"
  {
    assert DecadeStart(2024) == 2020;
    assert Decimal(2) == "2";
    assert Decimal(20) == Decimal(2) + "0" == "20";
    assert Decimal(202) == Decimal(20) + "2" == "202";
    assert Decimal(2020) == Decimal(202) + "0" == "2020";
  }

  lemma DecadeLabelOfNegative()
    ensures DecadeLabel(-5) == "-10s"
  {
    assert DecadeStart(-5) == -10;
    assert Decimal(1) == "1";
    assert Decimal(10) == Decimal(1) + "0" == "10";
  }
}
