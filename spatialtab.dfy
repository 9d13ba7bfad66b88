/** The spatial tab: the date range whose events it fetches for the current
    level, the calendar it shows beside the map, and the events it hands on. */
module SpatialTab {
  import opened Wrappers
  import opened Text
  import opened Civil
  import opened Types
  import opened Events
  import SeasonView

  // ---------------------------------------------------------------------------
  // getDateRangeForGranularity

  /** The first and last date of the range fetched around `date` at level `g`. */
  function RangeDates(date: Date, g: Temporal): (r: (Date, Date))
    requires Valid(date)
    ensures Valid(r.0) && Valid(r.1)
  {
    match g
    case Day => DayBounds(date)
    case Week => WeekBounds(date)
    case Month => MonthBounds(date)
    case Season => SeasonBounds(date)
    case _ => YearBounds(date)
  }

  /** `new Date(y, m, d)` and `new Date(y, m, d + 1)`. */
  function DayBounds(date: Date): (r: (Date, Date))
    requires Valid(date)
    ensures Valid(r.0) && Valid(r.1)
  {
    (DayStart(date), DayEnd(date))
  }

  /** `new Date(y, m, d)`: the same day of month in the year FullYear reads
      `y` as, which is the date itself outside years 0..99. */
  function DayStart(date: Date): (r: Date)
    requires Valid(date)
    ensures Valid(r)
    ensures DayNumber(r) == DayNumber(Date(FullYear(date.year), date.month, date.day))
    ensures !(0 <= date.year <= 99) ==> r == date
  {
    NewDateDayNumber(date.year, date.month, date.day);
    if !(0 <= date.year <= 99) then
      NewDateOfValid(date.year, date.month, date.day);
      NewDate(date.year, date.month - 1, date.day)
    else
      NewDate(date.year, date.month - 1, date.day)
  }

  /** `new Date(y, m, d + 1)`: the day after DayStart. */
  function DayEnd(date: Date): (r: Date)
    requires Valid(date)
    ensures Valid(r)
    ensures DayNumber(r) == DayNumber(Date(FullYear(date.year), date.month, date.day)) + 1
  {
    var r := NewDate(date.year, date.month - 1, date.day + 1);
    assert Valid(r) && DayNumber(r) == DayNumber(Date(FullYear(date.year), date.month, date.day)) + 1 by {
      NewDateNextDay(date.year, date.month, date.day);
    }
    r
  }

  /** `setDate(getDate() - getDay())`, then that plus 7. */
  function WeekBounds(date: Date): (r: (Date, Date))
    requires Valid(date)
    ensures Valid(r.0) && Valid(r.1)
  {
    var start := AddDays(date, -Weekday(date));
    (start, AddDays(start, 7))
  }

  /** `new Date(y, m, 1)` and `new Date(y, m + 1, 0)`. */
  function MonthBounds(date: Date): (r: (Date, Date))
    requires Valid(date)
    ensures Valid(r.0) && Valid(r.1)
  {
    (NewDate(date.year, date.month - 1, 1), NewDate(date.year, date.month, 0))
  }

  /** `new Date(y, qMonth, 1)` and `new Date(y, qMonth + 3, 0)` with
      `qMonth = Math.floor(m / 3) * 3` for the zero-based month `m`. */
  function SeasonBounds(date: Date): (r: (Date, Date))
    requires Valid(date)
    ensures Valid(r.0) && Valid(r.1)
  {
    var qMonth := QuarterMonth0(date.month);
    (NewDate(date.year, qMonth, 1), NewDate(date.year, qMonth + 3, 0))
  }

  /** `Math.floor(getMonth() / 3) * 3`: the zero-based first month of the
      quarter of `month` (1..12), which is the first month the season view shows. */
  function QuarterMonth0(month: int): (q: int)
    requires 1 <= month <= 12
    ensures 0 <= q <= 9 && q < month <= q + 3
    ensures q + 1 == SeasonView.QuarterMonths(SeasonView.Quarter(month))[0]
  {
    var q := SeasonView.Quarter(month);
    DivUnique(month - 1, 3, q - 1, month - 1 - 3 * (q - 1));
    (month - 1) / 3 * 3
  }

  /** `new Date(y, 0, 1)` and `new Date(y, 11, 31)`. */
  function YearBounds(date: Date): (r: (Date, Date))
    requires Valid(date)
    ensures Valid(r.0) && Valid(r.1)
  {
    (NewDate(date.year, 0, 1), NewDate(date.year, 11, 31))
  }

  /** DAY: the date as the constructor rebuilds it from its parts, and the day
      after it. For a year other than 0..99 that is the date itself; for years
      0..99 it is the same month and day 1900 years later (rolled over when that
      is February 29 of 1900). */
  lemma DayRange(date: Date)
    requires Valid(date)
    ensures DayNumber(RangeDates(date, Day).0) == DayNumber(Date(FullYear(date.year), date.month, date.day))
    ensures DayNumber(RangeDates(date, Day).1) == DayNumber(RangeDates(date, Day).0) + 1
    ensures !(0 <= date.year <= 99) ==> RangeDates(date, Day).0 == date
  {
    assert RangeDates(date, Day) == DayBounds(date);
  }

  /** WEEK: the Sunday on or before the date, and the Sunday a week later. */
  lemma WeekRange(date: Date)
    requires Valid(date)
    ensures var (start, end) := RangeDates(date, Week);
            Weekday(start) == 0 &&
            DayNumber(start) <= DayNumber(date) < DayNumber(start) + 7 &&
            DayNumber(end) == DayNumber(start) + 7
  {
    var start := RangeDates(date, Week).0;
    WeekdayFromSunday(date, start, 0);
  }

  /** MONTH: the first and the last day of the date's month, in the year
      FullYear reads the date's year as. */
  lemma MonthRange(date: Date)
    requires Valid(date)
    ensures var y := FullYear(date.year);
            RangeDates(date, Month) == (Date(y, date.month, 1), Date(y, date.month, DaysInMonth(y, date.month)))
  {
    MonthFirstAndLast(date.year, date.month);
  }

  /** SEASON: the first day of the quarter's first month to the last day of
      its third month, in the year FullYear reads the date's year as. */
  lemma SeasonRange(date: Date)
    requires Valid(date)
    ensures var first, y := QuarterMonth0(date.month) + 1, FullYear(date.year);
            RangeDates(date, Season) == (Date(y, first, 1), Date(y, first + 2, DaysInMonth(y, first + 2)))
  {
    QuarterBounds(date.year, QuarterMonth0(date.month) + 1);
  }

  /** The first of month `first` and the last day of two months later, in the
      year FullYear reads `y` as. */
  lemma QuarterBounds(y: int, first: int)
    requires 1 <= first <= 10
    ensures NewDate(y, first - 1, 1) == Date(FullYear(y), first, 1)
    ensures NewDate(y, first + 2, 0) == Date(FullYear(y), first + 2, DaysInMonth(FullYear(y), first + 2))
  {
    MonthFirstAndLast(y, first);
    MonthFirstAndLast(y, first + 2);
  }

  /** YEAR, DECADE and every other level: January 1 to December 31 of the
      year FullYear reads the date's year as. */
  lemma YearRange(date: Date, g: Temporal)
    requires Valid(date) && g !in {Day, Week, Month, Season}
    ensures var y := FullYear(date.year);
            RangeDates(date, g) == (Date(y, 1, 1), Date(y, 12, 31))
  {
    var y := FullYear(date.year);
    MakeDateOfValid(Date(y, 1, 1));
    MakeDateOfValid(Date(y, 12, 31));
  }

  /** The range starts on or before the date, ends on or after it, and spans
      at most a year: at WEEK, which copies the date, always; at the other
      levels, which rebuild it with the constructor, for years other than
      0..99. */
  lemma RangeHoldsDate(date: Date, g: Temporal)
    requires Valid(date)
    ensures g == Week || !(0 <= date.year <= 99) ==> Brackets(date, RangeDates(date, g))
  {
    if g == Week || !(0 <= date.year <= 99) {
      match g
      case Day => DayRange(date);
      case Week => WeekRange(date);
      case Month => MonthRange(date);
      case Season => SeasonBrackets(date);
      case _ => YearBrackets(date, g);
    }
  }

  /** For year 24 the month range is March 1924, which does not hold
      0024-03-15. */
  lemma RangeTwoDigitYear()
    ensures RangeDates(Date(24, 3, 15), Month) == (Date(1924, 3, 1), Date(1924, 3, 31))
  {
    MonthRange(Date(24, 3, 15));
  }

  /** `r` starts on or before `date`, ends on or after it, and spans at most a year. */
  predicate Brackets(date: Date, r: (Date, Date))
    requires Valid(date) && Valid(r.0) && Valid(r.1)
  {
    DayNumber(r.0) <= DayNumber(date) <= DayNumber(r.1) && DayNumber(r.1) - DayNumber(r.0) <= 365
  }

  lemma SeasonBrackets(date: Date)
    requires Valid(date) && !(0 <= date.year <= 99)
    ensures Brackets(date, SeasonBounds(date))
  {
    SeasonRange(date);
    SeasonSpan(date.year, QuarterMonth0(date.month) + 1, date.month);
  }

  lemma YearBrackets(date: Date, g: Temporal)
    requires Valid(date) && g !in {Day, Week, Month, Season} && !(0 <= date.year <= 99)
    ensures Brackets(date, YearBounds(date))
  {
    YearRange(date, g);
    DecemberEnds(date.year);
  }

  /** A quarter's three months hold each of their days and span under a year. */
  lemma SeasonSpan(y: int, first: int, m: int)
    requires 1 <= first && first + 2 <= 12 && first <= m <= first + 2
    ensures DayNumber(Date(y, first, 1)) <= DayNumber(Date(y, m, 1))
    ensures DayNumber(Date(y, m, DaysInMonth(y, m))) <= DayNumber(Date(y, first + 2, DaysInMonth(y, first + 2)))
    ensures DayNumber(Date(y, first + 2, DaysInMonth(y, first + 2))) - DayNumber(Date(y, first, 1)) <= 365
  {
    MonthStep(y, first);
    MonthStep(y, first + 1);
  }

  /** getDateRangeForGranularity: the range's ends as `YYYY-MM-DD` keys. For
      a date whose year and the years around it are written with four digits,
      the keys bracket the date's own key as strings too (at the levels that
      rebuild the date, for years from 100 on). */
  function GetDateRangeForGranularity(date: Date, g: Temporal): (r: (string, string))
    requires Valid(date)
    ensures 1 <= date.year <= 9998 && (g == Week || 100 <= date.year) ==>
              LexLe(r.0, DateKey(date)) && LexLe(DateKey(date), r.1)
  {
    var (start, end) := RangeDates(date, g);
    RangeKeysHoldDateKey(date, g);
    (DateKey(start), DateKey(end))
  }

  lemma RangeKeysHoldDateKey(date: Date, g: Temporal)
    requires Valid(date)
    ensures 1 <= date.year <= 9998 && (g == Week || 100 <= date.year) ==>
              LexLe(DateKey(RangeDates(date, g).0), DateKey(date)) &&
              LexLe(DateKey(date), DateKey(RangeDates(date, g).1))
  {
    if !(1 <= date.year <= 9998 && (g == Week || 100 <= date.year)) {
      return;
    }
    var (s, e) := RangeDates(date, g);
    RangeHoldsDate(date, g);
    assert DayNumber(s) <= DayNumber(date) <= DayNumber(e) && DayNumber(e) - DayNumber(s) <= 365;
    NearbyYear(s, date, 365);
    NearbyYear(e, date, 365);
    DateKeyLe(s, date);
    DateKeyLe(date, e);
  }

  // ---------------------------------------------------------------------------
  // CalendarView

  /** The calendar components the tab can show. */
  datatype Calendar = YearCalendar | SeasonCalendar | MonthCalendar | WeekCalendar | DayCalendar

  /** CalendarView: the calendar for a temporal level. Every level is listed,
      so the `default` branch (the month view) is never taken. */
  function CalendarFor(g: Temporal): (c: Calendar)
    ensures c == YearCalendar <==> TemporalOrdinal(Year) <= TemporalOrdinal(g)
    ensures c == DayCalendar <==> TemporalOrdinal(g) <= TemporalOrdinal(Day)
  {
    match g
    case Year | Decade | Century | Cosmic => YearCalendar
    case Season => SeasonCalendar
    case Month => MonthCalendar
    case Week => WeekCalendar
    case Day | Hour | Moment => DayCalendar
  }

  /** How much time a calendar shows, from a day (0) to a year (4). */
  function CalendarSpan(c: Calendar): nat {
    match c
    case DayCalendar => 0
    case WeekCalendar => 1
    case MonthCalendar => 2
    case SeasonCalendar => 3
    case YearCalendar => 4
  }

  /** A coarser level never shows a finer calendar. */
  lemma CalendarFollowsLevel(a: Temporal, b: Temporal)
    requires TemporalOrdinal(a) <= TemporalOrdinal(b)
    ensures CalendarSpan(CalendarFor(a)) <= CalendarSpan(CalendarFor(b))
  {
  }

  /** The tab's calendar agrees with the store's view table for the levels
      that have a grid view, and differs only at DECADE, which the store puts
      on the timeline and the tab on the year calendar. */
  lemma CalendarAgreesWithViewTable(g: Temporal)
    ensures TemporalToView(g) == Some(DayGrid) <==> g == Day
    ensures g in {Day, Week, Month, Year} ==>
              (CalendarFor(g) == DayCalendar <==> TemporalToView(g) == Some(DayGrid)) &&
              (CalendarFor(g) == WeekCalendar <==> TemporalToView(g) == Some(WeekGrid)) &&
              (CalendarFor(g) == MonthCalendar <==> TemporalToView(g) == Some(MonthGrid)) &&
              (CalendarFor(g) == YearCalendar <==> TemporalToView(g) == Some(YearGrid))
    ensures CalendarFor(Decade) == YearCalendar && TemporalToView(Decade) == Some(Timeline)
  {
  }

  // ---------------------------------------------------------------------------
  // visibleEvents

  /** The events handed to the split view: none before results arrive, then
      the results whose source is not hidden. */
  function VisibleEvents(results: Option<seq<Event>>, hidden: seq<string>): (r: seq<Event>)
    ensures results.None? ==> r == []
    ensures results.Some? ==> r == Visible(results.value, hidden)
    ensures forall i :: 0 <= i < |r| ==> r[i].source !in hidden
  {
    match results
    case None => []
    case Some(events) => Visible(events, hidden)
  }
}
