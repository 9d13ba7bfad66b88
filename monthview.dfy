/** The month view: a six-week grid of day cells starting on the Sunday on or
    before the first of the month, and the per-cell event list capped at three. */
module MonthView {
  import opened Wrappers
  import opened Civil
  import opened Events
  import opened Grouping
  import opened UseEvents

  /** One cell of the grid. */
  datatype DayCell = DayCell(date: Date, dateKey: string, day: int, isCurrentMonth: bool, isToday: bool)

  /** The cell for `date`, keyed by its ISO date. */
  function Cell(date: Date, isCurrentMonth: bool, isToday: bool): DayCell
    requires Valid(date)
  {
    DayCell(date, DateKey(date), date.day, isCurrentMonth, isToday)
  }

  /** JavaScript `getDay()` is 0 (Sunday) or 6 (Saturday). */
  predicate IsWeekend(date: Date)
    requires Valid(date)
  {
    Weekday(date) == 0 || Weekday(date) == 6
  }

  /** The number of days of the previous month shown before the first: the
      weekday of the first. */
  function Lead(y: int, m: int): (n: int)
    requires 1 <= m <= 12
    ensures 0 <= n < 7
  {
    Weekday(Date(y, m, 1))
  }

  /** The date in position `k` (0..41) of the grid of month `m`: the last
      `Lead` days of the previous month, the days of the month, then the first
      days of the next month. */
  function GridDate(y: int, m: int, k: int): Date
    requires 1 <= m <= 12
  {
    var lead, dim := Lead(y, m), DaysInMonth(y, m);
    if k < lead then
      var (py, pm) := PreviousMonth(y, m);
      Date(py, pm, DaysInMonth(py, pm) - lead + 1 + k)
    else if k < lead + dim then Date(y, m, k - lead + 1)
    else
      var (ny, nm) := NextMonth(y, m);
      Date(ny, nm, k - lead - dim + 1)
  }

  /** Whether position `k` holds a day of the month itself. */
  predicate InMonth(y: int, m: int, k: int)
    requires 1 <= m <= 12
  {
    Lead(y, m) <= k < Lead(y, m) + DaysInMonth(y, m)
  }

  /** The cell in position `k` of the grid of month `m`, given today's date. */
  function GridCell(y: int, m: int, today: Date, k: int): DayCell
    requires 1 <= m <= 12 && 0 <= k < 42
  {
    GridDateIsDay(y, m, k);
    var c := GridDate(y, m, k);
    Cell(c, InMonth(y, m, k), InMonth(y, m, k) && c == today)
  }

  /** The grid's dates are 42 consecutive days from the Sunday on or before the
      first, so position `k` falls on weekday `k mod 7`. */
  lemma GridDateIsDay(y: int, m: int, k: int)
    requires 1 <= m <= 12 && 0 <= k < 42
    ensures Valid(GridDate(y, m, k))
    ensures DayNumber(GridDate(y, m, k)) == DayNumber(Date(y, m, 1)) - Lead(y, m) + k
    ensures Weekday(GridDate(y, m, k)) == k % 7
  {
    var lead, dim := Lead(y, m), DaysInMonth(y, m);
    if k < lead {
      BorrowStep(y, m, k - lead + 1);
    } else if k >= lead + dim {
      CarryStep(y, m, k - lead + 1);
    }
    WeekdayFromSunday(Date(y, m, 1), GridDate(y, m, k), k);
  }

  /** The cells marked as days of the month are exactly those whose date lies
      in the month, and they are the only cells that can be today. */
  lemma GridCurrentMonth(y: int, m: int, today: Date, k: int)
    requires 1 <= m <= 12 && 0 <= k < 42
    ensures GridCell(y, m, today, k).isCurrentMonth <==> GridDate(y, m, k).year == y && GridDate(y, m, k).month == m
    ensures GridCell(y, m, today, k).isToday ==> GridCell(y, m, today, k).isCurrentMonth
    ensures GridCell(y, m, today, k).isToday <==> InMonth(y, m, k) && GridDate(y, m, k) == today
  {
  }

  /** The days before the first and after the last of the month fit the grid:
      at most 6 + 31 = 37 cells, so the next month fills at least 5. */
  lemma GridFits(y: int, m: int)
    requires 1 <= m <= 12
    ensures 5 <= 42 - Lead(y, m) - DaysInMonth(y, m) <= 14
  {
  }

  /** The cell generateGregorianMonth builds in position `k` of the grid of
      month `m` of year `y`. The leading days of the previous month are made with
      `new Date(prevMonth.getFullYear(), prevMonth.getMonth(), dayNum)`, which
      reads that month's year through FullYear once more; every other cell is
      GridCell's. */
  function BuiltCell(y: int, m: int, today: Date, k: int): DayCell
    requires 1 <= m <= 12 && 0 <= k < 42
  {
    if k < Lead(y, m) then
      var c := GridDate(y, m, k);
      var d := NewDate(c.year, c.month - 1, c.day);
      DayCell(d, DateKey(d), c.day, false, false)
    else GridCell(y, m, today, k)
  }

  /** In the grid of a year FullYear can produce, a built cell is the grid
      cell except in the leading days of January of year 100: those are built
      from year 99, which the constructor reads as 1999. */
  lemma BuiltCellIsGridCell(y: int, m: int, today: Date, k: int)
    requires 1 <= m <= 12 && 0 <= k < 42 && !(0 <= y <= 99)
    ensures BuiltCell(y, m, today, k) == GridCell(y, m, today, k) <==> !(y == 100 && m == 1 && k < Lead(y, m))
    ensures y == 100 && m == 1 && k < Lead(y, m) ==>
              BuiltCell(y, m, today, k).date == Date(1999, 12, GridDate(y, m, k).day)
  {
    if k < Lead(y, m) {
      GridDateIsDay(y, m, k);
      var c := GridDate(y, m, k);
      if y == 100 && m == 1 {
        assert c == Date(99, 12, c.day);
        assert NewDate(c.year, c.month - 1, c.day) == Date(1999, 12, c.day) by {
          MakeDateOfValid(Date(1999, 12, c.day));
        }
      } else {
        assert !(0 <= c.year <= 99);
        assert NewDate(c.year, c.month - 1, c.day) == c by {
          NewDateOfValid(c.year, c.month, c.day);
        }
      }
    }
  }

  /** generateGregorianMonth: the 42 cells of the month of `date`, in grid
      order, built in the year FullYear reads `date.year` as (1900 + year for
      years 0..99). `today` is the current date (the clock is a parameter). */
  method GenerateGregorianMonth(date: Date, today: Date) returns (year: int, month: int, days: seq<DayCell>)
    requires Valid(date)
    ensures year == date.year && month == date.month
    ensures |days| == 42
    ensures forall k :: 0 <= k < 42 ==> days[k] == BuiltCell(FullYear(year), month, today, k)
  {
    year := date.year;
    month := date.month;

    MonthFirstAndLast(year, month);
    var firstDay := NewDate(year, month - 1, 1);
    var lastDay := NewDate(year, month, 0);
    var daysInMonth := lastDay.day;
    var startDayOfWeek := Weekday(firstDay);

    // Previous month's trailing days
    PreviousMonthFirstAndLast(FullYear(year), month);
    var prevMonth := NewDate(year, month - 2, 1);
    var daysInPrevMonth := NewDate(year, month - 1, 0).day;
    days := PreviousMonthDays(FullYear(year), month, today, startDayOfWeek, prevMonth, daysInPrevMonth);

    // Current month's days
    days := CurrentMonthDays(year, month, today, days, daysInMonth);

    // Next month's leading days
    days := NextMonthDays(year, month, today, days);
  }

  /** The first loop: the last `startDayOfWeek` days of the previous month of
      month `month` of the full year `fy`. */
  method PreviousMonthDays(fy: int, month: int, today: Date, startDayOfWeek: int, prevMonth: Date, daysInPrevMonth: int)
    returns (days: seq<DayCell>)
    requires 1 <= month <= 12 && startDayOfWeek == Lead(fy, month)
    requires (prevMonth.year, prevMonth.month) == PreviousMonth(fy, month)
    requires daysInPrevMonth == DaysInMonth(prevMonth.year, prevMonth.month)
    ensures |days| == Lead(fy, month)
    ensures forall k :: 0 <= k < |days| ==> days[k] == BuiltCell(fy, month, today, k)
  {
    days := [];
    var i := startDayOfWeek - 1;
    while i >= 0
      invariant -1 <= i < startDayOfWeek
      invariant |days| == startDayOfWeek - 1 - i
      invariant forall k :: 0 <= k < |days| ==> days[k] == BuiltCell(fy, month, today, k)
    {
      var dayNum := daysInPrevMonth - i;
      var d := NewDate(prevMonth.year, prevMonth.month - 1, dayNum);
      PreviousMonthCell(fy, month, today, |days|, prevMonth.year, prevMonth.month, dayNum);
      GridPrefixGrows(fy, month, today, days, DayCell(d, DateKey(d), dayNum, false, false));
      days := days + [DayCell(d, DateKey(d), dayNum, false, false)];
      i := i - 1;
    }
  }

  /** The second loop: the days 1..daysInMonth of the month itself. */
  method CurrentMonthDays(year: int, month: int, today: Date, lead: seq<DayCell>, daysInMonth: int)
    returns (days: seq<DayCell>)
    requires 1 <= month <= 12 && daysInMonth == DaysInMonth(FullYear(year), month)
    requires |lead| == Lead(FullYear(year), month)
    requires forall k :: 0 <= k < |lead| ==> lead[k] == BuiltCell(FullYear(year), month, today, k)
    ensures |days| == Lead(FullYear(year), month) + DaysInMonth(FullYear(year), month)
    ensures forall k :: 0 <= k < |days| ==> days[k] == BuiltCell(FullYear(year), month, today, k)
  {
    var fy := FullYear(year);
    days := lead;
    for i := 1 to daysInMonth + 1
      invariant |days| == |lead| + i - 1
      invariant forall k :: 0 <= k < |days| ==> days[k] == BuiltCell(fy, month, today, k)
    {
      var d := NewDate(year, month - 1, i);
      CurrentMonthCell(fy, month, today, i);
      GridPrefixGrows(fy, month, today, days, DayCell(d, DateKey(d), i, true, d == today));
      days := days + [DayCell(d, DateKey(d), i, true, d == today)];
    }
  }

  /** The third loop: the first days of the next month, up to 42 cells. */
  method NextMonthDays(year: int, month: int, today: Date, prefix: seq<DayCell>)
    returns (days: seq<DayCell>)
    requires 1 <= month <= 12
    requires |prefix| == Lead(FullYear(year), month) + DaysInMonth(FullYear(year), month)
    requires forall k :: 0 <= k < |prefix| ==> prefix[k] == BuiltCell(FullYear(year), month, today, k)
    ensures |days| == 42
    ensures forall k :: 0 <= k < 42 ==> days[k] == BuiltCell(FullYear(year), month, today, k)
  {
    var fy := FullYear(year);
    days := prefix;
    var remainingDays := 42 - |days|;
    for i := 1 to remainingDays + 1
      invariant |days| == |prefix| + i - 1
      invariant forall k :: 0 <= k < |days| ==> days[k] == BuiltCell(fy, month, today, k)
    {
      var d := NewDate(year, month, i);
      NextMonthCell(fy, month, today, i);
      GridPrefixGrows(fy, month, today, days, DayCell(d, DateKey(d), i, false, false));
      days := days + [DayCell(d, DateKey(d), i, false, false)];
    }
  }

  /** Appending the next built cell to a prefix of the grid gives a longer prefix. */
  lemma GridPrefixGrows(y: int, m: int, today: Date, days: seq<DayCell>, c: DayCell)
    requires 1 <= m <= 12 && |days| < 42
    requires forall k :: 0 <= k < |days| ==> days[k] == BuiltCell(y, m, today, k)
    requires c == BuiltCell(y, m, today, |days|)
    ensures forall k :: 0 <= k < |days| + 1 ==> (days + [c])[k] == BuiltCell(y, m, today, k)
  {
  }

  /** The cell the first loop builds for position `k`, from `new Date(py, pm - 1, dayNum)`. */
  lemma PreviousMonthCell(y: int, m: int, today: Date, k: int, py: int, pm: int, dayNum: int)
    requires 1 <= m <= 12 && 0 <= k < Lead(y, m) && (py, pm) == PreviousMonth(y, m)
    requires dayNum == DaysInMonth(py, pm) - Lead(y, m) + 1 + k
    ensures var d := NewDate(py, pm - 1, dayNum);
            BuiltCell(y, m, today, k) == DayCell(d, DateKey(d), dayNum, false, false)
  {
  }

  /** The cell the second loop builds for day `i`, from `new Date(y, m - 1, i)`
      in the full year `y`. */
  lemma CurrentMonthCell(y: int, m: int, today: Date, i: int)
    requires 1 <= m <= 12 && 1 <= i <= DaysInMonth(y, m)
    ensures var d := MakeDate(y, m - 1, i);
            BuiltCell(y, m, today, Lead(y, m) + i - 1) == DayCell(d, DateKey(d), i, true, d == today)
  {
    MakeDateOfValid(Date(y, m, i));
  }

  /** The cell the third loop builds for day `i`, from `new Date(y, m, i)` in
      the full year `y`. */
  lemma NextMonthCell(y: int, m: int, today: Date, i: int)
    requires 1 <= m <= 12 && 1 <= i <= 42 - Lead(y, m) - DaysInMonth(y, m)
    ensures var d := MakeDate(y, m, i);
            BuiltCell(y, m, today, Lead(y, m) + DaysInMonth(y, m) + i - 1) == DayCell(d, DateKey(d), i, false, false)
  {
    NextMonthDay(y, m, i);
  }

  // ---------------------------------------------------------------------------
  // Day cells

  /** The events of a cell: `eventsByDate.get(day.dateKey) || []`. */
  function CellEvents(grouped: Grouped<Event>, dateKey: string): seq<Event> {
    if dateKey in grouped.items then grouped.items[dateKey] else []
  }

  /** Looking a cell up in the date grouping gives exactly the visible events
      whose start key is the cell's key, in input order. */
  lemma CellEventsAreThatDay(grouped: Grouped<Event>, events: seq<Event>, dateKey: string)
    requires GroupedBy(grouped, events, DateGroupKey)
    ensures CellEvents(grouped, dateKey) == Select(events, DateGroupKey, dateKey)
  {
  }

  /** DayCellComponent's list: at most three events shown, and the number of
      the rest for "+N more" exactly when there are more than three. */
  function ShownEvents(events: seq<Event>): (r: (seq<Event>, Option<int>))
    ensures |r.0| <= 3 && r.0 <= events
    ensures |events| <= 3 ==> r.0 == events
    ensures r.1.Some? <==> |events| > 3
    ensures r.1.Some? ==> r.1.value > 0 && |r.0| + r.1.value == |events|
  {
    var maxVisibleEvents := 3;
    var visible := if |events| < maxVisibleEvents then events else events[..maxVisibleEvents];
    (visible, if |events| > maxVisibleEvents then Some(|events| - maxVisibleEvents) else None)
  }
}
