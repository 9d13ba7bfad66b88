/** The season view: the quarter of the current month, its three months side
    by side, and each month's list of days. */
module SeasonView {
  import opened Civil
  import YearView

  /** `Math.ceil(month / 3)` for a month 1..12. */
  function Quarter(month: int): (q: int)
    requires 1 <= month <= 12
    ensures 1 <= q <= 4
    ensures 3 * (q - 1) < month <= 3 * q
  {
    (month + 2) / 3
  }

  /** The months of quarter `q`: three in a row from `(q - 1) * 3 + 1`. */
  function QuarterMonths(q: int): (ms: seq<int>)
    ensures |ms| == 3
    ensures forall i :: 0 <= i < 3 ==> ms[i] == (q - 1) * 3 + 1 + i
  {
    var startMonth := (q - 1) * 3 + 1;
    [startMonth, startMonth + 1, startMonth + 2]
  }

  /** The quarter of a month holds that month, and only months of the year. */
  lemma QuarterHoldsMonth(month: int)
    requires 1 <= month <= 12
    ensures month in QuarterMonths(Quarter(month))
    ensures forall i :: 0 <= i < 3 ==> 1 <= QuarterMonths(Quarter(month))[i] <= 12
    ensures forall i :: 0 <= i < 3 ==> Quarter(QuarterMonths(Quarter(month))[i]) == Quarter(month)
  {
    var q := Quarter(month);
    assert month == QuarterMonths(q)[month - 1 - (q - 1) * 3];
  }

  /** The four quarters split the year: each month lies in exactly one. */
  lemma QuartersPartitionYear(month: int, q: int)
    requires 1 <= month <= 12 && 1 <= q <= 4
    ensures month in QuarterMonths(q) <==> q == Quarter(month)
  {
    QuarterHoldsMonth(month);
  }

  /** The season's title: Winter, Spring, Summer, Fall by quarter, and
      "Quarter" for an index outside the table (an `undefined` entry). */
  function SeasonName(q: int): (name: string)
    ensures name == "Quarter" <==> !(1 <= q <= 4)
    ensures name in {"Winter", "Spring", "Summer", "Fall", "Quarter"}
  {
    var names := ["Winter", "Spring", "Summer", "Fall"];
    if 1 <= q <= 4 then names[q - 1] else "Quarter"
  }

  /** Every month of the year has a season name, never the fallback; the
      names of different quarters differ. */
  lemma SeasonNames(month: int, q1: int, q2: int)
    requires 1 <= month <= 12 && 1 <= q1 <= 4 && 1 <= q2 <= 4
    ensures SeasonName(Quarter(month)) != "Quarter"
    ensures SeasonName(q1) == SeasonName(q2) ==> q1 == q2
    ensures month <= 3 ==> SeasonName(Quarter(month)) == "Winter"
    ensures 10 <= month ==> SeasonName(Quarter(month)) == "Fall"
  {
  }

  // ---------------------------------------------------------------------------
  // MonthGrid

  /** One day of a month grid. */
  datatype GridDay = GridDay(day: int, date: Date, isToday: bool)

  /** Day `k + 1` of month `m` with its date, marked when it is today. */
  function GridDayAt(y: int, m: int, today: Date, k: int): GridDay {
    GridDay(k + 1, Date(y, m, k + 1), Date(y, m, k + 1) == today)
  }

  /** The season grid and the mini month of the year view list the same days
      and mark the same one as today. */
  lemma GridDayAgreesWithMiniMonth(y: int, m: int, today: Date, k: int)
    ensures GridDayAt(y, m, today, k).day == YearView.MiniDayAt(y, m, today, k).day
    ensures GridDayAt(y, m, today, k).isToday == YearView.MiniDayAt(y, m, today, k).isToday
    ensures GridDayAt(y, m, today, k).date.day == GridDayAt(y, m, today, k).day
  {
  }

  /** MonthGrid's data: the days 1..daysInMonth with their dates, the number of
      leading blanks (the Sunday-first weekday of the first) and the month's
      length, all in the year FullYear reads `year` as (1900 + year for years
      0..99). `today` stands for the clock. */
  method MonthGrid(year: int, month: int, today: Date) returns (days: seq<GridDay>, startDay: int, daysInMonth: int)
    requires 1 <= month <= 12
    ensures startDay == Weekday(Date(FullYear(year), month, 1)) && 0 <= startDay < 7
    ensures daysInMonth == DaysInMonth(FullYear(year), month) && |days| == daysInMonth
    ensures forall k :: 0 <= k < |days| ==> days[k] == GridDayAt(FullYear(year), month, today, k) && Valid(days[k].date)
  {
    var fy := FullYear(year);
    MonthFirstAndLast(year, month);
    var firstDay := NewDate(year, month - 1, 1);
    var lastDay := NewDate(year, month, 0);
    daysInMonth := lastDay.day;
    startDay := Weekday(firstDay);
    days := [];
    for day := 1 to daysInMonth + 1
      invariant |days| == day - 1
      invariant forall k :: 0 <= k < |days| ==> days[k] == GridDayAt(fy, month, today, k) && Valid(days[k].date)
    {
      var date := NewDate(year, month - 1, day);
      GridDayOfDate(fy, month, today, day);
      GridPrefixGrows(fy, month, today, days, GridDay(day, date, date == today));
      days := days + [GridDay(day, date, date == today)];
    }
  }

  /** The day built with `new Date(year, month - 1, day)` is entry `day - 1`. */
  lemma GridDayOfDate(y: int, m: int, today: Date, day: int)
    requires 1 <= m <= 12 && 1 <= day <= DaysInMonth(y, m)
    ensures var date := MakeDate(y, m - 1, day);
            GridDay(day, date, date == today) == GridDayAt(y, m, today, day - 1) && Valid(date)
  {
    MakeDateOfValid(Date(y, m, day));
  }

  lemma GridPrefixGrows(y: int, m: int, today: Date, days: seq<GridDay>, d: GridDay)
    requires 1 <= m <= 12
    requires forall k :: 0 <= k < |days| ==> days[k] == GridDayAt(y, m, today, k) && Valid(days[k].date)
    requires d == GridDayAt(y, m, today, |days|) && Valid(d.date)
    ensures forall k :: 0 <= k < |days| + 1 ==> (days + [d])[k] == GridDayAt(y, m, today, k) && Valid((days + [d])[k].date)
  {
  }
}
