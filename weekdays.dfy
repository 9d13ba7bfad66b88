/** The days of the week view and the week's number within its month. */
module WeekDays {
  import opened Civil
  import MonthView

  // ---------------------------------------------------------------------------
  // getWeekDays

  /** The Sunday on or before `date` and the six days after it. */
  function GetWeekDays(date: Date): (days: seq<Date>)
    requires Valid(date)
    ensures |days| == 7
    ensures forall i :: 0 <= i < 7 ==> Valid(days[i]) && DayNumber(days[i]) == DayNumber(date) - Weekday(date) + i
  {
    var start := AddDays(date, -Weekday(date));
    seq(7, i requires 0 <= i < 7 => AddDays(start, i))
  }

  /** The week runs Sunday to Saturday, one day after another, and holds `date`
      in the place of its weekday. */
  lemma WeekDaysRunSundayToSaturday(date: Date)
    requires Valid(date)
    ensures var days := GetWeekDays(date);
            (forall i :: 0 <= i < 7 ==> Weekday(days[i]) == i) &&
            (forall i :: 0 <= i < 6 ==> DayNumber(days[i + 1]) == DayNumber(days[i]) + 1) &&
            days[Weekday(date)] == date
  {
    var days := GetWeekDays(date);
    forall i | 0 <= i < 7
      ensures Weekday(days[i]) == i
    {
      WeekdayInWeek(date, days[i], i);
    }
    DayNumberInjective(days[Weekday(date)], date);
  }

  /** The day `i` places after the Sunday on or before `date` has weekday `i`. */
  lemma WeekdayInWeek(date: Date, d: Date, i: int)
    requires Valid(date) && Valid(d) && 0 <= i < 7
    requires DayNumber(d) == DayNumber(date) - Weekday(date) + i
    ensures Weekday(d) == i
  {
    WeekdayFromSunday(date, d, i);
    assert i % 7 == i;
  }

  /** Every day of the week of `date` has the same week as `date`. */
  lemma SameWeek(date: Date, i: int)
    requires Valid(date) && 0 <= i < 7
    ensures GetWeekDays(GetWeekDays(date)[i]) == GetWeekDays(date)
  {
    var days := GetWeekDays(date);
    var other := GetWeekDays(days[i]);
    WeekDaysRunSundayToSaturday(date);
    forall j | 0 <= j < 7
      ensures other[j] == days[j]
    {
      DayNumberInjective(other[j], days[j]);
    }
  }

  // ---------------------------------------------------------------------------
  // The week number

  /** `Math.ceil((getDate() + new Date(y, m - 1, 1).getDay()) / 7)`; the
      constructor reads a year 0..99 as 1900 + y. */
  function WeekNumber(date: Date): (n: int)
    requires Valid(date)
    ensures 1 <= n <= 6
  {
    var x := date.day + Weekday(NewDate(date.year, date.month - 1, 1));
    assert 1 <= x <= 37;
    (x + 6) / 7
  }

  /** The week number is the row (counting from one) of the day of the month
      in the month grid of the year FullYear reads the date's year as; for a
      year other than 0..99 that grid is the date's own and the row holds the
      date. */
  lemma WeekNumberIsGridRow(date: Date)
    requires Valid(date)
    ensures var k := MonthView.Lead(FullYear(date.year), date.month) + date.day - 1;
            WeekNumber(date) == k / 7 + 1
    ensures var k := MonthView.Lead(date.year, date.month) + date.day - 1;
            !(0 <= date.year <= 99) ==> MonthView.GridDate(date.year, date.month, k) == date
  {
    var fy := FullYear(date.year);
    MonthFirstAndLast(date.year, date.month);
    var k := MonthView.Lead(fy, date.month) + date.day - 1;
    DivUnique(k + 7, 7, k / 7 + 1, k % 7);
    GridPlace(date);
  }

  /** For a year other than 0..99, that row of the month grid shows the same
      seven days as the week view. */
  lemma WeekRowIsWeek(date: Date, i: int)
    requires Valid(date) && 0 <= i < 7
    ensures !(0 <= date.year <= 99) ==>
              GetWeekDays(date)[i] == MonthView.GridDate(date.year, date.month, 7 * (WeekNumber(date) - 1) + i)
  {
    if !(0 <= date.year <= 99) {
      var k := MonthView.Lead(date.year, date.month) + date.day - 1;
      WeekNumberOwnYear(date);
      assert 7 * (WeekNumber(date) - 1) + i == 7 * (k / 7) + i;
      GridRowDay(date, i);
    }
  }

  /** Outside years 0..99 the week number is the row of the date's own month grid. */
  lemma WeekNumberOwnYear(date: Date)
    requires Valid(date) && !(0 <= date.year <= 99)
    ensures WeekNumber(date) == (MonthView.Lead(date.year, date.month) + date.day - 1) / 7 + 1
  {
    WeekNumberIsGridRow(date);
  }

  /** In year 24 the week number counts from the weekday of 1924-03-01 (a
      Saturday), not of 0024-03-01 (a Friday): March 2 is in week 2 of the
      1924 grid though it is in week 1 of its own month's grid. */
  lemma WeekNumberTwoDigitYear()
    ensures WeekNumber(Date(24, 3, 2)) == 2
    ensures (MonthView.Lead(24, 3) + 2 - 1) / 7 + 1 == 1
  {
    MonthFirstAndLast(24, 3);
    assert Weekday(Date(1924, 3, 1)) == 6;
    assert Weekday(Date(24, 3, 1)) == 5;
  }

  /** The date sits at position `Lead + day - 1` of its month's grid. */
  lemma GridPlace(date: Date)
    requires Valid(date)
    ensures var k := MonthView.Lead(date.year, date.month) + date.day - 1;
            0 <= k < 42 && MonthView.GridDate(date.year, date.month, k) == date &&
            Weekday(date) == k % 7
  {
    var k := MonthView.Lead(date.year, date.month) + date.day - 1;
    MonthView.GridDateIsDay(date.year, date.month, k);
    DayNumberInjective(MonthView.GridDate(date.year, date.month, k), date);
  }

  /** Day `i` of the week of `date` is the grid's entry `i` in the date's row. */
  lemma GridRowDay(date: Date, i: int)
    requires Valid(date) && 0 <= i < 7
    ensures var k := MonthView.Lead(date.year, date.month) + date.day - 1;
            GetWeekDays(date)[i] == MonthView.GridDate(date.year, date.month, 7 * (k / 7) + i)
  {
    var y, m := date.year, date.month;
    var k := MonthView.Lead(y, m) + date.day - 1;
    var j := 7 * (k / 7) + i;
    GridPlace(date);
    var first := DayNumber(Date(y, m, 1)) - MonthView.Lead(y, m);
    assert DayNumber(date) == first + k by {
      MonthView.GridDateIsDay(y, m, k);
    }
    assert 0 <= j < 42 && j == k - Weekday(date) + i;
    var cell := MonthView.GridDate(y, m, j);
    MonthView.GridDateIsDay(y, m, j);
    var day := GetWeekDays(date)[i];
    assert Valid(cell) && Valid(day) && DayNumber(cell) == DayNumber(day);
    DayNumberInjective(day, cell);
  }
}
