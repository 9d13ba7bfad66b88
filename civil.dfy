/** Civil dates of the proleptic Gregorian calendar (leap years as in section
    3.2.1 of ISO 8601:2004) and the day arithmetic of JavaScript's `Date`: the
    constructor `new Date(y, m, d)` and the setters `setDate`, `setMonth` and
    `setFullYear` accept out-of-range months and days and roll them over, as the
    ECMAScript operation MakeDay does. Time of day is carried unchanged by all of
    these and is not part of a `Date` here. */
module Civil {
  import opened Text

  /** A calendar date; `month` runs 1..12 (JavaScript's `getMonth() + 1`). */
  datatype Date = Date(year: int, month: int, day: int)

  predicate IsLeapYear(y: int) {
    y % 4 == 0 && (y % 100 != 0 || y % 400 == 0)
  }

  function DaysInMonth(y: int, m: int): (n: int)
    requires 1 <= m <= 12
    ensures 28 <= n <= 31
  {
    if m == 2 then (if IsLeapYear(y) then 29 else 28)
    else if m == 4 || m == 6 || m == 9 || m == 11 then 30
    else 31
  }

  function YearLength(y: int): int {
    if IsLeapYear(y) then 366 else 365
  }

  predicate Valid(d: Date) {
    1 <= d.month <= 12 && 1 <= d.day <= DaysInMonth(d.year, d.month)
  }

  /** Days from 0001-01-01 to January 1 of year `y`. */
  function DaysBeforeYear(y: int): int {
    365 * (y - 1) + (y - 1) / 4 - (y - 1) / 100 + (y - 1) / 400
  }

  /** Days from January 1 to the first of month `m` in year `y`. */
  function DaysBeforeMonth(y: int, m: int): int
    requires 1 <= m <= 12
  {
    [0, 31, 59, 90, 120, 151, 181, 212, 243, 273, 304, 334][m - 1]
      + (if m > 2 && IsLeapYear(y) then 1 else 0)
  }

  /** DaysBeforeYear(1970): day 0 of JavaScript time. */
  const UnixEpochDay := 719162

  /** Days since 1970-01-01 of a date whose month is in range; the day may lie
      outside the month and then counts on from its first. */
  function DayNumber(date: Date): int
    requires 1 <= date.month <= 12
  {
    DaysBeforeYear(date.year) + DaysBeforeMonth(date.year, date.month) + date.day - 1 - UnixEpochDay
  }

  /** ECMAScript MakeDay: the day number of year `y`, zero-based month `m0` and
      day of month `d`, where the month may lie outside 0..11 and the day outside
      the month (`new Date(y, m0, d)`): whole years are first taken out of the
      month. */
  function MakeDay(y: int, m0: int, d: int): int {
    DayNumber(Date(y + m0 / 12, m0 % 12 + 1, d))
  }

  // ---------------------------------------------------------------------------
  // Year and month lengths add up

  lemma FloorStep(y: int, k: int)
    requires k > 0
    ensures y / k - (y - 1) / k == (if y % k == 0 then 1 else 0)
  {
    var q, r := (y - 1) / k, (y - 1) % k;
    assert y - 1 == k * q + r && 0 <= r < k;
    if r == k - 1 {
      assert y == k * (q + 1) + 0;
      DivUnique(y, k, q + 1, 0);
    } else {
      assert y == k * q + (r + 1);
      DivUnique(y, k, q, r + 1);
    }
  }

  lemma DivUnique(x: int, k: int, q: int, r: int)
    requires k > 0 && 0 <= r < k && x == k * q + r
    ensures x / k == q && x % k == r
  {
    var q', r' := x / k, x % k;
    assert x == k * q' + r' && 0 <= r' < k;
    assert k * (q' - q) == r - r';
    MulSign(k, q' - q);
  }

  /** A positive multiple of `k` is at least `k`, a negative one at most `-k`. */
  lemma MulSign(k: int, n: int)
    requires k > 0
    ensures n >= 1 ==> k * n >= k
    ensures n <= -1 ==> k * n <= -k
  {
    if n >= 1 {
      MulMonotone(k, 1, n);
    } else if n <= -1 {
      MulMonotone(k, n, -1);
    }
  }

  lemma MulMonotone(k: int, a: int, b: int)
    requires k > 0 && a <= b
    ensures k * a <= k * b
  {
    assert k * b - k * a == k * (b - a);
  }

  lemma LeapDivisors(y: int)
    ensures y % 400 == 0 ==> y % 100 == 0
    ensures y % 100 == 0 ==> y % 4 == 0
  {
    if y % 400 == 0 {
      DivUnique(y, 100, 4 * (y / 400), 0);
    }
    if y % 100 == 0 {
      DivUnique(y, 4, 25 * (y / 100), 0);
    }
  }

  /** Consecutive New Years lie a year's length apart. */
  lemma YearStep(y: int)
    ensures DaysBeforeYear(y + 1) == DaysBeforeYear(y) + YearLength(y)
  {
    FloorStep(y, 4);
    FloorStep(y, 100);
    FloorStep(y, 400);
    LeapDivisors(y);
  }

  /** Consecutive months of one year lie a month's length apart. */
  lemma MonthStep(y: int, m: int)
    requires 1 <= m < 12
    ensures DaysBeforeMonth(y, m + 1) == DaysBeforeMonth(y, m) + DaysInMonth(y, m)
  {
  }

  lemma DecemberEnds(y: int)
    ensures DaysBeforeMonth(y, 12) + DaysInMonth(y, 12) == YearLength(y)
  {
  }

  lemma DaysBeforeMonthGrows(y: int, m1: int, m2: int)
    requires 1 <= m1 < m2 <= 12
    ensures DaysBeforeMonth(y, m1) + DaysInMonth(y, m1) <= DaysBeforeMonth(y, m2)
  {
  }

  lemma {:induction false} DaysBeforeYearGrows(y1: int, y2: int)
    requires y1 <= y2
    ensures DaysBeforeYear(y1) + 365 * (y2 - y1) <= DaysBeforeYear(y2)
    decreases y2 - y1
  {
    if y1 < y2 {
      DaysBeforeYearGrows(y1, y2 - 1);
      YearStep(y2 - 1);
    }
  }

  /** For a month in 1..12, MakeDay needs no month carry. */
  lemma MakeDayInYear(y: int, m: int, d: int)
    requires 1 <= m <= 12
    ensures MakeDay(y, m - 1, d) == DayNumber(Date(y, m, d))
  {
    DivUnique(m - 1, 12, 0, m - 1);
  }

  /** The day after, counted on within the month, is the next day number. */
  lemma NextDayNumber(y: int, m: int, d: int)
    requires 1 <= m <= 12
    ensures DayNumber(Date(y, m, d + 1)) == DayNumber(Date(y, m, d)) + 1
  {
  }

  // ---------------------------------------------------------------------------
  // JavaScript's roll-over

  function PreviousMonth(y: int, m: int): (int, int) {
    if m == 1 then (y - 1, 12) else (y, m - 1)
  }

  function NextMonth(y: int, m: int): (int, int) {
    if m == 12 then (y + 1, 1) else (y, m + 1)
  }

  /** Borrowing a month's worth of days from the previous month keeps the day number. */
  lemma BorrowStep(y: int, m: int, d: int)
    requires 1 <= m <= 12
    ensures var (py, pm) := PreviousMonth(y, m);
            1 <= pm <= 12 && DayNumber(Date(py, pm, d + DaysInMonth(py, pm))) == DayNumber(Date(y, m, d))
  {
    if m == 1 {
      YearStep(y - 1);
      DecemberEnds(y - 1);
    } else {
      MonthStep(y, m - 1);
    }
  }

  /** Carrying a month's worth of days into the next month keeps the day number. */
  lemma CarryStep(y: int, m: int, d: int)
    requires 1 <= m <= 12
    ensures var (ny, nm) := NextMonth(y, m);
            1 <= nm <= 12 && DayNumber(Date(ny, nm, d - DaysInMonth(y, m))) == DayNumber(Date(y, m, d))
  {
    if m == 12 {
      YearStep(y);
      DecemberEnds(y);
    } else {
      MonthStep(y, m);
    }
  }

  /** The valid date that year `y`, month `m` (1..12) and an out-of-range day `d`
      roll over to: a day below 1 borrows from the previous months, a day past the
      month's end carries into the next months. */
  function Normalize(y: int, m: int, d: int): (r: Date)
    requires 1 <= m <= 12
    ensures Valid(r) && DayNumber(r) == DayNumber(Date(y, m, d))
    decreases if d < 1 then 2 - d else 0, if d >= 1 then d else 0
  {
    if d < 1 then
      var (py, pm) := PreviousMonth(y, m);
      BorrowStep(y, m, d);
      Normalize(py, pm, d + DaysInMonth(py, pm))
    else if d > DaysInMonth(y, m) then
      var (ny, nm) := NextMonth(y, m);
      CarryStep(y, m, d);
      Normalize(ny, nm, d - DaysInMonth(y, m))
    else
      Date(y, m, d)
  }

  /** JavaScript `new Date(y, m0, d)` (date part): zero-based month `m0` and day
      `d`, both allowed out of range. */
  function MakeDate(y: int, m0: int, d: int): (r: Date)
    ensures Valid(r) && DayNumber(r) == MakeDay(y, m0, d)
  {
    Normalize(y + m0 / 12, m0 % 12 + 1, d)
  }

  /** The year the `Date` constructor builds for a year argument `y`: it reads
      0..99 as 1900..1999 and takes every other year as it is (section 21.4.2.1
      of ECMA-262). The setters `setDate`, `setMonth` and `setFullYear` do not
      do this. */
  function FullYear(y: int): (r: int)
    ensures !(0 <= r <= 99)
    ensures r == y <==> !(0 <= y <= 99)
    ensures r != y ==> r == 1900 + y
  {
    if 0 <= y <= 99 then 1900 + y else y
  }

  /** JavaScript `new Date(y, m0, d)` (date part): the year read by FullYear,
      then zero-based month `m0` and day `d` rolled over as by MakeDate. */
  function NewDate(y: int, m0: int, d: int): (r: Date)
    ensures Valid(r) && DayNumber(r) == MakeDay(FullYear(y), m0, d)
  {
    MakeDate(FullYear(y), m0, d)
  }

  /** For a month in 1..12, `new Date(y, m - 1, d)` counts `d` on from the
      first of month `m` of the year FullYear reads `y` as. */
  lemma NewDateDayNumber(y: int, m: int, d: int)
    requires 1 <= m <= 12
    ensures DayNumber(NewDate(y, m - 1, d)) == DayNumber(Date(FullYear(y), m, d))
  {
    MakeDayInYear(FullYear(y), m, d);
  }

  /** Outside years 0..99, `new Date(y, m - 1, d)` of a valid date is that date. */
  lemma NewDateOfValid(y: int, m: int, d: int)
    requires 1 <= m <= 12 && 1 <= d <= DaysInMonth(y, m) && !(0 <= y <= 99)
    ensures NewDate(y, m - 1, d) == Date(y, m, d)
  {
    MakeDateOfValid(Date(y, m, d));
  }

  /** `new Date(y, m - 1, d + 1)` is the day after day `d` of month `m` of the
      year FullYear reads `y` as. */
  lemma NewDateNextDay(y: int, m: int, d: int)
    requires 1 <= m <= 12
    ensures DayNumber(NewDate(y, m - 1, d + 1)) == DayNumber(Date(FullYear(y), m, d)) + 1
  {
    NewDateDayNumber(y, m, d + 1);
    NextDayNumber(FullYear(y), m, d);
  }

  /** `new Date(24, 0, 1)` is January 1, 1924, while a year of 100 or more,
      or a negative one, is kept. */
  lemma NewDateTwoDigitYear()
    ensures NewDate(24, 0, 1) == Date(1924, 1, 1)
    ensures NewDate(100, 0, 1) == Date(100, 1, 1)
    ensures NewDate(-1, 0, 1) == Date(-1, 1, 1)
  {
    MakeDateOfValid(Date(1924, 1, 1));
    MakeDateOfValid(Date(100, 1, 1));
    MakeDateOfValid(Date(-1, 1, 1));
  }

  /** `date.setDate(date.getDate() + k)`: the date `k` days later (earlier when negative). */
  function AddDays(date: Date, k: int): (r: Date)
    requires Valid(date)
    ensures Valid(r) && DayNumber(r) == DayNumber(date) + k
  {
    MakeDayInYear(date.year, date.month, date.day + k);
    MakeDate(date.year, date.month - 1, date.day + k)
  }

  /** The date that lies `n` days after 1970-01-01. */
  function FromDayNumber(n: int): (r: Date)
    ensures Valid(r) && DayNumber(r) == n
  {
    MakeDayInYear(1970, 1, n + 1);
    MakeDate(1970, 0, n + 1)
  }

  /** JavaScript `getDay()`: 0 is Sunday and 6 is Saturday (1970-01-01 was a Thursday). */
  function Weekday(date: Date): (w: int)
    requires Valid(date)
    ensures 0 <= w < 7
    ensures date == Date(1970, 1, 1) ==> w == 4
  {
    (DayNumber(date) + 4) % 7
  }

  // ---------------------------------------------------------------------------
  // Day numbers order the calendar

  /** Calendar order: by year, then month, then day. */
  predicate Before(a: Date, b: Date) {
    a.year < b.year || (a.year == b.year && (a.month < b.month || (a.month == b.month && a.day < b.day)))
  }

  lemma BeforeMeansFewerDays(a: Date, b: Date)
    requires Valid(a) && Valid(b) && Before(a, b)
    ensures DayNumber(a) < DayNumber(b)
  {
    if a.year < b.year {
      if a.month < 12 {
        DaysBeforeMonthGrows(a.year, a.month, 12);
      }
      DecemberEnds(a.year);
      YearStep(a.year);
      DaysBeforeYearGrows(a.year + 1, b.year);
    } else if a.month < b.month {
      DaysBeforeMonthGrows(a.year, a.month, b.month);
    }
  }

  /** Day numbers respect calendar order, in both directions. */
  lemma DayNumberOrder(a: Date, b: Date)
    requires Valid(a) && Valid(b)
    ensures DayNumber(a) < DayNumber(b) <==> Before(a, b)
  {
    if Before(a, b) {
      BeforeMeansFewerDays(a, b);
    } else if Before(b, a) {
      BeforeMeansFewerDays(b, a);
    }
  }

  /** Different valid dates have different day numbers. */
  lemma DayNumberInjective(a: Date, b: Date)
    requires Valid(a) && Valid(b) && DayNumber(a) == DayNumber(b)
    ensures a == b
  {
    DayNumberOrder(a, b);
    DayNumberOrder(b, a);
  }

  /** Counting days and converting back gives the date again. */
  lemma FromDayNumberRoundTrip(date: Date)
    requires Valid(date)
    ensures FromDayNumber(DayNumber(date)) == date
  {
    DayNumberInjective(FromDayNumber(DayNumber(date)), date);
  }

  /** A valid date is its own roll-over. */
  lemma MakeDateOfValid(date: Date)
    requires Valid(date)
    ensures MakeDate(date.year, date.month - 1, date.day) == date
  {
    MakeDayInYear(date.year, date.month, date.day);
    DayNumberInjective(MakeDate(date.year, date.month - 1, date.day), date);
  }

  /** The first of the month. */
  lemma MakeDateFirst(y: int, m0: int)
    ensures MakeDate(y, m0, 1) == Date(y + m0 / 12, m0 % 12 + 1, 1)
  {
    DayNumberInjective(MakeDate(y, m0, 1), Date(y + m0 / 12, m0 % 12 + 1, 1));
  }

  /** Day 0 of a month is the last day of the month before it. */
  lemma MakeDateDayZero(y: int, m0: int)
    ensures var (py, pm) := PreviousMonth(y + m0 / 12, m0 % 12 + 1);
            MakeDate(y, m0, 0) == Date(py, pm, DaysInMonth(py, pm))
  {
    var (py, pm) := PreviousMonth(y + m0 / 12, m0 % 12 + 1);
    BorrowStep(y + m0 / 12, m0 % 12 + 1, 0);
    DayNumberInjective(MakeDate(y, m0, 0), Date(py, pm, DaysInMonth(py, pm)));
  }

  // ---------------------------------------------------------------------------
  // Month and year setters

  /** `date.setMonth(date.getMonth() + k)`: the same day of month `k` months
      later, rolled over when the target month is too short. */
  function AddMonths(date: Date, k: int): (r: Date)
    ensures Valid(r)
  {
    MakeDate(date.year, date.month - 1 + k, date.day)
  }

  /** `date.setFullYear(date.getFullYear() + k)`: the same month and day `k`
      years later, rolled over when that is February 29 of a common year. */
  function AddYears(date: Date, k: int): (r: Date)
    ensures Valid(r)
  {
    MakeDate(date.year + k, date.month - 1, date.day)
  }

  /** The year and month (1..12) that lie `k` months after month `m` of year `y`. */
  function ShiftMonth(y: int, m: int, k: int): (t: (int, int))
    ensures 1 <= t.1 <= 12
  {
    var m0 := m - 1 + k;
    (y + m0 / 12, m0 % 12 + 1)
  }

  /** setMonth keeps the day of month when the target month has it, and
      otherwise carries the excess days into the month after. */
  lemma AddMonthsLands(date: Date, k: int)
    requires Valid(date)
    ensures var (ty, tm) := ShiftMonth(date.year, date.month, k);
            var (ny, nm) := NextMonth(ty, tm);
            AddMonths(date, k) ==
              if date.day <= DaysInMonth(ty, tm) then Date(ty, tm, date.day)
              else Date(ny, nm, date.day - DaysInMonth(ty, tm))
  {
    var (ty, tm) := ShiftMonth(date.year, date.month, k);
    if date.day <= DaysInMonth(ty, tm) {
      AddMonthsKeepsDay(date, k, ty, tm);
    } else {
      AddMonthsCarries(date, k, ty, tm);
    }
  }

  lemma AddMonthsKeepsDay(date: Date, k: int, ty: int, tm: int)
    requires Valid(date) && (ty, tm) == ShiftMonth(date.year, date.month, k)
    requires date.day <= DaysInMonth(ty, tm)
    ensures AddMonths(date, k) == Date(ty, tm, date.day)
  {
    var target := Date(ty, tm, date.day);
    AddMonthsAt(date, k, ty, tm);
    assert Valid(target);
    DayNumberInjective(AddMonths(date, k), target);
  }

  lemma AddMonthsCarries(date: Date, k: int, ty: int, tm: int)
    requires Valid(date) && (ty, tm) == ShiftMonth(date.year, date.month, k)
    requires date.day > DaysInMonth(ty, tm)
    ensures AddMonths(date, k) == Date(NextMonth(ty, tm).0, NextMonth(ty, tm).1, date.day - DaysInMonth(ty, tm))
  {
    var r := Date(NextMonth(ty, tm).0, NextMonth(ty, tm).1, date.day - DaysInMonth(ty, tm));
    AddMonthsAt(date, k, ty, tm);
    CarryDate(ty, tm, date.day);
    DayNumberInjective(AddMonths(date, k), r);
  }

  /** A k-month shift counts days from the month ShiftMonth names. */
  lemma AddMonthsAt(date: Date, k: int, ty: int, tm: int)
    requires (ty, tm) == ShiftMonth(date.year, date.month, k)
    ensures DayNumber(AddMonths(date, k)) == DayNumber(Date(ty, tm, date.day))
  {
    var m0 := date.month - 1 + k;
    assert Date(ty, tm, date.day) == Date(date.year + m0 / 12, m0 % 12 + 1, date.day);
    assert DayNumber(AddMonths(date, k)) == MakeDay(date.year, m0, date.day);
  }

  /** A day at most 31 past the end of month `m` is a valid day of the month after. */
  lemma CarryDate(y: int, m: int, d: int)
    requires 1 <= m <= 12 && DaysInMonth(y, m) < d <= 31
    ensures var (ny, nm) := NextMonth(y, m);
            var r := Date(ny, nm, d - DaysInMonth(y, m));
            Valid(r) && DayNumber(r) == DayNumber(Date(y, m, d))
  {
    CarryStep(y, m, d);
  }

  /** Moving `k` months and back is the identity on days every month has. */
  lemma AddMonthsInverse(date: Date, k: int)
    requires Valid(date) && date.day <= 28
    ensures AddMonths(AddMonths(date, k), -k) == date
  {
    var (ty, tm) := ShiftMonth(date.year, date.month, k);
    AddMonthsKeepsDay(date, k, ty, tm);
    var there := Date(ty, tm, date.day);
    var m0 := date.month - 1 + k;
    var q, r := m0 / 12, m0 % 12;
    assert m0 == 12 * q + r;
    DivUnique(r - k, 12, -q, date.month - 1);
    AddMonthsKeepsDay(there, -k, date.year, date.month);
  }

  /** setFullYear keeps month and day, except that February 29 of a common
      year rolls over to March 1. */
  lemma AddYearsLands(date: Date, k: int)
    requires Valid(date)
    ensures AddYears(date, k) ==
              if date.day <= DaysInMonth(date.year + k, date.month) then Date(date.year + k, date.month, date.day)
              else Date(date.year + k, 3, 1)
  {
    if date.day <= DaysInMonth(date.year + k, date.month) {
      AddYearsKeepsDay(date, k);
    } else {
      AddYearsLeapDay(date, k);
    }
  }

  lemma AddYearsKeepsDay(date: Date, k: int)
    requires Valid(date) && date.day <= DaysInMonth(date.year + k, date.month)
    ensures AddYears(date, k) == Date(date.year + k, date.month, date.day)
  {
    var target := Date(date.year + k, date.month, date.day);
    assert Valid(target);
    var r := AddYears(date, k);
    MakeDayInYear(target.year, target.month, target.day);
    assert DayNumber(r) == MakeDay(target.year, target.month - 1, target.day);
    DayNumberInjective(r, target);
  }

  lemma AddYearsLeapDay(date: Date, k: int)
    requires Valid(date) && date.day > DaysInMonth(date.year + k, date.month)
    ensures AddYears(date, k) == Date(date.year + k, 3, 1)
  {
    var y := date.year + k;
    assert date.month == 2 && date.day == 29 && DaysInMonth(y, 2) == 28;
    MakeDayInYear(y, 2, 29);
    CarryStep(y, 2, 29);
    DayNumberInjective(AddYears(date, k), Date(y, 3, 1));
  }

  // ---------------------------------------------------------------------------
  // Month boundaries and weeks

  /** `new Date(y, m - 1, 1)` is the first of month `m` and `new Date(y, m, 0)`
      its last day, in the year FullYear reads `y` as. */
  lemma MonthFirstAndLast(y: int, m: int)
    requires 1 <= m <= 12
    ensures NewDate(y, m - 1, 1) == Date(FullYear(y), m, 1)
    ensures NewDate(y, m, 0) == Date(FullYear(y), m, DaysInMonth(FullYear(y), m))
  {
    MakeDateMonthFirstAndLast(FullYear(y), m);
  }

  /** MakeDate's first and last day of month `m`. */
  lemma MakeDateMonthFirstAndLast(y: int, m: int)
    requires 1 <= m <= 12
    ensures MakeDate(y, m - 1, 1) == Date(y, m, 1)
    ensures MakeDate(y, m, 0) == Date(y, m, DaysInMonth(y, m))
  {
    MakeDateOfValid(Date(y, m, 1));
    MakeDateDayZero(y, m);
    if m == 12 {
      DivUnique(m, 12, 1, 0);
    } else {
      DivUnique(m, 12, 0, m);
    }
  }

  /** `new Date(y, m - 2, 1)` and `new Date(y, m - 1, 0)` are the first and the
      last day of the month before month `m`. */
  lemma PreviousMonthFirstAndLast(y: int, m: int)
    requires 1 <= m <= 12
    ensures var (py, pm) := PreviousMonth(y, m);
            MakeDate(y, m - 2, 1) == Date(py, pm, 1) &&
            MakeDate(y, m - 1, 0) == Date(py, pm, DaysInMonth(py, pm))
  {
    PreviousMonthFirst(y, m);
    PreviousMonthLast(y, m);
  }

  lemma PreviousMonthFirst(y: int, m: int)
    requires 1 <= m <= 12
    ensures var (py, pm) := PreviousMonth(y, m);
            MakeDate(y, m - 2, 1) == Date(py, pm, 1)
  {
    MakeDateFirst(y, m - 2);
    if m == 1 {
      DivUnique(-1, 12, -1, 11);
    } else {
      DivUnique(m - 2, 12, 0, m - 2);
    }
  }

  lemma PreviousMonthLast(y: int, m: int)
    requires 1 <= m <= 12
    ensures var (py, pm) := PreviousMonth(y, m);
            MakeDate(y, m - 1, 0) == Date(py, pm, DaysInMonth(py, pm))
  {
    MakeDateDayZero(y, m - 1);
    DivUnique(m - 1, 12, 0, m - 1);
  }

  /** `new Date(y, m, d)` for a day every month has is day `d` of the month
      after month `m`. */
  lemma NextMonthDay(y: int, m: int, d: int)
    requires 1 <= m <= 12 && 1 <= d <= 28
    ensures var (ny, nm) := NextMonth(y, m);
            MakeDate(y, m, d) == Date(ny, nm, d)
  {
    var (ny, nm) := NextMonth(y, m);
    if m == 12 {
      DivUnique(m, 12, 1, 0);
    } else {
      DivUnique(m, 12, 0, m);
    }
    DayNumberInjective(MakeDate(y, m, d), Date(ny, nm, d));
  }

  /** Counting `k` days from the Sunday on or before `a` lands on weekday `k mod 7`. */
  lemma WeekdayFromSunday(a: Date, b: Date, k: int)
    requires Valid(a) && Valid(b) && DayNumber(b) == DayNumber(a) - Weekday(a) + k
    ensures Weekday(b) == k % 7
  {
    var x := DayNumber(a) + 4;
    assert x == 7 * (x / 7) + x % 7;
    assert k == 7 * (k / 7) + k % 7;
    DivUnique(DayNumber(b) + 4, 7, x / 7 + k / 7, k % 7);
  }

  /** A date less than a year's length away from `date` lies in the year
      before, the same year or the year after. */
  lemma NearbyYear(a: Date, date: Date, k: int)
    requires Valid(a) && Valid(date) && 0 <= k <= 365
    requires DayNumber(date) - k <= DayNumber(a) <= DayNumber(date) + k
    ensures date.year - 1 <= a.year <= date.year + 1
  {
    var y := date.year;
    if date.month < 12 {
      DaysBeforeMonthGrows(y, date.month, 12);
    }
    DecemberEnds(y);
    YearStep(y - 1);
    YearStep(y);
    YearStep(y + 1);
    DecemberEnds(y + 1);
    if a.year < y - 1 {
      DayNumberOrder(a, Date(y - 1, 1, 1));
    } else if a.year > y + 1 {
      DayNumberOrder(Date(y + 1, 12, 31), a);
    }
  }

  /** Reducing the first summand modulo 7 does not change a sum modulo 7. */
  lemma ModSevenSum(a: int, b: int)
    ensures (a % 7 + b) % 7 == (a + b) % 7
  {
    assert a == 7 * (a / 7) + a % 7;
    assert a + b == 7 * ((a + b) / 7) + (a + b) % 7;
    DivUnique(a % 7 + b, 7, (a + b) / 7 - a / 7, (a + b) % 7);
  }

  // ---------------------------------------------------------------------------
  // ISO 8601 date keys

  /** The year as `Date.prototype.toISOString` writes it: four digits for years
      0..9999, otherwise a sign and six digits. */
  function YearText(y: int): string {
    if 0 <= y <= 9999 then Digits(y, 4)
    else if y < 0 then "-" + Digits(-y, 6)
    else "+" + Digits(y, 6)
  }

  /** The `YYYY-MM-DD` key of a date (section 4.1.2.2 of ISO 8601:2004), the part
      of `toISOString()` before the `T`. */
  function DateKey(date: Date): (k: string)
    requires Valid(date)
    ensures 'T' !in k
    ensures 0 <= date.year <= 9999 ==> |k| == 10 && k[4] == '-' && k[7] == '-' && IsDigits(k[..4] + k[5..7] + k[8..])
  {
    YearText(date.year) + "-" + Digits(date.month, 2) + "-" + Digits(date.day, 2)
  }

  /** Whether a year is written with exactly four digits. */
  predicate FourDigitYear(date: Date) {
    0 <= date.year <= 9999
  }

  /** For four-digit years, comparing date keys as strings is comparing the dates. */
  lemma DateKeyOrder(a: Date, b: Date)
    requires Valid(a) && Valid(b) && FourDigitYear(a) && FourDigitYear(b)
    ensures LexLess(DateKey(a), DateKey(b)) <==> DayNumber(a) < DayNumber(b)
  {
    var ya, yb := Digits(a.year, 4), Digits(b.year, 4);
    var ma, mb := Digits(a.month, 2), Digits(b.month, 2);
    var da, db := Digits(a.day, 2), Digits(b.day, 2);
    assert DateKey(a) == ya + ("-" + (ma + ("-" + da)));
    assert DateKey(b) == yb + ("-" + (mb + ("-" + db)));
    LexLessConcat(ya, yb, "-" + (ma + ("-" + da)), "-" + (mb + ("-" + db)));
    LexLessConcat("-", "-", ma + ("-" + da), mb + ("-" + db));
    LexLessConcat(ma, mb, "-" + da, "-" + db);
    LexLessConcat("-", "-", da, db);
    LexLessIrreflexive("-");
    assert Pow10(4) == 10000 && Pow10(2) == 100;
    DigitsOrder(a.year, b.year, 4);
    DigitsOrder(b.year, a.year, 4);
    DigitsOrder(a.month, b.month, 2);
    DigitsOrder(b.month, a.month, 2);
    DigitsOrder(a.day, b.day, 2);
    LexLessIrreflexive(ya);
    LexLessIrreflexive(ma);
    DayNumberOrder(a, b);
  }

  /** For four-digit years, `key(a) <= key(b)` as strings exactly when `a` is not after `b`. */
  lemma DateKeyLe(a: Date, b: Date)
    requires Valid(a) && Valid(b) && FourDigitYear(a) && FourDigitYear(b)
    ensures LexLe(DateKey(a), DateKey(b)) <==> DayNumber(a) <= DayNumber(b)
  {
    DateKeyOrder(b, a);
  }

  /** For four-digit years, different dates have different keys. */
  lemma DateKeyInjective(a: Date, b: Date)
    requires Valid(a) && Valid(b) && FourDigitYear(a) && FourDigitYear(b)
    requires DateKey(a) == DateKey(b)
    ensures a == b
  {
    LexLessIrreflexive(DateKey(a));
    DateKeyOrder(a, b);
    DateKeyOrder(b, a);
    DayNumberInjective(a, b);
  }

  // ---------------------------------------------------------------------------
  // Keys across the whole time range

  /** ECMAScript time values lie within 100,000,000 days of 1970-01-01
      (section 21.4.1.1 of ECMA-262). */
  const MaxTimeDays := 100000000

  /** A date within the time range has a year of at most six digits. */
  lemma YearInTimeRange(date: Date)
    requires Valid(date) && -MaxTimeDays <= DayNumber(date) <= MaxTimeDays
    ensures -1000000 < date.year < 1000000
  {
    if date.year >= 1000000 {
      DaysBeforeYearGrows(1000000, date.year);
    } else if date.year <= -1000000 {
      DaysBeforeYearGrows(date.year, -1000000);
    }
  }

  /** A key is its year text followed by six characters `-MM-DD`. */
  lemma DateKeyParts(date: Date)
    requires Valid(date)
    ensures var tail := "-" + Digits(date.month, 2) + "-" + Digits(date.day, 2);
            |tail| == 6 && DateKey(date) == YearText(date.year) + tail &&
            tail[1..3] == Digits(date.month, 2) && tail[4..] == Digits(date.day, 2)
  {
  }

  /** Years of at most six digits have different year texts. */
  lemma YearTextInjective(a: int, b: int)
    requires -1000000 < a < 1000000 && -1000000 < b < 1000000
    requires YearText(a) == YearText(b)
    ensures a == b
  {
    assert Pow10(4) == 10000 && Pow10(6) == 1000000;
    if 0 <= a <= 9999 && 0 <= b <= 9999 {
      DigitsRoundTrip(a, 4);
      DigitsRoundTrip(b, 4);
    } else if !(0 <= a <= 9999 || 0 <= b <= 9999) {
      var da, db := YearText(a)[1..], YearText(b)[1..];
      assert da == (if a < 0 then Digits(-a, 6) else Digits(a, 6));
      assert db == (if b < 0 then Digits(-b, 6) else Digits(b, 6));
      assert (a < 0) == (YearText(a)[0] == '-');
      assert (b < 0) == (YearText(b)[0] == '-');
      if a < 0 { DigitsRoundTrip(-a, 6); } else { DigitsRoundTrip(a, 6); }
      if b < 0 { DigitsRoundTrip(-b, 6); } else { DigitsRoundTrip(b, 6); }
    }
  }

  /** Dates within the time range have different keys. */
  lemma DateKeyInjectiveInRange(a: Date, b: Date)
    requires Valid(a) && -MaxTimeDays <= DayNumber(a) <= MaxTimeDays
    requires Valid(b) && -MaxTimeDays <= DayNumber(b) <= MaxTimeDays
    requires DateKey(a) == DateKey(b)
    ensures a == b
  {
    YearInTimeRange(a);
    YearInTimeRange(b);
    DateKeyParts(a);
    DateKeyParts(b);
    var ka, kb := DateKey(a), DateKey(b);
    var ya, yb := YearText(a.year), YearText(b.year);
    assert ya == ka[..|ka| - 6] && yb == kb[..|kb| - 6];
    YearTextInjective(a.year, b.year);
    assert ka[|ka| - 6..] == kb[|kb| - 6..];
    assert Pow10(2) == 100;
    DigitsRoundTrip(a.month, 2);
    DigitsRoundTrip(b.month, 2);
    DigitsRoundTrip(a.day, 2);
    DigitsRoundTrip(b.day, 2);
  }
}
