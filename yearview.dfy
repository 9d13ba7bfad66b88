/** The year view: twelve mini months (Sunday-first) or twelve "glance"
    columns (Monday-first, padded to whole weeks), and the clicks that leave
    the year for a month or a day. */
module YearView {
  import opened Wrappers
  import opened Civil
  import opened Types
  import opened Store

  // ---------------------------------------------------------------------------
  // Monday-first weekdays

  /** toMondayFirst: Sunday 0 .. Saturday 6 becomes Monday 0 .. Sunday 6. */
  function ToMondayFirst(dayOfWeek: int): (r: int)
    ensures 0 <= dayOfWeek < 7 ==> 0 <= r < 7 && (r + 1) % 7 == dayOfWeek
  {
    if dayOfWeek == 0 then 6 else dayOfWeek - 1
  }

  /** Back from Monday-first to Sunday-first. */
  function ToSundayFirst(r: int): (dayOfWeek: int)
    requires 0 <= r < 7
    ensures 0 <= dayOfWeek < 7
  {
    (r + 1) % 7
  }

  /** The two numberings are inverse bijections of 0..6. */
  lemma MondayFirstBijection(d: int, r: int)
    requires 0 <= d < 7 && 0 <= r < 7
    ensures ToSundayFirst(ToMondayFirst(d)) == d
    ensures ToMondayFirst(ToSundayFirst(r)) == r
    ensures ToMondayFirst(d) == r <==> d == ToSundayFirst(r)
  {
  }

  /** Monday-first, 1970-01-01 (a Thursday) is day 3 of its week. */
  lemma MondayFirstWeekday(date: Date)
    requires Valid(date)
    ensures ToMondayFirst(Weekday(date)) == (DayNumber(date) + 3) % 7
  {
    var n := DayNumber(date);
    assert n + 4 == 7 * ((n + 4) / 7) + Weekday(date);
    if Weekday(date) == 0 {
      DivUnique(n + 3, 7, (n + 4) / 7 - 1, 6);
    } else {
      DivUnique(n + 3, 7, (n + 4) / 7, Weekday(date) - 1);
    }
  }

  /** In the glance column, a weekday of 5 or more is a weekend day, 6 is
      Sunday and 0 is Monday. */
  predicate GlanceWeekend(dayOfWeek: int) {
    dayOfWeek >= 5
  }

  /** The Monday-first weekend is the Sunday-first weekend of the month view. */
  lemma GlanceWeekendIsWeekend(date: Date)
    requires Valid(date)
    ensures GlanceWeekend(ToMondayFirst(Weekday(date))) <==> Weekday(date) == 0 || Weekday(date) == 6
    ensures ToMondayFirst(Weekday(date)) == 6 <==> Weekday(date) == 0
    ensures ToMondayFirst(Weekday(date)) == 0 <==> Weekday(date) == 1
  {
  }

  // ---------------------------------------------------------------------------
  // The glance column

  /** A slot of the glance column, with its Monday-first weekday. */
  datatype Slot =
    | EmptySlot(dayOfWeek: int)
    | DaySlot(day: int, date: Date, isToday: bool, dayOfWeek: int)

  /** The empty slots before the first: its Monday-first weekday. */
  function GlanceLead(y: int, m: int): (n: int)
    requires 1 <= m <= 12
    ensures 0 <= n < 7
  {
    ToMondayFirst(Weekday(Date(y, m, 1)))
  }

  /** The column's length: five weeks when the month fits in them, else six. */
  function GlanceLength(y: int, m: int): int
    requires 1 <= m <= 12
  {
    if GlanceLead(y, m) + DaysInMonth(y, m) <= 35 then 35 else 42
  }

  /** Slot `k` of the column of month `m`. */
  function GlanceSlot(y: int, m: int, today: Date, k: int): Slot
    requires 1 <= m <= 12 && 0 <= k
  {
    var lead := GlanceLead(y, m);
    if k < lead then EmptySlot(k)
    else if k < lead + DaysInMonth(y, m) then
      var date := Date(y, m, k - lead + 1);
      DaySlot(k - lead + 1, date, date == today, ToMondayFirst(Weekday(date)))
    else EmptySlot(k % 7)
  }

  /** The column is whole weeks long and holds every day of the month. */
  lemma GlanceShape(y: int, m: int)
    requires 1 <= m <= 12
    ensures GlanceLength(y, m) % 7 == 0
    ensures GlanceLead(y, m) + DaysInMonth(y, m) <= GlanceLength(y, m) <= 42
  {
  }

  /** Every slot, empty or not, sits in the weekday column of its index. */
  lemma GlanceWeekdays(y: int, m: int, today: Date, k: int)
    requires 1 <= m <= 12 && 0 <= k
    ensures GlanceSlot(y, m, today, k).dayOfWeek == k % 7
  {
    var lead := GlanceLead(y, m);
    if lead <= k < lead + DaysInMonth(y, m) {
      var first, date := Date(y, m, 1), Date(y, m, k - lead + 1);
      MondayFirstWeekday(first);
      MondayFirstWeekday(date);
      ModSevenSum(DayNumber(first) + 3, k - lead);
    }
  }

  /** The day slots are exactly the days of the month, numbered in order from
      the slot after the lead. */
  lemma GlanceDays(y: int, m: int, today: Date, k: int)
    requires 1 <= m <= 12 && 0 <= k
    ensures var s := GlanceSlot(y, m, today, k);
            s.DaySlot? <==> GlanceLead(y, m) <= k < GlanceLead(y, m) + DaysInMonth(y, m)
    ensures var s := GlanceSlot(y, m, today, k);
            s.DaySlot? ==> Valid(s.date) && s.date.year == y && s.date.month == m &&
                           s.day == s.date.day && s.isToday == (s.date == today) &&
                           (k > 0 ==> GlanceSlot(y, m, today, k - 1).EmptySlot? || GlanceSlot(y, m, today, k - 1).day == s.day - 1)
  {
  }

  /** GlanceMonthColumn's grid: empty slots up to the first, the days of the
      month, then empty slots to 35 or 42, all in the year FullYear reads
      `year` as (1900 + year for years 0..99). `today` stands for the clock. */
  method GlanceMonthColumn(year: int, month: int, today: Date) returns (slots: seq<Slot>)
    requires 1 <= month <= 12
    ensures |slots| == GlanceLength(FullYear(year), month)
    ensures forall k :: 0 <= k < |slots| ==> slots[k] == GlanceSlot(FullYear(year), month, today, k)
  {
    var fy := FullYear(year);
    slots := [];
    MonthFirstAndLast(year, month);
    var firstDay := NewDate(year, month - 1, 1);
    var lastDay := NewDate(year, month, 0);
    var daysInMonth := lastDay.day;
    var startDayOfWeek := ToMondayFirst(Weekday(firstDay));
    assert startDayOfWeek == GlanceLead(fy, month) && daysInMonth == DaysInMonth(fy, month);

    // Empty slots before the 1st
    for i := 0 to startDayOfWeek
      invariant |slots| == i
      invariant forall k :: 0 <= k < |slots| ==> slots[k] == GlanceSlot(fy, month, today, k)
    {
      GlancePrefixGrows(fy, month, today, slots, EmptySlot(i));
      slots := slots + [EmptySlot(i)];
    }

    // All days of the month
    for day := 1 to daysInMonth + 1
      invariant |slots| == startDayOfWeek + day - 1
      invariant forall k :: 0 <= k < |slots| ==> slots[k] == GlanceSlot(fy, month, today, k)
    {
      var date := NewDate(year, month - 1, day);
      var slot := DaySlot(day, date, date == today, ToMondayFirst(Weekday(date)));
      GlanceDaySlot(fy, month, today, day);
      GlancePrefixGrows(fy, month, today, slots, slot);
      slots := slots + [slot];
    }

    // Pad to complete the final week
    var targetSlots := if |slots| <= 35 then 35 else 42;
    while |slots| < targetSlots
      invariant startDayOfWeek + daysInMonth <= |slots| <= targetSlots
      invariant forall k :: 0 <= k < |slots| ==> slots[k] == GlanceSlot(fy, month, today, k)
      decreases targetSlots - |slots|
    {
      GlancePrefixGrows(fy, month, today, slots, EmptySlot(|slots| % 7));
      slots := slots + [EmptySlot(|slots| % 7)];
    }
  }

  /** The slot the second loop builds for `day`, from `new Date(y, m - 1, day)`. */
  lemma GlanceDaySlot(y: int, m: int, today: Date, day: int)
    requires 1 <= m <= 12 && 1 <= day <= DaysInMonth(y, m)
    ensures var date := MakeDate(y, m - 1, day);
            GlanceSlot(y, m, today, GlanceLead(y, m) + day - 1) == DaySlot(day, date, date == today, ToMondayFirst(Weekday(date)))
  {
    MakeDateOfValid(Date(y, m, day));
  }

  lemma GlancePrefixGrows(y: int, m: int, today: Date, slots: seq<Slot>, s: Slot)
    requires 1 <= m <= 12
    requires forall k :: 0 <= k < |slots| ==> slots[k] == GlanceSlot(y, m, today, k)
    requires s == GlanceSlot(y, m, today, |slots|)
    ensures forall k :: 0 <= k < |slots| + 1 ==> (slots + [s])[k] == GlanceSlot(y, m, today, k)
  {
  }

  // ---------------------------------------------------------------------------
  // The mini month

  /** One day of a mini month. */
  datatype MiniDay = MiniDay(day: int, isToday: bool)

  /** Day `k + 1` of month `m`, marked when it is today. */
  function MiniDayAt(y: int, m: int, today: Date, k: int): MiniDay {
    MiniDay(k + 1, Date(y, m, k + 1) == today)
  }

  /** At most one day of a mini month is today, and one is exactly when today
      lies in that month. */
  lemma MiniMonthToday(y: int, m: int, today: Date, k: int)
    requires 1 <= m <= 12 && Valid(today) && 0 <= k < DaysInMonth(y, m)
    ensures MiniDayAt(y, m, today, k).isToday <==> today.year == y && today.month == m && today.day == k + 1
    ensures today.year == y && today.month == m ==> MiniDayAt(y, m, today, today.day - 1).isToday
  {
  }

  /** MiniMonth's data: days 1..daysInMonth, each marked when it is today, and
      the Sunday-first weekday of the first (the number of leading blanks), all
      in the year FullYear reads `year` as (1900 + year for years 0..99). */
  method MiniMonth(year: int, month: int, today: Date) returns (days: seq<MiniDay>, startDay: int)
    requires 1 <= month <= 12
    ensures startDay == Weekday(Date(FullYear(year), month, 1)) && 0 <= startDay < 7
    ensures |days| == DaysInMonth(FullYear(year), month)
    ensures forall k :: 0 <= k < |days| ==> days[k] == MiniDayAt(FullYear(year), month, today, k)
  {
    var fy := FullYear(year);
    MonthFirstAndLast(year, month);
    var firstDay := NewDate(year, month - 1, 1);
    var lastDay := NewDate(year, month, 0);
    var daysInMonth := lastDay.day;
    startDay := Weekday(firstDay);
    days := [];
    for day := 1 to daysInMonth + 1
      invariant |days| == day - 1
      invariant forall k :: 0 <= k < |days| ==> days[k] == MiniDayAt(fy, month, today, k)
    {
      var date := NewDate(year, month - 1, day);
      MiniDayOfDate(fy, month, today, day);
      MiniPrefixGrows(fy, month, today, days, MiniDay(day, date == today));
      days := days + [MiniDay(day, date == today)];
    }
  }

  /** The day built with `new Date(year, month - 1, day)` is entry `day - 1`. */
  lemma MiniDayOfDate(y: int, m: int, today: Date, day: int)
    requires 1 <= m <= 12 && 1 <= day <= DaysInMonth(y, m)
    ensures MiniDay(day, MakeDate(y, m - 1, day) == today) == MiniDayAt(y, m, today, day - 1)
  {
    MakeDateOfValid(Date(y, m, day));
  }

  lemma MiniPrefixGrows(y: int, m: int, today: Date, days: seq<MiniDay>, d: MiniDay)
    requires forall k :: 0 <= k < |days| ==> days[k] == MiniDayAt(y, m, today, k)
    requires d == MiniDayAt(y, m, today, |days|)
    ensures forall k :: 0 <= k < |days| + 1 ==> (days + [d])[k] == MiniDayAt(y, m, today, k)
  {
  }

  // ---------------------------------------------------------------------------
  // Clicks

  /** handleMonthClick: go to the first of `month` in the shown year as the
      constructor reads it (1900 + year for years 0..99), at month level, in the
      month grid. */
  method HandleMonthClick(store: CalendarStore, year: int, month: int)
    requires 1 <= month <= 12
    modifies store
    ensures store.Valid() && store.currentDate == Date(FullYear(year), month, 1)
    ensures store.temporalGranularity == Month && store.viewType == MonthGrid
    ensures store.spatialGranularity == if old(store.zoomCoupled) then Some(Country) else old(store.spatialGranularity)
    ensures store.zoomCoupled == old(store.zoomCoupled) && store.hiddenSources == old(store.hiddenSources)
  {
    MonthFirstAndLast(year, month);
    store.SetCurrentDate(NewDate(year, month - 1, 1));
    store.SetTemporalGranularity(Month);
    store.SetViewType(MonthGrid);
  }

  /** handleDayClick (the same in the year, season and week views): go to the
      clicked day at day level, which also selects the day grid. */
  method HandleDayClick(store: CalendarStore, date: Date)
    requires Valid(date)
    modifies store
    ensures store.Valid() && store.currentDate == date
    ensures store.temporalGranularity == Day && store.viewType == DayGrid
    ensures store.spatialGranularity == if old(store.zoomCoupled) then Some(Address) else old(store.spatialGranularity)
    ensures store.zoomCoupled == old(store.zoomCoupled) && store.hiddenSources == old(store.hiddenSources)
  {
    store.SetCurrentDate(date);
    store.SetTemporalGranularity(Day);
  }
}
