/** The day view: hour labels, the vertical position of an event inside one
    day, and the events of the day split into all-day and timed ones. The hour
    labels and positions are the same in the week view. */
module DayView {
  import opened Wrappers
  import opened Text
  import opened Civil
  import opened Events
  import opened Grouping

  // ---------------------------------------------------------------------------
  // Hour labels

  /** formatHour: the 12-hour label of an hour of the day. */
  function FormatHour(hour: int): (s: string)
    requires 0 <= hour < 24
    ensures |s| >= 4 && s[|s| - 3] == ' '
    ensures s[|s| - 2..] == (if hour < 12 then "AM" else "PM")
  {
    if hour == 0 then "12 AM"
    else if hour < 12 then Decimal(hour) + " AM"
    else if hour == 12 then "12 PM"
    else Decimal(hour - 12) + " PM"
  }

  /** Reads an hour back from a label "h AM" or "h PM" with h in 1..12. */
  function ParseHour(s: string): Option<int> {
    if |s| < 4 || s[|s| - 3] != ' ' then None
    else
      var digits, suffix := s[..|s| - 3], s[|s| - 2..];
      if !IsDigits(digits) then None
      else
        var n := ParseDigits(digits);
        if n < 1 || n > 12 then None
        else if suffix == "AM" then Some(if n == 12 then 0 else n)
        else if suffix == "PM" then Some(if n == 12 then 12 else n + 12)
        else None
  }

  /** Every label reads back as its hour, so no two hours share a label. */
  lemma FormatHourRoundTrip(hour: int)
    requires 0 <= hour < 24
    ensures ParseHour(FormatHour(hour)) == Some(hour)
  {
    var s := FormatHour(hour);
    var n := if hour == 0 || hour == 12 then 12 else if hour < 12 then hour else hour - 12;
    var suffix := if hour < 12 then " AM" else " PM";
    assert s == Decimal(n) + suffix by {
      if n == 12 {
        assert Decimal(12) == Decimal(1) + [DigitChar(2)];
      }
    }
    assert s[..|s| - 3] == Decimal(n);
    DecimalRoundTrip(n);
  }

  lemma FormatHourInjective(a: int, b: int)
    requires 0 <= a < 24 && 0 <= b < 24 && FormatHour(a) == FormatHour(b)
    ensures a == b
  {
    FormatHourRoundTrip(a);
    FormatHourRoundTrip(b);
  }

  // ---------------------------------------------------------------------------
  // getEventPosition

  /** The first minute of `day` (`dayStart`, midnight). */
  function DayStart(day: Date): DateTime {
    DateTime(day, 0)
  }

  /** The last minute of `day` (`dayEnd`, 23:59:59.999, to the minute). */
  function DayEnd(day: Date): DateTime {
    DateTime(day, 1439)
  }

  /** `start < dayStart ? dayStart : start`: the later of the two. */
  function ClampStart(start: DateTime, day: Date): (t: DateTime)
    requires ValidDateTime(start) && Valid(day)
    ensures ValidDateTime(t)
    ensures Instant(t) >= Instant(DayStart(day)) && Instant(t) >= Instant(start)
    ensures Instant(t) == Instant(DayStart(day)) || t == start
  {
    if Instant(start) < Instant(DayStart(day)) then DayStart(day) else start
  }

  /** `end > dayEnd ? dayEnd : end`: the earlier of the two. */
  function ClampEnd(end: DateTime, day: Date): (t: DateTime)
    requires ValidDateTime(end) && Valid(day)
    ensures ValidDateTime(t)
    ensures Instant(t) <= Instant(DayEnd(day)) && Instant(t) <= Instant(end)
    ensures Instant(t) == Instant(DayEnd(day)) || t == end
  {
    if Instant(end) > Instant(DayEnd(day)) then DayEnd(day) else end
  }

  /** Where an event sits in a day column: its first minute and the number of
      minutes it covers (`top` and `height` are these over 1440, in percent). */
  datatype Position = Position(startMinutes: int, duration: int)

  /** getEventPosition: the clamped start's minute of the day, and the minutes
      to the clamped end, shown as at least 30. */
  function EventPosition(start: DateTime, end: DateTime, day: Date): (p: Position)
    requires ValidDateTime(start) && ValidDateTime(end) && Valid(day)
    ensures 0 <= p.startMinutes < 1440 && p.duration >= 30
  {
    var effectiveStart := ClampStart(start, day);
    var effectiveEnd := ClampEnd(end, day);
    var startMinutes := effectiveStart.minute;
    var endMinutes := effectiveEnd.minute;
    Position(startMinutes, if endMinutes - startMinutes > 30 then endMinutes - startMinutes else 30)
  }

  /** An event inside the day is placed at its own minutes; one that began
      earlier starts at midnight and one that ends later runs to 23:59. */
  lemma PositionInDay(start: DateTime, end: DateTime, day: Date)
    requires ValidDateTime(start) && ValidDateTime(end) && Valid(day)
    ensures start.date == day ==> EventPosition(start, end, day).startMinutes == start.minute
    ensures DayNumber(start.date) < DayNumber(day) ==> EventPosition(start, end, day).startMinutes == 0
    ensures end.date == day ==> ClampEnd(end, day) == end
    ensures DayNumber(day) < DayNumber(end.date) ==> ClampEnd(end, day).minute == 1439
    ensures start.date == day && end.date == day && start.minute + 30 <= end.minute ==>
              EventPosition(start, end, day).duration == end.minute - start.minute
  {
    InstantOrder(start, DayStart(day));
    InstantOrder(DayStart(day), start);
    InstantOrder(end, DayEnd(day));
    InstantOrder(DayEnd(day), end);
  }

  // ---------------------------------------------------------------------------
  // The events of a day

  /** Every event the view reads times from parses: the events whose source is
      not hidden (hidden ones are skipped before their dates are read). */
  predicate Timed(events: seq<Event>, hidden: seq<string>) {
    forall i :: 0 <= i < |events| && events[i].source !in hidden ==> WellTimed(events[i])
  }

  /** The event's start key is not after `dateKey` and its end key not before,
      so an event on any day starts no later than it ends. */
  predicate OnDay(e: Event, dateKey: string)
    requires WellTimed(e)
    ensures OnDay(e, dateKey) ==> LexLe(StartDateKey(e), EndDateKey(e))
  {
    LexLeTransitive(StartDateKey(e), dateKey, EndDateKey(e));
    LexLe(StartDateKey(e), dateKey) && LexLe(dateKey, EndDateKey(e))
  }

  /** For four-digit years, being on a day's key is lying between the event's
      start and end dates. */
  lemma OnDayMeansBetween(e: Event, day: Date)
    requires WellTimed(e) && Valid(day)
    requires FourDigitYear(e.startAt.date) && FourDigitYear(e.endAt.date) && FourDigitYear(day)
    ensures OnDay(e, DateKey(day)) <==> DayNumber(e.startAt.date) <= DayNumber(day) <= DayNumber(e.endAt.date)
  {
    DateKeyLe(e.startAt.date, day);
    DateKeyLe(day, e.endAt.date);
  }

  /** The day filter's test: the source is shown and the event is on `dateKey`. */
  predicate Shown(e: Event, hidden: seq<string>, dateKey: string) {
    e.source !in hidden && WellTimed(e) && OnDay(e, dateKey)
  }

  /** The day filter's test as a function value. */
  function ShownOn(hidden: seq<string>, dateKey: string): Event -> bool {
    (e: Event) => Shown(e, hidden, dateKey)
  }

  /** The test `e => e.all_day` (or its negation) as a function value. */
  function AllDayIs(allDay: bool): Event -> bool {
    (e: Event) => e.allDay == allDay
  }

  /** The day filter: the events not hidden that are on `dateKey`, in order
      and as often as in `events`. */
  function DayEvents(events: seq<Event>, hidden: seq<string>, dateKey: string): (r: seq<Event>)
    ensures |r| <= |events|
    ensures forall i :: 0 <= i < |r| ==> r[i] in events && Shown(r[i], hidden, dateKey)
    ensures forall i :: 0 <= i < |events| && Shown(events[i], hidden, dateKey) ==> events[i] in r
  {
    Filter(events, ShownOn(hidden, dateKey))
  }

  /** Under `Timed`, the filter keeps exactly the visible events on the day. */
  lemma DayEventsOfTimed(events: seq<Event>, hidden: seq<string>, dateKey: string, e: Event)
    requires Timed(events, hidden) && e in events
    ensures e in DayEvents(events, hidden, dateKey) <==> e.source !in hidden && OnDay(e, dateKey)
  {
  }

  /** The events whose `all_day` flag is `allDay`, in order and as often as
      in `events`. */
  function WithAllDay(events: seq<Event>, allDay: bool): (r: seq<Event>)
    ensures |r| <= |events|
    ensures forall i :: 0 <= i < |r| ==> r[i] in events && r[i].allDay == allDay
    ensures forall i :: 0 <= i < |events| && events[i].allDay == allDay ==> events[i] in r
  {
    Filter(events, AllDayIs(allDay))
  }

  /** The all-day and timed lists together hold every event exactly once. */
  lemma PartitionCount(events: seq<Event>)
    ensures |WithAllDay(events, true)| + |WithAllDay(events, false)| == |events|
  {
    FilterPartition(events, AllDayIs(true), AllDayIs(false));
  }

  /** The lists the day view shows: none before results arrive, then the day's
      events split into all-day and timed. Each list is a sublist of the
      results holding exactly the shown events of the day with its flag, each
      as often as in the results. */
  function DayLists(results: Option<seq<Event>>, hidden: seq<string>, dateKey: string): (r: (seq<Event>, seq<Event>))
    requires results.Some? ==> Timed(results.value, hidden)
    ensures results.None? ==> r == ([], [])
    ensures forall i :: 0 <= i < |r.0| ==> r.0[i].allDay
    ensures forall i :: 0 <= i < |r.1| ==> !r.1[i].allDay
    ensures results.Some? ==> Subsequence(r.0, results.value) && Subsequence(r.1, results.value)
    ensures results.Some? ==> forall e :: e in results.value ==>
              multiset(r.0)[e] == (if Shown(e, hidden, dateKey) && e.allDay then multiset(results.value)[e] else 0) &&
              multiset(r.1)[e] == (if Shown(e, hidden, dateKey) && !e.allDay then multiset(results.value)[e] else 0)
  {
    match results
    case None => ([], [])
    case Some(events) =>
      var dayEvents := DayEvents(events, hidden, dateKey);
      DayListsOf(events, hidden, dateKey);
      (WithAllDay(dayEvents, true), WithAllDay(dayEvents, false))
  }

  /** The two lists of the day, from the filters' own contracts. */
  lemma DayListsOf(events: seq<Event>, hidden: seq<string>, dateKey: string)
    ensures var dayEvents := DayEvents(events, hidden, dateKey);
            var (a, t) := (WithAllDay(dayEvents, true), WithAllDay(dayEvents, false));
            Subsequence(a, events) && Subsequence(t, events) &&
            forall e :: e in events ==>
              multiset(a)[e] == (if Shown(e, hidden, dateKey) && e.allDay then multiset(events)[e] else 0) &&
              multiset(t)[e] == (if Shown(e, hidden, dateKey) && !e.allDay then multiset(events)[e] else 0)
  {
    var dayEvents := DayEvents(events, hidden, dateKey);
    FilterSublist(events, ShownOn(hidden, dateKey));
    FilterSublist(dayEvents, AllDayIs(true));
    FilterSublist(dayEvents, AllDayIs(false));
    SubsequenceTransitive(WithAllDay(dayEvents, true), dayEvents, events);
    SubsequenceTransitive(WithAllDay(dayEvents, false), dayEvents, events);
    forall e | e in events
      ensures multiset(WithAllDay(dayEvents, true))[e] == (if Shown(e, hidden, dateKey) && e.allDay then multiset(events)[e] else 0)
      ensures multiset(WithAllDay(dayEvents, false))[e] == (if Shown(e, hidden, dateKey) && !e.allDay then multiset(events)[e] else 0)
    {
      if e !in dayEvents {
        assert e !in WithAllDay(dayEvents, true) && e !in WithAllDay(dayEvents, false);
      }
    }
  }

  /** The header's count is the number of events of the day. */
  lemma HeaderCount(events: seq<Event>, hidden: seq<string>, dateKey: string)
    requires Timed(events, hidden)
    ensures var (allDayEvents, timedEvents) := DayLists(Some(events), hidden, dateKey);
            |allDayEvents| + |timedEvents| == |DayEvents(events, hidden, dateKey)|
  {
    PartitionCount(DayEvents(events, hidden, dateKey));
  }

  /** isToday: year, month and day all agree, which is being the same date. */
  predicate IsToday(current: Date, today: Date)
    ensures IsToday(current, today) <==> current == today
  {
    current.year == today.year && current.month == today.month && current.day == today.day
  }
}
