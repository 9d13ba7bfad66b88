/** The calendar's event record (`UnifiedEvent`), reduced to the fields the
    grouping, labelling and view rules read, and instants of local time. */
module Events {
  import opened Wrappers
  import opened Civil
  import opened Grouping

  /** A local date and minute of the day (what `new Date(s)` yields, to the minute). */
  datatype DateTime = DateTime(date: Date, minute: int)

  predicate ValidDateTime(t: DateTime) {
    Valid(t.date) && 0 <= t.minute < 1440
  }

  /** An event as the views see it. `start` and `end` are the ISO 8601 strings
      the API sends; `startAt` and `endAt` are the local date and minute that
      `new Date(start)` and `new Date(end)` denote (the parse itself is not
      modelled). `locationDisplay` is `None` for a list item that has no
      `location_display` field at all; a `null` display is `Some("")`, since
      every rule treats null and the empty string alike. `locationBreadcrumb`
      is `None` for `null` or a missing field. */
  datatype Event = Event(
    id: string,
    source: string,
    start: string,
    end: string,
    startAt: DateTime,
    endAt: DateTime,
    allDay: bool,
    locationRaw: string,
    locationDisplay: Option<string>,
    locationBreadcrumb: Option<string>,
    isVirtual: bool,
    virtualPlatform: string,
    attendeeCount: int)

  /** Minutes since 1970-01-01 00:00 local time. */
  function Instant(t: DateTime): int
    requires 1 <= t.date.month <= 12
  {
    DayNumber(t.date) * 1440 + t.minute
  }

  /** Later instants have larger minute counts, and the date decides first. */
  lemma InstantOrder(a: DateTime, b: DateTime)
    requires ValidDateTime(a) && ValidDateTime(b)
    ensures Instant(a) <= Instant(b) <==>
            DayNumber(a.date) < DayNumber(b.date) || (a.date == b.date && a.minute <= b.minute)
  {
    if a.date == b.date {
    } else if DayNumber(a.date) < DayNumber(b.date) {
    } else {
      DayNumberOrder(a.date, b.date);
      DayNumberOrder(b.date, a.date);
      if DayNumber(a.date) == DayNumber(b.date) {
        DayNumberInjective(a.date, b.date);
      }
    }
  }

  /** Whether both of an event's times parse to real dates (`toISOString` on an
      invalid date throws). */
  predicate WellTimed(e: Event) {
    ValidDateTime(e.startAt) && ValidDateTime(e.endAt)
  }

  /** `new Date(event.start).toISOString().split('T')[0]`: the date key of the start. */
  function StartDateKey(e: Event): string
    requires WellTimed(e)
  {
    DateKey(e.startAt.date)
  }

  /** The same for the end. */
  function EndDateKey(e: Event): string
    requires WellTimed(e)
  {
    DateKey(e.endAt.date)
  }

  // ---------------------------------------------------------------------------
  // Source visibility

  /** The test `e => !hiddenSources.includes(e.source)`. */
  function SourceShown(hidden: seq<string>): Event -> bool {
    (e: Event) => e.source !in hidden
  }

  /** `events.filter(e => !hiddenSources.includes(e.source))`. */
  function Visible(events: seq<Event>, hidden: seq<string>): (r: seq<Event>)
    ensures |r| <= |events|
    ensures forall i :: 0 <= i < |r| ==> r[i] in events && r[i].source !in hidden
    ensures forall i :: 0 <= i < |events| && events[i].source !in hidden ==> events[i] in r
  {
    Filter(events, SourceShown(hidden))
  }

  /** The filter keeps order: filtering a concatenation filters each part. */
  lemma VisibleAppend(a: seq<Event>, b: seq<Event>, hidden: seq<string>)
    ensures Visible(a + b, hidden) == Visible(a, hidden) + Visible(b, hidden)
  {
    FilterAppend(a, b, SourceShown(hidden));
  }

  /** With no hidden sources every event is visible, in its place. */
  lemma NothingHidden(events: seq<Event>)
    ensures Visible(events, []) == events
  {
    FilterAll(events, SourceShown([]));
  }

  /** Filtering twice by the same hidden list is filtering once. */
  lemma VisibleIdempotent(events: seq<Event>, hidden: seq<string>)
    ensures Visible(Visible(events, hidden), hidden) == Visible(events, hidden)
  {
    FilterIdempotent(events, SourceShown(hidden));
  }
}
