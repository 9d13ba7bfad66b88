/** `groupEventsByDate`: events grouped under the date part of their ISO 8601
    start time. */
module UseEvents {
  import opened Wrappers
  import opened Text
  import opened Civil
  import opened Events
  import opened Grouping

  /** `event.start.split('T')[0]`: the start text before the first `T`. */
  function StartKey(e: Event): (k: string)
    ensures k <= e.start && 'T' !in k
    ensures k == e.start <==> 'T' !in e.start
  {
    BeforeFirstIsPrefix(e.start, 'T');
    BeforeFirst(e.start, 'T')
  }

  /** Every event has a date key. */
  function DateGroupKey(e: Event): Option<string> {
    Some(StartKey(e))
  }

  /** An event starting at `YYYY-MM-DDThh:mm…` is keyed by its `YYYY-MM-DD`. */
  lemma StartKeyOfTimestamp(e: Event, date: Date, time: string)
    requires Valid(date) && e.start == DateKey(date) + "T" + time
    ensures StartKey(e) == DateKey(date)
  {
    BeforeFirstOfPrefix(DateKey(date), 'T', time);
  }

  /** groupEventsByDate: every event in the group of its date key, each group in
      input order, groups in order of first occurrence, and no event lost. */
  method GroupEventsByDate(events: seq<Event>) returns (grouped: Grouped<Event>)
    ensures GroupedBy(grouped, events, DateGroupKey)
    ensures Size(grouped) == |events|
  {
    grouped := Empty();
    for i := 0 to |events|
      invariant GroupedBy(grouped, events[..i], DateGroupKey)
      invariant Size(grouped) == |Kept(events[..i], DateGroupKey)|
    {
      var event := events[i];
      PrefixStep(events, i);
      var dateKey := StartKey(event);
      var existing := if dateKey in grouped.items then grouped.items[dateKey] else [];
      StepPush(grouped, events[..i], DateGroupKey, event, dateKey);
      existing := existing + [event];
      grouped := Set(grouped, dateKey, existing);
    }
    assert events[..|events|] == events;
    KeptAll(events, DateGroupKey);
  }
}
