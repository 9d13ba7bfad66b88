/** The week view's events: each day's events split into all-day and timed
    buckets, keyed by the day's date key. */
module WeekView {
  import opened Wrappers
  import opened Text
  import opened Civil
  import opened Events
  import opened Grouping
  import opened DayView

  // ---------------------------------------------------------------------------
  // The buckets of eventsByDay

  /** A day's entry: its all-day and its timed events. */
  datatype Bucket = Bucket(allDay: seq<Event>, timed: seq<Event>)

  /** `list.find(e => e.id === id)` finds something. */
  predicate HasId(xs: seq<Event>, id: string) {
    exists i :: 0 <= i < |xs| && xs[i].id == id
  }

  /** No two events of `xs` share an id. */
  predicate DistinctIds(xs: seq<Event>) {
    forall i, j :: 0 <= i < j < |xs| ==> xs[i].id != xs[j].id
  }

  /** The events of `xs` in order, each skipped when an earlier one has its id. */
  function DedupById(xs: seq<Event>): (r: seq<Event>)
    ensures DistinctIds(r)
    ensures forall i :: 0 <= i < |r| ==> r[i] in xs
    ensures forall x :: x in xs ==> HasId(r, x.id)
  {
    if xs == [] then []
    else
      var init, last := xs[..|xs| - 1], xs[|xs| - 1];
      var d := DedupById(init);
      Snoc(xs);
      HasIdExtend(d, last);
      if HasId(d, last.id) then d else d + [last]
  }

  /** Appending an event keeps every id already present and adds its own. */
  lemma HasIdExtend(xs: seq<Event>, e: Event)
    ensures forall id :: HasId(xs, id) ==> HasId(xs + [e], id)
    ensures HasId(xs + [e], e.id)
  {
    assert (xs + [e])[|xs|] == e;
    forall id | HasId(xs, id)
      ensures HasId(xs + [e], id)
    {
      var i :| 0 <= i < |xs| && xs[i].id == id;
      assert (xs + [e])[i] == xs[i];
    }
  }

  /** Adding one more event appends it unless its id is already there. */
  lemma DedupSnoc(xs: seq<Event>, e: Event)
    ensures DedupById(xs + [e]) == if HasId(DedupById(xs), e.id) then DedupById(xs) else DedupById(xs) + [e]
  {
    InitOfSnoc(xs, e);
  }

  /** A list without repeated ids is left as it is. */
  lemma {:induction false} DedupOfDistinct(xs: seq<Event>)
    requires DistinctIds(xs)
    ensures DedupById(xs) == xs
  {
    if xs != [] {
      var init, last := xs[..|xs| - 1], xs[|xs| - 1];
      DedupOfDistinct(init);
      assert !HasId(init, last.id);
      Snoc(xs);
    }
  }

  /** A sublist of a list without repeated ids has none. */
  lemma {:induction false} FilterKeepsDistinctIds(xs: seq<Event>, keep: Event -> bool)
    requires DistinctIds(xs)
    ensures DistinctIds(Filter(xs, keep))
  {
    if xs != [] {
      var init, last := xs[..|xs| - 1], xs[|xs| - 1];
      FilterKeepsDistinctIds(init, keep);
      var f := Filter(init, keep);
      forall i | 0 <= i < |f|
        ensures f[i].id != last.id
      {
        var j :| 0 <= j < |init| && init[j] == f[i];
      }
    }
  }

  /** The bucket that reading `events` yields for a day whose test is `keep`:
      the events passing it split by the all-day flag, each list keeping the
      first event of every id. */
  function BucketOf(events: seq<Event>, keep: Event -> bool): Bucket {
    var dayEvents := Filter(events, keep);
    Bucket(DedupById(WithAllDay(dayEvents, true)), DedupById(WithAllDay(dayEvents, false)))
  }

  /** The bucket of `dateKey`: the day's events as the day view filters them. */
  function BucketFor(events: seq<Event>, hidden: seq<string>, dateKey: string): Bucket {
    BucketOf(events, ShownOn(hidden, dateKey))
  }

  /** What a bucket holds: all-day events in the first list and timed ones in
      the second, each passing the day's test, no id twice in a list, and every
      event that passes represented by its id. */
  lemma BucketOfContents(events: seq<Event>, keep: Event -> bool)
    ensures var b := BucketOf(events, keep);
            DistinctIds(b.allDay) && DistinctIds(b.timed) &&
            (forall i :: 0 <= i < |b.allDay| ==> b.allDay[i] in events && b.allDay[i].allDay && keep(b.allDay[i])) &&
            (forall i :: 0 <= i < |b.timed| ==> b.timed[i] in events && !b.timed[i].allDay && keep(b.timed[i])) &&
            (forall e :: e in events && keep(e) ==> HasId(if e.allDay then b.allDay else b.timed, e.id))
  {
    var dayEvents := Filter(events, keep);
    forall e | e in events && keep(e)
      ensures e in WithAllDay(dayEvents, e.allDay)
    {
      var i :| 0 <= i < |events| && events[i] == e;
      var j :| 0 <= j < |dayEvents| && dayEvents[j] == e;
    }
  }

  /** The same for the day view's test: each event of a bucket is shown on its
      day, and every event shown that day is there by its id. */
  lemma BucketContents(events: seq<Event>, hidden: seq<string>, dateKey: string)
    ensures var b := BucketFor(events, hidden, dateKey);
            DistinctIds(b.allDay) && DistinctIds(b.timed) &&
            (forall i :: 0 <= i < |b.allDay| ==> b.allDay[i] in events && b.allDay[i].allDay && Shown(b.allDay[i], hidden, dateKey)) &&
            (forall i :: 0 <= i < |b.timed| ==> b.timed[i] in events && !b.timed[i].allDay && Shown(b.timed[i], hidden, dateKey)) &&
            (forall e :: e in events && Shown(e, hidden, dateKey) ==> HasId(if e.allDay then b.allDay else b.timed, e.id))
  {
    var keep := ShownOn(hidden, dateKey);
    assert forall e :: keep(e) == Shown(e, hidden, dateKey);
    BucketOfContents(events, keep);
  }

  /** When no two events share an id the week's buckets are exactly the day
      view's two lists for that day. */
  lemma WeekAgreesWithDayView(events: seq<Event>, hidden: seq<string>, dateKey: string)
    requires Timed(events, hidden) && DistinctIds(events)
    ensures BucketFor(events, hidden, dateKey) == Bucket(DayLists(Some(events), hidden, dateKey).0, DayLists(Some(events), hidden, dateKey).1)
  {
    var dayEvents := DayEvents(events, hidden, dateKey);
    FilterKeepsDistinctIds(events, ShownOn(hidden, dateKey));
    FilterKeepsDistinctIds(dayEvents, AllDayIs(true));
    FilterKeepsDistinctIds(dayEvents, AllDayIs(false));
    DedupOfDistinct(WithAllDay(dayEvents, true));
    DedupOfDistinct(WithAllDay(dayEvents, false));
  }

  /** One step of the loop: file `e` in bucket `b` unless its list already
      has an event with its id. Afterwards the list its all-day flag selects
      holds its id, the other list is untouched, and the bucket has grown by
      one event exactly when the id was new to that list. */
  function Push(b: Bucket, e: Event): (r: Bucket)
    ensures e.allDay ==> r.timed == b.timed && HasId(r.allDay, e.id)
    ensures !e.allDay ==> r.allDay == b.allDay && HasId(r.timed, e.id)
    ensures |r.allDay| + |r.timed| ==
              |b.allDay| + |b.timed| + if HasId(if e.allDay then b.allDay else b.timed, e.id) then 0 else 1
  {
    if e.allDay then
      if HasId(b.allDay, e.id) then b
      else
        assert (b.allDay + [e])[|b.allDay|].id == e.id;
        b.(allDay := b.allDay + [e])
    else
      if HasId(b.timed, e.id) then b
      else
        assert (b.timed + [e])[|b.timed|].id == e.id;
        b.(timed := b.timed + [e])
  }

  /** Filing the same event twice is filing it once. */
  lemma PushTwice(b: Bucket, e: Event)
    ensures Push(Push(b, e), e) == Push(b, e)
  {
    if e.allDay && !HasId(b.allDay, e.id) {
      assert (b.allDay + [e])[|b.allDay|].id == e.id;
    } else if !e.allDay && !HasId(b.timed, e.id) {
      assert (b.timed + [e])[|b.timed|].id == e.id;
    }
  }

  /** Reading one more event changes a day's bucket by filing it there when it
      passes the day's test, and leaves it alone otherwise. */
  lemma BucketStep(events: seq<Event>, keep: Event -> bool, i: int)
    requires 0 <= i < |events|
    ensures var e := events[i];
            Filter(events[..i + 1], keep) == Filter(events[..i], keep) + (if keep(e) then [e] else []) &&
            BucketOf(events[..i + 1], keep) ==
              if keep(e) then Push(BucketOf(events[..i], keep), e) else BucketOf(events[..i], keep)
  {
    var e := events[i];
    var before := Filter(events[..i], keep);
    PrefixStep(events, i);
    FilterSnoc(events[..i], e, keep);
    if keep(e) {
      assert Filter(events[..i + 1], keep) == before + [e];
      BucketSnoc(before, e);
    } else {
      assert Filter(events[..i + 1], keep) == before;
    }
  }

  /** Filing an event in the buckets built from `dayEvents`. */
  lemma BucketSnoc(dayEvents: seq<Event>, e: Event)
    ensures var before := Bucket(DedupById(WithAllDay(dayEvents, true)), DedupById(WithAllDay(dayEvents, false)));
            Bucket(DedupById(WithAllDay(dayEvents + [e], true)), DedupById(WithAllDay(dayEvents + [e], false))) == Push(before, e)
  {
    var allDay, timed := WithAllDay(dayEvents, true), WithAllDay(dayEvents, false);
    FilterSnoc(dayEvents, e, AllDayIs(true));
    FilterSnoc(dayEvents, e, AllDayIs(false));
    if e.allDay {
      assert WithAllDay(dayEvents + [e], true) == allDay + [e];
      assert WithAllDay(dayEvents + [e], false) == timed;
      DedupSnoc(allDay, e);
    } else {
      assert WithAllDay(dayEvents + [e], true) == allDay;
      assert WithAllDay(dayEvents + [e], false) == timed + [e];
      DedupSnoc(timed, e);
    }
  }

  // ---------------------------------------------------------------------------
  // eventsByDay

  /** `map.get(dateKey)`, with an empty bucket where the map has none. */
  function Lookup(m: map<string, Bucket>, dateKey: string): Bucket {
    if dateKey in m then m[dateKey] else Bucket([], [])
  }

  /** The map's entry for `dateKey` is what reading `events` yields under the
      day's test `keep`: present exactly when some event passes, and holding
      its bucket. */
  predicate AgreesOn(m: map<string, Bucket>, events: seq<Event>, keep: Event -> bool, dateKey: string) {
    (dateKey in m <==> Filter(events, keep) != []) &&
    Lookup(m, dateKey) == BucketOf(events, keep)
  }

  /** `AgreesOn` with the day view's test for `dateKey`: the entry is present
      exactly when some event is shown that day. */
  predicate Agrees(m: map<string, Bucket>, events: seq<Event>, hidden: seq<string>, dateKey: string) {
    AgreesOn(m, events, ShownOn(hidden, dateKey), dateKey)
  }

  /** The day view's test for each day key. */
  function ShownKey(hidden: seq<string>): string -> (Event -> bool) {
    (k: string) => ShownOn(hidden, k)
  }

  /** The test of a day key is `Shown`. */
  lemma ShownKeyTest(hidden: seq<string>, k: string, e: Event)
    ensures ShownKey(hidden)(k)(e) == Shown(e, hidden, k)
  {
  }

  /** For an event whose source is shown, the test of a day key is whether
      the event is on that day. */
  lemma ShownKeyCompare(hidden: seq<string>, k: string, e: Event)
    requires e.source !in hidden && WellTimed(e)
    ensures ShownKey(hidden)(k)(e) == OnDay(e, k)
  {
  }

  /** The keys of the week's days. */
  function DayKeys(days: seq<Date>): (keys: seq<string>)
    requires forall j :: 0 <= j < |days| ==> Valid(days[j])
    ensures |keys| == |days|
    ensures forall j :: 0 <= j < |days| ==> keys[j] == DateKey(days[j])
  {
    seq(|days|, j requires 0 <= j < |days| => DateKey(days[j]))
  }

  /** eventsByDay: for each event whose source is shown and each day of the
      week that lies between its start and end keys, file the event in that
      day's bucket, creating the bucket on first use. The result agrees with
      `BucketFor` on every day of the week and has no other keys. */
  method EventsByDay(results: Option<seq<Event>>, weekDays: seq<Date>, hidden: seq<string>) returns (m: map<string, Bucket>)
    requires forall j :: 0 <= j < |weekDays| ==> Valid(weekDays[j])
    requires results.Some? ==> Timed(results.value, hidden)
    ensures results.None? ==> m == map[]
    ensures forall k :: k in m ==> k in DayKeys(weekDays)
    ensures results.Some? ==> forall j :: 0 <= j < |weekDays| ==> Agrees(m, results.value, hidden, DateKey(weekDays[j]))
  {
    m := map[];
    if results.None? {
      return;
    }
    var events := results.value;
    ghost var keys := DayKeys(weekDays);
    ghost var test := ShownKey(hidden);
    for i := 0 to |events|
      invariant forall k :: k in m ==> k in keys
      invariant forall j :: 0 <= j < |keys| ==> AgreesOn(m, events[..i], test(keys[j]), keys[j])
    {
      var event := events[i];
      if event.source in hidden {
        forall j | 0 <= j < |keys|
          ensures !test(keys[j])(event)
        {
          ShownKeyTest(hidden, keys[j], event);
        }
        SkipStep(m, events, test, keys, i);
      } else {
        m := FileInWeek(m, events, i, weekDays, hidden);
      }
    }
    WholePrefix(events);
  }

  /** The inner loop: file event `i` under each day of the week it lies on.
      Every day's entry then reflects one more event. */
  method FileInWeek(m0: map<string, Bucket>, events: seq<Event>, i: int, weekDays: seq<Date>, hidden: seq<string>) returns (m: map<string, Bucket>)
    requires 0 <= i < |events| && events[i].source !in hidden && WellTimed(events[i])
    requires forall j :: 0 <= j < |weekDays| ==> Valid(weekDays[j])
    requires forall k :: k in m0 ==> k in DayKeys(weekDays)
    requires forall j :: 0 <= j < |weekDays| ==> AgreesOn(m0, events[..i], ShownKey(hidden)(DayKeys(weekDays)[j]), DayKeys(weekDays)[j])
    ensures forall k :: k in m ==> k in DayKeys(weekDays)
    ensures forall j :: 0 <= j < |weekDays| ==> AgreesOn(m, events[..i + 1], ShownKey(hidden)(DayKeys(weekDays)[j]), DayKeys(weekDays)[j])
  {
    m := m0;
    var event := events[i];
    ghost var keys := DayKeys(weekDays);
    ghost var test := ShownKey(hidden);
    for j := 0 to |weekDays|
      invariant forall k :: k in m ==> k in keys
      invariant forall j' :: 0 <= j' < |keys| ==> AgreesOn(m, if keys[j'] in keys[..j] then events[..i + 1] else events[..i], test(keys[j']), keys[j'])
    {
      var dayKey := DateKey(weekDays[j]);
      ghost var before := m;
      ShownKeyCompare(hidden, dayKey, event);
      m := FileEvent(m, event, dayKey);
      DayStep(before, m, events, test, keys, i, j);
    }
    WholePrefix(keys);
    forall j | 0 <= j < |keys|
      ensures AgreesOn(m, events[..i + 1], test(keys[j]), keys[j])
    {
      assert keys[j] in keys[..|keys|];
    }
  }

  /** The inner loop's body: when the event's start key is not after the day's
      key and its end key not before it, the event is filed in that day's
      bucket (a missing bucket starts empty), unless the bucket's list already
      has its id. */
  method FileEvent(m: map<string, Bucket>, event: Event, dayKey: string) returns (r: map<string, Bucket>)
    requires WellTimed(event)
    ensures r == if OnDay(event, dayKey) then m[dayKey := Push(Lookup(m, dayKey), event)] else m
  {
    r := m;
    var eventStart := StartDateKey(event);
    var eventEnd := EndDateKey(event);
    if LexLe(eventStart, dayKey) && LexLe(dayKey, eventEnd) {
      var bucket := if dayKey in r then r[dayKey] else Bucket([], []);
      if event.allDay {
        if !HasId(bucket.allDay, event.id) {
          bucket := bucket.(allDay := bucket.allDay + [event]);
        }
      } else {
        if !HasId(bucket.timed, event.id) {
          bucket := bucket.(timed := bucket.timed + [event]);
        }
      }
      r := r[dayKey := bucket];
    }
  }

  /** An event that passes no day's test changes no entry. */
  lemma SkipStep(m: map<string, Bucket>, events: seq<Event>, test: string -> (Event -> bool), keys: seq<string>, i: int)
    requires 0 <= i < |events|
    requires forall j :: 0 <= j < |keys| ==> !test(keys[j])(events[i])
    requires forall j :: 0 <= j < |keys| ==> AgreesOn(m, events[..i], test(keys[j]), keys[j])
    ensures forall j :: 0 <= j < |keys| ==> AgreesOn(m, events[..i + 1], test(keys[j]), keys[j])
  {
    forall j | 0 <= j < |keys|
      ensures AgreesOn(m, events[..i + 1], test(keys[j]), keys[j])
    {
      BucketStep(events, test(keys[j]), i);
    }
  }

  /** The inner loop's step: the entry of the current day now reflects the
      current event, and every other entry is as it was. */
  lemma DayStep(before: map<string, Bucket>, after: map<string, Bucket>, events: seq<Event>, test: string -> (Event -> bool), keys: seq<string>, i: int, j: int)
    requires 0 <= i < |events| && 0 <= j < |keys|
    requires forall k :: k in before ==> k in keys
    requires forall j' :: 0 <= j' < |keys| ==> AgreesOn(before, if keys[j'] in keys[..j] then events[..i + 1] else events[..i], test(keys[j']), keys[j'])
    requires after == if test(keys[j])(events[i]) then before[keys[j] := Push(Lookup(before, keys[j]), events[i])] else before
    ensures forall k :: k in after ==> k in keys
    ensures forall j' :: 0 <= j' < |keys| ==> AgreesOn(after, if keys[j'] in keys[..j + 1] then events[..i + 1] else events[..i], test(keys[j']), keys[j'])
  {
    var e, k := events[i], keys[j];
    PrefixStep(keys, j);
    forall j' | 0 <= j' < |keys|
      ensures AgreesOn(after, if keys[j'] in keys[..j + 1] then events[..i + 1] else events[..i], test(keys[j']), keys[j'])
    {
      if keys[j'] == k {
        KeyStep(before, after, events, test(k), k, i, k in keys[..j]);
      } else {
        assert (keys[j'] in keys[..j + 1]) == (keys[j'] in keys[..j]);
        assert Lookup(after, keys[j']) == Lookup(before, keys[j']);
      }
    }
  }

  /** The step at the current day's key: whether or not the key was met before
      in this pass, its entry now reflects one more event. */
  lemma KeyStep(before: map<string, Bucket>, after: map<string, Bucket>, events: seq<Event>, keep: Event -> bool, k: string, i: int, seen: bool)
    requires 0 <= i < |events|
    requires AgreesOn(before, if seen then events[..i + 1] else events[..i], keep, k)
    requires after == if keep(events[i]) then before[k := Push(Lookup(before, k), events[i])] else before
    ensures AgreesOn(after, events[..i + 1], keep, k)
  {
    var e := events[i];
    BucketStep(events, keep, i);
    if seen && keep(e) {
      PushTwice(BucketOf(events[..i], keep), e);
    }
  }

  /** `hasAllDayEvents`: some day's bucket has an all-day event. */
  predicate HasAllDayEvents(m: map<string, Bucket>) {
    exists k :: k in m && m[k].allDay != []
  }

  /** There is an all-day row exactly when some all-day event passes the test
      of a day of the week. */
  lemma AllDayRowOn(m: map<string, Bucket>, events: seq<Event>, test: string -> (Event -> bool), keys: seq<string>)
    requires forall k :: k in m ==> k in keys
    requires forall j :: 0 <= j < |keys| ==> AgreesOn(m, events, test(keys[j]), keys[j])
    ensures HasAllDayEvents(m) <==> exists j, e :: 0 <= j < |keys| && e in events && e.allDay && test(keys[j])(e)
  {
    if HasAllDayEvents(m) {
      AllDayRowHasEvent(m, events, test, keys);
    }
    if exists j, e :: 0 <= j < |keys| && e in events && e.allDay && test(keys[j])(e) {
      var j, e :| 0 <= j < |keys| && e in events && e.allDay && test(keys[j])(e);
      BucketHoldsAllDay(m, events, test(keys[j]), keys[j], e);
      assert keys[j] in m && m[keys[j]].allDay != [];
    }
  }

  /** A day with an all-day entry names an all-day event passing that day's test. */
  lemma AllDayRowHasEvent(m: map<string, Bucket>, events: seq<Event>, test: string -> (Event -> bool), keys: seq<string>)
    requires forall k :: k in m ==> k in keys
    requires forall j :: 0 <= j < |keys| ==> AgreesOn(m, events, test(keys[j]), keys[j])
    requires HasAllDayEvents(m)
    ensures exists j, e :: 0 <= j < |keys| && e in events && e.allDay && test(keys[j])(e)
  {
    var k :| k in m && m[k].allDay != [];
    var j :| 0 <= j < |keys| && keys[j] == k;
    AllDayInBucket(m, events, test(k), k);
    var e := m[k].allDay[0];
    assert 0 <= j < |keys| && e in events && e.allDay && test(keys[j])(e);
  }

  /** A bucket's first all-day event is an all-day event passing its test. */
  lemma AllDayInBucket(m: map<string, Bucket>, events: seq<Event>, keep: Event -> bool, k: string)
    requires AgreesOn(m, events, keep, k) && k in m && m[k].allDay != []
    ensures var e := m[k].allDay[0]; e in events && e.allDay && keep(e)
  {
    BucketOfContents(events, keep);
  }

  /** An all-day event passing a day's test leaves that day with an all-day entry. */
  lemma BucketHoldsAllDay(m: map<string, Bucket>, events: seq<Event>, keep: Event -> bool, k: string, e: Event)
    requires AgreesOn(m, events, keep, k) && e in events && e.allDay && keep(e)
    ensures k in m && m[k].allDay != []
  {
    BucketOfContents(events, keep);
    assert HasId(BucketOf(events, keep).allDay, e.id);
    var x :| 0 <= x < |events| && events[x] == e;
    assert e in Filter(events, keep);
  }

  /** With the day view's test: the all-day row is there exactly when some
      all-day event whose source is shown falls on a day of the week. */
  lemma AllDayRow(m: map<string, Bucket>, events: seq<Event>, hidden: seq<string>, keys: seq<string>)
    requires forall k :: k in m ==> k in keys
    requires forall j :: 0 <= j < |keys| ==> Agrees(m, events, hidden, keys[j])
    ensures HasAllDayEvents(m) <==> exists j, e :: 0 <= j < |keys| && e in events && e.allDay && Shown(e, hidden, keys[j])
  {
    var test := ShownKey(hidden);
    forall j | 0 <= j < |keys|
      ensures AgreesOn(m, events, test(keys[j]), keys[j])
    {
      assert test(keys[j]) == ShownOn(hidden, keys[j]);
    }
    AllDayRowOn(m, events, test, keys);
    forall j, e | 0 <= j < |keys|
      ensures test(keys[j])(e) == Shown(e, hidden, keys[j])
    {
      ShownKeyTest(hidden, keys[j], e);
    }
  }
}
