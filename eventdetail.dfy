/** The event detail dialog's text: the duration after the times, the location
    lines and the attendee count. */
module EventDetail {
  import opened Wrappers
  import opened Text
  import opened Types
  import opened Events
  import opened Location

  // ---------------------------------------------------------------------------
  // formatDuration

  /** formatDuration: `"<m>m"` under an hour, otherwise whole hours and, when
      there are any, the minutes left over: `"<h>h <r>m"` or `"<h>h"`. */
  function FormatDuration(minutes: int): (s: string)
    ensures |s| >= 2
    ensures minutes < 60 ==> s[|s| - 1] == 'm' && 'h' !in s
    ensures minutes >= 60 && minutes % 60 == 0 ==> s[|s| - 1] == 'h'
  {
    if minutes < 60 then IntToString(minutes) + "m"
    else
      var hours := minutes / 60;
      var mins := minutes % 60;
      if mins > 0 then Decimal(hours) + "h " + Decimal(mins) + "m" else Decimal(hours) + "h"
  }

  /** Reads a duration label back into minutes. */
  function ParseDuration(s: string): Option<int> {
    var head := BeforeFirst(s, 'h');
    if head == s then
      if |s| >= 1 && s[|s| - 1] == 'm' then ParseInt(s[..|s| - 1]) else None
    else if |head| < |s| && IsDigits(head) && |head| >= 1 then
      var rest := s[|head| + 1..];
      var hours := ParseDigits(head);
      if rest == "" then Some(60 * hours)
      else if |rest| >= 3 && rest[0] == ' ' && rest[|rest| - 1] == 'm' && IsDigits(rest[1..|rest| - 1]) then
        Some(60 * hours + ParseDigits(rest[1..|rest| - 1]))
      else None
    else None
  }

  /** Every duration label reads back as its number of minutes, so no two
      durations share a label. */
  lemma FormatDurationRoundTrip(minutes: int)
    ensures ParseDuration(FormatDuration(minutes)) == Some(minutes)
  {
    var s := FormatDuration(minutes);
    if minutes < 60 {
      BeforeFirstIsPrefix(s, 'h');
      assert s[..|s| - 1] == IntToString(minutes);
      IntToStringRoundTrip(minutes);
    } else {
      var hours, mins := minutes / 60, minutes % 60;
      var d := Decimal(hours);
      var rest := if mins > 0 then " " + Decimal(mins) + "m" else "";
      assert s == d + ['h'] + rest;
      BeforeFirstOfPrefix(d, 'h', rest);
      assert s[|d| + 1..] == rest;
      DecimalRoundTrip(hours);
      if mins > 0 {
        assert rest[1..|rest| - 1] == Decimal(mins);
        DecimalRoundTrip(mins);
      }
    }
  }

  lemma FormatDurationInjective(a: int, b: int)
    requires FormatDuration(a) == FormatDuration(b)
    ensures a == b
  {
    FormatDurationRoundTrip(a);
    FormatDurationRoundTrip(b);
  }

  // ---------------------------------------------------------------------------
  // The location lines

  /** The location block: whether it is shown, its main line and the raw
      location underneath (None when absent), and the meeting link's text. */
  datatype LocationBlock = LocationBlock(shown: bool, main: Option<string>, secondary: Option<string>, link: Option<string>)

  /** The dialog's location block for `e` at the map's spatial level.
      `virtualUrl` is the event's `virtual_url` (empty when absent). */
  function LocationLines(e: Event, spatial: Spatial, virtualUrl: string): (b: LocationBlock)
    ensures b.shown <==> e.locationRaw != "" || e.isVirtual
    ensures b.main.Some? <==> e.locationRaw != ""
    ensures b.link.Some? <==> e.isVirtual && virtualUrl != ""
  {
    var semanticLabel := Label(e, spatial);
    var main := if e.locationRaw != "" then Some(Or(semanticLabel, e.locationRaw)) else None;
    var secondary :=
      if e.locationRaw != "" && semanticLabel != "" && semanticLabel != e.locationRaw then Some(e.locationRaw) else None;
    var link := if e.isVirtual && virtualUrl != "" then Some(Or(e.virtualPlatform, "Join meeting")) else None;
    LocationBlock(e.locationRaw != "" || e.isVirtual, main, secondary, link)
  }

  /** The main line is the semantic label when there is one and the raw
      location otherwise; the raw location is repeated underneath only when it
      differs from a non-empty label. So the raw location is always on screen
      once, and the two lines never say the same thing. */
  lemma LocationLinesShowRaw(e: Event, spatial: Spatial, virtualUrl: string)
    requires e.locationRaw != ""
    ensures var b := LocationLines(e, spatial, virtualUrl);
            var l := Label(e, spatial);
            b.main.Some? && b.main.value != "" &&
            (b.main == Some(l) <==> l != "") &&
            (b.secondary.Some? <==> l != "" && l != e.locationRaw) &&
            (b.main == Some(e.locationRaw) || b.secondary == Some(e.locationRaw)) &&
            (b.secondary.Some? ==> b.secondary != b.main)
  {
  }

  /** A virtual event with a link shows the platform's name, or "Join meeting". */
  lemma MeetingLinkText(e: Event, spatial: Spatial, virtualUrl: string)
    requires e.isVirtual && virtualUrl != ""
    ensures LocationLines(e, spatial, virtualUrl).link ==
              Some(if e.virtualPlatform != "" then e.virtualPlatform else "Join meeting")
  {
  }

  // ---------------------------------------------------------------------------
  // Attendees

  /** The attendee line: none for no attendees, otherwise the count and
      "attendee", with an "s" unless there is exactly one. */
  function AttendeeLine(count: int): (r: Option<string>)
    ensures r.Some? <==> count > 0
    ensures r.Some? ==> |r.value| >= 10 && (r.value[|r.value| - 1] == 's' <==> count != 1)
  {
    if count > 0 then Some(Decimal(count) + " attendee" + (if count != 1 then "s" else "")) else None
  }

  /** The number before the first space of an attendee line is the count. */
  lemma AttendeeLineCount(count: int)
    requires count > 0
    ensures var line := AttendeeLine(count).value;
            var n := BeforeFirst(line, ' ');
            IsDigits(n) && ParseDigits(n) == count
  {
    var d := Decimal(count);
    var rest := "attendee" + (if count != 1 then "s" else "");
    assert AttendeeLine(count).value == d + [' '] + rest;
    BeforeFirstOfPrefix(d, ' ', rest);
    DecimalRoundTrip(count);
  }
}
