# rcal: a verified model of the spatiotemporal calendar's core

rcal is a calendar that puts events on two zoom axes: a **temporal**
granularity (moment, hour, day, week, month, season, year, decade,
century, cosmic) and a **spatial** granularity (planet, continent,
bioregion, country, region, city, neighborhood, address, coordinates).
The two axes can be coupled, so that each temporal level selects a map
level. This project models the parts of the client and of the two
server routes that decide what the calendar shows. Each part is proved
against a specification.

- **Types** (`types.dfy`): the two granularity enums, the
  level-to-view table, the temporal-to-spatial coupling table and the
  map-zoom tables.
- **Store** (`store.dfy`): the calendar store, as a class whose six
  fields the actions update in place. It covers zoom in and out with
  their clamps, coupling, the effective spatial level, date navigation
  by level, and hidden sources.
- **Civil** (`civil.dfy`): proleptic Gregorian dates and the roll-over
  arithmetic of JavaScript's `Date`. This covers `new Date(y, m, d)`,
  `setDate`, `setMonth` and `setFullYear` with out-of-range arguments,
  `getDay`, and `YYYY-MM-DD` keys. Day numbers follow the MakeDay
  algorithm of section 21.4.1.28 of ECMA-262. The constructor also reads
  years 0..99 as 1900..1999 (section 21.4.2.1); the setters do not.
- **Location** (`location.dfy`): the semantic location label of an
  event at a spatial level, and grouping events by that label.
- **UseEvents** (`useevents.dfy`) and **Grouping** (`grouping.dfy`):
  grouping events by start date. Grouping gives the
  insertion-ordered `Map` group-by pattern one specification.
- **Calendar views**:
  - `dayview.dfy`: hour labels, event positions and the day's event
    lists.
  - `weekview.dfy` and `weekdays.dfy`: the week's days, the per-day
    buckets and the week number.
  - `monthview.dfy`: the 42-cell month grid and the three-event limit.
  - `seasonview.dfy`: quarters and the season's month grids.
  - `yearview.dfy`: the mini months, the Monday-first glance column,
    and clicks on a month or a day.
  - `zoomcontroller.dfy`: the zoom controller's level list, keyboard
    and wheel shortcuts, and the decade label.
  - `eventdetail.dfy`: the detail dialog's duration, location and
    attendee text.
- **SpatialTab** (`spatialtab.dfy`): the date range fetched for the
  map at each level and the calendar shown beside it.
- **Lunar** (`lunar.dfy`) and **LunarRoute** (`lunarroute.dfy`):
  phase-name normalisation, and the searches for the new moons around
  a date. They also cover the synodic month with its eight phase
  dates, the per-day phase table, and the `/api/lunar` endpoint.
- **ContextPage** (`contextpage.dfy`): the embedded context page's
  reading of its query string.
- **Middleware** (`middleware.dfy`): subdomain routing in production
  and in development, both as written and with the development
  branch's port handling corrected (see Findings).

How things are represented:

- A `Date` value is a civil date, year/month/day.
- An event's start and end are a date and a minute of the day.
- Lunar instants are integer milliseconds.
- The moon library is a pair of functions passed in:
  `illumination(t)`, and the phase name and age.
- The clock is a `today`/`now` parameter.

## Model

| member | source | states |
|---|---|---|
| Types.TemporalOrdinal | src/lib/types.ts:11-22 | each temporal level's enum value is below 10 |
| Types.TemporalOf | src/lib/types.ts:11-22 | reading an enum value 0..9 back gives the level with that value |
| Types.TemporalOrdinalBijective | src/lib/types.ts:11-22 | the enum values number the ten temporal levels one to one |
| Types.SpatialOrdinal | src/lib/types.ts:47-57 | each spatial level's enum value is below 9 |
| Types.SpatialOf | src/lib/types.ts:47-57 | reading an enum value 0..8 back gives the level with that value |
| Types.SpatialOrdinalBijective | src/lib/types.ts:47-57 | the enum values number the nine spatial levels one to one |
| Types.TemporalToView | src/lib/types.ts:37-43 | the view table has an entry exactly for DAY, WEEK, MONTH, YEAR and DECADE |
| Types.TemporalToViewInjective | src/lib/types.ts:37-43 | no two levels share a view |
| Types.TemporalToSpatial | src/lib/types.ts:73-84 | COUNTRY exactly for MONTH and SEASON; never BIOREGION, REGION or NEIGHBORHOOD |
| Types.TemporalToSpatialAntitone | src/lib/types.ts:73-84 | a coarser time level never couples to a finer map level |
| Types.MonthIsCountry | src/lib/types.ts:78 | MONTH couples to COUNTRY |
| Types.SpatialToLeafletZoom | src/lib/types.ts:86-96 | every map zoom lies in 2..18 |
| Types.LeafletZoomStrictlyIncreasing | src/lib/types.ts:86-96 | the map zoom grows strictly with the spatial level |
| Types.LeafletZoomToSpatial | src/lib/types.ts:98-108 | zoom 2 or less is PLANET; above 17 is COORDINATES |
| Types.LeafletZoomToSpatialMonotone | src/lib/types.ts:98-108 | zooming the map in never gives a coarser spatial level |
| Types.LeafletZoomRoundTrip | src/lib/types.ts:86-108 | each level's own map zoom maps back to that level |
| Store.ZoomInLevel | src/lib/store.ts:107-119 | zooming in moves one level finer, clamped at DAY |
| Store.ZoomOutLevel | src/lib/store.ts:120-132 | zooming out moves one level coarser, clamped at DECADE |
| Store.ZoomRoundTrip | src/lib/store.ts:107-132 | between DAY and DECADE, zooming out then in (or in then out) returns to the level |
| Store.ZoomStaysInRange | src/lib/store.ts:109-125 | zooming never reaches MOMENT, HOUR, CENTURY or COSMIC |
| Store.EffectiveSpatial | src/lib/store.ts:276-283 | coupled: the level coupled to the temporal one; uncoupled: the chosen level, else COUNTRY |
| Store.Navigate | src/lib/store.ts:178-210 | navigation always lands on a valid date; the time range is not modelled, as Left out states |
| Store.NavigateByDays | src/lib/store.ts:184-206 | DAY and the default levels (MOMENT, HOUR, COSMIC) move the date one day, WEEK seven days, either way |
| Store.NavigateByMonths | src/lib/store.ts:190-195 | MONTH moves one month and SEASON three; the day of month is kept when it is at most 28 |
| Store.NavigateByYears | src/lib/store.ts:196-204 | YEAR, DECADE and CENTURY move 1, 10 or 100 years and keep month and day, except on February 29 |
| Store.NavigateInverse | src/lib/store.ts:178-210 | for days up to 28, previous undoes next at every level |
| Store.NavigateMonthOverflow | src/lib/store.ts:190-192 | from 2024-01-31, next month is 2024-03-02 (setMonth rolls over) |
| Store.NavigateLeapDay | src/lib/store.ts:196-198 | from 2024-02-29, next year is 2025-03-01 |
| Store.NavigateSeason | src/lib/store.ts:193-195 | from 2024-02-15, next season is 2024-05-15 |
| Store.RemoveAll | src/lib/store.ts:224-226 | the filter removes every copy of the id and keeps every other id |
| Store.RemoveAllAbsent | src/lib/store.ts:224-226 | removing an absent id changes nothing |
| Store.ToggledSources | src/lib/store.ts:222-227 | toggling flips the id's membership and leaves every other id as it was |
| Store.ToggleTwice | src/lib/store.ts:222-227 | toggling twice restores the hidden set, and the very list when the id was shown |
| Store.RemoveAllAppended | src/lib/store.ts:224-226 | hiding then showing an id gives the list back |
| Store.CalendarStore.constructor | src/lib/store.ts:89-241 | initial state: month view, MONTH level, no spatial choice, coupled, today, nothing hidden |
| Store.CalendarStore.SetViewType | src/lib/store.ts:90 | only the view type changes |
| Store.CalendarStore.SetTemporalGranularity | src/lib/store.ts:98-106 | sets the level and its view if it has one; when coupled, also its spatial level; nothing else changes |
| Store.CalendarStore.ZoomIn | src/lib/store.ts:107-119 | the level becomes ZoomInLevel, with view and coupled spatial level updated as by setTemporalGranularity |
| Store.CalendarStore.ZoomOut | src/lib/store.ts:120-132 | the level becomes ZoomOutLevel, with view and coupled spatial level updated |
| Store.CalendarStore.SetSpatialGranularity | src/lib/store.ts:136 | only the spatial level changes |
| Store.CalendarStore.ToggleZoomCoupled | src/lib/store.ts:243-251 | flips coupling; re-coupling snaps the spatial level to the coupled one |
| Store.CalendarStore.EffectiveSpatialGranularity | src/lib/store.ts:276-283 | returns EffectiveSpatial of the state, which is the coupled level when coupled |
| Store.CalendarStore.SetCurrentDate | src/lib/store.ts:140 | only the date changes |
| Store.CalendarStore.GoToToday | src/lib/store.ts:141 | the date becomes today; nothing else changes |
| Store.CalendarStore.GoToNextMonth | src/lib/store.ts:142-147 | the date moves by setMonth(+1); nothing else changes |
| Store.CalendarStore.GoToPreviousMonth | src/lib/store.ts:148-153 | the date moves by setMonth(-1) |
| Store.CalendarStore.GoToNextYear | src/lib/store.ts:154-159 | the date moves by setFullYear(+1) |
| Store.CalendarStore.GoToPreviousYear | src/lib/store.ts:160-165 | the date moves by setFullYear(-1) |
| Store.CalendarStore.GoToNextDecade | src/lib/store.ts:166-171 | the date moves by setFullYear(+10) |
| Store.CalendarStore.GoToPreviousDecade | src/lib/store.ts:172-177 | the date moves by setFullYear(-10) |
| Store.CalendarStore.NavigateByGranularity | src/lib/store.ts:178-210 | the date becomes Navigate(level, direction, date); nothing else changes |
| Store.CalendarStore.ToggleSourceVisibility | src/lib/store.ts:222-227 | hidden sources become ToggledSources; nothing else changes |
| Store.CalendarStore.IsSourceVisible | src/lib/store.ts:229 | visible exactly when the source is not hidden |
| Civil.MakeDate | src/lib/store.ts:142-189 | the setters' roll-over: any month and day give a valid date on day MakeDay(y, m, d), the year taken as given |
| Civil.FullYear | src/components/calendar/MonthView.tsx:216-219 | the constructor's year (section 21.4.2.1 of ECMA-262): years 0..99 become 1900 + y, every other year is kept, and the result never lies in 0..99 |
| Civil.NewDate | src/components/calendar/MonthView.tsx:216-219 | `new Date(y, m, d)` gives a valid date on day MakeDay(FullYear(y), m, d) |
| Civil.NewDateTwoDigitYear | src/components/calendar/MonthView.tsx:216 | `new Date(24, 0, 1)` is 1924-01-01; years 100 and -1 are kept |
| Civil.AddDays | src/lib/store.ts:184-189 | `setDate(getDate() + k)` gives the valid date k days later |
| Civil.AddMonths | src/lib/store.ts:142-153 | `setMonth(getMonth() + k)` always gives a valid date |
| Civil.AddMonthsLands | src/lib/store.ts:142-153 | the month shift lands on the same day of the target month, or carries the surplus days into the month after it |
| Civil.AddYears | src/lib/store.ts:154-177 | `setFullYear(getFullYear() + k)` always gives a valid date |
| Civil.AddYearsLands | src/lib/store.ts:154-177 | the year shift keeps month and day, except that February 29 into a common year becomes March 1 |
| Civil.Weekday | src/components/calendar/MonthView.tsx:219 | `getDay()` lies in 0..6, and 1970-01-01 is a Thursday (4) |
| Civil.MakeDateDayZero | src/components/calendar/MonthView.tsx:217-218 | day 0 of a month is the last day of the month before |
| Civil.MonthFirstAndLast | src/components/calendar/MonthView.tsx:216-219 | `new Date(y, m-1, 1)` is the first and `new Date(y, m, 0)` the last day of month m of year FullYear(y) |
| Civil.AddMonthsKeepsDay | src/lib/store.ts:142-153 | a month shift keeps the day when the target month has it |
| Civil.AddMonthsCarries | src/lib/store.ts:142-153 | otherwise the surplus days carry into the month after the target |
| Civil.AddMonthsInverse | src/lib/store.ts:142-153 | for days every month has, k months forward then back is the identity |
| Civil.AddYearsKeepsDay | src/lib/store.ts:154-177 | a year shift keeps month and day except on February 29 |
| Civil.AddYearsLeapDay | src/lib/store.ts:154-177 | February 29 into a common year becomes March 1 |
| Civil.DayNumberOrder | src/components/calendar/DayView.tsx:26-28 | day numbers order dates as the calendar does, both ways |
| Civil.FromDayNumberRoundTrip | src/lib/store.ts:184-189 | a date's day number converts back to the date |
| Civil.DateKeyOrder | src/components/calendar/DayView.tsx:62-67 | for four-digit years, string order of date keys is date order, both ways |
| Civil.DateKeyInjective | src/components/calendar/DayView.tsx:49-51 | for four-digit years, different dates have different keys |
| Civil.DateKeyInjectiveInRange | src/lib/lunar.ts:162 | within the time range of a Date, different dates have different keys |
| Civil.DateKey | src/components/calendar/MonthView.tsx:233 | a key has no `T`, so `split('T')[0]` keeps it whole; for years 0..9999 it is ten characters, digits with dashes at places 4 and 7 |
| Text.Split | src/lib/location.ts:20 | `split` always yields at least one piece |
| Text.JoinSplit | src/lib/location.ts:20 | joining the pieces with the separator gives the string back |
| Text.SplitPiecesFree | src/lib/location.ts:20 | no piece contains the separator |
| Text.BeforeFirstIsPrefix | src/hooks/useEvents.ts:44 | `split(c)[0]` is a prefix without c, and the whole string exactly when c is absent |
| Text.DecimalRoundTrip | src/components/calendar/EventDetailModal.tsx:40-43 | `${n}` of a natural number reads back as n |
| Text.IntToStringRoundTrip | src/components/calendar/TemporalZoomController.tsx:164-165 | `${n}` of any integer reads back as n |
| Text.LexTrichotomy | src/components/calendar/DayView.tsx:62-67 | JavaScript's string `<` is a strict total order |
| Text.LexLessTransitive | src/components/calendar/DayView.tsx:62-67 | string `<` is transitive |
| Text.LexLeTransitive | src/components/calendar/DayView.tsx:62-67 | string `<=` is transitive |
| Text.DigitsOrder | src/components/calendar/DayView.tsx:62-67 | zero-padded numbers of one width compare as strings as they do as numbers |
| Grouping.Filter | src/components/calendar/DayView.tsx:69-72 | `Array.filter`: no longer than the input; an element is in the result exactly when it is in the input and passes the test |
| Grouping.FilterSublist | src/components/calendar/DayView.tsx:69-72 | the filtered list is a subsequence of the input in which each passing element occurs as often as in the input and each failing one not at all |
| Grouping.FilterAppend | src/components/calendar/DayView.tsx:69-72 | filtering distributes over concatenation |
| Grouping.FilterIdempotent | src/components/calendar/DayView.tsx:69-72 | filtering twice is filtering once |
| Grouping.FilterPartition | src/components/calendar/DayView.tsx:69-72 | a test and its negation split a list into parts whose sizes add up to its length |
| Grouping.Select | src/hooks/useEvents.ts:40-51 | the elements with key k: an element is selected exactly when it is in the input and has key k |
| Grouping.SelectSublist | src/hooks/useEvents.ts:40-51 | the selection is a subsequence of the input holding each element with key k as often as the input does, and nothing else |
| Grouping.Kept | src/lib/location.ts:51-66 | the elements that have a key: an element is kept exactly when it is in the input and has a key |
| Grouping.KeptSublist | src/lib/location.ts:51-66 | the kept list is a subsequence of the input holding each element with a key as often as the input does, and nothing else |
| Grouping.SubsequenceTransitive | src/components/calendar/DayView.tsx:62-72 | a subsequence of a subsequence is a subsequence of the whole, so filters chain |
| Grouping.ExactlyOneGroup | src/hooks/useEvents.ts:43-48 | in a grouping, every keyed element lies in its own key's group and in no other |
| Grouping.OnlyOccurringKeys | src/hooks/useEvents.ts:43-48 | a grouping has groups only for keys that occur, and none is empty |
| Location.LastTwo | src/lib/location.ts:38-39 | `slice(-2)`: the last two crumbs, or all when fewer |
| Location.Crumbs | src/lib/location.ts:20 | no crumbs exactly when there is no breadcrumb |
| Location.LabelWithoutDisplayField | src/lib/location.ts:10-12 | without a display field the label is the raw location |
| Location.LabelWithoutLocation | src/lib/location.ts:16-18 | with no location, a virtual event shows its platform or "Virtual"; any other event shows "" |
| Location.LabelWithoutBreadcrumb | src/lib/location.ts:20-24 | with no breadcrumb the label is the display text, else the raw location |
| Location.EmptyBreadcrumbReachesSwitch | src/lib/location.ts:20-30 | an empty breadcrumb splits into one empty crumb and the PLANET label falls back to "Earth" |
| Location.PlanetAndCountryLabels | src/lib/location.ts:27-33 | PLANET is the first crumb or "Earth" and never empty; BIOREGION labels as COUNTRY |
| Location.AddressPrefersRaw | src/lib/location.ts:40-42 | ADDRESS and COORDINATES show the raw location when there is one |
| Location.NeighborhoodJoinsLastTwo | src/lib/location.ts:38-39 | NEIGHBORHOOD joins the last two crumbs with ", " |
| Location.Label | src/lib/location.ts:10-44 | every label is the raw or display location, the platform, a crumb, the last two crumbs joined, "Virtual", "Earth" or "" |
| Location.LocationKey | src/lib/location.ts:57-63 | an event has a grouping key exactly when its label is non-empty, and the key is the label |
| Location.GroupEventsByLocation | src/lib/location.ts:51-66 | groups the events by label in first-seen key order, skips empty labels, and has no "" key |
| UseEvents.StartKey | src/hooks/useEvents.ts:44 | the key is the start text before the first `T`, and the whole start when it has no `T` |
| UseEvents.StartKeyOfTimestamp | src/hooks/useEvents.ts:44 | a start `YYYY-MM-DDT…` is keyed by its date |
| UseEvents.GroupEventsByDate | src/hooks/useEvents.ts:40-51 | groups every event by its start key; the group sizes add up to the event count |
| Events.InstantOrder | src/components/calendar/DayView.tsx:26-28 | comparing instants is comparing date first, then minute |
| Events.Visible | src/components/tabs/SpatialTab.tsx:90-93 | the hidden-source filter keeps exactly the events whose source is not hidden |
| Events.VisibleAppend | src/components/tabs/SpatialTab.tsx:90-93 | the filter keeps order: it distributes over concatenation |
| Events.NothingHidden | src/lib/store.ts:221 | with nothing hidden every event is visible |
| Events.VisibleIdempotent | src/components/tabs/SpatialTab.tsx:90-93 | filtering twice is filtering once |
| SpatialTab.RangeDates | src/components/tabs/SpatialTab.tsx:14-55 | both ends of the fetched range are valid dates |
| SpatialTab.DayStart | src/components/tabs/SpatialTab.tsx:24 | `new Date(y, m-1, d)`: a valid date on the day numbered as the same day of year FullYear(y), and the date itself outside years 0..99 |
| SpatialTab.DayEnd | src/components/tabs/SpatialTab.tsx:25 | `new Date(y, m-1, d + 1)`: a valid date on the day after that |
| SpatialTab.DayRange | src/components/tabs/SpatialTab.tsx:23-26 | DAY: `new Date(y, m-1, d)`, which is the date itself outside years 0..99 and the same day of FullYear(y) otherwise, and the day after it |
| SpatialTab.WeekRange | src/components/tabs/SpatialTab.tsx:27-32 | WEEK: the Sunday on or before the date and the Sunday seven days later |
| SpatialTab.MonthRange | src/components/tabs/SpatialTab.tsx:33-36 | MONTH: the first and the last day of the month, in year FullYear(y) |
| SpatialTab.SeasonRange | src/components/tabs/SpatialTab.tsx:37-42 | SEASON: the first day of the quarter's first month to the last day of its third, in year FullYear(y) |
| SpatialTab.QuarterMonth0 | src/components/tabs/SpatialTab.tsx:38 | the quarter's first month (0-based) is the season view's first quarter month |
| SpatialTab.QuarterBounds | src/components/tabs/SpatialTab.tsx:39-41 | the quarter's `new Date` calls give its first and last days, in year FullYear(y) |
| SpatialTab.YearRange | src/components/tabs/SpatialTab.tsx:43-48 | YEAR and every other level: January 1 to December 31 of year FullYear(y) |
| SpatialTab.RangeHoldsDate | src/components/tabs/SpatialTab.tsx:14-55 | at WEEK, and at every level for years outside 0..99, the range brackets the date |
| SpatialTab.RangeTwoDigitYear | src/components/tabs/SpatialTab.tsx:33-36 | the MONTH range of 0024-03-15 is March 1924, which does not hold the date |
| SpatialTab.SeasonSpan | src/components/tabs/SpatialTab.tsx:37-42 | a quarter holds its three months and spans under a year |
| SpatialTab.GetDateRangeForGranularity | src/components/tabs/SpatialTab.tsx:51-54 | for years 1..9998 (from 100 on except at WEEK), the range's string keys bracket the date's key |
| SpatialTab.CalendarFor | src/components/tabs/SpatialTab.tsx:57-79 | the year calendar exactly for YEAR and every coarser level; the day calendar exactly for DAY and every finer level |
| SpatialTab.CalendarFollowsLevel | src/components/tabs/SpatialTab.tsx:57-79 | a coarser level never shows a finer calendar |
| SpatialTab.CalendarAgreesWithViewTable | src/components/tabs/SpatialTab.tsx:57-79 | the tab's calendar matches the view table on DAY, WEEK, MONTH and YEAR; DECADE gets the year calendar |
| SpatialTab.VisibleEvents | src/components/tabs/SpatialTab.tsx:90-93 | no results give no events; otherwise the hidden-source filter of the results |
| DayView.FormatHour | src/components/calendar/DayView.tsx:13-18 | a 12-hour label ending " AM" before noon and " PM" after |
| DayView.FormatHourRoundTrip | src/components/calendar/DayView.tsx:13-18 | every label reads back as its hour |
| DayView.FormatHourInjective | src/components/calendar/DayView.tsx:13-18 | no two hours share a label |
| DayView.ClampStart | src/components/calendar/DayView.tsx:26 | the later of the start and the day's start |
| DayView.ClampEnd | src/components/calendar/DayView.tsx:27 | the earlier of the end and the day's end |
| DayView.EventPosition | src/components/calendar/DayView.tsx:20-38 | the top lies within the day's 1440 minutes and the height is at least 30 |
| DayView.PositionInDay | src/components/calendar/DayView.tsx:20-38 | an event starting that day starts at its minute; an earlier one at 0; a later end clamps to 23:59 |
| DayView.OnDay | src/components/calendar/DayView.tsx:62-67 | an event on any day has a start key not after its end key |
| DayView.OnDayMeansBetween | src/components/calendar/DayView.tsx:62-67 | the key comparison holds exactly when the day lies between start and end dates |
| DayView.DayEvents | src/components/calendar/DayView.tsx:62-67 | the day's events: an event is listed exactly when it is among the events, its source is shown and it spans the day |
| DayView.DayEventsOfTimed | src/components/calendar/DayView.tsx:62-67 | an event is in the day's list exactly when its source is shown and it spans the day |
| DayView.WithAllDay | src/components/calendar/DayView.tsx:69-72 | an event is listed exactly when it is in the input and its all-day flag matches |
| DayView.PartitionCount | src/components/calendar/DayView.tsx:69-72 | the all-day and timed lists together hold every event once |
| DayView.DayLists | src/components/calendar/DayView.tsx:60-72 | no results give two empty lists; otherwise the shown all-day and the shown timed events of the day, each list a subsequence of the results holding each such event as often as the results do |
| DayView.HeaderCount | src/components/calendar/DayView.tsx:110 | the header count is the number of the day's events |
| DayView.IsToday | src/components/calendar/DayView.tsx:75-82 | "today" exactly when year, month and day agree, which is being the same date |
| WeekDays.GetWeekDays | src/components/calendar/WeekView.tsx:21-31 | seven valid days, the first the Sunday on or before the date |
| WeekDays.WeekDaysRunSundayToSaturday | src/components/calendar/WeekView.tsx:21-31 | the days run Sunday to Saturday on consecutive days and hold the date |
| WeekDays.WeekdayInWeek | src/components/calendar/WeekView.tsx:21-31 | the day i places after that Sunday has weekday i |
| WeekDays.SameWeek | src/components/calendar/WeekView.tsx:21-31 | every day of the week has the same week |
| WeekDays.WeekNumber | src/components/calendar/WeekView.tsx:129 | the week number, computed from the weekday of `new Date(year, month - 1, 1)`, lies in 1..6 |
| WeekDays.WeekNumberIsGridRow | src/components/calendar/WeekView.tsx:129 | the week number is the row, counted from 1, of the date's day in the month grid of year FullYear(y); outside years 0..99 that cell is the date |
| WeekDays.WeekNumberOwnYear | src/components/calendar/WeekView.tsx:129 | outside years 0..99, the week number is the row of the date in its own month's grid |
| WeekDays.WeekRowIsWeek | src/components/calendar/WeekView.tsx:129 | outside years 0..99, that grid row shows the same seven days as the week view |
| WeekDays.WeekNumberTwoDigitYear | src/components/calendar/WeekView.tsx:129 | 0024-03-02 gets week 2, from the weekday of 1924-03-01, though its own month puts it in row 1 |
| WeekDays.GridRowDay | src/components/calendar/MonthView.tsx:208-267 | day i of the date's week is cell i of the date's row |
| WeekView.DedupById | src/components/calendar/WeekView.tsx:99-103 | the `find`-guarded push keeps no two ids and drops no id |
| WeekView.DedupSnoc | src/components/calendar/WeekView.tsx:99-103 | one more event is appended exactly when its id is new |
| WeekView.DedupOfDistinct | src/components/calendar/WeekView.tsx:99-103 | a list without repeated ids is unchanged |
| WeekView.Push | src/components/calendar/WeekView.tsx:99-103 | the list the all-day flag selects then holds the event's id, the other list is untouched, and the bucket grows by one exactly when the id was new to that list |
| WeekView.PushTwice | src/components/calendar/WeekView.tsx:99-103 | filing an event twice is filing it once |
| WeekView.BucketContents | src/components/calendar/WeekView.tsx:84-108 | a day's bucket holds the shown events spanning the day, all-day and timed, each id once |
| WeekView.WeekAgreesWithDayView | src/components/calendar/WeekView.tsx:84-108 | with distinct ids, a day's bucket is the day view's two lists |
| WeekView.DayKeys | src/components/calendar/WeekView.tsx:92 | one date key per day, in order |
| WeekView.EventsByDay | src/components/calendar/WeekView.tsx:84-108 | no results give an empty map; otherwise only week days are keys, and each day's entry is its bucket |
| WeekView.FileInWeek | src/components/calendar/WeekView.tsx:91-105 | filing one event over all days extends every day's agreement by that event |
| WeekView.FileEvent | src/components/calendar/WeekView.tsx:96-103 | the event is pushed into the day's bucket (created when missing) exactly when it spans the day |
| WeekView.AllDayRow | src/components/calendar/WeekView.tsx:110-113 | the all-day row appears exactly when some shown all-day event spans a day of the week |
| MonthView.Lead | src/components/calendar/MonthView.tsx:216-224 | the days borrowed from the previous month number 0..6 |
| MonthView.GridDateIsDay | src/components/calendar/MonthView.tsx:208-267 | cell k is the valid day Lead-before-the-first plus k, on weekday k mod 7 |
| MonthView.GridCurrentMonth | src/components/calendar/MonthView.tsx:241-251 | a cell is marked current-month exactly when its date is in the month, and today exactly when it is today |
| MonthView.GridFits | src/components/calendar/MonthView.tsx:253-264 | the next month fills 5 to 14 cells |
| MonthView.GenerateGregorianMonth | src/components/calendar/MonthView.tsx:208-267 | returns the date's year and month and the 42 cells its `new Date` calls build for year FullYear(year) |
| MonthView.BuiltCellIsGridCell | src/components/calendar/MonthView.tsx:226-264 | for years outside 0..99 a built cell is the grid cell, except the leading cells of January of year 100, which land in December 1999 |
| MonthView.PreviousMonthCell | src/components/calendar/MonthView.tsx:226-239 | the first loop's cell k is built cell k |
| MonthView.CurrentMonthCell | src/components/calendar/MonthView.tsx:241-251 | the second loop's day i is built cell Lead + i - 1 |
| MonthView.NextMonthCell | src/components/calendar/MonthView.tsx:253-264 | the third loop's day i is the built cell after the month's last |
| MonthView.CellEventsAreThatDay | src/components/calendar/MonthView.tsx:30-35 | a cell's events are exactly the events keyed by its date, in order |
| MonthView.ShownEvents | src/components/calendar/MonthView.tsx:130-132 | at most three shown, all when three or fewer; "+n more" exactly when more, and the two counts add up |
| YearView.ToMondayFirst | src/components/calendar/YearView.tsx:132-134 | a Sunday-first weekday becomes the Monday-first one (shifted by one mod 7) |
| YearView.ToSundayFirst | src/components/calendar/YearView.tsx:132-134 | the inverse numbering lies in 0..6 |
| YearView.MondayFirstBijection | src/components/calendar/YearView.tsx:132-134 | the two numberings are inverse bijections of 0..6 |
| YearView.MondayFirstWeekday | src/components/calendar/YearView.tsx:183 | the Monday-first weekday is (day number + 3) mod 7 |
| YearView.GlanceWeekendIsWeekend | src/components/calendar/YearView.tsx:215-217 | the glance weekend is Saturday and Sunday; Sunday is 6 and Monday 0 |
| YearView.GlanceLead | src/components/calendar/YearView.tsx:168-173 | 0..6 empty slots before the first |
| YearView.GlanceShape | src/components/calendar/YearView.tsx:187-191 | the column is whole weeks, at most 42 slots, and holds every day |
| YearView.GlanceWeekdays | src/components/calendar/YearView.tsx:170-191 | every slot's weekday is its index mod 7 |
| YearView.GlanceDays | src/components/calendar/YearView.tsx:175-185 | the day slots are exactly the month's days, in order after the lead |
| YearView.GlanceMonthColumn | src/components/calendar/YearView.tsx:162-194 | the column built for year FullYear(year) has the glance length and each slot is the specified slot |
| YearView.GlanceDaySlot | src/components/calendar/YearView.tsx:176-185 | the second loop's slot for a day is the specified slot |
| YearView.MiniMonthToday | src/components/calendar/YearView.tsx:52-57 | a day is marked today exactly when it is today's date |
| YearView.MiniMonth | src/components/calendar/YearView.tsx:42-60 | for year FullYear(year): the first's weekday and one entry per day, each marked when it is today |
| YearView.MiniDayOfDate | src/components/calendar/YearView.tsx:52-57 | the loop's day built by `new Date` is the specified entry |
| YearView.HandleMonthClick | src/components/calendar/YearView.tsx:295-299 | the first of the month in year FullYear(year), at MONTH level in the month view; coupled, COUNTRY on the map |
| YearView.HandleDayClick | src/components/calendar/YearView.tsx:301-304 | the clicked date at DAY level in the day view; coupled, ADDRESS on the map |
| SeasonView.Quarter | src/components/calendar/SeasonView.tsx:107 | `Math.ceil(month / 3)` is the quarter 1..4 holding the month |
| SeasonView.QuarterMonths | src/components/calendar/SeasonView.tsx:110-113 | a quarter's three consecutive months |
| SeasonView.QuarterHoldsMonth | src/components/calendar/SeasonView.tsx:106-113 | the current quarter holds the month, and its months lie in the year and in that quarter |
| SeasonView.QuartersPartitionYear | src/components/calendar/SeasonView.tsx:106-113 | each month lies in exactly one quarter |
| SeasonView.SeasonName | src/components/calendar/SeasonView.tsx:115 | "Quarter" exactly outside quarters 1..4, and otherwise one of the four season names |
| SeasonView.SeasonNames | src/components/calendar/SeasonView.tsx:115 | a real quarter is never "Quarter"; names differ; January–March is Winter and October–December Fall |
| SeasonView.GridDayAgreesWithMiniMonth | src/components/calendar/SeasonView.tsx:18-34 | the season grid's days agree with the year view's mini month |
| SeasonView.MonthGrid | src/components/calendar/SeasonView.tsx:18-34 | for year FullYear(year): the first's weekday, the month's length and one valid entry per day |
| SeasonView.GridDayOfDate | src/components/calendar/SeasonView.tsx:25-32 | the loop's day built by `new Date` is the specified entry |
| ZoomController.IndexOf | src/components/calendar/TemporalZoomController.tsx:138 | `indexOf`: the first position of the level, or -1 exactly when absent |
| ZoomController.ZoomLevelsAreDayToDecade | src/components/calendar/TemporalZoomController.tsx:10-17 | the list is exactly DAY..DECADE in enum order |
| ZoomController.StoreZoomStaysInList | src/components/calendar/TemporalZoomController.tsx:138-140 | store zooms keep a listed level in the list and stop at its ends |
| ZoomController.CanZoomIn | src/components/calendar/TemporalZoomController.tsx:138-139 | the zoom-in button is enabled exactly for WEEK..DECADE |
| ZoomController.CanZoomOut | src/components/calendar/TemporalZoomController.tsx:138-140 | the zoom-out button is enabled for every level but DECADE, levels outside the list included |
| ZoomController.ButtonsAgreeWithStore | src/components/calendar/TemporalZoomController.tsx:138-140 | for listed levels a button is enabled exactly when its zoom changes the level |
| ZoomController.SpatialLevelsCoarseFirst | src/components/calendar/TemporalZoomController.tsx:20-25 | the spatial filter's levels run coarse to fine |
| ZoomController.KeyActsWhen | src/components/calendar/TemporalZoomController.tsx:53-112 | which keys act: none in an input; arrows only without meta or ctrl |
| ZoomController.DigitKeysFollowList | src/components/calendar/TemporalZoomController.tsx:87-110 | key i+1 selects the list's level i |
| ZoomController.KeyAction | src/components/calendar/TemporalZoomController.tsx:59-111 | a key only selects listed levels, only arrows navigate, and ArrowRight goes forward |
| ZoomController.WheelAction | src/components/calendar/TemporalZoomController.tsx:119-131 | the wheel acts only with ctrl or meta, zooming in exactly when scrolling up |
| ZoomController.WheelMatchesKeys | src/components/calendar/TemporalZoomController.tsx:119-131 | ctrl-scrolling does what '+' and '-' do |
| ZoomController.Perform | src/components/calendar/TemporalZoomController.tsx:59-111 | the whole new state of each action: a zoom or a digit sets the level, with the view following it and the spatial level following it when coupled; an arrow moves the date by the current level, 't' sets it to today, and each of these two changes nothing else |
| ZoomController.HandleKeyDown | src/components/calendar/TemporalZoomController.tsx:53-112 | a key without an action leaves the store unchanged; a key with one performs it, with Perform's whole new state; a digit lands on a listed level |
| ZoomController.HandleWheel | src/components/calendar/TemporalZoomController.tsx:119-131 | without ctrl or meta the store is unchanged; otherwise the whole new state of a zoom in (scrolling up) or a zoom out, as '+' and '-' give; a listed level stays listed |
| ZoomController.DecadeStart | src/components/calendar/TemporalZoomController.tsx:164 | the multiple of ten whose decade holds the year, negative years too |
| ZoomController.DecadeLabel | src/components/calendar/TemporalZoomController.tsx:163-165 | the label ends in "s" |
| ZoomController.DecadeLabelSameDecade | src/components/calendar/TemporalZoomController.tsx:163-165 | two years share a label exactly when they share a decade |
| ZoomController.DecadeLabelExamples | src/components/calendar/TemporalZoomController.tsx:163-165 | 2024 is "2020s" and -5 is "-10s" |
| EventDetail.FormatDuration | src/components/calendar/EventDetailModal.tsx:39-44 | under an hour ends in "m" with no "h"; whole hours end in "h" |
| EventDetail.FormatDurationRoundTrip | src/components/calendar/EventDetailModal.tsx:39-44 | every duration reads back as its minutes |
| EventDetail.FormatDurationInjective | src/components/calendar/EventDetailModal.tsx:39-44 | no two durations share a text |
| EventDetail.LocationLines | src/components/calendar/EventDetailModal.tsx:130-161 | the block shows exactly for a raw location or a virtual event; the main line exactly with a raw location; the link exactly for a virtual event with a URL |
| EventDetail.LocationLinesShowRaw | src/components/calendar/EventDetailModal.tsx:138-150 | with a raw location, the main line is the label when there is one, else the raw text; the raw text is a second line exactly when a label differs from it; the raw text is always shown |
| EventDetail.MeetingLinkText | src/components/calendar/EventDetailModal.tsx:151-161 | the link shows the platform or "Join meeting" |
| EventDetail.AttendeeLine | src/components/calendar/EventDetailModal.tsx:167-173 | a line exactly when the count is positive; plural "s" exactly when not 1 |
| EventDetail.AttendeeLineCount | src/components/calendar/EventDetailModal.tsx:171-173 | the number on the line is the count |
| Lunar.PhaseIndex | src/lib/lunar.ts:7-16 | each phase's place in the cycle |
| Lunar.PhaseOrderIsCycle | src/lib/lunar.ts:7-16 | each phase appears in the cycle exactly once |
| Lunar.Emoji | src/lib/lunar.ts:7-16 | the emoji is the one character U+1F311 plus the phase's cycle place |
| Lunar.EmojiInjective | src/lib/lunar.ts:7-16 | no two phases share an emoji |
| Lunar.Canon | src/lib/lunar.ts:22-25 | lower-casing and replacing spaces and dashes gives a clean name no longer than the input |
| Lunar.CanonIdempotent | src/lib/lunar.ts:22-25 | normalising twice is normalising once |
| Lunar.CanonIgnoresCase | src/lib/lunar.ts:22-25 | a name and its lower-case form normalise alike |
| Lunar.CanonTwoWords | src/lib/lunar.ts:22-25 | "a b" normalises to a's form, "_", then b's form |
| Lunar.PhaseName | src/lib/lunar.ts:27-39 | each phase's name is snake case and a key of the alias table mapped to that phase |
| Lunar.NormalizeOwnName | src/lib/lunar.ts:21-42 | each phase's own name normalises to the phase |
| Lunar.NormalizeIgnoresSpelling | src/lib/lunar.ts:21-42 | only the normal form of the name matters |
| Lunar.NormalizeNew | src/lib/lunar.ts:28 | "New" is the new moon |
| Lunar.NormalizeFull | src/lib/lunar.ts:33 | "Full" is the full moon |
| Lunar.NormalizeThirdQuarter | src/lib/lunar.ts:36 | "third_quarter" is the last quarter |
| Lunar.NormalizePhaseName | src/lib/lunar.ts:21-42 | a name whose normal form is a phase's own name gives that phase; an unknown name gives the new moon |
| Lunar.PhaseInfoAt | src/lib/lunar.ts:48-63 | the normalised phase, its emoji, the library's illumination and age, and no eclipse |
| Lunar.ScanForMinimum | src/lib/lunar.ts:74-84 | the first least illumination of the days scanned, which stop at the first day more than 0.05 above a running minimum under 0.05, or after 31 days |
| Lunar.RunMin | src/lib/lunar.ts:71-80 | the running minimum starts at 1 and is at most each day scanned so far |
| Lunar.ScanMinimumUnique | src/lib/lunar.ts:69-87 | the scan's specification determines where it stops and which day it returns |
| Lunar.ScanOutcomeUnique | src/lib/lunar.ts:69-87 | two days that both meet the scan's specification are the same day |
| Lunar.FindPreviousNewMoon | src/lib/lunar.ts:69-87 | the scan backwards from the date, whose result is determined: a whole number of days, at most 30, before it |
| Lunar.FindNextNewMoon | src/lib/lunar.ts:92-110 | the scan forwards from the next day, whose result is determined: 1 to 31 whole days after the date |
| Lunar.PhaseDates | src/lib/lunar.ts:122-131 | eight phase dates |
| Lunar.PhaseDatesFollowCycle | src/lib/lunar.ts:122-140 | phase date k is the cycle's k-th phase |
| Lunar.PhaseDateAt | src/lib/lunar.ts:122-131 | phase date k lies k eighths of the month after the start |
| Lunar.PhaseDatesInOrder | src/lib/lunar.ts:122-131 | the phase dates strictly increase |
| Lunar.GetSynodicMonth | src/lib/lunar.ts:116-148 | runs from the previous new moon to the next, with its whole-day length and eight phase dates |
| Lunar.SynodicMonthUnique | src/lib/lunar.ts:116-148 | the synodic month of a date is determined by the illumination |
| Lunar.KeyOfInjective | src/lib/lunar.ts:162 | instants on different days have different keys |
| Lunar.DaysInRange | src/lib/lunar.ts:161-165 | the number of days the loop visits from start to end |
| Lunar.LunarDataForRange | src/lib/lunar.ts:154-168 | one entry per visited day, keyed by its date, holding its phase info, and no other |
| Lunar.FillRange | src/lib/lunar.ts:161-165 | the loop fills exactly one entry per day |
| LunarRoute.BranchOf | src/app/api/lunar/route.ts:14-36 | single date without a range; a range with both ends; today otherwise |
| LunarRoute.Status | src/app/api/lunar/route.ts:41-47 | status 400 exactly for a range over the limit |
| LunarRoute.TooLongExact | src/app/api/lunar/route.ts:41-43 | over the limit exactly when the range exceeds 366 days |
| LunarRoute.AcceptedRangeSize | src/app/api/lunar/route.ts:41-49 | an accepted range holds at most 367 days |
| LunarRoute.Get | src/app/api/lunar/route.ts:14-74 | each branch's answer: phase and synodic month, moon times with lat and lng, the range table with its count, or today |
| LunarRoute.RangeAnswerSize | src/app/api/lunar/route.ts:49-60 | the count is the number of days; a reversed range has none |
| ContextPage.NonEmpty | src/app/context/page.tsx:20-21 | `get(name) \|\| undefined` keeps exactly non-empty values |
| ContextPage.ContextFor | src/app/context/page.tsx:19-58 | a context exactly for a listed tool, with its ids, a range only with both ends, and the tab (default "context") |
| ContextPage.ContextForWellFormed | src/app/context/page.tsx:47-58 | every built context is well formed |
| ContextPage.ContextRoundTrip | src/app/context/page.tsx:19-58 | reading back a well-formed context's query string gives the context |
| ContextPage.UnknownToolRefused | src/app/context/page.tsx:26-45 | a missing or unlisted tool is refused |
| Middleware.ProductionLabel | src/middleware.ts:22 | a captured label fits the first group, holds no dot and is shorter than the host |
| Middleware.ProductionLabelMatches | src/middleware.ts:22 | `label.word.online…` matches with the label captured |
| Middleware.ProductionLabelShape | src/middleware.ts:22 | a match always has that shape |
| Middleware.SubdomainAsWritten | src/middleware.ts:20-31 | as written: a production label other than `www` wins; a host without `localhost` gets only such a label |
| Middleware.Subdomain | src/middleware.ts:20-31 | corrected: a production label other than `www` wins; a host without `localhost` gets only such a label |
| Middleware.BareLocalhostAsWritten | src/middleware.ts:25-30 | as written, `localhost:<port>` gets the subdomain `localhost:<port>` |
| Middleware.BareLocalhost | src/middleware.ts:25-30 | corrected: `localhost` with or without a port has no subdomain |
| Middleware.WithoutPort | src/middleware.ts:25-30 | dropping the port of `name:port` gives the name |
| Middleware.LocalhostSubdomain | src/middleware.ts:25-30 | `sub.localhost[:port]` has the subdomain sub |
| Middleware.NoProductionMatch | src/middleware.ts:22-25 | a development host never matches the production pattern |
| Middleware.LocalhostSubdomainOf | src/middleware.ts:25-30 | the corrected development branch finds sub before any port suffix |
| Middleware.LocalhostSubdomainAsWritten | src/middleware.ts:25-30 | the branch as written also finds sub |
| Middleware.RouteAsWritten | src/middleware.ts:20-50 | the middleware as written: a path other than "/" passes through, and a host without `localhost` is routed as by Route |
| Middleware.Route | src/middleware.ts:33-50 | the middleware with the corrected subdomain: a path other than "/" passes through |
| Middleware.BareLocalhostRoute | src/middleware.ts:25-43 | as written, `localhost:<port>/` is rewritten to `/s/localhost:<port>`; corrected, it passes through |
| Middleware.RouteRewrites | src/middleware.ts:33-50 | corrected routing: a rewrite exactly for "/" on a host with a non-empty subdomain, to `/demo` for "demo" and to `/s/<subdomain>` otherwise |
| Middleware.SpacePathsDistinct | src/middleware.ts:35-47 | different subdomains are rewritten to different paths |
| Middleware.ProductionRoute | src/middleware.ts:22-47 | `label.word.online/` is the demo for "demo", else `/s/label` |
| Middleware.WwwRoute | src/middleware.ts:23 | `www` passes through |
| Middleware.DemoRoute | src/middleware.ts:35-39 | `demo.rcal.online/` rewrites to `/demo` |
| Middleware.TeamRoute | src/middleware.ts:44-47 | `team.rcal.online/` rewrites to `/s/team` |

## Left out

- Time zones and daylight saving time. Dates are civil dates.
  - The source's `toISOString().split('T')[0]` turns local midnight into
    a UTC date. The model uses the local date, which is the same only at
    UTC or west of it.
- `Date` parsing. An event's start and end are given already parsed.
- Parse failures:
  - An unparsable start or end makes `toISOString` throw. The model
    leaves this out.
  - DayView.DayLists, WeekView.EventsByDay and WeekView.FileEvent
    require that every shown event's start and end parse, because of
    that throw.
- Event positions are whole minutes. The source's fractional pixel
  offsets are not modelled.
- Locale formatting is not modelled: month names, `toLocaleDateString`,
  the week header.
- Rendering, styling and click handlers other than the ones in the
  table are not modelled.
- The clock is a parameter (`today`, `now`), not read.
- WeekView.EventsByDay:
  - the per-day `Map` is a value that is reassigned, not mutated in
    place;
  - the model builds the map per event and per day as the source
    does, and does not capture aliasing between buckets.
- SpatialTab's `default` case gets the YEAR range, like every level
  without its own case. SpatialTab.YearRange covers it.
- The zoom controller:
  - the range slider and the spatial filter's buttons are not modelled;
  - only the level list, the shortcuts and the decade label are.
- EventDetail.FormatDuration:
  - takes whole minutes; the source's `duration_minutes` may be
    fractional;
  - a negative duration is formatted like a short one.
- Unicode case mapping beyond ASCII is not modelled. Lunar.Lower lowers
  ASCII letters only.
- The phase mapping's inherited `Object.prototype` keys (`constructor`
  and so on) are not modelled. They would make `mapping[x]` return a
  function.
- The moon library:
  - `lunarphase-js` and `suncalc` are not part of this model;
  - their results (phase name, age, illumination) are function
    parameters;
  - moon rise and set times, the moon's position and eclipse detection
    are not modelled;
  - Lunar.PhaseInfoAt's `isEclipse` is always false, as in the source.
- Lunar.GetSynodicMonth uses integer milliseconds and a whole number of
  days. The source's floating-point durations are not modelled.
- The lunar endpoint:
  - LunarRoute.Get does not model the 500 response of the `catch`
    block;
  - an invalid single date gives a library-dependent answer that is
    not modelled further;
  - `parseFloat` of `lat` and `lng` is not modelled: they pass through
    as text.
- ContextPage.ContextFor keeps the range's start and end as their query
  text. The `new Date` of each is not modelled.
- The middleware's `matcher` configuration (which paths reach the
  middleware) is not modelled.
- Store persistence (`persist`) and the React hooks around the store
  are not modelled.
- Store.Navigate, Civil.AddDays, Civil.AddMonths and Civil.AddYears: the
  ECMAScript time range of 100,000,000 days either side of 1970-01-01
  (Civil.MaxTimeDays) is not modelled. In JavaScript, `setDate`, `setMonth`
  and `setFullYear` give an Invalid Date once the result leaves that range,
  and every later step keeps it invalid. The model always returns a valid
  date, so it does not capture repeated DECADE or CENTURY navigation
  running past the range.
- Text.LexLess and Text.LexLe: compare Unicode scalar values. JavaScript
  compares UTF-16 code units, which orders differently for strings that mix
  characters above U+FFFF with characters in U+E000..U+FFFF. The date keys
  compared in this model are ASCII, where the two orders agree.
- Store.NavigateByMonths: states the result only for days up to 28. The
  other days are covered by Civil.AddMonthsCarries.
- Civil.AddMonths: its own contract states only that the result is a
  valid date. Where it lands is stated by Civil.AddMonthsLands.
- Civil.AddYears: its own contract states only that the result is a
  valid date. Where it lands is stated by Civil.AddYearsLands.
- SpatialTab.RangeDates: its own contract states only that both ends are
  valid dates. Each level's ends are stated by SpatialTab.DayRange,
  WeekRange, MonthRange, SeasonRange and YearRange.
- SpatialTab.RangeHoldsDate: promised at levels other than WEEK only for
  years outside 0..99. For those years `new Date` builds the range in
  1900..1999, so it does not hold the date (SpatialTab.RangeTwoDigitYear).
- SpatialTab.GetDateRangeForGranularity: the keys bracket the date's key
  only for years 1..9998, and from 100 on except at WEEK. Other years are
  written with six digits and a sign, or lie outside the range.
- WeekDays.WeekNumberIsGridRow: the grid cell is the date itself only
  for years outside 0..99. For those years the week number is counted
  in the grid of year 1900 + y.
- WeekDays.WeekRowIsWeek: promised only for years outside 0..99, for the
  same reason.
- Grouping.Filter: its own contract states length and membership. Order
  and multiplicity are stated by Grouping.FilterSublist.
- Grouping.Select: its own contract states length and membership. Order
  and multiplicity are stated by Grouping.SelectSublist.
- Grouping.Kept: its own contract states length and membership. Order and
  multiplicity are stated by Grouping.KeptSublist.
- DayView.DayEvents: its own contract states membership. Order and
  multiplicity are stated for the day's lists by DayView.DayLists.
- DayView.WithAllDay: its own contract states membership. Order and
  multiplicity are stated for the day's lists by DayView.DayLists.

## Findings

| source | as written | input that shows it | evidently intended | confidence | as-written member | corrected member |
|---|---|---|---|---|---|---|
| src/middleware.ts:27-29 | the development branch splits the host with its port still attached, so the bare development host `localhost:3000` gets the subdomain `localhost:3000`, and "/" is rewritten to `/s/localhost:3000` | host `localhost:3000`, path `/` | the bare development host has no subdomain and "/" passes through | high; not executed | Middleware.BareLocalhostAsWritten | Middleware.BareLocalhost |
