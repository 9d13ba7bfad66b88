/** The moon-phase endpoint: one date with its synodic month, a range of days
    capped at 366, or today by default, chosen by which query parameters are
    present. */
module LunarRoute {
  import opened Wrappers
  import opened Lunar

  /** The query parameters `start`, `end`, `date`, `lat` and `lng`. */
  datatype Query = Query(start: Option<string>, end: Option<string>, date: Option<string>,
                         lat: Option<string>, lng: Option<string>)

  datatype Branch = SingleDateBranch | RangeBranch | TodayBranch

  /** The branch the handler takes: a lone `date`, else `start` with `end`,
      else today. Each branch is taken exactly under its own condition: the
      single date only without `start` and `end`, the range whenever both are
      given (with or without `date`), and today for every other combination,
      such as a lone `start` or `date` with `start`. */
  function BranchOf(q: Query): (b: Branch)
    ensures b == SingleDateBranch <==> Truthy(q.date) && !Truthy(q.start) && !Truthy(q.end)
    ensures b == RangeBranch <==> Truthy(q.start) && Truthy(q.end)
    ensures b == TodayBranch <==>
              !(Truthy(q.date) && !Truthy(q.start) && !Truthy(q.end)) && !(Truthy(q.start) && Truthy(q.end))
  {
    if Truthy(q.date) && !Truthy(q.start) && !Truthy(q.end) then SingleDateBranch
    else if Truthy(q.start) && Truthy(q.end) then RangeBranch
    else TodayBranch
  }

  /** Moonrise and moonset at a place. */
  datatype MoonTimes = MoonTimes(riseAt: Option<string>, setAt: Option<string>, alwaysUp: bool, alwaysDown: bool)

  /** What the handler depends on: the phase library, `new Date(text)` (None
      for an invalid date), the moon times at an instant and the `lat` and
      `lng` texts, and the clock. */
  datatype Env = Env(lib: Library, parseDate: string -> Option<TimeValue>,
                     moonTimes: (int, string, string) -> MoonTimes, now: TimeValue)

  datatype Response =
    | SingleDate(date: string, phase: PhaseInfo, synodic: SynodicMonth, moonTimes: Option<MoonTimes>)
      /** The single-date answer for a date `new Date` cannot read; its content
          is whatever the phase library makes of an invalid instant. */
    | LibraryDependent(date: string)
    | DateRange(start: string, end: string, count: nat, phases: map<string, PhaseInfo>)
      /** The 400 answer to a range of more than 366 days. */
    | RangeTooLong
    | Today(date: string, phase: PhaseInfo, synodic: SynodicMonth)

  function Status(r: Response): (code: int)
    ensures code == 400 <==> r.RangeTooLong?
  {
    if r.RangeTooLong? then 400 else 200
  }

  /** `daysDiff > 366` on the parsed instants. */
  predicate TooLong(start: int, end: int) {
    (end - start) as real / DayMs as real > 366.0
  }

  /** The limit counts milliseconds: a range is refused exactly when its end
      lies more than 366 whole days after its start, so 366 days are accepted. */
  lemma TooLongExact(start: int, end: int)
    ensures TooLong(start, end) <==> end - start > 366 * DayMs
  {
    var d := (end - start) as real / DayMs as real;
    assert d * DayMs as real == (end - start) as real;
  }

  /** An accepted range holds at most 367 days. */
  lemma AcceptedRangeSize(start: int, end: int)
    requires !TooLong(start, end)
    ensures DaysInRange(start, end) <= 367
  {
    TooLongExact(start, end);
  }

  /** GET /api/lunar. */
  method Get(env: Env, q: Query) returns (resp: Response)
    ensures BranchOf(q) == SingleDateBranch && env.parseDate(q.date.value).Some? ==>
              var t := env.parseDate(q.date.value).value;
              resp.SingleDate? && resp.date == q.date.value &&
              resp.phase == PhaseInfoAt(env.lib, t) &&
              IsSynodicMonth(env.lib.illumination, t, resp.synodic) &&
              (resp.moonTimes.Some? <==> Truthy(q.lat) && Truthy(q.lng)) &&
              (resp.moonTimes.Some? ==> resp.moonTimes.value == env.moonTimes(t, q.lat.value, q.lng.value))
    ensures BranchOf(q) == SingleDateBranch && env.parseDate(q.date.value).None? ==>
              resp == LibraryDependent(q.date.value)
    ensures BranchOf(q) == RangeBranch ==>
              var s, e := env.parseDate(q.start.value), env.parseDate(q.end.value);
              if s.Some? && e.Some? then
                (resp.RangeTooLong? <==> TooLong(s.value, e.value)) &&
                (!resp.RangeTooLong? ==>
                   resp.DateRange? && resp.start == q.start.value && resp.end == q.end.value &&
                   resp.count == |resp.phases| && IsRangeData(env.lib, s.value, e.value, resp.phases))
              else
                resp == DateRange(q.start.value, q.end.value, 0, map[])
    ensures BranchOf(q) == TodayBranch ==>
              resp.Today? && resp.date == KeyOf(env.now) &&
              resp.phase == PhaseInfoAt(env.lib, env.now) &&
              IsSynodicMonth(env.lib.illumination, env.now, resp.synodic)
  {
    match BranchOf(q)
    case SingleDateBranch =>
      var date := q.date.value;
      var parsed := env.parseDate(date);
      if parsed.None? {
        return LibraryDependent(date);
      }
      var t := parsed.value;
      var synodic := GetSynodicMonth(env.lib.illumination, t);
      var moonTimes := if Truthy(q.lat) && Truthy(q.lng) then Some(env.moonTimes(t, q.lat.value, q.lng.value)) else None;
      resp := SingleDate(date, PhaseInfoAt(env.lib, t), synodic, moonTimes);
    case RangeBranch =>
      var s, e := env.parseDate(q.start.value), env.parseDate(q.end.value);
      if s.None? || e.None? {
        // An invalid date makes the day count NaN, which passes the limit,
        // and the loop's first comparison with NaN ends it at once.
        return DateRange(q.start.value, q.end.value, 0, map[]);
      }
      if TooLong(s.value, e.value) {
        return RangeTooLong;
      }
      var phases := LunarDataForRange(env.lib, s.value, e.value);
      resp := DateRange(q.start.value, q.end.value, |phases|, phases);
    case TodayBranch =>
      var synodic := GetSynodicMonth(env.lib.illumination, env.now);
      resp := Today(KeyOf(env.now), PhaseInfoAt(env.lib, env.now), synodic);
  }

  /** A range answer counts one entry per day visited, and is empty when
      `end` comes before `start`. */
  lemma RangeAnswerSize(s: TimeValue, e: TimeValue, phases: map<string, PhaseInfo>, lib: Library)
    requires IsRangeData(lib, s, e, phases)
    ensures |phases| == DaysInRange(s, e)
    ensures e < s ==> phases == map[]
  {
    if e < s {
      assert |phases| == 0;
    }
  }
}
