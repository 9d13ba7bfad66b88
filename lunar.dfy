/** Moon phases: the phase names and their symbols, the search for the new
    moons around a date by the least illumination, the synodic month with its
    eight phase dates, and the per-day phase table of a date range.

    Instants are JavaScript time values: whole milliseconds since 1970-01-01
    UTC. The astronomy (phase name, illuminated fraction, age) comes from a
    library and enters as the functions of a `Library` value. */
module Lunar {
  import opened Wrappers
  import opened Text
  import opened Civil

  // ---------------------------------------------------------------------------
  // Phases

  datatype Phase = NewMoon | WaxingCrescent | FirstQuarter | WaxingGibbous
                 | FullMoon | WaningGibbous | LastQuarter | WaningCrescent

  /** The phases in the order of the cycle, from one new moon to the next. */
  const PhaseOrder: seq<Phase> :=
    [NewMoon, WaxingCrescent, FirstQuarter, WaxingGibbous, FullMoon, WaningGibbous, LastQuarter, WaningCrescent]

  /** The position of a phase in the cycle. */
  function PhaseIndex(p: Phase): (k: nat)
    ensures k < 8 && PhaseOrder[k] == p
  {
    match p
    case NewMoon => 0
    case WaxingCrescent => 1
    case FirstQuarter => 2
    case WaxingGibbous => 3
    case FullMoon => 4
    case WaningGibbous => 5
    case LastQuarter => 6
    case WaningCrescent => 7
  }

  /** Each phase appears in the cycle exactly once. */
  lemma PhaseOrderIsCycle(p: Phase, k: nat)
    requires k < 8
    ensures PhaseOrder[k] == p <==> PhaseIndex(p) == k
  {
  }

  /** The `LunarPhaseName` string of a phase: a snake-case key that the
      normalisation mapping sends back to the phase. */
  function PhaseName(p: Phase): (name: string)
    ensures SnakeCase(name)
    ensures name in PhaseAliases && PhaseAliases[name] == p
  {
    match p
    case NewMoon => "new_moon"
    case WaxingCrescent => "waxing_crescent"
    case FirstQuarter => "first_quarter"
    case WaxingGibbous => "waxing_gibbous"
    case FullMoon => "full_moon"
    case WaningGibbous => "waning_gibbous"
    case LastQuarter => "last_quarter"
    case WaningCrescent => "waning_crescent"
  }

  /** PHASE_EMOJIS: the eight consecutive moon characters U+1F311..U+1F318 in
      cycle order. */
  function Emoji(p: Phase): (symbol: string)
    ensures symbol == [(0x1F311 + PhaseIndex(p)) as char]
  {
    match p
    case NewMoon => "\U{1F311}"
    case WaxingCrescent => "\U{1F312}"
    case FirstQuarter => "\U{1F313}"
    case WaxingGibbous => "\U{1F314}"
    case FullMoon => "\U{1F315}"
    case WaningGibbous => "\U{1F316}"
    case LastQuarter => "\U{1F317}"
    case WaningCrescent => "\U{1F318}"
  }

  /** No two phases share a symbol. */
  lemma EmojiInjective(p: Phase, q: Phase)
    ensures Emoji(p) == Emoji(q) ==> p == q
  {
    assert Emoji(p)[0] == (0x1F311 + PhaseIndex(p)) as char;
    assert Emoji(q)[0] == (0x1F311 + PhaseIndex(q)) as char;
  }

  // ---------------------------------------------------------------------------
  // normalizePhaseName

  /** `\s` in a JavaScript regular expression. */
  predicate IsSpace(c: char) {
    '\t' <= c <= '\r' || c == ' ' || c == '\U{A0}' || c == '\U{1680}' ||
    '\U{2000}' <= c <= '\U{200A}' || c == '\U{2028}' || c == '\U{2029}' ||
    c == '\U{202F}' || c == '\U{205F}' || c == '\U{3000}' || c == '\U{FEFF}'
  }

  predicate IsUpper(c: char) {
    'A' <= c <= 'Z'
  }

  /** `toLowerCase` on one character (ASCII letters only). */
  function Lower(c: char): (l: char)
    ensures !IsUpper(l) && !IsSpace(l) == !IsSpace(c) && (l == '-' <==> c == '-')
  {
    if IsUpper(c) then (c as int + 32) as char else c
  }

  /** The text after a run of whitespace. */
  function DropSpaces(s: string): (r: string)
    ensures |r| <= |s| && (r != [] ==> !IsSpace(r[0]))
  {
    if s != [] && IsSpace(s[0]) then DropSpaces(s[1..]) else s
  }

  /** Whether a string is already in normal form: no upper-case letter, no
      whitespace and no hyphen. */
  predicate Clean(s: string) {
    forall i :: 0 <= i < |s| ==> !IsUpper(s[i]) && !IsSpace(s[i]) && s[i] != '-'
  }

  /** `toLowerCase()`, then `replace(/\s+/g, '_')`, then `replace(/-/g, '_')`:
      every whitespace run and every hyphen becomes one underscore. */
  function Canon(s: string): (r: string)
    ensures Clean(r) && |r| <= |s|
    decreases |s|
  {
    if s == [] then []
    else if IsSpace(s[0]) then "_" + Canon(DropSpaces(s[1..]))
    else [if s[0] == '-' then '_' else Lower(s[0])] + Canon(s[1..])
  }

  /** A string in normal form is left as it is. */
  lemma {:induction false} CanonOfClean(s: string)
    requires Clean(s)
    ensures Canon(s) == s
    decreases |s|
  {
    if s != [] {
      assert !IsSpace(s[0]) && s[0] != '-' && !IsUpper(s[0]);
      CanonOfClean(s[1..]);
    }
  }

  /** Normalising twice is normalising once. */
  lemma CanonIdempotent(s: string)
    ensures Canon(Canon(s)) == Canon(s)
  {
    CanonOfClean(Canon(s));
  }

  /** The phase names the mapping knows, with their aliases `new`, `full` and
      `third_quarter`. */
  const PhaseAliases: map<string, Phase> := map[
    "new" := NewMoon,
    "new_moon" := NewMoon,
    "waxing_crescent" := WaxingCrescent,
    "first_quarter" := FirstQuarter,
    "waxing_gibbous" := WaxingGibbous,
    "full" := FullMoon,
    "full_moon" := FullMoon,
    "waning_gibbous" := WaningGibbous,
    "third_quarter" := LastQuarter,
    "last_quarter" := LastQuarter,
    "waning_crescent" := WaningCrescent]

  /** normalizePhaseName: the phase a library name stands for, and the new moon
      for a name the mapping does not know. */
  function NormalizePhaseName(name: string): (p: Phase)
    ensures forall q :: Canon(name) == PhaseName(q) ==> p == q
    ensures Canon(name) !in PhaseAliases ==> p == NewMoon
  {
    var normalized := Canon(name);
    if normalized in PhaseAliases then PhaseAliases[normalized] else NewMoon
  }

  /** Lower-case letters and underscores only: the shape of every key. */
  predicate SnakeCase(s: string) {
    forall i :: 0 <= i < |s| ==> 'a' <= s[i] <= 'z' || s[i] == '_'
  }

  /** Every phase's own name is in normal form. */
  lemma OwnNameIsClean(p: Phase)
    ensures Canon(PhaseName(p)) == PhaseName(p)
  {
    SnakeCaseIsCanon(PhaseName(p));
  }

  /** A name in lower-case letters and underscores is already in normal form. */
  lemma SnakeCaseIsCanon(n: string)
    requires SnakeCase(n)
    ensures Canon(n) == n
  {
    assert Clean(n) by {
      forall i | 0 <= i < |n|
        ensures !IsUpper(n[i]) && !IsSpace(n[i]) && n[i] != '-'
      {
        assert 'a' <= n[i] <= 'z' || n[i] == '_';
      }
    }
    CanonOfClean(n);
  }

  /** Every phase's own name normalises to that phase. */
  lemma NormalizeOwnName(p: Phase)
    ensures NormalizePhaseName(PhaseName(p)) == p
  {
    OwnNameIsClean(p);
  }

  /** Case, whitespace runs and hyphens do not matter: a name and its normal
      form stand for the same phase. */
  lemma NormalizeIgnoresSpelling(name: string)
    ensures NormalizePhaseName(name) == NormalizePhaseName(Canon(name))
  {
    CanonIdempotent(name);
  }

  /** Two words joined by one space normalise to their normal forms joined by
      an underscore. */
  lemma {:induction false} CanonTwoWords(a: string, b: string)
    requires forall i :: 0 <= i < |a| ==> !IsSpace(a[i])
    requires b != [] && !IsSpace(b[0])
    ensures Canon(a + " " + b) == Canon(a) + "_" + Canon(b)
    decreases |a|
  {
    if a == [] {
      assert [] + " " + b == [' '] + b;
      assert (" " + b)[1..] == b;
    } else {
      assert (a + " " + b)[1..] == a[1..] + " " + b;
      CanonTwoWords(a[1..], b);
    }
  }

  /** The library's spelling `New` is the new moon. */
  lemma NormalizeNew()
    ensures NormalizePhaseName("New") == NewMoon
  {
    assert Canon("New") == "new";
  }

  /** The library's spelling `Full` is the full moon. */
  lemma NormalizeFull()
    ensures NormalizePhaseName("Full") == FullMoon
  {
    assert Canon("Full") == "full";
  }

  /** `toLowerCase` on a whole string. */
  function LowerAll(s: string): (r: string)
    ensures |r| == |s| && forall i :: 0 <= i < |s| ==> r[i] == Lower(s[i])
  {
    if s == [] then [] else [Lower(s[0])] + LowerAll(s[1..])
  }

  lemma {:induction false} DropSpacesLower(s: string)
    ensures DropSpaces(LowerAll(s)) == LowerAll(DropSpaces(s))
  {
    if s != [] && IsSpace(s[0]) {
      assert LowerAll(s)[1..] == LowerAll(s[1..]);
      DropSpacesLower(s[1..]);
    }
  }

  /** Capitals do not matter: a name and its lower-case form normalise alike. */
  lemma {:induction false} CanonIgnoresCase(s: string)
    ensures Canon(LowerAll(s)) == Canon(s)
    decreases |s|
  {
    if s != [] {
      var l := LowerAll(s);
      assert l[1..] == LowerAll(s[1..]);
      if IsSpace(s[0]) {
        DropSpacesLower(s[1..]);
        CanonIgnoresCase(DropSpaces(s[1..]));
      } else {
        CanonIgnoresCase(s[1..]);
      }
    }
  }

  /** The alias `third_quarter` is the last quarter. */
  lemma NormalizeThirdQuarter(name: string)
    requires name == "third_quarter"
    ensures NormalizePhaseName(name) == LastQuarter
  {
    assert SnakeCase(name);
    SnakeCaseIsCanon(name);
  }

  // ---------------------------------------------------------------------------
  // Instants and the phase library

  /** Milliseconds in a day. */
  const DayMs := 86400000

  /** Milliseconds in an eighth of a day. */
  const EighthDayMs := 10800000

  /** ECMAScript's time range: 8.64e15 milliseconds either side of 1970. */
  const MaxTime := MaxTimeDays * DayMs

  /** A time value a valid `Date` can hold. */
  type TimeValue = t: int | -MaxTime <= t <= MaxTime

  /** The instant `j` whole days after `from`, stepping by `step` (one day
      forward or back): `setDate(getDate() + step * j)` in UTC. */
  function DayAt(from: int, step: int, j: int): int {
    from + step * j * DayMs
  }

  /** What the phase library reports at an instant: `Moon.lunarPhase`,
      `Moon.lunarAge` and the illuminated fraction. */
  datatype Library = Library(phaseName: int -> string, age: int -> real, illumination: int -> real)

  /** LunarPhaseInfo; no eclipse is ever reported. */
  datatype PhaseInfo = PhaseInfo(phase: Phase, emoji: string, illumination: real, age: real, isEclipse: bool)

  /** getLunarPhaseForDate. */
  function PhaseInfoAt(lib: Library, t: int): (info: PhaseInfo)
    ensures info.emoji == Emoji(info.phase) && !info.isEclipse
    ensures info.phase == NormalizePhaseName(lib.phaseName(t))
    ensures info.illumination == lib.illumination(t) && info.age == lib.age(t)
  {
    var phase := NormalizePhaseName(lib.phaseName(t));
    PhaseInfo(phase, Emoji(phase), lib.illumination(t), lib.age(t), false)
  }

  // ---------------------------------------------------------------------------
  // findPreviousNewMoon and findNextNewMoon

  /** The `minIllum` of the search after it has looked at the first `n`
      days: 1 to begin with, then the least illumination seen. */
  function RunMin(illum: int -> real, from: int, step: int, n: nat): (m: real)
    ensures m <= 1.0
    ensures forall j :: 0 <= j < n ==> m <= illum(DayAt(from, step, j))
  {
    if n == 0 then 1.0
    else
      var prev, v := RunMin(illum, from, step, n - 1), illum(DayAt(from, step, n - 1));
      if v < prev then v else prev
  }

  /** The break test at day `j`: its illumination is more than 0.05 above a
      minimum, taken over the days up to and including `j`, that is below 0.05. */
  predicate Breaks(illum: int -> real, from: int, step: int, j: nat) {
    var m := RunMin(illum, from, step, j + 1);
    illum(DayAt(from, step, j)) > m + 0.05 && m < 0.05
  }

  /** What a search for the least illumination guarantees. It looked at the
      days `DayAt(from, step, j)` for `j < scanned`, at most 31 of them, and
      returned the `k`-th:
      - when some scanned day is below full illumination, the result is the
        least illuminated scanned day, and the nearest to `from` among equals;
      - otherwise the result is `from` itself;
      - the search stopped at the first day that passed the break test: it
        stopped early only because the day it looked at last was more than
        0.05 brighter than a minimum below 0.05, and no earlier day was. */
  ghost predicate IsScanMinimum(illum: int -> real, from: int, step: int, r: int, k: nat, scanned: nat) {
    1 <= scanned <= 31 && k < scanned && r == DayAt(from, step, k) &&
    ((exists j :: 0 <= j < scanned && illum(DayAt(from, step, j)) < 1.0) ==>
       forall j :: 0 <= j < scanned ==> illum(r) <= illum(DayAt(from, step, j))) &&
    ((forall j :: 0 <= j < scanned ==> illum(DayAt(from, step, j)) >= 1.0) ==> k == 0) &&
    (forall j :: 0 <= j < k ==> illum(DayAt(from, step, j)) > illum(r)) &&
    (scanned < 31 ==> illum(DayAt(from, step, scanned - 1)) > illum(r) + 0.05 && illum(r) < 0.05) &&
    (scanned < 31 ==> Breaks(illum, from, step, scanned - 1)) &&
    (forall j :: 0 <= j < scanned - 1 ==> !Breaks(illum, from, step, j))
  }

  /** A search has one outcome: the day it stops at and the day it returns
      are determined by the illumination. */
  lemma ScanMinimumUnique(illum: int -> real, from: int, step: int, r1: int, k1: nat, s1: nat, r2: int, k2: nat, s2: nat)
    requires IsScanMinimum(illum, from, step, r1, k1, s1)
    requires IsScanMinimum(illum, from, step, r2, k2, s2)
    ensures s1 == s2 && k1 == k2 && r1 == r2
  {
  }

  /** The loop shared by the two searches: up to 31 days from `from`, keep the
      first strictly least illumination, and stop once the illumination has
      risen more than 0.05 above a minimum below 0.05. */
  method ScanForMinimum(illum: int -> real, from: int, step: int) returns (r: int, ghost k: nat, ghost scanned: nat)
    ensures IsScanMinimum(illum, from, step, r, k, scanned)
  {
    var minIllum := 1.0;
    r := from;
    k := 0;
    var i := 0;
    while i <= 30
      invariant 0 <= i <= 31 && k <= i && (i > 0 ==> k < i)
      invariant r == DayAt(from, step, k)
      invariant minIllum == RunMin(illum, from, step, i)
      invariant minIllum <= 1.0 && (minIllum < 1.0 ==> minIllum == illum(r))
      invariant minIllum == 1.0 ==> k == 0
      invariant forall j :: 0 <= j < i ==> minIllum <= illum(DayAt(from, step, j))
      invariant forall j :: 0 <= j < k ==> illum(DayAt(from, step, j)) > minIllum
      invariant (exists j :: 0 <= j < i && illum(DayAt(from, step, j)) < 1.0) ==> minIllum < 1.0
      invariant forall j :: 0 <= j < i ==> !Breaks(illum, from, step, j)
    {
      var check := DayAt(from, step, i);
      var v := illum(check);
      if v < minIllum {
        minIllum := v;
        r := check;
        k := i;
      }
      if v > minIllum + 0.05 && minIllum < 0.05 {
        scanned := i + 1;
        return;
      }
      i := i + 1;
    }
    scanned := 31;
  }

  /** findPreviousNewMoon: the least illuminated of `d` and up to 30 days
      before it. */
  method FindPreviousNewMoon(illum: int -> real, d: int) returns (r: int, ghost k: nat, ghost scanned: nat)
    ensures IsScanMinimum(illum, d, -1, r, k, scanned)
    ensures d - 30 * DayMs <= r <= d && (d - r) % DayMs == 0
  {
    r, k, scanned := ScanForMinimum(illum, d, -1);
  }

  /** findNextNewMoon: the least illuminated of the 31 days from the day after
      `d`, so always strictly after `d`. */
  method FindNextNewMoon(illum: int -> real, d: int) returns (r: int, ghost k: nat, ghost scanned: nat)
    ensures IsScanMinimum(illum, DayAt(d, 1, 1), 1, r, k, scanned)
    ensures d + DayMs <= r <= d + 31 * DayMs && (r - d) % DayMs == 0
  {
    r, k, scanned := ScanForMinimum(illum, DayAt(d, 1, 1), 1);
  }

  // ---------------------------------------------------------------------------
  // getSynodicMonth

  datatype PhaseDate = PhaseDate(date: int, phase: Phase, emoji: string)

  datatype SynodicMonth = SynodicMonth(startDate: int, endDate: int, durationDays: int, phases: seq<PhaseDate>)

  /** The eight phase dates: the `k`-th phase of the cycle at `k/8` of the
      month after its start (`fraction * durationDays` days, exact in
      milliseconds because a day is divisible by eight). */
  function PhaseDates(start: int, durationDays: int): (ps: seq<PhaseDate>)
    ensures |ps| == 8
  {
    seq(8, k requires 0 <= k < 8 =>
      PhaseDate(start + k * durationDays * (EighthDayMs), PhaseOrder[k], Emoji(PhaseOrder[k])))
  }

  /** The phase dates start at the new moon, follow the cycle in order and
      carry their phase's symbol. */
  lemma PhaseDatesFollowCycle(start: int, durationDays: int, k: nat)
    requires k < 8
    ensures var ps := PhaseDates(start, durationDays);
            ps[0].date == start && ps[0].phase == NewMoon &&
            ps[k].phase == PhaseOrder[k] && ps[k].emoji == Emoji(ps[k].phase)
  {
  }

  /** The `k`-th phase date lies `k` eighths of the month after the start. */
  lemma PhaseDateAt(start: int, durationDays: int, k: nat)
    requires k < 8
    ensures PhaseDates(start, durationDays)[k].date == start + k * (durationDays * (EighthDayMs))
  {
    assert k * durationDays * (EighthDayMs) == k * (durationDays * (EighthDayMs));
  }

  /** The phase dates rise strictly, and the last comes before the next new
      moon. */
  lemma PhaseDatesInOrder(start: int, durationDays: int, i: nat, j: nat)
    requires durationDays >= 1 && i < j < 8
    ensures var ps := PhaseDates(start, durationDays);
            ps[i].date < ps[j].date && ps[j].date < start + durationDays * DayMs
  {
    var c := durationDays * (EighthDayMs);
    PhaseDateAt(start, durationDays, i);
    PhaseDateAt(start, durationDays, j);
    MulLess(i, j, c);
    MulLess(j, 8, c);
    assert 8 * c == durationDays * DayMs;
  }

  lemma MulLess(a: int, b: int, c: int)
    requires a < b && c > 0
    ensures a * c < b * c
  {
    assert b * c - a * c == (b - a) * c;
  }

  /** What getSynodicMonth returns: the previous new moon of `d` as start, the
      next new moon after the start as end, the whole days between them, and
      the phase dates across them. */
  ghost predicate IsSynodicMonth(illum: int -> real, d: int, m: SynodicMonth) {
    (exists k, n :: IsScanMinimum(illum, d, -1, m.startDate, k, n)) &&
    (exists k, n :: IsScanMinimum(illum, DayAt(m.startDate, 1, 1), 1, m.endDate, k, n)) &&
    m.durationDays * DayMs == m.endDate - m.startDate &&
    m.phases == PhaseDates(m.startDate, m.durationDays)
  }

  /** getSynodicMonth: the month runs from the new moon at most 30 days before
      `d` to the one 1 to 31 days after that. */
  method GetSynodicMonth(illum: int -> real, d: int) returns (m: SynodicMonth)
    ensures IsSynodicMonth(illum, d, m)
    ensures d - 30 * DayMs <= m.startDate <= d
    ensures 1 <= m.durationDays <= 31
  {
    var startDate, k1, n1 := FindPreviousNewMoon(illum, d);
    var endDate, k2, n2 := FindNextNewMoon(illum, startDate);
    var durationDays := (endDate - startDate) / DayMs;
    m := SynodicMonth(startDate, endDate, durationDays, PhaseDates(startDate, durationDays));
  }

  /** The synodic month of a date is determined by the illumination. */
  lemma SynodicMonthUnique(illum: int -> real, d: int, m1: SynodicMonth, m2: SynodicMonth)
    requires IsSynodicMonth(illum, d, m1) && IsSynodicMonth(illum, d, m2)
    ensures m1 == m2
  {
    ScanOutcomeUnique(illum, d, -1, m1.startDate, m2.startDate);
    ScanOutcomeUnique(illum, DayAt(m1.startDate, 1, 1), 1, m1.endDate, m2.endDate);
    assert m1.durationDays * DayMs == m2.durationDays * DayMs;
  }

  /** Two searches from the same day return the same day. */
  lemma ScanOutcomeUnique(illum: int -> real, from: int, step: int, r1: int, r2: int)
    requires exists k, n :: IsScanMinimum(illum, from, step, r1, k, n)
    requires exists k, n :: IsScanMinimum(illum, from, step, r2, k, n)
    ensures r1 == r2
  {
    var k1, n1 :| IsScanMinimum(illum, from, step, r1, k1, n1);
    var k2, n2 :| IsScanMinimum(illum, from, step, r2, k2, n2);
    ScanMinimumUnique(illum, from, step, r1, k1, n1, r2, k2, n2);
  }

  // ---------------------------------------------------------------------------
  // getLunarDataForRange

  /** The UTC day of an instant: its `toISOString().split('T')[0]`. */
  function KeyOf(t: int): string {
    DateKey(FromDayNumber(t / DayMs))
  }

  /** Instants on different days of the time range have different keys. */
  lemma KeyOfInjective(a: int, b: int)
    requires -MaxTime <= a <= MaxTime && -MaxTime <= b <= MaxTime
    requires a / DayMs != b / DayMs
    ensures KeyOf(a) != KeyOf(b)
  {
    if KeyOf(a) == KeyOf(b) {
      DateKeyInjectiveInRange(FromDayNumber(a / DayMs), FromDayNumber(b / DayMs));
    }
  }

  /** The number of days the range loop visits: from `start` in steps of a day
      while not past `end`. */
  function DaysInRange(start: int, end: int): (n: nat)
    ensures start <= end ==> start + (n - 1) * DayMs <= end < start + n * DayMs
    ensures start > end ==> n == 0
  {
    if start <= end then (end - start) / DayMs + 1 else 0
  }

  /** The first `i` days visited are in the table with their phase information. */
  ghost predicate Filled(lib: Library, key: int -> string, start: int, i: nat, result: map<string, PhaseInfo>) {
    forall j :: 0 <= j < i ==> key(DayAt(start, 1, j)) in result &&
                               result[key(DayAt(start, 1, j))] == PhaseInfoAt(lib, DayAt(start, 1, j))
  }

  /** Every key of the table is the key of one of the first `i` days. */
  ghost predicate Covered(key: int -> string, start: int, i: nat, result: map<string, PhaseInfo>) {
    forall k :: k in result ==> exists j :: 0 <= j < i && k == key(DayAt(start, 1, j))
  }

  /** What getLunarDataForRange returns: one entry per day visited, keyed by
      that day's date and holding its phase information, and nothing else. */
  ghost predicate IsRangeData(lib: Library, start: int, end: int, result: map<string, PhaseInfo>) {
    var n := DaysInRange(start, end);
    |result| == n && Filled(lib, KeyOf, start, n, result) && Covered(KeyOf, start, n, result)
  }

  /** getLunarDataForRange. */
  method LunarDataForRange(lib: Library, start: TimeValue, end: TimeValue) returns (result: map<string, PhaseInfo>)
    ensures IsRangeData(lib, start, end, result)
  {
    KeysApart(start, end);
    result := FillRange(lib, KeyOf, start, end);
  }

  /** No two of the first `n` days from `start` share a key. */
  ghost predicate DaysApart(key: int -> string, start: int, n: nat) {
    forall i, j :: 0 <= i < j < n ==> key(DayAt(start, 1, i)) != key(DayAt(start, 1, j))
  }

  /** The days of a range within the time range have different date keys. */
  lemma KeysApart(start: TimeValue, end: TimeValue)
    ensures DaysApart(KeyOf, start, DaysInRange(start, end))
  {
    var n := DaysInRange(start, end);
    forall i, j | 0 <= i < j < n
      ensures KeyOf(DayAt(start, 1, i)) != KeyOf(DayAt(start, 1, j))
    {
      assert (start + i * DayMs) / DayMs == start / DayMs + i;
      assert (start + j * DayMs) / DayMs == start / DayMs + j;
      KeyOfInjective(DayAt(start, 1, i), DayAt(start, 1, j));
    }
  }

  /** The loop of getLunarDataForRange: from `start`, a day at a time while
      not past `end`, enter each day's phase information under its key. */
  method FillRange(lib: Library, key: int -> string, start: int, end: int) returns (result: map<string, PhaseInfo>)
    requires DaysApart(key, start, DaysInRange(start, end))
    ensures |result| == DaysInRange(start, end)
    ensures Filled(lib, key, start, DaysInRange(start, end), result)
    ensures Covered(key, start, DaysInRange(start, end), result)
  {
    result := map[];
    var current := start;
    ghost var i: nat := 0;
    while current <= end
      invariant current == DayAt(start, 1, i)
      invariant start <= end ==> i <= DaysInRange(start, end)
      invariant start > end ==> i == 0
      invariant |result| == i
      invariant Filled(lib, key, start, i, result) && Covered(key, start, i, result)
      decreases end - current
    {
      NewDayNewKey(key, start, i, DaysInRange(start, end), result);
      AddDayFilled(lib, key, start, i, result);
      AddDayCovered(lib, key, start, i, result);
      result := result[key(current) := PhaseInfoAt(lib, current)];
      current := current + DayMs;
      i := i + 1;
    }
  }

  /** Adding the next day's entry keeps the first days in the table. */
  lemma AddDayFilled(lib: Library, key: int -> string, start: int, i: nat, result: map<string, PhaseInfo>)
    requires Filled(lib, key, start, i, result)
    requires key(DayAt(start, 1, i)) !in result
    ensures var t := DayAt(start, 1, i);
            Filled(lib, key, start, i + 1, result[key(t) := PhaseInfoAt(lib, t)])
  {
    var t := DayAt(start, 1, i);
    var next := result[key(t) := PhaseInfoAt(lib, t)];
    forall j | 0 <= j < i + 1
      ensures key(DayAt(start, 1, j)) in next && next[key(DayAt(start, 1, j))] == PhaseInfoAt(lib, DayAt(start, 1, j))
    {
      if j < i {
        assert key(DayAt(start, 1, j)) in result;
      }
    }
  }

  /** Adding the next day's entry adds no key but that day's. */
  lemma AddDayCovered(lib: Library, key: int -> string, start: int, i: nat, result: map<string, PhaseInfo>)
    requires Covered(key, start, i, result)
    ensures var t := DayAt(start, 1, i);
            Covered(key, start, i + 1, result[key(t) := PhaseInfoAt(lib, t)])
  {
    var t := DayAt(start, 1, i);
    var next := result[key(t) := PhaseInfoAt(lib, t)];
    forall k | k in next
      ensures exists j :: 0 <= j < i + 1 && k == key(DayAt(start, 1, j))
    {
      if k != key(t) {
        var j :| 0 <= j < i && k == key(DayAt(start, 1, j));
      }
    }
  }

  /** The day the loop is about to add has a key not yet in the table. */
  lemma NewDayNewKey(key: int -> string, start: int, i: nat, n: nat, result: map<string, PhaseInfo>)
    requires i < n && DaysApart(key, start, n)
    requires Covered(key, start, i, result)
    ensures key(DayAt(start, 1, i)) !in result
  {
    forall j | 0 <= j < i
      ensures key(DayAt(start, 1, j)) != key(DayAt(start, 1, i))
    {
    }
  }
}
