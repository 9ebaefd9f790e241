/**
 Evaluation of a parsed POSIX TZ string: crates/fah-config/src/tz.rs.

 A rule `Mm.w.d/time` names one instant in every year. The zone switches to daylight time
 at each instant of its `start` rule and back at each instant of its `end` rule.
 */
module TimeZone {
  import opened Calendar
  import opened Wrappers

  /** Weeks run from 1 to 5, where 5 means the last; Sunday is weekday 0; `seconds` count from midnight. */
  datatype Rule = Rule(month: int, week: int, weekday: int, seconds: int)

  datatype Daylight = Daylight(offset: int, start: Rule, end: Rule)

  /** An offset is what local time adds to UTC, in seconds. */
  datatype Zone = Zone(stdOffset: int, dst: Option<Daylight>)

  datatype LocalTime = LocalTime(weekday: int, minuteOfDay: int)

  /** The largest magnitude an offset field can state: 24:59:59. */
  const MAX_OFFSET := 89_999

  predicate ValidRule(rule: Rule) {
    ValidMonth(rule.month) && 1 <= rule.week <= 5 && 0 <= rule.weekday <= 6 && 0 <= rule.seconds < SECONDS_PER_DAY
  }

  predicate ValidOffsets(stdOffset: int, dstOffset: int) {
    && -MAX_OFFSET <= stdOffset <= MAX_OFFSET
    && (-MAX_OFFSET <= dstOffset <= MAX_OFFSET || dstOffset == stdOffset + 3600)
  }

  predicate ValidZone(zone: Zone) {
    match zone.dst
    case None => -MAX_OFFSET <= zone.stdOffset <= MAX_OFFSET
    case Some(dst) => ValidOffsets(zone.stdOffset, dst.offset) && ValidRule(dst.start) && ValidRule(dst.end)
  }

  // ---------- The functions of the source ----------

  /** The weekday of a day number, counted from Sunday; day 0 falls on weekday 4. */
  function Weekday(days: int): (weekday: int)
    ensures 0 <= weekday <= 6
  {
    (days + 4) % 7
  }

  function FirstMatch(rule: Rule, year: int): int {
    (rule.weekday + 7 - Weekday(DaysFromCivil(year, rule.month, 1))) % 7
  }

  /** The day of the month, counted from 0, that the rule names in `year`. */
  function RuleDay(rule: Rule, year: int): int
    requires ValidMonth(rule.month)
  {
    var day := FirstMatch(rule, year) + (rule.week - 1) * 7;
    if day >= DaysInMonth(year, rule.month) then day - 7 else day
  }

  function Instant(rule: Rule, year: int, offsetBefore: int): int
    requires ValidMonth(rule.month)
  {
    (DaysFromCivil(year, rule.month, 1) + RuleDay(rule, year)) * SECONDS_PER_DAY + rule.seconds - offsetBefore
  }

  /** `transition_instant`, with the loop that walks back from a fifth week the month lacks. */
  method TransitionInstant(rule: Rule, year: int, offsetBefore: int) returns (instant: int, corrections: nat)
    requires ValidRule(rule)
    ensures instant == Instant(rule, year, offsetBefore)
    ensures corrections == 1 <==> rule.week == 5 && FirstMatch(rule, year) + 28 >= DaysInMonth(year, rule.month)
    ensures corrections <= 1
  {
    var first := DaysFromCivil(year, rule.month, 1);
    var firstWeekday := (first + 4) % 7;
    var toFirstMatch := (rule.weekday + 7 - firstWeekday) % 7;
    var day := toFirstMatch + (rule.week - 1) * 7;
    var monthLength := DaysInMonth(year, rule.month);
    corrections := 0;
    while day >= monthLength
      invariant day == toFirstMatch + (rule.week - 1) * 7 - 7 * corrections
      invariant corrections == 0 || (corrections == 1 && rule.week == 5 && day + 7 >= monthLength)
      decreases day
    {
      day := day - 7;
      corrections := corrections + 1;
    }
    instant := (first + day) * SECONDS_PER_DAY + rule.seconds - offsetBefore;
  }

  function StandardYear(zone: Zone, instant: int): int {
    CivilFromDays(DivFloor(instant + zone.stdOffset, SECONDS_PER_DAY)).year
  }

  function Start(zone: Zone, year: int): int
    requires zone.dst.Some? && ValidZone(zone)
  {
    Instant(zone.dst.value.start, year, zone.stdOffset)
  }

  function End(zone: Zone, year: int): int
    requires zone.dst.Some? && ValidZone(zone)
  {
    Instant(zone.dst.value.end, year, zone.dst.value.offset)
  }

  /** The per-year test inside `offset_at`. */
  predicate InDst(zone: Zone, instant: int)
    requires zone.dst.Some? && ValidZone(zone)
  {
    InDstOfYear(zone, StandardYear(zone, instant), instant)
  }

  predicate InDstOfYear(zone: Zone, year: int, instant: int)
    requires zone.dst.Some? && ValidZone(zone)
  {
    var start, end := Start(zone, year), End(zone, year);
    if start <= end then start <= instant < end else instant >= start || instant < end
  }

  function OffsetAt(zone: Zone, instant: int): int
    requires ValidZone(zone)
  {
    if zone.dst.Some? && InDst(zone, instant) then zone.dst.value.offset else zone.stdOffset
  }

  function Local(zone: Zone, instant: int): LocalTime
    requires ValidZone(zone)
  {
    var local := instant + OffsetAt(zone, instant);
    var days := DivFloor(local, SECONDS_PER_DAY);
    LocalTime(Weekday(days), (local - days * SECONDS_PER_DAY) / 60)
  }

  // ---------- A rule names the n-th or the last weekday of its month ----------

  /** How many of the first `length` days of the month fall on `weekday`. */
  function Occurrences(year: int, month: int, weekday: int, length: nat): nat {
    if length == 0 then 0
    else
      Occurrences(year, month, weekday, length - 1)
      + if Weekday(DaysFromCivil(year, month, 1) + length - 1) == weekday then 1 else 0
  }

  lemma MonthLengths(year: int, month: int)
    requires ValidMonth(month)
    ensures 28 <= DaysInMonth(year, month) <= 31
  {
  }

  lemma WeekdayRecurs(first: int, weekday: int, day: int)
    requires 0 <= weekday <= 6
    ensures Weekday(first + day) == weekday <==> (day - (weekday + 7 - Weekday(first)) % 7) % 7 == 0
  {
    var k := (first + 4) / 7;
    assert first + day + 4 == 7 * k + Weekday(first) + day;
    assert (first + day + 4) % 7 == (Weekday(first) + day) % 7;
  }

  lemma {:induction false} OccurrencesCount(year: int, month: int, weekday: int, length: nat, firstMatch: int)
    requires 0 <= weekday <= 6
    requires firstMatch == (weekday + 7 - Weekday(DaysFromCivil(year, month, 1))) % 7
    ensures Occurrences(year, month, weekday, length) == (length + 6 - firstMatch) / 7
  {
    hide DaysFromCivil, Weekday;
    if length > 0 {
      OccurrencesCount(year, month, weekday, length - 1, firstMatch);
      WeekdayRecurs(DaysFromCivil(year, month, 1), weekday, length - 1);
      assert DaysFromCivil(year, month, 1) + (length - 1) == DaysFromCivil(year, month, 1) + length - 1;
    }
  }

  /**
   `transition_instant` names a day of the month, on the named weekday: the `week`-th such
   day for weeks 1 to 4, and the last one for week 5.
   */
  lemma RuleNamesItsWeekday(rule: Rule, year: int)
    requires ValidRule(rule)
    ensures 0 <= RuleDay(rule, year) < DaysInMonth(year, rule.month)
    ensures Weekday(DaysFromCivil(year, rule.month, 1) + RuleDay(rule, year)) == rule.weekday
    ensures rule.week <= 4 ==> Occurrences(year, rule.month, rule.weekday, RuleDay(rule, year) + 1) == rule.week
    ensures rule.week == 5 ==>
              Occurrences(year, rule.month, rule.weekday, RuleDay(rule, year) + 1)
              == Occurrences(year, rule.month, rule.weekday, DaysInMonth(year, rule.month))
  {
    hide DaysFromCivil, Weekday, DaysInMonth;
    var day, length := RuleDay(rule, year), DaysInMonth(year, rule.month);
    MonthLengths(year, rule.month);
    WeekdayRecurs(DaysFromCivil(year, rule.month, 1), rule.weekday, day);
    OccurrencesCount(year, rule.month, rule.weekday, day + 1, FirstMatch(rule, year));
    OccurrencesCount(year, rule.month, rule.weekday, length, FirstMatch(rule, year));
  }

  // ---------- Local time ----------

  /** A zone without daylight time is at its one offset at every instant, and its clock reads off it. */
  lemma FixedZoneReadsTheClock(zone: Zone, instant: int) returns (days: int, second: int)
    requires ValidZone(zone) && zone.dst.None?
    ensures OffsetAt(zone, instant) == zone.stdOffset
    ensures var clock := Local(zone, instant);
            && 0 <= clock.minuteOfDay < 1440 && 0 <= second < 60 && clock.weekday == Weekday(days)
            && instant + zone.stdOffset == days * SECONDS_PER_DAY + clock.minuteOfDay * 60 + second
  {
    days, second := LocalReadsTheClock(zone, instant);
  }

  /** The wall clock reading: the instant plus the offset, split into a weekday and a minute. */
  lemma LocalReadsTheClock(zone: Zone, instant: int) returns (days: int, second: int)
    requires ValidZone(zone)
    ensures var clock := Local(zone, instant);
            && 0 <= clock.weekday <= 6 && 0 <= clock.minuteOfDay < 1440 && 0 <= second < 60
            && clock.weekday == Weekday(days)
            && days * SECONDS_PER_DAY + clock.minuteOfDay * 60 + second == instant + OffsetAt(zone, instant)
  {
    hide OffsetAt, Weekday;
    var local := instant + OffsetAt(zone, instant);
    DivFloorIsFloor(local, SECONDS_PER_DAY);
    days := DivFloor(local, SECONDS_PER_DAY);
    second := (local - days * SECONDS_PER_DAY) % 60;
  }
}
