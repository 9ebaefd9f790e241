/**
 The time zone with its years in `i32`, as crates/fah-config/src/tz.rs declares them: the year read
 off an instant is cast to an `i32`, and a date in January or February subtracts one from it there.
 */
module YearRange {
  import opened Wrappers
  import opened Calendar
  import opened TimeZone
  import opened DaylightSaving

  // ---------- The functions of the source, in i32 ----------

  function RuleDayI32(rule: Rule, year: int): int
    requires ValidMonth(rule.month)
  {
    var first := (rule.weekday + 7 - Weekday(DaysFromCivilI32(year, rule.month, 1))) % 7;
    var day := first + (rule.week - 1) * 7;
    if day >= DaysInMonth(year, rule.month) then day - 7 else day
  }

  function InstantI32(rule: Rule, year: int, offsetBefore: int): int
    requires ValidMonth(rule.month)
  {
    (DaysFromCivilI32(year, rule.month, 1) + RuleDayI32(rule, year)) * SECONDS_PER_DAY + rule.seconds - offsetBefore
  }

  function StandardYearI32(zone: Zone, instant: int): int {
    CivilFromDaysI32(DivFloor(instant + zone.stdOffset, SECONDS_PER_DAY)).year
  }

  predicate InDstI32(zone: Zone, instant: int)
    requires zone.dst.Some? && ValidZone(zone)
  {
    var year := StandardYearI32(zone, instant);
    var start := InstantI32(zone.dst.value.start, year, zone.stdOffset);
    var end := InstantI32(zone.dst.value.end, year, zone.dst.value.offset);
    if start <= end then start <= instant < end else instant >= start || instant < end
  }

  function OffsetAtI32(zone: Zone, instant: int): int
    requires ValidZone(zone)
  {
    if zone.dst.Some? && InDstI32(zone, instant) then zone.dst.value.offset else zone.stdOffset
  }

  // ---------- Which transitions the source looks at ----------

  /** The year whose transition the source computes: January and February of the least year wrap round. */
  function SeenYear(rule: Rule, year: int): int {
    if year == I32_MIN && rule.month <= 2 then I32_MAX + 1 else year
  }

  lemma LeastYearWraps()
    ensures WrapI32(I32_MIN - 1) == I32_MAX && IsLeap(I32_MIN) && IsLeap(I32_MAX + 1)
  {
  }

  /** In `i32`, a transition is that of the year, or for the least year of the one past the greatest. */
  lemma InstantSeen(rule: Rule, year: int, offset: int)
    requires ValidRule(rule) && I32_MIN <= year <= I32_MAX
    ensures InstantI32(rule, year, offset) == Instant(rule, SeenYear(rule, year), offset)
  {
    hide FromShiftedYear, Weekday, WrapI32, IsLeap;
    WrapsIff(if rule.month <= 2 then year - 1 else year);
    LeastYearWraps();
  }

  // ---------- Inside the range ----------

  /**
   The instant lies in the years of an `i32`, and not in the least one unless both rules come
   after February.
   */
  predicate InRange(zone: Zone, instant: int)
    requires zone.dst.Some?
  {
    && NewYear(zone, I32_MIN) <= instant < NewYear(zone, I32_MAX + 1)
    && (NewYear(zone, I32_MIN + 1) <= instant || (zone.dst.value.start.month > 2 && zone.dst.value.end.month > 2))
  }

  lemma YearInRange(zone: Zone, instant: int)
    requires NewYear(zone, I32_MIN) <= instant < NewYear(zone, I32_MAX + 1)
    ensures I32_MIN <= StandardYear(zone, instant) <= I32_MAX
    ensures StandardYear(zone, instant) == I32_MIN <==> instant < NewYear(zone, I32_MIN + 1)
    ensures StandardYearI32(zone, instant) == StandardYear(zone, instant)
  {
    hide CivilFromDays, NewYear, DivFloor;
    var year := StandardYear(zone, instant);
    YearOfInstant(zone, instant, year);
    YearOfInstant(zone, instant, I32_MIN);
    if year < I32_MIN {
      NewYearsInOrder(zone, year + 1, I32_MIN);
    } else if year > I32_MAX {
      NewYearsInOrder(zone, I32_MAX + 1, year);
    }
    WrapsIff(year);
  }

  lemma NewYearsInOrder(zone: Zone, a: int, b: int)
    requires a <= b
    ensures NewYear(zone, a) <= NewYear(zone, b)
  {
    hide DaysBeforeYear;
    YearsInOrder(a, b);
  }

  /** The test of the source, in terms of the transitions it looks at. */
  lemma TestSees(zone: Zone, instant: int)
    requires Observes(zone)
    ensures var year := StandardYearI32(zone, instant);
            var start := Start(zone, SeenYear(zone.dst.value.start, year));
            var end := End(zone, SeenYear(zone.dst.value.end, year));
            && I32_MIN <= year <= I32_MAX
            && (InDstI32(zone, instant) <==>
                  if start <= end then start <= instant < end else instant >= start || instant < end)
  {
    hide Instant, InstantI32, StandardYearI32, SeenYear;
    var year := StandardYearI32(zone, instant);
    WrappedYear(zone, instant);
    InstantSeen(zone.dst.value.start, year, zone.stdOffset);
    InstantSeen(zone.dst.value.end, year, zone.dst.value.offset);
  }

  lemma WrappedYear(zone: Zone, instant: int)
    ensures I32_MIN <= StandardYearI32(zone, instant) <= I32_MAX
  {
    hide CivilFromDays, DivFloor;
    WrapsIff(StandardYear(zone, instant));
  }

  lemma TestInRange(zone: Zone, instant: int)
    requires Observes(zone) && InRange(zone, instant)
    ensures InDstI32(zone, instant) == InDst(zone, instant)
  {
    hide Start, End, StandardYear, StandardYearI32, NewYear, InDstI32;
    YearInRange(zone, instant);
    TestSees(zone, instant);
  }

  /** In the years of an `i32` the casts change nothing. */
  lemma OffsetInRange(zone: Zone, instant: int)
    requires ValidZone(zone) && (zone.dst.Some? ==> InRange(zone, instant))
    ensures OffsetAtI32(zone, instant) == OffsetAt(zone, instant)
  {
    hide InDst, InDstI32, InRange;
    if zone.dst.Some? {
      TestInRange(zone, instant);
    }
  }

  ghost predicate AgreesI32(zone: Zone, instant: int)
    requires Observes(zone)
  {
    InDstI32(zone, instant) <==> DstInForce(zone, instant)
  }

  lemma NearIsInRange(zone: Zone, year: int, instant: int)
    requires Observes(zone) && Near(zone, year, instant) && -1 <= year <= 2027
    ensures InRange(zone, instant)
  {
    hide NewYear;
    NewYearsInOrder(zone, I32_MIN, I32_MIN + 1);
    NewYearsInOrder(zone, I32_MIN + 1, year - 2);
    NewYearsInOrder(zone, year + 3, I32_MAX + 1);
  }

  /**
   The source's test, casts included, is right at every instant in the years of an `i32` exactly
   when the zone is consistent over one calendar cycle.
   */
  lemma TestIsExactInRangeIff(zone: Zone)
    requires Observes(zone)
    ensures (forall instant: int | InRange(zone, instant) :: AgreesI32(zone, instant)) <==> Consistent(zone)
  {
    hide InDst, InDstI32, DstInForce, Consistent, InRange, Near;
    if Consistent(zone) {
      forall instant: int | InRange(zone, instant) ensures AgreesI32(zone, instant) {
        ConsistentZoneAgrees(zone, instant);
        TestInRange(zone, instant);
      }
    } else {
      var instant := InconsistentZoneDisagrees(zone);
      var year: int :| -1 <= year <= 2027 && Near(zone, year, instant);
      NearIsInRange(zone, year, instant);
      TestInRange(zone, instant);
    }
  }

  /** Zones in use are exact throughout the range, casts included. */
  lemma SeparatedZonesAreExactInRange(zone: Zone, instant: int)
    requires Observes(zone) && WellSeparated(zone.dst.value.start, zone.dst.value.end) && InRange(zone, instant)
    ensures OffsetAtI32(zone, instant) == if DstInForce(zone, instant) then zone.dst.value.offset else zone.stdOffset
  {
    hide DstInForce, OffsetAt, OffsetAtI32, InRange;
    OffsetInRange(zone, instant);
    SeparatedZonesAreExact(zone, instant);
  }

  // ---------- The least year, and beyond the range ----------

  predicate Southern(zone: Zone)
    requires zone.dst.Some?
  {
    zone.dst.value.start.month > zone.dst.value.end.month
  }

  /**
   When the wrapped year is the least, a rule in February is looked up one past the greatest year:
   between the other rule and it, a northern zone is on standard time and a southern one on
   daylight time, and at every other such instant it is the other way round.
   */
  lemma WrappedLeastYear(zone: Zone, instant: int)
    requires Observes(zone) && WellSeparated(zone.dst.value.start, zone.dst.value.end)
    requires zone.dst.value.start.month == 2 || zone.dst.value.end.month == 2
    requires StandardYearI32(zone, instant) == I32_MIN
    ensures InDstI32(zone, instant) <==>
              if Southern(zone)
              then Start(zone, I32_MIN) <= instant < End(zone, I32_MAX + 1)
              else instant < End(zone, I32_MIN) || Start(zone, I32_MAX + 1) <= instant
  {
    hide Start, End, NewYear, StandardYearI32, InDstI32;
    TestSees(zone, instant);
    NewYearsInOrder(zone, I32_MIN + 1, I32_MAX + 1);
    YearFacts(zone, I32_MIN);
    SeparatedYear(zone, I32_MIN);
    SeparatedYear(zone, I32_MAX + 1);
  }

  /**
   In the least year itself, a zone in use with a rule in February is read wrongly up to that
   rule's instant, and rightly from it on.
   */
  lemma LeastYearIff(zone: Zone, instant: int)
    requires Observes(zone) && WellSeparated(zone.dst.value.start, zone.dst.value.end)
    requires zone.dst.value.start.month == 2 || zone.dst.value.end.month == 2
    requires NewYear(zone, I32_MIN) <= instant < NewYear(zone, I32_MIN + 1)
    ensures var february := if Southern(zone) then End(zone, I32_MIN) else Start(zone, I32_MIN);
            AgreesI32(zone, instant) <==> february <= instant
  {
    hide Start, End, NewYear, StandardYear, StandardYearI32, InDst, InDstI32, DstInForce;
    NewYearsInOrder(zone, I32_MIN + 1, I32_MAX + 1);
    YearInRange(zone, instant);
    WrappedLeastYear(zone, instant);
    SeparatedYear(zone, I32_MIN);
    SeparatedYear(zone, I32_MAX + 1);
    SeparatedZonesAgree(zone, instant);
    TestInYear(zone, instant, I32_MIN);
  }

  /**
   Outside the years of an `i32`, before or after, the wrapped year and its transitions lie
   elsewhere: a northern zone in use is on standard time for ever and a southern one on daylight
   time, so the test is right in the winters of the one and the summers of the other.
   */
  lemma OutOfRangeIsConstant(zone: Zone, instant: int)
    requires Observes(zone) && WellSeparated(zone.dst.value.start, zone.dst.value.end)
    requires instant < NewYear(zone, I32_MIN) || NewYear(zone, I32_MAX + 1) <= instant
    requires StandardYearI32(zone, instant) == I32_MIN ==>
               zone.dst.value.start.month > 2 && zone.dst.value.end.month > 2
    ensures OffsetAtI32(zone, instant) == if Southern(zone) then zone.dst.value.offset else zone.stdOffset
    ensures AgreesI32(zone, instant) <==> (DstInForce(zone, instant) <==> Southern(zone))
  {
    hide Start, End, NewYear, StandardYearI32, InDstI32, DstInForce;
    var year := StandardYearI32(zone, instant);
    TestSees(zone, instant);
    YearFacts(zone, year);
    SeparatedYear(zone, year);
    NewYearsInOrder(zone, I32_MIN, year);
    NewYearsInOrder(zone, year + 1, I32_MAX + 1);
  }
}
