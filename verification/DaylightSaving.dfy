/**
 What the per-year daylight-saving test of `offset_at` means.

 The meaning of a zone is global: daylight time is in force when the most recent of all
 transitions, over all years, is a start. The source looks only at the two transitions of
 the instant's own year. This module proves exactly which zones make the two agree at
 every instant, as a condition over one 400-year cycle of the calendar.
 */
module DaylightSaving {
  import opened Calendar
  import opened TimeZone
  import opened Wrappers

  ghost predicate Observes(zone: Zone) {
    zone.dst.Some? && ValidZone(zone)
  }

  /** Some start has been reached and every end reached so far came strictly before it. */
  ghost predicate DstInForce(zone: Zone, instant: int)
    requires Observes(zone)
  {
    exists year: int :: Start(zone, year) <= instant && EndsPrecede(zone, instant, Start(zone, year))
  }

  ghost predicate EndsPrecede(zone: Zone, instant: int, start: int)
    requires Observes(zone)
  {
    forall year: int :: End(zone, year) <= instant ==> End(zone, year) < start
  }

  ghost predicate Agrees(zone: Zone, instant: int)
    requires Observes(zone)
  {
    InDst(zone, instant) <==> DstInForce(zone, instant)
  }

  /** The first instant of `year` on the standard-time clock. */
  function NewYear(zone: Zone, year: int): int {
    DaysBeforeYear(year) * SECONDS_PER_DAY - zone.stdOffset
  }

  // ---------- Where the transitions of a year lie ----------

  /** No two offsets of a zone are further apart than this. */
  const SLACK := 2 * MAX_OFFSET

  /** Seconds from New Year to the rule's instant, both on the clock the rule is stated in. */
  function Position(rule: Rule, year: int): int
    requires ValidMonth(rule.month)
  {
    (DaysBeforeMonth(year, rule.month) + RuleDay(rule, year)) * SECONDS_PER_DAY + rule.seconds
  }

  lemma InstantByPosition(rule: Rule, year: int, offset: int)
    requires ValidRule(rule)
    ensures Instant(rule, year, offset) == DaysBeforeYear(year) * SECONDS_PER_DAY - offset + Position(rule, year)
  {
    hide DaysFromCivil, RuleDay, DaysBeforeMonth, DaysBeforeYear;
    DaysFromCivilCountsDays(Date(year, rule.month, 1));
  }

  lemma PositionInMonth(rule: Rule, year: int)
    requires ValidRule(rule)
    ensures var before := DaysBeforeMonth(year, rule.month);
            before * SECONDS_PER_DAY <= Position(rule, year)
                                     < (before + DaysInMonth(year, rule.month)) * SECONDS_PER_DAY
    ensures 0 <= Position(rule, year) < DaysInYear(year) * SECONDS_PER_DAY
  {
    hide RuleDay, DaysBeforeMonth, DaysInMonth, DaysInYear;
    RuleNamesItsWeekday(rule, year);
    MonthInsideYear(year, rule.month);
  }

  lemma YearFacts(zone: Zone, year: int)
    requires Observes(zone)
    ensures NewYear(zone, year) + 365 * SECONDS_PER_DAY <= NewYear(zone, year + 1)
                                                      <= NewYear(zone, year) + 366 * SECONDS_PER_DAY
    ensures NewYear(zone, year) <= Start(zone, year) < NewYear(zone, year + 1)
    ensures NewYear(zone, year) - SLACK - 3600 <= End(zone, year) < NewYear(zone, year + 1) + SLACK
  {
    hide Instant, Position, DaysBeforeYear;
    YearStep(year);
    InstantByPosition(zone.dst.value.start, year, zone.stdOffset);
    InstantByPosition(zone.dst.value.end, year, zone.dst.value.offset);
    PositionInMonth(zone.dst.value.start, year);
    PositionInMonth(zone.dst.value.end, year);
  }

  lemma YearOfInstant(zone: Zone, instant: int, year: int)
    ensures StandardYear(zone, instant) == year <==> NewYear(zone, year) <= instant < NewYear(zone, year + 1)
  {
    hide CivilFromDays, DivFloor, DaysBeforeYear;
    var days := DivFloor(instant + zone.stdOffset, SECONDS_PER_DAY);
    DivFloorIsFloor(instant + zone.stdOffset, SECONDS_PER_DAY);
    YearOfDay(days, year);
  }

  lemma TestInYear(zone: Zone, instant: int, year: int)
    requires Observes(zone)
    requires NewYear(zone, year) <= instant < NewYear(zone, year + 1)
    ensures InDst(zone, instant) == InDstOfYear(zone, year, instant)
  {
    hide NewYear, StandardYear;
    YearOfInstant(zone, instant, year);
  }

  lemma NextTransitionsLater(zone: Zone, year: int)
    requires Observes(zone)
    ensures Start(zone, year) < Start(zone, year + 1)
    ensures End(zone, year) < End(zone, year + 1)
  {
    hide Instant, Position, DaysBeforeYear;
    YearStep(year);
    var dst := zone.dst.value;
    InstantByPosition(dst.start, year, zone.stdOffset);
    InstantByPosition(dst.start, year + 1, zone.stdOffset);
    InstantByPosition(dst.end, year, dst.offset);
    InstantByPosition(dst.end, year + 1, dst.offset);
    PositionInMonth(dst.start, year);
    PositionInMonth(dst.start, year + 1);
    PositionInMonth(dst.end, year);
    PositionInMonth(dst.end, year + 1);
  }

  lemma {:induction false} TransitionsInOrder(zone: Zone, a: int, b: int)
    requires Observes(zone) && a <= b
    ensures Start(zone, a) <= Start(zone, b)
    ensures End(zone, a) <= End(zone, b)
    decreases b - a
  {
    hide Start, End;
    if a < b {
      TransitionsInOrder(zone, a, b - 1);
      NextTransitionsLater(zone, b - 1);
    }
  }

  /** Once the last start and the last end are known, the later of the two decides. */
  lemma MostRecent(zone: Zone, instant: int, startYear: int, endYear: int)
    requires Observes(zone)
    requires Start(zone, startYear) <= instant < Start(zone, startYear + 1)
    requires End(zone, endYear) <= instant < End(zone, endYear + 1)
    ensures DstInForce(zone, instant) <==> Start(zone, startYear) > End(zone, endYear)
  {
    hide Start, End;
    if Start(zone, startYear) > End(zone, endYear) {
      forall year: int | End(zone, year) <= instant ensures End(zone, year) < Start(zone, startYear) {
        if year <= endYear {
          TransitionsInOrder(zone, year, endYear);
        } else {
          TransitionsInOrder(zone, endYear + 1, year);
        }
      }
      assert EndsPrecede(zone, instant, Start(zone, startYear));
    } else if DstInForce(zone, instant) {
      var year: int :| Start(zone, year) <= instant && EndsPrecede(zone, instant, Start(zone, year));
      assert End(zone, endYear) < Start(zone, year);
      if year <= startYear {
        TransitionsInOrder(zone, year, startYear);
      } else {
        TransitionsInOrder(zone, startYear + 1, year);
      }
    }
  }

  // ---------- The condition ----------

  /** Whether the transitions of earlier years leave daylight time running at New Year. */
  predicate CarriedIn(zone: Zone, year: int)
    requires zone.dst.Some? && ValidZone(zone)
  {
    var newYear := NewYear(zone, year);
    (if Start(zone, year) == newYear then newYear else Start(zone, year - 1))
    > (if End(zone, year) == newYear then newYear else End(zone, year - 1))
  }

  /** The end of the year's daylight time stays in the year, between its two New Years. */
  predicate EndStaysInYear(zone: Zone, year: int)
    requires zone.dst.Some? && ValidZone(zone)
  {
    NewYear(zone, year) <= End(zone, year) <= NewYear(zone, year + 1)
  }

  predicate YearConsistent(zone: Zone, year: int)
    requires zone.dst.Some? && ValidZone(zone)
  {
    && EndStaysInYear(zone, year)
    && InDstOfYear(zone, year, NewYear(zone, year)) == CarriedIn(zone, year)
  }

  /** What an operator can evaluate before using a zone: every year of one calendar cycle. */
  predicate Consistent(zone: Zone)
    requires zone.dst.Some? && ValidZone(zone)
  {
    forall year | 0 <= year < 400 :: YearConsistent(zone, year)
  }

  // ---------- Sufficiency ----------

  lemma ConsistentYearAgrees(zone: Zone, instant: int, year: int)
    requires Observes(zone)
    requires EndStaysInYear(zone, year - 1) && EndStaysInYear(zone, year + 1)
    requires YearConsistent(zone, year)
    requires NewYear(zone, year) <= instant < NewYear(zone, year + 1)
    ensures Agrees(zone, instant)
  {
    hide NewYear, Start, End, InDst, DstInForce;
    YearFacts(zone, year - 1);
    YearFacts(zone, year);
    YearFacts(zone, year + 1);
    TestInYear(zone, instant, year);
    NextTransitionsLater(zone, year);
    var startYear := if Start(zone, year) <= instant then year else year - 1;
    var endYear := if End(zone, year) <= instant then year else year - 1;
    MostRecent(zone, instant, startYear, endYear);
  }

  // ---------- One cycle stands for all years ----------

  const CYCLE := 146_097 * SECONDS_PER_DAY

  lemma RuleDayRepeats(rule: Rule, year: int)
    requires ValidRule(rule)
    ensures RuleDay(rule, year + 400) == RuleDay(rule, year)
    ensures DaysBeforeMonth(year + 400, rule.month) == DaysBeforeMonth(year, rule.month)
    ensures DaysBeforeYear(year + 400) == DaysBeforeYear(year) + 146_097
  {
    hide DaysFromCivil, DaysBeforeMonth, DaysBeforeYear, Weekday, IsLeap;
    LeapRepeats(year);
    MonthsClosedForm(year, rule.month);
    MonthsClosedForm(year + 400, rule.month);
    NewYearRepeats(year);
    DaysFromCivilCountsDays(Date(year, rule.month, 1));
    DaysFromCivilCountsDays(Date(year + 400, rule.month, 1));
    WeekdayRepeats(DaysFromCivil(year, rule.month, 1));
  }

  lemma NewYearRepeats(year: int)
    ensures DaysBeforeYear(year + 400) == DaysBeforeYear(year) + 146_097
  {
    hide DaysBeforeYear, LeapDays;
    NewYearClosedForm(year);
    NewYearClosedForm(year + 400);
    LeapDaysRepeat(year - 1);
    assert year + 400 - 1 == year - 1 + 400;
  }

  lemma LeapDaysRepeat(year: int)
    ensures LeapDays(year + 400) == LeapDays(year) + 97
  {
    assert (year + 400) / 4 == year / 4 + 100;
    assert (year + 400) / 100 == year / 100 + 4;
  }

  lemma LeapRepeats(year: int)
    ensures IsLeap(year + 400) == IsLeap(year)
  {
    assert (year + 400) % 4 == year % 4;
    assert (year + 400) % 100 == year % 100;
  }

  lemma WeekdayRepeats(days: int)
    ensures Weekday(days + 146_097) == Weekday(days)
  {
    assert 146_097 == 7 * 20_871;
  }

  lemma TransitionsRepeat(zone: Zone, year: int)
    requires Observes(zone)
    ensures NewYear(zone, year + 400) == NewYear(zone, year) + CYCLE
    ensures Start(zone, year + 400) == Start(zone, year) + CYCLE
    ensures End(zone, year + 400) == End(zone, year) + CYCLE
  {
    hide Instant, RuleDay, DaysBeforeMonth, DaysBeforeYear;
    var dst := zone.dst.value;
    RuleDayRepeats(dst.start, year);
    RuleDayRepeats(dst.end, year);
    InstantByPosition(dst.start, year, zone.stdOffset);
    InstantByPosition(dst.start, year + 400, zone.stdOffset);
    InstantByPosition(dst.end, year, dst.offset);
    InstantByPosition(dst.end, year + 400, dst.offset);
  }

  lemma ConsistencyRepeats(zone: Zone, year: int)
    requires Observes(zone)
    ensures YearConsistent(zone, year + 400) == YearConsistent(zone, year)
  {
    hide Start, End, NewYear;
    TransitionsRepeat(zone, year - 1);
    TransitionsRepeat(zone, year);
    TransitionsRepeat(zone, year + 1);
    assert year + 400 - 1 == year - 1 + 400 && year + 400 + 1 == year + 1 + 400;
  }

  lemma {:induction false} CycleCoversYear(zone: Zone, year: int)
    requires Observes(zone) && Consistent(zone)
    ensures YearConsistent(zone, year)
    decreases if year < 0 then 400 - year else year
  {
    hide YearConsistent;
    if year < 0 {
      CycleCoversYear(zone, year + 400);
      ConsistencyRepeats(zone, year);
    } else if year >= 400 {
      CycleCoversYear(zone, year - 400);
      ConsistencyRepeats(zone, year - 400);
    }
  }

  lemma ConsistentZoneAgrees(zone: Zone, instant: int)
    requires Observes(zone) && Consistent(zone)
    ensures Agrees(zone, instant)
  {
    hide Agrees, Consistent, InDstOfYear, CarriedIn;
    var year := StandardYear(zone, instant);
    YearOfInstant(zone, instant, year);
    CycleCoversYear(zone, year - 1);
    CycleCoversYear(zone, year);
    CycleCoversYear(zone, year + 1);
    ConsistentYearAgrees(zone, instant, year);
  }

  // ---------- Necessity ----------

  /** The instant lies within two years of `year`. */
  predicate Near(zone: Zone, year: int, instant: int) {
    NewYear(zone, year - 2) <= instant < NewYear(zone, year + 3)
  }

  /** An end that crosses the following New Year is forgotten there, and the test errs. */
  lemma LateEndDisagrees(zone: Zone, year: int) returns (instant: int)
    requires Observes(zone)
    requires End(zone, year) > NewYear(zone, year + 1)
    ensures !Agrees(zone, instant) && Near(zone, year, instant)
  {
    hide NewYear, Start, End, InDst, DstInForce;
    YearFacts(zone, year - 2);
    YearFacts(zone, year - 1);
    YearFacts(zone, year);
    YearFacts(zone, year + 1);
    YearFacts(zone, year + 2);
    NextTransitionsLater(zone, year - 1);
    NextTransitionsLater(zone, year);
    if Start(zone, year + 1) <= End(zone, year) {
      instant := End(zone, year);
      TestInYear(zone, instant, year + 1);
      MostRecent(zone, instant, year + 1, year);
    } else if Start(zone, year + 1) > End(zone, year + 1) {
      instant := End(zone, year);
      TestInYear(zone, instant, year + 1);
      MostRecent(zone, instant, year, year);
    } else if Start(zone, year) > End(zone, year - 1) {
      instant := NewYear(zone, year + 1);
      TestInYear(zone, instant, year + 1);
      MostRecent(zone, instant, year, year - 1);
    } else {
      instant := End(zone, year - 1);
      TestInYear(zone, instant, year);
      MostRecent(zone, instant, year, year - 1);
    }
  }

  lemma PositionsNear(rule: Rule, a: int, b: int)
    requires ValidRule(rule)
    ensures Position(rule, b) > Position(rule, a) - 32 * SECONDS_PER_DAY
  {
    hide Position;
    PositionInMonth(rule, a);
    PositionInMonth(rule, b);
    MonthsClosedForm(a, rule.month);
    MonthsClosedForm(b, rule.month);
  }

  /** An end that falls before its own New Year, in a year whose start does not precede its end. */
  lemma EarlyEndDisagrees(zone: Zone, year: int) returns (instant: int)
    requires Observes(zone)
    requires End(zone, year) < NewYear(zone, year)
    requires Start(zone, year - 1) > End(zone, year - 1)
    ensures !Agrees(zone, instant) && Near(zone, year, instant)
  {
    hide Instant, Position, DaysBeforeYear, InDst, DstInForce;
    YearFacts(zone, year - 2);
    YearFacts(zone, year - 1);
    YearFacts(zone, year);
    YearFacts(zone, year + 1);
    YearFacts(zone, year + 2);
    NextTransitionsLater(zone, year);
    NextTransitionsLater(zone, year - 1);
    if Start(zone, year - 1) <= End(zone, year) {
      instant := End(zone, year);
      TestInYear(zone, instant, year - 1);
      MostRecent(zone, instant, year - 1, year);
    } else {
      instant := NewYear(zone, year);
      PositionsNear(zone.dst.value.start, year - 1, year);
      InstantByPosition(zone.dst.value.start, year - 1, zone.stdOffset);
      InstantByPosition(zone.dst.value.start, year, zone.stdOffset);
      TestInYear(zone, instant, year);
      MostRecent(zone, instant, year - 1, year);
    }
  }

  /** A common year that follows a common year and begins on `weekday`. */
  function CommonYearFrom(weekday: int): int
    requires 0 <= weekday <= 6
  {
    [2023, 2018, 2019, 2014, 2026, 2027, 2022][weekday]
  }

  lemma CommonYearBegins(weekday: int)
    requires 0 <= weekday <= 6
    ensures var year := CommonYearFrom(weekday);
            && 2014 <= year <= 2027 && !IsLeap(year - 1) && !IsLeap(year)
            && Weekday(DaysFromCivil(year, 1, 1)) == weekday
  {
    if weekday == 0 {
      assert DaysFromCivil(2023, 1, 1) == 19_358;
    } else if weekday == 1 {
      assert DaysFromCivil(2018, 1, 1) == 17_532;
    } else if weekday == 2 {
      assert DaysFromCivil(2019, 1, 1) == 17_897;
    } else if weekday == 3 {
      assert DaysFromCivil(2014, 1, 1) == 16_071;
    } else if weekday == 4 {
      assert DaysFromCivil(2026, 1, 1) == 20_454;
    } else if weekday == 5 {
      assert DaysFromCivil(2027, 1, 1) == 20_819;
    } else {
      assert DaysFromCivil(2022, 1, 1) == 18_993;
    }
  }

  predicate FirstOfJanuaryRule(rule: Rule) {
    ValidRule(rule) && rule.month == 1 && rule.week == 1
  }

  lemma JanuaryPosition(rule: Rule, year: int)
    requires FirstOfJanuaryRule(rule)
    ensures RuleDay(rule, year) == FirstMatch(rule, year) && 0 <= RuleDay(rule, year) <= 6
    ensures Position(rule, year) == RuleDay(rule, year) * SECONDS_PER_DAY + rule.seconds
  {
    hide DaysFromCivil, Weekday;
  }

  lemma JanuaryMovesBack(rule: Rule, year: int)
    requires FirstOfJanuaryRule(rule) && !IsLeap(year)
    ensures RuleDay(rule, year + 1) == (RuleDay(rule, year) + 6) % 7
  {
    hide DaysFromCivil, RuleDay, Weekday, DaysBeforeYear;
    JanuaryPosition(rule, year);
    JanuaryPosition(rule, year + 1);
    DaysFromCivilCountsDays(Date(year, 1, 1));
    DaysFromCivilCountsDays(Date(year + 1, 1, 1));
    YearStep(year);
    var first := DaysFromCivil(year, 1, 1);
    assert DaysFromCivil(year + 1, 1, 1) == first + 365;
    WeekdayNextYear(first);
    MatchMovesBack(rule.weekday, Weekday(first));
  }

  lemma MatchMovesBack(weekday: int, first: int)
    requires 0 <= weekday <= 6 && 0 <= first <= 6
    ensures (weekday + 7 - (first + 1) % 7) % 7 == ((weekday + 7 - first) % 7 + 6) % 7
  {
  }

  lemma WeekdayNextYear(days: int)
    ensures Weekday(days + 365) == (Weekday(days) + 1) % 7
  {
  }

  /** Only a rule for the first week of January names an instant in the first week of a year. */
  lemma FirstWeekIsJanuary(rule: Rule, year: int)
    requires ValidRule(rule) && Position(rule, year) < 7 * SECONDS_PER_DAY
    ensures FirstOfJanuaryRule(rule)
  {
    hide DaysFromCivil, Weekday;
    PositionInMonth(rule, year);
    MonthsClosedForm(year, rule.month);
    RuleNamesItsWeekday(rule, year);
    MonthLengths(year, rule.month);
  }

  /** The case `EarlyEndDisagrees` leaves open: both rules name the first week of January. */
  lemma EarlyJanuaryEndDisagrees(zone: Zone, year: int) returns (instant: int)
    requires Observes(zone)
    requires FirstOfJanuaryRule(zone.dst.value.end)
    requires zone.dst.value.end.seconds < zone.dst.value.offset - zone.stdOffset
    requires !IsLeap(year - 1) && !IsLeap(year) && RuleDay(zone.dst.value.end, year) == 0
    requires Start(zone, year - 1) <= End(zone, year - 1)
    ensures !Agrees(zone, instant) && Near(zone, year, instant)
  {
    hide Instant, RuleDay, DaysBeforeYear, InDst, DstInForce, IsLeap;
    var start, end := zone.dst.value.start, zone.dst.value.end;
    JanuaryMovesBack(end, year - 1);
    JanuaryMovesBack(end, year);
    EndAt(zone, year - 1);
    EndAt(zone, year);
    EndAt(zone, year + 1);
    InstantByPosition(start, year - 1, zone.stdOffset);
    FirstWeekIsJanuary(start, year - 1);
    JanuaryMovesBack(start, year - 1);
    JanuaryMovesBack(start, year);
    StartAt(zone, year - 1);
    StartAt(zone, year);
    StartAt(zone, year + 1);
    instant := NewYear(zone, year + 1);
    YearFacts(zone, year - 2);
    YearFacts(zone, year - 1);
    YearFacts(zone, year);
    YearFacts(zone, year + 1);
    YearFacts(zone, year + 2);
    TestInYear(zone, instant, year + 1);
    MostRecent(zone, instant, year, year);
  }

  lemma EndAt(zone: Zone, year: int)
    requires Observes(zone) && FirstOfJanuaryRule(zone.dst.value.end)
    ensures 0 <= RuleDay(zone.dst.value.end, year) <= 6
    ensures End(zone, year) == NewYear(zone, year) + RuleDay(zone.dst.value.end, year) * SECONDS_PER_DAY
                               + zone.dst.value.end.seconds - (zone.dst.value.offset - zone.stdOffset)
  {
    hide RuleDay, DaysBeforeYear, Instant;
    InstantByPosition(zone.dst.value.end, year, zone.dst.value.offset);
    JanuaryPosition(zone.dst.value.end, year);
  }

  lemma StartAt(zone: Zone, year: int)
    requires Observes(zone) && FirstOfJanuaryRule(zone.dst.value.start)
    ensures 0 <= RuleDay(zone.dst.value.start, year) <= 6
    ensures Start(zone, year) == NewYear(zone, year) + RuleDay(zone.dst.value.start, year) * SECONDS_PER_DAY
                                 + zone.dst.value.start.seconds
  {
    hide RuleDay, DaysBeforeYear, Instant;
    InstantByPosition(zone.dst.value.start, year, zone.stdOffset);
    JanuaryPosition(zone.dst.value.start, year);
  }

  lemma EarlyEndAnywhereDisagrees(zone: Zone, year: int) returns (instant: int)
    requires Observes(zone)
    requires End(zone, year) < NewYear(zone, year)
    ensures !Agrees(zone, instant) && exists chosen | 2014 <= chosen <= 2027 :: Near(zone, chosen, instant)
  {
    hide Instant, RuleDay, DaysBeforeYear, Agrees, DaysFromCivil, CommonYearFrom, Position, Near;
    var end := zone.dst.value.end;
    InstantByPosition(end, year, zone.dst.value.offset);
    FirstWeekIsJanuary(end, year);
    EndAt(zone, year);
    var chosen := CommonYearFrom(end.weekday);
    CommonYearBegins(end.weekday);
    JanuaryPosition(end, chosen);
    EndAt(zone, chosen);
    if Start(zone, chosen - 1) > End(zone, chosen - 1) {
      instant := EarlyEndDisagrees(zone, chosen);
    } else {
      instant := EarlyJanuaryEndDisagrees(zone, chosen);
    }
  }

  /**
   The per-year test agrees with the global meaning at every instant exactly when the zone
   is consistent over one cycle: no end leaves its year, and every New Year finds the clock
   the way the year before left it.
   */
  lemma TestIsExactIffConsistent(zone: Zone)
    requires Observes(zone)
    ensures (forall instant: int :: Agrees(zone, instant)) <==> Consistent(zone)
  {
    hide Agrees, Consistent;
    if Consistent(zone) {
      forall instant: int ensures Agrees(zone, instant) {
        ConsistentZoneAgrees(zone, instant);
      }
    } else {
      var instant := InconsistentZoneDisagrees(zone);
    }
  }

  lemma InconsistentZoneDisagrees(zone: Zone) returns (instant: int)
    requires Observes(zone) && !Consistent(zone)
    ensures !Agrees(zone, instant) && exists chosen | -1 <= chosen <= 2027 :: Near(zone, chosen, instant)
  {
    hide Agrees, InDstOfYear, CarriedIn, Near, EndStaysInYear, NewYear, Start, End;
    var year :| 0 <= year < 400 && !YearConsistent(zone, year);
    if !EndStaysInYear(zone, year) {
      instant := StrayEndDisagrees(zone, year);
    } else if !EndStaysInYear(zone, year - 1) {
      instant := StrayEndDisagrees(zone, year - 1);
    } else {
      instant := NewYear(zone, year);
      BrokenCarryDisagrees(zone, year);
      NewYearIsNear(zone, year);
    }
  }

  lemma StrayEndDisagrees(zone: Zone, year: int) returns (instant: int)
    requires Observes(zone) && !EndStaysInYear(zone, year)
    ensures !Agrees(zone, instant)
    ensures exists chosen | chosen == year || 2014 <= chosen <= 2027 :: Near(zone, chosen, instant)
  {
    hide Agrees, Start, End, NewYear, Near;
    if End(zone, year) < NewYear(zone, year) {
      instant := EarlyEndAnywhereDisagrees(zone, year);
    } else {
      instant := LateEndDisagrees(zone, year);
    }
  }

  lemma NewYearIsNear(zone: Zone, year: int)
    requires Observes(zone)
    ensures Near(zone, year, NewYear(zone, year))
  {
    hide NewYear, Start, End;
    YearFacts(zone, year - 2);
    YearFacts(zone, year - 1);
    YearFacts(zone, year);
    YearFacts(zone, year + 1);
    YearFacts(zone, year + 2);
  }

  lemma BrokenCarryDisagrees(zone: Zone, year: int)
    requires Observes(zone)
    requires EndStaysInYear(zone, year) && EndStaysInYear(zone, year - 1)
    requires InDstOfYear(zone, year, NewYear(zone, year)) != CarriedIn(zone, year)
    ensures !Agrees(zone, NewYear(zone, year))
  {
    hide Start, End, NewYear, InDst, DstInForce;
    var instant := NewYear(zone, year);
    YearFacts(zone, year - 1);
    YearFacts(zone, year);
    YearFacts(zone, year + 1);
    TestInYear(zone, instant, year);
    NextTransitionsLater(zone, year);
    NextTransitionsLater(zone, year - 1);
    MostRecent(zone, instant, if Start(zone, year) == instant then year else year - 1,
                              if End(zone, year) == instant then year else year - 1);
  }

  // ---------- Zones in use ----------

  /** Both rules between February and November, with a whole month between them. */
  predicate WellSeparated(start: Rule, end: Rule) {
    && 2 <= start.month <= 11 && 2 <= end.month <= 11
    && (start.month + 2 <= end.month || end.month + 2 <= start.month)
  }

  lemma MonthsApart(year: int, early: int, late: int)
    requires 1 <= early && early + 2 <= late <= 12
    ensures DaysBeforeMonth(year, early) + DaysInMonth(year, early) + 28 <= DaysBeforeMonth(year, late)
  {
    hide DaysBeforeMonth;
    MonthsClosedForm(year, early);
    MonthsClosedForm(year, late);
  }

  lemma SeparatedYear(zone: Zone, year: int)
    requires Observes(zone) && WellSeparated(zone.dst.value.start, zone.dst.value.end)
    ensures NewYear(zone, year) < Start(zone, year)
    ensures NewYear(zone, year) < End(zone, year) < NewYear(zone, year + 1)
    ensures Start(zone, year) < End(zone, year) <==> zone.dst.value.start.month < zone.dst.value.end.month
    ensures Start(zone, year) != End(zone, year)
  {
    hide Instant, Position, DaysBeforeYear, DaysInMonth, DaysBeforeMonth;
    var start, end := zone.dst.value.start, zone.dst.value.end;
    YearStep(year);
    InstantByPosition(start, year, zone.stdOffset);
    InstantByPosition(end, year, zone.dst.value.offset);
    PositionInMonth(start, year);
    PositionInMonth(end, year);
    MonthsClosedForm(year, start.month);
    MonthsClosedForm(year, end.month);
    MonthLengths(year, end.month);
    MonthInsideYear(year, 12);
    MonthsClosedForm(year, 12);
    MonthLengths(year, 12);
    if start.month < end.month {
      MonthsApart(year, start.month, end.month);
    } else {
      MonthsApart(year, end.month, start.month);
    }
  }

  lemma SeparatedZonesAgree(zone: Zone, instant: int)
    requires Observes(zone) && WellSeparated(zone.dst.value.start, zone.dst.value.end)
    ensures Agrees(zone, instant)
  {
    hide Start, End, NewYear, InDst, DstInForce;
    forall year | 0 <= year < 400 ensures YearConsistent(zone, year) {
      SeparatedYear(zone, year - 1);
      SeparatedYear(zone, year);
    }
    ConsistentZoneAgrees(zone, instant);
  }

  /** Every zone with well-separated rules is exact at every instant, on both hemispheres. */
  lemma SeparatedZonesAreExact(zone: Zone, instant: int)
    requires Observes(zone) && WellSeparated(zone.dst.value.start, zone.dst.value.end)
    ensures OffsetAt(zone, instant) == if DstInForce(zone, instant) then zone.dst.value.offset else zone.stdOffset
  {
    hide InDst, DstInForce;
    SeparatedZonesAgree(zone, instant);
  }

  // ---------- A zone that is not exact ----------

  /** `XXX0YYY,M7.1.0,M1.1.0/0:30`: daylight time ends half an hour into a first January Sunday. */
  const NEW_YEAR_ZONE := Zone(0, Some(Daylight(3600, Rule(7, 1, 0, 7200), Rule(1, 1, 0, 1800))))

  /**
   The source notes that no rule of its grammar lands within an hour of New Year. This one
   does: in 2023 its end is 2022-12-31T23:30:00Z, and from then until midnight the test
   still answers daylight time.
   */
  lemma NewYearZoneIsNotExact()
    ensures Observes(NEW_YEAR_ZONE) && End(NEW_YEAR_ZONE, 2023) == 1_672_529_400
    ensures OffsetAt(NEW_YEAR_ZONE, 1_672_529_400) == 3600
    ensures !DstInForce(NEW_YEAR_ZONE, 1_672_529_400)
    ensures !Consistent(NEW_YEAR_ZONE)
  {
    hide Start, End, InDst, DstInForce, Consistent;
    var instant := 1_672_529_400;
    NewYearZoneStarts();
    NewYearZoneEnds();
    assert InDst(NEW_YEAR_ZONE, instant) by {
      NewYearZoneYears();
      TestInYear(NEW_YEAR_ZONE, instant, 2022);
    }
    MostRecent(NEW_YEAR_ZONE, instant, 2022, 2023);
    if Consistent(NEW_YEAR_ZONE) {
      ConsistentZoneAgrees(NEW_YEAR_ZONE, instant);
    }
  }

  lemma NewYearZoneStarts()
    ensures Start(NEW_YEAR_ZONE, 2022) == 19_176 * SECONDS_PER_DAY + 7200
    ensures Start(NEW_YEAR_ZONE, 2023) == 19_540 * SECONDS_PER_DAY + 7200
  {
    FirstSunday(2022, 7, 19_174, 2);
    FirstSunday(2023, 7, 19_539, 1);
  }

  lemma NewYearZoneEnds()
    ensures End(NEW_YEAR_ZONE, 2022) == 18_994 * SECONDS_PER_DAY - 1800
    ensures End(NEW_YEAR_ZONE, 2023) == 19_358 * SECONDS_PER_DAY - 1800
    ensures End(NEW_YEAR_ZONE, 2024) == 19_729 * SECONDS_PER_DAY - 1800
  {
    FirstSunday(2022, 1, 18_993, 1);
    FirstSunday(2023, 1, 19_358, 0);
    FirstSunday(2024, 1, 19_723, 6);
  }

  /** The day of a `month.1.0` rule, from the day number of the first of the month. */
  lemma FirstSunday(year: int, month: int, first: int, day: int)
    requires ValidMonth(month) && DaysFromCivil(year, month, 1) == first
    requires day == (7 - Weekday(first)) % 7
    ensures forall seconds, offset ::
              Instant(Rule(month, 1, 0, seconds), year, offset) == (first + day) * SECONDS_PER_DAY + seconds - offset
  {
    hide DaysFromCivil, DaysInMonth;
    MonthLengths(year, month);
  }

  lemma NewYearZoneYears()
    ensures NewYear(NEW_YEAR_ZONE, 2022) == 18_993 * SECONDS_PER_DAY
    ensures NewYear(NEW_YEAR_ZONE, 2023) == 19_358 * SECONDS_PER_DAY
  {
    hide DaysBeforeYear;
    NewYearClosedForm(2022);
    NewYearClosedForm(2023);
  }
}
