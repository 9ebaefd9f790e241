/**
 The proleptic Gregorian calendar of crates/fah-config/src/tz.rs.

 The source converts between civil dates and day numbers with Howard Hinnant's closed
 formulas. The reference here is the calendar as it is taught: a year has 365 or 366
 days, a month has `DaysInMonth` days, and the day number of a date is obtained by
 stepping whole years and whole months away from 1970-01-01.
 */
module Calendar {

  const SECONDS_PER_DAY := 86_400
  const I32_MIN := -0x8000_0000
  const I32_MAX := 0x7fff_ffff

  datatype Date = Date(year: int, month: int, day: int)

  predicate ValidMonth(month: int) {
    1 <= month <= 12
  }

  predicate ValidDate(date: Date) {
    ValidMonth(date.month) && 1 <= date.day <= DaysInMonth(date.year, date.month)
  }

  // ---------- The functions of the source ----------

  /** Rust's `/` on signed integers: the quotient is truncated toward zero. */
  function TruncatedQuotient(value: int, divisor: int): int
    requires divisor != 0
  {
    if value < 0 then -((-value) / divisor) else value / divisor
  }

  /** Rust's `%`: the remainder takes the sign of the dividend. */
  function TruncatedRemainder(value: int, divisor: int): int
    requires divisor != 0
  {
    value - TruncatedQuotient(value, divisor) * divisor
  }

  function DivFloor(value: int, divisor: int): int
    requires divisor != 0
  {
    var quotient := TruncatedQuotient(value, divisor);
    if TruncatedRemainder(value, divisor) != 0 && ((value < 0) != (divisor < 0)) then quotient - 1 else quotient
  }

  /** A remainder is zero under truncation exactly when it is zero here; see `RemainderZero`. */
  predicate IsLeap(year: int) {
    (year % 4 == 0 && year % 100 != 0) || year % 400 == 0
  }

  const LENGTHS: seq<int> := [31, 28, 31, 30, 31, 30, 31, 31, 30, 31, 30, 31]

  function DaysInMonth(year: int, month: int): int
    requires ValidMonth(month)
  {
    if month == 2 && IsLeap(year) then 29 else LENGTHS[month - 1]
  }

  function DaysFromCivil(year: int, month: int, day: int): int {
    FromShiftedYear(if month <= 2 then year - 1 else year, month, day)
  }

  /** The arithmetic of `days_from_civil` after its year has been moved to start in March. */
  function FromShiftedYear(year: int, month: int, day: int): int {
    var era := TruncatedQuotient(if year >= 0 then year else year - 399, 400);
    var yearOfEra := year - era * 400;
    var dayOfYear := (153 * (if month > 2 then month - 3 else month + 9) + 2) / 5 + day - 1;
    var dayOfEra := yearOfEra * 365 + yearOfEra / 4 - yearOfEra / 100 + dayOfYear;
    era * 146_097 + dayOfEra - 719_468
  }

  function CivilFromDays(days: int): Date {
    DateInEra(Era(days + 719_468), days + 719_468 - Era(days + 719_468) * 146_097)
  }

  /** The first half of `civil_from_days`: the 400-year era of a day counted from year 0. */
  function Era(shifted: int): int {
    TruncatedQuotient(if shifted >= 0 then shifted else shifted - 146_096, 146_097)
  }

  /** The second half of `civil_from_days`: the date on day `dayOfEra` of `era`. */
  function DateInEra(era: int, dayOfEra: int): Date {
    var yearOfEra := YearOfEra(dayOfEra);
    var year := yearOfEra + era * 400;
    var dayOfYear := dayOfEra - (365 * yearOfEra + yearOfEra / 4 - yearOfEra / 100);
    var m := (5 * dayOfYear + 2) / 153;
    var day := dayOfYear - (153 * m + 2) / 5 + 1;
    var month := if m < 10 then m + 3 else m - 9;
    Date(if month <= 2 then year + 1 else year, month, day)
  }

  function YearOfEra(dayOfEra: int): int {
    (dayOfEra - dayOfEra / 1460 + dayOfEra / 36_524 - dayOfEra / 146_096) / 365
  }

  /** `days_from_civil` with the year held in an `i32`, as the source declares it. */
  function DaysFromCivilI32(year: int, month: int, day: int): int {
    FromShiftedYear(WrapI32(if month <= 2 then year - 1 else year), month, day)
  }

  /** `civil_from_days` with the year cast to an `i32`, as the source returns it. */
  function CivilFromDaysI32(days: int): Date {
    CivilFromDays(days).(year := WrapI32(CivilFromDays(days).year))
  }

  function WrapI32(value: int): int {
    (value - I32_MIN) % 0x1_0000_0000 + I32_MIN
  }

  // ---------- The reference calendar ----------

  function DaysInYear(year: int): int {
    if IsLeap(year) then 366 else 365
  }

  /** Days from 1970-01-01 to the first of January of `year`, one year at a time. */
  function DaysBeforeYear(year: int): int
    decreases if year < 1970 then 1970 - year else year - 1970
  {
    if year == 1970 then 0
    else if year > 1970 then DaysBeforeYear(year - 1) + DaysInYear(year - 1)
    else DaysBeforeYear(year + 1) - DaysInYear(year)
  }

  /** Days from the first of January to the first of `month`, one month at a time. */
  function DaysBeforeMonth(year: int, month: int): int
    requires ValidMonth(month)
    decreases month
  {
    if month == 1 then 0 else DaysBeforeMonth(year, month - 1) + DaysInMonth(year, month - 1)
  }

  function DayNumber(date: Date): int
    requires ValidDate(date)
  {
    DaysBeforeYear(date.year) + DaysBeforeMonth(date.year, date.month) + date.day - 1
  }

  // ---------- Division ----------

  lemma DivFloorIsFloor(value: int, divisor: int)
    requires divisor > 0
    ensures DivFloor(value, divisor) * divisor <= value < (DivFloor(value, divisor) + 1) * divisor
  {
  }

  lemma RemainderZero(value: int, divisor: int)
    requires divisor > 0
    ensures TruncatedRemainder(value, divisor) == 0 <==> value % divisor == 0
  {
    DivFloorIsFloor(value, divisor);
    var q := value / divisor;
    assert value == q * divisor + value % divisor;
    if value % divisor == 0 && value < 0 {
      assert -value == (-q) * divisor;
      ExactQuotient(-q, divisor);
    } else if TruncatedRemainder(value, divisor) == 0 && value < 0 {
      var k := TruncatedQuotient(value, divisor);
      assert value == k * divisor;
      ExactQuotient(k, divisor);
    }
  }

  lemma ExactQuotient(q: int, divisor: int)
    requires divisor > 0
    ensures q * divisor / divisor == q && q * divisor % divisor == 0
  {
    var d := q * divisor / divisor;
    var r := q * divisor % divisor;
    assert (q - d) * divisor == r;
    assert q - d >= 1 ==> (q - d) * divisor >= divisor;
    assert q - d <= -1 ==> (q - d) * divisor <= -divisor;
  }

  lemma EraIsFloor(year: int)
    ensures TruncatedQuotient(if year >= 0 then year else year - 399, 400) == year / 400
  {
  }

  lemma EraOfDay(shifted: int)
    ensures Era(shifted) == shifted / 146_097
  {
  }

  // ---------- The closed form counts days ----------

  /** Leap days before March of `year`, counted from the start of the era of year 0. */
  function LeapDays(year: int): int {
    year / 4 - year / 100 + year / 400
  }

  lemma ShiftedYearCount(year: int, month: int, day: int)
    ensures FromShiftedYear(year, month, day)
         == 365 * year + LeapDays(year)
            + (153 * (if month > 2 then month - 3 else month + 9) + 2) / 5 + day - 1 - 719_468
  {
    EraIsFloor(year);
    var era := year / 400;
    var yearOfEra := year - era * 400;
    assert 0 <= yearOfEra < 400;
    assert year / 4 == 100 * era + yearOfEra / 4;
    assert year / 100 == 4 * era + yearOfEra / 100;
  }

  lemma StepBy4(year: int)
    ensures year / 4 - (year - 1) / 4 == if year % 4 == 0 then 1 else 0
  {
  }

  lemma StepBy100(year: int)
    ensures year / 100 - (year - 1) / 100 == if year % 100 == 0 then 1 else 0
  {
  }

  lemma StepBy400(year: int)
    ensures year / 400 - (year - 1) / 400 == if year % 400 == 0 then 1 else 0
  {
  }

  lemma CenturiesAreFourths(year: int)
    ensures year % 400 == 0 ==> year % 100 == 0
    ensures year % 100 == 0 ==> year % 4 == 0
  {
  }

  lemma LeapDaysStep(year: int)
    ensures LeapDays(year) - LeapDays(year - 1) == if IsLeap(year) then 1 else 0
  {
    StepBy4(year);
    StepBy100(year);
    StepBy400(year);
    CenturiesAreFourths(year);
  }

  lemma {:induction false} NewYearClosedForm(year: int)
    ensures DaysBeforeYear(year) == 365 * (year - 1) + LeapDays(year - 1) + 306 - 719_468
    decreases if year < 1970 then 1970 - year else year - 1970
  {
    if year > 1970 {
      NewYearClosedForm(year - 1);
      LeapDaysStep(year - 1);
    } else if year < 1970 {
      NewYearClosedForm(year + 1);
      LeapDaysStep(year);
    }
  }

  lemma {:induction false} MonthsClosedForm(year: int, month: int)
    requires ValidMonth(month)
    ensures month <= 2 ==> DaysBeforeMonth(year, month) == 31 * (month - 1)
    ensures month > 2 ==>
              DaysBeforeMonth(year, month) == 59 + (if IsLeap(year) then 1 else 0) + (153 * (month - 3) + 2) / 5
  {
    if month > 1 {
      MonthsClosedForm(year, month - 1);
    }
  }

  /** `days_from_civil` equals the day count obtained by stepping years and months. */
  lemma DaysFromCivilCountsDays(date: Date)
    requires ValidDate(date)
    ensures DaysFromCivil(date.year, date.month, date.day) == DayNumber(date)
  {
    NewYearClosedForm(date.year);
    MonthsClosedForm(date.year, date.month);
    LeapDaysStep(date.year);
    ShiftedYearCount(if date.month <= 2 then date.year - 1 else date.year, date.month, date.day);
  }

  // ---------- The inverse ----------

  /** A year of an era, March to February, is a leap one when its February has 29 days. */
  predicate LongYearOfEra(yearOfEra: int) {
    yearOfEra % 4 == 3 && (yearOfEra % 100 != 99 || yearOfEra == 399)
  }

  /** `YearOfEra` on the day `dayOfYear` of year `r` of cycle `q` of century `c`. */
  lemma YearOfEraByParts(c: int, q: int, r: int, dayOfYear: int)
    requires 0 <= c <= 3 && 0 <= q <= 24 && 0 <= r <= 3
    requires 0 <= dayOfYear < if r == 3 && (q != 24 || c == 3) then 366 else 365
    ensures YearOfEra(36_524 * c + 1461 * q + 365 * r + dayOfYear) == 100 * c + 4 * q + r
  {
    var dayOfEra := 36_524 * c + 1461 * q + 365 * r + dayOfYear;
    assert dayOfEra / 36_524 - dayOfEra / 146_096 == c;
    var spill := 24 * c + q + 365 * r + dayOfYear;
    assert dayOfEra == 1460 * (25 * c + q) + spill;
    assert dayOfEra / 1460 == 25 * c + q + spill / 1460;
  }

  lemma YearOfEraInverts(yearOfEra: int, dayOfYear: int)
    requires 0 <= yearOfEra < 400
    requires 0 <= dayOfYear < if LongYearOfEra(yearOfEra) then 366 else 365
    ensures var dayOfEra := 365 * yearOfEra + yearOfEra / 4 - yearOfEra / 100 + dayOfYear;
            0 <= dayOfEra < 146_097 && YearOfEra(dayOfEra) == yearOfEra
  {
    hide YearOfEra;
    var c, q, r := yearOfEra / 100, yearOfEra % 100 / 4, yearOfEra % 4;
    assert yearOfEra == 100 * c + 4 * q + r && yearOfEra / 4 == 25 * c + q;
    YearOfEraByParts(c, q, r, dayOfYear);
  }

  lemma MonthOfYearInverts(m: int, day: int)
    requires 0 <= m < 12
    requires 1 <= day <= 31
    requires m in {1, 3, 6, 8} ==> day <= 30
    requires m == 11 ==> day <= 29
    ensures var dayOfYear := (153 * m + 2) / 5 + day - 1; (5 * dayOfYear + 2) / 153 == m
  {
  }

  lemma LastOfFour(cycle: int, last: int)
    requires 0 <= last < 4
    ensures (4 * cycle + last + 1) % 4 == 0 <==> last == 3
  {
  }

  lemma FourthInEra(year: int)
    ensures year % 4 == 0 <==> (year - 1) % 400 % 4 == 3
  {
    var r, e := (year - 1) % 400, (year - 1) / 400;
    var cycle, last := r / 4, r % 4;
    LastOfFour(100 * e + cycle, last);
    assert year == 4 * (100 * e + cycle) + last + 1;
  }

  lemma LastOfHundred(century: int, last: int)
    requires 0 <= last < 100
    ensures (100 * century + last + 1) % 100 == 0 <==> last == 99
  {
  }

  lemma CenturyInEra(year: int)
    ensures year % 100 == 0 <==> (year - 1) % 400 % 100 == 99
  {
    var r, e := (year - 1) % 400, (year - 1) / 400;
    var century, last := r / 100, r % 100;
    LastOfHundred(4 * e + century, last);
    assert year == 100 * (4 * e + century) + last + 1;
  }

  lemma LeapInEra(year: int)
    ensures IsLeap(year) <==> LongYearOfEra((year - 1) % 400)
  {
    FourthInEra(year);
    CenturyInEra(year);
    CenturiesAreFourths(year);
    assert year % 400 == 0 <==> (year - 1) % 400 == 399;
  }

  /** The closed form of `days_from_civil` split into its era and the day inside it. */
  lemma EraSplit(year: int, month: int, day: int, dayOfEra: int)
    requires dayOfEra == 365 * (year % 400) + (year % 400) / 4 - (year % 400) / 100
                         + (153 * (if month > 2 then month - 3 else month + 9) + 2) / 5 + day - 1
    requires 0 <= dayOfEra < 146_097
    ensures (FromShiftedYear(year, month, day) + 719_468) == 146_097 * (year / 400) + dayOfEra
    ensures (FromShiftedYear(year, month, day) + 719_468) / 146_097 == year / 400
  {
    EraIsFloor(year);
  }

  lemma DateInEraInverts(era: int, yearOfEra: int, m: int, day: int)
    requires 0 <= yearOfEra < 400 && 0 <= m < 12 && 1 <= day <= 31
    requires m in {1, 3, 6, 8} ==> day <= 30
    requires m == 11 ==> day <= 29
    requires 0 <= (153 * m + 2) / 5 + day - 1 < if LongYearOfEra(yearOfEra) then 366 else 365
    ensures DateInEra(era, 365 * yearOfEra + yearOfEra / 4 - yearOfEra / 100 + (153 * m + 2) / 5 + day - 1)
         == Date(400 * era + yearOfEra + (if m < 10 then 0 else 1), if m < 10 then m + 3 else m - 9, day)
  {
    hide YearOfEra;
    YearOfEraInverts(yearOfEra, (153 * m + 2) / 5 + day - 1);
    MonthOfYearInverts(m, day);
  }

  lemma CivilByEra(days: int, era: int, dayOfEra: int)
    requires days + 719_468 == 146_097 * era + dayOfEra && 0 <= dayOfEra < 146_097
    ensures CivilFromDays(days) == DateInEra(era, dayOfEra)
  {
    EraOfDay(days + 719_468);
    assert Era(days + 719_468) == era;
  }

  lemma DayOfYearBound(yearOfEra: int, m: int, day: int)
    requires 0 <= m < 12 && 1 <= day <= 31
    requires m == 11 ==> day <= if LongYearOfEra(yearOfEra) then 29 else 28
    ensures 0 <= (153 * m + 2) / 5 + day - 1 < if LongYearOfEra(yearOfEra) then 366 else 365
  {
  }

  lemma ShiftedRoundTrip(year: int, month: int, day: int)
    requires ValidMonth(month) && 1 <= day <= 31
    requires month in {4, 6, 9, 11} ==> day <= 30
    requires month == 2 ==> day <= if LongYearOfEra(year % 400) then 29 else 28
    ensures CivilFromDays(FromShiftedYear(year, month, day)) == Date(if month <= 2 then year + 1 else year, month, day)
  {
    hide CivilFromDays, DateInEra, FromShiftedYear;
    var m := if month > 2 then month - 3 else month + 9;
    var era, yearOfEra := year / 400, year % 400;
    var dayOfYear := (153 * m + 2) / 5 + day - 1;
    DayOfYearBound(yearOfEra, m, day);
    var dayOfEra := 365 * yearOfEra + yearOfEra / 4 - yearOfEra / 100 + dayOfYear;
    YearOfEraInverts(yearOfEra, dayOfYear);
    EraSplit(year, month, day, dayOfEra);
    CivilByEra(FromShiftedYear(year, month, day), era, dayOfEra);
    DateInEraInverts(era, yearOfEra, m, day);
    assert 400 * era + yearOfEra == year;
  }

  /** The round trip from a date to a day number and back. */
  lemma CivilRoundTrip(date: Date)
    requires ValidDate(date)
    ensures CivilFromDays(DaysFromCivil(date.year, date.month, date.day)) == date
  {
    hide CivilFromDays, FromShiftedYear;
    LeapInEra(date.year);
    ShiftedRoundTrip(if date.month <= 2 then date.year - 1 else date.year, date.month, date.day);
  }

  lemma DayOfEraSplits(dayOfEra: int) returns (yearOfEra: int, dayOfYear: int)
    requires 0 <= dayOfEra < 146_097
    ensures 0 <= yearOfEra < 400
    ensures 0 <= dayOfYear < if LongYearOfEra(yearOfEra) then 366 else 365
    ensures dayOfEra == 365 * yearOfEra + yearOfEra / 4 - yearOfEra / 100 + dayOfYear
  {
    var c := if dayOfEra == 146_096 then 3 else dayOfEra / 36_524;
    var inCentury := dayOfEra - 36_524 * c;
    var q := inCentury / 1461;
    var inCycle := inCentury - 1461 * q;
    var r := if inCycle == 1460 then 3 else inCycle / 365;
    assert 0 <= c <= 3 && 0 <= q <= 24 && 0 <= r <= 3;
    yearOfEra, dayOfYear := 100 * c + 4 * q + r, inCycle - 365 * r;
    assert yearOfEra / 100 == c && yearOfEra / 4 == 25 * c + q;
    assert yearOfEra % 4 == r && yearOfEra % 100 == 4 * q + r;
  }

  lemma DayOfYearSplits(dayOfYear: int) returns (m: int, day: int)
    requires 0 <= dayOfYear < 366
    ensures 0 <= m < 12 && 1 <= day <= 31
    ensures m in {1, 3, 6, 8} ==> day <= 30
    ensures m == 11 ==> day <= 29
    ensures dayOfYear == (153 * m + 2) / 5 + day - 1
  {
    m := (5 * dayOfYear + 2) / 153;
    day := dayOfYear - (153 * m + 2) / 5 + 1;
  }

  /** Every day number is the number of exactly one date, the one `civil_from_days` answers. */
  lemma DayRoundTrip(days: int)
    ensures ValidDate(CivilFromDays(days))
    ensures var date := CivilFromDays(days); DaysFromCivil(date.year, date.month, date.day) == days
  {
    var era, dayOfEra := (days + 719_468) / 146_097, (days + 719_468) % 146_097;
    var yearOfEra, dayOfYear := DayOfEraSplits(dayOfEra);
    var m, day := DayOfYearSplits(dayOfYear);
    var month := if m < 10 then m + 3 else m - 9;
    var year := 400 * era + yearOfEra;
    assert year % 400 == yearOfEra && year / 400 == era;
    LeapInEra(year + 1);
    EraSplit(year, month, day, dayOfEra);
    hide IsLeap, FromShiftedYear, CivilFromDays;
    var date := Date(if month <= 2 then year + 1 else year, month, day);
    assert DaysFromCivil(date.year, date.month, date.day) == FromShiftedYear(year, month, day) == days;
    CivilRoundTrip(date);
  }

  /** Two dates with one day number are one date, so the count orders the calendar faithfully. */
  lemma DayNumberInjective(a: Date, b: Date)
    requires ValidDate(a) && ValidDate(b)
    requires DayNumber(a) == DayNumber(b)
    ensures a == b
  {
    DaysFromCivilCountsDays(a);
    DaysFromCivilCountsDays(b);
    CivilRoundTrip(a);
    CivilRoundTrip(b);
  }

  // ---------- The year of a day ----------

  lemma MonthInsideYear(year: int, month: int)
    requires ValidMonth(month)
    ensures 0 <= DaysBeforeMonth(year, month)
    ensures DaysBeforeMonth(year, month) + DaysInMonth(year, month) <= DaysInYear(year)
  {
    MonthsClosedForm(year, month);
  }

  lemma {:induction false} YearsInOrder(a: int, b: int)
    requires a <= b
    ensures DaysBeforeYear(a) + 365 * (b - a) <= DaysBeforeYear(b)
    decreases b - a
  {
    if a < b {
      YearsInOrder(a, b - 1);
      YearStep(b - 1);
    }
  }

  lemma YearStep(year: int)
    ensures DaysBeforeYear(year + 1) == DaysBeforeYear(year) + DaysInYear(year)
  {
  }

  /** A day number lies in `year` exactly when it is between that New Year and the next. */
  lemma YearOfDay(days: int, year: int)
    ensures CivilFromDays(days).year == year <==> DaysBeforeYear(year) <= days < DaysBeforeYear(year + 1)
  {
    hide CivilFromDays, DaysFromCivil;
    var date := CivilFromDays(days);
    DayRoundTrip(days);
    DaysFromCivilCountsDays(date);
    MonthInsideYear(date.year, date.month);
    YearStep(date.year);
    if date.year < year {
      YearsInOrder(date.year + 1, year);
    } else if year < date.year {
      YearsInOrder(year + 1, date.year);
    }
  }

  // ---------- The i32 range ----------

  /**
   The source calls its formula exact for the whole `i32` year range. It subtracts one from
   the year in `i32` first, so it is exact everywhere except in January and February of the
   least year, where the subtraction leaves the range.
   */
  lemma ExactOnI32Years(date: Date)
    requires ValidDate(date) && I32_MIN <= date.year <= I32_MAX
    ensures DaysFromCivilI32(date.year, date.month, date.day) == DayNumber(date)
       <==> !(date.year == I32_MIN && date.month <= 2)
  {
    hide FromShiftedYear, DayNumber, LeapDays;
    DaysFromCivilCountsDays(date);
    var shifted := if date.month <= 2 then date.year - 1 else date.year;
    if date.year == I32_MIN && date.month <= 2 {
      assert WrapI32(shifted) == I32_MAX;
      ShiftedYearCount(I32_MAX, date.month, date.day);
      ShiftedYearCount(shifted, date.month, date.day);
      assert LeapDays(I32_MAX) > LeapDays(shifted) by { LeapDaysGrow(); }
    } else {
      assert WrapI32(shifted) == shifted;
    }
  }

  lemma LeapDaysGrow()
    ensures LeapDays(I32_MIN - 1) < 0 < LeapDays(I32_MAX)
  {
  }

  lemma LeastYearIsNotExact()
    ensures DaysFromCivilI32(I32_MIN, 1, 1) != DayNumber(Date(I32_MIN, 1, 1))
  {
    ExactOnI32Years(Date(I32_MIN, 1, 1));
  }

  /** The date read off a day is exact if and only if the day lies in the years of an `i32`. */
  lemma CivilExactIff(days: int)
    ensures CivilFromDaysI32(days) == CivilFromDays(days)
       <==> DaysBeforeYear(I32_MIN) <= days < DaysBeforeYear(I32_MAX + 1)
  {
    hide CivilFromDays, DaysBeforeYear;
    var year := CivilFromDays(days).year;
    YearOfDay(days, year);
    WrapsIff(year);
    if year < I32_MIN {
      YearsInOrder(year + 1, I32_MIN);
    } else if year > I32_MAX {
      YearsInOrder(I32_MAX + 1, year);
    } else {
      YearsInOrder(I32_MIN, year);
      YearsInOrder(year + 1, I32_MAX + 1);
    }
  }

  lemma WrapsIff(value: int)
    ensures WrapI32(value) == value <==> I32_MIN <= value <= I32_MAX
    ensures I32_MIN <= WrapI32(value) <= I32_MAX
  {
  }
}
