/**
 Parsing of POSIX TZ strings: `PosixTz::parse` of crates/fah-config/src/tz.rs, over ASCII text.

 `ParsedZonesAreValid` bounds every field the evaluation relies on. What strings are accepted, and
 that each valid zone has one, is the subject of TzGrammar.dfy.
 */
module TzParser {
  import opened Calendar
  import opened TimeZone
  import opened Wrappers

  datatype TzError =
    | EmptySpec
    | UnterminatedName
    | EmptyName
    | ShortName
    | MissingOffset
    | FieldTooLarge
    | OffsetOutOfRange
    | MissingRules
    | MissingEndRule
    | NotMonthForm
    | MissingField
    | TrailingFields
    | RuleOutOfRange
    | TrailingTime
    | TimeOutsideDay

  // ---------- Text ----------

  predicate IsDigit(c: char) {
    '0' <= c <= '9'
  }

  predicate IsLetter(c: char) {
    'a' <= c <= 'z' || 'A' <= c <= 'Z'
  }

  predicate IsSpace(c: char) {
    c == ' ' || 9 as char <= c <= 13 as char
  }

  function TrimStart(s: string): string {
    if s != "" && IsSpace(s[0]) then TrimStart(s[1..]) else s
  }

  function TrimEnd(s: string): string {
    if s != "" && IsSpace(s[|s| - 1]) then TrimEnd(s[..|s| - 1]) else s
  }

  function LeadingDigits(s: string): (n: nat)
    ensures n <= |s|
    ensures forall i | 0 <= i < n :: IsDigit(s[i])
  {
    if s != "" && IsDigit(s[0]) then 1 + LeadingDigits(s[1..]) else 0
  }

  function LeadingLetters(s: string): (n: nat)
    ensures n <= |s|
  {
    if s != "" && IsLetter(s[0]) then 1 + LeadingLetters(s[1..]) else 0
  }

  function Decimal(s: string): (value: nat)
    requires forall i | 0 <= i < |s| :: IsDigit(s[i])
  {
    if s == "" then 0
    else
      assert IsDigit(s[|s| - 1]);
      10 * Decimal(s[..|s| - 1]) + (s[|s| - 1] as int - '0' as int)
  }

  function Find(s: string, c: char): (at: Option<nat>)
    ensures at.Some? ==> at.value < |s| && s[at.value] == c && c !in s[..at.value]
    ensures at.None? ==> c !in s
  {
    if s == "" then None
    else if s[0] == c then Some(0)
    else match Find(s[1..], c)
      case None => None
      case Some(at) => Some(at + 1)
  }

  function SplitOnce(s: string, c: char): Option<(string, string)> {
    match Find(s, c)
    case None => None
    case Some(at) => Some((s[..at], s[at + 1..]))
  }

  // ---------- The functions of the source ----------

  /** Skips a zone name, 3 or more letters or anything in angle brackets. */
  function ReadName(spec: string): Result<string, TzError> {
    if spec != "" && spec[0] == '<' then
      match Find(spec[1..], '>')
      case None => Err(UnterminatedName)
      case Some(close) => if close == 0 then Err(EmptyName) else Ok(spec[1..][close + 1..])
    else if LeadingLetters(spec) < 3 then Err(ShortName)
    else Ok(spec[LeadingLetters(spec)..])
  }

  /** The `hh[:mm[:ss]]` fields from field number `index` on, and the text after them. */
  function ReadFields(rest: string, index: nat): (r: Result<(seq<nat>, string), TzError>)
    requires index <= 2
    ensures r.Ok? ==> |r.value.0| <= 3 - index
    decreases 3 - index
  {
    var digits := LeadingDigits(rest);
    if digits == 0 then
      if index == 0 then Err(MissingOffset) else Ok(([], rest))
    else if Decimal(rest[..digits]) > I32_MAX then Err(FieldTooLarge)
    else
      var value, after := Decimal(rest[..digits]), rest[digits..];
      if index < 2 && after != "" && after[0] == ':' then
        match ReadFields(after[1..], index + 1)
        case Err(error) => Err(error)
        case Ok((more, tail)) => Ok(([value] + more, tail))
      else Ok(([value], after))
  }

  function Field(fields: seq<nat>, index: nat): nat {
    if index < |fields| then fields[index] else 0
  }

  function SignedOffset(negated: bool, fields: seq<nat>): Result<int, TzError> {
    var hours, minutes, seconds := Field(fields, 0), Field(fields, 1), Field(fields, 2);
    if hours > 24 || minutes > 59 || seconds > 59 then Err(OffsetOutOfRange)
    else
      var magnitude := hours * 3600 + minutes * 60 + seconds;
      Ok(if negated then magnitude else -magnitude)
  }

  /** An offset field, in seconds: POSIX counts westward, a zone eastward, so the sign turns. */
  function ReadOffset(spec: string): Result<(int, string), TzError> {
    var negated := spec != "" && spec[0] == '-';
    var unsigned := if negated || (spec != "" && spec[0] == '+') then spec[1..] else spec;
    match ReadFields(unsigned, 0)
    case Err(error) => Err(error)
    case Ok((fields, tail)) =>
      match SignedOffset(negated, fields)
      case Err(error) => Err(error)
      case Ok(offset) => Ok((offset, tail))
  }

  method CountDigits(s: string) returns (digits: nat)
    ensures digits == LeadingDigits(s)
  {
    digits := 0;
    while digits < |s| && IsDigit(s[digits])
      invariant 0 <= digits <= |s|
      invariant digits + LeadingDigits(s[digits..]) == LeadingDigits(s)
    {
      digits := digits + 1;
    }
  }

  /** The loop over the three offset fields, as the source runs it. */
  method ReadOffsetLoop(spec: string) returns (r: Result<(int, string), TzError>)
    ensures r == ReadOffset(spec)
  {
    var negated := spec != "" && spec[0] == '-';
    var rest := if negated || (spec != "" && spec[0] == '+') then spec[1..] else spec;
    ghost var unsigned := rest;
    var parts: seq<nat> := [];
    var index := 0;
    var more := true;
    PrependNothing(ReadFields(rest, 0));
    while more
      invariant 0 <= index <= 3 && |parts| <= 3
      invariant more ==> index <= 2 && |parts| == index
      invariant more ==> ReadFields(unsigned, 0) == Prepend(parts, ReadFields(rest, index))
      invariant !more ==> ReadFields(unsigned, 0) == Ok((parts, rest))
      decreases 3 - index, more
    {
      var digits := CountDigits(rest);
      if digits == 0 {
        if index == 0 {
          return Err(MissingOffset);
        }
        more := false;
        assert parts + [] == parts;
      } else {
        var value := Decimal(rest[..digits]);
        if value > I32_MAX {
          return Err(FieldTooLarge);
        }
        ghost var done := parts;
        parts := parts + [value];
        rest := rest[digits..];
        if rest != "" && rest[0] == ':' && index < 2 {
          rest := rest[1..];
          index := index + 1;
          PrependStep(done, value, ReadFields(rest, index));
        } else {
          more := false;
        }
      }
    }
    match SignedOffset(negated, parts) {
      case Err(error) => r := Err(error);
      case Ok(offset) => r := Ok((offset, rest));
    }
  }

  ghost function Prepend(parts: seq<nat>, r: Result<(seq<nat>, string), TzError>): Result<(seq<nat>, string), TzError> {
    match r
    case Err(error) => Err(error)
    case Ok((fields, tail)) => Ok((parts + fields, tail))
  }

  lemma PrependNothing(r: Result<(seq<nat>, string), TzError>)
    ensures Prepend([], r) == r
  {
    if r.Ok? {
      assert [] + r.value.0 == r.value.0;
    }
  }

  lemma PrependStep(parts: seq<nat>, value: nat, r: Result<(seq<nat>, string), TzError>)
    ensures Prepend(parts, Prepend([value], r)) == Prepend(parts + [value], r)
  {
    if r.Ok? {
      assert parts + ([value] + r.value.0) == parts + [value] + r.value.0;
    }
  }

  /** Rust's `parse::<u8>`: an optional `+`, at least one digit, and a value up to 255. */
  function ParseU8(s: string): Option<nat> {
    var digits := if s != "" && s[0] == '+' then s[1..] else s;
    if digits == "" || LeadingDigits(digits) != |digits| || Decimal(digits) > 255 then None else Some(Decimal(digits))
  }

  function Split(s: string, c: char): (parts: seq<string>)
    ensures |parts| >= 1
    decreases |s|
  {
    match SplitOnce(s, c)
    case None => [s]
    case Some((head, tail)) => [head] + Split(tail, c)
  }

  function ParseDate(date: string): Result<(nat, nat, nat), TzError> {
    if date == "" || date[0] != 'M' then Err(NotMonthForm)
    else
      var parts := Split(date[1..], '.');
      if ParseU8(parts[0]).None? || |parts| < 2 || ParseU8(parts[1]).None? || |parts| < 3
         || ParseU8(parts[2]).None? then
        Err(MissingField)
      else if |parts| > 3 then Err(TrailingFields)
      else
        var month, week, weekday := ParseU8(parts[0]).value, ParseU8(parts[1]).value, ParseU8(parts[2]).value;
        if !(1 <= month <= 12) || !(1 <= week <= 5) || weekday > 6 then Err(RuleOutOfRange)
        else Ok((month, week, weekday))
  }

  function ParseTime(time: Option<string>): Result<int, TzError> {
    match time
    case None => Ok(2 * 3600)
    case Some(text) =>
      match ReadOffset(text)
      case Err(error) => Err(error)
      case Ok((offset, rest)) => if rest != "" then Err(TrailingTime) else Ok(-offset)
  }

  function ParseTransition(spec: string): Result<Rule, TzError> {
    var (date, time) :=
      match SplitOnce(spec, '/') case Some((date, time)) => (date, Some(time)) case None => (spec, None);
    match ParseDate(date)
    case Err(error) => Err(error)
    case Ok((month, week, weekday)) =>
      match ParseTime(time)
      case Err(error) => Err(error)
      case Ok(seconds) =>
        if !(0 <= seconds < SECONDS_PER_DAY) then Err(TimeOutsideDay) else Ok(Rule(month, week, weekday, seconds))
  }

  function Parse(text: string): Result<Zone, TzError> {
    ParseSpec(TrimEnd(TrimStart(text)))
  }

  function ParseSpec(spec: string): Result<Zone, TzError> {
    if spec == "" then Err(EmptySpec)
    else
      match ReadName(spec)
      case Err(error) => Err(error)
      case Ok("") => Ok(Zone(0, None))
      case Ok(rest) =>
        match ReadOffset(rest)
        case Err(error) => Err(error)
        case Ok((stdOffset, "")) => Ok(Zone(stdOffset, None))
        case Ok((stdOffset, rest)) => ParseDaylight(stdOffset, rest)
  }

  function ParseDaylight(stdOffset: int, spec: string): Result<Zone, TzError> {
    match ReadName(spec)
    case Err(error) => Err(error)
    case Ok(rest) =>
      if rest != "" && rest[0] == ',' then ParseRules(stdOffset, stdOffset + 3600, rest)
      else
        match ReadOffset(rest)
        case Err(error) => Err(error)
        case Ok((dstOffset, rest)) => ParseRules(stdOffset, dstOffset, rest)
  }

  function ParseRules(stdOffset: int, dstOffset: int, rest: string): Result<Zone, TzError> {
    if rest == "" || rest[0] != ',' then Err(MissingRules)
    else
      match SplitOnce(rest[1..], ',')
      case None => Err(MissingEndRule)
      case Some((start, end)) =>
        match ParseTransition(start)
        case Err(error) => Err(error)
        case Ok(startRule) =>
          match ParseTransition(end)
          case Err(error) => Err(error)
          case Ok(endRule) => Ok(Zone(stdOffset, Some(Daylight(dstOffset, startRule, endRule))))
  }

  // ---------- Soundness ----------

  lemma OffsetsAreBounded(spec: string)
    ensures ReadOffset(spec).Ok? ==> -MAX_OFFSET <= ReadOffset(spec).value.0 <= MAX_OFFSET
  {
  }

  lemma RulesAreValid(spec: string)
    ensures ParseTransition(spec).Ok? ==> ValidRule(ParseTransition(spec).value)
  {
    hide ReadOffset, Split, ParseU8;
  }

  lemma ParsedRulesAreValid(stdOffset: int, dstOffset: int, rest: string)
    requires ValidOffsets(stdOffset, dstOffset)
    ensures ParseRules(stdOffset, dstOffset, rest).Ok? ==> ValidZone(ParseRules(stdOffset, dstOffset, rest).value)
  {
    hide ParseTransition, SplitOnce;
    if rest != "" && SplitOnce(rest[1..], ',').Some? {
      RulesAreValid(SplitOnce(rest[1..], ',').value.0);
      RulesAreValid(SplitOnce(rest[1..], ',').value.1);
    }
  }

  lemma ParsedDaylightIsValid(stdOffset: int, spec: string)
    requires -MAX_OFFSET <= stdOffset <= MAX_OFFSET
    ensures ParseDaylight(stdOffset, spec).Ok? ==> ValidZone(ParseDaylight(stdOffset, spec).value)
  {
    hide ReadName, ReadOffset, ParseRules, ValidZone;
    if ReadName(spec).Ok? {
      var rest := ReadName(spec).value;
      ParsedRulesAreValid(stdOffset, stdOffset + 3600, rest);
      OffsetsAreBounded(rest);
      if ReadOffset(rest).Ok? {
        ParsedRulesAreValid(stdOffset, ReadOffset(rest).value.0, ReadOffset(rest).value.1);
      }
    }
  }

  /** Every accepted string yields a zone whose fields meet the ranges the evaluation needs. */
  lemma ParsedZonesAreValid(text: string)
    ensures Parse(text).Ok? ==> ValidZone(Parse(text).value)
  {
    hide ReadName, ReadOffset, ParseDaylight, TrimEnd, TrimStart;
    var spec := TrimEnd(TrimStart(text));
    if ReadName(spec).Ok? {
      var rest := ReadName(spec).value;
      OffsetsAreBounded(rest);
      if ReadOffset(rest).Ok? {
        ParsedDaylightIsValid(ReadOffset(rest).value.0, ReadOffset(rest).value.1);
      }
    }
  }
}
