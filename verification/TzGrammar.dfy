/**
 The language of `PosixTz::parse` (crates/fah-config/src/tz.rs): every way a zone can be written,
 and what each of them means.

 A `ZoneText` spells out the choices the grammar leaves: names in letters or in angle brackets, a
 sign or none, any number of digits, minutes and seconds given or not, offsets and times left out,
 spaces around the whole. `ParsesIff` says that a string is accepted exactly when it is so written,
 and that the zone it yields is the one the text means.
 */
module TzGrammar {
  import opened Calendar
  import opened TimeZone
  import opened TzParser
  import opened Wrappers

  // ---------- Texts ----------

  datatype NameText = Letters(name: string) | Quoted(name: string)

  /** `hh`, `hh:mm` or `hh:mm:ss`; what follows the last colon may be missing. */
  datatype ClockText = ClockText(hours: string, minutes: Option<string>, seconds: Option<string>)

  datatype Sign = Unsigned | Plus | Minus

  datatype OffsetText = OffsetText(sign: Sign, clock: ClockText)

  /** A small number, with a plus sign or without. */
  datatype NumberText = NumberText(plus: bool, digits: string)

  datatype RuleText = RuleText(month: NumberText, week: NumberText, weekday: NumberText, time: Option<OffsetText>)

  datatype DaylightText = DaylightText(name: NameText, offset: Option<OffsetText>, start: RuleText, end: RuleText)

  datatype ZoneText = ZoneText(
    before: string, name: NameText, offset: Option<OffsetText>, dst: Option<DaylightText>, after: string)

  predicate AllDigits(s: string) {
    forall i | 0 <= i < |s| :: IsDigit(s[i])
  }

  predicate AllLetters(s: string) {
    forall i | 0 <= i < |s| :: IsLetter(s[i])
  }

  predicate AllSpaces(s: string) {
    forall i | 0 <= i < |s| :: IsSpace(s[i])
  }

  predicate NameOk(text: NameText) {
    match text
    case Letters(name) => |name| >= 3 && AllLetters(name)
    case Quoted(name) => name != "" && '>' !in name
  }

  predicate ClockShape(text: ClockText) {
    && text.hours != "" && AllDigits(text.hours)
    && (text.minutes.Some? ==> AllDigits(text.minutes.value))
    && (text.seconds.Some? ==> text.minutes.Some? && text.minutes.value != "" && AllDigits(text.seconds.value))
  }

  function Number(digits: Option<string>): nat
    requires digits.Some? ==> AllDigits(digits.value)
  {
    if digits.Some? then Decimal(digits.value) else 0
  }

  predicate ClockOk(text: ClockText) {
    && ClockShape(text)
    && Decimal(text.hours) <= 24 && Number(text.minutes) <= 59 && Number(text.seconds) <= 59
  }

  function Magnitude(text: ClockText): int
    requires ClockOk(text)
  {
    Decimal(text.hours) * 3600 + Number(text.minutes) * 60 + Number(text.seconds)
  }

  /** West of Greenwich counts positive in the text. */
  function East(text: OffsetText): int
    requires ClockOk(text.clock)
  {
    if text.sign == Minus then Magnitude(text.clock) else -Magnitude(text.clock)
  }

  predicate NumberOk(text: NumberText) {
    text.digits != "" && AllDigits(text.digits)
  }

  /** The time of day at which a rule takes effect: two in the morning unless it is stated. */
  function TimeOf(time: Option<OffsetText>): int
    requires time.Some? ==> ClockOk(time.value.clock)
  {
    match time
    case None => 7200
    case Some(clock) => -East(clock)
  }

  predicate RuleOk(text: RuleText) {
    && NumberOk(text.month) && NumberOk(text.week) && NumberOk(text.weekday)
    && (text.time.Some? ==> ClockOk(text.time.value.clock))
    && ValidRule(Rule(Decimal(text.month.digits), Decimal(text.week.digits), Decimal(text.weekday.digits),
                      TimeOf(text.time)))
  }

  function RuleMeaning(text: RuleText): Rule
    requires RuleOk(text)
  {
    Rule(Decimal(text.month.digits), Decimal(text.week.digits), Decimal(text.weekday.digits), TimeOf(text.time))
  }

  predicate DaylightOk(text: DaylightText) {
    && NameOk(text.name) && (text.offset.Some? ==> ClockOk(text.offset.value.clock))
    && RuleOk(text.start) && RuleOk(text.end)
  }

  /** Daylight time is an hour ahead of standard time unless its offset is stated. */
  function DaylightMeaning(text: DaylightText, standard: int): Daylight
    requires DaylightOk(text)
  {
    Daylight(if text.offset.Some? then East(text.offset.value) else standard + 3600,
             RuleMeaning(text.start), RuleMeaning(text.end))
  }

  /** Only a name that stands alone may go without an offset. */
  predicate ZoneOk(text: ZoneText) {
    && AllSpaces(text.before) && AllSpaces(text.after) && NameOk(text.name)
    && (text.offset.Some? ==> ClockOk(text.offset.value.clock))
    && (text.dst.Some? ==> text.offset.Some? && DaylightOk(text.dst.value))
  }

  function Meaning(text: ZoneText): Zone
    requires ZoneOk(text)
  {
    var standard := if text.offset.Some? then East(text.offset.value) else 0;
    Zone(standard, if text.dst.Some? then Some(DaylightMeaning(text.dst.value, standard)) else None)
  }

  // ---------- Writing them out, each in front of what follows ----------

  function WriteName(text: NameText, tail: string): string {
    match text
    case Letters(name) => name + tail
    case Quoted(name) => "<" + (name + ">" + tail)
  }

  function WriteClock(text: ClockText, tail: string): string {
    text.hours +
    match text.minutes
    case None => tail
    case Some(minutes) =>
      ":" + (minutes + match text.seconds case None => tail case Some(seconds) => ":" + (seconds + tail))
  }

  function WriteOffset(text: OffsetText, tail: string): string {
    match text.sign
    case Unsigned => WriteClock(text.clock, tail)
    case Plus => "+" + WriteClock(text.clock, tail)
    case Minus => "-" + WriteClock(text.clock, tail)
  }

  function WriteNumber(text: NumberText): string {
    if text.plus then "+" + text.digits else text.digits
  }

  function WriteDate(text: RuleText): string {
    "M" + (WriteNumber(text.month) + "." + (WriteNumber(text.week) + "." + WriteNumber(text.weekday)))
  }

  function WriteRule(text: RuleText): string {
    match text.time
    case None => WriteDate(text)
    case Some(time) => WriteDate(text) + "/" + WriteOffset(time, "")
  }

  function WriteRules(text: DaylightText): string {
    "," + (WriteRule(text.start) + "," + WriteRule(text.end))
  }

  function WriteDaylight(text: DaylightText): string {
    var rules := WriteRules(text);
    WriteName(text.name, if text.offset.Some? then WriteOffset(text.offset.value, rules) else rules)
  }

  function WriteZone(text: ZoneText): string {
    var tail := if text.dst.Some? then WriteDaylight(text.dst.value) else "";
    WriteName(text.name, if text.offset.Some? then WriteOffset(text.offset.value, tail) else tail)
  }

  function Write(text: ZoneText): string {
    text.before + WriteZone(text) + text.after
  }

  // ---------- Digits and letters ----------

  lemma {:induction false} DigitsLead(digits: string, tail: string)
    requires AllDigits(digits) && (tail == "" || !IsDigit(tail[0]))
    ensures LeadingDigits(digits + tail) == |digits|
    ensures (digits + tail)[..|digits|] == digits && (digits + tail)[|digits|..] == tail
    decreases |digits|
  {
    if digits == "" {
      assert digits + tail == tail;
    } else {
      assert (digits + tail)[1..] == digits[1..] + tail;
      DigitsLead(digits[1..], tail);
    }
  }

  lemma {:induction false} LettersLead(letters: string, tail: string)
    requires AllLetters(letters) && (tail == "" || !IsLetter(tail[0]))
    ensures LeadingLetters(letters + tail) == |letters|
    ensures (letters + tail)[|letters|..] == tail
    decreases |letters|
  {
    if letters == "" {
      assert letters + tail == tail;
    } else {
      assert (letters + tail)[1..] == letters[1..] + tail;
      LettersLead(letters[1..], tail);
    }
  }

  lemma {:induction false} LeadingIsLetters(s: string)
    ensures AllLetters(s[..LeadingLetters(s)])
    decreases |s|
  {
    if s != "" && IsLetter(s[0]) {
      LeadingIsLetters(s[1..]);
      var n := LeadingLetters(s[1..]);
      assert s[..n + 1] == [s[0]] + s[1..][..n];
    }
  }

  lemma NameReads(text: NameText, tail: string)
    requires NameOk(text) && (tail == "" || !IsLetter(tail[0]))
    ensures ReadName(WriteName(text, tail)) == Ok(tail)
  {
    match text {
      case Letters(name) =>
        LettersLead(name, tail);
        assert name[0] != '<';
      case Quoted(name) =>
        var s := WriteName(text, tail);
        assert s[1..] == name + ">" + tail;
        FindFirst(name, '>', tail);
        FoundAt(name, '>', tail);
    }
  }

  lemma FindFirst(head: string, c: char, tail: string)
    requires c !in head
    ensures SplitOnce(head + [c] + tail, c) == Some((head, tail))
  {
    FoundAt(head, c, tail);
    var s := head + [c] + tail;
    assert s[..|head|] == head && s[|head| + 1..] == tail;
  }

  lemma FoundAt(head: string, c: char, tail: string)
    requires c !in head
    ensures Find(head + [c] + tail, c) == Some(|head|)
  {
    var s := head + [c] + tail;
    assert s[|head|] == c;
    var at := Find(s, c);
    assert at.Some?;
    assert forall i | 0 <= i < |head| :: s[i] == head[i] && s[i] != c;
    assert forall j | |head| < j <= |s| :: s[..j][|head|] == c;
  }

  // ---------- Clocks and offsets ----------

  function Fields(text: ClockText): seq<nat>
    requires ClockShape(text)
  {
    [Decimal(text.hours)] + MinuteFields(text)
  }

  function MinuteFields(text: ClockText): seq<nat>
    requires ClockShape(text)
  {
    if text.minutes.None? || text.minutes.value == "" then [] else [Decimal(text.minutes.value)] + SecondFields(text)
  }

  function SecondFields(text: ClockText): seq<nat>
    requires ClockShape(text)
  {
    if text.seconds.None? || text.seconds.value == "" then [] else [Decimal(text.seconds.value)]
  }

  /** What may follow a clock: no digit, and no colon that would go on with it. */
  predicate Stops(tail: string) {
    tail == "" || (!IsDigit(tail[0]) && tail[0] != ':')
  }

  lemma FieldReads(digits: string, tail: string, index: nat)
    requires index <= 2 && digits != "" && AllDigits(digits) && Decimal(digits) <= I32_MAX
    requires tail == "" || !IsDigit(tail[0])
    ensures ReadFields(digits + tail, index) ==
              if index < 2 && tail != "" && tail[0] == ':' then
                Prepend([Decimal(digits)], ReadFields(tail[1..], index + 1))
              else Ok(([Decimal(digits)], tail))
  {
    DigitsLead(digits, tail);
    hide LeadingDigits, Decimal;
  }

  lemma NoField(tail: string, index: nat)
    requires 0 < index <= 2 && (tail == "" || !IsDigit(tail[0]))
    ensures ReadFields(tail, index) == Ok(([], tail))
  {
  }

  /** The last field, which may be missing after its colon. */
  lemma SecondsRead(digits: string, tail: string)
    requires AllDigits(digits) && Decimal(digits) <= I32_MAX && Stops(tail)
    ensures ReadFields(digits + tail, 2) == Ok((if digits == "" then [] else [Decimal(digits)], tail))
  {
    hide ReadFields, Decimal;
    if digits == "" {
      assert digits + tail == tail;
      NoField(tail, 2);
    } else {
      FieldReads(digits, tail, 2);
    }
  }

  lemma MinutesRead(text: ClockText, tail: string)
    requires ClockOk(text) && text.minutes.Some? && Stops(tail)
    ensures var rest := match text.seconds case None => tail case Some(seconds) => ":" + (seconds + tail);
            ReadFields(text.minutes.value + rest, 1) == Ok((MinuteFields(text), tail))
  {
    hide ReadFields, Decimal;
    var minutes := text.minutes.value;
    var rest := match text.seconds case None => tail case Some(seconds) => ":" + (seconds + tail);
    if minutes == "" {
      assert minutes + rest == rest;
      NoField(rest, 1);
    } else {
      FieldReads(minutes, rest, 1);
      if text.seconds.Some? {
        assert rest[1..] == text.seconds.value + tail;
        SecondsRead(text.seconds.value, tail);
      } else {
        assert [Decimal(minutes)] + [] == [Decimal(minutes)];
      }
    }
  }

  lemma ClockReads(text: ClockText, tail: string)
    requires ClockOk(text) && Stops(tail)
    ensures ReadFields(WriteClock(text, tail), 0) == Ok((Fields(text), tail))
    ensures WriteClock(text, tail) != "" && IsDigit(WriteClock(text, tail)[0])
  {
    hide ReadFields, Decimal;
    if text.minutes.Some? {
      var minutes := text.minutes.value;
      var rest := minutes + match text.seconds case None => tail case Some(seconds) => ":" + (seconds + tail);
      FieldReads(text.hours, ":" + rest, 0);
      assert (":" + rest)[1..] == rest;
      MinutesRead(text, tail);
    } else {
      FieldReads(text.hours, tail, 0);
      assert [Decimal(text.hours)] + [] == [Decimal(text.hours)];
    }
  }

  lemma FieldsMean(text: ClockText, negated: bool)
    requires ClockShape(text)
    ensures SignedOffset(negated, Fields(text)).Ok? <==> ClockOk(text)
    ensures ClockOk(text) ==>
              SignedOffset(negated, Fields(text)) == Ok(if negated then Magnitude(text) else -Magnitude(text))
  {
    var fields := Fields(text);
    assert Decimal("") == 0;
    hide Decimal;
    assert Field(fields, 0) == Decimal(text.hours);
    assert Field(fields, 1) == Number(text.minutes);
    assert Field(fields, 2) == Number(text.seconds);
  }

  lemma OffsetReads(text: OffsetText, tail: string)
    requires ClockOk(text.clock) && Stops(tail)
    ensures ReadOffset(WriteOffset(text, tail)) == Ok((East(text), tail))
    ensures WriteOffset(text, tail) != "" && !IsLetter(WriteOffset(text, tail)[0]) && WriteOffset(text, tail)[0] != ','
  {
    hide ReadFields, Fields, ClockOk, SignedOffset, WriteClock, Magnitude;
    var clock := WriteClock(text.clock, tail);
    ClockReads(text.clock, tail);
    assert ClockShape(text.clock) by { ClockHasShape(text.clock); }
    FieldsMean(text.clock, text.sign == Minus);
    assert ("+" + clock)[1..] == clock && ("-" + clock)[1..] == clock;
  }

  lemma ClockHasShape(text: ClockText)
    requires ClockOk(text)
    ensures ClockShape(text)
  {
  }

  // ---------- Rules ----------

  lemma NotFound(s: string, c: char)
    requires c !in s
    ensures SplitOnce(s, c) == None
  {
  }

  lemma NumberReads(text: NumberText)
    requires NumberOk(text) && Decimal(text.digits) <= 255
    ensures ParseU8(WriteNumber(text)) == Some(Decimal(text.digits))
    ensures '.' !in WriteNumber(text) && '/' !in WriteNumber(text) && ',' !in WriteNumber(text)
  {
    DigitsLead(text.digits, "");
    assert text.digits + "" == text.digits;
    assert ("+" + text.digits)[1..] == text.digits;
    hide Decimal, LeadingDigits;
  }

  lemma DateReads(text: RuleText)
    requires RuleOk(text)
    ensures var rule := RuleMeaning(text); ParseDate(WriteDate(text)) == Ok((rule.month, rule.week, rule.weekday))
    ensures '/' !in WriteDate(text) && ',' !in WriteDate(text)
  {
    hide WriteNumber, ParseU8, SplitOnce, Decimal;
    NumberReads(text.month);
    NumberReads(text.week);
    NumberReads(text.weekday);
    var month, week, weekday := WriteNumber(text.month), WriteNumber(text.week), WriteNumber(text.weekday);
    FindFirst(month, '.', week + "." + weekday);
    FindFirst(week, '.', weekday);
    NotFound(weekday, '.');
    assert WriteDate(text)[1..] == month + "." + (week + "." + weekday);
    assert Split(weekday, '.') == [weekday];
    assert Split(week + "." + weekday, '.') == [week, weekday];
    assert Split(WriteDate(text)[1..], '.') == [month, week, weekday];
  }

  lemma RuleReads(text: RuleText)
    requires RuleOk(text)
    ensures ParseTransition(WriteRule(text)) == Ok(RuleMeaning(text))
    ensures ',' !in WriteRule(text)
  {
    hide WriteDate, ParseDate, SplitOnce, ReadOffset, WriteOffset, Decimal, ClockOk, East;
    DateReads(text);
    if text.time.Some? {
      FindFirst(WriteDate(text), '/', WriteOffset(text.time.value, ""));
      OffsetReads(text.time.value, "");
      OffsetHasNoComma(text.time.value);
    } else {
      NotFound(WriteDate(text), '/');
    }
  }

  lemma OffsetHasNoComma(text: OffsetText)
    requires ClockOk(text.clock)
    ensures ',' !in WriteOffset(text, "")
  {
    hide Decimal;
  }

  // ---------- Zones ----------

  lemma RulesRead(text: DaylightText, standard: int, offset: int)
    requires DaylightOk(text)
    ensures ParseRules(standard, offset, WriteRules(text))
         == Ok(Zone(standard, Some(Daylight(offset, RuleMeaning(text.start), RuleMeaning(text.end)))))
  {
    hide WriteRule, ParseTransition, SplitOnce, RuleOk, RuleMeaning;
    var rules := WriteRule(text.start) + "," + WriteRule(text.end);
    assert ("," + rules)[1..] == rules;
    RuleReads(text.start);
    RuleReads(text.end);
    FindFirst(WriteRule(text.start), ',', WriteRule(text.end));
  }

  lemma DaylightReads(text: DaylightText, standard: int)
    requires DaylightOk(text)
    ensures ParseDaylight(standard, WriteDaylight(text)) == Ok(Zone(standard, Some(DaylightMeaning(text, standard))))
  {
    hide ReadName, ReadOffset, ParseRules, WriteName, WriteOffset, WriteRules, NameOk, ClockOk, RuleOk, East;
    hide RuleMeaning;
    var rules := WriteRules(text);
    assert rules != "" && rules[0] == ',' by { RulesText(text); }
    if text.offset.Some? {
      OffsetReads(text.offset.value, rules);
      NameReads(text.name, WriteOffset(text.offset.value, rules));
      RulesRead(text, standard, East(text.offset.value));
    } else {
      NameReads(text.name, rules);
      RulesRead(text, standard, standard + 3600);
    }
  }

  lemma RulesText(text: DaylightText)
    ensures WriteRules(text) != "" && WriteRules(text)[0] == ','
  {
  }

  lemma NameStarts(text: NameText, tail: string)
    requires NameOk(text)
    ensures var s := WriteName(text, tail); s != "" && (IsLetter(s[0]) || s[0] == '<')
  {
  }

  lemma DaylightStarts(text: DaylightText)
    requires DaylightOk(text)
    ensures WriteDaylight(text) != "" && Stops(WriteDaylight(text))
  {
    hide WriteName, WriteOffset, WriteRules, ClockOk, RuleOk;
    var rules := WriteRules(text);
    NameStarts(text.name, if text.offset.Some? then WriteOffset(text.offset.value, rules) else rules);
  }

  /** The spec without the spaces around it. */
  lemma ZoneReads(text: ZoneText)
    requires ZoneOk(text)
    ensures WriteZone(text) != "" && ParseSpec(WriteZone(text)) == Ok(Meaning(text))
  {
    hide ReadName, ReadOffset, ParseDaylight, WriteName, WriteOffset, WriteDaylight, NameOk, ClockOk, DaylightOk, East;
    hide DaylightMeaning;
    var tail := if text.dst.Some? then WriteDaylight(text.dst.value) else "";
    if text.dst.Some? {
      DaylightStarts(text.dst.value);
    }
    NameStarts(text.name, if text.offset.Some? then WriteOffset(text.offset.value, tail) else tail);
    if text.offset.Some? {
      OffsetReads(text.offset.value, tail);
      NameReads(text.name, WriteOffset(text.offset.value, tail));
      if text.dst.Some? {
        DaylightReads(text.dst.value, East(text.offset.value));
      }
    } else {
      NameReads(text.name, tail);
    }
  }

  // ---------- Spaces around the zone ----------

  predicate Ends(s: string) {
    s != "" && !IsSpace(s[|s| - 1])
  }

  lemma EndsAfter(head: string, tail: string)
    requires Ends(tail)
    ensures Ends(head + tail)
  {
  }

  lemma DigitsEnd(digits: string, tail: string)
    requires AllDigits(digits) && (digits != "" || Ends(tail)) && (tail == "" || Ends(tail))
    ensures Ends(digits + tail)
  {
    if tail == "" {
      assert digits + tail == digits;
    } else {
      EndsAfter(digits, tail);
    }
  }

  lemma ClockEnds(text: ClockText, tail: string)
    requires ClockShape(text) && (tail == "" || Ends(tail))
    ensures Ends(WriteClock(text, tail))
  {
    hide Ends;
    if text.minutes.Some? {
      var rest := match text.seconds case None => tail case Some(seconds) => ":" + (seconds + tail);
      if text.seconds.Some? {
        ColonEnds(text.seconds.value, tail);
      }
      ColonEnds(text.minutes.value, rest);
      EndsAfter(text.hours, ":" + (text.minutes.value + rest));
    } else {
      DigitsEnd(text.hours, tail);
    }
  }

  lemma ColonEnds(digits: string, tail: string)
    requires AllDigits(digits) && (tail == "" || Ends(tail))
    ensures Ends(":" + (digits + tail))
  {
    if digits == "" && tail == "" {
      assert ":" + (digits + tail) == ":";
    } else {
      DigitsEnd(digits, tail);
      EndsAfter(":", digits + tail);
    }
  }

  lemma OffsetEnds(text: OffsetText, tail: string)
    requires ClockShape(text.clock) && (tail == "" || Ends(tail))
    ensures Ends(WriteOffset(text, tail))
  {
    hide Ends, WriteClock;
    var clock := WriteClock(text.clock, tail);
    ClockEnds(text.clock, tail);
    EndsAfter("+", clock);
    EndsAfter("-", clock);
  }

  lemma NameEnds(text: NameText, tail: string)
    requires NameOk(text) && (tail == "" || Ends(tail))
    ensures Ends(WriteName(text, tail))
  {
  }

  lemma RuleEnds(text: RuleText)
    requires RuleOk(text)
    ensures Ends(WriteRule(text))
  {
    hide Decimal, WriteOffset, East;
    if text.time.Some? {
      OffsetEnds(text.time.value, "");
    } else {
      var weekday := WriteNumber(text.weekday);
      assert weekday != "" && IsDigit(weekday[|weekday| - 1]);
    }
  }

  lemma ZoneEnds(text: ZoneText)
    requires ZoneOk(text)
    ensures Ends(WriteZone(text))
  {
    hide WriteName, WriteOffset, NameOk, RuleOk, WriteRule, Decimal;
    if text.dst.Some? {
      var dst := text.dst.value;
      RuleEnds(dst.end);
      assert Ends(WriteRules(dst));
      if dst.offset.Some? {
        OffsetEnds(dst.offset.value, WriteRules(dst));
        NameEnds(dst.name, WriteOffset(dst.offset.value, WriteRules(dst)));
      } else {
        NameEnds(dst.name, WriteRules(dst));
      }
    }
    var tail := if text.dst.Some? then WriteDaylight(text.dst.value) else "";
    if text.offset.Some? {
      OffsetEnds(text.offset.value, tail);
      NameEnds(text.name, WriteOffset(text.offset.value, tail));
    } else {
      NameEnds(text.name, tail);
    }
  }

  lemma ZoneStarts(text: ZoneText)
    requires ZoneOk(text)
    ensures WriteZone(text) != "" && !IsSpace(WriteZone(text)[0])
  {
    hide WriteName, WriteOffset, WriteDaylight;
    var tail := if text.dst.Some? then WriteDaylight(text.dst.value) else "";
    NameStarts(text.name, if text.offset.Some? then WriteOffset(text.offset.value, tail) else tail);
  }

  lemma {:induction false} TrimsStart(before: string, s: string)
    requires AllSpaces(before) && s != "" && !IsSpace(s[0])
    ensures TrimStart(before + s) == s
    decreases |before|
  {
    if before == "" {
      assert before + s == s;
    } else {
      TrimsStart(before[1..], s);
      assert (before + s)[1..] == before[1..] + s;
    }
  }

  lemma {:induction false} TrimsEnd(s: string, after: string)
    requires AllSpaces(after) && Ends(s)
    ensures TrimEnd(s + after) == s
    decreases |after|
  {
    if after == "" {
      assert s + after == s;
    } else {
      var shorter := after[..|after| - 1];
      TrimsEnd(s, shorter);
      assert (s + after)[..|s + after| - 1] == s + shorter;
    }
  }

  /** However a zone is written, it is read as the zone that the text means. */
  lemma ParseReads(text: ZoneText)
    requires ZoneOk(text)
    ensures Parse(Write(text)) == Ok(Meaning(text))
  {
    hide TrimStart, TrimEnd, WriteZone, ParseSpec, Meaning;
    ZoneReads(text);
    ZoneStarts(text);
    ZoneEnds(text);
    var zone := WriteZone(text);
    assert Write(text) == text.before + (zone + text.after);
    TrimsStart(text.before, zone + text.after);
    TrimsEnd(zone, text.after);
  }

  // ---------- Nothing else is read ----------

  lemma NameSpelled(spec: string) returns (text: NameText)
    requires ReadName(spec).Ok?
    ensures NameOk(text) && spec == WriteName(text, ReadName(spec).value)
  {
    if spec[0] == '<' {
      var at := Find(spec[1..], '>').value;
      text := Quoted(spec[1..][..at]);
      assert spec == "<" + (spec[1..][..at] + ">" + spec[1..][at + 1..]);
    } else {
      var n := LeadingLetters(spec);
      LeadingIsLetters(spec);
      text := Letters(spec[..n]);
      assert spec == spec[..n] + spec[n..];
    }
  }

  /** One field and what the reading makes of it. */
  lemma FieldSpelled(rest: string, index: nat) returns (digits: string, after: string)
    requires index <= 2 && ReadFields(rest, index).Ok?
    ensures rest == digits + after && AllDigits(digits) && (index == 0 ==> digits != "")
    ensures digits == "" ==> ReadFields(rest, index) == Ok(([], after))
    ensures var goesOn := index < 2 && after != "" && after[0] == ':';
            && (digits != "" && !goesOn ==> ReadFields(rest, index) == Ok(([Decimal(digits)], after)))
            && (digits != "" && goesOn ==>
                  && after == ":" + after[1..] && ReadFields(after[1..], index + 1).Ok?
                  && ReadFields(rest, index) == Prepend([Decimal(digits)], ReadFields(after[1..], index + 1)))
  {
    hide Decimal, LeadingDigits;
    digits, after := rest[..LeadingDigits(rest)], rest[LeadingDigits(rest)..];
    assert rest == digits + after;
    assert digits == "" ==> after == rest;
  }

  /** The part of a clock after its first colon. */
  lemma MinutesSpelled(rest: string, hours: string) returns (text: ClockText)
    requires ReadFields(rest, 1).Ok? && hours != "" && AllDigits(hours)
    ensures ClockShape(text) && text.hours == hours
    ensures var (fields, tail) := ReadFields(rest, 1).value;
            fields == MinuteFields(text) && hours + (":" + rest) == WriteClock(text, tail)
  {
    hide ReadFields, Decimal;
    var minutes, after := FieldSpelled(rest, 1);
    if minutes != "" && after != "" && after[0] == ':' {
      var seconds, tail := FieldSpelled(after[1..], 2);
      text := ClockText(hours, Some(minutes), Some(seconds));
    } else {
      text := ClockText(hours, Some(minutes), None);
      assert minutes != "" ==> [Decimal(minutes)] + [] == [Decimal(minutes)];
    }
  }

  lemma ClockSpelled(rest: string) returns (text: ClockText)
    requires ReadFields(rest, 0).Ok?
    ensures ClockShape(text)
    ensures var (fields, tail) := ReadFields(rest, 0).value; fields == Fields(text) && rest == WriteClock(text, tail)
  {
    hide ReadFields, Decimal, MinuteFields;
    var hours, after := FieldSpelled(rest, 0);
    if after != "" && after[0] == ':' {
      text := MinutesSpelled(after[1..], hours);
    } else {
      text := ClockText(hours, None, None);
      NoMinutes(text);
    }
  }

  lemma NoMinutes(text: ClockText)
    requires ClockShape(text) && text.minutes.None?
    ensures Fields(text) == [Decimal(text.hours)]
  {
  }

  lemma OffsetSpelled(spec: string) returns (text: OffsetText)
    requires ReadOffset(spec).Ok?
    ensures ClockOk(text.clock)
    ensures var (offset, tail) := ReadOffset(spec).value; offset == East(text) && spec == WriteOffset(text, tail)
  {
    hide ReadFields, SignedOffset, WriteClock, Fields, ClockOk;
    var negated := spec != "" && spec[0] == '-';
    var plus := spec != "" && spec[0] == '+';
    var unsigned := if negated || plus then spec[1..] else spec;
    var clock := ClockSpelled(unsigned);
    text := OffsetText(if negated then Minus else if plus then Plus else Unsigned, clock);
    FieldsMean(clock, negated);
    assert negated ==> spec == "-" + spec[1..];
    assert plus ==> spec == "+" + spec[1..];
  }

  lemma NumberSpelled(s: string) returns (text: NumberText)
    requires ParseU8(s).Some?
    ensures NumberOk(text) && s == WriteNumber(text) && ParseU8(s).value == Decimal(text.digits)
  {
    var plus := s != "" && s[0] == '+';
    var digits := if plus then s[1..] else s;
    assert plus ==> s == "+" + s[1..];
    assert digits[..LeadingDigits(digits)] == digits;
    text := NumberText(plus, digits);
  }

  lemma SplitSpelled(s: string, c: char)
    ensures SplitOnce(s, c).Some? ==> s == SplitOnce(s, c).value.0 + [c] + SplitOnce(s, c).value.1
    ensures SplitOnce(s, c).None? ==> Split(s, c) == [s]
    ensures SplitOnce(s, c).Some? ==> Split(s, c) == [SplitOnce(s, c).value.0] + Split(SplitOnce(s, c).value.1, c)
  {
  }

  /** Three fields between dots. */
  lemma ThreeParts(s: string)
    requires |Split(s, '.')| == 3
    ensures var parts := Split(s, '.'); s == parts[0] + "." + (parts[1] + "." + parts[2])
  {
    hide SplitOnce, Split;
    SplitSpelled(s, '.');
    var rest := SplitOnce(s, '.').value.1;
    SplitSpelled(rest, '.');
    SplitSpelled(SplitOnce(rest, '.').value.1, '.');
  }

  lemma DateSpelled(date: string) returns (month: NumberText, week: NumberText, weekday: NumberText)
    requires ParseDate(date).Ok?
    ensures NumberOk(month) && NumberOk(week) && NumberOk(weekday)
    ensures ParseDate(date).value == (Decimal(month.digits), Decimal(week.digits), Decimal(weekday.digits))
    ensures date == WriteDate(RuleText(month, week, weekday, None))
  {
    hide ParseU8, Split, WriteNumber, Decimal;
    var parts := Split(date[1..], '.');
    ThreeParts(date[1..]);
    month := NumberSpelled(parts[0]);
    week := NumberSpelled(parts[1]);
    weekday := NumberSpelled(parts[2]);
    assert date == "M" + date[1..];
  }

  lemma RuleSpelled(spec: string) returns (text: RuleText)
    requires ParseTransition(spec).Ok?
    ensures RuleOk(text) && spec == WriteRule(text) && ParseTransition(spec).value == RuleMeaning(text)
  {
    hide ParseDate, SplitOnce, ReadOffset, WriteOffset, Decimal, ClockOk, East, WriteNumber;
    SplitSpelled(spec, '/');
    RulesAreValid(spec);
    match SplitOnce(spec, '/') {
      case None =>
        var month, week, weekday := DateSpelled(spec);
        text := RuleText(month, week, weekday, None);
      case Some((date, time)) =>
        var month, week, weekday := DateSpelled(date);
        var clock := OffsetSpelled(time);
        text := RuleText(month, week, weekday, Some(clock));
    }
  }

  lemma RulesSpelled(standard: int, offset: int, rest: string) returns (start: RuleText, end: RuleText)
    requires ParseRules(standard, offset, rest).Ok?
    ensures RuleOk(start) && RuleOk(end) && rest == "," + (WriteRule(start) + "," + WriteRule(end))
    ensures ParseRules(standard, offset, rest).value
         == Zone(standard, Some(Daylight(offset, RuleMeaning(start), RuleMeaning(end))))
  {
    hide ParseTransition, SplitOnce, WriteRule, RuleOk, RuleMeaning;
    SplitSpelled(rest[1..], ',');
    var (first, second) := SplitOnce(rest[1..], ',').value;
    start := RuleSpelled(first);
    end := RuleSpelled(second);
    assert rest == "," + rest[1..];
  }

  lemma DaylightSpelled(standard: int, spec: string) returns (text: DaylightText)
    requires ParseDaylight(standard, spec).Ok?
    ensures DaylightOk(text) && spec == WriteDaylight(text)
    ensures ParseDaylight(standard, spec).value == Zone(standard, Some(DaylightMeaning(text, standard)))
  {
    hide ReadName, ReadOffset, ParseRules, WriteName, WriteOffset, WriteRule, NameOk, ClockOk, RuleOk;
    hide East, RuleMeaning;
    var name := NameSpelled(spec);
    var rest := ReadName(spec).value;
    if rest != "" && rest[0] == ',' {
      var start, end := RulesSpelled(standard, standard + 3600, rest);
      text := DaylightText(name, None, start, end);
    } else {
      var offset := OffsetSpelled(rest);
      var (dstOffset, rules) := ReadOffset(rest).value;
      var start, end := RulesSpelled(standard, dstOffset, rules);
      text := DaylightText(name, Some(offset), start, end);
    }
  }

  lemma ZoneSpelled(spec: string) returns (text: ZoneText)
    requires ParseSpec(spec).Ok?
    ensures ZoneOk(text) && text.before == "" && text.after == ""
    ensures spec == WriteZone(text) && ParseSpec(spec).value == Meaning(text)
  {
    hide ReadName, ReadOffset, ParseDaylight, WriteName, WriteOffset, WriteDaylight, NameOk, ClockOk, DaylightOk, East;
    hide DaylightMeaning;
    var name := NameSpelled(spec);
    var rest := ReadName(spec).value;
    if rest == "" {
      text := ZoneText("", name, None, None, "");
    } else {
      var offset := OffsetSpelled(rest);
      var (standard, tail) := ReadOffset(rest).value;
      if tail == "" {
        text := ZoneText("", name, Some(offset), None, "");
      } else {
        var dst := DaylightSpelled(standard, tail);
        text := ZoneText("", name, Some(offset), Some(dst), "");
      }
    }
  }

  lemma {:induction false} StartSpelled(s: string) returns (before: string)
    ensures AllSpaces(before) && s == before + TrimStart(s)
    decreases |s|
  {
    before := "";
    if s != "" && IsSpace(s[0]) {
      var more := StartSpelled(s[1..]);
      before := [s[0]] + more;
      assert s == [s[0]] + s[1..];
    }
  }

  lemma {:induction false} EndSpelled(s: string) returns (after: string)
    ensures AllSpaces(after) && s == TrimEnd(s) + after
    decreases |s|
  {
    after := "";
    if s != "" && IsSpace(s[|s| - 1]) {
      var less := EndSpelled(s[..|s| - 1]);
      after := less + [s[|s| - 1]];
      assert s == s[..|s| - 1] + [s[|s| - 1]];
    }
  }

  /** Whatever is accepted is written in one of these ways. */
  lemma AcceptedIsWritten(s: string) returns (text: ZoneText)
    requires Parse(s).Ok?
    ensures ZoneOk(text) && s == Write(text) && Parse(s).value == Meaning(text)
  {
    hide ParseSpec, TrimStart, TrimEnd, WriteZone, NameOk, ClockOk, DaylightOk;
    var before := StartSpelled(s);
    var after := EndSpelled(TrimStart(s));
    var spec := TrimEnd(TrimStart(s));
    var zone := ZoneSpelled(spec);
    text := zone.(before := before, after := after);
    SpacesApart(zone, before, after);
    assert s == before + (spec + after);
  }

  lemma SpacesApart(text: ZoneText, before: string, after: string)
    requires ZoneOk(text) && AllSpaces(before) && AllSpaces(after)
    ensures var other := text.(before := before, after := after);
            ZoneOk(other) && WriteZone(other) == WriteZone(text) && Meaning(other) == Meaning(text)
  {
  }

  ghost predicate Spells(text: ZoneText, s: string, zone: Zone) {
    ZoneOk(text) && Write(text) == s && Meaning(text) == zone
  }

  /** A string is read as a zone if and only if it is one of the ways to write that zone. */
  lemma ParsesIff(s: string, zone: Zone)
    ensures Parse(s) == Ok(zone) <==> exists text :: Spells(text, s, zone)
  {
    hide Parse, Write, ZoneOk, Meaning;
    if Parse(s) == Ok(zone) {
      var text := AcceptedIsWritten(s);
      assert Spells(text, s, zone);
    }
    if text :| Spells(text, s, zone) {
      ParseReads(text);
    }
  }

  // ---------- Every valid zone can be written ----------

  function Digit(n: nat): (c: char)
    requires n < 10
    ensures IsDigit(c) && c as int - '0' as int == n
  {
    ('0' as int + n) as char
  }

  /** The plain decimal digits of `n`. */
  function Digits(n: nat): (s: string)
    requires n < 100
    ensures s != "" && AllDigits(s) && Decimal(s) == n
  {
    if n < 10 then
      assert [Digit(n)][..0] == "";
      [Digit(n)]
    else
      var s := [Digit(n / 10), Digit(n % 10)];
      assert s[..1] == [Digit(n / 10)] && s[..1][..0] == "";
      assert Decimal(s[..1]) == n / 10;
      s
  }

  function ClockFor(magnitude: nat): ClockText
    requires magnitude <= MAX_OFFSET
  {
    ClockText(Digits(magnitude / 3600), Some(Digits(magnitude % 3600 / 60)), Some(Digits(magnitude % 60)))
  }

  function OffsetFor(offset: int): OffsetText
    requires -MAX_OFFSET <= offset <= MAX_OFFSET
  {
    if offset > 0 then OffsetText(Minus, ClockFor(offset)) else OffsetText(Unsigned, ClockFor(-offset))
  }

  function RuleFor(rule: Rule): RuleText
    requires ValidRule(rule)
  {
    RuleText(NumberText(false, Digits(rule.month)), NumberText(false, Digits(rule.week)),
             NumberText(false, Digits(rule.weekday)), Some(OffsetFor(-rule.seconds)))
  }

  function TextFor(zone: Zone): ZoneText
    requires ValidZone(zone)
  {
    ZoneText("", Letters("STD"), Some(OffsetFor(zone.stdOffset)),
             match zone.dst
             case None => None
             case Some(dst) =>
               Some(DaylightText(Letters("DST"),
                                 if dst.offset == zone.stdOffset + 3600 then None else Some(OffsetFor(dst.offset)),
                                 RuleFor(dst.start), RuleFor(dst.end))), "")
  }

  lemma ClockForMeans(magnitude: nat)
    requires magnitude <= MAX_OFFSET
    ensures ClockOk(ClockFor(magnitude)) && Magnitude(ClockFor(magnitude)) == magnitude
  {
    hide Decimal, Digits;
  }

  lemma OffsetForMeans(offset: int)
    requires -MAX_OFFSET <= offset <= MAX_OFFSET
    ensures ClockOk(OffsetFor(offset).clock) && East(OffsetFor(offset)) == offset
  {
    hide ClockOk, ClockFor, Magnitude;
    ClockForMeans(if offset > 0 then offset else -offset);
  }

  lemma RuleForMeans(rule: Rule)
    requires ValidRule(rule)
    ensures RuleOk(RuleFor(rule)) && RuleMeaning(RuleFor(rule)) == rule
  {
    hide ClockOk, OffsetFor, East, Decimal, Digits;
    OffsetForMeans(-rule.seconds);
  }

  /** So the zones that can be stated are exactly the valid ones; `ParsedZonesAreValid` is the other half. */
  lemma EveryValidZoneIsWritten(zone: Zone)
    requires ValidZone(zone)
    ensures Spells(TextFor(zone), Write(TextFor(zone)), zone) && Parse(Write(TextFor(zone))) == Ok(zone)
  {
    hide ClockOk, OffsetFor, East, RuleOk, RuleFor, RuleMeaning, Parse, Write;
    OffsetForMeans(zone.stdOffset);
    if zone.dst.Some? {
      var dst := zone.dst.value;
      RuleForMeans(dst.start);
      RuleForMeans(dst.end);
      if dst.offset != zone.stdOffset + 3600 {
        OffsetForMeans(dst.offset);
      }
    }
    ParseReads(TextFor(zone));
  }
}
