/**
 The log throttle: crates/fah-common/src/throttle.rs. Calls of `note` interleave in any way: each
 counts itself, loads the stamp of the last line, and then either gives up or tries to replace that
 stamp by its own with a weak compare-exchange, which may also fail for no reason. The operations
 are relaxed: an exchange that succeeds acts on the latest stamp, but a load, or an exchange that
 fails, may see any stamp there has been.
 */
module LogThrottle {
  type Id = nat

  /** A call of `note`: counted, or in its loop with the last stamp it saw. */
  datatype Call = Counted(total: nat, stamp: nat) | Trying(total: nat, stamp: nat, last: nat)

  /** A line that was let through. */
  datatype Line = Line(stamp: nat, total: nat)

  /** The interval, the two counters, the calls in flight, the lines let through and the stamps dropped. */
  datatype State = State(
    interval: nat, last: nat, total: nat, calls: map<Id, Call>, lines: seq<Line>, dropped: seq<nat>)

  datatype Step =
    | Count(id: Id, stamp: nat)
    | Load(id: Id, seen: nat)
    | GiveUp(id: Id)
    | Exchange(id: Id)
    | Fail(id: Id, seen: nat)

  predicate Init(s: State) {
    s.last == 0 && s.total == 0 && s.calls == map[] && s.lines == [] && s.dropped == []
  }

  /** Subtraction that stops at zero. */
  function SaturatingSub(a: nat, b: nat): nat {
    if a < b then 0 else a - b
  }

  predicate TooSoon(interval: nat, call: Call)
    requires call.Trying?
  {
    call.last != 0 && SaturatingSub(call.stamp, call.last) < interval
  }

  /** What `last_millis` has held at some time: nothing, or the stamp of a line. */
  predicate WasLast(s: State, stamp: nat) {
    stamp == 0 || exists i | 0 <= i < |s.lines| :: s.lines[i].stamp == stamp
  }

  /** A stamp is a number of milliseconds, plus one: never zero, and clocks of two calls may be out of order. */
  predicate Enabled(s: State, step: Step) {
    match step
    case Count(id, stamp) => id !in s.calls && stamp > 0
    case Load(id, seen) => id in s.calls && s.calls[id].Counted? && WasLast(s, seen)
    case GiveUp(id) => id in s.calls && s.calls[id].Trying? && TooSoon(s.interval, s.calls[id])
    case Exchange(id) =>
      id in s.calls && s.calls[id].Trying? && !TooSoon(s.interval, s.calls[id]) && s.last == s.calls[id].last
    case Fail(id, seen) =>
      id in s.calls && s.calls[id].Trying? && !TooSoon(s.interval, s.calls[id]) && WasLast(s, seen)
  }

  function Apply(s: State, step: Step): State
    requires Enabled(s, step)
  {
    match step
    case Count(id, stamp) => s.(total := s.total + 1, calls := s.calls[id := Counted(s.total + 1, stamp)])
    case Load(id, seen) => s.(calls := s.calls[id := Trying(s.calls[id].total, s.calls[id].stamp, seen)])
    case GiveUp(id) => s.(calls := s.calls - {id}, dropped := s.dropped + [s.calls[id].stamp])
    case Exchange(id) =>
      s.(last := s.calls[id].stamp, calls := s.calls - {id},
         lines := s.lines + [Line(s.calls[id].stamp, s.calls[id].total)])
    case Fail(id, seen) => s.(calls := s.calls[id := s.calls[id].(last := seen)])
  }

  // ---------- Invariants ----------

  /** Each line comes a whole interval after the one before, and `last` is the stamp of the latest. */
  predicate Spaced(s: State) {
    && (s.lines == [] <==> s.last == 0)
    && (s.lines != [] ==> s.last == s.lines[|s.lines| - 1].stamp)
    && (forall id | id in s.calls :: s.calls[id].stamp > 0)
    && (s.interval > 0 ==>
          forall i | 0 <= i < |s.lines| - 1 :: s.lines[i].stamp + s.interval <= s.lines[i + 1].stamp)
  }

  /** Every call counted is in flight, let through or dropped. */
  predicate Conserved(s: State) {
    s.total == |s.calls| + |s.lines| + |s.dropped|
  }

  /** A call is known by its number: no two calls, let through or in flight, share one. */
  ghost predicate Numbered(s: State) {
    && (forall id | id in s.calls :: 0 < s.calls[id].total <= s.total)
    && (forall i | 0 <= i < |s.lines| :: 0 < s.lines[i].total <= s.total)
    && (forall a, b | a in s.calls && b in s.calls && a != b :: s.calls[a].total != s.calls[b].total)
    && (forall id, i | id in s.calls && 0 <= i < |s.lines| :: s.calls[id].total != s.lines[i].total)
    && (forall i, j | 0 <= i < j < |s.lines| :: s.lines[i].total != s.lines[j].total)
  }

  /** Some line was let through less than an interval before `stamp`, or after it. */
  ghost predicate Excused(s: State, stamp: nat) {
    exists i | 0 <= i < |s.lines| :: stamp < s.lines[i].stamp + s.interval
  }

  /** What a call saw as the last stamp was the stamp of a line. */
  ghost predicate Justified(s: State) {
    && WasLast(s, s.last)
    && (forall id | id in s.calls && s.calls[id].Trying? :: WasLast(s, s.calls[id].last))
    && (forall k | 0 <= k < |s.dropped| :: Excused(s, s.dropped[k]))
  }

  ghost predicate Inv(s: State) {
    Spaced(s) && Conserved(s) && Numbered(s) && Justified(s)
  }

  lemma SpacedKept(s: State, step: Step)
    requires Spaced(s) && Enabled(s, step)
    ensures Spaced(Apply(s, step))
  {
  }

  /** Only the step that counts a call gives out a number. */
  lemma NumbersStay(s: State, step: Step)
    requires Enabled(s, step) && !step.Count?
    ensures var s' := Apply(s, step);
            && s'.total == s.total
            && forall id | id in s'.calls :: id in s.calls && s'.calls[id].total == s.calls[id].total
  {
  }

  lemma CountNumbered(s: State, step: Step)
    requires Numbered(s) && Enabled(s, step) && step.Count?
    ensures Numbered(Apply(s, step))
  {
    var s' := Apply(s, step);
    assert forall id | id in s'.calls && id != step.id :: id in s.calls && s'.calls[id] == s.calls[id];
    assert s'.calls[step.id].total == s.total + 1;
    assert s'.lines == s.lines && s'.total == s.total + 1;
    hide Apply;
  }

  lemma NumberedKept(s: State, step: Step)
    requires Numbered(s) && Enabled(s, step)
    ensures Numbered(Apply(s, step))
  {
    if step.Count? {
      CountNumbered(s, step);
    } else {
      var s' := Apply(s, step);
      NumbersStay(s, step);
      if step.Exchange? {
        assert step.id !in s'.calls;
        assert s'.lines[..|s.lines|] == s.lines;
      }
      hide Apply;
    }
  }

  lemma ConservedKept(s: State, step: Step)
    requires Conserved(s) && Enabled(s, step)
    ensures Conserved(Apply(s, step))
  {
    if step.GiveUp? || step.Exchange? {
      assert (s.calls - {step.id}).Keys == s.calls.Keys - {step.id};
    } else if step.Load? || step.Fail? {
      assert Apply(s, step).calls.Keys == s.calls.Keys;
    }
  }

  lemma JustifiedKept(s: State, step: Step)
    requires Justified(s) && Enabled(s, step)
    ensures Justified(Apply(s, step))
  {
    var s' := Apply(s, step);
    assert forall i | 0 <= i < |s.lines| :: s'.lines[i] == s.lines[i];
    if step.Exchange? {
      assert s'.lines[|s.lines|].stamp == s'.last;
    }
    forall k | 0 <= k < |s'.dropped|
      ensures Excused(s', s'.dropped[k])
    {
      if k < |s.dropped| {
        var i :| 0 <= i < |s.lines| && s.dropped[k] < s.lines[i].stamp + s.interval;
        assert s'.lines[i].stamp + s'.interval > s'.dropped[k];
      } else {
        var call := s.calls[step.id];
        var i :| 0 <= i < |s.lines| && s.lines[i].stamp == call.last;
        assert s'.lines[i].stamp + s'.interval > s'.dropped[k];
      }
    }
  }

  // ---------- Runs ----------

  ghost predicate Run(states: seq<State>, steps: seq<Step>) {
    && |states| == |steps| + 1 && Init(states[0])
    && forall i | 0 <= i < |steps| :: Enabled(states[i], steps[i]) && states[i + 1] == Apply(states[i], steps[i])
  }

  lemma {:induction false} RunKeepsInv(states: seq<State>, steps: seq<Step>, n: nat)
    requires Run(states, steps) && n <= |steps|
    ensures Inv(states[n]) && states[n].interval == states[0].interval
  {
    if n > 0 {
      hide Spaced, Conserved, Numbered, Justified;
      var s, step := states[n - 1], steps[n - 1];
      RunKeepsInv(states, steps, n - 1);
      SpacedKept(s, step);
      ConservedKept(s, step);
      NumberedKept(s, step);
      JustifiedKept(s, step);
    }
  }

  lemma {:induction false} LinesApart(s: State, i: nat, j: nat)
    requires Spaced(s) && s.interval > 0 && i <= j < |s.lines|
    ensures s.lines[i].stamp + (j - i) * s.interval <= s.lines[j].stamp
  {
    if i < j {
      LinesApart(s, i, j - 1);
      assert (j - i) * s.interval == (j - 1 - i) * s.interval + s.interval;
    }
  }

  /**
   Whatever the interleaving, the clocks and the spurious failures, a span of `length`
   milliseconds holds at most one line more than the whole intervals that fit into it.
   */
  lemma LinesAreThrottled(states: seq<State>, steps: seq<Step>, n: nat, i: nat, j: nat, length: nat)
    requires Run(states, steps) && n <= |steps| && states[n].interval > 0
    requires i <= j < |states[n].lines| && states[n].lines[j].stamp - states[n].lines[i].stamp <= length
    ensures j - i + 1 <= length / states[n].interval + 1
  {
    RunKeepsInv(states, steps, n);
    var s := states[n];
    LinesApart(s, i, j);
    FitsInto(j - i, s.interval, length);
  }

  lemma Grows(a: nat, b: nat, scale: nat)
    ensures a <= b ==> a * scale <= b * scale
  {
    if a <= b {
      assert (b - a) * scale >= 0;
    }
  }

  lemma FitsInto(k: nat, interval: nat, length: nat)
    requires interval > 0 && k * interval <= length
    ensures k <= length / interval
  {
    var whole := length / interval;
    assert length < (whole + 1) * interval;
    Grows(whole + 1, k, interval);
  }

  /**
   Once no call is in flight, every call was either let through with a number of its own or dropped,
   and a call is dropped only because of a line less than an interval before it, or any time after it.
   */
  lemma EveryCallIsAccountedFor(states: seq<State>, steps: seq<Step>, n: nat)
    requires Run(states, steps) && n <= |steps| && states[n].calls == map[]
    ensures var s := states[n];
            && s.total == |s.lines| + |s.dropped|
            && (forall i, j | 0 <= i < j < |s.lines| :: s.lines[i].total != s.lines[j].total)
            && (forall i | 0 <= i < |s.lines| :: 0 < s.lines[i].total <= s.total)
            && (forall k | 0 <= k < |s.dropped| :: Excused(s, s.dropped[k]))
            && (s.total > 0 ==> s.lines != [])
  {
    RunKeepsInv(states, steps, n);
    var s := states[n];
    assert |s.dropped| > 0 ==> Excused(s, s.dropped[0]);
  }

  /** Without an interval nothing is dropped, and then lines need not come in the order of their stamps. */
  lemma {:induction false} NoIntervalNoDrops(states: seq<State>, steps: seq<Step>, n: nat)
    requires Run(states, steps) && n <= |steps| && states[0].interval == 0
    ensures states[n].interval == 0 && states[n].dropped == []
  {
    if n > 0 {
      NoIntervalNoDrops(states, steps, n - 1);
      assert states[n] == Apply(states[n - 1], steps[n - 1]);
    }
  }
}
