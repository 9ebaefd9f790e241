/**
 The gauge of open connections: crates/fah-common/src/connections.rs. Two counters, `open` and
 `peak`, moved by single atomic operations that may interleave in any way: a connection opens with
 an addition and then a maximum, closes with a subtraction, and the peak is taken with an exchange,
 a load and a maximum. The operations are relaxed: those that write act on the latest value, but the
 plain load in `take_peak` may see any value that `open` has had so far.
 */
module ConnectionGauge {
  type Id = nat

  /** A connection whose `enter` is between its two operations, or whose guard is alive. */
  datatype Connection = Entering(level: int) | Held

  /** A `take_peak` in flight: `taken` is what it will answer, and `since` how many levels preceded it. */
  datatype Taker = Swapped(taken: int, since: nat) | Loaded(taken: int, since: nat, seen: int)

  /** A peak that was reported, and how many levels had been reached when it was taken. */
  datatype Report = Report(peak: int, since: nat)

  /**
   The counters, the calls in flight, and what has happened: the values `open` has had, the levels
   it has risen to and the peaks reported.
   */
  datatype State = State(
    open: int, peak: int,
    connections: map<Id, Connection>, takers: map<Id, Taker>,
    opens: set<int>, levels: seq<int>, reports: seq<Report>)

  datatype Step =
    | Add(id: Id)
    | Raise(id: Id)
    | Close(id: Id)
    | Swap(id: Id)
    | Load(id: Id, seen: int)
    | Restore(id: Id)

  const INIT := State(0, 0, map[], map[], {0}, [], [])

  function Max(a: int, b: int): int {
    if a < b then b else a
  }

  predicate Enabled(s: State, step: Step) {
    match step
    case Add(id) => id !in s.connections
    case Raise(id) => id in s.connections && s.connections[id].Entering?
    case Close(id) => id in s.connections && s.connections[id].Held?
    case Swap(id) => id !in s.takers
    case Load(id, seen) => id in s.takers && s.takers[id].Swapped? && seen in s.opens
    case Restore(id) => id in s.takers && s.takers[id].Loaded?
  }

  function Apply(s: State, step: Step): State
    requires Enabled(s, step)
  {
    match step
    case Add(id) =>
      s.(open := s.open + 1, opens := s.opens + {s.open + 1},
         connections := s.connections[id := Entering(s.open + 1)], levels := s.levels + [s.open + 1])
    case Raise(id) =>
      s.(peak := Max(s.peak, s.connections[id].level), connections := s.connections[id := Held])
    case Close(id) => s.(open := s.open - 1, opens := s.opens + {s.open - 1}, connections := s.connections - {id})
    case Swap(id) => s.(peak := 0, takers := s.takers[id := Swapped(s.peak, |s.levels|)])
    case Load(id, seen) => s.(takers := s.takers[id := Loaded(s.takers[id].taken, s.takers[id].since, seen)])
    case Restore(id) =>
      s.(peak := Max(s.peak, s.takers[id].seen), takers := s.takers - {id},
         reports := s.reports + [Report(s.takers[id].taken, s.takers[id].since)])
  }

  // ---------- Invariants ----------

  /** The count is the connections that have been counted: no subtraction can go below zero. */
  predicate Counts(s: State) {
    s.open == |s.connections|
  }

  /** The peak is at least what is open, or someone is about to see to it. */
  ghost predicate PeakHolds(s: State) {
    || s.peak >= s.open
    || (exists id | id in s.connections :: s.connections[id].Entering? && s.connections[id].level >= s.open)
    || (exists id | id in s.takers :: s.takers[id].Swapped? || s.takers[id].seen >= s.open)
  }

  /** The level at `i` is not lost: it is held, about to be, or in a report taken after it. */
  ghost predicate Covered(s: State, i: int)
    requires 0 <= i < |s.levels|
  {
    || s.peak >= s.levels[i]
    || (exists id | id in s.connections :: s.connections[id].Entering? && s.connections[id].level >= s.levels[i])
    || (exists id | id in s.takers :: s.takers[id].taken >= s.levels[i] && s.takers[id].since > i)
    || (exists k | 0 <= k < |s.reports| :: s.reports[k].peak >= s.levels[i] && s.reports[k].since > i)
  }

  ghost predicate AllCovered(s: State) {
    forall i | 0 <= i < |s.levels| :: Covered(s, i)
  }

  /** `n` connections were open at some moment. */
  predicate WasReached(s: State, n: int) {
    n == 0 || n in s.levels
  }

  /** `open` climbs one by one, so whatever lies below a level was reached before it. */
  ghost predicate Climbs(s: State) {
    forall n, m | n in s.levels && 0 < m <= n :: m in s.levels
  }

  ghost predicate GaugeReached(s: State) {
    && 0 <= s.open && WasReached(s, s.open) && WasReached(s, s.peak)
    && (forall id | id in s.connections && s.connections[id].Entering? :: WasReached(s, s.connections[id].level))
    && (forall n | n in s.opens :: WasReached(s, n))
  }

  ghost predicate TakersReached(s: State) {
    && (forall id | id in s.takers :: WasReached(s, s.takers[id].taken))
    && (forall id | id in s.takers && s.takers[id].Loaded? :: WasReached(s, s.takers[id].seen))
    && (forall k | 0 <= k < |s.reports| :: WasReached(s, s.reports[k].peak))
  }

  /** Nothing in the gauge or in its reports names a level that was never open. */
  ghost predicate NoPhantoms(s: State) {
    Climbs(s) && GaugeReached(s) && TakersReached(s)
  }

  ghost predicate Inv(s: State) {
    Counts(s) && AllCovered(s) && NoPhantoms(s)
  }

  /** A load that does not see fewer connections than are open. */
  predicate Fresh(s: State, step: Step) {
    step.Load? ==> step.seen >= s.open
  }

  lemma CountsKept(s: State, step: Step)
    requires Counts(s) && Enabled(s, step)
    ensures Counts(Apply(s, step))
  {
    if step.Close? {
      assert (s.connections - {step.id}).Keys == s.connections.Keys - {step.id};
    }
  }

  lemma PeakHoldsKept(s: State, step: Step)
    requires PeakHolds(s) && Enabled(s, step) && Fresh(s, step)
    ensures PeakHolds(Apply(s, step))
  {
    var s' := Apply(s, step);
    if step.Add? {
      assert step.id in s'.connections;
    } else if step.Swap? || step.Load? {
      assert step.id in s'.takers;
    } else if s.peak >= s.open {
    } else if id :| id in s.connections && s.connections[id].Entering? && s.connections[id].level >= s.open {
      assert id == step.id || id in s'.connections;
    } else {
      var id :| id in s.takers && (s.takers[id].Swapped? || s.takers[id].seen >= s.open);
      assert id == step.id || id in s'.takers;
    }
  }

  /** A load keeps the peak up exactly when it sees enough, or when the others would do without it. */
  lemma LoadKeepsPeakIff(s: State, id: Id, seen: int)
    requires Enabled(s, Load(id, seen))
    ensures PeakHolds(Apply(s, Load(id, seen))) <==> seen >= s.open || PeakHolds(s.(takers := s.takers - {id}))
  {
    var s', without := Apply(s, Load(id, seen)), s.(takers := s.takers - {id});
    assert id in s'.takers;
    assert forall other | other in without.takers :: other in s'.takers && s'.takers[other] == without.takers[other];
    assert forall other | other in s'.takers && other != id :: other in without.takers;
  }

  /** Finishing a call that is in flight decides nothing more. */
  lemma DrainKeepsPeakIff(s: State, step: Step)
    requires Enabled(s, step) && (step.Raise? || step.Restore?)
    ensures PeakHolds(Apply(s, step)) <==> PeakHolds(s)
  {
    var s' := Apply(s, step);
    if PeakHolds(s) {
      PeakHoldsKept(s, step);
    }
    if step.Raise? {
      assert forall id | id in s'.connections && s'.connections[id].Entering? ::
        s'.connections[id] == s.connections[id];
      assert s'.peak >= s'.open ==> s.peak >= s.open || s.connections[step.id].level >= s.open;
    } else {
      assert forall id | id in s'.takers :: id in s.takers && s'.takers[id] == s.takers[id];
      assert s'.peak >= s'.open ==> s.peak >= s.open || s.takers[step.id].seen >= s.open;
    }
  }

  lemma CoveredKept(s: State, step: Step, i: int)
    requires Enabled(s, step) && 0 <= i < |s.levels| && Covered(s, i)
    ensures Covered(Apply(s, step), i)
  {
    var s' := Apply(s, step);
    assert s'.levels[i] == s.levels[i];
    if s.peak >= s.levels[i] {
      if step.Swap? {
        assert step.id in s'.takers;
      }
    } else if id :| id in s.connections && s.connections[id].Entering? && s.connections[id].level >= s.levels[i] {
      assert id in s'.connections;
      assert (step.Raise? && step.id == id) || s'.connections[id] == s.connections[id];
    } else if id :| id in s.takers && s.takers[id].taken >= s.levels[i] && s.takers[id].since > i {
      if step.Restore? && step.id == id {
        assert s'.reports[|s.reports|] == Report(s.takers[id].taken, s.takers[id].since);
      } else {
        assert id in s'.takers;
      }
    } else {
      var k :| 0 <= k < |s.reports| && s.reports[k].peak >= s.levels[i] && s.reports[k].since > i;
      assert s'.reports[k] == s.reports[k];
    }
  }

  lemma AllCoveredKept(s: State, step: Step)
    requires AllCovered(s) && Enabled(s, step)
    ensures AllCovered(Apply(s, step))
  {
    var s' := Apply(s, step);
    forall i | 0 <= i < |s'.levels|
      ensures Covered(s', i)
    {
      if i < |s.levels| {
        CoveredKept(s, step, i);
      } else {
        assert step.Add? && step.id in s'.connections;
      }
    }
  }

  lemma ClimbsKept(s: State, step: Step)
    requires Climbs(s) && 0 <= s.open && WasReached(s, s.open) && Enabled(s, step)
    ensures Climbs(Apply(s, step))
    ensures forall n | WasReached(s, n) :: WasReached(Apply(s, step), n)
    ensures step.Add? ==> WasReached(Apply(s, step), s.open + 1)
    ensures step.Close? && s.open > 0 ==> WasReached(Apply(s, step), s.open - 1)
  {
    if step.Add? {
      assert Apply(s, step).levels[|s.levels|] == s.open + 1;
    }
  }

  lemma GaugeOpen(s: State)
    requires GaugeReached(s)
    ensures 0 <= s.open && WasReached(s, s.open)
  {
  }

  lemma GaugeReachedKept(s: State, step: Step)
    requires Counts(s) && NoPhantoms(s) && Enabled(s, step)
    ensures GaugeReached(Apply(s, step))
  {
    ClimbsKept(s, step);
    assert step.Close? ==> |s.connections| > 0;
    hide Climbs, WasReached, Counts;
  }

  lemma TakersReachedKept(s: State, step: Step)
    requires NoPhantoms(s) && Enabled(s, step)
    ensures TakersReached(Apply(s, step))
  {
    ClimbsKept(s, step);
    hide Climbs, WasReached;
  }

  lemma NoPhantomsKept(s: State, step: Step)
    requires Counts(s) && NoPhantoms(s) && Enabled(s, step)
    ensures NoPhantoms(Apply(s, step))
  {
    hide Apply, Climbs, GaugeReached, TakersReached, Counts;
    assert 0 <= s.open && WasReached(s, s.open) by {
      GaugeOpen(s);
    }
    ClimbsKept(s, step);
    GaugeReachedKept(s, step);
    TakersReachedKept(s, step);
  }

  // ---------- Runs ----------

  ghost predicate Run(states: seq<State>, steps: seq<Step>) {
    && |states| == |steps| + 1 && states[0] == INIT
    && forall i | 0 <= i < |steps| :: Enabled(states[i], steps[i]) && states[i + 1] == Apply(states[i], steps[i])
  }

  lemma {:induction false} RunKeepsInv(states: seq<State>, steps: seq<Step>, n: nat)
    requires Run(states, steps) && n <= |steps|
    ensures Inv(states[n])
  {
    if n > 0 {
      hide Counts, AllCovered, NoPhantoms, Apply;
      var s, step := states[n - 1], steps[n - 1];
      RunKeepsInv(states, steps, n - 1);
      CountsKept(s, step);
      AllCoveredKept(s, step);
      NoPhantomsKept(s, step);
    }
  }

  predicate Quiescent(s: State) {
    s.takers == map[] && forall id | id in s.connections :: s.connections[id].Held?
  }

  /**
   However the calls interleave and whatever their loads see, once none is in flight `open` counts
   the guards alive, and every number of connections that was ever open at once is at most the
   peak or a peak reported after it was reached.
   */
  lemma QuiescentGaugeIsExact(states: seq<State>, steps: seq<Step>, n: nat)
    requires Run(states, steps) && n <= |steps| && Quiescent(states[n])
    ensures var s := states[n];
            && s.open == |s.connections|
            && forall i | 0 <= i < |s.levels| :: s.levels[i] <= s.peak || Reported(s, i)
  {
    RunKeepsInv(states, steps, n);
    var s := states[n];
    forall i | 0 <= i < |s.levels|
      ensures s.levels[i] <= s.peak || Reported(s, i)
    {
      assert Covered(s, i);
    }
  }

  /** A peak that covers the level at `i` was reported after it was reached. */
  predicate Reported(s: State, i: int)
    requires 0 <= i < |s.levels|
  {
    exists k | 0 <= k < |s.reports| :: s.levels[i] <= s.reports[k].peak && s.reports[k].since > i
  }

  /** If no load sees fewer connections than are open, the peak is never left below `open`. */
  lemma {:induction false} FreshLoadsKeepPeak(states: seq<State>, steps: seq<Step>, n: nat)
    requires Run(states, steps) && n <= |steps|
    requires forall i | 0 <= i < n :: Fresh(states[i], steps[i])
    ensures PeakHolds(states[n])
    ensures Quiescent(states[n]) ==> states[n].peak >= states[n].open
  {
    if n > 0 {
      hide PeakHolds, Apply;
      FreshLoadsKeepPeak(states, steps, n - 1);
      PeakHoldsKept(states[n - 1], steps[n - 1]);
    }
    if Quiescent(states[n]) {
      QuiescentPeak(states[n]);
    }
  }

  lemma QuiescentPeak(s: State)
    requires Quiescent(s)
    ensures PeakHolds(s) <==> s.peak >= s.open
  {
  }

  /**
   From any moment on, when the calls in flight finish and nothing else happens, the peak ends up
   at or above `open` exactly when it was held then; and `LoadKeepsPeakIff` says when a load keeps it.
   */
  lemma DrainedPeakIff(states: seq<State>, steps: seq<Step>, from: nat, to: nat)
    requires Run(states, steps) && from <= to <= |steps| && Quiescent(states[to])
    requires forall i | from <= i < to :: steps[i].Raise? || steps[i].Restore?
    ensures states[to].peak >= states[to].open <==> PeakHolds(states[from])
  {
    hide PeakHolds, Apply;
    QuiescentPeak(states[to]);
    DrainKept(states, steps, from, to);
  }

  lemma {:induction false} DrainKept(states: seq<State>, steps: seq<Step>, from: nat, to: nat)
    requires Run(states, steps) && from <= to <= |steps|
    requires forall i | from <= i < to :: steps[i].Raise? || steps[i].Restore?
    ensures PeakHolds(states[to]) <==> PeakHolds(states[from])
  {
    hide PeakHolds, Apply;
    if from < to {
      DrainKept(states, steps, from, to - 1);
      DrainKeepsPeakIff(states[to - 1], steps[to - 1]);
    }
  }

  /** A connection opens, and a peak is taken whose load still sees none: the peak is left at zero. */
  lemma StaleLoadLosesPeak() returns (states: seq<State>)
    ensures Run(states, [Add(0), Raise(0), Swap(0), Load(0, 0), Restore(0)])
    ensures Quiescent(states[5]) && states[5].open == 1 && states[5].peak == 0
  {
    var s1 := Apply(INIT, Add(0));
    var s2 := Apply(s1, Raise(0));
    var s3 := Apply(s2, Swap(0));
    var s4 := Apply(s3, Load(0, 0));
    var s5 := Apply(s4, Restore(0));
    assert s4.takers - {0} == map[];
    states := [INIT, s1, s2, s3, s4, s5];
  }

  /** A reported peak is never made up: so many connections were open at once. */
  lemma ReportsAreReal(states: seq<State>, steps: seq<Step>, n: nat, k: nat)
    requires Run(states, steps) && n <= |steps| && k < |states[n].reports|
    ensures WasReached(states[n], states[n].reports[k].peak)
  {
    RunKeepsInv(states, steps, n);
  }

  /** While nobody has taken the peak, it is the most that was ever open at once. */
  lemma UntakenPeakIsTheMaximum(states: seq<State>, steps: seq<Step>, n: nat)
    requires Run(states, steps) && n <= |steps| && Quiescent(states[n]) && states[n].reports == []
    ensures WasReached(states[n], states[n].peak)
    ensures forall i | 0 <= i < |states[n].levels| :: states[n].levels[i] <= states[n].peak
  {
    RunKeepsInv(states, steps, n);
    QuiescentGaugeIsExact(states, steps, n);
  }
}
