/**
 The certificate protocol never gets stuck: while some call is under way a thread can move, and
 without new calls or installs every run of moves ends, after a number of steps known beforehand,
 with every call returned.
 */
module CertProgress {
  import opened Wrappers
  import opened LeafCaching
  import opened CertProtocol
  import opened CertSafety
  import opened CertTheorems

  /** A step in which a thread carries on with its call or its install; a condvar may also wake for nothing. */
  predicate Progress(step: Step) {
    !(step.BeginPrewarm? || step.BeginInstall? || step.Serve? || step.Wake?)
  }

  // ---------- Someone can move ----------

  function HolderStep(s: State, t: Tid): Step
    requires t in s.threads && OwnsSlot(s.threads[t])
  {
    match s.threads[t]
    case HoldingSlot(_, _) => ReadEpoch(t, 0)
    case Installing(_) => FailInstall(t)
    case Replaced(_) => PurgeCache(t)
    case Purged(_, _) => EndInstall(t)
  }

  function LeaseStep(s: State, t: Tid): Step
    requires t in s.threads && (s.threads[t].Minting? || s.threads[t].Minted? || s.threads[t].Releasing?)
  {
    match s.threads[t]
    case Minting(_, _, _) => MintErr(t)
    case Minted(_, _, _) => StoreMinted(t)
    case Releasing(_, _) => DropLease(t)
  }

  /** In every reachable state in which some thread is inside a call, some thread can carry on. */
  lemma NeverDeadlocked(states: seq<State>, steps: seq<Step>, i: nat, t: Tid) returns (step: Step)
    requires Run(states, steps) && i < |states| && t in states[i].threads && !Free(states[i], t)
    ensures Progress(step) && Enabled(states[i], step)
  {
    hide Run, SlotBound, ThreadsSound, EntriesSound, Conserved;
    RunKeepsInv(states, steps, i);
    var s := states[i];
    var pc := s.threads[t];
    if OwnsSlot(pc) {
      step := HolderStep(s, t);
    } else if pc.Entering? {
      step := if s.slotHolder.None? then LockSlot(t) else HolderStep(s, s.slotHolder.value);
    } else if pc.Leasing? {
      step := LeaseTurn(t);
    } else if pc.Notifying? {
      step := Notify(t);
    } else if !pc.Asleep? {
      step := LeaseStep(s, t);
    } else if pc.call.host in s.inner.inflight {
      var u :| u in s.threads && Leases(s.threads[u], pc.call.host);
      step := LeaseStep(s, u);
    } else {
      var u :| u in s.threads && s.threads[u].Notifying?;
      step := Notify(u);
    }
  }

  // ---------- Sums over threads ----------

  ghost function Pick(m: map<Tid, nat>): (t: Tid)
    requires m != map[]
    ensures t in m
  {
    assert m.Keys == {} ==> m == map[];
    var t :| t in m.Keys;
    t
  }

  ghost function Total(m: map<Tid, nat>): nat
    decreases |m|
  {
    if m == map[] then 0
    else
      assert (m - {Pick(m)}).Keys == m.Keys - {Pick(m)};
      m[Pick(m)] + Total(m - {Pick(m)})
  }

  /** The sum goes down by what one thread gives up, when no other takes more. */
  lemma {:induction false} TotalDrops(m: map<Tid, nat>, m': map<Tid, nat>, t: Tid, k: nat)
    requires forall u | u in m' :: u in m && (u != t ==> m'[u] <= m[u])
    requires t in m && k + (if t in m' then m'[t] else 0) <= m[t]
    ensures Total(m') + k <= Total(m)
    decreases |m|
  {
    var u := Pick(m);
    var rest, rest' := m - {u}, m' - {u};
    assert rest.Keys == m.Keys - {u} && |rest| == |rest.Keys| && |m| == |m.Keys|;
    TotalSplit(m', u);
    if u == t {
      TotalNotMore(rest, rest');
    } else {
      TotalDrops(rest, rest', t, k);
    }
  }

  lemma {:induction false} TotalNotMore(m: map<Tid, nat>, m': map<Tid, nat>)
    requires forall u | u in m' :: u in m && m'[u] <= m[u]
    ensures Total(m') <= Total(m)
    decreases |m|
  {
    if m == map[] {
      assert m' == map[];
    } else {
      var u := Pick(m);
      var rest, rest' := m - {u}, m' - {u};
      assert rest.Keys == m.Keys - {u} && |rest| == |rest.Keys| && |m| == |m.Keys|;
      TotalSplit(m', u);
      TotalNotMore(rest, rest');
    }
  }

  /** Any thread may be taken out first. */
  lemma {:induction false} TotalSplit(m: map<Tid, nat>, t: Tid)
    ensures Total(m) == (if t in m then m[t] else 0) + Total(m - {t})
    decreases |m|
  {
    if t !in m {
      assert m - {t} == m;
    } else {
      var u := Pick(m);
      if u != t {
        var rest := m - {u};
        assert rest.Keys == m.Keys - {u} && |rest| == |rest.Keys| && |m| == |m.Keys|;
        TotalSplit(rest, t);
        TotalSplit(m - {t}, u);
        assert m - {u} - {t} == m - {t} - {u};
        assert (m - {t}).Keys == m.Keys - {t};
      }
    }
  }

  lemma OneMoreOf(k: nat, n: nat)
    ensures k * (n + 1) == k * n + k
  {
  }

  lemma {:induction false} TotalAtMost(m: map<Tid, nat>, k: nat)
    requires forall u | u in m :: m[u] <= k
    ensures Total(m) <= k * |m|
    decreases |m|
  {
    if m != map[] {
      var u := Pick(m);
      var rest := m - {u};
      assert rest.Keys == m.Keys - {u} && |rest| == |rest.Keys| && |m| == |m.Keys|;
      TotalAtMost(rest, k);
      OneMoreOf(k, |rest|);
    }
  }

  // ---------- How far each thread has to go ----------

  /** An install that may still purge the cache; the slot's lock admits one at a time. */
  function Purging(s: State): nat {
    if s.slotHolder.Some? && s.slotHolder.value in s.threads
       && (s.threads[s.slotHolder.value].Installing? || s.threads[s.slotHolder.value].Replaced?)
    then 1 else 0
  }

  /** How many notifications a thread may still send before its call returns. */
  function Rounds(s: State, pc: Pc): nat {
    match pc
    case Entering(_) => 1 + Purging(s)
    case HoldingSlot(_, _) => 1 + Purging(s)
    case Leasing(_, _, epoch, _) => 1 + Purging(s) + Stale(s, epoch)
    case Asleep(_, _, epoch, _) => 1 + Purging(s) + Stale(s, epoch)
    case Minting(_, _, epoch) => 1 + Purging(s) + Stale(s, epoch)
    case Minted(_, _, epoch) => 1 + Purging(s) + Stale(s, epoch)
    case Releasing(_, outcome) => if outcome.Superseded? then 2 + Purging(s) else 1
    case Notifying(_, outcome) => if outcome.Superseded? then 2 + Purging(s) else 1
    case _ => 0
  }

  function Stale(s: State, epoch: nat): nat {
    if epoch < s.inner.epoch then 1 else 0
  }

  const FAR := 8

  /** How many steps a thread has before it next notifies, sleeps or returns. */
  function Distance(pc: Pc): (d: nat)
    ensures d <= FAR
  {
    match pc
    case Entering(_) => 8
    case HoldingSlot(_, _) => 7
    case Leasing(_, _, _, _) => 6
    case Minting(_, _, _) => 5
    case Minted(_, _, _) => 4
    case Releasing(_, _) => 3
    case Notifying(_, _) => 2
    case Asleep(_, _, _, _) => 1
    case Installing(_) => 3
    case Replaced(_) => 2
    case Purged(_, _) => 1
    case _ => 0
  }

  function AllRounds(s: State): map<Tid, nat> {
    map t | t in s.threads :: Rounds(s, s.threads[t])
  }

  function AllDistances(s: State): map<Tid, nat> {
    map t | t in s.threads :: Distance(s.threads[t])
  }

  /** An upper bound on the steps that are left: every notification may send all threads round again. */
  ghost function StepsLeft(s: State): nat {
    Total(AllRounds(s)) * (FAR * |s.threads| + 1) + Total(AllDistances(s))
  }

  // ---------- Every step leaves fewer ----------

  /** What a step does to the epoch and to the install that may purge. */
  lemma PurgingMoves(s: State, step: Step)
    requires SlotHeld(s) && Enabled(s, step) && Progress(step)
    ensures var s' := Apply(s, step);
            && Purging(s') + (if step.PurgeCache? then 1 else 0) <= Purging(s)
            && s'.inner.epoch == s.inner.epoch + if step.PurgeCache? then 1 else 0
  {
    hide Store, Take, TakeLease, LeafExpiry, EntriesSound;
    EpochMoves(s, step);
  }

  /** A thread that stands still has no more rounds ahead of it than before. */
  lemma RoundsStay(s: State, s': State, pc: Pc)
    requires Purging(s') + s'.inner.epoch - s.inner.epoch <= Purging(s) && s.inner.epoch <= s'.inner.epoch
    ensures Rounds(s', pc) <= Rounds(s, pc) && Rounds(s', Woken(pc)) <= Rounds(s, pc)
  {
    hide Purging;
  }

  /** The thread that moves comes closer, unless it notifies. */
  lemma ActorComesCloser(s: State, step: Step)
    requires Enabled(s, step) && Progress(step)
    ensures step.t in s.threads && (step.Notify? ==> step.t in Apply(s, step).threads)
    ensures var s', far := Apply(s, step), Distance(s.threads[step.t]);
            !step.Notify? ==> (if step.t in s'.threads then Distance(s'.threads[step.t]) + 1 else 1) <= far
  {
    hide Store, Take, TakeLease, LeafExpiry;
  }

  /** The thread that moves has no more rounds ahead of it, and one less when it notifies. */
  lemma ActorRounds(s: State, step: Step)
    requires SlotHeld(s) && SlotBound(s) && ThreadsSound(s) && Enabled(s, step) && Progress(step)
    requires step.t in s.threads && step.t in Apply(s, step).threads
    ensures var s' := Apply(s, step);
            Rounds(s', s'.threads[step.t]) + (if step.Notify? then 1 else 0) <= Rounds(s, s.threads[step.t])
  {
    hide Store, Take, TakeLease, LeafExpiry, Purging, ThreadsSound, SlotHeld;
    PurgingMoves(s, step);
    if step.StoreMinted? {
      StoreOutcome(s, step.t);
    }
    hide SlotBound;
  }

  /** A store is refused exactly when its epoch has passed. */
  lemma StoreOutcome(s: State, t: Tid)
    requires SlotBound(s) && ThreadsSound(s) && t in s.threads && s.threads[t].Minted?
    ensures Store(s.inner, s.capacity, s.threads[t].epoch, s.threads[t].leaf).1
       <==> Stale(s, s.threads[t].epoch) == 0
  {
    hide MakeRoom;
    ThreadSound(s, t);
  }

  lemma OthersStand(s: State, step: Step)
    requires SlotHeld(s) && Enabled(s, step) && Progress(step)
    ensures var s' := Apply(s, step);
            forall u | u in s'.threads && u != step.t ::
              && u in s.threads && Rounds(s', s'.threads[u]) <= Rounds(s, s.threads[u])
              && (!step.Notify? ==> s'.threads[u] == s.threads[u])
  {
    hide Apply, Rounds, Purging;
    PurgingMoves(s, step);
    var s' := Apply(s, step);
    forall u | u in s'.threads && u != step.t
      ensures u in s.threads && Rounds(s', s'.threads[u]) <= Rounds(s, s.threads[u])
      ensures !step.Notify? ==> s'.threads[u] == s.threads[u]
    {
      OthersStay(s, step, u);
      RoundsStay(s, s', s.threads[u]);
    }
  }

  lemma FewerThreads(s: State, step: Step)
    requires Enabled(s, step) && Progress(step)
    ensures Apply(s, step).threads.Keys <= s.threads.Keys
  {
    hide Store, Take, TakeLease, LeafExpiry;
  }

  lemma SizeBound(a: map<Tid, Pc>, b: map<Tid, Pc>)
    requires a.Keys <= b.Keys
    ensures |a| <= |b|
  {
    var rest := b.Keys - a.Keys;
    assert b.Keys == a.Keys + rest && |a.Keys + rest| == |a.Keys| + |rest|;
  }

  lemma Scales(a: nat, b: nat, c: nat, d: nat)
    requires a <= b && c <= d
    ensures a * c <= b * d
  {
    assert a * c <= a * d;
    assert a * d <= b * d;
  }

  lemma FewerLeft(rounds: nat, rounds': nat, size: nat, size': nat, distance: nat, distance': nat)
    requires size' <= size && distance' <= FAR * size'
    requires rounds' + 1 <= rounds || (rounds' <= rounds && distance' + 1 <= distance)
    ensures rounds' * (FAR * size' + 1) + distance' + 1 <= rounds * (FAR * size + 1) + distance
  {
    var wide, wide' := FAR * size + 1, FAR * size' + 1;
    if rounds' + 1 <= rounds {
      Scales(rounds' + 1, rounds, wide', wide);
      assert (rounds' + 1) * wide' == rounds' * wide' + wide';
    } else {
      Scales(rounds', rounds, wide', wide);
    }
  }

  /** Each step of progress leaves fewer steps to go. */
  lemma StepsLeftDrop(s: State, step: Step)
    requires SlotHeld(s) && SlotBound(s) && ThreadsSound(s) && Enabled(s, step) && Progress(step)
    ensures StepsLeft(Apply(s, step)) + 1 <= StepsLeft(s)
  {
    hide Apply, Rounds, Distance, Total, SlotHeld, SlotBound, ThreadsSound;
    var s' := Apply(s, step);
    ActorComesCloser(s, step);
    if step.t in s'.threads {
      ActorRounds(s, step);
    }
    OthersStand(s, step);
    FewerThreads(s, step);
    SizeBound(s'.threads, s.threads);
    TotalDrops(AllRounds(s), AllRounds(s'), step.t, if step.Notify? then 1 else 0);
    if !step.Notify? {
      TotalDrops(AllDistances(s), AllDistances(s'), step.t, 1);
    }
    TotalAtMost(AllDistances(s'), FAR);
    assert AllDistances(s').Keys == s'.threads.Keys;
    FewerLeft(Total(AllRounds(s)), Total(AllRounds(s')), |s.threads|, |s'.threads|,
              Total(AllDistances(s)), Total(AllDistances(s')));
  }

  /** Reading the cache moves no thread. */
  lemma ServeStepsLeft(s: State, host: Host, now: int)
    ensures StepsLeft(Apply(s, Serve(host, now))) == StepsLeft(s)
  {
    hide Take, Total;
    TakeKeepsEpoch(s.inner, host, now);
    var s' := Apply(s, Serve(host, now));
    assert s'.threads == s.threads && s'.inner.epoch == s.inner.epoch && Purging(s') == Purging(s);
    hide Apply, Purging;
    assert AllRounds(s') == AllRounds(s) && AllDistances(s') == AllDistances(s);
  }

  lemma TakeKeepsEpoch(inner: Inner, host: Host, now: int)
    ensures Take(inner, host, now).0.epoch == inner.epoch
  {
  }

  lemma WakeMoves(s: State, t: Tid)
    requires SlotHeld(s) && Enabled(s, Wake(t))
    ensures var s' := Apply(s, Wake(t));
            && |s'.threads| == |s.threads| && AllRounds(s') == AllRounds(s)
            && t in AllDistances(s) && AllDistances(s') == AllDistances(s)[t := AllDistances(s)[t] + 5]
  {
    hide Take, Store;
    var s' := Apply(s, Wake(t));
    assert s'.threads.Keys == s.threads.Keys && |s'.threads| == |s'.threads.Keys|;
    assert Purging(s') == Purging(s);
    hide Purging, SlotHeld;
    assert forall u | u in s.threads :: Rounds(s', s'.threads[u]) == Rounds(s, s.threads[u]);
  }

  /** Waking for nothing costs at most the way back to sleep. */
  lemma WakeStepsLeft(s: State, t: Tid)
    requires SlotHeld(s) && Enabled(s, Wake(t))
    ensures StepsLeft(Apply(s, Wake(t))) == StepsLeft(s) + 5
  {
    hide Total, SlotHeld, AllRounds, AllDistances, Apply;
    WakeMoves(s, t);
    var far, far' := AllDistances(s), AllDistances(Apply(s, Wake(t)));
    TotalSplit(far, t);
    TotalSplit(far', t);
    assert far - {t} == far' - {t};
  }

  predicate Spurious(step: Step) {
    step.Wake?
  }

  function Count(steps: seq<Step>, kind: Step -> bool): nat {
    if steps == [] then 0
    else Count(steps[..|steps| - 1], kind) + if kind(steps[|steps| - 1]) then 1 else 0
  }

  /**
   While no call and no install begins, the steps of progress are bounded beforehand, whatever
   the interleaving and however often the cache is read; each wake-up for nothing adds five.
   With `NeverDeadlocked`, every call under way returns.
   */
  lemma {:induction false} CallsFinish(states: seq<State>, steps: seq<Step>, i: nat, j: nat)
    requires Run(states, steps) && i <= j <= |steps|
    requires forall k | i <= k < j :: !steps[k].BeginPrewarm? && !steps[k].BeginInstall?
    ensures Count(steps[i..j], Progress) + StepsLeft(states[j])
         <= StepsLeft(states[i]) + 5 * Count(steps[i..j], Spurious)
    decreases j
  {
    hide Apply, Enabled, StepsLeft, SlotHeld, SlotBound, ThreadsSound;
    hide EntriesSound, SingleFlight, NoLostWakeup, Conserved;
    if i < j {
      CallsFinish(states, steps, i, j - 1);
      RunKeepsInv(states, steps, j - 1);
      var s, step := states[j - 1], steps[j - 1];
      assert steps[i..j][..j - 1 - i] == steps[i..j - 1];
      if Progress(step) {
        StepsLeftDrop(s, step);
      } else if step.Wake? {
        WakeStepsLeft(s, step.t);
      } else {
        ServeStepsLeft(s, step.host, step.now);
      }
    }
  }

  /** Where no thread can carry on, no call and no install is under way. */
  lemma StillMeansDone(states: seq<State>, steps: seq<Step>, i: nat)
    requires Run(states, steps) && i < |states|
    requires forall step | Progress(step) :: !Enabled(states[i], step)
    ensures forall t | t in states[i].threads :: Free(states[i], t)
  {
    forall t | t in states[i].threads
      ensures Free(states[i], t)
    {
      if !Free(states[i], t) {
        var step := NeverDeadlocked(states, steps, i, t);
      }
    }
  }
}
