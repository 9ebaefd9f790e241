/**
 The login rate limiter of crates/fah-api/src/password.rs.

 Fixed windows, one bucket per address in a bounded map and one bucket for everybody. The
 source promises that an address gets `per_address` attempts a minute. What a sliding minute
 can hold is a little more, and the theorems here say exactly how much.
 */
module RateLimiting {
  import opened Wrappers

  type Address = nat

  /** Instants and durations in nanoseconds, on a clock that never runs backwards. */
  type Time = nat

  const NANOS_PER_SECOND := 1_000_000_000

  datatype Limits = Limits(perAddress: nat, global: nat, window: Time, maxTracked: nat)

  datatype Decision = Allowed | Limited(retryAfter: nat)

  datatype Bucket = Bucket(count: nat, windowStart: Time)

  datatype Limiter = Limiter(limits: Limits, buckets: map<Address, Bucket>, global: Bucket)

  // ---------- The functions of the source ----------

  /** `duration_since` saturates at zero. */
  function Elapsed(since: Time, now: Time): Time {
    if now < since then 0 else now - since
  }

  function Roll(bucket: Bucket, now: Time, window: Time): Bucket {
    if Elapsed(bucket.windowStart, now) >= window then Bucket(0, now) else bucket
  }

  predicate Expired(bucket: Bucket, now: Time, window: Time) {
    Elapsed(bucket.windowStart, now) >= window
  }

  function RetryAfter(bucket: Bucket, now: Time, window: Time): nat {
    var elapsed := Elapsed(bucket.windowStart, now);
    var remaining := if window < elapsed then 0 else window - elapsed;
    if remaining / NANOS_PER_SECOND < 1 then 1 else remaining / NANOS_PER_SECOND
  }

  function Bump(bucket: Bucket): Bucket {
    bucket.(count := bucket.count + 1)
  }

  function Retain(buckets: map<Address, Bucket>, now: Time, window: Time): map<Address, Bucket> {
    map address | address in buckets && !Expired(buckets[address], now, window) :: buckets[address]
  }

  /** A full map first gives up the buckets whose window has passed. */
  function Kept(limiter: Limiter, now: Time): map<Address, Bucket> {
    if |limiter.buckets| >= limiter.limits.maxTracked then Retain(limiter.buckets, now, limiter.limits.window)
    else limiter.buckets
  }

  /** The buckets after an attempt has claimed its place, or `None` when there is no place. */
  function Claim(limiter: Limiter, address: Address, now: Time): Option<map<Address, Bucket>> {
    if address in limiter.buckets then
      Some(limiter.buckets[address := Bump(Roll(limiter.buckets[address], now, limiter.limits.window))])
    else if |Kept(limiter, now)| >= limiter.limits.maxTracked then None
    else Some(Kept(limiter, now)[address := Bucket(1, now)])
  }

  function Check(limiter: Limiter, address: Address, now: Time): (r: (Limiter, Decision))
    ensures r.0.limits == limiter.limits
    ensures r.1.Allowed? ==>
              && address in r.0.buckets && r.0.buckets[address].count <= AtLeastOne(limiter.limits.perAddress)
              && r.0.global.count <= limiter.limits.global
    ensures r.1.Limited? ==> r.1.retryAfter >= 1
    ensures address in limiter.buckets ==>
              && address in r.0.buckets
              && (r.0.buckets[address].count > limiter.limits.perAddress ==>
                    r.1.Limited? && r.0.global == limiter.global)
  {
    var limits, global := limiter.limits, Bump(Roll(limiter.global, now, limiter.limits.window));
    match Claim(limiter, address, now)
    case None =>
      (limiter.(buckets := Kept(limiter, now), global := global), Limited(RetryAfter(global, now, limits.window)))
    case Some(buckets) =>
      if address in limiter.buckets && buckets[address].count > limits.perAddress then
        (limiter.(buckets := buckets), Limited(RetryAfter(buckets[address], now, limits.window)))
      else
        (limiter.(buckets := buckets, global := global),
         if global.count > limits.global then Limited(RetryAfter(global, now, limits.window)) else Allowed)
  }

  /** The limiter object behind its mutex. */
  class RateLimiter {
    const limits: Limits
    var perAddress: map<Address, Bucket>
    var global: Bucket

    function State(): Limiter
      reads this
    {
      Limiter(limits, perAddress, global)
    }

    constructor (limits: Limits, now: Time)
      ensures State() == Limiter(limits, map[], Bucket(0, now))
    {
      this.limits := limits;
      perAddress := map[];
      global := Bucket(0, now);
    }

    method Attempt(address: Address, now: Time) returns (decision: Decision)
      modifies this
      ensures (State(), decision) == old(Check(State(), address, now))
      ensures old(|perAddress|) <= limits.maxTracked ==> |perAddress| <= limits.maxTracked
    {
      var window := limits.window;
      ghost var before := State();
      if |perAddress| <= limits.maxTracked {
        TrackedIsBounded(before, address, now);
      }
      if address in perAddress {
        var bucket := Bump(Roll(perAddress[address], now, window));
        perAddress := perAddress[address := bucket];
        if bucket.count > limits.perAddress {
          return Limited(RetryAfter(bucket, now, window));
        }
      } else {
        if |perAddress| >= limits.maxTracked {
          perAddress := Retain(perAddress, now, window);
        }
        if |perAddress| >= limits.maxTracked {
          global := Bump(Roll(global, now, window));
          return Limited(RetryAfter(global, now, window));
        }
        perAddress := perAddress[address := Bucket(1, now)];
      }
      global := Bump(Roll(global, now, window));
      if global.count > limits.global {
        return Limited(RetryAfter(global, now, window));
      }
      decision := Allowed;
    }
  }

  lemma TrackedIsBounded(limiter: Limiter, address: Address, now: Time)
    requires |limiter.buckets| <= limiter.limits.maxTracked
    ensures |Check(limiter, address, now).0.buckets| <= limiter.limits.maxTracked
  {
    var buckets := limiter.buckets;
    var kept := Kept(limiter, now);
    KeysShrink(kept, buckets);
    if address in buckets {
      assert buckets[address := Bump(Roll(buckets[address], now, limiter.limits.window))].Keys == buckets.Keys;
    } else {
      assert kept[address := Bucket(1, now)].Keys == kept.Keys + {address};
    }
  }

  lemma KeysShrink(smaller: map<Address, Bucket>, larger: map<Address, Bucket>)
    requires smaller.Keys <= larger.Keys
    ensures |smaller| <= |larger|
  {
    var rest := larger.Keys - smaller.Keys;
    assert larger.Keys == smaller.Keys + rest && |smaller.Keys + rest| == |smaller.Keys| + |rest|;
  }

  // ---------- Windows ----------

  /** One allowed attempt: when it came, and the start of the window it was counted in. */
  datatype Mark = Mark(time: Time, start: Time)

  function CountIn(marks: seq<Mark>, from: Time, to: Time): nat {
    if marks == [] then 0
    else CountIn(marks[..|marks| - 1], from, to) + (if from <= marks[|marks| - 1].time < to then 1 else 0)
  }

  function CountStart(marks: seq<Mark>, start: Time): nat {
    if marks == [] then 0
    else CountStart(marks[..|marks| - 1], start) + (if marks[|marks| - 1].start == start then 1 else 0)
  }

  /** The marks of a window that came after its first instant. */
  function CountLate(marks: seq<Mark>, start: Time): nat {
    if marks == [] then 0
    else
      CountLate(marks[..|marks| - 1], start)
      + (if marks[|marks| - 1].start == start && marks[|marks| - 1].time > start then 1 else 0)
  }

  ghost predicate Windowed(marks: seq<Mark>, window: Time) {
    && (forall i | 0 <= i < |marks| :: marks[i].start <= marks[i].time < marks[i].start + window)
    && (forall i, j | 0 <= i < |marks| && 0 <= j < |marks| ::
          || marks[i].start == marks[j].start
          || marks[i].start + window <= marks[j].start || marks[j].start + window <= marks[i].start)
  }

  /** A sliding interval of one window meets at most one window that began before it and one that began in it. */
  lemma {:induction false} SlidingCount(marks: seq<Mark>, window: Time, from: Time, early: Time, late: Time)
    requires forall i | 0 <= i < |marks| ::
               from <= marks[i].time < from + window ==>
                 if marks[i].start < from then marks[i].start == early else marks[i].start == late
    ensures CountIn(marks, from, from + window) <= CountLate(marks, early) + CountStart(marks, late)
    decreases |marks|
  {
    if marks != [] {
      var rest := marks[..|marks| - 1];
      assert forall i | 0 <= i < |rest| :: rest[i] == marks[i];
      SlidingCount(rest, window, from, early, late);
    }
  }

  lemma SlidingWindow(marks: seq<Mark>, window: Time, from: Time) returns (early: Time, late: Time)
    requires Windowed(marks, window)
    ensures CountIn(marks, from, from + window) <= CountLate(marks, early) + CountStart(marks, late)
  {
    early, late := 0, 0;
    if i :| 0 <= i < |marks| && from <= marks[i].time < from + window && marks[i].start < from {
      early := marks[i].start;
    }
    if j :| 0 <= j < |marks| && from <= marks[j].time < from + window && marks[j].start >= from {
      late := marks[j].start;
    }
    SlidingCount(marks, window, from, early, late);
  }

  // ---------- What a bucket knows about the marks it counted ----------

  /**
   Every mark was counted in this bucket's window or in one that had ended before it began.
   `head` is 1 for a bucket whose window began with an attempt, which is then in its count.
   */
  ghost predicate Covers(bucket: Bucket, marks: seq<Mark>, window: Time, head: nat) {
    && Windowed(marks, window)
    && (forall i | 0 <= i < |marks| ::
          marks[i].start == bucket.windowStart || marks[i].start + window <= bucket.windowStart)
    && CountStart(marks, bucket.windowStart) <= bucket.count
    && CountLate(marks, bucket.windowStart) + head <= bucket.count
  }

  /** No mark's window reaches `now`: what an address without a bucket looks like. */
  ghost predicate AllPast(marks: seq<Mark>, now: Time, window: Time) {
    Windowed(marks, window) && forall i | 0 <= i < |marks| :: marks[i].start + window <= now
  }

  ghost predicate AtMost(marks: seq<Mark>, limit: nat, late: nat) {
    forall start: Time :: CountStart(marks, start) <= limit && CountLate(marks, start) <= late
  }

  lemma {:induction false} NoneStartsAt(marks: seq<Mark>, start: Time)
    requires forall i | 0 <= i < |marks| :: marks[i].start != start
    ensures CountStart(marks, start) == 0 && CountLate(marks, start) == 0
    decreases |marks|
  {
    if marks != [] {
      var rest := marks[..|marks| - 1];
      assert forall i | 0 <= i < |rest| :: rest[i] == marks[i];
      NoneStartsAt(rest, start);
    }
  }

  lemma AppendCounts(marks: seq<Mark>, mark: Mark, start: Time)
    ensures CountStart(marks + [mark], start) == CountStart(marks, start) + if mark.start == start then 1 else 0
    ensures CountLate(marks + [mark], start)
         == CountLate(marks, start) + if mark.start == start && mark.time > start then 1 else 0
  {
    assert (marks + [mark])[..|marks|] == marks;
  }

  /** A bucket that has just counted an attempt, whatever is decided about it. */
  ghost predicate Counted(bucket: Bucket, marks: seq<Mark>, now: Time, window: Time, head: nat) {
    && Covers(bucket, marks, window, head)
    && bucket.windowStart <= now < bucket.windowStart + window
    && CountStart(marks, bucket.windowStart) + 1 <= bucket.count
    && (now > bucket.windowStart ==> CountLate(marks, bucket.windowStart) + 1 + head <= bucket.count)
  }

  lemma RolledIsCounted(bucket: Bucket, marks: seq<Mark>, now: Time, window: Time, head: nat)
    requires Covers(bucket, marks, window, head) && bucket.windowStart <= now && window > 0 && head <= 1
    ensures Counted(Bump(Roll(bucket, now, window)), marks, now, window, head)
  {
    if Elapsed(bucket.windowStart, now) >= window {
      NoneStartsAt(marks, now);
    }
  }

  lemma NewIsCounted(marks: seq<Mark>, now: Time, window: Time)
    requires AllPast(marks, now, window) && window > 0
    ensures Counted(Bucket(1, now), marks, now, window, 1)
  {
    NoneStartsAt(marks, now);
  }

  lemma AllowedIsCovered(bucket: Bucket, marks: seq<Mark>, now: Time, window: Time, head: nat, limit: nat, late: nat)
    requires Counted(bucket, marks, now, window, head) && AtMost(marks, limit, late)
    requires bucket.count <= limit && bucket.count - head <= late
    ensures var after := marks + [Mark(now, bucket.windowStart)];
            Covers(bucket, after, window, head) && AtMost(after, limit, late)
  {
    hide CountStart, CountLate;
    var mark := Mark(now, bucket.windowStart);
    AppendCounts(marks, mark, bucket.windowStart);
    forall start: Time
      ensures CountStart(marks + [mark], start) <= limit && CountLate(marks + [mark], start) <= late
    {
      AppendCounts(marks, mark, start);
    }
  }

  // ---------- Runs ----------

  datatype Attempt = Attempt(address: Address, now: Time)

  /** An allowed attempt and the two windows that counted it. */
  datatype Pass = Pass(address: Address, now: Time, ownStart: Time, globalStart: Time)

  function Run(limiter: Limiter, attempts: seq<Attempt>): (Limiter, seq<Pass>) {
    if attempts == [] then (limiter, [])
    else
      var (before, passes) := Run(limiter, attempts[..|attempts| - 1]);
      var attempt := attempts[|attempts| - 1];
      var (after, decision) := Check(before, attempt.address, attempt.now);
      (after,
       if decision.Allowed? then
         var own := after.buckets[attempt.address];
         passes + [Pass(attempt.address, attempt.now, own.windowStart, after.global.windowStart)]
       else passes)
  }

  function OwnMarks(passes: seq<Pass>, address: Address): seq<Mark> {
    if passes == [] then []
    else
      var pass := passes[|passes| - 1];
      OwnMarks(passes[..|passes| - 1], address)
      + if pass.address == address then [Mark(pass.now, pass.ownStart)] else []
  }

  function AllMarks(passes: seq<Pass>): seq<Mark> {
    if passes == [] then []
    else AllMarks(passes[..|passes| - 1]) + [Mark(passes[|passes| - 1].now, passes[|passes| - 1].globalStart)]
  }

  function AtLeastOne(limit: nat): nat {
    if limit == 0 then 1 else limit
  }

  ghost predicate OwnGood(limiter: Limiter, marks: seq<Mark>, address: Address, now: Time) {
    var window, limit := limiter.limits.window, AtLeastOne(limiter.limits.perAddress);
    && AtMost(marks, limit, limit - 1)
    && (if address in limiter.buckets
        then Covers(limiter.buckets[address], marks, window, 1) && limiter.buckets[address].windowStart <= now
        else AllPast(marks, now, window))
  }

  ghost predicate GlobalGood(limiter: Limiter, marks: seq<Mark>, now: Time) {
    && AtMost(marks, limiter.limits.global, limiter.limits.global)
    && Covers(limiter.global, marks, limiter.limits.window, 0) && limiter.global.windowStart <= now
  }

  ghost predicate Good(limiter: Limiter, passes: seq<Pass>, now: Time) {
    && |limiter.buckets| <= limiter.limits.maxTracked
    && GlobalGood(limiter, AllMarks(passes), now)
    && forall address: Address :: OwnGood(limiter, OwnMarks(passes, address), address, now)
  }

  lemma OwnKept(limiter: Limiter, marks: seq<Mark>, address: Address, attempt: Attempt, now: Time)
    requires limiter.limits.window > 0 && now <= attempt.now && OwnGood(limiter, marks, address, now)
    ensures var (after, decision) := Check(limiter, attempt.address, attempt.now);
            OwnGood(after,
                    if decision.Allowed? && attempt.address == address
                    then marks + [Mark(attempt.now, after.buckets[address].windowStart)] else marks,
                    address, attempt.now)
  {
    hide Covers, AtMost, AllPast, Roll, Windowed, RetryAfter;
    var window, limit := limiter.limits.window, AtLeastOne(limiter.limits.perAddress);
    var (after, decision) := Check(limiter, attempt.address, attempt.now);
    if address in limiter.buckets {
      if attempt.address == address {
        RolledIsCounted(limiter.buckets[address], marks, attempt.now, window, 1);
        CountedFacts(after.buckets[address], marks, attempt.now, window, 1);
        if decision.Allowed? {
          AllowedIsCovered(after.buckets[address], marks, attempt.now, window, 1, limit, limit - 1);
        }
      } else if address !in after.buckets {
        EvictedIsPast(limiter.buckets[address], marks, attempt.now, window);
      }
    } else {
      PastStaysPast(marks, now, attempt.now, window);
      if attempt.address == address && address in after.buckets {
        NewIsCounted(marks, attempt.now, window);
        CountedFacts(after.buckets[address], marks, attempt.now, window, 1);
        if decision.Allowed? {
          AllowedIsCovered(after.buckets[address], marks, attempt.now, window, 1, limit, limit - 1);
        }
      }
    }
  }

  lemma CountedFacts(bucket: Bucket, marks: seq<Mark>, now: Time, window: Time, head: nat)
    requires Counted(bucket, marks, now, window, head)
    ensures Covers(bucket, marks, window, head) && bucket.windowStart <= now && bucket.count >= 1
  {
  }

  lemma EvictedIsPast(bucket: Bucket, marks: seq<Mark>, now: Time, window: Time)
    requires Covers(bucket, marks, window, 1) && bucket.windowStart <= now && Expired(bucket, now, window)
    ensures AllPast(marks, now, window)
  {
  }

  lemma PastStaysPast(marks: seq<Mark>, now: Time, later: Time, window: Time)
    requires AllPast(marks, now, window) && now <= later
    ensures AllPast(marks, later, window)
  {
  }

  lemma GlobalKept(limiter: Limiter, marks: seq<Mark>, attempt: Attempt, now: Time)
    requires limiter.limits.window > 0 && now <= attempt.now && GlobalGood(limiter, marks, now)
    ensures var (after, decision) := Check(limiter, attempt.address, attempt.now);
            var all := if decision.Allowed? then marks + [Mark(attempt.now, after.global.windowStart)] else marks;
            GlobalGood(after, all, attempt.now)
  {
    hide Covers, AtMost, Roll, Windowed, RetryAfter, Claim;
    var window, limit := limiter.limits.window, limiter.limits.global;
    var (after, decision) := Check(limiter, attempt.address, attempt.now);
    RolledIsCounted(limiter.global, marks, attempt.now, window, 0);
    var global := Bump(Roll(limiter.global, attempt.now, window));
    CountedFacts(global, marks, attempt.now, window, 0);
    if decision.Allowed? {
      AllowedIsCovered(global, marks, attempt.now, window, 0, limit, limit);
    }
  }

  predicate InOrder(since: Time, attempts: seq<Attempt>) {
    && (attempts != [] ==> since <= attempts[0].now)
    && forall i | 0 < i < |attempts| :: attempts[i - 1].now <= attempts[i].now
  }

  function LastTime(since: Time, attempts: seq<Attempt>): Time {
    if attempts == [] then since else attempts[|attempts| - 1].now
  }

  lemma NothingCounted(bucket: Bucket, now: Time, window: Time)
    ensures Covers(bucket, [], window, 0) && AllPast([], now, window)
    ensures forall limit: nat, late: nat :: AtMost([], limit, late)
  {
  }

  lemma {:induction false} RunIsGood(limits: Limits, since: Time, attempts: seq<Attempt>)
    requires limits.window > 0 && InOrder(since, attempts)
    ensures var (limiter, passes) := Run(Limiter(limits, map[], Bucket(0, since)), attempts);
            limiter.limits == limits && Good(limiter, passes, LastTime(since, attempts))
    decreases |attempts|
  {
    hide OwnGood, GlobalGood, Check;
    var first := Limiter(limits, map[], Bucket(0, since));
    if attempts == [] {
      FirstIsGood(first, since);
    } else {
      var earlier, attempt := attempts[..|attempts| - 1], attempts[|attempts| - 1];
      RunIsGood(limits, since, earlier);
      var (before, passes) := Run(first, earlier);
      var now := LastTime(since, earlier);
      assert now <= attempt.now;
      var (after, passes') := Run(first, attempts);
      TrackedIsBounded(before, attempt.address, attempt.now);
      GlobalKept(before, AllMarks(passes), attempt, now);
      var decision := Check(before, attempt.address, attempt.now).1;
      if decision.Allowed? {
        assert passes'[..|passes|] == passes;
      }
      forall address: Address ensures OwnGood(after, OwnMarks(passes', address), address, attempt.now) {
        OwnKept(before, OwnMarks(passes, address), address, attempt, now);
        assert OwnMarks(passes, address) + [] == OwnMarks(passes, address);
      }
    }
  }

  lemma FirstIsGood(limiter: Limiter, since: Time)
    requires limiter.buckets == map[] && limiter.global == Bucket(0, since)
    ensures Good(limiter, [], since)
  {
    NothingCounted(limiter.global, since, limiter.limits.window);
    forall address: Address ensures OwnGood(limiter, OwnMarks([], address), address, since) {
      NothingCounted(limiter.global, since, limiter.limits.window);
    }
  }

  /** The attempts of `address` that were allowed at a time in `[from, to)`. */
  function AllowedFor(passes: seq<Pass>, address: Address, from: Time, to: Time): nat {
    if passes == [] then 0
    else
      var pass := passes[|passes| - 1];
      AllowedFor(passes[..|passes| - 1], address, from, to)
      + if pass.address == address && from <= pass.now < to then 1 else 0
  }

  function AllowedTotal(passes: seq<Pass>, from: Time, to: Time): nat {
    if passes == [] then 0
    else AllowedTotal(passes[..|passes| - 1], from, to) + if from <= passes[|passes| - 1].now < to then 1 else 0
  }

  lemma {:induction false} MarksCountPasses(passes: seq<Pass>, address: Address, from: Time, to: Time)
    ensures CountIn(OwnMarks(passes, address), from, to) == AllowedFor(passes, address, from, to)
    ensures CountIn(AllMarks(passes), from, to) == AllowedTotal(passes, from, to)
    decreases |passes|
  {
    if passes != [] {
      var rest, pass := passes[..|passes| - 1], passes[|passes| - 1];
      MarksCountPasses(rest, address, from, to);
      var own, all := OwnMarks(rest, address), AllMarks(rest);
      assert (own + [Mark(pass.now, pass.ownStart)])[..|own|] == own;
      assert (all + [Mark(pass.now, pass.globalStart)])[..|all|] == all;
      assert own + [] == own;
    }
  }

  /**
   In any sliding interval of one window, an address is allowed at most twice its limit less
   one, and everybody together at most twice the global limit, whatever is evicted meanwhile.
   The map of addresses never outgrows its bound.
   */
  lemma SlidingLimits(limits: Limits, since: Time, attempts: seq<Attempt>, address: Address, from: Time)
    requires InOrder(since, attempts)
    ensures var (limiter, passes) := Run(Limiter(limits, map[], Bucket(0, since)), attempts);
            && AllowedFor(passes, address, from, from + limits.window) <= 2 * AtLeastOne(limits.perAddress) - 1
            && AllowedTotal(passes, from, from + limits.window) <= 2 * limits.global
            && |limiter.buckets| <= limits.maxTracked
  {
    hide Run, CountIn, AllowedFor, AllowedTotal;
    var (limiter, passes) := Run(Limiter(limits, map[], Bucket(0, since)), attempts);
    MarksCountPasses(passes, address, from, from + limits.window);
    TrackedStaysBounded(Limiter(limits, map[], Bucket(0, since)), attempts);
    if limits.window == 0 {
      EmptyInterval(OwnMarks(passes, address), from);
      EmptyInterval(AllMarks(passes), from);
    } else {
      RunIsGood(limits, since, attempts);
      assert OwnGood(limiter, OwnMarks(passes, address), address, LastTime(since, attempts));
      var early, late := SlidingWindow(OwnMarks(passes, address), limits.window, from);
      var early', late' := SlidingWindow(AllMarks(passes), limits.window, from);
    }
  }

  lemma {:induction false} EmptyInterval(marks: seq<Mark>, from: Time)
    ensures CountIn(marks, from, from) == 0
  {
    if marks != [] {
      EmptyInterval(marks[..|marks| - 1], from);
    }
  }

  lemma {:induction false} TrackedStaysBounded(limiter: Limiter, attempts: seq<Attempt>)
    requires |limiter.buckets| <= limiter.limits.maxTracked
    ensures Run(limiter, attempts).0.limits == limiter.limits
    ensures |Run(limiter, attempts).0.buckets| <= limiter.limits.maxTracked
    decreases |attempts|
  {
    hide Check;
    if attempts != [] {
      var attempt := attempts[|attempts| - 1];
      TrackedStaysBounded(limiter, attempts[..|attempts| - 1]);
      TrackedIsBounded(Run(limiter, attempts[..|attempts| - 1]).0, attempt.address, attempt.now);
    }
  }

  // ---------- The bounds are attained ----------

  function Repeat<T>(x: T, k: nat): (r: seq<T>)
    ensures |r| == k && forall i | 0 <= i < k :: r[i] == x
  {
    seq(k, i => x)
  }

  /** A run that has let `passes` through and left `address` and everybody with these buckets. */
  predicate Stands(
      run: (Limiter, seq<Pass>), limits: Limits, address: Address, own: Bucket, global: Bucket, passes: seq<Pass>)
  {
    && run.0.limits == limits && address in run.0.buckets && run.0.buckets[address] == own
    && run.0.global == global && run.1 == passes
  }

  lemma RunOneMore(first: Limiter, attempts: seq<Attempt>, attempt: Attempt)
    ensures var (before, passes) := Run(first, attempts);
            var (after, decision) := Check(before, attempt.address, attempt.now);
            Run(first, attempts + [attempt]) ==
            (after,
             if decision.Allowed? then
               var own := after.buckets[attempt.address];
               passes + [Pass(attempt.address, attempt.now, own.windowStart, after.global.windowStart)]
             else passes)
  {
    assert (attempts + [attempt])[..|attempts|] == attempts;
  }

  /** `k` attempts at one instant, as many as both buckets have room for, all pass. */
  lemma {:induction false} Burst(
      first: Limiter, attempts: seq<Attempt>, limits: Limits, address: Address, own: Bucket, global: Bucket,
      passes: seq<Pass>, now: Time, k: nat)
    requires limits.window > 0 && k > 0 && Stands(Run(first, attempts), limits, address, own, global, passes)
    requires Roll(own, now, limits.window).count + k <= limits.perAddress
    requires Roll(global, now, limits.window).count + k <= limits.global
    ensures var o, g := Roll(own, now, limits.window), Roll(global, now, limits.window);
            Stands(Run(first, attempts + Repeat(Attempt(address, now), k)), limits, address,
                   o.(count := o.count + k), g.(count := g.count + k),
                   passes + Repeat(Pass(address, now, o.windowStart, g.windowStart), k))
    decreases k
  {
    hide Run;
    var o, g := Roll(own, now, limits.window), Roll(global, now, limits.window);
    var attempt, pass := Attempt(address, now), Pass(address, now, o.windowStart, g.windowStart);
    var earlier, more := Repeat(attempt, k - 1), Repeat(pass, k - 1);
    if k == 1 {
      assert attempts + earlier == attempts && passes + more == passes;
    } else {
      Burst(first, attempts, limits, address, own, global, passes, now, k - 1);
    }
    RunOneMore(first, attempts + earlier, attempt);
    assert Repeat(attempt, k) == earlier + [attempt] && Repeat(pass, k) == more + [pass];
    assert attempts + Repeat(attempt, k) == attempts + earlier + [attempt];
    assert passes + Repeat(pass, k) == passes + more + [pass];
  }

  lemma CountOneMore(passes: seq<Pass>, pass: Pass, from: Time, to: Time)
    ensures var one := if from <= pass.now < to then 1 else 0;
            && AllowedFor(passes + [pass], pass.address, from, to) == AllowedFor(passes, pass.address, from, to) + one
            && AllowedTotal(passes + [pass], from, to) == AllowedTotal(passes, from, to) + one
  {
    assert (passes + [pass])[..|passes|] == passes;
  }

  lemma {:induction false} CountRepeats(passes: seq<Pass>, pass: Pass, k: nat, from: Time, to: Time)
    ensures var all := if from <= pass.now < to then k else 0;
            && AllowedFor(passes + Repeat(pass, k), pass.address, from, to)
               == AllowedFor(passes, pass.address, from, to) + all
            && AllowedTotal(passes + Repeat(pass, k), from, to) == AllowedTotal(passes, from, to) + all
    decreases k
  {
    hide AllowedFor, AllowedTotal;
    if k == 0 {
      assert passes + Repeat(pass, 0) == passes;
    } else {
      CountRepeats(passes, pass, k - 1, from, to);
      CountOneMore(passes + Repeat(pass, k - 1), pass, from, to);
      assert passes + Repeat(pass, k) == passes + Repeat(pass, k - 1) + [pass];
    }
  }

  /** The first attempt of an address that is new, while there is room for it. */
  lemma FirstAttempt(limits: Limits, now: Time)
    requires limits.global >= 1 && limits.maxTracked >= 1 && now < limits.window
    ensures Stands(Run(Limiter(limits, map[], Bucket(0, 0)), [Attempt(1, now)]), limits, 1,
                   Bucket(1, now), Bucket(1, 0), [Pass(1, now, now, 0)])
  {
    var first := Limiter(limits, map[], Bucket(0, 0));
    RunOneMore(first, [], Attempt(1, now));
    assert [] + [Attempt(1, now)] == [Attempt(1, now)];
    assert [] + [Pass(1, now, now, 0)] == [Pass(1, now, now, 0)];
  }

  /** One attempt at the start, the rest of a window's worth at its end, and a full window's worth right after. */
  function OwnRush(limits: Limits): seq<Attempt>
    requires limits.perAddress >= 1 && limits.window >= 2
  {
    [Attempt(1, 0)] + Repeat(Attempt(1, limits.window - 1), limits.perAddress - 1)
    + Repeat(Attempt(1, limits.window), limits.perAddress)
  }

  /** The bound for one address is attained, for every limit that the global one does not cut short. */
  lemma OwnBoundIsAttained(limits: Limits)
    requires limits.perAddress >= 1 && limits.window >= 2
    requires limits.global >= limits.perAddress && limits.maxTracked >= 1
    ensures InOrder(0, OwnRush(limits))
    ensures var passes := Run(Limiter(limits, map[], Bucket(0, 0)), OwnRush(limits)).1;
            AllowedFor(passes, 1, limits.window - 1, limits.window - 1 + limits.window) == 2 * limits.perAddress - 1
  {
    hide Run, AllowedFor, AllowedTotal, Check;
    var limit, window := limits.perAddress, limits.window;
    var first, from, to := Limiter(limits, map[], Bucket(0, 0)), window - 1, window - 1 + window;
    var one, passes := [Attempt(1, 0)], [Pass(1, 0, 0, 0)];
    FirstAttempt(limits, 0);
    FillWindow(first, one, limits, 1, Bucket(1, 0), Bucket(1, 0), passes, window - 1, limit - 1);
    var two := one + Repeat(Attempt(1, window - 1), limit - 1);
    var late := passes + Repeat(Pass(1, window - 1, 0, 0), limit - 1);
    FillWindow(first, two, limits, 1, Bucket(limit, 0), Bucket(limit, 0), late, window, limit);
    CountOneMore([], Pass(1, 0, 0, 0), from, to);
    assert [] + [Pass(1, 0, 0, 0)] == passes && AllowedFor([], 1, from, to) == 0 by { NonePassed(from, to); }
    CountRepeats(passes, Pass(1, window - 1, 0, 0), limit - 1, from, to);
    CountRepeats(late, Pass(1, window, window, window), limit, from, to);
  }

  lemma NonePassed(from: Time, to: Time)
    ensures AllowedFor([], 1, from, to) == 0 && AllowedTotal([], from, to) == 0
  {
  }

  /** A burst that may be empty, when the buckets stand where they are before it. */
  lemma FillWindow(
      first: Limiter, attempts: seq<Attempt>, limits: Limits, address: Address, own: Bucket, global: Bucket,
      passes: seq<Pass>, now: Time, k: nat)
    requires limits.window > 0 && Stands(Run(first, attempts), limits, address, own, global, passes)
    requires Roll(own, now, limits.window).count + k <= limits.perAddress
    requires Roll(global, now, limits.window).count + k <= limits.global
    requires k == 0 ==> Roll(own, now, limits.window) == own && Roll(global, now, limits.window) == global
    ensures var o, g := Roll(own, now, limits.window), Roll(global, now, limits.window);
            Stands(Run(first, attempts + Repeat(Attempt(address, now), k)), limits, address,
                   o.(count := o.count + k), g.(count := g.count + k),
                   passes + Repeat(Pass(address, now, o.windowStart, g.windowStart), k))
  {
    hide Run, Check;
    if k > 0 {
      Burst(first, attempts, limits, address, own, global, passes, now, k);
    } else {
      assert attempts + [] == attempts && passes + [] == passes;
    }
  }

  /** A window's worth for everybody at the end of a window, and another right after. */
  function GlobalRush(limits: Limits): seq<Attempt>
    requires limits.window >= 1
  {
    Repeat(Attempt(1, limits.window - 1), limits.global) + Repeat(Attempt(1, limits.window), limits.global)
  }

  /** The global bound is attained, for every limit that the one per address does not cut short. */
  lemma GlobalBoundIsAttained(limits: Limits)
    requires limits.global >= 1 && limits.window >= 2
    requires limits.perAddress >= 2 * limits.global && limits.maxTracked >= 1
    ensures InOrder(0, GlobalRush(limits))
    ensures var passes := Run(Limiter(limits, map[], Bucket(0, 0)), GlobalRush(limits)).1;
            AllowedTotal(passes, limits.window - 1, limits.window - 1 + limits.window) == 2 * limits.global
  {
    hide Run, AllowedFor, AllowedTotal, Check;
    var limit, window := limits.global, limits.window;
    var first, from, to := Limiter(limits, map[], Bucket(0, 0)), window - 1, window - 1 + window;
    var attempt, pass := Attempt(1, window - 1), Pass(1, window - 1, window - 1, 0);
    FirstAttempt(limits, window - 1);
    FillWindow(first, [attempt], limits, 1, Bucket(1, window - 1), Bucket(1, 0), [pass], window - 1, limit - 1);
    assert [attempt] + Repeat(attempt, limit - 1) == Repeat(attempt, limit);
    assert [pass] + Repeat(pass, limit - 1) == Repeat(pass, limit);
    var early, passes := Repeat(attempt, limit), Repeat(pass, limit);
    FillWindow(first, early, limits, 1, Bucket(limit, window - 1), Bucket(limit, 0), passes, window, limit);
    CountRepeats([], pass, limit, from, to);
    assert [] + passes == passes && AllowedTotal([], from, to) == 0 by { NonePassed(from, to); }
    CountRepeats(passes, Pass(1, window, window - 1, window), limit, from, to);
  }
}
