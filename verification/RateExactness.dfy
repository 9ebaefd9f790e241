/**
 Exactly which login attempts the rate limiter of crates/fah-api/src/password.rs lets through.

 The windows are defined here from the attempts alone, without buckets: an attempt opens a window
 when the one before has ended, and a window holds the attempts from its opening on. The limiter
 is then shown to allow an attempt if and only if its address has a place, its own window is not
 over the limit and the window of everybody is not over theirs.
 */
module RateExactness {
  import opened Wrappers
  import opened RateLimiting

  // ---------- Windows, from times alone ----------

  /** Which of the times opened the window that the last one belongs to. */
  function Opener(times: seq<Time>, window: Time): (k: nat)
    requires times != []
    ensures k < |times|
  {
    var last := |times| - 1;
    if last == 0 then 0
    else
      var k := Opener(times[..last], window);
      if Elapsed(times[k], times[last]) >= window then last else k
  }

  function Opening(times: seq<Time>, window: Time): Time
    requires times != []
  {
    times[Opener(times, window)]
  }

  /** How many of the times belong to the window of the last one. */
  function Held(times: seq<Time>, window: Time): nat
    requires times != []
  {
    |times| - Opener(times, window)
  }

  predicate Ascending(times: seq<Time>) {
    forall i, j | 0 <= i < j < |times| :: times[i] <= times[j]
  }

  /** The current window holds exactly the times from its opening on, and spans less than its length. */
  lemma {:induction false} CurrentWindow(times: seq<Time>, window: Time)
    requires times != [] && Ascending(times) && window > 0
    ensures forall i | 0 <= i < |times| :: Opener(times, window) <= i <==> Opening(times, window) <= times[i]
    ensures times[|times| - 1] < Opening(times, window) + window
    decreases |times|
  {
    if |times| > 1 {
      var earlier := times[..|times| - 1];
      assert forall i | 0 <= i < |earlier| :: earlier[i] == times[i];
      CurrentWindow(earlier, window);
    }
  }

  lemma OneMoreTime(times: seq<Time>, now: Time, window: Time)
    requires times != []
    ensures var ends := Elapsed(Opening(times, window), now) >= window;
            && Opener(times + [now], window) == (if ends then |times| else Opener(times, window))
            && Opening(times + [now], window) == (if ends then now else Opening(times, window))
            && Held(times + [now], window) == (if ends then 1 else Held(times, window) + 1)
  {
    assert (times + [now])[..|times|] == times;
  }

  // ---------- What the attempts so far amount to ----------

  /** The attempts of `address` that had a place to be counted in. */
  function OwnTimes(limits: Limits, past: seq<Attempt>, address: Address): seq<Time>
    decreases |past|, 3
  {
    if past == [] then []
    else
      var earlier, last := past[..|past| - 1], past[|past| - 1];
      OwnTimes(limits, earlier, address)
      + if last.address == address && HasPlace(limits, earlier, last) then [last.now] else []
  }

  /** The addresses with a place. */
  function Placed(limits: Limits, past: seq<Attempt>): set<Address>
    decreases |past|, 3
  {
    if past == [] then {}
    else
      var earlier, last := past[..|past| - 1], past[|past| - 1];
      Keeping(limits, earlier, last) + if HasPlace(limits, earlier, last) then {last.address} else {}
  }

  /** The addresses whose current window has not ended by `now`. */
  predicate Current(limits: Limits, past: seq<Attempt>, address: Address, now: Time)
    decreases |past|, 4
  {
    var times := OwnTimes(limits, past, address);
    times != [] && Elapsed(Opening(times, limits.window), now) < limits.window
  }

  /** Who keeps a place when an attempt comes: a newcomer to a full house frees those that have ended. */
  function Keeping(limits: Limits, past: seq<Attempt>, attempt: Attempt): set<Address>
    decreases |past|, 5
  {
    var placed := Placed(limits, past);
    if attempt.address in placed || |placed| < limits.maxTracked then placed
    else set address | address in placed && Current(limits, past, address, attempt.now)
  }

  /** The address of the attempt has a place, or there is one free, or one can be freed. */
  predicate HasPlace(limits: Limits, past: seq<Attempt>, attempt: Attempt)
    decreases |past|, 6
  {
    attempt.address in Placed(limits, past) || |Keeping(limits, past, attempt)| < limits.maxTracked
  }

  /** With this attempt, its address is over its own limit in its current window. */
  predicate OverOwn(limits: Limits, past: seq<Attempt>, attempt: Attempt) {
    && attempt.address in Placed(limits, past)
    && Held(OwnTimes(limits, past, attempt.address) + [attempt.now], limits.window) > limits.perAddress
  }

  /** The attempts that were not turned away by their own limit. */
  function SharedTimes(limits: Limits, past: seq<Attempt>): seq<Time> {
    if past == [] then []
    else
      var earlier, last := past[..|past| - 1], past[|past| - 1];
      SharedTimes(limits, earlier) + if OverOwn(limits, earlier, last) then [] else [last.now]
  }

  /** How many of them are in the current window of everybody; the first one opened with the limiter. */
  function SharedHeld(since: Time, times: seq<Time>, window: Time): nat {
    var all := [since] + times;
    |all| - if Opener(all, window) == 0 then 1 else Opener(all, window)
  }

  function SharedOpening(since: Time, times: seq<Time>, window: Time): Time {
    Opening([since] + times, window)
  }

  // ---------- The limiter counts just that ----------

  ghost predicate CountsOwn(limiter: Limiter, times: seq<Time>, address: Address, now: Time) {
    var window := limiter.limits.window;
    if address in limiter.buckets then
      times != [] && limiter.buckets[address] == Bucket(Held(times, window), Opening(times, window))
    else
      times != [] ==> Elapsed(Opening(times, window), now) >= window
  }

  ghost predicate CountsShared(limiter: Limiter, since: Time, times: seq<Time>) {
    var window := limiter.limits.window;
    limiter.global == Bucket(SharedHeld(since, times, window), SharedOpening(since, times, window))
  }

  ghost predicate Accounts(limiter: Limiter, limits: Limits, since: Time, past: seq<Attempt>) {
    && limiter.limits == limits && limiter.buckets.Keys == Placed(limits, past)
    && CountsShared(limiter, since, SharedTimes(limits, past))
    && forall address: Address ::
         CountsOwn(limiter, OwnTimes(limits, past, address), address, LastTime(since, past))
  }

  lemma RolledOwn(times: seq<Time>, now: Time, window: Time)
    requires times != []
    ensures Bump(Roll(Bucket(Held(times, window), Opening(times, window)), now, window)) ==
            Bucket(Held(times + [now], window), Opening(times + [now], window))
  {
    hide Opener, Held, Opening;
    OneMoreTime(times, now, window);
  }

  lemma RolledShared(since: Time, times: seq<Time>, now: Time, window: Time)
    ensures Bump(Roll(Bucket(SharedHeld(since, times, window), SharedOpening(since, times, window)), now, window)) ==
            Bucket(SharedHeld(since, times + [now], window), SharedOpening(since, times + [now], window))
  {
    hide Opener;
    OneMoreTime([since] + times, now, window);
    assert [since] + (times + [now]) == [since] + times + [now];
  }

  /** The places as the limiter sees them. */
  lemma SamePlaces(limiter: Limiter, limits: Limits, since: Time, past: seq<Attempt>, attempt: Attempt)
    requires Accounts(limiter, limits, since, past)
    ensures attempt.address !in limiter.buckets ==>
              Kept(limiter, attempt.now).Keys == Keeping(limits, past, attempt)
    ensures attempt.address in limiter.buckets <==> attempt.address in Placed(limits, past)
    ensures Claim(limiter, attempt.address, attempt.now).Some? <==> HasPlace(limits, past, attempt)
  {
    hide OwnTimes, Placed, SharedTimes, CountsShared;
    var kept := Kept(limiter, attempt.now);
    assert |limiter.buckets| == |limiter.buckets.Keys| && |kept| == |kept.Keys|;
    if attempt.address !in limiter.buckets {
      forall address | address in limiter.buckets
        ensures address in kept <==> address in Keeping(limits, past, attempt)
      {
        assert CountsOwn(limiter, OwnTimes(limits, past, address), address, LastTime(since, past));
      }
    }
  }

  /** The own limit as the limiter applies it. */
  lemma SameOwnLimit(limiter: Limiter, limits: Limits, since: Time, past: seq<Attempt>, attempt: Attempt)
    requires Accounts(limiter, limits, since, past) && attempt.address in limiter.buckets
    ensures var times := OwnTimes(limits, past, attempt.address);
            && times != []
            && Bump(Roll(limiter.buckets[attempt.address], attempt.now, limits.window)) ==
               Bucket(Held(times + [attempt.now], limits.window), Opening(times + [attempt.now], limits.window))
  {
    hide OwnTimes, Placed, SharedTimes, Held, Opening, Roll, Bump;
    var times := OwnTimes(limits, past, attempt.address);
    assert CountsOwn(limiter, times, attempt.address, LastTime(since, past));
    RolledOwn(times, attempt.now, limits.window);
  }

  // ---------- Decisions ----------

  predicate OverShared(limits: Limits, since: Time, past: seq<Attempt>, attempt: Attempt) {
    SharedHeld(since, SharedTimes(limits, past) + [attempt.now], limits.window) > limits.global
  }

  /** When the window that limits an attempt opened: its own if that is full, and otherwise everybody's. */
  function LimitingOpening(limits: Limits, since: Time, past: seq<Attempt>, attempt: Attempt): Time {
    if OverOwn(limits, past, attempt) then
      Opening(OwnTimes(limits, past, attempt.address) + [attempt.now], limits.window)
    else
      SharedOpening(since, SharedTimes(limits, past) + [attempt.now], limits.window)
  }

  /** Whole seconds, rounded down but at least one, until the window that opened at `opening` ends. */
  predicate WaitsFor(seconds: nat, opening: Time, now: Time, window: Time) {
    && seconds >= 1 && opening + window < now + (seconds + 1) * NANOS_PER_SECOND
    && (seconds == 1 || now + seconds * NANOS_PER_SECOND <= opening + window)
  }

  lemma RetryWaits(bucket: Bucket, now: Time, window: Time)
    requires bucket.windowStart <= now
    ensures WaitsFor(RetryAfter(bucket, now, window), bucket.windowStart, now, window)
  {
    var elapsed := Elapsed(bucket.windowStart, now);
    var remaining := if window < elapsed then 0 else window - elapsed;
    assert remaining == NANOS_PER_SECOND * (remaining / NANOS_PER_SECOND) + remaining % NANOS_PER_SECOND;
  }

  lemma Decides(limiter: Limiter, limits: Limits, since: Time, past: seq<Attempt>, attempt: Attempt)
    requires Accounts(limiter, limits, since, past)
    ensures var decision := Check(limiter, attempt.address, attempt.now).1;
            && (decision.Allowed? <==>
                  && HasPlace(limits, past, attempt)
                  && !OverOwn(limits, past, attempt)
                  && !OverShared(limits, since, past, attempt))
            && (decision.Limited? && LimitingOpening(limits, since, past, attempt) <= attempt.now ==>
                  WaitsFor(decision.retryAfter, LimitingOpening(limits, since, past, attempt),
                           attempt.now, limits.window))
  {
    hide OwnTimes, Placed, SharedTimes, Held, Opening, SharedHeld, SharedOpening, Roll, Bump, RetryAfter, WaitsFor;
    hide HasPlace, Kept, CountsOwn;
    var window, now := limits.window, attempt.now;
    SamePlaces(limiter, limits, since, past, attempt);
    RolledShared(since, SharedTimes(limits, past), now, window);
    var global := Bump(Roll(limiter.global, now, window));
    if global.windowStart <= now {
      RetryWaits(global, now, window);
    }
    if attempt.address in limiter.buckets {
      SameOwnLimit(limiter, limits, since, past, attempt);
      var own := Bump(Roll(limiter.buckets[attempt.address], now, window));
      if own.windowStart <= now {
        RetryWaits(own, now, window);
      }
    }
  }

  // ---------- Every attempt is accounted for ----------

  lemma LastOf(past: seq<Attempt>, attempt: Attempt)
    ensures (past + [attempt])[..|past|] == past && (past + [attempt])[|past|] == attempt
  {
  }

  /** What one more attempt adds to each of the accounts. */
  lemma OneMoreAttempt(limits: Limits, past: seq<Attempt>, attempt: Attempt, address: Address)
    ensures var more := past + [attempt];
            && OwnTimes(limits, more, address) ==
                 OwnTimes(limits, past, address)
                 + (if attempt.address == address && HasPlace(limits, past, attempt) then [attempt.now] else [])
            && Placed(limits, more) ==
                 Keeping(limits, past, attempt)
                 + (if HasPlace(limits, past, attempt) then {attempt.address} else {})
            && SharedTimes(limits, more) ==
                 SharedTimes(limits, past) + (if OverOwn(limits, past, attempt) then [] else [attempt.now])
  {
    LastOf(past, attempt);
  }

  lemma OthersCounted(
      limiter: Limiter, limits: Limits, since: Time, past: seq<Attempt>, attempt: Attempt, address: Address)
    requires Accounts(limiter, limits, since, past) && LastTime(since, past) <= attempt.now
    requires address != attempt.address
    ensures CountsOwn(Check(limiter, attempt.address, attempt.now).0, OwnTimes(limits, past, address),
                      address, attempt.now)
  {
    hide OwnTimes, Placed, SharedTimes, CountsShared, Held, Opening, RetryAfter, Bump, Roll;
    assert CountsOwn(limiter, OwnTimes(limits, past, address), address, LastTime(since, past));
  }

  lemma OwnCounted(limiter: Limiter, limits: Limits, since: Time, past: seq<Attempt>, attempt: Attempt)
    requires Accounts(limiter, limits, since, past) && LastTime(since, past) <= attempt.now
    ensures var times := OwnTimes(limits, past, attempt.address);
            CountsOwn(Check(limiter, attempt.address, attempt.now).0,
                      times + (if HasPlace(limits, past, attempt) then [attempt.now] else []),
                      attempt.address, attempt.now)
  {
    hide OwnTimes, Placed, SharedTimes, CountsShared, HasPlace, Keeping, Held, Opening, RetryAfter, OverOwn, Bump, Roll;
    var times := OwnTimes(limits, past, attempt.address);
    assert CountsOwn(limiter, times, attempt.address, LastTime(since, past));
    SamePlaces(limiter, limits, since, past, attempt);
    if attempt.address in limiter.buckets {
      SameOwnLimit(limiter, limits, since, past, attempt);
    } else if times == [] {
      FirstTime(attempt.now, limits.window);
      assert times + [attempt.now] == [attempt.now];
    } else {
      OneMoreTime(times, attempt.now, limits.window);
    }
    assert times + [] == times;
  }

  lemma FirstTime(now: Time, window: Time)
    ensures Held([now], window) == 1 && Opening([now], window) == now
  {
  }

  lemma SharedCounted(limiter: Limiter, limits: Limits, since: Time, past: seq<Attempt>, attempt: Attempt)
    requires Accounts(limiter, limits, since, past)
    ensures CountsShared(Check(limiter, attempt.address, attempt.now).0, since, SharedTimes(limits, past + [attempt]))
  {
    hide OwnTimes, Placed, SharedTimes, HasPlace, Keeping, Held, Opening, SharedHeld, SharedOpening, RetryAfter;
    hide Roll, Bump, Kept;
    var times := SharedTimes(limits, past);
    OneMoreAttempt(limits, past, attempt, attempt.address);
    SamePlaces(limiter, limits, since, past, attempt);
    RolledShared(since, times, attempt.now, limits.window);
    if attempt.address in limiter.buckets {
      SameOwnLimit(limiter, limits, since, past, attempt);
    }
    assert times + [] == times;
  }

  lemma PlacesKept(limiter: Limiter, limits: Limits, since: Time, past: seq<Attempt>, attempt: Attempt)
    requires Accounts(limiter, limits, since, past)
    ensures Check(limiter, attempt.address, attempt.now).0.buckets.Keys == Placed(limits, past + [attempt])
  {
    hide OwnTimes, Placed, SharedTimes, CountsShared, CountsOwn, HasPlace, Kept, Roll, RetryAfter, OverOwn;
    OneMoreAttempt(limits, past, attempt, attempt.address);
    SamePlaces(limiter, limits, since, past, attempt);
    PlacedHasPlace(limits, past, attempt);
  }

  lemma PlacedHasPlace(limits: Limits, past: seq<Attempt>, attempt: Attempt)
    ensures attempt.address in Placed(limits, past) ==>
              HasPlace(limits, past, attempt) && Keeping(limits, past, attempt) == Placed(limits, past)
  {
  }

  lemma {:induction false} RunAccounts(limits: Limits, since: Time, past: seq<Attempt>)
    requires InOrder(since, past)
    ensures Accounts(Run(Limiter(limits, map[], Bucket(0, since)), past).0, limits, since, past)
    decreases |past|
  {
    hide Check, OwnTimes, Placed, SharedTimes, CountsOwn, CountsShared;
    var first := Limiter(limits, map[], Bucket(0, since));
    if past == [] {
      NothingYet(limits, since);
    } else {
      var earlier, last := past[..|past| - 1], past[|past| - 1];
      RunAccounts(limits, since, earlier);
      assert past == earlier + [last];
      var before := Run(first, earlier).0;
      SharedCounted(before, limits, since, earlier, last);
      PlacesKept(before, limits, since, earlier, last);
      forall address: Address
        ensures CountsOwn(Run(first, past).0, OwnTimes(limits, past, address), address, last.now)
      {
        OneMoreAttempt(limits, earlier, last, address);
        if address == last.address {
          OwnCounted(before, limits, since, earlier, last);
        } else {
          OthersCounted(before, limits, since, earlier, last, address);
          assert OwnTimes(limits, earlier, address) + [] == OwnTimes(limits, earlier, address);
        }
      }
    }
  }

  lemma NothingYet(limits: Limits, since: Time)
    ensures Accounts(Limiter(limits, map[], Bucket(0, since)), limits, since, [])
  {
    assert [since] + [] == [since];
  }

  /**
   After any attempts at all, the next one is allowed if and only if its address has a place, that
   address is not over its own limit with it, and everybody together are not over theirs: attempts
   turned away by their own limit do not count there. One that is not allowed is told to wait for
   the window that limits it, in whole seconds rounded down, but for one second at least.
   */
  lemma AllowedIff(limits: Limits, since: Time, past: seq<Attempt>, attempt: Attempt)
    requires InOrder(since, past + [attempt])
    ensures var limiter := Run(Limiter(limits, map[], Bucket(0, since)), past).0;
            var decision := Check(limiter, attempt.address, attempt.now).1;
            && (decision.Allowed? <==>
                  && HasPlace(limits, past, attempt)
                  && !OverOwn(limits, past, attempt)
                  && !OverShared(limits, since, past, attempt))
            && (decision.Limited? ==>
                  WaitsFor(decision.retryAfter, LimitingOpening(limits, since, past, attempt),
                           attempt.now, limits.window))
  {
    hide Run, Check, Accounts, WaitsFor, OverOwn, HasPlace, OverShared, LimitingOpening;
    assert past == (past + [attempt])[..|past|];
    assert forall i | 0 <= i < |past| :: past[i] == (past + [attempt])[i];
    RunAccounts(limits, since, past);
    Decides(Run(Limiter(limits, map[], Bucket(0, since)), past).0, limits, since, past, attempt);
    OpenedBefore(limits, since, past, attempt);
  }

  predicate NoneAfter(times: seq<Time>, now: Time) {
    forall i | 0 <= i < |times| :: times[i] <= now
  }

  lemma OpenedBefore(limits: Limits, since: Time, past: seq<Attempt>, attempt: Attempt)
    requires InOrder(since, past + [attempt])
    ensures LimitingOpening(limits, since, past, attempt) <= attempt.now
  {
    hide OwnTimes, SharedTimes, OverOwn;
    assert past == (past + [attempt])[..|past|];
    assert forall i | 0 <= i < |past| :: past[i] == (past + [attempt])[i];
    TimesInPast(limits, since, past, attempt.address);
    assert (past + [attempt])[|past|] == attempt && LastTime(since, past) <= attempt.now;
    assert NoneAfter(OwnTimes(limits, past, attempt.address) + [attempt.now], attempt.now);
    assert NoneAfter([since] + (SharedTimes(limits, past) + [attempt.now]), attempt.now);
  }

  lemma {:induction false} TimesInPast(limits: Limits, since: Time, past: seq<Attempt>, address: Address)
    requires InOrder(since, past)
    ensures since <= LastTime(since, past)
    ensures NoneAfter(OwnTimes(limits, past, address), LastTime(since, past))
    ensures NoneAfter(SharedTimes(limits, past), LastTime(since, past))
    decreases |past|
  {
    hide HasPlace, OverOwn;
    if past != [] {
      TimesInPast(limits, since, past[..|past| - 1], address);
      assert LastTime(since, past[..|past| - 1]) <= LastTime(since, past);
    }
  }

  /** The same of the object: it decides every attempt of a sequence by what came before. */
  method Replay(limits: Limits, since: Time, attempts: seq<Attempt>) returns (decisions: seq<Decision>)
    requires InOrder(since, attempts)
    ensures |decisions| == |attempts|
    ensures forall i | 0 <= i < |attempts| ::
              decisions[i].Allowed? <==>
                && HasPlace(limits, attempts[..i], attempts[i])
                && !OverOwn(limits, attempts[..i], attempts[i])
                && !OverShared(limits, since, attempts[..i], attempts[i])
  {
    hide Check, HasPlace, OverOwn, OverShared, WaitsFor, LimitingOpening, Run;
    var limiter := new RateLimiter(limits, since);
    ghost var first := Limiter(limits, map[], Bucket(0, since));
    decisions := [];
    RunStarts(first);
    for i := 0 to |attempts|
      invariant limiter.State() == Run(first, attempts[..i]).0 && |decisions| == i
      invariant forall k | 0 <= k < i ::
                  decisions[k].Allowed? <==>
                    && HasPlace(limits, attempts[..k], attempts[k])
                    && !OverOwn(limits, attempts[..k], attempts[k])
                    && !OverShared(limits, since, attempts[..k], attempts[k])
    {
      var past, attempt := attempts[..i], attempts[i];
      assert attempts[..i + 1] == past + [attempt];
      AllowedIff(limits, since, past, attempt);
      RunOneMore(first, past, attempt);
      var decision := limiter.Attempt(attempt.address, attempt.now);
      decisions := decisions + [decision];
    }
  }

  lemma RunStarts(first: Limiter)
    ensures Run(first, []).0 == first
  {
  }
}
