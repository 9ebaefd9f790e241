/**
 How a pre-warm is answered (`CertStore::prewarm` in crates/fah-certs/src/store.rs), read off the
 steps of its call and the authority slot at those steps: when it is refused, and that nothing is
 leased or minted for it except under an authority that was valid when the call looked.
 */
module CertAnswers {
  import opened Wrappers
  import opened LeafCaching
  import opened CertProtocol
  import opened CertSafety
  import opened CertTheorems

  predicate ValidAt(slot: Option<Authority>, now: int) {
    slot.Some? && slot.value.notBefore <= now <= slot.value.notAfter
  }

  predicate LooksUp(step: Step, t: Tid) {
    step.ReadEpoch? && step.t == t
  }

  /** The last time before `j` that the call, begun at `i`, took the slot. */
  ghost predicate LastLock(steps: seq<Step>, t: Tid, i: nat, k: nat, j: nat) {
    i < k < j <= |steps| && steps[k] == LockSlot(t) && forall m | k < m < j :: steps[m] != LockSlot(t)
  }

  /** The last time before `j` that the call read the epoch and the clock. */
  ghost predicate LastLook(steps: seq<Step>, t: Tid, i: nat, k: nat, j: nat) {
    i < k < j <= |steps| && LooksUp(steps[k], t) && forall m | k < m < j :: !LooksUp(steps[m], t)
  }

  ghost predicate FoundNone(states: seq<State>, steps: seq<Step>, t: Tid, i: nat, j: nat)
    requires |states| == |steps| + 1
  {
    exists k: nat :: LastLock(steps, t, i, k, j) && states[k].slot == None
  }

  ghost predicate FoundInvalid(states: seq<State>, steps: seq<Step>, t: Tid, i: nat, j: nat)
    requires |states| == |steps| + 1
  {
    exists k: nat :: LastLook(steps, t, i, k, j) && !ValidAt(states[k].slot, steps[k].now)
  }

  ghost predicate FailedToMint(steps: seq<Step>, t: Tid, i: nat, j: nat)
    requires j <= |steps|
  {
    exists k | i < k < j :: steps[k] == MintErr(t)
  }

  // ---------- When a call is refused ----------

  /** The call has been refused, or is on its way to say so. */
  predicate Doomed(pc: Pc) {
    match pc
    case Returned(_, answer) => answer.Refused?
    case Releasing(_, outcome) => outcome.MintFailed?
    case Notifying(_, outcome) => outcome.MintFailed?
    case _ => false
  }

  lemma StepDooms(s: State, step: Step, t: Tid)
    requires SlotBound(s) && Enabled(s, step) && t in s.threads && InCall(s.threads[t])
    requires !((step.BeginPrewarm? || step.BeginInstall?) && step.t == t)
    ensures t in Apply(s, step).threads
    ensures Doomed(Apply(s, step).threads[t]) <==>
              if step == LockSlot(t) then s.slot == None
              else if LooksUp(step, t) then !ValidAt(s.slot, step.now)
              else step == MintErr(t) || Doomed(s.threads[t])
    ensures step == LockSlot(t) || LooksUp(step, t) ==> !Doomed(s.threads[t])
  {
    hide Store, Take, LeafExpiry;
    if step.Serve? || step.t != t {
      OthersRemain(s, step, t);
      OthersStay(s, step, t);
    }
  }

  lemma LastLockMoves(states: seq<State>, steps: seq<Step>, t: Tid, i: nat, j: nat)
    requires |states| == |steps| + 1 && i < j < |steps|
    ensures FoundNone(states, steps, t, i, j + 1) <==>
              if steps[j] == LockSlot(t) then states[j].slot == None else FoundNone(states, steps, t, i, j)
  {
    if steps[j] == LockSlot(t) {
      assert LastLock(steps, t, i, j, j + 1);
    } else {
      assert forall k: nat :: LastLock(steps, t, i, k, j + 1) <==> LastLock(steps, t, i, k, j);
    }
  }

  lemma LastLookMoves(states: seq<State>, steps: seq<Step>, t: Tid, i: nat, j: nat)
    requires |states| == |steps| + 1 && i < j < |steps|
    ensures FoundInvalid(states, steps, t, i, j + 1) <==>
              if LooksUp(steps[j], t) then !ValidAt(states[j].slot, steps[j].now)
              else FoundInvalid(states, steps, t, i, j)
  {
    if LooksUp(steps[j], t) {
      assert LastLook(steps, t, i, j, j + 1);
    } else {
      assert forall k: nat :: LastLook(steps, t, i, k, j + 1) <==> LastLook(steps, t, i, k, j);
    }
  }

  lemma {:induction false} DoomedIff(states: seq<State>, steps: seq<Step>, t: Tid, i: nat, j: nat)
    requires CallSpan(states, steps, t, i, j)
    ensures t in states[j].threads && InCall(states[j].threads[t])
    ensures Doomed(states[j].threads[t]) <==>
            || FoundNone(states, steps, t, i, j)
            || FoundInvalid(states, steps, t, i, j)
            || FailedToMint(steps, t, i, j)
    decreases j - i
  {
    hide Apply, Enabled, Init, FoundNone, FoundInvalid, Doomed, ValidAt, SlotHeld, SlotBound, ThreadsSound;
    hide EntriesSound, SingleFlight, NoLostWakeup, Conserved, Caches, InCall;
    CallKeepsStart(states, steps, t, i, j);
    if j == i + 1 {
      BeginIsNotDoomed(states, steps, t, i);
    } else {
      DoomedIff(states, steps, t, i, j - 1);
      RunKeepsInv(states, steps, j - 1);
      StepDooms(states[j - 1], steps[j - 1], t);
      LastLockMoves(states, steps, t, i, j - 1);
      LastLookMoves(states, steps, t, i, j - 1);
    }
  }

  lemma BeginIsNotDoomed(states: seq<State>, steps: seq<Step>, t: Tid, i: nat)
    requires CallSpan(states, steps, t, i, i + 1)
    ensures t in states[i + 1].threads && !Doomed(states[i + 1].threads[t])
    ensures !FoundNone(states, steps, t, i, i + 1) && !FoundInvalid(states, steps, t, i, i + 1)
  {
    hide Apply, Enabled, Init;
    BeginStartsCall(states[i], steps[i]);
  }

  /**
   A call that has returned was refused exactly when it last found no authority, when the last
   authority it found was not valid at the time it read, or when its mint failed. Every other one
   was served.
   */
  lemma RefusedIff(states: seq<State>, steps: seq<Step>, t: Tid, i: nat, j: nat)
    requires CallSpan(states, steps, t, i, j) && t in states[j].threads && states[j].threads[t].Returned?
    ensures states[j].threads[t].answer.Refused? <==>
            || FoundNone(states, steps, t, i, j)
            || FoundInvalid(states, steps, t, i, j)
            || FailedToMint(steps, t, i, j)
  {
    hide CallSpan, FoundNone, FoundInvalid;
    DoomedIff(states, steps, t, i, j);
  }

  // ---------- Under which authority a call leases and mints ----------

  /** The call has passed the test of its authority's validity and not begun another round. */
  predicate Passed(pc: Pc) {
    || pc.Leasing? || pc.Asleep? || pc.Minting? || pc.Minted? || pc.Releasing? || pc.Notifying?
    || (pc.Returned? && pc.answer.Served?)
  }

  /** What the call holds comes from `ca`, or was fresh at `now`. */
  predicate BackedBy(pc: Pc, ca: Authority, now: int) {
    match pc
    case Leasing(_, issuer, _, at) => issuer == ca && at == now
    case Asleep(_, issuer, _, at) => issuer == ca && at == now
    case Minting(_, issuer, _) => issuer == ca
    case Minted(_, leaf, _) => leaf.issuer == ca
    case Releasing(_, outcome) => outcome.Stored? ==> outcome.leaf.issuer == ca
    case Notifying(_, outcome) => outcome.Stored? ==> outcome.leaf.issuer == ca
    case Returned(_, answer) => answer.Served? ==> answer.leaf.issuer == ca || now < answer.leaf.notAfter
    case _ => true
  }

  lemma StepBacks(s: State, step: Step, t: Tid, ca: Authority, now: int)
    requires EntriesSound(s) && Enabled(s, step) && t in s.threads && InCall(s.threads[t])
    requires !((step.BeginPrewarm? || step.BeginInstall?) && step.t == t) && !LooksUp(step, t)
    ensures t in Apply(s, step).threads
    ensures Passed(Apply(s, step).threads[t]) ==> Passed(s.threads[t])
    ensures Passed(s.threads[t]) && BackedBy(s.threads[t], ca, now) ==> BackedBy(Apply(s, step).threads[t], ca, now)
  {
    if step.Serve? || step.t != t {
      hide Apply, Enabled, EntriesSound;
      OthersRemain(s, step, t);
      OthersStay(s, step, t);
    } else {
      OwnStepBacks(s, step, t, ca, now);
    }
  }

  lemma OwnStepBacks(s: State, step: Step, t: Tid, ca: Authority, now: int)
    requires EntriesSound(s) && Enabled(s, step) && t in s.threads && InCall(s.threads[t])
    requires !step.Serve? && step.t == t && !step.BeginPrewarm? && !step.BeginInstall? && !LooksUp(step, t)
    ensures t in Apply(s, step).threads
    ensures Passed(Apply(s, step).threads[t]) ==> Passed(s.threads[t])
    ensures Passed(s.threads[t]) && BackedBy(s.threads[t], ca, now) ==> BackedBy(Apply(s, step).threads[t], ca, now)
  {
    hide LeafExpiry, MakeRoom;
  }

  lemma LookBacks(s: State, step: Step, t: Tid)
    requires SlotBound(s) && Enabled(s, step) && LooksUp(step, t)
    ensures t in Apply(s, step).threads
    ensures Passed(Apply(s, step).threads[t]) ==>
              ValidAt(s.slot, step.now) && BackedBy(Apply(s, step).threads[t], s.slot.value, step.now)
  {
  }

  /** Wherever a call stands past its test, its last look found an authority valid then. */
  lemma {:induction false} PassedWasValid(states: seq<State>, steps: seq<Step>, t: Tid, i: nat, j: nat) returns (k: nat)
    requires CallSpan(states, steps, t, i, j) && t in states[j].threads && Passed(states[j].threads[t])
    ensures LastLook(steps, t, i, k, j) && ValidAt(states[k].slot, steps[k].now)
    ensures BackedBy(states[j].threads[t], states[k].slot.value, steps[k].now)
    decreases j - i
  {
    hide Apply, Enabled, Init, BackedBy, Passed, SlotHeld, SlotBound, ThreadsSound, EntriesSound;
    hide SingleFlight, NoLostWakeup, Conserved, Caches, InCall;
    if j == i + 1 {
      BeginHasNotPassed(states, steps, t, i);
    } else {
      var before, step := states[j - 1], steps[j - 1];
      CallKeepsStart(states, steps, t, i, j - 1);
      RunKeepsInv(states, steps, j - 1);
      if LooksUp(step, t) {
        LookBacks(before, step, t);
        k := j - 1;
      } else {
        StepBacks(before, step, t, Authority(0, 0, 0), 0);
        k := PassedWasValid(states, steps, t, i, j - 1);
        StepBacks(before, step, t, states[k].slot.value, steps[k].now);
      }
    }
  }

  lemma BeginHasNotPassed(states: seq<State>, steps: seq<Step>, t: Tid, i: nat)
    requires CallSpan(states, steps, t, i, i + 1)
    ensures t in states[i + 1].threads && !Passed(states[i + 1].threads[t])
  {
    hide Apply, Enabled, Init;
    BeginStartsCall(states[i], steps[i]);
  }

  /**
   A call leases and mints only when the authority in the slot at its last look was valid at the
   time it read there. A leaf it mints is for its host, signed by that authority, and expires as
   `LeafExpiry` says; one it is given from the cache had not expired at that time.
   */
  lemma LeasesAndMintsAreValid(states: seq<State>, steps: seq<Step>, t: Tid, i: nat, j: nat) returns (k: nat)
    requires CallSpan(states, steps, t, i, j) && j < |steps|
    requires steps[j].LeaseTurn? || steps[j].MintOk? || steps[j].MintErr? || steps[j].StoreMinted?
    requires steps[j].t == t
    ensures LastLook(steps, t, i, k, j) && ValidAt(states[k].slot, steps[k].now)
    ensures t in states[j + 1].threads
    ensures var pc := states[j + 1].threads[t];
            && (steps[j].MintOk? ==>
                  && pc.Minted? && pc.leaf.host == steps[i].host && Some(pc.leaf.issuer) == states[k].slot
                  && pc.leaf.notAfter == LeafExpiry(pc.leaf.issuer, steps[j].issued))
            && (steps[j].LeaseTurn? && pc.Returned? ==>
                  pc.answer.Served? && steps[k].now < pc.answer.leaf.notAfter)
  {
    hide Init, Apply, BackedBy, SlotHeld, SlotBound, ThreadsSound, EntriesSound;
    hide SingleFlight, NoLostWakeup, Conserved, Caches, InCall;
    CallKeepsStart(states, steps, t, i, j);
    RunKeepsInv(states, steps, j);
    k := PassedWasValid(states, steps, t, i, j);
    LeasedOrMinted(states[j], steps[j], t, states[k].slot.value, steps[k].now);
  }

  lemma LeasedOrMinted(s: State, step: Step, t: Tid, ca: Authority, now: int)
    requires EntriesSound(s) && Enabled(s, step) && t in s.threads && BackedBy(s.threads[t], ca, now)
    requires (step.LeaseTurn? || step.MintOk? || step.MintErr? || step.StoreMinted?) && step.t == t
    ensures t in Apply(s, step).threads
    ensures var pc := Apply(s, step).threads[t];
            && (step.MintOk? ==>
                  && pc.Minted? && pc.leaf.host == s.threads[t].call.host && pc.leaf.issuer == ca
                  && pc.leaf.notAfter == LeafExpiry(ca, step.issued))
            && (step.LeaseTurn? && pc.Returned? ==> pc.answer.Served? && now < pc.answer.leaf.notAfter)
  {
    hide LeafExpiry, MakeRoom;
  }
}
