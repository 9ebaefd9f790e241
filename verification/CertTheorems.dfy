/**
 What the certificate protocol guarantees over whole runs: every interleaving of pre-warms,
 cache reads and authority installs, from a freshly opened store.
 */
module CertTheorems {
  import opened Wrappers
  import opened LeafCaching
  import opened CertProtocol
  import opened CertSafety

  ghost predicate Run(states: seq<State>, steps: seq<Step>) {
    && |states| == |steps| + 1
    && Init(states[0])
    && forall i | 0 <= i < |steps| :: Enabled(states[i], steps[i]) && states[i + 1] == Apply(states[i], steps[i])
  }

  /** Every state of every run satisfies the invariant. */
  lemma {:induction false} RunKeepsInv(states: seq<State>, steps: seq<Step>, i: nat)
    requires Run(states, steps) && i < |states|
    ensures Inv(states[i])
    decreases i
  {
    hide Inv, Apply, Enabled;
    if i == 0 {
      InitHolds(states[0]);
    } else {
      RunKeepsInv(states, steps, i - 1);
      InvKept(states[i - 1], steps[i - 1]);
    }
  }

  lemma {:induction false} RunGrows(states: seq<State>, steps: seq<Step>, i: nat, j: nat)
    requires Run(states, steps) && i <= j < |states|
    ensures states[i].issuers <= states[j].issuers
    ensures states[i].inner.epoch + Purges(steps[i..j]) == states[j].inner.epoch
    decreases j - i
  {
    hide Apply, Enabled, Init;
    if i == j {
      assert steps[i..j] == [];
    } else {
      RunGrows(states, steps, i, j - 1);
      EpochMoves(states[j - 1], steps[j - 1]);
      assert steps[i..j] == steps[i..j - 1] + [steps[j - 1]];
    }
  }

  /** The number of installs that reach their purge. */
  function Purges(steps: seq<Step>): nat {
    if steps == [] then 0 else Purges(steps[..|steps| - 1]) + if steps[|steps| - 1].PurgeCache? then 1 else 0
  }

  // ---------- Stale authorities ----------

  /**
   Whatever a read of the cache yields, at any time in any run, is a leaf for that host, signed by
   the authority of the current epoch; it has not expired, nor does it outlive its issuer.
   */
  lemma ServedLeafIsCurrent(states: seq<State>, steps: seq<Step>, j: nat)
    requires Run(states, steps) && j < |steps|
    requires steps[j].Serve? && Take(states[j].inner, steps[j].host, steps[j].now).1.Some?
    ensures var leaf := Take(states[j].inner, steps[j].host, steps[j].now).1.value;
            && states[j].inner.epoch < |states[j].issuers|
            && states[j].issuers[states[j].inner.epoch] == Some(leaf.issuer)
            && leaf.host == steps[j].host
            && steps[j].now < leaf.notAfter
            && (Representable(leaf.issuer.notAfter) ==> leaf.notAfter <= leaf.issuer.notAfter)
  {
    hide Apply, Enabled, SlotHeld, SlotBound, SingleFlight, NoLostWakeup, Conserved;
    RunKeepsInv(states, steps, j);
  }

  /**
   Once an install of `ca` has returned, no later read of the cache yields a leaf of an
   earlier authority: the issuer is the one bound to an epoch at or after the install's own.
   */
  lemma NoStaleLeafAfterInstall(states: seq<State>, steps: seq<Step>, i: nat, t: Tid, j: nat)
    requires Run(states, steps) && i <= j < |steps|
    requires t in states[i].threads && states[i].threads[t].Installed?
    requires steps[j].Serve? && Take(states[j].inner, steps[j].host, steps[j].now).1.Some?
    ensures var ca, installed := states[i].threads[t].ca, states[i].threads[t].epoch;
            var leaf := Take(states[j].inner, steps[j].host, steps[j].now).1.value;
            && installed <= states[j].inner.epoch < |states[j].issuers|
            && states[j].issuers[installed] == Some(ca)
            && states[j].issuers[states[j].inner.epoch] == Some(leaf.issuer)
  {
    hide Apply, Enabled, Take, SlotHeld, SlotBound, SingleFlight, NoLostWakeup, Conserved;
    RunKeepsInv(states, steps, i);
    ServedLeafIsCurrent(states, steps, j);
    RunGrows(states, steps, i, j);
    ThreadSound(states[i], t);
  }

  // ---------- Single flight ----------

  /** The leased hosts are the in-flight hosts, each with one lease; a store never overwrites. */
  lemma OneMintPerHost(states: seq<State>, steps: seq<Step>, i: nat, t: Tid, u: Tid)
    requires Run(states, steps) && i < |states|
    requires t in states[i].threads && u in states[i].threads && t != u
    requires states[i].threads[t].Minting? || states[i].threads[t].Minted?
    requires states[i].threads[u].Minting? || states[i].threads[u].Minted?
    ensures states[i].threads[t].call.host != states[i].threads[u].call.host
    ensures states[i].threads[t].call.host in states[i].inner.inflight
    ensures states[i].threads[t].call.host !in states[i].inner.entries
  {
    hide SlotHeld, SlotBound, ThreadsSound, EntriesSound, NoLostWakeup, Conserved;
    RunKeepsInv(states, steps, i);
    assert Leases(states[i].threads[t], states[i].threads[t].call.host);
    assert Leases(states[i].threads[u], states[i].threads[u].call.host);
    assert AwaitsStore(states[i].threads[t], states[i].threads[t].call.host);
  }

  ghost predicate StoresHost(s: State, step: Step, host: Host) {
    && step.StoreMinted? && step.t in s.threads && s.threads[step.t].Minted?
    && s.threads[step.t].call.host == host && s.threads[step.t].epoch == s.inner.epoch
  }

  /** Between two stores of a host, one step removed its entry: an eviction, an expiry or a purge. */
  lemma StoresAreSeparated(states: seq<State>, steps: seq<Step>, i: nat, j: nat, host: Host) returns (k: nat)
    requires Run(states, steps) && i < j < |steps|
    requires StoresHost(states[i], steps[i], host) && StoresHost(states[j], steps[j], host)
    ensures i < k < j && host in states[k].inner.entries && host !in states[k + 1].inner.entries
    ensures steps[k].StoreMinted? || steps[k].LeaseTurn? || steps[k].Serve? || steps[k].PurgeCache?
  {
    hide Inv, Apply, Enabled;
    assert host in states[i + 1].inner.entries by {
      RunKeepsInv(states, steps, i);
      StoreInserts(states[i], steps[i].t);
    }
    assert host !in states[j].inner.entries by {
      RunKeepsInv(states, steps, j);
      StoreFindsAbsent(states[j], steps[j].t);
    }
    k := i + 1;
    while host in states[k + 1].inner.entries
      invariant i < k < j && host in states[k].inner.entries
      decreases j - k
    {
      k := k + 1;
    }
    if Quiet(steps[k]) {
      QuietKeepsInner(states[k], steps[k]);
    } else if steps[k].DropLease? {
      DropKeepsEntries(states[k], steps[k].t);
    }
  }

  lemma StoreInserts(s: State, t: Tid)
    requires Inv(s) && t in s.threads && s.threads[t].Minted? && s.threads[t].epoch == s.inner.epoch
    ensures s.threads[t].call.host in Apply(s, StoreMinted(t)).inner.entries
  {
    hide SlotHeld, SlotBound, EntriesSound, SingleFlight, NoLostWakeup, Conserved, Oldest;
    ThreadSound(s, t);
  }

  lemma StoreFindsAbsent(s: State, t: Tid)
    requires Inv(s) && t in s.threads && s.threads[t].Minted?
    ensures s.threads[t].call.host !in s.inner.entries
  {
    hide SlotHeld, SlotBound, EntriesSound, NoLostWakeup, Conserved;
    assert AwaitsStore(s.threads[t], s.threads[t].call.host);
  }

  lemma DropKeepsEntries(s: State, t: Tid)
    requires Enabled(s, DropLease(t))
    ensures Apply(s, DropLease(t)).inner.entries == s.inner.entries
  {
  }

  // ---------- Wake-ups ----------

  /** When no lease is out and no notification is pending, nobody is asleep. */
  lemma DrainedLeavesNoSleeper(states: seq<State>, steps: seq<Step>, i: nat)
    requires Run(states, steps) && i < |states|
    requires forall t | t in states[i].threads ::
               var pc := states[i].threads[t]; !(pc.Minting? || pc.Minted? || pc.Releasing? || pc.Notifying?)
    ensures states[i].inner.inflight == {}
    ensures forall t | t in states[i].threads :: !states[i].threads[t].Asleep?
  {
    hide SlotHeld, SlotBound, ThreadsSound, EntriesSound, Conserved;
    RunKeepsInv(states, steps, i);
    var s := states[i];
    assert forall host | host in s.inner.inflight :: Leased(s, host);
  }

  // ---------- Conservation ----------

  /** With no mint awaiting its store, every leaf minted and every entry stored is accounted for. */
  lemma NothingIsLost(states: seq<State>, steps: seq<Step>, i: nat)
    requires Run(states, steps) && i < |states|
    requires forall t | t in states[i].threads :: !states[i].threads[t].Minted?
    ensures var tally := states[i].tally;
            && tally.minted == tally.stored + tally.superseded
            && |states[i].inner.entries| == tally.stored - tally.evicted - tally.expired - tally.purged
    ensures states[i].capacity >= 1 ==> |states[i].inner.entries| <= states[i].capacity
  {
    hide SlotHeld, SlotBound, ThreadsSound, EntriesSound, SingleFlight, NoLostWakeup;
    RunKeepsInv(states, steps, i);
    assert InMint(states[i]) == {};
  }

  // ---------- One pre-warm call ----------

  predicate InCall(pc: Pc) {
    !(pc.Installing? || pc.Replaced? || pc.Purged? || pc.Installed?)
  }

  /** The leaf a call has obtained, if it has one already, and the epoch it was cached under. */
  function Obtained(pc: Pc): Option<(Leaf, nat)> {
    match pc
    case Releasing(_, Stored(leaf, epoch)) => Some((leaf, epoch))
    case Notifying(_, Stored(leaf, epoch)) => Some((leaf, epoch))
    case Returned(_, Served(leaf, epoch)) => Some((leaf, epoch))
    case _ => None
  }

  ghost predicate Caches(s: State, leaf: Leaf, epoch: nat) {
    leaf.host in s.inner.entries && s.inner.entries[leaf.host].leaf == leaf && s.inner.epoch == epoch
  }

  /** Steps `i` to `j` of the run belong to the call that thread `t` began at step `i`. */
  ghost predicate CallSpan(states: seq<State>, steps: seq<Step>, t: Tid, i: nat, j: nat) {
    && Run(states, steps) && i < j < |states|
    && steps[i].BeginPrewarm? && steps[i].t == t
    && forall k | i < k < j :: !((steps[k].BeginPrewarm? || steps[k].BeginInstall?) && steps[k].t == t)
  }

  lemma StepKeepsCall(s: State, step: Step, t: Tid)
    requires Enabled(s, step) && t in s.threads && InCall(s.threads[t])
    requires !((step.BeginPrewarm? || step.BeginInstall?) && step.t == t)
    ensures var s' := Apply(s, step);
            && t in s'.threads && InCall(s'.threads[t])
            && s'.threads[t].call.host == s.threads[t].call.host
            && s'.threads[t].call.begunAt == s.threads[t].call.begunAt
  {
    hide Store, Take, LeafExpiry;
    if step.Serve? || step.t != t {
      OthersRemain(s, step, t);
      OthersStay(s, step, t);
    }
  }

  /** A leaf is obtained at a moment when it is in the cache. */
  lemma ObtainedIsCached(s: State, step: Step, t: Tid)
    requires EntriesSound(s) && ThreadsSound(s) && Enabled(s, step) && t in s.threads && t in Apply(s, step).threads
    requires Obtained(Apply(s, step).threads[t]).Some?
    ensures var (leaf, epoch) := Obtained(Apply(s, step).threads[t]).value;
            || Obtained(s.threads[t]) == Some((leaf, epoch))
            || Caches(s, leaf, epoch) || Caches(Apply(s, step), leaf, epoch)
  {
    hide Stamped, Oldest, LeafExpiry, ThreadsSound;
    if step.Serve? || step.t != t {
      OthersStay(s, step, t);
    } else {
      ThreadSound(s, t);
      EntryHosts(s);
    }
  }

  lemma EntryHosts(s: State)
    requires EntriesSound(s)
    ensures forall host | host in s.inner.entries :: s.inner.entries[host].leaf.host == host
  {
  }

  lemma {:induction false} CallKeepsStart(states: seq<State>, steps: seq<Step>, t: Tid, i: nat, j: nat)
    requires CallSpan(states, steps, t, i, j)
    ensures t in states[j].threads && InCall(states[j].threads[t])
    ensures states[j].threads[t].call.host == steps[i].host
    ensures states[j].threads[t].call.begunAt == states[i].inner.epoch
    ensures Obtained(states[j].threads[t]).Some? ==>
              var (leaf, epoch) := Obtained(states[j].threads[t]).value;
              exists k | i < k <= j :: Caches(states[k], leaf, epoch)
    decreases j - i
  {
    hide Apply, SlotHeld, SlotBound, SingleFlight, NoLostWakeup, Conserved, EntriesSound, ThreadsSound, Caches;
    if j == i + 1 {
      BeginStartsCall(states[i], steps[i]);
    } else {
      CallKeepsStart(states, steps, t, i, j - 1);
      StepKeepsCall(states[j - 1], steps[j - 1], t);
      if Obtained(states[j].threads[t]).Some? {
        RunKeepsInv(states, steps, j - 1);
        ObtainedIsCached(states[j - 1], steps[j - 1], t);
      }
    }
  }

  lemma BeginStartsCall(s: State, step: Step)
    requires Enabled(s, step) && step.BeginPrewarm?
    ensures var s' := Apply(s, step);
            && step.t in s'.threads && s'.threads[step.t] == Entering(Call(step.host, s.inner.epoch, 0))
  {
  }

  /**
   A pre-warm goes round at most once per install that purges the cache during the call. The
   leaf it returns is for the host asked for and was in the cache at a moment of the call,
   signed by the authority of the epoch of that moment.
   */
  lemma PrewarmIsBounded(states: seq<State>, steps: seq<Step>, t: Tid, i: nat, j: nat)
    requires CallSpan(states, steps, t, i, j)
    ensures t in states[j].threads && InCall(states[j].threads[t])
    ensures states[j].threads[t].call.retries <= Purges(steps[i..j])
    ensures var pc := states[j].threads[t];
            pc.Returned? && pc.answer.Served? ==>
              && pc.answer.leaf.host == steps[i].host
              && (exists k | i < k <= j :: Caches(states[k], pc.answer.leaf, pc.answer.epoch))
              && pc.answer.epoch < |states[j].issuers|
              && states[j].issuers[pc.answer.epoch] == Some(pc.answer.leaf.issuer)
  {
    hide Apply, Enabled, SlotHeld, SlotBound, SingleFlight, NoLostWakeup, Conserved, Caches, Stamped;
    CallKeepsStart(states, steps, t, i, j);
    RunKeepsInv(states, steps, j);
    RunGrows(states, steps, i, j);
    ThreadSound(states[j], t);
  }
}
