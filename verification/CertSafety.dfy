/** Every reachable state of the certificate protocol satisfies its invariant, and what follows. */
module CertSafety {
  import opened Wrappers
  import opened LeafCaching
  import opened CertProtocol

  lemma InitHolds(s: State)
    requires Init(s)
    ensures Inv(s)
  {
    assert InMint(s) == {};
  }

  // ---------- What a step leaves alone ----------

  /** Only a purge moves the epoch, and the record of issuers only grows. */
  lemma EpochMoves(s: State, step: Step)
    requires Enabled(s, step)
    ensures Apply(s, step).inner.epoch == s.inner.epoch + if step.PurgeCache? then 1 else 0
    ensures s.issuers <= Apply(s, step).issuers
    ensures !step.PurgeCache? ==> Apply(s, step).issuers == s.issuers
  {
    hide Oldest, LeafExpiry;
  }

  /** A step moves its own thread; a notification also wakes the sleepers. */
  lemma OthersStay(s: State, step: Step, u: Tid)
    requires Enabled(s, step) && u in Apply(s, step).threads
    requires step.Serve? || u != step.t
    ensures u in s.threads
    ensures Apply(s, step).threads[u] == if step.Notify? then Woken(s.threads[u]) else s.threads[u]
  {
    hide Store, Take, TakeLease, LeafExpiry;
  }

  /** The steps that touch neither the map nor the in-flight set. */
  predicate Quiet(step: Step) {
    !(step.LeaseTurn? || step.StoreMinted? || step.DropLease? || step.Serve? || step.PurgeCache?)
  }

  lemma QuietKeepsInner(s: State, step: Step)
    requires Enabled(s, step) && Quiet(step)
    ensures Apply(s, step).inner == s.inner
  {
    hide LeafExpiry;
  }

  // ---------- The slot ----------

  lemma SlotHeldKept(s: State, step: Step)
    requires SlotHeld(s) && Enabled(s, step)
    ensures SlotHeld(Apply(s, step))
  {
    hide Store, Take, TakeLease, LeafExpiry;
  }

  lemma SlotBoundKept(s: State, step: Step)
    requires SlotHeld(s) && SlotBound(s) && Enabled(s, step)
    ensures SlotBound(Apply(s, step))
  {
    hide Store, Take, TakeLease, LeafExpiry;
    EpochMoves(s, step);
  }

  // ---------- Threads ----------

  lemma PcSoundLater(s: State, s': State, pc: Pc)
    requires s.issuers <= s'.issuers && s.inner.epoch <= s'.inner.epoch
    requires PcSound(s, pc)
    ensures PcSound(s', pc) && PcSound(s', Woken(pc))
  {
  }

  lemma ActorSound(s: State, step: Step)
    requires SlotHeld(s) && SlotBound(s) && EntriesSound(s) && ThreadsSound(s) && Enabled(s, step)
    requires !step.Serve? && step.t in Apply(s, step).threads
    ensures PcSound(Apply(s, step), Apply(s, step).threads[step.t])
  {
    hide Stamped, Oldest, LeafExpiry, ThreadsSound, ApplyLeaseTurn, ApplyStore, ApplyMintOk, MakeRoom;
    EpochMoves(s, step);
    if step.t in s.threads {
      assert PcSound(s, s.threads[step.t]) by { ThreadSound(s, step.t); }
    }
    if step.LeaseTurn? {
      LeaseTurnSound(s, step.t);
    } else if step.StoreMinted? {
      StoreSound(s, step.t);
    } else if step.MintOk? {
      MintSound(s, step.t, step.issued);
    }
  }

  lemma ThreadSound(s: State, t: Tid)
    requires ThreadsSound(s) && t in s.threads
    ensures PcSound(s, s.threads[t])
  {
  }

  lemma LeaseTurnSound(s: State, t: Tid)
    requires EntriesSound(s) && t in s.threads && s.threads[t].Leasing? && PcSound(s, s.threads[t])
    ensures PcSound(ApplyLeaseTurn(s, t), ApplyLeaseTurn(s, t).threads[t])
  {
  }

  lemma StoreSound(s: State, t: Tid)
    requires EntriesSound(s) && t in s.threads && s.threads[t].Minted? && PcSound(s, s.threads[t])
    ensures PcSound(ApplyStore(s, t), ApplyStore(s, t).threads[t])
  {
    hide MakeRoom, LeafExpiry;
  }

  lemma MintSound(s: State, t: Tid, issued: int)
    requires t in s.threads && s.threads[t].Minting? && PcSound(s, s.threads[t])
    ensures PcSound(ApplyMintOk(s, t, issued), ApplyMintOk(s, t, issued).threads[t])
  {
  }

  lemma ThreadsSoundKept(s: State, step: Step)
    requires SlotHeld(s) && SlotBound(s) && EntriesSound(s) && ThreadsSound(s) && Enabled(s, step)
    ensures ThreadsSound(Apply(s, step))
  {
    hide SlotHeld, SlotBound, EntriesSound, PcSound, Apply;
    EpochMoves(s, step);
    forall u | u in Apply(s, step).threads ensures PcSound(Apply(s, step), Apply(s, step).threads[u]) {
      if !step.Serve? && u == step.t {
        ActorSound(s, step);
      } else {
        OthersStay(s, step, u);
        PcSoundLater(s, Apply(s, step), s.threads[u]);
      }
    }
  }

  // ---------- Entries ----------

  lemma TakeKeepsEntries(s: State, host: Host, now: int)
    requires EntriesSound(s)
    ensures EntriesSound(s.(inner := Take(s.inner, host, now).0))
  {
    TakeKeepsStamps(s.inner, host, now);
  }

  lemma LeaseTurnEntries(s: State, t: Tid)
    requires t in s.threads && s.threads[t].Leasing?
    ensures var taken := Take(s.inner, s.threads[t].call.host, s.threads[t].now).0;
            ApplyLeaseTurn(s, t).inner == taken.(inflight := ApplyLeaseTurn(s, t).inner.inflight)
  {
  }

  lemma StoreKeepsEntries(s: State, t: Tid)
    requires EntriesSound(s) && t in s.threads && s.threads[t].Minted? && PcSound(s, s.threads[t])
    ensures EntriesSound(ApplyStore(s, t))
  {
    hide Stamped, Oldest;
    var pc := s.threads[t];
    StoreKeepsStamps(s.inner, s.capacity, pc.epoch, pc.leaf);
  }

  /** Soundness of the entries reads nothing but the map, its clock, the epoch and the issuers. */
  lemma EntriesFramed(s: State, s': State)
    requires EntriesSound(s) && s'.issuers == s.issuers
    requires s'.inner == s.inner.(inflight := s'.inner.inflight)
    ensures EntriesSound(s')
  {
  }

  lemma EntriesSoundKept(s: State, step: Step)
    requires ThreadsSound(s) && EntriesSound(s) && Enabled(s, step)
    ensures EntriesSound(Apply(s, step))
  {
    hide EntriesSound, ThreadsSound, Store, TakeLease, Take, LeafExpiry;
    EpochMoves(s, step);
    match step {
      case LeaseTurn(t) =>
        var pc := s.threads[t];
        TakeKeepsEntries(s, pc.call.host, pc.now);
        LeaseTurnEntries(s, t);
        EntriesFramed(s.(inner := Take(s.inner, pc.call.host, pc.now).0), Apply(s, step));
      case Serve(host, now) =>
        TakeKeepsEntries(s, host, now);
        EntriesFramed(s.(inner := Take(s.inner, host, now).0), Apply(s, step));
      case StoreMinted(t) =>
        ThreadSound(s, t);
        StoreKeepsEntries(s, t);
      case PurgeCache(t) =>
        PurgeKeepsEntries(s, t);
      case _ =>
        EntriesFramed(s, Apply(s, step));
    }
  }

  lemma PurgeKeepsEntries(s: State, t: Tid)
    requires EntriesSound(s) && t in s.threads && s.threads[t].Replaced?
    ensures EntriesSound(ApplyPurge(s, t))
  {
  }

  // ---------- Single flight ----------

  ghost predicate SameLeases(s: State, s': State) {
    && (forall t, host ::
          (t in s'.threads && Leases(s'.threads[t], host)) <==> (t in s.threads && Leases(s.threads[t], host)))
    && (forall t, host ::
          t in s'.threads && AwaitsStore(s'.threads[t], host) ==> t in s.threads && AwaitsStore(s.threads[t], host))
  }

  lemma FlightFramed(s: State, s': State)
    requires SingleFlight(s) && SameLeases(s, s')
    requires s'.inner.inflight == s.inner.inflight && s'.inner.entries.Keys <= s.inner.entries.Keys
    ensures SingleFlight(s')
  {
    forall host | host in s'.inner.inflight ensures Leased(s', host) {
      assert Leased(s, host);
    }
  }

  lemma StepKeepsLeases(s: State, step: Step)
    requires Enabled(s, step)
    requires !(step.LeaseTurn? || step.DropLease?)
    ensures SameLeases(s, Apply(s, step))
  {
    hide Apply;
    var s' := Apply(s, step);
    forall t, host
      ensures (t in s'.threads && Leases(s'.threads[t], host)) <==> (t in s.threads && Leases(s.threads[t], host))
      ensures t in s'.threads && AwaitsStore(s'.threads[t], host) ==> t in s.threads && AwaitsStore(s.threads[t], host)
    {
      if !step.Serve? && t == step.t {
        ActorKeepsLease(s, step, host);
      } else {
        if t in s'.threads {
          OthersStay(s, step, t);
        }
        if t in s.threads {
          OthersRemain(s, step, t);
        }
      }
    }
  }

  lemma ActorKeepsLease(s: State, step: Step, host: Host)
    requires Enabled(s, step) && !(step.LeaseTurn? || step.DropLease? || step.Serve?)
    ensures var s', t := Apply(s, step), step.t;
            && ((t in s'.threads && Leases(s'.threads[t], host)) <==> (t in s.threads && Leases(s.threads[t], host)))
            && (t in s'.threads && AwaitsStore(s'.threads[t], host) ==>
                  t in s.threads && AwaitsStore(s.threads[t], host))
  {
    hide Store, LeafExpiry;
  }

  lemma OthersRemain(s: State, step: Step, u: Tid)
    requires Enabled(s, step) && u in s.threads
    requires step.Serve? || u != step.t
    ensures u in Apply(s, step).threads
  {
    hide Store, Take, TakeLease, LeafExpiry;
  }

  lemma LeaseTurnFlight(s: State, t: Tid)
    requires SingleFlight(s) && t in s.threads && s.threads[t].Leasing?
    ensures SingleFlight(ApplyLeaseTurn(s, t))
  {
    var s', host := ApplyLeaseTurn(s, t), s.threads[t].call.host;
    var (inner, lease) := TakeLease(s.inner, host, s.threads[t].now);
    assert s'.inner.entries.Keys <= s.inner.entries.Keys;
    if lease.Mint? {
      assert host !in s.inner.inflight && s'.threads == s.threads[t := s'.threads[t]];
      assert Leases(s'.threads[t], host);
      forall other | other in s'.inner.inflight ensures Leased(s', other) {
        if other != host {
          assert Leased(s, other);
          var u :| u in s.threads && Leases(s.threads[u], other);
          assert Leases(s'.threads[u], other);
        }
      }
    } else {
      FlightFramed(s, s');
    }
  }

  lemma DropLeaseFlight(s: State, t: Tid)
    requires SingleFlight(s) && t in s.threads && s.threads[t].Releasing?
    ensures SingleFlight(Apply(s, DropLease(t)))
  {
    var s', host := Apply(s, DropLease(t)), s.threads[t].call.host;
    assert Leases(s.threads[t], host);
    forall other | other in s'.inner.inflight ensures Leased(s', other) {
      assert Leased(s, other);
      var u :| u in s.threads && Leases(s.threads[u], other);
      assert Leases(s'.threads[u], other);
    }
  }

  lemma StoreFlight(s: State, t: Tid)
    requires SingleFlight(s) && t in s.threads && s.threads[t].Minted? && PcSound(s, s.threads[t])
    ensures SingleFlight(ApplyStore(s, t))
  {
    hide Oldest, Apply;
    var s', host := ApplyStore(s, t), s.threads[t].call.host;
    assert SameLeases(s, s') by { StepKeepsLeases(s, StoreMinted(t)); StoreIsStep(s, t); }
    assert s'.inner.entries.Keys <= s.inner.entries.Keys + {host};
    assert s'.inner.inflight == s.inner.inflight;
    forall u, other | u in s'.threads && AwaitsStore(s'.threads[u], other) ensures other !in s'.inner.entries {
      assert u != t;
      assert Leases(s.threads[t], host);
      assert AwaitsStore(s.threads[u], other) && Leases(s.threads[u], other);
    }
    forall other | other in s'.inner.inflight ensures Leased(s', other) {
      assert Leased(s, other);
    }
  }

  lemma StoreIsStep(s: State, t: Tid)
    requires t in s.threads && s.threads[t].Minted?
    ensures Apply(s, StoreMinted(t)) == ApplyStore(s, t)
  {
  }

  lemma SingleFlightKept(s: State, step: Step)
    requires SingleFlight(s) && ThreadsSound(s) && Enabled(s, step)
    ensures SingleFlight(Apply(s, step))
  {
    hide SingleFlight, ThreadsSound, Store, TakeLease, LeafExpiry;
    match step {
      case LeaseTurn(t) => LeaseTurnFlight(s, t);
      case DropLease(t) => DropLeaseFlight(s, t);
      case StoreMinted(t) =>
        ThreadSound(s, t);
        StoreFlight(s, t);
      case _ =>
        StepKeepsLeases(s, step);
        FlightFramed(s, Apply(s, step));
    }
  }

  // ---------- Wake-ups ----------

  lemma NoLostWakeupKept(s: State, step: Step)
    requires NoLostWakeup(s) && SingleFlight(s) && Enabled(s, step)
    ensures NoLostWakeup(Apply(s, step))
  {
    hide SingleFlight, Apply;
    var s' := Apply(s, step);
    forall u | u in s'.threads && s'.threads[u].Asleep?
      ensures s'.threads[u].call.host in s'.inner.inflight || NotifyPending(s')
    {
      SleeperCovered(s, step, u);
    }
  }

  lemma SleeperCovered(s: State, step: Step, u: Tid)
    requires NoLostWakeup(s) && Enabled(s, step)
    requires u in Apply(s, step).threads && Apply(s, step).threads[u].Asleep?
    ensures Apply(s, step).threads[u].call.host in Apply(s, step).inner.inflight || NotifyPending(Apply(s, step))
  {
    hide Store, Take, LeafExpiry;
    var s' := Apply(s, step);
    if step.DropLease? {
      assert s'.threads[step.t].Notifying?;
    } else if u in s.threads && s.threads[u].Asleep? && s'.threads[u] == s.threads[u] {
      InflightGrows(s, step);
      if s.threads[u].call.host !in s.inner.inflight {
        var v :| v in s.threads && s.threads[v].Notifying?;
        assert v in s'.threads && s'.threads[v].Notifying?;
      }
    }
  }

  lemma InflightGrows(s: State, step: Step)
    requires Enabled(s, step) && !step.DropLease?
    ensures s.inner.inflight <= Apply(s, step).inner.inflight
  {
    hide Oldest, LeafExpiry;
  }

  // ---------- Conservation ----------

  lemma MintsStay(s: State, step: Step)
    requires Enabled(s, step) && !step.MintOk? && !step.StoreMinted?
    ensures var s' := Apply(s, step);
            && InMint(s') == InMint(s) && s'.tally.minted == s.tally.minted
            && s'.tally.stored == s.tally.stored && s'.tally.superseded == s.tally.superseded
  {
    hide Store, Take, LeafExpiry, WithinCapacity;
    var s' := Apply(s, step);
    assert InMint(s') == InMint(s);
  }

  lemma MintedCounted(s: State, step: Step)
    requires Conserved(s) && Enabled(s, step)
    ensures var s' := Apply(s, step);
            s'.tally.minted == s'.tally.stored + s'.tally.superseded + |InMint(s')|
  {
    hide Store, Take, LeafExpiry, WithinCapacity;
    var s' := Apply(s, step);
    if step.MintOk? {
      assert InMint(s') == InMint(s) + {step.t};
    } else if step.StoreMinted? {
      assert InMint(s') == InMint(s) - {step.t};
      assert step.t in InMint(s);
    } else {
      MintsStay(s, step);
    }
  }

  lemma TakeCounted(s: State, host: Host, now: int)
    requires Conserved(s) && Stamped(s.inner)
    ensures var s' := ApplyTake(s, host, now);
            |s'.inner.entries| + s'.tally.evicted + s'.tally.expired + s'.tally.purged == s'.tally.stored
    ensures WithinCapacity(ApplyTake(s, host, now).inner, s.capacity)
  {
    var entries, after := s.inner.entries, ApplyTake(s, host, now).inner.entries;
    if host in entries {
      if entries[host].notAfter <= now {
        assert after.Keys == entries.Keys - {host};
      } else {
        assert after.Keys == entries.Keys;
      }
    }
    assert |after| == |after.Keys| && |entries| == |entries.Keys|;
  }

  lemma StoreCounted(s: State, t: Tid)
    requires Conserved(s) && t in s.threads && s.threads[t].Minted?
    requires s.threads[t].leaf.host !in s.inner.entries
    ensures var s' := ApplyStore(s, t);
            && |s'.inner.entries| + s'.tally.evicted + s'.tally.expired + s'.tally.purged == s'.tally.stored
            && WithinCapacity(s'.inner, s.capacity)
  {
    hide Store;
    var pc := s.threads[t];
    StoreKeepsCapacity(s.inner, s.capacity, pc.epoch, pc.leaf);
    StoreDecides(s.inner, s.capacity, pc.epoch, pc.leaf);
    if s.inner.epoch == pc.epoch {
      StoreSize(s.inner, s.capacity, pc.leaf);
    }
  }

  lemma StoreDecides(inner: Inner, capacity: nat, epoch: nat, leaf: Leaf)
    ensures Store(inner, capacity, epoch, leaf).1 == (inner.epoch == epoch)
  {
  }

  lemma EntriesCounted(s: State, step: Step)
    requires Conserved(s) && Stamped(s.inner) && SingleFlight(s) && ThreadsSound(s) && Enabled(s, step)
    ensures var s' := Apply(s, step);
            && |s'.inner.entries| + s'.tally.evicted + s'.tally.expired + s'.tally.purged == s'.tally.stored
            && WithinCapacity(s'.inner, s'.capacity)
  {
    hide Stamped, SingleFlight, ThreadsSound, Store, Take, TakeLease, LeafExpiry;
    match step {
      case LeaseTurn(t) =>
        TakeCounted(s, s.threads[t].call.host, s.threads[t].now);
        LeaseTurnEntries(s, t);
      case Serve(host, now) =>
        TakeCounted(s, host, now);
      case StoreMinted(t) =>
        StoreFindsRoom(s, t);
        StoreCounted(s, t);
      case _ =>
    }
  }

  /** A store finds its host absent: it never overwrites an entry. */
  lemma StoreFindsRoom(s: State, t: Tid)
    requires SingleFlight(s) && ThreadsSound(s) && t in s.threads && s.threads[t].Minted?
    ensures s.threads[t].leaf.host !in s.inner.entries
  {
    ThreadSound(s, t);
    assert AwaitsStore(s.threads[t], s.threads[t].leaf.host);
  }

  // ---------- Every step, every run ----------

  lemma InvKept(s: State, step: Step)
    requires Inv(s) && Enabled(s, step)
    ensures Inv(Apply(s, step))
  {
    hide SlotHeld, SlotBound, ThreadsSound, SingleFlight, NoLostWakeup, Apply, Enabled;
    SlotHeldKept(s, step);
    SlotBoundKept(s, step);
    ThreadsSoundKept(s, step);
    EntriesSoundKept(s, step);
    SingleFlightKept(s, step);
    NoLostWakeupKept(s, step);
    MintedCounted(s, step);
    EntriesCounted(s, step);
  }
}
