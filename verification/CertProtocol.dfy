/**
 The concurrent protocol of crates/fah-certs/src/leaf.rs and of `CertStore` in store.rs:
 pre-warms, cache reads and authority installs, interleaved in every possible way.

 A state holds what the threads share and where each thread stands. A step is one critical
 section, or one action between two of them, of one thread. Two mutexes are involved: the
 cache's, which each critical section takes and releases within its own step, and the one
 around the authority slot, whose holder is part of the state.
 */
module CertProtocol {
  import opened Wrappers
  import opened LeafCaching

  type Tid = nat

  /** One call of `CertStore::prewarm`: the epoch when it began and how often it went round. */
  datatype Call = Call(host: Host, begunAt: nat, retries: nat)

  datatype Outcome = Stored(leaf: Leaf, epoch: nat) | Superseded | MintFailed

  datatype Answer = Served(leaf: Leaf, epoch: nat) | Refused

  datatype Pc =
    | Entering(call: Call)
    | HoldingSlot(call: Call, ca: Authority)
    | Leasing(call: Call, ca: Authority, epoch: nat, now: int)
    | Asleep(call: Call, ca: Authority, epoch: nat, now: int)
    | Minting(call: Call, ca: Authority, epoch: nat)
    | Minted(call: Call, leaf: Leaf, epoch: nat)
    | Releasing(call: Call, outcome: Outcome)
    | Notifying(call: Call, outcome: Outcome)
    | Returned(call: Call, answer: Answer)
    | Installing(ca: Authority)
    | Replaced(ca: Authority)
    | Purged(ca: Authority, epoch: nat)
    | Installed(ca: Authority, epoch: nat)

  /** What has happened to cache entries so far, each event counted once. */
  datatype Tally = Tally(minted: nat, superseded: nat, stored: nat, evicted: nat, expired: nat, purged: nat)

  /**
   `issuers[e]` is the authority bound to epoch `e`. The source keeps no such record; it is
   what lets the model say which authority an epoch number stands for.
   */
  datatype State = State(
    capacity: nat,
    inner: Inner,
    slot: Option<Authority>,
    slotHolder: Option<Tid>,
    threads: map<Tid, Pc>,
    issuers: seq<Option<Authority>>,
    tally: Tally)

  datatype Step =
    | BeginPrewarm(t: Tid, host: Host)
    | LockSlot(t: Tid)
    | ReadEpoch(t: Tid, now: int)
    | LeaseTurn(t: Tid)
    | Wake(t: Tid)
    | MintOk(t: Tid, issued: int)
    | MintErr(t: Tid)
    | StoreMinted(t: Tid)
    | DropLease(t: Tid)
    | Notify(t: Tid)
    | Serve(host: Host, now: int)
    | BeginInstall(t: Tid, ca: Authority)
    | FailInstall(t: Tid)
    | ReplaceSlot(t: Tid)
    | PurgeCache(t: Tid)
    | EndInstall(t: Tid)

  predicate Init(s: State) {
    && s.inner == Inner(map[], {}, 0, 0)
    && s.slotHolder == None && s.threads == map[]
    && s.issuers == [s.slot]
    && s.tally == Tally(0, 0, 0, 0, 0, 0)
  }

  // ---------- Steps ----------

  /** A thread that is not in the middle of a call. */
  predicate Free(s: State, t: Tid) {
    t !in s.threads || s.threads[t].Returned? || s.threads[t].Installed?
  }

  predicate Enabled(s: State, step: Step) {
    match step
    case BeginPrewarm(t, _) => Free(s, t)
    case LockSlot(t) => t in s.threads && s.threads[t].Entering? && s.slotHolder == None
    case ReadEpoch(t, _) => t in s.threads && s.threads[t].HoldingSlot?
    case LeaseTurn(t) => t in s.threads && s.threads[t].Leasing?
    case Wake(t) => t in s.threads && s.threads[t].Asleep?
    case MintOk(t, _) => t in s.threads && s.threads[t].Minting?
    case MintErr(t) => t in s.threads && s.threads[t].Minting?
    case StoreMinted(t) => t in s.threads && s.threads[t].Minted?
    case DropLease(t) => t in s.threads && s.threads[t].Releasing?
    case Notify(t) => t in s.threads && s.threads[t].Notifying?
    case Serve(_, _) => true
    case BeginInstall(t, _) => Free(s, t) && s.slotHolder == None
    case FailInstall(t) => t in s.threads && s.threads[t].Installing?
    case ReplaceSlot(t) => t in s.threads && s.threads[t].Installing?
    case PurgeCache(t) => t in s.threads && s.threads[t].Replaced?
    case EndInstall(t) => t in s.threads && s.threads[t].Purged?
  }

  function At(s: State, t: Tid, pc: Pc): State {
    s.(threads := s.threads[t := pc])
  }

  ghost function Apply(s: State, step: Step): State
    requires Enabled(s, step)
  {
    match step
    case BeginPrewarm(t, host) => At(s, t, Entering(Call(host, s.inner.epoch, 0)))
    case LockSlot(t) => ApplyLockSlot(s, t)
    case ReadEpoch(t, now) => ApplyReadEpoch(s, t, now)
    case LeaseTurn(t) => ApplyLeaseTurn(s, t)
    case Wake(t) => At(s, t, Woken(s.threads[t]))
    case MintOk(t, issued) => ApplyMintOk(s, t, issued)
    case MintErr(t) => At(s, t, Releasing(s.threads[t].call, MintFailed))
    case StoreMinted(t) => ApplyStore(s, t)
    case DropLease(t) =>
      var pc := s.threads[t];
      At(s.(inner := Release(s.inner, pc.call.host)), t, Notifying(pc.call, pc.outcome))
    case Notify(t) => ApplyNotify(s, t)
    case Serve(host, now) => ApplyTake(s, host, now)
    case BeginInstall(t, ca) => At(s.(slotHolder := Some(t)), t, Installing(ca))
    case FailInstall(t) => s.(slotHolder := None, threads := s.threads - {t})
    case ReplaceSlot(t) => At(s.(slot := Some(s.threads[t].ca)), t, Replaced(s.threads[t].ca))
    case PurgeCache(t) => ApplyPurge(s, t)
    case EndInstall(t) => At(s.(slotHolder := None), t, Installed(s.threads[t].ca, s.threads[t].epoch))
  }

  function ApplyLockSlot(s: State, t: Tid): State
    requires t in s.threads && s.threads[t].Entering?
  {
    var call := s.threads[t].call;
    match s.slot
    case None => At(s, t, Returned(call, Refused))
    case Some(ca) => At(s.(slotHolder := Some(t)), t, HoldingSlot(call, ca))
  }

  function ApplyReadEpoch(s: State, t: Tid, now: int): State
    requires t in s.threads && s.threads[t].HoldingSlot?
  {
    var pc := s.threads[t];
    At(s.(slotHolder := None), t,
       if pc.ca.notBefore <= now <= pc.ca.notAfter then Leasing(pc.call, pc.ca, s.inner.epoch, now)
       else Returned(pc.call, Refused))
  }

  /** A read of the cache: a fresh entry is touched, a stale one removed. */
  function ApplyTake(s: State, host: Host, now: int): State {
    var stale := host in s.inner.entries && s.inner.entries[host].notAfter <= now;
    s.(inner := Take(s.inner, host, now).0, tally := s.tally.(expired := s.tally.expired + if stale then 1 else 0))
  }

  function ApplyLeaseTurn(s: State, t: Tid): State
    requires t in s.threads && s.threads[t].Leasing?
  {
    var pc := s.threads[t];
    var (inner, lease) := TakeLease(s.inner, pc.call.host, pc.now);
    At(ApplyTake(s, pc.call.host, pc.now).(inner := inner), t,
       match lease
       case Fresh(leaf) => Returned(pc.call, Served(leaf, inner.epoch))
       case Wait => Asleep(pc.call, pc.ca, pc.epoch, pc.now)
       case Mint => Minting(pc.call, pc.ca, pc.epoch))
  }

  function ApplyMintOk(s: State, t: Tid, issued: int): State
    requires t in s.threads && s.threads[t].Minting?
  {
    var pc := s.threads[t];
    At(s.(tally := s.tally.(minted := s.tally.minted + 1)), t,
       Minted(pc.call, Leaf(pc.call.host, pc.ca, LeafExpiry(pc.ca, issued), s.tally.minted), pc.epoch))
  }

  ghost function ApplyStore(s: State, t: Tid): State
    requires t in s.threads && s.threads[t].Minted?
  {
    var pc := s.threads[t];
    var (inner, current) := Store(s.inner, s.capacity, pc.epoch, pc.leaf);
    if current then
      var evicted := if NeedsRoom(s.inner.entries, s.capacity, pc.leaf.host) then 1 else 0;
      At(s.(inner := inner, tally := s.tally.(stored := s.tally.stored + 1, evicted := s.tally.evicted + evicted)),
         t, Releasing(pc.call, Stored(pc.leaf, pc.epoch)))
    else
      At(s.(tally := s.tally.(superseded := s.tally.superseded + 1)), t, Releasing(pc.call, Superseded))
  }

  function Woken(pc: Pc): Pc {
    if pc.Asleep? then Leasing(pc.call, pc.ca, pc.epoch, pc.now) else pc
  }

  /** `notify_all` wakes every sleeper; the notifier returns, or goes round the loop again. */
  function ApplyNotify(s: State, t: Tid): State
    requires t in s.threads && s.threads[t].Notifying?
  {
    var pc := s.threads[t];
    var awake := s.(threads := map u | u in s.threads :: Woken(s.threads[u]));
    At(awake, t,
       match pc.outcome
       case Stored(leaf, epoch) => Returned(pc.call, Served(leaf, epoch))
       case Superseded => Entering(pc.call.(retries := pc.call.retries + 1))
       case MintFailed => Returned(pc.call, Refused))
  }

  function ApplyPurge(s: State, t: Tid): State
    requires t in s.threads && s.threads[t].Replaced?
  {
    At(s.(inner := Purge(s.inner),
          issuers := s.issuers + [Some(s.threads[t].ca)],
          tally := s.tally.(purged := s.tally.purged + |s.inner.entries|)),
       t, Purged(s.threads[t].ca, s.inner.epoch + 1))
  }

  // ---------- What every reachable state satisfies ----------

  predicate OwnsSlot(pc: Pc) {
    pc.HoldingSlot? || pc.Installing? || pc.Replaced? || pc.Purged?
  }

  /** The slot mutex has the holder the threads think it has. */
  predicate SlotHeld(s: State) {
    && (s.slotHolder.Some? ==> s.slotHolder.value in s.threads && OwnsSlot(s.threads[s.slotHolder.value]))
    && (forall t | t in s.threads && OwnsSlot(s.threads[t]) :: s.slotHolder == Some(t))
  }

  /** Between the two halves of an install the slot is one authority ahead of the cache. */
  predicate SlotBound(s: State) {
    && |s.issuers| == s.inner.epoch + 1
    && (if s.slotHolder.Some? && s.slotHolder.value in s.threads && s.threads[s.slotHolder.value].Replaced?
        then s.slot == Some(s.threads[s.slotHolder.value].ca)
        else s.slot == s.issuers[s.inner.epoch])
    && (forall t | t in s.threads && s.threads[t].HoldingSlot? :: s.slot == Some(s.threads[t].ca))
  }

  predicate Bound(s: State, ca: Authority, epoch: nat) {
    epoch < |s.issuers| && s.issuers[epoch] == Some(ca)
  }

  predicate LeafSound(leaf: Leaf) {
    Representable(leaf.issuer.notAfter) ==> leaf.notAfter <= leaf.issuer.notAfter
  }

  /** An authority and an epoch travel together, and retries never outrun the epochs. */
  predicate PcSound(s: State, pc: Pc) {
    match pc
    case Entering(call) => call.begunAt + call.retries <= s.inner.epoch
    case HoldingSlot(call, _) => call.begunAt + call.retries <= s.inner.epoch
    case Leasing(call, ca, epoch, _) => Bound(s, ca, epoch) && call.begunAt + call.retries <= epoch
    case Asleep(call, ca, epoch, _) => Bound(s, ca, epoch) && call.begunAt + call.retries <= epoch
    case Minting(call, ca, epoch) => Bound(s, ca, epoch) && call.begunAt + call.retries <= epoch
    case Minted(call, leaf, epoch) =>
      Bound(s, leaf.issuer, epoch) && call.begunAt + call.retries <= epoch && leaf.host == call.host && LeafSound(leaf)
    case Releasing(call, outcome) => OutcomeSound(s, call, outcome)
    case Notifying(call, outcome) => OutcomeSound(s, call, outcome)
    case Returned(call, answer) =>
      && call.begunAt + call.retries <= s.inner.epoch
      && (answer.Served? ==> Bound(s, answer.leaf.issuer, answer.epoch) && call.begunAt <= answer.epoch
                             && answer.leaf.host == call.host)
    case Purged(ca, epoch) => Bound(s, ca, epoch)
    case Installed(ca, epoch) => Bound(s, ca, epoch)
    case _ => true
  }

  predicate OutcomeSound(s: State, call: Call, outcome: Outcome) {
    match outcome
    case Stored(leaf, epoch) =>
      && Bound(s, leaf.issuer, epoch) && call.begunAt + call.retries <= epoch && leaf.host == call.host
    case Superseded => call.begunAt + call.retries + 1 <= s.inner.epoch
    case MintFailed => call.begunAt + call.retries <= s.inner.epoch
  }

  predicate ThreadsSound(s: State) {
    forall t | t in s.threads :: PcSound(s, s.threads[t])
  }

  /** Every cached leaf was signed by the authority of the current epoch. */
  predicate EntriesSound(s: State) {
    && |s.issuers| == s.inner.epoch + 1
    && Stamped(s.inner)
    && (forall host | host in s.inner.entries ::
          Bound(s, s.inner.entries[host].leaf.issuer, s.inner.epoch) && LeafSound(s.inner.entries[host].leaf))
  }

  predicate Leases(pc: Pc, host: Host) {
    (pc.Minting? || pc.Minted? || pc.Releasing?) && pc.call.host == host
  }

  predicate AwaitsStore(pc: Pc, host: Host) {
    (pc.Minting? || pc.Minted?) && pc.call.host == host
  }

  /** The in-flight set is the set of leased hosts, each leased once and absent until stored. */
  ghost predicate SingleFlight(s: State) {
    && (forall t, host | t in s.threads && Leases(s.threads[t], host) :: host in s.inner.inflight)
    && (forall host | host in s.inner.inflight :: Leased(s, host))
    && (forall t, u, host |
          t in s.threads && u in s.threads && Leases(s.threads[t], host) && Leases(s.threads[u], host) ::
          t == u)
    && (forall t, host | t in s.threads && AwaitsStore(s.threads[t], host) :: host !in s.inner.entries)
  }

  predicate Leased(s: State, host: Host) {
    exists t | t in s.threads :: Leases(s.threads[t], host)
  }

  /** A sleeper's host is still being minted, or a wake-up is on its way. */
  predicate NoLostWakeup(s: State) {
    forall t | t in s.threads && s.threads[t].Asleep? ::
      s.threads[t].call.host in s.inner.inflight || NotifyPending(s)
  }

  predicate NotifyPending(s: State) {
    exists u | u in s.threads :: s.threads[u].Notifying?
  }

  function InMint(s: State): set<Tid> {
    set t | t in s.threads && s.threads[t].Minted?
  }

  /** Minted leaves and cache entries are all accounted for. */
  predicate Conserved(s: State) {
    && s.tally.minted == s.tally.stored + s.tally.superseded + |InMint(s)|
    && |s.inner.entries| + s.tally.evicted + s.tally.expired + s.tally.purged == s.tally.stored
    && WithinCapacity(s.inner, s.capacity)
  }

  ghost predicate Inv(s: State) {
    && SlotHeld(s) && SlotBound(s) && ThreadsSound(s) && EntriesSound(s)
    && SingleFlight(s) && NoLostWakeup(s) && Conserved(s)
  }
}
