/**
 The recency list under concurrency: over every interleaving of pre-warms, cache reads and authority
 installs, the cache answers as a list kept in order of last use does.
 */
module CertRecency {
  import opened Wrappers
  import opened LeafCaching
  import opened LeafRecency
  import opened CertProtocol
  import opened CertSafety
  import opened CertTheorems

  /** What a step does to the list: the turns of `lease` and the reads touch it, and stores and purges. */
  function Replayed(list: Recency, s: State, step: Step): Recency
    requires Enabled(s, step)
  {
    match step
    case LeaseTurn(t) => ReadList(list, s.threads[t].call.host, s.threads[t].now).0
    case Serve(host, now) => ReadList(list, host, now).0
    case StoreMinted(t) =>
      if s.threads[t].epoch == s.inner.epoch then StoreList(list, s.capacity, s.threads[t].leaf) else list
    case PurgeCache(_) => []
    case _ => list
  }

  /** The list once the first `n` steps of a run have been replayed on it. */
  function ListAt(states: seq<State>, steps: seq<Step>, n: nat): Recency
    requires Run(states, steps) && n <= |steps|
  {
    if n == 0 then [] else Replayed(ListAt(states, steps, n - 1), states[n - 1], steps[n - 1])
  }

  lemma StepRefinesList(s: State, step: Step, list: Recency)
    requires Stamped(s.inner) && Represents(s.inner.entries, list) && Enabled(s, step)
    ensures Represents(Apply(s, step).inner.entries, Replayed(list, s, step))
  {
    hide Represents, Take, Store, ReadList, StoreList, Stamped, LeafExpiry;
    match step {
      case LeaseTurn(t) => TakeRefinesRead(s.inner, list, s.threads[t].call.host, s.threads[t].now);
      case Serve(host, now) => TakeRefinesRead(s.inner, list, host, now);
      case StoreMinted(t) =>
        StoreDecides(s.inner, s.capacity, s.threads[t].epoch, s.threads[t].leaf);
        StoreRefinesList(s.inner, list, s.capacity, s.threads[t].leaf);
      case PurgeCache(_) => EmptyRepresents();
      case DropLease(t) => DropKeepsEntries(s, t);
      case _ => QuietKeepsInner(s, step);
    }
  }

  /** In every state of every run the stamped map is the recency list of the steps so far. */
  lemma {:induction false} RunRefinesRecencyList(states: seq<State>, steps: seq<Step>, n: nat)
    requires Run(states, steps) && n <= |steps|
    ensures Stamped(states[n].inner) && Represents(states[n].inner.entries, ListAt(states, steps, n))
  {
    hide Represents, Replayed, Apply, Enabled, SlotHeld, SlotBound, ThreadsSound, SingleFlight, NoLostWakeup;
    RunKeepsInv(states, steps, n);
    if n == 0 {
      EmptyRepresents();
    } else {
      RunRefinesRecencyList(states, steps, n - 1);
      StepRefinesList(states[n - 1], steps[n - 1], ListAt(states, steps, n - 1));
    }
  }

  /** Reads and turns of `lease` answer as the list does, whatever ran in between. */
  lemma ReadsAnswerAsTheList(states: seq<State>, steps: seq<Step>, n: nat, host: Host, now: int)
    requires Run(states, steps) && n <= |steps|
    ensures Take(states[n].inner, host, now).1 == ReadList(ListAt(states, steps, n), host, now).1
    ensures var (_, lease) := TakeLease(states[n].inner, host, now);
            match ReadList(ListAt(states, steps, n), host, now).1
            case Some(leaf) => lease == Fresh(leaf)
            case None => lease == if host in states[n].inner.inflight then Wait else Mint
  {
    hide ReadList, ListAt, Represents, Stamped;
    RunRefinesRecencyList(states, steps, n);
    TakeRefinesRead(states[n].inner, ListAt(states, steps, n), host, now);
  }

  /** A store that has no room pushes out the host untouched for longest, over all threads. */
  lemma EvictsLeastRecent(states: seq<State>, steps: seq<Step>, n: nat)
    requires Run(states, steps) && n <= |steps| && states[n].inner.entries != map[]
    ensures var list := ListAt(states, steps, n); list != [] && Oldest(states[n].inner.entries) == list[0].host
  {
    hide ListAt, Represents, Stamped, Oldest;
    RunRefinesRecencyList(states, steps, n);
    VictimIsLeastRecent(states[n].inner, ListAt(states, steps, n));
  }
}
