/**
 The time-stamped map of the leaf cache is a list kept in order of last use.

 The source finds its eviction victim by comparing logical-clock stamps. The reference here
 has no clock: it is a list whose front is the entry untouched for longest. Every sequence of
 reads, stores and purges gives the same answers on both.
 */
module LeafRecency {
  import opened Wrappers
  import opened LeafCaching

  /** Least recently used first; a leaf carries its own host and expiry. */
  type Recency = seq<Leaf>

  function Position(list: Recency, host: Host): (at: Option<nat>)
    ensures at.Some? ==> at.value < |list| && list[at.value].host == host
    ensures at.None? ==> forall i | 0 <= i < |list| :: list[i].host != host
  {
    if list == [] then None
    else if list[|list| - 1].host == host then Some(|list| - 1)
    else Position(list[..|list| - 1], host)
  }

  function RemoveAt(list: Recency, at: nat): Recency
    requires at < |list|
  {
    list[..at] + list[at + 1..]
  }

  function ReadList(list: Recency, host: Host, now: int): (Recency, Option<Leaf>) {
    match Position(list, host)
    case None => (list, None)
    case Some(at) =>
      if list[at].notAfter > now then (RemoveAt(list, at) + [list[at]], Some(list[at])) else (RemoveAt(list, at), None)
  }

  function StoreList(list: Recency, capacity: nat, leaf: Leaf): Recency {
    match Position(list, leaf.host)
    case Some(at) => RemoveAt(list, at) + [leaf]
    case None => (if |list| >= capacity && list != [] then list[1..] else list) + [leaf]
  }

  // ---------- The map represents the list ----------

  ghost predicate Represents(entries: map<Host, Entry>, list: Recency) {
    && (forall i | 0 <= i < |list| :: list[i].host in entries && entries[list[i].host].leaf == list[i])
    && (forall i, j | 0 <= i < j < |list| :: entries[list[i].host].used < entries[list[j].host].used)
    && (forall host | host in entries :: Position(list, host).Some?)
  }

  lemma {:induction false} SameSize(entries: map<Host, Entry>, list: Recency)
    requires Represents(entries, list)
    ensures |entries| == |list|
    decreases |list|
  {
    if list == [] {
      assert forall host | host in entries :: false;
      assert entries.Keys == {};
    } else {
      RemovedStaysRepresented(entries, list, |list| - 1);
      var rest := entries - {list[|list| - 1].host};
      assert RemoveAt(list, |list| - 1) == list[..|list| - 1];
      SameSize(rest, list[..|list| - 1]);
      assert rest.Keys == entries.Keys - {list[|list| - 1].host};
      assert |rest| == |rest.Keys| && |entries| == |entries.Keys|;
    }
  }

  lemma RemovedStaysRepresented(entries: map<Host, Entry>, list: Recency, at: nat)
    requires Represents(entries, list) && at < |list|
    ensures Represents(entries - {list[at].host}, RemoveAt(list, at))
  {
    hide Position, RemoveAt;
    var host, rest, shorter := list[at].host, entries - {list[at].host}, RemoveAt(list, at);
    RemoveAtShifts(list, at);
    forall i | 0 <= i < |shorter| ensures shorter[i].host in rest && rest[shorter[i].host].leaf == shorter[i] {
      HostsDiffer(entries, list, Skip(at, i), at);
    }
    forall i, j | 0 <= i < j < |shorter| ensures rest[shorter[i].host].used < rest[shorter[j].host].used {
      assert Skip(at, i) < Skip(at, j);
    }
    forall other | other in rest ensures Position(shorter, other).Some? {
      var k := Position(list, other).value;
      assert shorter[if k < at then k else k - 1].host == other;
    }
  }

  /** The index in the longer list of element `i` of the list without element `at`. */
  function Skip(at: nat, i: nat): nat {
    if i < at then i else i + 1
  }

  lemma RemoveAtShifts(list: Recency, at: nat)
    requires at < |list|
    ensures |RemoveAt(list, at)| == |list| - 1
    ensures forall i: nat | i < |list| - 1 :: RemoveAt(list, at)[i] == list[Skip(at, i)]
  {
  }

  lemma HostsDiffer(entries: map<Host, Entry>, list: Recency, i: nat, j: nat)
    requires Represents(entries, list) && i < |list| && j < |list| && i != j
    ensures list[i].host != list[j].host
  {
    hide Position;
    assert if i < j then entries[list[i].host].used < entries[list[j].host].used
                    else entries[list[j].host].used < entries[list[i].host].used;
  }

  lemma AppendedStaysRepresented(entries: map<Host, Entry>, list: Recency, leaf: Leaf, clock: nat)
    requires Represents(entries, list) && leaf.host !in entries
    requires forall host | host in entries :: entries[host].used < clock
    ensures Represents(entries[leaf.host := Entry(leaf, leaf.notAfter, clock)], list + [leaf])
  {
    hide Position;
    var after, longer := entries[leaf.host := Entry(leaf, leaf.notAfter, clock)], list + [leaf];
    forall i | 0 <= i < |longer| ensures longer[i].host in after && after[longer[i].host].leaf == longer[i] {
      assert i < |list| ==> longer[i] == list[i];
    }
    forall i, j | 0 <= i < j < |longer| ensures after[longer[i].host].used < after[longer[j].host].used {
      assert longer[i] == list[i];
      assert j < |list| ==> longer[j] == list[j];
    }
    forall host | host in after ensures Position(longer, host).Some? {
      if host == leaf.host {
        assert longer[|list|].host == host;
      } else {
        assert longer[Position(list, host).value].host == host;
      }
    }
  }

  // ---------- Each operation ----------

  lemma TakeRefinesRead(inner: Inner, list: Recency, host: Host, now: int)
    requires Stamped(inner) && Represents(inner.entries, list)
    ensures Take(inner, host, now).1 == ReadList(list, host, now).1
    ensures Represents(Take(inner, host, now).0.entries, ReadList(list, host, now).0)
  {
    hide Represents, Position;
    if host in inner.entries {
      MemberHasPosition(inner.entries, list, host);
      var at := Position(list, host).value;
      RemovedStaysRepresented(inner.entries, list, at);
      var rest := inner.entries - {host};
      if list[at].notAfter > now {
        AppendedStaysRepresented(rest, RemoveAt(list, at), list[at], inner.clock);
        assert Take(inner, host, now).0.entries == rest[host := Entry(list[at], list[at].notAfter, inner.clock)];
      }
    } else {
      NonMemberHasNone(inner.entries, list, host);
    }
  }

  lemma MemberHasPosition(entries: map<Host, Entry>, list: Recency, host: Host)
    requires Represents(entries, list) && host in entries
    ensures Position(list, host).Some? && list[Position(list, host).value] == entries[host].leaf
  {
  }

  lemma NonMemberHasNone(entries: map<Host, Entry>, list: Recency, host: Host)
    requires Represents(entries, list) && host !in entries
    ensures Position(list, host).None?
  {
  }

  /** The victim of an eviction is the front of the list: the entry untouched for longest. */
  lemma VictimIsLeastRecent(inner: Inner, list: Recency)
    requires Stamped(inner) && Represents(inner.entries, list) && inner.entries != map[]
    ensures list != [] && Oldest(inner.entries) == list[0].host
  {
    hide Position;
    var some :| some in inner.entries;
    assert Position(list, some).Some?;
    forall host | host in inner.entries
      ensures inner.entries[list[0].host].used <= inner.entries[host].used
    {
      var at := Position(list, host).value;
      assert list[at].host == host;
    }
    OldestIsUnique(inner, list[0].host);
  }

  lemma StoreRefinesList(inner: Inner, list: Recency, capacity: nat, leaf: Leaf)
    requires Stamped(inner) && Represents(inner.entries, list)
    ensures Represents(Store(inner, capacity, inner.epoch, leaf).0.entries, StoreList(list, capacity, leaf))
  {
    hide Represents, Position, Oldest;
    var entries, host := inner.entries, leaf.host;
    SameSize(entries, list);
    if host in entries {
      MemberHasPosition(entries, list, host);
      var at := Position(list, host).value;
      RemovedStaysRepresented(entries, list, at);
      AppendedStaysRepresented(entries - {host}, RemoveAt(list, at), leaf, inner.clock);
      assert (entries - {host})[host := Entry(leaf, leaf.notAfter, inner.clock)]
          == entries[host := Entry(leaf, leaf.notAfter, inner.clock)];
    } else {
      NonMemberHasNone(entries, list, host);
      if NeedsRoom(entries, capacity, host) {
        VictimIsLeastRecent(inner, list);
        RemovedStaysRepresented(entries, list, 0);
        assert RemoveAt(list, 0) == list[1..];
        AppendedStaysRepresented(entries - {list[0].host}, list[1..], leaf, inner.clock);
      } else {
        assert list == [] <==> entries == map[];
        AppendedStaysRepresented(entries, list, leaf, inner.clock);
      }
    }
  }

  // ---------- Every run ----------

  datatype Operation = Read(host: Host, now: int) | StoreLeaf(leaf: Leaf) | PurgeAll

  ghost function RunCache(inner: Inner, capacity: nat, run: seq<Operation>): (Inner, seq<Option<Leaf>>)
    decreases |run|
  {
    if run == [] then (inner, [])
    else
      var (before, answers) := RunCache(inner, capacity, run[..|run| - 1]);
      match run[|run| - 1]
      case Read(host, now) => var (after, hit) := Take(before, host, now); (after, answers + [hit])
      case StoreLeaf(leaf) => (Store(before, capacity, before.epoch, leaf).0, answers)
      case PurgeAll => (Purge(before), answers)
  }

  function RunList(list: Recency, capacity: nat, run: seq<Operation>): (Recency, seq<Option<Leaf>>)
    decreases |run|
  {
    if run == [] then (list, [])
    else
      var (before, answers) := RunList(list, capacity, run[..|run| - 1]);
      match run[|run| - 1]
      case Read(host, now) => var (after, hit) := ReadList(before, host, now); (after, answers + [hit])
      case StoreLeaf(leaf) => (StoreList(before, capacity, leaf), answers)
      case PurgeAll => ([], answers)
  }

  /** From the empty cache, every run answers every read as the recency list does. */
  lemma {:induction false} CacheRefinesRecencyList(capacity: nat, run: seq<Operation>)
    ensures var (inner, answers) := RunCache(Inner(map[], {}, 0, 0), capacity, run);
            var (list, expected) := RunList([], capacity, run);
            && answers == expected
            && Stamped(inner) && WithinCapacity(inner, capacity)
            && Represents(inner.entries, list)
    decreases |run|
  {
    hide Represents, Take, Store, ReadList, StoreList, Stamped, WithinCapacity;
    if run == [] {
      EmptyRepresents();
    } else {
      var before := run[..|run| - 1];
      CacheRefinesRecencyList(capacity, before);
      var inner := RunCache(Inner(map[], {}, 0, 0), capacity, before).0;
      var list := RunList([], capacity, before).0;
      match run[|run| - 1] {
        case Read(host, now) =>
          TakeRefinesRead(inner, list, host, now);
          TakeKeepsStamps(inner, host, now);
          TakeKeepsCapacity(inner, capacity, host, now);
        case StoreLeaf(leaf) =>
          StoreRefinesList(inner, list, capacity, leaf);
          StoreKeepsStamps(inner, capacity, inner.epoch, leaf);
          StoreKeepsCapacity(inner, capacity, inner.epoch, leaf);
        case PurgeAll =>
          EmptyRepresents();
          PurgedIsClean(inner, capacity);
      }
    }
  }

  lemma EmptyRepresents()
    ensures Represents(map[], [])
    ensures Stamped(Inner(map[], {}, 0, 0))
    ensures forall capacity: nat :: WithinCapacity(Inner(map[], {}, 0, 0), capacity)
  {
  }

  lemma PurgedIsClean(inner: Inner, capacity: nat)
    ensures Stamped(Purge(inner)) && WithinCapacity(Purge(inner), capacity)
  {
  }

  lemma TakeKeepsCapacity(inner: Inner, capacity: nat, host: Host, now: int)
    requires WithinCapacity(inner, capacity) && Stamped(inner)
    ensures WithinCapacity(Take(inner, host, now).0, capacity)
  {
    TakeKeepsStamps(inner, host, now);
    SmallerStays(Take(inner, host, now).0.entries, inner.entries);
  }
}
