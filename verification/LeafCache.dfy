/**
 The leaf certificate cache of crates/fah-certs/src/leaf.rs.

 Each method of the class is one critical section of the source: what it does between taking
 and releasing the cache's mutex, and the counters it bumps. `Inner` is the state behind the
 mutex as a value; the methods are proved against functions on it, and those functions are
 the atomic steps of the concurrent protocol in `CertProtocol`.
 */
module LeafCaching {
  import opened Wrappers

  type Host = string

  /** A loaded certificate authority, as far as minting looks at it. */
  datatype Authority = Authority(id: nat, notBefore: int, notAfter: int)

  /** A minted leaf; `serial` tells two mints for one host apart. */
  datatype Leaf = Leaf(host: Host, issuer: Authority, notAfter: int, serial: nat)

  datatype Entry = Entry(leaf: Leaf, notAfter: int, used: nat)

  datatype Inner = Inner(entries: map<Host, Entry>, inflight: set<Host>, clock: nat, epoch: nat)

  /** What one turn of the `lease` loop decides. */
  datatype Lease = Fresh(leaf: Leaf) | Wait | Mint

  // ---------- Minting ----------

  const LEAF_VALIDITY_DAYS := 7
  const SECONDS_PER_DAY := 86_400
  const LEAST_TIMESTAMP := -377_705_116_800
  const GREATEST_TIMESTAMP := 253_402_300_799

  /** The timestamps the `time` crate can represent, years -9999 to 9999. */
  predicate Representable(timestamp: int) {
    LEAST_TIMESTAMP <= timestamp <= GREATEST_TIMESTAMP
  }

  /** The expiry `mint` gives a leaf issued at `issued`. */
  function LeafExpiry(issuer: Authority, issued: int): (notAfter: int)
    ensures Representable(issuer.notAfter) ==> notAfter <= issuer.notAfter
    ensures notAfter <= issued + LEAF_VALIDITY_DAYS * SECONDS_PER_DAY
    ensures notAfter == issuer.notAfter || notAfter == issued + LEAF_VALIDITY_DAYS * SECONDS_PER_DAY
    ensures !Representable(issuer.notAfter) ==> notAfter == issued + LEAF_VALIDITY_DAYS * SECONDS_PER_DAY
  {
    var full := issued + LEAF_VALIDITY_DAYS * SECONDS_PER_DAY;
    if Representable(issuer.notAfter) && issuer.notAfter < full then issuer.notAfter else full
  }

  // ---------- The critical sections as functions ----------

  /** `take_fresh` and the clock step its callers take on a hit. */
  function Take(inner: Inner, host: Host, now: int): (Inner, Option<Leaf>) {
    if host !in inner.entries then (inner, None)
    else
      var entry := inner.entries[host];
      if entry.notAfter > now then
        (inner.(entries := inner.entries[host := entry.(used := inner.clock)], clock := inner.clock + 1),
         Some(entry.leaf))
      else (inner.(entries := inner.entries - {host}), None)
  }

  function TakeLease(inner: Inner, host: Host, now: int): (Inner, Lease) {
    var (after, hit) := Take(inner, host, now);
    if hit.Some? then (after, Fresh(hit.value))
    else if host in after.inflight then (after, Wait)
    else (after.(inflight := after.inflight + {host}), Mint)
  }

  predicate IsOldest(entries: map<Host, Entry>, host: Host) {
    host in entries && forall other | other in entries :: entries[host].used <= entries[other].used
  }

  ghost function Oldest(entries: map<Host, Entry>): (host: Host)
    requires entries != map[]
    ensures IsOldest(entries, host)
  {
    OldestExists(entries);
    var host :| IsOldest(entries, host);
    host
  }

  lemma {:induction false} OldestExists(entries: map<Host, Entry>)
    requires entries != map[]
    ensures exists host :: IsOldest(entries, host)
    decreases |entries|
  {
    assert entries.Keys != {};
    var some :| some in entries;
    var rest := entries - {some};
    if rest == map[] {
      assert forall other | other in entries :: other == some || other in rest;
      assert IsOldest(entries, some);
    } else {
      assert rest.Keys == entries.Keys - {some};
      OldestExists(rest);
      var best :| IsOldest(rest, best);
      assert forall other | other in entries :: other == some || other in rest;
      if entries[best].used <= entries[some].used {
        assert IsOldest(entries, best);
      } else {
        assert IsOldest(entries, some);
      }
    }
  }

  /** Storing `host` has to push another entry out. */
  predicate NeedsRoom(entries: map<Host, Entry>, capacity: nat, host: Host) {
    host !in entries && |entries| >= capacity && entries != map[]
  }

  ghost function MakeRoom(entries: map<Host, Entry>, capacity: nat, host: Host): map<Host, Entry> {
    if NeedsRoom(entries, capacity, host) then entries - {Oldest(entries)} else entries
  }

  ghost function Store(inner: Inner, capacity: nat, epoch: nat, leaf: Leaf): (Inner, bool) {
    if inner.epoch != epoch then (inner, false)
    else
      var room := MakeRoom(inner.entries, capacity, leaf.host);
      (inner.(entries := room[leaf.host := Entry(leaf, leaf.notAfter, inner.clock)], clock := inner.clock + 1), true)
  }

  function Release(inner: Inner, host: Host): Inner {
    inner.(inflight := inner.inflight - {host})
  }

  function Purge(inner: Inner): Inner {
    inner.(entries := map[], epoch := inner.epoch + 1)
  }

  // ---------- The invariant of the map ----------

  /** Stamps are below the clock and pairwise distinct, and entries sit under their own host. */
  predicate Stamped(inner: Inner) {
    && (forall host | host in inner.entries :: inner.entries[host].used < inner.clock)
    && (forall a, b | a in inner.entries && b in inner.entries && a != b ::
          inner.entries[a].used != inner.entries[b].used)
    && (forall host | host in inner.entries ::
          inner.entries[host].leaf.host == host && inner.entries[host].leaf.notAfter == inner.entries[host].notAfter)
  }

  predicate WithinCapacity(inner: Inner, capacity: nat) {
    |inner.entries| <= if capacity == 0 then 1 else capacity
  }

  lemma OldestIsUnique(inner: Inner, host: Host)
    requires Stamped(inner) && IsOldest(inner.entries, host)
    ensures host == Oldest(inner.entries)
  {
  }

  lemma TakeKeepsStamps(inner: Inner, host: Host, now: int)
    requires Stamped(inner)
    ensures Stamped(Take(inner, host, now).0)
    ensures Take(inner, host, now).0.entries.Keys <= inner.entries.Keys
  {
  }

  lemma StoreKeepsStamps(inner: Inner, capacity: nat, epoch: nat, leaf: Leaf)
    requires Stamped(inner)
    ensures Stamped(Store(inner, capacity, epoch, leaf).0)
  {
  }

  lemma InflightIsSeparate(inner: Inner, inflight: set<Host>)
    ensures Stamped(inner.(inflight := inflight)) == Stamped(inner)
  {
  }

  lemma EvictKeepsStamps(inner: Inner, host: Host)
    requires Stamped(inner)
    ensures Stamped(inner.(entries := inner.entries - {host}))
  {
  }

  /** How a store changes the size: one in when the host is new, one out when room was needed. */
  lemma StoreSize(inner: Inner, capacity: nat, leaf: Leaf)
    ensures |Store(inner, capacity, inner.epoch, leaf).0.entries|
         == |inner.entries| + (if leaf.host in inner.entries then 0 else 1)
            - (if NeedsRoom(inner.entries, capacity, leaf.host) then 1 else 0)
  {
    hide IsOldest;
    var entries, host := inner.entries, leaf.host;
    var room := MakeRoom(entries, capacity, host);
    var after := Store(inner, capacity, inner.epoch, leaf).0.entries;
    assert after.Keys == room.Keys + {host};
    if NeedsRoom(entries, capacity, host) {
      assert room.Keys == entries.Keys - {Oldest(entries)};
      assert Oldest(entries) in entries by { OldestIsPresent(entries); }
    }
    assert |after| == |after.Keys| && |room| == |room.Keys| && |entries| == |entries.Keys|;
  }

  lemma OldestIsPresent(entries: map<Host, Entry>)
    requires entries != map[]
    ensures Oldest(entries) in entries
  {
  }

  /** The size never exceeds the capacity; a capacity of 0 still holds the entry just stored. */
  lemma StoreKeepsCapacity(inner: Inner, capacity: nat, epoch: nat, leaf: Leaf)
    requires WithinCapacity(inner, capacity)
    ensures WithinCapacity(Store(inner, capacity, epoch, leaf).0, capacity)
  {
    StoreSize(inner, capacity, leaf);
  }

  // ---------- The cache object ----------

  class LeafCache {
    const capacity: nat
    var entries: map<Host, Entry>
    var inflight: set<Host>
    var clock: nat
    var epoch: nat
    var hits: nat
    var unwarmedMisses: nat
    var prewarmHits: nat
    var coalesced: nat
    var minted: nat
    var evictions: nat
    var superseded: nat

    function State(): Inner
      reads this
    {
      Inner(entries, inflight, clock, epoch)
    }

    ghost predicate Valid()
      reads this
    {
      Stamped(State()) && WithinCapacity(State(), capacity)
    }

    constructor (capacity: nat)
      ensures Valid() && this.capacity == capacity && State() == Inner(map[], {}, 0, 0)
      ensures hits == unwarmedMisses == prewarmHits == coalesced == minted == evictions == superseded == 0
    {
      this.capacity := capacity;
      entries, inflight, clock, epoch := map[], {}, 0, 0;
      hits, unwarmedMisses, prewarmHits, coalesced, minted, evictions, superseded := 0, 0, 0, 0, 0, 0, 0;
    }

    method TakeFresh(host: Host, now: int) returns (hit: Option<Leaf>)
      requires Valid()
      modifies this`entries, this`clock
      ensures Valid()
      ensures (State(), hit) == old(Take(State(), host, now))
    {
      hide Stamped;
      ghost var before := State();
      if host in entries && entries[host].notAfter > now {
        hit := Some(entries[host].leaf);
        entries := entries[host := entries[host].(used := clock)];
        clock := clock + 1;
      } else {
        hit := None;
        if host in entries {
          entries := entries - {host};
        }
      }
      TakeKeepsStamps(before, host, now);
      SmallerStays(entries, before.entries);
    }

    /** Serves a handshake; never mints. */
    method Cached(host: Host, now: int) returns (hit: Option<Leaf>)
      requires Valid()
      modifies this`entries, this`clock, this`hits, this`unwarmedMisses
      ensures Valid()
      ensures (State(), hit) == old(Take(State(), host, now))
      ensures hits + unwarmedMisses == old(hits + unwarmedMisses) + 1
      ensures hits == old(hits) + if hit.Some? then 1 else 0
    {
      hide Stamped, WithinCapacity;
      hit := TakeFresh(host, now);
      if hit.Some? {
        hits := hits + 1;
      } else {
        unwarmedMisses := unwarmedMisses + 1;
      }
    }

    /** One turn of the `lease` loop, from taking the mutex to releasing it or waiting. */
    method LeaseTurn(host: Host, now: int, waited: bool) returns (lease: Lease)
      requires Valid()
      modifies this`entries, this`clock, this`inflight, this`coalesced, this`prewarmHits
      ensures Valid()
      ensures (State(), lease) == old(TakeLease(State(), host, now))
      ensures coalesced == old(coalesced) + if lease.Fresh? && waited then 1 else 0
      ensures prewarmHits == old(prewarmHits) + if lease.Fresh? && !waited then 1 else 0
    {
      hide Stamped;
      var hit := TakeFresh(host, now);
      if hit.Some? {
        if waited {
          coalesced := coalesced + 1;
        } else {
          prewarmHits := prewarmHits + 1;
        }
        lease := Fresh(hit.value);
      } else if host in inflight {
        lease := Wait;
      } else {
        InflightIsSeparate(State(), inflight + {host});
        inflight := inflight + {host};
        lease := Mint;
      }
    }

    method EvictOne()
      requires Valid()
      modifies this`entries, this`evictions
      ensures Valid()
      ensures old(entries) == map[] ==> entries == map[] && evictions == old(evictions)
      ensures old(entries) != map[] ==>
                entries == old(entries) - {Oldest(old(entries))} && evictions == old(evictions) + 1
    {
      hide Stamped, Oldest;
      ghost var before := State();
      if entries != map[] {
        assert entries.Keys != {};
        var victim :| victim in entries;
        var unseen := entries.Keys - {victim};
        while unseen != {}
          invariant victim in entries && unseen <= entries.Keys
          invariant forall host | host in entries && host !in unseen :: entries[victim].used <= entries[host].used
          decreases |unseen|
        {
          var host :| host in unseen;
          if entries[host].used < entries[victim].used {
            victim := host;
          }
          unseen := unseen - {host};
        }
        OldestIsUnique(before, victim);
        EvictKeepsStamps(before, victim);
        entries := entries - {victim};
        evictions := evictions + 1;
        SmallerStays(entries, before.entries);
      }
    }

    method StoreMinted(mintedUnder: nat, leaf: Leaf) returns (current: bool)
      requires Valid()
      modifies this`entries, this`clock, this`evictions, this`superseded
      ensures Valid()
      ensures (State(), current) == old(Store(State(), capacity, mintedUnder, leaf))
      ensures superseded == old(superseded) + if current then 0 else 1
      ensures evictions == old(evictions)
                           + if current && old(NeedsRoom(entries, capacity, leaf.host)) then 1 else 0
    {
      hide Stamped, Oldest, WithinCapacity;
      ghost var before := State();
      current := epoch == mintedUnder;
      if current {
        if leaf.host !in entries && |entries| >= capacity {
          EvictOne();
        }
        assert entries == MakeRoom(before.entries, capacity, leaf.host);
        entries := entries[leaf.host := Entry(leaf, leaf.notAfter, clock)];
        clock := clock + 1;
        StoreKeepsStamps(before, capacity, mintedUnder, leaf);
        StoreKeepsCapacity(before, capacity, mintedUnder, leaf);
      } else {
        superseded := superseded + 1;
      }
    }

    /** What dropping the in-flight guard does before it notifies. */
    method DropLease(host: Host)
      requires Valid()
      modifies this`inflight
      ensures Valid() && State() == old(Release(State(), host))
    {
      inflight := inflight - {host};
    }

    method Clear()
      requires Valid()
      modifies this`entries, this`epoch
      ensures Valid() && State() == old(Purge(State()))
    {
      entries := map[];
      epoch := epoch + 1;
    }
  }

  lemma SmallerStays(smaller: map<Host, Entry>, larger: map<Host, Entry>)
    requires smaller.Keys <= larger.Keys
    ensures |smaller| <= |larger|
  {
    SubsetSize(smaller.Keys, larger.Keys);
  }

  lemma {:induction false} SubsetSize<T>(a: set<T>, b: set<T>)
    requires a <= b
    ensures |a| <= |b|
  {
    assert b == a + (b - a) && |a + (b - a)| == |a| + |b - a|;
  }
}
