/** One cache as a state machine: entries are in flight or resolved, a generation decides whether a
    delivery still counts, and an eviction has exactly one outcome. */
module QueryCache {
  import opened Basics

  datatype FetchToken<K> = FetchToken(key: K, generation: nat)

  datatype Query<K, V> = Ready(value: V) | Pending | Missing(token: FetchToken<K>)

  datatype Slot<V> = Loading | Resolved(value: V)

  datatype Cached<V> = Cached(slot: Slot<V>, generation: nat, lastUsed: nat)

  type Entries<K, V> = map<K, Cached<V>>

  datatype Cache<K, V> = Cache(entries: Entries<K, V>, clock: nat, generation: nat)

  function InFlight<K, V>(m: Entries<K, V>): set<K> {
    set k | k in m && m[k].slot.Loading?
  }

  function Settled<K, V>(m: Entries<K, V>): set<K> {
    set k | k in m && m[k].slot.Resolved?
  }

  /** Every use has its own clock reading, and no generation is from the future. */
  ghost predicate Sane<K, V>(c: Cache<K, V>) {
    && (forall k :: k in c.entries ==> c.entries[k].lastUsed <= c.clock && c.entries[k].generation <= c.generation)
    && DistinctUses(c.entries)
  }

  ghost predicate DistinctUses<K, V>(m: Entries<K, V>) {
    forall j, k :: j in m && k in m && j != k ==> m[j].lastUsed != m[k].lastUsed
  }

  // ----- what each operation leaves

  function AnswerTo<K, V>(c: Cache<K, V>, key: K): Query<K, V> {
    if key !in c.entries then Missing(FetchToken(key, c.generation))
    else if c.entries[key].slot.Loading? then Pending
    else Ready(c.entries[key].slot.value)
  }

  function AfterRead<K, V>(c: Cache<K, V>, key: K): Cache<K, V> {
    var now := c.clock + 1;
    var cached := if key in c.entries then c.entries[key].(lastUsed := now) else Cached(Loading, c.generation, now);
    Cache(c.entries[key := cached], now, c.generation)
  }

  predicate Accepts<K, V>(c: Cache<K, V>, token: FetchToken<K>) {
    token.key in c.entries && c.entries[token.key].generation == token.generation
  }

  function Stored<K, V>(c: Cache<K, V>, token: FetchToken<K>, value: V): Entries<K, V>
    requires Accepts(c, token)
  {
    c.entries[token.key := Cached(Resolved(value), token.generation, c.clock + 1)]
  }

  /** How many resolved entries an eviction leaves. */
  function Room<K, V>(m: Entries<K, V>, capacity: nat): nat {
    var free := if capacity >= |InFlight(m)| then capacity - |InFlight(m)| else 0;
    if |Settled(m)| < free then |Settled(m)| else free
  }

  /** Everything in flight survives, and of the resolved entries exactly the most recently used
      that fit beside them. */
  ghost predicate EvictedTo<K, V>(before: Entries<K, V>, after: Entries<K, V>, capacity: nat) {
    && (forall k :: k in after ==> k in before && after[k] == before[k])
    && InFlight(after) == InFlight(before)
    && |Settled(after)| == Room(before, capacity)
    && OldestGone(before, after)
  }

  /** Whatever was dropped had its last use before anything resolved that was kept. */
  ghost predicate OldestGone<K, V>(before: Entries<K, V>, after: Entries<K, V>)
    requires forall k :: k in after ==> k in before
  {
    forall gone, kept :: gone in before && gone !in after && kept in Settled(after) ==>
      before[gone].lastUsed < before[kept].lastUsed
  }

  ghost predicate Fulfilled<K, V>(c: Cache<K, V>, token: FetchToken<K>, value: V, accepted: bool, next: Cache<K, V>,
                                  capacity: nat) {
    && accepted == Accepts(c, token)
    && if accepted then
         && next.clock == c.clock + 1 && next.generation == c.generation
         && EvictedTo(Stored(c, token, value), next.entries, capacity)
       else next == c
  }

  function AfterAbandon<K, V>(c: Cache<K, V>, token: FetchToken<K>): Cache<K, V> {
    if Accepts(c, token) then c.(entries := c.entries - {token.key}) else c
  }

  function AfterInvalidate<K, V>(c: Cache<K, V>, key: K): Cache<K, V> {
    c.(entries := c.entries - {key}, generation := c.generation + 1)
  }

  function AfterClear<K, V>(c: Cache<K, V>): Cache<K, V> {
    c.(entries := map[], generation := c.generation + 1)
  }

  // ----- the cache

  class QueryCache<K(==), V> {
    var entries: Entries<K, V>
    const capacity: nat
    var clock: nat
    var generation: nat

    ghost function State(): Cache<K, V>
      reads this
    {
      Cache(entries, clock, generation)
    }

    ghost predicate Valid()
      reads this
    {
      capacity >= 1 && Sane(State())
    }

    constructor (capacity: nat)
      ensures Valid() && State() == Cache(map[], 0, 0)
      ensures this.capacity == if capacity > 1 then capacity else 1
    {
      this.entries := map[];
      this.capacity := if capacity > 1 then capacity else 1;
      this.clock := 0;
      this.generation := 0;
    }

    method Read(key: K) returns (answer: Query<K, V>)
      requires Valid()
      modifies this
      ensures Valid()
      ensures answer == AnswerTo(old(State()), key) && State() == AfterRead(old(State()), key)
    {
      clock := clock + 1;
      if key in entries {
        var cached := entries[key].(lastUsed := clock);
        entries := entries[key := cached];
        match cached.slot {
          case Resolved(value) => answer := Ready(value);
          case Loading => answer := Pending;
        }
      } else {
        entries := entries[key := Cached(Loading, generation, clock)];
        answer := Missing(FetchToken(key, generation));
      }
    }

    method Fulfill(token: FetchToken<K>, value: V) returns (accepted: bool)
      requires Valid()
      modifies this
      ensures Valid()
      ensures Fulfilled(old(State()), token, value, accepted, State(), capacity)
    {
      hide Sane, EvictedTo, DistinctUses, OldestGone;
      if token.key !in entries {
        return false;
      }
      if entries[token.key].generation != token.generation {
        return false;
      }
      StoredIsSane(State(), token, value);
      clock := clock + 1;
      entries := entries[token.key := entries[token.key].(slot := Resolved(value), lastUsed := clock)];
      EvictOverCapacity();
      accepted := true;
    }

    method Abandon(token: FetchToken<K>)
      requires Valid()
      modifies this
      ensures Valid() && State() == AfterAbandon(old(State()), token)
    {
      if token.key in entries && entries[token.key].generation == token.generation {
        entries := entries - {token.key};
      }
    }

    method Invalidate(key: K)
      requires Valid()
      modifies this
      ensures Valid() && State() == AfterInvalidate(old(State()), key)
    {
      generation := generation + 1;
      entries := entries - {key};
    }

    method Clear()
      requires Valid()
      modifies this
      ensures Valid() && State() == AfterClear(old(State()))
    {
      generation := generation + 1;
      entries := map[];
    }

    method EvictOverCapacity()
      requires Valid()
      modifies this`entries
      ensures Valid()
      ensures EvictedTo(old(entries), entries, capacity)
    {
      ghost var before := entries;
      assert Evicting(before, entries, capacity);
      while |entries| > capacity
        invariant Valid() && Evicting(before, entries, capacity)
        decreases |entries|
      {
        var victim := LeastRecent(entries);
        if victim.None? {
          break;
        }
        EvictOne(before, entries, victim.value, capacity);
        SizeAfterRemoval(entries, victim.value);
        entries := entries - {victim.value};
      }
      EvictionEnds(before, entries, capacity);
    }
  }

  lemma StoredIsSane<K, V>(c: Cache<K, V>, token: FetchToken<K>, value: V)
    requires Sane(c) && Accepts(c, token)
    ensures Sane(Cache(Stored(c, token, value), c.clock + 1, c.generation))
  {
  }

  /** The resolved key with the oldest use. */
  method LeastRecent<K(==), V>(entries: Entries<K, V>) returns (victim: Option<K>)
    ensures victim.None? <==> Settled(entries) == {}
    ensures victim.Some? ==> IsOldest(entries, victim.value)
  {
    victim := None;
    var rest := entries.Keys;
    while rest != {}
      invariant rest <= entries.Keys
      invariant victim.None? ==> Settled(entries) <= rest
      invariant victim.Some? ==> victim.value in Settled(entries)
      invariant victim.Some? ==> forall k :: k in Settled(entries) && k !in rest ==>
        entries[victim.value].lastUsed <= entries[k].lastUsed
      decreases |rest|
    {
      var key :| key in rest;
      rest := rest - {key};
      if entries[key].slot.Resolved? {
        if victim.None? || entries[key].lastUsed < entries[victim.value].lastUsed {
          victim := Some(key);
        }
      }
    }
  }

  ghost predicate IsOldest<K, V>(m: Entries<K, V>, key: K) {
    key in Settled(m) && forall k :: k in Settled(m) ==> m[key].lastUsed <= m[k].lastUsed
  }

  // ----- eviction

  /** Part of the way through an eviction. */
  ghost predicate Evicting<K, V>(before: Entries<K, V>, now: Entries<K, V>, capacity: nat) {
    && (forall k :: k in now ==> k in before && now[k] == before[k])
    && InFlight(now) == InFlight(before)
    && (now == before || |now| >= capacity)
    && OldestGone(before, now)
  }

  lemma EvictOne<K, V>(before: Entries<K, V>, now: Entries<K, V>, victim: K, capacity: nat)
    requires Evicting(before, now, capacity) && |now| > capacity
    requires DistinctUses(now) && IsOldest(now, victim)
    ensures Evicting(before, now - {victim}, capacity) && DistinctUses(now - {victim})
  {
    var next := now - {victim};
    SizeAfterRemoval(now, victim);
    assert InFlight(next) == InFlight(now);
    forall gone, kept | gone in before && gone !in next && kept in Settled(next)
      ensures before[gone].lastUsed < before[kept].lastUsed
    {
      assert kept in Settled(now);
    }
  }

  lemma SizeAfterRemoval<K, V>(m: Entries<K, V>, key: K)
    requires key in m
    ensures |m - {key}| == |m| - 1
  {
    assert (m - {key}).Keys == m.Keys - {key};
  }

  lemma KeysSplit<K, V>(m: Entries<K, V>)
    ensures |m| == |InFlight(m)| + |Settled(m)|
  {
    assert m.Keys == InFlight(m) + Settled(m);
    assert InFlight(m) !! Settled(m);
  }

  lemma EvictionEnds<K, V>(before: Entries<K, V>, now: Entries<K, V>, capacity: nat)
    requires Evicting(before, now, capacity)
    requires |now| <= capacity || Settled(now) == {}
    ensures EvictedTo(before, now, capacity)
  {
    KeysSplit(before);
    KeysSplit(now);
    FewerSettled(before, now);
  }

  lemma FewerSettled<K, V>(before: Entries<K, V>, now: Entries<K, V>)
    requires forall k :: k in now ==> k in before && now[k] == before[k]
    ensures |Settled(now)| <= |Settled(before)|
  {
    SubsetSize(Settled(now), Settled(before));
  }

  /** The specification leaves no choice: what an eviction keeps is determined. */
  lemma EvictionIsDetermined<K, V>(before: Entries<K, V>, a: Entries<K, V>, b: Entries<K, V>, capacity: nat)
    requires DistinctUses(before)
    requires EvictedTo(before, a, capacity) && EvictedTo(before, b, capacity)
    ensures a == b
  {
    var x, y := Settled(a), Settled(b);
    assert x <= y || y <= x;
    if x != y {
      if x <= y {
        SubsetSize(x, y);
      } else {
        SubsetSize(y, x);
      }
    }
    assert x == y;
    forall k ensures k in a <==> k in b {
      assert k in a <==> k in InFlight(a) || k in x;
      assert k in b <==> k in InFlight(b) || k in y;
    }
  }

  /** The value just accepted is kept exactly when the other fetches in flight before the call leave it room. */
  lemma AcceptedValueKept<K, V>(c: Cache<K, V>, token: FetchToken<K>, value: V, next: Cache<K, V>, capacity: nat)
    requires Sane(c) && capacity >= 1
    requires Fulfilled(c, token, value, true, next, capacity)
    ensures token.key in next.entries <==> |InFlight(c.entries) - {token.key}| < capacity
    ensures InFlight(next.entries) == InFlight(c.entries) - {token.key}
    ensures token.key in next.entries ==> next.entries[token.key].slot == Resolved(value)
    ensures |next.entries| <= capacity || Settled(next.entries) == {}
  {
    var before, after := Stored(c, token, value), next.entries;
    StoredSets(c, token, value);
    KeysSplit(after);
    hide Room;
    RoomLeft(before, capacity);
    if token.key in after {
      assert token.key in Settled(after);
      SubsetSize({token.key}, Settled(after));
    } else {
      hide Settled;
      NewestGone(c, token, value, after);
    }
  }

  lemma StoredSets<K, V>(c: Cache<K, V>, token: FetchToken<K>, value: V)
    requires Accepts(c, token)
    ensures InFlight(Stored(c, token, value)) == InFlight(c.entries) - {token.key}
    ensures token.key in Settled(Stored(c, token, value)) && |Settled(Stored(c, token, value))| >= 1
  {
    SubsetSize({token.key}, Settled(Stored(c, token, value)));
  }

  lemma RoomLeft<K, V>(m: Entries<K, V>, capacity: nat)
    requires |Settled(m)| >= 1
    ensures Room(m, capacity) == 0 <==> |InFlight(m)| >= capacity
    ensures |InFlight(m)| + Room(m, capacity) <= capacity || Room(m, capacity) == 0
  {
  }

  /** When even the newest value went, nothing resolved stayed. */
  lemma NewestGone<K, V>(c: Cache<K, V>, token: FetchToken<K>, value: V, after: Entries<K, V>)
    requires Sane(c) && Accepts(c, token) && token.key !in after
    requires forall k :: k in after ==> k in Stored(c, token, value)
    requires OldestGone(Stored(c, token, value), after)
    ensures Settled(after) == {}
  {
    var before := Stored(c, token, value);
    forall k | k in before ensures k !in Settled(after) {
      assert before[k].lastUsed <= before[token.key].lastUsed;
    }
    assert forall k :: k in Settled(after) ==> k in after;
  }
}
