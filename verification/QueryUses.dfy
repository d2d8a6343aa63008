/** What a run's events alone say about the query cache: which key was used last, what a read answers,
    and what an eviction drops. */
module QueryUses {
  import opened Basics
  import opened QueryCache
  import opened QueryRuns

  /** A read uses its key, whatever the answer, and so does a delivery that is accepted. */
  predicate UsesKey<K(==), V>(e: Event<K, V>, key: K) {
    (e.Read? && e.key == key) || (e.Fulfill? && e.accepted && e.token.key == key)
  }

  /** Event `i` is the last of the first `n` that uses `key`. */
  ghost predicate LastUse<K, V>(events: seq<Event<K, V>>, n: nat, key: K, i: nat)
    requires n <= |events|
  {
    i < n && UsesKey(events[i], key) && forall j :: i < j < n ==> !UsesKey(events[j], key)
  }

  // ----- the order of uses

  lemma UseOfStep<K, V>(c: Cache<K, V>, e: Event<K, V>, next: Cache<K, V>, capacity: nat, key: K)
    requires Step(c, e, next, capacity) && key in next.entries
    ensures UsesKey(e, key) ==> next.entries[key].lastUsed == next.clock
    ensures !UsesKey(e, key) ==> key in c.entries && next.entries[key].lastUsed == c.entries[key].lastUsed
  {
  }

  lemma ClockOfStep<K, V>(c: Cache<K, V>, e: Event<K, V>, next: Cache<K, V>, capacity: nat)
    requires Step(c, e, next, capacity)
    ensures c.clock <= next.clock
    ensures forall key :: UsesKey(e, key) ==> c.clock < next.clock
  {
  }

  lemma {:induction false} ClockRises<K, V>(states: seq<Cache<K, V>>, events: seq<Event<K, V>>, capacity: nat,
                                            i: nat, j: nat)
    requires IsRun(states, events, capacity) && i <= j < |states|
    ensures states[i].clock <= states[j].clock
    decreases j - i
  {
    hide Step;
    if i < j {
      ClockRises(states, events, capacity, i, j - 1);
      ClockOfStep(states[j - 1], events[j - 1], states[j], capacity);
    }
  }

  /** Every entry was used, and its stamp is the clock of its key's last use. */
  lemma {:induction false} StampOfLastUse<K, V>(states: seq<Cache<K, V>>, events: seq<Event<K, V>>, capacity: nat,
                                                n: nat, key: K) returns (i: nat)
    requires IsRun(states, events, capacity) && n <= |events| && key in states[n].entries
    ensures LastUse(events, n, key, i) && states[n].entries[key].lastUsed == states[i + 1].clock
    decreases n
  {
    hide Step, UsesKey;
    assert n > 0;
    UseOfStep(states[n - 1], events[n - 1], states[n], capacity, key);
    if UsesKey(events[n - 1], key) {
      i := n - 1;
    } else {
      i := StampOfLastUse(states, events, capacity, n - 1, key);
    }
  }

  lemma OneLastUse<K, V>(events: seq<Event<K, V>>, n: nat, key: K, i: nat, j: nat)
    requires n <= |events| && LastUse(events, n, key, i) && LastUse(events, n, key, j)
    ensures i == j
  {
  }

  /** In every run, one entry's stamp is before another's exactly when its key's last read or accepted
      delivery was. */
  lemma StampsFollowUses<K, V>(states: seq<Cache<K, V>>, events: seq<Event<K, V>>, capacity: nat, n: nat,
                               a: K, b: K, i: nat, j: nat)
    requires IsRun(states, events, capacity) && n <= |events|
    requires a in states[n].entries && b in states[n].entries
    requires LastUse(events, n, a, i) && LastUse(events, n, b, j)
    ensures states[n].entries[a].lastUsed < states[n].entries[b].lastUsed <==> i < j
  {
    hide Step, UsesKey;
    var i' := StampOfLastUse(states, events, capacity, n, a);
    var j' := StampOfLastUse(states, events, capacity, n, b);
    OneLastUse(events, n, a, i, i');
    OneLastUse(events, n, b, j, j');
    if i < j {
      LaterUseIsLater(states, events, capacity, i, j, b);
    } else if j < i {
      LaterUseIsLater(states, events, capacity, j, i, a);
    }
  }

  lemma LaterUseIsLater<K, V>(states: seq<Cache<K, V>>, events: seq<Event<K, V>>, capacity: nat, i: nat, j: nat, key: K)
    requires IsRun(states, events, capacity) && i < j < |events| && UsesKey(events[j], key)
    ensures states[i + 1].clock < states[j + 1].clock
  {
    hide Step, UsesKey;
    ClockRises(states, events, capacity, i + 1, j);
    ClockOfStep(states[j], events[j], states[j + 1], capacity);
  }

  /** In every run, what an accepted delivery makes the cache drop was last read or delivered before every
      value that it keeps. */
  lemma DropsLeastRecentlyUsed<K, V>(states: seq<Cache<K, V>>, events: seq<Event<K, V>>, capacity: nat, n: nat,
                                     gone: K, kept: K, i: nat, j: nat)
    requires IsRun(states, events, capacity) && n < |events| && events[n].Fulfill? && events[n].accepted
    requires gone in states[n].entries && gone !in states[n + 1].entries && kept in Settled(states[n + 1].entries)
    requires LastUse(events, n + 1, gone, i) && LastUse(events, n + 1, kept, j)
    ensures i < j
  {
    hide UsesKey;
    var c, next := states[n], states[n + 1];
    assert Step(c, events[n], next, capacity);
    var stored := Stored(c, events[n].token, events[n].value);
    assert stored[gone].lastUsed < stored[kept].lastUsed && next.entries[kept] == stored[kept];
    StoredStamp(states, events, capacity, n, gone, i);
    StoredStamp(states, events, capacity, n, kept, j);
    hide Step;
    if j < i {
      LaterUseIsLater(states, events, capacity, j, i, gone);
    }
  }

  /** The stamps just before the eviction are those of the last uses, the delivery included. */
  lemma StoredStamp<K, V>(states: seq<Cache<K, V>>, events: seq<Event<K, V>>, capacity: nat, n: nat, key: K, i: nat)
    requires IsRun(states, events, capacity) && n < |events| && events[n].Fulfill? && events[n].accepted
    requires key in states[n].entries && LastUse(events, n + 1, key, i)
    ensures Accepts(states[n], events[n].token)
    ensures Stored(states[n], events[n].token, events[n].value)[key].lastUsed == states[i + 1].clock
  {
    assert Step(states[n], events[n], states[n + 1], capacity);
    if key == events[n].token.key {
      assert UsesKey(events[n], key);
    } else {
      assert !UsesKey(events[n], key);
      var i' := StampOfLastUse(states, events, capacity, n, key);
      OneLastUse(events, n, key, i, i');
    }
  }

  // ----- what is forgotten, and what a read answers

  /** A key's entry goes only when it is invalidated, when its fetch is abandoned, or when a delivery
      finds more entries than the capacity; and then it is a resolved one. */
  lemma ForgottenOnlyThen<K, V>(c: Cache<K, V>, e: Event<K, V>, next: Cache<K, V>, capacity: nat, key: K)
    requires Step(c, e, next, capacity) && key in c.entries && key !in next.entries
    ensures || Invalidates(e, key)
            || (e.Abandon? && e.token == FetchToken(key, c.entries[key].generation))
            || (e.Fulfill? && e.accepted && |c.entries| > capacity
                && (c.entries[key].slot.Resolved? || e.token.key == key))
  {
    if e.Fulfill? && e.accepted {
      var stored := Stored(c, e.token, e.value);
      assert stored.Keys == c.entries.Keys;
      if |c.entries| <= capacity {
        NothingDropped(stored, next.entries, capacity);
      }
      assert key in InFlight(stored) ==> key in InFlight(next.entries);
    }
  }

  lemma NothingDropped<K, V>(before: Entries<K, V>, after: Entries<K, V>, capacity: nat)
    requires EvictedTo(before, after, capacity) && |before| <= capacity
    ensures after.Keys == before.Keys
  {
    KeysSplit(before);
    assert Settled(after) <= Settled(before);
    SameSize(Settled(after), Settled(before));
    assert before.Keys == InFlight(before) + Settled(before);
    assert after.Keys == InFlight(after) + Settled(after);
  }

  lemma SameSize<T>(a: set<T>, b: set<T>)
    requires a <= b && |a| == |b|
    ensures a == b
  {
    SubsetSize(a, b);
  }

  /** A value delivered for `key` by event `d` is still there before event `n`: its entry was never gone. */
  ghost predicate KeptSince<K, V>(states: seq<Cache<K, V>>, events: seq<Event<K, V>>, key: K, value: V, d: nat, n: nat)
    requires |states| == |events| + 1
  {
    && d < n <= |events| && events[d].Fulfill? && events[d].accepted
    && events[d].token.key == key && events[d].value == value
    && forall m :: d < m <= n ==> key in states[m].entries
  }

  lemma {:induction false} KeptIsReady<K, V>(states: seq<Cache<K, V>>, events: seq<Event<K, V>>, capacity: nat,
                                             key: K, value: V, d: nat, n: nat)
    requires IsRun(states, events, capacity) && KeptSince(states, events, key, value, d, n)
    requires forall m :: d < m < n && events[m].Fulfill? && events[m].accepted ==> events[m].token.key != key
    ensures states[n].entries[key].slot == Resolved(value)
    decreases n
  {
    assert Step(states[n - 1], events[n - 1], states[n], capacity);
    if n > d + 1 {
      KeptIsReady(states, events, capacity, key, value, d, n - 1);
      EntryAfterStep(states[n - 1], events[n - 1], states[n], capacity, key);
    }
  }

  /** In every run a read is ready exactly when a value was delivered for its key and has been there ever
      since, it is missing exactly when there is no entry, and it answers with the newest such value. */
  lemma ReadAnswers<K, V>(states: seq<Cache<K, V>>, events: seq<Event<K, V>>, capacity: nat, n: nat)
    requires IsRun(states, events, capacity) && n < |events| && events[n].Read?
    ensures var key, answer := events[n].key, events[n].answer;
      && (answer.Missing? <==> key !in states[n].entries)
      && (answer.Ready? <==> exists d: nat, value: V :: KeptSince(states, events, key, value, d, n))
      && forall d: nat, value: V :: KeptSince(states, events, key, value, d, n)
           && (forall m :: d < m < n && events[m].Fulfill? && events[m].accepted ==> events[m].token.key != key)
           ==> answer == Ready(value)
  {
    var key := events[n].key;
    assert Step(states[n], events[n], states[n + 1], capacity);
    forall d: nat, value: V | KeptSince(states, events, key, value, d, n)
      ensures states[n].entries[key].slot.Resolved?
    {
      StaysResolved(states, events, capacity, key, value, d, n);
    }
    forall d: nat, value: V | KeptSince(states, events, key, value, d, n)
           && (forall m :: d < m < n && events[m].Fulfill? && events[m].accepted ==> events[m].token.key != key)
      ensures events[n].answer == Ready(value)
    {
      KeptIsReady(states, events, capacity, key, value, d, n);
    }
    if events[n].answer.Ready? {
      var d := ResolvedSince(states, events, capacity, key, n);
    }
  }

  lemma {:induction false} StaysResolved<K, V>(states: seq<Cache<K, V>>, events: seq<Event<K, V>>, capacity: nat,
                                               key: K, value: V, d: nat, n: nat)
    requires IsRun(states, events, capacity) && KeptSince(states, events, key, value, d, n)
    ensures states[n].entries[key].slot.Resolved?
    decreases n
  {
    assert Step(states[n - 1], events[n - 1], states[n], capacity);
    if n > d + 1 {
      StaysResolved(states, events, capacity, key, value, d, n - 1);
      EntryAfterStep(states[n - 1], events[n - 1], states[n], capacity, key);
    }
  }

  lemma {:induction false} ResolvedSince<K, V>(states: seq<Cache<K, V>>, events: seq<Event<K, V>>, capacity: nat,
                                               key: K, n: nat) returns (d: nat)
    requires IsRun(states, events, capacity) && n <= |events|
    requires key in states[n].entries && states[n].entries[key].slot.Resolved?
    ensures KeptSince(states, events, key, states[n].entries[key].slot.value, d, n)
    decreases n
  {
    assert n > 0;
    assert Step(states[n - 1], events[n - 1], states[n], capacity);
    EntryAfterStep(states[n - 1], events[n - 1], states[n], capacity, key);
    if key in states[n - 1].entries && states[n].entries[key].slot == states[n - 1].entries[key].slot {
      d := ResolvedSince(states, events, capacity, key, n - 1);
    } else {
      d := n - 1;
    }
  }
}
