/** What the query cache guarantees over every run of its operations, in any order. */
module QueryRuns {
  import opened Basics
  import opened QueryCache

  datatype Event<K, V> =
    | Read(key: K, answer: Query<K, V>)
    | Fulfill(token: FetchToken<K>, value: V, accepted: bool)
    | Abandon(token: FetchToken<K>)
    | Invalidate(key: K)
    | Clear

  ghost predicate Step<K, V>(c: Cache<K, V>, e: Event<K, V>, next: Cache<K, V>, capacity: nat) {
    match e
    case Read(key, answer) => answer == AnswerTo(c, key) && next == AfterRead(c, key)
    case Fulfill(token, value, accepted) => Fulfilled(c, token, value, accepted, next, capacity)
    case Abandon(token) => next == AfterAbandon(c, token)
    case Invalidate(key) => next == AfterInvalidate(c, key)
    case Clear => next == AfterClear(c)
  }

  /** The cache before each event and at the end. */
  ghost predicate IsRun<K, V>(states: seq<Cache<K, V>>, events: seq<Event<K, V>>, capacity: nat) {
    && |states| == |events| + 1
    && states[0] == Cache(map[], 0, 0)
    && forall i :: 0 <= i < |events| ==> Step(states[i], events[i], states[i + 1], capacity)
  }

  // ----- sanity and size

  lemma StepKeepsSane<K, V>(c: Cache<K, V>, e: Event<K, V>, next: Cache<K, V>, capacity: nat)
    requires Sane(c) && Step(c, e, next, capacity)
    ensures Sane(next)
  {
    if e.Fulfill? && e.accepted {
      StoredIsSane(c, e.token, e.value);
    }
  }

  /** `capacity` bounds the resolved values at every moment, however far fetches run over it. */
  lemma StepKeepsBound<K, V>(c: Cache<K, V>, e: Event<K, V>, next: Cache<K, V>, capacity: nat)
    requires Step(c, e, next, capacity) && |Settled(c.entries)| <= capacity
    ensures |Settled(next.entries)| <= capacity
  {
    if e.Fulfill? && e.accepted {
    } else {
      assert Settled(next.entries) <= Settled(c.entries);
      SubsetSize(Settled(next.entries), Settled(c.entries));
    }
  }

  lemma {:induction false} RunsAreSane<K, V>(states: seq<Cache<K, V>>, events: seq<Event<K, V>>, capacity: nat, i: nat)
    requires IsRun(states, events, capacity) && i < |states|
    ensures Sane(states[i]) && |Settled(states[i].entries)| <= capacity
    decreases i
  {
    hide Step, Sane, Settled;
    if i == 0 {
      EmptyIsSane<K, V>(capacity);
    } else {
      RunsAreSane(states, events, capacity, i - 1);
      assert Step(states[i - 1], events[i - 1], states[i], capacity);
      StepKeepsSane(states[i - 1], events[i - 1], states[i], capacity);
      StepKeepsBound(states[i - 1], events[i - 1], states[i], capacity);
    }
  }

  lemma EmptyIsSane<K, V>(capacity: nat)
    ensures Sane<K, V>(Cache(map[], 0, 0)) && |Settled<K, V>(map[])| <= capacity
  {
    assert Settled<K, V>(map[]) == {};
  }

  // ----- freshness

  predicate Invalidates<K(==), V>(e: Event<K, V>, key: K) {
    e.Clear? || (e.Invalidate? && e.key == key)
  }

  ghost predicate Untouched<K, V>(events: seq<Event<K, V>>, key: K, from: nat, to: nat)
    requires from <= to <= |events|
  {
    forall i :: from <= i < to ==> !Invalidates(events[i], key)
  }

  ghost predicate Issues<K, V>(e: Event<K, V>, token: FetchToken<K>) {
    e.Read? && e.answer.Missing? && e.answer.token == token
  }

  ghost predicate Delivers<K, V>(e: Event<K, V>, token: FetchToken<K>, value: V) {
    e.Fulfill? && e.accepted && e.token == token && e.value == value
  }

  /** How one event can change one key's entry. */
  lemma EntryAfterStep<K, V>(c: Cache<K, V>, e: Event<K, V>, next: Cache<K, V>, capacity: nat, key: K)
    requires Step(c, e, next, capacity) && key in next.entries
    ensures !Invalidates(e, key)
    ensures key !in c.entries ==>
      Issues(e, FetchToken(key, next.entries[key].generation)) && next.entries[key].slot.Loading?
    ensures key in c.entries ==> next.entries[key].generation == c.entries[key].generation
    ensures key in c.entries ==>
      || next.entries[key].slot == c.entries[key].slot
      || (next.entries[key].slot.Resolved?
        && Delivers(e, FetchToken(key, next.entries[key].generation), next.entries[key].slot.value))
  {
  }

  /** Where an entry comes from: the read that claimed it, and the delivery that resolved it. */
  lemma {:induction false} Origin<K, V>(states: seq<Cache<K, V>>, events: seq<Event<K, V>>, capacity: nat, i: nat,
                                        key: K)
      returns (claimed: nat, delivered: nat)
    requires IsRun(states, events, capacity) && i < |states| && key in states[i].entries
    ensures var cached := states[i].entries[key]; var token := FetchToken(key, cached.generation);
      && claimed < i && Issues(events[claimed], token) && Untouched(events, key, claimed, i)
      && (cached.slot.Resolved? ==> claimed < delivered < i && Delivers(events[delivered], token, cached.slot.value))
    decreases i
  {
    hide Step, Issues, Delivers, Invalidates;
    assert i > 0;
    var before, e, after := states[i - 1], events[i - 1], states[i];
    EntryAfterStep(before, e, after, capacity, key);
    if key !in before.entries {
      claimed, delivered := i - 1, 0;
    } else {
      claimed, delivered := Origin(states, events, capacity, i - 1, key);
      if after.entries[key].slot != before.entries[key].slot {
        delivered := i - 1;
      }
    }
  }

  /** The generation never falls, and rises with every invalidation. */
  lemma {:induction false} GenerationsRise<K, V>(states: seq<Cache<K, V>>, events: seq<Event<K, V>>, capacity: nat,
                                                 i: nat, j: nat)
    requires IsRun(states, events, capacity) && i <= j < |states|
    ensures states[i].generation <= states[j].generation
    ensures forall m, key :: i <= m < j && Invalidates(events[m], key) ==> states[i].generation < states[j].generation
    decreases j - i
  {
    hide Step, Invalidates;
    if i < j {
      GenerationsRise(states, events, capacity, i, j - 1);
      GenerationAfterStep(states[j - 1], events[j - 1], states[j], capacity);
    }
  }

  lemma GenerationAfterStep<K, V>(c: Cache<K, V>, e: Event<K, V>, next: Cache<K, V>, capacity: nat)
    requires Step(c, e, next, capacity)
    ensures c.generation <= next.generation
    ensures forall key :: Invalidates(e, key) ==> c.generation < next.generation
    ensures forall token :: Issues(e, token) ==> token.generation == c.generation
  {
  }

  /** A value read as ready was delivered under a token issued after its key's last invalidation,
      and no other issue of an equal token was before it either. */
  lemma ReadsAreFresh<K, V>(states: seq<Cache<K, V>>, events: seq<Event<K, V>>, capacity: nat, i: nat)
    requires IsRun(states, events, capacity) && i < |events|
    requires events[i].Read? && events[i].answer.Ready?
    ensures exists token: FetchToken<K>, claimed: nat, delivered: nat ::
      && token.key == events[i].key && claimed < delivered < i
      && Issues(events[claimed], token) && Delivers(events[delivered], token, events[i].answer.value)
      && forall t: nat :: t < i && Issues(events[t], token) ==> Untouched(events, token.key, t, i)
  {
    var key := events[i].key;
    assert Step(states[i], events[i], states[i + 1], capacity);
    assert key in states[i].entries;
    var token := FetchToken(key, states[i].entries[key].generation);
    var claimed, delivered := Origin(states, events, capacity, i, key);
    hide Step, Issues, Delivers, Invalidates;
    forall t: nat | t < i && Issues(events[t], token) ensures Untouched(events, key, t, i) {
      GenerationAfterStep(states[t], events[t], states[t + 1], capacity);
      GenerationAfterStep(states[claimed], events[claimed], states[claimed + 1], capacity);
      if t < claimed {
        GenerationsRise(states, events, capacity, t, claimed);
      }
    }
    assert Delivers(events[delivered], token, events[i].answer.value);
  }

  // ----- tokens used at most once

  /** Tokens handed out and not yet used. */
  ghost function Held<K, V>(events: seq<Event<K, V>>): set<FetchToken<K>> {
    if events == [] then {}
    else
      var held := Held(events[..|events| - 1]);
      match events[|events| - 1]
      case Read(_, answer) => if answer.Missing? then held + {answer.token} else held
      case Fulfill(token, _, _) => held - {token}
      case Abandon(token) => held - {token}
      case _ => held
  }

  /** Held tokens whose key was not invalidated since they were handed out. */
  ghost function Live<K, V>(events: seq<Event<K, V>>): set<FetchToken<K>> {
    if events == [] then {}
    else
      var live := Live(events[..|events| - 1]);
      match events[|events| - 1]
      case Read(_, answer) => if answer.Missing? then live + {answer.token} else live
      case Fulfill(token, _, _) => live - {token}
      case Abandon(token) => live - {token}
      case Invalidate(key) => set token | token in live && token.key != key
      case Clear => {}
  }

  /** Only tokens that are held get used. */
  ghost predicate UsedOnce<K, V>(events: seq<Event<K, V>>) {
    forall i :: 0 <= i < |events| ==> UsesHeld(events[i], Held(events[..i]))
  }

  ghost predicate UsesHeld<K, V>(e: Event<K, V>, held: set<FetchToken<K>>) {
    && (e.Fulfill? ==> e.token in held)
    && (e.Abandon? ==> e.token in held)
  }

  ghost predicate IsLoading<K, V>(c: Cache<K, V>, key: K) {
    key in c.entries && c.entries[key].slot.Loading?
  }

  /** The cache and the tokens fit together. */
  ghost predicate Fits<K, V>(c: Cache<K, V>, held: set<FetchToken<K>>, live: set<FetchToken<K>>) {
    && live <= held
    && (forall token :: token in live ==> IsLoading(c, token.key) && Accepts(c, token))
    && (forall key :: key in c.entries && IsLoading(c, key) ==> FetchToken(key, c.entries[key].generation) in live)
    && (forall token :: token in held && token !in live ==> IsStale(c, token))
  }

  ghost predicate IsStale<K, V>(c: Cache<K, V>, token: FetchToken<K>) {
    token.generation < if token.key in c.entries then c.entries[token.key].generation else c.generation
  }

  lemma ReadFits<K, V>(c: Cache<K, V>, key: K, held: set<FetchToken<K>>, live: set<FetchToken<K>>)
    requires Sane(c) && Fits(c, held, live)
    ensures key in c.entries ==> Fits(AfterRead(c, key), held, live)
    ensures key !in c.entries ==>
      var token := FetchToken(key, c.generation);
      token !in held && Fits(AfterRead(c, key), held + {token}, live + {token})
  {
  }

  lemma FulfillFits<K, V>(c: Cache<K, V>, token: FetchToken<K>, value: V, accepted: bool, next: Cache<K, V>,
                          capacity: nat, held: set<FetchToken<K>>, live: set<FetchToken<K>>)
    requires Sane(c) && Fits(c, held, live) && token in held
    requires Fulfilled(c, token, value, accepted, next, capacity)
    ensures accepted <==> token in live
    ensures Fits(next, held - {token}, live - {token})
  {
    HeldAreAcceptedIffLive(c, held, live, token);
    if accepted {
      DeliveredFits(c, token, value, next, capacity, held, live);
    }
  }

  lemma HeldAreAcceptedIffLive<K, V>(c: Cache<K, V>, held: set<FetchToken<K>>, live: set<FetchToken<K>>,
                                     token: FetchToken<K>)
    requires Fits(c, held, live) && token in held
    ensures Accepts(c, token) <==> token in live
  {
  }

  lemma DeliveredFits<K, V>(c: Cache<K, V>, token: FetchToken<K>, value: V, next: Cache<K, V>, capacity: nat,
                            held: set<FetchToken<K>>, live: set<FetchToken<K>>)
    requires Sane(c) && Fits(c, held, live) && token in live
    requires Fulfilled(c, token, value, true, next, capacity)
    ensures Fits(next, held - {token}, live - {token})
  {
    var stored := Stored(c, token, value);
    forall t | t in live - {token} ensures IsLoading(next, t.key) && Accepts(next, t) {
      assert t.key in InFlight(stored);
    }
    forall key | key in next.entries && IsLoading(next, key)
      ensures FetchToken(key, next.entries[key].generation) in live - {token}
    {
      assert next.entries[key] == stored[key];
    }
    forall t | t in held - {token} && t !in live - {token} ensures IsStale(next, t) {
      assert IsStale(c, t);
    }
  }

  lemma AbandonFits<K, V>(c: Cache<K, V>, token: FetchToken<K>, held: set<FetchToken<K>>, live: set<FetchToken<K>>)
    requires Sane(c) && Fits(c, held, live) && token in held
    ensures Fits(AfterAbandon(c, token), held - {token}, live - {token})
  {
  }

  lemma InvalidateFits<K, V>(c: Cache<K, V>, key: K, held: set<FetchToken<K>>, live: set<FetchToken<K>>)
    requires Sane(c) && Fits(c, held, live)
    ensures Fits(AfterInvalidate(c, key), held, set token | token in live && token.key != key)
  {
    var next := AfterInvalidate(c, key);
    forall t | t in held && !(t in live && t.key != key) ensures IsStale(next, t) {
      assert t in live || IsStale(c, t);
    }
  }

  lemma ClearFits<K, V>(c: Cache<K, V>, held: set<FetchToken<K>>, live: set<FetchToken<K>>)
    requires Sane(c) && Fits(c, held, live)
    ensures Fits(AfterClear(c), held, {})
  {
    forall t | t in held ensures IsStale(AfterClear(c), t) {
      assert t in live || IsStale(c, t);
    }
  }

  lemma {:induction false} RunsFit<K, V>(states: seq<Cache<K, V>>, events: seq<Event<K, V>>, capacity: nat, n: nat)
    requires IsRun(states, events, capacity) && UsedOnce(events) && n <= |events|
    ensures Sane(states[n]) && Fits(states[n], Held(events[..n]), Live(events[..n]))
    decreases n
  {
    hide Sane, Fits, Step, UsesHeld, Held, Live;
    RunsAreSane(states, events, capacity, n);
    if n == 0 {
      assert events[..0] == [];
      NothingHeld(states[0]);
    } else {
      RunsFit(states, events, capacity, n - 1);
      assert events[..n][..n - 1] == events[..n - 1];
      assert UsesHeld(events[n - 1], Held(events[..n - 1]));
      StepFits(states[n - 1], events[..n], states[n], capacity);
    }
  }

  lemma NothingHeld<K, V>(c: Cache<K, V>)
    requires c.entries == map[]
    ensures Fits(c, Held<K, V>([]), Live<K, V>([]))
  {
  }

  lemma StepFits<K, V>(c: Cache<K, V>, events: seq<Event<K, V>>, next: Cache<K, V>, capacity: nat)
    requires events != [] && Sane(c)
    requires var before := events[..|events| - 1]; var e := events[|events| - 1];
      Fits(c, Held(before), Live(before)) && UsesHeld(e, Held(before)) && Step(c, e, next, capacity)
    ensures Fits(next, Held(events), Live(events))
  {
    hide Sane, Fits, Fulfilled, AfterRead, AfterAbandon, AfterInvalidate, AfterClear;
    var before, e := events[..|events| - 1], events[|events| - 1];
    var held, live := Held(before), Live(before);
    match e
    case Read(key, _) => ReadFits(c, key, held, live);
    case Fulfill(token, value, accepted) => FulfillFits(c, token, value, accepted, next, capacity, held, live);
    case Abandon(token) => AbandonFits(c, token, held, live);
    case Invalidate(key) => InvalidateFits(c, key, held, live);
    case Clear => ClearFits(c, held, live);
  }

  /** With each token used at most once, a key is loading exactly when one live token for it is
      out, a held token would be accepted exactly while it is live, and a read hands out a token
      only for a key with no live token: no key is fetched twice at once. */
  lemma OneFetchPerKey<K, V>(states: seq<Cache<K, V>>, events: seq<Event<K, V>>, capacity: nat, n: nat)
    requires IsRun(states, events, capacity) && UsedOnce(events) && n <= |events|
    ensures var c := states[n]; var held := Held(events[..n]); var live := Live(events[..n]);
      && (forall key :: IsLoading(c, key) <==> exists token :: token in live && token.key == key)
      && (forall a, b :: a in live && b in live && a.key == b.key ==> a == b)
      && (forall token :: token in held ==> (Accepts(c, token) <==> token in live))
      && (forall key :: AnswerTo(c, key).Missing? ==> forall token :: token in live ==> token.key != key)
      && (forall key :: AnswerTo(c, key).Missing? ==> AnswerTo(c, key).token !in held)
  {
    RunsFit(states, events, capacity, n);
    var c, held, live := states[n], Held(events[..n]), Live(events[..n]);
    hide Held, Live, Step, UsesHeld;
    forall key ensures IsLoading(c, key) <==> exists token :: token in live && token.key == key {
      if IsLoading(c, key) {
        assert FetchToken(key, c.entries[key].generation) in live;
      }
    }
    forall token | token in held ensures Accepts(c, token) <==> token in live {
      HeldAreAcceptedIffLive(c, held, live, token);
    }
    forall key | AnswerTo(c, key).Missing? ensures AnswerTo(c, key).token !in held {
      ReadFits(c, key, held, live);
    }
  }

  /** A token not yet used is accepted exactly when its own key was not invalidated since it was
      handed out: invalidating one key never refuses another key's fetch. */
  lemma AcceptedUnlessInvalidated<K, V>(states: seq<Cache<K, V>>, events: seq<Event<K, V>>, capacity: nat,
                                          issued: nat, n: nat, token: FetchToken<K>)
    requires IsRun(states, events, capacity) && UsedOnce(events) && issued < n <= |events|
    requires Issues(events[issued], token)
    requires forall i :: issued < i < n ==> !Uses(events[i], token)
    ensures token in Held(events[..n])
    ensures Accepts(states[n], token) <==> Untouched(events, token.key, issued + 1, n)
  {
    hide Step, UsesHeld, Held, Live, Issues, Invalidates, Uses;
    LiveUnlessInvalidated(states, events, capacity, issued, n, token);
    OneFetchPerKey(states, events, capacity, n);
  }

  ghost predicate Uses<K, V>(e: Event<K, V>, token: FetchToken<K>) {
    (e.Fulfill? || e.Abandon?) && e.token == token
  }

  lemma {:induction false} LiveUnlessInvalidated<K, V>(states: seq<Cache<K, V>>, events: seq<Event<K, V>>,
                                                       capacity: nat, issued: nat, n: nat, token: FetchToken<K>)
    requires IsRun(states, events, capacity) && UsedOnce(events) && issued < n <= |events|
    requires Issues(events[issued], token)
    requires forall i :: issued < i < n ==> !Uses(events[i], token)
    ensures token in Held(events[..n])
    ensures token in Live(events[..n]) <==> Untouched(events, token.key, issued + 1, n)
    decreases n
  {
    hide Step, UsesHeld, Issues, Invalidates, Uses, Held, Live;
    assert events[..n][..n - 1] == events[..n - 1];
    if n == issued + 1 {
      HandsOut(events[..n], token);
    } else {
      LiveUnlessInvalidated(states, events, capacity, issued, n - 1, token);
      OneFetchPerKey(states, events, capacity, n - 1);
      assert Step(states[n - 1], events[n - 1], states[n], capacity);
      NotHandedOutAgain(states[n - 1], events[n - 1], states[n], capacity, Held(events[..n - 1]), token);
      StaysLive(events[..n], token);
    }
  }

  lemma HandsOut<K, V>(events: seq<Event<K, V>>, token: FetchToken<K>)
    requires events != [] && Issues(events[|events| - 1], token)
    ensures token in Held(events) && token in Live(events)
  {
  }

  lemma NotHandedOutAgain<K, V>(c: Cache<K, V>, e: Event<K, V>, next: Cache<K, V>, capacity: nat,
                                held: set<FetchToken<K>>, token: FetchToken<K>)
    requires Step(c, e, next, capacity) && token in held
    requires forall key :: AnswerTo(c, key).Missing? ==> AnswerTo(c, key).token !in held
    ensures !Issues(e, token)
  {
  }

  lemma StaysLive<K, V>(events: seq<Event<K, V>>, token: FetchToken<K>)
    requires events != [] && token in Held(events[..|events| - 1])
    requires !Issues(events[|events| - 1], token) && !Uses(events[|events| - 1], token)
    ensures token in Held(events)
    ensures token in Live(events)
      <==> token in Live(events[..|events| - 1]) && !Invalidates(events[|events| - 1], token.key)
  {
  }
}
