/** The kernel's runs seen by the native queue: every batch calls the timers that have run out,
    counted from the readings at which script code and the queue itself set them going. */
module TimerTraces {
  import opened Basics
  import opened TimerQueue
  import opened TimerRuns
  import opened TimerBatches

  function Native(t: Tables): Queue {
    Queue(t.nextId, t.native)
  }

  // ----- the calls behind a turn

  /** What an action asks of the native queue; a scheduling asks for its normalized delay. */
  ghost function CallOf(t: Tables, a: Action): QueueCall
    requires Sound(t)
  {
    match a
    case Schedule(_, delay, repeats, now) => Scheduled(NextFree(t), NormalizeDelay(delay), repeats, now)
    case ClearTimer(id) => Cleared(id)
    case RefreshTimer(id, now) => Refreshing(id, now)
  }

  ghost function ActCalls(t: Tables, actions: seq<Action>): seq<QueueCall>
    requires Sound(t) && RoomFor(t, actions)
    decreases |actions|
  {
    if actions == [] then [] else [CallOf(t, actions[0])] + ActCalls(Act(t, actions[0]), actions[1..])
  }

  ghost function OneCalls(t: Tables, id: nat, actions: seq<Action>): seq<QueueCall>
    requires Sound(t) && RoomForOne(t, id, actions)
  {
    if id in t.script then ActCalls(Fired(t, id), actions) else []
  }

  ghost function BatchCalls(t: Tables, due: seq<nat>, scripts: seq<seq<Action>>): seq<QueueCall>
    requires |due| <= |scripts| && Sound(t) && RoomForBatch(t, due, scripts)
    decreases |due|
  {
    if due == [] then []
    else OneCalls(t, due[0], scripts[0]) + BatchCalls(AfterOne(t, due[0], scripts[0]), due[1..], scripts[1..])
  }

  ghost function TurnCalls(t: Tables, turn: Turn, next: Tables): seq<QueueCall>
    requires Leads(t, turn, next)
  {
    match turn
    case Script(a) => [CallOf(t, a)]
    case Batch(now, due, scripts, _) => [Took(due, now)] + BatchCalls(Taken(t, now), due, scripts)
  }

  /** All calls of the first `n` turns. */
  ghost function Trace(states: seq<Tables>, turns: seq<Turn>, n: nat): seq<QueueCall>
    requires IsRun(states, turns) && n <= |turns|
  {
    if n == 0 then [] else Trace(states, turns, n - 1) + TurnCalls(states[n - 1], turns[n - 1], states[n])
  }

  // ----- they are a run of the queue

  /** `calls` lead the queue from `q` to `r`. */
  ghost predicate LeadsQueue(q: Queue, calls: seq<QueueCall>, r: Queue) {
    IsQueueRun(q, calls) && AfterCalls(q, calls) == r
  }

  lemma NoCalls(q: Queue)
    ensures LeadsQueue(q, [], q)
  {
  }

  lemma OneCall(q: Queue, e: QueueCall)
    requires Possible(q, e)
    ensures LeadsQueue(q, [e], AfterCall(q, e))
  {
    hide Possible, AfterCall;
    assert Init([e]) == [] && Last([e]) == e;
    assert IsQueueRun(q, []) && AfterCalls(q, []) == q;
  }

  lemma {:induction false} CallsConcat(q: Queue, a: seq<QueueCall>, r: Queue, b: seq<QueueCall>, s: Queue)
    requires LeadsQueue(q, a, r) && LeadsQueue(r, b, s)
    ensures LeadsQueue(q, a + b, s)
    decreases |b|
  {
    hide Possible, AfterCall;
    if b == [] {
      assert a + b == a;
    } else {
      CallsConcat(q, a, r, Init(b), AfterCalls(r, Init(b)));
      assert Init(a + b) == a + Init(b) && Last(a + b) == Last(b);
    }
  }

  lemma ActLeadsQueue(t: Tables, a: Action)
    requires Sound(t) && HasRoom(t, a)
    ensures Possible(Native(t), CallOf(t, a)) && AfterCall(Native(t), CallOf(t, a)) == Native(Act(t, a))
  {
    hide FirstFree;
  }

  lemma {:induction false} ActsLeadQueue(t: Tables, actions: seq<Action>)
    requires Sound(t) && RoomFor(t, actions)
    ensures LeadsQueue(Native(t), ActCalls(t, actions), Native(Acts(t, actions)))
    decreases |actions|
  {
    hide LeadsQueue, Possible, AfterCall, Native, CallOf;
    if actions == [] {
      NoCalls(Native(t));
    } else {
      var next := Act(t, actions[0]);
      ActLeadsQueue(t, actions[0]);
      OneCall(Native(t), CallOf(t, actions[0]));
      ActsLeadQueue(next, actions[1..]);
      hide Act;
      CallsConcat(Native(t), [CallOf(t, actions[0])], Native(next), ActCalls(next, actions[1..]),
                  Native(Acts(t, actions)));
    }
  }

  lemma OneLeadsQueue(t: Tables, id: nat, actions: seq<Action>)
    requires Sound(t) && RoomForOne(t, id, actions)
    ensures LeadsQueue(Native(t), OneCalls(t, id, actions), Native(AfterOne(t, id, actions)))
  {
    hide LeadsQueue, RoomFor, Acts, ActCalls;
    if id in t.script {
      ActsLeadQueue(Fired(t, id), actions);
    } else {
      NoCalls(Native(t));
    }
  }

  lemma {:induction false} BatchLeadsQueue(t: Tables, due: seq<nat>, scripts: seq<seq<Action>>)
    requires |due| <= |scripts| && Sound(t) && RoomForBatch(t, due, scripts)
    ensures LeadsQueue(Native(t), BatchCalls(t, due, scripts), Native(AfterBatch(t, due, scripts)))
    decreases |due|
  {
    hide LeadsQueue, RoomForOne, AfterOne, OneCalls, Native;
    if due == [] {
      NoCalls(Native(t));
    } else {
      var next := AfterOne(t, due[0], scripts[0]);
      OneLeadsQueue(t, due[0], scripts[0]);
      BatchLeadsQueue(next, due[1..], scripts[1..]);
      CallsConcat(Native(t), OneCalls(t, due[0], scripts[0]), Native(next),
                  BatchCalls(next, due[1..], scripts[1..]), Native(AfterBatch(t, due, scripts)));
    }
  }

  lemma TurnLeadsQueue(t: Tables, turn: Turn, next: Tables)
    requires Leads(t, turn, next)
    ensures LeadsQueue(Native(t), TurnCalls(t, turn, next), Native(next))
  {
    hide LeadsQueue, FirstFree, IsDueList, AfterBatch, BatchCalls, RoomForBatch, Act;
    match turn
    case Script(a) =>
      ActLeadsQueue(t, a);
      OneCall(Native(t), CallOf(t, a));
    case Batch(now, due, scripts, _) =>
      OneCall(Native(t), Took(due, now));
      BatchLeadsQueue(Taken(t, now), due, scripts);
      CallsConcat(Native(t), [Took(due, now)], Native(Taken(t, now)), BatchCalls(Taken(t, now), due, scripts),
                  Native(next));
  }

  lemma {:induction false} TraceIsRun(states: seq<Tables>, turns: seq<Turn>, n: nat)
    requires IsRun(states, turns) && n <= |turns|
    ensures LeadsQueue(EMPTY_QUEUE, Trace(states, turns, n), Native(states[n]))
    decreases n
  {
    hide LeadsQueue, Leads, TurnCalls;
    if n == 0 {
      assert Native(START) == EMPTY_QUEUE;
      NoCalls(EMPTY_QUEUE);
    } else {
      TraceIsRun(states, turns, n - 1);
      TurnLeadsQueue(states[n - 1], turns[n - 1], states[n]);
      CallsConcat(EMPTY_QUEUE, Trace(states, turns, n - 1), Native(states[n - 1]),
                  TurnCalls(states[n - 1], turns[n - 1], states[n]), Native(states[n]));
    }
  }

  /** In every run a batch takes exactly the timers that have run out at its reading: one normalized delay
      after they were scheduled, refreshed or last fired; in that order, and by id where two ran out together. */
  lemma BatchesTakeWhatRanOut(states: seq<Tables>, turns: seq<Turn>, i: nat)
    requires IsRun(states, turns) && i < |turns| && turns[i].Batch?
    ensures var due, now, trace := turns[i].due, turns[i].now, Trace(states, turns, i);
      && (forall id :: id in due <==> exists t: nat :: RunsOutAt(trace, id, t) && t <= now)
      && (forall k, l, t, u ::
            0 <= k < l < |due| && RunsOutAt(trace, due[k], t) && RunsOutAt(trace, due[l], u) ==>
              t < u || (t == u && due[k] < due[l]))
  {
    hide RunsOutAt, Trace;
    TraceIsRun(states, turns, i);
    assert Leads(states[i], turns[i], states[i + 1]);
    TakesWhatRanOut(Trace(states, turns, i), turns[i].due, turns[i].now);
  }

  /** Delays from one to the largest the kernel takes are kept; all others, and those that are no numbers,
      become one. */
  lemma NormalDelays(delay: Option<int>)
    ensures NormalizeDelay(delay) == 1 || delay == Some(NormalizeDelay(delay))
    ensures delay.Some? && 1 <= delay.value < 0x8000_0000 ==> NormalizeDelay(delay) == delay.value
    ensures delay.None? || delay.value < 1 || delay.value >= 0x8000_0000 ==> NormalizeDelay(delay) == 1
  {
  }

  // ----- the callbacks

  /** The timers that actions schedule, each with its callback. */
  ghost function ActPairs(t: Tables, actions: seq<Action>): seq<(nat, nat)>
    requires Sound(t) && RoomFor(t, actions)
    decreases |actions|
  {
    if actions == [] then [] else PairOf(t, actions[0]) + ActPairs(Act(t, actions[0]), actions[1..])
  }

  ghost function PairOf(t: Tables, a: Action): seq<(nat, nat)>
    requires Sound(t)
  {
    if a.Schedule? then [(NextFree(t), a.callback)] else []
  }

  ghost function OnePairs(t: Tables, id: nat, actions: seq<Action>): seq<(nat, nat)>
    requires Sound(t) && RoomForOne(t, id, actions)
  {
    if id in t.script then ActPairs(Fired(t, id), actions) else []
  }

  ghost function BatchPairs(t: Tables, due: seq<nat>, scripts: seq<seq<Action>>): seq<(nat, nat)>
    requires |due| <= |scripts| && Sound(t) && RoomForBatch(t, due, scripts)
    decreases |due|
  {
    if due == [] then []
    else OnePairs(t, due[0], scripts[0]) + BatchPairs(AfterOne(t, due[0], scripts[0]), due[1..], scripts[1..])
  }

  ghost function TurnPairs(t: Tables, turn: Turn, next: Tables): seq<(nat, nat)>
    requires Leads(t, turn, next)
  {
    match turn
    case Script(a) => PairOf(t, a)
    case Batch(now, due, scripts, _) => BatchPairs(Taken(t, now), due, scripts)
  }

  /** Every scheduling of the first `n` turns. */
  ghost function Schedules(states: seq<Tables>, turns: seq<Turn>, n: nat): seq<(nat, nat)>
    requires IsRun(states, turns) && n <= |turns|
  {
    if n == 0 then [] else Schedules(states, turns, n - 1) + TurnPairs(states[n - 1], turns[n - 1], states[n])
  }

  /** The callback of the last scheduling that got `id`. */
  ghost predicate ScheduledWith(pairs: seq<(nat, nat)>, id: nat, callback: nat) {
    exists k :: 0 <= k < |pairs| && pairs[k] == (id, callback) && forall j :: k < j < |pairs| ==> pairs[j].0 != id
  }

  ghost predicate Honest(t: Tables, pairs: seq<(nat, nat)>) {
    forall id :: id in t.script ==> ScheduledWith(pairs, id, t.script[id].callback)
  }

  lemma PairAppended(pairs: seq<(nat, nat)>, pair: (nat, nat), id: nat, callback: nat)
    ensures pair == (id, callback) ==> ScheduledWith(pairs + [pair], id, callback)
    ensures pair.0 != id && ScheduledWith(pairs, id, callback) ==> ScheduledWith(pairs + [pair], id, callback)
  {
    var more := pairs + [pair];
    if pair == (id, callback) {
      assert more[|pairs|] == (id, callback);
    } else if pair.0 != id && ScheduledWith(pairs, id, callback) {
      var k :| 0 <= k < |pairs| && pairs[k] == (id, callback) && forall j :: k < j < |pairs| ==> pairs[j].0 != id;
      assert more[k] == (id, callback);
    }
  }

  lemma ActStaysHonest(t: Tables, a: Action, pairs: seq<(nat, nat)>)
    requires Sound(t) && HasRoom(t, a) && Honest(t, pairs)
    ensures Honest(Act(t, a), pairs + PairOf(t, a))
  {
    hide FirstFree, ScheduledWith;
    var next := Act(t, a);
    if a.Schedule? {
      forall id | id in next.script ensures ScheduledWith(pairs + PairOf(t, a), id, next.script[id].callback) {
        PairAppended(pairs, (NextFree(t), a.callback), id, next.script[id].callback);
      }
    } else {
      assert pairs + [] == pairs;
    }
  }

  lemma {:induction false} ActsStayHonest(t: Tables, actions: seq<Action>, pairs: seq<(nat, nat)>)
    requires Sound(t) && RoomFor(t, actions) && Honest(t, pairs)
    ensures Honest(Acts(t, actions), pairs + ActPairs(t, actions))
    decreases |actions|
  {
    hide Honest, PairOf, HasRoom, Act;
    if actions == [] {
      assert pairs + [] == pairs;
    } else {
      ActStaysHonest(t, actions[0], pairs);
      ActsStayHonest(Act(t, actions[0]), actions[1..], pairs + PairOf(t, actions[0]));
      Associates(pairs, PairOf(t, actions[0]), ActPairs(Act(t, actions[0]), actions[1..]));
    }
  }

  lemma OneStaysHonest(t: Tables, id: nat, actions: seq<Action>, pairs: seq<(nat, nat)>)
    requires Sound(t) && RoomForOne(t, id, actions) && Honest(t, pairs)
    ensures Honest(AfterOne(t, id, actions), pairs + OnePairs(t, id, actions))
  {
    hide RoomFor, Acts, ActPairs, ScheduledWith;
    if id in t.script {
      ActsStayHonest(Fired(t, id), actions, pairs);
    } else {
      assert pairs + [] == pairs;
    }
  }

  lemma {:induction false} BatchStaysHonest(t: Tables, due: seq<nat>, scripts: seq<seq<Action>>, pairs: seq<(nat, nat)>)
    requires |due| <= |scripts| && Sound(t) && RoomForBatch(t, due, scripts) && Honest(t, pairs)
    ensures Honest(AfterBatch(t, due, scripts), pairs + BatchPairs(t, due, scripts))
    decreases |due|
  {
    hide Honest, RoomForOne, AfterOne, OnePairs;
    if due == [] {
      assert pairs + [] == pairs;
    } else {
      var next := AfterOne(t, due[0], scripts[0]);
      OneStaysHonest(t, due[0], scripts[0], pairs);
      BatchStaysHonest(next, due[1..], scripts[1..], pairs + OnePairs(t, due[0], scripts[0]));
      Associates(pairs, OnePairs(t, due[0], scripts[0]), BatchPairs(next, due[1..], scripts[1..]));
    }
  }

  lemma {:induction false} RunsStayHonest(states: seq<Tables>, turns: seq<Turn>, n: nat)
    requires IsRun(states, turns) && n <= |turns|
    ensures Honest(states[n], Schedules(states, turns, n))
    decreases n
  {
    hide Honest, TurnPairs, Leads;
    if n == 0 {
      NothingScheduled();
    } else {
      RunsStayHonest(states, turns, n - 1);
      TurnStaysHonest(states[n - 1], turns[n - 1], states[n], Schedules(states, turns, n - 1));
    }
  }

  lemma NothingScheduled()
    ensures Honest(START, [])
  {
  }

  lemma TurnStaysHonest(t: Tables, turn: Turn, next: Tables, pairs: seq<(nat, nat)>)
    requires Leads(t, turn, next) && Honest(t, pairs)
    ensures Honest(next, pairs + TurnPairs(t, turn, next))
  {
    hide FirstFree, IsDueList, AfterBatch, BatchPairs, RoomForBatch, Act, ScheduledWith, PairOf, HasRoom;
    match turn
    case Script(a) => ActStaysHonest(t, a, pairs);
    case Batch(now, due, scripts, _) => BatchStaysHonest(Taken(t, now), due, scripts, pairs);
  }

  lemma {:induction false} ExpectedCall(script: map<nat, ScriptTimer>, due: seq<nat>, scripts: seq<seq<Action>>,
                                        cleared: set<nat>, k: nat) returns (i: nat)
    requires |due| <= |scripts| && (forall d :: d in due ==> d in script)
    requires k < |Expected(script, due, scripts, cleared)|
    ensures i < |due| && Expected(script, due, scripts, cleared)[k] == Call(due[i], script[due[i]].callback)
    decreases |due|
  {
    hide ClearedBy;
    if due[0] in cleared {
      var j := ExpectedCall(script, due[1..], scripts[1..], cleared, k);
      i := j + 1;
    } else if k == 0 {
      i := 0;
    } else {
      var j := ExpectedCall(script, due[1..], scripts[1..], cleared + ClearedBy(scripts[0]), k - 1);
      i := j + 1;
    }
  }

  lemma {:induction false} ExpectedInOrder(script: map<nat, ScriptTimer>, due: seq<nat>, scripts: seq<seq<Action>>,
                                           cleared: set<nat>, k: nat, l: nat) returns (i: nat, j: nat)
    requires |due| <= |scripts| && (forall d :: d in due ==> d in script)
    requires k < l < |Expected(script, due, scripts, cleared)|
    ensures i < j < |due|
    ensures var calls := Expected(script, due, scripts, cleared); calls[k].id == due[i] && calls[l].id == due[j]
    decreases |due|
  {
    hide ClearedBy;
    if due[0] in cleared {
      i, j := ExpectedInOrder(script, due[1..], scripts[1..], cleared, k, l);
      i, j := i + 1, j + 1;
    } else if k == 0 {
      var m := ExpectedCall(script, due[1..], scripts[1..], cleared + ClearedBy(scripts[0]), l - 1);
      i, j := 0, m + 1;
    } else {
      i, j := ExpectedInOrder(script, due[1..], scripts[1..], cleared + ClearedBy(scripts[0]), k - 1, l - 1);
      i, j := i + 1, j + 1;
    }
  }

  ghost predicate StandsBefore(due: seq<nat>, a: nat, b: nat) {
    exists i, j :: 0 <= i < j < |due| && due[i] == a && due[j] == b
  }

  lemma PlacesInOrder(due: seq<nat>, i: nat, j: nat)
    requires i < j < |due|
    ensures StandsBefore(due, due[i], due[j])
  {
  }

  /** In every run that schedules fewer timers than there are ids, a batch calls only due timers, in their order,
      and each with the callback with which its id was last scheduled. */
  lemma BatchesCallTheirOwn(states: seq<Tables>, turns: seq<Turn>, n: nat)
    requires IsRun(states, turns) && n < |turns| && SchedulingsBefore(turns, n + 1) < MAX_ID && turns[n].Batch?
    ensures var due, calls := turns[n].due, turns[n].calls;
      && (forall k :: 0 <= k < |calls| ==>
            calls[k].id in due && ScheduledWith(Schedules(states, turns, n), calls[k].id, calls[k].callback))
      && (forall k, l :: 0 <= k < l < |calls| ==> StandsBefore(due, calls[k].id, calls[l].id))
  {
    hide ScheduledWith, StandsBefore, Schedules, Expected, Taken, IsDue, SchedulingsBefore;
    var t, turn := states[n], turns[n];
    RunsCallWhatIsDue(states, turns, n);
    RunsStayHonest(states, turns, n);
    forall k | 0 <= k < |turn.calls|
      ensures turn.calls[k].id in turn.due
      ensures ScheduledWith(Schedules(states, turns, n), turn.calls[k].id, turn.calls[k].callback)
    {
      var i := ExpectedCall(t.script, turn.due, turn.scripts, {}, k);
    }
    forall k, l | 0 <= k < l < |turn.calls|
      ensures StandsBefore(turn.due, turn.calls[k].id, turn.calls[l].id)
    {
      var i, j := ExpectedInOrder(t.script, turn.due, turn.scripts, {}, k, l);
      PlacesInOrder(turn.due, i, j);
    }
  }
}
