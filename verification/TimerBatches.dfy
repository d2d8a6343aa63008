/** One timer set kept in two tables: the native queue and the script side's map of callbacks,
    while callbacks schedule, clear and refresh timers in the middle of a due batch. */
module TimerBatches {
  import opened Basics
  import opened TimerQueue

  /** The script side's record; `callback` names the function that was passed in. */
  datatype ScriptTimer = ScriptTimer(callback: nat, repeats: bool)

  /** What script code does to timers, each with the clock reading it meets.
      A delay that is not a finite number is `None`. */
  datatype Action =
    | Schedule(callback: nat, delay: Option<int>, repeats: bool, now: nat)
    | ClearTimer(id: nat)
    | RefreshTimer(id: nat, now: nat)

  datatype Tables = Tables(nextId: nat, native: Entries, script: map<nat, ScriptTimer>)

  /** A callback that ran: its timer's id and the function. */
  datatype Call = Call(id: nat, callback: nat)

  function NormalizeDelay(delay: Option<int>): (d: nat)
    ensures 1 <= d <= 0x7FFF_FFFF
  {
    if delay.None? || delay.value < 1 || delay.value > 2147483647 then 1 else delay.value
  }

  /** The tables before any timer. */
  const START := Tables(1, map[], map[])

  ghost predicate Sound(t: Tables) {
    IsId(t.nextId) && forall id :: id in t.native ==> IsId(id)
  }

  /** The id the next scheduling gets; zero when every id is in use. */
  ghost function NextFree(t: Tables): nat
    requires Sound(t)
  {
    FirstFree(t.native.Keys, t.nextId, 0)
  }

  /** A scheduling has an id to find; with every id in use its search would not end. */
  ghost predicate HasRoom(t: Tables, a: Action)
    requires Sound(t)
  {
    a.Schedule? ==> NextFree(t) != 0
  }

  ghost function Scheduled(t: Tables, id: nat, callback: nat, delay: nat, repeats: bool, now: nat): Tables {
    Tables(Succ(id), t.native[id := Armed(delay, repeats, now)], t.script[id := ScriptTimer(callback, repeats)])
  }

  ghost function Act(t: Tables, a: Action): (r: Tables)
    requires Sound(t) && HasRoom(t, a)
    ensures Sound(r)
  {
    match a
    case Schedule(callback, delay, repeats, now) =>
      Scheduled(t, NextFree(t), callback, NormalizeDelay(delay), repeats, now)
    case ClearTimer(id) => t.(native := t.native - {id}, script := t.script - {id})
    case RefreshTimer(id, now) => t.(native := Refreshed(t.native, id, now))
  }

  ghost predicate RoomFor(t: Tables, actions: seq<Action>)
    requires Sound(t)
    decreases |actions|
  {
    actions != [] ==> HasRoom(t, actions[0]) && RoomFor(Act(t, actions[0]), actions[1..])
  }

  ghost function Acts(t: Tables, actions: seq<Action>): (r: Tables)
    requires Sound(t) && RoomFor(t, actions)
    ensures Sound(r)
    decreases |actions|
  {
    if actions == [] then t else Acts(Act(t, actions[0]), actions[1..])
  }

  /** `__shidouRunTimer` before it calls the callback. */
  ghost function Fired(t: Tables, id: nat): Tables {
    if id in t.script && !t.script[id].repeats then t.(script := t.script - {id}) else t
  }

  ghost predicate RoomForOne(t: Tables, id: nat, actions: seq<Action>)
    requires Sound(t)
  {
    id in t.script ==> RoomFor(Fired(t, id), actions)
  }

  /** The tables when one dispatched timer is done; `actions` is what its callback does. */
  ghost function AfterOne(t: Tables, id: nat, actions: seq<Action>): (r: Tables)
    requires Sound(t) && RoomForOne(t, id, actions)
    ensures Sound(r)
  {
    if id in t.script then Acts(Fired(t, id), actions) else t
  }

  ghost predicate RoomForBatch(t: Tables, due: seq<nat>, scripts: seq<seq<Action>>)
    requires |due| <= |scripts| && Sound(t)
    decreases |due|
  {
    due != [] ==>
      RoomForOne(t, due[0], scripts[0]) && RoomForBatch(AfterOne(t, due[0], scripts[0]), due[1..], scripts[1..])
  }

  /** The tables when the whole batch is done. */
  ghost function AfterBatch(t: Tables, due: seq<nat>, scripts: seq<seq<Action>>): (r: Tables)
    requires |due| <= |scripts| && Sound(t) && RoomForBatch(t, due, scripts)
    ensures Sound(r)
    decreases |due|
  {
    if due == [] then t else AfterBatch(AfterOne(t, due[0], scripts[0]), due[1..], scripts[1..])
  }

  /** The calls the batch makes. */
  ghost function Calls(t: Tables, due: seq<nat>, scripts: seq<seq<Action>>): seq<Call>
    requires |due| <= |scripts| && Sound(t) && RoomForBatch(t, due, scripts)
    decreases |due|
  {
    if due == [] then []
    else (if due[0] in t.script then [Call(due[0], t.script[due[0]].callback)] else [])
         + Calls(AfterOne(t, due[0], scripts[0]), due[1..], scripts[1..])
  }

  /** The tables once the native side has taken what is due. */
  ghost function Taken(t: Tables, now: nat): (r: Tables)
    ensures Sound(t) ==> Sound(r)
  {
    t.(native := AfterTake(t.native, now))
  }

  // ----- agreement

  /** Both tables hold the same ids, and agree on which repeat. */
  ghost predicate Agree(t: Tables) {
    && t.native.Keys == t.script.Keys
    && forall id :: id in t.native ==> t.native[id].repeats == t.script[id].repeats
  }

  /** In the middle of a batch the script side may also still hold one-shots that are to run. */
  ghost predicate AgreeWithin(t: Tables, pending: seq<nat>) {
    && (forall id :: id in t.native ==> id in t.script && t.native[id].repeats == t.script[id].repeats)
    && (forall id :: id in t.script && id !in t.native ==> id in pending && !t.script[id].repeats)
    && (forall id :: id in pending && id in t.native ==> t.native[id].repeats)
  }

  /** The pending timers are as they were when the batch began, except for those cleared. */
  ghost predicate AsBegun(t: Tables, begun: map<nat, ScriptTimer>, pending: seq<nat>, cleared: set<nat>) {
    forall id :: id in pending ==>
      && id in begun && (id in t.script <==> id !in cleared) && (id in t.script ==> t.script[id] == begun[id])
  }

  /** A new timer never gets the id of one the batch still has to run. */
  ghost predicate Undisturbed(t: Tables, a: Action, pending: seq<nat>)
    requires Sound(t)
  {
    a.Schedule? ==> NextFree(t) !in pending
  }

  function ClearedIf(a: Action): set<nat> {
    if a.ClearTimer? then {a.id} else {}
  }

  /** The batch as it should be at this point: the tables agreeing up to its one-shots, and every timer still
      to run there with its own callback unless it was cleared. */
  ghost predicate Intact(t: Tables, begun: map<nat, ScriptTimer>, pending: seq<nat>, cleared: set<nat>) {
    AgreeWithin(t, pending) && AsBegun(t, begun, pending, cleared)
  }

  /** An action leaves the batch intact exactly when it is no scheduling that gets a pending id. */
  lemma ExactlyTheUndisturbed(t: Tables, a: Action, begun: map<nat, ScriptTimer>, pending: seq<nat>, cleared: set<nat>)
    requires Sound(t) && HasRoom(t, a) && Intact(t, begun, pending, cleared)
    ensures Intact(Act(t, a), begun, pending, cleared + ClearedIf(a)) <==> Undisturbed(t, a, pending)
  {
    hide FirstFree, Intact, Refreshed;
    IntactIs(t, begun, pending, cleared);
    IntactIs(Act(t, a), begun, pending, cleared + ClearedIf(a));
    match a
    case Schedule(callback, delay, repeats, now) =>
      SchedulingDisturbs(t, NextFree(t), callback, NormalizeDelay(delay), repeats, now, begun, pending, cleared);
      assert cleared + {} == cleared;
    case ClearTimer(id) =>
      ClearingKeepsBatch(t, id, begun, pending, cleared);
    case RefreshTimer(id, now) =>
      RefreshingKeeps(t.native, id, now);
      assert cleared + {} == cleared;
  }

  lemma IntactIs(t: Tables, begun: map<nat, ScriptTimer>, pending: seq<nat>, cleared: set<nat>)
    ensures Intact(t, begun, pending, cleared) <==> AgreeWithin(t, pending) && AsBegun(t, begun, pending, cleared)
  {
  }

  lemma SchedulingDisturbs(t: Tables, id: nat, callback: nat, delay: nat, repeats: bool, now: nat,
                           begun: map<nat, ScriptTimer>, pending: seq<nat>, cleared: set<nat>)
    requires id !in t.native && AgreeWithin(t, pending) && AsBegun(t, begun, pending, cleared)
    ensures var next := Scheduled(t, id, callback, delay, repeats, now);
      AgreeWithin(next, pending) && AsBegun(next, begun, pending, cleared) <==> id !in pending
  {
    hide AgreeWithin, AsBegun, Scheduled;
    if id in pending {
      PendingIdDisturbs(t, id, callback, delay, repeats, now, begun, pending, cleared);
    } else {
      OtherIdAgrees(t, id, callback, delay, repeats, now, pending);
      OtherIdKeepsBegun(t, id, callback, delay, repeats, now, begun, pending, cleared);
    }
  }

  lemma PendingIdDisturbs(t: Tables, id: nat, callback: nat, delay: nat, repeats: bool, now: nat,
                          begun: map<nat, ScriptTimer>, pending: seq<nat>, cleared: set<nat>)
    requires id !in t.native && AgreeWithin(t, pending) && AsBegun(t, begun, pending, cleared) && id in pending
    ensures var next := Scheduled(t, id, callback, delay, repeats, now);
      !(AgreeWithin(next, pending) && AsBegun(next, begun, pending, cleared))
  {
    var next := Scheduled(t, id, callback, delay, repeats, now);
    assert id in next.native && id in next.script && next.native[id].repeats == repeats;
    assert next.script[id] == ScriptTimer(callback, repeats);
  }

  lemma OtherIdAgrees(t: Tables, id: nat, callback: nat, delay: nat, repeats: bool, now: nat, pending: seq<nat>)
    requires id !in pending && AgreeWithin(t, pending)
    ensures AgreeWithin(Scheduled(t, id, callback, delay, repeats, now), pending)
  {
  }

  lemma OtherIdKeepsBegun(t: Tables, id: nat, callback: nat, delay: nat, repeats: bool, now: nat,
                          begun: map<nat, ScriptTimer>, pending: seq<nat>, cleared: set<nat>)
    requires id !in pending && AsBegun(t, begun, pending, cleared)
    ensures AsBegun(Scheduled(t, id, callback, delay, repeats, now), begun, pending, cleared)
  {
  }

  lemma ClearingKeepsBatch(t: Tables, id: nat, begun: map<nat, ScriptTimer>, pending: seq<nat>, cleared: set<nat>)
    requires AgreeWithin(t, pending) && AsBegun(t, begun, pending, cleared)
    ensures var next := t.(native := t.native - {id}, script := t.script - {id});
      AgreeWithin(next, pending) && AsBegun(next, begun, pending, cleared + {id})
  {
  }

  lemma RefreshingKeeps(native: Entries, id: nat, now: nat)
    ensures Refreshed(native, id, now).Keys == native.Keys
    ensures forall k :: k in native ==> Refreshed(native, id, now)[k].repeats == native[k].repeats
  {
  }

  ghost predicate AllUndisturbed(t: Tables, actions: seq<Action>, pending: seq<nat>)
    requires Sound(t) && RoomFor(t, actions)
    decreases |actions|
  {
    actions != [] ==> Undisturbed(t, actions[0], pending) && AllUndisturbed(Act(t, actions[0]), actions[1..], pending)
  }

  /** No callback of the batch disturbs what the batch still has to run. */
  ghost predicate SafeBatch(t: Tables, due: seq<nat>, scripts: seq<seq<Action>>)
    requires |due| <= |scripts| && Sound(t) && RoomForBatch(t, due, scripts)
    decreases |due|
  {
    due != [] ==>
      && (due[0] in t.script ==> AllUndisturbed(Fired(t, due[0]), scripts[0], due[1..]))
      && SafeBatch(AfterOne(t, due[0], scripts[0]), due[1..], scripts[1..])
  }

  /** The batch is intact after every action. */
  ghost predicate StaysIntact(t: Tables, actions: seq<Action>, begun: map<nat, ScriptTimer>, pending: seq<nat>,
                              cleared: set<nat>)
    requires Sound(t) && RoomFor(t, actions)
    decreases |actions|
  {
    && Intact(t, begun, pending, cleared)
    && (actions != [] ==>
          StaysIntact(Act(t, actions[0]), actions[1..], begun, pending, cleared + ClearedIf(actions[0])))
  }

  lemma {:induction false} ActsKeepBatch(t: Tables, actions: seq<Action>, begun: map<nat, ScriptTimer>,
                                         pending: seq<nat>, cleared: set<nat>)
    requires Sound(t) && RoomFor(t, actions) && Intact(t, begun, pending, cleared)
    ensures StaysIntact(t, actions, begun, pending, cleared) <==> AllUndisturbed(t, actions, pending)
    ensures AllUndisturbed(t, actions, pending) ==>
      Intact(Acts(t, actions), begun, pending, cleared + ClearedBy(actions))
    decreases |actions|
  {
    hide Intact, Act, HasRoom, Undisturbed, ClearedIf;
    if actions == [] {
      assert cleared + ClearedBy([]) == cleared;
    } else {
      var first, rest := actions[0], actions[1..];
      var now := cleared + ClearedIf(first);
      ExactlyTheUndisturbed(t, first, begun, pending, cleared);
      if Undisturbed(t, first, pending) {
        ActsKeepBatch(Act(t, first), rest, begun, pending, now);
        ClearedByRest(actions);
        assert now + ClearedBy(rest) == cleared + ClearedBy(actions);
      } else {
        IntactAtOnce(Act(t, first), rest, begun, pending, now);
      }
    }
  }

  lemma IntactAtOnce(t: Tables, actions: seq<Action>, begun: map<nat, ScriptTimer>, pending: seq<nat>,
                     cleared: set<nat>)
    requires Sound(t) && RoomFor(t, actions)
    ensures StaysIntact(t, actions, begun, pending, cleared) ==> Intact(t, begun, pending, cleared)
  {
  }

  lemma ClearedByRest(actions: seq<Action>)
    requires actions != []
    ensures ClearedBy(actions) == ClearedIf(actions[0]) + ClearedBy(actions[1..])
  {
    assert actions == [actions[0]] + actions[1..];
  }

  ghost predicate Distinct(ids: seq<nat>) {
    forall i, j :: 0 <= i < j < |ids| ==> ids[i] != ids[j]
  }

  lemma TailOf(due: seq<nat>)
    requires due != [] && Distinct(due)
    ensures Distinct(due[1..]) && due[0] in due
    ensures forall id :: id in due[1..] <==> id in due && id != due[0]
  {
    forall id | id in due && id != due[0] ensures id in due[1..] {
      var k :| 0 <= k < |due| && due[k] == id;
      assert due[1..][k - 1] == id;
    }
  }

  /** Dispatching a timer leaves the rest of the batch as it was, whether its callback runs or not. */
  lemma FiringKeepsBatch(t: Tables, begun: map<nat, ScriptTimer>, due: seq<nat>, cleared: set<nat>)
    requires due != [] && Distinct(due) && Intact(t, begun, due, cleared)
    ensures Intact(Fired(t, due[0]), begun, due[1..], cleared)
    ensures due[0] in begun && (due[0] in t.script <==> due[0] !in cleared)
    ensures due[0] in t.script ==> t.script[due[0]] == begun[due[0]]
  {
    TailOf(due);
  }

  // ----- which callbacks run

  function ClearedBy(actions: seq<Action>): set<nat> {
    set a | a in actions && a.ClearTimer? :: a.id
  }

  /** The rule: every due timer runs, with the callback it had when the batch began, unless a
      callback that ran earlier in the batch cleared it. */
  function Expected(script: map<nat, ScriptTimer>, due: seq<nat>, scripts: seq<seq<Action>>,
                    cleared: set<nat>): seq<Call>
    requires |due| <= |scripts| && forall id :: id in due ==> id in script
    decreases |due|
  {
    if due == [] then []
    else if due[0] in cleared then Expected(script, due[1..], scripts[1..], cleared)
    else [Call(due[0], script[due[0]].callback)]
         + Expected(script, due[1..], scripts[1..], cleared + ClearedBy(scripts[0]))
  }

  /** The batch is intact after every action of every callback. */
  ghost predicate BatchStaysIntact(t: Tables, begun: map<nat, ScriptTimer>, due: seq<nat>, scripts: seq<seq<Action>>,
                                   cleared: set<nat>)
    requires |due| <= |scripts| && Sound(t) && RoomForBatch(t, due, scripts)
    decreases |due|
  {
    due != [] ==>
      && (due[0] in t.script ==> StaysIntact(Fired(t, due[0]), scripts[0], begun, due[1..], cleared))
      && BatchStaysIntact(AfterOne(t, due[0], scripts[0]), begun, due[1..], scripts[1..],
                          cleared + if due[0] in t.script then ClearedBy(scripts[0]) else {})
  }

  /** Exactly the safe batches stay intact; they end with the tables in agreement, having made the calls the
      rule says. */
  lemma {:induction false} SafeBatchFrom(t: Tables, begun: map<nat, ScriptTimer>, due: seq<nat>,
                                         scripts: seq<seq<Action>>, cleared: set<nat>)
    requires |due| <= |scripts| && Sound(t) && RoomForBatch(t, due, scripts)
    requires Distinct(due) && Intact(t, begun, due, cleared)
    requires forall id :: id in due ==> id in begun
    ensures BatchStaysIntact(t, begun, due, scripts, cleared) <==> SafeBatch(t, due, scripts)
    ensures SafeBatch(t, due, scripts) ==>
      Agree(AfterBatch(t, due, scripts)) && Calls(t, due, scripts) == Expected(begun, due, scripts, cleared)
    decreases |due|
  {
    if due == [] {
      IntactAtEnd(t, begun, cleared);
    } else {
      FiringKeepsBatch(t, begun, due, cleared);
      TailOf(due);
      hide Intact, Distinct, AllUndisturbed, StaysIntact, Acts, RoomFor, Fired, ClearedBy, Agree;
      var next := AfterOne(t, due[0], scripts[0]);
      if due[0] in t.script {
        ActsKeepBatch(Fired(t, due[0]), scripts[0], begun, due[1..], cleared);
        if AllUndisturbed(Fired(t, due[0]), scripts[0], due[1..]) {
          SafeBatchFrom(next, begun, due[1..], scripts[1..], cleared + ClearedBy(scripts[0]));
        }
      } else {
        NothingFires(t, due[0]);
        assert cleared + {} == cleared;
        SafeBatchFrom(next, begun, due[1..], scripts[1..], cleared);
      }
    }
  }

  lemma IntactAtEnd(t: Tables, begun: map<nat, ScriptTimer>, cleared: set<nat>)
    requires Intact(t, begun, [], cleared)
    ensures Agree(t)
  {
  }

  lemma NothingFires(t: Tables, id: nat)
    requires id !in t.script
    ensures Fired(t, id) == t
  {
  }

  lemma DueAreDistinct(entries: Entries, due: seq<nat>)
    requires InOrder(entries, due)
    ensures Distinct(due)
  {
    forall i, j | 0 <= i < j < |due| ensures due[i] != due[j] {
      assert Before(entries, due[i], due[j]);
    }
  }

  lemma BatchBegins(t: Tables, now: nat, due: seq<nat>)
    requires Sound(t) && Agree(t) && IsDueList(t.native, now, due)
    ensures Intact(Taken(t, now), t.script, due, {})
    ensures Distinct(due) && forall id :: id in due ==> id in t.script
  {
    DueAreDistinct(t.native, due);
    forall id ensures id in due <==> id in t.native && t.native[id].due <= now {
      assert id in due <==> IsDue(t.native, id, now);
    }
    hide InOrder;
  }

  /** From tables in agreement, exactly the safe batches stay intact; after a safe batch both tables hold the
      same timers again, and it called exactly the due timers that no earlier call of it cleared, in order of
      due time and id, each with its own callback. */
  lemma BatchAgrees(t: Tables, now: nat, due: seq<nat>, scripts: seq<seq<Action>>)
    requires Sound(t) && Agree(t) && IsDueList(t.native, now, due) && |due| <= |scripts|
    requires RoomForBatch(Taken(t, now), due, scripts)
    ensures forall id :: id in due ==> id in t.script
    ensures BatchStaysIntact(Taken(t, now), t.script, due, scripts, {}) <==> SafeBatch(Taken(t, now), due, scripts)
    ensures SafeBatch(Taken(t, now), due, scripts) ==>
      && Agree(AfterBatch(Taken(t, now), due, scripts))
      && Calls(Taken(t, now), due, scripts) == Expected(t.script, due, scripts, {})
  {
    hide Agree, Intact, Distinct, SafeBatch, BatchStaysIntact, RoomForBatch, AfterBatch, Calls, Expected, Taken,
         IsDueList;
    BatchBegins(t, now, due);
    SafeBatchFrom(Taken(t, now), t.script, due, scripts, {});
  }

  ghost predicate Ran(calls: seq<Call>, id: nat) {
    exists k :: 0 <= k < |calls| && calls[k].id == id
  }

  lemma {:induction false} ClearedStayOut(script: map<nat, ScriptTimer>, due: seq<nat>, scripts: seq<seq<Action>>,
                                          cleared: set<nat>, id: nat)
    requires |due| <= |scripts| && (forall d :: d in due ==> d in script)
    requires Ran(Expected(script, due, scripts, cleared), id)
    ensures id in due && id !in cleared
    decreases |due|
  {
    var calls := Expected(script, due, scripts, cleared);
    var k :| 0 <= k < |calls| && calls[k].id == id;
    if due[0] in cleared {
      ClearedStayOut(script, due[1..], scripts[1..], cleared, id);
    } else if k > 0 {
      var rest := Expected(script, due[1..], scripts[1..], cleared + ClearedBy(scripts[0]));
      assert rest[k - 1].id == id;
      ClearedStayOut(script, due[1..], scripts[1..], cleared + ClearedBy(scripts[0]), id);
    }
  }

  /** By the rule a due timer runs exactly when no call of the batch before its turn clears it. */
  lemma {:induction false} ExpectedUnlessCleared(script: map<nat, ScriptTimer>, due: seq<nat>,
                                                 scripts: seq<seq<Action>>, cleared: set<nat>, j: nat)
    requires |due| <= |scripts| && Distinct(due) && (forall d :: d in due ==> d in script) && j < |due|
    ensures var calls := Expected(script, due, scripts, cleared);
      Ran(calls, due[j]) <==>
        && due[j] !in cleared
        && forall i :: 0 <= i < j && Ran(calls, due[i]) ==> due[j] !in ClearedBy(scripts[i])
    decreases |due|
  {
    hide ClearedBy, Ran;
    var calls := Expected(script, due, scripts, cleared);
    FirstUnlessCleared(script, due, scripts, cleared);
    if j > 0 {
      var after := if due[0] in cleared then cleared else cleared + ClearedBy(scripts[0]);
      var rest := Expected(script, due[1..], scripts[1..], after);
      TailOf(due);
      ExpectedUnlessCleared(script, due[1..], scripts[1..], after, j - 1);
      forall i | 0 < i <= j ensures Ran(calls, due[i]) == Ran(rest, due[1..][i - 1]) {
        RanInRest(calls, rest, due[0], due[0] in cleared, due[i]);
      }
      forall i | 0 < i <= j ensures scripts[i] == scripts[1..][i - 1] {
      }
      ShiftedClears(calls, rest, due, scripts, j);
    }
  }

  lemma FirstUnlessCleared(script: map<nat, ScriptTimer>, due: seq<nat>, scripts: seq<seq<Action>>, cleared: set<nat>)
    requires due != [] && |due| <= |scripts| && (forall d :: d in due ==> d in script)
    ensures Ran(Expected(script, due, scripts, cleared), due[0]) <==> due[0] !in cleared
  {
    var calls := Expected(script, due, scripts, cleared);
    if due[0] !in cleared {
      assert calls[0].id == due[0];
    } else if Ran(calls, due[0]) {
      ClearedStayOut(script, due, scripts, cleared, due[0]);
    }
  }

  lemma ShiftedClears(calls: seq<Call>, rest: seq<Call>, due: seq<nat>, scripts: seq<seq<Action>>, j: nat)
    requires 0 < j < |due| <= |scripts|
    requires forall i :: 0 < i <= j ==> Ran(calls, due[i]) == Ran(rest, due[1..][i - 1])
    ensures (forall i :: 0 < i < j && Ran(calls, due[i]) ==> due[j] !in ClearedBy(scripts[i]))
       <==> (forall i :: 0 <= i < j - 1 && Ran(rest, due[1..][i]) ==> due[1..][j - 1] !in ClearedBy(scripts[1..][i]))
  {
    hide ClearedBy, Ran;
    if forall i :: 0 < i < j && Ran(calls, due[i]) ==> due[j] !in ClearedBy(scripts[i]) {
      forall i | 0 <= i < j - 1 && Ran(rest, due[1..][i]) ensures due[1..][j - 1] !in ClearedBy(scripts[1..][i]) {
        assert Ran(calls, due[i + 1]);
      }
    }
    if forall i :: 0 <= i < j - 1 && Ran(rest, due[1..][i]) ==> due[1..][j - 1] !in ClearedBy(scripts[1..][i]) {
      forall i | 0 < i < j && Ran(calls, due[i]) ensures due[j] !in ClearedBy(scripts[i]) {
        assert Ran(rest, due[1..][i - 1]) && scripts[i] == scripts[1..][i - 1];
      }
    }
  }

  lemma RanInRest(calls: seq<Call>, rest: seq<Call>, first: nat, skipped: bool, id: nat)
    requires id != first
    requires if skipped then calls == rest else calls != [] && calls[0].id == first && calls[1..] == rest
    ensures Ran(calls, id) <==> Ran(rest, id)
  {
    if !skipped {
      if Ran(calls, id) {
        var k :| 0 <= k < |calls| && calls[k].id == id;
        assert rest[k - 1].id == id;
      }
      if Ran(rest, id) {
        var k :| 0 <= k < |rest| && rest[k].id == id;
        assert calls[k + 1].id == id;
      }
    }
  }

  // ----- ids that have not come round

  /** Every id ever handed out is still below the counter, and every delay is at least one. */
  ghost predicate Unwrapped(t: Tables, pending: seq<nat>) {
    && Sound(t)
    && (forall id :: id in t.native || id in t.script || id in pending ==> id < t.nextId)
    && (forall id :: id in t.native ==> t.native[id].delay >= 1)
  }

  function Schedulings(actions: seq<Action>): nat {
    if actions == [] then 0 else (if actions[0].Schedule? then 1 else 0) + Schedulings(actions[1..])
  }

  function AllSchedulings(scripts: seq<seq<Action>>): nat {
    if scripts == [] then 0 else Schedulings(scripts[0]) + AllSchedulings(scripts[1..])
  }

  lemma UnwrappedAct(t: Tables, a: Action, pending: seq<nat>)
    requires Unwrapped(t, pending) && (a.Schedule? ==> t.nextId < MAX_ID)
    ensures HasRoom(t, a) && Undisturbed(t, a, pending) && Unwrapped(Act(t, a), pending)
    ensures Act(t, a).nextId == t.nextId + if a.Schedule? then 1 else 0
  {
  }

  lemma {:induction false} UnwrappedActs(t: Tables, actions: seq<Action>, pending: seq<nat>)
    requires Unwrapped(t, pending) && t.nextId + Schedulings(actions) <= MAX_ID
    ensures RoomFor(t, actions) && AllUndisturbed(t, actions, pending) && Unwrapped(Acts(t, actions), pending)
    ensures Acts(t, actions).nextId == t.nextId + Schedulings(actions)
    decreases |actions|
  {
    if actions != [] {
      UnwrappedAct(t, actions[0], pending);
      hide Act, HasRoom, Undisturbed, NextFree;
      UnwrappedActs(Act(t, actions[0]), actions[1..], pending);
    }
  }

  lemma UnwrappedOne(t: Tables, due: seq<nat>, actions: seq<Action>)
    requires due != [] && Unwrapped(t, due) && t.nextId + Schedulings(actions) <= MAX_ID
    ensures RoomForOne(t, due[0], actions)
    ensures due[0] in t.script ==> AllUndisturbed(Fired(t, due[0]), actions, due[1..])
    ensures Unwrapped(AfterOne(t, due[0], actions), due[1..])
    ensures AfterOne(t, due[0], actions).nextId <= t.nextId + Schedulings(actions)
  {
    hide AllUndisturbed, RoomFor, Acts;
    forall id | id in due[1..] ensures id in due {
    }
    if due[0] in t.script {
      UnwrappedActs(Fired(t, due[0]), actions, due[1..]);
    }
  }

  /** While the counter has not come round, no scheduling can disturb a batch. */
  lemma {:induction false} UnwrappedIsSafe(t: Tables, due: seq<nat>, scripts: seq<seq<Action>>)
    requires |due| <= |scripts| && Unwrapped(t, due) && t.nextId + AllSchedulings(scripts) <= MAX_ID
    ensures RoomForBatch(t, due, scripts) && SafeBatch(t, due, scripts)
    ensures Unwrapped(AfterBatch(t, due, scripts), [])
    ensures AfterBatch(t, due, scripts).nextId <= t.nextId + AllSchedulings(scripts)
    decreases |due|
  {
    hide AllUndisturbed, RoomForOne, AfterOne, Schedulings;
    if due != [] {
      UnwrappedOne(t, due, scripts[0]);
      UnwrappedIsSafe(AfterOne(t, due[0], scripts[0]), due[1..], scripts[1..]);
    }
  }

  lemma TakenUnwrapped(t: Tables, now: nat, due: seq<nat>)
    requires Unwrapped(t, []) && IsDueList(t.native, now, due)
    ensures Unwrapped(Taken(t, now), due)
  {
    forall id | id in due ensures id in t.native {
      assert IsDue(t.native, id, now);
    }
  }

  // ----- every run

  /** The kernel's life: script actions between batches, and batches with the calls they make. */
  datatype Turn =
    | Script(action: Action)
    | Batch(now: nat, due: seq<nat>, scripts: seq<seq<Action>>, calls: seq<Call>)

  ghost predicate Leads(t: Tables, turn: Turn, next: Tables) {
    && Sound(t)
    && match turn
       case Script(a) => HasRoom(t, a) && next == Act(t, a)
       case Batch(now, due, scripts, calls) =>
         && IsDueList(t.native, now, due) && |due| <= |scripts|
         && RoomForBatch(Taken(t, now), due, scripts)
         && next == AfterBatch(Taken(t, now), due, scripts) && calls == Calls(Taken(t, now), due, scripts)
  }

  ghost predicate IsRun(states: seq<Tables>, turns: seq<Turn>) {
    && |states| == |turns| + 1 && states[0] == START
    && forall i :: 0 <= i < |turns| ==> Leads(states[i], turns[i], states[i + 1])
  }

  function TurnSchedulings(turn: Turn): nat {
    match turn
    case Script(a) => if a.Schedule? then 1 else 0
    case Batch(_, _, scripts, _) => AllSchedulings(scripts)
  }

  /** Schedulings in the first `n` turns. */
  function SchedulingsBefore(turns: seq<Turn>, n: nat): nat
    requires n <= |turns|
  {
    if n == 0 then 0 else SchedulingsBefore(turns, n - 1) + TurnSchedulings(turns[n - 1])
  }

  lemma ActKeepsAgreement(t: Tables, a: Action)
    requires Sound(t) && HasRoom(t, a) && Agree(t)
    ensures Agree(Act(t, a))
  {
    hide FirstFree;
  }

  lemma LeadsKeeps(t: Tables, turn: Turn, next: Tables)
    requires Leads(t, turn, next) && Agree(t) && Unwrapped(t, []) && t.nextId + TurnSchedulings(turn) <= MAX_ID
    ensures Agree(next) && Unwrapped(next, []) && next.nextId <= t.nextId + TurnSchedulings(turn)
    ensures turn.Batch? ==>
      && SafeBatch(Taken(t, turn.now), turn.due, turn.scripts)
      && (forall id :: id in turn.due ==> id in t.script)
      && turn.calls == Expected(t.script, turn.due, turn.scripts, {})
      && forall id :: !IsDue(Taken(t, turn.now).native, id, turn.now)
  {
    hide FirstFree, Act, Calls, Expected, AfterBatch, RoomForBatch, SafeBatch, Agree, IsDueList, AllSchedulings, Taken;
    match turn
    case Script(a) =>
      UnwrappedAct(t, a, []);
      ActKeepsAgreement(t, a);
    case Batch(now, due, scripts, _) =>
      TakenUnwrapped(t, now, due);
      NothingLeftDue(t, now);
      UnwrappedIsSafe(Taken(t, now), due, scripts);
      BatchAgrees(t, now, due, scripts);
  }

  lemma NothingLeftDue(t: Tables, now: nat)
    requires Unwrapped(t, [])
    ensures Taken(t, now).nextId == t.nextId
    ensures forall id :: !IsDue(Taken(t, now).native, id, now)
  {
    NothingDueTwice(t.native, now);
  }

  /** In every run that schedules fewer timers than there are ids, the two tables hold the same timers after
      every turn, and every id handed out lies below the counter. */
  lemma {:induction false} RunsAgree(states: seq<Tables>, turns: seq<Turn>, n: nat)
    requires IsRun(states, turns) && n <= |turns| && SchedulingsBefore(turns, n) < MAX_ID
    ensures Agree(states[n]) && Unwrapped(states[n], [])
    ensures states[n].nextId <= 1 + SchedulingsBefore(turns, n)
    decreases n
  {
    hide Leads, Unwrapped, Agree, TurnSchedulings;
    if n == 0 {
      StartAgrees();
    } else {
      RunsAgree(states, turns, n - 1);
      LeadsKeeps(states[n - 1], turns[n - 1], states[n]);
    }
  }

  lemma StartAgrees()
    ensures Agree(START) && Unwrapped(START, [])
  {
  }

  /** In every such run each batch calls exactly the due timers that no earlier call of it cleared, in order
      and with the callbacks they were scheduled with, and what it took is not due again at its instant. */
  lemma RunsCallWhatIsDue(states: seq<Tables>, turns: seq<Turn>, i: nat)
    requires IsRun(states, turns) && i < |turns| && SchedulingsBefore(turns, i + 1) < MAX_ID && turns[i].Batch?
    ensures var t, turn := states[i], turns[i];
      && (forall id :: id in turn.due <==> IsDue(t.native, id, turn.now))
      && (forall id :: id in turn.due ==> id in t.script)
      && |turn.due| <= |turn.scripts| && turn.calls == Expected(t.script, turn.due, turn.scripts, {})
      && forall id :: !IsDue(Taken(t, turn.now).native, id, turn.now)
  {
    hide Unwrapped, Agree, TurnSchedulings, Expected, AfterBatch, Calls, SafeBatch, RoomForBatch, IsDue, InOrder, Taken;
    RunsAgree(states, turns, i);
    assert Leads(states[i], turns[i], states[i + 1]);
    LeadsKeeps(states[i], turns[i], states[i + 1]);
  }

  /** So a due timer of any batch of such a run is called exactly when no call before its turn cleared it. */
  lemma RunsUnlessCleared(states: seq<Tables>, turns: seq<Turn>, i: nat, j: nat)
    requires IsRun(states, turns) && i < |turns| && SchedulingsBefore(turns, i + 1) < MAX_ID
    requires turns[i].Batch? && j < |turns[i].due|
    ensures var turn := turns[i];
      && |turn.due| <= |turn.scripts|
      && (Ran(turn.calls, turn.due[j]) <==>
            forall k :: 0 <= k < j && Ran(turn.calls, turn.due[k]) ==> turn.due[j] !in ClearedBy(turn.scripts[k]))
  {
    hide Unwrapped, Agree, TurnSchedulings, Expected, AfterBatch, Calls, RoomForBatch, IsDue, Taken, SchedulingsBefore,
         Ran, ClearedBy;
    var t, turn := states[i], turns[i];
    RunsCallWhatIsDue(states, turns, i);
    assert Leads(t, turn, states[i + 1]);
    DueAreDistinct(t.native, turn.due);
    ExpectedUnlessCleared(t.script, turn.due, turn.scripts, {}, j);
  }

  // ----- ids that have come round

  lemma {:induction false} ActsConcat(t: Tables, a: seq<Action>, b: seq<Action>)
    requires Sound(t) && RoomFor(t, a) && RoomFor(Acts(t, a), b)
    ensures RoomFor(t, a + b) && Acts(t, a + b) == Acts(Acts(t, a), b)
    decreases |a|
  {
    hide Act, HasRoom;
    if a == [] {
      assert a + b == b;
    } else {
      ActsConcat(Act(t, a[0]), a[1..], b);
      assert (a + b)[0] == a[0] && (a + b)[1..] == a[1..] + b;
    }
  }

  /** `n` timers scheduled and cleared one after the other, with ids from `first` on. */
  function ScheduledAndCleared(first: nat, n: nat): seq<Action>
    decreases n
  {
    if n == 0 then [] else [Schedule(0, None, false, 0), ClearTimer(first)] + ScheduledAndCleared(first + 1, n - 1)
  }

  /** Scheduling and clearing through the rest of the ids brings the counter round and changes nothing else. */
  lemma {:induction false} CounterComesRound(t: Tables, n: nat)
    requires Sound(t) && n >= 1 && t.nextId + n == MAX_ID + 1
    requires forall id :: id in t.native || id in t.script ==> id < t.nextId
    ensures RoomFor(t, ScheduledAndCleared(t.nextId, n))
    ensures Acts(t, ScheduledAndCleared(t.nextId, n)) == t.(nextId := 1)
    decreases n
  {
    var first := t.nextId;
    var pair := [Schedule(0, None, false, 0), ClearTimer(first)];
    var next := t.(nextId := Succ(first));
    OnePair(t, first);
    if n == 1 {
      assert ScheduledAndCleared(first, 1) == pair;
    } else {
      hide RoomFor, Acts;
      CounterComesRound(next, n - 1);
      ActsConcat(t, pair, ScheduledAndCleared(first + 1, n - 1));
    }
  }

  lemma OnePair(t: Tables, first: nat)
    requires Sound(t) && first == t.nextId && first !in t.native && first !in t.script
    ensures RoomFor(t, [Schedule(0, None, false, 0), ClearTimer(first)])
    ensures Acts(t, [Schedule(0, None, false, 0), ClearTimer(first)]) == t.(nextId := Succ(first))
  {
    var a, b := Schedule(0, None, false, 0), ClearTimer(first);
    TwoActs(t, a, b);
    assert Cycle(first, 0) == first;
    assert Act(Act(t, a), b).native == t.native && Act(Act(t, a), b).script == t.script;
  }

  lemma TwoActs(t: Tables, a: Action, b: Action)
    requires Sound(t) && HasRoom(t, a)
    ensures HasRoom(Act(t, a), b) ==> RoomFor(t, [a, b]) && Acts(t, [a, b]) == Act(Act(t, a), b)
  {
    hide Act, HasRoom;
    assert [a, b][1..] == [b] && [b][1..] == [];
    var t1 := Act(t, a);
    if HasRoom(t1, b) {
      assert RoomFor(Act(t1, b), []) && Acts(Act(t1, b), []) == Act(t1, b);
      assert RoomFor(t1, [b]) && Acts(t1, [b]) == Act(t1, b);
    }
  }

  /** Two one-shots kept while the counter comes round, the first of them cleared and scheduled again. */
  function LongScript(): seq<Action> {
    [Schedule(10, Some(1), false, 4), Schedule(20, Some(1), false, 4)]
    + (ScheduledAndCleared(3, MAX_ID - 2) + [ClearTimer(1), Schedule(10, Some(1), false, 4)])
  }

  function RoundState(): Tables {
    Tables(2, map[1 := TimerEntry(5, 1, false), 2 := TimerEntry(5, 1, false)],
           map[1 := ScriptTimer(10, false), 2 := ScriptTimer(20, false)])
  }

  /** From the empty tables, script code can bring the counter round to the id of a pending timer. */
  lemma RoundIsReached()
    ensures RoomFor(START, LongScript()) && Acts(START, LongScript()) == RoundState()
  {
    var t2 := Tables(3, RoundState().native, RoundState().script);
    var t3 := t2.(nextId := 1);
    FirstTwo(t2);
    CounterComesRound(t2, MAX_ID - 2);
    LastTwo(t3);
    hide RoomFor, Acts;
    ActsConcat(t2, ScheduledAndCleared(3, MAX_ID - 2), [ClearTimer(1), Schedule(10, Some(1), false, 4)]);
    ActsConcat(START, [Schedule(10, Some(1), false, 4), Schedule(20, Some(1), false, 4)],
               ScheduledAndCleared(3, MAX_ID - 2) + [ClearTimer(1), Schedule(10, Some(1), false, 4)]);
  }

  lemma FirstTwo(t2: Tables)
    requires t2 == Tables(3, RoundState().native, RoundState().script)
    ensures RoomFor(START, [Schedule(10, Some(1), false, 4), Schedule(20, Some(1), false, 4)])
    ensures Acts(START, [Schedule(10, Some(1), false, 4), Schedule(20, Some(1), false, 4)]) == t2
  {
    var a, b := Schedule(10, Some(1), false, 4), Schedule(20, Some(1), false, 4);
    assert Cycle(1, 0) == 1 && Cycle(2, 0) == 2;
    assert NextFree(START) == 1;
    var t1 := Act(START, a);
    assert t1 == Tables(2, map[1 := TimerEntry(5, 1, false)], map[1 := ScriptTimer(10, false)]);
    assert NextFree(t1) == 2;
    TwoActs(START, a, b);
    assert Act(t1, b) == t2;
  }

  lemma LastTwo(t3: Tables)
    requires t3 == RoundState().(nextId := 1)
    ensures RoomFor(t3, [ClearTimer(1), Schedule(10, Some(1), false, 4)])
    ensures Acts(t3, [ClearTimer(1), Schedule(10, Some(1), false, 4)]) == RoundState()
  {
    var a, b := ClearTimer(1), Schedule(10, Some(1), false, 4);
    var t1 := Act(t3, a);
    assert Cycle(1, 0) == 1 && NextFree(t1) == 1;
    TwoActs(t3, a, b);
    assert Act(t1, b) == RoundState();
  }

  /** There a batch goes wrong: the first callback schedules a timer that gets the id of the second one-shot,
      so the batch calls the new callback in its place and the tables part. */
  lemma WrappedIdsDisturb()
    ensures var t, due, scripts := RoundState(), [1, 2], [[Schedule(30, Some(1), false, 9)], []];
      && Sound(t) && Agree(t) && IsDueList(t.native, 9, due)
      && RoomForBatch(Taken(t, 9), due, scripts)
      && !Agree(AfterBatch(Taken(t, 9), due, scripts))
      && Calls(Taken(t, 9), due, scripts) == [Call(1, 10), Call(2, 30)]
      && Expected(t.script, due, scripts, {}) == [Call(1, 10), Call(2, 20)]
  {
    var t, a := RoundState(), Schedule(30, Some(1), false, 9);
    var t1 := Tables(3, map[2 := TimerEntry(10, 1, false)], map[2 := ScriptTimer(30, false)]);
    RoundTaken();
    FirstCallbackDisturbs(a, t1);
    SecondFires(t1);
    CallsExpectedHere(t.script, a);
    hide Taken, Fired, RoomFor, Acts, RoomForBatch, AfterBatch, Calls, Expected, IsDueList;
    TwoDispatched(Taken(t, 9), 1, 2, [a], [], t1, Fired(t1, 2));
  }

  lemma RoundTaken()
    ensures var t := RoundState();
      && Sound(t) && Agree(t) && IsDueList(t.native, 9, [1, 2]) && Taken(t, 9) == Tables(2, map[], t.script)
  {
    assert Before(RoundState().native, 1, 2);
    assert AfterTake(RoundState().native, 9) == map[];
  }

  lemma FirstCallbackDisturbs(a: Action, t1: Tables)
    requires a == Schedule(30, Some(1), false, 9)
    requires t1 == Tables(3, map[2 := TimerEntry(10, 1, false)], map[2 := ScriptTimer(30, false)])
    ensures var fired := Fired(Tables(2, map[], RoundState().script), 1);
      Sound(fired) && RoomFor(fired, [a]) && Acts(fired, [a]) == t1
  {
    var fired := Tables(2, map[], map[2 := ScriptTimer(20, false)]);
    assert Fired(Tables(2, map[], RoundState().script), 1) == fired;
    assert Cycle(2, 0) == 2 && NextFree(fired) == 2;
    assert Act(fired, a) == t1;
    OneAct(fired, a);
  }

  lemma SecondFires(t1: Tables)
    requires t1 == Tables(3, map[2 := TimerEntry(10, 1, false)], map[2 := ScriptTimer(30, false)])
    ensures Sound(t1) && !Agree(Fired(t1, 2)) && Sound(Fired(t1, 2))
    ensures RoomFor(Fired(t1, 2), []) && Acts(Fired(t1, 2), []) == Fired(t1, 2)
  {
    assert 2 in Fired(t1, 2).native && 2 !in Fired(t1, 2).script;
  }

  lemma OneAct(t: Tables, a: Action)
    requires Sound(t) && HasRoom(t, a)
    ensures RoomFor(t, [a]) && Acts(t, [a]) == Act(t, a)
  {
    hide Act, HasRoom;
    assert [a][1..] == [];
    assert RoomFor(Act(t, a), []) && Acts(Act(t, a), []) == Act(t, a);
  }

  lemma TwoDispatched(t: Tables, i: nat, j: nat, a: seq<Action>, b: seq<Action>, t1: Tables, t2: Tables)
    requires Sound(t) && Sound(t1) && i in t.script && j in t1.script
    requires Sound(Fired(t, i)) && RoomFor(Fired(t, i), a) && Acts(Fired(t, i), a) == t1
    requires Sound(Fired(t1, j)) && RoomFor(Fired(t1, j), b) && Acts(Fired(t1, j), b) == t2
    ensures RoomForBatch(t, [i, j], [a, b]) && AfterBatch(t, [i, j], [a, b]) == t2
    ensures Calls(t, [i, j], [a, b]) == [Call(i, t.script[i].callback), Call(j, t1.script[j].callback)]
  {
    hide Acts, RoomFor, Fired;
    assert [i, j][1..] == [j] && [j][1..] == [] && [a, b][1..] == [b] && [b][1..] == [];
    assert AfterOne(t, i, a) == t1 && AfterOne(t1, j, b) == t2;
    assert RoomForBatch(t2, [], []) && AfterBatch(t2, [], []) == t2 && Calls(t2, [], []) == [];
    assert RoomForBatch(t1, [j], [b]) && AfterBatch(t1, [j], [b]) == t2;
    assert Calls(t1, [j], [b]) == [Call(j, t1.script[j].callback)] + [];
  }

  lemma CallsExpectedHere(script: map<nat, ScriptTimer>, a: Action)
    requires 1 in script && 2 in script && a.Schedule?
    ensures Expected(script, [1, 2], [[a], []], {}) == [Call(1, script[1].callback), Call(2, script[2].callback)]
  {
    var none: seq<Action> := [];
    assert [1, 2][1..] == [2] && [2][1..] == [] && [[a], none][1..] == [none] && [none][1..] == [];
    assert ClearedBy([a]) == {};
    assert Expected(script, [], [], {}) == [];
    assert Expected(script, [2], [none], {}) == [Call(2, script[2].callback)] + [];
  }

  // ----- both sides together

  /** An id to find is an id to spare. */
  lemma RoomIsSpare(t: Tables)
    requires Sound(t) && NextFree(t) != 0
    ensures |t.native| < MAX_ID
  {
    hide FirstFree;
    var all, free := Visited(1, MAX_ID), NextFree(t);
    VisitedCount(1, MAX_ID);
    forall id: nat | IsId(id) ensures id in all {
      assert Cycle(1, id - 1) == id;
    }
    SubsetSize(t.native.Keys + {free}, all);
  }

  class Kernel {
    const queue: TimerQueue
    var timers: map<nat, ScriptTimer>

    ghost function State(): Tables
      reads this, queue
    {
      Tables(queue.nextId, queue.entries, timers)
    }

    ghost predicate Valid()
      reads this, queue
    {
      queue.Valid()
    }

    constructor ()
      ensures Valid() && fresh(queue) && State() == START
      ensures Agree(State()) && Unwrapped(State(), [])
    {
      queue := new TimerQueue();
      timers := map[];
      new;
      StartAgrees();
    }

    method ScheduleTimer(callback: nat, delay: Option<int>, repeats: bool, now: nat) returns (id: nat)
      requires Valid() && |queue.entries| < MAX_ID
      modifies this, queue
      ensures Valid() && id == NextFree(old(State())) && id != 0
      ensures Leads(old(State()), Script(Schedule(callback, delay, repeats, now)), State())
      ensures Agree(old(State())) ==> Agree(State())
      ensures Unwrapped(old(State()), []) && old(queue.nextId) < MAX_ID ==> Unwrapped(State(), [])
    {
      hide FirstFree;
      ghost var t := State();
      id := queue.Schedule(NormalizeDelay(delay), repeats, now);
      timers := timers[id := ScriptTimer(callback, repeats)];
      ScriptKeeps(t, Schedule(callback, delay, repeats, now));
    }

    method ClearTimer(id: nat)
      requires Valid()
      modifies this, queue
      ensures Valid() && Leads(old(State()), Script(Action.ClearTimer(id)), State())
      ensures Agree(old(State())) ==> Agree(State())
      ensures Unwrapped(old(State()), []) ==> Unwrapped(State(), [])
    {
      hide FirstFree;
      ghost var t := State();
      timers := timers - {id};
      queue.Clear(id);
      ScriptKeeps(t, Action.ClearTimer(id));
    }

    method RefreshTimer(id: nat, now: nat)
      requires Valid()
      modifies queue
      ensures Valid() && Leads(old(State()), Script(Action.RefreshTimer(id, now)), State())
      ensures Agree(old(State())) ==> Agree(State())
      ensures Unwrapped(old(State()), []) ==> Unwrapped(State(), [])
    {
      hide FirstFree;
      ghost var t := State();
      queue.Refresh(id, now);
      ScriptKeeps(t, Action.RefreshTimer(id, now));
    }

    method Perform(a: Action)
      requires Valid() && HasRoom(State(), a)
      modifies this, queue
      ensures Valid() && State() == Act(old(State()), a)
    {
      hide FirstFree, Agree, Unwrapped;
      match a {
        case Schedule(callback, delay, repeats, now) =>
          RoomIsSpare(State());
          var _ := ScheduleTimer(callback, delay, repeats, now);
        case ClearTimer(id) =>
          ClearTimer(id);
        case RefreshTimer(id, now) =>
          RefreshTimer(id, now);
      }
    }

    /** What a callback does, one action after the other. */
    method PerformAll(actions: seq<Action>)
      requires Valid() && RoomFor(State(), actions)
      modifies this, queue
      ensures Valid() && State() == Acts(old(State()), actions)
    {
      hide HasRoom, Act, RoomFor, Acts;
      ghost var began := State();
      var i := 0;
      assert actions[0..] == actions;
      while i < |actions|
        invariant 0 <= i <= |actions| && Valid()
        invariant RoomFor(State(), actions[i..]) && Acts(State(), actions[i..]) == Acts(began, actions)
      {
        ActsStep(State(), actions[i..]);
        assert actions[i..][1..] == actions[i + 1..];
        Perform(actions[i]);
        i := i + 1;
      }
      assert actions[i..] == [];
      ActsEnd(State());
    }

    /** Runs one dispatched timer; its callback does `actions`. */
    method RunTimer(id: nat, actions: seq<Action>) returns (called: Option<nat>)
      requires Valid() && RoomForOne(State(), id, actions)
      modifies this, queue
      ensures Valid() && State() == AfterOne(old(State()), id, actions)
      ensures called == if id in old(timers) then Some(old(timers)[id].callback) else None
    {
      hide RoomFor, Acts;
      if id !in timers {
        return None;
      }
      var timer := timers[id];
      if !timer.repeats {
        timers := timers - {id};
      }
      called := Some(timer.callback);
      PerformAll(actions);
    }

    /** Dispatches a batch, one timer after the other. */
    method Dispatch(due: seq<nat>, scripts: seq<seq<Action>>) returns (calls: seq<Call>)
      requires Valid() && |due| <= |scripts| && RoomForBatch(State(), due, scripts)
      modifies this, queue
      ensures Valid() && State() == AfterBatch(old(State()), due, scripts)
      ensures calls == Calls(old(State()), due, scripts)
    {
      hide RoomForOne, RoomForBatch, AfterBatch, Calls, AfterOne;
      calls := [];
      ghost var began := State();
      var i := 0;
      assert due[0..] == due && scripts[0..] == scripts
        && [] + Calls(began, due, scripts) == Calls(began, due, scripts);
      while i < |due|
        invariant 0 <= i <= |due| && Valid() && RoomForBatch(State(), due[i..], scripts[i..])
        invariant AfterBatch(State(), due[i..], scripts[i..]) == AfterBatch(began, due, scripts)
        invariant calls + Calls(State(), due[i..], scripts[i..]) == Calls(began, due, scripts)
      {
        BatchStep(State(), due[i..], scripts[i..], calls);
        assert due[i..][1..] == due[i + 1..] && scripts[i..][1..] == scripts[i + 1..];
        var called := RunTimer(due[i], scripts[i]);
        if called.Some? {
          calls := calls + [Call(due[i], called.value)];
        } else {
          assert calls + [] == calls;
        }
        i := i + 1;
      }
      assert due[i..] == [];
      BatchEnds(State(), scripts[i..], calls);
    }

    /** One turn of `run_due_timers`: takes what is due and dispatches it. `scripts` says what each
        dispatched callback does; there is one for every due timer, and their schedulings find ids. */
    method RunDueTimers(now: nat, scripts: seq<seq<Action>>) returns (due: seq<nat>, calls: seq<Call>)
      requires Valid()
      requires forall due :: IsDueList(queue.entries, now, due) ==>
        |due| <= |scripts| && RoomForBatch(Taken(State(), now), due, scripts)
      modifies this, queue
      ensures Valid() && Leads(old(State()), Batch(now, due, scripts, calls), State())
      ensures Agree(old(State())) && SafeBatch(Taken(old(State()), now), due, scripts) ==>
        && Agree(State()) && (forall id :: id in due ==> id in old(timers))
        && calls == Expected(old(timers), due, scripts, {})
      ensures Unwrapped(old(State()), []) && old(queue.nextId) + AllSchedulings(scripts) <= MAX_ID ==>
        Unwrapped(State(), []) && SafeBatch(Taken(old(State()), now), due, scripts)
    {
      hide Agree, Unwrapped, IsDueList, Expected, AfterBatch, Calls, RoomForBatch, SafeBatch, BatchStaysIntact,
           AfterTake, AllSchedulings;
      ghost var before := State();
      due := queue.TakeDue(now);
      if Agree(before) {
        BatchAgrees(before, now, due, scripts);
      }
      if Unwrapped(before, []) && before.nextId + AllSchedulings(scripts) <= MAX_ID {
        TakenUnwrapped(before, now, due);
        UnwrappedIsSafe(Taken(before, now), due, scripts);
      }
      calls := Dispatch(due, scripts);
    }
  }

  lemma ScriptKeeps(t: Tables, a: Action)
    requires Sound(t) && HasRoom(t, a)
    ensures Agree(t) ==> Agree(Act(t, a))
    ensures Unwrapped(t, []) && (a.Schedule? ==> t.nextId < MAX_ID) ==> Unwrapped(Act(t, a), [])
  {
    hide Agree, Unwrapped, Act;
    if Agree(t) {
      ActKeepsAgreement(t, a);
    }
    if Unwrapped(t, []) && (a.Schedule? ==> t.nextId < MAX_ID) {
      UnwrappedAct(t, a, []);
    }
  }

  lemma ActsStep(t: Tables, actions: seq<Action>)
    requires actions != [] && Sound(t) && RoomFor(t, actions)
    ensures HasRoom(t, actions[0]) && RoomFor(Act(t, actions[0]), actions[1..])
    ensures Acts(t, actions) == Acts(Act(t, actions[0]), actions[1..])
  {
    hide Act, HasRoom;
  }

  lemma ActsEnd(t: Tables)
    requires Sound(t)
    ensures RoomFor(t, []) && Acts(t, []) == t
  {
  }

  lemma BatchStep(t: Tables, due: seq<nat>, scripts: seq<seq<Action>>, calls: seq<Call>)
    requires due != [] && |due| <= |scripts| && Sound(t) && RoomForBatch(t, due, scripts)
    ensures RoomForOne(t, due[0], scripts[0])
    ensures var next := AfterOne(t, due[0], scripts[0]);
      && RoomForBatch(next, due[1..], scripts[1..])
      && AfterBatch(t, due, scripts) == AfterBatch(next, due[1..], scripts[1..])
      && calls + Calls(t, due, scripts)
         == (calls + if due[0] in t.script then [Call(due[0], t.script[due[0]].callback)] else [])
            + Calls(next, due[1..], scripts[1..])
  {
    hide AfterOne, RoomForOne;
    var next := AfterOne(t, due[0], scripts[0]);
    var first := if due[0] in t.script then [Call(due[0], t.script[due[0]].callback)] else [];
    assert Calls(t, due, scripts) == first + Calls(next, due[1..], scripts[1..]);
    Associates(calls, first, Calls(next, due[1..], scripts[1..]));
  }

  lemma BatchEnds(t: Tables, scripts: seq<seq<Action>>, calls: seq<Call>)
    requires Sound(t)
    ensures RoomForBatch(t, [], scripts)
    ensures AfterBatch(t, [], scripts) == t && calls + Calls(t, [], scripts) == calls
  {
  }
}
