/** When timers are due, said by the calls on the queue and the clock readings they were given. */
module TimerRuns {
  import opened Basics
  import opened TimerQueue

  /** A call on the queue: `id` is what a scheduling handed out, `due` what a take returned. */
  datatype QueueCall =
    | Scheduled(id: nat, delay: nat, repeats: bool, now: nat)
    | Cleared(id: nat)
    | Refreshing(id: nat, now: nat)
    | Took(due: seq<nat>, now: nat)

  datatype Queue = Queue(nextId: nat, entries: Entries)

  const EMPTY_QUEUE := Queue(1, map[])

  ghost predicate Possible(q: Queue, e: QueueCall) {
    IsId(q.nextId) &&
    match e
    case Scheduled(id, _, _, _) => id != 0 && id == FirstFree(q.entries.Keys, q.nextId, 0)
    case Took(due, now) => IsDueList(q.entries, now, due)
    case _ => true
  }

  function AfterCall(q: Queue, e: QueueCall): Queue {
    match e
    case Scheduled(id, delay, repeats, now) => Queue(Succ(id), q.entries[id := Armed(delay, repeats, now)])
    case Cleared(id) => q.(entries := q.entries - {id})
    case Refreshing(id, now) => q.(entries := Refreshed(q.entries, id, now))
    case Took(_, now) => q.(entries := AfterTake(q.entries, now))
  }

  function AfterCalls(q: Queue, calls: seq<QueueCall>): Queue {
    if calls == [] then q else AfterCall(AfterCalls(q, Init(calls)), Last(calls))
  }

  /** Calls that a queue can get and answer like this, one after the other. */
  ghost predicate IsQueueRun(q: Queue, calls: seq<QueueCall>) {
    calls == [] || (IsQueueRun(q, Init(calls)) && Possible(AfterCalls(q, Init(calls)), Last(calls)))
  }

  // ----- the rule, without the table

  /** The calls that set a timer going: its scheduling, a refresh, and a firing. */
  predicate SetsOff(e: QueueCall, id: nat) {
    match e
    case Scheduled(other, _, _, _) => other == id
    case Refreshing(other, _) => other == id
    case Took(due, _) => id in due
    case Cleared(_) => false
  }

  /** The calls that end a timer: clearing it, and its only firing. */
  predicate Ends(e: QueueCall, id: nat, repeats: bool) {
    match e
    case Cleared(other) => other == id
    case Took(due, _) => id in due && !repeats
    case _ => false
  }

  /** Call `i` scheduled the timer, and no call since has ended it. */
  ghost predicate Pending(calls: seq<QueueCall>, id: nat, i: nat) {
    && i < |calls| && calls[i].Scheduled? && calls[i].id == id
    && forall j :: i < j < |calls| ==> !Ends(calls[j], id, calls[i].repeats)
  }

  /** Call `m` is the last that set it going. */
  ghost predicate LastSetOff(calls: seq<QueueCall>, id: nat, i: nat, m: nat) {
    && i <= m < |calls| && SetsOff(calls[m], id)
    && forall j :: m < j < |calls| ==> !SetsOff(calls[j], id)
  }

  /** The timer runs out at `due`: one delay after the reading with which it was last set going. */
  ghost predicate RunsOutAt(calls: seq<QueueCall>, id: nat, due: nat) {
    exists i: nat, m: nat ::
      Pending(calls, id, i) && LastSetOff(calls, id, i, m) && !calls[m].Cleared? && due == calls[m].now + calls[i].delay
  }

  // ----- the table follows the rule

  lemma RunPrefix(q: Queue, calls: seq<QueueCall>)
    requires IsQueueRun(q, calls) && calls != []
    ensures IsQueueRun(q, Init(calls)) && Possible(AfterCalls(q, Init(calls)), Last(calls))
    ensures AfterCalls(q, calls) == AfterCall(AfterCalls(q, Init(calls)), Last(calls))
  {
    hide Possible, AfterCall;
  }

  /** What one call makes of one timer. */
  lemma EntryAfterCall(q: Queue, e: QueueCall, id: nat)
    requires Possible(q, e)
    ensures var next := AfterCall(q, e).entries;
      && (id in next ==> id in q.entries || (e.Scheduled? && e.id == id))
      && (e.Scheduled? && e.id == id ==>
            id !in q.entries && id in next && next[id] == TimerEntry(e.now + e.delay, e.delay, e.repeats))
      && (id in q.entries ==>
            && (id in next <==> !Ends(e, id, q.entries[id].repeats))
            && (id in next ==> next[id].delay == q.entries[id].delay && next[id].repeats == q.entries[id].repeats)
            && (id in next && !SetsOff(e, id) ==> next[id].due == q.entries[id].due)
            && (id in next && SetsOff(e, id) ==> !e.Cleared? && next[id].due == e.now + q.entries[id].delay))
  {
    hide FirstFree, InOrder;
    match e
    case Took(due, now) => assert id in due <==> IsDue(q.entries, id, now);
    case _ =>
  }

  /** A pending timer's entry says when it runs out. */
  lemma {:induction false} PendingEntry(q: Queue, calls: seq<QueueCall>, id: nat, i: nat, m: nat)
    requires IsQueueRun(q, calls) && Pending(calls, id, i) && LastSetOff(calls, id, i, m)
    ensures id in AfterCalls(q, calls).entries && !calls[m].Cleared?
    ensures AfterCalls(q, calls).entries[id]
      == TimerEntry(calls[m].now + calls[i].delay, calls[i].delay, calls[i].repeats)
    decreases |calls|
  {
    hide Possible, AfterCall, AfterCalls, IsQueueRun;
    var n := |calls| - 1;
    var before := AfterCalls(q, Init(calls));
    RunPrefix(q, calls);
    EntryAfterCall(before, Last(calls), id);
    if i < n {
      assert Pending(Init(calls), id, i);
      if m < n {
        assert LastSetOff(Init(calls), id, i, m);
        PendingEntry(q, Init(calls), id, i, m);
      } else {
        var m' := LastSetOffExists(Init(calls), id, i);
        PendingEntry(q, Init(calls), id, i, m');
      }
    }
  }

  lemma {:induction false} LastSetOffExists(calls: seq<QueueCall>, id: nat, i: nat) returns (m: nat)
    requires i < |calls| && calls[i].Scheduled? && calls[i].id == id
    ensures LastSetOff(calls, id, i, m)
    decreases |calls|
  {
    var n := |calls| - 1;
    if SetsOff(calls[n], id) {
      m := n;
    } else {
      m := LastSetOffExists(Init(calls), id, i);
    }
  }

  /** And whatever has an entry is pending. */
  lemma {:induction false} EntryIsPending(calls: seq<QueueCall>, id: nat) returns (i: nat)
    requires IsQueueRun(EMPTY_QUEUE, calls) && id in AfterCalls(EMPTY_QUEUE, calls).entries
    ensures Pending(calls, id, i)
    decreases |calls|
  {
    hide Possible, AfterCall, IsQueueRun;
    assert calls != [];
    var before := AfterCalls(EMPTY_QUEUE, Init(calls));
    RunPrefix(EMPTY_QUEUE, calls);
    EntryAfterCall(before, Last(calls), id);
    if Last(calls).Scheduled? && Last(calls).id == id {
      i := |calls| - 1;
    } else {
      i := EntryIsPending(Init(calls), id);
      var m := LastSetOffExists(Init(calls), id, i);
      PendingEntry(EMPTY_QUEUE, Init(calls), id, i, m);
    }
  }

  /** After every run a timer is in the table exactly when it is pending, and its due time is the rule's. */
  lemma TableFollowsCalls(calls: seq<QueueCall>, id: nat)
    requires IsQueueRun(EMPTY_QUEUE, calls)
    ensures var entries := AfterCalls(EMPTY_QUEUE, calls).entries;
      && (id in entries <==> exists i: nat :: Pending(calls, id, i))
      && (forall due :: RunsOutAt(calls, id, due) <==> id in entries && entries[id].due == due)
  {
    hide IsQueueRun, AfterCalls;
    var entries := AfterCalls(EMPTY_QUEUE, calls).entries;
    if id in entries {
      var i := EntryIsPending(calls, id);
      var m := LastSetOffExists(calls, id, i);
      PendingEntry(EMPTY_QUEUE, calls, id, i, m);
    }
    forall i: nat | Pending(calls, id, i) ensures id in entries {
      var m := LastSetOffExists(calls, id, i);
      PendingEntry(EMPTY_QUEUE, calls, id, i, m);
    }
    forall due | RunsOutAt(calls, id, due) ensures id in entries && entries[id].due == due {
      var i: nat, m: nat :| Pending(calls, id, i) && LastSetOff(calls, id, i, m) && !calls[m].Cleared?
        && due == calls[m].now + calls[i].delay;
      PendingEntry(EMPTY_QUEUE, calls, id, i, m);
    }
  }

  /** In every run, what a take at `now` returns is exactly what has run out by then, in the order in which it
      ran out, and by id where two ran out together. */
  lemma TakesWhatRanOut(calls: seq<QueueCall>, due: seq<nat>, now: nat)
    requires IsQueueRun(EMPTY_QUEUE, calls) && Possible(AfterCalls(EMPTY_QUEUE, calls), Took(due, now))
    ensures forall id :: id in due <==> exists t: nat :: RunsOutAt(calls, id, t) && t <= now
    ensures forall k, l, t, u :: 0 <= k < l < |due| && RunsOutAt(calls, due[k], t) && RunsOutAt(calls, due[l], u) ==>
      t < u || (t == u && due[k] < due[l])
  {
    hide IsQueueRun, AfterCalls, RunsOutAt;
    var entries := AfterCalls(EMPTY_QUEUE, calls).entries;
    forall id ensures id in due <==> exists t: nat :: RunsOutAt(calls, id, t) && t <= now {
      TableFollowsCalls(calls, id);
      assert id in due <==> IsDue(entries, id, now);
      if id in due {
        assert RunsOutAt(calls, id, entries[id].due);
      }
    }
    forall k, l, t, u | 0 <= k < l < |due| && RunsOutAt(calls, due[k], t) && RunsOutAt(calls, due[l], u)
      ensures t < u || (t == u && due[k] < due[l])
    {
      TableFollowsCalls(calls, due[k]);
      TableFollowsCalls(calls, due[l]);
      assert Before(entries, due[k], due[l]);
    }
  }
}
