/** The kernel's table of pending timers on the native side. Instants are natural numbers, and
    every operation is given the reading of the clock it uses. */
module TimerQueue {
  import opened Basics

  const MAX_ID: nat := 0xFFFF_FFFF

  datatype TimerEntry = TimerEntry(due: nat, delay: nat, repeats: bool)

  type Entries = map<nat, TimerEntry>

  // ----- ids

  /** `checked_add(1).unwrap_or(1)`. */
  function Succ(id: nat): nat {
    if id < MAX_ID then id + 1 else 1
  }

  predicate IsId(id: nat) {
    1 <= id <= MAX_ID
  }

  /** The id `i` steps after `start` around the cycle of all ids. */
  function Cycle(start: nat, i: nat): (id: nat)
    requires IsId(start) && i < MAX_ID
    ensures IsId(id)
  {
    if start + i <= MAX_ID then start + i else start + i - MAX_ID
  }

  /** The first id not in use from `start` around the cycle, from its step `i` on; none gives zero. */
  ghost function FirstFree(used: set<nat>, start: nat, i: nat): (id: nat)
    requires IsId(start) && i <= MAX_ID
    ensures id != 0 ==> IsId(id) && id !in used
    decreases MAX_ID - i
  {
    if i == MAX_ID then 0
    else if Cycle(start, i) !in used then Cycle(start, i)
    else FirstFree(used, start, i + 1)
  }

  /** The ids met in the first `n` steps. */
  ghost function Visited(start: nat, n: nat): (ids: set<nat>)
    requires IsId(start) && n <= MAX_ID
  {
    set i | 0 <= i < n :: Cycle(start, i)
  }

  /** No id is met twice in one round: the pigeonholes. */
  lemma {:induction false} VisitedCount(start: nat, n: nat)
    requires IsId(start) && n <= MAX_ID
    ensures |Visited(start, n)| == n
    decreases n
  {
    if n == 0 {
      assert Visited(start, 0) == {};
    } else {
      hide Cycle;
      VisitedCount(start, n - 1);
      assert Visited(start, n) == Visited(start, n - 1) + {Cycle(start, n - 1)};
      assert Cycle(start, n - 1) !in Visited(start, n - 1) by {
        CycleIsNew(start, n - 1);
      }
    }
  }

  lemma CycleIsNew(start: nat, n: nat)
    requires IsId(start) && n < MAX_ID
    ensures forall i :: 0 <= i < n ==> Cycle(start, i) != Cycle(start, n)
  {
  }

  lemma {:induction false} FreeOrAllUsed(used: set<nat>, start: nat, i: nat)
    requires IsId(start) && i <= MAX_ID && Visited(start, i) <= used
    ensures FirstFree(used, start, i) == 0 ==> Visited(start, MAX_ID) <= used
    decreases MAX_ID - i
  {
    hide FirstFree, Cycle;
    FirstFreeStep(used, start, i);
    if i < MAX_ID && Cycle(start, i) in used {
      assert Visited(start, i + 1) == Visited(start, i) + {Cycle(start, i)};
      FreeOrAllUsed(used, start, i + 1);
    }
  }

  lemma FirstFreeStep(used: set<nat>, start: nat, i: nat)
    requires IsId(start) && i <= MAX_ID
    ensures FirstFree(used, start, i)
         == if i == MAX_ID then 0
            else if Cycle(start, i) !in used then Cycle(start, i)
            else FirstFree(used, start, i + 1)
  {
  }

  /** With an id to spare, one is found. */
  lemma FreeIdExists(used: set<nat>, start: nat)
    requires IsId(start) && |used| < MAX_ID
    ensures FirstFree(used, start, 0) != 0
  {
    assert Visited(start, 0) == {};
    FreeOrAllUsed(used, start, 0);
    VisitedCount(start, MAX_ID);
    if Visited(start, MAX_ID) <= used {
      SubsetSize(Visited(start, MAX_ID), used);
    }
  }

  // ----- what each operation leaves

  function Armed(delay: nat, repeats: bool, now: nat): TimerEntry {
    TimerEntry(now + delay, delay, repeats)
  }

  function Refreshed(entries: Entries, id: nat, now: nat): Entries {
    if id in entries then entries[id := entries[id].(due := now + entries[id].delay)] else entries
  }

  predicate IsDue(entries: Entries, id: nat, now: nat) {
    id in entries && entries[id].due <= now
  }

  /** Due one-shots gone, due repeating timers armed again from `now`. */
  function AfterTake(entries: Entries, now: nat): Entries {
    map id | id in entries && (entries[id].due > now || entries[id].repeats) ::
      if entries[id].due > now then entries[id] else entries[id].(due := now + entries[id].delay)
  }

  predicate Before(entries: Entries, a: nat, b: nat)
    requires a in entries && b in entries
  {
    entries[a].due < entries[b].due || (entries[a].due == entries[b].due && a < b)
  }

  ghost predicate InOrder(entries: Entries, ids: seq<nat>) {
    && (forall i :: 0 <= i < |ids| ==> ids[i] in entries)
    && (forall i, j :: 0 <= i < j < |ids| ==> Before(entries, ids[i], ids[j]))
  }

  /** Exactly the due ids, by due time and then by id. */
  ghost predicate IsDueList(entries: Entries, now: nat, ids: seq<nat>) {
    InOrder(entries, ids) && forall id :: id in ids <==> IsDue(entries, id, now)
  }

  // ----- the queue

  class TimerQueue {
    var nextId: nat
    var entries: Entries

    ghost predicate Valid()
      reads this
    {
      IsId(nextId) && forall id :: id in entries ==> IsId(id)
    }

    constructor ()
      ensures Valid() && nextId == 1 && entries == map[]
    {
      nextId := 1;
      entries := map[];
    }

    method Schedule(delay: nat, repeats: bool, now: nat) returns (id: nat)
      requires Valid() && |entries| < MAX_ID
      modifies this
      ensures Valid()
      ensures id == FirstFree(old(entries).Keys, old(nextId), 0) && id != 0 && id !in old(entries)
      ensures nextId == Succ(id) && entries == old(entries)[id := Armed(delay, repeats, now)]
    {
      id := NextAvailableId();
      entries := entries[id := TimerEntry(now + delay, delay, repeats)];
    }

    /** Ends because fewer ids are in use than lie on the cycle. */
    method NextAvailableId() returns (id: nat)
      requires Valid() && |entries| < MAX_ID
      modifies this`nextId
      ensures Valid()
      ensures id == FirstFree(entries.Keys, old(nextId), 0) && id != 0 && id !in entries
      ensures nextId == Succ(id)
    {
      hide FirstFree, Cycle, Visited;
      ghost var start, i: nat := nextId, 0;
      FreeIdExists(entries.Keys, start);
      StartOfCycle(start);
      while true
        invariant Valid() && i < MAX_ID && nextId == Cycle(start, i)
        invariant Visited(start, i) <= entries.Keys
        invariant FirstFree(entries.Keys, start, i) == FirstFree(entries.Keys, start, 0) != 0
        decreases MAX_ID - i
      {
        id := nextId;
        nextId := if nextId < MAX_ID then nextId + 1 else 1;
        FirstFreeStep(entries.Keys, start, i);
        if id != 0 && id !in entries {
          return id;
        }
        OneMoreVisited(entries.Keys, start, i);
        i := i + 1;
      }
    }

    method Clear(id: nat)
      requires Valid()
      modifies this`entries
      ensures Valid() && entries == old(entries) - {id}
    {
      entries := entries - {id};
    }

    method Refresh(id: nat, now: nat)
      requires Valid()
      modifies this`entries
      ensures Valid() && entries == Refreshed(old(entries), id, now)
    {
      if id in entries {
        var timer := entries[id];
        entries := entries[id := timer.(due := now + timer.delay)];
      }
    }

    method TakeDue(now: nat) returns (due: seq<nat>)
      requires Valid()
      modifies this`entries
      ensures Valid()
      ensures IsDueList(old(entries), now, due) && entries == AfterTake(old(entries), now)
    {
      due := DueInOrder(entries, now);
      ghost var before := entries;
      var i := 0;
      while i < |due|
        invariant 0 <= i <= |due| && Valid()
        invariant entries == TakenSoFar(before, due[..i], now)
      {
        var id := due[i];
        TakeOne(before, due, i, now);
        if id in entries {
          var timer := entries[id];
          entries := entries - {id};
          if timer.repeats {
            entries := entries[id := timer.(due := now + timer.delay)];
          }
        }
        i := i + 1;
      }
      AllTaken(before, due, now);
    }

    method NextDeadline() returns (deadline: Option<nat>)
      ensures deadline.None? <==> entries == map[]
      ensures deadline.Some? ==> exists id :: id in entries && entries[id].due == deadline.value
      ensures deadline.Some? ==> forall id :: id in entries ==> deadline.value <= entries[id].due
    {
      deadline := None;
      var rest := entries.Keys;
      while rest != {}
        invariant rest <= entries.Keys
        invariant deadline.None? ==> rest == entries.Keys
        invariant deadline.Some? ==> exists id :: id in entries && entries[id].due == deadline.value
        invariant deadline.Some? ==> forall id :: id in entries && id !in rest ==> deadline.value <= entries[id].due
        decreases |rest|
      {
        var id :| id in rest;
        rest := rest - {id};
        if deadline.None? || entries[id].due < deadline.value {
          deadline := Some(entries[id].due);
        }
      }
    }
  }

  lemma StartOfCycle(start: nat)
    requires IsId(start)
    ensures Cycle(start, 0) == start && Visited(start, 0) == {}
  {
  }

  /** An occupied id is one more pigeon: the round cannot have been completed. */
  lemma OneMoreVisited(used: set<nat>, start: nat, i: nat)
    requires IsId(start) && i < MAX_ID && |used| < MAX_ID
    requires Visited(start, i) <= used && Cycle(start, i) in used
    ensures i + 1 < MAX_ID && Visited(start, i + 1) <= used && Cycle(start, i + 1) == Succ(Cycle(start, i))
  {
    assert Visited(start, i + 1) == Visited(start, i) + {Cycle(start, i)};
    VisitedCount(start, i + 1);
    SubsetSize(Visited(start, i + 1), used);
  }

  // ----- taking what is due

  /** The table when only `taken` were dealt with. */
  ghost function TakenSoFar(entries: Entries, taken: seq<nat>, now: nat): Entries {
    map id | id in entries && (id !in taken || entries[id].repeats) ::
      if id !in taken then entries[id] else entries[id].(due := now + entries[id].delay)
  }

  lemma TakeOne(entries: Entries, due: seq<nat>, i: nat, now: nat)
    requires InOrder(entries, due) && i < |due|
    ensures var id := due[i]; var before := TakenSoFar(entries, due[..i], now);
      && id in before && before[id] == entries[id]
      && TakenSoFar(entries, due[..i + 1], now)
         == if entries[id].repeats then before[id := entries[id].(due := now + entries[id].delay)] else before - {id}
  {
    var id := due[i];
    assert due[..i + 1] == due[..i] + [id];
    forall k | 0 <= k < i ensures due[k] != id {
      assert Before(entries, due[k], due[i]);
    }
  }

  lemma AllTaken(entries: Entries, due: seq<nat>, now: nat)
    requires IsDueList(entries, now, due)
    ensures TakenSoFar(entries, due[..|due|], now) == AfterTake(entries, now)
    ensures TakenSoFar(entries, [], now) == entries
  {
    assert due[..|due|] == due;
    forall id | id in entries ensures id in due <==> entries[id].due <= now {
      assert id in due <==> IsDue(entries, id, now);
    }
  }

  /** The due ids, sorted. */
  method DueInOrder(entries: Entries, now: nat) returns (due: seq<nat>)
    ensures IsDueList(entries, now, due)
  {
    due := [];
    var rest := entries.Keys;
    while rest != {}
      invariant rest <= entries.Keys
      invariant InOrder(entries, due)
      invariant forall id :: id in due <==> IsDue(entries, id, now) && id !in rest
      decreases |rest|
    {
      var id :| id in rest;
      rest := rest - {id};
      if entries[id].due <= now {
        due := Insert(entries, due, id);
      }
    }
  }

  /** Puts one more id in its place. */
  method Insert(entries: Entries, ids: seq<nat>, id: nat) returns (more: seq<nat>)
    requires InOrder(entries, ids) && id in entries && id !in ids
    ensures InOrder(entries, more) && forall k :: k in more <==> k in ids || k == id
  {
    var i := 0;
    while i < |ids| && Before(entries, ids[i], id)
      invariant 0 <= i <= |ids|
      invariant forall k :: 0 <= k < i ==> Before(entries, ids[k], id)
    {
      i := i + 1;
    }
    more := ids[..i] + [id] + ids[i..];
    InsertedInOrder(entries, ids, id, i);
  }

  lemma InsertedInOrder(entries: Entries, ids: seq<nat>, id: nat, i: nat)
    requires InOrder(entries, ids) && id in entries && id !in ids && i <= |ids|
    requires forall k :: 0 <= k < i ==> Before(entries, ids[k], id)
    requires i < |ids| ==> !Before(entries, ids[i], id)
    ensures InOrder(entries, ids[..i] + [id] + ids[i..])
    ensures forall k :: k in ids[..i] + [id] + ids[i..] <==> k in ids || k == id
  {
    var more := ids[..i] + [id] + ids[i..];
    BeforeTheRest(entries, ids, id, i);
    hide Before;
    assert forall k :: 0 <= k < |more| ==> more[k] == if k < i then ids[k] else if k == i then id else ids[k - 1];
    forall a, b | 0 <= a < b < |more| ensures Before(entries, more[a], more[b]) {
    }
    assert ids == ids[..i] + ids[i..];
  }

  lemma BeforeTheRest(entries: Entries, ids: seq<nat>, id: nat, i: nat)
    requires InOrder(entries, ids) && id in entries && id !in ids && i <= |ids|
    requires i < |ids| ==> !Before(entries, ids[i], id)
    ensures forall k :: i <= k < |ids| ==> Before(entries, id, ids[k])
  {
    forall k | i <= k < |ids| ensures Before(entries, id, ids[k]) {
      assert ids[i] in ids && Before(entries, id, ids[i]);
      assert k == i || Before(entries, ids[i], ids[k]);
    }
  }

  /** The order leaves no choice: one list of the due ids. */
  lemma {:induction false} DueListIsDetermined(entries: Entries, a: seq<nat>, b: seq<nat>)
    requires InOrder(entries, a) && InOrder(entries, b)
    requires forall id :: id in a <==> id in b
    ensures a == b
    decreases |a|
  {
    if a == [] {
      if b != [] {
        HasMember(b);
      }
    } else {
      HasMember(a);
      assert a[0] in a && a[0] in b;
      assert b[0] in b && b[0] in a;
      FirstIsLeast(entries, a, b[0]);
      FirstIsLeast(entries, b, a[0]);
      assert a[0] == b[0];
      NoRepeats(entries, a);
      NoRepeats(entries, b);
      DueListIsDetermined(entries, a[1..], b[1..]);
      assert a == [a[0]] + a[1..] && b == [b[0]] + b[1..];
    }
  }

  lemma HasMember<T>(s: seq<T>)
    requires s != []
    ensures exists x :: x in s
  {
    assert s[0] in s;
  }

  lemma FirstIsLeast(entries: Entries, ids: seq<nat>, id: nat)
    requires InOrder(entries, ids) && id in ids
    ensures id == ids[0] || Before(entries, ids[0], id)
  {
  }

  lemma NoRepeats(entries: Entries, ids: seq<nat>)
    requires InOrder(entries, ids) && ids != []
    ensures InOrder(entries, ids[1..])
    ensures forall id :: id in ids[1..] <==> id in ids && id != ids[0]
  {
    forall id | id in ids && id != ids[0] ensures id in ids[1..] {
      var k :| 0 <= k < |ids| && ids[k] == id;
      assert ids[1..][k - 1] == id;
    }
    forall id | id in ids[1..] ensures id in ids && id != ids[0] {
      var k :| 0 <= k < |ids| - 1 && ids[1..][k] == id;
      assert Before(entries, ids[0], ids[k + 1]);
    }
  }

  /** Right after taking, nothing is due: a repeating timer's delay is at least one. */
  lemma NothingDueTwice(entries: Entries, now: nat)
    requires forall id :: id in entries ==> entries[id].delay >= 1
    ensures forall id :: !IsDue(AfterTake(entries, now), id, now)
  {
  }
}
