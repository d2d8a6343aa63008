/** The text field's grouped undo history: what each operation does to the two
    stacks, and the class that does it in place. */
module EditHistory {
  import opened Basics
  import opened Utf8
  import opened TrimmedSplice

  /** In milliseconds. */
  const UNDO_GROUP_INTERVAL: int := 300
  const UNDO_HISTORY_CAP: nat := 1000

  /** A step turns `removed` at `start` into `inserted`, or back. */
  datatype EditRecord = EditRecord(
    start: nat,
    removed: Bytes,
    inserted: Bytes,
    selectionBefore: Range,
    selectionReversedBefore: bool,
    editedAt: int,
    isSealed: bool,
    composing: bool)

  /** The two stacks, newest step last. */
  datatype Log = Log(undo: seq<EditRecord>, redo: seq<EditRecord>)

  const EMPTY_LOG := Log([], [])

  /** What undo and redo hand back to the field. */
  datatype Restored = Restored(content: Bytes, selection: Range, reversed: bool)

  function WithLast<T>(s: seq<T>, x: T): seq<T>
    requires s != []
  {
    s[..|s| - 1] + [x]
  }

  /** `Instant::duration_since` never goes below zero. */
  function Elapsed(now: int, earlier: int): nat {
    if now < earlier then 0 else now - earlier
  }

  function Capped(undo: seq<EditRecord>): seq<EditRecord> {
    if |undo| > UNDO_HISTORY_CAP then undo[|undo| - UNDO_HISTORY_CAP..] else undo
  }

  /** The steps that stay below a newly pushed one: all, or all but the oldest at the cap. */
  function Below(undo: seq<EditRecord>): seq<EditRecord> {
    if |undo| >= UNDO_HISTORY_CAP then undo[|undo| + 1 - UNDO_HISTORY_CAP..] else undo
  }

  /** The step `last` grown by a trimmed splice, where the pair reads as one gesture. */
  function Coalesced(last: EditRecord, t: Trimmed, now: int): Option<EditRecord> {
    if last.isSealed || last.composing || Elapsed(now, last.editedAt) >= UNDO_GROUP_INTERVAL then None
    else if t.removed == [] && last.inserted != [] && t.start == last.start + |last.inserted| then
      Some(last.(inserted := last.inserted + t.inserted, editedAt := now))
    else if t.inserted == [] && last.inserted == [] && last.removed != [] then
      if t.start + |t.removed| == last.start then
        Some(last.(start := t.start, removed := t.removed + last.removed, editedAt := now))
      else if t.start == last.start then
        Some(last.(removed := last.removed + t.removed, editedAt := now))
      else None
    else None
  }

  function Recorded(log: Log, content: Bytes, range: Range, newText: Bytes,
                    selection: Range, reversed: bool, now: int): Log
    requires range.start <= range.end <= |content|
  {
    SpliceRecorded(log, Trim(content, range, newText), selection, reversed, now)
  }

  /** The log after a splice that is already trimmed. */
  function SpliceRecorded(log: Log, t: Trimmed, selection: Range, reversed: bool, now: int): Log {
    if t.removed == [] && t.inserted == [] then log
    else
      var joined := if log.undo == [] then None else Coalesced(Last(log.undo), t, now);
      match joined
      case Some(step) => Log(WithLast(log.undo, step), [])
      case None =>
        Log(Capped(log.undo + [EditRecord(t.start, t.removed, t.inserted, selection, reversed, now, false, false)]), [])
  }

  predicate OpenComposition(log: Log) {
    log.undo != [] && Last(log.undo).composing
  }

  /** The splice lands inside the text the step put there. */
  predicate InsideStep(step: EditRecord, range: Range) {
    step.start <= range.start && range.end <= step.start + |step.inserted|
  }

  function Closed(step: EditRecord): EditRecord {
    step.(composing := false, isSealed := true)
  }

  function Amended(step: EditRecord, range: Range, newText: Bytes, now: int): EditRecord
    requires InsideStep(step, range) && range.start <= range.end
  {
    step.(inserted := Splice(step.inserted, Range(range.start - step.start, range.end - step.start), newText),
          editedAt := now)
  }

  function CompositionRecorded(log: Log, content: Bytes, range: Range, newText: Bytes,
                               selection: Range, reversed: bool, now: int): Log
    requires range.start <= range.end <= |content|
  {
    if OpenComposition(log) && InsideStep(Last(log.undo), range) then
      Log(WithLast(log.undo, Amended(Last(log.undo), range, newText, now)), [])
    else
      var kept := if OpenComposition(log) then WithLast(log.undo, Closed(Last(log.undo))) else log.undo;
      var step := EditRecord(range.start, content[range.start..range.end], newText, selection, reversed, now, false,
                             true);
      Log(Capped(kept + [step]), [])
  }

  function CompositionFinalized(log: Log): Log {
    if !OpenComposition(log) then log
    else
      var step := Closed(Last(log.undo));
      if step.removed == step.inserted then log.(undo := Init(log.undo))
      else log.(undo := WithLast(log.undo, step))
  }

  function SealedLast(log: Log): Log {
    if log.undo == [] then log
    else log.(undo := WithLast(log.undo, Last(log.undo).(isSealed := true)))
  }

  /** `content.get(start..start + text.len()) == Some(text)`. */
  predicate HoldsAt(content: Bytes, start: nat, text: Bytes) {
    && start + |text| <= |content|
    && OnBoundaries(content, Range(start, start + |text|))
    && content[start..start + |text|] == text
  }

  function Undone(log: Log, content: Bytes): (Log, Option<Restored>) {
    if log.undo == [] then (log, None)
    else
      var step := Last(log.undo);
      if !HoldsAt(content, step.start, step.inserted) then (EMPTY_LOG, None)
      else
        var text := Splice(content, Range(step.start, step.start + |step.inserted|), step.removed);
        var selection := Range(Min(step.selectionBefore.start, |text|), Min(step.selectionBefore.end, |text|));
        (Log(Init(log.undo), log.redo + [step]), Some(Restored(text, selection, step.selectionReversedBefore)))
  }

  function Redone(log: Log, content: Bytes): (Log, Option<Restored>) {
    if log.redo == [] then (log, None)
    else
      var step := Last(log.redo);
      if !HoldsAt(content, step.start, step.removed) then (EMPTY_LOG, None)
      else
        var text := Splice(content, Range(step.start, step.start + |step.removed|), step.inserted);
        var caret := step.start + |step.inserted|;
        (Log(log.undo + [step], Init(log.redo)), Some(Restored(text, Range(caret, caret), false)))
  }

  /** A pushed step is on top of the newest thousand, and none is dropped for less. */
  lemma PushKeepsNewest(undo: seq<EditRecord>, step: EditRecord)
    ensures var pushed := Capped(undo + [step]);
      && |pushed| == Min(|undo| + 1, 1000)
      && pushed == (undo + [step])[|undo| + 1 - |pushed|..]
  {
  }

  class EditHistory {
    var undo: seq<EditRecord>
    var redo: seq<EditRecord>

    function Contents(): Log
      reads this
    {
      Log(undo, redo)
    }

    constructor ()
      ensures Contents() == EMPTY_LOG
    {
      undo, redo := [], [];
    }

    method Record(content: Bytes, range: Range, newText: Bytes, selection: Range, reversed: bool, now: int)
      requires range.start <= range.end <= |content|
      modifies this
      ensures Contents() == Recorded(old(Contents()), content, range, newText, selection, reversed, now)
    {
      hide Trim, Splice;
      var t := TrimSplice(content, range, newText);
      if t.removed == [] && t.inserted == [] {
        return;
      }
      redo := [];
      if undo != [] {
        var n := |undo| - 1;
        var last := undo[n];
        if !last.isSealed && !last.composing && Elapsed(now, last.editedAt) < UNDO_GROUP_INTERVAL {
          if t.removed == [] && last.inserted != [] && t.start == last.start + |last.inserted| {
            undo := undo[..n] + [last.(inserted := last.inserted + t.inserted, editedAt := now)];
            return;
          }
          if t.inserted == [] && last.inserted == [] && last.removed != [] {
            if t.start + |t.removed| == last.start {
              undo := undo[..n] + [last.(start := t.start, removed := t.removed + last.removed, editedAt := now)];
              return;
            }
            if t.start == last.start {
              undo := undo[..n] + [last.(removed := last.removed + t.removed, editedAt := now)];
              return;
            }
          }
        }
      }
      Push(EditRecord(t.start, t.removed, t.inserted, selection, reversed, now, false, false));
    }

    method RecordComposition(content: Bytes, range: Range, newText: Bytes, selection: Range, reversed: bool, now: int)
      requires range.start <= range.end <= |content|
      modifies this
      ensures Contents() == CompositionRecorded(old(Contents()), content, range, newText, selection, reversed, now)
    {
      redo := [];
      if undo != [] && Last(undo).composing {
        var n := |undo| - 1;
        var last := undo[n];
        if range.start >= last.start && range.end <= last.start + |last.inserted| {
          var local := Range(range.start - last.start, range.end - last.start);
          undo := undo[..n] + [last.(inserted := Splice(last.inserted, local, newText), editedAt := now)];
          return;
        }
        undo := undo[..n] + [last.(composing := false, isSealed := true)];
      }
      Push(EditRecord(range.start, content[range.start..range.end], newText, selection, reversed, now, false, true));
    }

    method FinalizeComposition()
      modifies this
      ensures Contents() == CompositionFinalized(old(Contents()))
    {
      if undo != [] && Last(undo).composing {
        var n := |undo| - 1;
        var last := undo[n].(composing := false, isSealed := true);
        undo := undo[..n] + [last];
        if last.removed == last.inserted {
          undo := undo[..n];
        }
      }
    }

    method Seal()
      modifies this
      ensures Contents() == SealedLast(old(Contents()))
    {
      if undo != [] {
        var n := |undo| - 1;
        undo := undo[..n] + [undo[n].(isSealed := true)];
      }
    }

    method Push(step: EditRecord)
      modifies this
      ensures Contents() == Log(Capped(old(undo) + [step]), old(redo))
    {
      undo := undo + [step];
      if |undo| > UNDO_HISTORY_CAP {
        var excess := |undo| - UNDO_HISTORY_CAP;
        undo := undo[excess..];
      }
    }

    method Undo(content: Bytes) returns (result: Option<Restored>)
      modifies this
      ensures (Contents(), result) == Undone(old(Contents()), content)
    {
      if undo == [] {
        return None;
      }
      var step := Last(undo);
      undo := Init(undo);
      if !HoldsAt(content, step.start, step.inserted) {
        undo, redo := [], [];
        return None;
      }
      var text := content[..step.start] + step.removed + content[step.start + |step.inserted|..];
      var selection := Range(Min(step.selectionBefore.start, |text|), Min(step.selectionBefore.end, |text|));
      redo := redo + [step];
      return Some(Restored(text, selection, step.selectionReversedBefore));
    }

    method Redo(content: Bytes) returns (result: Option<Restored>)
      modifies this
      ensures (Contents(), result) == Redone(old(Contents()), content)
    {
      if redo == [] {
        return None;
      }
      var step := Last(redo);
      redo := Init(redo);
      if !HoldsAt(content, step.start, step.removed) {
        undo, redo := [], [];
        return None;
      }
      var text := content[..step.start] + step.inserted + content[step.start + |step.removed|..];
      var caret := step.start + |step.inserted|;
      undo := undo + [step];
      return Some(Restored(text, Range(caret, caret), false));
    }
  }
}
