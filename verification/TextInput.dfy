/** The text field without its rendering: content, selection, marked text and
    history, and the calls the application and the platform's input method make. */
module TextInput {
  import opened Basics
  import opened Utf8
  import opened EditHistory
  import opened Utf16Offsets

  /** The field as a value. */
  datatype Field = Field(
    content: Bytes,
    selected: Range,
    reversed: bool,
    marked: Option<Range>,
    readOnly: bool,
    log: Log)

  const EMPTY_FIELD := Field([], Range(0, 0), false, None, false, EMPTY_LOG)

  /** Nothing the field slices can split a character. */
  predicate Sound(f: Field) {
    && Valid(f.content)
    && OnBoundaries(f.content, f.selected)
    && (f.marked.Some? ==> OnBoundaries(f.content, f.marked.value))
  }

  function Clamp(x: nat, lo: nat, hi: nat): nat
    requires lo <= hi
  {
    if x < lo then lo else if x > hi then hi else x
  }

  function LogAfter(f: Field, range: Range, text: Bytes, composing: bool, now: int): Log
    requires range.start <= range.end <= |f.content|
  {
    if composing then CompositionRecorded(f.log, f.content, range, text, f.selected, f.reversed, now)
    else Recorded(f.log, f.content, range, text, f.selected, f.reversed, now)
  }

  // ----- what each call does to the value

  /** Applications insert completions and replacements this way; a bad range is ignored. */
  function AfterReplaceRange(f: Field, range: Range, text: Bytes, now: int): Field {
    var r := Range(Min(range.start, |f.content|), Min(range.end, |f.content|));
    if f.readOnly || !OnBoundaries(f.content, r) then f
    else
      var sealed := f.(log := SealedLast(f.log));
      f.(content := Splice(f.content, r, text), selected := Caret(r.start + |text|), reversed := false, marked := None,
         log := SealedLast(LogAfter(sealed, r, text, false, now)))
  }

  function AfterSetContent(f: Field, text: Bytes): Field {
    f.(content := text, selected := Caret(|text|), reversed := false, marked := None,
       log := if text != f.content then EMPTY_LOG else f.log)
  }

  function AfterClear(f: Field): Field {
    f.(content := [], selected := Caret(0), reversed := false, marked := None,
       log := if f.content != [] then EMPTY_LOG else f.log)
  }

  function AfterUnmark(f: Field): Field {
    f.(marked := None, log := CompositionFinalized(f.log))
  }

  /** Marked text is the target of a commit; a UTF-16 range only counts without it. */
  function CommitTarget(f: Field, range16: Option<Range>): Range
    requires Valid(f.content)
  {
    if f.marked.Some? then f.marked.value
    else if range16.Some? then RangeFromUtf16(f.content, range16.value)
    else f.selected
  }

  function AfterReplaceText(f: Field, range16: Option<Range>, text: Bytes, now: int): Field
    requires Sound(f)
    requires CommitTarget(f, range16).start <= CommitTarget(f, range16).end <= |f.content|
  {
    if f.readOnly then f
    else
      var r := CommitTarget(f, range16);
      var composing := f.marked.Some?;
      var log := LogAfter(f, r, text, composing, now);
      f.(content := Splice(f.content, r, text), selected := Caret(r.start + |text|), marked := None,
         log := if composing then CompositionFinalized(log) else log)
  }

  // ----- the two deleting keys

  /** The end of the selection that moves goes to `offset`. */
  function AfterSelectTo(f: Field, offset: nat): Field {
    var r := if f.reversed then Range(offset, f.selected.end) else Range(f.selected.start, offset);
    if r.end < r.start then f.(selected := Range(r.end, r.start), reversed := !f.reversed) else f.(selected := r)
  }

  /** A deleting key works on the selection, or else on what lies between the caret and `offset`. */
  function Aimed(f: Field, offset: nat): Field {
    if f.selected.start >= f.selected.end then AfterSelectTo(f, offset) else f
  }

  /** Where a key may reach from a caret: to a character boundary. */
  predicate Reaches(f: Field, offset: nat) {
    f.selected.start >= f.selected.end ==> offset <= |f.content| && IsBoundary(f.content, offset)
  }

  /** Extending a selection leaves the end that does not move, and puts the caret at the offset. */
  lemma SelectToKeepsAnchor(f: Field, offset: nat)
    requires f.selected.start <= f.selected.end
    ensures var g := AfterSelectTo(f, offset); var anchor := if f.reversed then f.selected.end else f.selected.start;
      && g == f.(selected := g.selected, reversed := g.reversed)
      && g.selected == Range(Min(anchor, offset), if anchor > offset then anchor else offset)
      && (offset < anchor ==> g.reversed) && (offset > anchor ==> !g.reversed)
      && (offset == anchor ==> g.reversed == f.reversed)
  {
  }

  lemma AimedIsSafe(f: Field, offset: nat)
    requires Sound(f) && Reaches(f, offset)
    ensures Sound(Aimed(f, offset)) && OnBoundaries(f.content, CommitTarget(Aimed(f, offset), None))
  {
    hide Valid, IsBoundary;
  }

  /** Backspace; `previous` is the boundary before the caret. */
  function AfterBackspace(f: Field, previous: nat, now: int): Field
    requires Sound(f) && Reaches(f, previous)
  {
    if f.content == [] then f
    else
      AimedIsSafe(f, previous);
      AfterReplaceText(Aimed(f, previous), None, [], now)
  }

  /** Delete; `next` is the boundary after the caret. */
  function AfterDelete(f: Field, next: nat, now: int): Field
    requires Sound(f) && Reaches(f, next)
  {
    AimedIsSafe(f, next);
    AfterReplaceText(Aimed(f, next), None, [], now)
  }

  /** A paste goes over the selection or the marked text, sealed off on both sides from the typing around it. */
  function AfterPaste(f: Field, text: Bytes, now: int): Field
    requires Sound(f)
  {
    var sealed := f.(log := SealedLast(f.log));
    CommitTargetIsSafe(sealed, None);
    var pasted := AfterReplaceText(sealed, None, text, now);
    pasted.(log := SealedLast(pasted.log))
  }

  /** With marked text a range is relative to it, and clipped to it. */
  function MarkTarget(f: Field, range16: Option<Range>): Range
    requires Sound(f)
  {
    match (range16, f.marked)
    case (Some(r), Some(m)) =>
      var absolute := RangeFromRelativeUtf16(f.content, m.start, r);
      Range(Clamp(absolute.start, m.start, m.end), Clamp(absolute.end, m.start, m.end))
    case (Some(r), None) => RangeFromUtf16(f.content, r)
    case (None, Some(m)) => m
    case (None, None) => f.selected
  }

  function AfterMarkText(f: Field, range16: Option<Range>, text: Bytes, selection16: Option<Range>, now: int): Field
    requires Sound(f)
    requires MarkTarget(f, range16).start <= MarkTarget(f, range16).end <= |f.content|
    requires Valid(Splice(f.content, MarkTarget(f, range16), text))
  {
    if f.readOnly then f
    else
      var r := MarkTarget(f, range16);
      var log := LogAfter(f, r, text, true, now);
      var content := Splice(f.content, r, text);
      f.(content := content,
         selected := if selection16.Some? then RangeFromRelativeUtf16(content, r.start, selection16.value)
                     else Caret(r.start + |text|),
         marked := if text != [] then Some(Range(r.start, r.start + |text|)) else None,
         log := if text != [] then log else CompositionFinalized(log))
  }

  /** While text is marked the input method owns the field. */
  function AfterUndo(f: Field): Field {
    if f.readOnly || f.marked.Some? then f
    else
      var (log, result) := Undone(f.log, f.content);
      match result
      case None => f.(log := log)
      case Some(r) =>
        f.(content := r.content, selected := r.selection, reversed := r.reversed, marked := None, log := log)
  }

  function AfterRedo(f: Field): Field {
    if f.readOnly || f.marked.Some? then f
    else
      var (log, result) := Redone(f.log, f.content);
      match result
      case None => f.(log := log)
      case Some(r) =>
        f.(content := r.content, selected := r.selection, reversed := r.reversed, marked := None, log := log)
  }

  // ----- ranges the platform asks for

  lemma CommitTargetIsSafe(f: Field, range16: Option<Range>)
    requires Sound(f) && (range16.Some? ==> range16.value.start <= range16.value.end)
    ensures OnBoundaries(f.content, CommitTarget(f, range16))
  {
    if f.marked.None? && range16.Some? {
      ConvertedRangesAreSafe(f.content, range16.value);
    }
  }

  lemma MarkTargetIsSafe(f: Field, range16: Option<Range>)
    requires Sound(f) && (range16.Some? ==> range16.value.start <= range16.value.end)
    ensures OnBoundaries(f.content, MarkTarget(f, range16))
    ensures f.marked.Some? ==>
      f.marked.value.start <= MarkTarget(f, range16).start && MarkTarget(f, range16).end <= f.marked.value.end
  {
    hide Valid, IsBoundary;
    match (range16, f.marked) {
      case (Some(r), Some(m)) => RelativeRangesAreSafe(f.content, m.start, r);
      case (Some(r), None) => ConvertedRangesAreSafe(f.content, r);
      case _ =>
    }
  }

  // ----- the field itself

  class TextInput {
    var content: Bytes
    var selectedRange: Range
    var selectionReversed: bool
    var markedRange: Option<Range>
    var readOnly: bool
    var history: EditHistory

    function State(): Field
      reads this, history
    {
      Field(content, selectedRange, selectionReversed, markedRange, readOnly, history.Contents())
    }

    constructor ()
      ensures State() == EMPTY_FIELD && fresh(history)
    {
      content, selectedRange, selectionReversed, markedRange, readOnly := [], Range(0, 0), false, None, false;
      history := new EditHistory();
    }

    method RecordEditHistory(range: Range, newText: Bytes, composing: bool, now: int)
      requires range.start <= range.end <= |content|
      modifies history
      ensures history.Contents() == LogAfter(old(State()), range, newText, composing, now)
    {
      if composing {
        history.RecordComposition(content, range, newText, selectedRange, selectionReversed, now);
      } else {
        history.Record(content, range, newText, selectedRange, selectionReversed, now);
      }
    }

    method ReplaceRange(range: Range, text: Bytes, now: int)
      modifies this, history
      ensures history == old(history) && State() == AfterReplaceRange(old(State()), range, text, now)
    {
      hide Splice, IsBoundary, Recorded;
      if readOnly {
        return;
      }
      var r := Range(Min(range.start, |content|), Min(range.end, |content|));
      if !OnBoundaries(content, r) {
        return;
      }
      history.Seal();
      RecordEditHistory(r, text, false, now);
      content := Splice(content, r, text);
      selectedRange := Caret(r.start + |text|);
      selectionReversed := false;
      markedRange := None;
      history.Seal();
    }

    method SetContent(text: Bytes)
      modifies this, history
      ensures (history == old(history) || fresh(history)) && State() == AfterSetContent(old(State()), text)
    {
      var changed := content != text;
      content := text;
      selectedRange := Caret(|content|);
      selectionReversed := false;
      markedRange := None;
      if changed {
        history := new EditHistory();
      }
    }

    method Clear()
      modifies this, history
      ensures (history == old(history) || fresh(history)) && State() == AfterClear(old(State()))
    {
      var changed := content != [];
      content := [];
      selectedRange := Caret(0);
      selectionReversed := false;
      markedRange := None;
      if changed {
        history := new EditHistory();
      }
    }

    method UnmarkText()
      modifies this, history
      ensures history == old(history) && State() == AfterUnmark(old(State()))
    {
      markedRange := None;
      history.FinalizeComposition();
    }

    method ReplaceTextInRange(range16: Option<Range>, newText: Bytes, now: int)
      requires Sound(State()) && (range16.Some? ==> range16.value.start <= range16.value.end)
      modifies this, history
      ensures CommitTarget(old(State()), range16).start <= CommitTarget(old(State()), range16).end <= |old(content)|
      ensures history == old(history) && State() == AfterReplaceText(old(State()), range16, newText, now)
    {
      hide Splice, IsBoundary, Valid, Recorded, CompositionRecorded, CompositionFinalized;
      CommitTargetIsSafe(State(), range16);
      if readOnly {
        return;
      }
      var composing := markedRange.Some?;
      var range := selectedRange;
      if markedRange.Some? {
        range := markedRange.value;
      } else if range16.Some? {
        var start := OffsetFromUtf16(content, range16.value.start);
        var end := OffsetFromUtf16(content, range16.value.end);
        range := Range(start, end);
      }
      RecordEditHistory(range, newText, composing, now);
      content := Splice(content, range, newText);
      selectedRange := Caret(range.start + |newText|);
      markedRange := None;
      if composing {
        history.FinalizeComposition();
      }
    }

    /** The bytes a UTF-16 range relative to `base` means in the current content. */
    method RelativeRange(base: nat, range: Range) returns (r: Range)
      requires Valid(content)
      ensures r == RangeFromRelativeUtf16(content, base, range)
    {
      var baseUtf16 := OffsetToUtf16(content, base);
      var start := OffsetFromUtf16(content, baseUtf16 + range.start);
      var end := OffsetFromUtf16(content, baseUtf16 + range.end);
      r := Range(start, end);
    }

    method TargetOfMark(range16: Option<Range>) returns (range: Range)
      requires Sound(State())
      ensures range == MarkTarget(State(), range16)
    {
      hide IsBoundary, Valid, FromUtf16, ToUtf16;
      range := selectedRange;
      if range16.Some? && markedRange.Some? {
        var absolute := RelativeRange(markedRange.value.start, range16.value);
        range := Range(Clamp(absolute.start, markedRange.value.start, markedRange.value.end),
                       Clamp(absolute.end, markedRange.value.start, markedRange.value.end));
      } else if range16.Some? {
        var start := OffsetFromUtf16(content, range16.value.start);
        var end := OffsetFromUtf16(content, range16.value.end);
        range := Range(start, end);
      } else if markedRange.Some? {
        range := markedRange.value;
      }
    }

    method ReplaceAndMarkTextInRange(range16: Option<Range>, newText: Bytes, newSelection16: Option<Range>, now: int)
      requires Sound(State()) && Valid(newText)
      requires range16.Some? ==> range16.value.start <= range16.value.end
      modifies this, history
      ensures MarkTarget(old(State()), range16).start <= MarkTarget(old(State()), range16).end <= |old(content)|
      ensures Valid(Splice(old(content), MarkTarget(old(State()), range16), newText))
      ensures history == old(history)
      ensures State() == AfterMarkText(old(State()), range16, newText, newSelection16, now)
    {
      hide Splice, IsBoundary, Valid, MarkTarget, CompositionRecorded, CompositionFinalized, RangeFromRelativeUtf16;
      MarkTargetIsSafe(State(), range16);
      ValidSplice(content, MarkTarget(State(), range16), newText);
      if readOnly {
        return;
      }
      var range := TargetOfMark(range16);
      RecordEditHistory(range, newText, true, now);
      content := Splice(content, range, newText);
      markedRange := if newText != [] then Some(Range(range.start, range.start + |newText|)) else None;
      if markedRange.None? {
        history.FinalizeComposition();
      }
      if newSelection16.Some? {
        selectedRange := RelativeRange(range.start, newSelection16.value);
      } else {
        selectedRange := Caret(range.start + |newText|);
      }
    }

    method Undo()
      modifies this, history
      ensures history == old(history) && State() == AfterUndo(old(State()))
    {
      hide Undone;
      if readOnly || markedRange.Some? {
        return;
      }
      var result := history.Undo(content);
      if result.Some? {
        ApplyHistoryStep(result.value);
      }
    }

    method Redo()
      modifies this, history
      ensures history == old(history) && State() == AfterRedo(old(State()))
    {
      hide Redone;
      if readOnly || markedRange.Some? {
        return;
      }
      var result := history.Redo(content);
      if result.Some? {
        ApplyHistoryStep(result.value);
      }
    }

    method ApplyHistoryStep(step: Restored)
      modifies this
      ensures history == old(history)
      ensures State() == old(State()).(content := step.content, selected := step.selection,
                                       reversed := step.reversed, marked := None)
    {
      content := step.content;
      selectedRange := step.selection;
      selectionReversed := step.reversed;
      markedRange := None;
    }

    method SelectTo(offset: nat)
      modifies this
      ensures history == old(history) && State() == AfterSelectTo(old(State()), offset)
    {
      if selectionReversed {
        selectedRange := selectedRange.(start := offset);
      } else {
        selectedRange := selectedRange.(end := offset);
      }
      if selectedRange.end < selectedRange.start {
        selectionReversed := !selectionReversed;
        selectedRange := Range(selectedRange.end, selectedRange.start);
      }
    }

    method Backspace(previous: nat, now: int)
      requires Sound(State()) && Reaches(State(), previous)
      modifies this, history
      ensures history == old(history) && State() == AfterBackspace(old(State()), previous, now)
    {
      hide AfterReplaceText, IsBoundary, Valid;
      if content == [] {
        return;
      }
      AimedIsSafe(State(), previous);
      if selectedRange.start >= selectedRange.end {
        SelectTo(previous);
      }
      ReplaceTextInRange(None, [], now);
    }

    method Delete(next: nat, now: int)
      requires Sound(State()) && Reaches(State(), next)
      modifies this, history
      ensures history == old(history) && State() == AfterDelete(old(State()), next, now)
    {
      hide AfterReplaceText, IsBoundary, Valid;
      AimedIsSafe(State(), next);
      if selectedRange.start >= selectedRange.end {
        SelectTo(next);
      }
      ReplaceTextInRange(None, [], now);
    }

    /** Regaining focus, like a paste or a cut, ends the gesture before it. */
    method OnFocus()
      modifies history
      ensures State() == old(State()).(log := SealedLast(old(State()).log))
    {
      history.Seal();
    }

    method Paste(text: Bytes, now: int)
      requires Sound(State())
      modifies this, history
      ensures history == old(history) && State() == AfterPaste(old(State()), text, now)
    {
      hide Splice, IsBoundary, Valid, Recorded, CompositionRecorded, CompositionFinalized, SealedLast, AfterReplaceText;
      history.Seal();
      ReplaceTextInRange(None, text, now);
      history.Seal();
    }
  }
}
