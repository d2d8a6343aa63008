/** The calls a text field answers. Each of them, in any state, keeps the field safe to slice
    and its history a line through its content. */
module TextInputRuns {
  import opened Basics
  import opened Utf8
  import opened TrimmedSplice
  import opened EditHistory
  import opened HistoryLine
  import opened Utf16Offsets
  import opened TextInput

  datatype Call =
    | ReplaceRange(range: Range, text: Bytes, now: int)
    | SetContent(text: Bytes)
    | Clear
    | Unmark
    | ReplaceText(range16: Option<Range>, text: Bytes, now: int)
    | MarkText(range16: Option<Range>, text: Bytes, selection16: Option<Range>, now: int)
    | UndoCall
    | RedoCall
    | SealCall
    | Select(range: Range, reversed: bool)
    | SetReadOnly(on: bool)

  ghost predicate Ordered(r: Option<Range>) {
    r.Some? ==> r.value.start <= r.value.end
  }

  /** Strings are well formed, the platform's ranges are ordered, and a selection
      lands on character boundaries. */
  ghost predicate Permitted(f: Field, c: Call) {
    match c
    case ReplaceRange(_, text, _) => Valid(text)
    case SetContent(text) => Valid(text)
    case ReplaceText(range16, text, _) => Valid(text) && Ordered(range16)
    case MarkText(range16, text, selection16, _) => Valid(text) && Ordered(range16) && Ordered(selection16)
    case Select(range, _) => OnBoundaries(f.content, range)
    case _ => true
  }

  ghost function Act(f: Field, c: Call): Field
    requires Sound(f) && Permitted(f, c)
  {
    match c
    case ReplaceRange(range, text, now) => AfterReplaceRange(f, range, text, now)
    case SetContent(text) => AfterSetContent(f, text)
    case Clear => AfterClear(f)
    case Unmark => AfterUnmark(f)
    case ReplaceText(range16, text, now) =>
      CommitTargetIsSafe(f, range16);
      AfterReplaceText(f, range16, text, now)
    case MarkText(range16, text, selection16, now) =>
      MarkTargetIsSafe(f, range16);
      ValidSplice(f.content, MarkTarget(f, range16), text);
      AfterMarkText(f, range16, text, selection16, now)
    case UndoCall => AfterUndo(f)
    case RedoCall => AfterRedo(f)
    case SealCall => f.(log := SealedLast(f.log))
    case Select(range, reversed) => f.(selected := range, reversed := reversed)
    case SetReadOnly(on) => f.(readOnly := on)
  }

  ghost predicate CallLeads(f: Field, c: Call, next: Field) {
    Permitted(f, c) && (Sound(f) ==> next == Act(f, c))
  }

  /** The field is safe to slice and its history denotes a line through its content. */
  ghost predicate Coherent(f: Field, line: Line) {
    Sound(f) && Timeline(f.log, line, f.content)
  }

  /** Where a line's contents come from after one more call. */
  ghost predicate ExtendedBy(line': Line, line: Line, content: Bytes) {
    && (forall c :: c in line'.past ==> c in line.past || c in line.future || c == content)
    && (forall c :: c in line'.future ==> c in line.past || c in line.future || c == content)
  }

  lemma CaretIsSafe(content: Bytes, range: Range, text: Bytes)
    requires Valid(content) && OnBoundaries(content, range) && Valid(text)
    ensures Valid(Splice(content, range, text))
    ensures OnBoundaries(Splice(content, range, text), Caret(range.start + |text|))
    ensures OnBoundaries(Splice(content, range, text), Range(range.start, range.start + |text|))
  {
    hide Valid, IsBoundary, Splice;
    ValidSplice(content, range, text);
  }

  lemma ReplaceRangeCoheres(f: Field, line: Line, range: Range, text: Bytes, now: int) returns (line': Line)
    requires Coherent(f, line) && Valid(text)
    ensures Coherent(AfterReplaceRange(f, range, text, now), line') && ExtendedBy(line', line, f.content)
  {
    hide Valid, IsBoundary, Splice, SpliceRecorded, Trim, NoSharedHead, NoSharedTail, Describes, SealedLast, Timeline;
    var r := Range(Min(range.start, |f.content|), Min(range.end, |f.content|));
    line' := line;
    if !f.readOnly && OnBoundaries(f.content, r) {
      SealKeepsTimeline(f.log, line, f.content);
      var pre, post := TrimIsFaithful(f.content, r, text);
      line' := RecordKeepsTimeline(SealedLast(f.log), line, f.content, Trim(f.content, r, text), pre, post,
                                   Splice(f.content, r, text), f.selected, f.reversed, now);
      CaretIsSafe(f.content, r, text);
      var log := Recorded(SealedLast(f.log), f.content, r, text, f.selected, f.reversed, now);
      SealKeepsTimeline(log, line', Splice(f.content, r, text));
    }
  }

  lemma SpliceCoheres(f: Field, line: Line, range: Range, text: Bytes, composing: bool, now: int) returns (line': Line)
    requires Coherent(f, line) && OnBoundaries(f.content, range) && Valid(text)
    ensures Timeline(LogAfter(f, range, text, composing, now), line', Splice(f.content, range, text))
    ensures ExtendedBy(line', line, f.content)
  {
    hide Valid, IsBoundary, Splice, SpliceRecorded, Trim, NoSharedHead, NoSharedTail, Describes, CompositionRecorded,
         Timeline;
    if composing {
      line' := ComposeKeepsTimeline(f.log, line, f.content, range, text, f.selected, f.reversed, now);
    } else {
      var pre, post := TrimIsFaithful(f.content, range, text);
      line' := RecordKeepsTimeline(f.log, line, f.content, Trim(f.content, range, text), pre, post,
                                   Splice(f.content, range, text), f.selected, f.reversed, now);
    }
  }

  lemma ReplaceTextCoheres(f: Field, line: Line, range16: Option<Range>, text: Bytes, now: int) returns (line': Line)
    requires Coherent(f, line) && Valid(text) && Ordered(range16)
    ensures Coherent(Act(f, ReplaceText(range16, text, now)), line') && ExtendedBy(line', line, f.content)
  {
    hide Valid, IsBoundary, Splice, Recorded, CompositionRecorded, Timeline, CommitTarget, CompositionFinalized,
         LogAfter;
    line' := line;
    CommitTargetIsSafe(f, range16);
    if !f.readOnly {
      var r := CommitTarget(f, range16);
      line' := SpliceCoheres(f, line, r, text, f.marked.Some?, now);
      CaretIsSafe(f.content, r, text);
      if f.marked.Some? {
        line' := FinalizeKeepsTimeline(LogAfter(f, r, text, true, now), line', Splice(f.content, r, text));
      }
    }
  }

  lemma MarkTextCoheres(f: Field, line: Line, range16: Option<Range>, text: Bytes, selection16: Option<Range>, now: int)
    returns (line': Line)
    requires Coherent(f, line) && Valid(text) && Ordered(range16) && Ordered(selection16)
    ensures Coherent(Act(f, MarkText(range16, text, selection16, now)), line') && ExtendedBy(line', line, f.content)
  {
    hide Valid, IsBoundary, Splice, CompositionRecorded, Timeline, MarkTarget, CompositionFinalized, LogAfter,
         RangeFromRelativeUtf16;
    line' := line;
    MarkTargetIsSafe(f, range16);
    if !f.readOnly {
      var r := MarkTarget(f, range16);
      line' := SpliceCoheres(f, line, r, text, true, now);
      CaretIsSafe(f.content, r, text);
      if selection16.Some? {
        RelativeRangesAreSafe(Splice(f.content, r, text), r.start, selection16.value);
      }
      if text == [] {
        line' := FinalizeKeepsTimeline(LogAfter(f, r, text, true, now), line', Splice(f.content, r, text));
      }
    }
  }

  lemma UndoCoheres(f: Field, line: Line) returns (line': Line)
    requires Coherent(f, line)
    ensures Coherent(AfterUndo(f), line') && ExtendedBy(line', line, f.content)
    ensures AfterUndo(f).content == f.content || AfterUndo(f).content in line.past
  {
    hide Valid, IsBoundary, Undone, LeadTo, LeadOn, Links;
    line' := line;
    if f.log.undo == [] {
      assert AfterUndo(f) == f by { UndoOfNothing(f); }
    } else if !f.readOnly && f.marked.None? {
      NewestLink(f.log, line, f.content);
      UndoAlongTimeline(f.log, line, f.content);
      line' := Line(Init(line.past), line.future + [f.content]);
    }
  }

  lemma UndoOfNothing(f: Field)
    ensures f.log.undo == [] ==> AfterUndo(f) == f
    ensures f.log.redo == [] ==> AfterRedo(f) == f
  {
    hide HoldsAt;
  }

  lemma RedoCoheres(f: Field, line: Line) returns (line': Line)
    requires Coherent(f, line)
    ensures Coherent(AfterRedo(f), line') && ExtendedBy(line', line, f.content)
    ensures AfterRedo(f).content == f.content || AfterRedo(f).content in line.future
  {
    hide Valid, IsBoundary, Redone, LeadTo, LeadOn, Links;
    line' := line;
    if f.log.redo == [] {
      assert AfterRedo(f) == f by { UndoOfNothing(f); }
    } else if !f.readOnly && f.marked.None? {
      NearestLink(f.log, line, f.content);
      RedoAlongTimeline(f.log, line, f.content);
      line' := Line(line.past + [f.content], Init(line.future));
    }
  }

  lemma EmptyTimeline(content: Bytes)
    requires Valid(content)
    ensures Timeline(EMPTY_LOG, Line([], []), content)
    ensures OnBoundaries(content, Caret(|content|))
  {
  }

  /** Any call, in any state the field can be in, leaves the history coherent; what
      the line gains is at most the content of just before. */
  lemma CallCoheres(f: Field, line: Line, c: Call) returns (line': Line)
    requires Coherent(f, line) && Permitted(f, c)
    ensures Coherent(Act(f, c), line') && ExtendedBy(line', line, f.content)
  {
    hide Valid, IsBoundary, Timeline, AfterReplaceRange, AfterReplaceText, AfterMarkText, AfterUndo, AfterRedo,
         SealedLast, CompositionFinalized;
    line' := line;
    match c {
      case ReplaceRange(range, text, now) => line' := ReplaceRangeCoheres(f, line, range, text, now);
      case SetContent(text) =>
        EmptyTimeline(text);
        if text != f.content {
          line' := Line([], []);
        }
      case Clear =>
        EmptyTimeline([]);
        if f.content != [] {
          line' := Line([], []);
        }
      case Unmark => line' := FinalizeKeepsTimeline(f.log, line, f.content);
      case ReplaceText(range16, text, now) => line' := ReplaceTextCoheres(f, line, range16, text, now);
      case MarkText(range16, text, selection16, now) =>
        line' := MarkTextCoheres(f, line, range16, text, selection16, now);
      case UndoCall => line' := UndoCoheres(f, line);
      case RedoCall => line' := RedoCoheres(f, line);
      case SealCall => SealKeepsTimeline(f.log, line, f.content);
      case _ =>
    }
  }
}
