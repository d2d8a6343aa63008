/** Input-method compositions. Marked text lies inside the one open step as long as the
    application's own edits leave marked text alone, and it is said exactly which of them do. */
module Composition {
  import opened Basics
  import opened Utf8
  import opened TrimmedSplice
  import opened EditHistory
  import opened HistoryLine
  import opened TextInput
  import opened TextInputRuns

  /** A closed step that changes the content. While it may still grow its two texts
      share no first character, which is what keeps growth from undoing the change. */
  ghost predicate RealChange(s: EditRecord) {
    && !s.composing
    && s.removed != s.inserted
    && (!s.isSealed ==> Valid(s.removed) && Valid(s.inserted) && NoSharedHead(s.removed, s.inserted))
  }

  ghost predicate Settled(steps: seq<EditRecord>) {
    forall s :: s in steps ==> RealChange(s)
  }

  /** Open composition if and only if marked text, and the marked text inside it. */
  ghost predicate Composed(f: Field) {
    match f.marked
    case None => Settled(f.log.undo) && Settled(f.log.redo)
    case Some(m) =>
      && OpenComposition(f.log) && f.log.redo == []
      && InsideStep(Last(f.log.undo), m)
      && Settled(Init(f.log.undo))
  }

  /** The application's own edits, which must wait until nothing is marked. */
  predicate Programmatic(c: Call) {
    c.ReplaceRange? || c.SetContent? || c.Clear?
  }

  function Clipped(f: Field, range: Range): Range {
    Range(Min(range.start, |f.content|), Min(range.end, |f.content|))
  }

  /** A programmatic edit that cannot strand an open composition step: nothing is
      marked, or the edit is ignored, or it starts a new history. */
  predicate Considerate(f: Field, c: Call) {
    f.marked.Some? ==>
      match c
      case ReplaceRange(range, _, _) => f.readOnly || !OnBoundaries(f.content, Clipped(f, range))
      case SetContent(text) => text != f.content
      case Clear => f.content != []
      case _ => true
  }

  // ----- closed steps are real changes

  lemma SettledAppend(steps: seq<EditRecord>, s: EditRecord)
    requires Settled(steps) && RealChange(s)
    ensures Settled(steps + [s])
  {
    hide RealChange;
  }

  lemma SettledInit(steps: seq<EditRecord>)
    requires Settled(steps) && steps != []
    ensures Settled(Init(steps)) && RealChange(Last(steps))
  {
    hide RealChange;
  }

  lemma SettledCapped(steps: seq<EditRecord>)
    requires Settled(steps)
    ensures Settled(Capped(steps))
  {
    hide RealChange;
  }

  lemma GrownStillReal(a: Bytes, b: Bytes, more: Bytes)
    requires Valid(a) && Valid(b) && b != [] && NoSharedHead(a, b)
    ensures NoSharedHead(a, b + more) && a != b + more
  {
    forall n | 0 < n ensures !SharedPrefix(a, b + more, n) {
      if SharedPrefix(a, b + more, n) {
        GrownSharedPrefix(a, b, more, n);
      }
    }
    WholeIsShared(a);
  }

  lemma WholeIsShared(a: Bytes)
    ensures SharedPrefix(a, a, |a|)
  {
  }

  lemma GrownSharedPrefix(a: Bytes, b: Bytes, more: Bytes, n: nat)
    requires Valid(a) && Valid(b) && b != [] && 0 < n && SharedPrefix(a, b + more, n)
    ensures exists k :: 0 < k && SharedPrefix(a, b, k)
  {
    if n <= |b| {
      assert (b + more)[..n] == b[..n];
      assert SharedPrefix(a, b, n);
    } else {
      assert a[..|b|] == a[..n][..|b|] == (b + more)[..n][..|b|] == b;
      HeadEndsOnBoundary(a, |b|);
      assert b[..|b|] == b;
      assert SharedPrefix(a, b, |b|);
    }
  }

  lemma CoalescedStillReal(last: EditRecord, t: Trimmed, now: int)
    requires RealChange(last) && Valid(t.removed) && Valid(t.inserted)
    requires Coalesced(last, t, now).Some?
    ensures RealChange(Coalesced(last, t, now).value)
  {
    hide Valid, NoSharedHead;
    if t.removed == [] && last.inserted != [] && t.start == last.start + |last.inserted| {
      GrownStillReal(last.removed, last.inserted, t.inserted);
      ValidConcat(last.inserted, t.inserted);
    } else {
      ValidConcat(t.removed, last.removed);
      ValidConcat(last.removed, t.removed);
      NothingShared(t.removed + last.removed);
      NothingShared(last.removed + t.removed);
    }
  }

  lemma NothingShared(a: Bytes)
    ensures NoSharedHead(a, [])
  {
  }

  lemma RecordStaysSettled(log: Log, t: Trimmed, selection: Range, reversed: bool, now: int)
    requires Settled(log.undo) && Settled(log.redo)
    requires Valid(t.removed) && Valid(t.inserted) && NoSharedHead(t.removed, t.inserted)
    ensures Settled(SpliceRecorded(log, t, selection, reversed, now).undo)
    ensures Settled(SpliceRecorded(log, t, selection, reversed, now).redo)
  {
    hide Valid, NoSharedHead, Coalesced, RealChange;
    if t.removed == [] && t.inserted == [] {
    } else if log.undo != [] && Coalesced(Last(log.undo), t, now).Some? {
      SettledInit(log.undo);
      CoalescedStillReal(Last(log.undo), t, now);
      SettledAppend(Init(log.undo), Coalesced(Last(log.undo), t, now).value);
    } else {
      var s := EditRecord(t.start, t.removed, t.inserted, selection, reversed, now, false, false);
      TrimmedIsReal(s);
      SettledAppend(log.undo, s);
      SettledCapped(log.undo + [s]);
    }
  }

  lemma TrimmedIsReal(s: EditRecord)
    requires !s.composing && Valid(s.removed) && Valid(s.inserted)
    requires NoSharedHead(s.removed, s.inserted) && !(s.removed == [] && s.inserted == [])
    ensures RealChange(s)
  {
    if s.removed == s.inserted {
      assert s.removed[..|s.removed|] == s.inserted[..|s.removed|];
      assert SharedPrefix(s.removed, s.inserted, |s.removed|);
    }
  }

  lemma SealStaysSettled(log: Log)
    requires Settled(log.undo)
    ensures Settled(SealedLast(log).undo) && SealedLast(log).redo == log.redo
  {
    hide Valid, NoSharedHead;
    if log.undo != [] {
      SettledInit(log.undo);
      SettledAppend(Init(log.undo), Last(log.undo).(isSealed := true));
    }
  }

  lemma FinalizeSettles(log: Log)
    requires OpenComposition(log) && Settled(Init(log.undo))
    ensures Settled(CompositionFinalized(log).undo)
  {
    hide Valid, NoSharedHead;
    var step := Closed(Last(log.undo));
    if step.removed != step.inserted {
      SettledAppend(Init(log.undo), step);
    }
  }

  lemma FinalizeOfSettled(log: Log)
    requires Settled(log.undo)
    ensures CompositionFinalized(log) == log
  {
    if log.undo != [] {
      SettledInit(log.undo);
    }
  }

  /** What recording a composition splice does to the stack when nothing is marked,
      and when something is: the fallback for a splice elsewhere is not reached. */
  lemma ComposeOpens(f: Field, range: Range, text: Bytes, now: int)
    requires Composed(f) && f.marked.None? && range.start <= range.end <= |f.content|
    ensures !OpenComposition(f.log)
    ensures var log := LogAfter(f, range, text, true, now);
      && OpenComposition(log) && log.redo == [] && Settled(Init(log.undo))
      && log.undo == Below(f.log.undo) + [Last(log.undo)]
      && InsideStep(Last(log.undo), Range(range.start, range.start + |text|))
      && Last(log.undo).selectionBefore == f.selected && Last(log.undo).selectionReversedBefore == f.reversed
  {
    hide RealChange;
    if f.log.undo != [] {
      SettledInit(f.log.undo);
      assert !OpenComposition(f.log) by { NotComposing(Last(f.log.undo)); }
    }
    SettledCapped(f.log.undo);
  }

  lemma NotComposing(s: EditRecord)
    requires RealChange(s)
    ensures !s.composing
  {
  }

  lemma ComposeAmends(f: Field, range: Range, text: Bytes, now: int)
    requires Composed(f) && f.marked.Some? && range.end <= |f.content|
    requires f.marked.value.start <= range.start <= range.end <= f.marked.value.end
    ensures InsideStep(Last(f.log.undo), range)
    ensures var log := LogAfter(f, range, text, true, now);
      && log == Log(WithLast(f.log.undo, Amended(Last(f.log.undo), range, text, now)), [])
      && OpenComposition(log) && Settled(Init(log.undo))
      && InsideStep(Last(log.undo), Range(range.start, range.start + |text|))
  {
    hide RealChange;
  }

  // ----- every call keeps the composition state

  lemma MarkStaysComposed(f: Field, c: Call)
    requires Sound(f) && Composed(f) && Permitted(f, c) && c.MarkText?
    ensures Composed(Act(f, c))
  {
    hide Valid, IsBoundary, Splice, LogAfter, MarkTarget, RealChange, InsideStep, Composed, Settled, OpenComposition,
         CompositionFinalized;
    MarkTargetIsSafe(f, c.range16);
    if !f.readOnly {
      var r := MarkTarget(f, c.range16);
      var log := LogAfter(f, r, c.text, true, c.now);
      if f.marked.None? {
        ComposeOpens(f, r, c.text, c.now);
      } else {
        ComposeAmends(f, r, c.text, c.now);
      }
      if c.text == [] {
        ClosedIsComposed(Act(f, c), log);
      } else {
        OpenIsComposed(Act(f, c));
      }
    }
  }

  lemma OpenIsComposed(f: Field)
    requires f.marked.Some? && OpenComposition(f.log) && f.log.redo == []
    requires InsideStep(Last(f.log.undo), f.marked.value) && Settled(Init(f.log.undo))
    ensures Composed(f)
  {
    hide InsideStep, Settled;
  }

  lemma ClosedIsComposed(f: Field, log: Log)
    requires f.marked.None? && f.log == CompositionFinalized(log)
    requires OpenComposition(log) && log.redo == [] && Settled(Init(log.undo))
    ensures Composed(f)
  {
    hide RealChange;
    FinalizeSettles(log);
  }

  /** A commit with nothing marked. */
  lemma PlainCommitSettles(f: Field, r: Range, text: Bytes, now: int)
    requires Sound(f) && Composed(f) && f.marked.None? && OnBoundaries(f.content, r) && Valid(text)
    ensures Settled(LogAfter(f, r, text, false, now).undo) && Settled(LogAfter(f, r, text, false, now).redo)
  {
    hide Valid, IsBoundary, Splice, SpliceRecorded, Trim, NoSharedHead, NoSharedTail, RealChange;
    var _, _ := TrimIsFaithful(f.content, r, text);
    RecordStaysSettled(f.log, Trim(f.content, r, text), f.selected, f.reversed, now);
  }

  /** A commit over marked text. */
  lemma MarkedCommitSettles(f: Field, r: Range, text: Bytes, now: int)
    requires Composed(f) && f.marked.Some? && r == f.marked.value && r.start <= r.end <= |f.content|
    ensures var log := CompositionFinalized(LogAfter(f, r, text, true, now)); Settled(log.undo) && log.redo == []
  {
    hide RealChange, InsideStep, CompositionRecorded;
    ComposeAmends(f, r, text, now);
    FinalizeSettles(LogAfter(f, r, text, true, now));
    FinalizedRedo(LogAfter(f, r, text, true, now));
  }

  lemma ReplaceTextStaysComposed(f: Field, c: Call)
    requires Sound(f) && Composed(f) && Permitted(f, c) && c.ReplaceText?
    ensures Composed(Act(f, c))
  {
    hide Valid, IsBoundary, Splice, LogAfter, RealChange, InsideStep, CompositionFinalized;
    CommitTargetIsSafe(f, c.range16);
    if !f.readOnly {
      var r := CommitTarget(f, c.range16);
      if f.marked.None? {
        PlainCommitSettles(f, r, c.text, c.now);
      } else {
        MarkedCommitSettles(f, r, c.text, c.now);
      }
    }
  }

  lemma FinalizedRedo(log: Log)
    ensures CompositionFinalized(log).redo == log.redo
  {
  }

  lemma UndoStaysSettled(f: Field)
    requires Composed(f)
    ensures Composed(AfterUndo(f)) && Composed(AfterRedo(f))
  {
    hide RealChange, HoldsAt, Splice;
    if !f.readOnly && f.marked.None? {
      if f.log.undo != [] {
        SettledInit(f.log.undo);
        SettledAppend(f.log.redo, Last(f.log.undo));
      }
      if f.log.redo != [] {
        SettledInit(f.log.redo);
        SettledAppend(f.log.undo, Last(f.log.redo));
      }
    }
  }

  lemma SealStaysComposed(f: Field)
    requires Composed(f)
    ensures Composed(f.(log := SealedLast(f.log)))
  {
    if f.marked.None? {
      SealStaysSettled(f.log);
    } else {
      hide RealChange;
    }
  }

  lemma ReplaceRangeStaysComposed(f: Field, range: Range, text: Bytes, now: int)
    requires Sound(f) && Composed(f) && Valid(text) && Considerate(f, ReplaceRange(range, text, now))
    ensures Composed(AfterReplaceRange(f, range, text, now))
  {
    hide Valid, IsBoundary, Splice, SpliceRecorded, Trim, NoSharedHead, NoSharedTail, RealChange, SealedLast;
    var r := Clipped(f, range);
    if !f.readOnly && OnBoundaries(f.content, r) {
      SealStaysSettled(f.log);
      var _, _ := TrimIsFaithful(f.content, r, text);
      RecordStaysSettled(SealedLast(f.log), Trim(f.content, r, text), f.selected, f.reversed, now);
      SealStaysSettled(Recorded(SealedLast(f.log), f.content, r, text, f.selected, f.reversed, now));
    }
  }

  lemma CallStaysComposed(f: Field, c: Call)
    requires Sound(f) && Composed(f) && Permitted(f, c) && Considerate(f, c)
    ensures Composed(Act(f, c))
  {
    hide Valid, IsBoundary, RealChange, SealedLast, CompositionFinalized, AfterReplaceRange, AfterReplaceText,
         AfterMarkText, AfterUndo, AfterRedo, InsideStep;
    match c {
      case ReplaceRange(range, text, now) => ReplaceRangeStaysComposed(f, range, text, now);
      case Unmark =>
        FinalizedRedo(f.log);
        if f.marked.Some? {
          FinalizeSettles(f.log);
        } else {
          FinalizeOfSettled(f.log);
        }
      case ReplaceText(_, _, _) => ReplaceTextStaysComposed(f, c);
      case MarkText(_, _, _, _) => MarkStaysComposed(f, c);
      case UndoCall => UndoStaysSettled(f);
      case RedoCall => UndoStaysSettled(f);
      case SealCall => SealStaysComposed(f);
      case _ =>
    }
  }

  /** A sealed step is never grown, only covered. */
  lemma RecordOverSealed(log: Log, content: Bytes, range: Range, text: Bytes, selection: Range, reversed: bool,
                         now: int)
    requires range.start <= range.end <= |content| && log.undo != [] && Last(log.undo).isSealed
    ensures var undo := Recorded(log, content, range, text, selection, reversed, now).undo;
      undo == log.undo || (|undo| >= 2 && undo[|undo| - 2] == Last(log.undo))
  {
    hide Trim;
  }

  lemma SealingKeepsFlags(log: Log, k: nat)
    requires k < |log.undo|
    ensures |SealedLast(log).undo| == |log.undo| && SealedLast(log).undo[k].composing == log.undo[k].composing
    ensures Last(SealedLast(log).undo).isSealed
  {
  }

  lemma StrandedStep(f: Field, range: Range, text: Bytes, now: int)
    requires Sound(f) && OpenComposition(f.log) && !f.readOnly && OnBoundaries(f.content, Clipped(f, range))
    ensures exists s :: s in AfterReplaceRange(f, range, text, now).log.undo && s.composing
  {
    hide Valid, IsBoundary, Splice, Recorded, SealedLast;
    var sealed := SealedLast(f.log);
    var n := |f.log.undo| - 1;
    SealingKeepsFlags(f.log, n);
    RecordOverSealed(sealed, f.content, Clipped(f, range), text, f.selected, f.reversed, now);
    var log := Recorded(sealed, f.content, Clipped(f, range), text, f.selected, f.reversed, now);
    var k := if log.undo == sealed.undo then n else |log.undo| - 2;
    assert log.undo[k].composing;
    SealingKeepsFlags(log, k);
    assert SealedLast(log).undo[k] in SealedLast(log).undo;
  }

  /** Exactly the considerate calls keep compositions whole: any other call drops the
      mark and leaves its step open on the stack. */
  lemma ExactlyTheConsiderate(f: Field, c: Call)
    requires Sound(f) && Composed(f) && Permitted(f, c)
    ensures Composed(Act(f, c)) <==> Considerate(f, c)
  {
    hide Valid, IsBoundary, AfterReplaceRange, AfterReplaceText, AfterMarkText, AfterUndo, AfterRedo, RealChange;
    if Considerate(f, c) {
      CallStaysComposed(f, c);
    } else if c.ReplaceRange? {
      StrandedStep(f, c.range, c.text, c.now);
      var s :| s in Act(f, c).log.undo && s.composing;
      assert !RealChange(s) by { if RealChange(s) { NotComposing(s); } }
      DropsMark(f, c.range, c.text, c.now);
    } else {
      var s := Last(f.log.undo);
      assert !RealChange(s) by { if RealChange(s) { NotComposing(s); } }
      assert s in Act(f, c).log.undo;
    }
  }

  lemma DropsMark(f: Field, range: Range, text: Bytes, now: int)
    requires !f.readOnly && OnBoundaries(f.content, Clipped(f, range))
    ensures AfterReplaceRange(f, range, text, now).marked.None?
  {
    hide Recorded, SealedLast, Splice, IsBoundary;
  }
}
