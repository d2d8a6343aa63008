/** Runs of the whole field. Its history denotes contents it showed, and a composition of
    any number of revisions is one undo step, or none when it nets no change. */
module FieldRuns {
  import opened Basics
  import opened Utf8
  import opened TrimmedSplice
  import opened EditHistory
  import opened HistoryLine
  import opened TextInput
  import opened TextInputRuns
  import opened Composition

  /** A field from its creation through any permitted calls. */
  ghost predicate IsFieldRun(run: seq<Field>, calls: seq<Call>) {
    && |run| == |calls| + 1
    && run[0] == EMPTY_FIELD
    && forall i :: 0 <= i < |calls| ==> CallLeads(run[i], calls[i], run[i + 1])
  }

  ghost predicate ConsiderateRun(run: seq<Field>, calls: seq<Call>) {
    |run| == |calls| + 1 &&
    forall i :: 0 <= i < |calls| ==> Considerate(run[i], calls[i])
  }

  function Shown(run: seq<Field>): set<Bytes> {
    set f | f in run :: f.content
  }

  lemma PrefixRun(run: seq<Field>, calls: seq<Call>)
    requires IsFieldRun(run, calls) && calls != []
    ensures |run| >= 2 && IsFieldRun(Init(run), Init(calls)) && Last(Init(run)) == run[|calls| - 1]
    ensures Permitted(run[|calls| - 1], Last(calls))
    ensures Sound(run[|calls| - 1]) ==> Last(run) == Act(run[|calls| - 1], Last(calls))
    ensures ConsiderateRun(run, calls) ==>
      ConsiderateRun(Init(run), Init(calls)) && Considerate(run[|calls| - 1], Last(calls))
    ensures Shown(run) == Shown(Init(run)) + {Last(run).content}
  {
    hide Permitted, Sound, Act, Considerate;
    var n := |calls| - 1;
    assert Last(calls) == calls[n];
    assert forall i :: 0 <= i < n ==> Init(calls)[i] == calls[i];
    assert run == Init(run) + [Last(run)];
  }

  /** In every run of the field the history denotes a line of contents it showed. */
  lemma {:induction false} FieldRunsCohere(run: seq<Field>, calls: seq<Call>) returns (line: Line)
    requires IsFieldRun(run, calls)
    ensures Coherent(Last(run), line)
    ensures OnlyHeld(line, Last(run).content, Shown(run))
    decreases |calls|
  {
    hide Valid, IsBoundary, Permitted, Act, Timeline, IsFieldRun, ConsiderateRun;
    if calls == [] {
      line := Line([], []);
      FirstField(run, calls);
      EmptyTimeline([]);
    } else {
      PrefixRun(run, calls);
      var line0 := FieldRunsCohere(Init(run), Init(calls));
      line := CallCoheres(Last(Init(run)), line0, Last(calls));
    }
  }

  lemma FirstField(run: seq<Field>, calls: seq<Call>)
    requires IsFieldRun(run, calls) && calls == []
    ensures Last(run) == EMPTY_FIELD && Last(run).content in Shown(run)
    ensures Sound(EMPTY_FIELD) && Composed(EMPTY_FIELD)
  {
    assert run[0] in run;
  }

  /** In every considerate run, marked text lies inside the one open step. */
  lemma {:induction false} ConsiderateRunsStayComposed(run: seq<Field>, calls: seq<Call>)
    requires IsFieldRun(run, calls) && ConsiderateRun(run, calls)
    ensures Composed(Last(run)) && Sound(Last(run))
    decreases |calls|
  {
    hide Valid, IsBoundary, Permitted, Act, Timeline, Composed, Sound, IsFieldRun, ConsiderateRun;
    if calls == [] {
      FirstField(run, calls);
    } else {
      PrefixRun(run, calls);
      ConsiderateRunsStayComposed(Init(run), Init(calls));
      var line := FieldRunsCohere(run, calls);
      CallStaysComposed(Last(Init(run)), Last(calls));
      SoundOfCoherent(Last(run), line);
    }
  }

  lemma SoundOfCoherent(f: Field, line: Line)
    requires Coherent(f, line)
    ensures Sound(f) && Timeline(f.log, line, f.content)
  {
  }

  /** The branch for a composition splice outside the open step is never taken: when
      one arrives, either no step is open or the open one contains it. */
  lemma FallbackUnreachable(run: seq<Field>, calls: seq<Call>, range16: Option<Range>)
    requires IsFieldRun(run, calls) && ConsiderateRun(run, calls) && Ordered(range16)
    ensures Sound(Last(run))
    ensures var f := Last(run);
      OpenComposition(f.log) ==>
        && f.marked.Some?
        && InsideStep(Last(f.log.undo), MarkTarget(f, range16))
        && InsideStep(Last(f.log.undo), CommitTarget(f, range16))
  {
    hide Valid, IsBoundary, RealChange, MarkTarget, ConsiderateRun;
    var f := Last(run);
    ConsiderateRunsStayComposed(run, calls);
    MarkTargetIsSafe(f, range16);
    if f.marked.None? && f.log.undo != [] {
      SettledInit(f.log.undo);
      NotComposing(Last(f.log.undo));
    }
  }

  /** A run that gets there all the same: the application sets, while text is marked, the very content
      the field has, which drops the mark and keeps the open step; the next marking starts outside it. */
  lemma FallbackReached(now: int)
    ensures exists run: seq<Field>, calls: seq<Call> ::
      && IsFieldRun(run, calls) && Sound(Last(run)) && OpenComposition(Last(run).log)
      && !InsideStep(Last(Last(run).log.undo), MarkTarget(Last(run), Some(Caret(0))))
  {
    var calls := [SetContent([0x61]), MarkText(None, [0x62], None, now), SetContent([0x61, 0x62])];
    var f1 := EMPTY_FIELD.(content := [0x61], selected := Caret(1));
    var step := EditRecord(1, [], [0x62], Caret(1), false, now, false, true);
    var f2 := Field([0x61, 0x62], Caret(2), false, Some(Range(1, 2)), false, Log([step], []));
    var f3 := f2.(marked := None);
    AsciiIsSafe();
    assert Act(EMPTY_FIELD, calls[0]) == f1;
    FirstMark(f1, now);
    hide Sound, OnBoundaries;
    assert Act(f2, calls[2]) == f3;
    assert IsFieldRun([EMPTY_FIELD, f1, f2, f3], calls);
    assert MarkTarget(f3, Some(Caret(0))) == Caret(0);
  }

  lemma FirstMark(f: Field, now: int)
    requires f == EMPTY_FIELD.(content := [0x61], selected := Caret(1))
    ensures Sound(f)
    ensures Act(f, MarkText(None, [0x62], None, now)) ==
      Field([0x61, 0x62], Caret(2), false, Some(Range(1, 2)), false,
            Log([EditRecord(1, [], [0x62], Caret(1), false, now, false, true)], []))
  {
    AsciiIsSafe();
    hide Valid;
    assert Splice([0x61], Caret(1), [0x62]) == [0x61, 0x62];
    var bytes: Bytes := [0x61];
    assert bytes[1..1] == [];
  }

  lemma AsciiIsSafe()
    ensures Valid([]) && Valid([0x61]) && Valid([0x62]) && Valid([0x61, 0x62])
  {
    ValidConcat([0x61], [0x62]);
    assert [0x61] + [0x62] == [0x61, 0x62];
  }

  /** In a considerate run no undo step is wasted: each undo shows a different content. */
  lemma UndoAlwaysChanges(run: seq<Field>, calls: seq<Call>)
    requires IsFieldRun(run, calls) && ConsiderateRun(run, calls)
    requires var f := Last(run); f.marked.None? && !f.readOnly && f.log.undo != []
    ensures AfterUndo(Last(run)).content != Last(run).content
    ensures AfterUndo(Last(run)).content in Shown(run)
  {
    hide Valid, IsBoundary, ConsiderateRun, Links, LeadTo, LeadOn, Undone;
    var f := Last(run);
    ConsiderateRunsStayComposed(run, calls);
    var line := FieldRunsCohere(run, calls);
    SettledInit(f.log.undo);
    NewestLink(f.log, line, f.content);
    UndoAlongTimeline(f.log, line, f.content);
    SameTextsSameContent(Last(f.log.undo), Last(line.past), f.content);
    assert Last(line.past) in line.past;
  }

  lemma SameTextsSameContent(step: EditRecord, before: Bytes, after: Bytes)
    requires Links(step, before, after)
    ensures step.removed == step.inserted <==> before == after
  {
    hide Valid, IsBoundary;
    LinkValid(step, before, after);
    assert |before| - |step.removed| == |after| - |step.inserted|;
  }

  // ----- a whole composition

  /** The composition begun at `base` is under way: one step more than `base` had,
      leading from its content to this one. */
  ghost predicate InProgress(base: Field, f: Field) {
    && f.marked.Some? && Sound(f) && Composed(f)
    && f.log.undo == Below(base.log.undo) + [Last(f.log.undo)]
    && Links(Last(f.log.undo), base.content, f.content)
    && Last(f.log.undo).selectionBefore == base.selected
    && Last(f.log.undo).selectionReversedBefore == base.reversed
  }

  /** The composition begun at `base` is over. No net change: the undo stack is as it
      was (but for the oldest step at the cap). A change: one step more, and one undo
      shows the content, the selection and the direction of `base`. */
  ghost predicate Finished(base: Field, f: Field) {
    && f.marked.None? && f.log.redo == []
    && if f.content == base.content then f.log.undo == Below(base.log.undo)
       else
         && f.log.undo != [] && Init(f.log.undo) == Below(base.log.undo)
         && var undone := AfterUndo(f.(readOnly := false));
            undone.content == base.content && undone.selected == base.selected && undone.reversed == base.reversed
  }

  ghost predicate Progressed(base: Field, f: Field) {
    if f.marked.Some? then InProgress(base, f) else Finished(base, f)
  }

  /** Closing the step of a composition in progress finishes it. */
  lemma CloseFinishes(base: Field, f: Field, log: Log)
    requires log.redo == [] && OpenComposition(log) && log.undo == Below(base.log.undo) + [Last(log.undo)]
    requires Links(Last(log.undo), base.content, f.content)
    requires Last(log.undo).selectionBefore == base.selected && Last(log.undo).selectionReversedBefore == base.reversed
    requires f.marked.None? && f.log == CompositionFinalized(log)
    ensures Finished(base, f)
  {
    hide Valid, IsBoundary, Links, HoldsAt, Splice;
    var step := Last(log.undo);
    SameTextsSameContent(step, base.content, f.content);
    LinkEnds(step, base.content, f.content);
    LinkValid(step, base.content, f.content);
    assert Init(log.undo) == Below(base.log.undo);
  }

  lemma FreshCompositionLinks(f: Field, r: Range, text: Bytes, now: int)
    requires Sound(f) && Composed(f) && f.marked.None? && OnBoundaries(f.content, r) && Valid(text)
    ensures OpenComposition(LogAfter(f, r, text, true, now))
    ensures Links(Last(LogAfter(f, r, text, true, now).undo), f.content, Splice(f.content, r, text))
  {
    hide Valid, IsBoundary, Splice, Links, Composed;
    ComposeOpens(f, r, text, now);
    SpliceLinks(f.content, r, text, f.selected, f.reversed, now);
  }

  /** The first call of a composition. */
  lemma CompositionStarts(base: Field, line: Line, c: Call)
    requires Coherent(base, line) && Composed(base) && base.marked.None? && !base.readOnly
    requires c.MarkText? && Permitted(base, c)
    ensures Progressed(base, Act(base, c))
  {
    hide Valid, IsBoundary, Splice, Links, LogAfter, MarkTarget, Timeline, CompositionFinalized, Composed, AfterUndo,
         Below, InsideStep;
    var r := MarkTarget(base, c.range16);
    MarkTargetIsSafe(base, c.range16);
    ComposeOpens(base, r, c.text, c.now);
    FreshCompositionLinks(base, r, c.text, c.now);
    var f, log := Act(base, c), LogAfter(base, r, c.text, true, c.now);
    if c.text == [] {
      CloseFinishes(base, f, log);
    } else {
      var line' := CallCoheres(base, line, c);
      CallStaysComposed(base, c);
    }
  }

  /** A splice over marked text grows the same step from the same earlier content. */
  lemma AmendContinues(base: Field, f: Field, r: Range, text: Bytes, now: int)
    requires InProgress(base, f) && OnBoundaries(f.content, r) && Valid(text)
    requires f.marked.value.start <= r.start && r.end <= f.marked.value.end
    ensures var log := LogAfter(f, r, text, true, now);
      && log.redo == [] && OpenComposition(log) && log.undo == Below(base.log.undo) + [Last(log.undo)]
      && Links(Last(log.undo), base.content, Splice(f.content, r, text))
      && Last(log.undo).selectionBefore == base.selected && Last(log.undo).selectionReversedBefore == base.reversed
  {
    var step := Last(f.log.undo);
    hide Valid, IsBoundary, Splice, Links, LogAfter, Composed, Below, Sound;
    ComposeAmends(f, r, text, now);
    AmendedLinks(step, base.content, f.content, r, text, now);
    assert Init(f.log.undo) == Below(base.log.undo);
  }

  lemma MarkContinues(base: Field, f: Field, line: Line, c: Call)
    requires InProgress(base, f) && Coherent(f, line) && Permitted(f, c) && c.MarkText?
    ensures Progressed(base, Act(f, c))
  {
    hide Valid, IsBoundary, Splice, Links, LogAfter, MarkTarget, Timeline, CompositionFinalized, Composed, AfterUndo,
         Below;
    MarkTargetIsSafe(f, c.range16);
    if !f.readOnly {
      var r := MarkTarget(f, c.range16);
      AmendContinues(base, f, r, c.text, c.now);
      if c.text == [] {
        CloseFinishes(base, Act(f, c), LogAfter(f, r, c.text, true, c.now));
      } else {
        var line' := CallCoheres(f, line, c);
        CallStaysComposed(f, c);
      }
    }
  }

  lemma CommitContinues(base: Field, f: Field, c: Call)
    requires InProgress(base, f) && Permitted(f, c) && c.ReplaceText?
    ensures Progressed(base, Act(f, c))
  {
    hide Valid, IsBoundary, Splice, Links, LogAfter, CompositionFinalized, AfterUndo, Below, Composed;
    CommitTargetIsSafe(f, c.range16);
    if !f.readOnly {
      var r := CommitTarget(f, c.range16);
      AmendContinues(base, f, r, c.text, c.now);
      CloseFinishes(base, Act(f, c), LogAfter(f, r, c.text, true, c.now));
    }
  }

  lemma OtherContinues(base: Field, f: Field, line: Line, c: Call)
    requires InProgress(base, f) && Coherent(f, line) && Permitted(f, c)
    requires c.Unmark? || c.UndoCall? || c.RedoCall? || c.SealCall? || c.Select? || c.SetReadOnly?
    ensures Progressed(base, Act(f, c))
  {
    hide Valid, IsBoundary, Links, CompositionFinalized, Timeline, Below, RealChange;
    if c.Unmark? {
      CloseFinishes(base, Act(f, c), f.log);
    } else if c.SealCall? {
      RelabelledLinks(Last(f.log.undo), Last(f.log.undo).(isSealed := true), base.content, f.content);
    }
  }

  /** Every further call while text is marked. */
  lemma CompositionContinues(base: Field, f: Field, line: Line, c: Call)
    requires InProgress(base, f) && Coherent(f, line) && Permitted(f, c) && !Programmatic(c)
    ensures Progressed(base, Act(f, c))
  {
    hide InProgress, Progressed, Coherent, Permitted, Act;
    match c {
      case MarkText(_, _, _, _) => MarkContinues(base, f, line, c);
      case ReplaceText(_, _, _) => CommitContinues(base, f, c);
      case _ => OtherContinues(base, f, line, c);
    }
  }

  /** `fs` is a composition from `fs[0]`: a first marking call, then any calls but the
      application's own edits, with text marked after every call but perhaps the last. */
  ghost predicate IsComposition(fs: seq<Field>, calls: seq<Call>) {
    && |fs| == |calls| + 1 && calls != [] && calls[0].MarkText? && !fs[0].readOnly && fs[0].marked.None?
    && (forall i :: 0 <= i < |calls| ==> !Programmatic(calls[i]) && CallLeads(fs[i], calls[i], fs[i + 1]))
    && (forall i :: 0 < i < |calls| ==> fs[i].marked.Some?)
  }

  /** A whole composition, of any number of revisions, is one undo step or none. */
  lemma {:induction false} WholeComposition(fs: seq<Field>, calls: seq<Call>, line: Line) returns (line': Line)
    requires IsComposition(fs, calls) && Coherent(fs[0], line) && Composed(fs[0])
    ensures Progressed(fs[0], Last(fs)) && Coherent(Last(fs), line')
    decreases |calls|
  {
    hide Progressed, Coherent, Permitted, Act, Composed, Sound;
    var n := |calls| - 1;
    SoundIfCoherent(fs[0], line);
    assert Last(calls) == calls[n] && Last(fs) == fs[n + 1];
    if n == 0 {
      CompositionStarts(fs[0], line, calls[0]);
      line' := CallCoheres(fs[0], line, calls[0]);
    } else {
      assert IsComposition(Init(fs), Init(calls)) by {
        assert forall i :: 0 <= i < n ==> Init(calls)[i] == calls[i];
        assert forall i :: 0 <= i <= n ==> Init(fs)[i] == fs[i];
      }
      var line0 := WholeComposition(Init(fs), Init(calls), line);
      assert Last(Init(fs)) == fs[n];
      SoundIfCoherent(fs[n], line0);
      StillInProgress(fs[0], fs[n]);
      CompositionContinues(fs[0], fs[n], line0, calls[n]);
      line' := CallCoheres(fs[n], line0, calls[n]);
    }
  }

  lemma SoundIfCoherent(f: Field, line: Line)
    requires Coherent(f, line)
    ensures Sound(f)
  {
  }

  lemma StillInProgress(base: Field, f: Field)
    requires Progressed(base, f) && f.marked.Some?
    ensures InProgress(base, f)
  {
  }
}
