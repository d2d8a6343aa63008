/** What the undo history denotes. The two stacks, as compressed as they are, spell out
    one line of contents with the current content somewhere on it: every operation
    keeps them so, and undo and redo move along the line. */
module HistoryLine {
  import opened Basics
  import opened Utf8
  import opened TrimmedSplice
  import opened EditHistory

  /** `pre` and `post` are what the step left alone on its way from `before` to `after`. */
  ghost predicate Around(step: EditRecord, pre: Bytes, post: Bytes, before: Bytes, after: Bytes) {
    Describes(Trimmed(step.start, step.removed, step.inserted), pre, post, before, after)
  }

  /** The step turns `before` into `after`, and its stored selection fits `before`. */
  ghost predicate Links(step: EditRecord, before: Bytes, after: Bytes) {
    && OnBoundaries(before, step.selectionBefore)
    && exists pre, post :: Around(step, pre, post, before, after)
  }

  /** The contents a log can reach: `past[i]` is what `undo[i]` started from, and
      `future[j]` is what `redo[j]` leads to. */
  datatype Line = Line(past: seq<Bytes>, future: seq<Bytes>)

  /** The undo steps lead through `past`, oldest first, to `content`. */
  ghost predicate LeadTo(undo: seq<EditRecord>, past: seq<Bytes>, content: Bytes) {
    && |past| == |undo|
    && (undo != [] ==>
          && Links(Last(undo), Last(past), content)
          && LeadTo(Init(undo), Init(past), Last(past)))
  }

  /** The redo steps lead from `content` through `future`, nearest last. */
  ghost predicate LeadOn(redo: seq<EditRecord>, future: seq<Bytes>, content: Bytes) {
    && |future| == |redo|
    && (redo != [] ==>
          && Links(Last(redo), content, Last(future))
          && LeadOn(Init(redo), Init(future), Last(future)))
  }

  ghost predicate Timeline(log: Log, line: Line, content: Bytes) {
    && Valid(content)
    && LeadTo(log.undo, line.past, content)
    && LeadOn(log.redo, line.future, content)
  }

  /** Everything on the line, the current content included, is among `held`. */
  ghost predicate OnlyHeld(line: Line, content: Bytes, held: set<Bytes>) {
    && content in held
    && (forall c :: c in line.past ==> c in held)
    && (forall c :: c in line.future ==> c in held)
  }

  predicate WithinCap(log: Log) {
    |log.undo| + |log.redo| <= UNDO_HISTORY_CAP
  }

  // ----- one step

  lemma AroundHolds(step: EditRecord, pre: Bytes, post: Bytes, before: Bytes, after: Bytes)
    requires Around(step, pre, post, before, after)
    ensures HoldsAt(before, step.start, step.removed) && HoldsAt(after, step.start, step.inserted)
    ensures Splice(before, Range(step.start, step.start + |step.removed|), step.inserted) == after
    ensures Splice(after, Range(step.start, step.start + |step.inserted|), step.removed) == before
    ensures Valid(before) && Valid(after)
  {
    HoldsInMiddle(pre, step.removed, post, step.inserted);
    HoldsInMiddle(pre, step.inserted, post, step.removed);
  }

  lemma HoldsInMiddle(pre: Bytes, mid: Bytes, post: Bytes, other: Bytes)
    requires Valid(pre) && Valid(mid) && Valid(post)
    ensures Valid(pre + mid + post) && HoldsAt(pre + mid + post, |pre|, mid)
    ensures Splice(pre + mid + post, Range(|pre|, |pre| + |mid|), other) == pre + other + post
  {
    hide Valid, IsBoundary;
    ValidThreeParts(pre, mid, post);
    var whole := pre + mid + post;
    assert whole[|pre|..|pre| + |mid|] == mid && whole[..|pre|] == pre && whole[|pre| + |mid|..] == post;
  }

  lemma SameAround(pre: Bytes, mid: Bytes, post: Bytes, pre2: Bytes, mid2: Bytes, post2: Bytes)
    requires pre + mid + post == pre2 + mid2 + post2
    ensures |pre| == |pre2| && |mid| == |mid2| ==> pre == pre2 && mid == mid2 && post == post2
  {
    var whole, whole2 := pre + mid + post, pre2 + mid2 + post2;
    var i, j := |pre|, |pre| + |mid|;
    assert whole[..i] == pre && whole[i..j] == mid && whole[j..] == post;
    if |pre| == |pre2| && |mid| == |mid2| {
      assert whole2[..i] == pre2 && whole2[i..j] == mid2 && whole2[j..] == post2;
    }
  }

  lemma LinkValid(step: EditRecord, before: Bytes, after: Bytes)
    requires Links(step, before, after)
    ensures Valid(before) && Valid(after)
    ensures HoldsAt(before, step.start, step.removed) && HoldsAt(after, step.start, step.inserted)
    ensures Splice(before, Range(step.start, step.start + |step.removed|), step.inserted) == after
    ensures Splice(after, Range(step.start, step.start + |step.inserted|), step.removed) == before
  {
    var pre, post :| Around(step, pre, post, before, after);
    AroundHolds(step, pre, post, before, after);
  }

  lemma LinkEnds(step: EditRecord, before: Bytes, after: Bytes)
    requires Links(step, before, after)
    ensures Valid(before) && Valid(after)
    ensures OnBoundaries(before, step.selectionBefore)
  {
    hide HoldsAt, Valid, Splice, IsBoundary;
    LinkValid(step, before, after);
  }

  /** A step grown in place leads from the content before the first of its edits
      straight to the content after the last. */
  lemma CoalescedLinks(last: EditRecord, before: Bytes, content: Bytes, t: Trimmed, pre: Bytes, post: Bytes,
                       after: Bytes, now: int)
    requires Links(last, before, content) && Describes(t, pre, post, content, after)
    requires Coalesced(last, t, now).Some?
    ensures Links(Coalesced(last, t, now).value, before, after)
  {
    hide Valid, IsBoundary;
    var p, q :| Around(last, p, q, before, content);
    var step := Coalesced(last, t, now).value;
    if t.removed == [] && last.inserted != [] && t.start == last.start + |last.inserted| {
      SameAround(p + last.inserted, [], q, pre, [], post);
      ValidConcat(last.inserted, t.inserted);
      assert after == p + (last.inserted + t.inserted) + q;
      assert Around(step, p, q, before, after);
    } else if t.start + |t.removed| == last.start {
      SameAround(p, [], q, pre + t.removed, [], post);
      ValidConcat(t.removed, last.removed);
      assert before == pre + (t.removed + last.removed) + post;
      assert Around(step, pre, post, before, after);
    } else {
      assert content == p + q;
      assert content == pre + (t.removed + post);
      SameAround(p, [], q, pre, [], t.removed + post);
      ValidConcat(last.removed, t.removed);
      assert before == pre + (last.removed + t.removed) + post;
      assert Around(step, pre, post, before, after);
    }
  }

  /** Amending the open composition: still one step from the same earlier content. */
  lemma AmendedLinks(last: EditRecord, before: Bytes, content: Bytes, range: Range, newText: Bytes, now: int)
    requires Links(last, before, content) && InsideStep(last, range)
    requires OnBoundaries(content, range) && Valid(newText)
    ensures Links(Amended(last, range, newText, now), before, Splice(content, range, newText))
  {
    hide Links, Around, Valid, IsBoundary, Splice;
    var p, q := LinkParts(last, before, content);
    AroundAmended(last, p, q, before, content, range, newText, now);
    PartsLink(Amended(last, range, newText, now), p, q, before, Splice(content, range, newText));
  }

  lemma LinkParts(step: EditRecord, before: Bytes, after: Bytes) returns (pre: Bytes, post: Bytes)
    requires Links(step, before, after)
    ensures Around(step, pre, post, before, after) && OnBoundaries(before, step.selectionBefore)
  {
    hide Around, OnBoundaries;
    pre, post :| Around(step, pre, post, before, after);
  }

  lemma PartsLink(step: EditRecord, pre: Bytes, post: Bytes, before: Bytes, after: Bytes)
    requires Around(step, pre, post, before, after) && OnBoundaries(before, step.selectionBefore)
    ensures Links(step, before, after)
  {
    hide Around, OnBoundaries;
  }

  lemma AroundAmended(last: EditRecord, pre: Bytes, post: Bytes, before: Bytes, content: Bytes,
                      range: Range, newText: Bytes, now: int)
    requires Around(last, pre, post, before, content) && InsideStep(last, range)
    requires OnBoundaries(content, range) && Valid(newText)
    ensures Around(Amended(last, range, newText, now), pre, post, before, Splice(content, range, newText))
  {
    hide Valid, IsBoundary, Splice, HoldsAt;
    var local := Range(range.start - last.start, range.end - last.start);
    LocalTarget(last, pre, post, before, content, range);
    ValidSplice(last.inserted, local, newText);
    SpliceInMiddle(pre, last.inserted, post, local, newText);
  }

  lemma LocalTarget(last: EditRecord, pre: Bytes, post: Bytes, before: Bytes, content: Bytes, range: Range)
    requires Around(last, pre, post, before, content) && InsideStep(last, range) && OnBoundaries(content, range)
    ensures OnBoundaries(last.inserted, Range(range.start - last.start, range.end - last.start))
  {
    hide Around, HoldsAt, Valid, IsBoundary, Splice;
    AroundHolds(last, pre, post, before, content);
    LocalRange(content, last.start, last.inserted, range);
  }

  lemma LocalRange(content: Bytes, start: nat, text: Bytes, range: Range)
    requires HoldsAt(content, start, text) && OnBoundaries(content, range)
    requires start <= range.start && range.end <= start + |text|
    ensures OnBoundaries(text, Range(range.start - start, range.end - start))
  {
    BoundaryInSlice(content, start, start + |text|, range.start);
    BoundaryInSlice(content, start, start + |text|, range.end);
  }

  lemma SpliceInMiddle(pre: Bytes, mid: Bytes, post: Bytes, r: Range, text: Bytes)
    requires r.start <= r.end <= |mid|
    ensures Splice(pre + mid + post, Range(|pre| + r.start, |pre| + r.end), text) == pre + Splice(mid, r, text) + post
  {
    CutInMiddle(pre, mid, post, r.start);
    CutInMiddle(pre, mid, post, r.end);
    FiveParts(pre, mid[..r.start], text, mid[r.end..], post);
  }

  lemma CutInMiddle(pre: Bytes, mid: Bytes, post: Bytes, i: nat)
    requires i <= |mid|
    ensures (pre + mid + post)[..|pre| + i] == pre + mid[..i]
    ensures (pre + mid + post)[|pre| + i..] == mid[i..] + post
  {
  }

  lemma FiveParts(a: Bytes, b: Bytes, c: Bytes, d: Bytes, e: Bytes)
    ensures (a + b) + c + (d + e) == a + (b + c + d) + e
  {
  }

  /** A freshly pushed composition step. */
  lemma SpliceLinks(content: Bytes, range: Range, newText: Bytes, selection: Range, reversed: bool, now: int)
    requires Valid(content) && OnBoundaries(content, range) && Valid(newText) && OnBoundaries(content, selection)
    ensures Links(EditRecord(range.start, content[range.start..range.end], newText, selection, reversed, now, false,
                             true), content, Splice(content, range, newText))
  {
    hide Valid, IsBoundary, Splice, Links;
    var step := EditRecord(range.start, content[range.start..range.end], newText, selection, reversed, now, false,
                           true);
    ValidSlice(content, range);
    ValidSplit(content, range.start);
    ValidSplit(content, range.end);
    CutAround(content, range, newText);
    PartsLink(step, content[..range.start], content[range.end..], content, Splice(content, range, newText));
  }

  lemma CutAround(content: Bytes, range: Range, newText: Bytes)
    requires range.start <= range.end <= |content|
    ensures content == content[..range.start] + content[range.start..range.end] + content[range.end..]
    ensures Splice(content, range, newText) == content[..range.start] + newText + content[range.end..]
    ensures |content[..range.start]| == range.start
  {
  }

  /** `text` stands at byte `start`. */
  ghost predicate Stands(content: Bytes, start: nat, text: Bytes) {
    exists pre, post :: content == pre + text + post && |pre| == start
  }

  /** Where the newest step's text does not stand in the content, undo, or redo, changes nothing but to drop
      the whole history. */
  lemma MisfitDropsHistory(log: Log, content: Bytes)
    ensures log.undo != [] && !Stands(content, Last(log.undo).start, Last(log.undo).inserted) ==>
      Undone(log, content) == (Log([], []), None)
    ensures log.redo != [] && !Stands(content, Last(log.redo).start, Last(log.redo).removed) ==>
      Redone(log, content) == (Log([], []), None)
  {
    hide IsBoundary;
    if log.undo != [] {
      HeldStands(content, Last(log.undo).start, Last(log.undo).inserted);
    }
    if log.redo != [] {
      HeldStands(content, Last(log.redo).start, Last(log.redo).removed);
    }
  }

  lemma HeldStands(content: Bytes, start: nat, text: Bytes)
    ensures HoldsAt(content, start, text) ==> Stands(content, start, text)
  {
    hide IsBoundary;
    if HoldsAt(content, start, text) {
      assert content == content[..start] + text + content[start + |text|..];
    }
  }

  // ----- the whole log

  lemma LeadToPushed(undo: seq<EditRecord>, past: seq<Bytes>, content: Bytes, step: EditRecord, after: Bytes)
    requires LeadTo(undo, past, content) && Links(step, content, after)
    ensures LeadTo(undo + [step], past + [content], after)
  {
    hide Links;
    assert Init(undo + [step]) == undo && Init(past + [content]) == past;
  }

  lemma LeadOnPushed(redo: seq<EditRecord>, future: seq<Bytes>, content: Bytes, step: EditRecord, before: Bytes)
    requires LeadOn(redo, future, content) && Links(step, before, content)
    ensures LeadOn(redo + [step], future + [content], before)
  {
    hide Links;
    assert Init(redo + [step]) == redo && Init(future + [content]) == future;
  }

  /** Dropping the oldest steps shortens the line at its far end. */
  lemma {:induction false} LeadToDropped(undo: seq<EditRecord>, past: seq<Bytes>, content: Bytes, k: nat)
    requires LeadTo(undo, past, content) && k <= |undo|
    ensures LeadTo(undo[k..], past[k..], content)
  {
    hide Links;
    if k < |undo| {
      LeadToDropped(Init(undo), Init(past), Last(past), k);
      assert Init(undo[k..]) == Init(undo)[k..] && Init(past[k..]) == Init(past)[k..];
    }
  }

  lemma SameLength(undo: seq<EditRecord>, past: seq<Bytes>, content: Bytes)
    requires LeadTo(undo, past, content)
    ensures |past| == |undo|
  {
  }

  lemma NothingAhead(content: Bytes)
    ensures LeadOn([], [], content)
  {
  }

  lemma NewestLink(log: Log, line: Line, content: Bytes)
    requires Timeline(log, line, content) && log.undo != []
    ensures line.past != [] && Links(Last(log.undo), Last(line.past), content)
    ensures LeadTo(Init(log.undo), Init(line.past), Last(line.past)) && Valid(Last(line.past))
  {
    LinkEnds(Last(log.undo), Last(line.past), content);
  }

  lemma NearestLink(log: Log, line: Line, content: Bytes)
    requires Timeline(log, line, content) && log.redo != []
    ensures line.future != [] && Links(Last(log.redo), content, Last(line.future))
    ensures LeadOn(Init(log.redo), Init(line.future), Last(line.future)) && Valid(Last(line.future))
  {
    LinkEnds(Last(log.redo), content, Last(line.future));
  }

  /** Everything undone is forgotten and `after` is pushed as the newest content. */
  lemma PushKeepsTimeline(log: Log, line: Line, content: Bytes, step: EditRecord, after: Bytes) returns (line': Line)
    requires Timeline(log, line, content) && Links(step, content, after)
    ensures Timeline(Log(Capped(log.undo + [step]), []), line', after)
    ensures line'.future == [] && forall c :: c in line'.past ==> c in line.past || c == content
  {
    hide Links, Valid, LeadTo, LeadOn, IsBoundary;
    SameLength(log.undo, line.past, content);
    LinkEnds(step, content, after);
    LeadToPushed(log.undo, line.past, content, step, after);
    var k := |log.undo| + 1 - |Capped(log.undo + [step])|;
    LeadToDropped(log.undo + [step], line.past + [content], after, k);
    line' := Line((line.past + [content])[k..], []);
    assert LeadOn([], [], after) by { NothingAhead(after); }
  }

  /** Everything undone is forgotten and the newest step is replaced by one that
      leads from the same earlier content to `after`. */
  lemma ReplaceKeepsTimeline(log: Log, line: Line, content: Bytes, step: EditRecord, after: Bytes)
    requires Timeline(log, line, content) && log.undo != [] && Links(step, Last(line.past), after)
    ensures Timeline(Log(WithLast(log.undo, step), []), Line(line.past, []), after)
  {
    hide Links, Valid, LeadTo, IsBoundary;
    NewestLink(log, line, content);
    LinkEnds(step, Last(line.past), after);
    LeadToPushed(Init(log.undo), Init(line.past), Last(line.past), step, after);
    assert Init(line.past) + [Last(line.past)] == line.past;
  }

  /** Recording a trimmed splice that leads from `content` to `after`. */
  lemma RecordKeepsTimeline(log: Log, line: Line, content: Bytes, t: Trimmed, pre: Bytes, post: Bytes, after: Bytes,
                            selection: Range, reversed: bool, now: int) returns (line': Line)
    requires Timeline(log, line, content) && Describes(t, pre, post, content, after) && OnBoundaries(content, selection)
    requires (t.removed == [] && t.inserted == []) <==> after == content
    ensures Timeline(SpliceRecorded(log, t, selection, reversed, now), line', after)
    ensures forall c :: c in line'.past ==> c in line.past || c == content
    ensures line'.future == [] || (line' == line && after == content)
  {
    hide Valid, IsBoundary, Coalesced, Links, LeadTo, LeadOn;
    if t.removed == [] && t.inserted == [] {
      line' := line;
    } else if log.undo != [] && Coalesced(Last(log.undo), t, now).Some? {
      var step := Coalesced(Last(log.undo), t, now).value;
      NewestLink(log, line, content);
      CoalescedLinks(Last(log.undo), Last(line.past), content, t, pre, post, after, now);
      ReplaceKeepsTimeline(log, line, content, step, after);
      line' := Line(line.past, []);
    } else {
      var step := EditRecord(t.start, t.removed, t.inserted, selection, reversed, now, false, false);
      FreshLinks(step, pre, post, content, after);
      line' := PushKeepsTimeline(log, line, content, step, after);
    }
  }

  lemma FreshLinks(step: EditRecord, pre: Bytes, post: Bytes, before: Bytes, after: Bytes)
    requires OnBoundaries(before, step.selectionBefore) && Around(step, pre, post, before, after)
    ensures Links(step, before, after)
  {
  }

  lemma ComposeKeepsTimeline(log: Log, line: Line, content: Bytes, range: Range, newText: Bytes,
                             selection: Range, reversed: bool, now: int) returns (line': Line)
    requires Timeline(log, line, content)
    requires OnBoundaries(content, range) && Valid(newText) && OnBoundaries(content, selection)
    ensures Timeline(CompositionRecorded(log, content, range, newText, selection, reversed, now), line',
                     Splice(content, range, newText))
    ensures line'.future == [] && forall c :: c in line'.past ==> c in line.past || c == content
  {
    hide Valid, IsBoundary, Amended, Splice, Links, LeadTo, LeadOn;
    var after := Splice(content, range, newText);
    if OpenComposition(log) && InsideStep(Last(log.undo), range) {
      NewestLink(log, line, content);
      AmendedLinks(Last(log.undo), Last(line.past), content, range, newText, now);
      ReplaceKeepsTimeline(log, line, content, Amended(Last(log.undo), range, newText, now), after);
      line' := Line(line.past, []);
    } else {
      var kept := log;
      if OpenComposition(log) {
        kept := log.(undo := WithLast(log.undo, Closed(Last(log.undo))));
        RelabelKeepsTimeline(log, line, content, Closed(Last(log.undo)));
      }
      SpliceLinks(content, range, newText, selection, reversed, now);
      var step := EditRecord(range.start, content[range.start..range.end], newText, selection, reversed, now, false,
                             true);
      line' := PushKeepsTimeline(kept, line, content, step, after);
    }
  }

  /** The flags and the time stamp of a step say nothing about contents. */
  ghost predicate SameEdit(a: EditRecord, b: EditRecord) {
    a == b.(editedAt := a.editedAt, isSealed := a.isSealed, composing := a.composing)
  }

  lemma RelabelledLinks(step: EditRecord, other: EditRecord, before: Bytes, after: Bytes)
    requires Links(step, before, after) && SameEdit(other, step)
    ensures Links(other, before, after)
  {
    hide Valid, IsBoundary;
    var pre, post :| Around(step, pre, post, before, after);
    assert Around(other, pre, post, before, after);
  }

  lemma RelabelKeepsTimeline(log: Log, line: Line, content: Bytes, step: EditRecord)
    requires Timeline(log, line, content) && log.undo != [] && SameEdit(step, Last(log.undo))
    ensures Timeline(log.(undo := WithLast(log.undo, step)), line, content)
  {
    hide Valid, Links;
    RelabelledLinks(Last(log.undo), step, Last(line.past), content);
    LeadToPushed(Init(log.undo), Init(line.past), Last(line.past), step, content);
    assert Init(line.past) + [Last(line.past)] == line.past;
  }

  lemma SealKeepsTimeline(log: Log, line: Line, content: Bytes)
    requires Timeline(log, line, content)
    ensures Timeline(SealedLast(log), line, content)
  {
    hide Timeline;
    if log.undo != [] {
      RelabelKeepsTimeline(log, line, content, Last(log.undo).(isSealed := true));
    }
  }

  /** A step whose two texts are equal changes nothing, so dropping it is safe. */
  lemma FinalizeKeepsTimeline(log: Log, line: Line, content: Bytes) returns (line': Line)
    requires Timeline(log, line, content)
    ensures Timeline(CompositionFinalized(log), line', content)
    ensures line' == line || (line.past != [] && line' == line.(past := Init(line.past)))
  {
    hide Valid, Links, HoldsAt;
    line' := line;
    if OpenComposition(log) {
      var step := Last(log.undo);
      if step.removed == step.inserted {
        LinkValid(step, Last(line.past), content);
        assert Last(line.past) == content by {
          HoldsAtSplice(content, step.start, step.inserted);
        }
        line' := line.(past := Init(line.past));
      } else {
        RelabelKeepsTimeline(log, line, content, Closed(step));
      }
    }
  }

  lemma HoldsAtSplice(content: Bytes, start: nat, text: Bytes)
    requires HoldsAt(content, start, text)
    ensures Splice(content, Range(start, start + |text|), text) == content
  {
  }

  /** Undo steps back along the line: its guard never fails, the clamps on the
      selection never bite, and the content it returns is the one before. */
  lemma UndoAlongTimeline(log: Log, line: Line, content: Bytes)
    requires Timeline(log, line, content) && log.undo != []
    ensures var (log', result) := Undone(log, content);
      && log' == Log(Init(log.undo), log.redo + [Last(log.undo)])
      && result == Some(Restored(Last(line.past), Last(log.undo).selectionBefore,
                                 Last(log.undo).selectionReversedBefore))
      && OnBoundaries(Last(line.past), Last(log.undo).selectionBefore)
      && Timeline(log', Line(Init(line.past), line.future + [content]), Last(line.past))
  {
    hide Links, Valid, HoldsAt, Splice, IsBoundary, LeadTo, LeadOn;
    NewestLink(log, line, content);
    var step := Last(log.undo);
    LinkEnds(step, Last(line.past), content);
    LinkValid(step, Last(line.past), content);
    LeadOnPushed(log.redo, line.future, content, step, Last(line.past));
  }

  /** Redo steps forward along the line; its guard never fails either. */
  lemma RedoAlongTimeline(log: Log, line: Line, content: Bytes)
    requires Timeline(log, line, content) && log.redo != []
    ensures var (log', result) := Redone(log, content);
      && log' == Log(log.undo + [Last(log.redo)], Init(log.redo))
      && result.Some? && result.value.content == Last(line.future)
      && OnBoundaries(result.value.content, result.value.selection)
      && Timeline(log', Line(line.past + [content], Init(line.future)), Last(line.future))
  {
    hide Links, Valid, HoldsAt, Splice, LeadTo, LeadOn;
    NearestLink(log, line, content);
    var step := Last(log.redo);
    LinkValid(step, content, Last(line.future));
    CaretOnBoundary(Last(line.future), step.start, step.inserted);
    LeadToPushed(log.undo, line.past, content, step, Last(line.future));
  }

  lemma CaretOnBoundary(content: Bytes, start: nat, text: Bytes)
    requires HoldsAt(content, start, text)
    ensures OnBoundaries(content, Range(start + |text|, start + |text|))
  {
  }
}
