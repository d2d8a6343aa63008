/** What the text field shows after each call: its text, its selection and its mark, said by the pieces
    of the text from before. */
module FieldShows {
  import opened Basics
  import opened Utf8
  import opened TrimmedSplice
  import opened EditHistory
  import opened HistoryLine
  import opened Utf16Offsets
  import opened TextInput
  import opened TextInputRuns
  import opened GestureRuns

  /** The bytes of `mid` when `pre` stands before it. */
  function Place(pre: Bytes, mid: Bytes): Range {
    Range(|pre|, |pre| + |mid|)
  }

  /** The UTF-16 range of `mid` when `pre` stands before it. */
  function Place16(pre: Bytes, mid: Bytes): Range
    requires Valid(pre) && Valid(mid)
  {
    Range(Utf16Len(pre), Utf16Len(pre) + Utf16Len(mid))
  }

  /** The field shows the pieces one after the other, all of them whole characters. */
  ghost predicate Pieces(f: Field, pre: Bytes, mid: Bytes, post: Bytes) {
    Sound(f) && f.content == pre + mid + post && Valid(pre) && Valid(mid) && Valid(post)
  }

  lemma PlaceIsSafe(f: Field, pre: Bytes, mid: Bytes, post: Bytes)
    requires Pieces(f, pre, mid, post)
    ensures OnBoundaries(f.content, Place(pre, mid))
  {
    hide Valid, IsBoundary, Sound;
    ValidThreeParts(pre, mid, post);
  }

  lemma SpliceOfPieces(pre: Bytes, mid: Bytes, post: Bytes, text: Bytes)
    ensures Splice(pre + mid + post, Place(pre, mid), text) == pre + text + post
  {
    var s := pre + mid + post;
    assert s[..|pre|] == pre && s[|pre| + |mid|..] == post;
  }

  // ----- UTF-16

  lemma {:induction false} Utf16OfConcat(a: Bytes, b: Bytes)
    requires Valid(a) && Valid(b)
    ensures Valid(a + b) && Utf16Len(a + b) == Utf16Len(a) + Utf16Len(b)
    decreases |a|
  {
    ValidConcat(a, b);
    if a == [] {
      assert a + b == b;
    } else {
      HeadOfConcat(a, b);
      hide CharLen;
      Utf16OfConcat(a[CharLen(a)..], b);
    }
  }

  /** Counting a text's code units and converting the count gives its end. */
  lemma EndOfText(s: Bytes, a: Bytes, b: Bytes)
    requires Valid(a) && Valid(b) && s == a + b
    ensures Valid(s) && ToUtf16(s, |a|) == Utf16Len(a) && FromUtf16(s, Utf16Len(a)) == |a|
  {
    hide Valid, IsBoundary, ToUtf16, FromUtf16, Utf16Len;
    ValidConcat(a, b);
    Seam(a, b);
    ToUtf16Counts(s, |a|);
    RoundTrip(s, |a|);
    assert s[..|a|] == a;
  }

  lemma EndAt(s: Bytes, a: Bytes, b: Bytes, units: nat, end: nat)
    requires Valid(a) && Valid(b) && s == a + b && units == Utf16Len(a) && end == |a|
    ensures Valid(s) && FromUtf16(s, units) == end && ToUtf16(s, end) == units
  {
    hide *;
    EndOfText(s, a, b);
  }

  /** The two ends of `b`, counted in code units and in bytes. */
  lemma TwoEnds(s: Bytes, a: Bytes, b: Bytes, c: Bytes, units: nat, end: nat)
    requires Valid(a) && Valid(b) && Valid(c) && s == a + b + c
    requires units == Utf16Len(a) + Utf16Len(b) && end == |a| + |b|
    ensures Valid(s) && FromUtf16(s, Utf16Len(a)) == |a| && ToUtf16(s, |a|) == Utf16Len(a)
    ensures FromUtf16(s, units) == end
  {
    ValidConcat(b, c);
    Utf16OfConcat(a, b);
    Associates(a, b, c);
    hide *;
    var bc, ab := b + c, a + b;
    EndAt(s, a, bc, Utf16Len(a), |a|);
    EndAt(s, ab, c, units, end);
  }

  lemma PlaceFromUtf16(s: Bytes, pre: Bytes, mid: Bytes, post: Bytes)
    requires Valid(pre) && Valid(mid) && Valid(post) && s == pre + mid + post
    ensures Valid(s) && RangeFromUtf16(s, Place16(pre, mid)) == Place(pre, mid)
  {
    hide Valid, ToUtf16, FromUtf16, Utf16Len;
    TwoEnds(s, pre, mid, post, Place16(pre, mid).end, Place(pre, mid).end);
  }

  /** A range counted from behind `pre` is the place of `mid` in what follows. */
  lemma PlaceFromRelative(s: Bytes, pre: Bytes, a: Bytes, mid: Bytes, post: Bytes)
    requires Valid(pre) && Valid(a) && Valid(mid) && Valid(post) && s == pre + a + mid + post
    ensures Valid(s) && RangeFromRelativeUtf16(s, |pre|, Place16(a, mid)) == Place(pre + a, mid)
  {
    RelativeStart(s, pre, a, mid, post);
    Utf16OfConcat(pre, a);
    var r, before, base16 := Place16(a, mid), pre + a, Utf16Len(pre);
    var start, end := base16 + r.start, base16 + r.end;
    hide Place, Place16, Valid, ToUtf16, FromUtf16, Utf16Len, RangeFromRelativeUtf16, IsBoundary;
    RelativeEnds(s, before, mid, post, start, end, Place(before, mid));
    RelativeIs(s, |pre|, r, start, end);
  }

  lemma RelativeIs(s: Bytes, base: nat, r: Range, start: nat, end: nat)
    requires Valid(s) && start == ToUtf16(s, base) + r.start && end == ToUtf16(s, base) + r.end
    ensures RangeFromRelativeUtf16(s, base, r) == Range(FromUtf16(s, start), FromUtf16(s, end))
  {
    hide ToUtf16, FromUtf16;
  }

  lemma RelativeEnds(s: Bytes, a: Bytes, b: Bytes, c: Bytes, start: nat, end: nat, place: Range)
    requires Valid(a) && Valid(b) && Valid(c) && s == a + b + c && place == Place(a, b)
    requires start == Utf16Len(a) && end == Utf16Len(a) + Utf16Len(b)
    ensures Valid(s) && FromUtf16(s, start) == place.start && FromUtf16(s, end) == place.end
  {
    TwoEnds(s, a, b, c, end, place.end);
  }

  lemma RelativeStart(s: Bytes, pre: Bytes, a: Bytes, mid: Bytes, post: Bytes)
    requires Valid(pre) && Valid(a) && Valid(mid) && Valid(post) && s == pre + a + mid + post
    ensures Valid(s) && ToUtf16(s, |pre|) == Utf16Len(pre)
  {
    ValidConcat(mid, post);
    ValidConcat(a, mid + post);
    Associates(pre + a, mid, post);
    Associates(pre, a, mid + post);
    hide *;
    EndAt(s, pre, a + (mid + post), Utf16Len(pre), |pre|);
  }

  // ----- the application's edits

  /** A replaced range shows the new text in its place, with the caret behind it and nothing marked. */
  lemma ReplaceRangeShows(f: Field, pre: Bytes, mid: Bytes, post: Bytes, text: Bytes, now: int)
    requires Pieces(f, pre, mid, post) && !f.readOnly
    ensures var after := AfterReplaceRange(f, Place(pre, mid), text, now);
      && after.content == pre + text + post
      && after.selected == Caret(|pre + text|) && !after.reversed && after.marked.None? && !after.readOnly
  {
    hide Valid, IsBoundary, Splice, Recorded, SealedLast, Sound;
    PlaceIsSafe(f, pre, mid, post);
    SpliceOfPieces(pre, mid, post, text);
  }

  /** Ends beyond the text count as its end; a read-only field, a range that cuts a character and one that ends
      before it starts leave everything as it is. */
  lemma ReplaceRangeClips(f: Field, range: Range, text: Bytes, now: int)
    requires Sound(f)
    ensures var clipped := Range(Min(range.start, |f.content|), Min(range.end, |f.content|));
      && AfterReplaceRange(f, range, text, now) == AfterReplaceRange(f, clipped, text, now)
      && (f.readOnly || clipped.start > clipped.end
          || !IsBoundary(f.content, clipped.start) || !IsBoundary(f.content, clipped.end) ==>
            AfterReplaceRange(f, range, text, now) == f)
  {
    hide Valid, IsBoundary, Splice, Recorded, SealedLast;
  }

  /** It is a sealed step of its own, whatever came before; one undo gives back content and selection, and no
      later edit joins it. */
  lemma ReplaceRangeIsOneStep(f: Field, pre: Bytes, mid: Bytes, post: Bytes, text: Bytes, now: int)
    requires Writable(f) && Pieces(f, pre, mid, post) && Valid(text) && mid != text
    ensures var after := AfterReplaceRange(f, Place(pre, mid), text, now);
      && after.log.undo != [] && Last(after.log.undo).isSealed
      && (forall t, later :: StartsAnew(after.log, t, later))
      && AfterUndo(after) == f.(log := Log(Below(SealedLast(f.log).undo), [Last(after.log.undo)]))
  {
    hide Valid, IsBoundary, Splice, Trim, SpliceRecorded, NoSharedHead, NoSharedTail, Below;
    var r := Place(pre, mid);
    var sealed := f.(log := SealedLast(f.log), selected := f.selected);
    PlaceIsSafe(f, pre, mid, post);
    var p, q := TrimIsFaithful(f.content, r, text);
    var t := Trim(f.content, r, text);
    SpliceOfPieces(pre, mid, post, text);
    assert Splice(f.content, r, text) != f.content by { DifferentInMiddle(pre, mid, post, text); }
    SealStartsAnew(f.log, t, now);
    StepPushed(sealed, t, now);
    var step := FirstStep(f, t, now);
    var after := AfterReplaceRange(f, r, text, now);
    LastOfPush(Below(SealedLast(f.log).undo), step);
    assert after.log == Log(Below(SealedLast(f.log).undo) + [step.(isSealed := true)], []);
    CaretIsSafe(f.content, r, text);
    SealedStepUndoes(f, after, step.(isSealed := true), p, q);
  }

  /** So is a paste over the selection, when it changes something. */
  lemma PasteIsOneStep(f: Field, pre: Bytes, mid: Bytes, post: Bytes, text: Bytes, now: int)
    requires Writable(f) && Pieces(f, pre, mid, post) && f.selected == Place(pre, mid) && Valid(text)
    ensures var after := AfterPaste(f, text, now);
      && after.content == pre + text + post && after.selected == Caret(|pre + text|) && after.marked.None?
      && (mid != text ==>
            && after.log.undo != [] && Last(after.log.undo).isSealed
            && (forall t, later :: StartsAnew(after.log, t, later))
            && AfterUndo(after) == f.(log := Log(Below(SealedLast(f.log).undo), [Last(after.log.undo)])))
  {
    hide Valid, IsBoundary, Splice, Trim, SpliceRecorded, NoSharedHead, NoSharedTail, Below, AfterReplaceText,
         AfterUndo,
         SealedLast, Around, Coalesced;
    var sealed := f.(log := SealedLast(f.log));
    var r := Place(pre, mid);
    PlainCommit(sealed, text, now);
    SpliceOfPieces(pre, mid, post, text);
    var after := AfterPaste(f, text, now);
    if mid != text {
      var p, q := TrimIsFaithful(f.content, r, text);
      var t := Trim(f.content, r, text);
      DifferentInMiddle(pre, mid, post, text);
      SealStartsAnew(f.log, t, now);
      StepPushed(sealed, t, now);
      var step := FirstStep(f, t, now);
      SealedPush(Below(SealedLast(f.log).undo), step);
      CaretIsSafe(f.content, r, text);
      AroundSealed(step, p, q, f.content, after.content);
      SealedStepUndoes(f, after, step.(isSealed := true), p, q);
    }
  }

  lemma SealedPush(below: seq<EditRecord>, step: EditRecord)
    ensures SealedLast(Log(below + [step], [])) == Log(below + [step.(isSealed := true)], [])
  {
    LastOfPush(below, step);
  }

  lemma AroundSealed(step: EditRecord, pre: Bytes, post: Bytes, before: Bytes, after: Bytes)
    requires Describes(Trimmed(step.start, step.removed, step.inserted), pre, post, before, after)
    ensures Around(step.(isSealed := true), pre, post, before, after)
  {
  }

  lemma DifferentInMiddle(pre: Bytes, mid: Bytes, post: Bytes, text: Bytes)
    requires mid != text
    ensures pre + mid + post != pre + text + post
  {
    var s, t := pre + mid + post, pre + text + post;
    assert s[|pre|..|pre| + |mid|] == mid && t[|pre|..|pre| + |text|] == text;
    assert |s| == |t| ==> |mid| == |text|;
  }

  lemma SealStartsAnew(log: Log, t: Trimmed, now: int)
    ensures StartsAnew(SealedLast(log), t, now)
  {
  }

  lemma SealedStepUndoes(from: Field, f: Field, step: EditRecord, pre: Bytes, post: Bytes)
    requires Writable(from) && Sound(f) && !f.readOnly && f.marked.None?
    requires f.log == Log(Below(SealedLast(from.log).undo) + [step], []) && step.isSealed
    requires Around(step, pre, post, from.content, f.content)
    requires step.selectionBefore == from.selected && step.selectionReversedBefore == from.reversed
    ensures AfterUndo(f) == from.(log := Log(Below(SealedLast(from.log).undo), [step]))
    ensures Last(f.log.undo) == step && forall t, later :: StartsAnew(f.log, t, later)
  {
    hide Valid, IsBoundary, HoldsAt, Splice, Around, Below, SealedLast;
    AroundHolds(step, pre, post, from.content, f.content);
    LastOfPush(Below(SealedLast(from.log).undo), step);
    assert [] + [step] == [step];
  }

  /** A loaded content is what is shown, with the caret at its end; a different one starts a new history. */
  lemma SetContentShows(f: Field, text: Bytes)
    ensures var after := AfterSetContent(f, text);
      && after.content == text && after.selected == Caret(|text|) && !after.reversed && after.marked.None?
      && (text == f.content ==> after.log == f.log)
      && (text != f.content ==> AfterUndo(after) == after && AfterRedo(after) == after)
      && AfterClear(f) == AfterSetContent(f, [])
  {
    hide HoldsAt;
  }

  // ----- commits

  /** With nothing marked, a commit over a UTF-16 range replaces the text that lies there. */
  lemma CommitShows(f: Field, pre: Bytes, mid: Bytes, post: Bytes, text: Bytes, now: int)
    requires Writable(f) && Pieces(f, pre, mid, post)
    ensures var range16 := Some(Place16(pre, mid));
      && CommitTarget(f, range16) == Place(pre, mid) && |pre + mid| <= |f.content|
      && var after := AfterReplaceText(f, range16, text, now);
         && after.content == pre + text + post && after.selected == Caret(|pre + text|) && after.marked.None?
         && after.reversed == f.reversed && !after.readOnly
         && after.reversed == f.reversed && !after.readOnly
  {
    hide Valid, IsBoundary, Splice, Recorded, RangeFromUtf16, Utf16Len;
    PlaceFromUtf16(f.content, pre, mid, post);
    SpliceOfPieces(pre, mid, post, text);
  }

  /** With text marked it replaces the marked text, whatever range is given. */
  lemma CommitOverMarkShows(f: Field, range16: Option<Range>, pre: Bytes, mid: Bytes, post: Bytes, text: Bytes,
                            now: int)
    requires Pieces(f, pre, mid, post) && !f.readOnly && f.marked == Some(Place(pre, mid))
    ensures CommitTarget(f, range16) == Place(pre, mid) && |pre + mid| <= |f.content|
    ensures var after := AfterReplaceText(f, range16, text, now);
      && after.content == pre + text + post && after.selected == Caret(|pre + text|) && after.marked.None?
      && after.reversed == f.reversed && !after.readOnly
  {
    hide Valid, IsBoundary, Splice, CompositionRecorded, CompositionFinalized;
    SpliceOfPieces(pre, mid, post, text);
  }

  /** Ending a composition without a commit leaves what is shown. */
  lemma UnmarkShows(f: Field)
    ensures var after := AfterUnmark(f);
      after == f.(marked := None, log := after.log)
  {
    hide CompositionFinalized;
  }

  // ----- marking

  /** What a marking call over `mid` shows: the new text in its place and marked, unless it is empty. */
  ghost predicate Marks(after: Field, pre: Bytes, text: Bytes, post: Bytes) {
    && after.content == pre + text + post
    && after.marked == if text == [] then None else Some(Place(pre, text))
  }

  lemma MarkOverShows(f: Field, range16: Option<Range>, pre: Bytes, mid: Bytes, post: Bytes, text: Bytes,
                      selection16: Option<Range>, now: int)
    requires Pieces(f, pre, mid, post) && !f.readOnly && Valid(text)
    requires MarkTarget(f, range16) == Place(pre, mid)
    ensures |pre + mid| <= |f.content| && Valid(Splice(f.content, MarkTarget(f, range16), text))
    ensures var after := AfterMarkText(f, range16, text, selection16, now);
      && Marks(after, pre, text, post) && after.readOnly == f.readOnly && after.reversed == f.reversed
      && (selection16.None? ==> after.selected == Caret(|pre + text|))
      && (selection16.Some? ==> after.selected == RangeFromRelativeUtf16(pre + text + post, |pre|, selection16.value))
  {
    hide Valid, IsBoundary, Splice, LogAfter, CompositionFinalized, MarkTarget, RangeFromRelativeUtf16;
    SpliceOfPieces(pre, mid, post, text);
    PlaceIsSafe(f, pre, mid, post);
    ValidSplice(f.content, Place(pre, mid), text);
  }

  /** With nothing marked and no range, the selection is the target; a UTF-16 range is the text that lies there. */
  lemma MarkTargetAfresh(f: Field, pre: Bytes, mid: Bytes, post: Bytes)
    requires Pieces(f, pre, mid, post) && f.marked.None?
    ensures MarkTarget(f, Some(Place16(pre, mid))) == Place(pre, mid)
    ensures MarkTarget(f, None) == f.selected
  {
    hide Valid, IsBoundary, Utf16Len;
    PlaceFromUtf16(f.content, pre, mid, post);
  }

  /** With text marked and no range, all of the marked text is the target. A range counts from the start of the
      mark, and picks out the part of the marked text that lies there. */
  lemma MarkTargetInMark(f: Field, pre: Bytes, a: Bytes, mid: Bytes, b: Bytes, post: Bytes)
    requires Pieces(f, pre, a + mid + b, post) && Valid(a) && Valid(mid) && Valid(b)
    requires f.marked == Some(Place(pre, a + mid + b))
    ensures MarkTarget(f, None) == Place(pre, a + mid + b)
    ensures MarkTarget(f, Some(Place16(a, mid))) == Place(pre + a, mid)
  {
    hide Valid, IsBoundary, Utf16Len, RangeFromRelativeUtf16;
    ValidConcat(b, post);
    Rejoined(pre, a, mid, b, post);
    PlaceFromRelative(f.content, pre, a, mid, b + post);
  }

  lemma Rejoined(pre: Bytes, a: Bytes, mid: Bytes, b: Bytes, post: Bytes)
    ensures pre + (a + mid + b) + post == pre + a + mid + (b + post)
  {
  }

  /** An end at or past the marked text's last code unit is the end of the mark. */
  lemma MarkTargetPastMark(f: Field, pre: Bytes, mark: Bytes, post: Bytes, start: nat, end: nat)
    requires Pieces(f, pre, mark, post) && f.marked == Some(Place(pre, mark))
    requires start <= end && Utf16Len(mark) <= end
    ensures MarkTarget(f, Some(Range(start, end))).end == |pre + mark|
  {
    hide Valid, IsBoundary, Utf16Len, FromUtf16, ToUtf16;
    ValidConcat(pre, mark);
    ValidConcat(mark, post);
    Utf16OfConcat(pre, mark);
    Associates(pre, mark, post);
    EndOfText(f.content, pre, mark + post);
    EndOfText(f.content, pre + mark, post);
    FromUtf16Monotone(f.content, Utf16Len(pre + mark), Utf16Len(pre) + end);
  }

  /** The selection given with a marking counts from the start of the new text, and picks out the part of it
      that lies there. */
  lemma MarkSelects(f: Field, range16: Option<Range>, pre: Bytes, mid: Bytes, post: Bytes,
                    a: Bytes, chosen: Bytes, b: Bytes, now: int)
    requires Pieces(f, pre, mid, post) && !f.readOnly && MarkTarget(f, range16) == Place(pre, mid)
    requires Valid(a) && Valid(chosen) && Valid(b)
    ensures var text := a + chosen + b;
      && Valid(text) && |pre + mid| <= |f.content| && Valid(Splice(f.content, MarkTarget(f, range16), text))
      && AfterMarkText(f, range16, text, Some(Place16(a, chosen)), now).selected == Place(pre + a, chosen)
  {
    hide Valid, IsBoundary, Splice, Utf16Len, MarkTarget, RangeFromRelativeUtf16, AfterMarkText;
    ValidThreeParts(a, chosen, b);
    ValidConcat(b, post);
    MarkOverShows(f, range16, pre, mid, post, a + chosen + b, Some(Place16(a, chosen)), now);
    Rejoined(pre, a, chosen, b, post);
    PlaceFromRelative(pre + (a + chosen + b) + post, pre, a, chosen, b + post);
  }

  // ----- a whole composition

  /** A composition as an input method makes it: a first marking call, then revisions with no range. */
  ghost predicate IsMarking(fs: seq<Field>, calls: seq<Call>) {
    && |fs| == |calls| + 1 && calls != []
    && Writable(fs[0]) && (forall i :: 0 <= i < |calls| ==> calls[i].MarkText? && CallLeads(fs[i], calls[i], fs[i + 1]))
    && (forall i :: 0 < i < |calls| ==> calls[i].range16.None?)
    && (forall i :: 0 <= i < |calls| - 1 ==> calls[i].text != [])
  }

  /** The field during a composition over the place of `mid` in `pre + mid + post`. */
  ghost predicate Shows(f: Field, pre: Bytes, text: Bytes, post: Bytes) {
    Pieces(f, pre, text, post) && !f.readOnly && Marks(f, pre, text, post)
  }

  lemma MarkCallShows(f: Field, c: Call, next: Field, pre: Bytes, mid: Bytes, post: Bytes)
    requires Pieces(f, pre, mid, post) && !f.readOnly && c.MarkText? && CallLeads(f, c, next)
    requires MarkTarget(f, c.range16) == Place(pre, mid)
    ensures Shows(next, pre, c.text, post)
  {
    hide Valid, IsBoundary, MarkTarget, AfterMarkText;
    assert Permitted(f, c);
    MarkOverShows(f, c.range16, pre, mid, post, c.text, c.selection16, c.now);
    MarkStaysSound(f, c, next);
  }

  lemma MarkStaysSound(f: Field, c: Call, next: Field)
    requires Sound(f) && !f.readOnly && c.MarkText? && CallLeads(f, c, next)
    ensures Sound(next) && !next.readOnly
  {
    hide Valid, IsBoundary, Splice, MarkTarget, LogAfter, CompositionFinalized, RangeFromRelativeUtf16;
    MarkTargetIsSafe(f, c.range16);
    var r := MarkTarget(f, c.range16);
    CaretIsSafe(f.content, r, c.text);
    if c.selection16.Some? {
      RelativeRangesAreSafe(Splice(f.content, r, c.text), r.start, c.selection16.value);
    }
  }

  /** However often the text is revised, the field shows its last form in place of what the first call
      replaced, and exactly that is marked. */
  lemma {:induction false} MarkingShowsLast(fs: seq<Field>, calls: seq<Call>, pre: Bytes, mid: Bytes, post: Bytes)
    requires IsMarking(fs, calls) && Pieces(fs[0], pre, mid, post)
    requires MarkTarget(fs[0], calls[0].range16) == Place(pre, mid)
    ensures Shows(Last(fs), pre, Last(calls).text, post)
    decreases |calls|
  {
    hide Valid, Pieces, Shows, CallLeads, MarkTarget, Writable, Place;
    var n := |calls| - 1;
    assert Last(fs) == fs[n + 1] && Last(calls) == calls[n];
    if n == 0 {
      WritableIs(fs[0]);
      MarkCallShows(fs[0], calls[0], fs[1], pre, mid, post);
    } else {
      MarkingPrefix(fs, calls);
      MarkingShowsLast(Init(fs), Init(calls), pre, mid, post);
      ShownIsTarget(fs[n], pre, calls[n - 1].text, post);
      MarkCallShows(fs[n], calls[n], fs[n + 1], pre, calls[n - 1].text, post);
    }
  }

  lemma WritableIs(f: Field)
    requires Writable(f)
    ensures !f.readOnly && f.marked.None?
  {
  }

  lemma ShownIsTarget(f: Field, pre: Bytes, text: Bytes, post: Bytes)
    requires Shows(f, pre, text, post) && text != []
    ensures Pieces(f, pre, text, post) && !f.readOnly && MarkTarget(f, None) == Place(pre, text)
    ensures f.marked == Some(Place(pre, text))
  {
    hide Valid, IsBoundary;
  }

  lemma MarkingPrefix(fs: seq<Field>, calls: seq<Call>)
    requires IsMarking(fs, calls) && |calls| > 1
    ensures IsMarking(Init(fs), Init(calls)) && Init(calls)[0] == calls[0] && Init(fs)[0] == fs[0]
    ensures Last(Init(fs)) == fs[|calls| - 1] && Last(Init(calls)) == calls[|calls| - 2]
  {
    hide Writable, CallLeads;
    var n := |calls| - 1;
    assert forall i :: 0 <= i <= n ==> Init(fs)[i] == fs[i];
    assert forall i :: 0 <= i < n ==> Init(calls)[i] == calls[i];
  }

  /** And the commit that ends it shows the committed text there instead, with nothing marked. */
  lemma CompositionShowsCommit(fs: seq<Field>, calls: seq<Call>, pre: Bytes, mid: Bytes, post: Bytes,
                               range16: Option<Range>, text: Bytes, now: int, next: Field)
    requires IsMarking(fs, calls) && Pieces(fs[0], pre, mid, post) && Last(calls).text != []
    requires MarkTarget(fs[0], calls[0].range16) == Place(pre, mid)
    requires CallLeads(Last(fs), ReplaceText(range16, text, now), next)
    ensures next.content == pre + text + post && next.selected == Caret(|pre + text|) && next.marked.None?
  {
    MarkingShowsLast(fs, calls, pre, mid, post);
    ShownIsTarget(Last(fs), pre, Last(calls).text, post);
    hide Valid, IsBoundary, MarkTarget, AfterReplaceText, IsMarking, Shows;
    assert Permitted(Last(fs), ReplaceText(range16, text, now));
    CommitOverMarkShows(Last(fs), range16, pre, Last(calls).text, post, text, now);
  }
}
