/** What the undo history groups: typing, however long and whatever it replaces, is one step, and so is
    any mix of backspaces and deletes. One undo gives the field back as the first of these edits found it. */
module GestureRuns {
  import opened Basics
  import opened Utf8
  import opened TrimmedSplice
  import opened EditHistory
  import opened HistoryLine
  import opened TextInput
  import opened TextInputRuns

  /** The input method is idle and the field takes input. */
  predicate Writable(f: Field) {
    Sound(f) && !f.readOnly && f.marked.None?
  }

  /** Each edit comes within the group interval of the one before. */
  predicate InOneGo(times: seq<int>) {
    forall i :: 0 < i < |times| ==> Elapsed(times[i], times[i - 1]) < UNDO_GROUP_INTERVAL
  }

  /** That is less than 300 milliseconds, or a clock that went back. */
  lemma InTimeIs(now: int, earlier: int)
    ensures Elapsed(now, earlier) < UNDO_GROUP_INTERVAL <==> now - earlier < 300
  {
  }

  /** The splice does not grow the step before it. */
  predicate StartsAnew(log: Log, t: Trimmed, now: int) {
    log.undo == [] || Coalesced(Last(log.undo), t, now).None?
  }

  /** What replacing the selection by `text` records. */
  function OverSelection(f: Field, text: Bytes): Trimmed
    requires Sound(f)
  {
    Trim(f.content, f.selected, text)
  }

  // ----- one gesture, one step

  /** Since `from` the field gained one step, which leads from that content to this one and holds the
      selection and the direction of `from`. */
  ghost predicate OneStep(from: Field, f: Field, step: EditRecord, pre: Bytes, post: Bytes) {
    && Writable(f)
    && f.log == Log(Below(from.log.undo) + [step], [])
    && Around(step, pre, post, from.content, f.content)
    && step.selectionBefore == from.selected && step.selectionReversedBefore == from.reversed
    && !step.isSealed && !step.composing
  }

  /** One undo then gives back that field: its content, its selection, its direction, and the steps below. */
  lemma GestureUndoes(from: Field, f: Field, step: EditRecord, pre: Bytes, post: Bytes)
    requires Writable(from) && OneStep(from, f, step, pre, post)
    ensures AfterUndo(f) == from.(log := Log(Below(from.log.undo), [step]))
  {
    hide Valid, IsBoundary, HoldsAt, Splice, Around, Below;
    AroundHolds(step, pre, post, from.content, f.content);
    LastOfPush(Below(from.log.undo), step);
    assert [] + [step] == [step];
  }

  /** And redo brings the gesture back, with the caret behind its text. */
  lemma GestureRedoes(from: Field, f: Field, step: EditRecord, pre: Bytes, post: Bytes)
    requires Writable(from) && OneStep(from, f, step, pre, post)
    requires f.selected == Caret(step.start + |step.inserted|)
    ensures AfterRedo(AfterUndo(f)) == f.(reversed := false)
  {
    hide Valid, IsBoundary, HoldsAt, Splice, Around, Below, AfterUndo;
    GestureUndoes(from, f, step, pre, post);
    AroundHolds(step, pre, post, from.content, f.content);
    assert Last([step]) == step && Init([step]) == [];
  }

  lemma LastOfPush(below: seq<EditRecord>, step: EditRecord)
    ensures Last(below + [step]) == step && Init(below + [step]) == below
    ensures forall other :: WithLast(below + [step], other) == below + [other]
  {
  }

  // ----- one edit

  /** An edit at the selection, with nothing marked. */
  lemma PlainCommit(f: Field, text: Bytes, now: int)
    requires Writable(f)
    ensures OnBoundaries(f.content, f.selected) && CommitTarget(f, None) == f.selected
    ensures AfterReplaceText(f, None, text, now)
         == f.(content := Splice(f.content, f.selected, text), selected := Caret(f.selected.start + |text|),
               log := SpliceRecorded(f.log, OverSelection(f, text), f.selected, f.reversed, now))
  {
    hide Valid, IsBoundary, Trim, SpliceRecorded, Splice;
  }

  lemma CommitStaysWritable(f: Field, text: Bytes, now: int)
    requires Writable(f) && Valid(text)
    ensures CommitTarget(f, None) == f.selected
    ensures Writable(AfterReplaceText(f, None, text, now))
  {
    hide Valid, IsBoundary, Splice, AfterReplaceText;
    PlainCommit(f, text, now);
    CaretIsSafe(f.content, f.selected, text);
  }

  /** The step a new gesture begins with. */
  function FirstStep(f: Field, t: Trimmed, now: int): EditRecord {
    EditRecord(t.start, t.removed, t.inserted, f.selected, f.reversed, now, false, false)
  }

  lemma StepPushed(f: Field, t: Trimmed, now: int)
    requires StartsAnew(f.log, t, now) && !(t.removed == [] && t.inserted == [])
    ensures SpliceRecorded(f.log, t, f.selected, f.reversed, now) == Log(Below(f.log.undo) + [FirstStep(f, t, now)], [])
  {
    hide Coalesced;
  }

  lemma StepGrown(log: Log, below: seq<EditRecord>, step: EditRecord, t: Trimmed, selection: Range, reversed: bool,
                  now: int)
    requires log.undo == below + [step] && !(t.removed == [] && t.inserted == []) && Coalesced(step, t, now).Some?
    ensures SpliceRecorded(log, t, selection, reversed, now) == Log(below + [Coalesced(step, t, now).value], [])
  {
    hide Coalesced;
    LastOfPush(below, step);
  }

  /** A new gesture's first edit, when it changes something. */
  lemma FirstEdit(f: Field, text: Bytes, now: int) returns (pre: Bytes, post: Bytes)
    requires Writable(f) && Valid(text) && StartsAnew(f.log, OverSelection(f, text), now)
    requires !(OverSelection(f, text).removed == [] && OverSelection(f, text).inserted == [])
    ensures CommitTarget(f, None) == f.selected
    ensures OneStep(f, AfterReplaceText(f, None, text, now), FirstStep(f, OverSelection(f, text), now), pre, post)
  {
    hide Valid, IsBoundary, Splice, Trim, AfterReplaceText, StartsAnew, SpliceRecorded, NoSharedHead, NoSharedTail,
         Below, Describes;
    PlainCommit(f, text, now);
    CommitStaysWritable(f, text, now);
    StepPushed(f, OverSelection(f, text), now);
    pre, post := TrimIsFaithful(f.content, f.selected, text);
  }

  // ----- typing

  function Concat(texts: seq<Bytes>): Bytes {
    if texts == [] then [] else Concat(Init(texts)) + Last(texts)
  }

  /** Text after text into a writable field, each where the one before ended. */
  ghost predicate IsTyping(fs: seq<Field>, texts: seq<Bytes>, times: seq<int>) {
    && |fs| == |texts| + 1 && |times| == |texts| && texts != []
    && Writable(fs[0]) && InOneGo(times)
    && forall i :: 0 <= i < |texts| ==>
         texts[i] != [] && CallLeads(fs[i], ReplaceText(None, texts[i], times[i]), fs[i + 1])
  }

  /** What the first text records ends in new text, so that the next can go on from there: its own text is
      not all shared with the front of what it replaces, and none of it with the rest's end. */
  predicate Carries(f: Field, text: Bytes)
    requires Sound(f)
  {
    var t := OverSelection(f, text);
    t.inserted != [] && t.start + |t.inserted| == f.selected.start + |text|
  }

  /** The typing done so far: the first text and `more`, in one step. */
  ghost predicate Typed(from: Field, first: Bytes, more: Bytes, f: Field, step: EditRecord, pre: Bytes, post: Bytes)
    requires Sound(from)
  {
    && OneStep(from, f, step, pre, post)
    && f.content == Splice(from.content, from.selected, first + more)
    && f.selected == Caret(from.selected.start + |first + more|)
    && var t := OverSelection(from, first);
       step.start == t.start && step.removed == t.removed && step.inserted == t.inserted + more
  }

  /** The step that typing `first` and `more` over the selection of `from` leaves, last edited at `last`. */
  function TypedStep(from: Field, first: Bytes, more: Bytes, last: int): EditRecord
    requires Sound(from)
  {
    var t := OverSelection(from, first);
    FirstStep(from, t, last).(inserted := t.inserted + more)
  }

  lemma TypingBegins(f: Field, text: Bytes, now: int) returns (pre: Bytes, post: Bytes)
    requires Writable(f) && Valid(text) && StartsAnew(f.log, OverSelection(f, text), now) && Carries(f, text)
    ensures CommitTarget(f, None) == f.selected
    ensures Typed(f, text, [], AfterReplaceText(f, None, text, now), TypedStep(f, text, [], now), pre, post)
  {
    hide Valid, IsBoundary, Splice, Trim, AfterReplaceText, StartsAnew, SpliceRecorded, OneStep;
    pre, post := FirstEdit(f, text, now);
    PlainCommit(f, text, now);
    assert text + [] == text && OverSelection(f, text).inserted + [] == OverSelection(f, text).inserted;
  }

  lemma TrimInsertion(content: Bytes, at: nat, text: Bytes)
    requires at <= |content|
    ensures Trim(content, Caret(at), text) == Trimmed(at, [], text)
  {
    assert content[at..at] == [];
    assert text[0..] == text && text[..|text|] == text;
    hide IsBoundary;
  }

  lemma SpliceOn(s: Bytes, r: Range, a: Bytes, b: Bytes)
    requires r.start <= r.end <= |s|
    ensures r.start + |a| <= |Splice(s, r, a)|
    ensures Splice(Splice(s, r, a), Caret(r.start + |a|), b) == Splice(s, r, a + b)
  {
    var t := Splice(s, r, a);
    assert t[..r.start + |a|] == s[..r.start] + a && t[r.start + |a|..] == s[r.end..];
    Associates(s[..r.start], a, b);
  }

  /** The step's text ends at the caret, so an insertion there grows it. */
  lemma TypingGoesOn(from: Field, first: Bytes, more: Bytes, f: Field, step: EditRecord, pre: Bytes, post: Bytes,
                     text: Bytes, now: int)
    requires Writable(from) && Carries(from, first) && Typed(from, first, more, f, step, pre, post)
    requires text != [] && Valid(text) && Elapsed(now, step.editedAt) < UNDO_GROUP_INTERVAL
    ensures CommitTarget(f, None) == f.selected
    ensures Typed(from, first, more + text, AfterReplaceText(f, None, text, now),
                  step.(inserted := step.inserted + text, editedAt := now), pre, post)
  {
    hide Valid, IsBoundary, Splice, Trim, AfterReplaceText, SpliceRecorded, Below, OneStep;
    TypedIsWritable(from, first, more, f, step, pre, post);
    PlainCommit(f, text, now);
    TrimInsertion(f.content, f.selected.start, text);
    Associates(first, more, text);
    Associates(OverSelection(from, first).inserted, more, text);
    SpliceOn(from.content, from.selected, first + more, text);
    assert f.selected.start == step.start + |step.inserted|;
    InsertionJoins(from, f, step, pre, post, text, now);
  }

  lemma InsertionJoins(from: Field, f: Field, step: EditRecord, pre: Bytes, post: Bytes, text: Bytes, now: int)
    requires OneStep(from, f, step, pre, post) && text != [] && Valid(text)
    requires step.inserted != [] && f.selected == Caret(step.start + |step.inserted|)
    requires Elapsed(now, step.editedAt) < UNDO_GROUP_INTERVAL
    ensures CommitTarget(f, None) == f.selected
    ensures OneStep(from, AfterReplaceText(f, None, text, now),
                    step.(inserted := step.inserted + text, editedAt := now), pre, post)
  {
    hide Valid, IsBoundary, Splice, Trim, AfterReplaceText, SpliceRecorded, Below, Around, Coalesced;
    PlainCommit(f, text, now);
    CommitStaysWritable(f, text, now);
    TrimInsertion(f.content, f.selected.start, text);
    InsertionGrows(step, text, now);
    StepGrown(f.log, Below(from.log.undo), step, Trimmed(f.selected.start, [], text), f.selected, f.reversed, now);
    InsertionAround(step, pre, post, from.content, f.content, text, now);
  }

  lemma InsertionGrows(step: EditRecord, text: Bytes, now: int)
    requires !step.isSealed && !step.composing && step.inserted != []
      && Elapsed(now, step.editedAt) < UNDO_GROUP_INTERVAL
    ensures Coalesced(step, Trimmed(step.start + |step.inserted|, [], text), now)
         == Some(step.(inserted := step.inserted + text, editedAt := now))
  {
  }

  lemma InsertionAround(step: EditRecord, pre: Bytes, post: Bytes, before: Bytes, after: Bytes, text: Bytes, now: int)
    requires Around(step, pre, post, before, after) && Valid(text)
    ensures var at := Caret(step.start + |step.inserted|);
      && at.end <= |after|
      && Around(step.(inserted := step.inserted + text, editedAt := now), pre, post, before, Splice(after, at, text))
  {
    hide Valid, Splice;
    InsertedAfter(pre, step.inserted, post, text);
    ValidConcat(step.inserted, text);
  }

  lemma InsertedAfter(pre: Bytes, mid: Bytes, post: Bytes, text: Bytes)
    ensures Splice(pre + mid + post, Caret(|pre| + |mid|), text) == pre + (mid + text) + post
  {
    var s := pre + mid + post;
    assert s[..|pre| + |mid|] == pre + mid && s[|pre| + |mid|..] == post;
    Associates(pre, mid, text);
  }

  /** However many texts are typed in one go over whatever was selected, they are one step; it removes and
      inserts what the first of them changed and inserts all the others. */
  lemma {:induction false} TypingIsOneStep(fs: seq<Field>, texts: seq<Bytes>, times: seq<int>)
    returns (pre: Bytes, post: Bytes)
    requires IsTyping(fs, texts, times)
    requires StartsAnew(fs[0].log, OverSelection(fs[0], texts[0]), times[0]) && Carries(fs[0], texts[0])
    ensures var more := Concat(texts[1..]);
      Typed(fs[0], texts[0], more, Last(fs), TypedStep(fs[0], texts[0], more, Last(times)), pre, post)
    decreases |texts|
  {
    hide Writable, Sound, StartsAnew, Carries, OverSelection, AfterReplaceText, Typed, TypedStep, Valid, Concat, Act;
    var n := |texts| - 1;
    assert Last(fs) == fs[n + 1] && Last(times) == times[n];
    assert CallLeads(fs[n], ReplaceText(None, texts[n], times[n]), fs[n + 1]);
    if n == 0 {
      TypingStarts(fs[0], texts[0], times[0], fs[1]);
      pre, post := TypingBegins(fs[0], texts[0], times[0]);
      NoTexts(texts[1..]);
    } else {
      TypingPrefix(fs, texts, times);
      RestOfTexts(texts);
      pre, post := TypingIsOneStep(Init(fs), Init(texts), Init(times));
      NextText(fs[0], texts[0], Concat(Init(texts)[1..]), fs[n], times[n - 1], pre, post,
               texts[n], times[n], fs[n + 1]);
    }
  }

  lemma NextText(from: Field, first: Bytes, more: Bytes, f: Field, last: int, pre: Bytes, post: Bytes,
                 text: Bytes, now: int, next: Field)
    requires Writable(from) && Carries(from, first)
    requires Typed(from, first, more, f, TypedStep(from, first, more, last), pre, post)
    requires text != [] && CallLeads(f, ReplaceText(None, text, now), next) && Elapsed(now, last) < UNDO_GROUP_INTERVAL
    ensures Typed(from, first, more + text, next, TypedStep(from, first, more + text, now), pre, post)
  {
    var step := TypedStep(from, first, more, last);
    hide Writable, Sound, Carries, OverSelection, AfterReplaceText, Typed, Valid, Act, CallLeads;
    TypedIsWritable(from, first, more, f, step, pre, post);
    TypingStarts(f, text, now, next);
    TypingGoesOn(from, first, more, f, step, pre, post, text, now);
    Associates(OverSelection(from, first).inserted, more, text);
  }

  lemma NoTexts(texts: seq<Bytes>)
    requires |texts| == 0
    ensures Concat(texts) == []
  {
  }

  lemma RestOfTexts(texts: seq<Bytes>)
    requires |texts| > 1
    ensures Init(texts)[0] == texts[0] && Concat(texts[1..]) == Concat(Init(texts)[1..]) + Last(texts)
  {
    assert Init(texts[1..]) == Init(texts)[1..];
  }

  lemma TypingStarts(f: Field, text: Bytes, now: int, next: Field)
    requires Writable(f) && CallLeads(f, ReplaceText(None, text, now), next)
    ensures Valid(text) && CommitTarget(f, None) == f.selected && next == AfterReplaceText(f, None, text, now)
  {
    hide AfterReplaceText, Valid, IsBoundary;
  }

  lemma TypedIsWritable(from: Field, first: Bytes, more: Bytes, f: Field, step: EditRecord, pre: Bytes, post: Bytes)
    requires Sound(from) && Typed(from, first, more, f, step, pre, post)
    ensures Writable(f)
  {
    hide Valid, IsBoundary, Splice, Trim, Around;
  }

  lemma TypingPrefix(fs: seq<Field>, texts: seq<Bytes>, times: seq<int>)
    requires IsTyping(fs, texts, times) && |texts| > 1
    ensures IsTyping(Init(fs), Init(texts), Init(times))
    ensures Last(Init(fs)) == fs[|texts| - 1] && Last(Init(times)) == times[|texts| - 2]
  {
    hide Writable, CallLeads;
    var n := |texts| - 1;
    assert forall i :: 0 <= i <= n ==> Init(fs)[i] == fs[i];
    assert forall i :: 0 <= i < n ==> Init(texts)[i] == texts[i] && Init(times)[i] == times[i];
  }

  /** And one undo gives back the field from before the first of them: content, selection and direction; one
      redo then the field from after the last. */
  lemma TypingUndoes(fs: seq<Field>, texts: seq<Bytes>, times: seq<int>)
    requires IsTyping(fs, texts, times)
    requires StartsAnew(fs[0].log, OverSelection(fs[0], texts[0]), times[0]) && Carries(fs[0], texts[0])
    ensures Last(fs).content == Splice(fs[0].content, fs[0].selected, texts[0] + Concat(texts[1..]))
    ensures Last(fs).log.undo != []
    ensures AfterUndo(Last(fs)) == fs[0].(log := Log(Below(fs[0].log.undo), [Last(Last(fs).log.undo)]))
    ensures AfterRedo(AfterUndo(Last(fs))) == Last(fs).(reversed := false)
  {
    hide Valid, IsBoundary, Splice, Trim, AfterUndo, AfterRedo, StartsAnew, Carries, Below, Around, CallLeads, InOneGo;
    var pre, post := TypingIsOneStep(fs, texts, times);
    var step := TypedStep(fs[0], texts[0], Concat(texts[1..]), Last(times));
    GestureUndoes(fs[0], Last(fs), step, pre, post);
    TypedEndsAtCaret(fs[0], texts[0], Concat(texts[1..]), Last(fs), step, pre, post);
    GestureRedoes(fs[0], Last(fs), step, pre, post);
    LastOfPush(Below(fs[0].log.undo), step);
  }

  lemma TypedEndsAtCaret(from: Field, first: Bytes, more: Bytes, f: Field, step: EditRecord, pre: Bytes, post: Bytes)
    requires Sound(from) && Carries(from, first) && Typed(from, first, more, f, step, pre, post)
    ensures f.selected == Caret(step.start + |step.inserted|)
  {
    hide Sound, Splice, Trim, OneStep, IsBoundary, Valid;
  }

  // ----- when the next text joins

  /** After a first text that changes something, the next one, typed in time, grows its step exactly when the
      first carries on. */
  lemma JoinsExactlyWhenCarried(f: Field, text: Bytes, more: Bytes, now: int, later: int)
    requires Writable(f) && Valid(text) && Valid(more) && more != [] && Elapsed(later, now) < UNDO_GROUP_INTERVAL
    requires var t := OverSelection(f, text); StartsAnew(f.log, t, now) && !(t.removed == [] && t.inserted == [])
    ensures CommitTarget(f, None) == f.selected
    ensures var f1 := AfterReplaceText(f, None, text, now);
      Sound(f1) && (StartsAnew(f1.log, OverSelection(f1, more), later) <==> !Carries(f, text))
  {
    hide Valid, IsBoundary, Splice, Trim, AfterReplaceText, SpliceRecorded, Below;
    PlainCommit(f, text, now);
    CommitStaysWritable(f, text, now);
    var f1, t := AfterReplaceText(f, None, text, now), OverSelection(f, text);
    StepPushed(f, t, now);
    LastOfPush(Below(f.log.undo), FirstStep(f, t, now));
    TrimInsertion(f1.content, f1.selected.start, more);
  }

  /** Text typed at a caret always carries on. */
  lemma CaretCarries(f: Field, text: Bytes)
    requires Sound(f) && text != [] && f.selected == Caret(f.selected.start)
    ensures OverSelection(f, text) == Trimmed(f.selected.start, [], text) && Carries(f, text)
  {
    hide Trim, IsBoundary, Valid;
    TrimInsertion(f.content, f.selected.start, text);
  }

  /** A letter typed over a selection that ends with it does not: "e" over "de" and then "y" are two steps. */
  lemma RetypedLetterSplits(now: int)
    ensures var f := EMPTY_FIELD.(content := [0x64, 0x65], selected := Range(0, 2));
      && Writable(f) && !Carries(f, [0x65]) && CommitTarget(f, None) == f.selected
      && var f1 := AfterReplaceText(f, None, [0x65], now);
         && Writable(f1) && CommitTarget(f1, None) == f1.selected
         && |AfterReplaceText(f1, None, [0x79], now).log.undo| == 2
  {
    var f := EMPTY_FIELD.(content := [0x64, 0x65], selected := Range(0, 2));
    LettersAreValid();
    LettersSelected(f);
    hide *;
    FirstLetter(f, now);
    CommitStaysWritable(f, [0x65], now);
    SecondLetter(AfterReplaceText(f, None, [0x65], now), now);
  }

  lemma LettersSelected(f: Field)
    requires f == EMPTY_FIELD.(content := [0x64, 0x65], selected := Range(0, 2))
    ensures Writable(f) && OverSelection(f, [0x65]) == Trimmed(0, [0x64], []) && !Carries(f, [0x65])
  {
    LettersAreValid();
    RetypedTrims();
    hide Trim, Valid;
  }

  lemma FirstLetter(f: Field, now: int)
    requires Writable(f) && f.log == EMPTY_LOG && Valid([0x65]) && OverSelection(f, [0x65]) == Trimmed(0, [0x64], [])
    ensures CommitTarget(f, None) == f.selected
    ensures var f1 := AfterReplaceText(f, None, [0x65], now);
      f1.selected == Caret(f1.selected.start) && |f1.log.undo| == 1 && f1.log.undo[0].inserted == []
  {
    hide Valid, IsBoundary, Splice, OverSelection, AfterReplaceText, SpliceRecorded, Below, Sound;
    PlainCommit(f, [0x65], now);
    OneBelow([]);
    StepPushed(f, Trimmed(0, [0x64], []), now);
  }

  lemma SecondLetter(f: Field, now: int)
    requires Writable(f) && f.selected == Caret(f.selected.start) && Valid([0x79])
    requires |f.log.undo| == 1 && f.log.undo[0].inserted == []
    ensures CommitTarget(f, None) == f.selected
    ensures |AfterReplaceText(f, None, [0x79], now).log.undo| == 2
  {
    hide Valid, IsBoundary, Splice, AfterReplaceText, SpliceRecorded, Below, Trim, Sound;
    PlainCommit(f, [0x79], now);
    CaretCarries(f, [0x79]);
    OneBelow(f.log.undo);
    StepPushed(f, Trimmed(f.selected.start, [], [0x79]), now);
  }

  lemma OneBelow(undo: seq<EditRecord>)
    requires |undo| < UNDO_HISTORY_CAP
    ensures Below(undo) == undo
  {
  }

  lemma LettersAreValid()
    ensures Valid([0x64, 0x65]) && Valid([0x65]) && Valid([0x79])
  {
    var s: Bytes := [0x64, 0x65];
    assert Valid([0x65]) && s[1..] == [0x65];
  }

  lemma RetypedTrims()
    ensures Trim([0x64, 0x65], Range(0, 2), [0x65]) == Trimmed(0, [0x64], [])
  {
    var a: Bytes, b: Bytes := [0x64, 0x65], [0x65];
    NothingShared(a, b, 2);
    LastShared(a, b);
    assert a[0..2] == a && a[0..] == a && b[0..] == b && a[..1] == [0x64] && b[..0] == [];
    hide PrefixLen, SuffixLen;
  }

  lemma {:induction false} NothingShared(a: Bytes, b: Bytes, limit: nat)
    requires a != [] && b != [] && a[0] != b[0]
    ensures PrefixLen(a, b, limit) == 0
  {
    if limit > 0 {
      assert limit <= |a| && limit <= |b| ==> a[..limit][0] == a[0] && b[..limit][0] == b[0];
      NothingShared(a, b, limit - 1);
    }
  }

  lemma LastShared(a: Bytes, b: Bytes)
    requires a == [0x64, 0x65] && b == [0x65]
    ensures SuffixLen(a, b, 2) == 1
  {
    assert a[1..] == b && b[0..] == b;
    assert !SharedSuffix(a, b, 2) && SharedSuffix(a, b, 1);
  }

  // ----- backspacing and deleting

  /** A press of one of the two keys, with the character boundary it reaches to. */
  datatype Key = Backspace(offset: nat, now: int) | Delete(offset: nat, now: int)

  /** From a caret, Backspace reaches back and Delete reaches on. */
  predicate KeyFits(f: Field, k: Key) {
    && Reaches(f, k.offset)
    && (f.selected.start == f.selected.end ==>
          if k.Backspace? then k.offset < f.selected.start else f.selected.start < k.offset)
  }

  function AfterKey(f: Field, k: Key): Field
    requires Sound(f) && KeyFits(f, k)
  {
    if k.Backspace? then AfterBackspace(f, k.offset, k.now) else AfterDelete(f, k.offset, k.now)
  }

  ghost predicate KeyLeads(f: Field, k: Key, next: Field) {
    KeyFits(f, k) && (Sound(f) ==> next == AfterKey(f, k))
  }

  /** Presses of either key, in any order, in a writable field. */
  ghost predicate IsErasing(fs: seq<Field>, keys: seq<Key>) {
    && |fs| == |keys| + 1 && keys != [] && Writable(fs[0])
    && (forall i :: 0 < i < |keys| ==> Elapsed(keys[i].now, keys[i - 1].now) < UNDO_GROUP_INTERVAL)
    && forall i :: 0 <= i < |keys| ==> KeyLeads(fs[i], keys[i], fs[i + 1])
  }

  /** A press first selects what it deletes, and then edits. */
  lemma KeyIsSelectThenEdit(f: Field, k: Key)
    requires Writable(f) && KeyFits(f, k)
    ensures var g := Aimed(f, k.offset);
      && Writable(g) && g.selected.start < g.selected.end && g.content == f.content && g.log == f.log
      && CommitTarget(g, None) == g.selected && AfterKey(f, k) == AfterReplaceText(g, None, [], k.now)
      && Permitted(f, Select(g.selected, g.reversed)) && Act(f, Select(g.selected, g.reversed)) == g
      && Permitted(g, ReplaceText(None, [], k.now)) && AfterKey(f, k) == Act(g, ReplaceText(None, [], k.now))
      && (f.selected.start < f.selected.end ==> g == f)
  {
    hide IsBoundary, AfterReplaceText;
    AimedIsSafe(f, k.offset);
  }

  /** A press that reaches nowhere changes nothing. */
  lemma PressAtTheEdge(f: Field, k: Key)
    requires Writable(f) && f.selected == Caret(k.offset)
    ensures Reaches(f, k.offset)
    ensures AfterBackspace(f, k.offset, k.now) == f && AfterDelete(f, k.offset, k.now) == f
  {
    hide Valid, IsBoundary, AfterReplaceText, Trim, Splice;
    assert Aimed(f, k.offset) == f;
    PlainCommit(f, [], k.now);
    TrimDeletion(f.content, f.selected);
    assert f.content[k.offset..k.offset] == [];
    NothingSpliced(f.content, k.offset);
  }

  lemma NothingSpliced(s: Bytes, at: nat)
    requires at <= |s|
    ensures Splice(s, Caret(at), []) == s
  {
    assert s == s[..at] + s[at..];
    assert s[..at] + [] == s[..at];
  }

  /** From a caret the selection is the stretch between caret and boundary, its direction the key's. */
  lemma AimedFromCaret(f: Field, k: Key)
    requires Writable(f) && KeyFits(f, k) && f.selected.start == f.selected.end
    ensures Aimed(f, k.offset) == f.(
      selected := if k.Backspace? then Range(k.offset, f.selected.start) else Range(f.selected.start, k.offset),
      reversed := k.Backspace?)
  {
    hide Valid, IsBoundary;
  }

  lemma TrimDeletion(content: Bytes, r: Range)
    requires r.start <= r.end <= |content|
    ensures Trim(content, r, []) == Trimmed(r.start, content[r.start..r.end], [])
  {
    var cut := content[r.start..r.end];
    hide IsBoundary;
    assert PrefixLen(cut, [], |cut|) == 0 && cut[0..] == cut;
    assert SuffixLen(cut, [], |cut|) == 0 && cut[..|cut|] == cut;
  }

  /** The erasing done so far, in one step. */
  ghost predicate Erased(from: Field, f: Field, step: EditRecord, pre: Bytes, post: Bytes) {
    && OneStep(from, f, step, pre, post)
    && step.inserted == [] && step.removed != [] && f.selected == Caret(step.start)
  }

  lemma ErasingBegins(f: Field, now: int) returns (pre: Bytes, post: Bytes)
    requires Writable(f) && f.selected.start < f.selected.end
    requires StartsAnew(f.log, OverSelection(f, []), now)
    ensures CommitTarget(f, None) == f.selected
    ensures Erased(f, AfterReplaceText(f, None, [], now), FirstStep(f, OverSelection(f, []), now), pre, post)
  {
    hide Valid, IsBoundary, Splice, Trim, AfterReplaceText, StartsAnew, SpliceRecorded, OneStep;
    NothingValid();
    TrimDeletion(f.content, f.selected);
    pre, post := FirstEdit(f, [], now);
    PlainCommit(f, [], now);
  }

  /** The step with `gone`, deleted next to what it removed, added on that side. */
  function Widened(step: EditRecord, start: nat, gone: Bytes, back: bool, now: int): EditRecord {
    step.(start := start, removed := if back then gone + step.removed else step.removed + gone, editedAt := now)
  }

  lemma DeletionGrows(step: EditRecord, start: nat, gone: Bytes, back: bool, now: int)
    requires !step.isSealed && !step.composing && step.inserted == [] && step.removed != [] && gone != []
    requires Elapsed(now, step.editedAt) < UNDO_GROUP_INTERVAL && step.start == if back then start + |gone| else start
    ensures Coalesced(step, Trimmed(start, gone, []), now) == Some(Widened(step, start, gone, back, now))
  {
  }

  lemma DeletionJoins(from: Field, g: Field, step: EditRecord, pre: Bytes, gone: Bytes, post: Bytes, back: bool,
                      now: int, wide: EditRecord)
    requires Writable(g) && g.log == Log(Below(from.log.undo) + [step], []) && gone != []
    requires g.content == pre + gone + post && g.selected == Range(|pre|, |pre| + |gone|)
    requires Valid(pre) && Valid(gone) && Valid(post) && Valid(step.removed)
    requires wide == Widened(step, |pre|, gone, back, now) && from.content == pre + wide.removed + post
    requires step.start == if back then |pre| + |gone| else |pre|
    requires step.selectionBefore == from.selected && step.selectionReversedBefore == from.reversed
    requires !step.isSealed && !step.composing && step.inserted == [] && step.removed != []
    requires Elapsed(now, step.editedAt) < UNDO_GROUP_INTERVAL
    ensures CommitTarget(g, None) == g.selected
    ensures Erased(from, AfterReplaceText(g, None, [], now), wide, pre, post)
  {
    var after := Recommitted(g, pre, gone, post, now);
    DeletionGrows(step, |pre|, gone, back, now);
    DeletionAround(step, pre, gone, post, from.content, g.content, back, now);
    WideFields(step, |pre|, gone, back, now);
    hide Valid, IsBoundary, Splice, Trim, AfterReplaceText, SpliceRecorded, Below, Around, Coalesced, OverSelection,
         Widened, Sound;
    StepGrown(g.log, Below(from.log.undo), step, Trimmed(|pre|, gone, []), g.selected, g.reversed, now);
  }

  lemma WideFields(step: EditRecord, start: nat, gone: Bytes, back: bool, now: int)
    ensures var wide := Widened(step, start, gone, back, now);
      && wide.start == start && wide.inserted == step.inserted && wide.isSealed == step.isSealed
        && wide.composing == step.composing
      && wide.selectionBefore == step.selectionBefore && wide.selectionReversedBefore == step.selectionReversedBefore
      && (gone != [] ==> wide.removed != [])
  {
  }

  lemma Recommitted(g: Field, pre: Bytes, gone: Bytes, post: Bytes, now: int) returns (after: Field)
    requires Writable(g) && g.content == pre + gone + post && g.selected == Range(|pre|, |pre| + |gone|)
    ensures CommitTarget(g, None) == g.selected && after == AfterReplaceText(g, None, [], now) && Writable(after)
    ensures |pre| + |gone| <= |g.content| && after.content == Splice(g.content, g.selected, [])
      && after.selected == Caret(|pre|)
    ensures after.log == SpliceRecorded(g.log, Trimmed(|pre|, gone, []), g.selected, g.reversed, now)
  {
    hide Valid, IsBoundary, Splice, Trim, AfterReplaceText, SpliceRecorded, OverSelection;
    NothingValid();
    PlainCommit(g, [], now);
    CommitStaysWritable(g, [], now);
    DeletionTrims(g, pre, gone, post);
    after := AfterReplaceText(g, None, [], now);
  }

  lemma DeletionTrims(g: Field, pre: Bytes, gone: Bytes, post: Bytes)
    requires Sound(g) && g.content == pre + gone + post && g.selected == Range(|pre|, |pre| + |gone|)
    ensures OverSelection(g, []) == Trimmed(|pre|, gone, [])
  {
    hide Valid, IsBoundary, Splice, Trim;
    CutOut(pre, gone, post);
    TrimDeletion(g.content, g.selected);
  }

  lemma DeletionAround(step: EditRecord, pre: Bytes, gone: Bytes, post: Bytes, before: Bytes, content: Bytes,
                       back: bool, now: int)
    requires Valid(pre) && Valid(gone) && Valid(post) && Valid(step.removed) && step.inserted == []
    requires before == pre + Widened(step, |pre|, gone, back, now).removed + post && content == pre + gone + post
    ensures |pre| + |gone| <= |content|
    ensures Around(Widened(step, |pre|, gone, back, now), pre, post, before,
                   Splice(content, Range(|pre|, |pre| + |gone|), []))
  {
    hide Valid, Splice;
    CutOut(pre, gone, post);
    NothingValid();
    ValidConcat(gone, step.removed);
    ValidConcat(step.removed, gone);
  }

  lemma CutOut(pre: Bytes, gone: Bytes, post: Bytes)
    ensures (pre + gone + post)[|pre|..|pre| + |gone|] == gone
    ensures Splice(pre + gone + post, Range(|pre|, |pre| + |gone|), []) == pre + [] + post
  {
    var s := pre + gone + post;
    assert s[..|pre|] == pre && s[|pre| + |gone|..] == post;
  }

  lemma ErasingGoesOn(from: Field, f: Field, step: EditRecord, pre: Bytes, post: Bytes, k: Key)
    returns (step': EditRecord, pre': Bytes, post': Bytes)
    requires Writable(from) && Erased(from, f, step, pre, post) && KeyFits(f, k)
    requires Elapsed(k.now, step.editedAt) < UNDO_GROUP_INTERVAL
    ensures Erased(from, AfterKey(f, k), step', pre', post') && step'.editedAt == k.now
  {
    hide Valid, IsBoundary, AfterReplaceText, AfterKey, Below;
    var g, n := Aimed(f, k.offset), |pre|;
    KeyIsSelectThenEdit(f, k);
    AimedFromCaret(f, k);
    assert f.content == pre + post by { assert pre + [] + post == pre + post; }
    if k.Backspace? {
      var gone := pre[k.offset..];
      pre', post' := pre[..k.offset], post;
      CutBehind(pre, post, k.offset, step.removed);
      step' := Widened(step, |pre'|, gone, true, k.now);
      DeletionJoins(from, g, step, pre', gone, post, true, k.now, step');
    } else {
      var gone := post[..k.offset - n];
      pre', post' := pre, post[k.offset - n..];
      CutAhead(pre, post, k.offset, step.removed);
      step' := Widened(step, n, gone, false, k.now);
      DeletionJoins(from, g, step, pre, gone, post', false, k.now, step');
    }
  }

  lemma CutBehind(pre: Bytes, post: Bytes, i: nat, removed: Bytes)
    requires Valid(pre) && i < |pre| && IsBoundary(pre + post, i)
    ensures Valid(pre[..i]) && Valid(pre[i..]) && pre[i..] != []
    ensures pre + post == pre[..i] + pre[i..] + post
    ensures pre + removed + post == pre[..i] + (pre[i..] + removed) + post
  {
    assert (pre + post)[i] == pre[i];
    ValidSplit(pre, i);
    assert pre == pre[..i] + pre[i..];
    Associates(pre[..i], pre[i..], removed);
  }

  lemma CutAhead(pre: Bytes, post: Bytes, i: nat, removed: Bytes)
    requires Valid(post) && |pre| < i <= |pre| + |post| && IsBoundary(pre + post, i)
    ensures var k := i - |pre|;
      && Valid(post[..k]) && Valid(post[k..]) && post[..k] != []
      && pre + post == pre + post[..k] + post[k..]
      && pre + removed + post == pre + (removed + post[..k]) + post[k..]
  {
    SplitAhead(pre, post, i, i - |pre|);
    hide *;
    var k := i - |pre|;
    Regrouped(pre, removed, post[..k], post[k..]);
    FrontAndBack(post, k);
  }

  lemma FrontAndBack(s: Bytes, k: nat)
    requires 0 < k <= |s|
    ensures s[..k] + s[k..] == s && s[..k] != []
  {
  }

  lemma SplitAhead(pre: Bytes, post: Bytes, i: nat, k: nat)
    requires Valid(post) && 0 < k <= |post| && i == |pre| + k && IsBoundary(pre + post, i)
    ensures Valid(post[..k]) && Valid(post[k..])
  {
    assert k < |post| ==> (pre + post)[i] == post[k];
    ValidSplit(post, k);
  }

  lemma Regrouped(pre: Bytes, removed: Bytes, front: Bytes, back: Bytes)
    ensures pre + (front + back) == pre + front + back
    ensures pre + removed + (front + back) == pre + (removed + front) + back
  {
    Associates(pre, front, back);
    Associates(pre, removed, front);
    Associates(pre + removed, front, back);
  }

  /** The press does not grow the step before it. */
  predicate ErasesAnew(f: Field, k: Key) {
    var g := Aimed(f, k.offset);
    Sound(g) ==> StartsAnew(f.log, OverSelection(g, []), k.now)
  }

  /** However many presses of the two keys, in any order, come in one go, they are one step: it holds all they
      removed, and the selection of the first. */
  lemma {:induction false} ErasingIsOneStep(fs: seq<Field>, keys: seq<Key>)
    returns (step: EditRecord, pre: Bytes, post: Bytes)
    requires IsErasing(fs, keys) && ErasesAnew(fs[0], keys[0])
    ensures Erased(Aimed(fs[0], keys[0].offset), Last(fs), step, pre, post) && step.editedAt == Last(keys).now
    decreases |keys|
  {
    hide Sound, Writable, StartsAnew, OverSelection, Erased, Aimed, AfterKey, KeyFits;
    var n := |keys| - 1;
    var from := Aimed(fs[0], keys[0].offset);
    assert Last(fs) == fs[n + 1] && Last(keys) == keys[n] && KeyLeads(fs[n], keys[n], fs[n + 1]);
    KeyLeads0(fs[0], keys[0], fs[1]);
    if n == 0 {
      pre, post := ErasingBegins(from, keys[0].now);
      step := FirstStep(from, OverSelection(from, []), keys[0].now);
    } else {
      ErasingPrefix(fs, keys);
      step, pre, post := ErasingIsOneStep(Init(fs), Init(keys));
      ErasedIsSound(from, fs[n], step, pre, post);
      step, pre, post := ErasingGoesOn(from, fs[n], step, pre, post, keys[n]);
    }
  }

  lemma KeyLeads0(f: Field, k: Key, next: Field)
    requires Writable(f) && KeyLeads(f, k, next)
    ensures var g := Aimed(f, k.offset);
      && Writable(g) && g.selected.start < g.selected.end && g.log == f.log
      && CommitTarget(g, None) == g.selected && next == AfterReplaceText(g, None, [], k.now)
    ensures Sound(Aimed(f, k.offset))
    ensures ErasesAnew(f, k) ==> StartsAnew(f.log, OverSelection(Aimed(f, k.offset), []), k.now)
  {
    hide IsBoundary, Valid, AfterReplaceText, AfterKey, Aimed, KeyFits, OverSelection, StartsAnew;
    KeyIsSelectThenEdit(f, k);
  }

  lemma ErasedIsSound(from: Field, f: Field, step: EditRecord, pre: Bytes, post: Bytes)
    requires Erased(from, f, step, pre, post)
    ensures Sound(f)
  {
    hide Around;
  }

  lemma ErasingPrefix(fs: seq<Field>, keys: seq<Key>)
    requires IsErasing(fs, keys) && |keys| > 1
    ensures IsErasing(Init(fs), Init(keys))
    ensures Last(Init(fs)) == fs[|keys| - 1] && Last(Init(keys)) == keys[|keys| - 2]
  {
    hide Writable, KeyLeads;
    var n := |keys| - 1;
    assert forall i :: 0 <= i <= n ==> Init(fs)[i] == fs[i];
    assert forall i :: 0 <= i < n ==> Init(keys)[i] == keys[i];
  }

  /** One undo gives back everything they removed, with what the first of them deleted selected: the selection
      there was, or else the character the key had reached over. One redo removes it all again. */
  lemma ErasingUndoes(fs: seq<Field>, keys: seq<Key>)
    requires IsErasing(fs, keys) && ErasesAnew(fs[0], keys[0])
    ensures Last(fs).log.undo != []
    ensures AfterUndo(Last(fs))
         == Aimed(fs[0], keys[0].offset).(log := Log(Below(fs[0].log.undo), [Last(Last(fs).log.undo)]))
    ensures AfterRedo(AfterUndo(Last(fs))) == Last(fs).(reversed := false)
  {
    hide Valid, IsBoundary, AfterUndo, AfterRedo, StartsAnew, OverSelection, Aimed, Below, Around, AfterKey, KeyFits;
    var from := Aimed(fs[0], keys[0].offset);
    var step, pre, post := ErasingIsOneStep(fs, keys);
    assert KeyLeads(fs[0], keys[0], fs[1]);
    KeyLeads0(fs[0], keys[0], fs[1]);
    GestureUndoes(from, Last(fs), step, pre, post);
    GestureRedoes(from, Last(fs), step, pre, post);
    LastOfPush(Below(from.log.undo), step);
  }

  /** Begun by Backspace at a caret: the undone character is selected backwards. */
  lemma BackspacingUndoes(fs: seq<Field>, keys: seq<Key>, at: nat)
    requires IsErasing(fs, keys) && keys[0].Backspace? && fs[0].selected == Caret(at)
    requires ErasesAnew(fs[0], keys[0])
    ensures var undone := AfterUndo(Last(fs));
      && undone.content == fs[0].content && undone.log.undo == Below(fs[0].log.undo)
      && undone.selected == Range(keys[0].offset, at) && undone.reversed
  {
    hide Valid, IsBoundary, AfterUndo, StartsAnew, OverSelection, Aimed, Below, AfterKey, KeyFits;
    assert KeyLeads(fs[0], keys[0], fs[1]);
    ErasingUndoes(fs, keys);
    AimedFromCaret(fs[0], keys[0]);
  }

  /** Begun by Delete at a caret: it is selected forwards. */
  lemma DeletingUndoes(fs: seq<Field>, keys: seq<Key>, at: nat)
    requires IsErasing(fs, keys) && keys[0].Delete? && fs[0].selected == Caret(at)
    requires ErasesAnew(fs[0], keys[0])
    ensures var undone := AfterUndo(Last(fs));
      && undone.content == fs[0].content && undone.log.undo == Below(fs[0].log.undo)
      && undone.selected == Range(at, keys[0].offset) && !undone.reversed
  {
    hide Valid, IsBoundary, AfterUndo, StartsAnew, OverSelection, Aimed, Below, AfterKey, KeyFits;
    assert KeyLeads(fs[0], keys[0], fs[1]);
    ErasingUndoes(fs, keys);
    AimedFromCaret(fs[0], keys[0]);
  }

  // ----- where a gesture ends

  /** A sealed step, an open composition or a pause of the whole interval always starts a new step. */
  lemma PauseStartsAnew(log: Log, t: Trimmed, now: int)
    requires log.undo != [] ==>
      var last := Last(log.undo); last.isSealed || last.composing || Elapsed(now, last.editedAt) >= UNDO_GROUP_INTERVAL
    ensures StartsAnew(log, t, now)
  {
  }

  /** So typing after a pause, a seal or a composition is undone by itself, down to what was there before it. */
  lemma TypingAfterPause(fs: seq<Field>, texts: seq<Bytes>, times: seq<int>)
    requires IsTyping(fs, texts, times) && Carries(fs[0], texts[0])
    requires fs[0].log.undo != [] ==>
      var last := Last(fs[0].log.undo);
      last.isSealed || last.composing || Elapsed(times[0], last.editedAt) >= UNDO_GROUP_INTERVAL
    ensures Last(fs).content == Splice(fs[0].content, fs[0].selected, texts[0] + Concat(texts[1..]))
    ensures Last(fs).log.undo != []
    ensures AfterUndo(Last(fs)) == fs[0].(log := Log(Below(fs[0].log.undo), [Last(Last(fs).log.undo)]))
    ensures AfterRedo(AfterUndo(Last(fs))) == Last(fs).(reversed := false)
  {
    hide Valid, IsBoundary, Splice, Trim, AfterUndo, Carries, Below, CallLeads, InOneGo, StartsAnew;
    PauseStartsAnew(fs[0].log, OverSelection(fs[0], texts[0]), times[0]);
    TypingUndoes(fs, texts, times);
  }
}
