/** Runs of the undo history: whatever the calls, it denotes a line of contents the field
    really held, and any number of undos is taken back by as many redos. */
module HistoryRuns {
  import opened Basics
  import opened Utf8
  import opened TrimmedSplice
  import opened EditHistory
  import opened HistoryLine

  /** One call on the history, with the content the field then shows. */
  datatype Edit =
    | Record(range: Range, text: Bytes, selection: Range, reversed: bool, now: int)
    | Compose(range: Range, text: Bytes, selection: Range, reversed: bool, now: int)
    | Finalize
    | Seal
    | Undo
    | Redo

  datatype Session = Session(log: Log, content: Bytes)

  /** Splices come with well-formed text and with ranges on character boundaries. */
  ghost predicate Allowed(s: Session, e: Edit) {
    (e.Record? || e.Compose?) ==>
      OnBoundaries(s.content, e.range) && Valid(e.text) && OnBoundaries(s.content, e.selection)
  }

  function Perform(s: Session, e: Edit): Session
    requires (e.Record? || e.Compose?) ==> e.range.start <= e.range.end <= |s.content|
  {
    match e
    case Record(range, text, selection, reversed, now) =>
      Session(Recorded(s.log, s.content, range, text, selection, reversed, now), Splice(s.content, range, text))
    case Compose(range, text, selection, reversed, now) =>
      Session(CompositionRecorded(s.log, s.content, range, text, selection, reversed, now),
              Splice(s.content, range, text))
    case Finalize => s.(log := CompositionFinalized(s.log))
    case Seal => s.(log := SealedLast(s.log))
    case Undo =>
      var (log, result) := Undone(s.log, s.content);
      Session(log, if result.Some? then result.value.content else s.content)
    case Redo =>
      var (log, result) := Redone(s.log, s.content);
      Session(log, if result.Some? then result.value.content else s.content)
  }

  lemma PerformKeepsTimeline(s: Session, line: Line, e: Edit) returns (line': Line)
    requires Timeline(s.log, line, s.content) && Allowed(s, e)
    ensures var s' := Perform(s, e);
      && Timeline(s'.log, line', s'.content)
      && forall held: set<Bytes> :: OnlyHeld(line, s.content, held) ==> OnlyHeld(line', s'.content, held + {s'.content})
  {
    hide Valid, IsBoundary, Links, LeadTo, LeadOn, SpliceRecorded, Trim, NoSharedHead, NoSharedTail, Describes,
         CompositionRecorded, Splice;
    match e {
      case Record(range, text, selection, reversed, now) =>
        var pre, post := TrimIsFaithful(s.content, range, text);
        line' := RecordKeepsTimeline(s.log, line, s.content, Trim(s.content, range, text), pre, post,
                                     Splice(s.content, range, text), selection, reversed, now);
      case Compose(range, text, selection, reversed, now) =>
        line' := ComposeKeepsTimeline(s.log, line, s.content, range, text, selection, reversed, now);
      case Finalize =>
        line' := FinalizeKeepsTimeline(s.log, line, s.content);
      case Seal =>
        SealKeepsTimeline(s.log, line, s.content);
        line' := line;
      case Undo =>
        line' := line;
        if s.log.undo != [] {
          NewestLink(s.log, line, s.content);
          UndoAlongTimeline(s.log, line, s.content);
          line' := Line(Init(line.past), line.future + [s.content]);
        }
      case Redo =>
        line' := line;
        if s.log.redo != [] {
          NearestLink(s.log, line, s.content);
          RedoAlongTimeline(s.log, line, s.content);
          line' := Line(line.past + [s.content], Init(line.future));
        }
    }
  }

  lemma PerformKeepsCap(s: Session, e: Edit)
    requires WithinCap(s.log)
    requires Allowed(s, e)
    ensures WithinCap(Perform(s, e).log)
  {
    hide Trim, Splice, Valid, IsBoundary;
  }

  ghost predicate Follows(s: Session, e: Edit, next: Session) {
    Allowed(s, e) && next == Perform(s, e)
  }

  /** A run: a field that starts with some content and no history, then any calls. */
  ghost predicate IsRun(run: seq<Session>, edits: seq<Edit>) {
    && |run| == |edits| + 1
    && Valid(run[0].content) && run[0].log == EMPTY_LOG
    && forall i :: 0 <= i < |edits| ==> Follows(run[i], edits[i], run[i + 1])
  }

  /** The contents the field has held. */
  function Held(run: seq<Session>): set<Bytes> {
    set s | s in run :: s.content
  }

  /** After any run at all, the history denotes a line of contents the field really
      held, and it is within its cap. */
  lemma {:induction false} RunsKeepTheLine(run: seq<Session>, edits: seq<Edit>) returns (line: Line)
    requires IsRun(run, edits)
    ensures Timeline(Last(run).log, line, Last(run).content)
    ensures OnlyHeld(line, Last(run).content, Held(run))
    ensures WithinCap(Last(run).log)
    decreases |edits|
  {
    hide Valid, Perform, Allowed;
    if edits == [] {
      line := Line([], []);
      assert run[0] in run;
    } else {
      var n := |edits| - 1;
      var before := run[..n + 1];
      assert IsRun(before, edits[..n]) by {
        assert forall i :: 0 <= i < n ==> edits[..n][i] == edits[i];
      }
      var line0 := RunsKeepTheLine(before, edits[..n]);
      assert edits[n] == Last(edits) && Last(before) == run[n] && Last(run) == run[n + 1];
      line := PerformKeepsTimeline(run[n], line0, edits[n]);
      PerformKeepsCap(run[n], edits[n]);
      assert run == before + [run[n + 1]];
      assert Held(run) == Held(before) + {run[n + 1].content};
    }
  }

  /** In every run, with anything to undo, undo succeeds: it shows a content the
      field held, with a selection that fits it, and redo then brings back exactly
      the log and the content of before. */
  lemma UndoThenRedo(run: seq<Session>, edits: seq<Edit>)
    requires IsRun(run, edits) && Last(run).log.undo != []
    ensures var s := Last(run);
      var s' := Perform(s, Undo);
      && Undone(s.log, s.content).1.Some?
      && s'.content in Held(run)
      && OnBoundaries(s'.content, Undone(s.log, s.content).1.value.selection)
      && Perform(s', Redo) == s
  {
    hide Valid, IsBoundary, Links, LeadTo, LeadOn, Undone, Redone;
    var s := Last(run);
    var line := RunsKeepTheLine(run, edits);
    NewestLink(s.log, line, s.content);
    UndoAlongTimeline(s.log, line, s.content);
    assert Last(line.past) in line.past;
    RedoAlongTimeline(Perform(s, Undo).log, Line(Init(line.past), line.future + [s.content]), Last(line.past));
  }

  /** The other way round: redo never fails, and undo takes it back. */
  lemma RedoThenUndo(run: seq<Session>, edits: seq<Edit>)
    requires IsRun(run, edits) && Last(run).log.redo != []
    ensures var s := Last(run);
      var s' := Perform(s, Redo);
      && Redone(s.log, s.content).1.Some?
      && s'.content in Held(run)
      && OnBoundaries(s'.content, Redone(s.log, s.content).1.value.selection)
      && Perform(s', Undo) == s
  {
    hide Valid, IsBoundary, Links, LeadTo, LeadOn, Undone, Redone;
    var s := Last(run);
    var line := RunsKeepTheLine(run, edits);
    NearestLink(s.log, line, s.content);
    RedoAlongTimeline(s.log, line, s.content);
    assert Last(line.future) in line.future;
    UndoAlongTimeline(Perform(s, Redo).log, Line(line.past + [s.content], Init(line.future)), Last(line.future));
  }

  /** `k` undos in a row, or `k` redos. */
  function Repeat(s: Session, e: Edit, k: nat): Session
    requires e.Undo? || e.Redo?
    decreases k
  {
    if k == 0 then s else Repeat(Perform(s, e), e, k - 1)
  }

  lemma {:induction false} RepeatLast(s: Session, e: Edit, k: nat)
    requires e.Undo? || e.Redo?
    ensures Repeat(s, e, k + 1) == Perform(Repeat(s, e, k), e)
    decreases k
  {
    hide Perform;
    if k > 0 {
      RepeatLast(Perform(s, e), e, k - 1);
    }
  }

  /** Stepping back any number of steps and forward as many returns to the very same session. */
  lemma {:induction false} WalkBackAndForth(s: Session, line: Line, k: nat)
    requires Timeline(s.log, line, s.content) && k <= |s.log.undo|
    ensures Repeat(Repeat(s, Undo, k), Redo, k) == s
    decreases k
  {
    hide Valid, IsBoundary, Links, LeadTo, LeadOn, Undone, Redone;
    if k > 0 {
      NewestLink(s.log, line, s.content);
      UndoAlongTimeline(s.log, line, s.content);
      var s', line' := Perform(s, Undo), Line(Init(line.past), line.future + [s.content]);
      RedoAlongTimeline(s'.log, line', s'.content);
      WalkBackAndForth(s', line', k - 1);
      RepeatLast(Repeat(s', Undo, k - 1), Redo, k - 1);
    }
  }

  lemma AnyRunWalksBackAndForth(run: seq<Session>, edits: seq<Edit>, k: nat)
    requires IsRun(run, edits) && k <= |Last(run).log.undo|
    ensures Repeat(Repeat(Last(run), Undo, k), Redo, k) == Last(run)
  {
    hide Repeat, IsRun;
    var line := RunsKeepTheLine(run, edits);
    WalkBackAndForth(Last(run), line, k);
  }
}
