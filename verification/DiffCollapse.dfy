/** Collapsing unchanged context into gaps, file by file, and capping the result. */
module DiffCollapse {
  import opened Basics
  import opened DiffExpansion

  const COLLAPSED_CONTEXT_LINES: nat := 3
  const COLLAPSED_CONTEXT_THRESHOLD: nat := 1

  predicate IsChange(l: Line) {
    l.kind.Addition? || l.kind.Deletion?
  }

  ghost predicate ChangeBefore(lines: seq<Line>, i: nat) {
    exists k :: 0 <= k < i && k < |lines| && IsChange(lines[k])
  }

  ghost predicate ChangeAfter(lines: seq<Line>, i: nat) {
    exists k :: i <= k < |lines| && IsChange(lines[k])
  }

  // ----- the rule for one row

  /** First and one-past-last row of the context run around row `i`. */
  function RunStart(lines: seq<Line>, i: nat): (a: nat)
    requires i < |lines|
    ensures a <= i
  {
    if i > 0 && lines[i - 1].kind.Context? then RunStart(lines, i - 1) else i
  }

  function RunEnd(lines: seq<Line>, i: nat): (e: nat)
    requires i <= |lines|
    ensures i <= e <= |lines|
    ensures forall k :: i <= k < e ==> lines[k].kind.Context?
    ensures e < |lines| ==> !lines[e].kind.Context?
    decreases |lines| - i
  {
    if i < |lines| && lines[i].kind.Context? then RunEnd(lines, i + 1) else i
  }

  /** Rows kept on a side that faces a change. */
  function KeptIf(change: bool): nat {
    if change then COLLAPSED_CONTEXT_LINES else 0
  }

  /** Row `k` of a context run of `len` rows, given whether the file changes before
      and after the run: it is hidden when it is more than three rows from every side
      that faces a change and not the only such row. */
  predicate HiddenInRun(len: nat, before: bool, after: bool, k: nat) {
    && (before || after)
    && KeptIf(before) <= k && k + KeptIf(after) < len
    && len > KeptIf(before) + KeptIf(after) + COLLAPSED_CONTEXT_THRESHOLD
  }

  ghost predicate HiddenAt(lines: seq<Line>, i: nat)
    requires i < |lines|
  {
    lines[i].kind.Context? &&
    var a, e := RunStart(lines, i), RunEnd(lines, i);
    e >= a && HiddenInRun(e - a, ChangeBefore(lines, a), ChangeAfter(lines, e), i - a)
  }

  function PositionOf(before: bool, after: bool): GapPosition {
    if !before then Leading else if !after then Trailing else Between
  }

  /** `out` shows the rows of one file from row `p` on: each row the rule hides is
      behind a gap, each gap covers a whole stretch of them and says where it is, and
      every other row is there as it was. */
  ghost predicate Shows(lines: seq<Line>, p: nat, out: seq<Line>)
    decreases |out|
  {
    if out == [] then p == |lines|
    else if out[0].kind.GapRow? then
      var gap := out[0].kind.gap;
      var q := p + |gap.hidden|;
      && p + 2 <= q <= |lines| && gap.hidden == lines[p..q]
      && out[0] == GapLine(lines[p].fileIndex, gap)
      && gap.count == |gap.hidden| < U32_LIMIT
      && gap.position == PositionOf(ChangeBefore(lines, p), ChangeAfter(lines, p))
      && (forall j :: p <= j < q ==> HiddenAt(lines, j))
      && (q < |lines| ==> !HiddenAt(lines, q))
      && Shows(lines, q, out[1..])
    else
      && p < |lines| && out[0] == lines[p] && !HiddenAt(lines, p)
      && Shows(lines, p + 1, out[1..])
  }

  // ----- the collapser

  /** The stretch of a run that would be hidden. */
  function HiddenBounds(len: nat, before: bool, after: bool): (r: (nat, nat))
    ensures r.0 <= r.1 <= len
  {
    var lo := if before then Min(COLLAPSED_CONTEXT_LINES, len) else 0;
    var kept := if after then Min(COLLAPSED_CONTEXT_LINES, len - lo) else 0;
    (lo, if before || after then len - kept else lo)
  }

  predicate Collapses(len: nat, before: bool, after: bool) {
    var (lo, hi) := HiddenBounds(len, before, after);
    hi - lo > COLLAPSED_CONTEXT_THRESHOLD
  }

  /** The gap counts in a `u32` and keeps no more rows than it counts. */
  function ContextGap(hidden: seq<Line>, position: GapPosition, id: nat): Line
    requires hidden != []
  {
    var count := Min(|hidden|, U32_LIMIT - 1);
    GapLine(hidden[0].fileIndex, Gap(id, count, hidden[..count], position))
  }

  function CollapsedRun(run: seq<Line>, before: bool, after: bool, id: nat): seq<Line> {
    if !Collapses(|run|, before, after) then run
    else
      var (lo, hi) := HiddenBounds(|run|, before, after);
      run[..lo] + [ContextGap(run[lo..hi], PositionOf(before, after), id)] + run[hi..]
  }

  function IdAfter(len: nat, before: bool, after: bool, id: nat): nat {
    if Collapses(len, before, after) then id + 1 else id
  }

  /** Rows from `i` on, with the id the next gap would get; `saw` says whether a change came before. */
  ghost function CollapsedFrom(lines: seq<Line>, i: nat, saw: bool, id: nat): (seq<Line>, nat)
    requires i <= |lines|
    decreases |lines| - i
  {
    if i == |lines| then ([], id)
    else if !lines[i].kind.Context? then
      var (rest, next) := CollapsedFrom(lines, i + 1, saw || IsChange(lines[i]), id);
      ([lines[i]] + rest, next)
    else
      var e := RunEnd(lines, i);
      var after := ChangeAfter(lines, e);
      var (rest, next) := CollapsedFrom(lines, e, saw, IdAfter(e - i, saw, after, id));
      (CollapsedRun(lines[i..e], saw, after, id) + rest, next)
  }

  ghost function CollapsedFile(lines: seq<Line>, id: nat): (seq<Line>, nat) {
    CollapsedFrom(lines, 0, false, id)
  }

  /** One past the last row of the first file. */
  function FileEnd(lines: seq<Line>, i: nat): (e: nat)
    requires 0 < i <= |lines|
    ensures i <= e <= |lines|
    decreases |lines| - i
  {
    if i < |lines| && lines[i].fileIndex == lines[0].fileIndex then FileEnd(lines, i + 1) else i
  }

  ghost function Collapsed(lines: seq<Line>, id: nat): (seq<Line>, nat) {
    if lines == [] then ([], id)
    else
      var e := FileEnd(lines, 1);
      var (first, next) := CollapsedFile(lines[..e], id);
      var (rest, last) := Collapsed(lines[e..], next);
      (first + rest, last)
  }

  method PushContextGap(output: seq<Line>, hidden: seq<Line>, position: GapPosition, nextGapId: nat)
    returns (r: seq<Line>, next: nat)
    requires hidden != []
    ensures r == output + [ContextGap(hidden, position, nextGapId)] && next == nextGapId + 1
  {
    var count := Min(|hidden|, U32_LIMIT - 1);
    r := output + [Line(hidden[0].fileIndex, None, None, GapRow(Gap(nextGapId, count, hidden[..count], position)), "")];
    next := nextGapId + 1;
  }

  method CollapseRun(run: seq<Line>, before: bool, after: bool, output: seq<Line>, nextGapId: nat)
    returns (r: seq<Line>, next: nat)
    ensures r == output + CollapsedRun(run, before, after, nextGapId)
    ensures next == IdAfter(|run|, before, after, nextGapId)
  {
    hide ContextGap;
    var keptStart := if before then Min(COLLAPSED_CONTEXT_LINES, |run|) else 0;
    var keptEnd := if after then Min(COLLAPSED_CONTEXT_LINES, |run| - keptStart) else 0;
    if !before && !after {
      return output + run, nextGapId;
    }
    var hidden := run[keptStart..|run| - keptEnd];
    if |hidden| <= COLLAPSED_CONTEXT_THRESHOLD {
      return output + run, nextGapId;
    }
    r := output + run[..keptStart];
    r, next := PushContextGap(r, hidden, PositionOf(before, after), nextGapId);
    r := r + run[|run| - keptEnd..];
  }

  method ChangesAfter(lines: seq<Line>) returns (r: seq<bool>)
    ensures |r| == |lines| + 1
    ensures forall k: nat :: k <= |lines| ==> r[k] == ChangeAfter(lines, k)
  {
    hide IsChange;
    var changeAfter := new bool[|lines| + 1](i => false);
    var index: nat := |lines|;
    while index > 0
      invariant index <= |lines|
      invariant forall k: nat :: index <= k <= |lines| ==> changeAfter[k] == ChangeAfter(lines, k)
    {
      index := index - 1;
      changeAfter[index] := changeAfter[index + 1] || IsChange(lines[index]);
    }
    r := changeAfter[..];
  }

  method CollapseFileContext(lines: seq<Line>, output: seq<Line>, nextGapId: nat) returns (r: seq<Line>, next: nat)
    ensures r == output + CollapsedFile(lines, nextGapId).0 && next == CollapsedFile(lines, nextGapId).1
  {
    hide CollapsedRun, IdAfter, IsChange, ChangeAfter;
    var changeAfter := ChangesAfter(lines);
    var sawChange := false;
    r, next := output, nextGapId;
    var index: nat := 0;
    while index < |lines|
      invariant index <= |lines|
      invariant r + CollapsedFrom(lines, index, sawChange, next).0 == output + CollapsedFile(lines, nextGapId).0
      invariant CollapsedFrom(lines, index, sawChange, next).1 == CollapsedFile(lines, nextGapId).1
    {
      if !lines[index].kind.Context? {
        CollapsedAtRow(lines, index, sawChange, next);
        Associates(r, [lines[index]], CollapsedFrom(lines, index + 1, sawChange || IsChange(lines[index]), next).0);
        sawChange := sawChange || IsChange(lines[index]);
        r := r + [lines[index]];
        index := index + 1;
      } else {
        var runStart := index;
        while index < |lines| && lines[index].kind.Context?
          invariant runStart <= index <= |lines|
          invariant RunEnd(lines, index) == RunEnd(lines, runStart)
        {
          index := index + 1;
        }
        assert RunEnd(lines, runStart) == index;
        ghost var shown := CollapsedRun(lines[runStart..index], sawChange, ChangeAfter(lines, index), next);
        ghost var later := IdAfter(index - runStart, sawChange, ChangeAfter(lines, index), next);
        CollapsedAtRun(lines, runStart, sawChange, next, index, ChangeAfter(lines, index));
        Associates(r, shown, CollapsedFrom(lines, index, sawChange, later).0);
        r, next := CollapseRun(lines[runStart..index], sawChange, changeAfter[index], r, next);
      }
    }
  }

  method CollapseContext(lines: seq<Line>) returns (collapsed: seq<Line>)
    ensures collapsed == Collapsed(lines, 0).0
  {
    hide CollapsedFile, Collapsed;
    collapsed := [];
    var nextGapId := 0;
    var fileStart := 0;
    assert lines[0..] == lines && [] + Collapsed(lines, 0).0 == Collapsed(lines, 0).0;
    while fileStart < |lines|
      invariant fileStart <= |lines|
      invariant collapsed + Collapsed(lines[fileStart..], nextGapId).0 == Collapsed(lines, 0).0
    {
      ghost var rest := lines[fileStart..];
      var fileIndex := lines[fileStart].fileIndex;
      var fileEnd := fileStart + 1;
      while fileEnd < |lines| && lines[fileEnd].fileIndex == fileIndex
        invariant fileStart < fileEnd <= |lines|
        invariant FileEnd(rest, fileEnd - fileStart) == FileEnd(rest, 1)
      {
        fileEnd := fileEnd + 1;
      }
      FirstFile(collapsed, rest, lines[fileStart..fileEnd], lines[fileEnd..], nextGapId);
      collapsed, nextGapId := CollapseFileContext(lines[fileStart..fileEnd], collapsed, nextGapId);
      fileStart := fileEnd;
    }
    assert lines[fileStart..] == [];
    NoFileLeft(collapsed, nextGapId);
  }

  lemma FirstFile(before: seq<Line>, rest: seq<Line>, file: seq<Line>, others: seq<Line>, id: nat)
    requires rest != [] && |file| == FileEnd(rest, 1) && file == rest[..|file|] && others == rest[|file|..]
    ensures var (first, next) := CollapsedFile(file, id);
      before + Collapsed(rest, id).0 == (before + first) + Collapsed(others, next).0
  {
    hide CollapsedFile, FileEnd;
    var (first, next) := CollapsedFile(file, id);
    assert before + (first + Collapsed(others, next).0) == (before + first) + Collapsed(others, next).0;
  }

  lemma NoFileLeft(collapsed: seq<Line>, id: nat)
    ensures collapsed + Collapsed([], id).0 == collapsed
  {
  }

  // ----- the collapser against the rule

  predicate NoGaps(lines: seq<Line>) {
    forall l :: l in lines ==> !l.kind.GapRow?
  }

  /** Row `i` does not continue a context run. */
  predicate AtEdge(lines: seq<Line>, i: nat) {
    i == 0 || i >= |lines| || !lines[i - 1].kind.Context? || !lines[i].kind.Context?
  }

  /** Every stretch hidden from row `i` on can be counted in a `u32`. */
  ghost predicate FitsFrom(lines: seq<Line>, i: nat, saw: bool)
    requires i <= |lines|
    decreases |lines| - i
  {
    if i == |lines| then true
    else if !lines[i].kind.Context? then FitsFrom(lines, i + 1, saw || IsChange(lines[i]))
    else
      var e := RunEnd(lines, i);
      var (lo, hi) := HiddenBounds(e - i, saw, ChangeAfter(lines, e));
      hi - lo < U32_LIMIT && FitsFrom(lines, e, saw)
  }

  lemma BoundsFollowRule(len: nat, before: bool, after: bool, k: nat)
    requires k < len
    ensures var (lo, hi) := HiddenBounds(len, before, after);
      HiddenInRun(len, before, after, k) <==> Collapses(len, before, after) && lo <= k < hi
  {
  }

  lemma {:induction false} RunStartIs(lines: seq<Line>, i: nat, j: nat)
    requires i <= j < |lines| && AtEdge(lines, i)
    requires forall k :: i <= k <= j ==> lines[k].kind.Context?
    ensures RunStart(lines, j) == i
  {
    if i < j {
      RunStartIs(lines, i, j - 1);
    }
  }

  lemma {:induction false} RunEndIs(lines: seq<Line>, i: nat, j: nat)
    requires i <= |lines| && i <= j <= RunEnd(lines, i)
    ensures RunEnd(lines, j) == RunEnd(lines, i)
    decreases j
  {
    if i < j {
      RunEndIs(lines, i, j - 1);
    }
  }

  /** Inside one run the rule is a rule about positions in the run. */
  lemma RuleInRun(lines: seq<Line>, i: nat, j: nat)
    requires i <= j < |lines| && AtEdge(lines, i) && j < RunEnd(lines, i)
    ensures var e := RunEnd(lines, i);
      HiddenAt(lines, j) <==> HiddenInRun(e - i, ChangeBefore(lines, i), ChangeAfter(lines, e), j - i)
  {
    hide HiddenInRun, ChangeBefore, ChangeAfter;
    RunStartIs(lines, i, j);
    RunEndIs(lines, i, j);
  }

  lemma {:induction false} ShowsPlain(lines: seq<Line>, p: nat, q: nat, rest: seq<Line>)
    requires p <= q <= |lines| && NoGaps(lines) && Shows(lines, q, rest)
    requires forall j :: p <= j < q ==> !HiddenAt(lines, j)
    ensures Shows(lines, p, lines[p..q] + rest)
    decreases q - p
  {
    hide HiddenAt;
    if p < q {
      ShowsPlain(lines, p + 1, q, rest);
      assert lines[p] in lines;
      assert (lines[p..q] + rest)[1..] == lines[p + 1..q] + rest;
    } else {
      assert lines[p..q] + rest == rest;
    }
  }

  lemma ShowsGap(lines: seq<Line>, p: nat, q: nat, id: nat, rest: seq<Line>)
    requires p + 2 <= q <= |lines| && q - p < U32_LIMIT && Shows(lines, q, rest)
    requires forall j :: p <= j < q ==> HiddenAt(lines, j)
    requires q < |lines| ==> !HiddenAt(lines, q)
    ensures Shows(lines, p,
                  [ContextGap(lines[p..q], PositionOf(ChangeBefore(lines, p), ChangeAfter(lines, p)), id)] + rest)
  {
    hide HiddenAt, ChangeBefore, ChangeAfter;
    var out := [ContextGap(lines[p..q], PositionOf(ChangeBefore(lines, p), ChangeAfter(lines, p)), id)] + rest;
    assert lines[p..q][..q - p] == lines[p..q];
    assert out[1..] == rest;
  }

  lemma NoChangeInRun(lines: seq<Line>, i: nat, j: nat)
    requires i <= j < |lines| && j <= RunEnd(lines, i)
    ensures ChangeBefore(lines, j) <==> ChangeBefore(lines, i)
    ensures ChangeAfter(lines, j) <==> ChangeAfter(lines, RunEnd(lines, i))
  {
    if ChangeBefore(lines, j) {
      var k :| 0 <= k < j && k < |lines| && IsChange(lines[k]);
      assert k < i;
    }
    if ChangeAfter(lines, j) {
      var k :| j <= k < |lines| && IsChange(lines[k]);
      assert k >= RunEnd(lines, i);
    }
  }

  lemma RuleForRun(lines: seq<Line>, i: nat, j: nat)
    requires i <= j < |lines| && AtEdge(lines, i) && j < RunEnd(lines, i)
    ensures var e := RunEnd(lines, i);
      var (lo, hi) := HiddenBounds(e - i, ChangeBefore(lines, i), ChangeAfter(lines, e));
      HiddenAt(lines, j) <==> Collapses(e - i, ChangeBefore(lines, i), ChangeAfter(lines, e)) && i + lo <= j < i + hi
  {
    hide HiddenAt, ChangeBefore, ChangeAfter, HiddenInRun;
    RuleInRun(lines, i, j);
    BoundsFollowRule(RunEnd(lines, i) - i, ChangeBefore(lines, i), ChangeAfter(lines, RunEnd(lines, i)), j - i);
  }

  /** One run, collapsed, shows what the rule says. */
  lemma RunShows(lines: seq<Line>, i: nat, id: nat, rest: seq<Line>)
    requires i < |lines| && NoGaps(lines) && AtEdge(lines, i) && lines[i].kind.Context?
    requires Shows(lines, RunEnd(lines, i), rest)
    requires var e := RunEnd(lines, i);
      var (lo, hi) := HiddenBounds(e - i, ChangeBefore(lines, i), ChangeAfter(lines, e));
      hi - lo < U32_LIMIT
    ensures var e := RunEnd(lines, i);
      Shows(lines, i, CollapsedRun(lines[i..e], ChangeBefore(lines, i), ChangeAfter(lines, e), id) + rest)
  {
    hide *;
    var e := RunEnd(lines, i);
    var before, after := ChangeBefore(lines, i), ChangeAfter(lines, e);
    EndIsPast(lines, i);
    RunEndsInSight(lines, i);
    if Collapses(e - i, before, after) {
      var (lo, hi) := HiddenBounds(e - i, before, after);
      var p, q := i + lo, i + hi;
      WideStretch(e - i, before, after);
      HiddenStretch(lines, i, e, p, q);
      RunWithGapShows(lines, i, p, q, e, id, rest);
      NoChangeInRun(lines, i, p);
      CollapsedRunIs(lines, i, p, q, e, before, after, id, rest);
    } else {
      NothingHidden(lines, i, e);
      ShowsPlain(lines, i, e, rest);
      NotCollapsed(lines[i..e], before, after, id);
    }
  }

  lemma RunEndsInSight(lines: seq<Line>, i: nat)
    requires i <= |lines|
    ensures var e := RunEnd(lines, i); e < |lines| ==> !HiddenAt(lines, e)
  {
    hide HiddenInRun, ChangeBefore, ChangeAfter;
  }

  lemma WideStretch(len: nat, before: bool, after: bool)
    requires Collapses(len, before, after)
    ensures var (lo, hi) := HiddenBounds(len, before, after); lo + 2 <= hi <= len
  {
  }

  lemma HiddenStretch(lines: seq<Line>, i: nat, e: nat, p: nat, q: nat)
    requires i < |lines| && AtEdge(lines, i) && e == RunEnd(lines, i)
    requires Collapses(e - i, ChangeBefore(lines, i), ChangeAfter(lines, e))
    requires (p - i, q - i) == HiddenBounds(e - i, ChangeBefore(lines, i), ChangeAfter(lines, e))
    ensures forall j :: i <= j < e ==> (HiddenAt(lines, j) <==> p <= j < q)
  {
    hide *;
    forall j | i <= j < e ensures HiddenAt(lines, j) <==> p <= j < q {
      RuleForRun(lines, i, j);
    }
  }

  lemma NothingHidden(lines: seq<Line>, i: nat, e: nat)
    requires i < |lines| && AtEdge(lines, i) && e == RunEnd(lines, i)
    requires !Collapses(e - i, ChangeBefore(lines, i), ChangeAfter(lines, e))
    ensures forall j :: i <= j < e ==> !HiddenAt(lines, j)
  {
    hide *;
    forall j | i <= j < e ensures !HiddenAt(lines, j) {
      RuleForRun(lines, i, j);
    }
  }

  lemma NotCollapsed(run: seq<Line>, before: bool, after: bool, id: nat)
    requires !Collapses(|run|, before, after)
    ensures CollapsedRun(run, before, after, id) == run
  {
  }

  lemma CollapsedRunIs(lines: seq<Line>, i: nat, p: nat, q: nat, e: nat, before: bool, after: bool, id: nat,
                       rest: seq<Line>)
    requires i <= p < q <= e <= |lines| && Collapses(e - i, before, after)
    requires (p - i, q - i) == HiddenBounds(e - i, before, after)
    ensures CollapsedRun(lines[i..e], before, after, id) + rest
         == lines[i..p] + ([ContextGap(lines[p..q], PositionOf(before, after), id)] + (lines[q..e] + rest))
  {
    hide HiddenBounds, Collapses, ContextGap, PositionOf;
    CutRun(lines, i, p, q, e, ContextGap(lines[p..q], PositionOf(before, after), id), rest);
  }

  lemma RunWithGapShows(lines: seq<Line>, i: nat, p: nat, q: nat, e: nat, id: nat, rest: seq<Line>)
    requires i <= p && p + 2 <= q <= e <= |lines| && q - p < U32_LIMIT && NoGaps(lines) && Shows(lines, e, rest)
    requires forall j :: i <= j < e ==> (HiddenAt(lines, j) <==> p <= j < q)
    requires e < |lines| ==> !HiddenAt(lines, e)
    ensures Shows(lines, i, lines[i..p]
      + ([ContextGap(lines[p..q], PositionOf(ChangeBefore(lines, p), ChangeAfter(lines, p)), id)]
        + (lines[q..e] + rest)))
  {
    hide Shows, HiddenAt, ChangeBefore, ChangeAfter, ContextGap, NoGaps;
    ShowsPlain(lines, q, e, rest);
    ShowsGap(lines, p, q, id, lines[q..e] + rest);
    ShowsPlain(lines, i, p,
      [ContextGap(lines[p..q], PositionOf(ChangeBefore(lines, p), ChangeAfter(lines, p)), id)] + (lines[q..e] + rest));
  }

  lemma CutRun(lines: seq<Line>, i: nat, p: nat, q: nat, e: nat, gap: Line, rest: seq<Line>)
    requires i <= p <= q <= e <= |lines|
    ensures var run := lines[i..e];
      run[..p - i] + [gap] + run[q - i..] + rest == lines[i..p] + ([gap] + (lines[q..e] + rest))
    ensures lines[i..e][p - i..q - i] == lines[p..q]
  {
    var run := lines[i..e];
    SliceOfSlice(lines, i, i, p, e);
    SliceOfSlice(lines, i, p, q, e);
    SliceOfSlice(lines, i, q, e, e);
    assert run[q - i..e - i] == run[q - i..];
  }

  lemma SliceOfSlice(lines: seq<Line>, i: nat, p: nat, q: nat, e: nat)
    requires i <= p <= q <= e <= |lines|
    ensures lines[i..e][p - i..q - i] == lines[p..q]
  {
    var a, b := lines[i..e][p - i..q - i], lines[p..q];
    assert |a| == |b|;
    assert forall k :: 0 <= k < |a| ==> a[k] == b[k];
  }

  /** The collapsed file shows exactly what the rule says, for any file. */
  lemma {:induction false} CollapsedShows(lines: seq<Line>, i: nat, id: nat)
    requires i <= |lines| && NoGaps(lines) && AtEdge(lines, i)
    requires FitsFrom(lines, i, ChangeBefore(lines, i))
    ensures Shows(lines, i, CollapsedFrom(lines, i, ChangeBefore(lines, i), id).0)
    decreases |lines| - i
  {
    var saw := ChangeBefore(lines, i);
    if i < |lines| {
      if !lines[i].kind.Context? {
        assert ChangeBefore(lines, i + 1) == (saw || IsChange(lines[i]));
        CollapsedShows(lines, i + 1, id);
        assert lines[i] in lines;
        var rest := CollapsedFrom(lines, i + 1, saw || IsChange(lines[i]), id).0;
        assert ([lines[i]] + rest)[1..] == rest;
      } else {
        var e := RunEnd(lines, i);
        var next := IdAfter(e - i, saw, ChangeAfter(lines, e), id);
        assert ChangeBefore(lines, e) == saw by { NoChangeUpToEnd(lines, i); }
        CollapsedShows(lines, e, next);
        RunShows(lines, i, id, CollapsedFrom(lines, e, saw, next).0);
      }
    }
  }

  lemma NoChangeUpToEnd(lines: seq<Line>, i: nat)
    requires i < |lines|
    ensures ChangeBefore(lines, RunEnd(lines, i)) == ChangeBefore(lines, i)
  {
    if ChangeBefore(lines, RunEnd(lines, i)) {
      var k :| 0 <= k < RunEnd(lines, i) && k < |lines| && IsChange(lines[k]);
      assert k < i;
    }
  }

  // ----- what the rule gives

  /** Putting the hidden rows back gives the file, and what is hidden is context. */
  lemma {:induction false} ShowsConserves(lines: seq<Line>, p: nat, out: seq<Line>)
    requires p <= |lines| && Shows(lines, p, out)
    ensures Rows(out) == lines[p..] && Complete(out)
    decreases |out|
  {
    if out == [] {
    } else if out[0].kind.GapRow? {
      var q := p + |out[0].kind.gap.hidden|;
      ShowsConserves(lines, q, out[1..]);
      assert lines[p..] == lines[p..q] + lines[q..];
      HiddenIsPlain(lines, p, q);
      CompleteCons(out);
    } else {
      ShowsConserves(lines, p + 1, out[1..]);
      assert lines[p..] == [lines[p]] + lines[p + 1..];
      CompleteCons(out);
    }
  }

  lemma HiddenIsPlain(lines: seq<Line>, p: nat, q: nat)
    requires p <= q <= |lines| && forall j :: p <= j < q ==> HiddenAt(lines, j)
    ensures PlainRows(lines[p..q])
  {
    forall l | l in lines[p..q] ensures l.kind.Context? {
      var k :| 0 <= k < q - p && lines[p..q][k] == l;
      assert HiddenAt(lines, p + k);
    }
  }

  lemma CompleteCons(out: seq<Line>)
    requires out != [] && Complete(out[1..])
    requires out[0].kind.GapRow? ==>
      var gap := out[0].kind.gap; IsExpandable(gap) && |gap.hidden| < U32_LIMIT && PlainRows(gap.hidden)
    ensures Complete(out)
  {
    assert out == [out[0]] + out[1..];
  }

  /** A file with no change is left as it is. */
  lemma {:induction false} UnchangedFileUntouched(lines: seq<Line>, p: nat, out: seq<Line>)
    requires p <= |lines| && Shows(lines, p, out) && !ChangeAfter(lines, 0)
    ensures out == lines[p..]
    decreases |out|
  {
    if out != [] {
      assert forall j :: 0 <= j < |lines| ==> !IsChange(lines[j]);
      assert !HiddenAt(lines, p);
      UnchangedFileUntouched(lines, p + 1, out[1..]);
      assert out == [out[0]] + out[1..];
    }
  }

  lemma {:induction false} RowsOfGapless(rows: seq<Line>)
    requires NoGaps(rows)
    ensures Rows(rows) == rows && Gaps(rows) == []
  {
    if rows != [] {
      assert rows[0] in rows;
      RowsOfGapless(rows[1..]);
      assert rows == [rows[0]] + rows[1..];
    }
  }

  lemma GappedRun(a: seq<Line>, gap: Line, b: seq<Line>)
    requires NoGaps(a) && NoGaps(b) && gap.kind.GapRow?
    ensures Rows(a + [gap] + b) == a + gap.kind.gap.hidden + b
    ensures Gaps(a + [gap] + b) == [(gap.kind.gap.id, gap.kind.gap.position)]
  {
    hide Rows, Gaps, NoGaps;
    RowsOfGapless(a);
    RowsOfGapless(b);
    OneGapRow(gap);
    RowsOfThree(a, [gap], b);
    GapsOfThree(a, [gap], b);
  }

  lemma RunRowCount(run: seq<Line>, before: bool, after: bool, id: nat)
    requires NoGaps(run)
    ensures var (lo, hi) := HiddenBounds(|run|, before, after);
      |Rows(CollapsedRun(run, before, after, id))|
        == if hi - lo < U32_LIMIT then |run| else |run| - (hi - lo) + U32_LIMIT - 1
  {
    hide Rows, HiddenBounds;
    RowsOfGapless(run);
    if Collapses(|run|, before, after) {
      var (lo, hi) := HiddenBounds(|run|, before, after);
      GappedRun(run[..lo], ContextGap(run[lo..hi], PositionOf(before, after), id), run[hi..]);
    }
  }

  // ----- the collapser, one row or one run at a time

  lemma CollapsedAtRow(lines: seq<Line>, i: nat, saw: bool, id: nat)
    requires i < |lines| && !lines[i].kind.Context?
    ensures var (rest, next) := CollapsedFrom(lines, i + 1, saw || IsChange(lines[i]), id);
      CollapsedFrom(lines, i, saw, id) == ([lines[i]] + rest, next)
  {
    hide IsChange, ChangeAfter, CollapsedRun, IdAfter;
  }

  lemma CollapsedAtRun(lines: seq<Line>, i: nat, saw: bool, id: nat, e: nat, after: bool)
    requires i < |lines| && lines[i].kind.Context? && e == RunEnd(lines, i) && after == ChangeAfter(lines, e)
    ensures var (rest, next) := CollapsedFrom(lines, e, saw, IdAfter(e - i, saw, after, id));
      CollapsedFrom(lines, i, saw, id) == (CollapsedRun(lines[i..e], saw, after, id) + rest, next)
  {
    hide IsChange, ChangeAfter, CollapsedRun, IdAfter;
  }

  lemma CollapsedAtEnd(lines: seq<Line>, saw: bool, id: nat)
    ensures CollapsedFrom(lines, |lines|, saw, id) == ([], id) && FitsFrom(lines, |lines|, saw)
    ensures Rows([]) == [] && Gaps([]) == []
  {
  }

  lemma PlainRow(lines: seq<Line>, i: nat)
    requires i < |lines| && NoGaps(lines)
    ensures Rows([lines[i]]) == [lines[i]] && Gaps([lines[i]]) == []
  {
    assert lines[i] in lines;
    assert [lines[i]][1..] == [];
  }

  lemma NoGapsInRun(lines: seq<Line>, i: nat, e: nat)
    requires i <= e <= |lines| && NoGaps(lines)
    ensures NoGaps(lines[i..e])
  {
  }

  lemma ChangeBeforeNext(lines: seq<Line>, i: nat)
    requires i < |lines|
    ensures ChangeBefore(lines, i + 1) == (ChangeBefore(lines, i) || IsChange(lines[i]))
  {
  }

  lemma FitsAtRow(lines: seq<Line>, i: nat, saw: bool)
    requires i < |lines| && !lines[i].kind.Context?
    ensures FitsFrom(lines, i, saw) <==> FitsFrom(lines, i + 1, saw || IsChange(lines[i]))
  {
    hide IsChange;
  }

  lemma FitsAtRun(lines: seq<Line>, i: nat, saw: bool, e: nat, after: bool)
    requires i < |lines| && lines[i].kind.Context? && e == RunEnd(lines, i) && after == ChangeAfter(lines, e)
    ensures var (lo, hi) := HiddenBounds(e - i, saw, after);
      FitsFrom(lines, i, saw) <==> hi - lo < U32_LIMIT && FitsFrom(lines, e, saw)
  {
    hide HiddenBounds, ChangeAfter, IsChange;
  }

  /** Exactly when no stretch overflows its count does the file keep all its rows. */
  lemma {:induction false} KeepsAllRowsIff(lines: seq<Line>, i: nat, id: nat)
    requires i <= |lines| && NoGaps(lines)
    ensures var saw := ChangeBefore(lines, i); var out := CollapsedFrom(lines, i, saw, id).0;
      && |Rows(out)| <= |lines| - i
      && (|Rows(out)| == |lines| - i <==> FitsFrom(lines, i, saw))
    decreases |lines| - i
  {
    hide *;
    var saw := ChangeBefore(lines, i);
    if i == |lines| {
      CollapsedAtEnd(lines, saw, id);
    } else if !lines[i].kind.Context? {
      ChangeBeforeNext(lines, i);
      CollapsedAtRow(lines, i, saw, id);
      FitsAtRow(lines, i, saw);
      KeepsAllRowsIff(lines, i + 1, id);
      PlainRow(lines, i);
      RowsOfConcat([lines[i]], CollapsedFrom(lines, i + 1, saw || IsChange(lines[i]), id).0);
    } else {
      var e := RunEnd(lines, i);
      var after := ChangeAfter(lines, e);
      var next := IdAfter(e - i, saw, after, id);
      NoChangeUpToEnd(lines, i);
      CollapsedAtRun(lines, i, saw, id, e, after);
      FitsAtRun(lines, i, saw, e, after);
      EndIsPast(lines, i);
      KeepsAllRowsIff(lines, e, next);
      NoGapsInRun(lines, i, e);
      RunRowCount(lines[i..e], saw, after, id);
      RowsOfConcat(CollapsedRun(lines[i..e], saw, after, id), CollapsedFrom(lines, e, saw, next).0);
    }
  }

  lemma EndIsPast(lines: seq<Line>, i: nat)
    requires i < |lines| && lines[i].kind.Context?
    ensures i < RunEnd(lines, i) <= |lines|
  {
  }

  /** Gap ids count up. */
  predicate Consecutive(gaps: seq<(nat, GapPosition)>, id: nat) {
    forall k :: 0 <= k < |gaps| ==> gaps[k].0 == id + k
  }

  lemma RunGaps(run: seq<Line>, before: bool, after: bool, id: nat)
    requires NoGaps(run)
    ensures var gaps := Gaps(CollapsedRun(run, before, after, id));
      Consecutive(gaps, id) && IdAfter(|run|, before, after, id) == id + |gaps|
  {
    hide Gaps, HiddenBounds;
    RowsOfGapless(run);
    if Collapses(|run|, before, after) {
      var (lo, hi) := HiddenBounds(|run|, before, after);
      GappedRun(run[..lo], ContextGap(run[lo..hi], PositionOf(before, after), id), run[hi..]);
    }
  }

  lemma {:induction false} FileGapsCountUp(lines: seq<Line>, i: nat, saw: bool, id: nat)
    requires i <= |lines| && NoGaps(lines)
    ensures var (out, next) := CollapsedFrom(lines, i, saw, id);
      Consecutive(Gaps(out), id) && next == id + |Gaps(out)|
    decreases |lines| - i
  {
    hide *;
    if i == |lines| {
      CollapsedAtEnd(lines, saw, id);
      NoneConsecutive(id);
    } else if !lines[i].kind.Context? {
      CollapsedAtRow(lines, i, saw, id);
      FileGapsCountUp(lines, i + 1, saw || IsChange(lines[i]), id);
      var rest := CollapsedFrom(lines, i + 1, saw || IsChange(lines[i]), id).0;
      PlainRow(lines, i);
      GapsOfConcat([lines[i]], rest);
      assert [] + Gaps(rest) == Gaps(rest);
    } else {
      var e := RunEnd(lines, i);
      var after := ChangeAfter(lines, e);
      var next := IdAfter(e - i, saw, after, id);
      CollapsedAtRun(lines, i, saw, id, e, after);
      EndIsPast(lines, i);
      NoGapsInRun(lines, i, e);
      RunGaps(lines[i..e], saw, after, id);
      FileGapsCountUp(lines, e, saw, next);
      var shown, rest := CollapsedRun(lines[i..e], saw, after, id), CollapsedFrom(lines, e, saw, next).0;
      GapsOfConcat(shown, rest);
      ConsecutiveConcat(Gaps(shown), Gaps(rest), id);
    }
  }

  lemma NoneConsecutive(id: nat)
    ensures Consecutive([], id)
  {
  }

  lemma ConsecutiveConcat(a: seq<(nat, GapPosition)>, b: seq<(nat, GapPosition)>, id: nat)
    requires Consecutive(a, id) && Consecutive(b, id + |a|)
    ensures Consecutive(a + b, id)
  {
  }

  // ----- the rule, seen in the file

  /** Between two rows that are no context, three context rows stay next to each side beyond which the file
      changes, and the others are hidden if there are at least two of them. */
  lemma HiddenInStretch(lines: seq<Line>, a: nat, e: nat, i: nat)
    requires a <= i < e <= |lines| && (forall j :: a <= j < e ==> lines[j].kind.Context?)
    requires (a == 0 || !lines[a - 1].kind.Context?) && (e == |lines| || !lines[e].kind.Context?)
    ensures var before := exists j :: 0 <= j < a && IsChange(lines[j]);
      var after := exists j :: e <= j < |lines| && IsChange(lines[j]);
      HiddenAt(lines, i) <==>
        if before && after then a + 3 <= i < e - 3 && e - a >= 8
        else if before then a + 3 <= i && e - a >= 5
        else after && i < e - 3 && e - a >= 5
  {
    hide IsChange;
    RunStartIs(lines, a, i);
    EndOfStretch(lines, a, e);
    RunEndIs(lines, a, i);
  }

  lemma {:induction false} EndOfStretch(lines: seq<Line>, a: nat, e: nat)
    requires a <= e <= |lines| && (forall j :: a <= j < e ==> lines[j].kind.Context?)
    requires e == |lines| || !lines[e].kind.Context?
    ensures RunEnd(lines, a) == e
    decreases e - a
  {
    if a < e {
      EndOfStretch(lines, a + 1, e);
    }
  }

  /** So nothing is hidden but context, and never within three rows of a change. */
  lemma HiddenIsFar(lines: seq<Line>, i: nat, j: nat)
    requires i < |lines| && j < |lines| && HiddenAt(lines, i) && IsChange(lines[j])
    ensures lines[i].kind.Context? && (j + 3 < i || i + 3 < j)
  {
    var a, e := RunStart(lines, i), RunEnd(lines, i);
    RunIsContext(lines, i);
    assert j < a || e <= j;
    if j < a {
      assert ChangeBefore(lines, a);
    } else {
      assert ChangeAfter(lines, e);
    }
  }

  lemma RunIsContext(lines: seq<Line>, i: nat)
    requires i < |lines| && lines[i].kind.Context?
    ensures RunStart(lines, i) <= i < RunEnd(lines, i) <= |lines|
    ensures forall j :: RunStart(lines, i) <= j < RunEnd(lines, i) ==> lines[j].kind.Context?
  {
    StartIsContext(lines, i);
  }

  lemma {:induction false} StartIsContext(lines: seq<Line>, i: nat)
    requires i < |lines| && lines[i].kind.Context?
    ensures RunStart(lines, i) <= i && forall j :: RunStart(lines, i) <= j <= i ==> lines[j].kind.Context?
  {
    if i > 0 && lines[i - 1].kind.Context? {
      StartIsContext(lines, i - 1);
    }
  }

  ghost predicate ChangeIn(lines: seq<Line>, from: nat, to: nat) {
    exists j :: from <= j < to <= |lines| && IsChange(lines[j])
  }

  /** A collapsed file shows every change of the file. */
  lemma {:induction false} ChangesAreShown(lines: seq<Line>, p: nat, out: seq<Line>)
    requires p <= |lines| && Shows(lines, p, out)
    ensures ChangeIn(out, 0, |out|) <==> ChangeAfter(lines, p)
    decreases |out|
  {
    hide HiddenAt;
    if out != [] {
      var rest := out[1..];
      var q := if out[0].kind.GapRow? then p + |out[0].kind.gap.hidden| else p + 1;
      ChangesAreShown(lines, q, rest);
      ChangeInTail(out);
      if out[0].kind.GapRow? {
        HiddenNoChange(lines, p, q);
      } else {
        assert ChangeAfter(lines, p) <==> IsChange(lines[p]) || ChangeAfter(lines, p + 1);
      }
    }
  }

  lemma ChangeInTail(out: seq<Line>)
    requires out != []
    ensures ChangeIn(out, 0, |out|) <==> IsChange(out[0]) || ChangeIn(out[1..], 0, |out| - 1)
  {
    hide IsChange;
    if j :| 0 < j < |out| && IsChange(out[j]) {
      assert IsChange(out[1..][j - 1]);
    }
    if j :| 0 <= j < |out| - 1 && IsChange(out[1..][j]) {
      assert IsChange(out[j + 1]);
    }
  }

  lemma HiddenNoChange(lines: seq<Line>, p: nat, q: nat)
    requires p <= q <= |lines| && forall j :: p <= j < q ==> HiddenAt(lines, j)
    ensures ChangeAfter(lines, p) <==> ChangeAfter(lines, q)
    ensures ChangeBefore(lines, p) <==> ChangeBefore(lines, q)
  {
    forall j | p <= j < q ensures !IsChange(lines[j]) {
      assert HiddenAt(lines, j);
    }
  }

  /** A gap says whether the file changes before it, after it, or on both sides. */
  lemma {:induction false} GapSaysWhere(lines: seq<Line>, p: nat, out: seq<Line>, k: nat)
    requires p <= |lines| && Shows(lines, p, out) && k < |out| && out[k].kind.GapRow?
    ensures var before := ChangeBefore(lines, p) || ChangeIn(out, 0, k);
      var after := ChangeIn(out, k + 1, |out|);
      && (out[k].kind.gap.position.Leading? <==> !before)
      && (out[k].kind.gap.position.Trailing? <==> before && !after)
      && (out[k].kind.gap.position.Between? <==> before && after)
    decreases |out|
  {
    hide HiddenAt;
    var rest := out[1..];
    var q := if out[0].kind.GapRow? then p + |out[0].kind.gap.hidden| else p + 1;
    if out[0].kind.GapRow? {
      HiddenNoChange(lines, p, q);
    }
    if k == 0 {
      ChangesAreShown(lines, q, rest);
      ShiftedChange(out, 1, |out|);
    } else {
      GapSaysWhere(lines, q, rest, k - 1);
      ShiftedChange(out, 1, k);
      ShiftedChange(out, k + 1, |out|);
      FirstOrLater(out, k);
      if !out[0].kind.GapRow? {
        ChangeBeforeNext(lines, p);
      }
    }
  }

  lemma ShiftedChange(out: seq<Line>, from: nat, to: nat)
    requires 1 <= from <= |out| && to <= |out|
    ensures to >= 1 ==> (ChangeIn(out, from, to) <==> ChangeIn(out[1..], from - 1, to - 1))
  {
    hide IsChange;
    if j :| from <= j < to && IsChange(out[j]) {
      assert IsChange(out[1..][j - 1]);
    }
    if to >= 1 {
      if j :| from - 1 <= j < to - 1 && IsChange(out[1..][j]) {
        assert IsChange(out[j + 1]);
      }
    }
  }

  lemma FirstOrLater(out: seq<Line>, k: nat)
    requires 0 < k <= |out|
    ensures ChangeIn(out, 0, k) <==> IsChange(out[0]) || ChangeIn(out, 1, k)
  {
    hide IsChange;
    if j :| 0 <= j < k && IsChange(out[j]) {
      assert j == 0 || 1 <= j < k;
    }
    if IsChange(out[0]) {
      assert 0 <= 0 < k;
    }
  }

  // ----- all files

  ghost predicate Fits(lines: seq<Line>) {
    lines == [] ||
    var e := FileEnd(lines, 1);
    FitsFrom(lines[..e], 0, false) && Fits(lines[e..])
  }

  /** The collapsed list is, file by file, what the rule shows of that file. */
  ghost predicate ShowsAll(lines: seq<Line>, out: seq<Line>) {
    if lines == [] then out == []
    else
      var e := FileEnd(lines, 1);
      exists k :: 0 <= k <= |out| && Shows(lines[..e], 0, out[..k]) && ShowsAll(lines[e..], out[k..])
  }

  lemma FileTheorem(file: seq<Line>, id: nat)
    requires NoGaps(file) && FitsFrom(file, 0, false)
    ensures var (out, next) := CollapsedFile(file, id);
      && Shows(file, 0, out)
      && Rows(out) == file && Complete(out)
      && Consecutive(Gaps(out), id) && next == id + |Gaps(out)|
  {
    assert !ChangeBefore(file, 0) && file[0..] == file;
    hide Shows, Rows, Gaps, Complete, NoGaps, FitsFrom, ChangeBefore;
    CollapsedShows(file, 0, id);
    ShowsConserves(file, 0, CollapsedFile(file, id).0);
    FileGapsCountUp(file, 0, false, id);
  }

  lemma NoGapsSplit(lines: seq<Line>, e: nat)
    requires e <= |lines| && NoGaps(lines)
    ensures NoGaps(lines[..e]) && NoGaps(lines[e..]) && lines == lines[..e] + lines[e..]
  {
  }

  /** The collapsing theorem: file by file what the rule says, no row lost, complete
      context behind every gap, and gap ids that count up from `id`. */
  lemma {:induction false} CollapseTheorem(lines: seq<Line>, id: nat)
    requires NoGaps(lines) && Fits(lines)
    ensures var (out, next) := Collapsed(lines, id);
      && ShowsAll(lines, out)
      && Rows(out) == lines && Complete(out)
      && Consecutive(Gaps(out), id) && next == id + |Gaps(out)|
    decreases |lines|
  {
    hide Shows, CollapsedFile, Complete, NoGaps, FileEnd, FitsFrom, Consecutive;
    if lines == [] {
      NothingCollapsed(id);
    } else {
      var e := FileEnd(lines, 1);
      NoGapsSplit(lines, e);
      var file, others := lines[..e], lines[e..];
      FileTheorem(file, id);
      var (first, next) := CollapsedFile(file, id);
      CollapseTheorem(others, next);
      var rest := Collapsed(others, next).0;
      hide Rows, Gaps;
      RowsOfConcat(first, rest);
      GapsOfConcat(first, rest);
      CompleteConcat(first, rest);
      ConsecutiveConcat(Gaps(first), Gaps(rest), id);
      assert (first + rest)[..|first|] == first && (first + rest)[|first|..] == rest;
      assert Collapsed(lines, id).0 == first + rest;
    }
  }

  lemma NothingCollapsed(id: nat)
    ensures Collapsed([], id) == ([], id) && Complete([]) && Consecutive(Gaps([]), id)
  {
  }

  /** The ids count up over the files, even where a count overflows. */
  lemma {:induction false} GapIdsCountUp(lines: seq<Line>, id: nat)
    requires NoGaps(lines)
    ensures var (out, next) := Collapsed(lines, id); Consecutive(Gaps(out), id) && next == id + |Gaps(out)|
    decreases |lines|
  {
    hide CollapsedFrom, NoGaps, FileEnd, Consecutive;
    if lines == [] {
      NothingCollapsed(id);
    } else {
      var e := FileEnd(lines, 1);
      NoGapsSplit(lines, e);
      var file, others := lines[..e], lines[e..];
      FileGapsCountUp(file, 0, false, id);
      var (first, next) := CollapsedFile(file, id);
      GapIdsCountUp(others, next);
      var rest := Collapsed(others, next).0;
      hide Gaps;
      GapsOfConcat(first, rest);
      ConsecutiveConcat(Gaps(first), Gaps(rest), id);
    }
  }

  /** No two gaps of a collapsed diff share an id. */
  lemma GapIdsAreDistinct(lines: seq<Line>, i: nat, j: nat)
    requires NoGaps(lines)
    requires var gaps := Gaps(Collapsed(lines, 0).0); i < j < |gaps|
    ensures var gaps := Gaps(Collapsed(lines, 0).0); gaps[i].0 != gaps[j].0
  {
    hide NoGaps, Collapsed, Gaps;
    GapIdsCountUp(lines, 0);
  }
}
