/** The rows of a review diff and the expansion of collapsed context in place. */
module DiffExpansion {
  import opened Basics

  const DEFAULT_EXPANSION_LINE_COUNT: nat := 100
  const MAX_RENDERED_DIFF_LINES: nat := 50_000
  const U32_LIMIT: nat := 0x1_0000_0000

  datatype GapPosition = Leading | Between | Trailing
  datatype Direction = Start | End | Both | All

  /** Collapsed context: `hidden` in file order, `count` as displayed. */
  datatype Gap = Gap(id: nat, count: nat, hidden: seq<Line>, position: GapPosition)

  datatype LineKind = FileHeader | GapRow(gap: Gap) | HunkHeader | Context | Addition | Deletion | Meta

  datatype Line = Line(fileIndex: nat, oldLine: Option<nat>, newLine: Option<nat>, kind: LineKind, content: string)

  datatype FileStatus = Added | Modified | Deleted | Binary

  datatype FileEntry = FileEntry(path: string, status: FileStatus, diffLine: Option<nat>)

  /** A snapshot as a value. */
  datatype Snap = Snap(files: seq<FileEntry>, lines: seq<Line>, truncated: bool)

  predicate IsExpandable(g: Gap) {
    g.count > 0 && |g.hidden| == g.count
  }

  function Minus(a: nat, b: nat): nat {
    if a <= b then 0 else a - b
  }

  function GapLine(fileIndex: nat, gap: Gap): Line {
    Line(fileIndex, None, None, GapRow(gap), "")
  }

  // ----- the effect of one click, said by how much is revealed at either end

  function Requested(direction: Direction, hidden: nat): nat {
    match direction
    case Start => DEFAULT_EXPANSION_LINE_COUNT
    case End => DEFAULT_EXPANSION_LINE_COUNT
    case Both => DEFAULT_EXPANSION_LINE_COUNT * 2
    case All => hidden
  }

  /** Rows revealed at the start and at the end of a gap. */
  function RevealedEnds(direction: Direction, position: GapPosition, shown: nat): (ends: (nat, nat))
    ensures ends.0 + ends.1 == shown
  {
    match direction
    case Start => (shown, 0)
    case End => (0, shown)
    case Both => ((shown + 1) / 2, shown / 2)
    case All =>
      match position
      case Leading => (0, shown)
      case Trailing => (shown, 0)
      case Between => ((shown + 1) / 2, shown / 2)
  }

  /** What stays collapsed, if anything; the count is stored as a `u32`. */
  function Remaining(fileIndex: nat, gap: Gap, hidden: seq<Line>): seq<Line> {
    if hidden == [] then [] else [GapLine(fileIndex, gap.(hidden := hidden, count := |hidden| % U32_LIMIT))]
  }

  function Replacement(fileIndex: nat, gap: Gap, a: nat, b: nat): seq<Line>
    requires a + b <= |gap.hidden|
  {
    var rest := |gap.hidden| - b;
    gap.hidden[..a] + Remaining(fileIndex, gap, gap.hidden[a..rest]) + gap.hidden[rest..]
  }

  function ShiftedEntry(f: FileEntry, index: nat, inserted: nat): FileEntry {
    if f.diffLine.Some? && f.diffLine.value > index then f.(diffLine := Some(f.diffLine.value + inserted)) else f
  }

  function Shifted(files: seq<FileEntry>, index: nat, inserted: nat): (r: seq<FileEntry>)
    ensures |r| == |files|
    ensures forall k :: 0 <= k < |r| ==> r[k] == ShiftedEntry(files[k], index, inserted)
  {
    seq(|files|, k requires 0 <= k < |files| => ShiftedEntry(files[k], index, inserted))
  }

  function Expanded(s: Snap, index: nat, direction: Direction): (Snap, Option<nat>) {
    if index >= |s.lines| || !s.lines[index].kind.GapRow? || !IsExpandable(s.lines[index].kind.gap) then (s, None)
    else
      var line, gap := s.lines[index], s.lines[index].kind.gap;
      var available := Minus(MAX_RENDERED_DIFF_LINES, |s.lines| - 1);
      var shown := Min(Min(Requested(direction, |gap.hidden|), |gap.hidden|), available);
      if shown == 0 then (s.(truncated := true), None)
      else
        var (a, b) := RevealedEnds(direction, gap.position, shown);
        var rows := Replacement(line.fileIndex, gap, a, b);
        (Snap(Shifted(s.files, index, Minus(|rows|, 1)),
              s.lines[..index] + rows + s.lines[index + 1..],
              s.truncated || (direction.All? && shown < |gap.hidden|)),
         Some(|rows|))
  }

  class Snapshot {
    var files: seq<FileEntry>
    var lines: seq<Line>
    var truncated: bool

    function State(): Snap
      reads this
    {
      Snap(files, lines, truncated)
    }

    constructor (s: Snap)
      ensures State() == s
    {
      files, lines, truncated := s.files, s.lines, s.truncated;
    }

    method ExpandGap(lineIndex: nat, direction: Direction) returns (expansion: Option<nat>)
      modifies this
      ensures (State(), expansion) == Expanded(old(State()), lineIndex, direction)
    {
      hide Shifted;
      if lineIndex >= |lines| || !lines[lineIndex].kind.GapRow? {
        return None;
      }
      var fileIndex, gap := lines[lineIndex].fileIndex, lines[lineIndex].kind.gap;
      if !IsExpandable(gap) {
        return None;
      }
      var available := Minus(MAX_RENDERED_DIFF_LINES, |lines| - 1);
      if available == 0 {
        truncated := true;
        return None;
      }
      var requested := match direction
        case Start => DEFAULT_EXPANSION_LINE_COUNT
        case End => DEFAULT_EXPANSION_LINE_COUNT
        case Both => DEFAULT_EXPANSION_LINE_COUNT * 2
        case All => |gap.hidden|;
      var revealCount := Min(Min(requested, |gap.hidden|), available);
      if direction.All? && revealCount < |gap.hidden| {
        truncated := true;
      }
      var replacement := ReplacementRows(fileIndex, gap, direction, revealCount);
      var inserted := Minus(|replacement|, 1);
      lines := lines[..lineIndex] + replacement + lines[lineIndex + 1..];
      ShiftDiffLines(lineIndex, inserted);
      return Some(|replacement|);
    }

    method ShiftDiffLines(lineIndex: nat, inserted: nat)
      modifies this`files
      ensures files == Shifted(old(files), lineIndex, inserted)
    {
      if inserted > 0 {
        for k := 0 to |files|
          invariant |files| == |old(files)|
          invariant forall j :: 0 <= j < k ==> files[j] == ShiftedEntry(old(files)[j], lineIndex, inserted)
          invariant forall j :: k <= j < |files| ==> files[j] == old(files)[j]
        {
          if files[k].diffLine.Some? && files[k].diffLine.value > lineIndex {
            files := files[k := files[k].(diffLine := Some(files[k].diffLine.value + inserted))];
          }
        }
      }
      assert files == Shifted(old(files), lineIndex, inserted);
    }
  }

  /** The rows that take a gap's place, branch by branch. */
  method ReplacementRows(fileIndex: nat, gap: Gap, direction: Direction, revealCount: nat)
    returns (replacement: seq<Line>)
    requires 0 < revealCount <= |gap.hidden|
    ensures var (a, b) := RevealedEnds(direction, gap.position, revealCount);
      replacement == Replacement(fileIndex, gap, a, b)
  {
    hide Remaining, Replacement;
    var hidden := gap.hidden;
    var fromStart := (revealCount + 1) / 2;
    var fromEnd := revealCount - fromStart;
    if direction.Start? || (direction.All? && revealCount < |hidden| && gap.position.Trailing?) {
      replacement := PushRemainingGap(hidden[..revealCount], fileIndex, gap, hidden[revealCount..]);
      ReplacementAtStart(fileIndex, gap, revealCount);
    } else if direction.End? || (direction.All? && revealCount < |hidden| && gap.position.Leading?) {
      var revealed := hidden[|hidden| - revealCount..];
      replacement := PushRemainingGap([], fileIndex, gap, hidden[..|hidden| - revealCount]);
      replacement := replacement + revealed;
      ReplacementAtEnd(fileIndex, gap, revealCount);
    } else if revealCount == |hidden| {
      replacement := hidden;
      ReplacementOfAll(fileIndex, gap, RevealedEnds(direction, gap.position, revealCount).0);
    } else {
      replacement := hidden[..fromStart];
      var rest := hidden[fromStart..];
      var revealedEnd := rest[|rest| - fromEnd..];
      replacement := PushRemainingGap(replacement, fileIndex, gap, rest[..|rest| - fromEnd]);
      replacement := replacement + revealedEnd;
      ReplacementAt(fileIndex, gap, fromStart, fromEnd);
    }
  }

  /** A replacement as the branches build it: from what is left after taking `a` rows. */
  lemma ReplacementAt(fileIndex: nat, gap: Gap, a: nat, b: nat)
    requires a + b <= |gap.hidden|
    ensures var rest := gap.hidden[a..];
      Replacement(fileIndex, gap, a, b)
        == gap.hidden[..a] + Remaining(fileIndex, gap, rest[..|rest| - b]) + rest[|rest| - b..]
  {
    hide Remaining;
    var rest := gap.hidden[a..];
    assert rest[..|rest| - b] == gap.hidden[a..|gap.hidden| - b];
    assert rest[|rest| - b..] == gap.hidden[|gap.hidden| - b..];
  }

  lemma ReplacementAtEnd(fileIndex: nat, gap: Gap, b: nat)
    requires b <= |gap.hidden|
    ensures Replacement(fileIndex, gap, 0, b)
         == [] + Remaining(fileIndex, gap, gap.hidden[..|gap.hidden| - b]) + gap.hidden[|gap.hidden| - b..]
  {
    hide Remaining;
    assert gap.hidden[0..|gap.hidden| - b] == gap.hidden[..|gap.hidden| - b];
  }

  lemma ReplacementAtStart(fileIndex: nat, gap: Gap, a: nat)
    requires a <= |gap.hidden|
    ensures Replacement(fileIndex, gap, a, 0) == gap.hidden[..a] + Remaining(fileIndex, gap, gap.hidden[a..])
  {
    hide Remaining;
    assert gap.hidden[a..|gap.hidden|] == gap.hidden[a..] && gap.hidden[|gap.hidden|..] == [];
  }

  lemma ReplacementOfAll(fileIndex: nat, gap: Gap, a: nat)
    requires a <= |gap.hidden|
    ensures Replacement(fileIndex, gap, a, |gap.hidden| - a) == gap.hidden
  {
  }

  method PushRemainingGap(replacement: seq<Line>, fileIndex: nat, gap: Gap, hidden: seq<Line>) returns (r: seq<Line>)
    ensures r == replacement + Remaining(fileIndex, gap, hidden)
  {
    if hidden == [] {
      return replacement;
    }
    r := replacement + [Line(fileIndex, None, None, GapRow(gap.(hidden := hidden, count := |hidden| % U32_LIMIT)), "")];
  }

  // ----- what a snapshot stands for

  function RowsOf(line: Line): seq<Line> {
    if line.kind.GapRow? then line.kind.gap.hidden else [line]
  }

  /** Every row, the hidden ones in the place of their gap. */
  function Rows(lines: seq<Line>): seq<Line> {
    if lines == [] then [] else RowsOf(lines[0]) + Rows(lines[1..])
  }

  function GapOf(line: Line): seq<(nat, GapPosition)> {
    if line.kind.GapRow? then [(line.kind.gap.id, line.kind.gap.position)] else []
  }

  /** Identity and position of the gaps, top to bottom. */
  function Gaps(lines: seq<Line>): seq<(nat, GapPosition)> {
    if lines == [] then [] else GapOf(lines[0]) + Gaps(lines[1..])
  }

  function HiddenCount(lines: seq<Line>): nat {
    if lines == [] then 0
    else (if lines[0].kind.GapRow? then |lines[0].kind.gap.hidden| else 0) + HiddenCount(lines[1..])
  }

  predicate PlainRows(lines: seq<Line>) {
    forall l :: l in lines ==> l.kind.Context?
  }

  /** Complete context is retained behind every gap, and it is context. */
  predicate Complete(lines: seq<Line>) {
    forall l :: l in lines && l.kind.GapRow? ==>
      IsExpandable(l.kind.gap) && |l.kind.gap.hidden| < U32_LIMIT && PlainRows(l.kind.gap.hidden)
  }

  predicate IsHeader(l: Line, file: nat) {
    l.kind.FileHeader? && l.fileIndex == file
  }

  /** `at` is the index of the file's first header row, if it has one. */
  predicate NamesHeader(lines: seq<Line>, file: nat, at: Option<nat>) {
    match at
    case None => forall k :: 0 <= k < |lines| ==> !IsHeader(lines[k], file)
    case Some(d) => d < |lines| && IsHeader(lines[d], file) && forall k :: 0 <= k < d ==> !IsHeader(lines[k], file)
  }

  predicate HeadersNamed(s: Snap) {
    forall f :: 0 <= f < |s.files| ==> NamesHeader(s.lines, f, s.files[f].diffLine)
  }

  /** A snapshot with complete context that can be clicked on. */
  predicate Clickable(s: Snap) {
    Complete(s.lines) && HeadersNamed(s) && |s.lines| <= MAX_RENDERED_DIFF_LINES + 1
  }

  lemma {:induction false} RowsOfConcat(a: seq<Line>, b: seq<Line>)
    ensures Rows(a + b) == Rows(a) + Rows(b)
  {
    hide RowsOf;
    if a == [] {
      assert a + b == b;
    } else {
      RowsOfConcat(a[1..], b);
      TailOfConcat(a, b);
      Associates(RowsOf(a[0]), Rows(a[1..]), Rows(b));
    }
  }

  lemma {:induction false} GapsOfConcat(a: seq<Line>, b: seq<Line>)
    ensures Gaps(a + b) == Gaps(a) + Gaps(b)
  {
    hide GapOf;
    if a == [] {
      assert a + b == b;
    } else {
      GapsOfConcat(a[1..], b);
      TailOfConcat(a, b);
      Associates(GapOf(a[0]), Gaps(a[1..]), Gaps(b));
    }
  }

  lemma {:induction false} HiddenOfConcat(a: seq<Line>, b: seq<Line>)
    ensures HiddenCount(a + b) == HiddenCount(a) + HiddenCount(b)
  {
    if a == [] {
      assert a + b == b;
    } else {
      HiddenOfConcat(a[1..], b);
      assert (a + b)[1..] == a[1..] + b;
    }
  }

  lemma RowsOfThree(a: seq<Line>, b: seq<Line>, c: seq<Line>)
    ensures Rows(a + b + c) == Rows(a) + Rows(b) + Rows(c)
  {
    hide Rows;
    RowsOfConcat(a + b, c);
    RowsOfConcat(a, b);
  }

  lemma GapsOfThree(a: seq<Line>, b: seq<Line>, c: seq<Line>)
    ensures Gaps(a + b + c) == Gaps(a) + Gaps(b) + Gaps(c)
  {
    hide Gaps;
    GapsOfConcat(a + b, c);
    GapsOfConcat(a, b);
  }

  lemma HiddenOfThree(a: seq<Line>, b: seq<Line>, c: seq<Line>)
    ensures HiddenCount(a + b + c) == HiddenCount(a) + HiddenCount(b) + HiddenCount(c)
  {
    hide HiddenCount;
    HiddenOfConcat(a + b, c);
    HiddenOfConcat(a, b);
  }

  lemma {:induction false} RowsOfPlain(rows: seq<Line>)
    requires PlainRows(rows)
    ensures Rows(rows) == rows && Gaps(rows) == [] && HiddenCount(rows) == 0
  {
    if rows != [] {
      RowsOfPlain(rows[1..]);
      assert rows == [rows[0]] + rows[1..];
    }
  }

  /** A partly expanded gap still stands for the same rows, under the same id and
      position if anything is left of it. */
  lemma ReplacementStandsFor(fileIndex: nat, gap: Gap, a: nat, b: nat)
    requires a + b <= |gap.hidden| && PlainRows(gap.hidden)
    ensures var rows := Replacement(fileIndex, gap, a, b);
      && Rows(rows) == gap.hidden
      && Gaps(rows) == (if a + b == |gap.hidden| then [] else [(gap.id, gap.position)])
      && HiddenCount(rows) == |gap.hidden| - a - b
      && |rows| == a + b + (if a + b == |gap.hidden| then 0 else 1)
  {
    var h := gap.hidden;
    var head, mid, tail := h[..a], h[a..|h| - b], h[|h| - b..];
    assert h == head + mid + tail;
    RowsOfPlain(head);
    RowsOfPlain(tail);
    RemainingStandsFor(fileIndex, gap, mid);
    var rest := Remaining(fileIndex, gap, mid);
    hide Rows, Gaps, HiddenCount, PlainRows, Remaining;
    assert Replacement(fileIndex, gap, a, b) == head + rest + tail;
    RowsOfThree(head, rest, tail);
    GapsOfThree(head, rest, tail);
    HiddenOfThree(head, rest, tail);
  }

  lemma RemainingStandsFor(fileIndex: nat, gap: Gap, hidden: seq<Line>)
    ensures var rows := Remaining(fileIndex, gap, hidden);
      && Rows(rows) == hidden
      && Gaps(rows) == (if hidden == [] then [] else [(gap.id, gap.position)])
      && HiddenCount(rows) == |hidden|
      && |rows| == (if hidden == [] then 0 else 1)
  {
    if hidden != [] {
      OneGapRow(Remaining(fileIndex, gap, hidden)[0]);
    }
  }

  /** A successful click replaces one expandable gap by its replacement, within the cap. */
  ghost predicate Replaces(s: Snap, s': Snap, index: nat, a: nat, b: nat) {
    && index < |s.lines| && s.lines[index].kind.GapRow? && IsExpandable(s.lines[index].kind.gap)
    && 0 < a + b <= |s.lines[index].kind.gap.hidden|
    && |s.lines| - 1 + a + b <= MAX_RENDERED_DIFF_LINES
    && var rows := Replacement(s.lines[index].fileIndex, s.lines[index].kind.gap, a, b);
       && s'.lines == s.lines[..index] + rows + s.lines[index + 1..]
       && s'.files == Shifted(s.files, index, Minus(|rows|, 1))
  }

  lemma ClickReplaces(s: Snap, index: nat, direction: Direction) returns (a: nat, b: nat)
    ensures var (s', r) := Expanded(s, index, direction);
      && (r.None? ==> s'.lines == s.lines && s'.files == s.files)
      && (r.Some? ==> Replaces(s, s', index, a, b)
                      && r.value == |Replacement(s.lines[index].fileIndex, s.lines[index].kind.gap, a, b)|)
  {
    hide Replacement, Shifted;
    a, b := 0, 0;
    if Expanded(s, index, direction).1.Some? {
      var gap := s.lines[index].kind.gap;
      var shown := Min(Min(Requested(direction, |gap.hidden|), |gap.hidden|),
                       Minus(MAX_RENDERED_DIFF_LINES, |s.lines| - 1));
      a, b := RevealedEnds(direction, gap.position, shown).0, RevealedEnds(direction, gap.position, shown).1;
    }
  }

  /** One click on an expandable gap: which of its hidden rows show, and what does not change. */
  lemma ClickConserves(s: Snap, index: nat, direction: Direction)
    requires Complete(s.lines)
    ensures var (s', r) := Expanded(s, index, direction);
      && Rows(s'.lines) == Rows(s.lines)
      && (r.None? ==> s'.lines == s.lines && s'.files == s.files)
      && (r.Some? ==>
            && |s'.lines| + 1 == |s.lines| + r.value
            && HiddenCount(s'.lines) < HiddenCount(s.lines)
            && index < |s.lines| && s.lines[index].kind.GapRow?
            && GapsThinnedAt(s, s', index))
  {
    hide Expanded;
    var (s', r) := Expanded(s, index, direction);
    var a, b := ClickReplaces(s, index, direction);
    if r.Some? {
      ReplacedConserves(s, s', index, a, b);
      ReplacedThins(s, s', index, a, b);
      hide Replacement, Rows, Gaps, HiddenCount;
    }
  }

  /** The gaps are the same, or the same without the one clicked. */
  ghost predicate GapsThinnedAt(s: Snap, s': Snap, index: nat)
    requires index < |s.lines| && s.lines[index].kind.GapRow?
  {
    var pre, post := Gaps(s.lines[..index]), Gaps(s.lines[index + 1..]);
    var g := s.lines[index].kind.gap;
    && Gaps(s.lines) == pre + [(g.id, g.position)] + post
    && (Gaps(s'.lines) == Gaps(s.lines) || Gaps(s'.lines) == pre + post)
  }

  lemma ReplacedConserves(s: Snap, s': Snap, index: nat, a: nat, b: nat)
    requires Complete(s.lines) && Replaces(s, s', index, a, b)
    ensures Rows(s'.lines) == Rows(s.lines)
    ensures HiddenCount(s'.lines) < HiddenCount(s.lines)
    ensures |s'.lines| == |s.lines| - 1 + |Replacement(s.lines[index].fileIndex, s.lines[index].kind.gap, a, b)|
  {
    var pre, line, post := s.lines[..index], s.lines[index], s.lines[index + 1..];
    assert line in s.lines;
    assert s.lines == pre + [line] + post;
    var rows := Replacement(line.fileIndex, line.kind.gap, a, b);
    ReplacementStandsFor(line.fileIndex, line.kind.gap, a, b);
    hide Replacement, Rows, HiddenCount, PlainRows, Complete, Shifted;
    SwapConserves(pre, line, rows, post);
  }

  lemma ReplacedThins(s: Snap, s': Snap, index: nat, a: nat, b: nat)
    requires Complete(s.lines) && Replaces(s, s', index, a, b)
    ensures GapsThinnedAt(s, s', index)
  {
    var pre, line, post := s.lines[..index], s.lines[index], s.lines[index + 1..];
    assert line in s.lines;
    assert s.lines == pre + [line] + post;
    var rows := Replacement(line.fileIndex, line.kind.gap, a, b);
    ReplacementStandsFor(line.fileIndex, line.kind.gap, a, b);
    hide Replacement, Gaps, PlainRows, Complete, Shifted;
    SwapGaps(pre, line, rows, post);
  }

  lemma SwapConserves(pre: seq<Line>, line: Line, rows: seq<Line>, post: seq<Line>)
    requires line.kind.GapRow? && Rows(rows) == line.kind.gap.hidden
    ensures Rows(pre + rows + post) == Rows(pre + [line] + post)
    ensures HiddenCount(pre + rows + post) - HiddenCount(rows)
      == HiddenCount(pre + [line] + post) - |line.kind.gap.hidden|
  {
    OneGapRow(line);
    hide Rows, HiddenCount;
    RowsOfThree(pre, rows, post);
    RowsOfThree(pre, [line], post);
    HiddenOfThree(pre, rows, post);
    HiddenOfThree(pre, [line], post);
  }

  lemma SwapGaps(pre: seq<Line>, line: Line, rows: seq<Line>, post: seq<Line>)
    requires line.kind.GapRow?
    ensures var g := [(line.kind.gap.id, line.kind.gap.position)];
      && Gaps(pre + [line] + post) == Gaps(pre) + g + Gaps(post)
      && (Gaps(rows) == g ==> Gaps(pre + rows + post) == Gaps(pre) + g + Gaps(post))
      && (Gaps(rows) == [] ==> Gaps(pre + rows + post) == Gaps(pre) + Gaps(post))
  {
    OneGapRow(line);
    hide Gaps;
    GapsOfThree(pre, rows, post);
    GapsOfThree(pre, [line], post);
  }

  lemma OneGapRow(line: Line)
    requires line.kind.GapRow?
    ensures Rows([line]) == line.kind.gap.hidden
    ensures Gaps([line]) == [(line.kind.gap.id, line.kind.gap.position)]
      && HiddenCount([line]) == |line.kind.gap.hidden|
  {
    assert [line][1..] == [];
  }

  /** Exactly when a click shows something: on an expandable gap, below the cap. */
  lemma ClickSucceeds(s: Snap, index: nat, direction: Direction)
    ensures Expanded(s, index, direction).1.Some? <==>
      && index < |s.lines| && s.lines[index].kind.GapRow? && IsExpandable(s.lines[index].kind.gap)
      && |s.lines| <= MAX_RENDERED_DIFF_LINES
  {
    hide Replacement, Shifted;
  }

  /** What is left of `hidden` behind a gap row at the same place, if anything is. */
  function LeftBehind(line: Line, hidden: seq<Line>): seq<Line>
    requires line.kind.GapRow?
  {
    var gap := line.kind.gap;
    if hidden == [] then []
    else [Line(line.fileIndex, None, None, GapRow(Gap(gap.id, |hidden| % U32_LIMIT, hidden, gap.position)), "")]
  }

  /** What a click shows: the first `a` of the hidden rows in place, then what is left of the gap, then the last
      `b` of them. At the start, or at the end, they are the next hundred rows, fewer if there are fewer or the
      cap leaves less room; at both, two hundred shared out evenly; and all of them below the cap, where more
      than fit show next to the neighbouring change, or evenly between two. */
  lemma ClickShows(s: Snap, index: nat, direction: Direction) returns (a: nat, b: nat)
    requires Expanded(s, index, direction).1.Some?
    ensures index < |s.lines| <= 50_000 && s.lines[index].kind.GapRow?
    ensures var gap := s.lines[index].kind.gap; var n := |gap.hidden|; var room := 50_000 - (|s.lines| - 1);
      && 0 < a + b <= n
      && a + b == Min(room, match direction
                            case Start => Min(100, n)
                            case End => Min(100, n)
                            case Both => Min(200, n)
                            case All => n)
      && match direction
         case Start => b == 0
         case End => a == 0
         case Both => b <= a <= b + 1
         case All =>
           match gap.position
           case Leading => a == 0
           case Trailing => b == 0
           case Between => b <= a <= b + 1
    ensures var (s', r) := Expanded(s, index, direction); var h := s.lines[index].kind.gap.hidden;
      && s'.lines == s.lines[..index] + (h[..a] + LeftBehind(s.lines[index], h[a..|h| - b]) + h[|h| - b..])
                     + s.lines[index + 1..]
      && r.value == |s'.lines| + 1 - |s.lines|
      && (s'.truncated <==> s.truncated || (direction.All? && a + b < |h|))
  {
    hide Shifted, RevealedEnds, Requested, Min;
    var gap := s.lines[index].kind.gap;
    var room := Minus(MAX_RENDERED_DIFF_LINES, |s.lines| - 1);
    var ends := RevealedEnds(direction, gap.position, Min(Min(Requested(direction, |gap.hidden|), |gap.hidden|), room));
    a, b := ends.0, ends.1;
    EndsByDirection(direction, gap.position, |gap.hidden|, room);
  }

  lemma EndsByDirection(direction: Direction, position: GapPosition, n: nat, room: nat)
    ensures var shown := Min(Min(Requested(direction, n), n), room);
      var (a, b) := RevealedEnds(direction, position, shown);
      && a + b == shown <= n
      && (room == 0 ==> shown == 0)
      && shown == Min(room, match direction
                            case Start => Min(100, n)
                            case End => Min(100, n)
                            case Both => Min(200, n)
                            case All => n)
      && match direction
         case Start => b == 0
         case End => a == 0
         case Both => b <= a <= b + 1
         case All =>
           match position
           case Leading => a == 0
           case Trailing => b == 0
           case Between => b <= a <= b + 1
  {
  }

  /** A click that shows nothing changes no row and no file; on an expandable gap, which then is at the cap, it
      leaves word that rows are missing. */
  lemma ClickRefused(s: Snap, index: nat, direction: Direction)
    requires Expanded(s, index, direction).1.None?
    ensures var s' := Expanded(s, index, direction).0;
      && s'.lines == s.lines && s'.files == s.files
      && (s'.truncated <==>
            || s.truncated
            || (index < |s.lines| && s.lines[index].kind.GapRow? && |s.lines[index].kind.gap.hidden| > 0
                && s.lines[index].kind.gap.count == |s.lines[index].kind.gap.hidden|))
  {
    hide Shifted, Replacement;
  }

  predicate Headerless(lines: seq<Line>) {
    forall l :: l in lines ==> !l.kind.FileHeader?
  }

  lemma PlainIsComplete(rows: seq<Line>)
    requires PlainRows(rows)
    ensures Complete(rows) && Headerless(rows)
  {
  }

  lemma PlainSlice(rows: seq<Line>, i: nat, j: nat)
    requires i <= j <= |rows| && PlainRows(rows)
    ensures PlainRows(rows[i..j])
  {
  }

  lemma CompleteConcat(a: seq<Line>, b: seq<Line>)
    requires Complete(a) && Complete(b)
    ensures Complete(a + b)
    ensures Headerless(a) && Headerless(b) ==> Headerless(a + b)
  {
    hide PlainRows, IsExpandable;
  }

  lemma ReplacementIsComplete(fileIndex: nat, gap: Gap, a: nat, b: nat)
    requires a + b <= |gap.hidden| < U32_LIMIT && PlainRows(gap.hidden)
    ensures Complete(Replacement(fileIndex, gap, a, b)) && Headerless(Replacement(fileIndex, gap, a, b))
  {
    hide Complete, Headerless, PlainRows, Remaining;
    var h := gap.hidden;
    var i, j := a, |h| - b;
    PlainSlice(h, 0, i);
    PlainSlice(h, i, j);
    PlainSlice(h, j, |h|);
    assert h[0..i] == h[..i] && h[j..|h|] == h[j..];
    PlainIsComplete(h[..i]);
    PlainIsComplete(h[j..]);
    var rest := Remaining(fileIndex, gap, h[i..j]);
    RemainingIsComplete(fileIndex, gap, h[i..j]);
    CompleteConcat(h[..i], rest);
    CompleteConcat(h[..i] + rest, h[j..]);
  }

  lemma RemainingIsComplete(fileIndex: nat, gap: Gap, hidden: seq<Line>)
    requires PlainRows(hidden) && |hidden| < U32_LIMIT
    ensures Complete(Remaining(fileIndex, gap, hidden)) && Headerless(Remaining(fileIndex, gap, hidden))
  {
    hide PlainRows;
  }

  lemma HeadersShift(lines: seq<Line>, index: nat, rows: seq<Line>, files: seq<FileEntry>)
    requires index < |lines| && lines[index].kind.GapRow? && rows != []
    requires Headerless(rows)
    requires HeadersNamed(Snap(files, lines, false))
    ensures HeadersNamed(Snap(Shifted(files, index, |rows| - 1), lines[..index] + rows + lines[index + 1..], false))
  {
    var lines' := lines[..index] + rows + lines[index + 1..];
    var files' := Shifted(files, index, |rows| - 1);
    assert forall k :: 0 <= k < index ==> lines'[k] == lines[k];
    assert forall k :: index <= k < index + |rows| ==> lines'[k] == rows[k - index];
    assert forall k :: index + |rows| <= k < |lines'| ==> lines'[k] == lines[k - |rows| + 1];
    forall f | 0 <= f < |files'| ensures NamesHeader(lines', f, files'[f].diffLine) {
      assert NamesHeader(lines, f, files[f].diffLine);
      var at := files[f].diffLine;
      if at.Some? && at.value > index {
        assert lines'[at.value + |rows| - 1] == lines[at.value];
      }
    }
  }

  /** The row cap: at most one row over, a leftover separator. */
  lemma ClickStaysClickable(s: Snap, index: nat, direction: Direction)
    requires Clickable(s)
    ensures Clickable(Expanded(s, index, direction).0)
  {
    hide Expanded, NamesHeader, Complete;
    var (s', r) := Expanded(s, index, direction);
    var a, b := ClickReplaces(s, index, direction);
    if r.Some? {
      ReplacedStaysClickable(s, s', index, a, b);
    }
  }

  lemma ReplacedStaysClickable(s: Snap, s': Snap, index: nat, a: nat, b: nat)
    requires Clickable(s) && Replaces(s, s', index, a, b)
    ensures Clickable(s')
  {
    hide Replacement, NamesHeader, Complete, PlainRows, Rows, Gaps, HiddenCount, Headerless, HeadersNamed, Shifted;
    var line := s.lines[index];
    var rows := Replacement(line.fileIndex, line.kind.gap, a, b);
    GapIsComplete(s.lines, index);
    ReplacementStandsFor(line.fileIndex, line.kind.gap, a, b);
    ReplacementIsComplete(line.fileIndex, line.kind.gap, a, b);
    ReplacedIsComplete(s.lines, index, rows);
    SameHeaders(s, Snap(s.files, s.lines, false));
    HeadersShift(s.lines, index, rows, s.files);
    SameHeaders(Snap(Shifted(s.files, index, |rows| - 1), s'.lines, false), s');
  }

  lemma GapIsComplete(lines: seq<Line>, index: nat)
    requires Complete(lines) && index < |lines| && lines[index].kind.GapRow?
    ensures |lines[index].kind.gap.hidden| < U32_LIMIT && PlainRows(lines[index].kind.gap.hidden)
  {
    hide PlainRows;
    assert lines[index] in lines;
  }

  lemma ReplacedIsComplete(lines: seq<Line>, index: nat, rows: seq<Line>)
    requires Complete(lines) && Complete(rows) && index < |lines|
    ensures Complete(lines[..index] + rows + lines[index + 1..])
  {
    PartsComplete(lines, index, index + 1);
    hide Complete;
    CompleteConcat(lines[..index], rows);
    CompleteConcat(lines[..index] + rows, lines[index + 1..]);
  }

  lemma PartsComplete(lines: seq<Line>, i: nat, j: nat)
    requires Complete(lines) && i <= |lines| && j <= |lines|
    ensures Complete(lines[..i]) && Complete(lines[j..])
  {
    hide PlainRows, IsExpandable;
  }

  lemma SameHeaders(s: Snap, s': Snap)
    requires s.files == s'.files && s.lines == s'.lines
    ensures HeadersNamed(s) == HeadersNamed(s')
  {
    hide NamesHeader;
  }

  // ----- any clicks

  function Clicks(s: Snap, clicks: seq<(nat, Direction)>): Snap
    decreases |clicks|
  {
    if clicks == [] then s
    else Clicks(Expanded(s, clicks[0].0, clicks[0].1).0, clicks[1..])
  }

  /** `b` is `a` with some entries left out. */
  predicate Thinned<T(==)>(a: seq<T>, b: seq<T>) {
    if b == [] then true
    else if a == [] then false
    else if a[0] == b[0] then Thinned(a[1..], b[1..]) || Thinned(a[1..], b)
    else Thinned(a[1..], b)
  }

  lemma {:induction false} ThinnedSame<T>(a: seq<T>)
    ensures Thinned(a, a)
  {
    if a != [] {
      ThinnedSame(a[1..]);
    }
  }

  lemma {:induction false} ThinnedDrop<T>(pre: seq<T>, x: T, post: seq<T>)
    ensures Thinned(pre + [x] + post, pre + post)
  {
    if pre == [] {
      ThinnedSame(post);
      assert pre + [x] + post == [x] + post && pre + post == post;
      assert ([x] + post)[1..] == post;
      if post != [] {
        ThinnedTail([x] + post, post);
      }
    } else {
      ThinnedDrop(pre[1..], x, post);
      assert (pre + [x] + post)[1..] == pre[1..] + [x] + post;
      assert (pre + post)[1..] == pre[1..] + post;
    }
  }

  lemma ThinnedTail<T>(a: seq<T>, b: seq<T>)
    requires a != [] && Thinned(a[1..], b)
    ensures Thinned(a, b)
  {
  }

  lemma {:induction false} ThinnedTransitive<T>(a: seq<T>, b: seq<T>, c: seq<T>)
    requires Thinned(a, b) && Thinned(b, c)
    ensures Thinned(a, c)
    decreases |a| + |b|
  {
    if c != [] {
      assert b != [] && a != [];
      if a[0] == b[0] && Thinned(a[1..], b[1..]) {
        if b[0] == c[0] && Thinned(b[1..], c[1..]) {
          ThinnedTransitive(a[1..], b[1..], c[1..]);
        } else {
          ThinnedTransitive(a[1..], b[1..], c);
          ThinnedTail(a, c);
        }
      } else {
        ThinnedTransitive(a[1..], b, c);
        ThinnedTail(a, c);
      }
    }
  }

  /** Any sequence of clicks: nothing lost, duplicated or reordered; gaps keep their
      id, position and order, and can only disappear; file headers stay named; the
      cap holds. */
  lemma {:induction false} ClicksConserve(s: Snap, clicks: seq<(nat, Direction)>)
    requires Clickable(s)
    ensures var s' := Clicks(s, clicks);
      && Clickable(s')
      && Rows(s'.lines) == Rows(s.lines)
      && HiddenCount(s'.lines) <= HiddenCount(s.lines)
      && Thinned(Gaps(s.lines), Gaps(s'.lines))
    decreases |clicks|
  {
    if clicks == [] {
      ThinnedSame(Gaps(s.lines));
    } else {
      var index, direction := clicks[0].0, clicks[0].1;
      var (s1, r) := Expanded(s, index, direction);
      ClickConserves(s, index, direction);
      ClickStaysClickable(s, index, direction);
      hide Expanded, Rows, Gaps, HiddenCount, Clickable;
      ClicksConserve(s1, clicks[1..]);
      assert Clicks(s, clicks) == Clicks(s1, clicks[1..]);
      assert Thinned(Gaps(s.lines), Gaps(s1.lines)) by {
        ThinnedSame(Gaps(s.lines));
        if r.Some? {
          var g := s.lines[index].kind.gap;
          ThinnedDrop(Gaps(s.lines[..index]), (g.id, g.position), Gaps(s.lines[index + 1..]));
        }
      }
      ThinnedTransitive(Gaps(s.lines), Gaps(s1.lines), Gaps(Clicks(s, clicks).lines));
    }
  }
}
