/** The unified-diff parser, line by line, and the snapshot it builds. */
module DiffParse {
  import opened Basics
  import opened DiffExpansion
  import opened DiffCollapse
  import opened DiffText

  /** The parser's variables. The syntax-highlighting carries are left out. */
  datatype Parser = Parser(
    files: seq<FileEntry>,
    pathIndexes: map<string, nat>,
    lines: seq<Line>,
    currentFile: Option<nat>,
    oldLine: nat,
    newLine: nat,
    previousOldNext: nat,
    previousNewNext: nat,
    nextGapId: nat,
    positioned: bool)

  function Plus1(n: nat): nat {
    if n >= U32_MAX then n else n + 1
  }

  function Max(a: nat, b: nat): nat {
    if a >= b then a else b
  }

  function Shown(p: Parser, n: nat): Option<nat> {
    if p.positioned then Some(n) else None
  }

  /** Later duplicates of a path win, as when a map is collected. */
  function PathIndexes(files: seq<FileEntry>): map<string, nat> {
    if files == [] then map[]
    else PathIndexes(files[..|files| - 1])[files[|files| - 1].path := |files| - 1]
  }

  /** A path stands for the last entry that has it. */
  lemma {:induction false} LastEntryWins(files: seq<FileEntry>, path: string)
    ensures path in PathIndexes(files) <==> exists k :: 0 <= k < |files| && files[k].path == path
    ensures path in PathIndexes(files) ==>
      var k := PathIndexes(files)[path];
      k < |files| && files[k].path == path && forall j :: k < j < |files| ==> files[j].path != path
  {
    if files != [] {
      LastEntryWins(files[..|files| - 1], path);
      assert files == files[..|files| - 1] + [files[|files| - 1]];
    }
  }

  function InitialParser(files: seq<FileEntry>): Parser {
    Parser(files, PathIndexes(files), [], None, 0, 0, 1, 1, 0, true)
  }

  function Push(p: Parser, line: Line): Parser {
    p.(lines := p.lines + [line])
  }

  function BareLine(file: nat, kind: LineKind, content: string): Line {
    Line(file, None, None, kind, content)
  }

  function SetStatus(p: Parser, file: nat, status: FileStatus): Parser {
    if file < |p.files| then p.(files := p.files[file := p.files[file].(status := status)]) else p
  }

  function StepHeader(p: Parser, path: string): Parser {
    var known := path in p.pathIndexes;
    var file := if known then p.pathIndexes[path] else |p.files|;
    Parser(
      if known then p.files else p.files + [FileEntry(path, Modified, None)],
      if known then p.pathIndexes else p.pathIndexes[path := file],
      p.lines + [BareLine(file, FileHeader, "")],
      Some(file), 0, 0, 1, 1, p.nextGapId, true)
  }

  predicate IsSkipped(raw: string) {
    "index " <= raw || "--- " <= raw || "+++ " <= raw || "old mode " <= raw || "new mode " <= raw
  }

  /** A hunk header without ranges: its rows have no position to report. */
  function StepUnpositioned(p: Parser, file: nat): (q: Parser)
    ensures q.files == p.files && q.pathIndexes == p.pathIndexes && q.currentFile == p.currentFile
  {
    var q := p.(positioned := false);
    if p.lines == [] || p.lines[|p.lines| - 1].kind.FileHeader? then q
    else Push(q, BareLine(file, HunkHeader, ""))
  }

  function StepHunk(p: Parser, file: nat, raw: string, starts: (nat, nat), complete: bool): (q: Parser)
    ensures q.files == p.files && q.pathIndexes == p.pathIndexes && q.currentFile == p.currentFile
  {
    var gap := Max(Minus(starts.0, p.previousOldNext), Minus(starts.1, p.previousNewNext));
    var first := p.previousOldNext == 1 && p.previousNewNext == 1;
    var q :=
      if !complete && gap > 0 then
        Push(p, BareLine(file, GapRow(Gap(p.nextGapId, gap, [], if first then Leading else Between)), ""))
          .(nextGapId := p.nextGapId + 1)
      else if !complete && !first then Push(p, BareLine(file, HunkHeader, raw))
      else p;
    q.(positioned := true, oldLine := starts.0, newLine := starts.1)
  }

  /** A code row: context, deletion, addition or the missing-newline note. */
  function StepRow(p: Parser, file: nat, raw: string): (q: Parser)
    ensures q.files == p.files && q.pathIndexes == p.pathIndexes && q.currentFile == p.currentFile
  {
    if raw == [] then p
    else
      var content := raw[1..];
      var old_, new_ := Shown(p, p.oldLine), Shown(p, p.newLine);
      var q := match raw[0]
        case ' ' =>
          Push(p, Line(file, old_, new_, Context, content)).(oldLine := Plus1(p.oldLine), newLine := Plus1(p.newLine))
        case '-' => Push(p, Line(file, old_, None, Deletion, content)).(oldLine := Plus1(p.oldLine))
        case '+' => Push(p, Line(file, None, new_, Addition, content)).(newLine := Plus1(p.newLine))
        case '\\' => Push(p, BareLine(file, Meta, content))
        case _ => p;
      if raw[0] in {' ', '-', '+', '\\'} then q.(previousOldNext := q.oldLine, previousNewNext := q.newLine) else q
  }

  /** One line of the patch. */
  function Step(p: Parser, raw: string, complete: bool): Parser {
    var path := ParseDiffHeaderPath(raw);
    if path.Some? then StepHeader(p, path.value)
    else if p.currentFile.None? then p
    else
      var file := p.currentFile.value;
      if "new file mode " <= raw then SetStatus(p, file, Added)
      else if "deleted file mode " <= raw then SetStatus(p, file, Deleted)
      else if "Binary files " <= raw || raw == "GIT binary patch" then
        Push(SetStatus(p, file, Binary), BareLine(file, Meta, "Binary file changed"))
      else if IsSkipped(raw) then p
      else if "@@" <= raw && ParseHunkStarts(raw).None? then StepUnpositioned(p, file)
      else if ParseHunkStarts(raw).Some? then StepHunk(p, file, raw, ParseHunkStarts(raw).value, complete)
      else StepRow(p, file, raw)
  }

  function Steps(p: Parser, patch: seq<string>, complete: bool): Parser
    decreases |patch|
  {
    if patch == [] then p else Steps(Step(p, patch[0], complete), patch[1..], complete)
  }

  lemma {:induction false} StepsConcat(p: Parser, a: seq<string>, b: seq<string>, complete: bool)
    ensures Steps(p, a + b, complete) == Steps(Steps(p, a, complete), b, complete)
    decreases |a|
  {
    hide Step;
    if a == [] {
      assert a + b == b;
    } else {
      StepsConcat(Step(p, a[0], complete), a[1..], b, complete);
      assert (a + b)[1..] == a[1..] + b;
    }
  }

  // ----- the snapshot

  /** Rows within the cap, and whether any were cut. */
  function Visible(lines: seq<Line>): seq<Line> {
    lines[..Min(MAX_RENDERED_DIFF_LINES, |lines|)]
  }

  ghost function FullLines(files: seq<FileEntry>, patch: string, complete: bool): seq<Line> {
    var lines := Steps(InitialParser(files), LinesOf(patch), complete).lines;
    if complete then Collapsed(lines, 0).0 else lines
  }

  /** `files` are the entries of the change summary, in order. */
  method Parse(files: seq<FileEntry>, patch: string, complete: bool) returns (s: Snap)
    ensures s.lines == Visible(FullLines(files, patch, complete))
    ensures s.truncated <==> |FullLines(files, patch, complete)| > MAX_RENDERED_DIFF_LINES
    ensures HeadersNamed(s)
    ensures var parsed := Steps(InitialParser(files), LinesOf(patch), complete).files;
      |s.files| == |parsed| && forall k :: 0 <= k < |parsed| ==>
        s.files[k].path == parsed[k].path && s.files[k].status == parsed[k].status
  {
    hide Step, HeadersNamed;
    var p := InitialParser(files);
    var raws := LinesOf(patch);
    assert raws[0..] == raws;
    for i := 0 to |raws|
      invariant Steps(p, raws[i..], complete) == Steps(InitialParser(files), raws, complete)
    {
      p := Step(p, raws[i], complete);
      assert raws[i..][1..] == raws[i + 1..];
    }
    var lines := p.lines;
    if complete {
      lines := CollapseContext(lines);
    }
    var visible, truncated := CapVisibleLines(lines);
    var named := RecomputeDiffLines(p.files, visible);
    s := Snap(named, visible, truncated);
    assert HeadersNamed(s) by { SameHeaders(named, visible, truncated); }
  }

  lemma SameHeaders(files: seq<FileEntry>, lines: seq<Line>, truncated: bool)
    requires HeadersNamed(Snap(files, lines, false))
    ensures HeadersNamed(Snap(files, lines, truncated))
  {
  }

  method CapVisibleLines(lines: seq<Line>) returns (visible: seq<Line>, truncated: bool)
    ensures visible == Visible(lines) && (truncated <==> |lines| > MAX_RENDERED_DIFF_LINES)
  {
    truncated := |lines| > MAX_RENDERED_DIFF_LINES;
    visible := [];
    var i: nat := 0;
    while i < |lines|
      invariant i <= |lines| && i <= MAX_RENDERED_DIFF_LINES && visible == lines[..i]
    {
      if |visible| >= MAX_RENDERED_DIFF_LINES {
        break;
      }
      visible := visible + [lines[i]];
      i := i + 1;
    }
  }

  method RecomputeDiffLines(files: seq<FileEntry>, lines: seq<Line>) returns (r: seq<FileEntry>)
    ensures HeadersNamed(Snap(r, lines, false))
    ensures |r| == |files| && forall k :: 0 <= k < |r| ==> r[k].path == files[k].path && r[k].status == files[k].status
  {
    r := seq(|files|, k requires 0 <= k < |files| => files[k].(diffLine := None));
    for i := 0 to |lines|
      invariant |r| == |files| && forall k :: 0 <= k < |r| ==>
        r[k].path == files[k].path && r[k].status == files[k].status
      invariant forall f :: 0 <= f < |r| ==> NamesHeader(lines[..i], f, r[f].diffLine)
    {
      assert lines[..i + 1] == lines[..i] + [lines[i]];
      var f := lines[i].fileIndex;
      if lines[i].kind.FileHeader? && f < |r| && r[f].diffLine.None? {
        r := r[f := r[f].(diffLine := Some(i))];
      }
    }
    assert lines[..|lines|] == lines;
  }

  /** A step appends at most one row, and a gap it appends hides nothing and only
      stands in a compact patch. */
  ghost predicate Appends(lines: seq<Line>, more: seq<Line>, complete: bool) {
    more == lines ||
    (|more| == |lines| + 1 && more[..|lines|] == lines &&
     var l := more[|lines|]; l.kind.GapRow? ==> !complete && l.kind.gap.hidden == [])
  }

  lemma PushAppends(p: Parser, l: Line, complete: bool)
    requires l.kind.GapRow? ==> !complete && l.kind.gap.hidden == []
    ensures Appends(p.lines, Push(p, l).lines, complete)
  {
  }

  lemma HunkAppends(p: Parser, file: nat, raw: string, starts: (nat, nat), complete: bool)
    ensures Appends(p.lines, StepHunk(p, file, raw, starts, complete).lines, complete)
    ensures Appends(p.lines, StepUnpositioned(p, file).lines, complete)
  {
  }

  lemma RowAppends(p: Parser, file: nat, raw: string, complete: bool)
    ensures Appends(p.lines, StepRow(p, file, raw).lines, complete)
  {
  }

  lemma StepAppends(p: Parser, raw: string, complete: bool)
    ensures Appends(p.lines, Step(p, raw, complete).lines, complete)
  {
    hide ParseDiffHeaderPath, ParseHunkStarts, IsSkipped, StepRow, StepHunk, StepUnpositioned, Appends, Push;
    var path := ParseDiffHeaderPath(raw);
    if path.Some? {
      assert Appends(p.lines, Step(p, raw, complete).lines, complete) by { HeaderAppends(p, path.value, complete); }
    } else if p.currentFile.Some? {
      var file := p.currentFile.value;
      var meta := BareLine(file, Meta, "Binary file changed");
      PushAppends(SetStatus(p, file, Binary), meta, complete);
      RowAppends(p, file, raw, complete);
      if ParseHunkStarts(raw).Some? {
        HunkAppends(p, file, raw, ParseHunkStarts(raw).value, complete);
      } else {
        HunkAppends(p, file, raw, (0, 0), complete);
      }
      SameAppends(p.lines, complete);
    } else {
      SameAppends(p.lines, complete);
    }
  }

  lemma SameAppends(lines: seq<Line>, complete: bool)
    ensures Appends(lines, lines, complete)
  {
  }

  lemma HeaderAppends(p: Parser, path: string, complete: bool)
    ensures Appends(p.lines, StepHeader(p, path).lines, complete)
  {
  }

  lemma {:induction false} StepsAddNoGap(p: Parser, patch: seq<string>)
    requires NoGaps(p.lines)
    ensures NoGaps(Steps(p, patch, true).lines)
    decreases |patch|
  {
    hide Step;
    if patch != [] {
      StepAppends(p, patch[0], true);
      var p1 := Step(p, patch[0], true);
      assert p1.lines != p.lines ==> p1.lines == p.lines + [p1.lines[|p.lines|]];
      StepsAddNoGap(p1, patch[1..]);
    }
  }

  /** A snapshot parsed with complete context can be clicked on. */
  lemma ParsedIsClickable(files: seq<FileEntry>, patch: string, s: Snap)
    requires Fits(Steps(InitialParser(files), LinesOf(patch), true).lines)
    requires s.lines == Visible(FullLines(files, patch, true)) && HeadersNamed(s)
    ensures Clickable(s)
  {
    hide Step, Fits, HeadersNamed, Collapsed;
    var lines := Steps(InitialParser(files), LinesOf(patch), true).lines;
    StepsAddNoGap(InitialParser(files), LinesOf(patch));
    CollapseTheorem(lines, 0);
    var out := Collapsed(lines, 0).0;
    CompletePrefix(out, Min(MAX_RENDERED_DIFF_LINES, |out|));
  }

  lemma CompletePrefix(out: seq<Line>, n: nat)
    requires Complete(out) && n <= |out|
    ensures Complete(out[..n])
  {
  }
}
