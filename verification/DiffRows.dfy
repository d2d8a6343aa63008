/** Row for row what the parser makes of a printed diff: file headers, separators, code rows and notes;
    and what it makes of the file table. */
module DiffRows {
  import opened Basics
  import opened DiffExpansion
  import opened DiffCollapse
  import opened DiffText
  import opened DiffParse
  import opened DiffRoundTrip

  // ----- the rows a printed file should have

  /** Lines left out between `end`, where the rows so far ended, and `start`. */
  function LeftOut(start: nat, end: nat): nat {
    if start > end then start - end else 0
  }

  /** Before a hunk, unless context is complete: a gap for the lines left out, on the side where more are; or
      its own header where it adjoins earlier rows. */
  function Separator(file: nat, h: Hunk, oldEnd: nat, newEnd: nat, id: nat, complete: bool): seq<Line> {
    var skippedOld, skippedNew := LeftOut(h.oldStart, oldEnd), LeftOut(h.newStart, newEnd);
    var skipped := if skippedOld > skippedNew then skippedOld else skippedNew;
    var untouched := oldEnd == 1 && newEnd == 1;
    if complete then []
    else if skipped > 0 then
      [Line(file, None, None, GapRow(Gap(id, skipped, [], if untouched then Leading else Between)), "")]
    else if untouched then []
    else
      [Line(file, None, None, HunkHeader, HunkHeaderLine(h.oldStart, h.oldCount, h.newStart, h.newCount, h.section))]
  }

  function GapsIn(lines: seq<Line>): nat {
    if lines != [] && lines[0].kind.GapRow? then 1 else 0
  }

  /** The rows of the hunks from where the rows so far ended, with the id the next gap gets. */
  function HunkLines(file: nat, hunks: seq<Hunk>, oldEnd: nat, newEnd: nat, id: nat, complete: bool): seq<Line>
    decreases |hunks|
  {
    if hunks == [] then []
    else
      var h := hunks[0];
      var separator := Separator(file, h, oldEnd, newEnd, id, complete);
      (separator + Expect(file, h.rows, h.oldStart, h.newStart))
      + HunkLines(file, hunks[1..],
                  if h.rows == [] then oldEnd else OldEnd(h.rows, h.oldStart),
                  if h.rows == [] then newEnd else NewEnd(h.rows, h.newStart),
                  id + GapsIn(separator), complete)
  }

  /** Rows of the old file count towards its end, and rows of the new file towards the new one's, as far as
      32 bits go. */
  lemma {:induction false} EndsCount(rows: seq<Row>, old_: nat, new_: nat)
    requires old_ <= U32_MAX && new_ <= U32_MAX
    ensures OldEnd(rows, old_) == Min(old_ + |OldRows(rows)|, U32_MAX)
    ensures NewEnd(rows, new_) == Min(new_ + |NewRows(rows)|, U32_MAX)
    decreases |rows|
  {
    if rows != [] {
      EndsCount(rows[1..], NextOld(rows[0], old_), NextNew(rows[0], new_));
    }
  }

  /** The row as printed, with these numbers: a row of the old file on the old side, a row of the new file on the
      new side, a note on neither. */
  predicate Stands(l: Line, file: nat, r: Row, old_: nat, new_: nat) {
    && l.fileIndex == file && l.content == r.text
    && l.oldLine == (if r.Same? || r.Removed? then Some(old_) else None)
    && l.newLine == (if r.Same? || r.Inserted? then Some(new_) else None)
    && (l.kind.Context? <==> r.Same?) && (l.kind.Deletion? <==> r.Removed?)
    && (l.kind.Addition? <==> r.Inserted?) && (l.kind.Meta? <==> r.Note?)
  }

  /** Every row is numbered by the rows of its own side before it. */
  lemma {:induction false} RowNumbers(file: nat, rows: seq<Row>, old_: nat, new_: nat, k: nat)
    requires old_ <= U32_MAX && new_ <= U32_MAX && k < |rows|
    ensures |Expect(file, rows, old_, new_)| == |rows|
    ensures Stands(Expect(file, rows, old_, new_)[k], file, rows[k],
                   Min(old_ + |OldRows(rows[..k])|, U32_MAX), Min(new_ + |NewRows(rows[..k])|, U32_MAX))
    decreases |rows|
  {
    hide Stands, Expect, OldRows, NewRows;
    var r, rest := rows[0], rows[1..];
    assert rows == [r] + rest;
    AllCode(file, rows, old_, new_);
    RowStands(file, r, old_, new_);
    OneRow(file, r, rest, old_, new_);
    if k == 0 {
      NothingBefore(rows);
    } else {
      RowNumbers(file, rest, NextOld(r, old_), NextNew(r, new_), k - 1);
      OneMoreBefore(r, rest, k, old_, new_);
      assert rows[..k] == [r] + rest[..k - 1];
    }
  }

  lemma RowStands(file: nat, r: Row, old_: nat, new_: nat)
    ensures |Expect(file, [r], old_, new_)| == 1 && Stands(Expect(file, [r], old_, new_)[0], file, r, old_, new_)
  {
    AllCode(file, [r], old_, new_);
  }

  lemma NothingBefore(rows: seq<Row>)
    ensures OldRows(rows[..0]) == [] && NewRows(rows[..0]) == []
  {
  }

  lemma OneMoreBefore(r: Row, rest: seq<Row>, k: nat, old_: nat, new_: nat)
    requires 0 < k <= |rest| + 1 && old_ <= U32_MAX && new_ <= U32_MAX
    ensures Min(NextOld(r, old_) + |OldRows(rest[..k - 1])|, U32_MAX)
         == Min(old_ + |OldRows([r] + rest[..k - 1])|, U32_MAX)
    ensures Min(NextNew(r, new_) + |NewRows(rest[..k - 1])|, U32_MAX)
         == Min(new_ + |NewRows([r] + rest[..k - 1])|, U32_MAX)
    ensures NextOld(r, old_) <= U32_MAX && NextNew(r, new_) <= U32_MAX
  {
    FirstCounts(r, rest[..k - 1]);
    hide OldRows, NewRows;
  }

  lemma FirstCounts(r: Row, rest: seq<Row>)
    ensures |OldRows([r] + rest)| == |OldRows(rest)| + if r.Same? || r.Removed? then 1 else 0
    ensures |NewRows([r] + rest)| == |NewRows(rest)| + if r.Same? || r.Inserted? then 1 else 0
  {
    assert ([r] + rest)[1..] == rest;
  }

  function OldRows(rows: seq<Row>): seq<string> {
    if rows == [] then []
    else (if rows[0].Same? || rows[0].Removed? then [rows[0].text] else []) + OldRows(rows[1..])
  }

  function NewRows(rows: seq<Row>): seq<string> {
    if rows == [] then []
    else (if rows[0].Same? || rows[0].Inserted? then [rows[0].text] else []) + NewRows(rows[1..])
  }

  // ----- the parser's

  lemma HunkHeaderRows(p: Parser, h: Hunk, complete: bool)
    requires p.currentFile.Some? && h.oldStart <= U32_MAX && h.newStart <= U32_MAX
    ensures var raw := HunkHeaderLine(h.oldStart, h.oldCount, h.newStart, h.newCount, h.section);
      var separator := Separator(p.currentFile.value, h, p.previousOldNext, p.previousNewNext, p.nextGapId, complete);
      Step(p, raw, complete)
      == p.(lines := p.lines + separator, nextGapId := p.nextGapId + GapsIn(separator), positioned := true,
            oldLine := h.oldStart, newLine := h.newStart)
  {
    hide *;
    var raw := HunkHeaderLine(h.oldStart, h.oldCount, h.newStart, h.newCount, h.section);
    HunkHeaderParses(h.oldStart, h.oldCount, h.newStart, h.newCount, h.section);
    HunkFallsThrough(p, h, complete);
    HunkShows(p, h, raw, complete);
  }

  lemma HunkShows(p: Parser, h: Hunk, raw: string, complete: bool)
    requires p.currentFile.Some?
    requires raw == HunkHeaderLine(h.oldStart, h.oldCount, h.newStart, h.newCount, h.section)
    ensures var file := p.currentFile.value;
      var separator := Separator(file, h, p.previousOldNext, p.previousNewNext, p.nextGapId, complete);
      StepHunk(p, file, raw, (h.oldStart, h.newStart), complete)
      == p.(lines := p.lines + separator, nextGapId := p.nextGapId + GapsIn(separator), positioned := true,
            oldLine := h.oldStart, newLine := h.newStart)
  {
    hide HunkHeaderLine;
    assert p.lines + [] == p.lines;
  }

  lemma OneHunkLines(p: Parser, h: Hunk, complete: bool)
    requires p.currentFile.Some? && p.positioned && h.oldStart <= U32_MAX && h.newStart <= U32_MAX
    ensures var q := Steps(p, PrintHunk(h), complete); var rows := Survivors(h.rows);
      var separator := Separator(p.currentFile.value, h, p.previousOldNext, p.previousNewNext, p.nextGapId, complete);
      && SameFile(p, q) && q.nextGapId == p.nextGapId + GapsIn(separator)
      && q.lines == p.lines + (separator + Expect(p.currentFile.value, rows, h.oldStart, h.newStart))
      && q.previousOldNext == (if rows == [] then p.previousOldNext else OldEnd(rows, h.oldStart))
      && q.previousNewNext == (if rows == [] then p.previousNewNext else NewEnd(rows, h.newStart))
  {
    hide Step, Steps, Expect, Survivors, PrintRows, HunkHeaderLine, Separator, OldEnd, NewEnd, GapsIn;
    var header := HunkHeaderLine(h.oldStart, h.oldCount, h.newStart, h.newCount, h.section);
    var p1 := Step(p, header, complete);
    HunkHeaderRows(p, h, complete);
    RowsStep(p1, h.rows, complete);
    DiffRoundTrip.FirstStep(p, header, PrintRows(h.rows), complete);
    Associates(p.lines,
               Separator(p.currentFile.value, h, p.previousOldNext, p.previousNewNext, p.nextGapId, complete),
               Expect(p.currentFile.value, Survivors(h.rows), h.oldStart, h.newStart));
  }

  /** Hunk by hunk, the parser appends exactly the rows the hunks should have. */
  lemma {:induction false} HunksLines(p: Parser, hunks: seq<Hunk>, complete: bool)
    requires p.currentFile.Some? && p.positioned && HunksFit(hunks)
    ensures var q := Steps(p, PrintHunks(hunks), complete);
      && SameFile(p, q)
      && q.lines == p.lines + HunkLines(p.currentFile.value, SurvivingHunks(hunks), p.previousOldNext,
                                        p.previousNewNext, p.nextGapId, complete)
    decreases |hunks|
  {
    hide Step, PrintHunk, Steps, Expect, Survivors, Separator, OldEnd, NewEnd, GapsIn;
    if hunks == [] {
      NoSteps(p, complete);
      assert p.lines + [] == p.lines;
    } else {
      var h, file := hunks[0], p.currentFile.value;
      assert h in hunks;
      var p1 := Steps(p, PrintHunk(h), complete);
      OneHunkLines(p, h, complete);
      HunksLines(p1, hunks[1..], complete);
      StepsConcat(p, PrintHunk(h), PrintHunks(hunks[1..]), complete);
      FirstHunkLines(file, hunks, p.previousOldNext, p.previousNewNext, p.nextGapId, complete);
      hide HunkLines, SurvivingHunks;
      var separator := Separator(file, h, p.previousOldNext, p.previousNewNext, p.nextGapId, complete);
      Associates(p.lines, separator + Expect(file, Survivors(h.rows), h.oldStart, h.newStart),
                 HunkLines(file, SurvivingHunks(hunks[1..]), p1.previousOldNext, p1.previousNewNext, p1.nextGapId,
                           complete));
    }
  }

  lemma FirstHunkLines(file: nat, hunks: seq<Hunk>, oldEnd: nat, newEnd: nat, id: nat, complete: bool)
    requires hunks != []
    ensures var h, rows := hunks[0], Survivors(hunks[0].rows);
      var separator := Separator(file, h, oldEnd, newEnd, id, complete);
      HunkLines(file, SurvivingHunks(hunks), oldEnd, newEnd, id, complete)
      == (separator + Expect(file, rows, h.oldStart, h.newStart))
         + HunkLines(file, SurvivingHunks(hunks[1..]),
                     if rows == [] then oldEnd else OldEnd(rows, h.oldStart),
                     if rows == [] then newEnd else NewEnd(rows, h.newStart),
                     id + GapsIn(separator), complete)
  {
    hide Expect, Survivors, OldEnd, NewEnd, GapsIn;
    assert SurvivingHunks(hunks)[1..] == SurvivingHunks(hunks[1..]);
  }

  /** A printed file is read as one header row, the row of a rewritten binary file, and its hunks' rows from line
      one on. Its entry, the known one or a new one that counts as modified, gets the status its header says,
      and no other entry changes. */
  lemma PrintedFileRows(p: Parser, f: FileDiff, complete: bool)
    requires HunksFit(f.hunks) && Named(p)
    ensures var q := Steps(p, PrintFile(f), complete);
      var path := ReadPath(f.path);
      var known := path in p.pathIndexes;
      var file := if known then p.pathIndexes[path] else |p.files|;
      && q.lines == p.lines
           + ([Line(file, None, None, FileHeader, "")]
              + (ChangeRows(file, f.change) + HunkLines(file, SurvivingHunks(f.hunks), 1, 1, p.nextGapId, complete)))
      && file < |q.files| == (if known then |p.files| else |p.files| + 1)
      && q.files[file].path == path
      && q.files[file].status == StatusOf(f.change, if known then p.files[file].status else Modified)
      && forall k :: 0 <= k < |p.files| && k != file ==> q.files[k] == p.files[k]
  {
    var path := ReadPath(f.path);
    var file := if path in p.pathIndexes then p.pathIndexes[path] else |p.files|;
    hide Step, HunksFit, Steps, PrintHunks, ReadPath, FileHeaderLine, SurvivingHunks, ChangeLines, ChangeRows,
         PrintFile, HunkLines;
    var p1 := Step(p, FileHeaderLine(f.path), complete);
    var p2 := Steps(p1, ChangeLines(f.change), complete);
    FileHeaderStep(p, f.path, complete);
    HeaderInBounds(p, path);
    ChangeStep(p1, f.change, complete);
    FileSteps(p, f, complete);
    HunksLines(p2, f.hunks, complete);
    var header := [Line(file, None, None, FileHeader, "")];
    Associates(p.lines, header, ChangeRows(file, f.change));
    Associates(p.lines, header + ChangeRows(file, f.change),
               HunkLines(file, SurvivingHunks(f.hunks), 1, 1, p.nextGapId, complete));
    Associates(header, ChangeRows(file, f.change),
               HunkLines(file, SurvivingHunks(f.hunks), 1, 1, p.nextGapId, complete));
  }

  // ----- hunks without a position

  /** The rows of a hunk whose header gives no ranges have no numbers. */
  function Unnumbered(lines: seq<Line>): seq<Line> {
    seq(|lines|, k requires 0 <= k < |lines| => lines[k].(oldLine := None, newLine := None))
  }

  lemma UnrangedHeader(p: Parser, raw: string, complete: bool)
    requires p.currentFile.Some? && "@@" <= raw && ParseHunkStarts(raw).None?
    ensures var q := Step(p, raw, complete); var file := p.currentFile.value;
      && !q.positioned && q.currentFile == p.currentFile && q.files == p.files
      && q.lines == p.lines
           + if p.lines == [] || p.lines[|p.lines| - 1].kind.FileHeader? then []
             else [Line(file, None, None, HunkHeader, "")]
  {
    hide ParseHunkStarts, RSplitOnce, UnescapeGitPath;
    assert raw[0] == '@';
    assert ParseDiffHeaderPath(raw).None?;
    assert p.lines + [] == p.lines;
  }

  lemma {:induction false} UnrangedRows(p: Parser, rows: seq<Row>, complete: bool)
    requires p.currentFile.Some? && !p.positioned
    ensures var q := Steps(p, PrintRows(rows), complete);
      && SameFile(p, q)
      && q.lines == p.lines + Unnumbered(Expect(p.currentFile.value, Survivors(rows), p.oldLine, p.newLine))
    decreases |rows|
  {
    hide Step, Vanishes, Expect, PrintRow, Unnumbered, NextOld, NextNew;
    if rows == [] {
      NothingExpected(p.currentFile.value, p.oldLine, p.newLine);
      NothingUnnumbered();
      assert p.lines + [] == p.lines;
    } else {
      var r := rows[0];
      var file := p.currentFile.value;
      var p1 := Step(p, PrintRow(r), complete);
      UnrangedRow(p, r, complete);
      UnrangedRows(p1, rows[1..], complete);
      FirstPrintedRow(p, rows, complete);
      hide Steps, PrintRows;
      if Vanishes(r) {
        assert Survivors(rows) == Survivors(rows[1..]);
      } else {
        assert Survivors(rows) == [r] + Survivors(rows[1..]);
        OneRow(file, r, Survivors(rows[1..]), p.oldLine, p.newLine);
        var one := Expect(file, [r], p.oldLine, p.newLine);
        var rest := Expect(file, Survivors(rows[1..]), p1.oldLine, p1.newLine);
        UnnumberedConcat(one, rest);
        Associates(p.lines, Unnumbered(one), Unnumbered(rest));
      }
    }
  }

  lemma NothingUnnumbered()
    ensures Unnumbered([]) == []
  {
  }

  lemma UnnumberedConcat(a: seq<Line>, b: seq<Line>)
    ensures Unnumbered(a + b) == Unnumbered(a) + Unnumbered(b)
  {
  }

  lemma UnrangedRow(p: Parser, r: Row, complete: bool)
    requires p.currentFile.Some? && !p.positioned
    ensures var q := Step(p, PrintRow(r), complete);
      && SameFile(p, q)
      && (Vanishes(r) ==> q == p)
      && (!Vanishes(r) ==>
            && q.lines == p.lines + Unnumbered(Expect(p.currentFile.value, [r], p.oldLine, p.newLine))
            && q.oldLine == NextOld(r, p.oldLine) && q.newLine == NextNew(r, p.newLine))
  {
    RowFallsThrough(p, r, complete);
    RowSkipped(r);
    hide Step, IsSkipped, Vanishes;
    var raw := PrintRow(r);
    assert raw[0] in {' ', '-', '+', '\\'} && raw[1..] == r.text;
    assert [r][1..] == [];
    if !Vanishes(r) {
      var q := StepRow(p, p.currentFile.value, raw);
      assert q.lines == p.lines + [q.lines[|p.lines|]];
    }
  }
}
