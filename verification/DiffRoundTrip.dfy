/** Printing hunks as a unified diff and parsing the text gives the same rows and notes, with
    the same numbers, exactly when no row looks like a file header line. */
module DiffRoundTrip {
  import opened Basics
  import opened DiffExpansion
  import opened DiffCollapse
  import opened DiffText
  import opened DiffParse

  /** A row of a hunk; a note says that a file ends without a line feed. */
  datatype Row = Same(text: string) | Removed(text: string) | Inserted(text: string) | Note(text: string)

  datatype Hunk = Hunk(oldStart: nat, oldCount: nat, newStart: nat, newCount: nat, section: string, rows: seq<Row>)

  /** What a file's header says beside its path. */
  datatype Change = Edited | Created(mode: string) | Dropped(mode: string) | Rewritten(text: string) | Patched

  /** And what in it says nothing about status or rows. */
  datatype Detail =
    | Index(text: string)
    | OldMode(text: string)
    | NewMode(text: string)
    | Similarity(text: string)
    | Renamed(text: string)

  datatype FileDiff = FileDiff(path: string, details: seq<Detail>, change: Change, hunks: seq<Hunk>)

  // ----- the printer

  function PrintRow(r: Row): string {
    match r
    case Same(t) => " " + t
    case Removed(t) => "-" + t
    case Inserted(t) => "+" + t
    case Note(t) => "\\" + t
  }

  function PrintRows(rows: seq<Row>): seq<string> {
    if rows == [] then [] else [PrintRow(rows[0])] + PrintRows(rows[1..])
  }

  function PrintHunk(h: Hunk): seq<string> {
    [HunkHeaderLine(h.oldStart, h.oldCount, h.newStart, h.newCount, h.section)] + PrintRows(h.rows)
  }

  function PrintHunks(hunks: seq<Hunk>): seq<string> {
    if hunks == [] then [] else PrintHunk(hunks[0]) + PrintHunks(hunks[1..])
  }

  function PrintFile(f: FileDiff): seq<string> {
    [FileHeaderLine(f.path)]
    + (DetailLines(f.details)
       + (ChangeLines(f.change) + (["--- a/" + f.path, "+++ b/" + f.path] + PrintHunks(f.hunks))))
  }

  function DetailLine(d: Detail): string {
    match d
    case Index(t) => "index " + t
    case OldMode(t) => "old mode " + t
    case NewMode(t) => "new mode " + t
    case Similarity(t) => "similarity index " + t
    case Renamed(t) => "rename " + t
  }

  function DetailLines(details: seq<Detail>): seq<string> {
    if details == [] then [] else [DetailLine(details[0])] + DetailLines(details[1..])
  }

  function ChangeLines(c: Change): seq<string> {
    match c
    case Edited => []
    case Created(mode) => ["new file mode " + mode]
    case Dropped(mode) => ["deleted file mode " + mode]
    case Rewritten(text) => ["Binary files " + text]
    case Patched => ["GIT binary patch"]
  }

  predicate IsBinary(c: Change) {
    c.Rewritten? || c.Patched?
  }

  function PrintAll(fs: seq<FileDiff>): seq<string> {
    if fs == [] then [] else PrintFile(fs[0]) + PrintAll(fs[1..])
  }

  predicate StartsFit(fs: seq<FileDiff>) {
    forall f :: f in fs ==> HunksFit(f.hunks)
  }

  predicate HunksFit(hunks: seq<Hunk>) {
    forall h :: h in hunks ==> h.oldStart <= U32_MAX && h.newStart <= U32_MAX
  }

  // ----- the rows a reader should see

  /** Rows numbered consecutively from the hunk's starts, up to the largest `u32`. */
  function Expect(file: nat, rows: seq<Row>, old_: nat, new_: nat): seq<Line> {
    if rows == [] then []
    else
      match rows[0]
      case Same(t) =>
        [Line(file, Some(old_), Some(new_), Context, t)] + Expect(file, rows[1..], Plus1(old_), Plus1(new_))
      case Removed(t) => [Line(file, Some(old_), None, Deletion, t)] + Expect(file, rows[1..], Plus1(old_), new_)
      case Inserted(t) => [Line(file, None, Some(new_), Addition, t)] + Expect(file, rows[1..], old_, Plus1(new_))
      case Note(t) => [Line(file, None, None, Meta, t)] + Expect(file, rows[1..], old_, new_)
  }

  /** The numbers after one row. */
  function NextOld(r: Row, n: nat): nat {
    if r.Same? || r.Removed? then Plus1(n) else n
  }

  function NextNew(r: Row, n: nat): nat {
    if r.Same? || r.Inserted? then Plus1(n) else n
  }

  function OldEnd(rows: seq<Row>, n: nat): nat
    decreases |rows|
  {
    if rows == [] then n else OldEnd(rows[1..], NextOld(rows[0], n))
  }

  function NewEnd(rows: seq<Row>, n: nat): nat
    decreases |rows|
  {
    if rows == [] then n else NewEnd(rows[1..], NextNew(rows[0], n))
  }

  /** A rewritten binary file has one row that says so. */
  function ChangeRows(file: nat, c: Change): seq<Line> {
    if IsBinary(c) then [Line(file, None, None, Meta, "Binary file changed")] else []
  }

  function ExpectHunks(file: nat, hunks: seq<Hunk>): seq<Line> {
    if hunks == [] then []
    else Expect(file, hunks[0].rows, hunks[0].oldStart, hunks[0].newStart) + ExpectHunks(file, hunks[1..])
  }

  /** The file table: how many entries there are, and which one a path names. */
  datatype Table = Table(size: nat, indexes: map<string, nat>)

  function TableOf(p: Parser): Table {
    Table(|p.files|, p.pathIndexes)
  }

  function IndexOf(t: Table, path: string): nat {
    if path in t.indexes then t.indexes[path] else t.size
  }

  function Register(t: Table, path: string): Table {
    if path in t.indexes then t else Table(t.size + 1, t.indexes[path := t.size])
  }

  function ExpectAll(t: Table, fs: seq<FileDiff>): seq<Line>
    decreases |fs|
  {
    if fs == [] then []
    else
      var path := ReadPath(fs[0].path);
      ExpectFile(IndexOf(t, path), fs[0]) + ExpectAll(Register(t, path), fs[1..])
  }

  function ExpectFile(file: nat, f: FileDiff): seq<Line> {
    ChangeRows(file, f.change) + ExpectHunks(file, f.hunks)
  }

  // ----- rows the parser takes for file header lines

  predicate Vanishes(r: Row) {
    match r
    case Same(_) => false
    case Removed(t) => "-- " <= t
    case Inserted(t) => "++ " <= t
    case Note(_) => false
  }

  function Survivors(rows: seq<Row>): seq<Row> {
    if rows == [] then []
    else if Vanishes(rows[0]) then Survivors(rows[1..])
    else [rows[0]] + Survivors(rows[1..])
  }

  function SurvivingHunks(hunks: seq<Hunk>): seq<Hunk> {
    if hunks == [] then [] else [hunks[0].(rows := Survivors(hunks[0].rows))] + SurvivingHunks(hunks[1..])
  }

  function Surviving(fs: seq<FileDiff>): seq<FileDiff> {
    if fs == [] then [] else [fs[0].(hunks := SurvivingHunks(fs[0].hunks))] + Surviving(fs[1..])
  }

  predicate NoneVanish(fs: seq<FileDiff>) {
    forall f, h, r :: f in fs && h in f.hunks && r in h.rows ==> !Vanishes(r)
  }

  /** Everything but headers and separators. */
  predicate IsCode(l: Line) {
    l.kind.Context? || l.kind.Addition? || l.kind.Deletion? || l.kind.Meta?
  }

  function CodeOf(l: Line): seq<Line> {
    if IsCode(l) then [l] else []
  }

  function CodeRows(lines: seq<Line>): seq<Line> {
    if lines == [] then [] else CodeOf(lines[0]) + CodeRows(lines[1..])
  }

  lemma {:induction false} CodeRowsConcat(a: seq<Line>, b: seq<Line>)
    ensures CodeRows(a + b) == CodeRows(a) + CodeRows(b)
  {
    hide CodeOf;
    if a == [] {
      assert a + b == b;
    } else {
      CodeRowsConcat(a[1..], b);
      TailOfConcat(a, b);
      Associates(CodeOf(a[0]), CodeRows(a[1..]), CodeRows(b));
    }
  }

  lemma CodeRowsPush(lines: seq<Line>, line: Line)
    ensures CodeRows(lines + [line]) == CodeRows(lines) + CodeOf(line)
  {
    CodeRowsConcat(lines, [line]);
    assert [line][1..] == [];
  }

  // ----- what each printed line does

  /** Everything but rows and counters is as before. */
  predicate SameFile(p: Parser, q: Parser) {
    p.files == q.files && p.pathIndexes == q.pathIndexes && p.currentFile == q.currentFile
      && p.positioned == q.positioned
  }

  lemma RowStep(p: Parser, r: Row, complete: bool)
    requires p.currentFile.Some? && p.positioned
    ensures var q := Step(p, PrintRow(r), complete);
      && SameFile(p, q)
      && (Vanishes(r) ==> q == p)
      && (!Vanishes(r) ==>
            && q.lines == p.lines + Expect(p.currentFile.value, [r], p.oldLine, p.newLine)
            && q.oldLine == NextOld(r, p.oldLine) && q.newLine == NextNew(r, p.newLine)
            && q.previousOldNext == q.oldLine && q.previousNewNext == q.newLine && q.nextGapId == p.nextGapId)
  {
    hide *;
    RowFallsThrough(p, r, complete);
    RowSkipped(r);
    if !Vanishes(r) {
      RowShown(p, r);
    }
    SameParser(p);
  }

  lemma SameParser(p: Parser)
    ensures SameFile(p, p)
  {
  }

  lemma RowFallsThrough(p: Parser, r: Row, complete: bool)
    requires p.currentFile.Some?
    ensures Step(p, PrintRow(r), complete)
         == if IsSkipped(PrintRow(r)) then p else StepRow(p, p.currentFile.value, PrintRow(r))
  {
    hide RSplitOnce, SplitOnce, UnescapeGitPath, NextWord, ParseSignedRange, IsSkipped, StepRow, StepHunk, StepHeader;
    var raw := PrintRow(r);
    assert raw[0] in {' ', '-', '+', '\\'};
    assert ParseDiffHeaderPath(raw).None? && ParseHunkStarts(raw).None?;
  }

  lemma RowSkipped(r: Row)
    ensures IsSkipped(PrintRow(r)) <==> Vanishes(r)
  {
    var raw := PrintRow(r);
    assert raw[0] in {' ', '-', '+', '\\'} && raw[1..] == r.text;
    SkipsLike('-', r.text, raw);
    SkipsLike('+', r.text, raw);
  }

  lemma RowShown(p: Parser, r: Row)
    requires p.currentFile.Some? && p.positioned
    ensures var q := StepRow(p, p.currentFile.value, PrintRow(r));
      && SameFile(p, q)
      && q.lines == p.lines + Expect(p.currentFile.value, [r], p.oldLine, p.newLine)
      && q.oldLine == NextOld(r, p.oldLine) && q.newLine == NextNew(r, p.newLine)
      && q.previousOldNext == q.oldLine && q.previousNewNext == q.newLine && q.nextGapId == p.nextGapId
  {
    var raw := PrintRow(r);
    assert raw[0] in {' ', '-', '+', '\\'} && raw[1..] == r.text;
    assert [r][1..] == [];
  }

  lemma SkipsLike(c: char, text: string, raw: string)
    requires raw != [] && raw[1..] == text
    ensures [c, c, c, ' '] <= raw <==> raw[0] == c && [c, c, ' '] <= text
  {
    assert raw == [raw[0]] + text;
    assert [c, c, c, ' '][1..] == [c, c, ' '];
  }

  lemma {:induction false} RowsStep(p: Parser, rows: seq<Row>, complete: bool)
    requires p.currentFile.Some? && p.positioned
    ensures var q := Steps(p, PrintRows(rows), complete);
      && SameFile(p, q)
      && q.lines == p.lines + Expect(p.currentFile.value, Survivors(rows), p.oldLine, p.newLine)
      && q.oldLine == OldEnd(Survivors(rows), p.oldLine) && q.newLine == NewEnd(Survivors(rows), p.newLine)
      && q.nextGapId == p.nextGapId
      && q.previousOldNext == (if Survivors(rows) == [] then p.previousOldNext else q.oldLine)
      && q.previousNewNext == (if Survivors(rows) == [] then p.previousNewNext else q.newLine)
    decreases |rows|
  {
    hide Step, Vanishes, Expect, PrintRow, NextOld, NextNew;
    if rows == [] {
      assert Expect(p.currentFile.value, [], p.oldLine, p.newLine) == []
        by { NothingExpected(p.currentFile.value, p.oldLine, p.newLine); }
    } else {
      var r := rows[0];
      var file := p.currentFile.value;
      var p1 := Step(p, PrintRow(r), complete);
      RowStep(p, r, complete);
      RowsStep(p1, rows[1..], complete);
      FirstPrintedRow(p, rows, complete);
      hide Steps, PrintRows;
      if Vanishes(r) {
        assert Survivors(rows) == Survivors(rows[1..]);
      } else {
        assert Survivors(rows) == [r] + Survivors(rows[1..]);
        OneRow(file, r, Survivors(rows[1..]), p.oldLine, p.newLine);
        EndsAfterFirst(r, Survivors(rows[1..]), p.oldLine, p.newLine);
        Associates(p.lines, Expect(file, [r], p.oldLine, p.newLine),
                   Expect(file, Survivors(rows[1..]), p1.oldLine, p1.newLine));
      }
    }
  }

  lemma EndsAfterFirst(r: Row, rest: seq<Row>, old_: nat, new_: nat)
    ensures OldEnd([r] + rest, old_) == OldEnd(rest, NextOld(r, old_))
    ensures NewEnd([r] + rest, new_) == NewEnd(rest, NextNew(r, new_))
  {
    assert ([r] + rest)[1..] == rest;
  }

  lemma FirstPrintedRow(p: Parser, rows: seq<Row>, complete: bool)
    requires rows != []
    ensures Steps(p, PrintRows(rows), complete)
         == Steps(Step(p, PrintRow(rows[0]), complete), PrintRows(rows[1..]), complete)
  {
    hide Step, PrintRow;
    assert PrintRows(rows)[1..] == PrintRows(rows[1..]);
  }

  lemma NothingExpected(file: nat, old_: nat, new_: nat)
    ensures Expect(file, [], old_, new_) == []
  {
  }

  lemma OneRow(file: nat, r: Row, rest: seq<Row>, old_: nat, new_: nat)
    ensures Expect(file, [r] + rest, old_, new_)
         == Expect(file, [r], old_, new_)
            + Expect(file, rest, NextOld(r, old_), NextNew(r, new_))
  {
    assert ([r] + rest)[1..] == rest && [r][1..] == [];
  }

  lemma {:induction false} AllCode(file: nat, rows: seq<Row>, old_: nat, new_: nat)
    ensures CodeRows(Expect(file, rows, old_, new_)) == Expect(file, rows, old_, new_)
    ensures |Expect(file, rows, old_, new_)| == |rows|
    decreases |rows|
  {
    if rows != [] {
      hide Expect, CodeRows;
      var r, rest := rows[0], rows[1..];
      assert rows == [r] + rest;
      AllCode(file, rest, NextOld(r, old_), NextNew(r, new_));
      OneRow(file, r, rest, old_, new_);
      OneIsCode(file, r, old_, new_);
      CodeRowsConcat(Expect(file, [r], old_, new_), Expect(file, rest, NextOld(r, old_), NextNew(r, new_)));
    }
  }

  lemma OneIsCode(file: nat, r: Row, old_: nat, new_: nat)
    ensures var lines := Expect(file, [r], old_, new_); CodeRows(lines) == lines && |lines| == 1
  {
    hide CodeRows;
    var none: seq<Row> := [];
    assert [r][1..] == none;
    NothingExpected(file, NextOld(r, old_), NextNew(r, new_));
    var lines := Expect(file, [r], old_, new_);
    assert |lines| == 1 && lines == [lines[0]];
    OneCodeRow(lines[0]);
  }

  lemma OneCodeRow(l: Line)
    requires IsCode(l)
    ensures CodeRows([l]) == [l]
  {
    assert [l][1..] == [];
  }

  lemma HunkHeaderStep(p: Parser, h: Hunk, complete: bool)
    requires p.currentFile.Some? && h.oldStart <= U32_MAX && h.newStart <= U32_MAX
    ensures var q := Step(p, HunkHeaderLine(h.oldStart, h.oldCount, h.newStart, h.newCount, h.section), complete);
      && SameFile(p.(positioned := true), q)
      && CodeRows(q.lines) == CodeRows(p.lines)
      && q.oldLine == h.oldStart && q.newLine == h.newStart
  {
    hide *;
    var raw := HunkHeaderLine(h.oldStart, h.oldCount, h.newStart, h.newCount, h.section);
    HunkHeaderParses(h.oldStart, h.oldCount, h.newStart, h.newCount, h.section);
    HunkFallsThrough(p, h, complete);
    HunkShown(p, raw, (h.oldStart, h.newStart), complete);
  }

  lemma HunkFallsThrough(p: Parser, h: Hunk, complete: bool)
    requires p.currentFile.Some?
    requires ParseHunkStarts(HunkHeaderLine(h.oldStart, h.oldCount, h.newStart, h.newCount, h.section))
          == Some((h.oldStart, h.newStart))
    ensures var raw := HunkHeaderLine(h.oldStart, h.oldCount, h.newStart, h.newCount, h.section);
      Step(p, raw, complete) == StepHunk(p, p.currentFile.value, raw, (h.oldStart, h.newStart), complete)
  {
    hide ParseHunkStarts, RSplitOnce, UnescapeGitPath, RangePair, StepHunk, StepRow, StepHeader, StepUnpositioned;
    var raw := HunkHeaderLine(h.oldStart, h.oldCount, h.newStart, h.newCount, h.section);
    assert raw[0] == '@' && "@@" <= raw;
    assert ParseDiffHeaderPath(raw).None?;
  }

  lemma HunkShown(p: Parser, raw: string, starts: (nat, nat), complete: bool)
    requires p.currentFile.Some?
    ensures var q := StepHunk(p, p.currentFile.value, raw, starts, complete);
      && SameFile(p.(positioned := true), q)
      && CodeRows(q.lines) == CodeRows(p.lines)
      && q.oldLine == starts.0 && q.newLine == starts.1
  {
    hide CodeRows;
    var q := StepHunk(p, p.currentFile.value, raw, starts, complete);
    if |q.lines| > |p.lines| {
      CodeRowsPush(p.lines, q.lines[|p.lines|]);
    }
  }

  lemma OneHunkStep(p: Parser, h: Hunk, complete: bool)
    requires p.currentFile.Some? && p.positioned && h.oldStart <= U32_MAX && h.newStart <= U32_MAX
    ensures var q := Steps(p, PrintHunk(h), complete);
      && SameFile(p, q)
      && CodeRows(q.lines) == CodeRows(p.lines) + Expect(p.currentFile.value, Survivors(h.rows), h.oldStart, h.newStart)
  {
    hide Step, CodeRows, Expect, Survivors, PrintRows, HunkHeaderLine;
    var header := HunkHeaderLine(h.oldStart, h.oldCount, h.newStart, h.newCount, h.section);
    var rows := Expect(p.currentFile.value, Survivors(h.rows), h.oldStart, h.newStart);
    var p1 := Step(p, header, complete);
    HunkHeaderStep(p, h, complete);
    RowsStep(p1, h.rows, complete);
    CodeRowsConcat(p1.lines, rows);
    AllCode(p.currentFile.value, Survivors(h.rows), h.oldStart, h.newStart);
    assert PrintHunk(h)[1..] == PrintRows(h.rows) && PrintHunk(h)[0] == header;
  }

  lemma {:induction false} HunksStep(p: Parser, hunks: seq<Hunk>, complete: bool)
    requires p.currentFile.Some? && p.positioned && HunksFit(hunks)
    ensures var q := Steps(p, PrintHunks(hunks), complete);
      && SameFile(p, q)
      && CodeRows(q.lines) == CodeRows(p.lines) + ExpectHunks(p.currentFile.value, SurvivingHunks(hunks))
    decreases |hunks|
  {
    hide Step, CodeRows, PrintHunk, Steps, Expect, Survivors;
    if hunks == [] {
      NoSteps(p, complete);
    } else {
      var h, file := hunks[0], p.currentFile.value;
      assert h in hunks;
      var p1 := Steps(p, PrintHunk(h), complete);
      OneHunkStep(p, h, complete);
      HunksStep(p1, hunks[1..], complete);
      StepsConcat(p, PrintHunk(h), PrintHunks(hunks[1..]), complete);
      FirstHunkExpected(file, hunks);
      hide ExpectHunks, SurvivingHunks;
      var one := Expect(file, Survivors(h.rows), h.oldStart, h.newStart);
      var rest := ExpectHunks(file, SurvivingHunks(hunks[1..]));
      assert (CodeRows(p.lines) + one) + rest == CodeRows(p.lines) + (one + rest);
    }
  }

  lemma FirstHunkExpected(file: nat, hunks: seq<Hunk>)
    requires hunks != []
    ensures ExpectHunks(file, SurvivingHunks(hunks))
         == Expect(file, Survivors(hunks[0].rows), hunks[0].oldStart, hunks[0].newStart)
            + ExpectHunks(file, SurvivingHunks(hunks[1..]))
  {
    hide Expect, Survivors;
    assert SurvivingHunks(hunks)[1..] == SurvivingHunks(hunks[1..]);
  }

  lemma NoSteps(p: Parser, complete: bool)
    ensures Steps(p, [], complete) == p
  {
  }

  lemma FirstStep(p: Parser, line: string, rest: seq<string>, complete: bool)
    ensures Steps(p, [line] + rest, complete) == Steps(Step(p, line, complete), rest, complete)
  {
    hide Step;
    assert ([line] + rest)[1..] == rest;
  }

  /** A printed file, part by part. */
  lemma FileSteps(p: Parser, f: FileDiff, complete: bool)
    requires var p1 := Step(p, FileHeaderLine(f.path), complete);
      p1.currentFile.Some? && Steps(p1, ChangeLines(f.change), complete).currentFile.Some?
    ensures Steps(p, PrintFile(f), complete)
         == Steps(Steps(Step(p, FileHeaderLine(f.path), complete), ChangeLines(f.change), complete),
                  PrintHunks(f.hunks), complete)
  {
    hide Step, Steps, FileHeaderLine, PrintHunks, ChangeLines, DetailLines;
    var p1 := Step(p, FileHeaderLine(f.path), complete);
    var p2 := Steps(p1, ChangeLines(f.change), complete);
    var minus, plus := "--- a/" + f.path, "+++ b/" + f.path;
    var hunks := PrintHunks(f.hunks);
    var rest := ChangeLines(f.change) + ([minus, plus] + hunks);
    FirstStep(p, FileHeaderLine(f.path), DetailLines(f.details) + rest, complete);
    StepsConcat(p1, DetailLines(f.details), rest, complete);
    DetailsSkipped(p1, f.details, complete);
    StepsConcat(p1, ChangeLines(f.change), [minus, plus] + hunks, complete);
    assert [minus, plus] + hunks == [minus] + ([plus] + hunks);
    FirstStep(p2, minus, [plus] + hunks, complete);
    SkippedStep(p2, minus, complete);
    FirstStep(p2, plus, hunks, complete);
    SkippedStep(p2, plus, complete);
  }

  lemma {:induction false} DetailsSkipped(p: Parser, details: seq<Detail>, complete: bool)
    requires p.currentFile.Some?
    ensures Steps(p, DetailLines(details), complete) == p
    decreases |details|
  {
    hide Step, DetailLine;
    if details != [] {
      DetailSkipped(p, details[0], complete);
      DetailsSkipped(p, details[1..], complete);
    }
  }

  lemma DetailSkipped(p: Parser, d: Detail, complete: bool)
    requires p.currentFile.Some?
    ensures Step(p, DetailLine(d), complete) == p
  {
    var raw := DetailLine(d);
    DetailBegins(d);
    NoDetailParses(raw);
    OtherRow(p, raw);
    hide ParseHunkStarts, ParseDiffHeaderPath, StepRow, DetailLine;
    if raw[0] in {'i', 'o', 'n'} {
      assert IsSkipped(raw);
      hide IsSkipped;
    }
  }

  lemma NoDetailParses(raw: string)
    requires raw != "" && raw[0] != 'd' && raw[0] != '@'
    ensures ParseDiffHeaderPath(raw).None? && ParseHunkStarts(raw).None?
  {
    hide RSplitOnce, UnescapeGitPath;
  }

  lemma OtherRow(p: Parser, raw: string)
    requires p.currentFile.Some? && raw != "" && raw[0] !in {' ', '-', '+', '\\'}
    ensures StepRow(p, p.currentFile.value, raw) == p
  {
  }

  lemma DetailBegins(d: Detail)
    ensures var raw := DetailLine(d);
      && raw != "" && raw[0] in {'i', 'o', 'n', 's', 'r'}
      && !("new file mode " <= raw) && (raw[0] in {'i', 'o', 'n'} ==> IsSkipped(raw))
  {
    assert d.NewMode? ==> DetailLine(d)[4] == "new mode "[4] != "new file mode "[4];
  }

  /** What a header says of a file: its status, and for a binary file a row. */
  function StatusOf(c: Change, before: FileStatus): FileStatus {
    match c
    case Edited => before
    case Created(_) => Added
    case Dropped(_) => Deleted
    case Rewritten(_) => Binary
    case Patched => Binary
  }

  lemma ChangeStep(p: Parser, c: Change, complete: bool)
    requires p.currentFile.Some? && p.currentFile.value < |p.files|
    ensures var q := Steps(p, ChangeLines(c), complete); var file := p.currentFile.value;
      && q == p.(files := p.files[file := p.files[file].(status := StatusOf(c, p.files[file].status))],
                 lines := p.lines + ChangeRows(file, c))
  {
    match c {
      case Edited =>
        var file := p.currentFile.value;
        assert p.lines + [] == p.lines && p.files[file := p.files[file]] == p.files;
      case _ =>
        var raw := ChangeLines(c)[0];
        ChangeFallsThrough(p, c, complete);
        hide Step;
        assert ChangeLines(c)[1..] == [];
        assert Steps(p, [raw], complete) == Step(p, raw, complete);
        assert p.lines + [] == p.lines;
    }
  }

  lemma ChangeFallsThrough(p: Parser, c: Change, complete: bool)
    requires p.currentFile.Some? && !c.Edited?
    ensures var file := p.currentFile.value;
      Step(p, ChangeLines(c)[0], complete) == match c
        case Created(_) => SetStatus(p, file, Added)
        case Dropped(_) => SetStatus(p, file, Deleted)
        case _ => Push(SetStatus(p, file, Binary), BareLine(file, Meta, "Binary file changed"))
  {
    hide RSplitOnce, UnescapeGitPath, ParseHunkStarts, StepRow, StepHunk, StepHeader, StepUnpositioned, SetStatus, Push;
    var raw := ChangeLines(c)[0];
    assert raw[0] in {'n', 'd', 'B', 'G'} && (raw[0] == 'd' ==> raw[1] == 'e');
    assert ParseDiffHeaderPath(raw).None?;
    assert c.Created? ==> "new file mode " <= raw;
    assert c.Dropped? ==> "deleted file mode " <= raw;
    assert c.Rewritten? ==> "Binary files " <= raw;
  }

  lemma SkippedStep(p: Parser, raw: string, complete: bool)
    requires p.currentFile.Some? && ("--- " <= raw || "+++ " <= raw)
    ensures Step(p, raw, complete) == p
  {
    hide RSplitOnce, UnescapeGitPath, ParseHunkStarts;
    assert raw[0] == '-' || raw[0] == '+';
    assert ParseDiffHeaderPath(raw).None?;
  }

  lemma FileHeaderStep(p: Parser, path: string, complete: bool)
    ensures var q := Step(p, FileHeaderLine(path), complete);
      && q == StepHeader(p, ReadPath(path))
      && q.currentFile == Some(IndexOf(TableOf(p), ReadPath(path))) && q.positioned
      && TableOf(q) == Register(TableOf(p), ReadPath(path))
      && CodeRows(q.lines) == CodeRows(p.lines)
  {
    hide ParseDiffHeaderPath, ReadPath, FileHeaderLine;
    HeaderParses(path);
    var q := Step(p, FileHeaderLine(path), complete);
    CodeRowsPush(p.lines, BareLine(q.currentFile.value, FileHeader, ""));
  }

  lemma OneFileStep(p: Parser, f: FileDiff, complete: bool)
    requires HunksFit(f.hunks) && Named(p)
    ensures var q := Steps(p, PrintFile(f), complete);
      && TableOf(q) == Register(TableOf(p), ReadPath(f.path)) && Named(q)
      && CodeRows(q.lines) == CodeRows(p.lines)
        + ExpectFile(IndexOf(TableOf(p), ReadPath(f.path)), f.(hunks := SurvivingHunks(f.hunks)))
  {
    hide Step, CodeRows, HunksFit, Steps, PrintHunks, ReadPath, FileHeaderLine, StepHeader, SurvivingHunks, ExpectHunks,
         Named, ChangeLines, ChangeRows, PrintFile;
    var p1 := Step(p, FileHeaderLine(f.path), complete);
    var p2 := Steps(p1, ChangeLines(f.change), complete);
    var file := IndexOf(TableOf(p), ReadPath(f.path));
    FileHeaderStep(p, f.path, complete);
    StepKeepsNames(p, FileHeaderLine(f.path), complete);
    HeaderInBounds(p, ReadPath(f.path));
    ChangeStep(p1, f.change, complete);
    FileSteps(p, f, complete);
    HunksStep(p2, f.hunks, complete);
    StepsKeepNames(p, PrintFile(f), complete);
    CodeRowsConcat(p1.lines, ChangeRows(file, f.change));
    ChangeRowsAreCode(file, f.change);
    Associates(CodeRows(p.lines), ChangeRows(file, f.change), ExpectHunks(file, SurvivingHunks(f.hunks)));
  }

  lemma HeaderInBounds(p: Parser, path: string)
    requires Named(p)
    ensures var q := StepHeader(p, path); q.currentFile.Some? && q.currentFile.value < |q.files|
  {
  }

  lemma ChangeRowsAreCode(file: nat, c: Change)
    ensures CodeRows(ChangeRows(file, c)) == ChangeRows(file, c)
  {
    if IsBinary(c) {
      assert ChangeRows(file, c)[1..] == [];
    }
  }

  lemma {:induction false} FilesStep(p: Parser, fs: seq<FileDiff>, complete: bool)
    requires StartsFit(fs) && Named(p)
    ensures var q := Steps(p, PrintAll(fs), complete);
      CodeRows(q.lines) == CodeRows(p.lines) + ExpectAll(TableOf(p), Surviving(fs))
    decreases |fs|
  {
    hide *;
    if fs == [] {
      NoFiles(p, complete);
    } else {
      var f := fs[0];
      var p1 := Steps(p, PrintFile(f), complete);
      FirstFileFits(fs);
      OneFileStep(p, f, complete);
      FilesStep(p1, fs[1..], complete);
      FirstFilePrinted(p, fs, complete);
      FirstFileExpected(TableOf(p), fs);
      Associates(CodeRows(p.lines),
                 ExpectFile(IndexOf(TableOf(p), ReadPath(f.path)), f.(hunks := SurvivingHunks(f.hunks))),
                 ExpectAll(TableOf(p1), Surviving(fs[1..])));
    }
  }

  lemma NoFiles(p: Parser, complete: bool)
    ensures Steps(p, PrintAll([]), complete) == p && ExpectAll(TableOf(p), Surviving([])) == []
    ensures CodeRows(p.lines) + [] == CodeRows(p.lines)
  {
    hide CodeRows;
  }

  lemma FirstFileFits(fs: seq<FileDiff>)
    requires fs != [] && StartsFit(fs)
    ensures HunksFit(fs[0].hunks) && StartsFit(fs[1..])
  {
    hide HunksFit;
    assert fs[0] in fs;
  }

  lemma FirstFilePrinted(p: Parser, fs: seq<FileDiff>, complete: bool)
    requires fs != []
    ensures Steps(p, PrintAll(fs), complete)
         == Steps(Steps(p, PrintFile(fs[0]), complete), PrintAll(fs[1..]), complete)
  {
    hide Steps, PrintFile;
    StepsConcat(p, PrintFile(fs[0]), PrintAll(fs[1..]), complete);
  }

  lemma FirstFileExpected(t: Table, fs: seq<FileDiff>)
    requires fs != []
    ensures var path := ReadPath(fs[0].path);
      ExpectAll(t, Surviving(fs))
      == ExpectFile(IndexOf(t, path), fs[0].(hunks := SurvivingHunks(fs[0].hunks)))
         + ExpectAll(Register(t, path), Surviving(fs[1..]))
  {
    hide ReadPath, IndexOf, Register, SurvivingHunks, ExpectFile;
    assert Surviving(fs)[1..] == Surviving(fs[1..]);
  }

  // ----- exactly when nothing vanishes

  function RowCount(fs: seq<FileDiff>): nat {
    if fs == [] then 0 else (if IsBinary(fs[0].change) then 1 else 0) + HunkRowCount(fs[0].hunks) + RowCount(fs[1..])
  }

  function HunkRowCount(hunks: seq<Hunk>): nat {
    if hunks == [] then 0 else |hunks[0].rows| + HunkRowCount(hunks[1..])
  }

  lemma {:induction false} ExpectHunksCount(file: nat, hunks: seq<Hunk>)
    ensures |ExpectHunks(file, hunks)| == HunkRowCount(hunks)
  {
    if hunks != [] {
      AllCode(file, hunks[0].rows, hunks[0].oldStart, hunks[0].newStart);
      ExpectHunksCount(file, hunks[1..]);
    }
  }

  lemma {:induction false} ExpectAllCount(t: Table, fs: seq<FileDiff>)
    ensures |ExpectAll(t, fs)| == RowCount(fs)
    decreases |fs|
  {
    if fs != [] {
      ExpectHunksCount(IndexOf(t, ReadPath(fs[0].path)), fs[0].hunks);
      ExpectAllCount(Register(t, ReadPath(fs[0].path)), fs[1..]);
    }
  }

  predicate RowsStay(rows: seq<Row>) {
    forall r :: r in rows ==> !Vanishes(r)
  }

  predicate HunksStay(hunks: seq<Hunk>) {
    forall h :: h in hunks ==> RowsStay(h.rows)
  }

  lemma {:induction false} SurvivorsCount(rows: seq<Row>)
    ensures |Survivors(rows)| <= |rows|
    ensures |Survivors(rows)| == |rows| <==> RowsStay(rows)
    ensures RowsStay(rows) ==> Survivors(rows) == rows
  {
    hide Vanishes;
    if rows != [] {
      SurvivorsCount(rows[1..]);
      assert rows == [rows[0]] + rows[1..];
      assert RowsStay(rows) <==> !Vanishes(rows[0]) && RowsStay(rows[1..]);
    }
  }

  lemma {:induction false} SurvivingHunksCount(hunks: seq<Hunk>)
    ensures HunkRowCount(SurvivingHunks(hunks)) <= HunkRowCount(hunks)
    ensures HunkRowCount(SurvivingHunks(hunks)) == HunkRowCount(hunks) <==> HunksStay(hunks)
    ensures HunksStay(hunks) ==> SurvivingHunks(hunks) == hunks
  {
    hide RowsStay;
    if hunks != [] {
      SurvivorsCount(hunks[0].rows);
      SurvivingHunksCount(hunks[1..]);
      assert hunks == [hunks[0]] + hunks[1..];
      assert HunksStay(hunks) <==> RowsStay(hunks[0].rows) && HunksStay(hunks[1..]);
      assert SurvivingHunks(hunks)[1..] == SurvivingHunks(hunks[1..]);
    }
  }

  lemma {:induction false} SurvivingCount(fs: seq<FileDiff>)
    ensures RowCount(Surviving(fs)) <= RowCount(fs)
    ensures RowCount(Surviving(fs)) == RowCount(fs) <==> forall f :: f in fs ==> HunksStay(f.hunks)
    ensures (forall f :: f in fs ==> HunksStay(f.hunks)) ==> Surviving(fs) == fs
  {
    hide HunksStay;
    if fs != [] {
      SurvivingHunksCount(fs[0].hunks);
      SurvivingCount(fs[1..]);
      assert fs == [fs[0]] + fs[1..];
      assert Surviving(fs)[1..] == Surviving(fs[1..]);
    }
  }

  lemma StayIff(fs: seq<FileDiff>)
    ensures NoneVanish(fs) <==> forall f :: f in fs ==> HunksStay(f.hunks)
  {
    hide Vanishes;
    if forall f :: f in fs ==> HunksStay(f.hunks) {
      forall f, h, r | f in fs && h in f.hunks && r in h.rows ensures !Vanishes(r) {
        assert HunksStay(f.hunks) && RowsStay(h.rows);
      }
    }
  }

  /** The parsed rows are the printed ones, with the printed numbers, exactly when no
      deleted line begins with "-- " and no added line with "++ ". */
  lemma ParsedRowsIff(p: Parser, fs: seq<FileDiff>, complete: bool)
    requires StartsFit(fs) && Named(p)
    ensures CodeRows(Steps(p, PrintAll(fs), complete).lines) == CodeRows(p.lines) + ExpectAll(TableOf(p), fs)
      <==> NoneVanish(fs)
  {
    FilesStep(p, fs, complete);
    ExpectAllCount(TableOf(p), fs);
    ExpectAllCount(TableOf(p), Surviving(fs));
    SurvivingCount(fs);
    StayIff(fs);
    hide ExpectAll, RowCount, Surviving, NoneVanish, HunksStay, Steps, CodeRows, StartsFit;
    var a, b := ExpectAll(TableOf(p), Surviving(fs)), ExpectAll(TableOf(p), fs);
    var pre := CodeRows(p.lines);
    assert pre + a == pre + b ==> |a| == |b|;
  }

  // ----- through the text and the snapshot

  predicate EmptyGaps(lines: seq<Line>) {
    forall l :: l in lines && l.kind.GapRow? ==> l.kind.gap.hidden == []
  }

  lemma CodeOfRows(l: Line)
    requires l.kind.GapRow? ==> l.kind.gap.hidden == []
    ensures CodeRows(RowsOf(l)) == CodeOf(l)
  {
    if !l.kind.GapRow? {
      assert [l][1..] == [];
    }
  }

  lemma {:induction false} RowsKeepCode(lines: seq<Line>)
    requires EmptyGaps(lines)
    ensures CodeRows(Rows(lines)) == CodeRows(lines)
  {
    hide CodeOf, RowsOf;
    if lines != [] {
      assert lines[0] in lines;
      assert forall m :: m in lines[1..] ==> m in lines;
      RowsKeepCode(lines[1..]);
      CodeOfRows(lines[0]);
      CodeRowsConcat(RowsOf(lines[0]), Rows(lines[1..]));
    }
  }

  lemma {:induction false} StepsKeepEmptyGaps(p: Parser, patch: seq<string>, complete: bool)
    requires EmptyGaps(p.lines)
    ensures EmptyGaps(Steps(p, patch, complete).lines)
    decreases |patch|
  {
    hide Step;
    if patch != [] {
      StepAppends(p, patch[0], complete);
      var p1 := Step(p, patch[0], complete);
      assert p1.lines != p.lines ==> p1.lines == p.lines + [p1.lines[|p.lines|]];
      StepsKeepEmptyGaps(p1, patch[1..], complete);
    }
  }

  /** From hunks to text to snapshot: hidden context put back, the snapshot's code rows
      are the printed ones in order and with their numbers, exactly when none of them
      looks like a file header line. */
  lemma SnapshotRoundTrip(files: seq<FileEntry>, fs: seq<FileDiff>, complete: bool, s: Snap)
    requires StartsFit(fs) && forall l :: l in PrintAll(fs) ==> IsPlainLine(l)
    requires var full := FullLines(files, Join(PrintAll(fs)), complete);
      s.lines == Visible(full) && |full| <= MAX_RENDERED_DIFF_LINES
    requires complete ==> Fits(Steps(InitialParser(files), PrintAll(fs), complete).lines)
    ensures CodeRows(Rows(s.lines)) == ExpectAll(Table(|files|, PathIndexes(files)), fs) <==> NoneVanish(fs)
  {
    hide Step, Steps, Rows, CodeRows, ExpectAll, NoneVanish, Fits, Collapsed, LinesOf, Join, PrintAll, StartsFit,
         IsPlainLine;
    LinesRoundTrip(PrintAll(fs));
    var p := Steps(InitialParser(files), PrintAll(fs), complete);
    StartIsNamed(files);
    ParsedRowsIff(InitialParser(files), fs, complete);
    assert CodeRows([]) == [] by { NoCode(); }
    assert [] + ExpectAll(TableOf(InitialParser(files)), fs) == ExpectAll(TableOf(InitialParser(files)), fs);
    if complete {
      StepsAddNoGap(InitialParser(files), PrintAll(fs));
      CollapseTheorem(p.lines, 0);
      assert s.lines == Collapsed(p.lines, 0).0;
    } else {
      StepsKeepEmptyGaps(InitialParser(files), PrintAll(fs), complete);
      RowsKeepCode(p.lines);
      assert s.lines == p.lines;
    }
  }

  lemma NoCode()
    ensures CodeRows([]) == []
  {
  }

  // ----- the file table names the printed paths

  ghost predicate Named(p: Parser) {
    forall path :: path in p.pathIndexes ==>
      p.pathIndexes[path] < |p.files| && p.files[p.pathIndexes[path]].path == path
  }

  lemma {:induction false} StartIsNamed(files: seq<FileEntry>)
    ensures Named(InitialParser(files))
  {
    if files != [] {
      StartIsNamed(files[..|files| - 1]);
    }
  }

  lemma StepKeepsNames(p: Parser, raw: string, complete: bool)
    requires Named(p)
    ensures Named(Step(p, raw, complete))
    ensures forall path :: path in p.pathIndexes ==>
      path in Step(p, raw, complete).pathIndexes && Step(p, raw, complete).pathIndexes[path] == p.pathIndexes[path]
  {
    hide ParseDiffHeaderPath, ParseHunkStarts, IsSkipped, StepRow, StepHunk, StepUnpositioned, StepHeader, SetStatus,
         Named;
    var path := ParseDiffHeaderPath(raw);
    if path.Some? {
      HeaderKeepsNames(p, path.value);
    } else if p.currentFile.Some? {
      var file, q := p.currentFile.value, Step(p, raw, complete);
      StatusKeepsNames(p, file, Added);
      StatusKeepsNames(p, file, Deleted);
      StatusKeepsNames(p, file, Binary);
      SameNames(SetStatus(p, file, Binary), q);
      SameNames(p, q);
    }
  }

  lemma SameNames(p: Parser, q: Parser)
    requires Named(p)
    ensures p.files == q.files && p.pathIndexes == q.pathIndexes ==> Named(q)
  {
  }

  lemma HeaderKeepsNames(p: Parser, path: string)
    requires Named(p)
    ensures Named(StepHeader(p, path))
    ensures forall old_ :: old_ in p.pathIndexes ==>
      old_ in StepHeader(p, path).pathIndexes && StepHeader(p, path).pathIndexes[old_] == p.pathIndexes[old_]
  {
  }

  lemma StatusKeepsNames(p: Parser, file: nat, status: FileStatus)
    requires Named(p)
    ensures Named(SetStatus(p, file, status)) && SetStatus(p, file, status).pathIndexes == p.pathIndexes
  {
  }

  lemma {:induction false} StepsKeepNames(p: Parser, patch: seq<string>, complete: bool)
    requires Named(p)
    ensures Named(Steps(p, patch, complete))
    ensures forall path :: path in p.pathIndexes ==>
      path in Steps(p, patch, complete).pathIndexes
        && Steps(p, patch, complete).pathIndexes[path] == p.pathIndexes[path]
    decreases |patch|
  {
    hide Step;
    if patch != [] {
      StepKeepsNames(p, patch[0], complete);
      StepsKeepNames(Step(p, patch[0], complete), patch[1..], complete);
    }
  }

  /** The rows of a printed file point at an entry with that file's path, when the
      path can be read back; and later files do not change that. */
  lemma PrintedFileIsNamed(p: Parser, path: string, later: seq<string>, complete: bool)
    requires Named(p) && !Contains(path, " b/") && '\\' !in path
    ensures var q := Steps(Step(p, FileHeaderLine(path), complete), later, complete);
      var index := IndexOf(TableOf(p), path);
      index < |q.files| && q.files[index].path == path
  {
    hide Step, FileHeaderLine, ParseDiffHeaderPath, ReadPath, Contains, Steps, StepHeader;
    assert ReadPath(path) == path by {
      PathRoundTrip(path);
      HeaderParses(path);
    }
    var p1 := Step(p, FileHeaderLine(path), complete);
    FileHeaderStep(p, path, complete);
    assert Named(p1) by { StepKeepsNames(p, FileHeaderLine(path), complete); }
    assert path in p1.pathIndexes && p1.pathIndexes[path] == IndexOf(TableOf(p), path);
    StepsKeepNames(p1, later, complete);
  }
}
