# Shidou: a verified model of its state-carrying parts

Shidou is a desktop client written in Rust, with an embedded JavaScript kernel and a TypeScript
development watcher. This project models the parts of it that carry state, branching or
arithmetic of their own, and proves what they promise. Code that works step by step is modelled
by classes and methods with the same branches; each method is proved against a specification
function or a stated property, and the lemmas are about those.

- **The text field** (`src/input.rs`). `EditHistory.dfy` has the two undo stacks with their
  grouping, trimming, composition and cap; `TextInput.dfy` the field around them, with its UTF-16
  interface for input methods. A history is compressed: steps grow in place, splices lose their
  shared ends (`TrimmedSplice.dfy`), a composition is one step amended many times. The central
  theorem is that it still denotes a line of contents the field really held, with the current content on it
  (`HistoryLine.dfy` and `HistoryRuns.dfy` for the history; `TextInputRuns.dfy`, `Composition.dfy` and
  `FieldRuns.dfy` for the whole field). `GestureRuns.dfy` says what typing and the two deleting keys
  group and what one undo and one redo then show, `FieldShows.dfy` what text, selection and mark stand there after
  each call and through a whole composition, `Utf16Offsets.dfy` what offset conversion means, and
  `TextRuns.dfy` that the painter's boundary sweep equals a rule for
  single bytes. Text is UTF-8 bytes, well formed as section 4 of RFC 3629 says (`Utf8.dfy`).
- **The review diff** (`src/review_diff.rs`). A printer for unified diffs and the parser for them
  (`DiffText.dfy`, `QuotedPaths.dfy`, `DiffParse.dfy`, `DiffRoundTrip.dfy`; row for row, with separators and
  statuses, in `DiffRows.dfy`), the collapsing of context into gaps
  against a rule for single rows (`DiffCollapse.dfy`), and the in-place expansion of gaps, click
  after click (`DiffExpansion.dfy`).
- **The kernel's codecs** (`src/js_repl_bootstrap.js`). UTF-8 in `Utf8Codec.dfy`, base64 in
  `Base64Codec.dfy`, with numbers as 32-bit words under bitwise operators. Base64 is specified as a
  regrouping of bits.
- **The query cache** (`src/query.rs`): the cache in `QueryCache.dfy`, its guarantees over every
  run in `QueryRuns.dfy`; in `QueryUses.dfy` what the events alone say about uses, answers and evictions.
- **The timers** (`src/js_repl.rs` and the bootstrap): the native queue in `TimerQueue.dfy`, when its timers
  run out in `TimerRuns.dfy`, said by the calls and their clock readings; both
  tables together in `TimerBatches.dfy`, with callbacks that schedule, clear and refresh timers
  in the middle of a batch, over every run from the empty tables; and in `TimerTraces.dfy` what those runs
  take and call, said by what was scheduled.
- **The development watcher** (`scripts/dev.ts`): a run-to-completion event loop with await
  points, in `DevWatcher.dfy`.
- **The pairing code's raster** (`src/pairing.rs`): nested loops over a flat pixel buffer, in
  `QrRaster.dfy`.

`Basics.dfy` holds what several modules share. `dafny verify dfyconfig.toml` checks everything.

## Where the code and its promises part

- An application edit (`replace_range`, `set_content`, `clear`) while text is marked drops the mark
  and can leave an open composition step on the stack. `ExactlyTheConsiderate` says for which calls
  the composition stays whole, and for which it does not; `FallbackReached` is a run that takes the
  fallback for a splice outside the open step.
- Typing is said to extend a replaced selection. It does not when trimming leaves the first text no end
  of its own: `JoinsExactlyWhenCarried` is the exact condition, `RetypedLetterSplits` an input.
- A deleted line that begins with `-- ` and an added line that begins with `++ ` are taken for file
  headers and vanish from a parsed diff; `SnapshotRoundTrip` is an equivalence.
- A path survives the diff header exactly when it holds neither ` b/` nor a backslash: the reader
  unescapes even an unquoted path (`PathRoundTrip`). A quoted one survives exactly when it does not hold
  ` b/` (`QuotedPathRoundTrip`). A line survives exactly when it holds no line
  feed and does not end in a carriage return (`LinesRoundTrip`).
- A gap's count is 32 bits wide. A context run that hides more rows than that loses the excess;
  `KeepsAllRowsIff` says exactly when none is lost.
- The UTF-8 decoder drops the rest of its input when a character runs past the end, even where
  well-formed characters follow inside it (`LosesALetter`). `LosesExactlyWhatItGivesUp` says for
  which inputs that changes the output.
- The cache's comment says that the capacity counts resolved values; the code compares it with all
  entries, fetches in flight included. Both a bound and the exact outcome are proved, and
  `AcceptedValueKept` says before the delivery whether its value will stay.
- When the counter of timer ids has come round, an id can be handed out while the batch still has to
  run its former owner. `ExactlyTheUndisturbed` and `BatchAgrees` say that exactly such a scheduling
  breaks a batch; `RoundIsReached` brings the kernel to a state in which it happens, and
  `WrappedIdsDisturb` shows the wrong callback run and the tables apart.
- After the initial build the watcher drains its queue only if app changes arrived. A daemon change
  queued by then is left with nothing to build it until a rebuild timer fires (`DaemonChangeStranded`);
  `StrandedOnlyAtHandOff` says exactly when a queue is stranded, and that it is never an app build.
  The same hand-off launches an app even when the watcher is stopping (`LaunchedWhileStopping`);
  `LaunchesWhileStopping` gives the exact condition, at the moment stopping begins.
- Startup gives up its claim to build before it waits for the old app, so that a drain can rebuild and
  launch during that wait, and startup then launches over it (`LaunchedTwice`). `LaunchMeetsApp` says
  exactly when.

## Model

| member | source | states |
|---|---|---|
| `TrimmedSplice.TrimSplice` | src/input.rs:411-423 | the loops compute the longest shared prefix and then the longest shared suffix of what is left, each ending on a boundary of the old text |
| `TrimmedSplice.PrefixLenIsLongest` | src/input.rs:425-437 | no longer shared prefix ends on a boundary |
| `TrimmedSplice.SuffixLenIsLongest` | src/input.rs:440-452 | no longer shared suffix starts on a boundary |
| `TrimmedSplice.PrefixIsBoundaryInBoth` | src/input.rs:425-437 | a shared prefix that ends on a boundary of the old text, the only one looked at, ends on one in both |
| `TrimmedSplice.SuffixIsBoundaryInBoth` | src/input.rs:440-452 | a shared suffix that starts on a boundary of the old text, the only one looked at, starts on one in both |
| `TrimmedSplice.TrimIsFaithful` | src/input.rs:406-423 | the trimmed splice cuts no character, gives the same content as the full one, shares no first or last character between old and new, and is empty exactly when the splice changes nothing |
| `TrimmedSplice.TrimTakesFrontFirst` | src/input.rs:411-423 | the front is trimmed first, as far as it goes; the back gets what is left |
| `EditHistory.EditHistory.Record` | src/input.rs:245-299 | the stacks after a recorded splice: nothing, a grown step, or a new one under the cap, with the redo stack cleared |
| `EditHistory.EditHistory.RecordComposition` | src/input.rs:303-338 | the stacks after a composition splice: amended in place, or a new open step after closing a stray one |
| `EditHistory.EditHistory.FinalizeComposition` | src/input.rs:342-352 | the open step closed and sealed, or removed when it nets no change |
| `EditHistory.EditHistory.Seal` | src/input.rs:356-360 | the newest step no longer grows |
| `EditHistory.EditHistory.Push` | src/input.rs:362-368 | the oldest steps fall off beyond the cap |
| `EditHistory.PushKeepsNewest` | src/input.rs:362-368 | a pushed step is on top of the newest thousand, and none is dropped for less |
| `EditHistory.EditHistory.Undo` | src/input.rs:374-388 | the content, selection and stacks after undo, and the dropped history when the step does not fit the content |
| `EditHistory.EditHistory.Redo` | src/input.rs:392-404 | the same for redo, with the caret after the text |
| `HistoryLine.CoalescedLinks` | src/input.rs:261-288 | a step grown in place leads from the content before its first edit to the content after its last |
| `HistoryLine.AmendedLinks` | src/input.rs:313-322 | an amended composition step still leads from the same earlier content |
| `HistoryLine.RecordKeepsTimeline` | src/input.rs:245-299 | recording a trimmed splice, in every branch, keeps the steps chained and adds at most the content of just before |
| `HistoryLine.ComposeKeepsTimeline` | src/input.rs:303-338 | so does recording a composition splice, through every branch |
| `HistoryLine.FinalizeKeepsTimeline` | src/input.rs:342-352 | so does closing a composition, also when its step is dropped |
| `HistoryLine.UndoAlongTimeline` | src/input.rs:374-388 | on a chained history undo's guard never fails, its clamps never bite, and it returns the content before |
| `HistoryLine.RedoAlongTimeline` | src/input.rs:392-404 | redo's guard never fails, and it returns the content after, with the caret on a boundary |
| `HistoryLine.MisfitDropsHistory` | src/input.rs:374-404 | where the step's text does not stand in the content, undo and redo change nothing but to drop the whole history |
| `HistoryRuns.RunsKeepTheLine` | src/input.rs:239-405 | after every run of all operations the undo and redo steps chain through contents the field really held, and together they stay within the cap |
| `HistoryRuns.UndoThenRedo` | src/input.rs:374-404 | in every run undo succeeds, shows a content really held with a selection on its boundaries, and redo restores log and content |
| `HistoryRuns.RedoThenUndo` | src/input.rs:374-404 | the other way round |
| `HistoryRuns.AnyRunWalksBackAndForth` | src/input.rs:374-404 | after any run, any number of undos and as many redos return to the very same state |
| `GestureRuns.TypingIsOneStep` | src/input.rs:261-272 | any number of texts typed in time, the first over any selection in any direction, are one step: what the first changed, and all the others after it, provided the first carries on |
| `GestureRuns.JoinsExactlyWhenCarried` | src/input.rs:261-272 | after a first text that changes something, the next typed in time joins its step exactly when the trimmed first splice inserts something and shares no end with what it replaced |
| `GestureRuns.RetypedLetterSplits` | src/input.rs:261-272 | "e" typed over "de" and then "y" are two steps |
| `GestureRuns.ErasingIsOneStep` | src/input.rs:273-286 | any number of presses of Backspace and Delete, in any order, in one go, are one step with everything they removed, in text order |
| `GestureRuns.KeyIsSelectThenEdit` | src/input.rs:1227-1245 | a press first selects what it deletes and then replaces it, two calls of the field's runs |
| `GestureRuns.PressAtTheEdge` | src/input.rs:1227-1245 | a press that reaches nowhere leaves the field, its history included, as it is |
| `GestureRuns.GestureUndoes` | src/input.rs:374-388 | one undo of such a step gives the field back as its first edit found it: content, selection and direction |
| `GestureRuns.GestureRedoes` | src/input.rs:392-404 | and one redo brings it back with the caret behind its text |
| `GestureRuns.InTimeIs` | src/input.rs:261-264 | in time is less than 300 milliseconds after, or a clock that went back |
| `GestureRuns.TypingUndoes` | src/input.rs:261-272 | after typing in one go, one undo gives back the field from before the first text, with the replaced selection, and leaves the steps that were there but for the cap; one redo then gives the field from after the last text |
| `GestureRuns.ErasingUndoes` | src/input.rs:1227-1245 | after any such presses one undo gives all the text back, with what the first press deleted selected; one redo takes it away again |
| `GestureRuns.BackspacingUndoes` | src/input.rs:1227-1238 | begun by Backspace at a caret, that is the character before the caret, selected backwards |
| `GestureRuns.DeletingUndoes` | src/input.rs:1240-1245 | begun by Delete at a caret, the character after it, selected forwards |
| `GestureRuns.TypingAfterPause` | src/input.rs:261-272 | typing after a pause, a seal or a composition is undone, and redone, by itself |
| `Utf16Offsets.OffsetFromUtf16` | src/input.rs:1564-1575 | the loop finds the specified byte offset |
| `Utf16Offsets.OffsetToUtf16` | src/input.rs:1577-1588 | the loop finds the specified count of code units |
| `Utf16Offsets.ToUtf16Counts` | src/input.rs:1577-1588 | on a boundary the result is the UTF-16 length of the text before it (section 2.1 of RFC 2781) |
| `Utf16Offsets.LenIsUnits` | src/input.rs:1577-1588 | that length is the number of code units the text decodes to, two exactly for what is above the basic plane |
| `Utf16Offsets.FromUtf16IsFirst` | src/input.rs:1564-1575 | the result is a boundary, in bounds, and the first one at or past the units asked for |
| `Utf16Offsets.RoundTrip` | src/input.rs:1564-1588 | bytes to units and back is the identity on boundaries |
| `Utf16Offsets.RoundsUp` | src/input.rs:1564-1588 | units to bytes and back is the identity, or one more exactly inside a surrogate pair, or the length past the end |
| `Utf16Offsets.FromUtf16Monotone` | src/input.rs:1564-1575 | monotone |
| `Utf16Offsets.ToUtf16Monotone` | src/input.rs:1577-1588 | monotone, and never past the text's length in units |
| `Utf16Offsets.RelativeOffset` | src/input.rs:1598-1605 | adding in UTF-16 before converting equals the base plus a conversion over the text after it |
| `Utf16Offsets.ConvertedRangesAreSafe` | src/input.rs:1594-1596 | any ordered range converts to one that slices between characters |
| `Utf16Offsets.RelativeRangesAreSafe` | src/input.rs:1602-1605 | so does any range relative to a boundary, never reaching before it |
| `TextInput.TextInput.ReplaceRange` | src/input.rs:871-898 | the field after an application's splice: ignored when read-only or off boundaries, otherwise its own sealed step |
| `TextInput.TextInput.Clear` | src/input.rs:975-993 | an emptied field, with a new history only if something changed |
| `TextInput.TextInput.SetContent` | src/input.rs:995-1016 | a loaded content, with a new history only if it differs |
| `TextInput.TextInput.UnmarkText` | src/input.rs:1684-1687 | the mark dropped and the composition closed |
| `TextInput.TextInput.ReplaceTextInRange` | src/input.rs:1689-1727 | the field after a commit: over the marked text if any, else over the range or the selection |
| `TextInput.TextInput.ReplaceAndMarkTextInRange` | src/input.rs:1729-1779 | the field after a composition revision: the target, the new text, its mark and selection, and the log |
| `TextInput.TextInput.Undo` | src/input.rs:1400-1411 | undo, except while text is marked or the field is read-only |
| `TextInput.TextInput.Redo` | src/input.rs:1413-1422 | redo, under the same guard |
| `TextInput.TextInput.ApplyHistoryStep` | src/input.rs:1424-1440 | exactly content, selection, direction and mark change |
| `TextInput.TextInput.SelectTo` | src/input.rs:1545-1562 | the moving end of the selection goes to an offset, and the direction turns when it passes the other end |
| `TextInput.SelectToKeepsAnchor` | src/input.rs:1545-1562 | the other end stays, the caret is at the offset, and the direction says on which side of that end |
| `TextInput.TextInput.Backspace` | src/input.rs:1227-1238 | nothing in an empty field; else the selection, or what lies between the caret and the boundary before it, is selected and replaced by nothing |
| `TextInput.TextInput.Delete` | src/input.rs:1240-1245 | the same towards the boundary after the caret |
| `TextInput.TextInput.Paste` | src/input.rs:1329-1348 | a commit of plain text, sealed off on both sides |
| `TextInput.TextInput.OnFocus` | src/input.rs:1018-1022 | regaining focus seals the newest step and changes nothing else |
| `TextInput.CommitTargetIsSafe` | src/input.rs:1698-1709 | whatever ordered range the platform gives, what is sliced lies between characters |
| `TextInput.MarkTargetIsSafe` | src/input.rs:1737-1751 | the same, and with marked text the target lies inside it |
| `FieldShows.ReplaceRangeShows` | src/input.rs:871-898 | the new text stands in place of the old, between what was around it, with the caret behind it and nothing marked |
| `FieldShows.ReplaceRangeClips` | src/input.rs:871-884 | ends beyond the text count as its end; a read-only field, a cut character or a reversed range change nothing |
| `FieldShows.ReplaceRangeIsOneStep` | src/input.rs:871-898 | whatever came before, it is a sealed step of its own that no later edit joins; one undo gives back content, selection and direction |
| `FieldShows.PasteIsOneStep` | src/input.rs:1329-1348 | so is a paste over the selection, which shows the pasted text in its place |
| `FieldShows.SetContentShows` | src/input.rs:975-1016 | what is loaded is what is shown, with the caret at its end; the history stays exactly when nothing changed, and clearing is loading nothing |
| `FieldShows.CommitShows` | src/input.rs:1689-1727 | with nothing marked, a commit over a UTF-16 range puts the text where those code units lie |
| `FieldShows.CommitOverMarkShows` | src/input.rs:1698-1727 | with text marked it replaces the marked text, whatever range is given |
| `FieldShows.UnmarkShows` | src/input.rs:1684-1687 | ending a composition without a commit leaves what is shown |
| `FieldShows.MarkOverShows` | src/input.rs:1729-1779 | a marking call puts the new text in place of its target, marks exactly that text, or nothing when it is empty, and puts the caret behind it if no selection is given |
| `FieldShows.MarkTargetAfresh` | src/input.rs:1737-1752 | with nothing marked the target is the selection, or the text at the given code units |
| `FieldShows.MarkTargetInMark` | src/input.rs:1737-1752 | with text marked and no range the target is all of the marked text; a range counts code units from the start of the mark and picks out the text that lies there |
| `FieldShows.MarkTargetPastMark` | src/input.rs:1737-1751 | an end at or past the last marked code unit is the end of the mark |
| `FieldShows.MarkSelects` | src/input.rs:1765-1779 | the selection given counts code units from the start of the new text and picks out the part of it that lies there |
| `FieldShows.MarkingShowsLast` | src/input.rs:1729-1779 | after a first marking call over any target and any number of revisions with no range, the field shows the last text in place of that target, and exactly that text is marked, or nothing when it is empty |
| `FieldShows.CompositionShowsCommit` | src/input.rs:1689-1779 | and the commit that ends it shows the committed text there instead, with the caret behind it and nothing marked |
| `TextInputRuns.CallCoheres` | src/input.rs:871-1016 | any call in any state keeps the field safe to slice and its history a line through its content |
| `FieldRuns.FieldRunsCohere` | src/input.rs:866-1779 | in every run of the whole field the history denotes a line of contents it showed |
| `Composition.ExactlyTheConsiderate` | src/input.rs:871-1016 | a call keeps "open step if and only if marked text, with the mark inside it" exactly when it is considerate: nothing is marked, or the edit is ignored, or it starts a new history |
| `FieldRuns.ConsiderateRunsStayComposed` | src/input.rs:303-352 | in every run of considerate calls marked text lies inside the one open step |
| `FieldRuns.FallbackUnreachable` | src/input.rs:313-327 | in such runs the branch for a splice outside the open composition is never taken |
| `FieldRuns.FallbackReached` | src/input.rs:323-337 | a run with one inconsiderate call that does take it |
| `FieldRuns.UndoAlwaysChanges` | src/input.rs:374-388 | in such runs every undo shows a different content, one the field showed before |
| `FieldRuns.WholeComposition` | src/input.rs:1684-1779 | a composition of any number of revisions leaves one step or none; one undo shows content, selection and direction of before; no net change leaves the stack as it was but for the cap |
| `TextRuns.InputTextRuns` | src/input.rs:2064-2139 | the runs tile the text, none is empty, and every byte gets what the per-byte rule says for token colour, background order and underline |
| `TextRuns.WindowIsUniform` | src/input.rs:2094-2138 | between two neighbouring edges all bytes get one style, the one the binary searches find |
| `TextRuns.ColorIs` | src/input.rs:2064-2139 | the rule: a byte has the colour of the token over it, and the base colour where there is none |
| `TextRuns.BackgroundIs` | src/input.rs:2094-2138 | the rule: the active match goes over the selection and that over the other matches; marked text is underlined |
| `DiffExpansion.Snapshot.ExpandGap` | src/review_diff.rs:139-235 | the snapshot and the row count after a click, in every branch; `ClickShows` and `ClickRefused` say what that is |
| `DiffExpansion.ReplacementRows` | src/review_diff.rs:175-216 | every branch builds the first and last revealed rows around what stays hidden |
| `DiffExpansion.ClickConserves` | src/review_diff.rs:139-235 | rows with hidden ones in place never change; a success hides strictly less and keeps the gaps' ids and positions, at most dropping the one clicked; a failure changes no row |
| `DiffExpansion.ClickSucceeds` | src/review_diff.rs:144-172 | a click reveals rows exactly on an expandable gap below the cap |
| `DiffExpansion.ClickShows` | src/review_diff.rs:139-235 | at the start the next rows of the gap stand in its place with the rest of it behind them, at the end the last ones with the rest before them: a hundred, or fewer if there are fewer or the cap leaves less room; at both, two hundred shared out evenly; all, next to the neighbouring change where the cap is in the way, and with no gap left where it is not |
| `DiffExpansion.ClickRefused` | src/review_diff.rs:139-172 | any other click leaves every row and file, and on an expandable gap says that rows are missing |
| `DiffExpansion.ClickStaysClickable` | src/review_diff.rs:218-229 | every file still names its first header row, context stays complete, and the rows exceed the cap by at most one separator |
| `DiffExpansion.ClicksConserve` | src/review_diff.rs:135-251 | all of that over any sequence of clicks |
| `DiffCollapse.CollapseContext` | src/review_diff.rs:549-567 | the loops compute the collapsed rows, file by file |
| `DiffCollapse.ChangesAfter` | src/review_diff.rs:570-573 | the backward loop says for every index whether a change follows |
| `DiffCollapse.CollapsedShows` | src/review_diff.rs:569-633 | the collapsed file shows exactly what the rule for single rows says: hidden are context rows of a run, three or more away from each side that faces a change, at least two together |
| `DiffCollapse.HiddenInStretch` | src/review_diff.rs:576-633 | the rule by numbers: of a stretch of context, three rows stay next to each side beyond which the file changes, and the others are hidden if there are at least two |
| `DiffCollapse.HiddenIsFar` | src/review_diff.rs:576-633 | so only context is hidden, and never within three rows of a change |
| `DiffCollapse.ChangesAreShown` | src/review_diff.rs:569-633 | and every change of a file is shown |
| `DiffCollapse.GapSaysWhere` | src/review_diff.rs:605-633 | a gap is leading, trailing or between exactly as changes are shown before and after it |
| `DiffCollapse.CollapseTheorem` | src/review_diff.rs:549-659 | over all files: what the rule says, no row lost, complete context behind each gap, and ids that count up |
| `DiffCollapse.KeepsAllRowsIff` | src/review_diff.rs:635-659 | a file keeps all its rows exactly when no hidden stretch overflows its 32-bit count |
| `DiffCollapse.UnchangedFileUntouched` | src/review_diff.rs:588-597 | a file with no change is left as it is |
| `DiffCollapse.GapIdsAreDistinct` | src/review_diff.rs:635-659 | no two gaps share an id |
| `DiffText.LinesRoundTrip` | src/review_diff.rs:353 | written lines read back are the same exactly when none holds a line feed or ends in a carriage return |
| `DiffText.LastLineIsRead` | src/review_diff.rs:353 | a last line without a line end is read like the others |
| `DiffText.ReturnIsLineEnd` | src/review_diff.rs:353 | a carriage return before a line feed belongs to the line end |
| `DiffText.HunkHeaderParses` | src/review_diff.rs:755-765 | every hunk header is read back with its two starts, whatever section text follows, when both fit 32 bits, and is none otherwise |
| `DiffText.PathRoundTrip` | src/review_diff.rs:721-753 | a path in a file header is read back exactly when it holds neither " b/" nor a backslash |
| `DiffText.UnescapeKeepsIff` | src/review_diff.rs:733-753 | unescaping changes a path exactly when it holds a backslash |
| `QuotedPaths.UnescapeQuoted` | src/review_diff.rs:733-753 | unescaping takes the quoting of tabs, line ends, quotes and backslashes back |
| `QuotedPaths.QuotedPathRoundTrip` | src/review_diff.rs:721-753 | a quoted path in a file header is read back exactly when it does not hold " b/" |
| `DiffParse.Parse` | src/review_diff.rs:333-547 | the loop yields the folded rows, collapsed and capped, says whether rows were cut, and every file names its first header row |
| `DiffParse.CapVisibleLines` | src/review_diff.rs:665-674 | the rows within the cap, and whether there were more |
| `DiffParse.RecomputeDiffLines` | src/review_diff.rs:676-687 | each file names its first header row, or none, and nothing else of it changes |
| `DiffParse.LastEntryWins` | src/review_diff.rs:335-339 | a path in the table stands for the last entry that has it |
| `DiffParse.ParsedIsClickable` | src/review_diff.rs:525-547 | a snapshot parsed with complete context satisfies what the clicks need |
| `DiffRoundTrip.ParsedRowsIff` | src/review_diff.rs:353-523 | from any parser state whose table names its files, as the initial one does, the rows and notes of a printed diff are the printed ones, numbered consecutively, exactly when no row looks like a file header |
| `DiffRoundTrip.SnapshotRoundTrip` | src/review_diff.rs:333-547 | the same through lines, collapsing and the cap, for the whole snapshot |
| `DiffRoundTrip.PrintedFileIsNamed` | src/review_diff.rs:355-380 | the rows of a printed file point at the entry with its path, and later files do not change that |
| `DiffRows.HunksLines` | src/review_diff.rs:440-523 | hunk by hunk the parser appends, unless context is complete, a gap that counts the lines left out on the side where more are, leading or between, or the hunk's own header where it adjoins; and then its rows |
| `DiffRows.EndsCount` | src/review_diff.rs:488-519 | the ends it counts from are the hunk's starts and the numbers of its old and of its new rows, up to 32 bits |
| `DiffRows.RowNumbers` | src/review_diff.rs:488-523 | every row has the text and the kind it was printed with, and is numbered by the rows of its own side before it, on both sides, one or none |
| `DiffRows.PrintedFileRows` | src/review_diff.rs:355-523 | a printed file is read as one header row, the row of a rewritten binary file, and its hunks, whatever modes, index, similarity and renames its header gives; its entry is the known one or a new modified one, its status becomes what the header says, and no other entry changes |
| `DiffRows.UnrangedHeader` | src/review_diff.rs:417-438 | a hunk header without ranges adds an empty one unless it comes first in its file |
| `DiffRows.UnrangedRows` | src/review_diff.rs:417-523 | and the rows behind it have no numbers |
| `Utf8Codec.Utf8Encode` | src/js_repl_bootstrap.js:119-145 | the loop yields the encoding of the string's scalars |
| `Utf8Codec.Utf8Decode` | src/js_repl_bootstrap.js:146-179 | the loop ends on all bytes and yields the specified units |
| `Utf8Codec.ReadTails` | src/js_repl_bootstrap.js:158-163 | the inner loop succeeds exactly when all announced continuation bytes follow, and gathers their bits |
| `Utf8Codec.EncodedScalarIsChar` | src/js_repl_bootstrap.js:135-142 | every scalar's bytes are one well-formed character and decode to it |
| `Utf8Codec.ScalarAtIsScalar` | src/js_repl_bootstrap.js:152-163 | every well-formed character is the encoding of its scalar |
| `Utf8Codec.AcceptsWellFormed` | src/js_repl_bootstrap.js:152-172 | among bytes with all continuations, the range test accepts exactly the well-formed characters of section 4 of RFC 3629 |
| `Utf8Codec.EncodedIsValid` | src/js_repl_bootstrap.js:119-145 | what is encoded is well formed |
| `Utf8Codec.DecodeOfEncode` | src/js_repl_bootstrap.js:119-179 | decoding an encoded string gives the repaired string |
| `Utf8Codec.RepairedUnits` | src/js_repl_bootstrap.js:123-134 | repaired means, unit by unit: an unpaired surrogate is U+FFFD and every other unit is itself |
| `Utf8Codec.RepairedIsSame` | src/js_repl_bootstrap.js:123-134 | a string survives exactly when no surrogate in it is unpaired |
| `Utf8Codec.EncodeOfDecode` | src/js_repl_bootstrap.js:119-179 | encoding decoded bytes gives them back exactly when they are well formed |
| `Utf8Codec.NoLeadIsReplaced` | src/js_repl_bootstrap.js:150-156 | a byte that can begin no character becomes one U+FFFD |
| `Utf8Codec.BrokenOffIsReplaced` | src/js_repl_bootstrap.js:158-164 | so does a lead byte whose continuation bytes break off, and decoding goes on with the byte behind it |
| `Utf8Codec.IllFormedIsReplaced` | src/js_repl_bootstrap.js:165-173 | a lead byte with all its continuation bytes that is overlong, a surrogate or too large becomes one U+FFFD as a whole |
| `Utf8Codec.PastEndIsReplaced` | src/js_repl_bootstrap.js:157 | a lead byte that announces more than is left becomes one U+FFFD with all that is left |
| `Utf8Codec.LosesExactlyWhatItGivesUp` | src/js_repl_bootstrap.js:157 | the output is that of a decoder which resumes at the next byte, exactly when no byte but the last is a lead byte that announces more than is left |
| `Utf8Codec.LosesALetter` | src/js_repl_bootstrap.js:157 | an input on which it loses a letter |
| `Base64Codec.Base64Encode` | src/js_repl_bootstrap.js:181-193 | the loop and the replacements yield the specified text in both forms |
| `Base64Codec.Base64Decode` | src/js_repl_bootstrap.js:194-211 | on every text, the output is the bits of the digits before the first pad, cut to whole bytes |
| `Base64Codec.DigitTaken` | src/js_repl_bootstrap.js:201-208 | one digit: held bits and digit are the pushed byte and the bits held next, whatever else the unmasked, signed accumulator holds |
| `Base64Codec.EncodedBits` | src/js_repl_bootstrap.js:181-193 | the digits written are the bytes' bits, filled up with zeros to a whole digit |
| `Base64Codec.TextDigits` | src/js_repl_bootstrap.js:191-203 | both forms read back as the digits written |
| `Base64Codec.TextLength` | src/js_repl_bootstrap.js:181-193 | four characters for every three bytes begun; unpadded, no more than the bits need |
| `Base64Codec.UrlSafeLetters` | src/js_repl_bootstrap.js:191 | the URL-safe form holds no plus, slash or pad |
| `Base64Codec.AlphabetIs` | src/js_repl_bootstrap.js:181-193 | the letters are those of table 1 of RFC 4648 |
| `Base64Codec.UrlSafeIs` | src/js_repl_bootstrap.js:191 | letter by letter, dash stands for 62 and underscore for 63, and every other letter as it was |
| `Base64Codec.DecodingIsUnique` | src/js_repl_bootstrap.js:194-211 | the meaning of a text fixes the bytes |
| `Base64Codec.SameReading` | src/js_repl_bootstrap.js:194-203 | anywhere in a text the URL-safe letters read like the ones they stand for, and characters of neither alphabet like nothing |
| `Base64Codec.DecodingOfText` | src/js_repl_bootstrap.js:181-211 | decoding an encoded text, padded or URL-safe, gives the bytes back and nothing else |
| `QueryCache.QueryCache.Read` | src/query.rs:103-126 | the answer and the cache after a read, claiming the fetch on a miss |
| `QueryCache.QueryCache.Fulfill` | src/query.rs:142-155 | accepted exactly when the entry's generation is the token's; then stored and evicted to the capacity |
| `QueryCache.QueryCache.Abandon` | src/query.rs:163-171 | only the matching generation is removed |
| `QueryCache.QueryCache.Invalidate` | src/query.rs:174-177 | the entry is gone and the generation up |
| `QueryCache.QueryCache.Clear` | src/query.rs:180-183 | all entries are gone and the generation up |
| `QueryCache.QueryCache.EvictOverCapacity` | src/query.rs:190-203 | in-flight entries all survive; resolved ones left are exactly the most recently used that fit beside them, or all |
| `QueryCache.LeastRecent` | src/query.rs:192-197 | the victim is the resolved key with the oldest use, if there is one |
| `QueryCache.EvictionIsDetermined` | src/query.rs:190-203 | that specification leaves exactly one outcome |
| `QueryCache.AcceptedValueKept` | src/query.rs:142-155 | an accepted value stays exactly when the other fetches in flight before the call are fewer than the capacity |
| `QueryRuns.RunsAreSane` | src/query.rs:103-203 | in every run uses have distinct clock readings, and resolved values never exceed the capacity |
| `QueryRuns.ReadsAreFresh` | src/query.rs:103-183 | a value read as ready was delivered under a token issued after its key's last invalidation, and so was every equal token |
| `QueryRuns.OneFetchPerKey` | src/query.rs:103-183 | with each token used at most once, a key is loading exactly when one live token for it is out, held tokens are accepted exactly while live, and a miss never hands out a second one |
| `QueryRuns.AcceptedUnlessInvalidated` | src/query.rs:142-183 | a token not yet used is accepted exactly when its own key was not invalidated since |
| `QueryUses.StampsFollowUses` | src/query.rs:103-155 | in every run entries are stamped in the order in which their keys were last read, hit or miss, or delivered |
| `QueryUses.DropsLeastRecentlyUsed` | src/query.rs:142-203 | in every run what a delivery evicts was last read or delivered before every value it keeps |
| `QueryUses.ForgottenOnlyThen` | src/query.rs:142-203 | an entry goes only when invalidated, abandoned under its generation, or evicted by a delivery over the capacity, and then only resolved |
| `QueryUses.ReadAnswers` | src/query.rs:103-126 | in every run a read is ready exactly when a value was delivered for its key whose entry has been there since, answers with the newest such value, and is missing exactly when there is no entry |
| `TimerQueue.TimerQueue.NextAvailableId` | src/js_repl.rs:74-82 | the search ends when an id is to spare, with the first id free around the cycle, never zero and not in use |
| `TimerQueue.FreeIdExists` | src/js_repl.rs:74-82 | with fewer timers than ids, a round of the cycle meets a free one |
| `TimerQueue.VisitedCount` | src/js_repl.rs:74-82 | no id is met twice in one round |
| `TimerQueue.TimerQueue.Schedule` | src/js_repl.rs:61-72 | a fresh id, armed at now plus the delay, and nothing else |
| `TimerQueue.TimerQueue.Refresh` | src/js_repl.rs:88-92 | an existing timer is armed again from now |
| `TimerQueue.TimerQueue.TakeDue` | src/js_repl.rs:94-111 | exactly the due ids by due time and id; one-shots gone, repeating ones armed again from now, others as they were |
| `TimerQueue.DueListIsDetermined` | src/js_repl.rs:95-100 | that order admits one list |
| `TimerQueue.NothingDueTwice` | src/js_repl.rs:100-110 | with delays of at least one, nothing is due a second time at the instant of a take |
| `TimerQueue.TimerQueue.NextDeadline` | src/js_repl.rs:113-115 | the earliest due time, or none when no timer is pending |
| `TimerRuns.TableFollowsCalls` | src/js_repl.rs:61-111 | after every run of calls a timer is in the table exactly when it was scheduled and not since cleared or fired for its only time, and is due one delay after the reading at which it was last scheduled, refreshed or fired |
| `TimerRuns.TakesWhatRanOut` | src/js_repl.rs:94-111 | in every run a take returns exactly the timers that have run out by then, in the order in which they did |
| `TimerBatches.Kernel.ScheduleTimer` | src/js_repl_bootstrap.js:71-79 | both tables get the same fresh id, and agree after if they did before |
| `TimerBatches.Kernel.ClearTimer` | src/js_repl_bootstrap.js:85-90 | both tables lose it, and agree after if they did before |
| `TimerBatches.Kernel.RunTimer` | src/js_repl_bootstrap.js:91-96 | a timer no longer in the map does nothing; a one-shot leaves the map before its callback acts, whatever ids its schedulings get |
| `TimerBatches.Kernel.RunDueTimers` | src/js_repl.rs:424-440 | one turn, from any tables: what is due is taken and dispatched in order; tables that agree and a safe batch give exactly the expected calls and tables that agree |
| `TimerBatches.BatchAgrees` | src/js_repl.rs:424-440 | from tables in agreement exactly the safe batches stay intact throughout; such a batch calls exactly the due timers no earlier call of it cleared, in order and with their own callbacks, and ends in agreement |
| `TimerBatches.ExactlyTheUndisturbed` | src/js_repl.rs:61-82 | in the middle of a batch an action keeps it intact if and only if it is no scheduling that gets the id of a timer still to run |
| `TimerBatches.RunsAgree` | src/js_repl.rs:424-440 | in every run from the empty tables, of script actions and batches, that schedules fewer timers than there are ids, both tables hold the same timers at every state |
| `TimerBatches.RunsCallWhatIsDue` | src/js_repl.rs:424-440 | and every batch of it makes exactly the calls it should, after which nothing is due again at its instant |
| `TimerBatches.RunsUnlessCleared` | src/js_repl_bootstrap.js:85-96 | in every such run a due timer of a batch is called exactly when no call of the batch before its turn cleared it |
| `TimerTraces.BatchesTakeWhatRanOut` | src/js_repl.rs:424-440 | in every run of the kernel, callbacks included, a batch takes exactly the timers that are pending one normalized delay after they were last scheduled, refreshed or fired, in that order |
| `TimerTraces.NormalDelays` | src/js_repl_bootstrap.js:64-70 | delays from 1 to 2147483647 are kept, all others become 1 |
| `TimerTraces.BatchesCallTheirOwn` | src/js_repl_bootstrap.js:71-96 | in every run that schedules fewer timers than there are ids, each call of a batch is made with the callback with which its id was last scheduled, in the order of the batch |
| `TimerBatches.UnwrappedIsSafe` | src/js_repl.rs:74-82 | while the id counter has not come round no scheduling can disturb a batch |
| `TimerBatches.RoundIsReached` | src/js_repl.rs:74-82 | script code alone can bring the empty tables to a state whose counter has come round to a pending timer |
| `TimerBatches.WrappedIdsDisturb` | src/js_repl.rs:424-440 | from that state a batch calls a new timer's callback in place of a due one, and the tables part |
| `DevWatcher.Watcher.ScheduleBuild` | scripts/dev.ts:133-147 | revisions, debounced target and timer after a change |
| `DevWatcher.Watcher.RebuildTimerFires` | scripts/dev.ts:139-146 | the debounced target merged into the queue, and the drain started unless one is active |
| `DevWatcher.Watcher.DrainBuildQueue` | scripts/dev.ts:167-171 | nothing while a build is under way or the watcher is stopping, else the first turn of the loop |
| `DevWatcher.Watcher.NextBuild` | scripts/dev.ts:171-175 | the drain up to its next await, or out of its loop |
| `DevWatcher.Watcher.BuildFinishes` | scripts/dev.ts:176-198 | the continuation after a build, branch by branch |
| `DevWatcher.Watcher.AppStopped` | scripts/dev.ts:197-203 | the launch unless stopping, and the next turn of the loop |
| `DevWatcher.Watcher.InitialAppStopped` | scripts/dev.ts:228-230 | the first launch, whether stopping or not |
| `DevWatcher.Watcher.AppExited` | scripts/dev.ts:86-94 | the watcher stops with the app it launched |
| `DevWatcher.Watcher.CleanUp` | scripts/dev.ts:206-213 | the watcher stops, its timer is cleared, and the app goes |
| `DevWatcher.Watcher.InitialBuildFinishes` | scripts/dev.ts:222-236 | the hand-off from startup |
| `DevWatcher.NoAppChangeIsLost` | scripts/dev.ts:133-204 | in every run that is not stopping, an app change newer than the last attempted app build is debounced with its timer armed or queued; a queued app build has a drain or the initial build ahead of it; builds never overlap |
| `DevWatcher.NoDaemonChangeIsLost` | scripts/dev.ts:133-204 | likewise a daemon change newer than the last attempted build of any kind is debounced with its timer armed or queued |
| `DevWatcher.EveryChangeIsBuilt` | scripts/dev.ts:133-204 | in every run that is not stopping, each change has been followed by the beginning of a build that takes it in, or such a build is debounced or queued |
| `DevWatcher.QueueEmptiedByBuild` | scripts/dev.ts:167-177 | in every run what was queued leaves the queue only as a build that takes it in |
| `DevWatcher.BuildsAreAskedFor` | scripts/dev.ts:167-177 | in every run a build begins only with what was queued or debounced, at the revisions of that moment, and never while stopping |
| `DevWatcher.RelaunchesExactlyWhenCurrent` | scripts/dev.ts:176-198 | in every run the drain stops the app to launch the new one exactly after an app build that succeeded and since whose beginning no app change arrived |
| `DevWatcher.StopsAndExits` | scripts/dev.ts:206-226 | in every run stopping is what an interrupt or the app's exit brought about, and startup gives up exactly when the initial build fails |
| `DevWatcher.StaleOnlyIfPending` | scripts/dev.ts:188-199 | a stale app runs only if a newer app build is pending, or the newest revision's build is in progress or failed |
| `DevWatcher.NeverDowngraded` | scripts/dev.ts:114-119 | in every run an app build stays one, from the debounce through the queue to the drain that takes it |
| `DevWatcher.StrandedOnlyAtHandOff` | scripts/dev.ts:228-236 | a queue has no drain to come exactly when the hand-off launched with something queued and no timer fired since; it is never an app build |
| `DevWatcher.DaemonChangeStranded` | scripts/dev.ts:228-236 | a run in which that happens |
| `DevWatcher.LaunchesWhileStopping` | scripts/dev.ts:206-236 | in every run an app is launched after stopping began exactly when startup was then waiting for the old app, or was building and that build succeeds with no app change since it began, and the wait for the old app ends |
| `DevWatcher.LaunchedWhileStopping` | scripts/dev.ts:206-236 | a run in which that happens |
| `DevWatcher.LaunchMeetsApp` | scripts/dev.ts:198-230 | in every run a launch meets a running app exactly when startup and the drain both waited for the old app, the other has launched since, and nothing has taken that app away |
| `DevWatcher.LaunchedTwice` | scripts/dev.ts:198-230 | a run in which that happens |
| `DevWatcher.Settles` | scripts/dev.ts:139-236 | with no more edits only boundedly many continuations can follow |
| `DevWatcher.SettledIsCurrent` | scripts/dev.ts:139-236 | once nothing is left to complete, the newest app revision was attempted and, if it built, is what runs; and the newest daemon revision was, unless it is stranded at the hand-off |
| `QrRaster.QrPixels` | src/pairing.rs:286-313 | every pixel is black exactly when the module under it, after the border, exists and is dark; all others are white; every pixel is opaque; no write is out of bounds |
| `QrRaster.ModuleSquare` | src/pairing.rs:286-313 | the rule: a module is a square of eight by eight pixels, four such squares in from the corner |
| `QrRaster.BorderIsLight` | src/pairing.rs:286-313 | and everything around the modules is light |
| `QrRaster.PixelBytes` | src/pairing.rs:286-313 | a pixel is four bytes, row by row from the top: 0, 0, 0 or 255, 255, 255, and 255 |
| `QrRaster.PaintModule` | src/pairing.rs:300-309 | the inner loops ink one module's square and nothing else |
| `QrRaster.ModuleInks` | src/pairing.rs:298-299 | that square is what the per-pixel rule gives this module |

## Left out

- Rendering, layout, focus, blinking, scrolling, the mouse and vertical movement in `src/input.rs`; edit events and highlights.
- Grapheme and word movement: a Unicode library that is not part of this model decides it. Selections are any ranges on character boundaries and the deleting keys are given the boundary they reach to.
- Media pastes and clipboard conversion: a paste starts from its text.
- Syntax tokens and their carries in the diff, and the totals of added and deleted lines.
- The change summary's own parser (`parse_numstat`): the file entries it yields are the parser's input.
- Octal escapes in quoted paths: the reader has no branch of its own for them. The printed diffs of the round trip have unquoted headers.
- Other encodings, `Buffer` and text-stream wrappers around the codecs.
- Clocks: every operation is given the reading it uses, and instants are integers, delays whole milliseconds. Clocks, generations, revisions and gap ids are unbounded; line numbers, gap counts and timer ids keep their 32 bits.
- TimerBatches.Kernel.ClearTimer: does not model clearing a number that is no 32-bit id, because the native side's conversion of arguments is not part of this model; handles come from scheduling.
- TimerBatches.Kernel.ScheduleTimer: does not model a scheduling while every id is in use, because its search never ends.
- TimerBatches.Kernel.RunDueTimers: does not model the repetition until nothing is due, because the clock decides how often; callbacks return normally, and what microtasks do counts as done by the callback before them.
- The JavaScript engine, promises, message framing and the helper process in `src/js_repl.rs`.
- Exceptions thrown by builds and launches in `scripts/dev.ts`, file watching and process control: each await is an event with any outcome, and a failed build leaves the bundle on disk as it was.
- `targetForChange`: a change arrives with its target.
- QR encoding, and the 32-bit width of pixel offsets: the grid is given, and real codes are at most 177 modules wide.
- Address lists, network interfaces and Tailscale in `src/pairing.rs`; the pure helpers of other files, which would only add easy members.
