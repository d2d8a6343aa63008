/** Painting the text field: a sweep over the edges of tokens, matches, selection and
    marked text, against a rule that colours one byte at a time. */
module TextRuns {
  import opened Basics
  import opened Utf8

  type Color = int
  type TokenClass = int

  datatype Token = Token(range: Range, kind: TokenClass)
  datatype Style = Style(color: Color, background: Option<Color>, underline: Option<Color>)
  datatype Run = Run(len: nat, style: Style)

  /** Everything the painter is given besides the text's length. */
  datatype Paint = Paint(
    baseColor: Color,
    selection: Option<Range>,
    marked: Option<Range>,
    selectionColor: Color,
    highlight: seq<Token>,
    tokenColor: TokenClass -> Color,
    matches: seq<Range>,
    active: Option<Range>,
    matchColor: Color,
    activeColor: Color)

  predicate IsRange(r: Range) {
    r.start <= r.end
  }

  predicate Covers(r: Range, i: nat) {
    r.start <= i < r.end
  }

  predicate Sorted(ranges: seq<Range>) {
    && (forall k :: 0 <= k < |ranges| ==> IsRange(ranges[k]))
    && (forall j, k :: 0 <= j < k < |ranges| ==> ranges[j].end <= ranges[k].start)
  }

  function TokenRanges(tokens: seq<Token>): (r: seq<Range>)
    ensures |r| == |tokens|
    ensures forall k :: 0 <= k < |r| ==> r[k] == tokens[k].range
  {
    seq(|tokens|, k requires 0 <= k < |tokens| => tokens[k].range)
  }

  /** Tokens and matches sorted and disjoint, and the active match one of the matches. */
  predicate WellGiven(p: Paint) {
    && (p.selection.Some? ==> IsRange(p.selection.value))
    && (p.marked.Some? ==> IsRange(p.marked.value))
    && Sorted(TokenRanges(p.highlight)) && Sorted(p.matches)
    && (p.active.Some? ==> p.active.value in p.matches)
  }

  // ----- the rule for one byte

  function TokenColorAt(p: Paint, tokens: seq<Token>, i: nat): Color {
    if tokens == [] then p.baseColor
    else if Covers(tokens[0].range, i) then p.tokenColor(tokens[0].kind)
    else TokenColorAt(p, tokens[1..], i)
  }

  function StyleAt(p: Paint, i: nat): Style {
    Style(
      TokenColorAt(p, p.highlight, i),
      if p.active.Some? && Covers(p.active.value, i) then Some(p.activeColor)
      else if p.selection.Some? && Covers(p.selection.value, i) then Some(p.selectionColor)
      else if exists r :: r in p.matches && Covers(r, i) then Some(p.matchColor)
      else None,
      if p.marked.Some? && Covers(p.marked.value, i) then Some(p.baseColor) else None)
  }

  /** A byte has the colour of the token over it, and the base colour where there is none. */
  lemma {:induction false} ColorIs(p: Paint, tokens: seq<Token>, k: nat, i: nat)
    requires Sorted(TokenRanges(tokens))
    ensures k < |tokens| && Covers(tokens[k].range, i) ==> TokenColorAt(p, tokens, i) == p.tokenColor(tokens[k].kind)
    ensures (forall t :: t in tokens ==> !Covers(t.range, i)) ==> TokenColorAt(p, tokens, i) == p.baseColor
    decreases |tokens|
  {
    if tokens != [] {
      SortedTail(tokens);
      ColorIs(p, tokens[1..], if k > 0 then k - 1 else 0, i);
      assert k < |tokens| ==> TokenRanges(tokens)[k] == tokens[k].range;
    }
  }

  lemma SortedTail(tokens: seq<Token>)
    requires tokens != [] && Sorted(TokenRanges(tokens))
    ensures Sorted(TokenRanges(tokens[1..]))
    ensures forall k :: 0 < k < |tokens| ==> tokens[0].range.end <= tokens[k].range.start
  {
    assert forall k :: 0 <= k < |tokens| - 1 ==> TokenRanges(tokens[1..])[k] == TokenRanges(tokens)[k + 1];
    assert forall k :: 0 <= k < |tokens| ==> TokenRanges(tokens)[k] == tokens[k].range;
  }

  /** The active match goes over the selection, and that over the other matches; marked text is underlined
      in the base colour. */
  lemma BackgroundIs(p: Paint, i: nat)
    ensures var active := p.active.Some? && p.active.value.start <= i < p.active.value.end;
      var selected := p.selection.Some? && p.selection.value.start <= i < p.selection.value.end;
      var matched := exists r :: r in p.matches && r.start <= i < r.end;
      var style := StyleAt(p, i);
      && (active ==> style.background == Some(p.activeColor))
      && (selected && !active ==> style.background == Some(p.selectionColor))
      && (matched && !selected && !active ==> style.background == Some(p.matchColor))
      && (!matched && !selected && !active ==> style.background == None)
      && style.underline == if p.marked.Some?
        && p.marked.value.start <= i < p.marked.value.end then Some(p.baseColor) else None
  {
    assert forall r :: r in p.matches ==> (Covers(r, i) <==> r.start <= i < r.end);
  }

  // ----- the sweep

  function Insert(x: nat, sorted: seq<nat>): seq<nat> {
    if sorted == [] || x < sorted[0] then [x] + sorted
    else if x == sorted[0] then sorted
    else [sorted[0]] + Insert(x, sorted[1..])
  }

  /** `sort_unstable` and `dedup`. */
  function SortedDistinct(s: seq<nat>): seq<nat> {
    if s == [] then [] else Insert(s[0], SortedDistinct(s[1..]))
  }

  predicate Increasing(s: seq<nat>) {
    forall j, k :: 0 <= j < k < |s| ==> s[j] < s[k]
  }

  lemma IncreasingCons(x: nat, s: seq<nat>)
    requires Increasing(s) && forall y :: y in s ==> x < y
    ensures Increasing([x] + s)
  {
    forall j, k | 0 <= j < k < |[x] + s| ensures ([x] + s)[j] < ([x] + s)[k] {
      assert ([x] + s)[k] == s[k - 1] && s[k - 1] in s;
      assert j > 0 ==> ([x] + s)[j] == s[j - 1];
    }
  }

  lemma {:induction false} InsertIsSorted(x: nat, s: seq<nat>)
    requires Increasing(s)
    ensures Increasing(Insert(x, s))
    ensures forall y :: y in Insert(x, s) <==> y == x || y in s
  {
    if s == [] {
    } else if x < s[0] {
      assert forall y :: y in s ==> s[0] <= y;
      IncreasingCons(x, s);
    } else if x > s[0] {
      InsertIsSorted(x, s[1..]);
      var rest := Insert(x, s[1..]);
      forall y | y in rest ensures s[0] < y {
        if y != x {
          var k :| 0 <= k < |s[1..]| && s[1..][k] == y;
          assert s[k + 1] == y;
        }
      }
      IncreasingCons(s[0], rest);
      assert forall y :: y in s <==> y == s[0] || y in s[1..] by {
        assert s == [s[0]] + s[1..];
      }
      assert forall y :: y in Insert(x, s) <==> y == s[0] || y in rest by {
        assert Insert(x, s) == [s[0]] + rest;
      }
    }
  }

  lemma {:induction false} SortedDistinctIsSorted(s: seq<nat>)
    ensures Increasing(SortedDistinct(s))
    ensures forall y :: y in SortedDistinct(s) <==> y in s
  {
    if s != [] {
      SortedDistinctIsSorted(s[1..]);
      InsertIsSorted(s[0], SortedDistinct(s[1..]));
      assert s == [s[0]] + s[1..];
    }
  }

  /** `partition_point(|range| range.end <= start)`: how many leading ranges end by `start`. */
  function PartitionPoint(ranges: seq<Range>, start: nat): (n: nat)
    ensures n <= |ranges|
    ensures forall k :: 0 <= k < n ==> ranges[k].end <= start
    ensures n < |ranges| ==> start < ranges[n].end
  {
    if ranges == [] || start < ranges[0].end then 0
    else 1 + PartitionPoint(ranges[1..], start)
  }

  predicate Spans(r: Range, start: nat, end: nat) {
    r.start <= start && end <= r.end
  }

  predicate Overlaps(r: Range, start: nat, end: nat) {
    r.start < end && start < r.end
  }

  function CoveringMatch(matches: seq<Range>, start: nat, end: nat): bool {
    var index := PartitionPoint(matches, start);
    index < |matches| && Spans(matches[index], start, end)
  }

  function WindowStyle(p: Paint, start: nat, end: nat): Style {
    var index := PartitionPoint(TokenRanges(p.highlight), start);
    Style(
      if index < |p.highlight| && Spans(p.highlight[index].range, start, end) then p.tokenColor(p.highlight[index].kind)
      else p.baseColor,
      if p.active.Some? && Spans(p.active.value, start, end) then Some(p.activeColor)
      else if p.selection.Some? && Overlaps(p.selection.value, start, end) then Some(p.selectionColor)
      else if CoveringMatch(p.matches, start, end) then Some(p.matchColor)
      else None,
      if p.marked.Some? && Overlaps(p.marked.value, start, end) then Some(p.baseColor) else None)
  }

  function Edges(r: Range, len: nat): seq<nat> {
    [Min(r.start, len), Min(r.end, len)]
  }

  /** Every edge the sweep collects is inside the text, and the ends of the text are edges. */
  predicate EdgesFor(p: Paint, len: nat, boundaries: seq<nat>) {
    && 0 in boundaries && len in boundaries
    && (forall b :: b in boundaries ==> b <= len)
    && (p.selection.Some? ==> HasEdges(boundaries, p.selection.value, len))
    && (p.marked.Some? ==> HasEdges(boundaries, p.marked.value, len))
    && (forall t :: t in p.highlight ==> HasEdges(boundaries, t.range, len))
    && (forall r :: r in p.matches ==> HasEdges(boundaries, r, len))
  }

  predicate HasEdges(boundaries: seq<nat>, r: Range, len: nat) {
    Min(r.start, len) in boundaries && Min(r.end, len) in boundaries
  }

  /** What the rule says of the first `len` bytes. */
  function StylesBelow(p: Paint, len: nat): seq<Style> {
    seq(len, i requires i >= 0 => StyleAt(p, i))
  }

  /** The bytes the runs paint, one style per byte. */
  function Painted(runs: seq<Run>): seq<Style> {
    if runs == [] then []
    else Painted(runs[..|runs| - 1]) + seq(Last(runs).len, _ => Last(runs).style)
  }

  method InputTextRuns(displayLen: nat, p: Paint) returns (runs: seq<Run>)
    requires WellGiven(p)
    ensures Painted(runs) == StylesBelow(p, displayLen)
    ensures forall k :: 0 <= k < |runs| ==> runs[k].len > 0
  {
    var boundaries := CollectEdges(displayLen, p);
    SortedDistinctIsSorted(boundaries);
    boundaries := SortedDistinct(boundaries);
    EndsOfSorted(boundaries, displayLen);
    hide StyleAt, WindowStyle, EdgesFor, Increasing, WellGiven, Painted, StylesBelow;
    runs := [];
    NothingPainted(p);
    var k := 0;
    while k + 1 < |boundaries|
      invariant k < |boundaries|
      invariant Painted(runs) == StylesBelow(p, boundaries[k])
      invariant forall j :: 0 <= j < |runs| ==> runs[j].len > 0
    {
      var start, end := boundaries[k], boundaries[k + 1];
      var run := Run(end - start, WindowStyle(p, start, end));
      WindowIsUniform(p, displayLen, boundaries, k);
      Neighbours(boundaries, k);
      MorePainted(p, runs, start, end, run.style);
      if start < end {
        runs := runs + [run];
      }
      k := k + 1;
    }
  }

  lemma NothingPainted(p: Paint)
    ensures Painted([]) == StylesBelow(p, 0)
  {
  }

  lemma Neighbours(s: seq<nat>, k: nat)
    requires Increasing(s) && k + 1 < |s|
    ensures s[k] <= s[k + 1]
  {
  }

  lemma MorePainted(p: Paint, runs: seq<Run>, start: nat, end: nat, style: Style)
    requires start <= end && Painted(runs) == StylesBelow(p, start)
    requires forall i :: start <= i < end ==> StyleAt(p, i) == style
    ensures Painted(runs + [Run(end - start, style)]) == StylesBelow(p, end)
  {
    hide StyleAt;
    assert (runs + [Run(end - start, style)])[..|runs|] == runs;
  }

  method CollectEdges(displayLen: nat, p: Paint) returns (boundaries: seq<nat>)
    ensures EdgesFor(p, displayLen, boundaries)
  {
    hide EdgesFor, Edges;
    ghost var plain := p.(highlight := [], matches := []);
    boundaries := [0, displayLen];
    TextEnds(plain, displayLen);
    if p.selection.Some? {
      WithSelection(plain.(marked := None), displayLen, boundaries);
      boundaries := boundaries + Edges(p.selection.value, displayLen);
    }
    assert p.selection.Some? || plain.(selection := None) == plain;
    if p.marked.Some? {
      WithMark(plain, displayLen, boundaries);
      boundaries := boundaries + Edges(p.marked.value, displayLen);
    }
    assert p.marked.Some? || plain.(marked := None) == plain;
    assert p.highlight[..0] == [];
    for k := 0 to |p.highlight|
      invariant EdgesFor(p.(highlight := p.highlight[..k], matches := []), displayLen, boundaries)
    {
      NextToken(p.(matches := []), displayLen, boundaries, k);
      boundaries := boundaries + Edges(p.highlight[k].range, displayLen);
    }
    assert p.(highlight := p.highlight[..|p.highlight|], matches := []) == p.(matches := p.matches[..0]);
    for k := 0 to |p.matches|
      invariant EdgesFor(p.(matches := p.matches[..k]), displayLen, boundaries)
    {
      NextMatch(p, displayLen, boundaries, k);
      boundaries := boundaries + Edges(p.matches[k], displayLen);
    }
    assert p.(matches := p.matches[..|p.matches|]) == p;
  }

  lemma MoreEdges(p: Paint, len: nat, boundaries: seq<nat>, r: Range)
    requires EdgesFor(p, len, boundaries)
    ensures EdgesFor(p, len, boundaries + Edges(r, len)) && HasEdges(boundaries + Edges(r, len), r, len)
  {
    assert Edges(r, len)[0] in Edges(r, len) && Edges(r, len)[1] in Edges(r, len);
  }

  lemma TextEnds(p: Paint, len: nat)
    requires p.highlight == [] && p.matches == []
    ensures EdgesFor(p.(selection := None, marked := None), len, [0, len])
  {
  }

  lemma WithSelection(p: Paint, len: nat, boundaries: seq<nat>)
    requires p.selection.Some? && EdgesFor(p.(selection := None), len, boundaries)
    ensures EdgesFor(p, len, boundaries + Edges(p.selection.value, len))
  {
    hide Edges, HasEdges;
    MoreEdges(p.(selection := None), len, boundaries, p.selection.value);
  }

  lemma WithMark(p: Paint, len: nat, boundaries: seq<nat>)
    requires p.marked.Some? && EdgesFor(p.(marked := None), len, boundaries)
    ensures EdgesFor(p, len, boundaries + Edges(p.marked.value, len))
  {
    hide Edges, HasEdges;
    MoreEdges(p.(marked := None), len, boundaries, p.marked.value);
  }

  lemma NextToken(p: Paint, len: nat, boundaries: seq<nat>, k: nat)
    requires k < |p.highlight| && EdgesFor(p.(highlight := p.highlight[..k]), len, boundaries)
    ensures EdgesFor(p.(highlight := p.highlight[..k + 1]), len, boundaries + Edges(p.highlight[k].range, len))
  {
    hide HasEdges, Edges;
    MoreEdges(p.(highlight := p.highlight[..k]), len, boundaries, p.highlight[k].range);
    assert p.highlight[..k + 1] == p.highlight[..k] + [p.highlight[k]];
  }

  lemma NextMatch(p: Paint, len: nat, boundaries: seq<nat>, k: nat)
    requires k < |p.matches| && EdgesFor(p.(matches := p.matches[..k]), len, boundaries)
    ensures EdgesFor(p.(matches := p.matches[..k + 1]), len, boundaries + Edges(p.matches[k], len))
  {
    hide HasEdges, Edges;
    MoreEdges(p.(matches := p.matches[..k]), len, boundaries, p.matches[k]);
    assert p.matches[..k + 1] == p.matches[..k] + [p.matches[k]];
  }

  lemma EndsOfSorted(s: seq<nat>, len: nat)
    requires Increasing(s) && 0 in s && len in s && forall b :: b in s ==> b <= len
    ensures s != [] && s[0] == 0 && Last(s) == len
  {
    var i :| 0 <= i < |s| && s[i] == 0;
    var j :| 0 <= j < |s| && s[j] == len;
    assert Last(s) in s;
  }

  // ----- each window takes the style every byte in it has

  /** Between two neighbouring edges a range is all or nothing. */
  lemma AllOrNothing(r: Range, len: nat, boundaries: seq<nat>, k: nat, i: nat)
    requires Increasing(boundaries) && k + 1 < |boundaries| && boundaries[k + 1] <= len
    requires IsRange(r) && HasEdges(boundaries, r, len)
    requires boundaries[k] <= i < boundaries[k + 1]
    ensures Covers(r, i) <==> Spans(r, boundaries[k], boundaries[k + 1])
    ensures Covers(r, i) <==> Overlaps(r, boundaries[k], boundaries[k + 1])
  {
    var a :| 0 <= a < |boundaries| && boundaries[a] == Min(r.start, len);
    var b :| 0 <= b < |boundaries| && boundaries[b] == Min(r.end, len);
    assert a <= k || k + 1 <= a;
    assert b <= k || k + 1 <= b;
  }

  lemma {:induction false} TokenAtIndex(p: Paint, tokens: seq<Token>, i: nat, n: nat)
    requires n <= |tokens| && forall k :: 0 <= k < n ==> !Covers(tokens[k].range, i)
    ensures TokenColorAt(p, tokens, i) == TokenColorAt(p, tokens[n..], i)
    decreases n
  {
    if n == 0 {
      assert tokens[0..] == tokens;
    } else {
      TokenAtIndex(p, tokens[1..], i, n - 1);
      assert tokens[1..][n - 1..] == tokens[n..];
    }
  }

  lemma {:induction false} NoTokenAt(p: Paint, tokens: seq<Token>, i: nat)
    requires forall t :: t in tokens ==> !Covers(t.range, i)
    ensures TokenColorAt(p, tokens, i) == p.baseColor
  {
    if tokens != [] {
      NoTokenAt(p, tokens[1..], i);
    }
  }

  lemma EndIsPast(r: Range, len: nat, boundaries: seq<nat>, k: nat, i: nat)
    requires Increasing(boundaries) && k + 1 < |boundaries| && boundaries[k + 1] <= len
    requires HasEdges(boundaries, r, len) && boundaries[k] <= i < boundaries[k + 1] && boundaries[k] < r.end
    ensures i < r.end
  {
    var b :| 0 <= b < |boundaries| && boundaries[b] == Min(r.end, len);
    assert b <= k || k + 1 <= b;
  }

  lemma WindowInBounds(p: Paint, len: nat, boundaries: seq<nat>, k: nat)
    requires EdgesFor(p, len, boundaries) && k < |boundaries|
    ensures boundaries[k] <= len
  {
    assert boundaries[k] in boundaries;
  }

  lemma EdgesOfToken(p: Paint, len: nat, boundaries: seq<nat>, n: nat)
    requires WellGiven(p) && EdgesFor(p, len, boundaries) && n < |p.highlight|
    ensures IsRange(p.highlight[n].range) && HasEdges(boundaries, p.highlight[n].range, len)
  {
    hide HasEdges;
    assert p.highlight[n] in p.highlight;
    assert TokenRanges(p.highlight)[n] == p.highlight[n].range;
  }

  lemma EdgesOfMatch(p: Paint, len: nat, boundaries: seq<nat>, n: nat)
    requires WellGiven(p) && EdgesFor(p, len, boundaries) && n < |p.matches|
    ensures IsRange(p.matches[n]) && HasEdges(boundaries, p.matches[n], len)
  {
    hide HasEdges;
    assert p.matches[n] in p.matches;
  }

  lemma LaterMiss(ranges: seq<Range>, n: nat, j: nat, i: nat)
    requires Sorted(ranges) && n <= j < |ranges| && i < ranges[n].end && !Covers(ranges[n], i)
    ensures !Covers(ranges[j], i)
  {
  }

  lemma LaterTokensMiss(tokens: seq<Token>, n: nat, i: nat)
    requires Sorted(TokenRanges(tokens)) && n < |tokens| && i < tokens[n].range.end && !Covers(tokens[n].range, i)
    ensures forall u :: u in tokens[n..] ==> !Covers(u.range, i)
  {
    hide Sorted, Covers;
    forall u | u in tokens[n..] ensures !Covers(u.range, i) {
      var j :| n <= j < |tokens| && tokens[j] == u;
      LaterMiss(TokenRanges(tokens), n, j, i);
    }
  }

  lemma TokenColorOfWindow(p: Paint, len: nat, boundaries: seq<nat>, k: nat, i: nat)
    requires WellGiven(p) && Increasing(boundaries) && EdgesFor(p, len, boundaries)
    requires k + 1 < |boundaries| && boundaries[k] <= i < boundaries[k + 1]
    ensures TokenColorAt(p, p.highlight, i) == WindowStyle(p, boundaries[k], boundaries[k + 1]).color
  {
    hide PartitionPoint, EdgesFor, HasEdges, Increasing, Sorted, CoveringMatch, Overlaps, Spans, IsRange;
    var start, end := boundaries[k], boundaries[k + 1];
    var n := PartitionPoint(TokenRanges(p.highlight), start);
    TokenAtIndex(p, p.highlight, i, n);
    if n < |p.highlight| {
      var r := p.highlight[n].range;
      WindowInBounds(p, len, boundaries, k + 1);
      EdgesOfToken(p, len, boundaries, n);
      AllOrNothing(r, len, boundaries, k, i);
      if !Covers(r, i) {
        EndIsPast(r, len, boundaries, k, i);
        LaterTokensMiss(p.highlight, n, i);
        NoTokenAt(p, p.highlight[n..], i);
      }
    }
  }

  lemma MatchOfWindow(p: Paint, len: nat, boundaries: seq<nat>, k: nat, i: nat)
    requires WellGiven(p) && Increasing(boundaries) && EdgesFor(p, len, boundaries)
    requires k + 1 < |boundaries| && boundaries[k] <= i < boundaries[k + 1]
    ensures CoveringMatch(p.matches, boundaries[k], boundaries[k + 1]) <==> exists r :: r in p.matches && Covers(r, i)
  {
    hide PartitionPoint, EdgesFor, HasEdges, Increasing, Sorted, Overlaps, Spans, IsRange;
    var start, end := boundaries[k], boundaries[k + 1];
    var n := PartitionPoint(p.matches, start);
    if n < |p.matches| {
      WindowInBounds(p, len, boundaries, k + 1);
      EdgesOfMatch(p, len, boundaries, n);
      AllOrNothing(p.matches[n], len, boundaries, k, i);
      EndIsPast(p.matches[n], len, boundaries, k, i);
    }
    if r :| r in p.matches && Covers(r, i) {
      var j :| 0 <= j < |p.matches| && p.matches[j] == r;
      assert n <= j;
      if !Covers(p.matches[n], i) {
        LaterMiss(p.matches, n, j, i);
      }
    }
  }

  lemma WindowIsUniform(p: Paint, len: nat, boundaries: seq<nat>, k: nat)
    requires WellGiven(p) && Increasing(boundaries) && EdgesFor(p, len, boundaries)
    requires k + 1 < |boundaries|
    ensures forall i :: boundaries[k] <= i < boundaries[k + 1] ==>
      StyleAt(p, i) == WindowStyle(p, boundaries[k], boundaries[k + 1])
  {
    assert boundaries[k + 1] in boundaries;
    forall i | boundaries[k] <= i < boundaries[k + 1]
      ensures StyleAt(p, i) == WindowStyle(p, boundaries[k], boundaries[k + 1])
    {
      TokenColorOfWindow(p, len, boundaries, k, i);
      MatchOfWindow(p, len, boundaries, k, i);
      hide Sorted, TokenColorAt, CoveringMatch, PartitionPoint, TokenRanges;
      if p.active.Some? {
        ActiveIsRange(p);
        AllOrNothing(p.active.value, len, boundaries, k, i);
      }
      if p.selection.Some? {
        AllOrNothing(p.selection.value, len, boundaries, k, i);
      }
      if p.marked.Some? {
        AllOrNothing(p.marked.value, len, boundaries, k, i);
      }
    }
  }

  lemma ActiveIsRange(p: Paint)
    requires WellGiven(p) && p.active.Some?
    ensures IsRange(p.active.value)
  {
    var k :| 0 <= k < |p.matches| && p.matches[k] == p.active.value;
  }
}
