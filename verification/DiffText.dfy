/** The string handling under the diff parser: lines, numbers, paths, hunk headers. */
module DiffText {
  import opened Basics
  import opened DiffExpansion

  const U32_MAX: nat := 0xFFFF_FFFF

  predicate At(s: string, pattern: string, i: nat) {
    i + |pattern| <= |s| && s[i..i + |pattern|] == pattern
  }

  ghost predicate Contains(s: string, pattern: string) {
    exists i :: At(s, pattern, i)
  }

  lemma AtThree(s: string, pattern: string, i: nat)
    requires |pattern| == 3
    ensures At(s, pattern, i) <==>
      i + 3 <= |s| && s[i] == pattern[0] && s[i + 1] == pattern[1] && s[i + 2] == pattern[2]
  {
    if i + 3 <= |s| {
      var t := s[i..i + 3];
      assert t == [t[0], t[1], t[2]] && pattern == [pattern[0], pattern[1], pattern[2]];
      assert t[0] == s[i] && t[1] == s[i + 1] && t[2] == s[i + 2];
    }
  }

  /** The first occurrence of `pattern` at or after `i`, or the length of `s`. */
  function Find(s: string, pattern: string, i: nat): (k: nat)
    requires i <= |s|
    ensures i <= k <= |s|
    ensures k < |s| ==> At(s, pattern, k)
    ensures forall j :: i <= j < k ==> !At(s, pattern, j)
    decreases |s| - i
  {
    if i == |s| || At(s, pattern, i) then i else Find(s, pattern, i + 1)
  }

  /** The last occurrence of `pattern` starting before `i`. */
  function FindLast(s: string, pattern: string, i: nat): (k: Option<nat>)
    ensures k.Some? ==> k.value < i && k.value + |pattern| <= |s| && At(s, pattern, k.value)
    ensures forall j :: (if k.Some? then k.value + 1 else 0) <= j < i ==> !At(s, pattern, j)
  {
    if i == 0 then None
    else if At(s, pattern, i - 1) then Some(i - 1)
    else FindLast(s, pattern, i - 1)
  }

  /** `str::split_once` and `str::rsplit_once`. */
  function SplitOnce(s: string, pattern: string): Option<(string, string)>
    requires pattern != []
  {
    var k := Find(s, pattern, 0);
    if k == |s| then None else Some((s[..k], s[k + |pattern|..]))
  }

  function RSplitOnce(s: string, pattern: string): Option<(string, string)>
    requires pattern != []
  {
    match FindLast(s, pattern, |s|)
    case None => None
    case Some(k) => Some((s[..k], s[k + |pattern|..]))
  }

  function StripPrefix(s: string, prefix: string): Option<string> {
    if prefix <= s then Some(s[|prefix|..]) else None
  }

  function StripSuffixChar(s: string, c: char): string {
    if s != [] && s[|s| - 1] == c then s[..|s| - 1] else s
  }

  // ----- lines

  function NewlineAt(s: string, i: nat): (k: nat)
    requires i <= |s|
    ensures i <= k <= |s|
    ensures k < |s| ==> s[k] == '\n'
    ensures forall j :: i <= j < k ==> s[j] != '\n'
    decreases |s| - i
  {
    if i == |s| || s[i] == '\n' then i else NewlineAt(s, i + 1)
  }

  /** `str::lines`: a line ending is "\n" or "\r\n", and the last one is optional. */
  function LinesOf(text: string): seq<string>
    decreases |text|
  {
    if text == [] then []
    else
      var k := NewlineAt(text, 0);
      if k == |text| then [text]
      else [StripSuffixChar(text[..k], '\r')] + LinesOf(text[k + 1..])
  }

  function Join(lines: seq<string>): string {
    if lines == [] then [] else lines[0] + "\n" + Join(lines[1..])
  }

  /** A line that survives being written and read back. */
  predicate IsPlainLine(line: string) {
    '\n' !in line && (line == [] || line[|line| - 1] != '\r')
  }

  lemma {:induction false} LinesHoldNoNewline(text: string)
    ensures forall l :: l in LinesOf(text) ==> '\n' !in l
    decreases |text|
  {
    if text == [] {
      assert LinesOf(text) == [];
    } else {
      hide NewlineAt, StripSuffixChar, LinesOf;
      FirstOfLines(text);
      var k := NewlineAt(text, 0);
      HeadHoldsNoNewline(text, k);
      if k < |text| {
        LinesHoldNoNewline(text[k + 1..]);
      }
    }
  }

  lemma FirstOfLines(text: string)
    requires text != []
    ensures var k := NewlineAt(text, 0);
      LinesOf(text) == if k == |text| then [text] else [StripSuffixChar(text[..k], '\r')] + LinesOf(text[k + 1..])
  {
    hide NewlineAt, StripSuffixChar;
  }

  lemma HeadHoldsNoNewline(text: string, k: nat)
    requires k == NewlineAt(text, 0)
    ensures '\n' !in text[..k] && '\n' !in StripSuffixChar(text[..k], '\r') && (k == |text| ==> '\n' !in text)
  {
    assert text[..|text|] == text;
  }

  lemma FirstLine(line: string, rest: string)
    requires '\n' !in line
    ensures var text := line + "\n" + rest;
      NewlineAt(text, 0) == |line| && text[..|line|] == line && text[|line| + 1..] == rest
  {
    var text := line + "\n" + rest;
    assert text[|line|] == '\n';
    assert forall j :: 0 <= j < |line| ==> text[j] == line[j];
  }

  /** Written lines read back are the same lines exactly when each is plain. */
  lemma {:induction false} LinesRoundTrip(lines: seq<string>)
    ensures LinesOf(Join(lines)) == lines <==> forall l :: l in lines ==> IsPlainLine(l)
  {
    if lines == [] {
    } else if '\n' in lines[0] {
      LinesHoldNoNewline(Join(lines));
      assert lines[0] in lines && !IsPlainLine(lines[0]);
    } else {
      FirstLine(lines[0], Join(lines[1..]));
      LinesRoundTrip(lines[1..]);
      var head := StripSuffixChar(lines[0], '\r');
      assert LinesOf(Join(lines)) == [head] + LinesOf(Join(lines[1..]));
      assert lines == [lines[0]] + lines[1..];
      assert ([head] + LinesOf(Join(lines[1..])))[1..] == LinesOf(Join(lines[1..]));
      assert head == lines[0] <==> IsPlainLine(lines[0]);
    }
  }

  /** A last line needs no line end, and a carriage return before a line feed is part of the line end. */
  lemma {:induction false} LastLineIsRead(lines: seq<string>, last: string)
    requires (forall l :: l in lines ==> IsPlainLine(l)) && last != "" && '\n' !in last
    ensures LinesOf(Join(lines) + last) == lines + [last]
  {
    hide LinesOf, NewlineAt, IsPlainLine;
    if lines == [] {
      assert Join(lines) + last == last && lines + [last] == [last];
      OnlyLine(last);
    } else {
      assert lines[0] in lines;
      LastLineIsRead(lines[1..], last);
      assert Join(lines) + last == lines[0] + "\n" + (Join(lines[1..]) + last);
      PlainLineFirst(lines[0], Join(lines[1..]) + last);
      assert lines + [last] == [lines[0]] + (lines[1..] + [last]);
    }
  }

  lemma OnlyLine(line: string)
    requires line != "" && '\n' !in line
    ensures LinesOf(line) == [line]
  {
    hide LinesOf;
    FirstOfLines(line);
  }

  lemma PlainLineFirst(line: string, rest: string)
    requires IsPlainLine(line)
    ensures LinesOf(line + "\n" + rest) == [line] + LinesOf(rest)
  {
    hide LinesOf, NewlineAt;
    FirstLine(line, rest);
    FirstOfLines(line + "\n" + rest);
  }

  lemma ReturnIsLineEnd(line: string, rest: string)
    requires '\n' !in line
    ensures LinesOf(line + "\r\n" + rest) == [line] + LinesOf(rest)
  {
    hide LinesOf;
    var text := (line + "\r") + "\n" + rest;
    assert text == line + "\r\n" + rest;
    FirstLine(line + "\r", rest);
    FirstOfLines(text);
    assert (line + "\r")[..|line|] == line;
  }

  // ----- decimal numbers

  function DigitChar(d: nat): char
    requires d < 10
  {
    "0123456789"[d]
  }

  function DigitValue(c: char): Option<nat> {
    if '0' <= c <= '9' then Some(c as int - '0' as int) else None
  }

  function NatToString(n: nat): (s: string)
    ensures s != []
    ensures forall c :: c in s ==> '0' <= c <= '9'
  {
    if n < 10 then [DigitChar(n)] else NatToString(n / 10) + [DigitChar(n % 10)]
  }

  function ParseDigits(s: string): Option<nat> {
    if s == [] then Some(0)
    else
      match (ParseDigits(s[..|s| - 1]), DigitValue(s[|s| - 1]))
      case (Some(n), Some(d)) => Some(10 * n + d)
      case _ => None
  }

  /** `str::parse::<u32>`: an optional plus sign, then digits, within range. */
  function ParseU32(s: string): Option<nat> {
    var digits := if s != [] && s[0] == '+' then s[1..] else s;
    if digits == [] then None
    else
      match ParseDigits(digits)
      case Some(n) => if n <= U32_MAX then Some(n) else None
      case None => None
  }

  lemma {:induction false} NumberRoundTrip(n: nat)
    ensures ParseDigits(NatToString(n)) == Some(n)
  {
    hide ParseDigits, DigitChar;
    if n >= 10 {
      NumberRoundTrip(n / 10);
      DigitAppended(NatToString(n / 10), n / 10, n % 10);
    } else {
      NoDigits();
      DigitAppended([], 0, n);
      assert [] + [DigitChar(n)] == [DigitChar(n)];
    }
  }

  lemma NoDigits()
    ensures ParseDigits([]) == Some(0)
  {
  }

  lemma DigitAppended(s: string, n: nat, d: nat)
    requires d < 10 && ParseDigits(s) == Some(n)
    ensures ParseDigits(s + [DigitChar(d)]) == Some(10 * n + d)
  {
    assert (s + [DigitChar(d)])[..|s|] == s;
  }

  lemma U32RoundTrip(n: nat)
    ensures ParseU32(NatToString(n)) == if n <= U32_MAX then Some(n) else None
  {
    NumberRoundTrip(n);
    assert NatToString(n)[0] in NatToString(n);
  }

  // ----- hunk headers

  /** Unicode White_Space. */
  predicate IsWhitespace(c: char) {
    || '\t' <= c <= '\r' || c == ' ' || c == '\U{85}' || c == '\U{A0}' || c == '\U{1680}'
    || '\U{2000}' <= c <= '\U{200A}' || c == '\U{2028}' || c == '\U{2029}' || c == '\U{202F}'
    || c == '\U{205F}' || c == '\U{3000}'
  }

  function SkipSpace(s: string): (r: string)
    ensures |r| <= |s|
  {
    if s != [] && IsWhitespace(s[0]) then SkipSpace(s[1..]) else s
  }

  /** Length of the word at the head of `s`. */
  function WordLen(s: string): (n: nat)
    ensures n <= |s|
  {
    if s == [] || IsWhitespace(s[0]) then 0 else 1 + WordLen(s[1..])
  }

  /** The next item of `str::split_whitespace`, and what follows it. */
  function NextWord(s: string): Option<(string, string)> {
    var t := SkipSpace(s);
    if t == [] then None else Some((t[..WordLen(t)], t[WordLen(t)..]))
  }

  /** The part of a range before its comma, as a number. */
  function ParseRangeStart(range: string): Option<nat> {
    ParseU32(range[..Find(range, ",", 0)])
  }

  function ParseSignedRange(word: string, sign: string): Option<nat> {
    match StripPrefix(word, sign)
    case None => None
    case Some(range) => ParseRangeStart(range)
  }

  function ParseHunkStarts(line: string): Option<(nat, nat)> {
    if !("@@ " <= line) then None
    else
      match SplitOnce(line[3..], " @@")
      case None => None
      case Some((ranges, _)) =>
        match NextWord(ranges)
        case None => None
        case Some((first, rest)) =>
          match NextWord(rest)
          case None => None
          case Some((second, _)) =>
            match (ParseSignedRange(first, "-"), ParseSignedRange(second, "+"))
            case (Some(old_), Some(new_)) => Some((old_, new_))
            case _ => None
  }

  /** A hunk header as Git writes it; `section` is the text after the second marker. */
  function HunkHeaderLine(oldStart: nat, oldCount: nat, newStart: nat, newCount: nat, section: string): string {
    "@@ " + RangePair(oldStart, oldCount, newStart, newCount) + " @@" + section
  }

  function RangePair(oldStart: nat, oldCount: nat, newStart: nat, newCount: nat): string {
    ("-" + NatToString(oldStart) + CountText(oldCount)) + " " + ("+" + NatToString(newStart) + CountText(newCount))
  }

  /** A count of one is left out. */
  function CountText(count: nat): (s: string)
    ensures forall c :: c in s ==> IsRangeChar(c)
    ensures s == [] || s[0] == ','
  {
    if count == 1 then "" else "," + NatToString(count)
  }

  predicate IsRangeChar(c: char) {
    '0' <= c <= '9' || c == '-' || c == '+' || c == ','
  }

  predicate IsWord(s: string) {
    s != [] && forall c :: c in s ==> IsRangeChar(c)
  }

  lemma {:induction false} WordEnds(word: string, rest: string)
    requires (forall c :: c in word ==> IsRangeChar(c)) && (rest == [] || rest[0] == ' ')
    ensures WordLen(word + rest) == |word|
  {
    if word == [] {
      assert word + rest == rest;
    } else {
      assert word[0] in word;
      assert (word + rest)[1..] == word[1..] + rest;
      WordEnds(word[1..], rest);
    }
  }

  lemma NextWordIs(word: string, rest: string)
    requires IsWord(word) && (rest == [] || rest[0] == ' ')
    ensures NextWord(word + rest) == Some((word, rest))
    ensures NextWord(" " + word + rest) == Some((word, rest))
  {
    assert word[0] in word;
    WordEnds(word, rest);
    assert (word + rest)[..|word|] == word && (word + rest)[|word|..] == rest;
    assert (" " + word + rest)[1..] == word + rest;
  }

  lemma SignedRangeParses(sign: string, start: nat, count: nat)
    requires |sign| == 1
    ensures ParseSignedRange(sign + NatToString(start) + CountText(count), sign)
      == if start <= U32_MAX then Some(start) else None
  {
    var n := NatToString(start);
    var range := n + CountText(count);
    var word := sign + n + CountText(count);
    assert word == sign + range && sign <= word && word[1..] == range;
    CommaAfterDigits(n, CountText(count));
    assert range[..|n|] == n;
    U32RoundTrip(start);
  }

  lemma CommaAfterDigits(n: string, rest: string)
    requires (forall c :: c in n ==> '0' <= c <= '9') && (rest == [] || rest[0] == ',')
    ensures Find(n + rest, ",", 0) == |n|
  {
    var s := n + rest;
    assert rest != [] ==> At(s, ",", |n|) by {
      if rest != [] {
        assert s[|n|..|n| + 1] == [rest[0]];
      }
    }
    forall j | 0 <= j < |n| ensures !At(s, ",", j) {
      assert s[j..j + 1][0] == s[j] == n[j] && n[j] in n;
    }
  }

  lemma PairHasNoMarker(pair: string, section: string)
    requires pair != [] && (forall c :: c in pair ==> IsRangeChar(c) || c == ' ')
    ensures Find(pair + " @@" + section, " @@", 0) == |pair|
  {
    var s := pair + " @@" + section;
    AtThree(s, " @@", |pair|);
    forall j | 0 <= j < |pair| ensures !At(s, " @@", j) {
      AtThree(s, " @@", j);
      if j + 1 < |pair| {
        assert s[j + 1] == pair[j + 1] && pair[j + 1] in pair;
      }
    }
  }

  /** Every hunk header that can be printed is read back with its two starts, exactly when both fit 32 bits. */
  lemma HunkHeaderParses(oldStart: nat, oldCount: nat, newStart: nat, newCount: nat, section: string)
    ensures ParseHunkStarts(HunkHeaderLine(oldStart, oldCount, newStart, newCount, section))
      == if oldStart <= U32_MAX && newStart <= U32_MAX then Some((oldStart, newStart)) else None
  {
    hide NatToString, CountText, Find, NextWord, ParseSignedRange;
    var first := "-" + NatToString(oldStart) + CountText(oldCount);
    var second := "+" + NatToString(newStart) + CountText(newCount);
    var pair := RangePair(oldStart, oldCount, newStart, newCount);
    var line := HunkHeaderLine(oldStart, oldCount, newStart, newCount, section);
    assert "@@ " <= line && line[3..] == pair + " @@" + section;
    PairHasNoMarker(pair, section);
    assert (pair + " @@" + section)[..|pair|] == pair;
    assert IsWord(first) && IsWord(second);
    assert pair == first + (" " + second);
    NextWordIs(first, " " + second);
    NextWordIs(second, "");
    assert " " + second == " " + second + "";
    SignedRangeParses("-", oldStart, oldCount);
    SignedRangeParses("+", newStart, newCount);
  }

  // ----- paths

  function Unescaped(c: char): char {
    match c
    case 't' => '\t'
    case 'n' => '\n'
    case 'r' => '\r'
    case _ => c
  }

  function UnescapeGitPath(path: string): (r: string)
    ensures |r| <= |path|
  {
    if path == [] then []
    else if path[0] == '\\' then
      if |path| == 1 then [] else [Unescaped(path[1])] + UnescapeGitPath(path[2..])
    else [path[0]] + UnescapeGitPath(path[1..])
  }

  function ParseDiffHeaderPath(line: string): Option<string> {
    match StripPrefix(line, "diff --git ")
    case None => None
    case Some(rest) =>
      match RSplitOnce(rest, " b/")
      case Some((_, right)) => Some(UnescapeGitPath(right))
      case None =>
        match RSplitOnce(rest, " \"b/")
        case Some((_, right)) => Some(UnescapeGitPath(StripSuffixChar(right, '"')))
        case None => None
  }

  function FileHeaderLine(path: string): string {
    "diff --git a/" + path + " b/" + path
  }

  lemma {:induction false} UnescapeKeepsIff(path: string)
    ensures UnescapeGitPath(path) == path <==> '\\' !in path
    ensures '\\' in path ==> |UnescapeGitPath(path)| < |path|
  {
    if path != [] {
      if path[0] != '\\' {
        UnescapeKeepsIff(path[1..]);
        assert path == [path[0]] + path[1..];
        assert UnescapeGitPath(path)[1..] == UnescapeGitPath(path[1..]);
      } else {
        assert path[0] in path;
      }
    }
  }

  /** The path a printed header is read back with: what follows its last " b/". */
  function ReadPath(path: string): string {
    match FindLast(path, " b/", |path|)
    case None => UnescapeGitPath(path)
    case Some(k) => UnescapeGitPath(path[k + 3..])
  }

  lemma LastInHeader(path: string)
    ensures var rest := "a/" + path + " b/" + path;
      var base := |path| + 5;
      FindLast(rest, " b/", |rest|) == match FindLast(path, " b/", |path|)
        case None => Some(base - 3)
        case Some(k) => Some(base + k)
  {
    var rest := "a/" + path + " b/" + path;
    var base := |path| + 5;
    AtThree(rest, " b/", base - 3);
    forall j | base <= j < |rest| ensures At(rest, " b/", j) <==> At(path, " b/", j - base) {
      AtThree(rest, " b/", j);
      AtThree(path, " b/", j - base);
    }
    forall j | base - 3 < j < base ensures !At(rest, " b/", j) {
      AtThree(rest, " b/", j);
    }
    hide At;
    LastIs(rest, " b/", |rest|, match FindLast(path, " b/", |path|) case None => base - 3 case Some(k) => base + k);
  }

  lemma {:induction false} LastIs(s: string, pattern: string, i: nat, k: nat)
    requires k < i && At(s, pattern, k) && forall j :: k < j < i ==> !At(s, pattern, j)
    ensures FindLast(s, pattern, i) == Some(k)
  {
    hide At;
    if k < i - 1 {
      LastIs(s, pattern, i - 1, k);
    }
  }

  lemma HeaderParses(path: string)
    ensures ParseDiffHeaderPath(FileHeaderLine(path)) == Some(ReadPath(path))
  {
    hide FindLast, UnescapeGitPath;
    var rest := "a/" + path + " b/" + path;
    var line := FileHeaderLine(path);
    assert line == "diff --git " + rest;
    assert StripPrefix(line, "diff --git ") == Some(rest);
    LastInHeader(path);
    var base := |path| + 5;
    assert rest[base..] == path;
    match FindLast(path, " b/", |path|) {
      case None =>
      case Some(k) => assert rest[base + k + 3..] == path[k + 3..];
    }
  }

  /** A printed path is read back exactly when it holds neither " b/" nor a backslash. */
  lemma PathRoundTrip(path: string)
    ensures ParseDiffHeaderPath(FileHeaderLine(path)) == Some(path) <==> !Contains(path, " b/") && '\\' !in path
  {
    hide FindLast, At;
    HeaderParses(path);
    match FindLast(path, " b/", |path|) {
      case None =>
        UnescapeKeepsIff(path);
        assert !Contains(path, " b/") by { NotLateInPath(path); }
      case Some(k) =>
        assert Contains(path, " b/");
        assert |ReadPath(path)| <= |path| - k - 3;
    }
  }

  lemma NotLateInPath(path: string)
    ensures forall i :: i >= |path| ==> !At(path, " b/", i)
  {
  }
}
