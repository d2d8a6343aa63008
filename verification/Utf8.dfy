/** UTF-8 as the text field and the JavaScript kernel use it: byte strings, the
    well-formed ones (section 4 of RFC 3629), and character boundaries. */
module Utf8 {
  type Byte = bv8
  type Bytes = seq<Byte>

  /** A continuation byte. */
  predicate IsTail(b: Byte) {
    0x80 <= b <= 0xBF
  }

  /** The first two bytes of a three-byte character: no overlong form, no surrogate. */
  predicate IsThreeByteHead(b0: Byte, b1: Byte) {
    || (b0 == 0xE0 && 0xA0 <= b1 <= 0xBF)
    || (0xE1 <= b0 <= 0xEC && IsTail(b1))
    || (b0 == 0xED && 0x80 <= b1 <= 0x9F)
    || (0xEE <= b0 <= 0xEF && IsTail(b1))
  }

  /** The first two bytes of a four-byte character: no overlong form, nothing above U+10FFFF. */
  predicate IsFourByteHead(b0: Byte, b1: Byte) {
    || (b0 == 0xF0 && 0x90 <= b1 <= 0xBF)
    || (0xF1 <= b0 <= 0xF3 && IsTail(b1))
    || (b0 == 0xF4 && 0x80 <= b1 <= 0x8F)
  }

  /** Length of the well-formed character at the head of `s`, or 0 when there is none. */
  function CharLen(s: Bytes): (n: nat)
    ensures n <= |s| && n <= 4
    ensures n > 0 ==> !IsTail(s[0])
    ensures forall j :: 0 < j < n ==> IsTail(s[j])
  {
    if |s| >= 1 && s[0] <= 0x7F then 1
    else if |s| >= 2 && 0xC2 <= s[0] <= 0xDF && IsTail(s[1]) then 2
    else if |s| >= 3 && IsThreeByteHead(s[0], s[1]) && IsTail(s[2]) then 3
    else if |s| >= 4 && IsFourByteHead(s[0], s[1]) && IsTail(s[2]) && IsTail(s[3]) then 4
    else 0
  }

  /** A Rust `str` is exactly a byte sequence for which this holds. */
  predicate Valid(s: Bytes) {
    s == [] || (CharLen(s) > 0 && Valid(s[CharLen(s)..]))
  }

  /** `str::is_char_boundary`: a test of one byte, with no decoding. */
  predicate IsBoundary(s: Bytes, i: int) {
    i == 0 || i == |s| || (0 < i < |s| && !IsTail(s[i]))
  }

  datatype Range = Range(start: nat, end: nat)

  /** The empty range at an offset. */
  function Caret(offset: nat): Range {
    Range(offset, offset)
  }

  /** A range that slices `s` without panicking. */
  predicate OnBoundaries(s: Bytes, r: Range) {
    r.start <= r.end <= |s| && IsBoundary(s, r.start) && IsBoundary(s, r.end)
  }

  /** `s` with the bytes of `r` replaced by `text`. */
  function Splice(s: Bytes, r: Range, text: Bytes): Bytes
    requires r.start <= r.end <= |s|
  {
    s[..r.start] + text + s[r.end..]
  }

  /** The head character does not depend on what follows it. */
  lemma CharLenOfPrefix(s: Bytes, k: nat)
    requires k <= |s|
    ensures CharLen(s) <= k ==> CharLen(s[..k]) == CharLen(s)
    ensures CharLen(s[..k]) > 0 ==> CharLen(s) == CharLen(s[..k])
  {
  }

  /** The byte test for a boundary finds real character edges: cutting a valid
      string there leaves two valid strings. */
  lemma {:induction false} ValidSplit(s: Bytes, i: nat)
    requires Valid(s) && IsBoundary(s, i)
    ensures Valid(s[..i]) && Valid(s[i..])
    decreases |s|
  {
    assert i <= |s|;
    hide *;
    if i == 0 {
      NothingValid();
      assert s[..i] == [] && s[i..] == s;
    } else {
      var n := CharLen(s);
      FirstChar(s);
      BoundaryPastFirst(s, i);
      RestBoundary(s, n, i);
      ValidSplit(s[n..], i - n);
      FirstBack(s, n, i);
    }
  }

  lemma RestBoundary(s: Bytes, n: nat, i: nat)
    requires n <= i <= |s| && IsBoundary(s, i)
    ensures IsBoundary(s[n..], i - n)
  {
  }

  /** The first character put back in front of the first part of the rest. */
  lemma FirstBack(s: Bytes, n: nat, i: nat)
    requires 0 < n == CharLen(s) && n <= i <= |s|
    requires Valid(s[n..][..i - n]) && Valid(s[n..][i - n..])
    ensures Valid(s[..i]) && Valid(s[i..])
  {
    CharLenOfPrefix(s, i);
    hide *;
    assert s[n..][i - n..] == s[i..];
    var first := s[..i];
    assert s[n..][..i - n] == first[n..];
    FirstThenRest(first);
  }

  lemma NothingValid()
    ensures Valid([])
  {
  }

  lemma FirstChar(s: Bytes)
    requires Valid(s) && s != []
    ensures CharLen(s) > 0 && Valid(s[CharLen(s)..])
  {
    hide CharLen;
  }

  lemma FirstThenRest(s: Bytes)
    requires s != [] && CharLen(s) > 0 && Valid(s[CharLen(s)..])
    ensures Valid(s)
  {
    hide CharLen;
  }

  lemma BoundaryPastFirst(s: Bytes, i: nat)
    requires 0 < i && IsBoundary(s, i) && CharLen(s) > 0
    ensures CharLen(s) <= i <= |s|
  {
    hide CharLen, IsTail;
  }

  lemma HeadOfConcat(a: Bytes, b: Bytes)
    requires CharLen(a) > 0
    ensures CharLen(a + b) == CharLen(a) && (a + b)[CharLen(a)..] == a[CharLen(a)..] + b
  {
    assert (a + b)[..|a|] == a;
    CharLenOfPrefix(a + b, |a|);
  }

  /** Concatenation keeps validity. */
  lemma {:induction false} ValidConcat(a: Bytes, b: Bytes)
    requires Valid(a) && Valid(b)
    ensures Valid(a + b)
    decreases |a|
  {
    if a == [] {
      assert a + b == b;
    } else {
      HeadOfConcat(a, b);
      hide CharLen;
      ValidConcat(a[CharLen(a)..], b);
    }
  }

  /** Where a valid string follows, there is a boundary. */
  lemma Seam(a: Bytes, b: Bytes)
    requires Valid(b)
    ensures IsBoundary(a + b, |a|)
  {
    if b != [] {
      assert (a + b)[|a|] == b[0];
    }
  }

  /** Every boundary of a string inside a slice is a boundary of the slice, and back. */
  lemma BoundaryInSlice(s: Bytes, i: nat, j: nat, k: nat)
    requires IsBoundary(s, i) && IsBoundary(s, j) && i <= k <= j
    ensures IsBoundary(s[i..j], k - i) <==> IsBoundary(s, k)
  {
  }

  lemma ValidSlice(s: Bytes, r: Range)
    requires Valid(s) && OnBoundaries(s, r)
    ensures Valid(s[r.start..r.end])
  {
    ValidSplit(s, r.end);
    BoundaryInSlice(s, 0, r.end, r.start);
    assert s[0..r.end] == s[..r.end];
    ValidSplit(s[..r.end], r.start);
    assert s[..r.end][r.start..] == s[r.start..r.end];
  }

  lemma ValidThreeParts(pre: Bytes, mid: Bytes, post: Bytes)
    requires Valid(pre) && Valid(mid) && Valid(post)
    ensures Valid(pre + mid + post)
    ensures IsBoundary(pre + mid + post, |pre|) && IsBoundary(pre + mid + post, |pre| + |mid|)
  {
    hide Valid, IsBoundary;
    ValidConcat(mid, post);
    ValidConcat(pre, mid + post);
    Seam(pre, mid + post);
    assert pre + (mid + post) == pre + mid + post;
    Seam(pre + mid, post);
    assert |pre + mid| == |pre| + |mid|;
  }

  /** Replacing whole characters by whole characters keeps the string valid, and
      both ends of the inserted text are boundaries of the result. */
  lemma ValidSplice(s: Bytes, r: Range, text: Bytes)
    requires Valid(s) && OnBoundaries(s, r) && Valid(text)
    ensures Valid(Splice(s, r, text))
    ensures OnBoundaries(Splice(s, r, text), Range(r.start, r.start + |text|))
  {
    hide Valid, IsBoundary;
    var pre, post := s[..r.start], s[r.end..];
    assert Valid(pre) && Valid(post) by {
      ValidSplit(s, r.start);
      ValidSplit(s, r.end);
    }
    ValidThreeParts(pre, text, post);
    assert |pre| == r.start && |Splice(s, r, text)| >= |pre| + |text|;
  }
}
