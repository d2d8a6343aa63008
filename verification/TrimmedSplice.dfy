/** The undo engine's splice trimming: of a replacement, keep only what differs. */
module TrimmedSplice {
  import opened Utf8

  /** `n` shared leading bytes ending on a boundary of `a`. */
  predicate SharedPrefix(a: Bytes, b: Bytes, n: nat) {
    n <= |a| && n <= |b| && a[..n] == b[..n] && IsBoundary(a, n)
  }

  /** `n` shared trailing bytes starting on a boundary of `a`. */
  predicate SharedSuffix(a: Bytes, b: Bytes, n: nat) {
    n <= |a| && n <= |b| && a[|a| - n..] == b[|b| - n..] && IsBoundary(a, |a| - n)
  }

  /** The longest shared prefix of at most `limit` bytes. */
  function PrefixLen(a: Bytes, b: Bytes, limit: nat): (n: nat)
    ensures n <= limit && n <= |a| && n <= |b| && SharedPrefix(a, b, n)
  {
    if SharedPrefix(a, b, limit) then limit else PrefixLen(a, b, limit - 1)
  }

  /** The longest shared suffix of at most `limit` bytes. */
  function SuffixLen(a: Bytes, b: Bytes, limit: nat): (n: nat)
    ensures n <= limit && n <= |a| && n <= |b| && SharedSuffix(a, b, n)
  {
    if SharedSuffix(a, b, limit) then limit else SuffixLen(a, b, limit - 1)
  }

  lemma {:induction false} PrefixLenIsLongest(a: Bytes, b: Bytes, limit: nat, n: nat)
    requires n <= limit && SharedPrefix(a, b, n)
    ensures n <= PrefixLen(a, b, limit)
  {
    hide SharedPrefix;
    if !SharedPrefix(a, b, limit) {
      PrefixLenIsLongest(a, b, limit - 1, n);
    }
  }

  lemma {:induction false} SuffixLenIsLongest(a: Bytes, b: Bytes, limit: nat, n: nat)
    requires n <= limit && SharedSuffix(a, b, n)
    ensures n <= SuffixLen(a, b, limit)
  {
    hide SharedSuffix;
    if !SharedSuffix(a, b, limit) {
      SuffixLenIsLongest(a, b, limit - 1, n);
    }
  }

  /** Two texts cut into a shared head, what differs, and a shared tail. */
  datatype Parts = Parts(head: Bytes, removed: Bytes, inserted: Bytes, tail: Bytes)

  /** The longest shared prefix comes off first, then the longest shared suffix of the rest. */
  function TrimParts(cut: Bytes, fill: Bytes): Parts {
    var p := PrefixLen(cut, fill, |cut|);
    var cutRest, fillRest := cut[p..], fill[p..];
    var s := SuffixLen(cutRest, fillRest, |cutRest|);
    Parts(cut[..p], cutRest[..|cutRest| - s], fillRest[..|fillRest| - s], cutRest[|cutRest| - s..])
  }

  datatype Trimmed = Trimmed(start: nat, removed: Bytes, inserted: Bytes)

  /** The splice reduced to the part of it that makes a difference. */
  function Trim(content: Bytes, range: Range, newText: Bytes): (t: Trimmed)
    requires range.start <= range.end <= |content|
  {
    var parts := TrimParts(content[range.start..range.end], newText);
    Trimmed(range.start + |parts.head|, parts.removed, parts.inserted)
  }

  /** Compares bytes from the front, then gives back any piece of a character; looks for boundaries in `a` only. */
  method CommonPrefixLen(a: Bytes, b: Bytes) returns (len: nat)
    ensures len == PrefixLen(a, b, |a|)
  {
    len := 0;
    while len < |a| && len < |b| && a[len] == b[len]
      invariant len <= |a| && len <= |b| && a[..len] == b[..len]
    {
      len := len + 1;
    }
    ghost var shared := len;
    assert forall m :: shared < m <= |a| ==> !SharedPrefix(a, b, m) by {
      forall m | shared < m <= |a| ensures !SharedPrefix(a, b, m) {
        if m <= |b| {
          assert a[..m][shared] == a[shared] && b[..m][shared] == b[shared];
        }
      }
    }
    while !IsBoundary(a, len)
      invariant len <= shared
      invariant forall m :: len < m <= |a| ==> !SharedPrefix(a, b, m)
      decreases len
    {
      len := len - 1;
    }
    assert SharedPrefix(a, b, len) by {
      assert a[..len] == a[..shared][..len] && b[..len] == b[..shared][..len];
    }
    PrefixLenIsLongest(a, b, |a|, len);
  }

  /** The same from the back. */
  method CommonSuffixLen(a: Bytes, b: Bytes) returns (len: nat)
    ensures len == SuffixLen(a, b, |a|)
  {
    len := 0;
    while len < |a| && len < |b| && a[|a| - 1 - len] == b[|b| - 1 - len]
      invariant len <= |a| && len <= |b| && a[|a| - len..] == b[|b| - len..]
    {
      assert a[|a| - (len + 1)..] == [a[|a| - 1 - len]] + a[|a| - len..];
      assert b[|b| - (len + 1)..] == [b[|b| - 1 - len]] + b[|b| - len..];
      len := len + 1;
    }
    ghost var shared := len;
    assert forall m :: shared < m <= |a| ==> !SharedSuffix(a, b, m) by {
      forall m | shared < m <= |a| ensures !SharedSuffix(a, b, m) {
        if m <= |b| {
          assert a[|a| - m..][m - 1 - shared] == a[|a| - 1 - shared];
          assert b[|b| - m..][m - 1 - shared] == b[|b| - 1 - shared];
        }
      }
    }
    while !IsBoundary(a, |a| - len)
      invariant len <= shared
      invariant forall m :: len < m <= |a| ==> !SharedSuffix(a, b, m)
      decreases len
    {
      len := len - 1;
    }
    assert SharedSuffix(a, b, len) by {
      assert a[|a| - len..] == a[|a| - shared..][shared - len..];
      assert b[|b| - len..] == b[|b| - shared..][shared - len..];
    }
    SuffixLenIsLongest(a, b, |a|, len);
  }

  method TrimSplice(content: Bytes, range: Range, newText: Bytes) returns (t: Trimmed)
    requires range.start <= range.end <= |content|
    ensures t == Trim(content, range, newText)
  {
    hide PrefixLen, SuffixLen, IsBoundary;
    var cut := content[range.start..range.end];
    var prefix := CommonPrefixLen(cut, newText);
    var cutRest, fillRest := cut[prefix..], newText[prefix..];
    var suffix := CommonSuffixLen(cutRest, fillRest);
    t := Trimmed(range.start + prefix, cutRest[..|cutRest| - suffix], fillRest[..|fillRest| - suffix]);
  }

  // ----- no character is cut, though only one of the texts is looked at

  lemma PrefixIsBoundaryInBoth(a: Bytes, b: Bytes, n: nat)
    requires Valid(a) && Valid(b) && SharedPrefix(a, b, n)
    ensures IsBoundary(a, n) && IsBoundary(b, n)
  {
    ValidSplit(a, n);
    if 0 < n < |b| {
      HeadEndsOnBoundary(b, n);
    }
  }

  /** Where a valid prefix of a valid string ends, the next byte starts a character. */
  lemma {:induction false} HeadEndsOnBoundary(s: Bytes, n: nat)
    requires Valid(s) && n <= |s| && Valid(s[..n])
    ensures IsBoundary(s, n)
    decreases n
  {
    if 0 < n < |s| {
      CharLenOfPrefix(s, n);
      var k := CharLen(s);
      assert s[..n][k..] == s[k..][..n - k];
      HeadEndsOnBoundary(s[k..], n - k);
    }
  }

  lemma SuffixIsBoundaryInBoth(a: Bytes, b: Bytes, n: nat)
    requires Valid(a) && Valid(b) && SharedSuffix(a, b, n)
    ensures IsBoundary(a, |a| - n) && IsBoundary(b, |b| - n)
  {
    if n > 0 {
      assert a[|a| - n..][0] == b[|b| - n..][0];
      assert !IsTail(a[|a| - n]);
    }
  }

  ghost predicate NoSharedHead(a: Bytes, b: Bytes) {
    forall n :: 0 < n ==> !SharedPrefix(a, b, n)
  }

  ghost predicate NoSharedTail(a: Bytes, b: Bytes) {
    forall n :: 0 < n ==> !SharedSuffix(a, b, n)
  }

  lemma SharedFits(a: Bytes, b: Bytes, n: nat)
    requires SharedPrefix(a, b, n) || SharedSuffix(a, b, n)
    ensures n <= |a|
  {
  }

  lemma SharedPrefixExtends(a: Bytes, b: Bytes, p: nat, n: nat)
    requires SharedPrefix(a, b, p) && SharedPrefix(a[p..], b[p..], n)
    ensures SharedPrefix(a, b, p + n)
  {
    assert a[..p + n] == a[..p] + a[p..][..n];
    assert b[..p + n] == b[..p] + b[p..][..n];
  }

  lemma SharedSuffixExtends(a: Bytes, b: Bytes, s: nat, n: nat)
    requires SharedSuffix(a, b, s) && SharedSuffix(a[..|a| - s], b[..|b| - s], n)
    ensures SharedSuffix(a, b, s + n)
  {
    assert a[|a| - s - n..] == a[..|a| - s][|a| - s - n..] + a[|a| - s..];
    assert b[|b| - s - n..] == b[..|b| - s][|b| - s - n..] + b[|b| - s..];
  }

  lemma SharedPrefixOfCut(a: Bytes, b: Bytes, s: nat, n: nat)
    requires SharedSuffix(a, b, s) && SharedPrefix(a[..|a| - s], b[..|b| - s], n)
    ensures SharedPrefix(a, b, n)
  {
    assert a[..n] == a[..|a| - s][..n];
    assert b[..n] == b[..|b| - s][..n];
  }

  /** Splitting off the shared prefix. */
  lemma TrimPrefix(cut: Bytes, fill: Bytes, p: nat, cutRest: Bytes, fillRest: Bytes)
    requires Valid(cut) && Valid(fill)
    requires p == PrefixLen(cut, fill, |cut|) && cutRest == cut[p..] && fillRest == fill[p..]
    ensures Valid(cut[..p]) && Valid(cutRest) && Valid(fillRest)
    ensures NoSharedHead(cutRest, fillRest)
  {
    hide *;
    PrefixIsBoundaryInBoth(cut, fill, p);
    ValidSplit(cut, p);
    ValidSplit(fill, p);
    RestsShareNoHead(cut, fill, p);
  }

  lemma RestsShareNoHead(cut: Bytes, fill: Bytes, p: nat)
    requires p == PrefixLen(cut, fill, |cut|)
    ensures NoSharedHead(cut[p..], fill[p..])
  {
    hide PrefixLen, SharedPrefix;
    forall n | 0 < n ensures !SharedPrefix(cut[p..], fill[p..], n) {
      if SharedPrefix(cut[p..], fill[p..], n) {
        SharedPrefixExtends(cut, fill, p, n);
        SharedFits(cut, fill, p + n);
        PrefixLenIsLongest(cut, fill, |cut|, p + n);
      }
    }
  }

  /** Splitting off the shared suffix keeps the heads distinct. */
  lemma TrimSuffix(a: Bytes, b: Bytes, s: nat, aCut: Bytes, bCut: Bytes)
    requires Valid(a) && Valid(b) && NoSharedHead(a, b)
    requires s == SuffixLen(a, b, |a|) && aCut == a[..|a| - s] && bCut == b[..|b| - s]
    ensures Valid(aCut) && Valid(bCut) && Valid(a[|a| - s..])
    ensures NoSharedHead(aCut, bCut) && NoSharedTail(aCut, bCut)
  {
    hide *;
    SuffixIsBoundaryInBoth(a, b, s);
    ValidSplit(a, |a| - s);
    ValidSplit(b, |b| - s);
    CutsShareNoHead(a, b, s);
    CutsShareNoTail(a, b, s);
  }

  lemma CutsShareNoHead(a: Bytes, b: Bytes, s: nat)
    requires SharedSuffix(a, b, s) && s <= |a| && s <= |b| && NoSharedHead(a, b)
    ensures NoSharedHead(a[..|a| - s], b[..|b| - s])
  {
    hide SharedPrefix, SharedSuffix;
    var aCut, bCut := a[..|a| - s], b[..|b| - s];
    forall n | 0 < n ensures !SharedPrefix(aCut, bCut, n) {
      if SharedPrefix(aCut, bCut, n) {
        SharedPrefixOfCut(a, b, s, n);
      }
    }
  }

  lemma CutsShareNoTail(a: Bytes, b: Bytes, s: nat)
    requires s == SuffixLen(a, b, |a|)
    ensures NoSharedTail(a[..|a| - s], b[..|b| - s])
  {
    hide SharedPrefix, SharedSuffix, SuffixLen;
    var aCut, bCut := a[..|a| - s], b[..|b| - s];
    forall n | 0 < n ensures !SharedSuffix(aCut, bCut, n) {
      if SharedSuffix(aCut, bCut, n) {
        SharedSuffixExtends(a, b, s, n);
        SharedFits(a, b, s + n);
        SuffixLenIsLongest(a, b, |a|, s + n);
      }
    }
  }

  lemma JoinThree(s: Bytes, i: nat, j: nat)
    requires i + j <= |s|
    ensures s == s[..i] + s[i..][..|s| - i - j] + s[i..][|s| - i - j..]
  {
  }

  lemma PartsRejoin(cut: Bytes, fill: Bytes)
    ensures var t := TrimParts(cut, fill);
      cut == t.head + t.removed + t.tail && fill == t.head + t.inserted + t.tail
  {
    CutRejoins(cut, fill);
    FillRejoins(cut, fill);
    hide TrimParts;
  }

  lemma CutRejoins(cut: Bytes, fill: Bytes)
    ensures var t := TrimParts(cut, fill); cut == t.head + t.removed + t.tail
  {
    hide PrefixLen, SuffixLen, IsBoundary;
    var p := PrefixLen(cut, fill, |cut|);
    JoinThree(cut, p, SuffixLen(cut[p..], fill[p..], |cut[p..]|));
  }

  lemma FillRejoins(cut: Bytes, fill: Bytes)
    ensures var t := TrimParts(cut, fill); fill == t.head + t.inserted + t.tail
  {
    hide PrefixLen, SuffixLen, IsBoundary;
    var p := PrefixLen(cut, fill, |cut|);
    JoinThree(fill, p, SuffixLen(cut[p..], fill[p..], |cut[p..]|));
  }

  /** The parts of two valid texts are whole characters. */
  lemma PartsAreWhole(cut: Bytes, fill: Bytes)
    requires Valid(cut) && Valid(fill)
    ensures var t := TrimParts(cut, fill);
      && Valid(t.head) && Valid(t.removed) && Valid(t.inserted) && Valid(t.tail)
      && NoSharedHead(t.removed, t.inserted) && NoSharedTail(t.removed, t.inserted)
  {
    hide PrefixLen, SuffixLen, SharedPrefix, SharedSuffix, Valid, NoSharedHead, NoSharedTail;
    var p := PrefixLen(cut, fill, |cut|);
    var cutRest, fillRest := cut[p..], fill[p..];
    var s := SuffixLen(cutRest, fillRest, |cutRest|);
    TrimPrefix(cut, fill, p, cutRest, fillRest);
    TrimSuffix(cutRest, fillRest, s, cutRest[..|cutRest| - s], fillRest[..|fillRest| - s]);
  }

  /** `t` describes a replacement that turns `content` into `after`: whole characters
      removed and inserted at a boundary. `pre` and `post` are what stays. */
  ghost predicate Describes(t: Trimmed, pre: Bytes, post: Bytes, content: Bytes, after: Bytes) {
    && Valid(pre) && Valid(t.removed) && Valid(t.inserted) && Valid(post)
    && |pre| == t.start
    && content == pre + t.removed + post
    && after == pre + t.inserted + post
  }

  /** The trimming theorem. On whole characters in, whole characters out, the same
      content, nothing shared left at either end, and nothing recorded at all
      exactly when the splice changes nothing. */
  lemma TrimIsFaithful(content: Bytes, range: Range, newText: Bytes) returns (pre: Bytes, post: Bytes)
    requires Valid(content) && OnBoundaries(content, range) && Valid(newText)
    ensures var t := Trim(content, range, newText);
      && Describes(t, pre, post, content, Splice(content, range, newText))
      && NoSharedHead(t.removed, t.inserted) && NoSharedTail(t.removed, t.inserted)
      && ((t.removed == [] && t.inserted == []) <==> Splice(content, range, newText) == content)
  {
    hide TrimParts, IsBoundary, Valid, NoSharedHead, NoSharedTail;
    var before, cut, after := content[..range.start], content[range.start..range.end], content[range.end..];
    ValidSlice(content, range);
    ValidSplit(content, range.start);
    ValidSplit(content, range.end);
    ThreeParts(content, range);
    hide Describes;
    pre, post := TrimKeepsAffixes(before, cut, after, newText);
    assert range.start + |TrimParts(cut, newText).head| == |before + TrimParts(cut, newText).head|;
  }

  lemma ThreeParts(s: Bytes, r: Range)
    requires r.start <= r.end <= |s|
    ensures s == s[..r.start] + s[r.start..r.end] + s[r.end..]
  {
  }

  /** The front is trimmed first, as far as it goes; the back gets what is left. */
  lemma TrimTakesFrontFirst(content: Bytes, range: Range, newText: Bytes, n: nat)
    requires range.start <= range.end <= |content|
    ensures var cut, t := content[range.start..range.end], Trim(content, range, newText);
      && range.start <= t.start && SharedPrefix(cut, newText, t.start - range.start)
      && (SharedPrefix(cut, newText, n) ==> range.start + n <= t.start)
  {
    var cut := content[range.start..range.end];
    hide SuffixLen, SharedPrefix, IsBoundary;
    if SharedPrefix(cut, newText, n) {
      assert n <= |cut| by { SharedFits(cut, newText, n); }
      PrefixLenIsLongest(cut, newText, |cut|, n);
    }
  }

  lemma TrimKeepsAffixes(before: Bytes, cut: Bytes, after: Bytes, fill: Bytes) returns (pre: Bytes, post: Bytes)
    requires Valid(before) && Valid(cut) && Valid(after) && Valid(fill)
    ensures var t := TrimParts(cut, fill);
      && Describes(Trimmed(|before + t.head|, t.removed, t.inserted), pre, post,
                   before + cut + after, before + fill + after)
      && NoSharedHead(t.removed, t.inserted) && NoSharedTail(t.removed, t.inserted)
      && ((t.removed == [] && t.inserted == []) <==> before + fill + after == before + cut + after)
  {
    hide TrimParts, IsBoundary, Valid, NoSharedHead, NoSharedTail;
    PartsAreWhole(cut, fill);
    PartsRejoin(cut, fill);
    var t := TrimParts(cut, fill);
    ValidConcat(before, t.head);
    ValidConcat(t.tail, after);
    pre, post := before + t.head, t.tail + after;
    Regroup(before, t.head, t.removed, t.tail, after);
    Regroup(before, t.head, t.inserted, t.tail, after);
    SameWhenNothing(pre, post, t.removed, t.inserted);
  }

  lemma Regroup(before: Bytes, head: Bytes, mid: Bytes, tail: Bytes, after: Bytes)
    ensures before + (head + mid + tail) + after == (before + head) + mid + (tail + after)
  {
  }

  lemma SameWhenNothing(pre: Bytes, post: Bytes, removed: Bytes, inserted: Bytes)
    requires NoSharedHead(removed, inserted)
    ensures (removed == [] && inserted == []) <==> pre + removed + post == pre + inserted + post
  {
    if pre + removed + post == pre + inserted + post {
      var n := |removed|;
      assert |inserted| == n;
      assert (pre + removed + post)[|pre|..|pre| + n] == removed;
      assert (pre + inserted + post)[|pre|..|pre| + n] == inserted;
      assert removed[..n] == inserted[..n];
      assert n > 0 ==> SharedPrefix(removed, inserted, n);
    }
  }
}
