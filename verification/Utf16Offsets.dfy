/** Conversion between byte offsets and UTF-16 offsets (section 2.1 of RFC 2781),
    as the text field does it for the platform's input methods. */
module Utf16Offsets {
  import opened Utf8
  import Utf8Codec

  /** Code units of a character: a surrogate pair exactly for the four-byte ones. */
  function Units(charLen: nat): nat {
    if charLen == 4 then 2 else 1
  }

  /** Length of a string in UTF-16 code units. */
  function Utf16Len(s: Bytes): nat
    requires Valid(s)
  {
    if s == [] then 0 else Units(CharLen(s)) + Utf16Len(s[CharLen(s)..])
  }

  /** It is the number of code units the text decodes to. */
  lemma {:induction false} LenIsUnits(s: Bytes)
    requires Valid(s)
    ensures Utf16Len(s) == |Utf8Codec.Decoded(s)|
    decreases |s|
  {
    if s != [] {
      var n := CharLen(s);
      LenIsUnits(s[n..]);
      CharIsUnits(s);
    }
  }

  /** A four-byte character is above the basic plane, and every other is in it. */
  lemma CharIsUnits(s: Bytes)
    requires CharLen(s) > 0
    ensures Utf8Codec.IsScalar(Utf8Codec.ScalarAt(s))
    ensures |Utf8Codec.UnitsOf(Utf8Codec.ScalarAt(s))| == Units(CharLen(s))
  {
    Utf8Codec.CharPlane(s);
  }

  /** Saturating subtraction. */
  function Minus(a: nat, b: nat): nat {
    if a <= b then 0 else a - b
  }

  /** The byte offset of the first character edge at or after `units` code units. */
  function FromUtf16(s: Bytes, units: nat): (b: nat)
    requires Valid(s)
    ensures b <= |s|
    decreases |s|
  {
    if s == [] || units == 0 then 0
    else CharLen(s) + FromUtf16(s[CharLen(s)..], Minus(units, Units(CharLen(s))))
  }

  /** The code units of the characters that start before byte `offset`. */
  function ToUtf16(s: Bytes, offset: nat): nat
    requires Valid(s)
    decreases |s|
  {
    if s == [] || offset == 0 then 0
    else Units(CharLen(s)) + ToUtf16(s[CharLen(s)..], Minus(offset, CharLen(s)))
  }

  method OffsetFromUtf16(content: Bytes, offset: nat) returns (utf8Offset: nat)
    requires Valid(content)
    ensures utf8Offset == FromUtf16(content, offset)
  {
    NothingConverted(content, offset);
    hide CharLen, FromUtf16, Valid;
    utf8Offset := 0;
    var utf16Count: nat := 0;
    while utf8Offset < |content|
      invariant utf8Offset <= |content| && Valid(content[utf8Offset..])
      invariant FromUtf16(content, offset) == utf8Offset + FromUtf16(content[utf8Offset..], Minus(offset, utf16Count))
    {
      if utf16Count >= offset {
        break;
      }
      ghost var rest := content[utf8Offset..];
      var n := CharLen(content[utf8Offset..]);
      CharFromUtf16(rest, Minus(offset, utf16Count));
      assert rest[n..] == content[utf8Offset + n..];
      utf16Count := utf16Count + Units(n);
      utf8Offset := utf8Offset + n;
    }
  }

  method OffsetToUtf16(content: Bytes, offset: nat) returns (utf16Offset: nat)
    requires Valid(content)
    ensures utf16Offset == ToUtf16(content, offset)
  {
    hide *;
    ToUtf16Begins(content, offset);
    utf16Offset := 0;
    var utf8Count: nat := 0;
    while utf8Count < |content|
      invariant utf8Count <= |content| && Valid(content[utf8Count..])
      invariant ToUtf16(content, offset) == utf16Offset + ToUtf16(content[utf8Count..], Minus(offset, utf8Count))
    {
      if utf8Count >= offset {
        break;
      }
      ToUtf16Goes(content, utf8Count, offset);
      var n := CharLen(content[utf8Count..]);
      utf8Count := utf8Count + n;
      utf16Offset := utf16Offset + Units(n);
    }
    ToUtf16Ends(content, utf8Count, offset);
  }

  lemma ToUtf16Begins(s: Bytes, offset: nat)
    requires Valid(s)
    ensures Valid(s[0..]) && ToUtf16(s[0..], Minus(offset, 0)) == ToUtf16(s, offset)
  {
    assert s[0..] == s;
  }

  lemma ToUtf16Goes(s: Bytes, at: nat, offset: nat)
    requires at < |s| && Valid(s[at..]) && at < offset
    ensures var n := CharLen(s[at..]);
      && 0 < n <= |s| - at && Valid(s[at + n..])
      && ToUtf16(s[at..], Minus(offset, at)) == Units(n) + ToUtf16(s[at + n..], Minus(offset, at + n))
  {
    var rest := s[at..];
    CharToUtf16(rest, Minus(offset, at));
    assert rest[CharLen(rest)..] == s[at + CharLen(rest)..];
  }

  lemma ToUtf16Ends(s: Bytes, at: nat, offset: nat)
    requires at <= |s| && Valid(s[at..]) && (at == |s| || offset <= at)
    ensures ToUtf16(s[at..], Minus(offset, at)) == 0
  {
  }

  lemma NothingConverted(s: Bytes, n: nat)
    requires Valid(s)
    ensures s[0..] == s && Valid([]) && ToUtf16([], n) == 0 && FromUtf16([], n) == 0
    ensures s[|s|..] == [] && ToUtf16(s, 0) == 0 && FromUtf16(s, 0) == 0
  {
  }

  lemma CharFromUtf16(s: Bytes, units: nat)
    requires Valid(s) && s != [] && units > 0
    ensures 0 < CharLen(s) <= |s| && Valid(s[CharLen(s)..])
    ensures FromUtf16(s, units) == CharLen(s) + FromUtf16(s[CharLen(s)..], Minus(units, Units(CharLen(s))))
  {
    hide CharLen;
  }

  lemma CharToUtf16(s: Bytes, offset: nat)
    requires Valid(s) && s != [] && offset > 0
    ensures 0 < CharLen(s) <= |s| && Valid(s[CharLen(s)..])
    ensures ToUtf16(s, offset) == Units(CharLen(s)) + ToUtf16(s[CharLen(s)..], Minus(offset, CharLen(s)))
  {
    hide CharLen;
  }

  /** The first character of a string and its rest, seen from a boundary past it. */
  lemma HeadBeforeBoundary(s: Bytes, b: nat)
    requires Valid(s) && IsBoundary(s, b) && 0 < b
    ensures s != [] && CharLen(s) <= b && IsBoundary(s[CharLen(s)..], b - CharLen(s))
    ensures Valid(s[..b]) && CharLen(s[..b]) == CharLen(s)
    ensures s[..b][CharLen(s)..] == s[CharLen(s)..][..b - CharLen(s)]
  {
    ValidSplit(s, b);
    CharLenOfPrefix(s, b);
  }

  /** On a boundary, the UTF-16 offset is the UTF-16 length of the text before it. */
  lemma {:induction false} ToUtf16Counts(s: Bytes, b: nat)
    requires Valid(s) && IsBoundary(s, b)
    ensures Valid(s[..b]) && ToUtf16(s, b) == Utf16Len(s[..b])
    decreases |s|
  {
    if b > 0 {
      HeadBeforeBoundary(s, b);
      ToUtf16Counts(s[CharLen(s)..], b - CharLen(s));
    }
  }

  /** The edge found is a character boundary, at or past the units asked for or at
      the end, and the edge before it is short of them. */
  lemma {:induction false} FromUtf16IsFirst(s: Bytes, units: nat)
    requires Valid(s)
    ensures var b := FromUtf16(s, units);
      && IsBoundary(s, b)
      && (units <= ToUtf16(s, b) || b == |s|)
      && (forall c :: 0 <= c < b && IsBoundary(s, c) ==> ToUtf16(s, c) < units)
    decreases |s|
  {
    if s != [] && units > 0 {
      var n := CharLen(s);
      var rest := s[n..];
      FromUtf16IsFirst(rest, Minus(units, Units(n)));
      forall c | 0 <= c < FromUtf16(s, units) && IsBoundary(s, c)
        ensures ToUtf16(s, c) < units
      {
        if c > 0 {
          HeadBeforeBoundary(s, c);
        }
      }
    }
  }

  /** Bytes to units and back is the identity on character boundaries. */
  lemma {:induction false} RoundTrip(s: Bytes, b: nat)
    requires Valid(s) && IsBoundary(s, b)
    ensures FromUtf16(s, ToUtf16(s, b)) == b
    decreases |s|
  {
    if b > 0 {
      HeadBeforeBoundary(s, b);
      RoundTrip(s[CharLen(s)..], b - CharLen(s));
    }
  }

  /** Units to bytes and back is the identity, except that an offset between the two
      halves of a surrogate pair moves up past the pair, and one past the end moves
      down to the end. */
  lemma {:induction false} RoundsUp(s: Bytes, units: nat)
    requires Valid(s)
    ensures var back := ToUtf16(s, FromUtf16(s, units));
      && (units <= Utf16Len(s) ==> back == units || back == units + 1)
      && (units > Utf16Len(s) ==> back == Utf16Len(s))
      && (back == units <==> exists b :: 0 <= b <= |s| && IsBoundary(s, b) && ToUtf16(s, b) == units)
    decreases |s|
  {
    var b := FromUtf16(s, units);
    FromUtf16IsFirst(s, units);
    if s != [] && units > 0 {
      var n := CharLen(s);
      RoundsUp(s[n..], Minus(units, Units(n)));
    }
    if exists c :: 0 <= c <= |s| && IsBoundary(s, c) && ToUtf16(s, c) == units {
      var c :| 0 <= c <= |s| && IsBoundary(s, c) && ToUtf16(s, c) == units;
      RoundTrip(s, c);
    }
  }

  lemma {:induction false} FromUtf16Monotone(s: Bytes, u: nat, v: nat)
    requires Valid(s) && u <= v
    ensures FromUtf16(s, u) <= FromUtf16(s, v)
    decreases |s|
  {
    if s != [] && u > 0 {
      var k := Units(CharLen(s));
      FromUtf16Monotone(s[CharLen(s)..], Minus(u, k), Minus(v, k));
    }
  }

  lemma {:induction false} ToUtf16Monotone(s: Bytes, i: nat, j: nat)
    requires Valid(s) && i <= j
    ensures ToUtf16(s, i) <= ToUtf16(s, j) <= Utf16Len(s)
    decreases |s|
  {
    if s != [] {
      var n := CharLen(s);
      ToUtf16Monotone(s[n..], Minus(i, n), Minus(j, n));
    }
  }

  /** Adding in UTF-16 before converting is the same as converting over the text
      after the base: what a range relative to the marked text means. */
  lemma {:induction false} RelativeOffset(s: Bytes, base: nat, units: nat)
    requires Valid(s) && IsBoundary(s, base)
    ensures Valid(s[base..])
    ensures FromUtf16(s, ToUtf16(s, base) + units) == base + FromUtf16(s[base..], units)
    decreases |s|
  {
    hide IsBoundary, FromUtf16, CharLen;
    ValidSplit(s, base);
    if base == 0 {
      assert s[0..] == s && ToUtf16(s, 0) == 0;
    } else {
      hide ToUtf16, Valid;
      HeadBeforeBoundary(s, base);
      RelativeOffset(s[CharLen(s)..], base - CharLen(s), units);
      OneCharacterFurther(s, base, units);
    }
  }

  lemma OneCharacterFurther(s: Bytes, base: nat, units: nat)
    requires Valid(s) && s != [] && CharLen(s) <= base <= |s|
    ensures s[base..] == s[CharLen(s)..][base - CharLen(s)..]
    ensures FromUtf16(s, ToUtf16(s, base) + units)
         == CharLen(s) + FromUtf16(s[CharLen(s)..], ToUtf16(s[CharLen(s)..], base - CharLen(s)) + units)
  {
    hide IsBoundary, CharLen;
  }

  function RangeFromUtf16(s: Bytes, r: Range): Range
    requires Valid(s)
  {
    Range(FromUtf16(s, r.start), FromUtf16(s, r.end))
  }

  function RangeFromRelativeUtf16(s: Bytes, base: nat, r: Range): Range
    requires Valid(s)
  {
    RangeFromUtf16(s, Range(ToUtf16(s, base) + r.start, ToUtf16(s, base) + r.end))
  }

  /** Whatever the platform asks for, what is sliced lies on character boundaries. */
  lemma ConvertedRangesAreSafe(s: Bytes, r: Range)
    requires Valid(s) && r.start <= r.end
    ensures OnBoundaries(s, RangeFromUtf16(s, r))
  {
    FromUtf16IsFirst(s, r.start);
    FromUtf16IsFirst(s, r.end);
    FromUtf16Monotone(s, r.start, r.end);
  }

  /** A range relative to a base never reaches back before the base. */
  lemma RelativeRangesAreSafe(s: Bytes, base: nat, r: Range)
    requires Valid(s) && IsBoundary(s, base) && r.start <= r.end
    ensures OnBoundaries(s, RangeFromRelativeUtf16(s, base, r))
    ensures base <= RangeFromRelativeUtf16(s, base, r).start
  {
    hide ToUtf16, FromUtf16, IsBoundary, Valid, CharLen;
    ConvertedRangesAreSafe(s, Range(ToUtf16(s, base) + r.start, ToUtf16(s, base) + r.end));
    RelativeOffset(s, base, r.start);
  }
}
