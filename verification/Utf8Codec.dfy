/** The JavaScript kernel's UTF-8 encoder and decoder. Strings are sequences of UTF-16
    code units (section 2 of RFC 2781), and numbers under bitwise operators are 32 bits wide. */
module Utf8Codec {
  import opened Basics
  import opened Utf8

  type Unit = bv16
  type Int32 = bv32

  const REPLACEMENT: Int32 := 0xFFFD

  predicate IsHigh(u: Int32) {
    0xD800 <= u <= 0xDBFF
  }

  predicate IsLow(u: Int32) {
    0xDC00 <= u <= 0xDFFF
  }

  /** A Unicode scalar value. */
  predicate IsScalar(c: Int32) {
    c <= 0x10FFFF && !(0xD800 <= c <= 0xDFFF)
  }

  /** `charCodeAt`. */
  function Code(u: Unit): Int32 {
    u as Int32
  }

  function Joined(high: Int32, low: Int32): Int32 {
    0x10000 + ((high - 0xD800) << 10) + (low - 0xDC00)
  }

  /** The scalar at the head of a string, unpaired surrogates replaced, and its length in units. */
  function HeadScalar(s: seq<Unit>): (r: (Int32, nat))
    requires s != []
    ensures 1 <= r.1 <= 2 && r.1 <= |s| && IsScalar(r.0)
  {
    var u := Code(s[0]);
    if IsHigh(u) then
      if |s| > 1 && IsLow(Code(s[1])) then (Joined(u, Code(s[1])), 2) else (REPLACEMENT, 1)
    else if IsLow(u) then (REPLACEMENT, 1)
    else (u, 1)
  }

  function TailByte(bits: Int32): Byte {
    (0x80 | (bits & 0x3F)) as Byte
  }

  /** The bytes of one scalar (section 3 of RFC 3629). */
  function EncodeScalar(c: Int32): (b: Bytes)
    requires IsScalar(c)
    ensures 1 <= |b| <= 4
  {
    if c <= 0x7F then [c as Byte]
    else if c <= 0x7FF then [(0xC0 | (c >> 6)) as Byte, TailByte(c)]
    else if c <= 0xFFFF then [(0xE0 | (c >> 12)) as Byte, TailByte(c >> 6), TailByte(c)]
    else [(0xF0 | (c >> 18)) as Byte, TailByte(c >> 12), TailByte(c >> 6), TailByte(c)]
  }

  /** The surrogate pair of a scalar above the basic plane. */
  function HighOf(c: Int32): (u: Int32)
    requires 0x10000 <= c <= 0x10FFFF
    ensures u <= 0xFFFF
  {
    0xD800 + ((c - 0x10000) >> 10)
  }

  function LowOf(c: Int32): (u: Int32)
    requires 0x10000 <= c <= 0x10FFFF
    ensures u <= 0xFFFF
  {
    0xDC00 + ((c - 0x10000) & 0x3FF)
  }

  /** `String.fromCodePoint`. */
  function UnitsOf(c: Int32): (u: seq<Unit>)
    requires IsScalar(c)
    ensures 1 <= |u| <= 2
  {
    if c <= 0xFFFF then [c as Unit] else [HighOf(c) as Unit, LowOf(c) as Unit]
  }

  function Encoded(s: seq<Unit>): Bytes {
    if s == [] then []
    else
      var (c, n) := HeadScalar(s);
      EncodeScalar(c) + Encoded(s[n..])
  }

  /** The string with each unpaired surrogate replaced by U+FFFD. */
  function Repaired(s: seq<Unit>): seq<Unit> {
    if s == [] then []
    else
      var (c, n) := HeadScalar(s);
      UnitsOf(c) + Repaired(s[n..])
  }

  /** Continuation bytes a first byte announces. */
  function Announced(first: Byte): (n: nat)
    ensures n <= 3
  {
    if first <= 0x7F then 0 else if first <= 0xDF then 1 else if first <= 0xEF then 2 else 3
  }

  predicate IsLead(first: Byte) {
    first <= 0x7F || 0xC2 <= first <= 0xF4
  }

  /** What a first byte contributes, by how many continuation bytes follow. */
  function LeadBits(first: Byte, following: nat): Int32 {
    if following == 0 then first as Int32
    else if following == 1 then (first & 0x1F) as Int32
    else if following == 2 then (first & 0x0F) as Int32
    else (first & 0x07) as Int32
  }

  /** One more continuation byte. */
  function AddTail(bits: Int32, tail: Byte): Int32 {
    (bits << 6) | ((tail & 0x3F) as Int32)
  }

  /** The scalar of a well-formed character. */
  function ScalarAt(b: Bytes): Int32
    requires CharLen(b) > 0
  {
    match CharLen(b)
    case 1 => b[0] as Int32
    case 2 => AddTail(LeadBits(b[0], 1), b[1])
    case 3 => AddTail(AddTail(LeadBits(b[0], 2), b[1]), b[2])
    case _ => AddTail(AddTail(AddTail(LeadBits(b[0], 3), b[1]), b[2]), b[3])
  }

  /** Bytes given up for one replacement character where no well-formed character starts. */
  function Skipped(b: Bytes): (n: nat)
    requires b != []
    ensures 1 <= n <= |b|
  {
    var k := Announced(b[0]);
    if !IsLead(b[0]) then 1
    else if 1 + k > |b| then |b|
    else if exists j :: 1 <= j <= k && !IsTail(b[j]) then 1
    else 1 + k
  }

  function Decoded(b: Bytes): seq<Unit> {
    if b == [] then []
    else if CharLen(b) > 0 then
      ScalarAtIsScalar(b);
      UnitsOf(ScalarAt(b)) + Decoded(b[CharLen(b)..])
    else UnitsOf(REPLACEMENT) + Decoded(b[Skipped(b)..])
  }

  // ----- single characters, bit by bit

  lemma TwoByteBits(c: Int32, b0: Byte, b1: Byte)
    requires 0x80 <= c <= 0x7FF && b0 == (0xC0 | (c >> 6)) as Byte && b1 == TailByte(c)
    ensures 0xC2 <= b0 <= 0xDF && IsTail(b1) && AddTail(LeadBits(b0, 1), b1) == c
  {
  }

  lemma ThreeByteBits(c: Int32, b0: Byte, b1: Byte, b2: Byte)
    requires 0x800 <= c <= 0xFFFF && IsScalar(c)
    requires b0 == (0xE0 | (c >> 12)) as Byte && b1 == TailByte(c >> 6) && b2 == TailByte(c)
    ensures IsThreeByteHead(b0, b1) && IsTail(b2) && AddTail(AddTail(LeadBits(b0, 2), b1), b2) == c
  {
  }

  lemma FourByteBits(c: Int32, b0: Byte, b1: Byte, b2: Byte, b3: Byte)
    requires 0x10000 <= c <= 0x10FFFF
    requires b0 == (0xF0 | (c >> 18)) as Byte && b1 == TailByte(c >> 12) && b2 == TailByte(c >> 6) && b3 == TailByte(c)
    ensures IsFourByteHead(b0, b1) && IsTail(b2) && IsTail(b3)
    ensures AddTail(AddTail(AddTail(LeadBits(b0, 3), b1), b2), b3) == c
  {
  }

  lemma TwoBytesBack(b0: Byte, b1: Byte)
    requires 0xC2 <= b0 <= 0xDF && IsTail(b1)
    ensures var c := AddTail(LeadBits(b0, 1), b1);
      0x80 <= c <= 0x7FF && (0xC0 | (c >> 6)) as Byte == b0 && TailByte(c) == b1
  {
  }

  lemma ThreeBytesBack(b0: Byte, b1: Byte, b2: Byte)
    requires IsThreeByteHead(b0, b1) && IsTail(b2)
    ensures var c := AddTail(AddTail(LeadBits(b0, 2), b1), b2);
      0x800 <= c <= 0xFFFF && IsScalar(c) && (0xE0 | (c >> 12)) as Byte == b0 && TailByte(c >> 6) == b1
        && TailByte(c) == b2
  {
  }

  lemma FourBytesBack(b0: Byte, b1: Byte, b2: Byte, b3: Byte)
    requires IsFourByteHead(b0, b1) && IsTail(b2) && IsTail(b3)
    ensures var c := AddTail(AddTail(AddTail(LeadBits(b0, 3), b1), b2), b3);
      && 0x10000 <= c <= 0x10FFFF
      && (0xF0 | (c >> 18)) as Byte == b0 && TailByte(c >> 12) == b1 && TailByte(c >> 6) == b2 && TailByte(c) == b3
  {
  }

  /** Every well-formed character is the encoding of its scalar. */
  lemma ScalarAtIsScalar(b: Bytes)
    requires CharLen(b) > 0
    ensures IsScalar(ScalarAt(b))
    ensures EncodeScalar(ScalarAt(b)) == b[..CharLen(b)]
  {
    hide AddTail, LeadBits, TailByte, IsThreeByteHead, IsFourByteHead, IsTail, EncodeScalar;
    var n := CharLen(b);
    if n == 1 {
      OneByteBack(b[0]);
      assert b[..1] == [b[0]];
    } else if n == 2 {
      TwoBytesEncoded(b[0], b[1]);
      assert b[..2] == [b[0], b[1]];
    } else if n == 3 {
      ThreeBytesEncoded(b[0], b[1], b[2]);
      assert b[..3] == [b[0], b[1], b[2]];
    } else {
      FourBytesEncoded(b[0], b[1], b[2], b[3]);
      assert b[..4] == [b[0], b[1], b[2], b[3]];
    }
  }

  /** Exactly the four-byte characters are above the basic plane. */
  lemma CharPlane(b: Bytes)
    requires CharLen(b) > 0
    ensures IsScalar(ScalarAt(b)) && (ScalarAt(b) <= 0xFFFF <==> CharLen(b) < 4)
    ensures |UnitsOf(ScalarAt(b))| == if CharLen(b) < 4 then 1 else 2
  {
    ScalarAtIsScalar(b);
    hide ScalarAt, CharLen, HighOf, LowOf, TailByte;
    EncodedLen(ScalarAt(b));
  }

  lemma EncodedLen(c: Int32)
    requires IsScalar(c)
    ensures |EncodeScalar(c)| == 4 <==> c > 0xFFFF
  {
    hide TailByte;
  }

  lemma OneByteBack(b0: Byte)
    requires b0 <= 0x7F
    ensures IsScalar(b0 as Int32) && EncodeScalar(b0 as Int32) == [b0]
  {
    assert ((b0 as Int32) as Byte) == b0 && (b0 as Int32) <= 0x7F;
  }

  lemma TwoBytesEncoded(b0: Byte, b1: Byte)
    requires 0xC2 <= b0 <= 0xDF && IsTail(b1)
    ensures var c := AddTail(LeadBits(b0, 1), b1); IsScalar(c) && EncodeScalar(c) == [b0, b1]
  {
    TwoBytesBack(b0, b1);
    hide AddTail, LeadBits, TailByte, IsTail;
  }

  lemma ThreeBytesEncoded(b0: Byte, b1: Byte, b2: Byte)
    requires IsThreeByteHead(b0, b1) && IsTail(b2)
    ensures var c := AddTail(AddTail(LeadBits(b0, 2), b1), b2); IsScalar(c) && EncodeScalar(c) == [b0, b1, b2]
  {
    ThreeBytesBack(b0, b1, b2);
    hide AddTail, LeadBits, TailByte, IsThreeByteHead, IsTail;
  }

  lemma FourBytesEncoded(b0: Byte, b1: Byte, b2: Byte, b3: Byte)
    requires IsFourByteHead(b0, b1) && IsTail(b2) && IsTail(b3)
    ensures var c := AddTail(AddTail(AddTail(LeadBits(b0, 3), b1), b2), b3);
      IsScalar(c) && EncodeScalar(c) == [b0, b1, b2, b3]
  {
    FourBytesBack(b0, b1, b2, b3);
    hide AddTail, LeadBits, TailByte, IsFourByteHead, IsTail;
  }

  /** Every scalar's bytes are one well-formed character, and it decodes to the scalar. */
  lemma EncodedScalarIsChar(c: Int32, rest: Bytes)
    requires IsScalar(c)
    ensures CharLen(EncodeScalar(c) + rest) == |EncodeScalar(c)|
    ensures ScalarAt(EncodeScalar(c) + rest) == c
  {
    hide AddTail, LeadBits, TailByte;
    var e := EncodeScalar(c);
    var b := e + rest;
    assert forall k :: 0 <= k < |e| ==> b[k] == e[k];
    if c <= 0x7F {
    } else if c <= 0x7FF {
      TwoByteBits(c, e[0], e[1]);
    } else if c <= 0xFFFF {
      ThreeByteBits(c, e[0], e[1], e[2]);
    } else {
      FourByteBits(c, e[0], e[1], e[2], e[3]);
    }
  }

  lemma PairKinds(c: Int32)
    requires 0x10000 <= c <= 0x10FFFF
    ensures IsHigh(HighOf(c)) && IsLow(LowOf(c))
  {
  }

  lemma PairOfScalar(c: Int32)
    requires 0x10000 <= c <= 0x10FFFF
    ensures (HighOf(c) - 0xD800) << 10 == (c - 0x10000) & 0xFFC00
    ensures LowOf(c) - 0xDC00 == (c - 0x10000) & 0x3FF
  {
  }

  lemma MaskedSum(x: Int32)
    requires x <= 0xFFFFF
    ensures (x & 0xFFC00) + (x & 0x3FF) == x
  {
  }

  lemma PairJoins(c: Int32)
    requires 0x10000 <= c <= 0x10FFFF
    ensures Joined(HighOf(c), LowOf(c)) == c
  {
    PairOfScalar(c);
    MaskedSum(c - 0x10000);
    hide HighOf, LowOf, IsHigh, IsLow;
  }

  lemma UnitRoundTrip(u: Int32)
    requires u <= 0xFFFF
    ensures (u as Unit) as Int32 == u
  {
  }

  lemma PairHead(s: seq<Unit>, high: Int32, low: Int32)
    requires |s| >= 2 && Code(s[0]) == high && Code(s[1]) == low
    requires IsHigh(high) && IsLow(low)
    ensures HeadScalar(s) == (Joined(high, low), 2)
  {
    hide Joined;
  }

  lemma PlainHead(u: Unit, rest: seq<Unit>)
    requires !IsHigh(Code(u)) && !IsLow(Code(u))
    ensures HeadScalar([u] + rest) == (Code(u), 1)
    ensures ([u] + rest)[1..] == rest
  {
    hide Joined;
  }

  /** The units of a scalar are read back as that scalar. */
  lemma UnitsAreScalar(c: Int32, rest: seq<Unit>)
    requires IsScalar(c)
    ensures HeadScalar(UnitsOf(c) + rest) == (c, |UnitsOf(c)|)
    ensures (UnitsOf(c) + rest)[|UnitsOf(c)|..] == rest
  {
    hide Joined, IsHigh, IsLow, HeadScalar, HighOf, LowOf;
    if c <= 0xFFFF {
      SmallUnit(c);
      PlainHead(c as Unit, rest);
    } else {
      LargeScalarHead(c, rest);
    }
  }

  lemma LargeScalarHead(c: Int32, rest: seq<Unit>)
    requires 0x10000 <= c <= 0x10FFFF
    ensures HeadScalar([HighOf(c) as Unit, LowOf(c) as Unit] + rest) == (c, 2)
    ensures ([HighOf(c) as Unit, LowOf(c) as Unit] + rest)[2..] == rest
  {
    hide Joined, IsHigh, IsLow, HeadScalar, HighOf, LowOf;
    var s := [HighOf(c) as Unit, LowOf(c) as Unit] + rest;
    PairKinds(c);
    UnitRoundTrip(HighOf(c));
    UnitRoundTrip(LowOf(c));
    PairHead(s, HighOf(c), LowOf(c));
    PairJoins(c);
  }

  lemma SmallUnit(c: Int32)
    requires IsScalar(c) && c <= 0xFFFF
    ensures ((c as Unit) as Int32) == c && !IsHigh(c) && !IsLow(c)
  {
  }

  // ----- the encoder

  method Utf8Encode(input: seq<Unit>) returns (output: Bytes)
    ensures output == Encoded(input)
  {
    hide EncodeScalar, HeadScalar;
    output := [];
    var index := 0;
    assert input[0..] == input;
    while index < |input|
      invariant index <= |input|
      invariant output + Encoded(input[index..]) == Encoded(input)
    {
      var codePoint, units := NextCodePoint(input, index);
      var bytes := EncodeCodePoint(codePoint);
      EncodesHead(output, input, index);
      output := output + bytes;
      index := index + units;
    }
  }

  lemma EncodesHead(before: Bytes, input: seq<Unit>, i: nat)
    requires i < |input|
    ensures var (c, n) := HeadScalar(input[i..]);
      before + Encoded(input[i..]) == (before + EncodeScalar(c)) + Encoded(input[i + n..])
  {
    hide EncodeScalar, HeadScalar;
    var rest := input[i..];
    var (c, n) := HeadScalar(rest);
    assert rest[n..] == input[i + n..];
    assert before + (EncodeScalar(c) + Encoded(rest[n..])) == (before + EncodeScalar(c)) + Encoded(rest[n..]);
  }

  /** Reads one code point at `index`, joining a surrogate pair. */
  method NextCodePoint(input: seq<Unit>, index: nat) returns (codePoint: Int32, units: nat)
    requires index < |input|
    ensures (codePoint, units) == HeadScalar(input[index..])
  {
    hide HeadScalar, Joined, IsHigh, IsLow, Code;
    ghost var s := input[index..];
    HeadScalarIs(s);
    assert s[0] == input[index] && (index + 1 < |input| ==> s[1] == input[index + 1]);
    var first := Code(input[index]);
    codePoint, units := first, 1;
    var high := InHighRange(first);
    var low := InLowRange(first);
    if high {
      codePoint := 0xFFFD;
      if index + 1 < |input| {
        var second := Code(input[index + 1]);
        var paired := InLowRange(second);
        if paired {
          codePoint := Join(first, second);
          units := 2;
        }
      }
    } else if low {
      codePoint := 0xFFFD;
    }
  }

  method InHighRange(u: Int32) returns (high: bool)
    ensures high <==> IsHigh(u)
  {
    high := u >= 0xD800 && u <= 0xDBFF;
  }

  method InLowRange(u: Int32) returns (low: bool)
    ensures low <==> IsLow(u)
  {
    low := u >= 0xDC00 && u <= 0xDFFF;
  }

  /** The sum that joins a surrogate pair. */
  method Join(high: Int32, low: Int32) returns (codePoint: Int32)
    ensures codePoint == Joined(high, low)
  {
    codePoint := 0x10000 + ((high - 0xD800) << 10) + (low - 0xDC00);
  }

  /** The head of a string, by the kinds of its first two units. */
  lemma HeadScalarIs(s: seq<Unit>)
    requires s != []
    ensures var u := Code(s[0]);
      && (!IsHigh(u) && !IsLow(u) ==> HeadScalar(s) == (u, 1))
      && (IsLow(u) ==> HeadScalar(s) == (REPLACEMENT, 1))
      && (IsHigh(u) && (|s| == 1 || !IsLow(Code(s[1]))) ==> HeadScalar(s) == (REPLACEMENT, 1))
      && (IsHigh(u) && |s| > 1 && IsLow(Code(s[1])) ==> HeadScalar(s) == (Joined(u, Code(s[1])), 2))
  {
    hide Joined;
  }

  /** The bytes pushed for one code point. */
  method EncodeCodePoint(codePoint: Int32) returns (bytes: Bytes)
    requires IsScalar(codePoint)
    ensures bytes == EncodeScalar(codePoint)
  {
    if codePoint <= 0x7F {
      bytes := [codePoint as Byte];
    } else if codePoint <= 0x7FF {
      bytes := [(0xC0 | (codePoint >> 6)) as Byte, (0x80 | (codePoint & 0x3F)) as Byte];
    } else if codePoint <= 0xFFFF {
      bytes := [(0xE0 | (codePoint >> 12)) as Byte, (0x80 | ((codePoint >> 6) & 0x3F)) as Byte,
                (0x80 | (codePoint & 0x3F)) as Byte];
    } else {
      bytes := [(0xF0 | (codePoint >> 18)) as Byte, (0x80 | ((codePoint >> 12) & 0x3F)) as Byte,
                (0x80 | ((codePoint >> 6) & 0x3F)) as Byte, (0x80 | (codePoint & 0x3F)) as Byte];
    }
  }

  // ----- the decoder

  /** The code point after the first byte and `j` continuation bytes of `k`. */
  function Gathered(b: Bytes, k: nat, j: nat): Int32
    requires j < |b|
  {
    if j == 0 then LeadBits(b[0], k) else AddTail(Gathered(b, k, j - 1), b[j])
  }

  /** The decoder's range test after all continuation bytes. */
  predicate Accepted(codePoint: Int32, remaining: nat) {
    !(|| (remaining == 1 && codePoint < 0x80)
      || (remaining == 2 && codePoint < 0x800)
      || (remaining == 3 && codePoint < 0x10000)
      || codePoint > 0x10FFFF
      || 0xD800 <= codePoint <= 0xDFFF)
  }

  lemma TwoAccepted(b0: Byte, b1: Byte)
    requires 0xC2 <= b0 <= 0xDF && IsTail(b1)
    ensures Accepted(AddTail(LeadBits(b0, 1), b1), 1)
  {
  }

  lemma ThreeAccepted(b0: Byte, b1: Byte, b2: Byte)
    requires 0xE0 <= b0 <= 0xEF && IsTail(b1) && IsTail(b2)
    ensures Accepted(AddTail(AddTail(LeadBits(b0, 2), b1), b2), 2) <==> IsThreeByteHead(b0, b1)
  {
  }

  lemma FourAccepted(b0: Byte, b1: Byte, b2: Byte, b3: Byte)
    requires 0xF0 <= b0 <= 0xF4 && IsTail(b1) && IsTail(b2) && IsTail(b3)
    ensures Accepted(AddTail(AddTail(AddTail(LeadBits(b0, 3), b1), b2), b3), 3) <==> IsFourByteHead(b0, b1)
  {
  }

  predicate TailsFollow(b: Bytes, k: nat)
    requires k < |b|
  {
    forall j :: 1 <= j <= k ==> IsTail(b[j])
  }

  lemma OneAccepted(b0: Byte)
    requires b0 <= 0x7F
    ensures Accepted(b0 as Int32, 0)
  {
  }

  /** The range test picks out exactly the well-formed characters, and then the
      gathered value is the scalar. */
  lemma AcceptsWellFormed(b: Bytes)
    requires b != [] && IsLead(b[0]) && Announced(b[0]) < |b| && TailsFollow(b, Announced(b[0]))
    ensures var k := Announced(b[0]);
      && (Accepted(Gathered(b, k, k), k) <==> CharLen(b) > 0)
      && (CharLen(b) > 0 ==> CharLen(b) == k + 1 && ScalarAt(b) == Gathered(b, k, k))
  {
    var k := Announced(b[0]);
    if k == 0 {
      OneAccepted(b[0]);
    } else if k == 1 {
      TwoAccepted(b[0], b[1]);
      hide AddTail, LeadBits, Accepted;
      assert Gathered(b, 1, 1) == AddTail(Gathered(b, 1, 0), b[1]);
    } else if k == 2 {
      ThreeAccepted(b[0], b[1], b[2]);
      hide AddTail, LeadBits, Accepted, IsThreeByteHead;
      assert Gathered(b, 2, 2) == AddTail(AddTail(Gathered(b, 2, 0), b[1]), b[2]);
    } else {
      FourAccepted(b[0], b[1], b[2], b[3]);
      hide AddTail, LeadBits, Accepted, IsFourByteHead;
      assert Gathered(b, 3, 3) == AddTail(Gathered(b, 3, 2), b[3]);
      assert Gathered(b, 3, 2) == AddTail(Gathered(b, 3, 1), b[2]);
      assert Gathered(b, 3, 1) == AddTail(Gathered(b, 3, 0), b[1]);
    }
  }

  /** A byte that leads nothing, a character cut short by the end, or by a byte that
      does not continue it. */
  lemma NotACharacter(b: Bytes)
    requires b != []
    requires !IsLead(b[0]) || 1 + Announced(b[0]) > |b| || !TailsFollow(b, Announced(b[0]))
    ensures CharLen(b) == 0
  {
  }

  method Utf8Decode(bytes: Bytes) returns (output: seq<Unit>)
    ensures output == Decoded(bytes)
  {
    hide CharLen, ScalarAt, UnitsOf, Gathered, Accepted, IsTail, TailsFollow, Decoded, IsLead, Announced, Skipped;
    output := [];
    var index: nat := 0;
    ghost var cutShort := false;
    assert bytes[0..] == bytes;
    while index < |bytes|
      invariant index <= |bytes| && !cutShort
      invariant output + Decoded(bytes[index..]) == Decoded(bytes)
    {
      ghost var start := index;
      var first := bytes[index];
      index := index + 1;
      var known, codePoint, remaining := ReadLead(first);
      if !known {
        SkipsUnknownLead(output, bytes, start);
        output := output + [0xFFFD];
        continue;
      }
      if index + remaining > |bytes| {
        SkipsCutShort(output, bytes, start);
        output := output + [0xFFFD];
        NothingLeft(output, bytes);
        cutShort := true;
        break;
      }
      var valid;
      valid, codePoint := ReadTails(bytes, index, remaining, codePoint);
      if !valid {
        SkipsBadTail(output, bytes, start);
        output := output + [0xFFFD];
        continue;
      }
      index := index + remaining;
      var refused := InRefusedRange(codePoint, remaining);
      TailsDecode(output, bytes, start);
      if refused {
        output := output + [0xFFFD];
      } else {
        output := output + UnitsOf(codePoint);
      }
    }
    if !cutShort {
      NothingLeft(output, bytes);
    }
  }

  lemma NothingLeft(output: seq<Unit>, bytes: Bytes)
    ensures output + Decoded(bytes[|bytes|..]) == output
  {
    assert bytes[|bytes|..] == [];
  }

  /** What the first byte of a character says. */
  method ReadLead(first: Byte) returns (known: bool, codePoint: Int32, remaining: nat)
    ensures known <==> IsLead(first)
    ensures known ==> remaining == Announced(first) && codePoint == LeadBits(first, remaining)
  {
    if first <= 0x7F {
      known, codePoint, remaining := true, first as Int32, 0;
    } else if first >= 0xC2 && first <= 0xDF {
      known, codePoint, remaining := true, (first & 0x1F) as Int32, 1;
    } else if first >= 0xE0 && first <= 0xEF {
      known, codePoint, remaining := true, (first & 0x0F) as Int32, 2;
    } else if first >= 0xF0 && first <= 0xF4 {
      known, codePoint, remaining := true, (first & 0x07) as Int32, 3;
    } else {
      known, codePoint, remaining := false, 0, 0;
    }
  }

  /** Reads `remaining` continuation bytes, or stops at one that is not. */
  method ReadTails(bytes: Bytes, index: nat, remaining: nat, lead: Int32) returns (valid: bool, codePoint: Int32)
    requires 0 < index && index + remaining <= |bytes|
    requires lead == LeadBits(bytes[index - 1], remaining)
    ensures valid <==> TailsFollow(bytes[index - 1..], remaining)
    ensures valid ==> codePoint == Gathered(bytes[index - 1..], remaining, remaining)
  {
    hide LeadBits, AddTail, IsTail;
    ghost var b := bytes[index - 1..];
    valid, codePoint := true, lead;
    var offset: nat := 0;
    while offset < remaining
      invariant offset <= remaining
      invariant TailsFollow(b, offset) && codePoint == Gathered(b, remaining, offset)
    {
      var byte := bytes[index + offset];
      assert byte == b[1 + offset];
      TailTest(byte);
      if byte & 0xC0 != 0x80 {
        valid := false;
        break;
      }
      AddTailIs(codePoint, byte);
      codePoint := (codePoint << 6) | ((byte & 0x3F) as Int32);
      offset := offset + 1;
    }
  }

  /** The test after the continuation bytes. */
  method InRefusedRange(codePoint: Int32, remaining: nat) returns (refused: bool)
    ensures refused <==> !Accepted(codePoint, remaining)
  {
    refused :=
      (remaining == 1 && codePoint < 0x80) ||
      (remaining == 2 && codePoint < 0x800) ||
      (remaining == 3 && codePoint < 0x10000) ||
      codePoint > 0x10FFFF ||
      (codePoint >= 0xD800 && codePoint <= 0xDFFF);
  }

  lemma TailTest(byte: Byte)
    ensures byte & 0xC0 == 0x80 <==> IsTail(byte)
  {
  }

  lemma AddTailIs(bits: Int32, byte: Byte)
    ensures AddTail(bits, byte) == (bits << 6) | ((byte & 0x3F) as Int32)
  {
  }

  lemma ReplacementUnit()
    ensures UnitsOf(REPLACEMENT) == [0xFFFD]
  {
  }

  lemma SkipDecodes(before: seq<Unit>, bytes: Bytes, i: nat, n: nat)
    requires i < |bytes| && CharLen(bytes[i..]) == 0 && Skipped(bytes[i..]) == n
    ensures before + Decoded(bytes[i..]) == (before + [0xFFFD]) + Decoded(bytes[i + n..])
  {
    ReplacementUnit();
    hide CharLen, Skipped, UnitsOf;
    var rest := bytes[i..];
    assert rest[n..] == bytes[i + n..];
    assert before + ([0xFFFD] + Decoded(rest[n..])) == (before + [0xFFFD]) + Decoded(rest[n..]);
  }

  lemma SkipsUnknownLead(before: seq<Unit>, bytes: Bytes, i: nat)
    requires i < |bytes| && !IsLead(bytes[i])
    ensures before + Decoded(bytes[i..]) == (before + [0xFFFD]) + Decoded(bytes[i + 1..])
  {
    NotACharacter(bytes[i..]);
    hide CharLen, Decoded;
    SkipDecodes(before, bytes, i, 1);
  }

  /** The decoder gives up the rest of the input when a character runs past its end. */
  lemma SkipsCutShort(before: seq<Unit>, bytes: Bytes, i: nat)
    requires i < |bytes| && IsLead(bytes[i]) && i + 1 + Announced(bytes[i]) > |bytes|
    ensures before + Decoded(bytes[i..]) == (before + [0xFFFD]) + Decoded(bytes[|bytes|..])
  {
    NotACharacter(bytes[i..]);
    hide CharLen, Decoded;
    SkipDecodes(before, bytes, i, |bytes| - i);
  }

  lemma SkipsBadTail(before: seq<Unit>, bytes: Bytes, i: nat)
    requires i < |bytes| && IsLead(bytes[i]) && i + 1 + Announced(bytes[i]) <= |bytes|
    requires !TailsFollow(bytes[i..], Announced(bytes[i]))
    ensures before + Decoded(bytes[i..]) == (before + [0xFFFD]) + Decoded(bytes[i + 1..])
  {
    NotACharacter(bytes[i..]);
    hide CharLen, Decoded, IsTail;
    SkipDecodes(before, bytes, i, 1);
  }

  lemma TailsDecode(before: seq<Unit>, bytes: Bytes, i: nat)
    requires i < |bytes| && IsLead(bytes[i]) && i + 1 + Announced(bytes[i]) <= |bytes|
    requires TailsFollow(bytes[i..], Announced(bytes[i]))
    ensures var k := Announced(bytes[i]); var c := Gathered(bytes[i..], k, k);
      && (Accepted(c, k) ==> IsScalar(c))
      && before + Decoded(bytes[i..])
         == (before + if Accepted(c, k) then UnitsOf(c) else [0xFFFD]) + Decoded(bytes[i + 1 + k..])
  {
    hide *;
    var b := bytes[i..];
    var k := Announced(b[0]);
    var c, next := Gathered(b, k, k), i + 1 + k;
    AcceptsWellFormed(b);
    if Accepted(c, k) {
      ScalarAtIsScalar(b);
      CharDecodes(before, bytes, i, next, c);
    } else {
      TailsSkipped(b);
      SkipDecodes(before, bytes, i, 1 + k);
    }
  }

  lemma TailsSkipped(b: Bytes)
    requires b != [] && IsLead(b[0]) && 1 + Announced(b[0]) <= |b| && TailsFollow(b, Announced(b[0]))
    requires CharLen(b) == 0
    ensures Skipped(b) == 1 + Announced(b[0])
  {
    hide CharLen, IsTail;
  }

  lemma CharDecodes(before: seq<Unit>, bytes: Bytes, i: nat, next: nat, c: Int32)
    requires i < |bytes| && next <= |bytes| && CharLen(bytes[i..]) > 0 && next == i + CharLen(bytes[i..])
    requires c == ScalarAt(bytes[i..]) && IsScalar(c)
    ensures before + Decoded(bytes[i..]) == (before + UnitsOf(c)) + Decoded(bytes[next..])
  {
    hide CharLen, ScalarAt, UnitsOf, IsScalar;
    var rest := bytes[i..];
    assert rest[CharLen(rest)..] == bytes[next..];
    Associates(before, UnitsOf(c), Decoded(bytes[next..]));
  }

  // ----- round trips

  /** Whatever is encoded is well formed. */
  lemma {:induction false} EncodedIsValid(s: seq<Unit>)
    ensures Valid(Encoded(s))
    decreases |s|
  {
    hide HeadScalar, EncodeScalar, CharLen;
    if s != [] {
      var (c, n) := HeadScalar(s);
      EncodedIsValid(s[n..]);
      EncodedScalarIsChar(c, Encoded(s[n..]));
      DropHead(EncodeScalar(c), Encoded(s[n..]));
    }
  }

  lemma DropHead<T>(a: seq<T>, b: seq<T>)
    ensures (a + b)[|a|..] == b && (a + b)[..|a|] == a
  {
  }

  /** Decoding what was encoded gives the string with unpaired surrogates replaced. */
  lemma {:induction false} DecodeOfEncode(s: seq<Unit>)
    ensures Decoded(Encoded(s)) == Repaired(s)
    decreases |s|
  {
    hide HeadScalar, EncodeScalar, CharLen, ScalarAt, UnitsOf, Skipped;
    if s != [] {
      var (c, n) := HeadScalar(s);
      DecodeOfEncode(s[n..]);
      EncodedScalarIsChar(c, Encoded(s[n..]));
      DropHead(EncodeScalar(c), Encoded(s[n..]));
    }
  }

  lemma {:induction false} EncodeOfDecodeValid(b: Bytes)
    requires Valid(b)
    ensures Encoded(Decoded(b)) == b
    decreases |b|
  {
    hide HeadScalar, EncodeScalar, CharLen, ScalarAt, UnitsOf, Skipped;
    if b != [] {
      var n := CharLen(b);
      EncodeOfDecodeValid(b[n..]);
      ScalarAtIsScalar(b);
      UnitsAreScalar(ScalarAt(b), Decoded(b[n..]));
      assert b == b[..n] + b[n..];
    }
  }

  /** Encoding what was decoded gives the bytes back exactly when they were well formed. */
  lemma EncodeOfDecode(b: Bytes)
    ensures Encoded(Decoded(b)) == b <==> Valid(b)
  {
    EncodedIsValid(Decoded(b));
    if Valid(b) {
      EncodeOfDecodeValid(b);
    }
  }

  /** A surrogate that its neighbour does not complete to a pair. */
  predicate IsUnpaired(s: seq<Unit>, i: nat)
    requires i < |s|
  {
    || (IsHigh(Code(s[i])) && (i + 1 == |s| || !IsLow(Code(s[i + 1]))))
    || (IsLow(Code(s[i])) && (i == 0 || !IsHigh(Code(s[i - 1]))))
  }

  /** The first scalar of a string repairs the units it covers. */
  lemma HeadUnits(s: seq<Unit>)
    requires s != []
    ensures var (c, n) := HeadScalar(s);
      UnitsOf(c) == if n == 1 && IsUnpaired(s, 0) then [0xFFFD] else s[..n]
    ensures HeadScalar(s).1 == 2 <==> |s| > 1 && IsHigh(Code(s[0])) && IsLow(Code(s[1]))
  {
    hide HeadScalar, UnitsOf, Joined, IsHigh, IsLow, Code, IsScalar;
    HeadScalarIs(s);
    var u := Code(s[0]);
    HighIsNotLow(u);
    if IsHigh(u) && |s| > 1 && IsLow(Code(s[1])) {
      UnitsOfPair(s[0], s[1]);
      assert s[..2] == [s[0], s[1]];
    } else {
      assert s[..1] == [s[0]];
      ReplacementUnit();
      if !IsHigh(u) && !IsLow(u) {
        UnitsOfPlain(s[0]);
      }
    }
  }

  lemma HighIsNotLow(u: Int32)
    ensures !(IsHigh(u) && IsLow(u))
  {
  }

  lemma UnitsOfPair(high: Unit, low: Unit)
    requires IsHigh(Code(high)) && IsLow(Code(low))
    ensures IsScalar(Joined(Code(high), Code(low))) && UnitsOf(Joined(Code(high), Code(low))) == [high, low]
  {
    hide Joined, HighOf, LowOf, IsHigh, IsLow, Code;
    UnitBack(high);
    UnitBack(low);
    UnitsOfLarge(Joined(Code(high), Code(low)), Code(high), Code(low));
  }

  lemma UnitsOfLarge(c: Int32, high: Int32, low: Int32)
    requires IsHigh(high) && IsLow(low) && c == Joined(high, low)
    ensures IsScalar(c) && UnitsOf(c) == [high as Unit, low as Unit]
  {
    hide *;
    PairBack(high, low);
    PairOf(c);
  }

  lemma PairOf(c: Int32)
    requires 0x10000 <= c <= 0x10FFFF
    ensures IsScalar(c) && UnitsOf(c) == [HighOf(c) as Unit, LowOf(c) as Unit]
  {
    hide HighOf, LowOf;
  }

  lemma UnitsOfPlain(u: Unit)
    requires !IsHigh(Code(u)) && !IsLow(Code(u))
    ensures IsScalar(Code(u)) && UnitsOf(Code(u)) == [u]
  {
    UnitBack(u);
    hide HighOf, LowOf;
  }

  lemma UnitBack(u: Unit)
    ensures (Code(u) as Unit) == u && Code(u) <= 0xFFFF
  {
  }

  lemma ReplacementIsNoSurrogate(u: Unit)
    ensures IsHigh(Code(u)) || IsLow(Code(u)) ==> u != 0xFFFD
  {
  }

  lemma PairBack(high: Int32, low: Int32)
    requires IsHigh(high) && IsLow(low)
    ensures 0x10000 <= Joined(high, low) <= 0x10FFFF
    ensures HighOf(Joined(high, low)) == high && LowOf(Joined(high, low)) == low
  {
  }

  /** Dropping the first scalar changes no later unit's standing. */
  lemma UnpairedAfterHead(s: seq<Unit>, n: nat, i: nat)
    requires s != [] && n == HeadScalar(s).1 && n <= i < |s|
    ensures IsUnpaired(s[n..], i - n) == IsUnpaired(s, i)
  {
    hide HeadScalar, Joined, UnitsOf, IsHigh, IsLow, Code, IsScalar;
    HeadUnits(s);
    var rest := s[n..];
    HighIsNotLow(Code(s[n - 1]));
    assert rest[i - n] == s[i];
    assert i + 1 < |s| ==> rest[i - n + 1] == s[i + 1];
    assert i > n ==> rest[i - n - 1] == s[i - 1];
  }

  /** What a string becomes on the round trip, unit by unit. */
  lemma {:induction false} RepairedUnits(s: seq<Unit>)
    ensures |Repaired(s)| == |s|
    ensures forall i :: 0 <= i < |s| ==> Repaired(s)[i] == if IsUnpaired(s, i) then 0xFFFD else s[i]
    decreases |s|
  {
    hide HeadScalar, UnitsOf, IsHigh, IsLow, IsUnpaired;
    if s != [] {
      HeadUnits(s);
      var (c, n) := HeadScalar(s);
      RepairedUnits(s[n..]);
      forall i | 0 <= i < |s| ensures Repaired(s)[i] == if IsUnpaired(s, i) then 0xFFFD else s[i] {
        if i < n {
          if n == 2 {
            PairedHead(s);
          }
        } else {
          UnpairedAfterHead(s, n, i);
        }
      }
    }
  }

  lemma PairedHead(s: seq<Unit>)
    requires s != [] && HeadScalar(s).1 == 2
    ensures !IsUnpaired(s, 0) && !IsUnpaired(s, 1)
  {
    hide HeadScalar, UnitsOf, IsHigh, IsLow, Joined, Code, IsScalar;
    HeadUnits(s);
    HighIsNotLow(Code(s[0]));
    HighIsNotLow(Code(s[1]));
  }

  /** A string survives the round trip exactly when no surrogate in it is unpaired. */
  lemma RepairedIsSame(s: seq<Unit>)
    ensures Repaired(s) == s <==> forall i :: 0 <= i < |s| ==> !IsUnpaired(s, i)
  {
    RepairedUnits(s);
    forall i | 0 <= i < |s| && IsUnpaired(s, i) ensures s[i] != 0xFFFD {
      ReplacementIsNoSurrogate(s[i]);
    }
    hide IsHigh, IsLow, IsUnpaired;
  }

  // ----- what is replaced

  /** A lead byte that is followed by `n` continuation bytes (section 4 of RFC 3629). */
  predicate TakesTails(first: Byte, n: nat) {
    || (n == 1 && 0xC2 <= first <= 0xDF)
    || (n == 2 && 0xE0 <= first <= 0xEF)
    || (n == 3 && 0xF0 <= first <= 0xF4)
  }

  lemma NothingDecoded(b: Bytes)
    requires b != [] && CharLen(b) == 0
    ensures Decoded(b) == [0xFFFD] + Decoded(b[Skipped(b)..]) && Decoded([]) == []
  {
    ReplacementUnit();
    hide CharLen, Skipped, UnitsOf;
  }

  /** A byte that can begin no character is replaced alone. */
  lemma NoLeadIsReplaced(first: Byte, rest: Bytes)
    requires 0x80 <= first <= 0xC1 || 0xF5 <= first
    ensures Decoded([first] + rest) == [0xFFFD] + Decoded(rest)
  {
    var b := [first] + rest;
    NothingDecoded(b);
    hide Decoded;
    assert b[1..] == rest;
  }

  /** So is a lead byte whose continuation bytes break off before the end of the input. */
  lemma BrokenOffIsReplaced(first: Byte, rest: Bytes, n: nat, j: nat)
    requires TakesTails(first, n) && j < n <= |rest| && !(0x80 <= rest[j] <= 0xBF)
    ensures Decoded([first] + rest) == [0xFFFD] + Decoded(rest)
  {
    var b := [first] + rest;
    assert b[j + 1] == rest[j] && Announced(first) == n;
    NotTail(rest[j]);
    NothingDecoded(b);
    hide Decoded;
    assert b[1..] == rest;
  }

  lemma NotTail(c: Byte)
    ensures IsTail(c) <==> 0x80 <= c <= 0xBF
  {
  }

  /** A lead byte and all its continuation bytes, where they are no well-formed character, are replaced together. */
  lemma IllFormedIsReplaced(b: Bytes, rest: Bytes)
    requires b != [] && TakesTails(b[0], |b| - 1) && CharLen(b) == 0
    requires forall j :: 0 < j < |b| ==> 0x80 <= b[j] <= 0xBF
    ensures Decoded(b + rest) == [0xFFFD] + Decoded(rest)
  {
    var s := b + rest;
    forall j | 0 < j < |b| ensures s[j] == b[j] && IsTail(s[j]) {
      NotTail(b[j]);
    }
    assert s[0] == b[0] && Announced(b[0]) == |b| - 1;
    assert CharLen(s) == 0;
    NothingDecoded(s);
    hide Decoded;
    assert s[|b|..] == rest;
  }

  /** A lead byte that announces more than is left is replaced together with all that is left. */
  lemma PastEndIsReplaced(b: Bytes, n: nat)
    requires b != [] && TakesTails(b[0], n) && |b| <= n
    ensures Decoded(b) == [0xFFFD]
  {
    NothingDecoded(b);
    hide Decoded;
    var one: seq<Unit> := [0xFFFD];
    assert b[|b|..] == [] && one + [] == one;
  }

  // ----- what a character cut short by the end costs

  /** A lead byte that announces more bytes than are left. */
  predicate RunsPastEnd(b: Bytes) {
    b != [] && IsLead(b[0]) && 1 + Announced(b[0]) > |b|
  }

  /** The decoder if it went on after such a lead byte, as it does after every other byte it refuses. */
  function DecodedOnward(b: Bytes): (s: seq<Unit>)
    ensures b != [] ==> s != []
  {
    if b == [] then []
    else if CharLen(b) > 0 then
      ScalarAtIsScalar(b);
      UnitsOf(ScalarAt(b)) + DecodedOnward(b[CharLen(b)..])
    else UnitsOf(REPLACEMENT) + DecodedOnward(b[if RunsPastEnd(b) then 1 else Skipped(b)..])
  }

  /** Some byte but the last is a lead byte that announces more than is left; it is one of the last three. */
  predicate GivesUpBytes(b: Bytes) {
    exists i :: 0 <= i < |b| - 1 && CutShortAt(b, i)
  }

  predicate CutShortAt(b: Bytes, i: nat)
    requires i < |b|
  {
    IsLead(b[i]) && i + 1 + Announced(b[i]) > |b|
  }

  /** Exactly then is output lost. */
  lemma {:induction false} LosesExactlyWhatItGivesUp(b: Bytes)
    ensures Decoded(b) == DecodedOnward(b) <==> !GivesUpBytes(b)
    decreases |b|
  {
    hide CharLen, ScalarAt, Skipped, RunsPastEnd, UnitsOf, GivesUpBytes;
    if b == [] {
      NothingToGiveUp(b);
    } else if CharLen(b) > 0 {
      var rest := b[CharLen(b)..];
      ScalarAtIsScalar(b);
      CharGivesUpNothing(b);
      LosesExactlyWhatItGivesUp(rest);
      SameAfter(UnitsOf(ScalarAt(b)), Decoded(rest), DecodedOnward(rest));
    } else if RunsPastEnd(b) {
      SkipsAll(b);
      NothingLeft([], b);
      LeadGivesUpRest(b);
      SameAfter(UnitsOf(REPLACEMENT), [], DecodedOnward(b[1..]));
    } else {
      var rest := b[Skipped(b)..];
      SkippedGivesUpNothing(b);
      LosesExactlyWhatItGivesUp(rest);
      SameAfter(UnitsOf(REPLACEMENT), Decoded(rest), DecodedOnward(rest));
    }
  }

  lemma NothingToGiveUp(b: Bytes)
    requires |b| <= 1
    ensures !GivesUpBytes(b)
  {
  }

  lemma LeadGivesUpRest(b: Bytes)
    requires RunsPastEnd(b)
    ensures GivesUpBytes(b) <==> b[1..] != []
  {
    if |b| > 1 {
      assert CutShortAt(b, 0);
    }
  }

  /** What is decoded or skipped as a whole holds no lead byte behind its first. */
  lemma GivenUpLater(b: Bytes, n: nat)
    requires 0 < n <= |b| && (forall j :: 0 < j < n ==> IsTail(b[j])) && !RunsPastEnd(b)
    ensures GivesUpBytes(b) <==> GivesUpBytes(b[n..])
  {
    var rest := b[n..];
    hide Announced;
    forall i | n <= i < |b| ensures CutShortAt(rest, i - n) == CutShortAt(b, i) {
      assert rest[i - n] == b[i];
    }
    forall i | 0 <= i < n ensures !CutShortAt(b, i) {
      assert i > 0 ==> IsTail(b[i]);
    }
    if i :| 0 <= i < |b| - 1 && CutShortAt(b, i) {
      assert CutShortAt(rest, i - n);
    }
    if i :| 0 <= i < |rest| - 1 && CutShortAt(rest, i) {
      assert CutShortAt(b, i + n);
    }
  }

  lemma CharGivesUpNothing(b: Bytes)
    requires CharLen(b) > 0
    ensures GivesUpBytes(b) <==> GivesUpBytes(b[CharLen(b)..])
  {
    assert !RunsPastEnd(b);
    hide GivesUpBytes;
    GivenUpLater(b, CharLen(b));
  }

  lemma SkippedGivesUpNothing(b: Bytes)
    requires b != [] && !RunsPastEnd(b)
    ensures GivesUpBytes(b) <==> GivesUpBytes(b[Skipped(b)..])
  {
    hide GivesUpBytes, IsTail;
    GivenUpLater(b, Skipped(b));
  }

  lemma SameAfter<T>(head: seq<T>, a: seq<T>, b: seq<T>)
    ensures head + a == head + b <==> a == b
  {
    assert (head + a)[|head|..] == a && (head + b)[|head|..] == b;
  }

  lemma SkipsAll(b: Bytes)
    requires RunsPastEnd(b)
    ensures Skipped(b) == |b|
  {
  }

  /** A letter behind a four-byte lead byte is lost with it. */
  lemma LosesALetter()
    ensures Decoded([0xF0, 0x41]) == [0xFFFD]
    ensures DecodedOnward([0xF0, 0x41]) == [0xFFFD, 0x41]
  {
    var b: Bytes := [0xF0, 0x41];
    var letter: Bytes := [0x41];
    ReplacementUnit();
    assert CharLen(b) == 0 && RunsPastEnd(b) && Skipped(b) == 2;
    assert b[2..] == [] && b[1..] == letter && letter[1..] == [];
    assert CharLen(letter) == 1 && ScalarAt(letter) == 0x41 && UnitsOf(0x41) == [0x41];
    hide CharLen, ScalarAt, Skipped, RunsPastEnd, UnitsOf;
    assert Decoded([]) == [] && DecodedOnward([]) == [];
    assert DecodedOnward(letter) == [0x41] + [];
  }
}
