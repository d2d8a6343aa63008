/** The JavaScript kernel's base64 encoder and decoder, padded (section 4 of RFC 4648)
    and URL-safe unpadded (section 5 of RFC 4648). Both are read as a regrouping of bits:
    bytes are eight bits, letters six. */
module Base64Codec {
  import opened Basics
  import opened Utf8

  type Unit = bv16
  type Int32 = bv32
  type Bits = seq<bool>

  const PAD: Unit := 0x3D
  const PLUS: Unit := 0x2B
  const SLASH: Unit := 0x2F
  const DASH: Unit := 0x2D
  const UNDERSCORE: Unit := 0x5F

  // ----- the alphabet

  /** The letter of a six-bit digit: A-Z, a-z, 0-9, plus, slash. */
  function Letter(d: Int32): Unit
    requires d <= 63
  {
    if d <= 25 then 0x41 + d as Unit
    else if d <= 51 then 0x61 + (d - 26) as Unit
    else if d <= 61 then 0x30 + (d - 52) as Unit
    else if d == 62 then PLUS
    else SLASH
  }

  predicate IsLetter(c: Unit) {
    0x41 <= c <= 0x5A || 0x61 <= c <= 0x7A || 0x30 <= c <= 0x39 || c == PLUS || c == SLASH
  }

  /** `indexOf` in the alphabet, for a character that is in it. */
  function DigitOf(c: Unit): (d: Int32)
    requires IsLetter(c)
    ensures d <= 63
  {
    if 0x41 <= c <= 0x5A then (c - 0x41) as Int32
    else if 0x61 <= c <= 0x7A then (c - 0x61) as Int32 + 26
    else if 0x30 <= c <= 0x39 then (c - 0x30) as Int32 + 52
    else if c == PLUS then 62
    else 63
  }

  lemma LetterRoundTrip(d: Int32)
    requires d <= 63
    ensures IsLetter(Letter(d)) && DigitOf(Letter(d)) == d
    ensures Letter(d) != PAD && Letter(d) != DASH && Letter(d) != UNDERSCORE && !IsSpace(Letter(d))
  {
  }

  predicate IsSpace(c: Unit) {
    c == 9 || c == 10 || c == 12 || c == 13 || c == 32
  }

  // ----- bits

  predicate Bit(v: Int32, mask: Int32) {
    v & mask != 0
  }

  function Low2(v: Int32): Bits {
    [Bit(v, 2), Bit(v, 1)]
  }

  function Low4(v: Int32): Bits {
    [Bit(v, 8), Bit(v, 4), Bit(v, 2), Bit(v, 1)]
  }

  function Low6(v: Int32): (r: Bits)
    ensures |r| == 6
  {
    [Bit(v, 0x20), Bit(v, 0x10), Bit(v, 8), Bit(v, 4), Bit(v, 2), Bit(v, 1)]
  }

  function Low8(v: Int32): Bits {
    [Bit(v, 0x80), Bit(v, 0x40), Bit(v, 0x20), Bit(v, 0x10), Bit(v, 8), Bit(v, 4), Bit(v, 2), Bit(v, 1)]
  }

  function Eight(b: Byte): (r: Bits)
    ensures |r| == 8
  {
    Low8(b as Int32)
  }

  /** The bits of bytes, first byte and highest bit first. */
  function ByteBits(b: Bytes): (r: Bits)
    ensures |r| == 8 * |b|
  {
    if b == [] then [] else Eight(b[0]) + ByteBits(b[1..])
  }

  /** The bits of six-bit digits. */
  function DigitBits(ds: seq<Int32>): (r: Bits)
    ensures |r| == 6 * |ds|
  {
    if ds == [] then [] else Low6(ds[0]) + DigitBits(ds[1..])
  }

  lemma EmptyConcat<T>(b: seq<T>)
    ensures [] + b == b
  {
  }

  lemma {:induction false} ByteBitsConcat(a: Bytes, b: Bytes)
    ensures ByteBits(a + b) == ByteBits(a) + ByteBits(b)
    decreases |a|
  {
    hide Eight;
    if a == [] {
      EmptyConcat(b);
      EmptyConcat(ByteBits(b));
    } else {
      TailOfConcat(a, b);
      ByteBitsConcat(a[1..], b);
      Associates(Eight(a[0]), ByteBits(a[1..]), ByteBits(b));
    }
  }

  lemma {:induction false} DigitBitsConcat(a: seq<Int32>, b: seq<Int32>)
    ensures DigitBits(a + b) == DigitBits(a) + DigitBits(b)
    decreases |a|
  {
    hide Low6;
    if a == [] {
      EmptyConcat(b);
      EmptyConcat(DigitBits(b));
    } else {
      TailOfConcat(a, b);
      DigitBitsConcat(a[1..], b);
      Associates(Low6(a[0]), DigitBits(a[1..]), DigitBits(b));
    }
  }

  lemma EightInjective(x: Byte, y: Byte)
    requires Eight(x) == Eight(y)
    ensures x == y
  {
    SameBits(x as Int32, y as Int32);
  }

  lemma SameBits(x: Int32, y: Int32)
    requires x <= 0xFF && y <= 0xFF && Low8(x) == Low8(y)
    ensures x == y
  {
    var p, q := Low8(x), Low8(y);
    assert p[0] == q[0] && p[1] == q[1] && p[2] == q[2] && p[3] == q[3];
    assert p[4] == q[4] && p[5] == q[5] && p[6] == q[6] && p[7] == q[7];
  }

  lemma {:induction false} ByteBitsInjective(a: Bytes, b: Bytes)
    requires ByteBits(a) == ByteBits(b)
    ensures a == b
  {
    hide Eight;
    assert |a| == |b|;
    if a != [] {
      FrontBack(Eight(a[0]), ByteBits(a[1..]), Eight(b[0]), ByteBits(b[1..]));
      EightInjective(a[0], b[0]);
      ByteBitsInjective(a[1..], b[1..]);
      assert a == [a[0]] + a[1..] && b == [b[0]] + b[1..];
    }
  }

  lemma FrontBack<T>(a: seq<T>, b: seq<T>, c: seq<T>, d: seq<T>)
    requires a + b == c + d && |a| == |c|
    ensures a == c && b == d
  {
    assert a == (a + b)[..|a|] && c == (c + d)[..|c|];
    assert b == (a + b)[|a|..] && d == (c + d)[|c|..];
  }

  // ----- reading text

  /** White space dropped, the URL-safe letters turned into the standard ones. */
  function Cleaned(s: seq<Unit>): seq<Unit> {
    if s == [] then []
    else if IsSpace(s[0]) then Cleaned(s[1..])
    else [if s[0] == DASH then PLUS else if s[0] == UNDERSCORE then SLASH else s[0]] + Cleaned(s[1..])
  }

  /** The digits before the first pad; characters outside the alphabet count for nothing. */
  function Digits(s: seq<Unit>): seq<Int32> {
    if s == [] || s[0] == PAD then []
    else if IsLetter(s[0]) then [DigitOf(s[0])] + Digits(s[1..])
    else Digits(s[1..])
  }

  /** What decoding means: the digits' bits, cut down to whole bytes. */
  predicate IsDecoding(text: seq<Unit>, out: Bytes) {
    var bits := DigitBits(Digits(Cleaned(text)));
    8 * |out| <= |bits| < 8 * |out| + 8 && ByteBits(out) == bits[..8 * |out|]
  }

  /** `>>` on a signed 32-bit number. */
  function SignedShift(value: Int32, bits: nat): Int32
    requires bits < 32
  {
    if value & 0x8000_0000 != 0 then !((!value) >> bits) else value >> bits
  }

  /** The bits the decoder holds back. */
  function Pending(value: Int32, bits: nat): (r: Bits)
    requires bits in {0, 2, 4, 6}
    ensures |r| == bits
  {
    if bits == 0 then [] else if bits == 2 then Low2(value) else if bits == 4 then Low4(value) else Low6(value)
  }

  /** The byte pushed when `bits` bits are to stay behind. */
  function Emitted(value: Int32, bits: nat): Byte
    requires bits in {0, 2, 4}
  {
    (SignedShift(value, bits) & 0xFF) as Byte
  }

  function Shifted(value: Int32, digit: Int32): Int32 {
    (value << 6) | digit
  }

  lemma HighBit(value: Int32, digit: Int32, mask: Int32)
    requires digit <= 63 && mask <= 63
    ensures Bit(Shifted(value, digit), mask << 6) == Bit(value, mask)
  {
  }

  lemma LowBits(value: Int32, digit: Int32)
    requires digit <= 63
    ensures var n := Shifted(value, digit);
      && Bit(n, 0x20) == Bit(digit, 0x20) && Bit(n, 0x10) == Bit(digit, 0x10) && Bit(n, 8) == Bit(digit, 8)
      && Bit(n, 4) == Bit(digit, 4) && Bit(n, 2) == Bit(digit, 2) && Bit(n, 1) == Bit(digit, 1)
      && Low6(n) == Low6(digit)
  {
  }

  lemma HighBits(value: Int32, digit: Int32)
    requires digit <= 63
    ensures var n := Shifted(value, digit);
      && Bit(n, 0x800) == Bit(value, 0x20) && Bit(n, 0x400) == Bit(value, 0x10) && Bit(n, 0x200) == Bit(value, 8)
      && Bit(n, 0x100) == Bit(value, 4) && Bit(n, 0x80) == Bit(value, 2) && Bit(n, 0x40) == Bit(value, 1)
  {
    hide Bit, Shifted;
    HighBit(value, digit, 0x20);
    HighBit(value, digit, 0x10);
    HighBit(value, digit, 8);
    HighBit(value, digit, 4);
    HighBit(value, digit, 2);
    HighBit(value, digit, 1);
  }

  /** The eight bits above the low two. */
  function Above2(v: Int32): Bits {
    [Bit(v, 0x200), Bit(v, 0x100), Bit(v, 0x80), Bit(v, 0x40), Bit(v, 0x20), Bit(v, 0x10), Bit(v, 8), Bit(v, 4)]
  }

  /** The eight bits above the low four. */
  function Above4(v: Int32): Bits {
    [Bit(v, 0x800), Bit(v, 0x400), Bit(v, 0x200), Bit(v, 0x100), Bit(v, 0x80), Bit(v, 0x40), Bit(v, 0x20), Bit(v, 0x10)]
  }

  /** The sign bit never reaches the byte that is kept. */
  lemma Emitted0(n: Int32)
    ensures Eight(Emitted(n, 0)) == Low8(n)
  {
  }

  lemma Emitted2(n: Int32)
    ensures Eight(Emitted(n, 2)) == Above2(n)
  {
  }

  lemma Emitted4(n: Int32)
    ensures Eight(Emitted(n, 4)) == Above4(n)
  {
  }

  lemma Take2(value: Int32, digit: Int32, n: Int32)
    requires digit <= 63 && n == Shifted(value, digit)
    ensures Low2(value) + Low6(digit) == Low8(n)
  {
    hide Bit, Shifted;
    LowBits(value, digit);
    HighBits(value, digit);
    Regroup2(Bit(value, 2), Bit(value, 1),
             Bit(digit, 0x20), Bit(digit, 0x10), Bit(digit, 8), Bit(digit, 4), Bit(digit, 2), Bit(digit, 1));
  }

  lemma Regroup2(a1: bool, a0: bool,
                 d5: bool, d4: bool, d3: bool, d2: bool, d1: bool, d0: bool)
    ensures [a1, a0] + [d5, d4, d3, d2, d1, d0]
         == [a1, a0, d5, d4, d3, d2, d1, d0]
  {
  }

  lemma Take4(value: Int32, digit: Int32, n: Int32)
    requires digit <= 63 && n == Shifted(value, digit)
    ensures Low4(value) + Low6(digit) == Above2(n) + Low2(n)
  {
    hide Bit, Shifted;
    LowBits(value, digit);
    HighBits(value, digit);
    Regroup4(Bit(value, 8), Bit(value, 4), Bit(value, 2), Bit(value, 1),
             Bit(digit, 0x20), Bit(digit, 0x10), Bit(digit, 8), Bit(digit, 4), Bit(digit, 2), Bit(digit, 1));
  }

  lemma Regroup4(a3: bool, a2: bool, a1: bool, a0: bool,
                 d5: bool, d4: bool, d3: bool, d2: bool, d1: bool, d0: bool)
    ensures [a3, a2, a1, a0] + [d5, d4, d3, d2, d1, d0]
         == [a3, a2, a1, a0, d5, d4, d3, d2] + [d1, d0]
  {
  }

  lemma Take6(value: Int32, digit: Int32, n: Int32)
    requires digit <= 63 && n == Shifted(value, digit)
    ensures Low6(value) + Low6(digit) == Above4(n) + Low4(n)
  {
    hide *;
    LowBits(value, digit);
    SixAbove(value, digit);
    TwelveBits(n);
  }

  /** The six bits above the low six. */
  function Above6(v: Int32): Bits {
    [Bit(v, 0x800), Bit(v, 0x400), Bit(v, 0x200), Bit(v, 0x100), Bit(v, 0x80), Bit(v, 0x40)]
  }

  lemma SixAbove(value: Int32, digit: Int32)
    requires digit <= 63
    ensures Above6(Shifted(value, digit)) == Low6(value)
  {
    hide Bit, Shifted;
    HighBits(value, digit);
  }

  lemma TwelveBits(n: Int32)
    ensures Above6(n) + Low6(n) == Above4(n) + Low4(n)
  {
    hide Bit;
    Regroup6(Bit(n, 0x800), Bit(n, 0x400), Bit(n, 0x200), Bit(n, 0x100), Bit(n, 0x80), Bit(n, 0x40),
             Bit(n, 0x20), Bit(n, 0x10), Bit(n, 8), Bit(n, 4), Bit(n, 2), Bit(n, 1));
  }

  lemma Regroup6(a5: bool, a4: bool, a3: bool, a2: bool, a1: bool, a0: bool,
                 d5: bool, d4: bool, d3: bool, d2: bool, d1: bool, d0: bool)
    ensures [a5, a4, a3, a2, a1, a0] + [d5, d4, d3, d2, d1, d0]
         == [a5, a4, a3, a2, a1, a0, d5, d4] + [d3, d2, d1, d0]
  {
  }

  /** One digit: the held bits and the digit's six are the pushed byte, if any, and the bits now held. */
  lemma DigitTaken(value: Int32, bits: nat, digit: Int32)
    requires bits in {0, 2, 4, 6} && digit <= 63
    ensures var n := Shifted(value, digit);
      Pending(value, bits) + Low6(digit)
      == if bits == 0 then Pending(n, 6) else Eight(Emitted(n, bits - 2)) + Pending(n, bits - 2)
  {
    hide Bit, Shifted, Emitted, Eight, Low2, Low4, Low6, Low8, Above2, Above4;
    var n := Shifted(value, digit);
    if bits == 0 {
      LowBits(value, digit);
      assert [] + Low6(digit) == Low6(n);
    } else if bits == 2 {
      Take2(value, digit, n);
      Emitted0(n);
      assert Low8(n) + [] == Low8(n);
    } else if bits == 4 {
      Take4(value, digit, n);
      Emitted2(n);
    } else {
      Take6(value, digit, n);
      Emitted4(n);
    }
  }

  // ----- the decoder

  method Base64Decode(input: seq<Unit>) returns (output: Bytes)
    ensures IsDecoding(input, output)
  {
    hide Digits, DigitBits, Low6, Eight, Pending, DigitOf, IsLetter, Shifted, Emitted, Bit;
    var text := Cleaned(input);
    output := [];
    var value: Int32, bits: nat, index: nat := 0, 0, 0;
    ghost var taken: seq<Int32> := [];
    ghost var ended := false;
    StartsEmpty(text, value);
    while index < |text|
      invariant index <= |text| && !ended
      invariant bits in {0, 2, 4, 6}
      invariant taken + Digits(text[index..]) == Digits(text)
      invariant ByteBits(output) + Pending(value, bits) == DigitBits(taken)
    {
      var character := text[index];
      NextDigit(text, index, taken);
      if character == PAD {
        ended := true;
        break;
      }
      index := index + 1;
      if !IsLetter(character) {
        continue;
      }
      var digit := DigitOf(character);
      OneMoreDigit(output, value, bits, digit, taken);
      taken := taken + [digit];
      value := Shift(value, digit);
      bits := bits + 6;
      if bits >= 8 {
        bits := bits - 8;
        var byte := KeepByte(value, bits);
        output := output + [byte];
      }
    }
    if !ended {
      NoDigitsLeft(text, taken);
    }
    WholeBytes(input, output, Pending(value, bits));
  }

  method Shift(value: Int32, digit: Int32) returns (next: Int32)
    ensures next == Shifted(value, digit)
  {
    next := (value << 6) | digit;
  }

  method KeepByte(value: Int32, bits: nat) returns (byte: Byte)
    requires bits in {0, 2, 4}
    ensures byte == Emitted(value, bits)
  {
    byte := (SignedShift(value, bits) & 0xFF) as Byte;
  }

  lemma StartsEmpty(text: seq<Unit>, value: Int32)
    ensures [] + Digits(text[0..]) == Digits(text)
    ensures ByteBits([]) + Pending(value, 0) == DigitBits([])
  {
    assert text[0..] == text;
  }

  lemma NextDigit(text: seq<Unit>, i: nat, taken: seq<Int32>)
    requires i < |text|
    ensures var c := text[i];
      && (c == PAD ==> taken + Digits(text[i..]) == taken)
      && (c != PAD && IsLetter(c) ==> (taken + [DigitOf(c)]) + Digits(text[i + 1..]) == taken + Digits(text[i..]))
      && (c != PAD && !IsLetter(c) ==> taken + Digits(text[i + 1..]) == taken + Digits(text[i..]))
  {
    hide DigitOf, IsLetter;
    var rest := text[i..];
    assert rest[1..] == text[i + 1..];
  }

  lemma NoDigitsLeft(text: seq<Unit>, taken: seq<Int32>)
    ensures taken + Digits(text[|text|..]) == taken
  {
    assert text[|text|..] == [];
  }

  lemma OneMoreDigit(output: Bytes, value: Int32, bits: nat, digit: Int32, taken: seq<Int32>)
    requires bits in {0, 2, 4, 6} && digit <= 63
    requires ByteBits(output) + Pending(value, bits) == DigitBits(taken)
    ensures var n := Shifted(value, digit);
      if bits == 0 then ByteBits(output) + Pending(n, 6) == DigitBits(taken + [digit])
      else ByteBits(output + [Emitted(n, bits - 2)]) + Pending(n, bits - 2) == DigitBits(taken + [digit])
  {
    hide Eight, Low6, Pending, Shifted, Emitted;
    var n := Shifted(value, digit);
    DigitTaken(value, bits, digit);
    DigitBitsConcat(taken, [digit]);
    SingleDigit(digit);
    Associates(ByteBits(output), Pending(value, bits), Low6(digit));
    if bits != 0 {
      var e := Emitted(n, bits - 2);
      ByteBitsConcat(output, [e]);
      SingleByte(e);
      Associates(ByteBits(output), Eight(e), Pending(n, bits - 2));
    }
  }

  lemma SingleDigit(digit: Int32)
    ensures DigitBits([digit]) == Low6(digit)
  {
    hide Low6;
    assert DigitBits([]) == [];
  }

  lemma SingleByte(e: Byte)
    ensures ByteBits([e]) == Eight(e)
  {
    hide Eight;
    assert ByteBits([]) == [];
  }

  lemma WholeBytes(text: seq<Unit>, out: Bytes, held: Bits)
    requires |held| < 8 && ByteBits(out) + held == DigitBits(Digits(Cleaned(text)))
    ensures IsDecoding(text, out)
  {
    hide ByteBits, DigitBits, Digits, Cleaned;
    assert (ByteBits(out) + held)[..8 * |out|] == ByteBits(out);
  }

  /** The meaning of a text fixes the bytes. */
  lemma DecodingIsUnique(text: seq<Unit>, a: Bytes, b: Bytes)
    requires IsDecoding(text, a) && IsDecoding(text, b)
    ensures a == b
  {
    hide ByteBits, DigitBits, Digits, Cleaned;
    ByteBitsInjective(a, b);
  }

  // ----- the encoder

  /** Three bytes as one number, first byte highest. */
  function Packed(b0: Byte, b1: Byte, b2: Byte): Int32 {
    ((b0 as Int32) << 16) | ((b1 as Int32) << 8) | (b2 as Int32)
  }

  /** The four six-bit digits of a packed number. */
  function Digit(v: Int32, k: nat): (d: Int32)
    requires k < 4
    ensures d <= 63
  {
    if k == 0 then (v >> 18) & 63 else if k == 1 then (v >> 12) & 63 else if k == 2 then (v >> 6) & 63 else v & 63
  }

  predicate AreDigits(ds: seq<Int32>) {
    forall i :: 0 <= i < |ds| ==> ds[i] <= 63
  }

  function Group(v: Int32): (ds: seq<Int32>)
    ensures |ds| == 4 && AreDigits(ds)
  {
    [Digit(v, 0), Digit(v, 1), Digit(v, 2), Digit(v, 3)]
  }

  /** The digits the encoder writes; a last group of one or two bytes needs two or three. */
  function EncodedDigits(b: Bytes): (ds: seq<Int32>)
    ensures AreDigits(ds)
  {
    if b == [] then []
    else if |b| == 1 then Group(Packed(b[0], 0, 0))[..2]
    else if |b| == 2 then Group(Packed(b[0], b[1], 0))[..3]
    else Group(Packed(b[0], b[1], b[2])) + EncodedDigits(b[3..])
  }

  function Letters(ds: seq<Int32>): (s: seq<Unit>)
    requires AreDigits(ds)
    ensures |s| == |ds|
  {
    if ds == [] then [] else [Letter(ds[0])] + Letters(ds[1..])
  }

  function Padding(n: nat): seq<Unit> {
    if n % 3 == 1 then [PAD, PAD] else if n % 3 == 2 then [PAD] else []
  }

  function Padded(b: Bytes): seq<Unit> {
    Letters(EncodedDigits(b)) + Padding(|b|)
  }

  /** The plus and slash of the standard alphabet replaced. */
  function UrlLetters(s: seq<Unit>): (r: seq<Unit>)
    ensures |r| == |s|
  {
    if s == [] then []
    else [UrlLetter(s[0])] + UrlLetters(s[1..])
  }

  /** Trailing pads removed. */
  function WithoutPads(s: seq<Unit>): seq<Unit> {
    if s == [] || s[|s| - 1] != PAD then s else WithoutPads(s[..|s| - 1])
  }

  /** The encoder's text, in either form. */
  function Text(b: Bytes, urlSafe: bool): seq<Unit> {
    if urlSafe then UrlLetters(Letters(EncodedDigits(b))) else Padded(b)
  }

  // ----- one group, bit by bit

  /** The twenty-four bits of a packed number, byte by byte. */
  function Octet0(v: Int32): Bits {
    [Bit(v, 0x800000), Bit(v, 0x400000), Bit(v, 0x200000), Bit(v, 0x100000), Bit(v, 0x80000), Bit(v, 0x40000),
     Bit(v, 0x20000), Bit(v, 0x10000)]
  }

  function Octet1(v: Int32): Bits {
    [Bit(v, 0x8000), Bit(v, 0x4000), Bit(v, 0x2000), Bit(v, 0x1000), Bit(v, 0x800), Bit(v, 0x400), Bit(v, 0x200),
     Bit(v, 0x100)]
  }

  function Octet2(v: Int32): Bits {
    [Bit(v, 0x80), Bit(v, 0x40), Bit(v, 0x20), Bit(v, 0x10), Bit(v, 8), Bit(v, 4), Bit(v, 2), Bit(v, 1)]
  }

  function Sextet0(v: Int32): Bits {
    [Bit(v, 0x800000), Bit(v, 0x400000), Bit(v, 0x200000), Bit(v, 0x100000), Bit(v, 0x80000), Bit(v, 0x40000)]
  }

  function Sextet1(v: Int32): Bits {
    [Bit(v, 0x20000), Bit(v, 0x10000), Bit(v, 0x8000), Bit(v, 0x4000), Bit(v, 0x2000), Bit(v, 0x1000)]
  }

  function Sextet2(v: Int32): Bits {
    [Bit(v, 0x800), Bit(v, 0x400), Bit(v, 0x200), Bit(v, 0x100), Bit(v, 0x80), Bit(v, 0x40)]
  }

  function Sextet3(v: Int32): Bits {
    [Bit(v, 0x20), Bit(v, 0x10), Bit(v, 8), Bit(v, 4), Bit(v, 2), Bit(v, 1)]
  }

  lemma PackedOctet0(b0: Byte, b1: Byte, b2: Byte)
    ensures Octet0(Packed(b0, b1, b2)) == Eight(b0)
  {
  }

  lemma PackedOctet1(b0: Byte, b1: Byte, b2: Byte)
    ensures Octet1(Packed(b0, b1, b2)) == Eight(b1)
  {
  }

  lemma PackedOctet2(b0: Byte, b1: Byte, b2: Byte)
    ensures Octet2(Packed(b0, b1, b2)) == Eight(b2)
  {
  }

  lemma DigitSextet0(v: Int32)
    ensures Low6(Digit(v, 0)) == Sextet0(v)
  {
  }

  lemma DigitSextet1(v: Int32)
    ensures Low6(Digit(v, 1)) == Sextet1(v)
  {
  }

  lemma DigitSextet2(v: Int32)
    ensures Low6(Digit(v, 2)) == Sextet2(v)
  {
  }

  lemma DigitSextet3(v: Int32)
    ensures Low6(Digit(v, 3)) == Sextet3(v)
  {
  }

  /** Where the digits' borders and the bytes' borders cut each other. */
  function Cut17(v: Int32): Bits {
    [Bit(v, 0x20000), Bit(v, 0x10000)]
  }

  function Cut15(v: Int32): Bits {
    [Bit(v, 0x8000), Bit(v, 0x4000), Bit(v, 0x2000), Bit(v, 0x1000)]
  }

  function Cut11(v: Int32): Bits {
    [Bit(v, 0x800), Bit(v, 0x400), Bit(v, 0x200), Bit(v, 0x100)]
  }

  function Cut7(v: Int32): Bits {
    [Bit(v, 0x80), Bit(v, 0x40)]
  }

  lemma OctetCut0(v: Int32)
    ensures Octet0(v) == Sextet0(v) + Cut17(v)
  {
  }

  lemma OctetCut1(v: Int32)
    ensures Octet1(v) == Cut15(v) + Cut11(v)
  {
  }

  lemma OctetCut2(v: Int32)
    ensures Octet2(v) == Cut7(v) + Sextet3(v)
  {
  }

  lemma SextetCut1(v: Int32)
    ensures Sextet1(v) == Cut17(v) + Cut15(v)
  {
  }

  lemma SextetCut2(v: Int32)
    ensures Sextet2(v) == Cut11(v) + Cut7(v)
  {
  }

  lemma Recut<T>(s0: seq<T>, a: seq<T>, b: seq<T>, c: seq<T>, d: seq<T>, s3: seq<T>)
    ensures s0 + (a + b) + (c + d) + s3 == (s0 + a) + (b + c) + (d + s3)
  {
    Associates(s0, a, b);
    Associates(s0 + a + b, c, d);
    Associates(s0 + a, b, c);
    Associates(s0 + a + b + c, d, s3);
    Associates(s0 + a, b + c, d + s3);
  }

  lemma SameBitsEitherWay(v: Int32)
    ensures Sextet0(v) + Sextet1(v) + Sextet2(v) + Sextet3(v) == Octet0(v) + Octet1(v) + Octet2(v)
  {
    hide Sextet0, Sextet1, Sextet2, Sextet3, Octet0, Octet1, Octet2, Cut17, Cut15, Cut11, Cut7;
    OctetCut0(v);
    OctetCut1(v);
    OctetCut2(v);
    SextetCut1(v);
    SextetCut2(v);
    Recut(Sextet0(v), Cut17(v), Cut15(v), Cut11(v), Cut7(v), Sextet3(v));
  }

  /** Four digits carry exactly the bits of their three bytes. */
  lemma GroupBits(b0: Byte, b1: Byte, b2: Byte)
    ensures DigitBits(Group(Packed(b0, b1, b2))) == Eight(b0) + Eight(b1) + Eight(b2)
  {
    hide Digit, Low6, Eight, Packed, Sextet0, Sextet1, Sextet2, Sextet3, Octet0, Octet1, Octet2;
    var v := Packed(b0, b1, b2);
    FourDigits(Digit(v, 0), Digit(v, 1), Digit(v, 2), Digit(v, 3));
    DigitSextet0(v);
    DigitSextet1(v);
    DigitSextet2(v);
    DigitSextet3(v);
    PackedOctet0(b0, b1, b2);
    PackedOctet1(b0, b1, b2);
    PackedOctet2(b0, b1, b2);
    SameBitsEitherWay(v);
  }

  lemma FourDigits(d0: Int32, d1: Int32, d2: Int32, d3: Int32)
    ensures DigitBits([d0, d1, d2, d3]) == Low6(d0) + Low6(d1) + Low6(d2) + Low6(d3)
  {
    hide Low6;
    DigitBitsConcat([d0], [d1]);
    DigitBitsConcat([d0, d1], [d2]);
    DigitBitsConcat([d0, d1, d2], [d3]);
    SingleDigit(d0);
    SingleDigit(d1);
    SingleDigit(d2);
    SingleDigit(d3);
    assert [d0] + [d1] == [d0, d1] && [d0, d1] + [d2] == [d0, d1, d2] && [d0, d1, d2] + [d3] == [d0, d1, d2, d3];
  }

  /** The bits that fill up the last digit. */
  function Filler(n: nat): Bits {
    if n % 3 == 1 then [false, false, false, false] else if n % 3 == 2 then [false, false] else []
  }

  lemma ZeroByte()
    ensures Eight(0) == [false, false, false, false, false, false, false, false]
  {
  }

  lemma DigitBitsPrefix(ds: seq<Int32>, k: nat)
    requires k <= |ds|
    ensures DigitBits(ds[..k]) == DigitBits(ds)[..6 * k]
  {
    hide Low6;
    assert ds == ds[..k] + ds[k..];
    DigitBitsConcat(ds[..k], ds[k..]);
  }

  lemma OneByteGroup(b0: Byte)
    ensures DigitBits(Group(Packed(b0, 0, 0))[..2]) == Eight(b0) + Filler(1)
  {
    hide Eight, Group, Packed, DigitBits;
    GroupBits(b0, 0, 0);
    ZeroByte();
    DigitBitsPrefix(Group(Packed(b0, 0, 0)), 2);
    assert (Eight(b0) + Eight(0) + Eight(0))[..12] == Eight(b0) + Filler(1);
  }

  lemma TwoByteGroup(b0: Byte, b1: Byte)
    ensures DigitBits(Group(Packed(b0, b1, 0))[..3]) == Eight(b0) + Eight(b1) + Filler(2)
  {
    hide Eight, Group, Packed, DigitBits;
    GroupBits(b0, b1, 0);
    ZeroByte();
    DigitBitsPrefix(Group(Packed(b0, b1, 0)), 3);
    assert (Eight(b0) + Eight(b1) + Eight(0))[..18] == Eight(b0) + Eight(b1) + Filler(2);
  }

  lemma TwoBytes(b0: Byte, b1: Byte)
    ensures ByteBits([b0, b1]) == Eight(b0) + Eight(b1)
  {
    hide Eight;
    SingleByte(b0);
    SingleByte(b1);
    ByteBitsConcat([b0], [b1]);
    assert [b0] + [b1] == [b0, b1];
  }

  lemma ThreeBytes(b0: Byte, b1: Byte, b2: Byte)
    ensures ByteBits([b0, b1, b2]) == Eight(b0) + Eight(b1) + Eight(b2)
  {
    hide Eight;
    TwoBytes(b0, b1);
    SingleByte(b2);
    ByteBitsConcat([b0, b1], [b2]);
    assert [b0, b1] + [b2] == [b0, b1, b2];
  }

  /** The digits written are the bytes' bits, filled up with zeros to a whole digit. */
  lemma {:induction false} EncodedBits(b: Bytes)
    ensures DigitBits(EncodedDigits(b)) == ByteBits(b) + Filler(|b|)
    decreases |b|
  {
    hide Eight, Group, Packed, DigitBits, ByteBits;
    if b == [] {
      NoBits();
    } else if |b| == 1 {
      OneByteGroup(b[0]);
      SingleByte(b[0]);
      assert b == [b[0]];
    } else if |b| == 2 {
      TwoByteGroup(b[0], b[1]);
      TwoBytes(b[0], b[1]);
      assert b == [b[0], b[1]];
    } else {
      EncodedBits(b[3..]);
      EncodedBitsStep(b);
    }
  }

  lemma EncodedBitsStep(b: Bytes)
    requires |b| >= 3 && DigitBits(EncodedDigits(b[3..])) == ByteBits(b[3..]) + Filler(|b| - 3)
    ensures DigitBits(EncodedDigits(b)) == ByteBits(b) + Filler(|b|)
  {
    hide EncodedDigits, ThreeBits, DigitBits, ByteBits, Filler;
    DigitsAhead(b);
    BytesAhead(b);
    FillerRepeats(|b|);
    Associates(ThreeBits(b[0], b[1], b[2]), ByteBits(b[3..]), Filler(|b|));
  }

  function ThreeBits(b0: Byte, b1: Byte, b2: Byte): Bits {
    Eight(b0) + Eight(b1) + Eight(b2)
  }

  lemma FillerRepeats(n: nat)
    requires n >= 3
    ensures Filler(n) == Filler(n - 3)
  {
  }

  lemma DigitsAhead(b: Bytes)
    requires |b| >= 3
    ensures DigitBits(EncodedDigits(b)) == ThreeBits(b[0], b[1], b[2]) + DigitBits(EncodedDigits(b[3..]))
  {
    hide Eight, Group, Packed, DigitBits;
    GroupBits(b[0], b[1], b[2]);
    DigitBitsConcat(Group(Packed(b[0], b[1], b[2])), EncodedDigits(b[3..]));
  }

  lemma BytesAhead(b: Bytes)
    requires |b| >= 3
    ensures ByteBits(b) == ThreeBits(b[0], b[1], b[2]) + ByteBits(b[3..])
  {
    hide Eight, ByteBits;
    var head := [b[0], b[1], b[2]];
    assert b == head + b[3..];
    ThreeBytes(b[0], b[1], b[2]);
    ByteBitsConcat(head, b[3..]);
  }

  lemma NoBits()
    ensures DigitBits([]) == [] && ByteBits([]) == []
  {
  }

  // ----- texts that were encoded

  predicate AllPads(s: seq<Unit>) {
    forall i :: 0 <= i < |s| ==> s[i] == PAD
  }

  lemma {:induction false} CleanedPads(pads: seq<Unit>)
    requires AllPads(pads)
    ensures Cleaned(pads) == pads
  {
    if pads != [] {
      CleanedPads(pads[1..]);
      assert pads == [pads[0]] + pads[1..];
    }
  }

  /** Reading letters back gives the digits, and stops at the pads. */
  lemma {:induction false} LettersRead(ds: seq<Int32>, pads: seq<Unit>)
    requires AreDigits(ds) && AllPads(pads)
    ensures Cleaned(Letters(ds) + pads) == Letters(ds) + pads
    ensures Digits(Letters(ds) + pads) == ds
    decreases |ds|
  {
    hide Letter, IsLetter, DigitOf, IsSpace;
    if ds == [] {
      assert Letters(ds) + pads == pads;
      CleanedPads(pads);
    } else {
      var rest := Letters(ds[1..]) + pads;
      var s := Letters(ds) + pads;
      LetterRoundTrip(ds[0]);
      LettersRead(ds[1..], pads);
      assert s[0] == Letter(ds[0]) && s[1..] == rest && s == [s[0]] + rest;
    }
  }

  lemma {:induction false} UrlLettersCleaned(ds: seq<Int32>)
    requires AreDigits(ds)
    ensures Cleaned(UrlLetters(Letters(ds))) == Letters(ds)
    decreases |ds|
  {
    hide Letter;
    if ds != [] {
      var s := Letters(ds);
      LetterRoundTrip(ds[0]);
      UrlLettersCleaned(ds[1..]);
      assert s == [Letter(ds[0])] + s[1..];
    }
  }

  /** Both forms carry the same digits. */
  lemma TextDigits(b: Bytes, urlSafe: bool)
    ensures Digits(Cleaned(Text(b, urlSafe))) == EncodedDigits(b)
  {
    hide EncodedDigits, Letters, UrlLetters, Cleaned, Digits;
    var ds := EncodedDigits(b);
    LettersRead(ds, Padding(|b|));
    if urlSafe {
      UrlLettersCleaned(ds);
      LettersRead(ds, []);
      assert Letters(ds) + [] == Letters(ds);
    }
  }

  /** Decoding an encoded text, in either form, gives the bytes back and nothing else. */
  lemma DecodingOfText(b: Bytes, urlSafe: bool, out: Bytes)
    ensures IsDecoding(Text(b, urlSafe), out) <==> out == b
  {
    hide Text, EncodedDigits, Cleaned, Digits, DigitBits, ByteBits;
    TextDigits(b, urlSafe);
    EncodedBits(b);
    assert (ByteBits(b) + Filler(|b|))[..8 * |b|] == ByteBits(b);
    if IsDecoding(Text(b, urlSafe), out) {
      DecodingIsUnique(Text(b, urlSafe), out, b);
    }
  }

  lemma {:induction false} DigitCount(b: Bytes)
    ensures 6 * |EncodedDigits(b)| == 8 * |b| + |Filler(|b|)|
    decreases |b|
  {
    if |b| >= 3 {
      DigitCount(b[3..]);
      DigitsOfThree(b);
      FillerAgain(|b|);
    } else {
      hide Group, Packed;
    }
  }

  lemma DigitsOfThree(b: Bytes)
    requires |b| >= 3
    ensures |EncodedDigits(b)| == 4 + |EncodedDigits(b[3..])|
  {
    hide Group, Packed;
  }

  lemma FillerAgain(n: nat)
    requires n >= 3
    ensures Filler(n) == Filler(n - 3)
  {
  }

  /** Four characters for every three bytes begun, or no more letters than the bits need. */
  lemma TextLength(b: Bytes)
    ensures |Text(b, false)| == 4 * ((|b| + 2) / 3)
    ensures |Text(b, true)| == (8 * |b| + 5) / 6
  {
    hide Letters, UrlLetters, EncodedDigits;
    DigitCount(b);
  }

  /** The URL-safe form holds no plus, slash or pad. */
  lemma {:induction false} UrlSafeLetters(ds: seq<Int32>)
    requires AreDigits(ds)
    ensures forall c :: c in UrlLetters(Letters(ds)) ==> c != PLUS && c != SLASH && c != PAD
    decreases |ds|
  {
    hide Letter;
    if ds != [] {
      LetterRoundTrip(ds[0]);
      UrlSafeLetters(ds[1..]);
    }
  }

  // ----- the two alphabets

  /** Table 1 of RFC 4648. */
  lemma AlphabetIs(d: Int32)
    requires d <= 63
    ensures var letter, value := Letter(d) as int, d as int;
      && (value < 26 ==> letter == 'A' as int + value)
      && (26 <= value < 52 ==> letter == 'a' as int + (value - 26))
      && (52 <= value < 62 ==> letter == '0' as int + (value - 52))
      && (value == 62 ==> letter == '+' as int)
      && (value == 63 ==> letter == '/' as int)
  {
  }

  /** Table 2 differs in its last two letters, and there are no pads. */
  lemma {:induction false} UrlSafeIs(ds: seq<Int32>, k: nat)
    requires AreDigits(ds) && k < |ds|
    ensures |Letters(ds)| == |UrlLetters(Letters(ds))| == |ds|
    ensures Letters(ds)[k] == Letter(ds[k])
    ensures UrlLetters(Letters(ds))[k] == if ds[k] == 62 then 0x2D else if ds[k] == 63 then 0x5F else Letter(ds[k])
    decreases |ds|
  {
    LetterIsItsOwn(ds[0]);
    hide Letter;
    if k > 0 {
      UrlSafeIs(ds[1..], k - 1);
    }
  }

  lemma LetterIsItsOwn(d: Int32)
    requires d <= 63
    ensures UrlLetter(Letter(d)) == if d == 62 then 0x2D else if d == 63 then 0x5F else Letter(d)
  {
  }

  // ----- what the decoder takes for the same

  lemma {:induction false} CleanedConcat(a: seq<Unit>, b: seq<Unit>)
    ensures Cleaned(a + b) == Cleaned(a) + Cleaned(b)
    decreases |a|
  {
    hide IsSpace;
    if a == [] {
      EmptyConcat(b);
      EmptyConcat(Cleaned(b));
    } else {
      TailOfConcat(a, b);
      CleanedConcat(a[1..], b);
      FirstCleaned(a);
      FirstCleaned(a + b);
      Associates(Cleaned([a[0]]), Cleaned(a[1..]), Cleaned(b));
    }
  }

  lemma FirstCleaned(s: seq<Unit>)
    requires s != []
    ensures Cleaned(s) == Cleaned([s[0]]) + Cleaned(s[1..])
  {
    hide IsSpace;
    assert [s[0]][1..] == [];
  }

  lemma {:induction false} DigitsConcat(a: seq<Unit>, b: seq<Unit>)
    ensures Digits(a + b) == if PAD in a then Digits(a) else Digits(a) + Digits(b)
    decreases |a|
  {
    hide IsLetter, DigitOf;
    if a == [] {
      EmptyConcat(b);
      EmptyConcat(Digits(b));
    } else {
      TailOfConcat(a, b);
      if a[0] != PAD {
        DigitsConcat(a[1..], b);
        assert PAD in a <==> PAD in a[1..];
      }
    }
  }

  /** Whether `a` and `b` stand for the same bytes wherever they stand in a text. */
  ghost predicate ReadAlike(a: seq<Unit>, b: seq<Unit>) {
    forall before, after, out :: IsDecoding(before + a + after, out) <==> IsDecoding(before + b + after, out)
  }

  /** What is cleaned to the same letters reads alike, and so does what adds no digit and no pad. */
  lemma AlikeIfCleaned(a: seq<Unit>, b: seq<Unit>)
    requires Digits(Cleaned(a)) == Digits(Cleaned(b)) && (PAD in Cleaned(a) <==> PAD in Cleaned(b))
    ensures ReadAlike(a, b)
  {
    hide DigitBits, ByteBits, Cleaned, Digits;
    forall before, after, out ensures IsDecoding(before + a + after, out) <==> IsDecoding(before + b + after, out) {
      DigitsBetween(before, a, after);
      DigitsBetween(before, b, after);
    }
  }

  lemma DigitsBetween(before: seq<Unit>, a: seq<Unit>, after: seq<Unit>)
    ensures Digits(Cleaned(before + a + after))
         == if PAD in Cleaned(before) then Digits(Cleaned(before))
            else if PAD in Cleaned(a) then Digits(Cleaned(before)) + Digits(Cleaned(a))
            else Digits(Cleaned(before)) + Digits(Cleaned(a)) + Digits(Cleaned(after))
  {
    hide Cleaned, Digits;
    CleanedConcat(before + a, after);
    CleanedConcat(before, a);
    DigitsConcat(Cleaned(before) + Cleaned(a), Cleaned(after));
    DigitsConcat(Cleaned(before), Cleaned(a));
  }

  /** The URL-safe letters read like the standard ones they replace; white space and characters outside both
      alphabets read like nothing, wherever they stand. */
  lemma SameReading(c: Unit)
    ensures ReadAlike([0x2D], [0x2B]) && ReadAlike([0x5F], [0x2F])
    ensures c in {0x09, 0x0A, 0x0C, 0x0D, 0x20} ==> ReadAlike([c], [])
    ensures !IsLetter(c) && c != PAD && c != 0x2D && c != 0x5F ==> ReadAlike([c], [])
  {
    OneCleaned(c);
    OneCleaned(0x2D);
    OneCleaned(0x5F);
    OneCleaned(0x2B);
    OneCleaned(0x2F);
    hide *;
    AlikeIfCleaned([0x2D], [0x2B]);
    AlikeIfCleaned([0x5F], [0x2F]);
    if Digits(Cleaned([c])) == [] && PAD !in Cleaned([c]) && Digits(Cleaned([])) == [] && PAD !in Cleaned([]) {
      AlikeIfCleaned([c], []);
    }
  }

  lemma OneCleaned(c: Unit)
    ensures Cleaned([]) == [] && Digits([]) == []
    ensures c == 0x2D ==> Cleaned([c]) == [0x2B]
    ensures c == 0x5F ==> Cleaned([c]) == [0x2F]
    ensures c in {0x2B, 0x2F} ==> Cleaned([c]) == [c]
    ensures c in {0x09, 0x0A, 0x0C, 0x0D, 0x20} ==> Cleaned([c]) == []
    ensures !IsLetter(c) && c != PAD && c != 0x2D && c != 0x5F ==> Digits(Cleaned([c])) == [] && PAD !in Cleaned([c])
  {
    assert [c][1..] == [];
  }

  // ----- the encoding loop

  method Base64Encode(bytes: Bytes, urlSafe: bool) returns (output: seq<Unit>)
    ensures output == Text(bytes, urlSafe)
  {
    hide Padded, Letters, EncodedDigits, UrlLetters, WithoutPads, Packed, Group, Letter;
    output := [];
    var index: nat := 0;
    ghost var rest := bytes;
    while index < |bytes|
      invariant rest == if index <= |bytes| then bytes[index..] else []
      invariant output + Padded(rest) == Padded(bytes)
    {
      var remaining := |bytes| - index;
      var second := if index + 1 < |bytes| then bytes[index + 1] else 0;
      var third := if index + 2 < |bytes| then bytes[index + 2] else 0;
      var value := Pack(bytes[index], second, third);
      var d0, d1, d2, d3 := SplitDigits(value);
      TurnWritten(rest);
      ghost var before, next := output, if |rest| >= 3 then rest[3..] else [];
      output := output + [Letter(d0)];
      output := output + [Letter(d1)];
      output := output + [if remaining > 1 then Letter(d2) else PAD];
      output := output + [if remaining > 2 then Letter(d3) else PAD];
      assert output == before + Turn(rest);
      Associates(before, Turn(rest), Padded(next));
      index := index + 3;
      rest := next;
    }
    NothingPadded();
    assert output == Padded(bytes);
    if urlSafe {
      UrlForm(EncodedDigits(bytes), Padding(|bytes|));
      PaddedIs(bytes);
      output := WithoutPads(UrlLetters(output));
    }
  }

  lemma PaddedIs(b: Bytes)
    ensures Padded(b) == Letters(EncodedDigits(b)) + Padding(|b|)
  {
  }

  method Pack(b0: Byte, b1: Byte, b2: Byte) returns (value: Int32)
    ensures value == Packed(b0, b1, b2)
  {
    value := ((b0 as Int32) << 16) | ((b1 as Int32) << 8) | (b2 as Int32);
  }

  method SplitDigits(value: Int32) returns (d0: Int32, d1: Int32, d2: Int32, d3: Int32)
    ensures [d0, d1, d2, d3] == Group(value)
    ensures d0 <= 63 && d1 <= 63 && d2 <= 63 && d3 <= 63
  {
    d0, d1, d2, d3 := (value >> 18) & 63, (value >> 12) & 63, (value >> 6) & 63, value & 63;
  }

  function At(b: Bytes, i: nat): Byte {
    if i < |b| then b[i] else 0
  }

  /** What one turn of the loop writes. */
  function Turn(rest: Bytes): seq<Unit> {
    var g := Group(Packed(At(rest, 0), At(rest, 1), At(rest, 2)));
    [Letter(g[0]), Letter(g[1]), if |rest| > 1 then Letter(g[2]) else PAD, if |rest| > 2 then Letter(g[3]) else PAD]
  }

  lemma TurnWritten(rest: Bytes)
    requires rest != []
    ensures Padded(rest) == Turn(rest) + Padded(if |rest| >= 3 then rest[3..] else [])
  {
    hide Padded, Turn;
    NothingPadded();
    if |rest| == 1 {
      LastOne(rest);
    } else if |rest| == 2 {
      LastTwo(rest);
    } else {
      FullTurn(rest);
    }
  }

  lemma LastOne(rest: Bytes)
    requires |rest| == 1
    ensures Padded(rest) == Turn(rest)
  {
    hide Group, Packed, Letter, Letters;
    var g := Group(Packed(rest[0], 0, 0));
    assert g[..2] == [g[0], g[1]];
    TwoLetters(g[0], g[1]);
  }

  lemma LastTwo(rest: Bytes)
    requires |rest| == 2
    ensures Padded(rest) == Turn(rest)
  {
    hide Group, Packed, Letter, Letters;
    var g := Group(Packed(rest[0], rest[1], 0));
    assert g[..3] == [g[0], g[1], g[2]];
    ThreeLetters(g[0], g[1], g[2]);
  }

  lemma FullTurn(rest: Bytes)
    requires |rest| >= 3
    ensures Padded(rest) == Turn(rest) + Padded(rest[3..])
  {
    hide Group, Packed, Letters, EncodedDigits, Turn, Padding;
    var g := Group(Packed(rest[0], rest[1], rest[2]));
    var more := EncodedDigits(rest[3..]);
    FullGroup(rest);
    TurnIsLetters(rest);
    LettersConcat(g, more);
    Associates(Letters(g), Letters(more), Padding(|rest|));
  }

  lemma FullGroup(rest: Bytes)
    requires |rest| >= 3
    ensures EncodedDigits(rest) == Group(Packed(rest[0], rest[1], rest[2])) + EncodedDigits(rest[3..])
    ensures Padding(|rest|) == Padding(|rest| - 3)
  {
    hide Group, Packed;
  }

  lemma TurnIsLetters(rest: Bytes)
    requires |rest| >= 3
    ensures Turn(rest) == Letters(Group(Packed(rest[0], rest[1], rest[2])))
  {
    hide Group, Packed, Letter, Letters;
    var g := Group(Packed(rest[0], rest[1], rest[2]));
    assert g == [g[0], g[1], g[2], g[3]];
    FourLetters(g[0], g[1], g[2], g[3]);
  }

  lemma OneLetter(a: Int32)
    requires a <= 63
    ensures AreDigits([a]) && Letters([a]) == [Letter(a)]
  {
    hide Letter;
    assert Letters([]) == [];
  }

  lemma TwoLetters(a: Int32, b: Int32)
    requires a <= 63 && b <= 63
    ensures AreDigits([a, b]) && Letters([a, b]) == [Letter(a), Letter(b)]
  {
    hide Letter, Letters;
    OneLetter(a);
    OneLetter(b);
    LettersConcat([a], [b]);
    assert [a] + [b] == [a, b];
  }

  lemma ThreeLetters(a: Int32, b: Int32, c: Int32)
    requires a <= 63 && b <= 63 && c <= 63
    ensures AreDigits([a, b, c]) && Letters([a, b, c]) == [Letter(a), Letter(b), Letter(c)]
  {
    hide Letter, Letters;
    TwoLetters(a, b);
    OneLetter(c);
    LettersConcat([a, b], [c]);
    assert [a, b] + [c] == [a, b, c];
  }

  lemma FourLetters(a: Int32, b: Int32, c: Int32, d: Int32)
    requires a <= 63 && b <= 63 && c <= 63 && d <= 63
    ensures AreDigits([a, b, c, d]) && Letters([a, b, c, d]) == [Letter(a), Letter(b), Letter(c), Letter(d)]
  {
    hide Letter, Letters;
    ThreeLetters(a, b, c);
    OneLetter(d);
    LettersConcat([a, b, c], [d]);
    assert [a, b, c] + [d] == [a, b, c, d];
  }

  lemma NothingPadded()
    ensures Padded([]) == []
  {
  }

  lemma {:induction false} LettersConcat(a: seq<Int32>, b: seq<Int32>)
    requires AreDigits(a) && AreDigits(b)
    ensures AreDigits(a + b) && Letters(a + b) == Letters(a) + Letters(b)
    decreases |a|
  {
    hide Letter;
    if a == [] {
      EmptyConcat(b);
      EmptyConcat(Letters(b));
    } else {
      TailOfConcat(a, b);
      LettersConcat(a[1..], b);
      Associates([Letter(a[0])], Letters(a[1..]), Letters(b));
    }
  }

  lemma UrlForm(ds: seq<Int32>, pads: seq<Unit>)
    requires AreDigits(ds) && AllPads(pads)
    ensures WithoutPads(UrlLetters(Letters(ds) + pads)) == UrlLetters(Letters(ds))
  {
    UrlLettersConcat(Letters(ds), pads);
    PadsStay(pads);
    UrlSafeLetters(ds);
    PadsGone(UrlLetters(Letters(ds)), pads);
  }

  function UrlLetter(c: Unit): Unit {
    if c == PLUS then DASH else if c == SLASH then UNDERSCORE else c
  }

  lemma {:induction false} UrlLettersConcat(a: seq<Unit>, b: seq<Unit>)
    ensures UrlLetters(a + b) == UrlLetters(a) + UrlLetters(b)
    decreases |a|
  {
    hide UrlLetter;
    if a == [] {
      EmptyConcat(b);
      EmptyConcat(UrlLetters(b));
    } else {
      TailOfConcat(a, b);
      UrlLettersConcat(a[1..], b);
      Associates([UrlLetter(a[0])], UrlLetters(a[1..]), UrlLetters(b));
    }
  }

  lemma {:induction false} PadsStay(pads: seq<Unit>)
    requires AllPads(pads)
    ensures UrlLetters(pads) == pads
    decreases |pads|
  {
    if pads != [] {
      PadsStay(pads[1..]);
    }
  }

  lemma {:induction false} PadsGone(s: seq<Unit>, pads: seq<Unit>)
    requires AllPads(pads) && (forall c :: c in s ==> c != PAD)
    ensures WithoutPads(s + pads) == s
    decreases |pads|
  {
    if pads == [] {
      assert s + pads == s;
      assert s != [] ==> s[|s| - 1] in s;
    } else {
      PadsGone(s, pads[..|pads| - 1]);
      assert (s + pads)[..|s + pads| - 1] == s + pads[..|pads| - 1];
    }
  }
}
