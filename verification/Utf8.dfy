/**
 The UTF-8 reader. It goes by the leading byte alone: it checks neither that the bytes after it are
 continuation bytes, nor overlong forms, surrogates and values past the last code point, and it reads a
 byte with which it can do nothing else as a code point of its own.
 */
module Utf8 {
  import opened ByteScan
  import opened Options

  function Low(b: bv8, mask: bv8): bv32 {
    (b & mask) as bv32
  }

  function Two(a: bv8, b: bv8): bv32 {
    (Low(a, 0x1F) << 6) | Low(b, 0x3F)
  }

  function Three(a: bv8, b: bv8, c: bv8): bv32 {
    (Low(a, 0x0F) << 12) | (Low(b, 0x3F) << 6) | Low(c, 0x3F)
  }

  function Four(a: bv8, b: bv8, c: bv8, d: bv8): bv32 {
    (Low(a, 0x07) << 18) | (Low(b, 0x3F) << 12) | (Low(c, 0x3F) << 6) | Low(d, 0x3F)
  }

  /** One call of the reader: None at the end of the text. */
  function NextCodepoint(text: Bytes): (r: Option<Reading>)
    ensures r.None? <==> text == []
    ensures r.Some? ==> 1 <= r.value.length <= 4 && r.value.length <= |text|
  {
    if text == [] then None
    else
      var c := text[0];
      if c & 0x80 == 0 then Some(Reading(c as bv32, 1))
      else if c & 0xE0 == 0xC0 && |text| > 1 then Some(Reading(Two(c, text[1]), 2))
      else if c & 0xF0 == 0xE0 && |text| > 2 then Some(Reading(Three(c, text[1], text[2]), 3))
      else if c & 0xF8 == 0xF0 && |text| > 3 then Some(Reading(Four(c, text[1], text[2], text[3]), 4))
      else Some(Reading(c as bv32, 1))
  }

  // ---------------------------------------------------------------- section 3 of RFC 3629

  predicate IsScalar(cp: bv32) {
    cp <= 0x10FFFF && !(0xD800 <= cp <= 0xDFFF)
  }

  function Head2(cp: bv32): bv8 {
    0xC0 | ((cp >> 6) & 0x1F) as bv8
  }

  function Head3(cp: bv32): bv8 {
    0xE0 | ((cp >> 12) & 0x0F) as bv8
  }

  function Head4(cp: bv32): bv8 {
    0xF0 | ((cp >> 18) & 0x07) as bv8
  }

  function Tail0(cp: bv32): bv8 {
    0x80 | (cp & 0x3F) as bv8
  }

  function Tail1(cp: bv32): bv8 {
    0x80 | ((cp >> 6) & 0x3F) as bv8
  }

  function Tail2(cp: bv32): bv8 {
    0x80 | ((cp >> 12) & 0x3F) as bv8
  }

  function Encode(cp: bv32): Bytes {
    if cp < 0x80 then [(cp & 0x7F) as bv8]
    else if cp < 0x800 then [Head2(cp), Tail0(cp)]
    else if cp < 0x10000 then [Head3(cp), Tail1(cp), Tail0(cp)]
    else [Head4(cp), Tail2(cp), Tail1(cp), Tail0(cp)]
  }

  // ---------------------------------------------------------------- section 4 of RFC 3629

  predicate IsTail(b: bv8) {
    0x80 <= b <= 0xBF
  }

  predicate IsStart3(a: bv8, b: bv8) {
    || (a == 0xE0 && 0xA0 <= b <= 0xBF)
    || (0xE1 <= a <= 0xEC && IsTail(b))
    || (a == 0xED && 0x80 <= b <= 0x9F)
    || (0xEE <= a <= 0xEF && IsTail(b))
  }

  predicate IsStart4(a: bv8, b: bv8) {
    || (a == 0xF0 && 0x90 <= b <= 0xBF)
    || (0xF1 <= a <= 0xF3 && IsTail(b))
    || (a == 0xF4 && 0x80 <= b <= 0x8F)
  }

  /** The byte sequences of one character. */
  predicate IsUnit(b: Bytes) {
    || (|b| == 1 && b[0] <= 0x7F)
    || (|b| == 2 && 0xC2 <= b[0] <= 0xDF && IsTail(b[1]))
    || (|b| == 3 && IsStart3(b[0], b[1]) && IsTail(b[2]))
    || (|b| == 4 && IsStart4(b[0], b[1]) && IsTail(b[2]) && IsTail(b[3]))
  }

  // ---------------------------------------------------------------- one character

  lemma LeadingByte(a: bv8)
    ensures a & 0x80 == 0 <==> a <= 0x7F
    ensures a & 0xE0 == 0xC0 <==> 0xC0 <= a <= 0xDF
    ensures a & 0xF0 == 0xE0 <==> 0xE0 <= a <= 0xEF
    ensures a & 0xF8 == 0xF0 <==> 0xF0 <= a <= 0xF7
  {
  }

  lemma OneByte(a: bv8)
    ensures a as bv32 < 0x80 <==> a <= 0x7F
    ensures a <= 0x7F ==> (a as bv32 & 0x7F) as bv8 == a
  {
  }

  lemma TailByte(b: bv8)
    ensures 0x80 | (b & 0x3F) == b <==> IsTail(b)
    ensures IsTail(b) ==> (b & 0x3F >= 0x20 <==> b >= 0xA0) && (b & 0x3F >= 0x10 <==> b >= 0x90)
  {
  }

  lemma TwoParts(a: bv8, b: bv8)
    requires a & 0xE0 == 0xC0
    ensures Two(a, b) < 0x800 && (Two(a, b) >= 0x80 <==> a >= 0xC2)
    ensures Head2(Two(a, b)) == a && Tail0(Two(a, b)) == 0x80 | (b & 0x3F)
  {
  }

  lemma ThreeRange(a: bv8, b: bv8, c: bv8)
    requires a & 0xF0 == 0xE0
    ensures Three(a, b, c) < 0x10000
    ensures Three(a, b, c) >= 0x800 <==> a > 0xE0 || b & 0x3F >= 0x20
    ensures 0xD800 <= Three(a, b, c) <= 0xDFFF <==> a == 0xED && b & 0x3F >= 0x20
  {
  }

  lemma ThreeParts(a: bv8, b: bv8, c: bv8)
    requires a & 0xF0 == 0xE0
    ensures Head3(Three(a, b, c)) == a
    ensures Tail1(Three(a, b, c)) == 0x80 | (b & 0x3F)
    ensures Tail0(Three(a, b, c)) == 0x80 | (c & 0x3F)
  {
  }

  lemma FourRange(a: bv8, b: bv8, c: bv8, d: bv8)
    requires a & 0xF8 == 0xF0
    ensures Four(a, b, c, d) >= 0x10000 <==> a > 0xF0 || b & 0x3F >= 0x10
    ensures Four(a, b, c, d) <= 0x10FFFF <==> a < 0xF4 || (a == 0xF4 && b & 0x3F < 0x10)
  {
  }

  lemma FourParts(a: bv8, b: bv8, c: bv8, d: bv8)
    requires a & 0xF8 == 0xF0
    ensures Head4(Four(a, b, c, d)) == a
    ensures Tail2(Four(a, b, c, d)) == 0x80 | (b & 0x3F)
    ensures Tail1(Four(a, b, c, d)) == 0x80 | (c & 0x3F)
    ensures Tail0(Four(a, b, c, d)) == 0x80 | (d & 0x3F)
  {
  }

  predicate IsEncoding(cp: bv32, bytes: Bytes) {
    IsScalar(cp) && Encode(cp) == bytes
  }

  lemma TwoFaithful(a: bv8, b: bv8)
    requires a & 0xE0 == 0xC0
    ensures IsEncoding(Two(a, b), [a, b]) <==> IsUnit([a, b])
  {
    LeadingByte(a);
    TailByte(b);
    TwoParts(a, b);
  }

  lemma ThreeFaithful(a: bv8, b: bv8, c: bv8)
    requires a & 0xF0 == 0xE0
    ensures IsEncoding(Three(a, b, c), [a, b, c]) <==> IsUnit([a, b, c])
  {
    LeadingByte(a);
    TailByte(b);
    TailByte(c);
    ThreeRange(a, b, c);
    ThreeParts(a, b, c);
  }

  lemma FourFaithful(a: bv8, b: bv8, c: bv8, d: bv8)
    requires a & 0xF8 == 0xF0
    ensures IsEncoding(Four(a, b, c, d), [a, b, c, d]) <==> IsUnit([a, b, c, d])
  {
    LeadingByte(a);
    TailByte(b);
    TailByte(c);
    TailByte(d);
    FourRange(a, b, c, d);
    FourParts(a, b, c, d);
  }

  /** One reading is faithful, its code point being a Unicode scalar value whose encoding is the bytes that
      were read, if and only if those bytes form a character. */
  lemma FaithfulIffUnit(text: Bytes)
    requires text != []
    ensures var r := NextCodepoint(text).value;
      IsEncoding(r.cp, text[..r.length]) <==> IsUnit(text[..r.length])
  {
    var length := NextCodepoint(text).value.length;
    LeadingByte(text[0]);
    if length == 1 {
      OneByte(text[0]);
    } else if length == 2 {
      TwoFaithful(text[0], text[1]);
      assert text[..2] == [text[0], text[1]];
    } else if length == 3 {
      ThreeFaithful(text[0], text[1], text[2]);
      assert text[..3] == [text[0], text[1], text[2]];
    } else {
      FourFaithful(text[0], text[1], text[2], text[3]);
      assert text[..4] == [text[0], text[1], text[2], text[3]];
    }
  }

  lemma TwoBack(cp: bv32)
    requires 0x80 <= cp < 0x800
    ensures Head2(cp) & 0x80 != 0 && Head2(cp) & 0xE0 == 0xC0 && Two(Head2(cp), Tail0(cp)) == cp
  {
  }

  lemma ThreeBack(cp: bv32)
    requires 0x800 <= cp < 0x10000
    ensures Head3(cp) & 0x80 != 0 && Head3(cp) & 0xE0 != 0xC0 && Head3(cp) & 0xF0 == 0xE0
    ensures Three(Head3(cp), Tail1(cp), Tail0(cp)) == cp
  {
  }

  lemma FourBack(cp: bv32)
    requires 0x10000 <= cp <= 0x10FFFF
    ensures Head4(cp) & 0x80 != 0 && Head4(cp) & 0xE0 != 0xC0 && Head4(cp) & 0xF0 != 0xE0 && Head4(cp) & 0xF8 == 0xF0
    ensures Four(Head4(cp), Tail2(cp), Tail1(cp), Tail0(cp)) == cp
  {
  }

  lemma OneBack(cp: bv32)
    requires cp < 0x80
    ensures ((cp & 0x7F) as bv8) & 0x80 == 0 && ((cp & 0x7F) as bv8) as bv32 == cp
  {
  }

  /** The encoding of a scalar value is read back, whatever follows it. */
  lemma ReadsEncoding(cp: bv32, rest: Bytes)
    requires IsScalar(cp)
    ensures NextCodepoint(Encode(cp) + rest) == Some(Reading(cp, |Encode(cp)|))
  {
    if cp < 0x80 {
      OneBack(cp);
    } else if cp < 0x800 {
      TwoBack(cp);
    } else if cp < 0x10000 {
      ThreeBack(cp);
    } else {
      FourBack(cp);
    }
  }

  lemma UnitIsRead(text: Bytes, n: nat)
    requires 0 < n <= |text| && IsUnit(text[..n])
    ensures NextCodepoint(text).value.length == n
  {
    LeadingByte(text[0]);
  }

  // ---------------------------------------------------------------- any bytes

  /** How many bytes the leading byte asks for. */
  function Wanted(lead: bv8): nat {
    if 0xC0 <= lead <= 0xDF then 2 else if 0xE0 <= lead <= 0xEF then 3 else if 0xF0 <= lead <= 0xF7 then 4 else 1
  }

  /** The low six bits of a byte, whatever the others are. */
  function Payload(b: bv8): bv32 {
    b as bv32 & 0x3F
  }

  predicate HasBits(r: Reading, text: Bytes)
    requires 1 <= r.length <= |text|
  {
    if r.length == 1 then r.cp == text[0] as bv32
    else if r.length == 2 then r.cp >> 6 == text[0] as bv32 - 0xC0 && r.cp & 0x3F == Payload(text[1])
    else if r.length == 3 then
      && r.cp >> 12 == text[0] as bv32 - 0xE0
      && (r.cp >> 6) & 0x3F == Payload(text[1]) && r.cp & 0x3F == Payload(text[2])
    else
      && r.length == 4 && r.cp >> 18 == text[0] as bv32 - 0xF0
      && (r.cp >> 12) & 0x3F == Payload(text[1]) && (r.cp >> 6) & 0x3F == Payload(text[2])
      && r.cp & 0x3F == Payload(text[3])
  }

  lemma TwoBits(a: bv8, b: bv8)
    requires 0xC0 <= a <= 0xDF
    ensures Two(a, b) >> 6 == a as bv32 - 0xC0 && Two(a, b) & 0x3F == Payload(b)
  {
  }

  lemma ThreeBits(a: bv8, b: bv8, c: bv8)
    requires 0xE0 <= a <= 0xEF
    ensures Three(a, b, c) >> 12 == a as bv32 - 0xE0
    ensures (Three(a, b, c) >> 6) & 0x3F == Payload(b) && Three(a, b, c) & 0x3F == Payload(c)
  {
  }

  lemma FourBits(a: bv8, b: bv8, c: bv8, d: bv8)
    requires 0xF0 <= a <= 0xF7
    ensures Four(a, b, c, d) >> 18 == a as bv32 - 0xF0 && (Four(a, b, c, d) >> 12) & 0x3F == Payload(b)
    ensures (Four(a, b, c, d) >> 6) & 0x3F == Payload(c) && Four(a, b, c, d) & 0x3F == Payload(d)
  {
  }

  /** What is read from any bytes, well-formed or not: as many as the leading byte asks for, if there are so many, and
      otherwise that byte alone and as itself. Of each byte after the first exactly the low six bits count. */
  lemma ReadsAny(text: Bytes)
    requires text != []
    ensures NextCodepoint(text).Some?
    ensures var r, want := NextCodepoint(text).value, Wanted(text[0]);
      r.length == (if want <= |text| then want else 1) && HasBits(r, text)
  {
    LeadingByte(text[0]);
    var want := Wanted(text[0]);
    if want == 2 && |text| > 1 {
      TwoBits(text[0], text[1]);
    } else if want == 3 && |text| > 2 {
      ThreeBits(text[0], text[1], text[2]);
    } else if want == 4 && |text| > 3 {
      FourBits(text[0], text[1], text[2], text[3]);
    }
  }

  // ---------------------------------------------------------------- a whole text

  const UTF8 := Coding(IsScalar, Encode, IsUnit)

  /** The reader and the encoding are what the theorems about scanning ask for. */
  lemma Utf8Fits()
    ensures Fits(NextCodepoint, UTF8)
  {
    var read: Reader, code := NextCodepoint, UTF8;
    forall text
      ensures IsStep(text, read(text))
    {
      assert read(text) == NextCodepoint(text);
    }
    forall cp, rest | code.isScalar(cp)
      ensures IsReadBack(read, code, cp, rest)
    {
      ReadsEncoding(cp, rest);
    }
    forall text | text != [] && IsStep(text, read(text))
      ensures var r := read(text).value;
        Faithful(code, r.cp, text[..r.length]) <==> code.isUnit(text[..r.length])
    {
      FaithfulIffUnit(text);
    }
    forall text, n | 0 < n <= |text| && code.isUnit(text[..n])
      ensures TakesFirst(read, text, n)
    {
      UnitIsRead(text, n);
    }
  }

  function CodePointsOf(text: Bytes): seq<bv32> {
    Utf8Fits();
    CodePoints(Decode(NextCodepoint, text))
  }

  /** Reading the encoding of any sequence of scalar values gives exactly those values. */
  lemma {:induction false} ReadsAllBack(cps: seq<bv32>)
    requires AllScalar(UTF8, cps)
    ensures CodePointsOf(EncodeAll(UTF8, cps)) == cps
  {
    Utf8Fits();
    DecodesEncoding(NextCodepoint, UTF8, cps);
  }

  /** The code points read from a text are scalar values that encode it if and only if the text is
      well-formed UTF-8. */
  lemma {:induction false} FaithfulIffWellFormed(text: Bytes)
    ensures AllScalar(UTF8, CodePointsOf(text)) && EncodeAll(UTF8, CodePointsOf(text)) == text
      <==> IsWellFormed(UTF8, text)
  {
    Utf8Fits();
    ByteScan.FaithfulIffWellFormed(NextCodepoint, UTF8, text);
  }

  /** On text that is not well-formed a reading can take in a character that follows: here the letter A. */
  lemma MalformedSwallows()
    ensures NextCodepoint([0xC3, 0x41]) == Some(Reading(0xC1, 2)) && NextCodepoint([0x41]) == Some(Reading(0x41, 1))
    ensures !IsUnit([0xC3, 0x41])
  {
  }
}
