/**
 Scanning bytes for code points with a reader that takes one code point off the front at a time, and what
 that gives on encoded text. The reader and the encoding are parameters.
 */
module ByteScan {
  import opened Options

  type Bytes = seq<bv8>

  /** What one call reads: the code point and the number of bytes. */
  datatype Reading = Reading(cp: bv32, length: nat)

  type Reader = Bytes -> Option<Reading>

  /** The reader stops exactly at the end, makes progress and stays within the text. */
  ghost predicate IsReader(read: Reader) {
    forall text :: IsStep(text, read(text))
  }

  predicate IsStep(text: Bytes, r: Option<Reading>) {
    match r
    case None => text == []
    case Some(x) => 1 <= x.length <= |text|
  }

  datatype Piece = Piece(cp: bv32, bytes: Bytes)

  /** The pieces that the reading loop goes through. */
  function Decode(read: Reader, text: Bytes): (pieces: seq<Piece>)
    requires IsReader(read)
    ensures text != [] ==> pieces != []
    decreases |text|
  {
    assert IsStep(text, read(text));
    match read(text)
    case None => []
    case Some(r) => [Piece(r.cp, text[..r.length])] + Decode(read, text[r.length..])
  }

  function Joined(pieces: seq<Piece>): Bytes {
    if pieces == [] then [] else pieces[0].bytes + Joined(pieces[1..])
  }

  function CodePoints(pieces: seq<Piece>): seq<bv32> {
    if pieces == [] then [] else [pieces[0].cp] + CodePoints(pieces[1..])
  }

  lemma SplitAt(text: Bytes, n: nat)
    requires n <= |text|
    ensures text == text[..n] + text[n..]
  {
  }

  lemma {:induction false} JoinedFirst(piece: Piece, rest: seq<Piece>)
    ensures Joined([piece] + rest) == piece.bytes + Joined(rest)
  {
    assert ([piece] + rest)[1..] == rest;
  }

  /** On every byte string the pieces put together are the input. */
  lemma {:induction false} PiecesJoin(read: Reader, text: Bytes)
    requires IsReader(read)
    ensures Joined(Decode(read, text)) == text
    decreases |text|
  {
    assert IsStep(text, read(text));
    if text != [] {
      var r := read(text).value;
      PiecesJoin(read, text[r.length..]);
      JoinedFirst(Piece(r.cp, text[..r.length]), Decode(read, text[r.length..]));
      SplitAt(text, r.length);
    }
  }

  // ---------------------------------------------------------------- encoded text

  /** An encoding: the code points it covers, the bytes of each, and which byte strings are characters. */
  datatype Coding = Coding(isScalar: bv32 -> bool, encode: bv32 -> Bytes, isUnit: Bytes -> bool)

  predicate Faithful(code: Coding, cp: bv32, bytes: Bytes) {
    code.isScalar(cp) && code.encode(cp) == bytes
  }

  /** The reader reads back what the encoding writes. */
  ghost predicate ReadsBack(read: Reader, code: Coding) {
    forall cp, rest :: code.isScalar(cp) ==> IsReadBack(read, code, cp, rest)
  }

  predicate IsReadBack(read: Reader, code: Coding, cp: bv32, rest: Bytes) {
    code.encode(cp) != [] && read(code.encode(cp) + rest) == Some(Reading(cp, |code.encode(cp)|))
  }

  /** A reading is faithful exactly when the bytes it took are a character. */
  ghost predicate FaithfulOnUnits(read: Reader, code: Coding) {
    forall text :: text != [] && IsStep(text, read(text)) ==>
      var r := read(text).value;
      Faithful(code, r.cp, text[..r.length]) <==> code.isUnit(text[..r.length])
  }

  /** A character at the front of the text is what is read. */
  ghost predicate TakesUnits(read: Reader, code: Coding) {
    forall text, n :: 0 < n <= |text| && code.isUnit(text[..n]) ==> TakesFirst(read, text, n)
  }

  predicate TakesFirst(read: Reader, text: Bytes, n: nat) {
    read(text).Some? && read(text).value.length == n
  }

  ghost predicate Fits(read: Reader, code: Coding) {
    IsReader(read) && ReadsBack(read, code) && FaithfulOnUnits(read, code) && TakesUnits(read, code)
  }

  function EncodeAll(code: Coding, cps: seq<bv32>): Bytes {
    if cps == [] then [] else code.encode(cps[0]) + EncodeAll(code, cps[1..])
  }

  predicate AllScalar(code: Coding, cps: seq<bv32>) {
    cps == [] || (code.isScalar(cps[0]) && AllScalar(code, cps[1..]))
  }

  /** Well-formed text: characters one after another. */
  ghost predicate IsWellFormed(code: Coding, text: Bytes)
    decreases |text|
  {
    text == [] ||
    exists n {:trigger text[..n]} :: 0 < n <= |text| && code.isUnit(text[..n]) && IsWellFormed(code, text[n..])
  }

  lemma {:induction false} DecodeFirst(read: Reader, text: Bytes, cp: bv32, first: Bytes, rest: Bytes)
    requires IsReader(read)
    requires text == first + rest && first != [] && read(text) == Some(Reading(cp, |first|))
    ensures Decode(read, text) == [Piece(cp, first)] + Decode(read, rest)
  {
    assert text[..|first|] == first && text[|first|..] == rest;
  }

  lemma {:induction false} CodePointsOfMore(piece: Piece, rest: seq<Piece>)
    ensures CodePoints([piece] + rest) == [piece.cp] + CodePoints(rest)
  {
    assert ([piece] + rest)[1..] == rest;
  }

  lemma {:induction false} DecodesEncoding(read: Reader, code: Coding, cps: seq<bv32>)
    requires Fits(read, code) && AllScalar(code, cps)
    ensures CodePoints(Decode(read, EncodeAll(code, cps))) == cps
  {
    if cps != [] {
      var first, rest := code.encode(cps[0]), EncodeAll(code, cps[1..]);
      assert IsReadBack(read, code, cps[0], rest);
      DecodeFirst(read, first + rest, cps[0], first, rest);
      DecodesEncoding(read, code, cps[1..]);
      CodePointsOfMore(Piece(cps[0], first), Decode(read, rest));
      assert cps == [cps[0]] + cps[1..];
    } else {
      assert IsStep([], read([]));
    }
  }

  lemma {:induction false} EncodingIsWellFormed(read: Reader, code: Coding, cps: seq<bv32>)
    requires Fits(read, code) && AllScalar(code, cps)
    ensures IsWellFormed(code, EncodeAll(code, cps))
  {
    if cps != [] {
      var first, rest := code.encode(cps[0]), EncodeAll(code, cps[1..]);
      var text := first + rest;
      assert IsReadBack(read, code, cps[0], rest);
      assert IsStep(text, read(text));
      assert text[..|first|] == first && text[|first|..] == rest;
      assert Faithful(code, cps[0], first);
      EncodingIsWellFormed(read, code, cps[1..]);
    }
  }

  predicate AllFaithful(code: Coding, pieces: seq<Piece>) {
    pieces == [] || (Faithful(code, pieces[0].cp, pieces[0].bytes) && AllFaithful(code, pieces[1..]))
  }

  lemma {:induction false} FaithfulPiecesEncode(code: Coding, pieces: seq<Piece>)
    requires AllFaithful(code, pieces)
    ensures AllScalar(code, CodePoints(pieces)) && EncodeAll(code, CodePoints(pieces)) == Joined(pieces)
  {
    if pieces != [] {
      FaithfulPiecesEncode(code, pieces[1..]);
      assert CodePoints(pieces)[1..] == CodePoints(pieces[1..]);
    }
  }

  lemma {:induction false} FirstUnit(read: Reader, code: Coding, text: Bytes) returns (n: nat)
    requires Fits(read, code) && IsWellFormed(code, text) && text != []
    ensures 0 < n <= |text| && read(text).Some? && read(text).value.length == n
    ensures Faithful(code, read(text).value.cp, text[..n]) && IsWellFormed(code, text[n..])
  {
    n :| 0 < n <= |text| && code.isUnit(text[..n]) && IsWellFormed(code, text[n..]);
    assert TakesFirst(read, text, n);
    assert IsStep(text, read(text));
  }

  lemma {:induction false} FaithfulMore(code: Coding, piece: Piece, rest: seq<Piece>)
    requires Faithful(code, piece.cp, piece.bytes) && AllFaithful(code, rest)
    ensures AllFaithful(code, [piece] + rest)
  {
    assert ([piece] + rest)[1..] == rest;
  }

  lemma {:induction false} WellFormedPieces(read: Reader, code: Coding, text: Bytes)
    requires Fits(read, code) && IsWellFormed(code, text)
    ensures AllFaithful(code, Decode(read, text))
    decreases |text|
  {
    assert IsStep(text, read(text));
    if text != [] {
      var n := FirstUnit(read, code, text);
      var cp, first, rest := read(text).value.cp, text[..n], text[n..];
      WellFormedPieces(read, code, rest);
      SplitAt(text, n);
      DecodeFirst(read, text, cp, first, rest);
      FaithfulMore(code, Piece(cp, first), Decode(read, rest));
    }
  }

  /** The code points read from a text are covered by the encoding and encode the text if and only if the
      text is well-formed. */
  lemma {:induction false} FaithfulIffWellFormed(read: Reader, code: Coding, text: Bytes)
    requires Fits(read, code)
    ensures var cps := CodePoints(Decode(read, text));
      AllScalar(code, cps) && EncodeAll(code, cps) == text <==> IsWellFormed(code, text)
  {
    var cps := CodePoints(Decode(read, text));
    if IsWellFormed(code, text) {
      WellFormedPieces(read, code, text);
      FaithfulPiecesEncode(code, Decode(read, text));
      PiecesJoin(read, text);
    } else if AllScalar(code, cps) {
      EncodingIsWellFormed(read, code, cps);
    }
  }
}
