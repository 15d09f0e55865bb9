/** The search terms made of neighbouring Chinese, Japanese and Korean characters. */
module CjkNgrams {
  import opened ByteScan
  import opened Ngrams
  import opened Sorting
  import opened Utf8

  predicate IsCjk(cp: bv32) {
    0x3400 <= cp <= 0x4DBF || 0x4E00 <= cp <= 0x9FFF || 0xF900 <= cp <= 0xFAFF
    || 0x3040 <= cp <= 0x30FF || 0xAC00 <= cp <= 0xD7AF
  }

  /** The first and last code points of the blocks, by their names in the Unicode Standard, and their neighbours. */
  lemma BlockEdges()
    ensures !IsCjk(0x303F) && IsCjk(0x3040) && IsCjk(0x30FF) && !IsCjk(0x3100)   // Hiragana and Katakana
    ensures !IsCjk(0x33FF) && IsCjk(0x3400) && IsCjk(0x4DBF) && !IsCjk(0x4DC0)   // CJK Unified Ideographs Extension A
    ensures !IsCjk(0x4DFF) && IsCjk(0x4E00) && IsCjk(0x9FFF) && !IsCjk(0xA000)   // CJK Unified Ideographs
    ensures !IsCjk(0xABFF) && IsCjk(0xAC00) && IsCjk(0xD7AF) && !IsCjk(0xD7B0)   // Hangul Syllables
    ensures !IsCjk(0xF8FF) && IsCjk(0xF900) && IsCjk(0xFAFF) && !IsCjk(0xFB00)   // CJK Compatibility Ideographs
  {
  }

  /** Every such character takes three bytes. */
  lemma ThreeBytesEach(cp: bv32)
    requires IsCjk(cp)
    ensures IsScalar(cp) && |Encode(cp)| == 3
  {
  }

  /** The order of byte strings: by the first byte in which they differ, and a prefix first. */
  predicate Before(a: Bytes, b: Bytes) {
    b != [] && (a == [] || a[0] < b[0] || (a[0] == b[0] && Before(a[1..], b[1..])))
  }

  lemma {:induction false} BeforeIsStrict(a: Bytes)
    ensures !Before(a, a)
  {
    if a != [] {
      BeforeIsStrict(a[1..]);
    }
  }

  lemma {:induction false} BeforeIsTransitive(a: Bytes, b: Bytes, c: Bytes)
    requires Before(a, b) && Before(b, c)
    ensures Before(a, c)
  {
    if a != [] && a[0] == b[0] == c[0] {
      BeforeIsTransitive(a[1..], b[1..], c[1..]);
    }
  }

  lemma {:induction false} BeforeIsTotal(a: Bytes, b: Bytes)
    ensures Before(a, b) || a == b || Before(b, a)
  {
    if a != [] && b != [] && a[0] == b[0] {
      BeforeIsTotal(a[1..], b[1..]);
      assert a == [a[0]] + a[1..] && b == [b[0]] + b[1..];
    }
  }

  lemma {:induction false} BeforeIsOrder()
    ensures IsOrder(Before)
  {
    forall a
      ensures !Before(a, a)
    {
      BeforeIsStrict(a);
    }
    forall a, b, c | Before(a, b) && Before(b, c)
      ensures Before(a, c)
    {
      BeforeIsTransitive(a, b, c);
    }
    forall a, b
      ensures Before(a, b) || a == b || Before(b, a)
    {
      BeforeIsTotal(a, b);
    }
  }

  /** The terms of a text, told by its pieces. */
  ghost predicate IsCjkTerm(text: Bytes, n: nat, term: Bytes) {
    Utf8Fits();
    IsTerm(IsCjk, Decode(NextCodepoint, text), n, term)
  }

  /** In ascending order and each once, the windows of `n` characters of the runs in the text, and the single
      characters of shorter runs. */
  method ExtractCjkNgrams(text: Bytes, n: nat) returns (grams: seq<Bytes>)
    ensures Ascending(Before, grams)
    ensures forall term :: term in grams <==> IsCjkTerm(text, n, term)
  {
    Utf8Fits();
    BeforeIsOrder();
    grams := ExtractNgrams(NextCodepoint, IsCjk, Before, text, n);
  }

  /** Every term stands in the text as it is, on any input, well-formed or not. */
  lemma TermsAreInText(text: Bytes, n: nat, term: Bytes) returns (a: nat, b: nat)
    requires IsCjkTerm(text, n, term)
    ensures a <= b <= |text| && text[a..b] == term
  {
    Utf8Fits();
    a, b := Ngrams.TermsAreInText(NextCodepoint, IsCjk, text, n, term);
  }

  /** The order and the terms determine the list. */
  lemma ListIsUnique(text: Bytes, n: nat, grams: seq<Bytes>, others: seq<Bytes>)
    requires Ascending(Before, grams) && forall term :: term in grams <==> IsCjkTerm(text, n, term)
    requires Ascending(Before, others) && forall term :: term in others <==> IsCjkTerm(text, n, term)
    ensures grams == others
  {
    BeforeIsOrder();
    SortedIsUnique(Before, grams, others);
  }
}
