/** Whitespace-delimited tokens: what they are, the loop that finds them, and trimming. */
module Tokens {
  import opened Text

  datatype Span = Span(start: nat, end: nat)

  ghost predicate Solid(text: string, s: int, e: int) {
    0 <= s <= e <= |text| && forall k :: s <= k < e ==> !IsSpace(text[k])
  }

  /** A maximal run of characters that are not whitespace. */
  ghost predicate IsToken(text: string, s: int, e: int) {
    && 0 <= s < e <= |text|
    && Solid(text, s, e)
    && (s == 0 || IsSpace(text[s - 1]))
    && (e == |text| || IsSpace(text[e]))
  }

  predicate Blank(text: string) {
    forall i :: 0 <= i < |text| ==> IsSpace(text[i])
  }

  ghost predicate Ordered(spans: seq<Span>) {
    forall i, j :: 0 <= i < j < |spans| ==> spans[i].end <= spans[j].start
  }

  ghost predicate HasSpan(spans: seq<Span>, s: int, e: int) {
    spans != [] &&
    ((spans[|spans| - 1].start == s && spans[|spans| - 1].end == e) || HasSpan(spans[..|spans| - 1], s, e))
  }

  lemma {:induction false} SpanIndex(spans: seq<Span>, s: int, e: int) returns (k: nat)
    requires HasSpan(spans, s, e)
    ensures k < |spans| && spans[k].start == s && spans[k].end == e
  {
    if spans[|spans| - 1].start == s && spans[|spans| - 1].end == e {
      k := |spans| - 1;
    } else {
      k := SpanIndex(spans[..|spans| - 1], s, e);
    }
  }

  lemma {:induction false} SpanAt(spans: seq<Span>, k: nat)
    requires k < |spans|
    ensures HasSpan(spans, spans[k].start, spans[k].end)
  {
    if k < |spans| - 1 {
      SpanAt(spans[..|spans| - 1], k);
    }
  }

  /** Every span is a token, and they come in order. */
  ghost predicate AreTokens(text: string, spans: seq<Span>) {
    Ordered(spans) && forall i :: 0 <= i < |spans| ==> IsToken(text, spans[i].start, spans[i].end)
  }

  /** Every token is among the spans. */
  ghost predicate AllTokens(text: string, spans: seq<Span>) {
    forall s, e :: IsToken(text, s, e) ==> HasSpan(spans, s, e)
  }

  /** `spans` are exactly the tokens of `text`, in order. */
  ghost predicate IsTokenization(text: string, spans: seq<Span>) {
    AreTokens(text, spans) && AllTokens(text, spans)
  }

  method TokenSpans(text: string) returns (spans: seq<Span>)
    ensures IsTokenization(text, spans)
  {
    spans := [];
    var i := 0;
    while i < |text|
      invariant i <= |text| && (i == 0 || i == |text| || IsSpace(text[i]))
      invariant Found(text, spans, i)
    {
      while i < |text| && IsSpace(text[i])
        invariant i <= |text| && (i == 0 || i == |text| || IsSpace(text[i]) || IsSpace(text[i - 1]))
        invariant Found(text, spans, i)
      {
        i := i + 1;
      }
      if i >= |text| {
        break;
      }
      var start := i;
      while i < |text| && !IsSpace(text[i])
        invariant start <= i <= |text| && Solid(text, start, i)
      {
        i := i + 1;
      }
      FoundOneMore(text, spans, start, i);
      spans := spans + [Span(start, i)];
    }
  }

  /** `spans` are exactly the tokens that begin before `i`, and all end by then. */
  ghost predicate Found(text: string, spans: seq<Span>, i: nat) {
    && Ordered(spans)
    && (forall k :: 0 <= k < |spans| ==> IsToken(text, spans[k].start, spans[k].end) && spans[k].end <= i)
    && (forall s, e :: IsToken(text, s, e) && s < i ==> HasSpan(spans, s, e))
  }

  lemma FoundOneMore(text: string, spans: seq<Span>, start: nat, i: nat)
    requires Found(text, spans, start) && IsToken(text, start, i)
    ensures Found(text, spans + [Span(start, i)], i)
  {
    var more := spans + [Span(start, i)];
    assert more[..|spans|] == spans;
    forall s, e | IsToken(text, s, e) && s < i ensures HasSpan(more, s, e) {
      if s >= start {
        TokensMeet(text, start, i, s, e);
      }
    }
  }

  /** Two tokens that share a position are the same token. */
  lemma TokensMeet(text: string, s: int, e: int, s': int, e': int)
    requires IsToken(text, s, e) && IsToken(text, s', e') && s <= s' < e
    ensures s == s' && e == e'
  {
  }

  method TrimCopy(value: string) returns (r: string)
    ensures exists a, b :: 0 <= a <= b <= |value| && r == value[a..b] && Blank(value[..a]) && Blank(value[b..])
    ensures r != "" ==> !IsSpace(r[0]) && !IsSpace(r[|r| - 1])
    ensures r == "" <==> Blank(value)
    ensures value != "" && !IsSpace(value[0]) && !IsSpace(value[|value| - 1]) ==> r == value
  {
    var start := 0;
    while start < |value| && IsSpace(value[start])
      invariant start <= |value| && Blank(value[..start])
    {
      start := start + 1;
    }
    var end := |value|;
    while end > start && IsSpace(value[end - 1])
      invariant start <= end <= |value| && Blank(value[end..])
    {
      end := end - 1;
    }
    r := value[start..end];
    if r == "" {
      assert value == value[..start] + value[end..];
    } else {
      assert r[0] == value[start];
    }
  }

  // ---------------------------------------------------------------- tokens of a part of a text

  /** A place where a text may be cut without cutting a token: its ends, or behind whitespace. */
  ghost predicate Cut(text: string, p: int) {
    0 <= p <= |text| && (p == 0 || p == |text| || IsSpace(text[p - 1]))
  }

  lemma PartSolid(text: string, a: int, b: int, s: int, e: int)
    requires 0 <= a <= s <= e <= b <= |text|
    ensures Solid(text[a..b], s - a, e - a) <==> Solid(text, s, e)
  {
    if Solid(text[a..b], s - a, e - a) {
      forall k | s <= k < e ensures !IsSpace(text[k]) {
        assert text[a..b][k - a] == text[k];
      }
    }
  }

  /** Between two cuts the tokens of a part are the tokens of the whole. */
  lemma PartToken(text: string, a: int, b: int, s: int, e: int)
    requires Cut(text, a) && Cut(text, b) && a <= s < e <= b
    ensures IsToken(text[a..b], s - a, e - a) <==> IsToken(text, s, e)
  {
    PartSolid(text, a, b, s, e);
  }

  /** A token never crosses a cut. */
  lemma TokenAvoidsCut(text: string, p: int, s: int, e: int)
    requires Cut(text, p) && IsToken(text, s, e)
    ensures e <= p || p <= s
  {
  }

  /** One more newline at the end changes no token. */
  lemma NewlineChangesNoToken(text: string, s: int, e: int)
    ensures IsToken(text + "\n", s, e) <==> IsToken(text, s, e)
  {
    var more := text + "\n";
    assert IsSpace(more[|text|]);
    if 0 <= s < e <= |more| {
      if e <= |text| {
        PartSolid(more, 0, |text|, s, e);
        assert more[0..|text|] == text;
      }
    }
  }

  ghost function ShiftBack(spans: seq<Span>, origin: nat): (r: seq<Span>)
    requires forall i :: 0 <= i < |spans| ==> origin <= spans[i].start && origin <= spans[i].end
    ensures |r| == |spans| && forall i :: 0 <= i < |r| ==> r[i] == Span(spans[i].start - origin, spans[i].end - origin)
  {
    seq(|spans|, i requires 0 <= i < |spans| => Span(spans[i].start - origin, spans[i].end - origin))
  }

  lemma StretchBounds(text: string, spans: seq<Span>, f: nat, l: nat)
    requires AreTokens(text, spans) && f < l <= |spans|
    ensures spans[f].start < spans[l - 1].end <= |text|
    ensures forall i :: f <= i < l ==> spans[f].start <= spans[i].start < spans[i].end <= spans[l - 1].end
    ensures !IsSpace(text[spans[f].start]) && !IsSpace(text[spans[l - 1].end - 1])
  {
    assert IsToken(text, spans[f].start, spans[f].end) && IsToken(text, spans[l - 1].start, spans[l - 1].end);
    forall i | f <= i < l ensures spans[f].start <= spans[i].start < spans[i].end <= spans[l - 1].end {
      assert IsToken(text, spans[i].start, spans[i].end);
    }
  }

  lemma ShiftedHas(spans: seq<Span>, f: nat, l: nat, k: nat)
    requires f <= k < l <= |spans|
    requires forall i :: f <= i < l ==> spans[f].start <= spans[i].start < spans[i].end
    ensures HasSpan(ShiftBack(spans[f..l], spans[f].start),
                    spans[k].start - spans[f].start, spans[k].end - spans[f].start)
  {
    SpanAt(ShiftBack(spans[f..l], spans[f].start), k - f);
    assert spans[f..l][k - f] == spans[k];
  }

  lemma StretchIndex(text: string, spans: seq<Span>, f: nat, l: nat, s: nat, e: nat) returns (k: nat)
    requires IsTokenization(text, spans) && f < l <= |spans|
    requires spans[f].start <= spans[l - 1].end <= |text|
    requires IsToken(text[spans[f].start..spans[l - 1].end], s, e)
    ensures f <= k < l && spans[k].start == s + spans[f].start && spans[k].end == e + spans[f].start
  {
    var a := spans[f].start;
    StretchToken(text, spans, f, l, s + a, e + a);
    k := SpanIndex(spans, s + a, e + a);
    assert IsToken(text, spans[f].start, spans[f].end) && IsToken(text, spans[l - 1].start, spans[l - 1].end);
  }

  lemma {:induction false} StretchComplete(text: string, spans: seq<Span>, f: nat, l: nat, s: nat, e: nat)
    requires IsTokenization(text, spans) && f < l <= |spans|
    requires spans[f].start <= spans[l - 1].end <= |text|
    requires forall i :: f <= i < l ==> spans[f].start <= spans[i].start < spans[i].end
    requires IsToken(text[spans[f].start..spans[l - 1].end], s, e)
    ensures HasSpan(ShiftBack(spans[f..l], spans[f].start), s, e)
  {
    var k := StretchIndex(text, spans, f, l, s, e);
    ShiftedHas(spans, f, l, k);
  }

  /** The tokens of a stretch from the start of token `f` to the end of token `l - 1` are those tokens. */
  lemma StretchTokens(text: string, spans: seq<Span>, f: nat, l: nat)
    requires IsTokenization(text, spans) && f < l <= |spans|
    requires spans[f].start <= spans[l - 1].end <= |text|
    ensures HasTokens(text[spans[f].start..spans[l - 1].end], l - f)
  {
    StretchBounds(text, spans, f, l);
    var a := spans[f].start;
    var part, shifted := text[a..spans[l - 1].end], ShiftBack(spans[f..l], a);
    forall i | 0 <= i < |shifted| ensures IsToken(part, shifted[i].start, shifted[i].end) {
      StretchToken(text, spans, f, l, spans[f + i].start, spans[f + i].end);
    }
    forall s, e | IsToken(part, s, e) ensures HasSpan(shifted, s, e) {
      StretchComplete(text, spans, f, l, s, e);
    }
    assert IsTokenization(part, shifted);
  }

  lemma StretchToken(text: string, spans: seq<Span>, f: nat, l: nat, s: int, e: int)
    requires AreTokens(text, spans) && f < l <= |spans|
    requires spans[f].start <= spans[l - 1].end <= |text|
    ensures var a, b := spans[f].start, spans[l - 1].end;
      IsToken(text[a..b], s - a, e - a) <==> a <= s && e <= b && IsToken(text, s, e)
  {
    var a, b := spans[f].start, spans[l - 1].end;
    assert IsToken(text, spans[f].start, spans[f].end) && IsToken(text, spans[l - 1].start, spans[l - 1].end);
    if a <= s < e <= b {
      PartSolid(text, a, b, s, e);
      if s > a {
        assert text[a..b][s - 1 - a] == text[s - 1];
      }
      if e < b {
        assert text[a..b][e - a] == text[e];
      }
    }
  }

  ghost predicate HasTokens(text: string, n: nat) {
    exists spans :: IsTokenization(text, spans) && |spans| == n
  }
}
