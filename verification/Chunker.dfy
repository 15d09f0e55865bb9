/** From a document to its chunks: sections, windows over their tokens, and where each chunk lies in
    the original text. */
module Chunker {
  import opened Numbers
  import opened Slices
  import opened Text
  import opened Tokens
  import opened Windows
  import opened Sections

  datatype Chunk = Chunk(content: string, charStart: nat, charEnd: nat, tokenCount: nat, heading: string)

  /** How a document is cut: not at all, or at the lines a test picks out. */
  datatype Strategy = WholeText | AtLines(starts: string -> bool, labelOf: string -> string)

  // ---------------------------------------------------------------- one section

  ghost predicate IsChunk(sec: Section, spans: seq<Span>, w: Window, c: Chunk) {
    && w.first < w.last <= |spans|
    && var a, b := spans[w.first].start, spans[w.last - 1].end;
    && a <= b <= |sec.text|
    && c == Chunk(sec.text[a..b], sec.charStart + a, sec.charStart + b, w.last - w.first, sec.heading)
  }

  ghost predicate AreChunks(sec: Section, spans: seq<Span>, ws: seq<Window>, chunks: seq<Chunk>)
    decreases |ws|
  {
    |chunks| == |ws| &&
    (ws == [] ||
     (IsChunk(sec, spans, ws[|ws| - 1], chunks[|ws| - 1]) && AreChunks(sec, spans, ws[..|ws| - 1], chunks[..|ws| - 1])))
  }

  lemma {:induction false} ChunkAt(sec: Section, spans: seq<Span>, ws: seq<Window>, chunks: seq<Chunk>, k: nat)
    requires AreChunks(sec, spans, ws, chunks) && k < |ws|
    ensures IsChunk(sec, spans, ws[k], chunks[k])
  {
    if k < |ws| - 1 {
      ChunkAt(sec, spans, ws[..|ws| - 1], chunks[..|ws| - 1], k);
    }
  }

  /** The chunk of one window. Its text is trimmed, which changes nothing. */
  method CutChunk(sec: Section, spans: seq<Span>, w: Window) returns (c: Chunk)
    requires AreTokens(sec.text, spans) && w.first < w.last <= |spans|
    ensures IsChunk(sec, spans, w, c) && c.content != ""
  {
    StretchBounds(sec.text, spans, w.first, w.last);
    var charStart, charEnd := spans[w.first].start, spans[w.last - 1].end;
    var content := TrimCopy(sec.text[charStart..charEnd]);
    c := Chunk(content, sec.charStart + charStart, sec.charStart + charEnd, w.last - w.first, sec.heading);
  }

  lemma {:induction false} OneMoreWindow(n: nat, budget: nat, step: nat, ws: seq<Window>, w: Window)
    requires Opened(n, budget, step, ws) && w.first < n && w.last == Min(n, w.first + budget) && budget >= 1
    requires w.first == if ws == [] then 0 else ws[|ws| - 1].first + step
    requires ws != [] ==> ws[|ws| - 1].last < n
    ensures Opened(n, budget, step, ws + [w])
  {
    assert (ws + [w])[..|ws|] == ws;
  }

  lemma {:induction false} OneMoreChunk(sec: Section, spans: seq<Span>, ws: seq<Window>, chunks: seq<Chunk>,
        w: Window, c: Chunk)
    requires AreChunks(sec, spans, ws, chunks) && IsChunk(sec, spans, w, c)
    ensures AreChunks(sec, spans, ws + [w], chunks + [c])
  {
    assert (ws + [w])[..|ws|] == ws && (chunks + [c])[..|ws|] == chunks;
  }

  /** The windows of one section, one chunk each. */
  method ChunkSection(sec: Section, spans: seq<Span>, budget: nat, overlap: nat)
    returns (chunks: seq<Chunk>, ghost ws: seq<Window>)
    requires overlap < budget && spans != [] && AreTokens(sec.text, spans)
    ensures AreWindows(|spans|, budget, budget - overlap, ws) && AreChunks(sec, spans, ws, chunks)
  {
    chunks, ws := [], [];
    var step := if budget > overlap then budget - overlap else budget;
    var startToken := 0;
    while startToken < |spans|
      invariant startToken < |spans|
      invariant Opened(|spans|, budget, step, ws) && AreChunks(sec, spans, ws, chunks)
      invariant startToken == if ws == [] then 0 else ws[|ws| - 1].first + step
      invariant ws != [] ==> ws[|ws| - 1].last < |spans|
      decreases |spans| - startToken
    {
      var endToken := Min(|spans|, startToken + budget);
      var w := Window(startToken, endToken);
      var c := CutChunk(sec, spans, w);
      if c.content != "" {
        OneMoreWindow(|spans|, budget, step, ws, w);
        OneMoreChunk(sec, spans, ws, chunks, w, c);
        ws, chunks := ws + [w], chunks + [c];
      }
      if endToken == |spans| {
        return;
      }
      startToken := startToken + step;
    }
  }

  // ---------------------------------------------------------------- chunks in a document

  /** A chunk is the stretch of `doc` its offsets name, begins and ends with text, and counts its tokens. */
  ghost predicate InPlace(doc: string, budget: nat, c: Chunk) {
    && c.charStart < c.charEnd <= |doc| && doc[c.charStart..c.charEnd] == c.content
    && !IsSpace(doc[c.charStart]) && !IsSpace(doc[c.charEnd - 1])
    && 1 <= c.tokenCount <= budget && HasTokens(c.content, c.tokenCount)
  }

  ghost predicate Before(c: Chunk, d: Chunk) {
    c.charStart < d.charStart && c.charEnd < d.charEnd
  }

  /** Each chunk lies in place, and begins and ends after the chunk before it. */
  ghost predicate AllInPlace(doc: string, budget: nat, chunks: seq<Chunk>)
    decreases |chunks|
  {
    chunks == [] ||
    var n := |chunks| - 1;
    && InPlace(doc, budget, chunks[n])
    && (n > 0 ==> Before(chunks[n - 1], chunks[n]))
    && AllInPlace(doc, budget, chunks[..n])
  }

  ghost predicate Within(c: Chunk, s: int, e: int) {
    c.charStart <= s && e <= c.charEnd
  }

  ghost predicate InSomeChunk(chunks: seq<Chunk>, s: int, e: int)
    decreases |chunks|
  {
    chunks != [] && (Within(chunks[|chunks| - 1], s, e) || InSomeChunk(chunks[..|chunks| - 1], s, e))
  }

  /** Every token of `doc` between `a` and `b` lies in some chunk. */
  ghost predicate Keeps(doc: string, a: int, b: int, chunks: seq<Chunk>) {
    forall s, e :: IsToken(doc, s, e) && a <= s && e <= b ==> InSomeChunk(chunks, s, e)
  }

  ghost predicate EndsBy(chunks: seq<Chunk>, p: int) {
    chunks != [] ==> chunks[|chunks| - 1].charEnd <= p
  }

  ghost predicate StartsFrom(chunks: seq<Chunk>, p: int) {
    chunks != [] ==> p <= chunks[0].charStart
  }

  // ---------------------------------------------------------------- one section in place

  lemma ChunkText(doc: string, sec: Section, a: nat, b: nat)
    requires IsPart(doc, sec) && a < b <= |sec.text|
    ensures var (s, e) := (sec.charStart + a, sec.charStart + b);
      e <= |doc| && doc[s..e] == sec.text[a..b] && doc[s] == sec.text[a] && doc[e - 1] == sec.text[b - 1]
  {
    SliceOfSlice(doc, sec.charStart, sec.End(), a, b);
    assert sec.text[a] == doc[sec.charStart + a] && sec.text[b - 1] == doc[sec.charStart + b - 1];
  }

  /** All that `InPlace` says but the token count. */
  lemma ChunkLies(doc: string, sec: Section, spans: seq<Span>, w: Window, c: Chunk)
    requires AreTokens(sec.text, spans) && IsPart(doc, sec) && IsChunk(sec, spans, w, c)
    ensures sec.charStart <= c.charStart < c.charEnd <= sec.End() <= |doc|
    ensures doc[c.charStart..c.charEnd] == c.content
    ensures !IsSpace(doc[c.charStart]) && !IsSpace(doc[c.charEnd - 1])
  {
    StretchBounds(sec.text, spans, w.first, w.last);
    ChunkText(doc, sec, spans[w.first].start, spans[w.last - 1].end);
  }

  lemma ChunkCounts(sec: Section, spans: seq<Span>, w: Window, c: Chunk)
    requires IsTokenization(sec.text, spans) && IsChunk(sec, spans, w, c)
    ensures c.tokenCount == w.last - w.first && HasTokens(c.content, c.tokenCount)
  {
    StretchTokens(sec.text, spans, w.first, w.last);
  }

  lemma ChunkInPlace(doc: string, sec: Section, spans: seq<Span>, budget: nat, w: Window, c: Chunk)
    requires IsTokenization(sec.text, spans) && IsPart(doc, sec)
    requires IsChunk(sec, spans, w, c) && w.last - w.first <= budget
    ensures InPlace(doc, budget, c) && sec.charStart <= c.charStart && c.charEnd <= sec.End()
  {
    ChunkLies(doc, sec, spans, w, c);
    ChunkCounts(sec, spans, w, c);
  }

  lemma {:induction false} ChunksOrdered(sec: Section, spans: seq<Span>, n: nat, budget: nat, step: nat,
        ws: seq<Window>, chunks: seq<Chunk>, k: nat)
    requires AreTokens(sec.text, spans) && n == |spans| && step >= 1
    requires Opened(n, budget, step, ws) && AreChunks(sec, spans, ws, chunks) && 0 < k < |ws|
    ensures Before(chunks[k - 1], chunks[k])
  {
    WindowsAdvance(n, budget, step, ws, k);
    var v, w := ws[k - 1], ws[k];
    ChunkAt(sec, spans, ws, chunks, k - 1);
    ChunkAt(sec, spans, ws, chunks, k);
    assert IsToken(sec.text, spans[v.first].start, spans[v.first].end);
    assert IsToken(sec.text, spans[w.last - 1].start, spans[w.last - 1].end);
  }

  lemma {:induction false} SectionInPlace(doc: string, budget: nat, sec: Section, chunks: seq<Chunk>, n: nat)
    requires n <= |chunks|
    requires forall k :: 0 <= k < |chunks| ==> InPlace(doc, budget, chunks[k])
    requires forall k :: 0 <= k < |chunks| ==> sec.charStart <= chunks[k].charStart && chunks[k].charEnd <= sec.End()
    requires forall k :: 0 < k < |chunks| ==> Before(chunks[k - 1], chunks[k])
    ensures AllInPlace(doc, budget, chunks[..n])
    ensures EndsBy(chunks[..n], sec.End()) && StartsFrom(chunks[..n], sec.charStart)
  {
    if n > 0 {
      SectionInPlace(doc, budget, sec, chunks, n - 1);
      assert chunks[..n][..n - 1] == chunks[..n - 1];
    }
  }

  lemma {:induction false} ChunkHolds(chunks: seq<Chunk>, k: nat, s: int, e: int)
    requires k < |chunks| && Within(chunks[k], s, e)
    ensures InSomeChunk(chunks, s, e)
  {
    if k < |chunks| - 1 {
      ChunkHolds(chunks[..|chunks| - 1], k, s, e);
    }
  }

  lemma SectionSpan(doc: string, sec: Section, spans: seq<Span>, s: int, e: int) returns (i: nat)
    requires AllTokens(sec.text, spans) && IsPart(doc, sec) && Cut(doc, sec.charStart)
    requires IsToken(doc, s, e) && sec.charStart <= s && e <= sec.End()
    ensures i < |spans| && sec.charStart + spans[i].start == s && sec.charStart + spans[i].end == e
  {
    PartToken(doc, sec.charStart, sec.End(), s, e);
    i := SpanIndex(spans, s - sec.charStart, e - sec.charStart);
  }

  lemma WindowHolds(sec: Section, spans: seq<Span>, w: Window, chunks: seq<Chunk>, k: nat, i: nat)
    requires AreTokens(sec.text, spans) && k < |chunks| && IsChunk(sec, spans, w, chunks[k]) && w.first <= i < w.last
    ensures Held(sec, spans, chunks, i)
  {
    SpanInWindow(sec, spans, w, chunks[k], i);
    ChunkHolds(chunks, k, sec.charStart + spans[i].start, sec.charStart + spans[i].end);
  }

  lemma {:induction false} TokenHeld(sec: Section, spans: seq<Span>, budget: nat, overlap: nat,
        ws: seq<Window>, chunks: seq<Chunk>, i: nat)
    requires AreTokens(sec.text, spans) && overlap < budget && i < |spans|
    requires AreWindows(|spans|, budget, budget - overlap, ws) && AreChunks(sec, spans, ws, chunks)
    ensures Held(sec, spans, chunks, i)
  {
    var k := Covering(|spans|, budget, overlap, ws, i);
    ChunkAt(sec, spans, ws, chunks, k);
    WindowHolds(sec, spans, ws[k], chunks, k, i);
  }

  lemma SpanInWindow(sec: Section, spans: seq<Span>, w: Window, c: Chunk, i: nat)
    requires AreTokens(sec.text, spans) && IsChunk(sec, spans, w, c) && w.first <= i < w.last
    ensures Within(c, sec.charStart + spans[i].start, sec.charStart + spans[i].end)
  {
    StretchBounds(sec.text, spans, w.first, w.last);
  }

  /** What one section contributes: chunks in place, within the section, keeping all its tokens. */
  ghost predicate Contributes(doc: string, budget: nat, sec: Section, chunks: seq<Chunk>) {
    && AllInPlace(doc, budget, chunks)
    && EndsBy(chunks, sec.End()) && StartsFrom(chunks, sec.charStart)
    && Keeps(doc, sec.charStart, sec.End(), chunks)
  }

  lemma {:induction false} WindowsInPlace(doc: string, sec: Section, spans: seq<Span>, budget: nat, overlap: nat,
                       ws: seq<Window>, chunks: seq<Chunk>)
    requires IsTokenization(sec.text, spans) && IsPart(doc, sec) && overlap < budget
    requires AreWindows(|spans|, budget, budget - overlap, ws) && AreChunks(sec, spans, ws, chunks)
    ensures AllInPlace(doc, budget, chunks) && EndsBy(chunks, sec.End()) && StartsFrom(chunks, sec.charStart)
  {
    forall k | 0 <= k < |chunks|
      ensures InPlace(doc, budget, chunks[k]) && sec.charStart <= chunks[k].charStart && chunks[k].charEnd <= sec.End()
    {
      WindowAt(|spans|, budget, budget - overlap, ws, k);
      ChunkAt(sec, spans, ws, chunks, k);
      ChunkInPlace(doc, sec, spans, budget, ws[k], chunks[k]);
    }
    forall k | 0 < k < |chunks| ensures Before(chunks[k - 1], chunks[k]) {
      ChunksOrdered(sec, spans, |spans|, budget, budget - overlap, ws, chunks, k);
    }
    SectionInPlace(doc, budget, sec, chunks, |chunks|);
    assert chunks[..|chunks|] == chunks;
  }

  lemma {:induction false} SectionContributes(doc: string, sec: Section, spans: seq<Span>, budget: nat, overlap: nat,
                           ws: seq<Window>, chunks: seq<Chunk>)
    requires IsTokenization(sec.text, spans) && IsPart(doc, sec) && Cut(doc, sec.charStart) && overlap < budget
    requires AreWindows(|spans|, budget, budget - overlap, ws) && AreChunks(sec, spans, ws, chunks)
    ensures Contributes(doc, budget, sec, chunks)
  {
    WindowsInPlace(doc, sec, spans, budget, overlap, ws, chunks);
    forall i | 0 <= i < |spans| ensures Held(sec, spans, chunks, i) {
      TokenHeld(sec, spans, budget, overlap, ws, chunks, i);
    }
    SectionKeeps(doc, sec, spans, chunks);
  }

  ghost predicate Held(sec: Section, spans: seq<Span>, chunks: seq<Chunk>, i: nat)
    requires i < |spans|
  {
    InSomeChunk(chunks, sec.charStart + spans[i].start, sec.charStart + spans[i].end)
  }

  lemma SectionKeeps(doc: string, sec: Section, spans: seq<Span>, chunks: seq<Chunk>)
    requires AllTokens(sec.text, spans) && IsPart(doc, sec) && Cut(doc, sec.charStart)
    requires forall i :: 0 <= i < |spans| ==> Held(sec, spans, chunks, i)
    ensures Keeps(doc, sec.charStart, sec.End(), chunks)
  {
    forall s, e | IsToken(doc, s, e) && sec.charStart <= s && e <= sec.End() ensures InSomeChunk(chunks, s, e) {
      var i := SectionSpan(doc, sec, spans, s, e);
      assert Held(sec, spans, chunks, i);
    }
  }

  lemma EmptyContributes(doc: string, sec: Section, budget: nat)
    requires IsTokenization(sec.text, []) && IsPart(doc, sec) && Cut(doc, sec.charStart)
    ensures Contributes(doc, budget, sec, [])
  {
    forall s, e | IsToken(doc, s, e) && sec.charStart <= s && e <= sec.End() ensures false {
      PartToken(doc, sec.charStart, sec.End(), s, e);
    }
  }

  // ---------------------------------------------------------------- all sections

  /** Exactly the chunks of one section: one for each window over its tokens. */
  ghost predicate SectionChunks(sec: Section, budget: nat, overlap: nat, chunks: seq<Chunk>) {
    exists spans, ws :: AreChunks(sec, spans, ws, chunks) && IsTokenization(sec.text, spans) &&
      if spans == [] then ws == [] else overlap < budget && AreWindows(|spans|, budget, budget - overlap, ws)
  }

  /** Exactly the chunks of all sections, section by section. */
  ghost predicate Assembled(sections: seq<Section>, budget: nat, overlap: nat, chunks: seq<Chunk>)
    decreases |sections|
  {
    if sections == [] then chunks == []
    else exists n :: 0 <= n <= |chunks| && AssembledAt(sections, budget, overlap, chunks, n)
  }

  ghost predicate AssembledAt(sections: seq<Section>, budget: nat, overlap: nat, chunks: seq<Chunk>, n: nat)
    requires sections != [] && n <= |chunks|
    decreases |sections|, 0
  {
    && Assembled(sections[..|sections| - 1], budget, overlap, chunks[..n])
    && SectionChunks(sections[|sections| - 1], budget, overlap, chunks[n..])
  }

  lemma {:induction false} AssembleMore(sections: seq<Section>, i: nat, budget: nat, overlap: nat,
        chunks: seq<Chunk>, more: seq<Chunk>)
    requires i < |sections| && Assembled(sections[..i], budget, overlap, chunks)
    requires SectionChunks(sections[i], budget, overlap, more)
    ensures Assembled(sections[..i + 1], budget, overlap, chunks + more)
  {
    var all := chunks + more;
    assert all[..|chunks|] == chunks && all[|chunks|..] == more;
    assert sections[..i + 1][..i] == sections[..i];
    assert AssembledAt(sections[..i + 1], budget, overlap, all, |chunks|);
  }

  /** The chunks of the text before `p`. */
  ghost predicate Done(doc: string, budget: nat, p: nat, chunks: seq<Chunk>) {
    p <= |doc| && AllInPlace(doc, budget, chunks) && EndsBy(chunks, p) && Keeps(doc, 0, p, chunks)
  }

  lemma {:induction false} InMoreChunks(cs: seq<Chunk>, ds: seq<Chunk>, s: int, e: int)
    requires InSomeChunk(cs, s, e) || InSomeChunk(ds, s, e)
    ensures InSomeChunk(cs + ds, s, e)
    decreases |ds|
  {
    if ds == [] {
      assert cs + ds == cs;
    } else {
      assert (cs + ds)[..|cs + ds| - 1] == cs + ds[..|ds| - 1];
      if !Within(ds[|ds| - 1], s, e) {
        InMoreChunks(cs, ds[..|ds| - 1], s, e);
      }
    }
  }

  lemma {:induction false} MoreInPlace(doc: string, budget: nat, p: int, cs: seq<Chunk>, ds: seq<Chunk>)
    requires AllInPlace(doc, budget, cs) && AllInPlace(doc, budget, ds) && EndsBy(cs, p) && StartsFrom(ds, p)
    ensures AllInPlace(doc, budget, cs + ds)
    decreases |ds|
  {
    if ds == [] {
      assert cs + ds == cs;
    } else {
      var n := |ds| - 1;
      assert (cs + ds)[..|cs + ds| - 1] == cs + ds[..n];
      MoreInPlace(doc, budget, p, cs, ds[..n]);
      if n == 0 && cs != [] {
        LastInPlace(doc, budget, cs);
      }
    }
  }

  lemma {:induction false} LastInPlace(doc: string, budget: nat, cs: seq<Chunk>)
    requires AllInPlace(doc, budget, cs) && cs != []
    ensures InPlace(doc, budget, cs[|cs| - 1])
  {
  }

  lemma OneMoreSection(doc: string, budget: nat, sec: Section, cs: seq<Chunk>, ds: seq<Chunk>)
    requires Done(doc, budget, sec.charStart, cs) && Contributes(doc, budget, sec, ds)
    requires IsPart(doc, sec) && Cut(doc, sec.charStart)
    ensures Done(doc, budget, sec.End(), cs + ds)
  {
    MoreInPlace(doc, budget, sec.charStart, cs, ds);
    forall s, e | IsToken(doc, s, e) && 0 <= s && e <= sec.End() ensures InSomeChunk(cs + ds, s, e) {
      TokenAvoidsCut(doc, sec.charStart, s, e);
      InMoreChunks(cs, ds, s, e);
    }
    if ds == [] {
      assert cs + ds == cs;
    }
  }

  function EndBefore(sections: seq<Section>, i: nat): nat
    requires i <= |sections|
  {
    if i == 0 then 0 else sections[i - 1].End()
  }

  /** Section `i` of a tiling begins where the one before it ends. */
  lemma {:induction false} TileAt(doc: string, sections: seq<Section>, p: nat, i: nat)
    requires Tiles(doc, sections, p) && i < |sections|
    ensures IsPart(doc, sections[i]) && sections[i].charStart == EndBefore(sections, i)
    ensures Cut(doc, sections[i].charStart)
  {
    var n := |sections| - 1;
    if i < n {
      TileAt(doc, sections[..n], sections[n].charStart, i);
    } else if n > 0 {
      assert sections[..n][n - 1] == sections[n - 1];
    }
  }

  lemma {:induction false} TilesEnd(doc: string, sections: seq<Section>, p: nat)
    requires Tiles(doc, sections, p)
    ensures EndBefore(sections, |sections|) == p
  {
  }

  function OneLess(n: nat): nat {
    if n > 0 then n - 1 else 0
  }

  method ChunkSections(ghost doc: string, sections: seq<Section>, config: Config, budget: nat)
    returns (chunks: seq<Chunk>)
    requires budget >= 1 && Covers(doc, sections)
    ensures AllInPlace(doc, budget, chunks) && Keeps(doc, 0, |doc|, chunks)
    ensures Assembled(sections, budget, Min(config.overlapTokens, budget - 1), chunks)
  {
    ghost var p :| 0 <= p <= |doc| && Tiles(doc, sections, p) && Blank(doc[p..]);
    var overlap := Min(config.overlapTokens, OneLess(budget));
    chunks := [];
    for i := 0 to |sections|
      invariant Done(doc, budget, EndBefore(sections, i), chunks)
      invariant Assembled(sections[..i], budget, overlap, chunks)
    {
      TileAt(doc, sections, p, i);
      var sec := sections[i];
      var spans := TokenSpans(sec.text);
      if spans == [] {
        EmptyContributes(doc, sec, budget);
        OneMoreSection(doc, budget, sec, chunks, []);
        assert AreChunks(sec, [], [], []);
        AssembleMore(sections, i, budget, overlap, chunks, []);
        assert chunks + [] == chunks;
        continue;
      }
      var more, ws := ChunkSection(sec, spans, budget, overlap);
      SectionContributes(doc, sec, spans, budget, overlap, ws, more);
      OneMoreSection(doc, budget, sec, chunks, more);
      AssembleMore(sections, i, budget, overlap, chunks, more);
      chunks := chunks + more;
    }
    assert sections[..|sections|] == sections;
    TilesEnd(doc, sections, p);
    NothingBehind(doc, p, chunks);
  }

  lemma NothingBehind(doc: string, p: nat, chunks: seq<Chunk>)
    requires p <= |doc| && Blank(doc[p..]) && Keeps(doc, 0, p, chunks)
    ensures Keeps(doc, 0, |doc|, chunks)
  {
    forall i | p <= i < |doc| ensures IsSpace(doc[i]) {
      assert doc[i] == doc[p..][i - p];
    }
    forall s, e | IsToken(doc, s, e) ensures e <= p {
      assert !IsSpace(doc[e - 1]);
    }
  }

  // ---------------------------------------------------------------- the document

  /** The chunks point at the original text and lose none of its tokens. */
  ghost predicate Faithful(content: string, budget: nat, chunks: seq<Chunk>) {
    AllInPlace(content, budget, chunks) && Keeps(content, 0, |content|, chunks)
  }

  lemma {:induction false} InPlaceUnpadded(content: string, budget: nat, chunks: seq<Chunk>)
    requires AllInPlace(Padded(content), budget, chunks)
    ensures AllInPlace(content, budget, chunks)
    decreases |chunks|
  {
    if chunks != [] {
      var c := chunks[|chunks| - 1];
      InPlaceUnpadded(content, budget, chunks[..|chunks| - 1]);
      assert c.charEnd <= |content|;
      assert Padded(content)[c.charStart..c.charEnd] == content[c.charStart..c.charEnd];
    }
  }

  lemma KeepsUnpadded(content: string, chunks: seq<Chunk>)
    requires Keeps(Padded(content), 0, |Padded(content)|, chunks)
    ensures Keeps(content, 0, |content|, chunks)
  {
    forall s, e | IsToken(content, s, e) ensures InSomeChunk(chunks, s, e) {
      NewlineChangesNoToken(content, s, e);
    }
  }

  /** The chunks are those of the sections the strategy cuts the document into. */
  ghost predicate Produced(content: string, strategy: Strategy, budget: nat, overlap: nat, chunks: seq<Chunk>) {
    match strategy
    case WholeText => Assembled([Section(content, 0, "")], budget, overlap, chunks)
    case AtLines(starts, labelOf) =>
      exists sections :: IsSplit(content, starts, labelOf, sections) && Assembled(sections, budget, overlap, chunks)
  }

  /** The overlap of a document: what the settings give, but always below the budget. */
  ghost predicate UsesOverlap(settings: Config, budget: nat, overlap: nat) {
    exists configured: nat :: HasOverlap(settings, configured) && overlap == Min(configured, budget - 1)
  }

  method ChunkDocument(content: string, strategy: Strategy, settings: Config, metadataLimit: nat, embeddingLimit: nat)
    returns (chunks: seq<Chunk>, budget: nat)
    ensures IsLimit(settings.maxTokens, [settings.tokenizerMaxTokens, metadataLimit, embeddingLimit], budget)
    ensures Faithful(content, budget, chunks)
    ensures content != "" ==>
      exists overlap: nat ::
        UsesOverlap(settings, budget, overlap) && Produced(content, strategy, budget, overlap, chunks)
  {
    var config := Clamped(settings);
    budget := EffectiveMaxTokens(config, metadataLimit, embeddingLimit);
    ghost var limits := [settings.tokenizerMaxTokens] + [metadataLimit, embeddingLimit];
    assert limits == [settings.tokenizerMaxTokens, metadataLimit, embeddingLimit];
    LimitsJoin(settings.maxTokens, settings.tokenizerMaxTokens, [metadataLimit, embeddingLimit],
               config.maxTokens, budget);
    ghost var overlap := Min(config.overlapTokens, budget - 1);
    assert UsesOverlap(settings, budget, overlap);
    if content == "" {
      return [], budget;
    }
    match strategy {
      case WholeText =>
        var sections := [Section(content, 0, "")];
        WholeCovers(content);
        chunks := ChunkSections(content, sections, config, budget);
      case AtLines(starts, labelOf) =>
        var sections := SplitSections(content, starts, labelOf);
        chunks := ChunkSections(Padded(content), sections, config, budget);
        InPlaceUnpadded(content, budget, chunks);
        KeepsUnpadded(content, chunks);
    }
  }

  lemma WholeCovers(content: string)
    ensures Covers(content, [Section(content, 0, "")])
  {
    var sections := [Section(content, 0, "")];
    assert content[0..|content|] == content;
    assert Tiles(content, sections[..0], 0);
    assert Tiles(content, sections, |content|) && Blank(content[|content|..]);
  }
}
