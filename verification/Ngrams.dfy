/** The search terms made of neighbouring characters of one kind. */
module Ngrams {
  import opened ByteScan
  import opened Slices
  import opened Sorting

  /** Which code points count. */
  type Script = bv32 -> bool

  /** The pieces `i <= k < j` are such characters, and the stretch cannot be made longer. */
  ghost predicate IsRun(counts: Script, pieces: seq<Piece>, i: nat, j: nat) {
    && i < j <= |pieces|
    && (forall k :: i <= k < j ==> counts(pieces[k].cp))
    && (i > 0 ==> !counts(pieces[i - 1].cp))
    && (j < |pieces| ==> !counts(pieces[j].cp))
  }

  /** The terms of one run: its windows of `n` characters, or each character if it is shorter. */
  ghost predicate IsTermOf(run: seq<Piece>, n: nat, term: Bytes) {
    if |run| < n then exists k :: 0 <= k < |run| && term == run[k].bytes
    else exists k :: 0 <= k <= |run| - n && term == Joined(Window(run, k, n))
  }

  function Window(run: seq<Piece>, k: nat, n: nat): seq<Piece>
    requires k + n <= |run|
  {
    run[k..k + n]
  }

  /** The terms of all runs that end at or before `end`. */
  ghost predicate IsTermBefore(counts: Script, pieces: seq<Piece>, n: nat, term: Bytes, end: nat) {
    exists i: nat, j: nat :: IsRun(counts, pieces, i, j) && j <= end && IsTermOf(pieces[i..j], n, term)
  }

  ghost predicate IsTerm(counts: Script, pieces: seq<Piece>, n: nat, term: Bytes) {
    IsTermBefore(counts, pieces, n, term, |pieces|)
  }

  lemma {:induction false} JoinedMore(pieces: seq<Piece>, piece: Piece)
    ensures Joined(pieces + [piece]) == Joined(pieces) + piece.bytes
  {
    if pieces == [] {
      assert Joined([piece]) == piece.bytes + Joined([]);
      assert ([] + [piece])[1..] == [];
    } else {
      JoinedMore(pieces[1..], piece);
      assert (pieces + [piece])[1..] == pieces[1..] + [piece];
    }
  }

  /** `more` has the terms of the run besides those of `grams`. */
  ghost predicate Adds(grams: seq<Bytes>, more: seq<Bytes>, run: seq<Piece>, n: nat) {
    forall term :: term in more <==> term in grams || (run != [] && IsTermOf(run, n, term))
  }

  method Flush(grams: seq<Bytes>, run: seq<Piece>, n: nat) returns (more: seq<Bytes>)
    ensures Adds(grams, more, run, n)
  {
    more := grams;
    if run == [] {
      return;
    }
    if |run| < n {
      for k := 0 to |run|
        invariant forall term :: term in more <==> term in grams || exists m :: 0 <= m < k && term == run[m].bytes
      {
        more := more + [run[k].bytes];
      }
    } else {
      for k := 0 to |run| - n + 1
        invariant forall term :: term in more <==>
          term in grams || exists m :: 0 <= m < k && term == Joined(Window(run, m, n))
      {
        var gram := Concatenated(Window(run, k, n));
        more := more + [gram];
      }
    }
  }

  method Concatenated(pieces: seq<Piece>) returns (bytes: Bytes)
    ensures bytes == Joined(pieces)
  {
    bytes := [];
    for j := 0 to |pieces|
      invariant bytes == Joined(pieces[..j])
    {
      JoinedMore(pieces[..j], pieces[j]);
      assert pieces[..j + 1] == pieces[..j] + [pieces[j]];
      bytes := bytes + pieces[j].bytes;
    }
    assert pieces[..|pieces|] == pieces;
  }

  /** The run that is being read started at `start` and everything from there to `at` belongs to it. */
  ghost predicate Reading(counts: Script, pieces: seq<Piece>, start: nat, at: nat) {
    && start <= at <= |pieces|
    && (forall k :: start <= k < at ==> counts(pieces[k].cp))
    && (start > 0 ==> !counts(pieces[start - 1].cp))
  }

  lemma RunIsWhole(counts: Script, pieces: seq<Piece>, start: nat, at: nat, i: nat, j: nat)
    requires Reading(counts, pieces, start, at) && IsRun(counts, pieces, i, j) && start < j <= at
    ensures i == start && j == at
  {
  }

  /** When the run being read ends, it is the only one that ends after its start. */
  lemma RunEnds(counts: Script, pieces: seq<Piece>, start: nat, at: nat, n: nat, term: Bytes)
    requires Reading(counts, pieces, start, at) && (at < |pieces| ==> !counts(pieces[at].cp))
    ensures IsTermBefore(counts, pieces, n, term, at) <==>
      IsTermBefore(counts, pieces, n, term, start) || (start < at && IsTermOf(pieces[start..at], n, term))
  {
    if start < at {
      assert IsRun(counts, pieces, start, at);
    }
    if IsTermBefore(counts, pieces, n, term, at) && !IsTermBefore(counts, pieces, n, term, start) {
      var i: nat, j: nat :| IsRun(counts, pieces, i, j) && j <= at && IsTermOf(pieces[i..j], n, term);
      assert j > start;
      RunIsWhole(counts, pieces, start, at, i, j);
    }
  }

  lemma NoRunEndsPast(counts: Script, pieces: seq<Piece>, at: nat, n: nat, term: Bytes)
    requires at < |pieces| && !counts(pieces[at].cp)
    ensures IsTermBefore(counts, pieces, n, term, at + 1) <==> IsTermBefore(counts, pieces, n, term, at)
  {
    if IsTermBefore(counts, pieces, n, term, at + 1) {
      var i: nat, j: nat :| IsRun(counts, pieces, i, j) && j <= at + 1 && IsTermOf(pieces[i..j], n, term);
      assert j != at + 1;
    }
  }

  /** The terms gathered so far. */
  ghost predicate Gathered(counts: Script, grams: seq<Bytes>, pieces: seq<Piece>, n: nat, end: nat) {
    forall term :: term in grams <==> IsTermBefore(counts, pieces, n, term, end)
  }

  lemma FlushedRun(counts: Script, grams: seq<Bytes>, more: seq<Bytes>, pieces: seq<Piece>,
                   start: nat, at: nat, n: nat)
    requires Reading(counts, pieces, start, at) && (at < |pieces| ==> !counts(pieces[at].cp))
    requires Gathered(counts, grams, pieces, n, start) && Adds(grams, more, pieces[start..at], n)
    ensures Gathered(counts, more, pieces, n, at)
    ensures at < |pieces| ==> Gathered(counts, more, pieces, n, at + 1)
  {
    forall term
      ensures term in more <==> IsTermBefore(counts, pieces, n, term, at)
      ensures at < |pieces| ==> (term in more <==> IsTermBefore(counts, pieces, n, term, at + 1))
    {
      RunEnds(counts, pieces, start, at, n, term);
      if at < |pieces| {
        NoRunEndsPast(counts, pieces, at, n, term);
      }
    }
  }

  lemma NothingGathered(counts: Script, pieces: seq<Piece>, n: nat)
    ensures Gathered(counts, [], pieces, n, 0)
  {
  }

  /** The run read so far. */
  ghost predicate IsReading(counts: Script, pieces: seq<Piece>, start: nat, at: nat, run: seq<Piece>) {
    Reading(counts, pieces, start, at) && run == pieces[start..at]
  }

  lemma RunGoesOn(counts: Script, pieces: seq<Piece>, start: nat, at: nat, run: seq<Piece>)
    requires IsReading(counts, pieces, start, at, run) && at < |pieces|
    ensures counts(pieces[at].cp) ==> IsReading(counts, pieces, start, at + 1, run + [pieces[at]])
    ensures !counts(pieces[at].cp) ==> IsReading(counts, pieces, at + 1, at + 1, [])
  {
  }

  /** One call of the reader. */
  method TakePiece(read: Reader, text: Bytes, ghost pieces: seq<Piece>, ghost at: nat)
    returns (piece: Piece, after: Bytes)
    requires IsReader(read)
    requires text != [] && at <= |pieces| && Decode(read, text) == pieces[at..]
    ensures at < |pieces| && piece == pieces[at] && Decode(read, after) == pieces[at + 1..] && |after| < |text|
  {
    assert IsStep(text, read(text));
    var r := read(text).value;
    piece, after := Piece(r.cp, text[..r.length]), text[r.length..];
    assert pieces[at..][0] == piece && pieces[at + 1..] == pieces[at..][1..];
  }

  /** What the loop does with one piece: it joins the run, or ends it. */
  method UsePiece(counts: Script, grams: seq<Bytes>, run: seq<Piece>, n: nat, piece: Piece,
                  ghost pieces: seq<Piece>, ghost start: nat, ghost at: nat)
    returns (more: seq<Bytes>, now: seq<Piece>, ghost from: nat)
    requires at < |pieces| && piece == pieces[at] && IsReading(counts, pieces, start, at, run)
    requires Gathered(counts, grams, pieces, n, start)
    ensures IsReading(counts, pieces, from, at + 1, now) && Gathered(counts, more, pieces, n, from)
  {
    RunGoesOn(counts, pieces, start, at, run);
    if counts(piece.cp) {
      more, now, from := grams, run + [piece], start;
    } else {
      more := Flush(grams, run, n);
      FlushedRun(counts, grams, more, pieces, start, at, n);
      now, from := [], at + 1;
    }
  }

  /** The reading loop, for any choice of characters. */
  method ReadRuns(read: Reader, counts: Script, text: Bytes, n: nat) returns (grams: seq<Bytes>)
    requires IsReader(read)
    ensures Gathered(counts, grams, Decode(read, text), n, |Decode(read, text)|)
  {
    ghost var pieces := Decode(read, text);
    ghost var at: nat, start: nat := 0, 0;
    grams := [];
    NothingGathered(counts, pieces, n);
    var run: seq<Piece> := [];
    var rest := text;
    while rest != []
      invariant at <= |pieces| && Decode(read, rest) == pieces[at..]
      invariant IsReading(counts, pieces, start, at, run)
      invariant Gathered(counts, grams, pieces, n, start)
      decreases |rest|
    {
      var piece, after := TakePiece(read, rest, pieces, at);
      grams, run, start := UsePiece(counts, grams, run, n, piece, pieces, start, at);
      rest, at := after, at + 1;
    }
    NothingLeft(read, pieces, at);
    var more := Flush(grams, run, n);
    FlushedRun(counts, grams, more, pieces, start, at, n);
    grams := more;
  }

  lemma NothingLeft(read: Reader, pieces: seq<Piece>, at: nat)
    requires IsReader(read) && at <= |pieces| && Decode(read, []) == pieces[at..]
    ensures at == |pieces|
  {
    assert IsStep([], read([]));
  }

  /** The terms of a text in ascending order, each once. */
  ghost predicate IsTermList(counts: Script, pieces: seq<Piece>, n: nat, less: Order<Bytes>, grams: seq<Bytes>) {
    Ascending(less, grams) && forall term :: term in grams <==> IsTerm(counts, pieces, n, term)
  }

  method ExtractNgrams(read: Reader, counts: Script, less: Order<Bytes>, text: Bytes, n: nat)
    returns (grams: seq<Bytes>)
    requires IsReader(read) && IsOrder(less)
    ensures IsTermList(counts, Decode(read, text), n, less, grams)
  {
    var found := ReadRuns(read, counts, text, n);
    grams := SortUnique(less, found);
    TermsSorted(counts, Decode(read, text), n, less, found, grams);
  }

  lemma TermsSorted(counts: Script, pieces: seq<Piece>, n: nat, less: Order<Bytes>,
                    found: seq<Bytes>, grams: seq<Bytes>)
    requires Gathered(counts, found, pieces, n, |pieces|)
    requires Ascending(less, grams) && SameMembers(grams, found)
    ensures IsTermList(counts, pieces, n, less, grams)
  {
  }

  lemma {:induction false} JoinedParts(left: seq<Piece>, right: seq<Piece>)
    ensures Joined(left + right) == Joined(left) + Joined(right)
  {
    if left == [] {
      assert left + right == right;
    } else {
      var first, others := left[0], left[1..];
      JoinedParts(others, right);
      assert left == [first] + others;
      Regroup([first], others, right);
      JoinedFirst(first, others);
      JoinedFirst(first, others + right);
      Regroup(first.bytes, Joined(others), Joined(right));
    }
  }

  /** The bytes of neighbouring pieces are a stretch of the text. */
  lemma {:induction false} StretchIsInText(read: Reader, text: Bytes, from: nat, to: nat) returns (a: nat, b: nat)
    requires IsReader(read) && from <= to <= |Decode(read, text)|
    ensures a <= b <= |text| && text[a..b] == Joined(Decode(read, text)[from..to])
  {
    var pieces := Decode(read, text);
    PiecesJoin(read, text);
    JoinedThree(pieces, from, to);
    var left, middle := Joined(pieces[..from]), Joined(pieces[from..to]);
    MiddlePart(left, middle, Joined(pieces[to..]));
    a, b := |left|, |left| + |middle|;
  }

  lemma ThreeParts<T>(s: seq<T>, from: nat, to: nat)
    requires from <= to <= |s|
    ensures s == (s[..from] + s[from..to]) + s[to..]
  {
  }

  lemma {:induction false} JoinedThree(pieces: seq<Piece>, from: nat, to: nat)
    requires from <= to <= |pieces|
    ensures Joined(pieces) == (Joined(pieces[..from]) + Joined(pieces[from..to])) + Joined(pieces[to..])
  {
    ThreeParts(pieces, from, to);
    JoinedParts(pieces[..from] + pieces[from..to], pieces[to..]);
    JoinedParts(pieces[..from], pieces[from..to]);
  }

  lemma MiddlePart(left: Bytes, middle: Bytes, right: Bytes)
    ensures ((left + middle) + right)[|left|..|left| + |middle|] == middle
  {
  }

  lemma OnePiece(run: seq<Piece>, k: nat)
    requires k < |run|
    ensures Joined(run[k..k + 1]) == run[k].bytes
  {
    assert run[k..k + 1] == [] + [run[k]];
    JoinedMore([], run[k]);
  }

  lemma TermIsStretchOfRun(run: seq<Piece>, n: nat, term: Bytes) returns (from: nat, to: nat)
    requires IsTermOf(run, n, term)
    ensures from <= to <= |run| && Joined(run[from..to]) == term
  {
    if |run| < n {
      var k: nat :| k < |run| && term == run[k].bytes;
      OnePiece(run, k);
      from, to := k, k + 1;
    } else {
      var k: nat :| k <= |run| - n && term == Joined(Window(run, k, n));
      from, to := k, k + n;
    }
  }

  lemma {:induction false} RunTermIsInText(read: Reader, text: Bytes, i: nat, j: nat, n: nat, term: Bytes)
    returns (a: nat, b: nat)
    requires IsReader(read) && i <= j <= |Decode(read, text)| && IsTermOf(Decode(read, text)[i..j], n, term)
    ensures a <= b <= |text| && text[a..b] == term
  {
    var pieces := Decode(read, text);
    var from, to := TermIsStretchOfRun(pieces[i..j], n, term);
    SliceOfSlice(pieces, i, j, from, to);
    a, b := StretchIsInText(read, text, i + from, i + to);
  }

  /** Every term stands in the text as it is, on any input, well-formed or not. */
  lemma {:induction false} TermsAreInText(read: Reader, counts: Script, text: Bytes, n: nat, term: Bytes)
    returns (a: nat, b: nat)
    requires IsReader(read) && IsTerm(counts, Decode(read, text), n, term)
    ensures a <= b <= |text| && text[a..b] == term
  {
    var i: nat, j: nat :| IsRun(counts, Decode(read, text), i, j) && IsTermOf(Decode(read, text)[i..j], n, term);
    a, b := RunTermIsInText(read, text, i, j, n, term);
  }
}
