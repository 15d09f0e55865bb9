/**
 Greedy WordPiece: a token is cut, from the left, into the longest pieces that the vocabulary holds; a
 piece that does not start the token is looked up with "##" in front.
 */
module WordPiece {
  type Vocab = map<string, int>

  const CONTINUED: string := "##"

  /** The vocabulary entry looked for when a piece is to cover `token[from..to]`. */
  function Candidate(token: string, from: nat, to: nat): (c: string)
    requires from <= to <= |token|
    ensures from > 0 ==> c == CONTINUED + token[from..to]
    ensures from == 0 ==> c == token[..to]
  {
    (if from > 0 then CONTINUED else "") + token[from..to]
  }

  /** No vocabulary entry covers a stretch that begins at `from` and ends past `after`. */
  ghost predicate NoneBeyond(vocab: Vocab, token: string, from: nat, after: nat)
    requires from <= after
  {
    forall e {:trigger Candidate(token, from, e)} :: after < e <= |token| ==> Candidate(token, from, e) !in vocab
  }

  /** The longest piece at `from` ends at `to`. */
  ghost predicate IsLongest(vocab: Vocab, token: string, from: nat, to: nat) {
    from < to <= |token| && Candidate(token, from, to) in vocab && NoneBeyond(vocab, token, from, to)
  }

  /** Where the longest piece at `from` ends, or `from` if there is none. */
  function LongestEnd(vocab: Vocab, token: string, from: nat, end: nat): (to: nat)
    requires from <= end <= |token|
    ensures from <= to <= end
  {
    if end == from then from
    else if Candidate(token, from, end) in vocab then end
    else LongestEnd(vocab, token, from, end - 1)
  }

  lemma {:induction false} LongestEndIs(vocab: Vocab, token: string, from: nat, end: nat)
    requires from <= end <= |token| && NoneBeyond(vocab, token, from, end)
    ensures var to := LongestEnd(vocab, token, from, end);
      if to > from then IsLongest(vocab, token, from, to) else NoneBeyond(vocab, token, from, from)
  {
    if end > from && Candidate(token, from, end) !in vocab {
      LongestEndIs(vocab, token, from, end - 1);
    }
  }

  /** The positions that greedy matching comes through from `from` on; it ends at the end of the token or
      where it is stuck. */
  function Cuts(vocab: Vocab, token: string, from: nat): (cuts: seq<nat>)
    requires from <= |token|
    ensures |cuts| >= 1 && cuts[0] == from && from <= cuts[|cuts| - 1] <= |token|
    decreases |token| - from
  {
    var to := LongestEnd(vocab, token, from, |token|);
    if to == from then [from] else [from] + Cuts(vocab, token, to)
  }

  function Last(cuts: seq<nat>): nat
    requires cuts != []
  {
    cuts[|cuts| - 1]
  }

  /** Greedy matching gets stuck before the end of the token. */
  predicate GetsStuck(vocab: Vocab, token: string) {
    Last(Cuts(vocab, token, 0)) < |token|
  }

  /** Positions that greedy matching comes through when it starts at the beginning of the token. */
  ghost predicate IsCut(vocab: Vocab, token: string, cuts: seq<nat>) {
    cuts != [] && Last(cuts) <= |token| &&
    if |cuts| == 1 then cuts[0] == 0
    else IsCut(vocab, token, cuts[..|cuts| - 1]) && IsLongest(vocab, token, cuts[|cuts| - 2], Last(cuts))
  }

  /** The pieces between the positions. */
  function PiecesAt(vocab: Vocab, token: string, cuts: seq<nat>): (pieces: seq<string>)
    requires IsCut(vocab, token, cuts)
    ensures |pieces| == |cuts| - 1
  {
    if |cuts| == 1 then []
    else PiecesAt(vocab, token, cuts[..|cuts| - 1]) + [Candidate(token, cuts[|cuts| - 2], Last(cuts))]
  }

  lemma {:induction false} CutContinues(vocab: Vocab, token: string, cuts: seq<nat>)
    requires IsCut(vocab, token, cuts)
    ensures var all := cuts[..|cuts| - 1] + Cuts(vocab, token, Last(cuts));
      IsCut(vocab, token, all) && Last(all) == Last(Cuts(vocab, token, Last(cuts)))
      && (Last(all) < |token| ==> NoneBeyond(vocab, token, Last(all), Last(all)))
    decreases |token| - Last(cuts)
  {
    var from := Last(cuts);
    var to := LongestEnd(vocab, token, from, |token|);
    LongestEndIs(vocab, token, from, |token|);
    if to == from {
      assert cuts[..|cuts| - 1] + [from] == cuts;
    } else {
      var more, rest := cuts + [to], Cuts(vocab, token, to);
      assert more[..|more| - 1] == cuts;
      assert cuts[..|cuts| - 1] + ([from] + rest) == cuts + rest;
      CutContinues(vocab, token, more);
    }
  }

  /** Greedy matching has no choice: whatever way it has come, it goes on as `Cuts` does. */
  lemma {:induction false} CutIsForced(vocab: Vocab, token: string, cuts: seq<nat>)
    requires IsCut(vocab, token, cuts)
    ensures cuts[..|cuts| - 1] + Cuts(vocab, token, Last(cuts)) == Cuts(vocab, token, 0)
  {
    if |cuts| > 1 {
      var n := |cuts|;
      var front, from, to := cuts[..n - 1], cuts[n - 2], Last(cuts);
      CutIsForced(vocab, token, front);
      LongestEndIs(vocab, token, from, |token|);
      assert IsLongest(vocab, token, from, to);
      assert cuts[..n - 1] + Cuts(vocab, token, to) == front[..n - 2] + Cuts(vocab, token, from);
    }
  }

  lemma {:induction false} CutIsAll(vocab: Vocab, token: string, cuts: seq<nat>)
    requires IsCut(vocab, token, cuts) && NoneBeyond(vocab, token, Last(cuts), Last(cuts))
    ensures Cuts(vocab, token, 0) == cuts
  {
    CutIsForced(vocab, token, cuts);
    LongestEndIs(vocab, token, Last(cuts), |token|);
    assert Cuts(vocab, token, Last(cuts)) == [Last(cuts)];
  }

  lemma {:induction false} AllCuts(vocab: Vocab, token: string)
    ensures var cuts := Cuts(vocab, token, 0);
      IsCut(vocab, token, cuts) && (Last(cuts) < |token| ==> NoneBeyond(vocab, token, Last(cuts), Last(cuts)))
  {
    assert [0][..0] + Cuts(vocab, token, 0) == Cuts(vocab, token, 0);
    CutContinues(vocab, token, [0]);
  }

  /** What the tokenizer makes of one token: its pieces, or the token itself where matching gets stuck. */
  function Wordpieces(vocab: Vocab, token: string): seq<string> {
    AllCuts(vocab, token);
    if token == "" then []
    else if GetsStuck(vocab, token) then [token]
    else PiecesAt(vocab, token, Cuts(vocab, token, 0))
  }

  lemma {:induction false} PieceAdded(vocab: Vocab, token: string, cuts: seq<nat>, to: nat)
    requires IsCut(vocab, token, cuts) && IsLongest(vocab, token, Last(cuts), to)
    ensures IsCut(vocab, token, cuts + [to])
    ensures PiecesAt(vocab, token, cuts + [to]) == PiecesAt(vocab, token, cuts) + [Candidate(token, Last(cuts), to)]
  {
    assert (cuts + [to])[..|cuts|] == cuts;
  }

  lemma {:induction false} CutGivesResult(vocab: Vocab, token: string, cuts: seq<nat>)
    requires token != "" && IsCut(vocab, token, cuts) && NoneBeyond(vocab, token, Last(cuts), Last(cuts))
    ensures Wordpieces(vocab, token) == if Last(cuts) < |token| then [token] else PiecesAt(vocab, token, cuts)
  {
    CutIsAll(vocab, token, cuts);
  }

  method WordpieceTokensFor(vocab: Vocab, token: string) returns (pieces: seq<string>)
    ensures pieces == Wordpieces(vocab, token)
  {
    if token == "" {
      return [];
    }
    if token in vocab {
      WholeToken(vocab, token);
      return [token];
    }
    pieces := [];
    var start := 0;
    ghost var cuts: seq<nat> := [0];
    while start < |token|
      invariant IsCut(vocab, token, cuts) && Last(cuts) == start <= |token|
      invariant pieces == PiecesAt(vocab, token, cuts)
    {
      var best, bestEnd := LongestPiece(vocab, token, start);
      LongestEndIs(vocab, token, start, |token|);
      if best == "" {
        CutGivesResult(vocab, token, cuts);
        return [token];
      }
      PieceAdded(vocab, token, cuts, bestEnd);
      cuts := cuts + [bestEnd];
      pieces := pieces + [best];
      start := bestEnd;
    }
    CutGivesResult(vocab, token, cuts);
  }

  /** The inner loop: shorten the stretch from its end until the vocabulary has it. */
  method LongestPiece(vocab: Vocab, token: string, start: nat) returns (best: string, bestEnd: nat)
    requires start < |token|
    ensures bestEnd == LongestEnd(vocab, token, start, |token|)
    ensures best == if bestEnd == start then "" else Candidate(token, start, bestEnd)
    ensures bestEnd > start ==> best != ""
  {
    var end := |token|;
    best, bestEnd := "", start;
    while end > start
      invariant start <= end <= |token| && best == "" && bestEnd == start
      invariant LongestEnd(vocab, token, start, |token|) == LongestEnd(vocab, token, start, end)
    {
      var candidate := token[start..end];
      if start > 0 {
        candidate := CONTINUED + candidate;
      }
      if candidate in vocab {
        best, bestEnd := candidate, end;
        break;
      }
      end := end - 1;
    }
  }

  lemma WholeToken(vocab: Vocab, token: string)
    requires token in vocab && token != ""
    ensures Wordpieces(vocab, token) == [token]
  {
    assert Candidate(token, 0, |token|) == token;
    assert Cuts(vocab, token, 0) == [0, |token|];
    AllCuts(vocab, token);
    assert [0, |token|][..1] == [0];
  }

  // ---------------------------------------------------------------- what the pieces are

  /** The pieces put together again without their marks. */
  function Joined(pieces: seq<string>): string {
    if pieces == [] then ""
    else Joined(pieces[..|pieces| - 1]) + Unmarked(pieces[|pieces| - 1], |pieces| > 1)
  }

  function Unmarked(piece: string, continued: bool): string {
    if continued && CONTINUED <= piece then piece[|CONTINUED|..] else piece
  }

  lemma MarkComesOff(token: string, from: nat, to: nat)
    requires from <= to <= |token|
    ensures Unmarked(Candidate(token, from, to), from > 0) == token[from..to]
  {
  }

  lemma {:induction false} JoinedMore(pieces: seq<string>, piece: string)
    ensures Joined(pieces + [piece]) == Joined(pieces) + Unmarked(piece, pieces != [])
  {
    assert (pieces + [piece])[..|pieces|] == pieces;
  }

  lemma PrefixGrows(token: string, from: nat, to: nat)
    requires from <= to <= |token|
    ensures token[..from] + token[from..to] == token[..to]
  {
  }

  lemma {:induction false} PiecesJoin(vocab: Vocab, token: string, cuts: seq<nat>)
    requires IsCut(vocab, token, cuts)
    ensures Joined(PiecesAt(vocab, token, cuts)) == token[..Last(cuts)]
    ensures |cuts| > 1 ==> Last(cuts) > 0
  {
    if |cuts| > 1 {
      var front, to := cuts[..|cuts| - 1], Last(cuts);
      var from := Last(front);
      PiecesJoin(vocab, token, front);
      JoinedMore(PiecesAt(vocab, token, front), Candidate(token, from, to));
      MarkComesOff(token, from, to);
      PrefixGrows(token, from, to);
    }
  }

  lemma {:induction false} PieceIsLongest(vocab: Vocab, token: string, cuts: seq<nat>, k: nat)
    requires IsCut(vocab, token, cuts) && k < |cuts| - 1
    ensures cuts[k] < cuts[k + 1] <= |token|
    ensures PiecesAt(vocab, token, cuts)[k] == Candidate(token, cuts[k], cuts[k + 1])
    ensures IsLongest(vocab, token, cuts[k], cuts[k + 1])
  {
    if k < |cuts| - 2 {
      PieceIsLongest(vocab, token, cuts[..|cuts| - 1], k);
    }
  }

  /** Without fallback the pieces put together are the token, and each is the longest vocabulary entry at
      its position. */
  lemma {:induction false} PiecesAreCorrect(vocab: Vocab, token: string)
    requires token != "" && !GetsStuck(vocab, token)
    ensures var pieces, cuts := Wordpieces(vocab, token), Cuts(vocab, token, 0);
      && Joined(pieces) == token
      && |cuts| == |pieces| + 1 && cuts[0] == 0 && Last(cuts) == |token|
      && forall k :: 0 <= k < |pieces| ==>
        && IsLongest(vocab, token, cuts[k], cuts[k + 1])
        && pieces[k] == Candidate(token, cuts[k], cuts[k + 1]) && pieces[k] in vocab
  {
    var pieces, cuts := Wordpieces(vocab, token), Cuts(vocab, token, 0);
    AllCuts(vocab, token);
    PiecesJoin(vocab, token, cuts);
    forall k: nat | k < |pieces|
      ensures IsLongest(vocab, token, cuts[k], cuts[k + 1])
      ensures pieces[k] == Candidate(token, cuts[k], cuts[k + 1]) && pieces[k] in vocab
    {
      PieceIsLongest(vocab, token, cuts, k);
    }
  }

  lemma PieceIsKnown(vocab: Vocab, token: string, k: nat)
    requires token != "" && !GetsStuck(vocab, token) && k < |Wordpieces(vocab, token)|
    ensures Wordpieces(vocab, token)[k] in vocab && Wordpieces(vocab, token)[k] != ""
  {
    AllCuts(vocab, token);
    PieceIsLongest(vocab, token, Cuts(vocab, token, 0), k);
  }

  /** The tokenizer falls back if and only if greedy matching comes to a position before the end where no
      piece fits; and it does not if and only if greedy matching can come to the end. */
  lemma {:induction false} FallbackIff(vocab: Vocab, token: string)
    ensures GetsStuck(vocab, token) <==>
      exists cuts :: IsCut(vocab, token, cuts) && Last(cuts) < |token|
        && NoneBeyond(vocab, token, Last(cuts), Last(cuts))
    ensures !GetsStuck(vocab, token) <==> exists cuts :: IsCut(vocab, token, cuts) && Last(cuts) == |token|
  {
    AllCuts(vocab, token);
    forall cuts | IsCut(vocab, token, cuts) && NoneBeyond(vocab, token, Last(cuts), Last(cuts))
      ensures Cuts(vocab, token, 0) == cuts
    {
      CutIsAll(vocab, token, cuts);
    }
    forall cuts | IsCut(vocab, token, cuts) && Last(cuts) == |token|
      ensures Cuts(vocab, token, 0) == cuts
    {
      CutIsAll(vocab, token, cuts);
    }
  }

  /** Whether the tokenizer fell back can be read off its result. */
  lemma FallbackShows(vocab: Vocab, token: string)
    requires token != ""
    ensures GetsStuck(vocab, token) <==> Wordpieces(vocab, token) == [token] && token !in vocab
  {
    AllCuts(vocab, token);
    if token in vocab {
      assert Candidate(token, 0, |token|) == token;
    } else if !GetsStuck(vocab, token) {
      PiecesAreCorrect(vocab, token);
    }
  }
}
