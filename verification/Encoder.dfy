/** From text to the fixed-length token ids and attention mask that an embedding model takes. */
module Encoder {
  import opened BasicTokenizer
  import opened Flattening
  import opened Numbers
  import opened Options
  import opened WordPiece

  datatype Tokenizer = Tokenizer(vocab: Vocab, wordpiece: bool, lowercase: bool, maxSeqLen: nat,
                                 unk: int, cls: int, sep: int, pad: int)

  // ---------------------------------------------------------------- ids of pieces

  /** The bytes of U+2581 and U+0120 in UTF-8, which some vocabularies put before the start of a word. */
  const WORD_START_1: string := ['\U{E2}', '\U{96}', '\U{81}']
  const WORD_START_2: string := ['\U{C4}', '\U{A0}']

  function Spellings(token: string, atWordStart: bool): (r: seq<string>)
    ensures r != [] && r[0] == token
  {
    if atWordStart then
      [token, WORD_START_1 + token, WORD_START_2 + token,
       Folded(token, true), WORD_START_1 + Folded(token, true), WORD_START_2 + Folded(token, true)]
    else [token, CONTINUED + token, Folded(token, true), CONTINUED + Folded(token, true)]
  }

  function FirstKnown(vocab: Vocab, spellings: seq<string>): (r: Option<int>)
    ensures r.None? <==> forall s :: s in spellings ==> s !in vocab
    ensures spellings != [] && spellings[0] in vocab ==> r == Some(vocab[spellings[0]])
  {
    if spellings == [] then None
    else if spellings[0] in vocab then Some(vocab[spellings[0]])
    else FirstKnown(vocab, spellings[1..])
  }

  function LookupTokenId(vocab: Vocab, token: string, atWordStart: bool): Option<int> {
    if token == "" then None else FirstKnown(vocab, Spellings(token, atWordStart))
  }

  /** What may stand in front of a piece in the vocabulary, in the order in which it is tried. */
  function Marks(atWordStart: bool): (marks: seq<string>)
    ensures |marks| >= 1
  {
    if atWordStart then ["", WORD_START_1, WORD_START_2] else ["", CONTINUED]
  }

  /** The `k`-th spelling that is tried: first the piece as it stands behind each mark, then in small letters. */
  function Spelling(token: string, atWordStart: bool, k: nat): string {
    var marks := Marks(atWordStart);
    marks[k % |marks|] + if k < |marks| then token else Folded(token, true)
  }

  /** Spelling number `k` is the first that the vocabulary knows. */
  ghost predicate IsFirstKnown(vocab: Vocab, token: string, atWordStart: bool, k: nat) {
    && k < 2 * |Marks(atWordStart)|
    && Spelling(token, atWordStart, k) in vocab
    && forall j: nat :: j < k ==> Spelling(token, atWordStart, j) !in vocab
  }

  lemma SpellingsAre(token: string, atWordStart: bool)
    ensures |Spellings(token, atWordStart)| == 2 * |Marks(atWordStart)|
    ensures forall k :: 0 <= k < |Spellings(token, atWordStart)| ==>
      Spellings(token, atWordStart)[k] == Spelling(token, atWordStart, k)
  {
    var all := Spellings(token, atWordStart);
    forall k | 0 <= k < |all|
      ensures all[k] == Spelling(token, atWordStart, k)
    {
      assert k == 0 || k == 1 || k == 2 || k == 3 || k == 4 || k == 5;
      assert "" + token == token && "" + Folded(token, true) == Folded(token, true);
    }
  }

  lemma {:induction false} FirstKnownMeans(vocab: Vocab, spellings: seq<string>) returns (k: nat)
    ensures k <= |spellings| && forall j :: 0 <= j < k ==> spellings[j] !in vocab
    ensures if k < |spellings| then spellings[k] in vocab && FirstKnown(vocab, spellings) == Some(vocab[spellings[k]])
      else FirstKnown(vocab, spellings) == None
  {
    k := 0;
    if spellings != [] && spellings[0] !in vocab {
      k := FirstKnownMeans(vocab, spellings[1..]);
      k := k + 1;
    }
  }

  /** The id of a piece is that of the first spelling that the vocabulary knows, and an empty piece has none. */
  lemma {:induction false} LookupExactly(vocab: Vocab, token: string, atWordStart: bool, id: int)
    ensures LookupTokenId(vocab, token, atWordStart) == Some(id) <==>
      token != "" && exists k: nat ::
        IsFirstKnown(vocab, token, atWordStart, k) && vocab[Spelling(token, atWordStart, k)] == id
  {
    SpellingsAre(token, atWordStart);
    var n := FirstKnownMeans(vocab, Spellings(token, atWordStart));
    if n < |Spellings(token, atWordStart)| {
      assert IsFirstKnown(vocab, token, atWordStart, n);
    }
    forall k: nat | IsFirstKnown(vocab, token, atWordStart, k)
      ensures k == n
    {
      assert Spelling(token, atWordStart, k) in vocab;
    }
  }

  function PieceId(t: Tokenizer, piece: string, atWordStart: bool): int {
    match LookupTokenId(t.vocab, piece, atWordStart)
    case Some(id) => id
    case None => t.unk
  }

  /** A piece of a token on which the tokenizer did not fall back has its own vocabulary id, wherever it
      stands, and not that of another spelling. */
  lemma PiecesHaveOwnIds(t: Tokenizer, token: string, k: nat, atWordStart: bool)
    requires token != "" && !GetsStuck(t.vocab, token) && k < |Wordpieces(t.vocab, token)|
    ensures var piece := Wordpieces(t.vocab, token)[k];
      piece in t.vocab && PieceId(t, piece, atWordStart) == t.vocab[piece]
  {
    PieceIsKnown(t.vocab, token, k);
  }

  function PiecesFor(t: Tokenizer, token: string): seq<string> {
    if t.wordpiece then Wordpieces(t.vocab, token) else [token]
  }

  function AllPieces(t: Tokenizer, tokens: seq<string>): seq<string> {
    if tokens == [] then []
    else AllPieces(t, tokens[..|tokens| - 1]) + PiecesFor(t, tokens[|tokens| - 1])
  }

  function Ids(t: Tokenizer, pieces: seq<string>): seq<int> {
    seq(|pieces|, k requires 0 <= k < |pieces| => PieceId(t, pieces[k], !t.wordpiece || k == 0))
  }

  /** The ids of a text without a limit. */
  function ContentIds(t: Tokenizer, text: string): seq<int> {
    Ids(t, AllPieces(t, BasicTokens(text, t.lowercase)))
  }

  function Take(ids: seq<int>, limit: nat): seq<int> {
    ids[..Min(limit, |ids|)]
  }

  lemma {:induction false} PiecesGrow(t: Tokenizer, tokens: seq<string>, i: nat)
    requires i <= |tokens|
    ensures AllPieces(t, tokens[..i]) <= AllPieces(t, tokens)
    decreases |tokens| - i
  {
    if i < |tokens| {
      PiecesGrow(t, tokens, i + 1);
      assert tokens[..i + 1][..i] == tokens[..i];
    } else {
      assert tokens[..i] == tokens;
    }
  }

  lemma {:induction false} TokenAdded(t: Tokenizer, tokens: seq<string>, i: nat)
    requires i < |tokens|
    ensures AllPieces(t, tokens[..i + 1]) == AllPieces(t, tokens[..i]) + PiecesFor(t, tokens[i])
    ensures AllPieces(t, tokens[..i + 1]) <= AllPieces(t, tokens)
  {
    PiecesGrow(t, tokens, i + 1);
    assert tokens[..i + 1][..i] == tokens[..i];
  }

  /** The ids at hand when the limit is reached inside the pieces of a token, or not at all. */
  lemma LimitReached(t: Tokenizer, before: seq<string>, pieces: seq<string>, used: nat, all: seq<string>, limit: nat)
    requires before + pieces <= all && used <= |pieces| && |before| + used <= limit
    requires |before| + used == limit || before + pieces[..used] == all
    ensures Ids(t, before + pieces[..used]) == Take(Ids(t, all), limit)
  {
    assert before + pieces[..used] <= before + pieces;
  }

  /** Appends the ids of one token's pieces, unless the limit is reached first. */
  method AppendPieces(t: Tokenizer, ghost before: seq<string>, ids0: seq<int>, pieces: seq<string>, limit: nat)
    returns (ids: seq<int>, full: bool, ghost used: nat)
    requires ids0 == Ids(t, before) && |ids0| <= limit
    ensures !full ==> ids == Ids(t, before + pieces) && |ids| <= limit
    ensures full ==> used <= |pieces| && ids == Ids(t, before + pieces[..used]) && |ids| == limit
  {
    ids := ids0;
    for j := 0 to |pieces|
      invariant ids == Ids(t, before + pieces[..j]) && |ids| <= limit
    {
      if |ids| >= limit {
        return ids, true, j;
      }
      ids := ids + [PieceId(t, pieces[j], !t.wordpiece || ids == [])];
      assert before + pieces[..j + 1] == before + pieces[..j] + [pieces[j]];
    }
    assert pieces[..|pieces|] == pieces;
    full, used := false, |pieces|;
  }

  /** One token of the outer loop. */
  method AddToken(t: Tokenizer, tokens: seq<string>, i: nat, ids0: seq<int>, limit: nat)
    returns (ids: seq<int>, full: bool)
    requires i < |tokens| && ids0 == Ids(t, AllPieces(t, tokens[..i])) && |ids0| <= limit
    ensures full ==> ids == Take(Ids(t, AllPieces(t, tokens)), limit)
    ensures !full ==> ids == Ids(t, AllPieces(t, tokens[..i + 1])) && |ids| <= limit
  {
    ghost var before := AllPieces(t, tokens[..i]);
    TokenAdded(t, tokens, i);
    var pieces := [tokens[i]];
    if t.wordpiece {
      pieces := WordpieceTokensFor(t.vocab, tokens[i]);
    }
    ghost var used;
    ids, full, used := AppendPieces(t, before, ids0, pieces, limit);
    if full {
      LimitReached(t, before, pieces, used, AllPieces(t, tokens), limit);
    }
  }

  /** With a limit the ids are the first ones of the unlimited tokenization, so a lower limit only cuts off
      the end. */
  method ContentTokenIds(t: Tokenizer, text: string, limit: nat) returns (ids: seq<int>)
    ensures ids == Take(ContentIds(t, text), limit)
  {
    var tokens := BasicTokenize(text, t.lowercase);
    ids := [];
    for i := 0 to |tokens|
      invariant ids == Ids(t, AllPieces(t, tokens[..i])) && |ids| <= limit
    {
      var full;
      ids, full := AddToken(t, tokens, i, ids, limit);
      if full {
        return;
      }
    }
    assert tokens[..|tokens|] == tokens;
  }

  // ---------------------------------------------------------------- which id belongs to which piece

  function Cutter(t: Tokenizer): string -> seq<string> {
    token => PiecesFor(t, token)
  }

  lemma {:induction false} PiecesAreFlat(t: Tokenizer, tokens: seq<string>)
    ensures AllPieces(t, tokens) == Flat(Cutter(t), tokens)
  {
    if tokens != [] {
      PiecesAreFlat(t, tokens[..|tokens| - 1]);
    }
  }

  lemma {:induction false} IdOfPiece(t: Tokenizer, pieces: seq<string>, k: nat, piece: string)
    requires k < |pieces| && pieces[k] == piece
    ensures k < |Ids(t, pieces)| && Ids(t, pieces)[k] == PieceId(t, piece, !t.wordpiece || k == 0)
  {
  }

  /** Where the ids of token `j` of a text begin. */
  function FirstId(t: Tokenizer, tokens: seq<string>, j: nat): nat
    requires j <= |tokens|
  {
    Offset(Cutter(t), tokens, j)
  }

  lemma {:induction false} FirstIdMeans(t: Tokenizer, tokens: seq<string>, j: nat)
    requires j < |tokens|
    ensures FirstId(t, tokens, 0) == 0
    ensures FirstId(t, tokens, j + 1) ==
      FirstId(t, tokens, j) + if t.wordpiece then |Wordpieces(t.vocab, tokens[j])| else 1
  {
  }

  /** Piece `m` of a token. */
  ghost predicate IsPieceOf(t: Tokenizer, token: string, m: nat, piece: string) {
    if t.wordpiece then m < |Wordpieces(t.vocab, token)| && piece == Wordpieces(t.vocab, token)[m]
    else m == 0 && piece == token
  }

  lemma PieceOfToken(t: Tokenizer, token: string, m: nat, piece: string)
    requires IsPieceOf(t, token, m, piece)
    ensures m < |Cutter(t)(token)| && piece == Cutter(t)(token)[m]
  {
  }

  lemma PieceInPlace(t: Tokenizer, tokens: seq<string>, j: nat, m: nat, piece: string)
    requires j < |tokens| && IsPieceOf(t, tokens[j], m, piece)
    ensures FirstId(t, tokens, j) + m < |AllPieces(t, tokens)| == FirstId(t, tokens, |tokens|)
    ensures AllPieces(t, tokens)[FirstId(t, tokens, j) + m] == piece
  {
    var f := Cutter(t);
    PieceOfToken(t, tokens[j], m, piece);
    PiecesAreFlat(t, tokens);
    FlatLength(f, tokens);
    FlatAt(f, tokens, j, m);
  }

  lemma IdInPlace(t: Tokenizer, tokens: seq<string>, j: nat, m: nat, piece: string)
    requires j < |tokens| && IsPieceOf(t, tokens[j], m, piece)
    ensures var k, ids := FirstId(t, tokens, j) + m, Ids(t, AllPieces(t, tokens));
      k < |ids| == FirstId(t, tokens, |tokens|) && ids[k] == PieceId(t, piece, !t.wordpiece || k == 0)
  {
    PieceInPlace(t, tokens, j, m, piece);
    IdOfPiece(t, AllPieces(t, tokens), FirstId(t, tokens, j) + m, piece);
  }

  /** The ids of a text are those of its tokens one after another, as many for each as greedy matching cuts pieces, or
      one. Each is that of its own piece, which is looked up as the start of a word if it is the very first, or if
      tokens are not cut into pieces. */
  lemma {:induction false} IdsInPlace(t: Tokenizer, text: string, tokens: seq<string>, j: nat, m: nat, piece: string)
    requires tokens == BasicTokens(text, t.lowercase) && j < |tokens| && IsPieceOf(t, tokens[j], m, piece)
    ensures FirstId(t, tokens, j) + m < |ContentIds(t, text)| == FirstId(t, tokens, |tokens|)
    ensures ContentIds(t, text)[FirstId(t, tokens, j) + m] ==
      PieceId(t, piece, !t.wordpiece || FirstId(t, tokens, j) + m == 0)
  {
    IdInPlace(t, tokens, j, m, piece);
  }

  lemma OwnId(t: Tokenizer, token: string, m: nat, piece: string, atWordStart: bool)
    requires t.wordpiece && token != "" && !GetsStuck(t.vocab, token) && IsPieceOf(t, token, m, piece)
    ensures piece in t.vocab && PieceId(t, piece, atWordStart) == t.vocab[piece]
  {
    PiecesHaveOwnIds(t, token, m, atWordStart);
  }

  /** So in a text each piece of a token that greedy matching does not get stuck on has its own vocabulary id. */
  lemma {:induction false} KnownPiecesInText(t: Tokenizer, text: string, tokens: seq<string>, j: nat, m: nat,
                                             piece: string)
    requires tokens == BasicTokens(text, t.lowercase) && j < |tokens| && tokens[j] != ""
    requires t.wordpiece && !GetsStuck(t.vocab, tokens[j]) && IsPieceOf(t, tokens[j], m, piece)
    ensures FirstId(t, tokens, j) + m < |ContentIds(t, text)| && piece in t.vocab
    ensures ContentIds(t, text)[FirstId(t, tokens, j) + m] == t.vocab[piece]
  {
    IdsInPlace(t, text, tokens, j, m, piece);
    OwnId(t, tokens[j], m, piece, FirstId(t, tokens, j) + m == 0);
  }

  // ---------------------------------------------------------------- the fixed-length encoding

  function Repeat(x: int, n: nat): seq<int> {
    seq(n, _ => x)
  }

  /** How many content ids fit between the two special tokens. */
  function Fitting(t: Tokenizer, text: string): nat
    requires t.maxSeqLen >= 2
  {
    Min(|ContentIds(t, text)|, t.maxSeqLen - 2)
  }

  method Pad(ids0: seq<int>, mask0: seq<int>, pad: int, length: nat) returns (ids: seq<int>, mask: seq<int>)
    requires |ids0| == |mask0| <= length
    ensures ids == ids0 + Repeat(pad, length - |ids0|)
    ensures mask == mask0 + Repeat(0, length - |ids0|)
  {
    ids, mask := ids0, mask0;
    while |ids| < length
      invariant |ids0| <= |ids| <= length
      invariant ids == ids0 + Repeat(pad, |ids| - |ids0|)
      invariant mask == mask0 + Repeat(0, |ids| - |ids0|)
    {
      ids, mask := ids + [pad], mask + [0];
    }
  }

  /** The loop that copies content behind CLS as long as SEP still fits. */
  method CopyContent(t: Tokenizer, content: seq<int>) returns (ids: seq<int>, mask: seq<int>)
    ensures var k := if t.maxSeqLen < 2 then 0 else Min(|content|, t.maxSeqLen - 2);
      ids == [t.cls] + content[..k] && mask == Repeat(1, k + 1)
  {
    ids, mask := [t.cls], [1];
    var i := 0;
    while i < |content| && |ids| + 1 < t.maxSeqLen
      invariant 0 <= i <= |content|
      invariant i == 0 || i + 2 <= t.maxSeqLen
      invariant ids == [t.cls] + content[..i] && mask == Repeat(1, i + 1)
    {
      ids, mask := ids + [content[i]], mask + [1];
      i := i + 1;
    }
  }

  lemma OneMoreRepeat(x: int, n: nat)
    ensures Repeat(x, n) + [x] == Repeat(x, n + 1)
  {
  }

  lemma TakeThenCut(all: seq<int>, limit: nat, k: nat)
    requires limit > 0 && k == Min(|all|, limit - 1)
    ensures Min(|Take(all, limit)|, limit - 1) == k && Take(all, limit)[..k] == all[..k]
  {
  }

  /** The ids are CLS, as many content ids as fit, SEP and padding, and the mask marks exactly what comes
      before the padding. The length is the configured one if and only if that is not zero. */
  method EncodeForOnnx(t: Tokenizer, text: string) returns (ids: seq<int>, mask: seq<int>)
    ensures t.maxSeqLen >= 2 ==>
      var k := Fitting(t, text);
      && ids == [t.cls] + ContentIds(t, text)[..k] + [t.sep] + Repeat(t.pad, t.maxSeqLen - 2 - k)
      && mask == Repeat(1, k + 2) + Repeat(0, t.maxSeqLen - 2 - k)
    ensures t.maxSeqLen < 2 ==> ids == [t.cls] && mask == [1]
    ensures |ids| == |mask| && (|ids| == t.maxSeqLen <==> t.maxSeqLen >= 1)
  {
    var contentLimit := if t.maxSeqLen > 1 then t.maxSeqLen - 1 else 0;
    var content := ContentTokenIds(t, text, contentLimit);
    ids, mask := CopyContent(t, content);
    if |ids| < t.maxSeqLen {
      TakeThenCut(ContentIds(t, text), contentLimit, Fitting(t, text));
      OneMoreRepeat(1, |mask|);
      ids, mask := Pad(ids + [t.sep], mask + [1], t.pad, t.maxSeqLen);
    }
  }
}
