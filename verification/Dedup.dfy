/**
 Semantic duplicates among question-answer pairs: a quadratic scan that marks a pair as a duplicate of the
 first earlier pair that it is similar to. Embeddings and their similarity are parameters.
 */
module Dedup {
  import opened Claims
  import opened Options

  datatype QAPair = QAPair(id: string, question: string, category: string)

  type Embedding = seq<real>

  /** The configuration, with the embedding model and the cosine similarity it is used with. */
  datatype Service = Service(threshold: real, excludeCategories: seq<string>,
                             embed: string -> Embedding, cosine: (Embedding, Embedding) -> real)

  datatype Duplicate = Duplicate(primaryId: string, duplicateId: string, similarity: real)

  predicate IsExcluded(s: Service, p: QAPair) {
    p.category in s.excludeCategories
  }

  function Similarity(s: Service, a: QAPair, b: QAPair): real {
    s.cosine(s.embed(a.question), s.embed(b.question))
  }

  /** The pair at `i` can claim the later pair at `j` as its duplicate. */
  predicate Matches(s: Service, ps: seq<QAPair>, i: nat, j: nat) {
    && i < j < |ps|
    && ps[i].category !in s.excludeCategories && ps[j].category !in s.excludeCategories
    && s.cosine(s.embed(ps[i].question), s.embed(ps[j].question)) >= s.threshold
    && ps[i].id != ps[j].id
  }

  ghost function Claim(s: Service, ps: seq<QAPair>): Relation {
    (i: nat, j: nat) => Matches(s, ps, i, j)
  }

  /** Which pairs the result is about, by their places: first the primary, then its duplicate. */
  ghost function Links(s: Service, ps: seq<QAPair>): seq<Link> {
    Rows(Claim(s, ps), |ps|, |ps|)
  }

  /** The result names the pair at `j` as a duplicate. */
  ghost predicate IsReported(s: Service, ps: seq<QAPair>, j: nat) {
    exists i: nat :: (i, j) in Links(s, ps)
  }

  function DuplicateOf(s: Service, ps: seq<QAPair>, i: nat, j: nat): Duplicate
    requires i < |ps| && j < |ps|
  {
    Duplicate(ps[i].id, ps[j].id, s.cosine(s.embed(ps[i].question), s.embed(ps[j].question)))
  }

  /** The result is about these links. */
  ghost predicate Reports(s: Service, ps: seq<QAPair>, duplicates: seq<Duplicate>, links: seq<Link>) {
    |duplicates| == |links| &&
    forall m :: 0 <= m < |links| ==>
      links[m].0 < |ps| && links[m].1 < |ps| && duplicates[m] == DuplicateOf(s, ps, links[m].0, links[m].1)
  }

  method FindDuplicates(s: Service, ps: seq<QAPair>) returns (duplicates: seq<Duplicate>)
    ensures Reports(s, ps, duplicates, Links(s, ps))
  {
    duplicates := [];
    ghost var c := Claim(s, ps);
    if |ps| < 2 {
      NoneAtAll(c, |ps|);
      return;
    }
    var isDuplicate := new bool[|ps|](_ => false);
    for i := 0 to |ps|
      invariant Reports(s, ps, duplicates, Rows(c, |ps|, i))
      invariant Marks(isDuplicate[..], c, i)
    {
      var more := ScanRow(s, ps, i, c, isDuplicate);
      duplicates := duplicates + more;
    }
  }

  /** The marks say what has been claimed by the things before `end`. */
  ghost predicate Marks(marks: seq<bool>, c: Relation, end: nat) {
    forall m: nat :: m < |marks| ==> (marks[m] <==> ClaimedBefore(c, m, end))
  }

  /** The marks after the thing at `i` has claimed what it can below `to`. */
  ghost predicate MarksAfter(marks: seq<bool>, before: seq<bool>, c: Relation, i: nat, to: nat) {
    |marks| == |before| && forall m: nat :: m < |marks| ==> (marks[m] <==> before[m] || (m < to && c(i, m)))
  }

  lemma MarksFollow(marks: seq<bool>, before: seq<bool>, c: Relation, i: nat)
    requires Marks(before, c, i) && MarksAfter(marks, before, c, i, |marks|)
    ensures Marks(marks, c, i + 1)
  {
    forall m: nat | m < |marks|
      ensures marks[m] <==> ClaimedBefore(c, m, i + 1)
    {
      ClaimedNext(c, m, i);
    }
  }

  /** What the inner loop has done before it comes to `j`. */
  ghost predicate RowDone(s: Service, ps: seq<QAPair>, c: Relation, i: nat, before: seq<bool>,
                          j: nat, marks: seq<bool>, more: seq<Duplicate>) {
    Reports(s, ps, more, Row(c, i, j)) && MarksAfter(marks, before, c, i, j)
  }

  lemma NotClaimed(s: Service, ps: seq<QAPair>, c: Relation, i: nat, before: seq<bool>,
                   j: nat, marks: seq<bool>, more: seq<Duplicate>)
    requires RowDone(s, ps, c, i, before, j, marks, more) && Marks(before, c, i)
    requires j < |marks| && (marks[j] || !c(i, j))
    ensures RowDone(s, ps, c, i, before, j + 1, marks, more)
  {
  }

  lemma NewlyClaimed(s: Service, ps: seq<QAPair>, c: Relation, i: nat, before: seq<bool>,
                     j: nat, marks: seq<bool>, more: seq<Duplicate>)
    requires RowDone(s, ps, c, i, before, j, marks, more) && Marks(before, c, i)
    requires i < |ps| == |marks| && j < |marks| && !marks[j] && c(i, j)
    ensures RowDone(s, ps, c, i, before, j + 1, marks[j := true], more + [DuplicateOf(s, ps, i, j)])
  {
  }

  lemma RowStarts(s: Service, ps: seq<QAPair>, c: Relation, i: nat, before: seq<bool>)
    requires c == Claim(s, ps)
    ensures RowDone(s, ps, c, i, before, i + 1, before, [])
  {
    NoneInRow(c, i, i + 1);
  }

  lemma ExcludedClaimsNone(s: Service, ps: seq<QAPair>, c: Relation, i: nat, before: seq<bool>)
    requires i < |ps| && IsExcluded(s, ps[i]) && c == Claim(s, ps) && Marks(before, c, i)
    ensures Reports(s, ps, [], Row(c, i, |ps|)) && Marks(before, c, i + 1)
  {
    NoneInRow(c, i, |ps|);
    MarksFollow(before, before, c, i);
  }

  /** The inner loop: what the pair at `i` claims. */
  method ScanRow(s: Service, ps: seq<QAPair>, i: nat, ghost c: Relation, isDuplicate: array<bool>)
    returns (more: seq<Duplicate>)
    requires i < |ps| == isDuplicate.Length && c == Claim(s, ps)
    requires Marks(isDuplicate[..], c, i)
    modifies isDuplicate
    ensures Reports(s, ps, more, Row(c, i, |ps|))
    ensures Marks(isDuplicate[..], c, i + 1)
  {
    more := [];
    ghost var before := isDuplicate[..];
    if IsExcluded(s, ps[i]) {
      ExcludedClaimsNone(s, ps, c, i, before);
      return;
    }
    RowStarts(s, ps, c, i, before);
    for j := i + 1 to |ps|
      invariant RowDone(s, ps, c, i, before, j, isDuplicate[..], more)
    {
      more := Compare(s, ps, i, j, c, before, isDuplicate, more);
    }
    MarksFollow(isDuplicate[..], before, c, i);
  }

  /** The body of the inner loop: one comparison. */
  method Compare(s: Service, ps: seq<QAPair>, i: nat, j: nat, ghost c: Relation, ghost before: seq<bool>,
                 isDuplicate: array<bool>, found: seq<Duplicate>) returns (more: seq<Duplicate>)
    requires i < j < |ps| == isDuplicate.Length && c == Claim(s, ps) && !IsExcluded(s, ps[i])
    requires Marks(before, c, i) && RowDone(s, ps, c, i, before, j, isDuplicate[..], found)
    modifies isDuplicate
    ensures RowDone(s, ps, c, i, before, j + 1, isDuplicate[..], more)
  {
    more := found;
    ghost var marks := isDuplicate[..];
    if c(i, j) && !marks[j] {
      NewlyClaimed(s, ps, c, i, before, j, marks, found);
    } else {
      NotClaimed(s, ps, c, i, before, j, marks, found);
    }
    if IsExcluded(s, ps[j]) || isDuplicate[j] {
      return;
    }
    var similarity := Similarity(s, ps[i], ps[j]);
    if similarity >= s.threshold && ps[i].id != ps[j].id {
      more := found + [Duplicate(ps[i].id, ps[j].id, similarity)];
      isDuplicate[j] := true;
      assert isDuplicate[..] == marks[j := true];
    }
  }

  // ---------------------------------------------------------------- what the result means

  lemma ClaimedMeans(s: Service, ps: seq<QAPair>, j: nat, end: nat)
    ensures ClaimedBefore(Claim(s, ps), j, end) <==> exists h: nat :: h < end && Matches(s, ps, h, j)
  {
    if h: nat :| h < end && Matches(s, ps, h, j) {
      assert Claim(s, ps)(h, j);
    }
  }

  /** The result lists exactly the pairs that some earlier pair can claim, each once and under the first that
      can, in order. */
  lemma LinksMean(s: Service, ps: seq<QAPair>)
    ensures forall i: nat, j: nat :: (i, j) in Links(s, ps) <==>
      Matches(s, ps, i, j) && forall h: nat :: h < i ==> !Matches(s, ps, h, j)
    ensures IsOrdered(Links(s, ps))
  {
    var c := Claim(s, ps);
    forall i: nat, j: nat
      ensures (i, j) in Links(s, ps) <==>
        Matches(s, ps, i, j) && forall h: nat :: h < i ==> !Matches(s, ps, h, j)
    {
      LinksAre(c, |ps|, (i, j));
      ClaimedMeans(s, ps, j, i);
    }
    LinksAreOrdered(c, |ps|, |ps|);
  }

  lemma ReportedIffClaimed(s: Service, ps: seq<QAPair>, j: nat)
    ensures IsReported(s, ps, j) <==> IsMarked(Claim(s, ps), j)
  {
    MarkedIffListed(Claim(s, ps), |ps|, j);
  }

  predicate Names(duplicates: seq<Duplicate>, id: string) {
    exists m :: 0 <= m < |duplicates| && duplicates[m].duplicateId == id
  }

  lemma ReportedIsNamed(s: Service, ps: seq<QAPair>, duplicates: seq<Duplicate>, j: nat)
    requires Reports(s, ps, duplicates, Links(s, ps)) && IsReported(s, ps, j)
    ensures j < |ps| && Names(duplicates, ps[j].id)
  {
    var h: nat :| (h, j) in Links(s, ps);
    var m :| 0 <= m < |Links(s, ps)| && Links(s, ps)[m] == (h, j);
    assert duplicates[m].duplicateId == ps[j].id;
  }

  /** A pair whose id the result does not name as a duplicate is similar enough to no earlier pair of another
      id, categories permitting. So once the named pairs are removed no two similar ones are left. */
  lemma UnmarkedAreDistinct(s: Service, ps: seq<QAPair>, duplicates: seq<Duplicate>, i: nat, j: nat)
    requires Reports(s, ps, duplicates, Links(s, ps))
    requires i < j < |ps| && !Names(duplicates, ps[j].id)
    requires ps[i].category !in s.excludeCategories && ps[j].category !in s.excludeCategories && ps[i].id != ps[j].id
    ensures s.cosine(s.embed(ps[i].question), s.embed(ps[j].question)) < s.threshold
  {
    if IsReported(s, ps, j) {
      ReportedIsNamed(s, ps, duplicates, j);
    }
    ReportedIffClaimed(s, ps, j);
    assert !Claim(s, ps)(i, j);
  }

  /** Which ids the result names as duplicates. */
  lemma NamedIff(s: Service, ps: seq<QAPair>, duplicates: seq<Duplicate>, id: string)
    requires Reports(s, ps, duplicates, Links(s, ps))
    ensures Names(duplicates, id) <==> exists h: nat, k: nat :: Matches(s, ps, h, k) && ps[k].id == id
  {
    if Names(duplicates, id) {
      var m :| 0 <= m < |duplicates| && duplicates[m].duplicateId == id;
      var link := Links(s, ps)[m];
      assert link in Links(s, ps);
      LinksMean(s, ps);
      assert Matches(s, ps, link.0, link.1) && ps[link.1].id == id;
    }
    if h: nat, k: nat :| Matches(s, ps, h, k) && ps[k].id == id {
      assert Claim(s, ps)(h, k);
      ReportedIffClaimed(s, ps, k);
      ReportedIsNamed(s, ps, duplicates, k);
    }
  }

  lemma {:induction false} ChainStays(s: Service, ps: seq<QAPair>, chain: seq<nat>)
    requires IsChain(Links(s, ps), chain) && chain[0] < |ps|
    ensures chain[|chain| - 1] < |ps|
  {
    if |chain| > 1 {
      LinksMean(s, ps);
      assert Matches(s, ps, chain[1], chain[0]);
      ChainStays(s, ps, chain[1..]);
    }
  }

  /** From every pair a chain of reported links leads to one that is not reported. It goes when the duplicates are
      removed only if it shares its id with another pair that some earlier pair can claim. */
  lemma LinkedToUnmarked(s: Service, ps: seq<QAPair>, duplicates: seq<Duplicate>, j: nat) returns (chain: seq<nat>)
    requires Reports(s, ps, duplicates, Links(s, ps)) && j < |ps|
    ensures IsChain(Links(s, ps), chain) && chain[0] == j && !IsReported(s, ps, chain[|chain| - 1])
    ensures chain[|chain| - 1] < |ps|
    ensures Names(duplicates, ps[chain[|chain| - 1]].id) <==>
      exists h: nat, k: nat ::
        Matches(s, ps, h, k) && k != chain[|chain| - 1] && ps[k].id == ps[chain[|chain| - 1]].id
  {
    chain := ChainToUnmarked(Claim(s, ps), |ps|, j);
    var end := chain[|chain| - 1];
    ReportedIffClaimed(s, ps, end);
    ChainStays(s, ps, chain);
    NamedIff(s, ps, duplicates, ps[end].id);
    forall h: nat, k: nat | Matches(s, ps, h, k)
      ensures k != end
    {
      assert Claim(s, ps)(h, k);
    }
  }

  // ---------------------------------------------------------------- "keep this one"

  /** No id named as a primary to keep is also named as a duplicate to remove. */
  ghost predicate PrimariesKept(duplicates: seq<Duplicate>) {
    forall a, b :: a in duplicates && b in duplicates ==> a.primaryId != b.duplicateId
  }

  /** The condition on the pairs under which that is so: if a pair can claim another, and its id is that of a pair
      that can be claimed, then an earlier pair can claim the other as well. */
  ghost predicate ReachesBack(s: Service, ps: seq<QAPair>) {
    forall i: nat, j: nat, m: nat, k: nat ::
      Matches(s, ps, i, j) && Matches(s, ps, m, k) && ps[j].id == ps[m].id ==> ClaimedEarlier(s, ps, m, k)
  }

  ghost predicate ClaimedEarlier(s: Service, ps: seq<QAPair>, m: nat, k: nat) {
    exists h: nat :: h < m && Matches(s, ps, h, k)
  }

  lemma EntryOfLink(s: Service, ps: seq<QAPair>, duplicates: seq<Duplicate>, m: nat, k: nat) returns (d: Duplicate)
    requires Reports(s, ps, duplicates, Links(s, ps)) && (m, k) in Links(s, ps)
    ensures m < |ps| && k < |ps| && d in duplicates && d == DuplicateOf(s, ps, m, k)
  {
    var x :| 0 <= x < |Links(s, ps)| && Links(s, ps)[x] == (m, k);
    d := duplicates[x];
  }

  lemma LinkOfEntry(s: Service, ps: seq<QAPair>, duplicates: seq<Duplicate>, d: Duplicate) returns (m: nat, k: nat)
    requires Reports(s, ps, duplicates, Links(s, ps)) && d in duplicates
    ensures m < |ps| && k < |ps| && (m, k) in Links(s, ps) && d == DuplicateOf(s, ps, m, k)
  {
    var x :| 0 <= x < |duplicates| && duplicates[x] == d;
    var link := Links(s, ps)[x];
    m, k := link.0, link.1;
  }

  lemma KeptIfReachesBack(s: Service, ps: seq<QAPair>, duplicates: seq<Duplicate>)
    requires Reports(s, ps, duplicates, Links(s, ps)) && ReachesBack(s, ps)
    ensures PrimariesKept(duplicates)
  {
    forall a, b | a in duplicates && b in duplicates
      ensures a.primaryId != b.duplicateId
    {
      var m, k := LinkOfEntry(s, ps, duplicates, a);
      var i, j := LinkOfEntry(s, ps, duplicates, b);
      LinksMean(s, ps);
      assert Matches(s, ps, i, j) && Matches(s, ps, m, k) && !ClaimedEarlier(s, ps, m, k);
    }
  }

  lemma ReachesBackIfKept(s: Service, ps: seq<QAPair>, duplicates: seq<Duplicate>)
    requires Reports(s, ps, duplicates, Links(s, ps)) && PrimariesKept(duplicates)
    ensures ReachesBack(s, ps)
  {
    forall i: nat, j: nat, m: nat, k: nat | Matches(s, ps, i, j) && Matches(s, ps, m, k) && ps[j].id == ps[m].id
      ensures ClaimedEarlier(s, ps, m, k)
    {
      LinksMean(s, ps);
      assert Claim(s, ps)(i, j);
      ReportedIffClaimed(s, ps, j);
      var h: nat :| (h, j) in Links(s, ps);
      var b := EntryOfLink(s, ps, duplicates, h, j);
      if !ClaimedEarlier(s, ps, m, k) {
        assert (m, k) in Links(s, ps);
        var a := EntryOfLink(s, ps, duplicates, m, k);
      }
    }
  }

  /** Exactly when every primary is kept, whatever ids the pairs have. */
  lemma PrimariesKeptIff(s: Service, ps: seq<QAPair>, duplicates: seq<Duplicate>)
    requires Reports(s, ps, duplicates, Links(s, ps))
    ensures PrimariesKept(duplicates) <==> ReachesBack(s, ps)
  {
    if ReachesBack(s, ps) {
      KeptIfReachesBack(s, ps, duplicates);
    }
    if PrimariesKept(duplicates) {
      ReachesBackIfKept(s, ps, duplicates);
    }
  }

  /** When no id is repeated, the condition is about chains of three pairs. */
  lemma ReachesBackByPlace(s: Service, ps: seq<QAPair>)
    requires forall i, j :: 0 <= i < j < |ps| ==> ps[i].id != ps[j].id
    ensures ReachesBack(s, ps) <==>
      forall i: nat, j: nat, k: nat :: Matches(s, ps, i, j) && Matches(s, ps, j, k) ==> ClaimedEarlier(s, ps, j, k)
  {
    forall i: nat, j: nat, m: nat, k: nat | Matches(s, ps, i, j) && Matches(s, ps, m, k) && ps[j].id == ps[m].id
      ensures j == m
    {
    }
  }

  // ---------------------------------------------------------------- the cosine

  function Dot(a: Embedding, b: Embedding): real
    requires |a| == |b|
  {
    if a == [] then 0.0 else Dot(a[..|a| - 1], b[..|b| - 1]) + a[|a| - 1] * b[|b| - 1]
  }

  /** `r` is what the program computes for two vectors: zero if they cannot be compared, and otherwise the dot
      product divided by the roots of both squared lengths. */
  predicate IsCosineOf(a: Embedding, b: Embedding, r: real) {
    if a == [] || b == [] || |a| != |b| then r == 0.0
    else if Dot(a, a) == 0.0 || Dot(b, b) == 0.0 then r == 0.0
    else r * r * (Dot(a, a) * Dot(b, b)) == Dot(a, b) * Dot(a, b) && (r >= 0.0 <==> Dot(a, b) >= 0.0)
  }

  ghost predicate IsCosine(cosine: (Embedding, Embedding) -> real) {
    forall a, b :: IsCosineOf(a, b, cosine(a, b))
  }

  lemma ZeroProduct(x: real, y: real)
    requires x * y == 0.0
    ensures x == 0.0 || y == 0.0
  {
  }

  lemma SameSquare(r: real, t: real, n: real)
    requires n != 0.0 && r * r * n == t * t * n && (r >= 0.0 <==> t >= 0.0)
    ensures r == t
  {
    assert (r * r - t * t) * n == r * r * n - t * t * n;
    ZeroProduct(r * r - t * t, n);
    assert (r - t) * (r + t) == r * r - t * t;
    ZeroProduct(r - t, r + t);
  }

  /** That determines the cosine. */
  lemma CosineUnique(a: Embedding, b: Embedding, r: real, t: real)
    requires IsCosineOf(a, b, r) && IsCosineOf(a, b, t)
    ensures r == t
  {
    if a != [] && |a| == |b| && Dot(a, a) != 0.0 && Dot(b, b) != 0.0 {
      SameSquare(r, t, Dot(a, a) * Dot(b, b));
    }
  }

  lemma {:induction false} DotSymmetric(a: Embedding, b: Embedding)
    requires |a| == |b|
    ensures Dot(a, b) == Dot(b, a)
  {
    if a != [] {
      DotSymmetric(a[..|a| - 1], b[..|b| - 1]);
    }
  }

  lemma CosineSymmetric(a: Embedding, b: Embedding, r: real)
    requires IsCosineOf(a, b, r)
    ensures IsCosineOf(b, a, r)
  {
    if |a| == |b| {
      DotSymmetric(a, b);
    }
  }

  lemma DotOfTwo(x: real, y: real, u: real, v: real)
    ensures Dot([x, y], [u, v]) == x * u + y * v
  {
    assert [x, y][..1] == [x] && [u, v][..1] == [u] && [x][..0] == [] && [u][..0] == [];
    assert Dot([x], [u]) == Dot([], []) + x * u;
    assert Dot([x, y], [u, v]) == Dot([x], [u]) + y * v;
  }

  /** On vectors of length one the cosine is the dot product. */
  lemma CosineOfUnits(cosine: (Embedding, Embedding) -> real, a: Embedding, b: Embedding)
    requires IsCosine(cosine) && a != [] && |a| == |b| && Dot(a, a) == 1.0 == Dot(b, b)
    ensures cosine(a, b) == Dot(a, b)
  {
    assert IsCosineOf(a, b, cosine(a, b));
    SameSquare(cosine(a, b), Dot(a, b), 1.0);
  }

  const EAST: Embedding := [1.0, 0.0]
  const NORTH_EAST: Embedding := [12.0 / 13.0, 5.0 / 13.0]
  const NORTH: Embedding := [119.0 / 169.0, 120.0 / 169.0]

  lemma ThreeVectors(cosine: (Embedding, Embedding) -> real)
    requires IsCosine(cosine)
    ensures cosine(EAST, NORTH_EAST) == cosine(NORTH_EAST, NORTH) == 12.0 / 13.0
    ensures cosine(EAST, NORTH) == 119.0 / 169.0
  {
    DotOfTwo(1.0, 0.0, 1.0, 0.0);
    DotOfTwo(12.0 / 13.0, 5.0 / 13.0, 12.0 / 13.0, 5.0 / 13.0);
    DotOfTwo(119.0 / 169.0, 120.0 / 169.0, 119.0 / 169.0, 120.0 / 169.0);
    DotOfTwo(1.0, 0.0, 12.0 / 13.0, 5.0 / 13.0);
    DotOfTwo(12.0 / 13.0, 5.0 / 13.0, 119.0 / 169.0, 120.0 / 169.0);
    DotOfTwo(1.0, 0.0, 119.0 / 169.0, 120.0 / 169.0);
    CosineOfUnits(cosine, EAST, NORTH_EAST);
    CosineOfUnits(cosine, NORTH_EAST, NORTH);
    CosineOfUnits(cosine, EAST, NORTH);
  }

  /** Claims do not reach back in general. With the program's cosine and its default threshold, of three
      questions whose embeddings are each less than 23 degrees from the next, the second is both a duplicate
      to remove and the primary to keep of the third. */
  lemma PrimaryCanBeRemoved(cosine: (Embedding, Embedding) -> real) returns (s: Service, ps: seq<QAPair>)
    requires IsCosine(cosine)
    ensures s.cosine == cosine && s.threshold == 0.85 && s.excludeCategories == []
    ensures forall i, j :: 0 <= i < j < |ps| ==> ps[i].id != ps[j].id
    ensures (0, 1) in Links(s, ps) && (1, 2) in Links(s, ps)
    ensures forall duplicates :: Reports(s, ps, duplicates, Links(s, ps)) ==> !PrimariesKept(duplicates)
  {
    s := Service(0.85, [], q => if q == "" then EAST else if q == "a" then NORTH_EAST else NORTH, cosine);
    ps := [QAPair("1", "", ""), QAPair("2", "a", ""), QAPair("3", "aa", "")];
    ThreeVectors(cosine);
    assert Matches(s, ps, 0, 1) && Matches(s, ps, 1, 2) && !Matches(s, ps, 0, 2);
    LinksMean(s, ps);
    assert !ClaimedEarlier(s, ps, 1, 2);
    NeverKept(s, ps);
  }

  lemma NeverKept(s: Service, ps: seq<QAPair>)
    requires !ReachesBack(s, ps)
    ensures forall duplicates :: Reports(s, ps, duplicates, Links(s, ps)) ==> !PrimariesKept(duplicates)
  {
    forall duplicates | Reports(s, ps, duplicates, Links(s, ps))
      ensures !PrimariesKept(duplicates)
    {
      PrimariesKeptIff(s, ps, duplicates);
    }
  }

  const UP: Embedding := [0.0, 1.0]

  lemma TwoVectors(cosine: (Embedding, Embedding) -> real)
    requires IsCosine(cosine)
    ensures cosine(EAST, EAST) == 1.0 == cosine(UP, UP) && cosine(EAST, UP) == 0.0
  {
    DotOfTwo(1.0, 0.0, 1.0, 0.0);
    DotOfTwo(0.0, 1.0, 0.0, 1.0);
    DotOfTwo(1.0, 0.0, 0.0, 1.0);
    CosineOfUnits(cosine, EAST, EAST);
    CosineOfUnits(cosine, UP, UP);
    CosineOfUnits(cosine, EAST, UP);
  }

  /** A repeated id is enough: no pair is both linked to as a duplicate and the primary of another, and yet one id
      is named both as one to keep and as one to remove. */
  lemma RepeatedIdCanBeRemoved(cosine: (Embedding, Embedding) -> real) returns (s: Service, ps: seq<QAPair>)
    requires IsCosine(cosine)
    ensures s.cosine == cosine && s.threshold == 0.85 && s.excludeCategories == []
    ensures forall a, b :: a in Links(s, ps) && b in Links(s, ps) ==> a.0 != b.1
    ensures forall duplicates :: Reports(s, ps, duplicates, Links(s, ps)) ==> !PrimariesKept(duplicates)
  {
    s := Service(0.85, [], q => if q == "" then EAST else UP, cosine);
    ps := [QAPair("1", "", ""), QAPair("2", "", ""), QAPair("2", "a", ""), QAPair("3", "a", "")];
    TwoVectors(cosine);
    LinksMean(s, ps);
    forall i: nat, j: nat
      ensures Matches(s, ps, i, j) <==> (i, j) == (0, 1) || (i, j) == (2, 3)
    {
    }
    forall a, b | a in Links(s, ps) && b in Links(s, ps)
      ensures a.0 != b.1
    {
      assert (a.0, a.1) in Links(s, ps) && (b.0, b.1) in Links(s, ps);
    }
    assert Matches(s, ps, 0, 1) && Matches(s, ps, 2, 3) && !ClaimedEarlier(s, ps, 2, 3);
    NeverKept(s, ps);
  }

  // ---------------------------------------------------------------- one new pair

  /** Whether an existing pair makes a new one a duplicate for `isDuplicate`. */
  predicate Rejects(s: Service, existing: QAPair, p: QAPair) {
    && existing.category !in s.excludeCategories && s.embed(existing.question) != []
    && s.cosine(s.embed(p.question), s.embed(existing.question)) >= s.threshold
  }

  ghost predicate FirstRejects(s: Service, existing: seq<QAPair>, p: QAPair, i: nat) {
    i < |existing| && Rejects(s, existing[i], p) && forall h :: 0 <= h < i ==> !Rejects(s, existing[h], p)
  }

  method IsDuplicate(s: Service, p: QAPair, existing: seq<QAPair>) returns (found: Option<Duplicate>)
    ensures found.Some? <==>
      s.embed(p.question) != [] && exists i :: 0 <= i < |existing| && Rejects(s, existing[i], p)
    ensures found.Some? ==>
      exists i: nat ::
        FirstRejects(s, existing, p, i) && found.value ==
          Duplicate(existing[i].id, p.id, s.cosine(s.embed(p.question), s.embed(existing[i].question)))
  {
    if existing == [] || s.embed(p.question) == [] {
      return None;
    }
    for i := 0 to |existing|
      invariant forall h :: 0 <= h < i ==> !Rejects(s, existing[h], p)
    {
      if IsExcluded(s, existing[i]) || s.embed(existing[i].question) == [] {
        continue;
      }
      var similarity := s.cosine(s.embed(p.question), s.embed(existing[i].question));
      if similarity >= s.threshold {
        assert FirstRejects(s, existing, p, i);
        return Some(Duplicate(existing[i].id, p.id, similarity));
      }
    }
    return None;
  }

  /** All that the next lemma uses of the cosine: it is symmetric, and zero when a vector is empty. */
  ghost predicate IsSimilarity(cosine: (Embedding, Embedding) -> real) {
    && (forall a, b :: cosine(a, b) == cosine(b, a))
    && (forall a :: cosine(a, []) == 0.0)
  }

  lemma CosineIsSimilarity(cosine: (Embedding, Embedding) -> real)
    requires IsCosine(cosine)
    ensures IsSimilarity(cosine)
  {
    forall a, b
      ensures cosine(a, b) == cosine(b, a)
    {
      CosineSymmetric(a, b, cosine(a, b));
      assert IsCosineOf(b, a, cosine(b, a));
      CosineUnique(b, a, cosine(a, b), cosine(b, a));
    }
    forall a
      ensures cosine(a, []) == 0.0
    {
      assert IsCosineOf(a, [], cosine(a, []));
    }
  }

  /** Asking about one new pair and scanning the collection with it at the end give the same answer, if the
      threshold is positive, the new pair's category is not excluded and no existing pair has its id. */
  lemma NewPairAgrees(s: Service, existing: seq<QAPair>, p: QAPair)
    requires IsSimilarity(s.cosine) && s.threshold > 0.0
    requires p.category !in s.excludeCategories && forall i :: 0 <= i < |existing| ==> existing[i].id != p.id
    ensures IsReported(s, existing + [p], |existing|) <==>
      s.embed(p.question) != [] && exists i :: 0 <= i < |existing| && Rejects(s, existing[i], p)
  {
    var all, n := existing + [p], |existing|;
    forall i: nat | i < n
      ensures Matches(s, all, i, n) <==> s.embed(p.question) != [] && Rejects(s, existing[i], p)
    {
      var a, b := s.embed(existing[i].question), s.embed(p.question);
      assert s.cosine(a, b) == s.cosine(b, a) && s.cosine(a, []) == 0.0 && s.cosine(b, []) == 0.0;
    }
    ReportedIffClaimed(s, all, n);
    if IsMarked(Claim(s, all), n) {
      var i: nat :| Claim(s, all)(i, n);
      assert Rejects(s, existing[i], p);
    }
    if i: nat :| i < n && Rejects(s, existing[i], p) && s.embed(p.question) != [] {
      assert Claim(s, all)(i, n);
    }
  }

  /** In particular with the program's cosine. */
  lemma NewPairAgreesWithCosine(s: Service, existing: seq<QAPair>, p: QAPair)
    requires IsCosine(s.cosine) && s.threshold > 0.0
    requires p.category !in s.excludeCategories && forall i :: 0 <= i < |existing| ==> existing[i].id != p.id
    ensures IsReported(s, existing + [p], |existing|) <==>
      s.embed(p.question) != [] && exists i :: 0 <= i < |existing| && Rejects(s, existing[i], p)
  {
    CosineIsSimilarity(s.cosine);
    NewPairAgrees(s, existing, p);
  }
}
