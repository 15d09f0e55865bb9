/**
 The term index behind keyword search and the BM25 score computed from it. A document is what the
 tokenizer and the identifier extractor make of its text: two lists of words.
 */
module Tfidf {
  import opened FiniteSets
  import opened Tally

  datatype Document = Document(terms: seq<string>, identifiers: seq<string>)

  datatype Index = Index(termFrequency: Counts, documentFrequency: Counts, totalTerms: nat, numDocuments: nat)

  /** An identifier counts three times when it is indexed and twice when a document is scored. */
  const INDEX_BOOST: nat := 3
  const SCORE_BOOST: nat := 2

  function Weights(d: Document, boost: nat): Counts {
    AddAll(AddAll(map[], d.terms, 1), d.identifiers, boost)
  }

  function Ones(m: Counts): Counts {
    map k | k in m :: 1
  }

  function AfterIndexing(x: Index, d: Document): Index {
    var local := Weights(d, INDEX_BOOST);
    Index(Merge(x.termFrequency, local), Merge(x.documentFrequency, Ones(local)),
          x.totalTerms + |d.terms| + INDEX_BOOST * |d.identifiers|, x.numDocuments + 1)
  }

  const EMPTY := Index(map[], map[], 0, 0)

  /** The index after these documents, in this order. */
  function IndexOf(docs: seq<Document>): Index {
    if docs == [] then EMPTY else AfterIndexing(IndexOf(docs[..|docs| - 1]), docs[|docs| - 1])
  }

  lemma OneWordMerged(m: Counts, local: Counts, left: set<string>, term: string)
    requires left <= local.Keys && term in left
    ensures Merge(m, local - (left - {term})) == Add(Merge(m, local - left), term, local[term])
  {
    var done := local - (left - {term});
    MergeOneKey(m, done, term);
    assert done - {term} == local - left;
  }

  lemma OneWordCounted(m: Counts, local: Counts, left: set<string>, term: string)
    requires left <= local.Keys && term in left
    ensures Merge(m, Ones(local - (left - {term}))) == Add(Merge(m, Ones(local - left)), term, 1)
  {
    var done := Ones(local - (left - {term}));
    MergeOneKey(m, done, term);
    assert done - {term} == Ones(local - left);
  }

  /** The frequencies after the words of a document that are not in `left`. */
  ghost predicate Merging(tf: Counts, df: Counts, local: Counts, left: set<string>, nowTf: Counts, nowDf: Counts) {
    && left <= local.Keys
    && nowTf == Merge(tf, local - left)
    && nowDf == Merge(df, Ones(local - left))
  }

  lemma NoneMerged(tf: Counts, df: Counts, local: Counts)
    ensures Merging(tf, df, local, local.Keys, tf, df)
  {
    assert local - local.Keys == map[];
  }

  lemma OneMerged(tf: Counts, df: Counts, local: Counts, left: set<string>, term: string, nowTf: Counts, nowDf: Counts)
    requires Merging(tf, df, local, left, nowTf, nowDf) && term in left
    ensures Merging(tf, df, local, left - {term}, Add(nowTf, term, local[term]), Add(nowDf, term, 1))
  {
    OneWordMerged(tf, local, left, term);
    OneWordCounted(df, local, left, term);
  }

  lemma AllMerged(tf: Counts, df: Counts, local: Counts, nowTf: Counts, nowDf: Counts)
    requires Merging(tf, df, local, {}, nowTf, nowDf)
    ensures nowTf == Merge(tf, local) && nowDf == Merge(df, Ones(local))
  {
    assert local - {} == local;
  }

  class TfidfVectorizer {
    var termFrequency: Counts
    var documentFrequency: Counts
    var totalTerms: nat
    var numDocuments: nat

    function Value(): Index
      reads this
    {
      Index(termFrequency, documentFrequency, totalTerms, numDocuments)
    }

    constructor ()
      ensures Value() == EMPTY
    {
      termFrequency, documentFrequency, totalTerms, numDocuments := map[], map[], 0, 0;
    }

    method IndexDocument(d: Document)
      modifies this
      ensures Value() == AfterIndexing(old(Value()), d)
    {
      var local: Counts := map[];
      for i := 0 to |d.terms|
        invariant local == AddAll(map[], d.terms[..i], 1)
        invariant Value() == old(Value()).(totalTerms := old(totalTerms) + i)
      {
        assert d.terms[..i + 1][..i] == d.terms[..i];
        local := Add(local, d.terms[i], 1);
        totalTerms := totalTerms + 1;
      }
      assert d.terms[..|d.terms|] == d.terms;
      ghost var ofTerms := local;
      for i := 0 to |d.identifiers|
        invariant local == AddAll(ofTerms, d.identifiers[..i], INDEX_BOOST)
        invariant Value() == old(Value()).(totalTerms := old(totalTerms) + |d.terms| + INDEX_BOOST * i)
      {
        assert d.identifiers[..i + 1][..i] == d.identifiers[..i];
        local := Add(local, d.identifiers[i], INDEX_BOOST);
        totalTerms := totalTerms + INDEX_BOOST;
      }
      assert d.identifiers[..|d.identifiers|] == d.identifiers;
      AddLocal(local);
      numDocuments := numDocuments + 1;
    }

    /** The last loop of indexing: over the words of one document. */
    method AddLocal(local: Counts)
      modifies `termFrequency, `documentFrequency
      ensures termFrequency == Merge(old(termFrequency), local)
      ensures documentFrequency == Merge(old(documentFrequency), Ones(local))
    {
      var left := local.Keys;
      ghost var tf, df := termFrequency, documentFrequency;
      NoneMerged(tf, df, local);
      while left != {}
        invariant Merging(tf, df, local, left, termFrequency, documentFrequency)
        decreases |left|
      {
        var term :| term in left;
        OneMerged(tf, df, local, left, term, termFrequency, documentFrequency);
        termFrequency := Add(termFrequency, term, local[term]);
        documentFrequency := Add(documentFrequency, term, 1);
        left := left - {term};
      }
      AllMerged(tf, df, local, termFrequency, documentFrequency);
    }

    /** The score of a document: every division in it is by a positive number, it is never negative, and it
        is positive if and only if some query word occurs both in an indexed document and in this one. */
    method ComputeBm25Score(log: real -> real, ghost docs: seq<Document>, d: Document, query: seq<string>)
      returns (score: real)
      requires IsLog(log) && Value() == IndexOf(docs)
      ensures score >= 0.0
      ensures score > 0.0 <==> exists word :: word in query && DocumentsWith(docs, word) > 0 && Contains(d, word)
      ensures Sound(Value())
      ensures score == Score(log, Value(), Weights(d, SCORE_BOOST), |d.terms| + SCORE_BOOST * |d.identifiers|, query)
    {
      var x := Value();
      ScoreMeans(log, docs, d, |d.terms| + SCORE_BOOST * |d.identifiers|, query);
      if x.numDocuments == 0 {
        NoDocuments(docs);
        return 0.0;
      }
      var weights := DocumentWeights(d);
      var docLength := SumOf(weights);
      TotalWeights(d, SCORE_BOOST);
      score := ScoreQuery(log, x, weights, docLength, query);
    }
  }

  // ---------------------------------------------------------------- the index agrees with the documents

  predicate Contains(d: Document, word: string) {
    word in d.terms || word in d.identifiers
  }

  /** How often a word counts in one document. */
  function Weight(d: Document, word: string, boost: nat): nat {
    Occurrences(d.terms, word) + Times(boost, Occurrences(d.identifiers, word))
  }

  function DocumentsWith(docs: seq<Document>, word: string): nat {
    if docs == [] then 0
    else DocumentsWith(docs[..|docs| - 1], word) + One(Contains(docs[|docs| - 1], word))
  }

  function WeightIn(docs: seq<Document>, word: string): nat {
    if docs == [] then 0
    else WeightIn(docs[..|docs| - 1], word) + Weight(docs[|docs| - 1], word, INDEX_BOOST)
  }

  lemma WeightsAre(d: Document, boost: nat, word: string)
    requires boost > 0
    ensures Get(Weights(d, boost), word) == Weight(d, word, boost)
    ensures word in Weights(d, boost) <==> Contains(d, word)
    ensures Contains(d, word) <==> Weight(d, word, boost) > 0
  {
    AddAllGet(map[], d.terms, 1, word);
    AddAllGet(AddAll(map[], d.terms, 1), d.identifiers, boost, word);
    TimesOne(Occurrences(d.terms, word));
    TimesPositive(boost, Occurrences(d.identifiers, word));
    OccursIffIn(d.terms, word);
    OccursIffIn(d.identifiers, word);
  }

  /** The document frequency of a word is the number of documents that contain it, its term frequency is
      what it counts in all of them, and both maps hold exactly the words that occur. */
  lemma {:induction false} FrequenciesAgree(docs: seq<Document>, word: string)
    ensures var x := IndexOf(docs);
      && x.numDocuments == |docs|
      && Get(x.documentFrequency, word) == DocumentsWith(docs, word) <= |docs|
      && Get(x.termFrequency, word) == WeightIn(docs, word)
      && (word in x.documentFrequency <==> DocumentsWith(docs, word) > 0)
      && (word in x.termFrequency <==> DocumentsWith(docs, word) > 0)
  {
    if docs != [] {
      FrequenciesAgree(docs[..|docs| - 1], word);
      WeightsAre(docs[|docs| - 1], INDEX_BOOST, word);
    }
  }

  lemma TotalWeights(d: Document, boost: nat)
    ensures Total(Weights(d, boost)) == |d.terms| + boost * |d.identifiers|
  {
    TotalAddAll(map[], d.terms, 1);
    TotalAddAll(AddAll(map[], d.terms, 1), d.identifiers, boost);
    TimesOne(|d.terms|);
    TimesIsProduct(boost, |d.identifiers|);
  }

  /** The term frequencies add up to the total. */
  lemma {:induction false} FrequenciesAddUp(docs: seq<Document>)
    ensures Total(IndexOf(docs).termFrequency) == IndexOf(docs).totalTerms
  {
    if docs != [] {
      var before, d := IndexOf(docs[..|docs| - 1]), docs[|docs| - 1];
      FrequenciesAddUp(docs[..|docs| - 1]);
      TotalMerge(before.termFrequency, Weights(d, INDEX_BOOST));
      TotalWeights(d, INDEX_BOOST);
    }
  }

  /** Documents that differ only in their order give the same index. */
  lemma {:induction false} OrderDoesNotMatter(docs: seq<Document>, others: seq<Document>)
    requires multiset(docs) == multiset(others)
    ensures IndexOf(docs) == IndexOf(others)
  {
    forall word: string
      ensures Get(IndexOf(docs).documentFrequency, word) == Get(IndexOf(others).documentFrequency, word)
      ensures Get(IndexOf(docs).termFrequency, word) == Get(IndexOf(others).termFrequency, word)
      ensures word in IndexOf(docs).documentFrequency <==> word in IndexOf(others).documentFrequency
      ensures word in IndexOf(docs).termFrequency <==> word in IndexOf(others).termFrequency
    {
      FrequenciesAgree(docs, word);
      FrequenciesAgree(others, word);
      SumsIgnoreOrder(docs, others, word);
    }
    SameCounts(IndexOf(docs).documentFrequency, IndexOf(others).documentFrequency);
    SameCounts(IndexOf(docs).termFrequency, IndexOf(others).termFrequency);
    FrequenciesAddUp(docs);
    FrequenciesAddUp(others);
    FrequenciesAgree(docs, "");
    FrequenciesAgree(others, "");
    assert |docs| == |multiset(docs)| == |others|;
  }

  lemma SameCounts(a: Counts, b: Counts)
    requires forall word :: Get(a, word) == Get(b, word) && (word in a <==> word in b)
    ensures a == b
  {
    forall word | word in a
      ensures word in b && a[word] == b[word]
    {
      assert Get(a, word) == Get(b, word);
    }
    forall word | word in b
      ensures word in a
    {
      assert Get(a, word) == Get(b, word);
    }
  }

  lemma SkipThenCut<T>(s: seq<T>, k: nat)
    requires k < |s| - 1
    ensures var n, rest := |s| - 1, s[..k] + s[k + 1..];
      rest[..n - 1] == s[..n][..k] + s[..n][k + 1..] && rest[n - 1] == s[n]
  {
    var n, rest := |s| - 1, s[..k] + s[k + 1..];
    var cut, same := rest[..n - 1], s[..n][..k] + s[..n][k + 1..];
    forall i | 0 <= i < n - 1
      ensures cut[i] == same[i]
    {
      assert cut[i] == rest[i] == if i < k then s[i] else s[i + 1];
    }
  }

  lemma {:induction false} TakenOut(docs: seq<Document>, k: nat, word: string)
    requires k < |docs|
    ensures var rest := docs[..k] + docs[k + 1..];
      && DocumentsWith(docs, word) == DocumentsWith(rest, word) + One(Contains(docs[k], word))
      && WeightIn(docs, word) == WeightIn(rest, word) + Weight(docs[k], word, INDEX_BOOST)
  {
    var n := |docs| - 1;
    var rest := docs[..k] + docs[k + 1..];
    if k < n {
      var front := docs[..n];
      TakenOut(front, k, word);
      SkipThenCut(docs, k);
    } else {
      assert rest == docs[..n];
    }
  }

  lemma {:induction false} SumsIgnoreOrder(docs: seq<Document>, others: seq<Document>, word: string)
    requires multiset(docs) == multiset(others)
    ensures DocumentsWith(docs, word) == DocumentsWith(others, word)
    ensures WeightIn(docs, word) == WeightIn(others, word)
  {
    if docs == [] {
      assert |others| == |multiset(others)| == 0;
    } else {
      var n := |docs| - 1;
      var k := Position(others, docs[n], docs);
      var rest := others[..k] + others[k + 1..];
      TakenOut(others, k, word);
      SameRest(docs, others, k);
      SumsIgnoreOrder(docs[..n], rest, word);
    }
  }

  lemma Position(others: seq<Document>, d: Document, docs: seq<Document>) returns (k: nat)
    requires d in docs && multiset(docs) == multiset(others)
    ensures k < |others| && others[k] == d
  {
    assert d in multiset(others);
    k :| k < |others| && others[k] == d;
  }

  lemma SameRest(docs: seq<Document>, others: seq<Document>, k: nat)
    requires docs != [] && k < |others| && others[k] == docs[|docs| - 1] && multiset(docs) == multiset(others)
    ensures multiset(docs[..|docs| - 1]) == multiset(others[..k] + others[k + 1..])
  {
    var n := |docs| - 1;
    var d, left, right := docs[n], others[..k], others[k + 1..];
    assert docs == docs[..n] + [d];
    assert others == left + [d] + right;
    assert multiset(docs) == multiset(docs[..n]) + multiset{d};
    assert multiset(others) == multiset(left) + multiset{d} + multiset(right);
    assert multiset(left + right) == multiset(left) + multiset(right);
    assert multiset(docs[..n]) == multiset(docs) - multiset{d} == multiset(left) + multiset(right);
    assert docs[..|docs| - 1] == docs[..n];
  }

  // ---------------------------------------------------------------- the score

  /** All that is used of the logarithm: it is positive above one. */
  ghost predicate IsLog(log: real -> real) {
    forall x :: x > 1.0 ==> log(x) > 0.0
  }

  /** What makes the divisions of the score safe. */
  ghost predicate Sound(x: Index) {
    forall word :: word in x.documentFrequency ==>
      1 <= x.documentFrequency[word] <= x.numDocuments && x.totalTerms > 0
  }

  lemma {:induction false} PartOfTotal(m: Counts, k: string)
    requires k in m
    ensures m[k] <= Total(m)
  {
    TotalWithout(m, k);
  }

  lemma {:induction false} IndexIsSound(docs: seq<Document>)
    ensures Sound(IndexOf(docs))
  {
    var x := IndexOf(docs);
    forall word | word in x.documentFrequency
      ensures 1 <= x.documentFrequency[word] <= x.numDocuments && x.totalTerms > 0
    {
      FrequenciesAgree(docs, word);
      FrequenciesAddUp(docs);
      PartOfTotal(x.termFrequency, word);
      SomeWeight(docs, word);
    }
  }

  lemma {:induction false} SomeWeight(docs: seq<Document>, word: string)
    ensures WeightIn(docs, word) >= DocumentsWith(docs, word)
  {
    if docs != [] {
      SomeWeight(docs[..|docs| - 1], word);
      WeightsAre(docs[|docs| - 1], INDEX_BOOST, word);
    }
  }

  const K1: real := 1.5
  const B: real := 0.75

  function Idf(log: real -> real, n: nat, df: nat): real {
    log((n as real - df as real + 0.5) / (df as real + 0.5) + 1.0)
  }

  lemma RatioIsFine(docLength: nat, totalTerms: nat, n: nat)
    requires n > 0 && totalTerms > 0
    ensures totalTerms as real / n as real > 0.0
    ensures docLength as real / (totalTerms as real / n as real) >= 0.0
  {
  }

  /** What the length of a document does to the score of a word in it. */
  function LengthNorm(docLength: nat, totalTerms: nat, n: nat): (c: real)
    requires n > 0 && totalTerms > 0
    ensures c > 0.0
  {
    RatioIsFine(docLength, totalTerms, n);
    K1 * (1.0 - B + B * (docLength as real / (totalTerms as real / n as real)))
  }

  function Saturation(tf: nat, docLength: nat, totalTerms: nat, n: nat): real
    requires n > 0 && totalTerms > 0 && tf > 0
  {
    tf as real * (K1 + 1.0) / (tf as real + LengthNorm(docLength, totalTerms, n))
  }

  lemma IdfPositive(log: real -> real, n: nat, df: nat)
    requires IsLog(log) && df <= n
    ensures Idf(log, n, df) > 0.0
  {
    var odds := (n as real - df as real + 0.5) / (df as real + 0.5);
    assert odds > 0.0;
  }

  lemma SaturationPositive(tf: nat, docLength: nat, totalTerms: nat, n: nat)
    requires n > 0 && totalTerms > 0 && tf > 0
    ensures Saturation(tf, docLength, totalTerms, n) > 0.0
  {
  }

  // ---------------------------------------------------------------- the shape of the score

  lemma Scaled(x: real, y: real, factor: real)
    requires x >= y && factor > 0.0
    ensures x * factor >= y * factor
  {
  }

  lemma CrossMultiply(a: real, b: real, c: real, d: real)
    requires b > 0.0 && d > 0.0 && a * d < c * b
    ensures a / b < c / d
  {
    assert a / b * (b * d) == a * d;
    assert c / d * (b * d) == c * b;
    if a / b >= c / d {
      Scaled(a / b, c / d, b * d);
    }
  }

  /** A word counts for more the more often it occurs, but never for more than `K1 + 1`. */
  lemma SaturationGrows(tf: nat, more: nat, docLength: nat, totalTerms: nat, n: nat)
    requires n > 0 && totalTerms > 0 && 0 < tf < more
    ensures Saturation(tf, docLength, totalTerms, n) < Saturation(more, docLength, totalTerms, n) < K1 + 1.0
  {
    var c, x, y, top := LengthNorm(docLength, totalTerms, n), tf as real, more as real, K1 + 1.0;
    assert x * top * (y + c) < y * top * (x + c) by {
      assert y * c > x * c;
      assert x * top * (y + c) == top * (x * y) + top * (x * c);
      assert y * top * (x + c) == top * (x * y) + top * (y * c);
    }
    CrossMultiply(x * top, x + c, y * top, y + c);
    CrossMultiply(y * top, y + c, top, 1.0);
  }

  /** A word counts for less in a longer document. */
  lemma SaturationFalls(tf: nat, docLength: nat, longer: nat, totalTerms: nat, n: nat)
    requires n > 0 && totalTerms > 0 && tf > 0 && docLength < longer
    ensures Saturation(tf, longer, totalTerms, n) < Saturation(tf, docLength, totalTerms, n)
  {
    var c, d, x, top := LengthNorm(docLength, totalTerms, n), LengthNorm(longer, totalTerms, n), tf as real, K1 + 1.0;
    LongerNorm(docLength, longer, totalTerms, n);
    assert x * top * (x + c) < x * top * (x + d) by {
      assert x * top > 0.0;
    }
    CrossMultiply(x * top, x + d, x * top, x + c);
  }

  lemma LongerNorm(docLength: nat, longer: nat, totalTerms: nat, n: nat)
    requires n > 0 && totalTerms > 0 && docLength < longer
    ensures LengthNorm(docLength, totalTerms, n) < LengthNorm(longer, totalTerms, n)
  {
    var average := totalTerms as real / n as real;
    RatioIsFine(docLength, totalTerms, n);
    CrossMultiply(docLength as real, average, longer as real, average);
  }

  /** In a document of average length the norm is `K1` alone. */
  lemma AverageNorm(docLength: nat, totalTerms: nat, n: nat)
    requires n > 0 && totalTerms > 0 && docLength * n == totalTerms
    ensures LengthNorm(docLength, totalTerms, n) == K1
  {
    RatioIsFine(docLength, totalTerms, n);
    var average := totalTerms as real / n as real;
    assert totalTerms as real == docLength as real * n as real;
    assert average == docLength as real && docLength as real / average == 1.0;
  }

  /** The logarithm is taken of the documents, and one more, for each that contains the word, and a half. */
  lemma IdfOdds(log: real -> real, n: nat, df: nat)
    ensures Idf(log, n, df) == log((n as real + 1.0) / (df as real + 0.5))
  {
    var x, y := n as real, df as real;
    OneMorePart(x - y + 0.5, y + 0.5);
    assert x - y + 0.5 + (y + 0.5) == x + 1.0;
  }

  lemma OneMorePart(a: real, b: real)
    requires b > 0.0
    ensures a / b + 1.0 == (a + b) / b
  {
    assert (a / b + 1.0) * b == a / b * b + b == a + b == (a + b) / b * b;
    SameFactor(a / b + 1.0, (a + b) / b, b);
  }

  lemma ScaledStrictly(x: real, y: real, factor: real)
    requires factor > 0.0
    ensures x < y ==> x * factor < y * factor
  {
    assert y * factor - x * factor == (y - x) * factor;
  }

  lemma SameFactor(x: real, y: real, factor: real)
    requires factor > 0.0 && x * factor == y * factor
    ensures x == y
  {
    ScaledStrictly(x, y, factor);
    ScaledStrictly(y, x, factor);
  }

  /** The two ends of the length's effect: a document without words has a quarter of the average's norm, and one of
      twice the average length seven quarters. In a document of average length a word that occurs once counts as one. */
  lemma NormEnds(docLength: nat, totalTerms: nat, n: nat)
    requires n > 0 && totalTerms > 0 && docLength * n == totalTerms
    ensures LengthNorm(0, totalTerms, n) == K1 / 4.0 && LengthNorm(docLength, totalTerms, n) == K1
    ensures LengthNorm(2 * docLength, totalTerms, n) == K1 * 7.0 / 4.0
    ensures Saturation(1, docLength, totalTerms, n) == 1.0
  {
    AverageNorm(docLength, totalTerms, n);
    var average := totalTerms as real / n as real;
    RatioIsFine(0, totalTerms, n);
    assert totalTerms as real == docLength as real * n as real;
    assert average == docLength as real;
    assert 0.0 / average == 0.0;
    assert (2 * docLength) as real / average == 2.0;
  }

  lemma OddsCross(x: real, y: real, z: real)
    requires x >= 0.0 && y < z
    ensures (x - z + 0.5) * (y + 0.5) < (x - y + 0.5) * (z + 0.5)
  {
    assert (x - y + 0.5) * (z + 0.5) - (x - z + 0.5) * (y + 0.5) == (z - y) * (x + 1.0);
  }

  /** A word counts for less the more documents contain it. */
  lemma IdfFalls(log: real -> real, n: nat, df: nat, more: nat)
    requires forall x, y :: x < y ==> log(x) < log(y)
    requires df < more <= n
    ensures Idf(log, n, more) < Idf(log, n, df)
  {
    var x, y, z := n as real, df as real, more as real;
    OddsCross(x, y, z);
    CrossMultiply(x - z + 0.5, z + 0.5, x - y + 0.5, y + 0.5);
  }

  /** Whether a query word adds to the score: it is indexed and in the document. */
  predicate Scores(x: Index, weights: Counts, word: string) {
    word in x.documentFrequency && word in weights && weights[word] != 0
  }

  function WordScore(log: real -> real, x: Index, weights: Counts, docLength: nat, word: string): real
    requires Sound(x)
  {
    if !Scores(x, weights, word) then 0.0
    else
      Idf(log, x.numDocuments, x.documentFrequency[word])
      * Saturation(weights[word], docLength, x.totalTerms, x.numDocuments)
  }

  function Score(log: real -> real, x: Index, weights: Counts, docLength: nat, query: seq<string>): real
    requires Sound(x)
  {
    if query == [] then 0.0
    else
      Score(log, x, weights, docLength, query[..|query| - 1])
      + WordScore(log, x, weights, docLength, query[|query| - 1])
  }

  lemma WordScoreSign(log: real -> real, x: Index, weights: Counts, docLength: nat, word: string)
    requires IsLog(log) && Sound(x)
    ensures WordScore(log, x, weights, docLength, word) >= 0.0
    ensures WordScore(log, x, weights, docLength, word) > 0.0 <==> Scores(x, weights, word)
  {
    if Scores(x, weights, word) {
      IdfPositive(log, x.numDocuments, x.documentFrequency[word]);
      SaturationPositive(weights[word], docLength, x.totalTerms, x.numDocuments);
    }
  }

  lemma {:induction false} ScoreSign(log: real -> real, x: Index, weights: Counts, docLength: nat, query: seq<string>)
    requires IsLog(log) && Sound(x)
    ensures Score(log, x, weights, docLength, query) >= 0.0
    ensures Score(log, x, weights, docLength, query) > 0.0 <==> exists word :: word in query && Scores(x, weights, word)
  {
    if query != [] {
      var front, last := query[..|query| - 1], query[|query| - 1];
      ScoreSign(log, x, weights, docLength, front);
      WordScoreSign(log, x, weights, docLength, last);
      assert query == front + [last];
    }
  }

  lemma ProductGrows(a: real, b: real, c: real, d: real)
    requires 0.0 < a <= b && 0.0 < c <= d && (a < b || c < d)
    ensures a * c < b * d
  {
    assert b * d - a * c == b * (d - c) + (b - a) * c;
    if c < d {
      assert b * (d - c) > 0.0;
    } else {
      assert (b - a) * c > 0.0;
    }
  }

  lemma SaturationOrder(tf: nat, docLength: nat, tg: nat, otherLength: nat, totalTerms: nat, n: nat)
    requires n > 0 && totalTerms > 0 && 0 < tf <= tg && docLength >= otherLength
    ensures var s, t := Saturation(tf, docLength, totalTerms, n), Saturation(tg, otherLength, totalTerms, n);
      s <= t && (tf < tg || docLength > otherLength ==> s < t)
  {
    if tf < tg {
      SaturationGrows(tf, tg, docLength, totalTerms, n);
    }
    if docLength > otherLength {
      SaturationFalls(tg, otherLength, docLength, totalTerms, n);
    }
  }

  /** What a query word that scores adds, in any index: more the more often it occurs in the document, less the longer
      the document is, and less the more documents contain it. */
  lemma WordScoreOrder(log: real -> real, x: Index, weights: Counts, docLength: nat, word: string,
                       others: Counts, otherLength: nat, other: string)
    requires IsLog(log) && (forall a, b :: a < b ==> log(a) < log(b)) && Sound(x)
    requires Scores(x, weights, word) && Scores(x, others, other)
    requires weights[word] <= others[other] && docLength >= otherLength
    requires x.documentFrequency[word] >= x.documentFrequency[other]
    ensures WordScore(log, x, weights, docLength, word) <= WordScore(log, x, others, otherLength, other)
    ensures
      (weights[word] < others[other] || docLength > otherLength
        || x.documentFrequency[word] > x.documentFrequency[other])
      ==> WordScore(log, x, weights, docLength, word) < WordScore(log, x, others, otherLength, other)
  {
    var n, total := x.numDocuments, x.totalTerms;
    var df, dg, tf, tg := x.documentFrequency[word], x.documentFrequency[other], weights[word], others[other];
    IdfPositive(log, n, df);
    IdfPositive(log, n, dg);
    SaturationPositive(tf, docLength, total, n);
    if df > dg {
      IdfFalls(log, n, dg, df);
    }
    SaturationOrder(tf, docLength, tg, otherLength, total, n);
    if tf < tg || docLength > otherLength || df > dg {
      var low, high := Saturation(tf, docLength, total, n), Saturation(tg, otherLength, total, n);
      ProductGrows(Idf(log, n, df), Idf(log, n, dg), low, high);
    }
  }

  /** The words of a query score independently: queries put together add up, and a word that does not score adds
      nothing. */
  lemma {:induction false} ScoreAddsUp(log: real -> real, x: Index, weights: Counts, docLength: nat,
                                       query: seq<string>, more: seq<string>)
    requires Sound(x)
    ensures Score(log, x, weights, docLength, query + more) ==
      Score(log, x, weights, docLength, query) + Score(log, x, weights, docLength, more)
  {
    if more == [] {
      assert query + more == query;
    } else {
      var front := more[..|more| - 1];
      assert (query + more)[..|query + more| - 1] == query + front;
      ScoreAddsUp(log, x, weights, docLength, query, front);
    }
  }

  lemma {:induction false} ScoreOfOne(log: real -> real, x: Index, weights: Counts, docLength: nat, word: string)
    requires Sound(x)
    ensures Score(log, x, weights, docLength, [word]) == WordScore(log, x, weights, docLength, word)
  {
    assert [word][..0] == [];
  }

  /** What a scoring word adds, in terms of the documents: the logarithm of the odds times its saturation. */
  lemma {:induction false} WordScoreMeans(log: real -> real, docs: seq<Document>, d: Document, docLength: nat,
        word: string)
    requires DocumentsWith(docs, word) > 0 && Contains(d, word)
    ensures Sound(IndexOf(docs)) && |docs| > 0 && IndexOf(docs).totalTerms > 0 && Weight(d, word, SCORE_BOOST) > 0
    ensures WordScore(log, IndexOf(docs), Weights(d, SCORE_BOOST), docLength, word) ==
      log((|docs| as real + 1.0) / (DocumentsWith(docs, word) as real + 0.5))
      * Saturation(Weight(d, word, SCORE_BOOST), docLength, IndexOf(docs).totalTerms, |docs|)
  {
    IndexIsSound(docs);
    FrequenciesAgree(docs, word);
    WeightsAre(d, SCORE_BOOST, word);
    IdfOdds(log, |docs|, DocumentsWith(docs, word));
  }

  lemma {:induction false} ScoreMeans(log: real -> real, docs: seq<Document>, d: Document, docLength: nat,
        query: seq<string>)
    requires IsLog(log)
    ensures Sound(IndexOf(docs))
    ensures var score := Score(log, IndexOf(docs), Weights(d, SCORE_BOOST), docLength, query);
      && score >= 0.0
      && (score > 0.0 <==> exists word :: word in query && DocumentsWith(docs, word) > 0 && Contains(d, word))
  {
    var x, weights := IndexOf(docs), Weights(d, SCORE_BOOST);
    IndexIsSound(docs);
    ScoreSign(log, x, weights, docLength, query);
    forall word
      ensures Scores(x, weights, word) <==> DocumentsWith(docs, word) > 0 && Contains(d, word)
    {
      FrequenciesAgree(docs, word);
      WeightsAre(d, SCORE_BOOST, word);
    }
  }

  lemma {:induction false} NoDocuments(docs: seq<Document>)
    requires IndexOf(docs).numDocuments == 0
    ensures forall word :: DocumentsWith(docs, word) == 0
  {
    FrequenciesAgree(docs, "");
    assert docs == [];
  }

  /** The loop over the words of the query. */
  method ScoreQuery(log: real -> real, x: Index, weights: Counts, docLength: nat, query: seq<string>)
    returns (score: real)
    requires Sound(x)
    ensures score == Score(log, x, weights, docLength, query)
  {
    score := 0.0;
    for i := 0 to |query|
      invariant score == Score(log, x, weights, docLength, query[..i])
    {
      assert query[..i + 1][..i] == query[..i];
      if Scores(x, weights, query[i]) {
        score := score + WordScore(log, x, weights, docLength, query[i]);
      }
    }
    assert query[..|query|] == query;
  }

  method DocumentWeights(d: Document) returns (weights: Counts)
    ensures weights == Weights(d, SCORE_BOOST)
  {
    weights := map[];
    for i := 0 to |d.terms|
      invariant weights == AddAll(map[], d.terms[..i], 1)
    {
      assert d.terms[..i + 1][..i] == d.terms[..i];
      weights := Add(weights, d.terms[i], 1);
    }
    assert d.terms[..|d.terms|] == d.terms;
    ghost var ofTerms := weights;
    for i := 0 to |d.identifiers|
      invariant weights == AddAll(ofTerms, d.identifiers[..i], SCORE_BOOST)
    {
      assert d.identifiers[..i + 1][..i] == d.identifiers[..i];
      weights := Add(weights, d.identifiers[i], SCORE_BOOST);
    }
    assert d.identifiers[..|d.identifiers|] == d.identifiers;
  }

  method SumOf(weights: Counts) returns (sum: nat)
    ensures sum == Total(weights)
  {
    sum := 0;
    var left := weights;
    while left != map[]
      invariant sum + Total(left) == Total(weights)
      decreases |left|
    {
      var word :| word in left;
      TotalWithout(left, word);
      Shrinks(left, word);
      sum, left := sum + left[word], left - {word};
    }
  }
}
