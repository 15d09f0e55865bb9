/** The analytics service: its log and counts, and the report of questions that found no answer. */
module Analytics {
  import opened AnalyticsSpec
  import opened Numbers
  import opened Sorting
  import opened Tally

  class AnalyticsService {
    var log: seq<SearchQuery>
    var queryCounts: Counts
    var maxLogEntries: nat

    function Value(): State
      reads this
    {
      State(log, queryCounts, maxLogEntries)
    }

    constructor (maxLogEntries: nat)
      ensures Value() == Run(maxLogEntries, [])
    {
      log, queryCounts := [], map[];
      this.maxLogEntries := maxLogEntries;
    }

    method LogSearch(entry: SearchQuery)
      modifies this
      ensures Value() == AfterLog(old(Value()), entry)
    {
      log := log + [entry];
      UpdateQueryCounts(entry);
      if |log| > maxLogEntries {
        var removeCount := |log| - maxLogEntries / 2;
        log := log[removeCount..];
        PruneQueryCounts();
      }
    }

    method PruneLog(cutoff: int)
      modifies this
      ensures Value() == AfterPrune(old(Value()), cutoff)
    {
      var kept: seq<SearchQuery> := [];
      for i := 0 to |log|
        invariant kept == Since(log[..i], cutoff) && Value() == old(Value())
      {
        assert log[..i + 1][..i] == log[..i];
        if log[i].timestamp >= cutoff {
          kept := kept + [log[i]];
        } else {
          assert kept + [] == kept;
        }
      }
      assert log[..|log|] == log;
      log := kept;
      PruneQueryCounts();
    }

    method SetMaxLogEntries(max: nat)
      modifies this
      ensures Value() == Step(old(Value()), Op.SetMaxLogEntries(max))
    {
      maxLogEntries := max;
    }

    method UpdateQueryCounts(entry: SearchQuery)
      modifies `queryCounts
      ensures queryCounts == Add(old(queryCounts), entry.query, 1)
    {
      queryCounts := Add(queryCounts, entry.query, 1);
    }

    method PruneQueryCounts()
      modifies `queryCounts
      ensures queryCounts == Histogram(log)
    {
      var validCounts: Counts := map[];
      for i := 0 to |log|
        invariant validCounts == Histogram(log[..i])
      {
        HistogramMore(log[..i], log[i]);
        assert log[..i + 1] == log[..i] + [log[i]];
        validCounts := Add(validCounts, log[i].query, 1);
      }
      assert log[..|log|] == log;
      queryCounts := validCounts;
    }

    /** The report of questions without an answer: see `Reports`. */
    method ExtractMissingQueries() returns (missing: seq<MissingAnswer>)
      ensures Reports(missing, log)
    {
      var counts, last := CountMissing(log);
      missing := [];
      var left := counts.Keys;
      while left != {}
        invariant left <= counts.Keys
        invariant IsReport(Sorted(MoreOften, missing), counts - left, last)
        decreases |left|
      {
        var query :| query in left;
        var entry := MissingAnswer(query, counts[query], last[query]);
        EntryAdded(Sorted(MoreOften, missing), counts, left, last, query);
        SortedMore(MoreOften, missing, entry);
        missing := missing + [entry];
        left := left - {query};
      }
      assert counts - {} == counts;
      missing := Sorted(MoreOften, missing);
      ReportIsComplete(missing, counts, last, log);
    }
  }

  /** Runs calls one after another on a new service. */
  method RunCalls(max: nat, ops: seq<Op>) returns (service: AnalyticsService)
    ensures service.Value() == Run(max, ops)
  {
    service := new AnalyticsService(max);
    for i := 0 to |ops|
      invariant service.Value() == Run(max, ops[..i])
    {
      assert ops[..i + 1][..i] == ops[..i];
      match ops[i]
      case LogSearch(entry) => service.LogSearch(entry);
      case PruneLog(cutoff) => service.PruneLog(cutoff);
      case SetMaxLogEntries(m) => service.SetMaxLogEntries(m);
    }
    assert ops[..|ops|] == ops;
  }

  // ---------------------------------------------------------------- questions without an answer

  datatype MissingAnswer = MissingAnswer(query: string, searchCount: nat, lastSearched: int)

  type Times = map<string, int>

  function Unanswered(log: seq<SearchQuery>): seq<SearchQuery> {
    if log == [] then []
    else Unanswered(log[..|log| - 1]) + if log[|log| - 1].hasAnswer then [] else [log[|log| - 1]]
  }

  /** When a query was last logged, but no earlier than the start of the epoch. */
  function LastTime(log: seq<SearchQuery>, query: string): int {
    if log == [] then 0
    else
      var e := log[|log| - 1];
      Max(LastTime(log[..|log| - 1], query), if e.query == query then e.timestamp else 0)
  }

  ghost predicate AreTimes(last: Times, counts: Counts, log: seq<SearchQuery>) {
    last.Keys == counts.Keys && forall q :: q in last ==> last[q] == LastTime(log, q)
  }

  lemma {:induction false} NeverSearched(log: seq<SearchQuery>, query: string)
    ensures LastTime(log, query) >= 0
    ensures query !in Queries(log) ==> LastTime(log, query) == 0
  {
    if log != [] {
      NeverSearched(log[..|log| - 1], query);
      assert Queries(log) == Queries(log[..|log| - 1]) + [log[|log| - 1].query];
    }
  }

  lemma {:induction false} LastTimeMore(log: seq<SearchQuery>, e: SearchQuery, q: string)
    ensures LastTime(log + [e], q) == if q == e.query then Max(LastTime(log, q), e.timestamp) else LastTime(log, q)
  {
    NeverSearched(log, q);
    assert (log + [e])[..|log|] == log;
  }

  lemma TimesMore(last: Times, counts: Counts, log: seq<SearchQuery>, e: SearchQuery)
    requires counts == Histogram(log) && AreTimes(last, counts, log)
    ensures var t := if e.query in last then last[e.query] else 0;
      AreTimes(last[e.query := Max(t, e.timestamp)], Add(counts, e.query, 1), log + [e])
  {
    HistogramMeans(log, e.query);
    NeverSearched(log, e.query);
    forall q | q in last || q == e.query
      ensures LastTime(log + [e], q)
        == if q == e.query then Max(LastTime(log, q), e.timestamp) else LastTime(log, q)
    {
      LastTimeMore(log, e, q);
    }
  }

  /** The maps that a pass over these entries has built. */
  ghost predicate Summarize(counts: Counts, last: Times, log: seq<SearchQuery>) {
    counts == Histogram(log) && AreTimes(last, counts, log)
  }

  lemma UnansweredMore(log: seq<SearchQuery>, i: nat)
    requires i < |log|
    ensures Unanswered(log[..i + 1]) ==
      if log[i].hasAnswer then Unanswered(log[..i]) else Unanswered(log[..i]) + [log[i]]
  {
    assert log[..i + 1][..i] == log[..i];
  }

  /** The loop over the log. */
  method CountMissing(log: seq<SearchQuery>) returns (counts: Counts, last: Times)
    ensures Summarize(counts, last, Unanswered(log))
  {
    counts, last := map[], map[];
    for i := 0 to |log|
      invariant Summarize(counts, last, Unanswered(log[..i]))
    {
      UnansweredMore(log, i);
      if !log[i].hasAnswer {
        counts, last := CountOne(counts, last, Unanswered(log[..i]), log[i]);
      }
    }
    assert log[..|log|] == log;
  }

  method CountOne(counts0: Counts, last0: Times, ghost log: seq<SearchQuery>, e: SearchQuery)
    returns (counts: Counts, last: Times)
    requires Summarize(counts0, last0, log)
    ensures Summarize(counts, last, log + [e])
  {
    HistogramMore(log, e);
    TimesMore(last0, counts0, log, e);
    counts, last := Add(counts0, e.query, 1), last0;
    if e.query !in last {
      last := last[e.query := 0];
    }
    if last[e.query] < e.timestamp {
      last := last[e.query := e.timestamp];
    }
    assert last == last0[e.query := last[e.query]];
  }

  predicate Listed(e: MissingAnswer, counts: Counts, last: Times) {
    e.query in counts && e.query in last && e.searchCount == counts[e.query] && e.lastSearched == last[e.query]
  }

  /** The order of the report: the most frequent first. */
  predicate MoreOften(a: MissingAnswer, b: MissingAnswer) {
    a.searchCount > b.searchCount
  }

  predicate AreDistinct(s: seq<MissingAnswer>) {
    s == [] || (!Mentions(s[1..], s[0].query) && AreDistinct(s[1..]))
  }

  predicate Mentions(s: seq<MissingAnswer>, query: string) {
    s != [] && (s[0].query == query || Mentions(s[1..], query))
  }

  function SumOf(s: seq<MissingAnswer>): nat {
    if s == [] then 0 else s[0].searchCount + SumOf(s[1..])
  }

  predicate AllListed(s: seq<MissingAnswer>, counts: Counts, last: Times) {
    s == [] || (Listed(s[0], counts, last) && AllListed(s[1..], counts, last))
  }

  /** One entry for each counted query, the most frequent first. */
  ghost predicate IsReport(s: seq<MissingAnswer>, counts: Counts, last: Times) {
    && AllListed(s, counts, last) && AreDistinct(s) && InOrder(MoreOften, s)
    && (forall q :: Mentions(s, q) <==> q in counts)
    && SumOf(s) == Total(counts)
  }

  lemma {:induction false} InsertKeeps(s: seq<MissingAnswer>, x: MissingAnswer, q: string)
    ensures SumOf(Inserted(MoreOften, s, x)) == SumOf(s) + x.searchCount
    ensures Mentions(Inserted(MoreOften, s, x), q) <==> Mentions(s, q) || x.query == q
  {
    if s == [] || !MoreOften(s[0], x) {
      assert ([x] + s)[1..] == s;
    } else {
      InsertKeeps(s[1..], x, q);
      assert Inserted(MoreOften, s, x)[1..] == Inserted(MoreOften, s[1..], x);
    }
  }

  lemma {:induction false} InsertDistinct(s: seq<MissingAnswer>, x: MissingAnswer)
    requires AreDistinct(s) && !Mentions(s, x.query)
    ensures AreDistinct(Inserted(MoreOften, s, x))
  {
    if s == [] || !MoreOften(s[0], x) {
      assert ([x] + s)[1..] == s;
    } else {
      InsertDistinct(s[1..], x);
      InsertKeeps(s[1..], x, s[0].query);
      assert Inserted(MoreOften, s, x)[1..] == Inserted(MoreOften, s[1..], x);
    }
  }

  lemma {:induction false} InsertListed(s: seq<MissingAnswer>, x: MissingAnswer, counts: Counts, more: Counts,
        last: Times)
    requires AllListed(s, counts, last) && Listed(x, more, last)
    requires forall q :: q in counts ==> q in more && more[q] == counts[q]
    ensures AllListed(Inserted(MoreOften, s, x), more, last)
  {
    if s == [] || !MoreOften(s[0], x) {
      StillListed(s, counts, more, last);
      assert ([x] + s)[1..] == s;
    } else {
      InsertListed(s[1..], x, counts, more, last);
      assert Inserted(MoreOften, s, x)[1..] == Inserted(MoreOften, s[1..], x);
    }
  }

  lemma {:induction false} StillListed(s: seq<MissingAnswer>, counts: Counts, more: Counts, last: Times)
    requires AllListed(s, counts, last)
    requires forall q :: q in counts ==> q in more && more[q] == counts[q]
    ensures AllListed(s, more, last)
  {
    if s != [] {
      StillListed(s[1..], counts, more, last);
    }
  }

  lemma {:induction false} EntryAdded(s: seq<MissingAnswer>, counts: Counts, left: set<string>, last: Times,
        query: string)
    requires left <= counts.Keys <= last.Keys && query in left && IsReport(s, counts - left, last)
    ensures IsReport(Inserted(MoreOften, s, MissingAnswer(query, counts[query], last[query])),
                     counts - (left - {query}), last)
  {
    var x := MissingAnswer(query, counts[query], last[query]);
    var before, after := counts - left, counts - (left - {query});
    InsertListed(s, x, before, after, last);
    InsertDistinct(s, x);
    InsertedInOrder(MoreOften, s, x);
    forall q
      ensures Mentions(Inserted(MoreOften, s, x), q) <==> q in after
    {
      InsertKeeps(s, x, q);
    }
    InsertKeeps(s, x, query);
    TotalWithout(after, query);
    assert after - {query} == before;
  }

  /** The report of a log: one entry for each query that was logged without an answer, with the number of
      such entries and the last time; the most frequent first, and the counts add up to the number of
      entries without an answer. */
  ghost predicate Reports(missing: seq<MissingAnswer>, log: seq<SearchQuery>) {
    var open := Unanswered(log);
    && (forall m :: 0 <= m < |missing| ==> IsEntry(missing[m], open))
    && (forall q :: q in Queries(open) ==> exists m :: 0 <= m < |missing| && missing[m].query == q)
    && (forall m, n :: 0 <= m < n < |missing| ==>
      missing[m].query != missing[n].query && missing[m].searchCount >= missing[n].searchCount)
    && SumOf(missing) == |open|
  }

  ghost predicate IsEntry(e: MissingAnswer, open: seq<SearchQuery>) {
    e.searchCount == Occurrences(Queries(open), e.query) > 0 && e.lastSearched == LastTime(open, e.query)
  }

  lemma {:induction false} MentionsMeans(s: seq<MissingAnswer>, q: string)
    ensures Mentions(s, q) <==> exists m :: 0 <= m < |s| && s[m].query == q
  {
    if s != [] {
      MentionsMeans(s[1..], q);
      if m :| 0 <= m < |s| && s[m].query == q {
        assert m > 0 ==> s[1..][m - 1].query == q;
      }
      if m :| 0 <= m < |s[1..]| && s[1..][m].query == q {
        assert s[m + 1].query == q;
      }
    }
  }

  lemma {:induction false} PairwiseMeans(s: seq<MissingAnswer>, m: nat, n: nat)
    requires InOrder(MoreOften, s) && AreDistinct(s) && m < n < |s|
    ensures s[m].query != s[n].query && s[m].searchCount >= s[n].searchCount
  {
    if m > 0 {
      PairwiseMeans(s[1..], m - 1, n - 1);
    } else {
      MentionsMeans(s[1..], s[0].query);
      assert s[1..][n - 1] == s[n];
      if n > 1 {
        PairwiseMeans(s[1..], 0, n - 1);
      }
    }
  }

  lemma {:induction false} ListedAt(s: seq<MissingAnswer>, counts: Counts, last: Times, m: nat)
    requires AllListed(s, counts, last) && m < |s|
    ensures Listed(s[m], counts, last)
  {
    if m > 0 {
      ListedAt(s[1..], counts, last, m - 1);
    }
  }

  lemma {:induction false} ReportIsComplete(missing: seq<MissingAnswer>, counts: Counts, last: Times,
        log: seq<SearchQuery>)
    requires IsReport(missing, counts, last)
    requires Summarize(counts, last, Unanswered(log))
    ensures Reports(missing, log)
  {
    var open := Unanswered(log);
    forall m: nat | m < |missing|
      ensures IsEntry(missing[m], open)
    {
      ListedAt(missing, counts, last, m);
      HistogramMeans(open, missing[m].query);
    }
    forall q | q in Queries(open)
      ensures exists m :: 0 <= m < |missing| && missing[m].query == q
    {
      HistogramMeans(open, q);
      MentionsMeans(missing, q);
    }
    forall m: nat, n: nat | m < n < |missing|
      ensures missing[m].query != missing[n].query && missing[m].searchCount >= missing[n].searchCount
    {
      PairwiseMeans(missing, m, n);
    }
    HistogramMeans(open, "");
  }

  /** What the report gives as the last time: the latest logging of the query without an answer, if that was
      at the start of the epoch or later, and otherwise the start of the epoch. */
  lemma {:induction false} LastTimeMeans(open: seq<SearchQuery>, q: string)
    ensures LastTime(open, q) >= 0
    ensures forall i :: 0 <= i < |open| && open[i].query == q ==> open[i].timestamp <= LastTime(open, q)
    ensures LastTime(open, q) > 0 ==>
      exists i :: 0 <= i < |open| && open[i].query == q && open[i].timestamp == LastTime(open, q)
  {
    if open != [] {
      LastTimeMeans(open[..|open| - 1], q);
    }
  }
}
