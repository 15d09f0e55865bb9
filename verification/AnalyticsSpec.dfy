/**
 The search log and its index of counts, as values: what one call does to them, and what holds after any
 sequence of calls.
 */
module AnalyticsSpec {
  import opened Subsequences
  import opened Tally

  datatype SearchQuery = SearchQuery(query: string, timestamp: int, hasAnswer: bool)

  datatype State = State(log: seq<SearchQuery>, queryCounts: Counts, maxLogEntries: nat)

  datatype Op = LogSearch(entry: SearchQuery) | PruneLog(cutoff: int) | SetMaxLogEntries(max: nat)

  function Queries(log: seq<SearchQuery>): seq<string> {
    seq(|log|, i requires 0 <= i < |log| => log[i].query)
  }

  function Histogram(log: seq<SearchQuery>): Counts {
    AddAll(map[], Queries(log), 1)
  }

  /** The log when it is longer than allowed: only the newest entries, half as many as allowed, stay. */
  function Shortened(log: seq<SearchQuery>, max: nat): seq<SearchQuery> {
    if |log| > max then log[|log| - max / 2..] else log
  }

  function Since(log: seq<SearchQuery>, cutoff: int): seq<SearchQuery> {
    if log == [] then []
    else
      Since(log[..|log| - 1], cutoff)
      + if log[|log| - 1].timestamp < cutoff then [] else [log[|log| - 1]]
  }

  function AfterLog(s: State, entry: SearchQuery): State {
    var log, counts := s.log + [entry], Add(s.queryCounts, entry.query, 1);
    if |log| > s.maxLogEntries then
      var shortened := Shortened(log, s.maxLogEntries);
      State(shortened, Histogram(shortened), s.maxLogEntries)
    else State(log, counts, s.maxLogEntries)
  }

  function AfterPrune(s: State, cutoff: int): State {
    State(Since(s.log, cutoff), Histogram(Since(s.log, cutoff)), s.maxLogEntries)
  }

  function Step(s: State, op: Op): State {
    match op
    case LogSearch(entry) => AfterLog(s, entry)
    case PruneLog(cutoff) => AfterPrune(s, cutoff)
    case SetMaxLogEntries(max) => s.(maxLogEntries := max)
  }

  function Run(max: nat, ops: seq<Op>): State {
    if ops == [] then State([], map[], max) else Step(Run(max, ops[..|ops| - 1]), ops[|ops| - 1])
  }

  /** Everything that was ever logged. */
  function Logged(ops: seq<Op>): seq<SearchQuery> {
    if ops == [] then []
    else Logged(ops[..|ops| - 1]) + if ops[|ops| - 1].LogSearch? then [ops[|ops| - 1].entry] else []
  }

  // ---------------------------------------------------------------- the index agrees with the log

  lemma HistogramMore(log: seq<SearchQuery>, entry: SearchQuery)
    ensures Histogram(log + [entry]) == Add(Histogram(log), entry.query, 1)
  {
    assert Queries(log + [entry])[..|log|] == Queries(log);
  }

  /** After any sequence of calls the counts are exactly the histogram of the log. */
  lemma {:induction false} CountsAreHistogram(max: nat, ops: seq<Op>)
    ensures Run(max, ops).queryCounts == Histogram(Run(max, ops).log)
  {
    if ops != [] {
      var before, op := Run(max, ops[..|ops| - 1]), ops[|ops| - 1];
      CountsAreHistogram(max, ops[..|ops| - 1]);
      if op.LogSearch? {
        HistogramMore(before.log, op.entry);
      }
    }
  }

  lemma {:induction false} HistogramMeans(log: seq<SearchQuery>, query: string)
    ensures Get(Histogram(log), query) == Occurrences(Queries(log), query)
    ensures query in Histogram(log) <==> query in Queries(log)
    ensures query in Queries(log) <==> Occurrences(Queries(log), query) > 0
    ensures Total(Histogram(log)) == |log|
  {
    var words := Queries(log);
    AddAllGet(map[], words, 1, query);
    TimesOne(Occurrences(words, query));
    OccursIffIn(words, query);
    TotalAddAll(map[], words, 1);
    TimesOne(|words|);
  }

  /** Each count is the number of times its query stands in the log, no query is listed that does not stand
      there, and the counts add up to the length of the log. */
  lemma {:induction false} CountsMean(max: nat, ops: seq<Op>, query: string)
    ensures var s := Run(max, ops);
      && Get(s.queryCounts, query) == Occurrences(Queries(s.log), query)
      && (query in s.queryCounts <==> query in Queries(s.log))
      && Total(s.queryCounts) == |s.log|
  {
    CountsAreHistogram(max, ops);
    HistogramMeans(Run(max, ops).log, query);
  }

  // ---------------------------------------------------------------- the log keeps order

  lemma {:induction false} SinceIsSubsequence(log: seq<SearchQuery>, cutoff: int)
    ensures IsSubsequence(Since(log, cutoff), log)
  {
    if log != [] {
      var front, last := log[..|log| - 1], log[|log| - 1];
      SinceIsSubsequence(front, cutoff);
      assert log == front + [last];
      if last.timestamp < cutoff {
        assert Since(log, cutoff) == Since(front, cutoff);
        SubsequenceOfMore(Since(front, cutoff), front, last);
      } else {
        SubsequenceWithBoth(Since(front, cutoff), front, last);
      }
    }
  }

  /** At any time the log holds entries that were logged, in the order in which they were logged. */
  lemma {:induction false} LogKeepsOrder(max: nat, ops: seq<Op>)
    ensures IsSubsequence(Run(max, ops).log, Logged(ops))
  {
    if ops != [] {
      var before, op, logged := Run(max, ops[..|ops| - 1]), ops[|ops| - 1], Logged(ops[..|ops| - 1]);
      LogKeepsOrder(max, ops[..|ops| - 1]);
      if op.LogSearch? {
        var log := before.log + [op.entry];
        SubsequenceWithBoth(before.log, logged, op.entry);
        if |log| > before.maxLogEntries {
          SuffixIsSubsequence(log, |log| - before.maxLogEntries / 2);
          SubsequenceTransitive(Run(max, ops).log, log, Logged(ops));
        }
      } else if op.PruneLog? {
        SinceIsSubsequence(before.log, op.cutoff);
        SubsequenceTransitive(Run(max, ops).log, before.log, logged);
        assert Logged(ops) == logged;
      } else {
        assert Logged(ops) == logged;
      }
    }
  }

  // ---------------------------------------------------------------- what is dropped

  /** Right after an entry is logged the log is no longer than allowed, and what is left is the end of what
      there was: nothing is dropped unless the log was full, and never a newer entry before an older one. */
  lemma LogStaysBounded(s: State, entry: SearchQuery)
    ensures var after := AfterLog(s, entry).log;
      && |after| <= s.maxLogEntries
      && |after| <= |s.log| + 1
      && after == (s.log + [entry])[|s.log| + 1 - |after|..]
      && |after| == (if |s.log| < s.maxLogEntries then |s.log| + 1 else s.maxLogEntries / 2)
  {
  }

  /** The entry just logged is kept exactly when there was room for it or at least two entries are allowed:
      a limit of one drops every second entry together with the one before it. */
  lemma NewestIsKeptIff(s: State, entry: SearchQuery)
    ensures var after := AfterLog(s, entry).log;
      (after != [] && after[|after| - 1] == entry) <==> |s.log| < s.maxLogEntries || s.maxLogEntries >= 2
  {
  }

  /** Pruning leaves exactly the entries that are not older than the cutoff. */
  lemma {:induction false} SinceMeans(log: seq<SearchQuery>, cutoff: int, entry: SearchQuery)
    ensures multiset(Since(log, cutoff))[entry] == if entry.timestamp < cutoff then 0 else multiset(log)[entry]
  {
    if log != [] {
      var front, last := log[..|log| - 1], log[|log| - 1];
      SinceMeans(front, cutoff, entry);
      assert log == front + [last];
    }
  }

  /** The limit in force after some calls: the one set last. */
  function LimitAfter(max: nat, ops: seq<Op>): nat {
    if ops == [] then max
    else if ops[|ops| - 1].SetMaxLogEntries? then ops[|ops| - 1].max
    else LimitAfter(max, ops[..|ops| - 1])
  }

  lemma {:induction false} LimitIsLast(max: nat, ops: seq<Op>)
    ensures Run(max, ops).maxLogEntries == LimitAfter(max, ops)
  {
    if ops != [] {
      LimitIsLast(max, ops[..|ops| - 1]);
    }
  }

  /** What one call makes of the log. */
  ghost predicate LogFollows(was: seq<SearchQuery>, limit: nat, op: Op, now: seq<SearchQuery>) {
    match op
    case LogSearch(entry) =>
      if |was| < limit then now == was + [entry]
      else |now| == limit / 2 && exists dropped :: dropped + now == was + [entry]
    case PruneLog(cutoff) =>
      IsSubsequence(now, was) &&
      forall entry :: multiset(now)[entry] == if entry.timestamp < cutoff then 0 else multiset(was)[entry]
    case SetMaxLogEntries(_) => now == was
  }

  /** In every run: logging adds the entry, and drops all but the newest entries, half as many as the limit allows, if
      the log was full; pruning takes out exactly what is older than its cutoff and keeps the order; and setting the
      limit leaves the log alone until the next entry. */
  lemma {:induction false} EachCallMeans(max: nat, ops: seq<Op>, op: Op)
    ensures LogFollows(Run(max, ops).log, LimitAfter(max, ops), op, Run(max, ops + [op]).log)
  {
    var s := Run(max, ops);
    assert (ops + [op])[..|ops|] == ops;
    LimitIsLast(max, ops);
    match op
    case LogSearch(entry) =>
      var now, all := AfterLog(s, entry).log, s.log + [entry];
      LogStaysBounded(s, entry);
      assert all[..|all| - |now|] + now == all;
    case PruneLog(cutoff) =>
      SinceIsSubsequence(s.log, cutoff);
      forall entry
        ensures multiset(Since(s.log, cutoff))[entry] ==
          if entry.timestamp < cutoff then 0 else multiset(s.log)[entry]
      {
        SinceMeans(s.log, cutoff, entry);
      }
    case SetMaxLogEntries(_) =>
  }
}
