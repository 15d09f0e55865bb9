/** How a batch is divided among its worker threads. */
module WorkSplit {
  /** The questions `lo <= i < hi` that one thread takes. */
  datatype Range = Range(lo: nat, hi: nat)

  predicate Inside(r: Range, i: nat) {
    r.lo <= i < r.hi
  }

  function Size(r: Range): int {
    r.hi - r.lo
  }

  /** The ranges follow one another without gap or overlap from `lo` to `hi`, and none is empty. */
  predicate Contiguous(ranges: seq<Range>, lo: nat, hi: nat) {
    if ranges == [] then lo == hi
    else
      var last := ranges[|ranges| - 1];
      last.lo < last.hi == hi && Contiguous(ranges[..|ranges| - 1], lo, last.lo)
  }

  predicate Even(ranges: seq<Range>, base: nat) {
    forall k :: 0 <= k < |ranges| ==> base <= Size(ranges[k]) <= base + 1
  }

  /** A fair division of `n` questions among at most `maxConcurrent` threads. */
  ghost predicate IsSplit(ranges: seq<Range>, n: nat, maxConcurrent: nat) {
    && |ranges| == (if maxConcurrent < n then maxConcurrent else n)
    && Contiguous(ranges, 0, n)
    && exists base: nat :: Even(ranges, base)
  }

  /** Where share `t` begins when the first `remaining` shares are one larger than `base`. */
  function Boundary(base: nat, remaining: nat, t: nat): nat {
    if t == 0 then 0 else Boundary(base, remaining, t - 1) + base + if t - 1 < remaining then 1 else 0
  }

  lemma {:induction false} BoundaryClosed(base: nat, remaining: nat, t: nat)
    ensures Boundary(base, remaining, t) == t * base + if t < remaining then t else remaining
  {
    if t > 0 {
      BoundaryClosed(base, remaining, t - 1);
      assert t * base == (t - 1) * base + base;
    }
  }

  lemma {:induction false} SharesReachTheEnd(n: nat, threads: nat)
    requires 1 <= threads <= n
    ensures n / threads >= 1 && n % threads >= 0 && Boundary(n / threads, n % threads, threads) == n
  {
    BoundaryClosed(n / threads, n % threads, threads);
  }

  method SplitWork(n: nat, maxConcurrent: nat) returns (ranges: seq<Range>)
    requires maxConcurrent >= 1
    ensures IsSplit(ranges, n, maxConcurrent)
  {
    ranges := [];
    if n == 0 {
      assert Even(ranges, 0);
      return;
    }
    var threads := if maxConcurrent < n then maxConcurrent else n;
    SharesReachTheEnd(n, threads);
    var base: nat, remaining: nat := n / threads, n % threads;
    ranges := Shares(base, remaining, threads);
  }

  /** The loop that hands out the shares. */
  method Shares(base: nat, remaining: nat, threads: nat) returns (ranges: seq<Range>)
    requires base >= 1
    ensures |ranges| == threads
    ensures Contiguous(ranges, 0, Boundary(base, remaining, threads)) && Even(ranges, base)
  {
    ranges := [];
    var start, t := 0, 0;
    while t < threads
      invariant 0 <= t <= threads && |ranges| == t
      invariant start == Boundary(base, remaining, t)
      invariant Contiguous(ranges, 0, start) && Even(ranges, base)
    {
      var chunk := base + if t < remaining then 1 else 0;
      if chunk == 0 {
        break;
      }
      var end := start + chunk;
      assert (ranges + [Range(start, end)])[..t] == ranges;
      ranges := ranges + [Range(start, end)];
      start := end;
      t := t + 1;
    }
  }

  /** Every question below the end belongs to some range. */
  lemma {:induction false} Covered(ranges: seq<Range>, lo: nat, hi: nat, i: nat) returns (k: nat)
    requires Contiguous(ranges, lo, hi) && lo <= i < hi
    ensures k < |ranges| && Inside(ranges[k], i)
  {
    var m := |ranges| - 1;
    if ranges[m].lo <= i {
      k := m;
    } else {
      k := Covered(ranges[..m], lo, ranges[m].lo, i);
    }
  }

  lemma {:induction false} Within(ranges: seq<Range>, lo: nat, hi: nat, k: nat)
    requires Contiguous(ranges, lo, hi) && k < |ranges|
    ensures lo <= ranges[k].lo < ranges[k].hi <= hi
    ensures k < |ranges| - 1 ==> ranges[k].hi <= ranges[|ranges| - 1].lo
  {
    var m := |ranges| - 1;
    if m > 0 {
      Within(ranges[..m], lo, ranges[m].lo, if k < m then k else m - 1);
    }
  }

  /** No question belongs to two ranges. */
  lemma {:induction false} Disjoint(ranges: seq<Range>, lo: nat, hi: nat, j: nat, k: nat, i: nat)
    requires Contiguous(ranges, lo, hi) && j < |ranges| && k < |ranges|
    requires Inside(ranges[j], i) && Inside(ranges[k], i)
    ensures j == k
  {
    var m := |ranges| - 1;
    if j < m && k < m {
      Disjoint(ranges[..m], lo, ranges[m].lo, j, k, i);
    } else {
      Within(ranges, lo, hi, j);
      Within(ranges, lo, hi, k);
    }
  }

  /** Any two shares differ by at most one question. */
  lemma SharesAreEven(ranges: seq<Range>, n: nat, maxConcurrent: nat, j: nat, k: nat)
    requires IsSplit(ranges, n, maxConcurrent) && j < |ranges| && k < |ranges|
    ensures 1 <= Size(ranges[j]) <= Size(ranges[k]) + 1
  {
    Within(ranges, 0, n, j);
  }
}
