/** Maps from keys to counts, and their totals. */
module Tally {
  type Counts = map<string, nat>

  function Get(m: Counts, key: string): nat {
    if key in m then m[key] else 0
  }

  function Add(m: Counts, key: string, n: nat): Counts {
    m[key := Get(m, key) + n]
  }

  /** Every occurrence of a key in `keys` adds `n` to its count. */
  function AddAll(m: Counts, keys: seq<string>, n: nat): Counts {
    if keys == [] then m else Add(AddAll(m, keys[..|keys| - 1], n), keys[|keys| - 1], n)
  }

  function Occurrences(keys: seq<string>, key: string): nat {
    if keys == [] then 0
    else Occurrences(keys[..|keys| - 1], key) + if keys[|keys| - 1] == key then 1 else 0
  }

  /** `n` taken `k` times. */
  function Times(n: nat, k: nat): nat {
    if k == 0 then 0 else Times(n, k - 1) + n
  }

  lemma {:induction false} TimesIsProduct(n: nat, k: nat)
    ensures Times(n, k) == n * k
  {
    if k > 0 {
      TimesIsProduct(n, k - 1);
      assert n * k == n * (k - 1) + n;
    }
  }

  lemma {:induction false} TimesOne(k: nat)
    ensures Times(1, k) == k
  {
    if k > 0 {
      TimesOne(k - 1);
    }
  }

  lemma {:induction false} TimesPositive(n: nat, k: nat)
    requires n > 0
    ensures Times(n, k) >= k
  {
    if k > 0 {
      TimesPositive(n, k - 1);
    }
  }

  lemma {:induction false} AddAllGet(m: Counts, keys: seq<string>, n: nat, key: string)
    ensures Get(AddAll(m, keys, n), key) == Get(m, key) + Times(n, Occurrences(keys, key))
    ensures key in AddAll(m, keys, n) <==> key in m || Occurrences(keys, key) > 0
  {
    if keys != [] {
      var front := keys[..|keys| - 1];
      AddAllGet(m, front, n, key);
    }
  }

  lemma {:induction false} OccursIffIn(keys: seq<string>, key: string)
    ensures Occurrences(keys, key) > 0 <==> key in keys
  {
    if keys != [] {
      OccursIffIn(keys[..|keys| - 1], key);
      assert keys == keys[..|keys| - 1] + [keys[|keys| - 1]];
    }
  }

  ghost function Total(m: Counts): nat
    decreases |m|
  {
    if m == map[] then 0
    else
      var k :| k in m;
      Shrinks(m, k);
      m[k] + Total(m - {k})
  }

  lemma Shrinks(m: Counts, k: string)
    requires k in m
    ensures |m - {k}| < |m|
  {
    assert m.Keys == (m - {k}).Keys + {k};
    assert |m - {k}| == |(m - {k}).Keys|;
  }

  /** Any key can be taken out first. */
  lemma {:induction false} TotalWithout(m: Counts, k: string)
    requires k in m
    ensures Total(m) == m[k] + Total(m - {k})
    decreases |m|
  {
    var j :| j in m && Total(m) == m[j] + Total(m - {j});
    if j != k {
      Shrinks(m, j);
      Shrinks(m, k);
      TotalWithout(m - {j}, k);
      TotalWithout(m - {k}, j);
      assert m - {j} - {k} == m - {k} - {j};
    }
  }

  lemma {:induction false} TotalAdd(m: Counts, key: string, n: nat)
    ensures Total(Add(m, key, n)) == Total(m) + n
  {
    TotalWithout(Add(m, key, n), key);
    assert Add(m, key, n) - {key} == m - {key};
    if key in m {
      TotalWithout(m, key);
    } else {
      assert m - {key} == m;
    }
  }

  lemma {:induction false} TotalAddAll(m: Counts, keys: seq<string>, n: nat)
    ensures Total(AddAll(m, keys, n)) == Total(m) + Times(n, |keys|)
  {
    if keys != [] {
      var front := keys[..|keys| - 1];
      TotalAddAll(m, front, n);
      TotalAdd(AddAll(m, front, n), keys[|keys| - 1], n);
    }
  }

  function Merge(a: Counts, b: Counts): Counts {
    map k | k in a.Keys + b.Keys :: Get(a, k) + Get(b, k)
  }

  lemma MergeOneKey(a: Counts, b: Counts, k: string)
    requires k in b
    ensures Merge(a, b) == Add(Merge(a, b - {k}), k, b[k])
  {
  }

  lemma {:induction false} TotalMerge(a: Counts, b: Counts)
    ensures Total(Merge(a, b)) == Total(a) + Total(b)
    decreases |b|
  {
    if b == map[] {
      assert Merge(a, b) == a;
    } else {
      var k :| k in b;
      Shrinks(b, k);
      TotalMerge(a, b - {k});
      TotalWithout(b, k);
      TotalAdd(Merge(a, b - {k}), k, b[k]);
      MergeOneKey(a, b, k);
    }
  }
}
