/**
 The response cache as a value: a most-recent-first sequence of keyed entries and
 its counters, one step per cache call, and what holds after any run of calls.
 */
module LruSpec {
  import opened Options
  import opened Subsequences

  datatype CacheEntry = CacheEntry(answer: string, tokensUsed: nat, createdAt: int, ttl: int) {
    predicate IsExpired(now: int) {
      now - createdAt > ttl
    }
  }

  datatype Item = Item(key: string, entry: CacheEntry)

  datatype Stats = Stats(hits: nat, misses: nat, evictions: nat, expired: nat, size: nat, maxSize: nat)

  datatype Cache = Cache(items: seq<Item>, stats: Stats)

  /** A cache call; the clock a `Get` reads is part of the call. */
  datatype Op =
    | Get(key: string, now: int)
    | Put(key: string, entry: CacheEntry)
    | Invalidate(key: string)
    | Clear

  // ---------------------------------------------------------------- sequences of items

  function Lookup(items: seq<Item>, key: string): Option<CacheEntry> {
    if items == [] then None
    else if items[0].key == key then Some(items[0].entry)
    else Lookup(items[1..], key)
  }

  function Without(items: seq<Item>, key: string): seq<Item> {
    if items == [] then []
    else if items[0].key == key then Without(items[1..], key)
    else [items[0]] + Without(items[1..], key)
  }

  /** What the eviction loop leaves of a full list: the `n` most recent items. */
  function Recent(items: seq<Item>, n: nat): seq<Item> {
    if |items| <= n then items else items[..n]
  }

  ghost predicate DistinctKeys(items: seq<Item>) {
    forall i, j :: 0 <= i < j < |items| ==> items[i].key != items[j].key
  }

  // ---------------------------------------------------------------- one call

  function Empty(capacity: nat): Cache {
    Cache([], Stats(0, 0, 0, 0, 0, capacity))
  }

  function AfterGet(c: Cache, key: string, now: int): (r: (Cache, Option<CacheEntry>)) {
    match Lookup(c.items, key)
    case None =>
      (c.(stats := c.stats.(misses := c.stats.misses + 1)), None)
    case Some(e) =>
      var rest := Without(c.items, key);
      if e.IsExpired(now) then
        (Cache(rest, c.stats.(size := |rest|, expired := c.stats.expired + 1, misses := c.stats.misses + 1)), None)
      else
        (Cache([Item(key, e)] + rest, c.stats.(hits := c.stats.hits + 1)), Some(e))
  }

  function AfterPut(c: Cache, capacity: nat, key: string, entry: CacheEntry): Cache
    requires capacity >= 1
  {
    if Lookup(c.items, key).Some? then
      Cache([Item(key, entry)] + Without(c.items, key), c.stats)
    else
      var kept := Recent(c.items, capacity - 1);
      Cache([Item(key, entry)] + kept,
            c.stats.(size := |kept| + 1, evictions := c.stats.evictions + (|c.items| - |kept|)))
  }

  function AfterInvalidate(c: Cache, key: string): Cache {
    var rest := Without(c.items, key);
    Cache(rest, c.stats.(size := |rest|))
  }

  function AfterClear(c: Cache): Cache {
    Cache([], c.stats.(size := 0))
  }

  function Step(c: Cache, capacity: nat, op: Op): Cache
    requires capacity >= 1
  {
    match op
    case Get(key, now) => AfterGet(c, key, now).0
    case Put(key, entry) => AfterPut(c, capacity, key, entry)
    case Invalidate(key) => AfterInvalidate(c, key)
    case Clear => AfterClear(c)
  }

  /** The cache after a whole run of calls on an empty cache. */
  function Run(capacity: nat, ops: seq<Op>): Cache
    requires capacity >= 1
  {
    if ops == [] then Empty(capacity)
    else Step(Run(capacity, ops[..|ops| - 1]), capacity, ops[|ops| - 1])
  }

  // ---------------------------------------------------------------- what a run means, without the cache

  /** The latest call that reads or writes `key`, or -1. */
  function LastUse(ops: seq<Op>, key: string): (i: int)
    ensures -1 <= i < |ops|
  {
    if ops == [] then -1
    else
      var last := ops[|ops| - 1];
      if (last.Get? || last.Put?) && last.key == key then |ops| - 1
      else LastUse(ops[..|ops| - 1], key)
  }

  /** No call after `p` overwrites, removes or finds expired what `Put` number `p` stored. */
  ghost predicate LivePut(ops: seq<Op>, p: nat, key: string, entry: CacheEntry) {
    && p < |ops|
    && ops[p] == Put(key, entry)
    && forall q :: p < q < |ops| ==> Harmless(ops[q], key, entry)
  }

  ghost predicate Harmless(op: Op, key: string, entry: CacheEntry) {
    match op
    case Get(k, now) => k == key ==> now - entry.createdAt <= entry.ttl
    case Put(k, _) => k != key
    case Invalidate(k) => k != key
    case Clear => false
  }

  function CountGets(ops: seq<Op>): nat {
    if ops == [] then 0
    else CountGets(ops[..|ops| - 1]) + (if ops[|ops| - 1].Get? then 1 else 0)
  }

  /** How many items the calls put in: the `Put`s of a key that was absent. */
  function Inserted(capacity: nat, ops: seq<Op>): nat
    requires capacity >= 1
  {
    if ops == [] then 0
    else
      var before, op := ops[..|ops| - 1], ops[|ops| - 1];
      Inserted(capacity, before) +
      (if op.Put? && Lookup(Run(capacity, before).items, op.key).None? then 1 else 0)
  }

  /** How many items the calls took out on request, by `Invalidate` and `Clear`. */
  function Removed(capacity: nat, ops: seq<Op>): nat
    requires capacity >= 1
  {
    if ops == [] then 0
    else
      var before, op := ops[..|ops| - 1], ops[|ops| - 1];
      Removed(capacity, before) +
      match op
      case Invalidate(key) => if Lookup(Run(capacity, before).items, key).Some? then 1 else 0
      case Clear => |Run(capacity, before).items|
      case _ => 0
  }

  /** `capacity` keys were all used more recently than `key` at some moment of the run, in a full cache. */
  ghost predicate PushedOut(capacity: nat, ops: seq<Op>, key: string, q: nat)
    requires capacity >= 1
  {
    && q < |ops|
    && var seen := ops[..q + 1];
    && var items := Run(capacity, seen).items;
    && |items| == capacity
    && forall i :: 0 <= i < capacity ==> LastUse(seen, items[i].key) > LastUse(seen, key)
  }

  /** Every item has been used, and each was used more recently than all behind it. */
  ghost predicate RecencyOrdered(items: seq<Item>, ops: seq<Op>) {
    && (forall i :: 0 <= i < |items| ==> LastUse(ops, items[i].key) >= 0)
    && (forall i, j :: 0 <= i < j < |items| ==> LastUse(ops, items[i].key) > LastUse(ops, items[j].key))
  }

  // ---------------------------------------------------------------- helper lemmas

  lemma {:induction false} LookupMeans(items: seq<Item>, key: string)
    requires DistinctKeys(items)
    ensures Lookup(items, key).None? <==> forall i :: 0 <= i < |items| ==> items[i].key != key
    ensures forall i :: 0 <= i < |items| && items[i].key == key ==> Lookup(items, key) == Some(items[i].entry)
    ensures Lookup(items, key).Some? ==> Item(key, Lookup(items, key).value) in items
  {
    if items != [] {
      LookupMeans(items[1..], key);
      forall i | 0 <= i < |items| && items[i].key == key
        ensures Lookup(items, key) == Some(items[i].entry)
      {
        if i > 0 {
          assert items[1..][i - 1] == items[i];
        }
      }
      if Lookup(items, key).None? {
        forall i | 0 <= i < |items| ensures items[i].key != key {
          if i > 0 { assert items[1..][i - 1] == items[i]; }
        }
      }
    }
  }

  lemma {:induction false} WithoutMeans(items: seq<Item>, key: string)
    requires DistinctKeys(items)
    ensures DistinctKeys(Without(items, key))
    ensures forall x :: x in Without(items, key) <==> x in items && x.key != key
    ensures |Without(items, key)| == |items| - (if Lookup(items, key).Some? then 1 else 0)
  {
    if items != [] {
      assert items == [items[0]] + items[1..];
      WithoutMeans(items[1..], key);
      if items[0].key == key {
        forall i | 0 <= i < |items[1..]| ensures items[1..][i].key != key {
          assert items[1..][i] == items[i + 1];
        }
        LookupMeans(items[1..], key);
      } else {
        var rest := Without(items[1..], key);
        forall i | 0 <= i < |rest| ensures rest[i].key != items[0].key {
          assert rest[i] in items[1..];
        }
      }
    }
  }

  /** Removing a key keeps the order of the others. */
  lemma {:induction false} WithoutKeepsOrder(items: seq<Item>, key: string, rank: string -> int)
    requires DecreasingRank(items, rank)
    ensures DecreasingRank(Without(items, key), rank)
    ensures forall x :: x in Without(items, key) ==> x in items && x.key != key
  {
    if items != [] {
      assert items == [items[0]] + items[1..];
      WithoutKeepsOrder(items[1..], key, rank);
      var rest := Without(items[1..], key);
      forall i | 0 <= i < |rest| ensures rank(rest[i].key) < rank(items[0].key) {
        assert rest[i] in items[1..];
      }
    }
  }

  ghost predicate DecreasingRank(items: seq<Item>, rank: string -> int) {
    forall i, j :: 0 <= i < j < |items| ==> rank(items[i].key) > rank(items[j].key)
  }

  // ---------------------------------------------------------------- invariants of every run

  lemma {:induction false} StepShape(c: Cache, capacity: nat, op: Op)
    requires capacity >= 1 && DistinctKeys(c.items) && |c.items| <= capacity && c.stats.size == |c.items|
    ensures var c' := Step(c, capacity, op);
      DistinctKeys(c'.items) && |c'.items| <= capacity && c'.stats.size == |c'.items|
    ensures op.Put? ==> Lookup(Step(c, capacity, op).items, op.key) == Some(op.entry)
  {
    if !op.Clear? {
      LookupMeans(c.items, op.key);
      WithoutMeans(c.items, op.key);
      var rest := Without(c.items, op.key);
      forall i | 0 <= i < |rest| ensures rest[i].key != op.key {
        assert rest[i] in rest;
      }
    }
  }

  /** In every reachable state keys are distinct, the size counter is the length, and the bound holds. */
  lemma {:induction false} ReachableShape(capacity: nat, ops: seq<Op>)
    requires capacity >= 1
    ensures var c := Run(capacity, ops);
      && DistinctKeys(c.items)
      && c.stats.size == |c.items| <= capacity
      && c.stats.maxSize == capacity
      && c.stats.hits + c.stats.misses == CountGets(ops)
  {
    if ops != [] {
      var before := ops[..|ops| - 1];
      ReachableShape(capacity, before);
      StepShape(Run(capacity, before), capacity, ops[|ops| - 1]);
    }
  }

  lemma {:induction false} LastUseAfter(ops: seq<Op>, key: string)
    requires ops != []
    ensures var op := ops[|ops| - 1];
      LastUse(ops, key) == if (op.Get? || op.Put?) && op.key == key then |ops| - 1 else LastUse(ops[..|ops| - 1], key)
  {
  }

  /** Recency is kept when the last call leaves `rest` alone, and when it also brings its key to the front. */
  lemma FrontOrder(rest: seq<Item>, ops: seq<Op>, x: Item)
    requires ops != []
    requires RecencyOrdered(rest, ops[..|ops| - 1])
    requires var op := ops[|ops| - 1]; op.Get? || op.Put? ==> forall y :: y in rest ==> y.key != op.key
    ensures RecencyOrdered(rest, ops)
    ensures (ops[|ops| - 1].Get? || ops[|ops| - 1].Put?) && x.key == ops[|ops| - 1].key ==>
      RecencyOrdered([x] + rest, ops)
  {
    forall i | 0 <= i < |rest|
      ensures LastUse(ops, rest[i].key) == LastUse(ops[..|ops| - 1], rest[i].key)
    {
      assert rest[i] in rest;
      LastUseAfter(ops, rest[i].key);
    }
    LastUseAfter(ops, x.key);
  }

  lemma {:induction false} WithoutOrdered(items: seq<Item>, ops: seq<Op>, key: string)
    requires RecencyOrdered(items, ops)
    ensures RecencyOrdered(Without(items, key), ops)
    ensures forall x :: x in Without(items, key) ==> x.key != key
  {
    WithoutKeepsOrder(items, key, k => LastUse(ops, k));
    var rest := Without(items, key);
    forall i | 0 <= i < |rest| ensures LastUse(ops, rest[i].key) >= 0 {
      assert rest[i] in items;
    }
    forall i, j | 0 <= i < j < |rest| ensures LastUse(ops, rest[i].key) > LastUse(ops, rest[j].key) {
    }
  }

  lemma StepOrder(c: Cache, capacity: nat, ops: seq<Op>)
    requires capacity >= 1 && ops != [] && DistinctKeys(c.items)
    requires RecencyOrdered(c.items, ops[..|ops| - 1])
    ensures RecencyOrdered(Step(c, capacity, ops[|ops| - 1]).items, ops)
  {
    var op := ops[|ops| - 1];
    if !op.Clear? {
      LookupMeans(c.items, op.key);
      WithoutOrdered(c.items, ops[..|ops| - 1], op.key);
      var found := Lookup(c.items, op.key);
      if found.Some? {
        FrontOrder(Without(c.items, op.key), ops, Item(op.key, if op.Put? then op.entry else found.value));
      } else if op.Put? {
        FrontOrder(Recent(c.items, capacity - 1), ops, Item(op.key, op.entry));
      } else {
        FrontOrder(c.items, ops, Item(op.key, CacheEntry("", 0, 0, 0)));
        if op.Invalidate? {
          WithoutAbsent(c.items, op.key);
        }
      }
    }
  }

  /** The list order is exactly recency of use: the item at the back is the least recently used one. */
  lemma {:induction false} OrderIsRecency(capacity: nat, ops: seq<Op>)
    requires capacity >= 1
    ensures RecencyOrdered(Run(capacity, ops).items, ops)
  {
    if ops != [] {
      var before := ops[..|ops| - 1];
      OrderIsRecency(capacity, before);
      ReachableShape(capacity, before);
      StepOrder(Run(capacity, before), capacity, ops);
    }
  }

  /** An item found after a call was stored by it, or was there before and the call did it no harm. */
  lemma ComesFrom(c: Cache, capacity: nat, op: Op, x: Item)
    requires capacity >= 1 && DistinctKeys(c.items) && x in Step(c, capacity, op).items
    ensures op == Put(x.key, x.entry) || (x in c.items && Harmless(op, x.key, x.entry))
  {
    if !op.Clear? {
      LookupMeans(c.items, op.key);
      WithoutMeans(c.items, op.key);
    }
  }

  /** What the cache holds for a key is what the latest `Put` of that key stored, and nothing has
      removed it or found it expired since. */
  lemma {:induction false} HoldsLatestPut(capacity: nat, ops: seq<Op>, x: Item) returns (p: nat)
    requires capacity >= 1 && x in Run(capacity, ops).items
    ensures LivePut(ops, p, x.key, x.entry)
  {
    var before, op := ops[..|ops| - 1], ops[|ops| - 1];
    ReachableShape(capacity, before);
    if op == Put(x.key, x.entry) {
      p := |ops| - 1;
    } else {
      ComesFrom(Run(capacity, before), capacity, op, x);
      p := HoldsLatestPut(capacity, before, x);
      forall q | p < q < |ops| ensures Harmless(ops[q], x.key, x.entry) {
        if q < |ops| - 1 {
          assert ops[q] == before[q];
        }
      }
    }
  }

  /** The only call that loses an item it does no harm to is a `Put` on a full cache; it loses the last. */
  lemma LosesLast(c: Cache, capacity: nat, op: Op, x: Item)
    requires capacity >= 1 && DistinctKeys(c.items) && |c.items| <= capacity
    requires x in c.items && Harmless(op, x.key, x.entry) && x !in Step(c, capacity, op).items
    ensures op.Put? && Lookup(c.items, op.key).None? && |c.items| == capacity && c.items[capacity - 1] == x
  {
    LookupMeans(c.items, op.key);
    LookupMeans(c.items, x.key);
    WithoutMeans(c.items, op.key);
  }

  /** When `Put` loses the last item of a full cache, every item then in it was used later. */
  lemma PutPushesOut(capacity: nat, ops: seq<Op>, x: Item)
    requires capacity >= 1 && ops != []
    requires var before, op := ops[..|ops| - 1], ops[|ops| - 1];
      var items := Run(capacity, before).items;
      op.Put? && op.key != x.key && Lookup(items, op.key).None? && |items| == capacity && items[capacity - 1] == x
    ensures PushedOut(capacity, ops, x.key, |ops| - 1)
  {
    var before, op := ops[..|ops| - 1], ops[|ops| - 1];
    var items := Run(capacity, before).items;
    OrderIsRecency(capacity, before);
    OrderIsRecency(capacity, ops);
    assert ops[..|ops|] == ops;
    var after := Run(capacity, ops).items;
    assert after == [Item(op.key, op.entry)] + items[..capacity - 1];
    LastUseAfter(ops, x.key);
    forall i | 0 <= i < capacity ensures LastUse(ops, after[i].key) > LastUse(ops, x.key) {
      LastUseAfter(ops, after[i].key);
      if i > 0 {
        assert after[i] == items[i - 1];
        assert LastUse(before, items[i - 1].key) > LastUse(before, x.key);
      }
    }
  }

  /** A stored entry leaves the cache in no other way than being removed, being found expired, or
      being pushed out by `capacity` keys that were all used more recently. */
  lemma {:induction false} LeavesOnlyWhenPushedOut(capacity: nat, ops: seq<Op>, p: nat, key: string, entry: CacheEntry)
    returns (q: nat)
    requires capacity >= 1 && LivePut(ops, p, key, entry)
    requires Item(key, entry) !in Run(capacity, ops).items
    ensures p < q < |ops| && PushedOut(capacity, ops, key, q)
  {
    var before, op := ops[..|ops| - 1], ops[|ops| - 1];
    ReachableShape(capacity, before);
    if p < |ops| - 1 {
      assert Harmless(op, key, entry);
      if Item(key, entry) in Run(capacity, before).items {
        LosesLast(Run(capacity, before), capacity, op, Item(key, entry));
        PutPushesOut(capacity, ops, Item(key, entry));
        q := |ops| - 1;
      } else {
        assert LivePut(before, p, key, entry);
        q := LeavesOnlyWhenPushedOut(capacity, before, p, key, entry);
        assert before[..q + 1] == ops[..q + 1];
      }
    } else {
      assert false;
    }
  }

  /** The counters balance: every item ever put in is still there, or was evicted, expired or removed. */
  lemma {:induction false} CountersBalance(capacity: nat, ops: seq<Op>)
    requires capacity >= 1
    ensures var c := Run(capacity, ops);
      Inserted(capacity, ops) == |c.items| + c.stats.evictions + c.stats.expired + Removed(capacity, ops)
  {
    if ops != [] {
      var before, op := ops[..|ops| - 1], ops[|ops| - 1];
      CountersBalance(capacity, before);
      ReachableShape(capacity, before);
      if !op.Clear? {
        WithoutMeans(Run(capacity, before).items, op.key);
      }
    }
  }

  // ---------------------------------------------------------------- answers and counters

  /** The key is held with an entry whose time to live has not passed. */
  ghost predicate HasFresh(items: seq<Item>, key: string, now: int) {
    exists x :: x in items && x.key == key && now - x.entry.createdAt <= x.entry.ttl
  }

  /** The key is held with an entry that has outlived its time. */
  ghost predicate HasStale(items: seq<Item>, key: string, now: int) {
    exists x :: x in items && x.key == key && now - x.entry.createdAt > x.entry.ttl
  }

  lemma LookupFinds(items: seq<Item>, key: string, now: int)
    requires DistinctKeys(items)
    ensures Lookup(items, key).Some? ==> Item(key, Lookup(items, key).value) in items
    ensures HasFresh(items, key, now) <==>
      Lookup(items, key).Some? && now - Lookup(items, key).value.createdAt <= Lookup(items, key).value.ttl
    ensures HasStale(items, key, now) <==>
      Lookup(items, key).Some? && now - Lookup(items, key).value.createdAt > Lookup(items, key).value.ttl
  {
    LookupMeans(items, key);
    forall x | x in items && x.key == key
      ensures Lookup(items, key) == Some(x.entry)
    {
      var i :| 0 <= i < |items| && items[i] == x;
    }
  }

  /** What `get` answers after any run: something exactly when the key is held and its time has not passed, and then
      the entry held. */
  lemma {:induction false} GetAnswers(capacity: nat, ops: seq<Op>, key: string, now: int)
    requires capacity >= 1
    ensures var items, answer := Run(capacity, ops).items, AfterGet(Run(capacity, ops), key, now).1;
      && (answer.Some? <==> HasFresh(items, key, now))
      && (answer.Some? ==> Item(key, answer.value) in items)
  {
    ReachableShape(capacity, ops);
    LookupFinds(Run(capacity, ops).items, key, now);
  }

  /** An answer is what the latest `put` of the key stored, and no call since has removed it or found it expired, the
      `get` that is answered included. */
  lemma {:induction false} AnswerIsLatestPut(capacity: nat, ops: seq<Op>, key: string, now: int) returns (p: nat)
    requires capacity >= 1 && AfterGet(Run(capacity, ops), key, now).1.Some?
    ensures LivePut(ops + [Get(key, now)], p, key, AfterGet(Run(capacity, ops), key, now).1.value)
  {
    var entry := AfterGet(Run(capacity, ops), key, now).1.value;
    GetAnswers(capacity, ops, key, now);
    ReachableShape(capacity, ops);
    LookupFinds(Run(capacity, ops).items, key, now);
    p := HoldsLatestPut(capacity, ops, Item(key, entry));
  }

  /** How many `get`s of the run met a held entry in time. */
  ghost function CountAnswered(capacity: nat, ops: seq<Op>): nat
    requires capacity >= 1
  {
    if ops == [] then 0
    else
      var before, op := ops[..|ops| - 1], ops[|ops| - 1];
      CountAnswered(capacity, before)
      + if op.Get? && HasFresh(Run(capacity, before).items, op.key, op.now) then 1 else 0
  }

  /** How many met one that had outlived its time. */
  ghost function CountStale(capacity: nat, ops: seq<Op>): nat
    requires capacity >= 1
  {
    if ops == [] then 0
    else
      var before, op := ops[..|ops| - 1], ops[|ops| - 1];
      CountStale(capacity, before)
      + if op.Get? && HasStale(Run(capacity, before).items, op.key, op.now) then 1 else 0
  }

  /** How many `put`s of a new key met a full cache. */
  ghost function CountFull(capacity: nat, ops: seq<Op>): nat
    requires capacity >= 1
  {
    if ops == [] then 0
    else
      var before, op := ops[..|ops| - 1], ops[|ops| - 1];
      var items := Run(capacity, before).items;
      CountFull(capacity, before)
      + if op.Put? && |items| == capacity && (forall x :: x in items ==> x.key != op.key) then 1 else 0
  }

  lemma StepCounts(c: Cache, capacity: nat, op: Op)
    requires capacity >= 1 && DistinctKeys(c.items) && |c.items| <= capacity
    ensures var d := Step(c, capacity, op);
      && d.stats.hits == c.stats.hits + (if op.Get? && HasFresh(c.items, op.key, op.now) then 1 else 0)
      && d.stats.expired == c.stats.expired + (if op.Get? && HasStale(c.items, op.key, op.now) then 1 else 0)
      && d.stats.misses == c.stats.misses + (if op.Get? && !HasFresh(c.items, op.key, op.now) then 1 else 0)
      && d.stats.evictions == c.stats.evictions
        + (if op.Put? && |c.items| == capacity && (forall x :: x in c.items ==> x.key != op.key) then 1 else 0)
  {
    if op.Get? {
      LookupFinds(c.items, op.key, op.now);
    } else if op.Put? {
      LookupMeans(c.items, op.key);
    }
  }

  /** What each counter counts, over any run: hits the `get`s that met an entry in time, expired those that met one
      out of time, misses all `get`s but the hits, and evictions the `put`s of a new key into a full cache. */
  lemma {:induction false} CountersMean(capacity: nat, ops: seq<Op>)
    requires capacity >= 1
    ensures var stats := Run(capacity, ops).stats;
      && stats.hits == CountAnswered(capacity, ops)
      && stats.expired == CountStale(capacity, ops)
      && stats.misses == CountGets(ops) - CountAnswered(capacity, ops)
      && stats.evictions == CountFull(capacity, ops)
  {
    ReachableShape(capacity, ops);
    if ops != [] {
      var before := ops[..|ops| - 1];
      CountersMean(capacity, before);
      ReachableShape(capacity, before);
      StepCounts(Run(capacity, before), capacity, ops[|ops| - 1]);
    }
  }

  // ---------------------------------------------------------------- inclusion

  lemma {:induction false} IncludedWithout(a: seq<Item>, b: seq<Item>, key: string)
    requires IsSubsequence(a, b)
    ensures IsSubsequence(Without(a, key), Without(b, key))
    decreases |b|
  {
    if a != [] {
      if a[0] == b[0] {
        IncludedWithout(a[1..], b[1..], key);
        SubsequenceCons(Without(a[1..], key), Without(b[1..], key), a[0]);
      } else {
        IncludedWithout(a, b[1..], key);
        if b[0].key != key {
          SubsequenceSkip(Without(a, key), Without(b[1..], key), b[0]);
        }
      }
    }
  }

  lemma {:induction false} WithoutAbsent(items: seq<Item>, key: string)
    requires DistinctKeys(items) && Lookup(items, key).None?
    ensures Without(items, key) == items
  {
    if items != [] {
      WithoutAbsent(items[1..], key);
    }
  }

  lemma {:induction false} IncludedLookup(a: seq<Item>, b: seq<Item>, key: string)
    requires IsSubsequence(a, b) && DistinctKeys(a) && DistinctKeys(b)
    ensures Lookup(a, key).Some? ==> Lookup(b, key) == Lookup(a, key)
  {
    LookupMeans(a, key);
    LookupMeans(b, key);
    SubsequenceMembers(a, b);
  }

  ghost predicate InclusionInvariant(a: seq<Item>, b: seq<Item>, small: nat, large: nat) {
    && DistinctKeys(a) && DistinctKeys(b) && |a| <= small && |b| <= large
    && IsSubsequence(a, b) && |b| - |a| <= large - small
  }

  lemma {:induction false} InsertInclusion(a: seq<Item>, b: seq<Item>, small: nat, large: nat, x: Item)
    requires 1 <= small <= large && InclusionInvariant(a, b, small, large)
    requires Lookup(a, x.key).None? && Lookup(b, x.key).None?
    ensures var a', b' := [x] + Recent(a, small - 1), [x] + Recent(b, large - 1);
      IsSubsequence(a', b') && |b'| - |a'| <= large - small
  {
    if |a| == small {
      SubsequenceDropLast(a, b);
    }
    SubsequenceMembers(a, b);
    SubsequenceCons(Recent(a, small - 1), Recent(b, large - 1), x);
  }

  lemma {:induction false} OverwriteInclusion(a: seq<Item>, b: seq<Item>, small: nat, large: nat, x: Item)
    requires 1 <= small <= large && InclusionInvariant(a, b, small, large)
    requires Lookup(a, x.key).None? && Lookup(b, x.key).Some?
    ensures var a', b' := [x] + Recent(a, small - 1), [x] + Without(b, x.key);
      IsSubsequence(a', b') && |b'| - |a'| <= large - small
  {
    var rest := Without(b, x.key);
    IncludedWithout(a, b, x.key);
    WithoutAbsent(a, x.key);
    WithoutMeans(b, x.key);
    if |a| == small {
      SubsequenceDropLast(a, rest);
    }
    SubsequenceCons(Recent(a, small - 1), rest, x);
  }

  /** One call keeps inclusion. The bound on the difference in length is what makes it inductive:
      whenever the larger cache is full, so is the smaller. */
  lemma StepInclusion(c: Cache, d: Cache, small: nat, large: nat, op: Op)
    requires 1 <= small <= large && InclusionInvariant(c.items, d.items, small, large)
    ensures var c', d' := Step(c, small, op), Step(d, large, op);
      IsSubsequence(c'.items, d'.items) && |d'.items| - |c'.items| <= large - small
  {
    if !op.Clear? {
      var key := op.key;
      var cw, dw := Without(c.items, key), Without(d.items, key);
      IncludedLookup(c.items, d.items, key);
      IncludedWithout(c.items, d.items, key);
      WithoutMeans(c.items, key);
      WithoutMeans(d.items, key);
      if Lookup(c.items, key).None? {
        WithoutAbsent(c.items, key);
      }
      match op {
        case Invalidate(_) =>
        case Put(_, entry) =>
          if Lookup(d.items, key).None? {
            InsertInclusion(c.items, d.items, small, large, Item(key, entry));
          } else if Lookup(c.items, key).None? {
            OverwriteInclusion(c.items, d.items, small, large, Item(key, entry));
          } else {
            SubsequenceCons(cw, dw, Item(key, entry));
          }
        case Get(_, _) =>
          if Lookup(c.items, key).Some? {
            SubsequenceCons(cw, dw, Item(key, Lookup(c.items, key).value));
          } else if Lookup(d.items, key).Some? {
            SubsequenceSkip(c.items, dw, Item(key, Lookup(d.items, key).value));
          }
      }
    }
  }

  /** A cache of capacity `small` and one of capacity `large` given the same calls at the same times:
      the smaller one's recency list is always the larger one's with items left out. */
  lemma {:induction false} Inclusion(small: nat, large: nat, ops: seq<Op>)
    requires 1 <= small <= large
    ensures var c, d := Run(small, ops), Run(large, ops);
      IsSubsequence(c.items, d.items) && |d.items| - |c.items| <= large - small
  {
    if ops != [] {
      var before := ops[..|ops| - 1];
      Inclusion(small, large, before);
      ReachableShape(small, before);
      ReachableShape(large, before);
      StepInclusion(Run(small, before), Run(large, before), small, large, ops[|ops| - 1]);
    }
  }

  /** Every hit in the smaller cache is the same hit in the larger one, so its hit count is no higher. */
  lemma {:induction false} HitsAreIncluded(small: nat, large: nat, ops: seq<Op>, key: string, now: int)
    requires 1 <= small <= large
    ensures var answer := AfterGet(Run(small, ops), key, now).1;
      answer.Some? ==> AfterGet(Run(large, ops), key, now).1 == answer
    ensures Run(small, ops).stats.hits <= Run(large, ops).stats.hits
    decreases |ops|
  {
    Inclusion(small, large, ops);
    ReachableShape(small, ops);
    ReachableShape(large, ops);
    IncludedLookup(Run(small, ops).items, Run(large, ops).items, key);
    if ops != [] {
      var before, op := ops[..|ops| - 1], ops[|ops| - 1];
      if op.Get? {
        HitsAreIncluded(small, large, before, op.key, op.now);
      } else {
        HitsAreIncluded(small, large, before, key, now);
      }
    }
  }
}
