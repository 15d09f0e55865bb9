/**
 The in-memory response cache as the program keeps it: a list of nodes, an index from
 keys to nodes and a record of counters, all updated in place. Each call is proved
 against the value-level step of the same name in `LruSpec`.
 */
module LruCache {
  import opened Options
  import opened LruSpec

  class Node {
    const key: string
    var entry: CacheEntry

    constructor (key: string, entry: CacheEntry)
      ensures this.key == key && this.entry == entry
    {
      this.key := key;
      this.entry := entry;
    }
  }

  // ---------------------------------------------------------------- lists of nodes

  ghost function ItemsOf(nodes: seq<Node>): seq<Item>
    reads nodes
  {
    if nodes == [] then [] else [Item(nodes[0].key, nodes[0].entry)] + ItemsOf(nodes[1..])
  }

  /** The index a list of nodes should have: each key leads to its own node. */
  ghost function IndexOf(nodes: seq<Node>): map<string, Node> {
    if nodes == [] then map[] else IndexOf(nodes[1..])[nodes[0].key := nodes[0]]
  }

  ghost predicate DistinctNodes(nodes: seq<Node>) {
    nodes == [] || (nodes[0].key !in IndexOf(nodes[1..]) && DistinctNodes(nodes[1..]))
  }

  ghost predicate AllIn(nodes: seq<Node>, repr: set<Node>) {
    nodes == [] || (nodes[0] in repr && AllIn(nodes[1..], repr))
  }

  /** The list without the node an iterator points at. */
  function Erase(nodes: seq<Node>, node: Node): seq<Node> {
    if nodes == [] then []
    else if nodes[0] == node then nodes[1..]
    else [nodes[0]] + Erase(nodes[1..], node)
  }

  lemma {:induction false} LookupNode(nodes: seq<Node>, repr: set<Node>, key: string)
    requires DistinctNodes(nodes) && AllIn(nodes, repr)
    ensures key !in IndexOf(nodes) ==> Lookup(ItemsOf(nodes), key).None?
    ensures key in IndexOf(nodes) ==>
      var node := IndexOf(nodes)[key];
      node in nodes && node in repr && node.key == key && Lookup(ItemsOf(nodes), key) == Some(node.entry)
  {
    if nodes != [] {
      LookupNode(nodes[1..], repr, key);
      assert ItemsOf(nodes)[1..] == ItemsOf(nodes[1..]);
    }
  }

  lemma {:induction false} MembersIndexed(nodes: seq<Node>, node: Node)
    requires node in nodes
    ensures node.key in IndexOf(nodes)
  {
    if node != nodes[0] {
      MembersIndexed(nodes[1..], node);
    }
  }

  lemma {:induction false} AbsentItems(nodes: seq<Node>, key: string)
    requires key !in IndexOf(nodes)
    ensures Without(ItemsOf(nodes), key) == ItemsOf(nodes)
  {
    if nodes != [] {
      AbsentItems(nodes[1..], key);
      assert ItemsOf(nodes)[1..] == ItemsOf(nodes[1..]);
    }
  }

  lemma {:induction false} ErasedIndex(nodes: seq<Node>, node: Node)
    requires DistinctNodes(nodes) && node in nodes
    ensures DistinctNodes(Erase(nodes, node)) && |Erase(nodes, node)| == |nodes| - 1
    ensures node.key in IndexOf(nodes) && IndexOf(nodes)[node.key] == node
    ensures IndexOf(Erase(nodes, node)) == IndexOf(nodes) - {node.key}
  {
    if nodes[0] != node {
      ErasedIndex(nodes[1..], node);
      assert Erase(nodes, node)[1..] == Erase(nodes[1..], node);
      assert node.key != nodes[0].key;
    }
  }

  lemma {:induction false} ErasedItems(nodes: seq<Node>, node: Node)
    requires DistinctNodes(nodes) && node in nodes
    ensures ItemsOf(Erase(nodes, node)) == Without(ItemsOf(nodes), node.key)
  {
    assert ItemsOf(nodes)[1..] == ItemsOf(nodes[1..]);
    if nodes[0] == node {
      AbsentItems(nodes[1..], node.key);
    } else {
      ErasedItems(nodes[1..], node);
      ErasedIndex(nodes[1..], node);
      assert Erase(nodes, node)[1..] == Erase(nodes[1..], node);
    }
  }

  lemma {:induction false} ErasedIn(nodes: seq<Node>, repr: set<Node>, node: Node)
    requires AllIn(nodes, repr) && node in nodes && DistinctNodes(nodes)
    ensures AllIn(Erase(nodes, node), repr) && node !in Erase(nodes, node)
  {
    if nodes[0] == node {
      if node in nodes[1..] {
        MembersIndexed(nodes[1..], node);
      }
    } else {
      ErasedIn(nodes[1..], repr, node);
      assert Erase(nodes, node)[1..] == Erase(nodes[1..], node);
    }
  }

  lemma {:induction false} ErasedNodes(nodes: seq<Node>, repr: set<Node>, node: Node)
    requires DistinctNodes(nodes) && AllIn(nodes, repr) && node in nodes
    ensures var rest := Erase(nodes, node);
      && DistinctNodes(rest) && AllIn(rest, repr) && node !in rest && |rest| == |nodes| - 1
      && node.key in IndexOf(nodes) && IndexOf(nodes)[node.key] == node
      && IndexOf(rest) == IndexOf(nodes) - {node.key}
      && ItemsOf(rest) == Without(ItemsOf(nodes), node.key)
  {
    ErasedIndex(nodes, node);
    ErasedItems(nodes, node);
    ErasedIn(nodes, repr, node);
  }

  lemma {:induction false} DroppedLast(nodes: seq<Node>, repr: set<Node>)
    requires DistinctNodes(nodes) && AllIn(nodes, repr) && nodes != []
    ensures var rest := nodes[..|nodes| - 1];
      && DistinctNodes(rest) && AllIn(rest, repr)
      && IndexOf(rest) == IndexOf(nodes) - {nodes[|nodes| - 1].key}
      && |ItemsOf(nodes)| == |nodes|
      && ItemsOf(rest) == ItemsOf(nodes)[..|nodes| - 1]
  {
    var rest, last := nodes[..|nodes| - 1], nodes[|nodes| - 1];
    if |nodes| > 1 {
      DroppedLast(nodes[1..], repr);
      assert nodes[1..][..|nodes| - 2] == rest[1..];
      MembersIndexed(nodes[1..], last);
      assert last.key != nodes[0].key;
    }
  }

  lemma {:induction false} MoreRepr(nodes: seq<Node>, repr: set<Node>, more: set<Node>)
    requires AllIn(nodes, repr) && repr <= more
    ensures AllIn(nodes, more)
  {
    if nodes != [] {
      MoreRepr(nodes[1..], repr, more);
    }
  }

  lemma {:induction false} UntouchedItems(nodes: seq<Node>, repr: set<Node>)
    requires AllIn(nodes, repr)
    ensures forall n :: n in nodes ==> n in repr
    ensures |ItemsOf(nodes)| == |nodes|
  {
    if nodes != [] {
      UntouchedItems(nodes[1..], repr);
    }
  }

  // ---------------------------------------------------------------- the cache

  class MemoryCache {
    var lruList: seq<Node>  // most recently used first
    var index: map<string, Node>
    const maxSize: nat
    var stats: Stats
    ghost var Repr: set<Node>  // every node the cache has made

    ghost predicate Valid()
      reads this
    {
      && DistinctNodes(lruList) && AllIn(lruList, Repr)
      && index == IndexOf(lruList)
      && stats.size == |lruList| <= maxSize
      && stats.maxSize == maxSize
    }

    /** The value this cache stands for. */
    ghost function Value(): Cache
      reads this, lruList
    {
      Cache(ItemsOf(lruList), stats)
    }

    constructor (maxSize: nat)
      ensures Valid() && this.maxSize == maxSize && Value() == Empty(maxSize) && Repr == {}
    {
      lruList, index := [], map[];
      this.maxSize := maxSize;
      stats := Stats(0, 0, 0, 0, 0, maxSize);
      Repr := {};
    }

    /** Removes the node at the back. */
    method EvictLru()
      requires Valid()
      modifies this`lruList, this`index, this`stats
      ensures Valid()
      ensures |lruList| == if old(|lruList|) == 0 then 0 else old(|lruList|) - 1
      ensures lruList == old(lruList)[..|lruList|]
      ensures ItemsOf(lruList) == Recent(old(ItemsOf(lruList)), |lruList|)
      ensures stats == old(stats).(size := |lruList|, evictions := old(stats).evictions + (old(|lruList|) - |lruList|))
    {
      if |lruList| == 0 {
        return;
      }
      DroppedLast(lruList, Repr);
      var back := lruList[|lruList| - 1];
      index := index - {back.key};
      lruList := lruList[..|lruList| - 1];
      stats := stats.(size := stats.size - 1, evictions := stats.evictions + 1);
    }

    /** Moves a node to the front. */
    method Touch(node: Node)
      requires Valid() && node in lruList
      modifies this`lruList
      ensures Valid()
      ensures ItemsOf(lruList) == [Item(node.key, node.entry)] + Without(old(ItemsOf(lruList)), node.key)
    {
      ErasedNodes(lruList, Repr, node);
      UntouchedItems(lruList, Repr);
      lruList := [node] + Erase(lruList, node);
      assert lruList[1..] == Erase(old(lruList), node);
    }

    /** Takes a node out of the list, the index and the size: what `get` does to an expired entry and
        `invalidate` to any entry. */
    method Drop(node: Node)
      requires Valid() && node in lruList
      modifies this`lruList, this`index, this`stats
      ensures Valid()
      ensures ItemsOf(lruList) == Without(old(ItemsOf(lruList)), node.key)
      ensures stats == old(stats).(size := |lruList|)
      ensures |lruList| == |Without(old(ItemsOf(lruList)), node.key)|
    {
      ErasedNodes(lruList, Repr, node);
      lruList := Erase(lruList, node);
      index := index - {node.key};
      stats := stats.(size := stats.size - 1);
      UntouchedItems(lruList, Repr);
    }

    method Get(key: string, now: int) returns (answer: Option<CacheEntry>)
      requires Valid()
      modifies this`lruList, this`index, this`stats
      ensures Valid()
      ensures Value() == AfterGet(old(Value()), key, now).0
      ensures answer == AfterGet(old(Value()), key, now).1
      ensures answer == old(if key in index && now - index[key].entry.createdAt <= index[key].entry.ttl
                            then Some(index[key].entry) else None)
    {
      LookupNode(lruList, Repr, key);
      if key !in index {
        stats := stats.(misses := stats.misses + 1);
        return None;
      }
      var node := index[key];
      if node.entry.IsExpired(now) {
        Drop(node);
        stats := stats.(expired := stats.expired + 1, misses := stats.misses + 1);
        return None;
      }
      Touch(node);
      stats := stats.(hits := stats.hits + 1);
      return Some(node.entry);
    }

    method Put(key: string, entry: CacheEntry)
      requires Valid() && maxSize >= 1
      modifies this, Repr
      ensures Valid() && Value() == AfterPut(old(Value()), maxSize, key, entry)
      ensures Repr >= old(Repr) && fresh(Repr - old(Repr))
    {
      LookupNode(lruList, Repr, key);
      if key in index {
        Overwrite(index[key], entry);
        return;
      }
      UntouchedItems(lruList, Repr);
      while stats.size >= maxSize
        invariant Valid() && |lruList| <= |old(lruList)| && Repr == old(Repr)
        invariant lruList == old(lruList)[..|lruList|] && index.Keys <= old(index).Keys
        invariant ItemsOf(lruList) == Recent(old(ItemsOf(lruList)), |lruList|)
        invariant |lruList| < |old(lruList)| ==> |lruList| == maxSize - 1
        invariant stats ==
          old(stats).(size := |lruList|, evictions := old(stats).evictions + (|old(lruList)| - |lruList|))
        decreases stats.size
      {
        label before:
        EvictLru();
        FewerKeys(old@before(lruList), |lruList|);
      }
      PushFront(key, entry);
    }

    method Overwrite(node: Node, entry: CacheEntry)
      requires Valid() && node in lruList && node in Repr
      modifies this`lruList, node
      ensures Valid()
      ensures ItemsOf(lruList) == [Item(node.key, entry)] + Without(old(ItemsOf(lruList)), node.key)
    {
      ErasedNodes(lruList, Repr, node);
      ghost var others := ItemsOf(Erase(lruList, node));
      node.entry := entry;
      assert ItemsOf(Erase(lruList, node)) == others;
      ErasedNodes(lruList, Repr, node);
      Touch(node);
    }

    method PushFront(key: string, entry: CacheEntry)
      requires Valid() && key !in index && |lruList| < maxSize
      modifies this
      ensures Valid()
      ensures ItemsOf(lruList) == [Item(key, entry)] + old(ItemsOf(lruList))
      ensures stats == old(stats).(size := old(stats).size + 1)
      ensures Repr >= old(Repr) && fresh(Repr - old(Repr))
    {
      UntouchedItems(lruList, Repr);
      var node := new Node(key, entry);
      MoreRepr(lruList, Repr, Repr + {node});
      lruList := [node] + lruList;
      index := index[key := node];
      stats := stats.(size := stats.size + 1);
      Repr := Repr + {node};
      assert lruList[1..] == old(lruList);
    }

    method Invalidate(key: string)
      requires Valid()
      modifies this`lruList, this`index, this`stats
      ensures Valid() && Value() == AfterInvalidate(old(Value()), key)
    {
      LookupNode(lruList, Repr, key);
      if key in index {
        Drop(index[key]);
      } else {
        AbsentItems(lruList, key);
        UntouchedItems(lruList, Repr);
      }
    }

    method Clear()
      requires Valid()
      modifies this`lruList, this`index, this`stats
      ensures Valid() && Value() == AfterClear(old(Value()))
    {
      lruList, index := [], map[];
      stats := stats.(size := 0);
    }
  }

  lemma {:induction false} FewerKeys(nodes: seq<Node>, n: nat)
    requires n <= |nodes|
    ensures IndexOf(nodes[..n]).Keys <= IndexOf(nodes).Keys
  {
    if n > 0 {
      FewerKeys(nodes[1..], n - 1);
      assert nodes[..n][1..] == nodes[1..][..n - 1];
    }
  }

  /** One call on the object is one step on its value. */
  method Call(cache: MemoryCache, op: Op)
    requires cache.Valid() && cache.maxSize >= 1
    modifies cache, cache.Repr
    ensures cache.Valid() && cache.Value() == Step(old(cache.Value()), cache.maxSize, op)
    ensures cache.Repr >= old(cache.Repr) && fresh(cache.Repr - old(cache.Repr))
  {
    match op {
      case Get(key, now) => var _ := cache.Get(key, now);
      case Put(key, entry) => cache.Put(key, entry);
      case Invalidate(key) => cache.Invalidate(key);
      case Clear => cache.Clear();
    }
  }

  /** A whole run of calls on a new cache ends in the value `LruSpec.Run` names, so every theorem
      about runs is one about this class. */
  method RunCalls(maxSize: nat, ops: seq<Op>) returns (cache: MemoryCache)
    requires maxSize >= 1
    ensures fresh(cache) && cache.Valid() && cache.maxSize == maxSize && cache.Value() == Run(maxSize, ops)
  {
    cache := new MemoryCache(maxSize);
    for i := 0 to |ops|
      invariant fresh(cache) && fresh(cache.Repr) && cache.Valid() && cache.maxSize == maxSize
      invariant cache.Value() == Run(maxSize, ops[..i])
    {
      assert ops[..i + 1][..i] == ops[..i];
      Call(cache, ops[i]);
    }
    assert ops[..|ops|] == ops;
  }

  // ---------------------------------------------------------------- why a capacity of at least one

  /** How many items are left after some turns of the eviction loop. */
  function SizeAfter(size: nat, rounds: nat): nat {
    if rounds == 0 then size
    else var s := SizeAfter(size, rounds - 1); if s == 0 then 0 else s - 1
  }

  /** That many turns of the loop in `Put`, whatever its guard says: it evicts as `SizeAfter` counts, and with
      no capacity it changes nothing at all, so that the guard still holds. */
  method Evict(cache: MemoryCache, rounds: nat)
    requires cache.Valid()
    modifies cache`lruList, cache`index, cache`stats
    ensures cache.Valid() && cache.stats.size == SizeAfter(old(cache.stats.size), rounds)
    ensures cache.maxSize == 0 ==> cache.Value() == old(cache.Value()) && cache.stats.size >= cache.maxSize
  {
    for i := 0 to rounds
      invariant cache.Valid() && cache.stats.size == SizeAfter(old(cache.stats.size), i)
      invariant cache.maxSize == 0 ==> cache.lruList == old(cache.lruList) == [] && cache.stats == old(cache.stats)
    {
      cache.EvictLru();
    }
  }

  lemma {:induction false} SizeAfterMeans(size: nat, rounds: nat)
    ensures SizeAfter(size, rounds) == if rounds <= size then size - rounds else 0
  {
    if rounds > 0 {
      SizeAfterMeans(size, rounds - 1);
    }
  }

  /** The guard of the loop in `Put` fails after some number of turns if and only if the capacity is at least
      one; with none a `Put` of an absent key never returns. */
  lemma EvictionEndsIff(cache: MemoryCache)
    requires cache.Valid()
    ensures (exists rounds: nat :: !(SizeAfter(cache.stats.size, rounds) >= cache.maxSize)) <==> cache.maxSize >= 1
  {
    var size := cache.stats.size;
    SizeAfterMeans(size, size);
    if cache.maxSize >= 1 {
      assert SizeAfter(size, size) < cache.maxSize;
    }
  }
}
