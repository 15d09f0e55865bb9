/** How much is left to do for a number of things, each with a rank that says how much is left for it. */
module Ranks {
  import opened FiniteSets

  /** One element for each unit of each rank. */
  function Left<T(!new)>(items: map<nat, T>, rank: T -> nat): set<(nat, nat)> {
    set t, i | t in items && i in UpTo(rank(items[t])) :: (t, i)
  }

  lemma LeftShrinks<T(!new)>(items: map<nat, T>, rank: T -> nat, t: nat, value: T)
    requires t in items && rank(value) < rank(items[t])
    ensures |Left(items[t := value], rank)| < |Left(items, rank)|
  {
    var before, after := Left(items, rank), Left(items[t := value], rank);
    var top := (t, rank(items[t]) - 1);
    assert top in before && top !in after;
    Subset(after, before - {top});
  }

  lemma SomeLeft<T(!new)>(items: map<nat, T>, rank: T -> nat) returns (t: nat)
    requires |Left(items, rank)| > 0
    ensures t in items && rank(items[t]) > 0
  {
    var x :| x in Left(items, rank);
    t := x.0;
  }

  lemma LeftOf<T(!new)>(items: map<nat, T>, rank: T -> nat, t: nat)
    requires t in items
    ensures rank(items[t]) > 0 ==> |Left(items, rank)| > 0
  {
    if rank(items[t]) > 0 {
      assert (t, 0) in Left(items, rank);
    }
  }
}
