/** Counting by set size: what changing one element's membership does to the count. */
module FiniteSets {
  function One(b: bool): nat {
    if b then 1 else 0
  }

  lemma OneElement<T>(before: set<T>, after: set<T>, x: T)
    requires before - {x} == after - {x}
    ensures |after| + One(x in before) == |before| + One(x in after)
  {
    assert before == if x in before then (before - {x}) + {x} else before - {x};
    assert after == if x in after then (after - {x}) + {x} else after - {x};
  }

  lemma Subset<T>(small: set<T>, large: set<T>)
    requires small <= large
    ensures |small| <= |large|
  {
    assert large == small + (large - small);
  }

  function UpTo(n: nat): (r: set<nat>)
    ensures forall i: nat :: i in r <==> i < n
    ensures |r| == n
  {
    if n == 0 then {} else UpTo(n - 1) + {n - 1}
  }
}
