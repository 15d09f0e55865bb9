/** Lists put together from a list for each element of another. */
module Flattening {
  function Flat<A, B>(f: A -> seq<B>, s: seq<A>): seq<B> {
    if s == [] then [] else Flat(f, s[..|s| - 1]) + f(s[|s| - 1])
  }

  /** Where the part of element `j` begins. */
  function Offset<A, B>(f: A -> seq<B>, s: seq<A>, j: nat): nat
    requires j <= |s|
  {
    if j == 0 then 0 else Offset(f, s, j - 1) + |f(s[j - 1])|
  }

  lemma {:induction false} FlatLength<A, B>(f: A -> seq<B>, s: seq<A>)
    ensures |Flat(f, s)| == Offset(f, s, |s|)
  {
    if s != [] {
      var n := |s| - 1;
      FlatLength(f, s[..n]);
      SameOffset(f, s, n, n);
    }
  }

  lemma {:induction false} SameOffset<A, B>(f: A -> seq<B>, s: seq<A>, n: nat, j: nat)
    requires j <= n <= |s|
    ensures Offset(f, s[..n], j) == Offset(f, s, j)
  {
    if j > 0 {
      SameOffset(f, s, n, j - 1);
    }
  }

  /** The part of each element lies at its place. */
  lemma {:induction false} FlatAt<A, B>(f: A -> seq<B>, s: seq<A>, j: nat, m: nat)
    requires j < |s| && m < |f(s[j])|
    ensures Offset(f, s, j) + m < |Flat(f, s)| && Flat(f, s)[Offset(f, s, j) + m] == f(s[j])[m]
  {
    var n := |s| - 1;
    FlatLength(f, s[..n]);
    SameOffset(f, s, n, j);
    SameOffset(f, s, n, n);
    if j < n {
      FlatAt(f, s[..n], j, m);
    }
  }
}
