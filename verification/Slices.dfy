/** Stretches of lists. */
module Slices {
  lemma SliceOfSlice<T>(s: seq<T>, i: nat, j: nat, from: nat, to: nat)
    requires i <= j <= |s| && from <= to <= j - i
    ensures s[i..j][from..to] == s[i + from..i + to]
  {
    var slice, same := s[i..j][from..to], s[i + from..i + to];
    forall m | 0 <= m < to - from
      ensures slice[m] == same[m]
    {
      assert slice[m] == s[i..j][from + m] == s[i + from + m];
    }
  }

  lemma Regroup<T>(a: seq<T>, b: seq<T>, c: seq<T>)
    ensures a + (b + c) == (a + b) + c
  {
  }
}
