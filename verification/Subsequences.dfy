/** Lists with some elements left out. */
module Subsequences {
  /** `a` is `b` with some elements left out. */
  ghost predicate IsSubsequence<T>(a: seq<T>, b: seq<T>) {
    if a == [] then true
    else if b == [] then false
    else if a[0] == b[0] then IsSubsequence(a[1..], b[1..])
    else IsSubsequence(a, b[1..])
  }

  lemma {:induction false} SubsequenceSkip<T>(a: seq<T>, b: seq<T>, x: T)
    requires IsSubsequence(a, b)
    ensures IsSubsequence(a, [x] + b)
    ensures a != [] ==> IsSubsequence(a[1..], b)
    decreases |a| + |b|
  {
    assert ([x] + b)[1..] == b;
    if a != [] {
      assert [b[0]] + b[1..] == b;
      if a[0] == b[0] {
        SubsequenceSkip(a[1..], b[1..], b[0]);
      } else {
        SubsequenceSkip(a, b[1..], x);
        SubsequenceSkip(a[1..], b[1..], b[0]);
      }
    }
  }

  lemma {:induction false} SubsequenceMembers<T>(a: seq<T>, b: seq<T>)
    requires IsSubsequence(a, b)
    ensures |a| <= |b| && forall x :: x in a ==> x in b
    decreases |b|
  {
    if a != [] {
      assert a == [a[0]] + a[1..];
      if a[0] == b[0] {
        SubsequenceMembers(a[1..], b[1..]);
      } else {
        SubsequenceMembers(a, b[1..]);
      }
    }
  }

  lemma {:induction false} SubsequenceCons<T>(a: seq<T>, b: seq<T>, x: T)
    requires IsSubsequence(a, b)
    ensures IsSubsequence([x] + a, [x] + b)
  {
    assert ([x] + a)[1..] == a && ([x] + b)[1..] == b;
  }

  /** Dropping the last element of the larger list and the last element of the smaller one keeps inclusion. */
  lemma {:induction false} SubsequenceDropLast<T>(a: seq<T>, b: seq<T>)
    requires IsSubsequence(a, b) && a != []
    ensures IsSubsequence(a[..|a| - 1], b[..|b| - 1])
    ensures IsSubsequence(a[..|a| - 1], b)
    decreases |b|
  {
    if |a| > 1 {
      if a[0] == b[0] {
        SubsequenceDropLast(a[1..], b[1..]);
        SubsequenceMembers(a[1..], b[1..]);
        assert a[1..][..|a| - 2] == a[..|a| - 1][1..];
        assert b[1..][..|b| - 2] == b[..|b| - 1][1..];
      } else {
        SubsequenceMembers(a, b[1..]);
        SubsequenceDropLast(a, b[1..]);
        assert b[1..][..|b| - 2] == b[..|b| - 1][1..];
      }
    }
  }

  lemma {:induction false} SubsequenceOfMore<T>(a: seq<T>, b: seq<T>, x: T)
    requires IsSubsequence(a, b)
    ensures IsSubsequence(a, b + [x])
    decreases |b|
  {
    if a != [] {
      assert (b + [x])[1..] == b[1..] + [x];
      SubsequenceOfMore(if a[0] == b[0] then a[1..] else a, b[1..], x);
    }
  }

  lemma {:induction false} SubsequenceWithBoth<T>(a: seq<T>, b: seq<T>, x: T)
    requires IsSubsequence(a, b)
    ensures IsSubsequence(a + [x], b + [x])
    decreases |b|
  {
    if b == [] {
      assert ([x])[1..] == [];
    } else {
      assert (b + [x])[1..] == b[1..] + [x];
      if a == [] {
        SubsequenceWithBoth([], b[1..], x);
        assert [] + [x] == [x] && [x][1..] == [];
      } else {
        assert (a + [x])[1..] == a[1..] + [x];
        SubsequenceWithBoth(if a[0] == b[0] then a[1..] else a, b[1..], x);
      }
    }
  }

  lemma {:induction false} SubsequenceTransitive<T>(a: seq<T>, b: seq<T>, c: seq<T>)
    requires IsSubsequence(a, b) && IsSubsequence(b, c)
    ensures IsSubsequence(a, c)
    decreases |c|, |b|
  {
    if a != [] {
      if b[0] != c[0] {
        SubsequenceTransitive(a, b, c[1..]);
        SubsequenceSkip(a, c[1..], c[0]);
        assert c == [c[0]] + c[1..];
      } else if a[0] == b[0] {
        SubsequenceTransitive(a[1..], b[1..], c[1..]);
      } else {
        SubsequenceTransitive(a, b[1..], c[1..]);
      }
    }
  }

  lemma {:induction false} SuffixIsSubsequence<T>(s: seq<T>, k: nat)
    requires k <= |s|
    ensures IsSubsequence(s[k..], s)
    decreases |s|
  {
    if s != [] {
      if k == 0 {
        SuffixIsSubsequence(s[1..], 0);
      } else {
        SuffixIsSubsequence(s[1..], k - 1);
        assert s[1..][k - 1..] == s[k..];
        SubsequenceSkip(s[k..], s[1..], s[0]);
        assert s == [s[0]] + s[1..];
      }
    }
  }
}
