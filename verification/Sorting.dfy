/** Sorting, and sorted lists without repetitions. */
module Sorting {
  type Order<!T> = (T, T) -> bool

  /** A strict total order. */
  ghost predicate IsOrder<T(!new)>(less: Order<T>) {
    && (forall x :: !less(x, x))
    && (forall x, y, z :: less(x, y) && less(y, z) ==> less(x, z))
    && (forall x, y :: less(x, y) || x == y || less(y, x))
  }

  predicate Ascending<T>(less: Order<T>, s: seq<T>) {
    forall i, j :: 0 <= i < j < |s| ==> less(s[i], s[j])
  }

  ghost predicate SameMembers<T(!new)>(s: seq<T>, t: seq<T>) {
    forall x :: x in s <==> x in t
  }

  // ---------------------------------------------------------------- sorting

  /** `x` put in front of the first element that does not come before it. */
  function Inserted<T>(less: Order<T>, s: seq<T>, x: T): seq<T> {
    if s == [] || !less(s[0], x) then [x] + s else [s[0]] + Inserted(less, s[1..], x)
  }

  /** The list in order; what the order does not tell apart may come in any. */
  function Sorted<T>(less: Order<T>, s: seq<T>): seq<T> {
    if s == [] then [] else Inserted(less, Sorted(less, s[..|s| - 1]), s[|s| - 1])
  }

  /** No element comes before the one in front of it. */
  predicate InOrder<T>(less: Order<T>, s: seq<T>) {
    |s| <= 1 || (!less(s[1], s[0]) && InOrder(less, s[1..]))
  }

  ghost predicate IsAsymmetric<T(!new)>(less: Order<T>) {
    forall x, y :: less(x, y) ==> !less(y, x)
  }

  lemma {:induction false} InsertedInOrder<T(!new)>(less: Order<T>, s: seq<T>, x: T)
    requires IsAsymmetric(less) && InOrder(less, s)
    ensures InOrder(less, Inserted(less, s, x))
    ensures Inserted(less, s, x)[0] == x || (s != [] && Inserted(less, s, x)[0] == s[0])
  {
    if s == [] || !less(s[0], x) {
      assert ([x] + s)[1..] == s;
    } else {
      InsertedInOrder(less, s[1..], x);
      assert Inserted(less, s, x)[1..] == Inserted(less, s[1..], x);
    }
  }

  lemma {:induction false} SortedMore<T>(less: Order<T>, s: seq<T>, x: T)
    ensures Sorted(less, s + [x]) == Inserted(less, Sorted(less, s), x)
  {
    assert (s + [x])[..|s|] == s;
  }

  lemma {:induction false} InsertedMembers<T>(less: Order<T>, s: seq<T>, x: T, y: T)
    ensures y in Inserted(less, s, x) <==> y in s || y == x
  {
    if s != [] && less(s[0], x) {
      InsertedMembers(less, s[1..], x, y);
      assert s == [s[0]] + s[1..];
    }
  }

  lemma {:induction false} SortedInOrder<T(!new)>(less: Order<T>, s: seq<T>)
    requires IsAsymmetric(less)
    ensures InOrder(less, Sorted(less, s))
  {
    if s != [] {
      var front := s[..|s| - 1];
      SortedInOrder(less, front);
      InsertedInOrder(less, Sorted(less, front), s[|s| - 1]);
    }
  }

  lemma {:induction false} SortedMembers<T(!new)>(less: Order<T>, s: seq<T>)
    ensures SameMembers(Sorted(less, s), s)
  {
    if s != [] {
      var front, last := s[..|s| - 1], s[|s| - 1];
      SortedMembers(less, front);
      assert s == front + [last];
      forall y
        ensures y in Sorted(less, s) <==> y in s
      {
        InsertedMembers(less, Sorted(less, front), last, y);
      }
    }
  }

  // ---------------------------------------------------------------- without repetitions

  lemma {:induction false} InOrderAt<T>(less: Order<T>, s: seq<T>, k: nat)
    requires InOrder(less, s) && k + 1 < |s|
    ensures !less(s[k + 1], s[k])
  {
    if k > 0 {
      InOrderAt(less, s[1..], k - 1);
    }
  }

  lemma AscendingMore<T(!new)>(less: Order<T>, s: seq<T>, x: T)
    requires IsOrder(less) && Ascending(less, s) && (s != [] ==> less(s[|s| - 1], x))
    ensures Ascending(less, s + [x])
  {
    forall i | 0 <= i < |s|
      ensures less(s[i], x)
    {
      assert i < |s| - 1 ==> less(s[i], s[|s| - 1]);
    }
  }

  /** Leaves out each element that is equal to the one in front of it. */
  method Unique<T(==, !new)>(less: Order<T>, s: seq<T>) returns (r: seq<T>)
    requires IsOrder(less) && InOrder(less, s)
    ensures Ascending(less, r) && SameMembers(r, s)
  {
    r := [];
    for k := 0 to |s|
      invariant Ascending(less, r) && SameMembers(r, s[..k])
      invariant if k == 0 then r == [] else r != [] && r[|r| - 1] == s[k - 1]
    {
      assert s[..k + 1] == s[..k] + [s[k]];
      if k == 0 || r[|r| - 1] != s[k] {
        if k > 0 {
          InOrderAt(less, s, k - 1);
        }
        AscendingMore(less, r, s[k]);
        r := r + [s[k]];
      }
    }
    assert s[..|s|] == s;
  }

  method SortUnique<T(==, !new)>(less: Order<T>, s: seq<T>) returns (r: seq<T>)
    requires IsOrder(less)
    ensures Ascending(less, r) && SameMembers(r, s)
  {
    SortedInOrder(less, s);
    SortedMembers(less, s);
    r := Unique(less, Sorted(less, s));
  }

  lemma FirstIsLeast<T(!new)>(less: Order<T>, s: seq<T>, t: seq<T>)
    requires IsOrder(less) && Ascending(less, s) && Ascending(less, t) && SameMembers(s, t) && s != []
    ensures t != [] && s[0] == t[0]
  {
    assert s[0] in t;
    var i :| 0 <= i < |t| && t[i] == s[0];
    assert t[0] in s;
    var j :| 0 <= j < |s| && s[j] == t[0];
  }

  lemma RestSame<T(!new)>(less: Order<T>, s: seq<T>, t: seq<T>)
    requires IsOrder(less) && Ascending(less, s) && Ascending(less, t) && SameMembers(s, t)
    requires s != [] && t != [] && s[0] == t[0]
    ensures SameMembers(s[1..], t[1..])
  {
    forall x
      ensures x in s[1..] <==> x in t[1..]
    {
      NotRepeated(less, s);
      NotRepeated(less, t);
      assert s == [s[0]] + s[1..] && t == [t[0]] + t[1..];
      assert x in s <==> x in t;
    }
  }

  lemma NotRepeated<T(!new)>(less: Order<T>, s: seq<T>)
    requires IsOrder(less) && Ascending(less, s) && s != []
    ensures s[0] !in s[1..] && Ascending(less, s[1..])
  {
  }

  lemma SameEmptiness<T(!new)>(s: seq<T>, t: seq<T>)
    ensures SameMembers(s, t) ==> (s == [] <==> t == [])
  {
    if s != [] {
      assert s[0] in s;
    }
    if t != [] {
      assert t[0] in t;
    }
  }

  /** Members and order determine the list. */
  lemma {:induction false} SortedIsUnique<T(!new)>(less: Order<T>, s: seq<T>, t: seq<T>)
    requires IsOrder(less) && Ascending(less, s) && Ascending(less, t) && SameMembers(s, t)
    ensures s == t
  {
    SameEmptiness(s, t);
    if s == [] {
      assert t == [];
    } else {
      FirstIsLeast(less, s, t);
      NotRepeated(less, s);
      NotRepeated(less, t);
      RestSame(less, s, t);
      SortedIsUnique(less, s[1..], t[1..]);
      assert s == [s[0]] + s[1..] && t == [t[0]] + t[1..];
    }
  }
}
