/**
 A scan in which, of `n` things in a row, each may be claimed by an earlier one, and the first that can
 claim it does. What can claim what is a parameter.
 */
module Claims {
  type Relation = (nat, nat) -> bool

  type Link = (nat, nat)

  /** Only an earlier thing claims a later one. */
  ghost predicate IsForward(c: Relation, n: nat) {
    forall i: nat, j: nat :: c(i, j) ==> i < j < n
  }

  ghost predicate ClaimedBefore(c: Relation, j: nat, end: nat) {
    exists h: nat :: h < end && c(h, j)
  }

  /** `j` is claimed by something. */
  ghost predicate IsMarked(c: Relation, j: nat) {
    exists h: nat :: c(h, j)
  }

  ghost predicate IsFirst(c: Relation, i: nat, j: nat) {
    c(i, j) && !ClaimedBefore(c, j, i)
  }

  /** The links below `to` whose first claimant is `i`, in order. */
  ghost function Row(c: Relation, i: nat, to: nat): seq<Link> {
    if to == 0 then [] else Row(c, i, to - 1) + if IsFirst(c, i, to - 1) then [(i, to - 1)] else []
  }

  /** All links whose first claimant is below `end`. */
  ghost function Rows(c: Relation, n: nat, end: nat): seq<Link> {
    if end == 0 then [] else Rows(c, n, end - 1) + Row(c, end - 1, n)
  }

  lemma ClaimedNext(c: Relation, j: nat, i: nat)
    ensures ClaimedBefore(c, j, i + 1) <==> ClaimedBefore(c, j, i) || c(i, j)
  {
    if ClaimedBefore(c, j, i + 1) && !c(i, j) {
      var h: nat :| h < i + 1 && c(h, j);
      assert h < i;
    }
  }

  lemma {:induction false} NoneInRow(c: Relation, i: nat, to: nat)
    requires forall j: nat :: j < to ==> !c(i, j)
    ensures Row(c, i, to) == []
  {
    if to > 0 {
      NoneInRow(c, i, to - 1);
    }
  }

  lemma {:induction false} NoneAtAll(c: Relation, n: nat)
    requires IsForward(c, n) && n < 2
    ensures Rows(c, n, n) == []
  {
    if n == 1 {
      NoneInRow(c, 0, 1);
      assert Rows(c, 1, 1) == Rows(c, 1, 0) + Row(c, 0, 1);
    }
  }

  lemma {:induction false} InRow(c: Relation, i: nat, to: nat, link: Link)
    ensures link in Row(c, i, to) <==> link.0 == i && link.1 < to && IsFirst(c, i, link.1)
  {
    if to > 0 {
      InRow(c, i, to - 1, link);
    }
  }

  lemma InJoined(some: seq<Link>, more: seq<Link>, link: Link)
    ensures link in some + more <==> link in some || link in more
  {
  }

  lemma {:induction false} InRows(c: Relation, n: nat, end: nat, link: Link)
    requires IsForward(c, n)
    ensures link in Rows(c, n, end) <==> link.0 < end && IsFirst(c, link.0, link.1)
  {
    if end > 0 {
      InRows(c, n, end - 1, link);
      InRow(c, end - 1, n, link);
      InJoined(Rows(c, n, end - 1), Row(c, end - 1, n), link);
    }
  }

  lemma {:induction false} FirstClaimant(c: Relation, j: nat, end: nat) returns (i: nat)
    requires ClaimedBefore(c, j, end)
    ensures i < end && IsFirst(c, i, j)
  {
    if ClaimedBefore(c, j, end - 1) {
      i := FirstClaimant(c, j, end - 1);
    } else {
      ClaimedNext(c, j, end - 1);
      i := end - 1;
    }
  }

  lemma ClaimantOfMarked(c: Relation, j: nat) returns (i: nat)
    requires IsMarked(c, j)
    ensures IsFirst(c, i, j)
  {
    var h: nat :| c(h, j);
    assert ClaimedBefore(c, j, h + 1);
    i := FirstClaimant(c, j, h + 1);
  }

  /** The scan lists exactly the links to the first claimants. */
  lemma {:induction false} LinksAre(c: Relation, n: nat, link: Link)
    requires IsForward(c, n)
    ensures link in Rows(c, n, n) <==> IsFirst(c, link.0, link.1)
  {
    InRows(c, n, n, link);
  }

  /** Each claimed thing is listed, under one claimant only. */
  lemma {:induction false} MarkedIffListed(c: Relation, n: nat, j: nat)
    requires IsForward(c, n)
    ensures IsMarked(c, j) <==> exists i: nat :: (i, j) in Rows(c, n, n)
    ensures forall h: nat, i: nat :: (h, j) in Rows(c, n, n) && (i, j) in Rows(c, n, n) ==> h == i
  {
    forall i: nat
      ensures (i, j) in Rows(c, n, n) <==> IsFirst(c, i, j)
    {
      LinksAre(c, n, (i, j));
    }
    if IsMarked(c, j) {
      var i := ClaimantOfMarked(c, j);
      assert (i, j) in Rows(c, n, n);
    }
  }

  /** Row by row, and in order within a row. */
  predicate Before(a: Link, b: Link) {
    a.0 < b.0 || (a.0 == b.0 && a.1 < b.1)
  }

  ghost predicate IsOrdered(links: seq<Link>) {
    forall m, n :: 0 <= m < n < |links| ==> Before(links[m], links[n])
  }

  lemma OrderedParts(a: seq<Link>, b: seq<Link>)
    requires IsOrdered(a) && IsOrdered(b)
    requires forall x, y :: x in a && y in b ==> Before(x, y)
    ensures IsOrdered(a + b)
  {
  }

  lemma {:induction false} RowIsOrdered(c: Relation, i: nat, to: nat)
    ensures IsOrdered(Row(c, i, to))
  {
    if to > 0 {
      var front := Row(c, i, to - 1);
      RowIsOrdered(c, i, to - 1);
      forall x | x in front
        ensures Before(x, (i, to - 1))
      {
        InRow(c, i, to - 1, x);
      }
      OrderedParts(front, if IsFirst(c, i, to - 1) then [(i, to - 1)] else []);
    }
  }

  /** The list is in order of the claimants and, under one claimant, of what it claims. */
  lemma {:induction false} LinksAreOrdered(c: Relation, n: nat, end: nat)
    requires IsForward(c, n)
    ensures IsOrdered(Rows(c, n, end))
  {
    if end > 0 {
      var front, row := Rows(c, n, end - 1), Row(c, end - 1, n);
      LinksAreOrdered(c, n, end - 1);
      RowIsOrdered(c, end - 1, n);
      forall x, y | x in front && y in row
        ensures Before(x, y)
      {
        InRows(c, n, end - 1, x);
        InRow(c, end - 1, n, y);
      }
      OrderedParts(front, row);
    }
  }

  /** Each member is linked to the one before it. */
  predicate IsChain(links: seq<Link>, chain: seq<nat>) {
    chain != [] && (|chain| == 1 || ((chain[1], chain[0]) in links && IsChain(links, chain[1..])))
  }

  /** From every thing a chain of listed links leads to one that nothing claims. */
  lemma {:induction false} ChainToUnmarked(c: Relation, n: nat, j: nat) returns (chain: seq<nat>)
    requires IsForward(c, n)
    ensures IsChain(Rows(c, n, n), chain) && chain[0] == j && !IsMarked(c, chain[|chain| - 1])
  {
    if IsMarked(c, j) {
      var i := ClaimantOfMarked(c, j);
      LinksAre(c, n, (i, j));
      var rest := ChainToUnmarked(c, n, i);
      chain := [j] + rest;
      assert chain[1..] == rest;
    } else {
      chain := [j];
    }
  }
}
