/** Sorted lists of usable leaf ranks, and how they are cut at subtree boundaries. */
module ConstraintRanks {
  import opened Arithmetic

  predicate Before(cs: seq<int>, i: nat, j: nat)
    requires i < |cs| && j < |cs|
  {
    cs[i] < cs[j]
  }

  /** Strictly increasing, hence without duplicates. */
  predicate Increasing(cs: seq<int>)
  {
    forall i: nat, j: nat | i < j < |cs| :: Before(cs, i, j)
  }

  predicate Within(cs: seq<int>, lo: int, hi: int)
  {
    forall i | 0 <= i < |cs| :: lo <= cs[i] < hi
  }

  /** First index from s on whose entry reaches x: the scan used by all splitters. */
  function Scan(cs: seq<int>, x: int, s: nat): (e: nat)
    requires s <= |cs|
    ensures s <= e <= |cs| && (e < |cs| ==> cs[e] >= x) && forall i | s <= i < e :: cs[i] < x
    decreases |cs| - s
  {
    if s < |cs| && cs[s] < x then Scan(cs, x, s + 1) else s
  }

  /** Number of entries below x. */
  function Bound(cs: seq<int>, x: int): nat
  {
    Scan(cs, x, 0)
  }

  lemma BoundIs(cs: seq<int>, x: int)
    requires Increasing(cs)
    ensures forall i | 0 <= i < |cs| :: i < Bound(cs, x) <==> cs[i] < x
  {
    var e := Bound(cs, x);
    forall i | e < i < |cs| ensures cs[i] >= x { assert Before(cs, e, i); }
  }

  /** Scanning on from one boundary finds the next. */
  lemma ScanOn(cs: seq<int>, x: int, y: int)
    requires Increasing(cs) && x <= y
    ensures Bound(cs, x) <= Bound(cs, y) && Scan(cs, y, Bound(cs, x)) == Bound(cs, y)
  {
    BoundIs(cs, x);
    BoundIs(cs, y);
  }

  /** An interval of d ranks holds at most d of them. */
  lemma BoundGap(cs: seq<int>, x: int, d: nat)
    requires Increasing(cs)
    ensures Bound(cs, x + d) - Bound(cs, x) <= d
  {
    ScanOn(cs, x, x + d);
    BoundIs(cs, x);
    BoundIs(cs, x + d);
    var a, b := Bound(cs, x), Bound(cs, x + d);
    if a < b {
      Spread(cs, a, b - 1);
    }
  }

  lemma {:induction false} Spread(cs: seq<int>, i: nat, j: nat)
    requires Increasing(cs) && i <= j < |cs|
    ensures cs[j] - cs[i] >= j - i
    decreases j
  {
    if i < j {
      Spread(cs, i, j - 1);
      assert Before(cs, j - 1, j);
    }
  }

  lemma BoundEnds(cs: seq<int>, n: nat)
    requires Within(cs, 0, n)
    ensures Bound(cs, 0) == 0 && Bound(cs, n) == |cs|
  {
  }

  /** How many of the ranks fall into the p-th of the intervals of length cap. */
  function Share(cs: seq<int>, p: nat, cap: nat): int
  {
    Bound(cs, Times(p, cap) + cap) - Bound(cs, Times(p, cap))
  }

  lemma ShareRange(cs: seq<int>, p: nat, cap: nat)
    requires Increasing(cs)
    ensures 0 <= Share(cs, p, cap) <= cap
  {
    BoundGap(cs, Times(p, cap), cap);
    ScanOn(cs, Times(p, cap), Times(p, cap) + cap);
  }
}
