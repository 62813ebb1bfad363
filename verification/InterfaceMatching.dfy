/** Pairing local and peer network interfaces by trying every permutation. */
module InterfaceMatching {
  import opened FiniteLists

  type Row = seq<int>

  /** A permutation: position i is paired with number b[i], counted from 1. */
  ghost predicate Permutation(b: Row)
  {
    && (forall i | 0 <= i < |b| :: 1 <= b[i] <= |b|)
    && forall i, j | 0 <= i < j < |b| :: b[i] != b[j]
  }

  /** Numbers 1 .. level are placed, each once, and the other places are empty (0). */
  ghost predicate Placed(a: Row, level: nat)
  {
    && (forall i | 0 <= i < |a| :: 0 <= a[i] <= level)
    && (forall i, j | 0 <= i < j < |a| && a[i] != 0 :: a[i] != a[j])
    && Empty(a, 0) == |a| - level
  }

  /** Empty places from lo on. */
  function Empty(a: Row, lo: nat): nat
    requires lo <= |a|
    decreases |a| - lo
  {
    if lo == |a| then 0 else (if a[lo] == 0 then 1 else 0) + Empty(a, lo + 1)
  }

  lemma {:induction false} EmptyFill(a: Row, i: nat, x: int, lo: nat)
    requires i < |a| && lo <= |a| && a[i] == 0 && x != 0
    ensures Empty(a[i := x], lo) == Empty(a, lo) - if lo <= i then 1 else 0
    decreases |a| - lo
  {
    if lo < |a| { EmptyFill(a, i, x, lo + 1); }
  }

  lemma {:induction false} NoneEmpty(a: Row, lo: nat, i: nat)
    requires lo <= i < |a| && Empty(a, lo) == 0
    ensures a[i] != 0
    decreases |a| - lo
  {
    if lo < i { NoneEmpty(a, lo + 1, i); }
  }

  lemma {:induction false} AllEmpty(a: Row, lo: nat)
    requires lo <= |a| && forall i | 0 <= i < |a| :: a[i] == 0
    ensures Empty(a, lo) == |a| - lo
    decreases |a| - lo
  {
    if lo < |a| { AllEmpty(a, lo + 1); }
  }

  lemma PlaceNext(a: Row, level: nat, i: nat)
    requires Placed(a, level) && i < |a| && a[i] == 0
    ensures Placed(a[i := level + 1], level + 1)
  {
    EmptyFill(a, i, level + 1, 0);
  }

  lemma FullIsPermutation(a: Row)
    requires Placed(a, |a|)
    ensures Permutation(a)
  {
    forall i | 0 <= i < |a| ensures a[i] != 0 { NoneEmpty(a, 0, i); }
  }

  // ---------- The rows a search visits ----------

  ghost predicate Extends(b: Row, a: Row)
  {
    |b| == |a| && forall i | 0 <= i < |a| && a[i] != 0 :: b[i] == a[i]
  }

  /** The full rows reached from a, in the order of the search. */
  ghost function Reached(a: Row, level: nat): seq<Row>
    requires level <= |a|
    decreases |a| - level, |a| + 1
  {
    if level == |a| then [a] else ReachedFrom(a, level, 0)
  }

  /** Those with the next number at place i or later. */
  ghost function ReachedFrom(a: Row, level: nat, i: nat): seq<Row>
    requires level < |a| && i <= |a|
    decreases |a| - level, |a| - i
  {
    if i == |a| then []
    else (if a[i] == 0 then Reached(a[i := level + 1], level + 1) else []) + ReachedFrom(a, level, i + 1)
  }

  /** Every row reached is a permutation that extends a. */
  lemma {:induction false} ReachedSound(a: Row, level: nat, b: Row)
    requires level <= |a| && Placed(a, level) && b in Reached(a, level)
    ensures Permutation(b) && Extends(b, a)
    decreases |a| - level, |a| + 1
  {
    if level == |a| {
      FullIsPermutation(a);
    } else {
      var i := FromSound(a, level, 0, b);
    }
  }

  lemma {:induction false} FromSound(a: Row, level: nat, i: nat, b: Row) returns (k: nat)
    requires level < |a| && i <= |a| && Placed(a, level) && b in ReachedFrom(a, level, i)
    ensures Permutation(b) && Extends(b, a) && i <= k < |a| && b[k] == level + 1
    decreases |a| - level, |a| - i
  {
    hide Permutation, Placed;
    if a[i] == 0 && b in Reached(a[i := level + 1], level + 1) {
      PlaceNext(a, level, i);
      ReachedSound(a[i := level + 1], level + 1, b);
      assert a[i := level + 1][i] == level + 1;
      forall j | 0 <= j < |a| && a[j] != 0 ensures b[j] == a[j] { assert a[i := level + 1][j] == a[j]; }
      k := i;
    } else {
      k := FromSound(a, level, i + 1, b);
    }
  }

  /** A permutation has every number at some place. */
  lemma Onto(b: Row, v: int) returns (i: nat)
    requires Permutation(b) && 1 <= v <= |b|
    ensures i < |b| && b[i] == v
  {
    if v !in b {
      var more: seq<nat> := seq(|b| + 1, i requires 0 <= i < |b| + 1 => if i < |b| then b[i] - 1 else v - 1);
      Pigeonhole(more, |b|);
      assert false;
    }
    i :| 0 <= i < |b| && b[i] == v;
  }

  /** Every permutation that extends a is reached. */
  lemma {:induction false} ReachedComplete(a: Row, level: nat, b: Row)
    requires level <= |a| && Placed(a, level) && Permutation(b) && Extends(b, a)
    ensures b in Reached(a, level)
    decreases |a| - level
  {
    if level == |a| {
      FullIsPermutation(a);
      assert forall i | 0 <= i < |a| :: b[i] == a[i];
      assert b == a;
    } else {
      hide Permutation;
      var i := Onto(b, level + 1);
      assert a[i] == 0;
      PlaceNext(a, level, i);
      var next := a[i := level + 1];
      assert Extends(b, next);
      ReachedComplete(next, level + 1, b);
      InFrom(a, level, 0, i, b);
    }
  }

  lemma {:induction false} InFrom(a: Row, level: nat, lo: nat, i: nat, b: Row)
    requires level < |a| && lo <= i < |a| && a[i] == 0 && b in Reached(a[i := level + 1], level + 1)
    ensures b in ReachedFrom(a, level, lo)
    decreases i - lo
  {
    if lo < i { InFrom(a, level, lo + 1, i, b); }
  }

  ghost predicate AllDiffer(s: seq<Row>)
  {
    forall i, j | 0 <= i < j < |s| :: s[i] != s[j]
  }

  lemma DifferConcat(s: seq<Row>, t: seq<Row>)
    requires AllDiffer(s) && AllDiffer(t) && forall b | b in s :: b !in t
    ensures AllDiffer(s + t)
  {
    forall i, j | 0 <= i < j < |s + t| ensures (s + t)[i] != (s + t)[j] {
      if i < |s| && j >= |s| { assert s[i] in s && t[j - |s|] in t; }
    }
  }

  /** No row is reached twice. */
  lemma {:induction false} ReachedOnce(a: Row, level: nat)
    requires level <= |a| && Placed(a, level)
    ensures AllDiffer(Reached(a, level))
    decreases |a| - level, |a| + 1
  {
    if level < |a| { FromOnce(a, level, 0); }
  }

  lemma {:induction false} FromOnce(a: Row, level: nat, i: nat)
    requires level < |a| && i <= |a| && Placed(a, level)
    ensures AllDiffer(ReachedFrom(a, level, i))
    decreases |a| - level, |a| - i
  {
    if i < |a| {
      hide Permutation, Placed, AllDiffer, Reached;
      FromOnce(a, level, i + 1);
      var rest := ReachedFrom(a, level, i + 1);
      if a[i] == 0 {
        PlaceNext(a, level, i);
        var next := a[i := level + 1];
        var here := Reached(next, level + 1);
        ReachedOnce(next, level + 1);
        forall b | b in here ensures b !in rest { Elsewhere(a, level, i, b); }
        DifferConcat(here, rest);
      } else {
        assert [] + rest == rest;
      }
    }
  }

  /** A row with the next number at place i is not reached with it at a later place. */
  lemma {:induction false} Elsewhere(a: Row, level: nat, i: nat, b: Row)
    requires level < |a| && i < |a| && Placed(a, level) && a[i] == 0 && b in Reached(a[i := level + 1], level + 1)
    ensures b !in ReachedFrom(a, level, i + 1)
    decreases |a| - level, |a| - i
  {
    hide Permutation, Placed, Reached, ReachedFrom;
    var next := a[i := level + 1];
    PlaceNext(a, level, i);
    ReachedSound(next, level + 1, b);
    assert b[i] == next[i] == level + 1;
    if b in ReachedFrom(a, level, i + 1) {
      var k := FromSound(a, level, i + 1, b);
      TwicePlaced(b, i, k);
    }
  }

  lemma TwicePlaced(b: Row, i: nat, k: nat)
    requires Permutation(b) && i < k < |b|
    ensures b[i] != b[k]
  {
  }

  // ---------- The value of an assignment ----------

  type Weights = seq<seq<int>>

  ghost predicate Grid(w: Weights, n: nat)
  {
    |w| == n && forall i | 0 <= i < n :: |w[i]| == n
  }

  /** Usable pairs among the first t places, and their total weight. */
  function Cardinality(w: Weights, b: Row, t: nat): nat
    requires t <= |b| && Grid(w, |b|) && Permutation(b)
  {
    if t == 0 then 0 else Cardinality(w, b, t - 1) + if 0 < w[t - 1][b[t - 1] - 1] then 1 else 0
  }

  function Weight(w: Weights, b: Row, t: nat): nat
    requires t <= |b| && Grid(w, |b|) && Permutation(b)
  {
    if t == 0 then 0 else Weight(w, b, t - 1) + if 0 < w[t - 1][b[t - 1] - 1] then w[t - 1][b[t - 1] - 1] else 0
  }

  /** Lexicographic order on cardinality, then weight. */
  predicate AtMost(c1: int, w1: int, c2: int, w2: int)
  {
    c1 < c2 || (c1 == c2 && w1 <= w2)
  }

  /** b does not beat the value (c, x). */
  ghost predicate Beaten(w: Weights, b: Row, c: int, x: int)
  {
    Grid(w, |b|) && Permutation(b) && AtMost(Cardinality(w, b, |b|), Weight(w, b, |b|), c, x)
  }

  /** An assignment counted from 0, as a row. */
  function RowOf(best: seq<int>): Row
  {
    seq(|best|, i requires 0 <= i < |best| => best[i] + 1)
  }

  ghost predicate HasValue(w: Weights, best: seq<int>, c: int, x: int)
  {
    var b := RowOf(best);
    Grid(w, |b|) && Permutation(b) && c == Cardinality(w, b, |b|) && x == Weight(w, b, |b|)
  }

  /** The record is the value of the best assignment, and no row seen beats it. */
  ghost predicate Recorded(w: Weights, seen: seq<Row>, best: seq<int>, c: int, x: int)
  {
    && (forall i | 0 <= i < |seen| :: Beaten(w, seen[i], c, x))
    && (if seen == [] then c == -1 && x == -1
        else |best| == |w| && HasValue(w, best, c, x) && exists t: nat :: FirstAt(w, seen, best, c, x, t))
  }

  /** The best assignment is the row seen at t, and those seen before it are worth less. */
  ghost predicate FirstAt(w: Weights, seen: seq<Row>, best: seq<int>, c: int, x: int, t: nat)
  {
    && t < |seen| && RowOf(best) == seen[t]
    && forall i: nat | i < t :: Grid(w, |seen[i]|) && Permutation(seen[i]) && WorthLess(w, seen[i], c, x)
  }

  ghost predicate WorthLess(w: Weights, b: Row, c: int, x: int)
    requires Grid(w, |b|) && Permutation(b)
  {
    !AtMost(c, x, Cardinality(w, b, |b|), Weight(w, b, |b|))
  }

  /** One more row: it takes the record exactly when it is worth more. */
  lemma RecordMore(w: Weights, seen: seq<Row>, best: seq<int>, c: int, x: int, b: Row, best2: seq<int>, c2: int,
                   x2: int)
    requires Recorded(w, seen, best, c, x) && |b| == |w| && Grid(w, |b|) && Permutation(b)
    requires var c1, x1 := Cardinality(w, b, |b|), Weight(w, b, |b|);
             if AtMost(c1, x1, c, x) then best2 == best && c2 == c && x2 == x
             else RowOf(best2) == b && |best2| == |b| && c2 == c1 && x2 == x1
    ensures Recorded(w, seen + [b], best2, c2, x2)
  {
    hide Cardinality, Weight, Permutation, Grid;
    var more := seen + [b];
    var c1, x1 := Cardinality(w, b, |b|), Weight(w, b, |b|);
    if AtMost(c1, x1, c, x) {
      assert seen != [];
      var t: nat :| FirstAt(w, seen, best, c, x, t);
      assert FirstAt(w, more, best2, c2, x2, t);
      forall i | 0 <= i < |more| ensures Beaten(w, more[i], c2, x2) { assert i < |seen| ==> Beaten(w, seen[i], c, x); }
    } else {
      forall i: nat | i < |more| ensures Beaten(w, more[i], c2, x2) { assert i < |seen| ==> Beaten(w, seen[i], c, x); }
      forall i: nat | i < |seen|
        ensures Grid(w, |more[i]|) && Permutation(more[i]) && WorthLess(w, more[i], c2, x2)
      {
        assert Beaten(w, seen[i], c, x);
      }
      assert FirstAt(w, more, best2, c2, x2, |seen|);
    }
  }

  /** The search state: the row being filled and the best assignment found. */
  class Search {
    const w: Weights
    const n: nat
    var a: Row
    var maxCardinality: int
    var maxWeight: int
    var best: seq<int>
    ghost var seen: seq<Row>   // the rows evaluated, in order

    constructor (w: Weights)
      requires Grid(w, |w|)
      ensures Recorded(this.w, seen, best, maxCardinality, maxWeight) && seen == [] && this.w == w && n == |w|
          && a == seq(n, _ => 0)
    {
      this.w, n := w, |w|;
      a, maxCardinality, maxWeight, best, seen := seq(|w|, _ => 0), -1, -1, [], [];
    }

    /** `evaluate_assignment`. */
    method EvaluateAssignment()
      requires |a| == n == |w| && Grid(w, n) && Permutation(a) && Recorded(w, seen, best, maxCardinality, maxWeight)
      modifies this`maxCardinality, this`maxWeight, this`best, this`seen
      ensures Recorded(w, seen, best, maxCardinality, maxWeight) && seen == old(seen) + [a]
    {
      var weight, cardinality := 0, 0;
      for i := 0 to n
        invariant cardinality == Cardinality(w, a, i) && weight == Weight(w, a, i)
      {
        if 0 < w[i][a[i] - 1] {
          cardinality := cardinality + 1;
          weight := weight + w[i][a[i] - 1];
        }
      }
      if cardinality > maxCardinality || (cardinality == maxCardinality && weight > maxWeight) {
        var found := [];
        for i := 0 to n
          invariant |found| == i && forall j | 0 <= j < i :: found[j] == a[j] - 1
        {
          found := found + [a[i] - 1];
        }
        best := found;
        assert RowOf(found) == a;
        maxWeight := weight;
        maxCardinality := cardinality;
      }
      ghost var before := seen;
      seen := seen + [a];
      RecordMore(w, before, old(best), old(maxCardinality), old(maxWeight), a, best, maxCardinality, maxWeight);
    }

    /** `visit`: evaluates, in order, every row reached from here, and leaves the row as it was. */
    method Visit(k: nat, level: int)
      requires |a| == n == |w| && Grid(w, n) && k < n && a[k] == 0 && Recorded(w, seen, best, maxCardinality, maxWeight)
          && -1 <= level < n
      requires Placed(a[k := level + 1], level + 1)
      modifies this`a, this`maxCardinality, this`maxWeight, this`best, this`seen
      ensures a == old(a) && Recorded(w, seen, best, maxCardinality, maxWeight)
          && seen == old(seen) + Reached(old(a)[k := level + 1], level + 1)
      decreases n - level
    {
      hide Recorded, Permutation, Placed;
      var next := level + 1;
      a := a[k := next];
      ghost var row, before := a, seen;
      if next == n {
        FullIsPermutation(a);
        EvaluateAssignment();
      } else {
        assert seen == before + [];
        ghost var done := [];
        for i := 0 to n
          invariant a == row && Recorded(w, seen, best, maxCardinality, maxWeight) && seen == before + done
              && done + ReachedFrom(row, next, i) == ReachedFrom(row, next, 0)
        {
          ghost var rest := ReachedFrom(row, next, i + 1);
          if a[i] == 0 {
            PlaceNext(a, next, i);
            ghost var here := Reached(row[i := next + 1], next + 1);
            Visit(i, next);
            assert done + (here + rest) == done + here + rest;
            done := done + here;
          } else {
            assert [] + rest == rest;
          }
        }
        assert done + [] == done;
      }
      a := a[k := 0];
    }
  }

  /** The exhaustive search: every permutation is evaluated exactly once, the row is empty again, and the assignment
      found is lexicographically greatest in cardinality and weight among all permutations, and the first visited of
      those. */
  method BestAssignment(w: Weights) returns (s: Search)
    requires Grid(w, |w|) && |w| > 0
    ensures s.w == w && s.n == |w| && s.a == seq(|w|, _ => 0) && |s.best| == |w|
        && HasValue(w, s.best, s.maxCardinality, s.maxWeight)
    ensures AllDiffer(s.seen) && forall b | |b| == |w| :: b in s.seen <==> Permutation(b)
    ensures forall b | |b| == |w| && Permutation(b) :: Beaten(w, b, s.maxCardinality, s.maxWeight)
    ensures s.seen == Reached(seq(|w|, _ => 0), 0)
    ensures exists t: nat :: FirstAt(w, s.seen, s.best, s.maxCardinality, s.maxWeight, t)
  {
    s := new Search(w);
    var zero := seq(|w|, _ => 0);
    AllEmpty(zero, 0);
    assert zero[0 := 0] == zero;
    s.Visit(0, -1);
    assert s.seen == Reached(zero, 0);
    ReachedOnce(zero, 0);
    forall b | |b| == |w| ensures b in s.seen <==> Permutation(b) {
      if Permutation(b) { ReachedComplete(zero, 0, b); }
      if b in s.seen { ReachedSound(zero, 0, b); }
    }
    var first := Identity(|w|);
    assert first in s.seen;
    forall b | |b| == |w| && Permutation(b) ensures Beaten(w, b, s.maxCardinality, s.maxWeight) {
      assert b in s.seen;
    }
  }

  function Identity(n: nat): (b: Row)
    ensures |b| == n && Permutation(b)
  {
    seq(n, i => i + 1)
  }
}
