/** Sums over a communication matrix that a k-way partition splits: what a vertex
    sends into each block, what crosses blocks, and how many vertices a block holds. */
module PartitionWeights {

  type Matrix = seq<seq<real>>

  predicate Square(m: Matrix, n: nat)
  {
    |m| == n && forall i | 0 <= i < n :: |m[i]| == n
  }

  predicate Symmetric(m: Matrix, n: nat)
    requires Square(m, n)
  {
    forall i, j | 0 <= i < n && 0 <= j < n :: m[i][j] == m[j][i]
  }

  predicate NonNegative(m: Matrix, n: nat)
    requires Square(m, n)
  {
    forall i, j | 0 <= i < n && 0 <= j < n :: m[i][j] >= 0.0
  }

  /** Weight from v into block p, counting the first t vertices. */
  function Weight(m: Matrix, part: seq<int>, v: nat, p: int, t: nat): real
    requires v < |m| && t <= |m[v]| && t <= |part|
  {
    if t == 0 then 0.0
    else Weight(m, part, v, p, t - 1) + if part[t - 1] == p then m[v][t - 1] else 0.0
  }

  /** Weight between v and the first t vertices outside block p. */
  function Outside(m: Matrix, part: seq<int>, v: nat, p: int, t: nat): real
    requires v < |m| && t <= |m[v]| && t <= |part|
  {
    if t == 0 then 0.0
    else Outside(m, part, v, p, t - 1) + if part[t - 1] != p then m[v][t - 1] else 0.0
  }

  /** Weight of the pairs among the first t vertices that lie in different blocks. */
  function Cut(m: Matrix, part: seq<int>, t: nat): real
    requires t <= |m| && t <= |part| && forall i | 0 <= i < t :: |m[i]| >= t
  {
    if t == 0 then 0.0
    else Cut(m, part, t - 1) + Outside(m, part, t - 1, part[t - 1], t - 1)
  }

  function Count(part: seq<int>, p: int, t: nat): nat
    requires t <= |part|
  {
    if t == 0 then 0 else Count(part, p, t - 1) + if part[t - 1] == p then 1 else 0
  }

  function If(c: bool, x: real): real { if c then x else 0.0 }

  lemma {:induction false} WeightNonNegative(m: Matrix, part: seq<int>, v: nat, p: int, t: nat)
    requires v < |m| && t <= |m[v]| && t <= |part| && forall i | 0 <= i < t :: m[v][i] >= 0.0
    ensures Weight(m, part, v, p, t) >= 0.0
  {
    if t > 0 { WeightNonNegative(m, part, v, p, t - 1); }
  }

  /** Moving u from block i to block j shifts exactly the weight between v and u. */
  lemma {:induction false} WeightMove(m: Matrix, part: seq<int>, v: nat, p: int, t: nat, u: nat, j: int)
    requires v < |m| && t <= |m[v]| && t <= |part| && u < |part| && u < |m[v]|
    ensures Weight(m, part[u := j], v, p, t)
         == Weight(m, part, v, p, t) + If(u < t && p == j, m[v][u]) - If(u < t && p == part[u], m[v][u])
  {
    if t > 0 { WeightMove(m, part, v, p, t - 1, u, j); }
  }

  lemma {:induction false} CountMove(part: seq<int>, p: int, t: nat, u: nat, j: int)
    requires t <= |part| && u < |part|
    ensures Count(part[u := j], p, t)
         == Count(part, p, t) + (if u < t && p == j then 1 else 0) - (if u < t && p == part[u] then 1 else 0)
  {
    if t > 0 { CountMove(part, p, t - 1, u, j); }
  }

  lemma {:induction false} CountPositive(part: seq<int>, p: int, t: nat, u: nat)
    requires u < t <= |part| && part[u] == p
    ensures Count(part, p, t) > 0
  {
    if u < t - 1 { CountPositive(part, p, t - 1, u); }
  }

  lemma {:induction false} CountWitness(part: seq<int>, p: int, t: nat) returns (u: nat)
    requires t <= |part| && Count(part, p, t) > 0
    ensures u < t && part[u] == p
  {
    if part[t - 1] == p { u := t - 1; } else { u := CountWitness(part, p, t - 1); }
  }

  lemma {:induction false} TwoWitnesses(part: seq<int>, p: int, t: nat) returns (u: nat, v: nat)
    requires t <= |part| && Count(part, p, t) >= 2
    ensures u < v < t && part[u] == p == part[v]
  {
    if part[t - 1] == p {
      v := t - 1;
      u := CountWitness(part, p, t - 1);
    } else {
      u, v := TwoWitnesses(part, p, t - 1);
    }
  }

  /** Inside plus outside is everything, whatever the block. */
  lemma {:induction false} OutsideWeight(m: Matrix, part: seq<int>, v: nat, p: int, q: int, t: nat)
    requires v < |m| && t <= |m[v]| && t <= |part|
    ensures Outside(m, part, v, p, t) + Weight(m, part, v, p, t) == Outside(m, part, v, q, t) + Weight(m, part, v, q, t)
  {
    if t > 0 { OutsideWeight(m, part, v, p, q, t - 1); }
  }

  lemma {:induction false} OutsideMove(m: Matrix, part: seq<int>, v: nat, p: int, t: nat, u: nat, j: int)
    requires v < |m| && t <= |m[v]| && t <= |part| && u < |part| && u < |m[v]|
    ensures Outside(m, part[u := j], v, p, t)
         == Outside(m, part, v, p, t) + If(u < t && p != j, m[v][u]) - If(u < t && p != part[u], m[v][u])
  {
    if t > 0 { OutsideMove(m, part, v, p, t - 1, u, j); }
  }

  /** Moving u to block j lowers the cut by its gain and by its own diagonal weight. */
  lemma {:induction false} CutMove(m: Matrix, part: seq<int>, t: nat, u: nat, j: int)
    requires Square(m, |part|) && Symmetric(m, |part|) && u < t <= |part| && j != part[u]
    ensures Cut(m, part[u := j], t)
         == Cut(m, part, t) - (Weight(m, part, u, j, t) - (Weight(m, part, u, part[u], t) - m[u][u]))
  {
    var w := t - 1;
    if u == w {
      CutAgree(m, part, w, u, j);
      OutsideMove(m, part, u, j, w, u, j);
      OutsideWeight(m, part, u, j, part[u], w);
    } else {
      CutMove(m, part, w, u, j);
      OutsideMove(m, part, w, part[w], w, u, j);
      assert m[w][u] == m[u][w];
    }
  }

  lemma {:induction false} CutAgree(m: Matrix, part: seq<int>, t: nat, u: nat, j: int)
    requires Square(m, |part|) && t <= u < |part|
    ensures Cut(m, part[u := j], t) == Cut(m, part, t)
  {
    if t > 0 {
      CutAgree(m, part, t - 1, u, j);
      OutsideMove(m, part, t - 1, part[t - 1], t - 1, u, j);
    }
  }

  // ---------- Counting blocks ----------

  /** Number of the first t vertices that lie in blocks 0..k-1. */
  function Placed(part: seq<int>, k: nat, t: nat): nat
    requires t <= |part|
  {
    if k == 0 then 0 else Placed(part, k - 1, t) + Count(part, k - 1, t)
  }

  ghost predicate Blocks(part: seq<int>, k: nat)
  {
    forall v | 0 <= v < |part| :: -1 <= part[v] < k
  }

  lemma {:induction false} PlacedStep(part: seq<int>, k: nat, t: nat)
    requires 0 < t <= |part|
    ensures Placed(part, k, t) == Placed(part, k, t - 1) + if 0 <= part[t - 1] < k then 1 else 0
  {
    if k > 0 { PlacedStep(part, k - 1, t); }
  }

  /** Every vertex is in exactly one block or in none. */
  lemma {:induction false} PlacedOrNot(part: seq<int>, k: nat, t: nat)
    requires t <= |part| && Blocks(part, k)
    ensures Placed(part, k, t) + Count(part, -1, t) == t
  {
    if t == 0 {
      PlacedNone(part, k);
    } else {
      PlacedOrNot(part, k, t - 1);
      PlacedStep(part, k, t);
    }
  }

  lemma {:induction false} PlacedNone(part: seq<int>, k: nat)
    ensures Placed(part, k, 0) == 0
  {
    if k > 0 { PlacedNone(part, k - 1); }
  }

  ghost predicate AtMost(part: seq<int>, k: nat, cap: nat)
  {
    forall p | 0 <= p < k :: Count(part, p, |part|) <= cap
  }

  lemma {:induction false} PlacedBound(part: seq<int>, k: nat, cap: nat)
    requires AtMost(part, k, cap)
    ensures Placed(part, k, |part|) <= k * cap
  {
    if k > 0 {
      PlacedBound(part, k - 1, cap);
      assert (k - 1) * cap + cap == k * cap;
    }
  }

  lemma {:induction false} PlacedFull(part: seq<int>, k: nat, cap: nat)
    requires forall p | 0 <= p < k :: Count(part, p, |part|) >= cap
    ensures Placed(part, k, |part|) >= k * cap
  {
    if k > 0 {
      PlacedFull(part, k - 1, cap);
      assert (k - 1) * cap + cap == k * cap;
    }
  }

  /** While a vertex is unplaced, some block has room. */
  lemma RoomLeft(part: seq<int>, k: nat, cap: nat) returns (p: nat)
    requires Blocks(part, k) && |part| == k * cap && Count(part, -1, |part|) > 0
    ensures p < k && Count(part, p, |part|) < cap
  {
    PlacedOrNot(part, k, |part|);
    if forall q | 0 <= q < k :: Count(part, q, |part|) >= cap {
      PlacedFull(part, k, cap);
      assert false;
    }
    p :| p < k && Count(part, p, |part|) < cap;
  }

  /** Once no vertex is unplaced and no block is over capacity, every block is exactly full. */
  lemma {:induction false} AllFull(part: seq<int>, k: nat, cap: nat, p: nat)
    requires Blocks(part, k) && |part| == k * cap && Count(part, -1, |part|) == 0
    requires AtMost(part, k, cap) && p < k
    ensures Count(part, p, |part|) == cap
  {
    PlacedOrNot(part, k, |part|);
    FullBelow(part, k, cap, p);
  }

  lemma {:induction false} FullBelow(part: seq<int>, k: nat, cap: nat, p: nat)
    requires AtMost(part, k, cap) && Placed(part, k, |part|) == k * cap && p < k
    ensures Count(part, p, |part|) == cap
  {
    PlacedBound(part, k - 1, cap);
    assert (k - 1) * cap + cap == k * cap;
    if p < k - 1 { FullBelow(part, k - 1, cap, p); }
  }

  lemma {:induction false} CountZero(part: seq<int>, p: int, t: nat)
    requires t <= |part| && forall v | 0 <= v < t :: part[v] != p
    ensures Count(part, p, t) == 0
  {
    if t > 0 { CountZero(part, p, t - 1); }
  }

  // ---------- Block sizes kept in a table ----------

  ghost predicate SizeAt(part: seq<int>, size: seq<nat>, p: nat, cap: nat)
    requires p < |size|
  {
    size[p] == Count(part, p, |part|) <= cap
  }

  /** `size` counts the blocks of `part`, and none is over capacity. */
  ghost predicate SizesOk(part: seq<int>, size: seq<nat>, k: nat, cap: nat)
  {
    && |size| == k && Blocks(part, k)
    && forall p: nat | p < k :: SizeAt(part, size, p, cap)
  }

  /** Placing an unplaced vertex in a block with room keeps the table right. */
  lemma PlaceOne(part: seq<int>, size: seq<nat>, k: nat, cap: nat, v: nat, b: nat)
    requires SizesOk(part, size, k, cap) && v < |part| && b < k && part[v] == -1 && size[b] < cap
    ensures SizesOk(part[v := b], size[b := size[b] + 1], k, cap)
  {
    var part2, size2 := part[v := b], size[b := size[b] + 1];
    forall p: nat | p < k ensures SizeAt(part2, size2, p, cap) {
      assert SizeAt(part, size, p, cap);
      CountMove(part, p, |part|, v, b);
    }
  }

  lemma CountConcat(a: seq<int>, b: seq<int>, p: int)
    ensures Count(a + b, p, |a + b|) == Count(a, p, |a|) + Count(b, p, |b|)
  {
    CountPrefix(a, b, p, |a|);
    CountSuffix(a, b, p, |b|);
  }

  lemma {:induction false} CountPrefix(a: seq<int>, b: seq<int>, p: int, t: nat)
    requires t <= |a|
    ensures Count(a + b, p, t) == Count(a, p, t)
  {
    if t > 0 { CountPrefix(a, b, p, t - 1); }
  }

  lemma {:induction false} CountSuffix(a: seq<int>, b: seq<int>, p: int, t: nat)
    requires t <= |b|
    ensures Count(a + b, p, |a| + t) == Count(a, p, |a|) + Count(b, p, t)
  {
    if t == 0 { CountPrefix(a, b, p, |a|); } else { CountSuffix(a, b, p, t - 1); }
  }

  /** How often x occurs in s. */
  function Occ(s: seq<int>, x: int): nat
  {
    Count(s, x, |s|)
  }

  lemma OccConcat(a: seq<int>, b: seq<int>, x: int)
    ensures Occ(a + b, x) == Occ(a, x) + Occ(b, x)
  {
    CountConcat(a, b, x);
  }

  lemma OccAppend(s: seq<int>, y: int, x: int)
    ensures Occ(s + [y], x) == Occ(s, x) + if y == x then 1 else 0
  {
    CountConcat(s, [y], x);
    assert Count([y], x, 1) == Count([y], x, 0) + if y == x then 1 else 0;
  }
}
