/** Grouping the nodes of one level of the process tree: small levels by greedy passes
    over all groups, large ones by buckets, by a bounded search or by partitioning. */
module NodeGrouping {
  import opened PartitionWeights
  import opened Arithmetic
  import opened GroupEnumeration
  import opened GroupSelection
  import opened GroupValues
  import opened FewGroups
  import opened BoundedSearch
  import opened Wrappers
  import BucketGrouping
  import PivotSampling
  import GreedyPartition

  // ---------- Partitioning ----------

  /** Group p holds exactly the first t nodes of block p, in increasing order. */
  ghost predicate Gathered(part: seq<int>, g: Group, p: int, t: nat)
    requires t <= |part|
  {
    && |g| == Count(part, p, t) && (forall i | 0 <= i < |g| :: g[i] < t && part[g[i]] == p)
    && forall i, j | 0 <= i < j < |g| :: g[i] < g[j]
  }

  /** The groups are the blocks of the best of ten greedy trials. */
  ghost predicate ByPartition(mat: Matrix, k: nat, m: nat, gs: seq<Group>)
    requires Square(mat, |mat|)
  {
    exists part, trials :: PartitionedBy(mat, k, m, gs, part, trials)
  }

  ghost predicate PartitionedBy(mat: Matrix, k: nat, m: nat, gs: seq<Group>, part: seq<int>, trials: seq<seq<int>>)
    requires Square(mat, |mat|)
  {
    && |part| == |mat| && |gs| == m && GreedyPartition.Chosen(part, trials, m, k, [], mat)
    && forall p: nat | p < m :: Gathered(part, gs[p], p, |mat|)
  }

  /** `k_partition_grouping`: the blocks of a balanced partition are the groups. */
  method PartitionGrouping(mat: Matrix, k: nat, m: nat) returns (gs: seq<Group>)
    requires Square(mat, |mat|) && NonNegative(mat, |mat|) && |mat| == m * k && 0 < m && 0 < k
    ensures Covering(gs, |mat|, k, m) && ByPartition(mat, k, m, gs)
  {
    hide GreedyPartition.Chosen;
    var n := |mat|;
    DivUnique(n, m, k, 0);
    assert m <= n by { TimesWithin(0, k, m); }
    ghost var trials;
    var res;
    res, trials := GreedyPartition.KPartition(m, mat, n, []);
    var part := res.value;
    assert |part| == n;
    gs := seq(m, _ => []);
    for v := 0 to n
      invariant |gs| == m && forall p: nat | p < m :: Gathered(part, gs[p], p, v)
    {
      var p := part[v];
      gs := gs[p := gs[p] + [v]];
    }
    forall p: nat | p < m ensures GroupOk(gs[p], n, 0, k) { assert Gathered(part, gs[p], p, n); }
    forall p: nat, q: nat | p < q < m ensures Disjoint(gs[q], gs[p]) {
      assert Gathered(part, gs[p], p, n) && Gathered(part, gs[q], q, n);
    }
    assert PartitionedBy(mat, k, m, gs, part, trials);
  }

  // ---------- Buckets ----------

  /** The groups are the pairs that come first, one after the other, when all pairs are sorted by weight. */
  ghost predicate ByWeight(mat: Matrix, m: nat, gs: seq<Group>)
    requires Square(mat, |mat|)
  {
    exists pairs: seq<BucketGrouping.Coord> :: |pairs| == |gs| == m && BucketGrouping.Foremost(mat, pairs)
      && forall i | 0 <= i < m :: gs[i] == [pairs[i].i, pairs[i].j]
  }

  /** `tm_bucket_grouping` at arity two: `None` when the sample that gives the pivots is read outside its bounds. */
  method PairGrouping(mat: Matrix, m: nat) returns (res: Option<seq<Group>>)
    requires Square(mat, |mat|) && NonNegative(mat, |mat|) && |mat| == 2 * m && |mat| > 2
    ensures res.Some? <==> |mat| < PivotSampling.SAMPLED
    ensures res.Some? ==> Covering(res.value, |mat|, 2, m) && ByWeight(mat, m, res.value)
  {
    hide BucketGrouping.Foremost;
    ghost var drawn;
    var pivot;
    pivot, drawn := PivotSampling.PartialSort(mat);
    if pivot.None? { return None; }
    var pairs, parent := BucketGrouping.GroupByBuckets(mat, m, pivot.value, PivotSampling.Depth(|mat|));
    res := Some(seq(m, i requires 0 <= i < m => [pairs[i].i, pairs[i].j]));
  }

  const FEW := 30000

  /** The levels on which grouping fails: at arity one more than 30000 nodes reach the branch that accepts only pairs,
      and the program exits; at arity two the pivots of 32768 nodes or more are looked for outside the sample. */
  predicate TooLarge(n: nat, k: nat)
  {
    (k == 1 && n > FEW) || (k == 2 && n >= PivotSampling.SAMPLED)
  }

  /** How a level is grouped: with few possible groups by passes over all of them, otherwise by the arity. */
  ghost predicate WellGrouped(mat: Matrix, k: nat, m: nat, gs: seq<Group>)
    requires Square(mat, |mat|) && 0 < m
  {
    if Binomial(m * k, k) <= FEW then ByPasses(mat, k, m, gs)
    else if k <= 2 then ByWeight(mat, m, gs)
    else if k <= 5 then BySearch(mat, k, m, Limit(Binomial(m * k, k), m), gs)
    else ByPartition(mat, k, m, gs)
  }

  /** `group_nodes` without object weights: every level is covered unless it is too large. */
  method GroupNodes(mat: Matrix, sumRow: seq<real>, k: nat, m: nat) returns (res: Option<seq<Group>>)
    requires Square(mat, |mat|) && RowSums(mat, sumRow) && NonNegative(mat, |mat|) && |mat| == m * k && 0 < m && 0 < k
    ensures res.None? <==> TooLarge(|mat|, k)
    ensures res.Some? ==> Covering(res.value, |mat|, k, m) && WellGrouped(mat, k, m, res.value)
  {
    hide Covering, Square, RowSums, NonNegative, Binomial, ByPasses, ByWeight, BySearch, ByPartition, Limit;
    assert k <= m * k by { TimesWithin(0, m, k); }
    var nbg := Choose(m * k, k);
    OneEach(m * k);
    TwoEach(m * k);
    if m * k >= PivotSampling.SAMPLED { ManyPairs(m * k); }
    if nbg > FEW as real {
      if k <= 2 {
        if k == 1 { return None; }
        res := PairGrouping(mat, m);
      } else if k <= 5 {
        var gs := FastGrouping(mat, sumRow, k, m, Limit(nbg.Floor, m));
        res := Some(gs);
      } else {
        var gs := PartitionGrouping(mat, k, m);
        res := Some(gs);
      }
    } else {
      var gs := GroupFew(mat, sumRow, k, m, nbg.Floor);
      res := Some(gs);
    }
  }

  lemma {:induction false} TwoEach(n: nat)
    ensures Binomial(n, 2) == n * (n - 1) / 2
  {
    if n > 1 {
      TwoEach(n - 1);
      OneEach(n - 1);
      assert (n - 1) * (n - 2) == (n - 1) * n - 2 * (n - 1);
    }
  }

  /** A level beyond the limit of the sampling has many pairs. */
  lemma ManyPairs(n: nat)
    requires n >= PivotSampling.SAMPLED
    ensures n * (n - 1) / 2 > FEW
  {
    MulMonotone(32768, n, n - 1);
  }

  lemma {:induction false} OneEach(n: nat)
    ensures Binomial(n, 1) == n
  {
    if n > 0 { OneEach(n - 1); }
  }
}
