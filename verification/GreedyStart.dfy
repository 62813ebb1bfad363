/** The k-way partitioner from end to end: the greedy choice of its initial partition,
    the refinement of the unconstrained vertices, and what both keep. */
module GreedyStart {
  import opened PartitionWeights
  import opened GreedyPartition
  import K = KPartition

  /** A balanced partition in which the constrained vertices, the last ones, are in the blocks of their constraints. */
  ghost predicate Balanced(part: seq<int>, k: nat, cap: nat, constraints: seq<int>)
    requires cap > 0
  {
    && |part| == k * cap && |constraints| <= |part|
    && (forall v | 0 <= v < |part| :: 0 <= part[v] < k)
    && (forall p | 0 <= p < k :: Count(part, p, |part|) == cap)
    && forall i | 0 <= i < |constraints| :: part[|part| - |constraints| + i] == K.BlockOf(constraints[i], cap)
  }

  /** A block that has more vertices than before has one that was not placed. */
  lemma {:induction false} NewMember(before: seq<int>, after: seq<int>, p: int, t: nat) returns (v: nat)
    requires KeepsPlaced(before, after) && t <= |before| && Count(after, p, t) > Count(before, p, t)
    ensures v < t && after[v] == p && before[v] == -1
  {
    var last := t - 1;
    if after[last] == p && before[last] == -1 { v := last; } else { v := NewMember(before, after, p, last); }
  }

  /** After the seeds every block with room holds one of the vertices that were free. */
  lemma SeedsAreFree(before: seq<int>, counts: seq<nat>, after: seq<int>, size: seq<nat>, k: nat, cap: nat, free: nat)
    requires SizesOk(before, counts, k, cap) && SizesOk(after, size, k, cap) && KeepsPlaced(before, after)
    requires forall v | 0 <= v < |before| :: before[v] == -1 ==> v < free
    requires forall p | 0 <= p < k :: size[p] == if counts[p] < cap then counts[p] + 1 else counts[p]
    ensures Rooted(after, size, cap, free)
  {
    forall p: nat | p < |size| && size[p] < cap ensures exists v :: Member(after, free, p, v) {
      assert SizeAt(before, counts, p, cap) && SizeAt(after, size, p, cap);
      var v := NewMember(before, after, p, |before|);
      assert Member(after, free, p, v);
    }
  }

  lemma FixedSizes(part: seq<int>, size: seq<nat>, k: nat, cap: nat, free: nat)
    requires |size| == k && forall v | 0 <= v < |part| :: if v < free then part[v] == -1 else 0 <= part[v] < k
    requires forall p | 0 <= p < k :: size[p] == Count(part, p, |part|) <= cap
    ensures SizesOk(part, size, k, cap)
  {
  }

  /** The start of a trial: the constrained vertices in their blocks, and one more vertex in every block with room. */
  ghost predicate SeededFixed(seeded: seq<int>, k: nat, cap: nat, constraints: seq<int>)
    requires cap > 0 && |constraints| <= |seeded|
  {
    && Blocks(seeded, k)
    && (forall i | 0 <= i < |constraints| :: seeded[|seeded| - |constraints| + i] == K.BlockOf(constraints[i], cap))
    && forall p: nat | p < k :: Count(seeded, p, |seeded|) == FixedSeedCount(constraints, k, p, cap)
  }

  ghost function FixedSeedCount(constraints: seq<int>, k: nat, p: nat, cap: nat): int
    requires cap > 0 && p < k
  {
    var c := K.FixedCounts(constraints, k, cap)[p];
    if c < cap then c + 1 else c
  }

  /** What a trial may give. */
  ghost predicate TrialFixed(seeded: seq<int>, part: seq<int>, k: nat, cap: nat, constraints: seq<int>, comm: Matrix)
    requires cap > 0 && Square(comm, |comm|)
  {
    && Balanced(part, k, cap, constraints) && |seeded| == |part| && SeededFixed(seeded, k, cap, constraints)
    && KeepsPlaced(seeded, part)
    && forall v: nat | v < |part| && seeded[v] == -1 :: exists at :: Joined(seeded, part, k, cap, |comm|, comm, v, at)
  }

  lemma SeededIs(before: seq<int>, counts: seq<nat>, seeded: seq<int>, size: seq<nat>, k: nat, cap: nat, cs: seq<int>)
    requires cap > 0 && SizesOk(before, counts, k, cap) && SizesOk(seeded, size, k, cap) && KeepsPlaced(before, seeded)
    requires |cs| <= |before| && counts == K.FixedCounts(cs, k, cap)
    requires forall p | 0 <= p < k :: size[p] == if counts[p] < cap then counts[p] + 1 else counts[p]
    requires forall i | 0 <= i < |cs| :: before[|before| - |cs| + i] == K.BlockOf(cs[i], cap)
    requires forall v | |before| - |cs| <= v < |before| :: before[v] != -1
    ensures SeededFixed(seeded, k, cap, cs)
  {
    forall i | 0 <= i < |cs| ensures seeded[|seeded| - |cs| + i] == K.BlockOf(cs[i], cap) {
      assert before[|before| - |cs| + i] == K.BlockOf(cs[i], cap);
    }
    forall p: nat | p < k ensures Count(seeded, p, |seeded|) == FixedSeedCount(cs, k, p, cap) {
      assert SizeAt(seeded, size, p, cap);
    }
  }

  /** One trial of `kpartition_greedy2`: constrained vertices first, then a seed for every block with room, then every
      other vertex joins the block that attracts it most among those of the unconstrained vertices. */
  method GreedyTrial2(comm: Matrix, k: nat, cap: nat, constraints: seq<int>)
    returns (part: seq<int>, ghost seeded: seq<int>)
    requires k > 0 && cap > 0 && K.Fits(constraints, k, cap) && |comm| == k * cap - |constraints|
    requires Square(comm, |comm|) && NonNegative(comm, |comm|)
    ensures Balanced(part, k, cap, constraints)
    ensures TrialFixed(seeded, part, k, cap, constraints, comm)
  {
    hide SizesOk, Square, NonNegative, Rooted, Joined;
    var size;
    part, size := K.FixConstraints(k, cap, constraints);
    ghost var start, counts := part, size;
    FixedSizes(part, size, k, cap, |comm|);
    part, size := Seed(part, size, k, cap);
    SeedsAreFree(start, counts, part, size, k, cap, |comm|);
    seeded := part;
    SeededIs(start, counts, part, size, k, cap, constraints);
    part := Attract(part, size, k, cap, comm, |comm|);
  }

  ghost predicate TriedFixed(part: seq<int>, k: nat, cap: nat, constraints: seq<int>, comm: Matrix)
    requires cap > 0 && Square(comm, |comm|)
  {
    exists seeded :: TrialFixed(seeded, part, k, cap, constraints, comm)
  }

  /** `kpartition_greedy2`: the first of the cheapest trials. */
  method KPartitionGreedy2(comm: Matrix, k: nat, cap: nat, trials: nat, constraints: seq<int>)
    returns (best: seq<int>, ghost tried: seq<seq<int>>)
    requires trials > 0 && k > 0 && cap > 0 && K.Fits(constraints, k, cap) && |comm| == k * cap - |constraints|
    requires Square(comm, |comm|) && NonNegative(comm, |comm|)
    ensures Balanced(best, k, cap, constraints) && |tried| == trials && Cheapest(best, tried, comm)
    ensures forall t | 0 <= t < trials :: TriedFixed(tried[t], k, cap, constraints, comm)
  {
    hide Balanced, NonNegative, PairCut, TrialFixed, TriedFixed, FirstBest;
    best, tried := [], [];
    var bestCost := -1.0;
    ghost var at: nat := 0;
    for trial := 0 to trials
      invariant |tried| == trial && (trial == 0 <==> bestCost == -1.0)
      invariant forall t | 0 <= t < |tried| :: |tried[t]| == k * cap && TriedFixed(tried[t], k, cap, constraints, comm)
      invariant trial > 0 ==> Balanced(best, k, cap, constraints) && |best| == k * cap
      invariant trial > 0 ==> at < |tried| && best == tried[at] && FirstBest(tried, comm, at)
      invariant trial > 0 ==> bestCost == PairCut(comm, best, |comm|) >= 0.0
    {
      ghost var seeded;
      var part;
      part, seeded := GreedyTrial2(comm, k, cap, constraints);
      TrialBalanced(seeded, part, k, cap, constraints, comm);
      var cost := EvalCost(part, comm);
      PairCutNonNegative(comm, part, |comm|);
      BestOf(tried, part, comm, at, trial > 0);
      tried := tried + [part];
      if cost < bestCost || bestCost == -1.0 {
        bestCost := cost;
        best := part;
        at := trial;
      }
    }
  }

  lemma TrialBalanced(seeded: seq<int>, part: seq<int>, k: nat, cap: nat, constraints: seq<int>, comm: Matrix)
    requires cap > 0 && Square(comm, |comm|) && TrialFixed(seeded, part, k, cap, constraints, comm)
    ensures Balanced(part, k, cap, constraints) && |part| == k * cap && TriedFixed(part, k, cap, constraints, comm)
  {
    hide Joined;
  }

  /** The initial partition: the cheapest of the trials asked for, or the vertices in turn. */
  ghost predicate Initial(part: seq<int>, comm: Matrix, k: nat, cap: nat, trials: int, constraints: seq<int>)
    requires k > 0 && cap > 0 && Square(comm, |comm|)
  {
    && Balanced(part, k, cap, constraints)
    && if trials <= 0 then K.InTurn(part[..|part| - |constraints|], K.FixedCounts(constraints, k, cap), k, cap)
       else exists tried :: CheapestTrial(part, tried, comm, k, cap, trials, constraints)
  }

  ghost predicate CheapestTrial(part: seq<int>, tried: seq<seq<int>>, comm: Matrix, k: nat, cap: nat, trials: int,
                                constraints: seq<int>)
    requires cap > 0 && Square(comm, |comm|)
  {
    && |tried| == trials && Cheapest(part, tried, comm)
    && forall t | 0 <= t < |tried| :: TriedFixed(tried[t], k, cap, constraints, comm)
  }

  /** `build_p_vector`: greedily when trials are asked for, else in turn. */
  method BuildPVector(comm: Matrix, n: nat, k: nat, trials: int, constraints: seq<int>) returns (part: seq<int>)
    requires k > 0 && n % k == 0 && n / k > 0 && K.Fits(constraints, k, n / k) && |comm| + |constraints| == n
    requires Square(comm, |comm|) && NonNegative(comm, |comm|)
    ensures |part| == n && Initial(part, comm, k, n / k, trials, constraints)
  {
    hide TriedFixed, Cheapest;
    assert n == k * (n / k);
    if trials > 0 {
      ghost var tried;
      part, tried := KPartitionGreedy2(comm, k, n / k, trials, constraints);
      assert CheapestTrial(part, tried, comm, k, n / k, trials, constraints);
    } else {
      part := K.BuildVector(n, k, constraints);
    }
  }

  /** `tm_kPartitioning`: build, refine the unconstrained vertices, balance. */
  method KPartitioning(comm: Matrix, n: nat, k: nat, constraints: seq<int>, trials: int)
    returns (part: seq<int>, ghost cuts: seq<real>, ghost initial: seq<int>, ghost run: seq<K.State>)
    requires k > 0 && n % k == 0 && n / k > 0 && K.Fits(constraints, k, n / k) && |comm| + |constraints| == n
    requires Square(comm, |comm|) && Symmetric(comm, |comm|) && NonNegative(comm, |comm|)
    ensures |part| == n && Balanced(part, k, n / k, constraints)
    ensures 1 <= |cuts| <= |comm| * k + 1 && forall s | 0 <= s < |cuts| - 1 :: cuts[s + 1] < cuts[s]
    ensures Initial(initial, comm, k, n / k, trials, constraints) && |initial| == n
    ensures K.Refined(comm, k, initial[..|comm|], part[..|comm|], run)
  {
    hide K.Refined, Cheapest, TriedFixed, K.InTurn;
    var first := BuildPVector(comm, n, k, trials, constraints);
    initial := first;
    var reals := n - |constraints|;
    var refined;
    refined, cuts, run := K.Refine(comm, k, first[..reals]);
    part := refined + first[reals..];
    assert part[..reals] == refined;
    assert initial == initial[..reals] + initial[reals..];
    forall p | 0 <= p < k ensures Count(part, p, n) == n / k {
      CountConcat(initial[..reals], initial[reals..], p);
      CountConcat(refined, initial[reals..], p);
    }
  }
}
