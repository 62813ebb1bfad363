/** Splitting the levels of a machine tree so that groups stay small: levels divisible by
    3 or 2 are replaced by two levels of the same cost. */
module ArityOptimizer {
  import opened Arithmetic
  import opened ConstrainedTree

  /** Cost at the lowest common ancestor of leaves x and y; a leaf is at no cost from itself. */
  function LcaCost(arity: seq<nat>, cost: seq<real>, x: nat, y: nat): real
    requires |arity| == |cost| && forall i | 0 <= i < |arity| :: arity[i] > 0
    decreases |arity|
  {
    if arity == [] then 0.0
    else
      ProductPositive(arity[1..]);
      var w := Product(arity[1..]);
      if Place(x, w) != Place(y, w) then cost[0] else LcaCost(arity[1..], cost[1..], Rest(x, w), Rest(y, w))
  }

  /** The child a leaf is below, for children of w leaves, and its number there. */
  function Place(x: nat, w: nat): nat
    requires w > 0
  {
    x / w
  }

  function Rest(x: nat, w: nat): nat
    requires w > 0
  {
    x % w
  }

  /** A level that need not be split. */
  predicate Small(a: nat)
  {
    !(a % 3 == 0 && a > 3) && !(a % 2 == 0 && a > 2)
  }

  function Sum(s: seq<nat>): nat
  {
    if s == [] then 0 else Sum(s[..|s| - 1]) + s[|s| - 1]
  }

  /** The copies of the level arrays: two entries in place of the one at n. */
  method Expand<T>(s: seq<T>, n: nat, x: T, y: T) returns (res: seq<T>)
    requires n < |s|
    ensures res == s[..n] + [x, y] + s[n + 1..]
  {
    res := [];
    for i := 0 to n
      invariant res == s[..i]
    {
      res := res + [s[i]];
    }
    res := res + [x];
    res := res + [y];
    for i := n + 2 to |s| + 1
      invariant res == s[..n] + [x, y] + s[n + 1..i - 1]
    {
      res := res + [s[i - 1]];
    }
    assert s[n + 1..|s|] == s[n + 1..];
  }

  // ---------- One split keeps the product and the costs ----------

  /** Quotient and remainder by b * w, then by w, against those by w at once. */
  lemma TwoSteps(x: nat, b: nat, w: nat, bw: nat)
    requires b > 0 && w > 0 && bw == b * w > 0
    ensures x / w == (x / bw) * b + (x % bw) / w && x % w == (x % bw) % w
    ensures 0 <= (x % bw) / w < b
  {
    var q1, r1 := x / bw, x % bw;
    var q2, r2 := r1 / w, r1 % w;
    assert x == q1 * bw + r1 && r1 == q2 * w + r2;
    Associate(q1, b, w);
    assert (q1 * b + q2) * w == (q1 * b) * w + q2 * w;
    DivUnique(x, w, q1 * b + q2, r2);
    if q2 >= b {
      MulMonotone(b, q2, w);
      assert false;
    }
  }

  lemma Associate(a: int, b: int, c: int)
    ensures a * (b * c) == (a * b) * c
  {
  }

  /** Two positions agree on the joint level exactly when they agree on both levels. */
  lemma SamePlace(q1: nat, p1: nat, q2: nat, p2: nat, b: nat)
    requires q2 < b && p2 < b
    ensures q1 * b + q2 == p1 * b + p2 <==> q1 == p1 && q2 == p2
  {
    DivUnique(q1 * b + q2, b, q1, q2);
    DivUnique(p1 * b + p2, b, p1, p2);
  }

  lemma SameBoth(x: nat, y: nat, b: nat, w: nat, bw: nat)
    requires b > 0 && w > 0 && bw == b * w > 0
    ensures Place(x, w) == Place(y, w) <==>
        Place(x, bw) == Place(y, bw) && Place(Rest(x, bw), w) == Place(Rest(y, bw), w)
    ensures Rest(x, w) == Rest(Rest(x, bw), w) && Rest(y, w) == Rest(Rest(y, bw), w)
  {
    TwoSteps(x, b, w, bw);
    TwoSteps(y, b, w, bw);
    SamePlace(x / bw, y / bw, (x % bw) / w, (y % bw) / w, b);
  }

  lemma SplitHere(a: nat, b: nat, post: seq<nat>, c: real, costs: seq<real>, x: nat, y: nat)
    requires a > 0 && b > 0 && |post| == |costs| && forall i | 0 <= i < |post| :: post[i] > 0
    ensures Product([a, b] + post) == Product([a * b] + post) && a * b > 0
    ensures LcaCost([a, b] + post, [c, c] + costs, x, y) == LcaCost([a * b] + post, [c] + costs, x, y)
  {
    hide Place, Rest;
    MulMonotone(1, a, b);
    ProductPositive(post);
    var w := Product(post);
    var two, mid, one := [a, b] + post, [b] + post, [a * b] + post;
    assert two[1..] == mid && one[1..] == post && mid[1..] == post;
    assert ([c, c] + costs)[1..] == [c] + costs && ([c] + costs)[1..] == costs;
    Associate(a, b, w);
    ProductPositive(mid);
    var bw := Product(mid);
    SameBoth(x, y, b, w, bw);
    Unfold(two, [c, c] + costs, x, y);
    Unfold(mid, [c] + costs, Rest(x, bw), Rest(y, bw));
    Unfold(one, [c] + costs, x, y);
  }

  lemma Unfold(arity: seq<nat>, cost: seq<real>, x: nat, y: nat)
    requires |arity| == |cost| > 0 && forall i | 0 <= i < |arity| :: arity[i] > 0
    ensures Product(arity[1..]) > 0
    ensures LcaCost(arity, cost, x, y)
         == var w := Product(arity[1..]); if Place(x, w) != Place(y, w) then cost[0]
             else LcaCost(arity[1..], cost[1..], Rest(x, w), Rest(y, w))
  {
    ProductPositive(arity[1..]);
  }

  ghost predicate AllPositive(s: seq<nat>)
  {
    forall i | 0 <= i < |s| :: s[i] > 0
  }

  lemma DropFirst<T>(p: seq<T>, q: seq<T>, r: seq<T>)
    requires p != []
    ensures (p + q + r)[1..] == p[1..] + q + r
  {
  }

  /** Splitting one level anywhere keeps the number of leaves and every pairwise cost. */
  lemma {:induction false} SplitKeeps(pre: seq<nat>, a: nat, b: nat, post: seq<nat>, cpre: seq<real>, c: real,
                                      cpost: seq<real>, x: nat, y: nat)
    requires AllPositive(pre) && a > 0 && b > 0 && AllPositive(post) && |pre| == |cpre| && |post| == |cpost|
    ensures AllPositive(pre + [a, b] + post) && AllPositive(pre + [a * b] + post)
    ensures Product(pre + [a, b] + post) == Product(pre + [a * b] + post)
    ensures LcaCost(pre + [a, b] + post, cpre + [c, c] + cpost, x, y)
        == LcaCost(pre + [a * b] + post, cpre + [c] + cpost, x, y)
    decreases |pre|
  {
    hide Place, Rest;
    var two, one := pre + [a, b] + post, pre + [a * b] + post;
    SplitHere(a, b, post, c, cpost, x, y);
    if pre == [] {
      assert two == [a, b] + post && one == [a * b] + post;
      assert cpre + [c, c] + cpost == [c, c] + cpost && cpre + [c] + cpost == [c] + cpost;
    } else {
      hide LcaCost;
      DropFirst(pre, [a, b], post);
      DropFirst(pre, [a * b], post);
      DropFirst(cpre, [c, c], cpost);
      DropFirst(cpre, [c], cpost);
      Unfold(two, cpre + [c, c] + cpost, x, y);
      Unfold(one, cpre + [c] + cpost, x, y);
      SplitKeeps(pre[1..], a, b, post, cpre[1..], c, cpost, x, y);
      ProductPositive(one[1..]);
      var w := Product(one[1..]);
      SplitKeeps(pre[1..], a, b, post, cpre[1..], c, cpost, Rest(x, w), Rest(y, w));
    }
  }

  // ---------- The optimizer ----------

  datatype Levels = Levels(arity: seq<nat>, cost: seq<real>)

  ghost predicate LevelsOk(t: Levels)
  {
    |t.arity| == |t.cost| && AllPositive(t.arity)
  }

  /** The same machine as far as placement can see: as many leaves, and every two leaves at the same cost. */
  ghost predicate SameMachine(s: Levels, t: Levels)
    requires LevelsOk(s) && LevelsOk(t)
  {
    Product(s.arity) == Product(t.arity) && forall x: nat, y: nat :: SameCost(s, t, x, y)
  }

  ghost predicate SameCost(s: Levels, t: Levels, x: nat, y: nat)
    requires LevelsOk(s) && LevelsOk(t)
  {
    LcaCost(s.arity, s.cost, x, y) == LcaCost(t.arity, t.cost, x, y)
  }

  lemma SameOn(r: Levels, s: Levels, t: Levels)
    requires LevelsOk(r) && LevelsOk(s) && LevelsOk(t) && SameMachine(r, s) && SameMachine(s, t)
    ensures SameMachine(r, t)
  {
    forall x: nat, y: nat ensures SameCost(r, t, x, y) { assert SameCost(r, s, x, y) && SameCost(s, t, x, y); }
  }

  lemma {:induction false} SumMore(s: seq<nat>, x: nat)
    ensures Sum(s + [x]) == Sum(s) + x
  {
    assert (s + [x])[..|s|] == s;
  }

  /** Split level n into k and the rest. */
  method SplitLevel(t: Levels, n: nat, k: nat) returns (r: Levels)
    requires LevelsOk(t) && n < |t.arity| && k > 1 && t.arity[n] % k == 0 && t.arity[n] > k
    ensures LevelsOk(r) && SameMachine(t, r) && r.arity == t.arity[..n] + [k, t.arity[n] / k] + t.arity[n + 1..]
    ensures Sum(r.arity[..n + 1]) == Sum(t.arity[..n]) + k
        && Sum(r.arity[..n + 2]) == Sum(t.arity[..n]) + k + t.arity[n] / k
    ensures Sum(t.arity[..n + 1]) == Sum(t.arity[..n]) + t.arity[n]
  {
    hide Sum, SameMachine;
    var arity := Expand(t.arity, n, k, t.arity[n] / k);
    var cost := Expand(t.cost, n, t.cost[n], t.cost[n]);
    r := Levels(arity, cost);
    SplitSame(t, r, n, k);
    SplitSums(t.arity, r.arity, n, k);
  }

  lemma SplitSame(t: Levels, r: Levels, n: nat, k: nat)
    requires LevelsOk(t) && n < |t.arity| && k > 1 && t.arity[n] % k == 0 && t.arity[n] > k
    requires r.arity == t.arity[..n] + [k, t.arity[n] / k] + t.arity[n + 1..]
    requires r.cost == t.cost[..n] + [t.cost[n], t.cost[n]] + t.cost[n + 1..]
    ensures LevelsOk(r) && SameMachine(t, r)
  {
    hide LcaCost, Product;
    var a := t.arity[n];
    var pre, post, cpre, cpost := t.arity[..n], t.arity[n + 1..], t.cost[..n], t.cost[n + 1..];
    Quotient(a, k);
    assert pre + [k * (a / k)] + post == t.arity && cpre + [t.cost[n]] + cpost == t.cost;
    SplitKeeps(pre, k, a / k, post, cpre, t.cost[n], cpost, 0, 0);
    forall x: nat, y: nat
      ensures SameCost(t, r, x, y)
    {
      SplitKeeps(pre, k, a / k, post, cpre, t.cost[n], cpost, x, y);
    }
  }

  lemma SplitSums(arity: seq<nat>, split: seq<nat>, n: nat, k: nat)
    requires n < |arity| && k > 1 && split == arity[..n] + [k, arity[n] / k] + arity[n + 1..]
    ensures Sum(split[..n + 1]) == Sum(arity[..n]) + k && Sum(split[..n + 2]) == Sum(arity[..n]) + k + arity[n] / k
    ensures Sum(arity[..n + 1]) == Sum(arity[..n]) + arity[n]
  {
    hide Sum;
    var pre, a := arity[..n], arity[n];
    assert split[..n + 1] == pre + [k] && split[..n + 2] == pre + [k] + [a / k] && arity[..n + 1] == pre + [a];
    SumMore(pre, k);
    SumMore(pre + [k], a / k);
    SumMore(pre, a);
  }

  lemma Quotient(a: nat, k: nat)
    requires k > 1 && a % k == 0 && a > k
    ensures k * (a / k) == a && a / k > 0
  {
    assert a == (a / k) * k + a % k;
  }

  /** `optimize_arity` from level n down: it ends, the machine is the same to its users, and no level is divisible by
      3 above 3 or by 2 above 2. */
  method OptimizeArity(t: Levels, n: int) returns (r: Levels)
    requires LevelsOk(t) && -1 <= n < |t.arity| && forall i | n < i < |t.arity| :: Small(t.arity[i])
    ensures LevelsOk(r) && SameMachine(t, r) && forall i | 0 <= i < |r.arity| :: Small(r.arity[i])
    decreases Sum(t.arity[..n + 1]), n + 1
  {
    hide SameMachine, LevelsOk, Sum;
    LevelsFact(t);
    if n < 0 { return t; }
    var a := t.arity[n];
    if a % 3 == 0 && a > 3 {
      var s := SplitLevel(t, n, 3);
      if s.arity[n + 1] == 3 {
        r := OptimizeArity(s, n);
      } else {
        r := OptimizeArity(s, n + 1);
      }
      SameOn(t, s, r);
    } else if a % 2 == 0 && a > 2 {
      var s := SplitLevel(t, n, 2);
      if s.arity[n + 1] == 2 {
        r := OptimizeArity(s, n);
      } else {
        r := OptimizeArity(s, n + 1);
      }
      SameOn(t, s, r);
    } else {
      LowerSum(t.arity, n);
      r := OptimizeArity(t, n - 1);
    }
  }

  lemma LevelsFact(t: Levels)
    requires LevelsOk(t)
    ensures |t.arity| == |t.cost| && SameMachine(t, t)
  {
  }

  lemma LowerSum(arity: seq<nat>, n: nat)
    requires n < |arity|
    ensures Sum(arity[..n]) <= Sum(arity[..n + 1])
  {
    assert arity[..n + 1] == arity[..n] + [arity[n]];
    SumMore(arity[..n], arity[n]);
  }

  // ---------- The whole topology ----------

  /** A machine: its levels, the core of every leaf, the leaf of every core, the cores that may be used, the number of
      cores and how often each is used. */
  datatype Topology = Topology(levels: Levels, nodeId: seq<int>, nodeRank: seq<int>, constraints: seq<int>,
                               procUnits: nat, oversub: nat)

  /** Every leaf belongs to a core whose rank is the last of its leaves. */
  ghost predicate Ranked(nodeId: seq<int>, nodeRank: seq<int>, n: nat)
    requires n <= |nodeId|
  {
    forall j: nat | j < n :: RankedAt(nodeId, nodeRank, n, j)
  }

  ghost predicate RankedAt(nodeId: seq<int>, nodeRank: seq<int>, n: nat, j: nat)
    requires j < n <= |nodeId|
  {
    && 0 <= nodeId[j] < |nodeRank| && j <= nodeRank[nodeId[j]] < n && nodeId[nodeRank[nodeId[j]]] == nodeId[j]
  }

  /** The numbering loop of `tm_build_synthetic_topology`: the core numbers of one node are repeated for every node, and
      the rank of a core is its last leaf. */
  method NumberLeaves(n: nat, core: seq<int>) returns (nodeId: seq<int>, nodeRank: seq<int>)
    requires |core| > 0 && n % |core| == 0 && forall c | 0 <= c < |core| :: 0 <= core[c] < |core|
    ensures |nodeId| == |nodeRank| == n && Ranked(nodeId, nodeRank, n)
    ensures forall j | 0 <= j < n :: nodeId[j] == core[j % |core|] + |core| * (j / |core|)
  {
    var p := |core|;
    nodeId := seq(n, _ => 0);
    var unset: int := *;
    nodeRank := seq(n, _ => unset);
    for j := 0 to n
      invariant |nodeId| == |nodeRank| == n && Ranked(nodeId, nodeRank, j)
      invariant forall i | 0 <= i < j :: nodeId[i] == core[i % p] + p * (i / p)
    {
      LeafInRange(j, n, p, core[j % p]);
      var id := core[j % p] + p * (j / p);
      ghost var ids, ranks := nodeId, nodeRank;
      nodeId := nodeId[j := id];
      nodeRank := nodeRank[id := j];
      ghost var next := j + 1;
      forall i: nat | i < next ensures RankedAt(nodeId, nodeRank, next, i) {
        if i < j { assert RankedAt(ids, ranks, j, i); }
      }
    }
  }

  lemma LeafInRange(j: nat, n: nat, p: nat, c: int)
    requires p > 0 && j < n && n % p == 0 && 0 <= c < p
    ensures 0 <= c + p * (j / p) < n
  {
    var q, m := j / p, n / p;
    assert n == m * p && j == q * p + j % p;
    if q >= m {
      MulMonotone(m, q, p);
      assert false;
    }
    MulMonotone(q + 1, m, p);
    assert (q + 1) * p == q * p + p;
  }

  /** Ranks that mark the last leaf of every core agree on all cores that have leaves. */
  lemma RankUnique(nodeId: seq<int>, a: seq<int>, b: seq<int>, j: nat)
    requires Ranked(nodeId, a, |nodeId|) && Ranked(nodeId, b, |nodeId|) && j < |nodeId|
    ensures 0 <= nodeId[j] < |a| && 0 <= nodeId[j] < |b| && a[nodeId[j]] == b[nodeId[j]]
  {
    assert RankedAt(nodeId, a, |nodeId|, j) && RankedAt(nodeId, b, |nodeId|, j);
    assert RankedAt(nodeId, a, |nodeId|, b[nodeId[j]]) && RankedAt(nodeId, b, |nodeId|, a[nodeId[j]]);
  }

  /** `tm_optimize_topology`: the levels are split from the lowest one up; the machine stays the same, and so do the
      cores of the leaves, the constraints, the number of cores and the oversubscription. */
  method OptimizeTopology(t: Topology) returns (r: Topology)
    requires LevelsOk(t.levels) && |t.nodeId| == Product(t.levels.arity) && Ranked(t.nodeId, t.nodeRank, |t.nodeId|)
    requires forall j | 0 <= j < |t.nodeId| :: 0 <= t.nodeId[j] < |t.nodeId|
    ensures LevelsOk(r.levels) && SameMachine(t.levels, r.levels)
        && forall i | 0 <= i < |r.levels.arity| :: Small(r.levels.arity[i])
    ensures r.nodeId == t.nodeId && Ranked(r.nodeId, r.nodeRank, |r.nodeId|)
    ensures forall j: nat | j < |t.nodeId| :: SameRank(t, r, j)
    ensures r.constraints == t.constraints && r.procUnits == t.procUnits && r.oversub == t.oversub
  {
    var levels := OptimizeArity(t.levels, |t.levels.arity| - 1);
    var n := Product(levels.arity);
    ProductPositive(t.levels.arity);
    var nodeId, nodeRank := NumberLeaves(n, t.nodeId);
    forall j: nat | j < n ensures nodeId[j] == t.nodeId[j] { DivUnique(j, n, 0, j); }
    assert nodeId == t.nodeId;
    r := Topology(levels, nodeId, nodeRank, t.constraints, t.procUnits, t.oversub);
    forall j: nat | j < n ensures SameRank(t, r, j) { RankUnique(nodeId, t.nodeRank, nodeRank, j); }
  }

  ghost predicate SameRank(t: Topology, r: Topology, j: nat)
    requires j < |t.nodeId|
  {
    var u := t.nodeId[j];
    0 <= u < |t.nodeRank| && u < |r.nodeRank| && r.nodeRank[u] == t.nodeRank[u]
  }
}
