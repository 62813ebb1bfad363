/** From a process tree to the mapping of processes to cores, and the constrained
    placement from end to end. */
module ProcessMapping {
  import opened Arithmetic
  import opened PartitionWeights
  import opened ConstraintRanks
  import opened GreedyPartition
  import opened ConstrainedTree
  import opened Wrappers

  // ---------- `tm_map_topology` ----------

  /** The row of a core: the processes put there so far, then free slots. */
  ghost predicate Row(row: seq<int>, filled: seq<int>, oversub: nat)
  {
    && |row| == oversub && |filled| <= oversub
    && (forall s | 0 <= s < |filled| :: row[s] == filled[s] && filled[s] != -1)
    && (forall s | |filled| <= s < oversub :: row[s] == -1)
  }

  /** `set_val`: store in the first free slot.  The error exit is the result false. */
  method SetVal(row: seq<int>, val: int, oversub: nat, ghost filled: seq<int>) returns (res: seq<int>, ok: bool)
    requires Row(row, filled, oversub) && val != -1
    ensures ok <==> |filled| < oversub
    ensures ok ==> Row(res, filled + [val], oversub)
    ensures !ok ==> res == row
  {
    res, ok := row, false;
    var i := 0;
    while i < oversub
      invariant 0 <= i <= oversub && i <= |filled|
    {
      if row[i] == -1 {
        res := row[i := val];
        ok := true;
        return;
      }
      i := i + 1;
    }
  }

  ghost predicate CoreOk(leaves: seq<int>, nodeId: seq<int>, row: seq<int>, filled: seq<int>, u: int, oversub: nat,
                         i: nat)
    requires i <= |leaves| == |nodeId|
  {
    && Row(row, filled, oversub) && |filled| <= Count(nodeId, u, i) && (forall s | 0 <= s < |filled| :: filled[s] >= 0)
    && forall p | p >= 0 :: Occ(filled, p) == OnCore(leaves, nodeId, u, p, i)
  }

  /** Number of the first i leaves that carry process p and belong to core u. */
  function OnCore(leaves: seq<int>, nodeId: seq<int>, u: int, p: int, i: nat): nat
    requires i <= |leaves| == |nodeId|
  {
    if i == 0 then 0 else OnCore(leaves, nodeId, u, p, i - 1) + if leaves[i - 1] == p && nodeId[i - 1] == u then 1
        else 0
  }

  ghost predicate SigmaOk(leaves: seq<int>, nodeId: seq<int>, sigma: seq<int>, j: nat)
    requires j < |leaves| == |nodeId|
  {
    0 <= leaves[j] < |sigma| ==> sigma[leaves[j]] == nodeId[j]
  }

  /** All processes are on exactly one leaf, and the leaves carry nothing else. */
  ghost predicate EachOnce(leaves: seq<int>, processes: nat)
  {
    && (forall j | 0 <= j < |leaves| :: -1 <= leaves[j] < processes)
    && forall p | 0 <= p < processes :: Occ(leaves, p) == 1
  }

  /** The row of core u holds every process mapped to u once, in front, and free slots behind, and nothing else. */
  ghost predicate RowInverts(row: seq<int>, sigma: seq<int>, u: int)
  {
    && (forall p | 0 <= p < |sigma| :: Occ(row, p) == if sigma[p] == u then 1 else 0)
    && (forall s | 0 <= s < |row| :: row[s] == -1 || (0 <= row[s] < |sigma| && sigma[row[s]] == u))
    && forall s, t | 0 <= s < t < |row| && row[s] == -1 :: row[t] == -1
  }

  /** Leaves with one process number belong to one core when there is only one such leaf. */
  lemma {:induction false} SameLeaf(leaves: seq<int>, p: int, a: nat, b: nat, t: nat)
    requires a < b < t <= |leaves| && leaves[a] == p && leaves[b] == p
    ensures Count(leaves, p, t) >= 2
  {
    if b < t - 1 {
      SameLeaf(leaves, p, a, b, t - 1);
    } else {
      CountPositive(leaves, p, b, a);
    }
  }

  lemma {:induction false} OnCoreIs(leaves: seq<int>, nodeId: seq<int>, u: int, p: int, i: nat, c: int)
    requires i <= |leaves| == |nodeId|
    requires forall j | 0 <= j < i && leaves[j] == p :: nodeId[j] == c
    ensures OnCore(leaves, nodeId, u, p, i) == if u == c then Count(leaves, p, i) else 0
  {
    if i > 0 { OnCoreIs(leaves, nodeId, u, p, i - 1, c); }
  }

  lemma {:induction false} RowOcc(row: seq<int>, filled: seq<int>, oversub: nat, p: int, t: nat)
    requires Row(row, filled, oversub) && p >= 0 && t <= oversub
    ensures Count(row, p, t) == if t <= |filled| then Count(filled, p, t) else Occ(filled, p)
  {
    if t > 0 { RowOcc(row, filled, oversub, p, t - 1); }
  }

  /** A leaf that puts nothing on core u leaves its row as it is. */
  lemma CoreSkip(leaves: seq<int>, nodeId: seq<int>, row: seq<int>, filled: seq<int>, u: int, oversub: nat, i: nat)
    requires i < |leaves| == |nodeId| && CoreOk(leaves, nodeId, row, filled, u, oversub, i)
    requires leaves[i] < 0 || nodeId[i] != u
    ensures CoreOk(leaves, nodeId, row, filled, u, oversub, i + 1)
  {
    hide Row, Occ;
  }

  lemma CorePut(leaves: seq<int>, nodeId: seq<int>, row: seq<int>, filled: seq<int>, u: int, oversub: nat, i: nat)
    requires i < |leaves| == |nodeId| && leaves[i] >= 0 && nodeId[i] == u
    requires |filled| <= Count(nodeId, u, i) && Row(row, filled + [leaves[i]], oversub)
        && forall s | 0 <= s < |filled| :: filled[s] >= 0
    requires forall p | p >= 0 :: Occ(filled, p) == OnCore(leaves, nodeId, u, p, i)
    ensures CoreOk(leaves, nodeId, row, filled + [leaves[i]], u, oversub, i + 1)
  {
    hide Row, Occ;
    var filled2 := filled + [leaves[i]];
    forall p | p >= 0 ensures Occ(filled2, p) == OnCore(leaves, nodeId, u, p, i + 1) {
      OccAppend(filled, leaves[i], p);
    }
  }

  /** `tm_map_topology`: sigma maps processes to cores and k inverts it. */
  method MapTopology(leaves: seq<int>, nodeId: seq<int>, oversub: nat, units: nat, processes: nat)
    returns (sigma: seq<int>, k: seq<seq<int>>)
    requires |leaves| == |nodeId| == units * oversub && EachOnce(leaves, processes)
    requires forall j | 0 <= j < |nodeId| :: 0 <= nodeId[j] < units
    requires forall u | 0 <= u < units :: Occ(nodeId, u) <= oversub
    ensures |sigma| == processes && |k| == units
    ensures forall j: nat | j < |leaves| :: SigmaOk(leaves, nodeId, sigma, j)
    ensures forall u | 0 <= u < units :: |k[u]| == oversub && RowInverts(k[u], sigma, u)
  {
    hide CoreOk, Row, Occ;
    sigma := seq(processes, _ => -1);
    k := seq(units, _ => seq(oversub, _ => -1));
    ghost var filled: seq<seq<int>> := seq(units, _ => []);
    forall u: nat | u < units ensures CoreOk(leaves, nodeId, k[u], filled[u], u, oversub, 0) {
      CoreStart(leaves, nodeId, u, oversub);
    }
    for i := 0 to |leaves|
      invariant |sigma| == processes && |k| == units && |filled| == units
      invariant forall j: nat | j < i :: SigmaOk(leaves, nodeId, sigma, j)
      invariant forall u: nat | u < units :: CoreOk(leaves, nodeId, k[u], filled[u], u, oversub, i)
    {
      if leaves[i] != -1 {
        var c := nodeId[i];
        Distinct(leaves, processes, i);
        RoomOnCore(leaves, nodeId, k[c], filled[c], c, oversub, i);
        ghost var before := sigma;
        sigma := sigma[leaves[i] := c];
        forall j: nat | j < i + 1 ensures SigmaOk(leaves, nodeId, sigma, j) {
          if j < i { assert SigmaOk(leaves, nodeId, before, j); }
        }
        var row, ok := SetVal(k[c], leaves[i], oversub, filled[c]);
        if !ok {
          assert false;
        }
        CorePut(leaves, nodeId, row, filled[c], c, oversub, i);
        forall u: nat | u < units && u != c ensures CoreOk(leaves, nodeId, k[u], filled[u], u, oversub, i + 1) {
          CoreSkip(leaves, nodeId, k[u], filled[u], u, oversub, i);
        }
        k := k[c := row];
        filled := filled[c := filled[c] + [leaves[i]]];
      } else {
        forall u: nat | u < units ensures CoreOk(leaves, nodeId, k[u], filled[u], u, oversub, i + 1) {
          CoreSkip(leaves, nodeId, k[u], filled[u], u, oversub, i);
        }
      }
    }
    forall u | 0 <= u < units ensures |k[u]| == oversub && RowInverts(k[u], sigma, u) {
      Inverse(leaves, nodeId, k[u], filled[u], sigma, u, oversub);
    }
  }

  lemma CoreStart(leaves: seq<int>, nodeId: seq<int>, u: int, oversub: nat)
    requires |leaves| == |nodeId|
    ensures CoreOk(leaves, nodeId, seq(oversub, _ => -1), [], u, oversub, 0)
  {
  }

  /** No earlier leaf carries the process of leaf i. */
  lemma Distinct(leaves: seq<int>, processes: nat, i: nat)
    requires EachOnce(leaves, processes) && i < |leaves| && leaves[i] != -1
    ensures 0 <= leaves[i] < processes && forall j | 0 <= j < i :: leaves[j] != leaves[i]
  {
    assert Occ(leaves, leaves[i]) == 1;
    forall j | 0 <= j < i ensures leaves[j] != leaves[i] {
      if leaves[j] == leaves[i] {
        SameLeaf(leaves, leaves[i], j, i, |leaves|);
        assert false;
      }
    }
  }

  /** The error exit of `set_val` is not reachable: core c has a slot for each of its leaves. */
  lemma RoomOnCore(leaves: seq<int>, nodeId: seq<int>, row: seq<int>, filled: seq<int>, c: int, oversub: nat, i: nat)
    requires i < |leaves| == |nodeId| && nodeId[i] == c && Occ(nodeId, c) <= oversub
    requires CoreOk(leaves, nodeId, row, filled, c, oversub, i)
    ensures |filled| < oversub && Row(row, filled, oversub) && |filled| <= Count(nodeId, c, i)
        && forall s | 0 <= s < |filled| :: filled[s] >= 0
    ensures forall p | p >= 0 :: Occ(filled, p) == OnCore(leaves, nodeId, c, p, i)
  {
    CountMonotone(nodeId, c, i + 1, |nodeId|);
  }

  lemma Inverse(leaves: seq<int>, nodeId: seq<int>, row: seq<int>, filled: seq<int>, sigma: seq<int>, u: int,
                oversub: nat)
    requires |leaves| == |nodeId| && EachOnce(leaves, |sigma|)
        && CoreOk(leaves, nodeId, row, filled, u, oversub, |leaves|)
    requires forall j: nat | j < |leaves| :: SigmaOk(leaves, nodeId, sigma, j)
    ensures |row| == oversub && RowInverts(row, sigma, u)
  {
    forall p | 0 <= p < |sigma| ensures Occ(row, p) == if sigma[p] == u then 1 else 0 {
      RowOcc(row, filled, oversub, p, oversub);
      assert Occ(leaves, p) == 1;
      forall j | 0 <= j < |leaves| && leaves[j] == p
        ensures nodeId[j] == sigma[p]
      {
        assert SigmaOk(leaves, nodeId, sigma, j);
      }
      OnCoreIs(leaves, nodeId, u, p, |leaves|, sigma[p]);
      assert Occ(filled, p) == OnCore(leaves, nodeId, u, p, |leaves|);
    }
    forall s | 0 <= s < |filled| ensures 0 <= filled[s] < |sigma| && sigma[filled[s]] == u {
      CountPositive(filled, filled[s], |filled|, s);
      assert Occ(filled, filled[s]) == OnCore(leaves, nodeId, u, filled[s], |leaves|);
      var j := OnCoreWitness(leaves, nodeId, u, filled[s], |leaves|);
      assert SigmaOk(leaves, nodeId, sigma, j);
    }
  }

  lemma {:induction false} OnCoreWitness(leaves: seq<int>, nodeId: seq<int>, u: int, p: int, i: nat) returns (j: nat)
    requires i <= |leaves| == |nodeId| && OnCore(leaves, nodeId, u, p, i) > 0
    ensures j < i && leaves[j] == p && nodeId[j] == u
  {
    if leaves[i - 1] == p && nodeId[i - 1] == u {
      j := i - 1;
    } else {
      j := OnCoreWitness(leaves, nodeId, u, p, i - 1);
    }
  }

  // ---------- `tm_enable_oversubscribing` ----------

  /** The cores of the machine in rank order, and the rank of each core. */
  ghost predicate Numbering(base: seq<int>, rank: seq<int>)
  {
    && |rank| == |base|
    && (forall r | 0 <= r < |base| :: 0 <= base[r] < |base| && rank[base[r]] == r)
    && (forall u | 0 <= u < |rank| :: 0 <= rank[u] < |base| && base[rank[u]] == u)
  }

  /** Leaf j of the oversubscribed machine belongs to core base[j / f]; rank keeps the last such leaf. */
  ghost predicate Expanded(base: seq<int>, f: nat, nodeId: seq<int>, nodeRank: seq<int>)
    requires f > 0
  {
    && |nodeId| == |base| * f && |nodeRank| == |base|
    && (forall j | 0 <= j < |nodeId| :: 0 <= j / f < |base| && nodeId[j] == base[j / f])
    && (forall r: nat | r < |base| :: 0 <= base[r] < |base| && nodeRank[base[r]] == Times(r, f) + f - 1)
  }

  ghost predicate LeafAt(base: seq<int>, f: nat, nodeId: seq<int>, j: nat)
    requires f > 0
  {
    j < |nodeId| && 0 <= j / f < |base| && nodeId[j] == base[j / f]
  }

  lemma LeafKept(base: seq<int>, f: nat, nodeId: seq<int>, id: int, j: nat)
    requires f > 0 && LeafAt(base, f, nodeId, j)
    ensures LeafAt(base, f, nodeId + [id], j)
  {
  }

  lemma LeafNew(base: seq<int>, f: nat, nodeId: seq<int>, r: nat)
    requires f > 0 && |nodeId| / f == r < |base|
    ensures LeafAt(base, f, nodeId + [base[r]], |nodeId|)
  {
  }

  lemma AllExpanded(base: seq<int>, f: nat, nodeId: seq<int>, nodeRank: seq<int>)
    requires f > 0 && |nodeId| == |base| * f && |nodeRank| == |base|
        && (forall j: nat | j < |nodeId| :: LeafAt(base, f, nodeId, j))
    requires forall r: nat | r < |base| :: 0 <= base[r] < |base| && nodeRank[base[r]] == Times(r, f) + f - 1
    ensures Expanded(base, f, nodeId, nodeRank)
  {
    forall j | 0 <= j < |nodeId|
      ensures 0 <= j / f < |base| && nodeId[j] == base[j / f]
    {
      assert LeafAt(base, f, nodeId, j);
    }
  }

  lemma NotOversubscribed(base: seq<int>, rank: seq<int>)
    requires Numbering(base, rank)
    ensures Expanded(base, 1, base, rank)
  {
  }

  method Oversubscribe(base: seq<int>, rank: seq<int>, f: nat) returns (nodeId: seq<int>, nodeRank: seq<int>)
    requires Numbering(base, rank) && f > 0
    ensures Expanded(base, f, nodeId, nodeRank)
  {
    nodeId, nodeRank := base, rank;
    NotOversubscribed(base, rank);
    if f <= 1 { return; }
    hide Times, LeafAt, Expanded;
    nodeId := [];
    ghost var r, s := 0, 0;
    var n := |base| * f;
    NextTimes(0, f);
    for j := 0 to n
      invariant |nodeId| == j && |nodeRank| == |base| && j == Times(r, f) + s && s < f && r <= |base|
      invariant forall i: nat | i < j :: LeafAt(base, f, nodeId, i)
      invariant forall q: nat | q < r && q < |base| :: nodeRank[base[q]] == Times(q, f) + f - 1
    {
      LeafCore(|base|, f, r, s, j);
      var id := base[j / f];
      forall i: nat | i < j ensures LeafAt(base, f, nodeId + [id], i) { LeafKept(base, f, nodeId, id, i); }
      LeafNew(base, f, nodeId, r);
      nodeId := nodeId + [id];
      forall q: nat | q < r ensures base[q] != id { assert rank[base[q]] == q && rank[base[r]] == r; }
      nodeRank := nodeRank[id := j];
      NextTimes(r, f);
      if s + 1 == f { r, s := r + 1, 0; } else { s := s + 1; }
    }
    LastCore(|base|, f, r, s, n);
    AllExpanded(base, f, nodeId, nodeRank);
  }

  lemma LeafCore(units: nat, f: nat, r: nat, s: nat, j: nat)
    requires j == Times(r, f) + s && s < f && j < units * f && r <= units
    ensures j / f == r && j % f == s && r < units
  {
    DivUnique(j, f, r, s);
    if r >= units {
      MulMonotone(units, r, f);
      assert false;
    }
  }

  lemma LastCore(units: nat, f: nat, r: nat, s: nat, n: nat)
    requires n == units * f && n == Times(r, f) + s && s < f && r <= units
    ensures r == units
  {
    DivUnique(n, f, r, s);
    DivUnique(n, f, units, 0);
  }

  /** No core has more than f leaves. */
  lemma CoreLeaves(base: seq<int>, rank: seq<int>, f: nat, nodeId: seq<int>, nodeRank: seq<int>, u: int)
    requires Numbering(base, rank) && f > 0 && Expanded(base, f, nodeId, nodeRank) && 0 <= u < |base|
    ensures Occ(nodeId, u) <= f
  {
    var lo := Times(rank[u], f);
    forall j | 0 <= j < |nodeId| && nodeId[j] == u ensures lo <= j < lo + f {
      assert rank[base[j / f]] == j / f;
      assert j == (j / f) * f + j % f;
    }
    CountWindow(nodeId, u, lo, f, |nodeId|);
  }

  lemma {:induction false} CountWindow(s: seq<int>, x: int, lo: nat, f: nat, t: nat)
    requires t <= |s| && forall j | 0 <= j < t && s[j] == x :: lo <= j < lo + f
    ensures Count(s, x, t) <= if t <= lo then 0 else if t <= lo + f then t - lo else f
  {
    if t > 0 { CountWindow(s, x, lo, f, t - 1); }
  }

  // ---------- `check_constraints` ----------

  predicate HasRank(ids: seq<int>, nodeRank: seq<int>, f: nat, i: nat)
  {
    f > 0 && i / f < |ids| && 0 <= ids[i / f] < |nodeRank|
  }

  /** The leaf rank of the i-th expanded constraint. */
  function RankOf(ids: seq<int>, nodeRank: seq<int>, f: nat, i: nat): int
    requires HasRank(ids, nodeRank, f, i)
  {
    var shift := 1 + i % f - f;
    nodeRank[ids[i / f]] + shift
  }

  ghost predicate Ids(ids: seq<int>, units: nat)
  {
    && (forall a | 0 <= a < |ids| :: 0 <= ids[a] < units)
    && forall a, b | 0 <= a < b < |ids| :: ids[a] != ids[b]
  }

  /** The expanded constraint is a leaf of the constrained core. */
  lemma RankIs(base: seq<int>, rank: seq<int>, f: nat, nodeId: seq<int>, nodeRank: seq<int>, ids: seq<int>, i: nat)
    requires Numbering(base, rank) && f > 0 && Expanded(base, f, nodeId, nodeRank) && Ids(ids, |base|)
    requires i < |ids| * f
    ensures HasRank(ids, nodeRank, f, i)
    ensures RankOf(ids, nodeRank, f, i) == Times(rank[ids[i / f]], f) + i % f
    ensures 0 <= RankOf(ids, nodeRank, f, i) < |nodeId| && nodeId[RankOf(ids, nodeRank, f, i)] == ids[i / f]
  {
    LeafOf(|ids|, f, i);
    var r := rank[ids[i / f]];
    assert base[r] == ids[i / f];
    var c := Times(r, f) + i % f;
    DivUnique(c, f, r, i % f);
    LeafBelow(|base|, f, r, i % f);
  }

  lemma LeafOf(units: nat, f: nat, i: nat)
    requires f > 0 && i < units * f
    ensures 0 <= i / f < units && i == Times(i / f, f) + i % f
  {
    if i / f >= units {
      MulMonotone(units, i / f, f);
      assert false;
    }
  }

  lemma LeafBelow(units: nat, f: nat, r: nat, s: nat)
    requires r < units && s < f
    ensures Times(r, f) + s < units * f
  {
    MulMonotone(r + 1, units, f);
  }

  /** Distinct constraints give distinct leaves. */
  lemma RanksDiffer(base: seq<int>, rank: seq<int>, f: nat, nodeId: seq<int>, nodeRank: seq<int>, ids: seq<int>, i: nat,
                    j: nat)
    requires Numbering(base, rank) && f > 0 && Expanded(base, f, nodeId, nodeRank) && Ids(ids, |base|)
    requires i < j < |ids| * f && HasRank(ids, nodeRank, f, i) && HasRank(ids, nodeRank, f, j)
    ensures RankOf(ids, nodeRank, f, i) != RankOf(ids, nodeRank, f, j)
  {
    hide Expanded, Times, RankOf, Numbering;
    RankIs(base, rank, f, nodeId, nodeRank, ids, i);
    RankIs(base, rank, f, nodeId, nodeRank, ids, j);
    LeafOf(|ids|, f, i);
    LeafOf(|ids|, f, j);
  }

  /** Every leaf of a constrained core is an expanded constraint. */
  lemma RankCovers(base: seq<int>, rank: seq<int>, f: nat, nodeId: seq<int>, nodeRank: seq<int>, ids: seq<int>, a: nat,
                   j: nat) returns (i: nat)
    requires Numbering(base, rank) && f > 0 && Expanded(base, f, nodeId, nodeRank) && Ids(ids, |base|)
    requires a < |ids| && j < |nodeId| && nodeId[j] == ids[a]
    ensures i < |ids| * f && HasRank(ids, nodeRank, f, i) && RankOf(ids, nodeRank, f, i) == j
  {
    i := Times(a, f) + j % f;
    LeafBelow(|ids|, f, a, j % f);
    DivUnique(i, f, a, j % f);
    RankIs(base, rank, f, nodeId, nodeRank, ids, i);
    assert rank[base[j / f]] == j / f;
    LeafOf(|base|, f, j);
  }

  method InsertRank(b: seq<int>, x: int) returns (c: seq<int>)
    requires Increasing(b) && x !in b
    ensures Increasing(c) && |c| == |b| + 1 && forall y :: y in c <==> y in b || y == x
  {
    var i := |b|;
    while i > 0 && b[i - 1] > x
      invariant 0 <= i <= |b| && forall j | i <= j < |b| :: b[j] > x
    {
      i := i - 1;
    }
    assert i > 0 ==> b[i - 1] < x;
    c := b[..i] + [x] + b[i..];
    forall j: nat | j < i ensures b[j] < x { assert j < i - 1 ==> Before(b, j, i - 1); }
    RankInserted(b, x, i, c);
  }

  lemma RankInserted(b: seq<int>, x: int, i: nat, c: seq<int>)
    requires Increasing(b) && i <= |b| && c == b[..i] + [x] + b[i..]
    requires (forall j | 0 <= j < i :: b[j] < x) && forall j | i <= j < |b| :: x < b[j]
    ensures Increasing(c) && forall y :: y in c <==> y in b || y == x
  {
    assert forall j | 0 <= j < |c| :: c[j] == if j < i then b[j] else if j == i then x else b[j - 1];
    forall j: nat, k: nat | j < k < |c| ensures Before(c, j, k) {
      assert k < i ==> Before(b, j, k);
      assert j < i < k ==> c[j] == b[j] && c[k] == b[k - 1];
      assert i < j ==> Before(b, j - 1, k - 1);
    }
    assert b == b[..i] + b[i..];
  }

  /** The library sort, on a list without duplicates. */
  method SortRanks(a: seq<int>) returns (b: seq<int>)
    requires forall i, j | 0 <= i < j < |a| :: a[i] != a[j]
    ensures Increasing(b) && |b| == |a| && forall y :: y in b <==> y in a
  {
    hide Increasing;
    b := [];
    assert Increasing(b) by { EmptyIncreasing(); }
    for i := 0 to |a|
      invariant Increasing(b) && |b| == i && forall y :: y in b <==> y in a[..i]
    {
      assert a[..i + 1] == a[..i] + [a[i]];
      b := InsertRank(b, a[i]);
    }
    assert a[..|a|] == a;
  }

  lemma EmptyIncreasing()
    ensures Increasing([])
  {
  }

  ghost predicate RankAt(ids: seq<int>, nodeRank: seq<int>, f: nat, cs: seq<int>, a: nat)
  {
    a < |cs| && HasRank(ids, nodeRank, f, a) && cs[a] == RankOf(ids, nodeRank, f, a)
  }

  /** The expanded constraints are distinct and are exactly the leaves of the constrained cores. */
  ghost predicate Covers(cs: seq<int>, nodeId: seq<int>, ids: seq<int>)
  {
    && (forall r | r in cs :: 0 <= r < |nodeId|)
    && (forall j: nat | j < |nodeId| :: j in cs <==> nodeId[j] in ids)
  }

  lemma RanksCover(base: seq<int>, rank: seq<int>, f: nat, nodeId: seq<int>, nodeRank: seq<int>, ids: seq<int>,
                   cs: seq<int>)
    requires Numbering(base, rank) && f > 0 && Expanded(base, f, nodeId, nodeRank) && Ids(ids, |base|)
    requires |cs| == |ids| * f && forall a: nat | a < |cs| :: RankAt(ids, nodeRank, f, cs, a)
    ensures Covers(cs, nodeId, ids) && forall i, j | 0 <= i < j < |cs| :: cs[i] != cs[j]
  {
    hide Numbering, Expanded, Ids, RankOf, HasRank;
    forall i: nat | i < |cs| ensures 0 <= cs[i] < |nodeId| && nodeId[cs[i]] in ids {
      assert RankAt(ids, nodeRank, f, cs, i);
      RankIs(base, rank, f, nodeId, nodeRank, ids, i);
    }
    forall i: nat, j: nat | i < j < |cs| ensures cs[i] != cs[j] {
      assert RankAt(ids, nodeRank, f, cs, i) && RankAt(ids, nodeRank, f, cs, j);
      RanksDiffer(base, rank, f, nodeId, nodeRank, ids, i, j);
    }
    forall j: nat | j < |nodeId| && nodeId[j] in ids ensures j in cs {
      var a: nat :| a < |ids| && ids[a] == nodeId[j];
      var i := RankCovers(base, rank, f, nodeId, nodeRank, ids, a, j);
      assert RankAt(ids, nodeRank, f, cs, i);
    }
  }

  /** `check_constraints`: the usable leaf ranks in increasing order, exactly the leaves of the constrained cores. */
  method CheckConstraints(ids: seq<int>, nodeRank: seq<int>, f: nat, ghost base: seq<int>, ghost rank: seq<int>,
                          ghost nodeId: seq<int>)
    returns (cs: seq<int>)
    requires Numbering(base, rank) && f > 0 && Expanded(base, f, nodeId, nodeRank) && Ids(ids, |base|)
    ensures Increasing(cs) && |cs| == |ids| * f && Covers(cs, nodeId, ids)
  {
    cs := [];
    var sorted, last := true, -1;
    var n := |ids| * f;
    hide Numbering, Expanded, Ids, Covers;
    for i := 0 to n
      invariant |cs| == i && (i == 0 || last == cs[i - 1])
      invariant sorted ==> forall a, b | 0 <= a < b < i :: cs[a] <= cs[b]
      invariant forall a: nat | a < i :: RankAt(ids, nodeRank, f, cs, a)
    {
      Defined(base, rank, f, nodeId, nodeRank, ids, i);
      var r := RankOf(ids, nodeRank, f, i);
      if r < last { sorted := false; }
      last := r;
      ghost var was := cs;
      cs := cs + [r];
      forall a: nat | a < i ensures RankAt(ids, nodeRank, f, cs, a) {
        assert RankAt(ids, nodeRank, f, was, a);
      }
      assert RankAt(ids, nodeRank, f, cs, i);
    }
    RanksCover(base, rank, f, nodeId, nodeRank, ids, cs);
    ghost var raw := cs;
    if !sorted { cs := SortRanks(cs); }
    SameCover(raw, cs, nodeId, ids);
  }

  lemma Defined(base: seq<int>, rank: seq<int>, f: nat, nodeId: seq<int>, nodeRank: seq<int>, ids: seq<int>, i: nat)
    requires Numbering(base, rank) && f > 0 && Expanded(base, f, nodeId, nodeRank) && Ids(ids, |base|)
    requires i < |ids| * f
    ensures HasRank(ids, nodeRank, f, i)
  {
    LeafOf(|ids|, f, i);
  }

  lemma SameCover(raw: seq<int>, cs: seq<int>, nodeId: seq<int>, ids: seq<int>)
    requires Covers(raw, nodeId, ids) && forall y :: y in cs <==> y in raw
    ensures Covers(cs, nodeId, ids)
  {
  }

  // ---------- The whole constrained placement ----------

  /** The labels of a problem with P processes on n leaves: the process numbers, then -1. */
  function Labels(processes: nat, cores: nat): seq<int>
  {
    seq(cores, v => if 0 <= v < processes then v else -1)
  }

  lemma {:induction false} LabelCount(labels: seq<int>, processes: nat, p: int, t: nat)
    requires processes <= |labels| && t <= |labels| && 0 <= p < processes
    requires forall v | 0 <= v < |labels| :: labels[v] == if v < processes then v else -1
    ensures Count(labels, p, t) == if p < t then 1 else 0
  {
    if t > 0 { LabelCount(labels, processes, p, t - 1); }
  }

  /** A placement of those labels puts every process on exactly one leaf. */
  lemma PlacedOnce(leaves: seq<int>, labels: seq<int>, cs: seq<int>, processes: nat)
    requires processes <= |labels| && Placement(leaves, labels, cs)
    requires forall v | 0 <= v < |labels| :: labels[v] == if v < processes then v else -1
    ensures EachOnce(leaves, processes)
  {
    hide Occ, Count;
    forall p | 0 <= p < processes ensures Occ(leaves, p) == 1 { LabelOcc(labels, processes, p); }
    forall j | 0 <= j < |leaves| ensures -1 <= leaves[j] < processes {
      LeafOcc(leaves, j);
      assert Occ(leaves, leaves[j]) == Occ(labels, leaves[j]);
      LabelIn(labels, leaves[j]);
    }
  }

  lemma LabelOcc(labels: seq<int>, processes: nat, p: int)
    requires processes <= |labels| && 0 <= p < processes
    requires forall v | 0 <= v < |labels| :: labels[v] == if v < processes then v else -1
    ensures Occ(labels, p) == 1
  {
    LabelCount(labels, processes, p, |labels|);
  }

  lemma LeafOcc(leaves: seq<int>, j: nat)
    requires j < |leaves|
    ensures Occ(leaves, leaves[j]) > 0
  {
    CountPositive(leaves, leaves[j], |leaves|, j);
  }

  lemma LabelIn(labels: seq<int>, x: int)
    requires Occ(labels, x) > 0
    ensures x in labels
  {
    var v := CountWitness(labels, x, |labels|);
  }

  /** The constrained branch of `tm_build_tree_from_topology`, down to the tree. */
  method BuildConstrained(arity: seq<nat>, comm: Matrix, cs: seq<int>, cores: nat) returns (res: Option<Tree>)
    requires (forall d | 0 <= d < |arity| :: arity[d] > 0) && Product(arity) == cores
    requires Square(comm, |comm|) && NonNegative(comm, |comm|) && Increasing(cs) && Within(cs, 0, cores)
    ensures res.Some? <==> |comm| <= |cs|
    ensures res.Some? ==> |Leaves(res.value)| == cores && EachOnce(Leaves(res.value), |comm|)
    ensures res.Some? ==> forall r: nat | r < cores :: OnUsable(Leaves(res.value), cs, r)
    ensures res.Some? ==> GreedyTree(res.value, arity, comm, Labels(|comm|, cores), cs)
  {
    if |comm| > |cs| { return None; }
    BoundEnds(cs, cores);
    BoundGap(cs, 0, cores);
    var labels := Labels(|comm|, cores);
    var t := BuildLevel(arity, comm, labels, cs);
    PlacedOnce(Leaves(t), labels, cs, |comm|);
    res := Some(t);
  }

  /** What a placement promises for process p: its core is a constrained one. */
  ghost predicate OnConstraint(sigma: seq<int>, ids: seq<int>, p: nat)
    requires p < |sigma|
  {
    sigma[p] in ids
  }

  /** Every process is on the core of its leaf; leaf j belongs to core base[j / f]. */
  ghost predicate OnLeaves(sigma: seq<int>, leaves: seq<int>, base: seq<int>, f: nat)
    requires f > 0
  {
    |leaves| == |base| * f && forall j: nat | j < |leaves| :: LeafOn(sigma, leaves, base, f, j)
  }

  ghost predicate LeafOn(sigma: seq<int>, leaves: seq<int>, base: seq<int>, f: nat, j: nat)
    requires f > 0 && j < |leaves|
  {
    0 <= leaves[j] < |sigma| ==> 0 <= j / f < |base| && sigma[leaves[j]] == base[j / f]
  }

  lemma LeavesOn(sigma: seq<int>, leaves: seq<int>, base: seq<int>, f: nat, nodeId: seq<int>, nodeRank: seq<int>)
    requires f > 0 && Expanded(base, f, nodeId, nodeRank) && |leaves| == |nodeId|
    requires forall j: nat | j < |leaves| :: SigmaOk(leaves, nodeId, sigma, j)
    ensures OnLeaves(sigma, leaves, base, f)
  {
    forall j: nat | j < |leaves| ensures LeafOn(sigma, leaves, base, f, j) { assert SigmaOk(leaves, nodeId, sigma, j); }
  }

  /** The usable leaf ranks in increasing order are those of the constrained cores. */
  ghost predicate UsableRanks(cs: seq<int>, base: seq<int>, f: nat, ids: seq<int>)
    requires f > 0
  {
    && Increasing(cs) && (forall r | r in cs :: 0 <= r < |base| * f)
    && forall j: nat | j < |base| * f :: RankUsable(cs, base, f, ids, j)
  }

  ghost predicate RankUsable(cs: seq<int>, base: seq<int>, f: nat, ids: seq<int>, j: nat)
    requires f > 0
  {
    0 <= j / f < |base| && (j in cs <==> base[j / f] in ids)
  }

  lemma CoversUsable(cs: seq<int>, base: seq<int>, f: nat, ids: seq<int>, nodeId: seq<int>, nodeRank: seq<int>)
    requires f > 0 && Expanded(base, f, nodeId, nodeRank) && Covers(cs, nodeId, ids) && Increasing(cs)
    ensures UsableRanks(cs, base, f, ids)
  {
    hide Increasing;
    forall j: nat | j < |base| * f ensures RankUsable(cs, base, f, ids, j) { assert nodeId[j] == base[j / f]; }
  }

  /** From constrained cores and an affinity matrix to the core of each process.  No result exactly when there
      are more processes than usable slots; otherwise every process is on a constrained core, the rows of k list the
      processes of each core, at most f of them, and the tree the cores come from follows the affinity at every node. */
  method PlaceConstrained(arity: seq<nat>, base: seq<int>, rank: seq<int>, f: nat, ids: seq<int>, comm: Matrix)
    returns (res: Option<(seq<int>, seq<seq<int>>)>, ghost tree: Tree, ghost cs: seq<int>)
    requires Numbering(base, rank) && f > 0 && Ids(ids, |base|)
    requires (forall d | 0 <= d < |arity| :: arity[d] > 0) && Product(arity) == |base| * f
    requires Square(comm, |comm|) && NonNegative(comm, |comm|)
    ensures res.Some? <==> |comm| <= |ids| * f
    ensures res.Some? ==> |res.value.0| == |comm| && forall p: nat | p < |comm| :: OnConstraint(res.value.0, ids, p)
    ensures res.Some? ==> |res.value.1| == |base|
    ensures res.Some? ==> forall u | 0 <= u < |base| ::
        |res.value.1[u]| == f && RowInverts(res.value.1[u], res.value.0, u)
    ensures res.Some? ==> OnLeaves(res.value.0, Leaves(tree), base, f) && UsableRanks(cs, base, f, ids)
    ensures res.Some? ==> GreedyTree(tree, arity, comm, Labels(|comm|, |base| * f), cs)
  {
    hide Numbering, Ids, Covers, Increasing, Square, NonNegative, Product, RowInverts, OnUsable, Occ, EachOnce,
        GreedyTree,
        Labels;
    tree := Leaf(-1);
    var nodeId, nodeRank := Oversubscribe(base, rank, f);
    var usable := CheckConstraints(ids, nodeRank, f, base, rank, nodeId);
    cs := usable;
    CoverWithin(cs, nodeId, ids);
    CoversUsable(cs, base, f, ids, nodeId, nodeRank);
    var built := BuildConstrained(arity, comm, usable, |nodeId|);
    if built.None? { return None, tree, cs; }
    tree := built.value;
    var leaves := Leaves(built.value);
    forall u | 0 <= u < |base| ensures Occ(nodeId, u) <= f { CoreLeaves(base, rank, f, nodeId, nodeRank, u); }
    NodeIds(base, rank, f, nodeId, nodeRank);
    var sigma, k := MapTopology(leaves, nodeId, f, |base|, |comm|);
    LeavesOn(sigma, leaves, base, f, nodeId, nodeRank);
    forall p: nat | p < |comm| ensures OnConstraint(sigma, ids, p) {
      ConstrainedCore(leaves, nodeId, sigma, cs, ids, p);
    }
    res := Some((sigma, k));
  }

  lemma CoverWithin(cs: seq<int>, nodeId: seq<int>, ids: seq<int>)
    requires Covers(cs, nodeId, ids)
    ensures Within(cs, 0, |nodeId|)
  {
    assert forall i | 0 <= i < |cs| :: cs[i] in cs;
  }

  lemma NodeIds(base: seq<int>, rank: seq<int>, f: nat, nodeId: seq<int>, nodeRank: seq<int>)
    requires Numbering(base, rank) && f > 0 && Expanded(base, f, nodeId, nodeRank)
    ensures |nodeId| == |base| * f && forall j | 0 <= j < |nodeId| :: 0 <= nodeId[j] < |base|
  {
  }

  /** A process sits on a usable leaf, so its core is constrained. */
  lemma ConstrainedCore(leaves: seq<int>, nodeId: seq<int>, sigma: seq<int>, cs: seq<int>, ids: seq<int>, p: nat)
    requires |leaves| == |nodeId| && p < |sigma| && EachOnce(leaves, |sigma|) && Covers(cs, nodeId, ids)
    requires forall r: nat | r < |leaves| :: OnUsable(leaves, cs, r)
    requires forall j: nat | j < |leaves| :: SigmaOk(leaves, nodeId, sigma, j)
    ensures OnConstraint(sigma, ids, p)
  {
    hide Count;
    assert Occ(leaves, p) == 1;
    var j := CountWitness(leaves, p, |leaves|);
    assert OnUsable(leaves, cs, j) && SigmaOk(leaves, nodeId, sigma, j);
  }
}
