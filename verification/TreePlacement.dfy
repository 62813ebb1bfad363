/** From an affinity matrix and a machine to the core of every process: the choice
    between the two tree constructions, and what both promise. */
module TreePlacement {
  import opened Arithmetic
  import opened PartitionWeights
  import opened ConstraintRanks
  import opened GroupValues
  import opened NodeGrouping
  import opened ConstrainedTree
  import opened BottomUpTree
  import opened LeafWeights
  import opened FiniteLists
  import opened ProcessMapping
  import opened Wrappers

  lemma {:induction false} ProcessLeaves(nodes: seq<Tree>, x: int)
    requires forall i | 0 <= i < |nodes| :: nodes[i] == Leaf(i)
    ensures Occ(LeavesOf(nodes), x) == if 0 <= x < |nodes| then 1 else 0
  {
    if nodes == [] {
      NothingThere();
    } else {
      var last := |nodes| - 1;
      ProcessLeaves(nodes[..last], x);
      OneMore(nodes[..last], nodes[last], x);
      OneLeaf(last, x);
      assert nodes == nodes[..last] + [nodes[last]];
    }
  }

  /** The lowest level: one leaf for every process. */
  function Processes(n: nat): seq<Tree>
  {
    seq(n, i => Leaf(i))
  }

  /** `bottom_up_build_tree_from_topology`: a tree exactly when there is a process and no level is too large to
      group; it has the machine's leaves, every process is on exactly one of them, and every level is grouped by the
      weights between the processes below its nodes. */
  method BuildBottomUp(arity: seq<nat>, mat: Matrix, sums: seq<real>) returns (res: Option<Tree>)
    requires arity != [] && (forall i | 0 <= i < |arity| :: arity[i] > 0) && |mat| <= Product(arity)
    requires Square(mat, |mat|) && NonNegative(mat, |mat|) && RowSums(mat, sums)
    ensures res.Some? <==> |mat| > 0 && Groupable(|mat|, arity, |arity|)
    ensures res.Some? ==> |Leaves(res.value)| == Product(arity) && EachOnce(Leaves(res.value), |mat|)
    ensures res.Some? ==> GrownFrom(Processes(|mat|), mat, arity, |arity|, res.value)
  {
    hide Occ, LeavesOf, Square, NonNegative, RowSums, Product, Groupable, Grown, GrownFrom;
    if |mat| == 0 { return None; }
    var nodes := Processes(|mat|);
    assert arity[..|arity|] == arity && arity[|arity|..] == [];
    var t := BuildLevelTopology(nodes, mat, sums, arity, |arity|);
    if t.None? { return None; }
    UniformLeaves(t.value, arity);
    ProcessesOnce(t.value, nodes);
    ProcessesMeasure(mat, nodes);
    AllMeasure(nodes, mat, mat, arity, |arity|, t.value);
    res := Some(t.value);
  }

  lemma ProcessesOnce(t: Tree, nodes: seq<Tree>)
    requires forall i | 0 <= i < |nodes| :: nodes[i] == Leaf(i)
    requires forall x | x != -1 :: Occ(Leaves(t), x) == Occ(LeavesOf(nodes), x)
    ensures EachOnce(Leaves(t), |nodes|)
  {
    hide Occ, LeavesOf;
    var leaves := Leaves(t);
    forall p | 0 <= p < |nodes| ensures Occ(leaves, p) == 1 { ProcessLeaves(nodes, p); }
    forall j | 0 <= j < |leaves| ensures -1 <= leaves[j] < |nodes| {
      LeafOcc(leaves, j);
      if leaves[j] != -1 { ProcessLeaves(nodes, leaves[j]); }
    }
  }

  /** Whether `tm_build_tree_from_topology` finds a tree: enough slots and, when every slot may be used,
      something to place and no level too large to group. */
  predicate Placeable(arity: seq<nat>, units: nat, f: nat, ids: nat, processes: nat)
    requires forall i | 0 <= i < |arity| :: arity[i] > 0
  {
    && processes <= ids * f
    && (ids == units || ids == 0 ==> processes > 0 && Groupable(processes, arity, |arity|))
  }

  /** How the tree follows the affinity matrix: level by level from the processes up when every slot may be used, and
      otherwise from the top down with the usable leaves. */
  ghost predicate Follows(tree: Tree, arity: seq<nat>, base: seq<int>, f: nat, ids: seq<int>, comm: Matrix)
    requires f > 0 && (forall i | 0 <= i < |arity| :: arity[i] > 0) && Square(comm, |comm|)
  {
    if |ids| == |base| || |ids| == 0 then GrownFrom(Processes(|comm|), comm, arity, |arity|, tree)
    else exists cs :: UsableRanks(cs, base, f, ids) && GreedyTree(tree, arity, comm, Labels(|comm|, |base| * f), cs)
  }

  /** `tm_build_tree_from_topology` and `tm_map_topology`: on success every process is on a constrained core, the rows
      of k are the processes of each core, at most f of them, and the core of a process is that of its leaf in a tree
      that follows the affinity matrix. */
  method PlaceProcesses(arity: seq<nat>, base: seq<int>, rank: seq<int>, f: nat, ids: seq<int>, comm: Matrix,
                        sums: seq<real>)
    returns (res: Option<(seq<int>, seq<seq<int>>)>, ghost tree: Tree)
    requires Numbering(base, rank) && f > 0 && Ids(ids, |base|)
    requires arity != [] && (forall d | 0 <= d < |arity| :: arity[d] > 0) && Product(arity) == |base| * f
    requires Square(comm, |comm|) && NonNegative(comm, |comm|) && RowSums(comm, sums)
    ensures res.Some? <==> Placeable(arity, |base|, f, |ids|, |comm|)
    ensures res.Some? ==> |res.value.0| == |comm| && forall p: nat | p < |comm| :: OnConstraint(res.value.0, ids, p)
    ensures res.Some? ==> |res.value.1| == |base|
    ensures res.Some? ==> forall u | 0 <= u < |base| ::
        |res.value.1[u]| == f && RowInverts(res.value.1[u], res.value.0, u)
    ensures res.Some? ==> OnLeaves(res.value.0, Leaves(tree), base, f) && Follows(tree, arity, base, f, ids, comm)
  {
    hide Numbering, Ids, Square, NonNegative, RowSums, Product, RowInverts, Occ, EachOnce, Groupable, GrownFrom,
        GreedyTree,
        UsableRanks, OnLeaves;
    tree := Leaf(-1);
    var nbConstraints, slots := |ids| * f, |base| * f;
    SlotCounts(|ids|, |base|, f);
    if |comm| > nbConstraints { return None, tree; }
    if nbConstraints == slots || nbConstraints == 0 {
      assert nbConstraints == 0 ==> |comm| == 0;
      SlotsWithin(arity, |ids|, |base|, f);
      var built := BuildBottomUp(arity, comm, sums);
      if built.None? { return None, tree; }
      tree := built.value;
      var nodeId, nodeRank := Oversubscribe(base, rank, f);
      forall u | 0 <= u < |base| ensures Occ(nodeId, u) <= f { CoreLeaves(base, rank, f, nodeId, nodeRank, u); }
      NodeIds(base, rank, f, nodeId, nodeRank);
      var sigma, k := MapTopology(Leaves(built.value), nodeId, f, |base|, |comm|);
      LeavesOn(sigma, Leaves(tree), base, f, nodeId, nodeRank);
      forall p: nat | p < |comm| ensures OnConstraint(sigma, ids, p) {
        AllCores(ids, |base|, sigma[p]);
        OnSomeCore(Leaves(tree), nodeId, sigma, p, |base|);
      }
      res := Some((sigma, k));
    } else {
      ghost var cs;
      var r;
      r, tree, cs := PlaceConstrained(arity, base, rank, f, ids, comm);
      res := Some(r.value);
    }
  }

  lemma SlotCounts(ids: nat, units: nat, f: nat)
    requires f > 0
    ensures (ids * f == units * f <==> ids == units) && (ids * f == 0 <==> ids == 0)
  {
    if ids < units { MulMonotone(ids + 1, units, f); }
    if units < ids { MulMonotone(units + 1, ids, f); }
  }

  lemma SlotsWithin(arity: seq<nat>, ids: nat, units: nat, f: nat)
    requires Product(arity) == units * f
    ensures ids * f == units * f ==> ids * f <= Product(arity)
  {
  }

  /** As many distinct cores as the machine has are all its cores. */
  lemma AllCores(ids: seq<int>, units: nat, u: int)
    requires Ids(ids, units) && |ids| == units
    ensures 0 <= u < units ==> u in ids
  {
    if 0 <= u < units && u !in ids {
      var more: seq<nat> := seq(units + 1, i requires 0 <= i < units + 1 => if i < units then ids[i] else u);
      Pigeonhole(more, units);
    }
  }

  lemma OnSomeCore(leaves: seq<int>, nodeId: seq<int>, sigma: seq<int>, p: nat, units: nat)
    requires |leaves| == |nodeId| && p < |sigma| && EachOnce(leaves, |sigma|)
    requires forall j: nat | j < |leaves| :: SigmaOk(leaves, nodeId, sigma, j)
    requires forall j | 0 <= j < |nodeId| :: 0 <= nodeId[j] < units
    ensures 0 <= sigma[p] < units
  {
    hide Count;
    assert Occ(leaves, p) == 1;
    var j := CountWitness(leaves, p, |leaves|);
    assert SigmaOk(leaves, nodeId, sigma, j);
  }
}
