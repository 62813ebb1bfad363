/** What the matrices of the upper levels mean: the weight between two nodes is the weight
    between the processes below them, so every level is grouped by the original matrix. */
module LeafWeights {
  import opened Arithmetic
  import opened PartitionWeights
  import opened GroupEnumeration
  import opened GroupSelection
  import opened GroupValues
  import opened FewGroups
  import opened NodeGrouping
  import opened ConstrainedTree
  import opened BottomUpTree

  // ---------- Weight between leaves ----------

  /** Weight between two processes; a leaf without a process has none. */
  function PairWeight(root: Matrix, x: int, y: int): real
    requires Square(root, |root|)
  {
    if 0 <= x < |root| && 0 <= y < |root| then root[x][y] else 0.0
  }

  function RowWeight(root: Matrix, x: int, bs: seq<int>): real
    requires Square(root, |root|)
  {
    if bs == [] then 0.0 else RowWeight(root, x, bs[..|bs| - 1]) + PairWeight(root, x, bs[|bs| - 1])
  }

  /** Weight between two lists of leaves. */
  function LeafWeight(root: Matrix, xs: seq<int>, bs: seq<int>): real
    requires Square(root, |root|)
  {
    if xs == [] then 0.0 else LeafWeight(root, xs[..|xs| - 1], bs) + RowWeight(root, xs[|xs| - 1], bs)
  }

  lemma {:induction false} RowWeightSum(root: Matrix, x: int, bs: seq<int>, cs: seq<int>)
    requires Square(root, |root|)
    ensures RowWeight(root, x, bs + cs) == RowWeight(root, x, bs) + RowWeight(root, x, cs)
  {
    if cs == [] {
      assert bs + cs == bs;
    } else {
      RowWeightSum(root, x, bs, cs[..|cs| - 1]);
      assert (bs + cs)[..|bs + cs| - 1] == bs + cs[..|cs| - 1];
    }
  }

  lemma {:induction false} LeftSum(root: Matrix, xs: seq<int>, ys: seq<int>, bs: seq<int>)
    requires Square(root, |root|)
    ensures LeafWeight(root, xs + ys, bs) == LeafWeight(root, xs, bs) + LeafWeight(root, ys, bs)
  {
    if ys == [] {
      assert xs + ys == xs;
    } else {
      LeftSum(root, xs, ys[..|ys| - 1], bs);
      assert (xs + ys)[..|xs + ys| - 1] == xs + ys[..|ys| - 1];
    }
  }

  lemma {:induction false} RightSum(root: Matrix, xs: seq<int>, bs: seq<int>, cs: seq<int>)
    requires Square(root, |root|)
    ensures LeafWeight(root, xs, bs + cs) == LeafWeight(root, xs, bs) + LeafWeight(root, xs, cs)
  {
    if xs != [] {
      RightSum(root, xs[..|xs| - 1], bs, cs);
      RowWeightSum(root, xs[|xs| - 1], bs, cs);
    }
  }

  lemma {:induction false} NoRight(root: Matrix, xs: seq<int>)
    requires Square(root, |root|)
    ensures LeafWeight(root, xs, []) == 0.0
  {
    if xs != [] { NoRight(root, xs[..|xs| - 1]); }
  }

  ghost predicate Empty(xs: seq<int>)
  {
    forall i | 0 <= i < |xs| :: xs[i] == -1
  }

  lemma {:induction false} EmptyRow(root: Matrix, x: int, bs: seq<int>)
    requires Square(root, |root|) && (x == -1 || Empty(bs))
    ensures RowWeight(root, x, bs) == 0.0
  {
    if bs != [] { EmptyRow(root, x, bs[..|bs| - 1]); }
  }

  lemma {:induction false} EmptyWeight(root: Matrix, xs: seq<int>, bs: seq<int>)
    requires Square(root, |root|) && (Empty(xs) || Empty(bs))
    ensures LeafWeight(root, xs, bs) == 0.0
  {
    if xs != [] {
      EmptyWeight(root, xs[..|xs| - 1], bs);
      EmptyRow(root, xs[|xs| - 1], bs);
    }
  }

  lemma DumbEmpty(t: Tree)
    requires Dumb(t)
    ensures Empty(Leaves(t))
  {
    var xs := Leaves(t);
    forall i | 0 <= i < |xs| ensures xs[i] == -1 {
      assert xs[i] != -1 ==> Occ(Leaves(t), xs[i]) == 0;
      CountPositive(xs, xs[i], |xs|, i);
    }
  }

  lemma OneWeight(root: Matrix, x: int, y: int)
    requires Square(root, |root|)
    ensures LeafWeight(root, [x], [y]) == PairWeight(root, x, y)
  {
    var xs, ys := [x], [y];
    assert xs[..|xs| - 1] == [] && ys[..|ys| - 1] == [];
    assert RowWeight(root, x, ys) == RowWeight(root, x, ys[..|ys| - 1]) + PairWeight(root, x, y);
    assert LeafWeight(root, xs, ys) == LeafWeight(root, xs[..|xs| - 1], ys) + RowWeight(root, x, ys);
  }

  // ---------- Matrices of levels ----------

  /** The matrix of a level: between two nodes lies the weight between the processes below them. */
  ghost predicate Measures(mat: Matrix, root: Matrix, nodes: seq<Tree>)
    requires Square(root, |root|)
  {
    && |mat| == |nodes| && Square(mat, |mat|)
    && forall i, j | 0 <= i < |mat| && 0 <= j < |mat| && i != j ::
         mat[i][j] == LeafWeight(root, Leaves(nodes[i]), Leaves(nodes[j]))
  }

  /** Padding keeps it. */
  lemma PaddedMeasures(root: Matrix, nodes: seq<Tree>, mat: Matrix, level: seq<Tree>, res: Matrix)
    requires Square(root, |root|) && Measures(mat, root, nodes)
    requires PadsNodes(nodes, level, |level|) && PadsMatrix(mat, res, |level|)
    ensures Measures(res, root, level)
  {
    hide LeafWeight, Dumb, NonNegative;
    forall i, j | 0 <= i < |res| && 0 <= j < |res| && i != j
      ensures res[i][j] == LeafWeight(root, Leaves(level[i]), Leaves(level[j]))
    {
      if i >= |mat| {
        DumbEmpty(level[i]);
        EmptyWeight(root, Leaves(level[i]), Leaves(level[j]));
      } else if j >= |mat| {
        DumbEmpty(level[j]);
        EmptyWeight(root, Leaves(level[i]), Leaves(level[j]));
      }
    }
  }

  /** The leaves below the nodes of a group. */
  function Under(level: seq<Tree>, g: Group): seq<int>
    requires forall j | 0 <= j < |g| :: g[j] < |level|
  {
    LeavesOf(Kids(level, g))
  }

  lemma UnderMore(level: seq<Tree>, g: Group)
    requires g != [] && forall j | 0 <= j < |g| :: g[j] < |level|
    ensures Under(level, g) == Under(level, g[..|g| - 1]) + Leaves(level[g[|g| - 1]])
  {
    var last := |g| - 1;
    assert Kids(level, g)[..last] == Kids(level, g[..last]);
  }

  lemma {:induction false} PickedMeasures(mat: Matrix, root: Matrix, level: seq<Tree>, u: nat, h: Group, c: nat)
    requires Square(root, |root|) && Measures(mat, root, level) && u < |level| && c <= |h| && u !in h
    requires forall j | 0 <= j < |h| :: h[j] < |level|
    ensures Picked(mat[u], h, c) == LeafWeight(root, Leaves(level[u]), Under(level, h[..c]))
  {
    hide LeafWeight;
    if c == 0 {
      NoRight(root, Leaves(level[u]));
      assert Kids(level, h[..0]) == [];
    } else {
      PickedMeasures(mat, root, level, u, h, c - 1);
      UnderMore(level, h[..c]);
      assert h[..c][..c - 1] == h[..c - 1];
      RightSum(root, Leaves(level[u]), Under(level, h[..c - 1]), Leaves(level[h[c - 1]]));
    }
  }

  lemma {:induction false} BetweenMeasures(mat: Matrix, root: Matrix, level: seq<Tree>, g: Group, h: Group, c: nat)
    requires Square(root, |root|) && Measures(mat, root, level) && c <= |g| && Disjoint(g, h)
    requires (forall j | 0 <= j < |g| :: g[j] < |level|) && forall j | 0 <= j < |h| :: h[j] < |level|
    ensures Between(mat, g, h, c) == LeafWeight(root, Under(level, g[..c]), Under(level, h))
  {
    hide LeafWeight, Picked, Measures;
    if c == 0 {
      assert Under(level, g[..0]) == [] by { assert Kids(level, g[..0]) == []; }
      NoLeft(root, Under(level, h));
    } else {
      BetweenMeasures(mat, root, level, g, h, c - 1);
      UnderMore(level, g[..c]);
      assert g[..c][..c - 1] == g[..c - 1];
      LeftSum(root, Under(level, g[..c - 1]), Leaves(level[g[c - 1]]), Under(level, h));
      PickedMeasures(mat, root, level, g[c - 1], h, |h|);
      assert h[..|h|] == h;
    }
  }

  lemma NoLeft(root: Matrix, bs: seq<int>)
    requires Square(root, |root|)
    ensures LeafWeight(root, [], bs) == 0.0
  {
  }

  /** Aggregating keeps it. */
  lemma AggregateMeasures(mat: Matrix, root: Matrix, level: seq<Tree>, gs: seq<Group>, res: Matrix, k: nat, m: nat)
    requires Square(root, |root|) && Measures(mat, root, level) && Members(gs, |level|) && Covering(gs, |level|, k, m)
    requires Aggregates(mat, gs, res)
    ensures Measures(res, root, Parents(level, gs))
  {
    hide LeafWeight, Measures, Between, GroupOk;
    MeasuresSize(mat, root, level);
    var ps := Parents(level, gs);
    forall i: nat, j: nat | i < |gs| && j < |gs| && i != j
      ensures res[i][j] == LeafWeight(root, Leaves(ps[i]), Leaves(ps[j]))
    {
      assert RowOk(mat, gs, i, res[i]);
      assert Disjoint(gs[i], gs[j]) by { if i < j { assert Disjoint(gs[j], gs[i]); } }
      BetweenMeasures(mat, root, level, gs[i], gs[j], |gs[i]|);
      assert gs[i][..|gs[i]|] == gs[i];
    }
    MeasuresAre(res, root, ps);
  }

  lemma MeasuresSize(mat: Matrix, root: Matrix, nodes: seq<Tree>)
    requires Square(root, |root|) && Measures(mat, root, nodes)
    ensures |mat| == |nodes| && Square(mat, |mat|)
  {
  }

  lemma MeasuresAre(mat: Matrix, root: Matrix, nodes: seq<Tree>)
    requires Square(root, |root|) && |mat| == |nodes| && Square(mat, |mat|)
    requires forall i: nat, j: nat | i < |mat| && j < |mat| && i != j ::
        mat[i][j] == LeafWeight(root, Leaves(nodes[i]), Leaves(nodes[j]))
    ensures Measures(mat, root, nodes)
  {
  }

  // ---------- The whole tree ----------

  /** From these nodes the tree grew level by level, and each level was grouped by the weights between the processes
      below its nodes. */
  ghost predicate GrownFrom(nodes: seq<Tree>, root: Matrix, arity: seq<nat>, d: nat, t: Tree)
    requires d <= |arity| && (forall i | 0 <= i < |arity| :: arity[i] > 0) && Square(root, |root|)
    decreases d, 1
  {
    if d == 0 then nodes == [t] else exists level, mat, gs :: LevelFrom(nodes, root, arity, d, t, level, mat, gs)
  }

  ghost predicate LevelFrom(nodes: seq<Tree>, root: Matrix, arity: seq<nat>, d: nat, t: Tree, level: seq<Tree>,
                            mat: Matrix,
                            gs: seq<Group>)
    requires 0 < d <= |arity| && (forall i | 0 <= i < |arity| :: arity[i] > 0) && Square(root, |root|)
    decreases d, 0
  {
    && LevelOk(nodes, root, arity[d - 1], level, mat, gs)
    && GrownFrom(Parents(level, gs), root, arity, d - 1, t)
  }

  ghost predicate LevelOk(nodes: seq<Tree>, root: Matrix, a: nat, level: seq<Tree>, mat: Matrix, gs: seq<Group>)
    requires a > 0 && Square(root, |root|)
  {
    && PadsNodes(nodes, level, Padded(|nodes|, a)) && Measures(mat, root, level) && NonNegative(mat, |level|)
    && Ceiling(|nodes|, a) > 0 && Covering(gs, |level|, a, Ceiling(|nodes|, a)) && Members(gs, |level|)
    && WellGrouped(mat, a, Ceiling(|nodes|, a), gs)
  }

  lemma StepMeasures(nodes: seq<Tree>, mat: Matrix, root: Matrix, a: nat, s: Step)
    requires a > 0 && Square(root, |root|) && Measures(mat, root, nodes) && StepOk(nodes, mat, a, s)
    ensures LevelOk(nodes, root, a, s.level, s.mat, s.gs)
    ensures Members(s.gs, |s.level|) && Measures(s.up, root, Parents(s.level, s.gs))
  {
    hide Measures, PadsNodes, WellGrouped, Covering, Members, Aggregates, Ceiling, Padded, LeafWeight;
    LevelSize(nodes, s.level, Padded(|nodes|, a));
    PaddedMeasures(root, nodes, mat, s.level, s.mat);
    AggregateMeasures(s.mat, root, s.level, s.gs, s.up, a, Ceiling(|nodes|, a));
  }

  lemma LevelSize(nodes: seq<Tree>, level: seq<Tree>, size: nat)
    requires PadsNodes(nodes, level, size)
    ensures |level| == size
  {
  }

  /** Where the first matrix measures the first nodes, every matrix measures its nodes. */
  lemma {:induction false} AllMeasure(nodes: seq<Tree>, mat: Matrix, root: Matrix, arity: seq<nat>, d: nat, t: Tree)
    requires d <= |arity| && (forall i | 0 <= i < |arity| :: arity[i] > 0) && Square(root, |root|)
    requires Measures(mat, root, nodes) && Grown(nodes, mat, arity, d, t)
    ensures GrownFrom(nodes, root, arity, d, t)
    decreases d
  {
    hide Measures, StepOk, LevelOk, Square;
    if d > 0 {
      var s :| GrownBy(nodes, mat, arity, d, t, s);
      StepMeasures(nodes, mat, root, arity[d - 1], s);
      AllMeasure(Parents(s.level, s.gs), s.up, root, arity, d - 1, t);
      assert LevelFrom(nodes, root, arity, d, t, s.level, s.mat, s.gs);
    }
  }

  /** The processes measure themselves. */
  lemma ProcessesMeasure(mat: Matrix, nodes: seq<Tree>)
    requires Square(mat, |mat|) && |nodes| == |mat| && forall i | 0 <= i < |nodes| :: nodes[i] == Leaf(i)
    ensures Measures(mat, mat, nodes)
  {
    hide LeafWeight;
    forall i: nat, j: nat | i < |mat| && j < |mat| && i != j
      ensures mat[i][j] == LeafWeight(mat, Leaves(nodes[i]), Leaves(nodes[j]))
    {
      OneWeight(mat, i, j);
    }
    MeasuresAre(mat, mat, nodes);
  }

  // ---------- What the grouping of a level means ----------

  /** The leaves below the first t nodes that are not in the group. */
  function Outside(level: seq<Tree>, g: Group, t: nat): seq<int>
    requires t <= |level|
  {
    if t == 0 then []
    else if t - 1 in g then Outside(level, g, t - 1)
    else Outside(level, g, t - 1) + Leaves(level[t - 1])
  }

  lemma {:induction false} OutsideMeasures(mat: Matrix, root: Matrix, level: seq<Tree>, u: nat, g: Group, t: nat)
    requires Square(root, |root|) && Measures(mat, root, level) && u < |level| && u in g && t <= |level|
    ensures OutsideRow(mat[u], g, t) == LeafWeight(root, Leaves(level[u]), Outside(level, g, t))
  {
    hide LeafWeight;
    if t == 0 {
      NoRight(root, Leaves(level[u]));
    } else {
      OutsideMeasures(mat, root, level, u, g, t - 1);
      if t - 1 !in g { RightSum(root, Leaves(level[u]), Outside(level, g, t - 1), Leaves(level[t - 1])); }
    }
  }

  /** The value of a group is the weight between the processes below it and those below the other nodes. */
  lemma {:induction false} LeavingMeasures(mat: Matrix, root: Matrix, level: seq<Tree>, g: Group, c: nat)
    requires Square(root, |root|) && Measures(mat, root, level) && c <= |g| && forall j | 0 <= j < |g| :: g[j] < |level|
    ensures |mat| == |level| && Square(mat, |mat|)
    ensures Leaving(mat, g, c) == LeafWeight(root, Under(level, g[..c]), Outside(level, g, |level|))
  {
    hide LeafWeight, OutsideRow, Outside;
    if c == 0 {
      assert Under(level, g[..0]) == [] by { assert Kids(level, g[..0]) == []; }
      NoLeft(root, Outside(level, g, |level|));
    } else {
      LeavingMeasures(mat, root, level, g, c - 1);
      UnderMore(level, g[..c]);
      assert g[..c][..c - 1] == g[..c - 1];
      LeftSum(root, Under(level, g[..c - 1]), Leaves(level[g[c - 1]]), Outside(level, g, |level|));
      OutsideMeasures(mat, root, level, g[c - 1], g, |level|);
    }
  }

  /** Weight between processes of different groups, each pair counted from both sides. */
  function Cut(root: Matrix, level: seq<Tree>, gs: seq<Group>, c: nat): real
    requires Square(root, |root|) && Members(gs, |level|) && c <= |gs|
  {
    if c == 0 then 0.0
    else Cut(root, level, gs, c - 1) + LeafWeight(root, Under(level, gs[c - 1]), Outside(level, gs[c - 1], |level|))
  }

  lemma {:induction false} CutMeasures(mat: Matrix, root: Matrix, level: seq<Tree>, gs: seq<Group>, c: nat)
    requires Square(root, |root|) && Measures(mat, root, level) && Members(gs, |level|) && c <= |gs|
    ensures |mat| == |level| && Square(mat, |mat|) && TotalLeaving(mat, gs, c) == Cut(root, level, gs, c)
  {
    hide LeafWeight, Leaving, Outside;
    if c > 0 {
      CutMeasures(mat, root, level, gs, c - 1);
      LeavingMeasures(mat, root, level, gs[c - 1], |gs[c - 1]|);
      assert gs[c - 1][..|gs[c - 1]|] == gs[c - 1];
    }
  }

  /** On a level with few possible groups no more weight lies between the processes of different groups than if
      neighbouring nodes had been packed together. */
  lemma LevelNoWorse(nodes: seq<Tree>, root: Matrix, a: nat, level: seq<Tree>, mat: Matrix, gs: seq<Group>)
    requires a > 0 && Square(root, |root|) && LevelOk(nodes, root, a, level, mat, gs)
    requires Binomial(|level|, a) <= FEW
    ensures Members(gs, |level|) && Members(Packed(a, |gs|), |level|)
    ensures Cut(root, level, gs, |gs|) <= Cut(root, level, Packed(a, |gs|), |gs|)
  {
    hide LeafWeight, Measures, Cut, TotalLeaving, ByPasses, NonNegative, Dumb, Binomial;
    Padding(|nodes|, a);
    MeasuresSize(mat, root, level);
    NoWorseThanPacked(mat, a, |gs|, gs);
    CutMeasures(mat, root, level, gs, |gs|);
    CutMeasures(mat, root, level, Packed(a, |gs|), |gs|);
  }
}
