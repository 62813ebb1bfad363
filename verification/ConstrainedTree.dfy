/** Top-down construction of the process tree when only some leaves of the machine
    may be used: partition, split matrix, vertices and constraints, recurse. */
module ConstrainedTree {
  import opened Arithmetic
  import opened PartitionWeights
  import opened ConstraintRanks
  import opened GreedyPartition

  /** A process tree: leaves carry a process number, or -1. */
  datatype Tree = Leaf(id: int) | Node(kids: seq<Tree>)

  function Product(arity: seq<nat>): nat
  {
    if arity == [] then 1 else arity[0] * Product(arity[1..])
  }

  /** Leaf labels in depth-first order. */
  function Leaves(t: Tree): seq<int>
  {
    match t
    case Leaf(id) => [id]
    case Node(kids) => LeavesOf(kids)
  }

  function LeavesOf(ts: seq<Tree>): seq<int>
  {
    if ts == [] then [] else LeavesOf(ts[..|ts| - 1]) + Leaves(ts[|ts| - 1])
  }

  // ---------- Members of a block ----------

  /** The labels, in order, of the first t vertices that lie in block p. */
  function Picks(labels: seq<int>, part: seq<int>, p: int, t: nat): (s: seq<int>)
    requires t <= |part| && t <= |labels|
    ensures |s| == Count(part, p, t)
  {
    if t == 0 then [] else Picks(labels, part, p, t - 1) + if part[t - 1] == p then [labels[t - 1]] else []
  }

  function PickAll(labels: seq<int>, part: seq<int>, k: nat, t: nat): seq<int>
    requires t <= |part| && t <= |labels|
  {
    if k == 0 then [] else PickAll(labels, part, k - 1, t) + Picks(labels, part, k - 1, t)
  }

  lemma PicksStep(labels: seq<int>, part: seq<int>, p: int, t: nat, x: int)
    requires 0 < t <= |part| && t <= |labels|
    ensures Occ(Picks(labels, part, p, t), x)
         == Occ(Picks(labels, part, p, t - 1), x) + if part[t - 1] == p && labels[t - 1] == x then 1 else 0
  {
    var before := Picks(labels, part, p, t - 1);
    if part[t - 1] == p {
      OccAppend(before, labels[t - 1], x);
    } else {
      assert Picks(labels, part, p, t) == before;
    }
  }

  lemma {:induction false} PickAllStep(labels: seq<int>, part: seq<int>, k: nat, t: nat, x: int)
    requires 0 < t <= |part| && t <= |labels|
    ensures Occ(PickAll(labels, part, k, t), x)
         == Occ(PickAll(labels, part, k, t - 1), x) + if 0 <= part[t - 1] < k && labels[t - 1] == x then 1 else 0
  {
    if k > 0 {
      hide Occ, Picks, Count;
      var a, a' := PickAll(labels, part, k - 1, t), PickAll(labels, part, k - 1, t - 1);
      var b, b' := Picks(labels, part, k - 1, t), Picks(labels, part, k - 1, t - 1);
      assert PickAll(labels, part, k, t) == a + b && PickAll(labels, part, k, t - 1) == a' + b';
      hide PickAll;
      PickAllStep(labels, part, k - 1, t, x);
      PicksStep(labels, part, k - 1, t, x);
      OccConcat(a, b, x);
      OccConcat(a', b', x);
    }
  }

  /** Splitting by block loses and repeats nothing. */
  lemma {:induction false} PickAllIsAll(labels: seq<int>, part: seq<int>, k: nat, t: nat, x: int)
    requires t <= |part| && t <= |labels| && forall v | 0 <= v < t :: 0 <= part[v] < k
    ensures Occ(PickAll(labels, part, k, t), x) == Count(labels, x, t)
  {
    if t == 0 {
      PickNone(labels, part, k);
    } else {
      PickAllIsAll(labels, part, k, t - 1, x);
      PickAllStep(labels, part, k, t, x);
    }
  }

  lemma {:induction false} PickNone(labels: seq<int>, part: seq<int>, k: nat)
    ensures PickAll(labels, part, k, 0) == []
  {
    if k > 0 { PickNone(labels, part, k - 1); }
  }

  /** Real vertices come first in every block, because they come first overall. */
  lemma {:induction false} RealFirst(labels: seq<int>, part: seq<int>, p: int, m: nat, t: nat)
    requires m <= t <= |part| && t <= |labels|
    requires forall v | 0 <= v < |labels| :: labels[v] == -1 <==> v >= m
    ensures Count(part, p, m) <= Count(part, p, t)
    ensures forall v | 0 <= v < Count(part, p, t) :: Picks(labels, part, p, t)[v] == -1 <==> v >= Count(part, p, m)
  {
    if t > m {
      RealFirst(labels, part, p, m, t - 1);
    } else if t > 0 {
      AllReal(labels, part, p, t);
    }
  }

  lemma {:induction false} AllReal(labels: seq<int>, part: seq<int>, p: int, t: nat)
    requires t <= |part| && t <= |labels| && forall v | 0 <= v < t :: labels[v] != -1
    ensures forall v | 0 <= v < Count(part, p, t) :: Picks(labels, part, p, t)[v] != -1
  {
    if t > 0 { AllReal(labels, part, p, t - 1); }
  }

  lemma {:induction false} CountMonotone(part: seq<int>, p: int, s: nat, t: nat)
    requires s <= t <= |part|
    ensures Count(part, p, s) <= Count(part, p, t)
  {
    if s < t { CountMonotone(part, p, s, t - 1); }
  }

  // ---------- `split_vertices`, `split_com_mat`, `split_constraints` ----------

  method SplitVertices(labels: seq<int>, part: seq<int>, p: int) returns (sub: seq<int>)
    requires |labels| == |part|
    ensures sub == Picks(labels, part, p, |part|)
  {
    sub := [];
    for j := 0 to |part|
      invariant sub == Picks(labels, part, p, j)
    {
      if part[j] == p { sub := sub + [labels[j]]; }
    }
  }

  /** The first t vertices that lie in block p. */
  function BlockMembers(part: seq<int>, p: int, t: nat): (s: seq<nat>)
    requires t <= |part|
    ensures |s| == Count(part, p, t) && forall i | 0 <= i < |s| :: s[i] < t && part[s[i]] == p
  {
    if t == 0 then [] else BlockMembers(part, p, t - 1) + if part[t - 1] == p then [t - 1] else []
  }

  /** Entry (i, j) and its mirror image hold the weight between the i-th and the j-th vertex. */
  ghost predicate Mirrors(sub: Matrix, comm: Matrix, perm: seq<nat>, i: nat, j: nat)
    requires Square(comm, |comm|) && Square(sub, |perm|) && i < |perm| && j < |perm| && perm[i] < |comm|
        && perm[j] < |comm|
  {
    sub[i][j] == sub[j][i] == comm[perm[i]][perm[j]]
  }

  /** The weights between the real vertices of block p, all taken from above the diagonal. */
  function SubMatrix(comm: Matrix, part: seq<int>, p: int): Matrix
    requires Square(comm, |comm|) && |comm| <= |part|
  {
    var perm := BlockMembers(part, p, |comm|);
    seq(|perm|, i requires 0 <= i < |perm| => seq(|perm|, j requires 0 <= j < |perm| =>
      if i <= j then comm[perm[i]][perm[j]] else comm[perm[j]][perm[i]]))
  }

  /** `split_com_mat` for one block: the weights between its real vertices, mirrored from above the diagonal. */
  method SplitMatrix(comm: Matrix, part: seq<int>, p: int) returns (sub: Matrix)
    requires Square(comm, |comm|) && NonNegative(comm, |comm|) && |comm| <= |part|
    ensures |sub| == Count(part, p, |comm|) && Square(sub, |sub|) && NonNegative(sub, |sub|)
    ensures forall i: nat, j: nat | i <= j < |sub| :: Mirrors(sub, comm, BlockMembers(part, p, |comm|), i, j)
    ensures sub == SubMatrix(comm, part, p)
  {
    var perm: seq<nat> := [];
    for j := 0 to |comm|
      invariant perm == BlockMembers(part, p, j)
    {
      if part[j] == p { perm := perm + [j]; }
    }
    var s := |perm|;
    sub := seq(s, _ => seq(s, _ => 0.0));
    for i := 0 to s
      invariant Square(sub, s) && forall a: nat, b: nat | a < i && a <= b < s :: Mirrors(sub, comm, perm, a, b)
    {
      for j := i to s
        invariant Square(sub, s) && forall a: nat, b: nat | a < i && a <= b < s :: Mirrors(sub, comm, perm, a, b)
        invariant forall b: nat | i <= b < j :: Mirrors(sub, comm, perm, i, b)
      {
        sub := Mirror(sub, comm, perm, i, j);
      }
    }
    MirrorsNonNegative(sub, comm, perm);
    MirrorsAll(sub, comm, part, p);
  }

  /** One entry and its mirror image; all others stay. */
  method Mirror(sub: Matrix, comm: Matrix, perm: seq<nat>, i: nat, j: nat) returns (res: Matrix)
    requires Square(comm, |comm|) && Square(sub, |perm|) && i <= j < |perm|
        && forall v | 0 <= v < |perm| :: perm[v] < |comm|
    ensures Square(res, |perm|) && Mirrors(res, comm, perm, i, j)
    ensures forall a: nat, b: nat | a <= b < |perm| && (a != i || b != j) && Mirrors(sub, comm, perm, a, b) ::
        Mirrors(res, comm, perm, a, b)
  {
    var w := comm[perm[i]][perm[j]];
    res := sub[i := sub[i][j := w]];
    res := res[j := res[j][i := w]];
  }

  lemma MirrorsNonNegative(sub: Matrix, comm: Matrix, perm: seq<nat>)
    requires Square(comm, |comm|) && NonNegative(comm, |comm|) && Square(sub, |perm|)
        && forall v | 0 <= v < |perm| :: perm[v] < |comm|
    requires forall i: nat, j: nat | i <= j < |perm| :: Mirrors(sub, comm, perm, i, j)
    ensures NonNegative(sub, |perm|)
  {
    forall i: nat, j: nat | i < |perm| && j < |perm| ensures sub[i][j] >= 0.0 {
      if i <= j { assert Mirrors(sub, comm, perm, i, j); } else { assert Mirrors(sub, comm, perm, j, i); }
    }
  }

  lemma MirrorsAll(sub: Matrix, comm: Matrix, part: seq<int>, p: int)
    requires Square(comm, |comm|) && |comm| <= |part| && Square(sub, Count(part, p, |comm|))
    requires forall i: nat, j: nat | i <= j < |sub| :: Mirrors(sub, comm, BlockMembers(part, p, |comm|), i, j)
    ensures sub == SubMatrix(comm, part, p)
  {
    var perm, all := BlockMembers(part, p, |comm|), SubMatrix(comm, part, p);
    forall i: nat | i < |perm| ensures sub[i] == all[i] {
      forall j: nat | j < |perm| ensures sub[i][j] == all[i][j] {
        if i <= j { assert Mirrors(sub, comm, perm, i, j); } else { assert Mirrors(sub, comm, perm, j, i); }
      }
    }
  }

  /** A matrix holds the weights of `root` between labelled processes. */
  ghost predicate Weights(comm: Matrix, root: Matrix, labels: seq<int>)
    requires Square(comm, |comm|) && Square(root, |root|)
  {
    && |comm| <= |labels| && (forall i | 0 <= i < |comm| :: 0 <= labels[i] < |root|)
    && forall i, j | 0 <= i < |comm| && 0 <= j < |comm| :: comm[i][j] == root[labels[i]][labels[j]]
  }

  /** The real members of a block carry the first of its labels. */
  lemma {:induction false} MemberLabels(labels: seq<int>, part: seq<int>, p: int, m: nat, t: nat)
    requires m <= t <= |part| && t <= |labels|
    ensures Count(part, p, m) <= Count(part, p, t)
    ensures forall i | 0 <= i < Count(part, p, m) :: Picks(labels, part, p, t)[i] == labels[BlockMembers(part, p, m)[i]]
    decreases t, m
  {
    if t > m {
      MemberLabels(labels, part, p, m, t - 1);
    } else if t > 0 {
      MemberLabels(labels, part, p, t - 1, t - 1);
    }
  }

  /** With a symmetric matrix every part of it, at any depth, holds the original weights between its labels. */
  lemma SameWeights(comm: Matrix, root: Matrix, labels: seq<int>, part: seq<int>, p: int)
    requires Square(comm, |comm|) && Square(root, |root|) && |comm| <= |part| == |labels| && Weights(comm, root, labels)
    requires forall i, j | 0 <= i < |root| && 0 <= j < |root| :: root[i][j] == root[j][i]
    ensures Square(SubMatrix(comm, part, p), Count(part, p, |comm|))
    ensures Weights(SubMatrix(comm, part, p), root, Picks(labels, part, p, |part|))
  {
    hide Picks, BlockMembers, Count, SubMatrix;
    SubSize(comm, part, p);
    MemberLabels(labels, part, p, |comm|, |part|);
    var perm, sub, mine := BlockMembers(part, p, |comm|), SubMatrix(comm, part, p), Picks(labels, part, p, |part|);
    forall i: nat | i < |sub| ensures mine[i] == labels[perm[i]] && 0 <= mine[i] < |root| { }
    forall i: nat, j: nat | i < |sub| && j < |sub| ensures sub[i][j] == root[mine[i]][mine[j]] {
      SubAt(comm, part, p, i, j);
      assert mine[i] == labels[perm[i]] && mine[j] == labels[perm[j]];
    }
  }

  lemma SubSize(comm: Matrix, part: seq<int>, p: int)
    requires Square(comm, |comm|) && |comm| <= |part|
    ensures Square(SubMatrix(comm, part, p), Count(part, p, |comm|))
  {
  }

  lemma SubAt(comm: Matrix, part: seq<int>, p: int, i: nat, j: nat)
    requires Square(comm, |comm|) && |comm| <= |part| && i < Count(part, p, |comm|) && j < Count(part, p, |comm|)
    ensures Square(SubMatrix(comm, part, p), Count(part, p, |comm|))
    ensures var perm := BlockMembers(part, p, |comm|);
            SubMatrix(comm, part, p)[i][j] == if i <= j then comm[perm[i]][perm[j]] else comm[perm[j]][perm[i]]
  {
  }

  /** The usable ranks of the p-th subtree, renumbered from 0. */
  function SubRanks(cs: seq<int>, p: nat, cap: nat): seq<int>
    requires Increasing(cs)
  {
    ScanOn(cs, Times(p, cap), Times(p, cap) + cap);
    var lo, hi := Bound(cs, Times(p, cap)), Bound(cs, Times(p, cap) + cap);
    seq(hi - lo, i requires 0 <= i < hi - lo => cs[lo + i] - Times(p, cap))
  }

  lemma SubRanksOk(cs: seq<int>, p: nat, cap: nat)
    requires Increasing(cs)
    ensures |SubRanks(cs, p, cap)| == Share(cs, p, cap)
    ensures Increasing(SubRanks(cs, p, cap)) && Within(SubRanks(cs, p, cap), 0, cap)
    ensures forall r :: r in SubRanks(cs, p, cap) ==> Times(p, cap) + r in cs
  {
    var lo, hi, sub := Bound(cs, Times(p, cap)), Bound(cs, Times(p, cap) + cap), SubRanks(cs, p, cap);
    BoundIs(cs, Times(p, cap));
    BoundIs(cs, Times(p, cap) + cap);
    forall i: nat, j: nat | i < j < |sub| ensures Before(sub, i, j) {
      assert Before(cs, lo + i, lo + j);
    }
    forall i | 0 <= i < |sub| ensures 0 <= sub[i] < cap && Times(p, cap) + sub[i] in cs { assert cs[lo + i] in cs; }
  }

  /** `tm_fill_tab`: copy the entries from `start` on that are below maxVal, shifted. */
  method FillTab(tab: seq<int>, start: nat, maxVal: int, shift: int) returns (res: seq<int>, end: nat)
    requires start <= |tab|
    ensures tab == [] ==> end == 0 && res == []
    ensures tab != [] ==> end == Scan(tab, maxVal, start) && |res| == end - start
    ensures tab != [] ==> forall i | 0 <= i < |res| :: res[i] == tab[start + i] - shift
  {
    res, end := [], 0;
    if |tab| == 0 { return; }
    end := FindEnd(tab, maxVal, start);
    if start == end { return; }
    for i := start to end
      invariant |res| == i - start && forall j | 0 <= j < |res| :: res[j] == tab[start + j] - shift
    {
      res := res + [tab[i] - shift];
    }
  }

  /** `split_constraints`; its error exit for oversized shares is not reachable. */
  method SplitConstraints(cs: seq<int>, k: nat, cap: nat) returns (tabs: seq<seq<int>>)
    requires Increasing(cs) && Within(cs, 0, k * cap)
    ensures |tabs| == k && forall p: nat | p < k :: tabs[p] == SubRanks(cs, p, cap)
  {
    hide Increasing, Within, SubRanks, Times;
    NextTimes(0, cap);
    tabs := [];
    var start := 0;
    BoundEnds(cs, k * cap);
    for i := 0 to k
      invariant |tabs| == i && forall p: nat | p < i :: tabs[p] == SubRanks(cs, p, cap)
      invariant start == Bound(cs, Times(i, cap))
    {
      var sub, end := SplitOne(cs, k, cap, i, start);
      if end - start > cap {
        assert false;
      }
      tabs := tabs + [sub];
      start := end;
    }
  }

  method SplitOne(cs: seq<int>, k: nat, cap: nat, i: nat, start: nat) returns (sub: seq<int>, end: nat)
    requires Increasing(cs) && Within(cs, 0, k * cap) && i < k && start == Bound(cs, Times(i, cap))
    ensures sub == SubRanks(cs, i, cap) && end == Bound(cs, Times(i + 1, cap)) && 0 <= end - start <= cap
  {
    hide Increasing, Within, SubRanks, Times;
    DumbStep(cs, k, cap, i);
    sub, end := FillTab(cs, start, Times(i + 1, cap), Times(i, cap));
    SubRanksAre(cs, i, cap, sub);
  }

  lemma SubRanksAre(cs: seq<int>, p: nat, cap: nat, sub: seq<int>)
    requires Increasing(cs) && |sub| == Share(cs, p, cap)
    requires forall i | 0 <= i < |sub| ::
        Bound(cs, Times(p, cap)) + i < |cs| && sub[i] == cs[Bound(cs, Times(p, cap)) + i] - Times(p, cap)
    ensures sub == SubRanks(cs, p, cap)
  {
  }

  // ---------- `kpartition_build_level_topology` ----------

  /** A subproblem: as many labels as leaves, real labels first, at least as many usable leaves as real labels. */
  ghost predicate Problem(arity: seq<nat>, comm: Matrix, labels: seq<int>, cs: seq<int>)
  {
    && (forall d | 0 <= d < |arity| :: arity[d] > 0)
    && |labels| == Product(arity)
    && |comm| <= |labels| && Square(comm, |comm|) && NonNegative(comm, |comm|)
    && (forall v | 0 <= v < |labels| :: labels[v] == -1 <==> v >= |comm|)
    && Increasing(cs) && Within(cs, 0, |labels|) && |comm| <= |cs|
  }

  ghost predicate OnUsable(leaves: seq<int>, cs: seq<int>, r: nat)
    requires r < |leaves|
  {
    leaves[r] != -1 ==> r in cs
  }

  /** Every label is on exactly one leaf, and real labels only on usable leaves. */
  ghost predicate Placement(leaves: seq<int>, labels: seq<int>, cs: seq<int>)
  {
    && |leaves| == |labels| && (forall x :: Occ(leaves, x) == Occ(labels, x))
    && forall r: nat | r < |leaves| :: OnUsable(leaves, cs, r)
  }

  lemma {:induction false} ProductPositive(arity: seq<nat>)
    requires forall d | 0 <= d < |arity| :: arity[d] > 0
    ensures Product(arity) > 0
  {
    if arity != [] { ProductPositive(arity[1..]); }
  }

  /** Each block of a balanced split is again such a subproblem. */
  lemma ChildProblem(arity: seq<nat>, comm: Matrix, labels: seq<int>, cs: seq<int>, part: seq<int>, p: nat, sub: Matrix)
    requires Problem(arity, comm, labels, cs) && arity != [] && p < arity[0]
    requires Split(part, arity[0], Product(arity[1..]), cs)
    requires |sub| == Count(part, p, |comm|) && Square(sub, |sub|) && NonNegative(sub, |sub|)
    ensures Problem(arity[1..], sub, Picks(labels, part, p, |part|), SubRanks(cs, p, Product(arity[1..])))
  {
    var cap := Product(arity[1..]);
    SubRanksOk(cs, p, cap);
    RealFirst(labels, part, p, |comm|, |part|);
    if cs != [] {
      CountMonotone(part, p, |comm|, |cs|);
    }
  }

  /** Leaves of the first p children, as far as they are built. */
  ghost predicate Partial(leaves: seq<int>, labels: seq<int>, part: seq<int>, cs: seq<int>, p: nat, lo: nat)
    requires |part| <= |labels|
  {
    && |leaves| == lo
    && (forall x :: Occ(leaves, x) == Occ(PickAll(labels, part, p, |part|), x))
    && forall r: nat | r < |leaves| :: OnUsable(leaves, cs, r)
  }

  lemma AddChild(leaves: seq<int>, child: seq<int>, labels: seq<int>, part: seq<int>, cs: seq<int>, p: nat, cap: nat,
                 lo: nat)
    requires |part| <= |labels| && Increasing(cs) && Partial(leaves, labels, part, cs, p, lo) && lo == Times(p, cap)
    requires Placement(child, Picks(labels, part, p, |part|), SubRanks(cs, p, cap)) && |child| == cap
    ensures Partial(leaves + child, labels, part, cs, p + 1, lo + cap)
  {
    hide Times, Occ, Picks, SubRanks, Increasing, OnUsable;
    var all := leaves + child;
    forall r: nat | r < |all| ensures OnUsable(all, cs, r) {
      ChildUsable(leaves, child, labels, part, cs, p, cap, lo, r);
    }
    forall x ensures Occ(all, x) == Occ(PickAll(labels, part, p + 1, |part|), x) {
      OccConcat(leaves, child, x);
      OccConcat(PickAll(labels, part, p, |part|), Picks(labels, part, p, |part|), x);
    }
  }

  lemma ChildUsable(leaves: seq<int>, child: seq<int>, labels: seq<int>, part: seq<int>, cs: seq<int>, p: nat, cap: nat,
                    lo: nat, r: nat)
    requires |part| <= |labels| && Increasing(cs) && Partial(leaves, labels, part, cs, p, lo) && lo == Times(p, cap)
    requires Placement(child, Picks(labels, part, p, |part|), SubRanks(cs, p, cap)) && r < |leaves + child|
    ensures OnUsable(leaves + child, cs, r)
  {
    hide SubRanks, PickAll, Picks, Times;
    if r < |leaves| {
      assert OnUsable(leaves, cs, r);
    } else {
      var r' := r - |leaves|;
      assert OnUsable(child, SubRanks(cs, p, cap), r');
      SubRanksOk(cs, p, cap);
      assert r == lo + r';
    }
  }

  /** At every node of the tree the labels went to the children as the best of ten greedy trials on the weights between
      them says, in their order, and with the usable leaves of each child. */
  ghost predicate GreedyTree(t: Tree, arity: seq<nat>, comm: Matrix, labels: seq<int>, cs: seq<int>)
    decreases |arity|, 2
  {
    && Problem(arity, comm, labels, cs)
    && if arity == [] then t == Leaf(labels[0])
       else t.Node? && exists part, trials :: Divided(t.kids, arity, comm, labels, cs, part, trials)
  }

  ghost predicate Divided(kids: seq<Tree>, arity: seq<nat>, comm: Matrix, labels: seq<int>, cs: seq<int>,
                          part: seq<int>,
                          trials: seq<seq<int>>)
    requires arity != [] && Problem(arity, comm, labels, cs)
    decreases |arity|, 1
  {
    && |part| == |labels| && |kids| == arity[0] && Chosen(part, trials, arity[0], Product(arity[1..]), cs, comm)
    && forall p: nat | p < |kids| :: GreedyKid(kids[p], arity, comm, labels, cs, part, p)
  }

  ghost predicate GreedyKid(kid: Tree, arity: seq<nat>, comm: Matrix, labels: seq<int>, cs: seq<int>, part: seq<int>,
                            p: nat)
    requires arity != [] && Problem(arity, comm, labels, cs) && |part| == |labels|
    decreases |arity|, 0
  {
    GreedyTree(kid, arity[1..], SubMatrix(comm, part, p), Picks(labels, part, p, |part|),
               SubRanks(cs, p, Product(arity[1..])))
  }

  /** `kpartition_build_level_topology` */
  method BuildLevel(arity: seq<nat>, comm: Matrix, labels: seq<int>, cs: seq<int>) returns (t: Tree)
    requires Problem(arity, comm, labels, cs)
    ensures Placement(Leaves(t), labels, cs) && GreedyTree(t, arity, comm, labels, cs)
    decreases |arity|, 1
  {
    if arity == [] {
      t := Leaf(labels[0]);
      LeafPlaced(comm, labels, cs);
      return;
    }
    hide Problem, Placement, Split, Product, Increasing, Within, Square, NonNegative, Chosen, GreedyKid;
    var k := arity[0];
    Divides(arity, comm, labels, cs);
    ghost var trials;
    var res;
    res, trials := KPartition(k, comm, |labels|, cs);
    var part := res.value;
    SplitFacts(part, k, Product(arity[1..]), cs);
    var kids := BuildKids(arity, comm, labels, cs, part);
    t := Node(kids);
    assert Divided(t.kids, arity, comm, labels, cs, part, trials);
  }

  /** The recursion over the k blocks of a partition. */
  method BuildKids(arity: seq<nat>, comm: Matrix, labels: seq<int>, cs: seq<int>, part: seq<int>)
    returns (kids: seq<Tree>)
    requires Problem(arity, comm, labels, cs) && arity != [] && Split(part, arity[0], Product(arity[1..]), cs)
        && |part| == |labels|
    ensures Placement(LeavesOf(kids), labels, cs) && |kids| == arity[0]
    ensures forall p: nat | p < |kids| :: GreedyKid(kids[p], arity, comm, labels, cs, part, p)
    decreases |arity|, 0
  {
    hide Problem, Placement, Partial, Split, Product, Increasing, Within, Square, NonNegative, Count, PickAll, SubRanks,
        Times, GreedyTree, SubMatrix, LeavesOf, Leaves, Picks;
    Divides(arity, comm, labels, cs);
    var k, cap := arity[0], Product(arity[1..]);
    SplitFacts(part, k, cap, cs);
    assert Times(k, cap) == |labels| by { TimesIs(k, cap); }
    NextTimes(0, cap);
    var tabs := SplitConstraints(cs, k, cap);
    kids := [];
    StartPartial(labels, part, cs);
    NoLeaves();
    ghost var lo := 0;
    for p := 0 to k
      invariant |kids| == p && lo == Times(p, cap) && Partial(LeavesOf(kids), labels, part, cs, p, lo)
      invariant forall q: nat | q < p :: GreedyKid(kids[q], arity, comm, labels, cs, part, q)
    {
      var sub := SplitMatrix(comm, part, p);
      var vs := SplitVertices(labels, part, p);
      ChildProblem(arity, comm, labels, cs, part, p, sub);
      var child := BuildLevel(arity[1..], sub, vs, tabs[p]);
      PlacedLength(Leaves(child), vs, tabs[p]);
      AddChild(LeavesOf(kids), Leaves(child), labels, part, cs, p, cap, lo);
      NextTimes(p, cap);
      lo := lo + cap;
      LeavesMore(kids, child);
      kids := kids + [child];
    }
    FinishPartial(LeavesOf(kids), labels, part, cs, k);
  }

  lemma NoLeaves()
    ensures LeavesOf([]) == []
  {
  }

  lemma LeavesMore(kids: seq<Tree>, child: Tree)
    ensures LeavesOf(kids + [child]) == LeavesOf(kids) + Leaves(child)
  {
    assert (kids + [child])[..|kids|] == kids;
  }

  lemma TimesIs(k: nat, cap: nat)
    ensures Times(k, cap) == k * cap
  {
  }

  lemma LeafPlaced(comm: Matrix, labels: seq<int>, cs: seq<int>)
    requires Problem([], comm, labels, cs)
    ensures |labels| == 1 && Placement([labels[0]], labels, cs)
  {
    assert labels == [labels[0]];
    assert OnUsable([labels[0]], cs, 0) by {
      if labels[0] != -1 { assert cs[0] == 0; }
    }
  }

  lemma Divides(arity: seq<nat>, comm: Matrix, labels: seq<int>, cs: seq<int>)
    requires Problem(arity, comm, labels, cs) && arity != []
    ensures var k, cap := arity[0], Product(arity[1..]);
            && k > 0 && cap > 0 && |labels| == k * cap && k <= |labels| && |labels| % k == 0 && |labels| / k == cap
            && |cs| <= |labels| && Increasing(cs) && Within(cs, 0, |labels|)
            && |comm| <= |labels| && Square(comm, |comm|) && NonNegative(comm, |comm|)
  {
    ProductPositive(arity[1..]);
    var k, cap := arity[0], Product(arity[1..]);
    TooMany(cs, |labels|);
    MulMonotone(1, cap, k);
    assert cap * k == |labels|;
    DivUnique(|labels|, k, cap, 0);
  }

  lemma SplitFacts(part: seq<int>, k: nat, cap: nat, cs: seq<int>)
    requires Split(part, k, cap, cs)
    ensures |part| == k * cap && forall v | 0 <= v < |part| :: 0 <= part[v] < k
    ensures forall p | 0 <= p < k :: Count(part, p, |part|) == cap
  {
  }

  lemma StartPartial(labels: seq<int>, part: seq<int>, cs: seq<int>)
    requires |part| <= |labels|
    ensures Partial([], labels, part, cs, 0, 0)
  {
  }

  lemma PlacedLength(leaves: seq<int>, labels: seq<int>, cs: seq<int>)
    requires Placement(leaves, labels, cs)
    ensures |leaves| == |labels|
  {
  }

  lemma FinishPartial(leaves: seq<int>, labels: seq<int>, part: seq<int>, cs: seq<int>, k: nat)
    requires |part| == |labels| && Partial(leaves, labels, part, cs, k, |labels|)
    requires forall v | 0 <= v < |part| :: 0 <= part[v] < k
    ensures Placement(leaves, labels, cs)
  {
    forall x ensures Occ(leaves, x) == Occ(labels, x) { PickAllIsAll(labels, part, k, |part|, x); }
  }
}
