/** Bottom-up construction of the process tree when every leaf may be used: pad the
    level, group its nodes, aggregate the matrix, go one level up. */
module BottomUpTree {
  import opened Arithmetic
  import opened PartitionWeights
  import opened GroupEnumeration
  import opened GroupSelection
  import opened GroupValues
  import opened NodeGrouping
  import opened ConstrainedTree
  import opened FiniteLists
  import opened Wrappers

  // ---------- Matrices from level to level ----------

  /** Weight between the first c members of g and all of h. */
  function Between(mat: Matrix, g: Group, h: Group, c: nat): real
    requires Square(mat, |mat|) && c <= |g| && (forall j | 0 <= j < |g| :: g[j] < |mat|)
        && forall j | 0 <= j < |h| :: h[j] < |mat|
  {
    if c == 0 then 0.0 else Between(mat, g, h, c - 1) + Picked(mat[g[c - 1]], h, |h|)
  }

  lemma {:induction false} PickedNonNegative(row: seq<real>, h: Group, c: nat)
    requires c <= |h| && (forall j | 0 <= j < c :: h[j] < |row|) && forall j | 0 <= j < |row| :: row[j] >= 0.0
    ensures Picked(row, h, c) >= 0.0
  {
    if c > 0 { PickedNonNegative(row, h, c - 1); }
  }

  lemma {:induction false} BetweenNonNegative(mat: Matrix, g: Group, h: Group, c: nat)
    requires Square(mat, |mat|) && NonNegative(mat, |mat|)
    requires c <= |g| && (forall j | 0 <= j < |g| :: g[j] < |mat|) && forall j | 0 <= j < |h| :: h[j] < |mat|
    ensures Between(mat, g, h, c) >= 0.0
  {
    if c > 0 {
      BetweenNonNegative(mat, g, h, c - 1);
      PickedNonNegative(mat[g[c - 1]], h, |h|);
    }
  }

  /** One entry of the aggregated matrix. */
  method Aggregate(mat: Matrix, g: Group, h: Group) returns (w: real)
    requires Square(mat, |mat|) && (forall j | 0 <= j < |g| :: g[j] < |mat|) && forall j | 0 <= j < |h| :: h[j] < |mat|
    ensures w == Between(mat, g, h, |g|)
  {
    w := 0.0;
    for i := 0 to |g|
      invariant w == Between(mat, g, h, i)
    {
      for j := 0 to |h|
        invariant w == Between(mat, g, h, i) + Picked(mat[g[i]], h, j)
      {
        w := w + mat[g[i]][h[j]];
      }
    }
  }

  ghost predicate Members(gs: seq<Group>, n: nat)
  {
    forall i, j | 0 <= i < |gs| && 0 <= j < |gs[i]| :: gs[i][j] < n
  }

  ghost predicate RowOk(mat: Matrix, gs: seq<Group>, i: nat, row: seq<real>)
    requires Square(mat, |mat|) && Members(gs, |mat|) && i < |gs| && |row| <= |gs|
  {
    forall j | 0 <= j < |row| :: row[j] == if i == j then 0.0 else Between(mat, gs[i], gs[j], |gs[i]|)
  }

  /** `aggregate_aff_mat`: entry (i, j) is the weight between groups i and j, with the row sums. */
  method AggregateMatrix(mat: Matrix, gs: seq<Group>) returns (res: Matrix, sums: seq<real>)
    requires Square(mat, |mat|) && NonNegative(mat, |mat|) && Members(gs, |mat|)
    ensures Square(res, |gs|) && NonNegative(res, |gs|) && RowSums(res, sums)
    ensures forall i: nat | i < |gs| :: RowOk(mat, gs, i, res[i])
  {
    hide NonNegative, Between;
    res, sums := [], [];
    for i := 0 to |gs|
      invariant |res| == |sums| == i && forall a: nat | a < i :: RowDone(mat, gs, a, res[a], sums[a])
    {
      var row, sum := [], 0.0;
      for j := 0 to |gs|
        invariant |row| == j && RowOk(mat, gs, i, row) && sum == RowSum(row, j)
      {
        var w := 0.0;
        if i != j { w := Aggregate(mat, gs[i], gs[j]); }
        ghost var before := row;
        row := row + [w];
        SameRowSum(before, row, j);
        if w != 0.0 { sum := sum + w; }
      }
      res, sums := res + [row], sums + [sum];
    }
    forall i: nat | i < |gs| ensures |res[i]| == |gs| && RowOk(mat, gs, i, res[i]) && sums[i] == RowSum(res[i], |gs|) {
      assert RowDone(mat, gs, i, res[i], sums[i]);
    }
    AggregateNonNegative(mat, gs, res);
  }

  ghost predicate RowDone(mat: Matrix, gs: seq<Group>, i: nat, row: seq<real>, sum: real)
    requires Square(mat, |mat|) && Members(gs, |mat|) && i < |gs|
  {
    |row| == |gs| && RowOk(mat, gs, i, row) && sum == RowSum(row, |gs|)
  }

  lemma AggregateNonNegative(mat: Matrix, gs: seq<Group>, res: Matrix)
    requires Square(mat, |mat|) && NonNegative(mat, |mat|) && Members(gs, |mat|) && Square(res, |gs|)
    requires forall i: nat | i < |gs| :: RowOk(mat, gs, i, res[i])
    ensures NonNegative(res, |gs|)
  {
    hide Between;
    forall i: nat, j: nat | i < |gs| && j < |gs| ensures res[i][j] >= 0.0 {
      assert RowOk(mat, gs, i, res[i]);
      BetweenNonNegative(mat, gs[i], gs[j], |gs[i]|);
    }
  }

  lemma {:induction false} SameRowSum(a: seq<real>, b: seq<real>, t: nat)
    requires t <= |a| && t <= |b| && forall j | 0 <= j < t :: a[j] == b[j]
    ensures RowSum(a, t) == RowSum(b, t)
  {
    if t > 0 { SameRowSum(a, b, t - 1); }
  }

  lemma {:induction false} ZeroRowSum(row: seq<real>, n: nat, t: nat)
    requires n <= t <= |row| && forall j | n <= j < t :: row[j] == 0.0
    ensures RowSum(row, t) == RowSum(row, n)
  {
    if n < t { ZeroRowSum(row, n, t - 1); }
  }

  /** `complete_aff_mat`: extra rows and columns of zeros. */
  method CompleteMatrix(mat: Matrix, sums: seq<real>, extra: nat) returns (res: Matrix, more: seq<real>)
    requires Square(mat, |mat|) && NonNegative(mat, |mat|) && RowSums(mat, sums)
    ensures Square(res, |mat| + extra) && NonNegative(res, |mat| + extra) && RowSums(res, more)
    ensures forall i, j | 0 <= i < |res| && 0 <= j < |res| ::
        res[i][j] == if i < |mat| && j < |mat| then mat[i][j] else 0.0
  {
    var n, zeros := |mat|, seq(extra, _ => 0.0);
    res := seq(n + extra, i requires 0 <= i < n + extra => if i < n then mat[i] + zeros else seq(n + extra, _ => 0.0));
    more := sums + zeros;
    forall i | 0 <= i < n + extra ensures more[i] == RowSum(res[i], n + extra) {
      if i < n {
        ZeroRowSum(res[i], n, n + extra);
        SameRowSum(mat[i], res[i], n);
      } else {
        ZeroRowSum(res[i], 0, n + extra);
      }
    }
  }

  // ---------- Trees ----------

  /** A tree of the machine's shape: the given arity at every level. */
  ghost predicate Uniform(t: Tree, arity: seq<nat>)
    decreases arity
  {
    if arity == [] then t.Leaf?
    else t.Node? && |t.kids| == arity[0] && forall i | 0 <= i < |t.kids| :: Uniform(t.kids[i], arity[1..])
  }

  /** Such a tree has exactly the product of the arities many leaves. */
  lemma {:induction false} UniformLeaves(t: Tree, arity: seq<nat>)
    requires Uniform(t, arity)
    ensures |Leaves(t)| == Product(arity)
    decreases arity, 1, 0
  {
    if arity != [] {
      KidLeaves(t.kids, arity, |t.kids|);
      assert t.kids[..|t.kids|] == t.kids;
    }
  }

  lemma {:induction false} KidLeaves(kids: seq<Tree>, arity: seq<nat>, c: nat)
    requires arity != [] && c <= |kids| && forall i | 0 <= i < |kids| :: Uniform(kids[i], arity[1..])
    ensures |LeavesOf(kids[..c])| == c * Product(arity[1..])
    decreases arity, 0, c
  {
    if c > 0 {
      KidLeaves(kids, arity, c - 1);
      UniformLeaves(kids[c - 1], arity[1..]);
      assert kids[..c][..c - 1] == kids[..c - 1];
    }
  }

  /** No process is below this node. */
  ghost predicate Dumb(t: Tree)
  {
    forall x | x != -1 :: Occ(Leaves(t), x) == 0
  }

  /** `create_dumb_tree`: a subtree without processes. */
  method CreateDumbTree(arity: seq<nat>) returns (t: Tree)
    ensures Uniform(t, arity) && Dumb(t)
    decreases |arity|
  {
    if arity == [] {
      t := Leaf(-1);
      forall x | x != -1 ensures Occ(Leaves(t), x) == 0 { OneLeaf(-1, x); }
      return;
    }
    hide Occ;
    var kids := [];
    NothingThere();
    for i := 0 to arity[0]
      invariant |kids| == i && forall j | 0 <= j < i :: Uniform(kids[j], arity[1..])
      invariant forall x | x != -1 :: Occ(LeavesOf(kids), x) == 0
    {
      var kid := CreateDumbTree(arity[1..]);
      forall x | x != -1 ensures Occ(LeavesOf(kids + [kid]), x) == 0 { OneMore(kids, kid, x); }
      kids := kids + [kid];
    }
    t := Node(kids);
    assert Leaves(t) == LeavesOf(kids);
  }

  lemma OneLeaf(id: int, x: int)
    ensures Occ(Leaves(Leaf(id)), x) == if x == id then 1 else 0
  {
    assert Leaves(Leaf(id)) == [] + [id];
    OccAppend([], id, x);
  }

  lemma NothingThere()
    ensures forall x :: Occ(LeavesOf([]), x) == 0
  {
  }

  lemma OneMore(ts: seq<Tree>, t: Tree, x: int)
    ensures Occ(LeavesOf(ts + [t]), x) == Occ(LeavesOf(ts), x) + Occ(Leaves(t), x)
  {
    hide Occ;
    assert (ts + [t])[..|ts|] == ts;
    OccConcat(LeavesOf(ts), Leaves(t), x);
  }

  // ---------- Regrouping keeps the leaves ----------

  /** How often x is a leaf of the trees with the given numbers. */
  ghost function At(nodes: seq<Tree>, idx: Group, x: int): nat
    requires forall i | 0 <= i < |idx| :: idx[i] < |nodes|
  {
    if idx == [] then 0 else At(nodes, idx[..|idx| - 1], x) + Occ(Leaves(nodes[idx[|idx| - 1]]), x)
  }

  lemma {:induction false} AtWithout(nodes: seq<Tree>, idx: Group, p: nat, x: int)
    requires p < |idx| && forall i | 0 <= i < |idx| :: idx[i] < |nodes|
    ensures At(nodes, idx, x) == At(nodes, Without(idx, p), x) + Occ(Leaves(nodes[idx[p]]), x)
  {
    hide Occ, Leaves;
    var last := |idx| - 1;
    if p == last {
      assert Without(idx, p) == idx[..last];
    } else {
      AtWithout(nodes, idx[..last], p, x);
      assert Without(idx, p)[..last - 1] == Without(idx[..last], p);
      assert Without(idx, p)[last - 1] == idx[last];
    }
  }

  /** n distinct numbers below n reach every one of n trees once. */
  lemma {:induction false} AtAll(nodes: seq<Tree>, idx: Group, n: nat, x: int)
    requires n <= |nodes| && |idx| == n && Distinct(idx) && forall i | 0 <= i < n :: idx[i] < n
    ensures At(nodes, idx, x) == Occ(LeavesOf(nodes[..n]), x)
    decreases n
  {
    hide Occ;
    if n == 0 {
      NothingThere();
      assert nodes[..n] == [];
    } else {
      if forall p | 0 <= p < n :: idx[p] != n - 1 {
        Pigeonhole(idx, n - 1);
        assert false;
      }
      var p: nat :| p < n && idx[p] == n - 1;
      WithoutSmaller(idx, p, n);
      AtAll(nodes, Without(idx, p), n - 1, x);
      AtWithout(nodes, idx, p, x);
      OneMore(nodes[..n - 1], nodes[n - 1], x);
      assert nodes[..n - 1] + [nodes[n - 1]] == nodes[..n];
    }
  }

  /** The members of the first c groups, one after the other. */
  ghost function Flat(gs: seq<Group>, c: nat): Group
    requires c <= |gs|
  {
    if c == 0 then [] else Flat(gs, c - 1) + gs[c - 1]
  }

  lemma {:induction false} FlatDistinct(gs: seq<Group>, n: nat, k: nat, m: nat, c: nat)
    requires Covering(gs, n, k, m) && c <= m
    ensures |Flat(gs, c)| == Times(c, k) && Distinct(Flat(gs, c))
        && forall i | 0 <= i < |Flat(gs, c)| :: Flat(gs, c)[i] < n
    ensures forall i, j: nat, b | 0 <= i < |Flat(gs, c)| && c <= j < m && 0 <= b < k :: Flat(gs, c)[i] != gs[j][b]
  {
    hide Times;
    if c == 0 {
      NextTimes(0, k);
    } else {
      FlatDistinct(gs, n, k, m, c - 1);
      NextTimes(c - 1, k);
      var f, g := Flat(gs, c - 1), gs[c - 1];
      assert GroupOk(g, n, 0, k);
      forall i, j: nat, b | 0 <= i < |Flat(gs, c)| && c <= j < m && 0 <= b < k ensures Flat(gs, c)[i] != gs[j][b] {
        assert Disjoint(gs[j], g);
      }
      forall i, j | 0 <= i < j < |Flat(gs, c)| ensures Flat(gs, c)[i] != Flat(gs, c)[j] {
        if i < |f| && j >= |f| { assert f[i] != gs[c - 1][j - |f|]; }
      }
    }
  }

  // ---------- One level, and the whole tree ----------

  /** The parents of a level. */
  function Parents(nodes: seq<Tree>, gs: seq<Group>): (ps: seq<Tree>)
    requires Members(gs, |nodes|)
  {
    seq(|gs|, i requires 0 <= i < |gs| => Node(Kids(nodes, gs[i])))
  }

  function Kids(nodes: seq<Tree>, g: Group): seq<Tree>
    requires forall j | 0 <= j < |g| :: g[j] < |nodes|
  {
    seq(|g|, j requires 0 <= j < |g| => nodes[g[j]])
  }

  lemma {:induction false} KidsAt(nodes: seq<Tree>, g: Group, x: int)
    requires forall j | 0 <= j < |g| :: g[j] < |nodes|
    ensures Occ(LeavesOf(Kids(nodes, g)), x) == At(nodes, g, x)
  {
    if g == [] {
      NothingThere();
    } else {
      var last := |g| - 1;
      KidsAt(nodes, g[..last], x);
      OneMore(Kids(nodes, g[..last]), nodes[g[last]], x);
      assert Kids(nodes, g[..last]) + [nodes[g[last]]] == Kids(nodes, g);
    }
  }

  lemma {:induction false} AtConcat(nodes: seq<Tree>, a: Group, b: Group, x: int)
    requires forall i | 0 <= i < |a + b| :: (a + b)[i] < |nodes|
    ensures (forall i | 0 <= i < |a| :: a[i] < |nodes|) && (forall i | 0 <= i < |b| :: b[i] < |nodes|)
    ensures At(nodes, a + b, x) == At(nodes, a, x) + At(nodes, b, x)
  {
    assert forall i | 0 <= i < |a| :: a[i] == (a + b)[i];
    assert forall i | 0 <= i < |b| :: b[i] == (a + b)[|a| + i];
    if b == [] {
      assert a + b == a;
    } else {
      var last := |b| - 1;
      AtConcat(nodes, a, b[..last], x);
      assert (a + b)[..|a| + last] == a + b[..last];
    }
  }

  lemma {:induction false} ParentsAt(nodes: seq<Tree>, gs: seq<Group>, c: nat, x: int)
    requires Members(gs, |nodes|) && c <= |gs| && forall i | 0 <= i < |Flat(gs, c)| :: Flat(gs, c)[i] < |nodes|
    ensures Occ(LeavesOf(Parents(nodes, gs)[..c]), x) == At(nodes, Flat(gs, c), x)
  {
    hide Occ, LeavesOf, Kids;
    var ps := Parents(nodes, gs);
    if c == 0 {
      NothingThere();
      assert ps[..c] == [];
    } else {
      assert Flat(gs, c) == Flat(gs, c - 1) + gs[c - 1];
      AtConcat(nodes, Flat(gs, c - 1), gs[c - 1], x);
      ParentsAt(nodes, gs, c - 1, x);
      KidsAt(nodes, gs[c - 1], x);
      OneMore(ps[..c - 1], ps[c - 1], x);
      assert ps[..c - 1] + [ps[c - 1]] == ps[..c];
    }
  }

  /** Grouping a level changes no leaf: every process is below the parents as often as it was below the nodes. */
  lemma SameLeaves(nodes: seq<Tree>, gs: seq<Group>, k: nat, m: nat, x: int)
    requires Covering(gs, |nodes|, k, m) && |nodes| == m * k && Members(gs, |nodes|)
    ensures Occ(LeavesOf(Parents(nodes, gs)), x) == Occ(LeavesOf(nodes), x)
  {
    FlatDistinct(gs, |nodes|, k, m, m);
    ParentsAt(nodes, gs, m, x);
    AtAll(nodes, Flat(gs, m), |nodes|, x);
    assert nodes[..|nodes|] == nodes && Parents(nodes, gs)[..m] == Parents(nodes, gs);
  }

  lemma CoverMembers(gs: seq<Group>, n: nat, k: nat, m: nat)
    requires Covering(gs, n, k, m)
    ensures Members(gs, n)
  {
    forall i | 0 <= i < |gs| ensures GroupOk(gs[i], n, 0, k) { }
  }

  /** Number of groups of size a for n nodes. */
  function Ceiling(n: nat, a: nat): nat
    requires a > 0
  {
    if n % a != 0 then n / a + 1 else n / a
  }

  /** The nodes of a level after padding. */
  function Padded(n: nat, a: nat): nat
    requires a > 0
  {
    if n % a != 0 then n - n % a + a else n
  }

  /** Grouping works on every level: none of them is too large once it is padded. */
  predicate Groupable(n: nat, arity: seq<nat>, d: nat)
    requires d <= |arity| && forall i | 0 <= i < |arity| :: arity[i] > 0
    decreases d
  {
    d == 0 || (!TooLarge(Padded(n, arity[d - 1]), arity[d - 1]) && Groupable(Ceiling(n, arity[d - 1]), arity, d - 1))
  }

  /** 30001 processes on cores that are alone below their parents. */
  lemma ArityOneTooLarge()
    ensures 30001 <= Product([30001, 1]) && !Groupable(30001, [30001, 1], 2)
  {
    assert [30001, 1][1..] == [1] && [1][1..] == [];
  }

  /** 32768 processes on cores that come in pairs; with two processes fewer the level can be grouped. */
  lemma ArityTwoTooLarge()
    ensures 32768 <= Product([16384, 2]) && !Groupable(32768, [16384, 2], 2)
    ensures Groupable(32766, [16384, 2], 2)
  {
    assert [16384, 2][1..] == [2] && [2][1..] == [];
  }

  lemma {:induction false} ProductLast(arity: seq<nat>)
    requires arity != []
    ensures Product(arity) == Product(arity[..|arity| - 1]) * arity[|arity| - 1]
  {
    var last := |arity| - 1;
    if last == 0 {
      assert arity[1..] == [] && arity[..last] == [];
    } else {
      ProductLast(arity[1..]);
      assert arity[1..][..last - 1] == arity[..last][1..];
      assert arity[0] * (Product(arity[..last][1..]) * arity[last])
          == arity[0] * Product(arity[..last][1..]) * arity[last];
    }
  }

  /** As long as there are no more nodes than places, the level above has no more groups than places. */
  lemma CeilingFits(n: nat, arity: seq<nat>, d: nat)
    requires 0 < d <= |arity| && (forall i | 0 <= i < |arity| :: arity[i] > 0) && 0 < n <= Product(arity[..d])
    ensures 0 < Ceiling(n, arity[d - 1]) <= Product(arity[..d - 1])
  {
    ProductLast(arity[..d]);
    assert arity[..d][..d - 1] == arity[..d - 1];
    CeilingBound(n, arity[d - 1], Product(arity[..d - 1]));
  }

  lemma CeilingBound(n: nat, a: nat, p: nat)
    requires 0 < a && 0 < n <= p * a
    ensures 0 < Ceiling(n, a) <= p
  {
    var q, r := n / a, n % a;
    assert n == q * a + r;
    assert q == 0 ==> n == r;
    assert (p + 1) * a == p * a + a;
    if p < q {
      MulMonotone(p + 1, q, a);
      assert false;
    }
    assert q == p ==> r == 0;
  }

  /** `complete_tab_node`: extra nodes without processes. */
  method CompleteNodes(nodes: seq<Tree>, extra: nat, arity: seq<nat>) returns (res: seq<Tree>)
    requires forall i | 0 <= i < |nodes| :: Uniform(nodes[i], arity)
    ensures |res| == |nodes| + extra && forall i | 0 <= i < |res| :: Uniform(res[i], arity)
    ensures forall i | 0 <= i < |res| :: if i < |nodes| then res[i] == nodes[i] else Dumb(res[i])
    ensures forall x | x != -1 :: Occ(LeavesOf(res), x) == Occ(LeavesOf(nodes), x)
  {
    hide Occ, Uniform, LeavesOf;
    res := nodes;
    for k := 0 to extra
      invariant |res| == |nodes| + k && forall i | 0 <= i < |res| :: Uniform(res[i], arity)
      invariant forall i | 0 <= i < |res| :: if i < |nodes| then res[i] == nodes[i] else Dumb(res[i])
      invariant forall x | x != -1 :: Occ(LeavesOf(res), x) == Occ(LeavesOf(nodes), x)
    {
      var t := CreateDumbTree(arity);
      forall x | x != -1 ensures Occ(LeavesOf(res + [t]), x) == Occ(LeavesOf(nodes), x) { OneMore(res, t, x); }
      res := res + [t];
    }
  }

  lemma ParentsUniform(nodes: seq<Tree>, gs: seq<Group>, arity: seq<nat>, d: nat, m: nat)
    requires 0 < d <= |arity| && (forall i | 0 <= i < |nodes| :: Uniform(nodes[i], arity[d..]))
    requires Covering(gs, |nodes|, arity[d - 1], m) && Members(gs, |nodes|)
    ensures forall i | 0 <= i < m :: Uniform(Parents(nodes, gs)[i], arity[d - 1..])
  {
    var up := arity[d - 1..];
    assert up[1..] == arity[d..];
    forall i | 0 <= i < m
      ensures Uniform(Parents(nodes, gs)[i], up)
    {
      assert GroupOk(gs[i], |nodes|, 0, arity[d - 1]);
    }
  }

  /** The padding makes the level a whole number of groups. */
  lemma Padding(n: nat, a: nat)
    requires a > 0
    ensures n % a == 0 ==> n == Ceiling(n, a) * a
    ensures n % a != 0 ==> a * (n / a + 1) - n > 0 && a * (n / a + 1) == Ceiling(n, a) * a && a > 1
    ensures Padded(n, a) == Ceiling(n, a) * a
  {
    assert n == (n / a) * a + n % a;
    assert a * (n / a + 1) == (n / a) * a + a;
  }

  // ---------- How the tree grew ----------

  /** One level: the padded nodes and their matrix, the groups, and the matrix of the groups. */
  datatype Step = Step(level: seq<Tree>, mat: Matrix, gs: seq<Group>, up: Matrix)

  /** The same nodes, then others without processes. */
  ghost predicate PadsNodes(nodes: seq<Tree>, level: seq<Tree>, size: nat)
  {
    |level| == size >= |nodes|
    && forall i | 0 <= i < |level| :: if i < |nodes| then level[i] == nodes[i] else Dumb(level[i])
  }

  /** The same weights, and none with the new nodes. */
  ghost predicate PadsMatrix(mat: Matrix, res: Matrix, size: nat)
    requires Square(mat, |mat|)
  {
    && Square(res, size) && NonNegative(res, size) && size >= |mat|
    && forall i, j | 0 <= i < size && 0 <= j < size :: res[i][j] == if i < |mat| && j < |mat| then mat[i][j] else 0.0
  }

  ghost predicate Aggregates(mat: Matrix, gs: seq<Group>, res: Matrix)
    requires Square(mat, |mat|) && Members(gs, |mat|)
  {
    Square(res, |gs|) && forall i: nat | i < |gs| :: RowOk(mat, gs, i, res[i])
  }

  /** From these nodes, with these weights between them, the tree grew level by level: pad, group, aggregate. */
  ghost predicate Grown(nodes: seq<Tree>, mat: Matrix, arity: seq<nat>, d: nat, t: Tree)
    requires d <= |arity| && forall i | 0 <= i < |arity| :: arity[i] > 0
    decreases d, 1
  {
    if d == 0 then nodes == [t] else exists s :: GrownBy(nodes, mat, arity, d, t, s)
  }

  ghost predicate GrownBy(nodes: seq<Tree>, mat: Matrix, arity: seq<nat>, d: nat, t: Tree, s: Step)
    requires 0 < d <= |arity| && forall i | 0 <= i < |arity| :: arity[i] > 0
    decreases d, 0
  {
    && StepOk(nodes, mat, arity[d - 1], s)
    && Grown(Parents(s.level, s.gs), s.up, arity, d - 1, t)
  }

  ghost predicate StepOk(nodes: seq<Tree>, mat: Matrix, a: nat, s: Step)
    requires a > 0
  {
    && |mat| == |nodes| > 0 && Square(mat, |mat|) && PadsNodes(nodes, s.level, Padded(|nodes|, a))
    && PadsMatrix(mat, s.mat, |s.level|) && Ceiling(|nodes|, a) > 0
    && Covering(s.gs, |s.level|, a, Ceiling(|nodes|, a)) && WellGrouped(s.mat, a, Ceiling(|nodes|, a), s.gs)
    && Members(s.gs, |s.level|) && Aggregates(s.mat, s.gs, s.up)
  }

  lemma StepTaken(nodes: seq<Tree>, mat: Matrix, a: nat, m: nat, s: Step)
    requires 0 < |nodes| == |mat| && 0 < a && Square(mat, |mat|) && m == Ceiling(|nodes|, a) > 0
    requires PadsNodes(nodes, s.level, Padded(|nodes|, a)) && PadsMatrix(mat, s.mat, |s.level|)
    requires Covering(s.gs, |s.level|, a, m) && WellGrouped(s.mat, a, m, s.gs) && Members(s.gs, |s.level|)
    requires Aggregates(s.mat, s.gs, s.up)
    ensures StepOk(nodes, mat, a, s)
  {
  }

  lemma NoPadding(nodes: seq<Tree>, mat: Matrix)
    requires |nodes| == |mat| && Square(mat, |mat|) && NonNegative(mat, |mat|)
    ensures PadsNodes(nodes, nodes, |nodes|) && PadsMatrix(mat, mat, |nodes|)
  {
  }

  /** `build_level_topology`: with at least one node and at most as many nodes as places, the recursion ends with
      exactly one node, a tree of the machine's shape that has the same processes as the nodes. */
  method BuildLevelTopology(nodes: seq<Tree>, mat: Matrix, sums: seq<real>, arity: seq<nat>, d: nat)
    returns (res: Option<Tree>)
    requires d <= |arity| && (forall i | 0 <= i < |arity| :: arity[i] > 0) && 0 < |nodes| <= Product(arity[..d])
    requires |mat| == |nodes| && Square(mat, |mat|) && NonNegative(mat, |mat|) && RowSums(mat, sums)
    requires forall i | 0 <= i < |nodes| :: Uniform(nodes[i], arity[d..])
    ensures res.Some? <==> Groupable(|nodes|, arity, d)
    ensures res.Some? ==> Uniform(res.value, arity)
    ensures res.Some? ==> forall x | x != -1 :: Occ(Leaves(res.value), x) == Occ(LeavesOf(nodes), x)
    ensures res.Some? ==> Grown(nodes, mat, arity, d, res.value)
    decreases d
  {
    hide Occ, LeavesOf, Uniform, Square, NonNegative, RowSums, Product, Covering, Members, Parents, StepOk, WellGrouped,
        RowOk, Dumb;
    if d == 0 {
      EmptyProduct(arity);
      if |nodes| == 1 {
        OnlyNode(nodes[0]);
        assert nodes == [nodes[0]] && arity[0..] == arity;
        return Some(nodes[0]);
      } else {
        assert false;
      }
    }
    var a, n := arity[d - 1], |nodes|;
    var level, m1, s1 := nodes, mat, sums;
    NoPadding(nodes, mat);
    Padding(n, a);
    if n % a != 0 {
      var extra := a * (n / a + 1) - n;
      m1, s1 := CompleteMatrix(mat, sums, extra);
      level := CompleteNodes(nodes, extra, arity[d..]);
      SquareSize(m1, n + extra);
    }
    CeilingFits(n, arity, d);
    var m := |level| / a;
    DivUnique(|level|, a, Ceiling(n, a), 0);
    var grouping := GroupNodes(m1, s1, a, m);
    if grouping.None? { return None; }
    var gs := grouping.value;
    CoverMembers(gs, |level|, a, m);
    CoverSize(gs, |level|, a, m);
    var m2, s2 := AggregateMatrix(m1, gs);
    SquareSize(m2, |gs|);
    var up := Parents(level, gs);
    ParentsSize(level, gs);
    ParentsUniform(level, gs, arity, d, m);
    forall x | x != -1 ensures Occ(LeavesOf(up), x) == Occ(LeavesOf(nodes), x) { SameLeaves(level, gs, a, m, x); }
    res := BuildLevelTopology(up, m2, s2, arity, d - 1);
    ghost var s := Step(level, m1, gs, m2);
    StepTaken(nodes, mat, a, m, s);
    assert res.Some? ==> GrownBy(nodes, mat, arity, d, res.value, s);
  }

  lemma EmptyProduct(arity: seq<nat>)
    ensures Product(arity[..0]) == 1
  {
    assert arity[..0] == [];
  }

  lemma OnlyNode(t: Tree)
    ensures LeavesOf([t]) == Leaves(t)
  {
    assert [t][..0] == [];
  }

  lemma SquareSize(m: Matrix, n: nat)
    requires Square(m, n)
    ensures |m| == n
  {
  }

  lemma CoverSize(gs: seq<Group>, n: nat, k: nat, m: nat)
    requires Covering(gs, n, k, m)
    ensures |gs| == m
  {
  }

  lemma ParentsSize(nodes: seq<Tree>, gs: seq<Group>)
    requires Members(gs, |nodes|)
    ensures |Parents(nodes, gs)| == |gs|
  {
  }
}
