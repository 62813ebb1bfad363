/** The implicit binary tree of pivots that finds the bucket of a weight. */
module PivotTree {

  function Pow2(h: nat): nat
    ensures Pow2(h) > 0
  {
    if h == 0 then 1 else 2 * Pow2(h - 1)
  }

  /** Nonincreasing pivots, one fewer than buckets. */
  ghost predicate Pivots(pivot: seq<real>, n: nat)
  {
    |pivot| == n - 1 && forall a, b | 0 <= a <= b < |pivot| :: pivot[a] >= pivot[b]
  }

  /** Number of pivots not below val: the bucket of val. */
  function Bucket(pivot: seq<real>, val: real): (c: nat)
    ensures c <= |pivot|
  {
    if pivot == [] then 0 else Bucket(pivot[..|pivot| - 1], val) + if pivot[|pivot| - 1] >= val then 1 else 0
  }

  /** With nonincreasing pivots those are the first ones. */
  lemma {:induction false} BucketIs(pivot: seq<real>, val: real, a: nat)
    requires a < |pivot| && forall a, b | 0 <= a <= b < |pivot| :: pivot[a] >= pivot[b]
    ensures pivot[a] >= val <==> a < Bucket(pivot, val)
  {
    var last := |pivot| - 1;
    var rest := pivot[..last];
    if pivot[last] >= val {
      AllCounted(pivot, val);
    } else if a < last {
      BucketIs(rest, val, a);
    } else {
      assert Bucket(rest, val) <= last;
    }
  }

  lemma {:induction false} AllCounted(pivot: seq<real>, val: real)
    requires forall a | 0 <= a < |pivot| :: pivot[a] >= val
    ensures Bucket(pivot, val) == |pivot|
  {
    if pivot != [] { AllCounted(pivot[..|pivot| - 1], val); }
  }

  /** Larger weights are in earlier buckets. */
  lemma {:induction false} BucketMonotone(pivot: seq<real>, v: real, w: real)
    requires v >= w
    ensures Bucket(pivot, v) <= Bucket(pivot, w)
  {
    if pivot != [] { BucketMonotone(pivot[..|pivot| - 1], v, w); }
  }

  /** The subtree of height h at node i separates the buckets lo .. lo + 2^h - 1. */
  ghost predicate Separates(tree: seq<real>, pivot: seq<real>, i: nat, lo: nat, h: nat)
    decreases h
  {
    h == 0 ||
    (&& i < |tree| && lo + Pow2(h - 1) <= |pivot| && tree[i] == pivot[lo + Pow2(h - 1) - 1]
     && Separates(tree, pivot, 2 * i, lo, h - 1) && Separates(tree, pivot, 2 * i + 1, lo + Pow2(h - 1), h - 1))
  }

  /** Node x lies in the subtree of node i. */
  predicate Below(x: nat, i: nat)
  {
    x == i || (x > i && Below(x / 2, i))
  }

  lemma {:induction false} BelowChild(x: nat, i: nat, c: nat)
    requires i > 0 && (c == 2 * i || c == 2 * i + 1) && Below(x, c)
    ensures Below(x, i) && x > i
  {
    if x == c {
      assert x / 2 == i;
    } else {
      BelowChild(x / 2, i, c);
    }
  }

  lemma {:induction false} ChildrenApart(x: nat, i: nat)
    requires i > 0
    ensures !(Below(x, 2 * i) && Below(x, 2 * i + 1))
  {
    if x > 2 * i + 1 { ChildrenApart(x / 2, i); }
  }

  lemma {:induction false} SeparatesFrame(tree: seq<real>, other: seq<real>, pivot: seq<real>, i: nat, lo: nat, h: nat)
    requires i > 0 && |tree| == |other| && Separates(tree, pivot, i, lo, h)
    requires forall x: nat | x < |tree| && Below(x, i) :: tree[x] == other[x]
    ensures Separates(other, pivot, i, lo, h)
    decreases h
  {
    if h > 0 {
      assert Below(i, i);
      forall x: nat | x < |tree| && Below(x, 2 * i) ensures tree[x] == other[x] { BelowChild(x, i, 2 * i); }
      forall x: nat | x < |tree| && Below(x, 2 * i + 1) ensures tree[x] == other[x] { BelowChild(x, i, 2 * i + 1); }
      SeparatesFrame(tree, other, pivot, 2 * i, lo, h - 1);
      SeparatesFrame(tree, other, pivot, 2 * i + 1, lo + Pow2(h - 1), h - 1);
    }
  }

  /** `dfs`: store the middle pivot at node i, and the two halves below it. */
  method Dfs(i: nat, inf: nat, sup: nat, pivot: seq<real>, tree: seq<real>, depth: nat, maxDepth: nat)
    returns (res: seq<real>)
    requires 0 < i && depth <= maxDepth && 1 <= inf && sup <= |pivot| && sup - inf + 2 == Pow2(maxDepth - depth)
    requires (i + 1) * Pow2(maxDepth - depth) <= |tree|
    ensures |res| == |tree| && Separates(res, pivot, i, inf - 1, maxDepth - depth)
    ensures forall x: nat | x < |tree| && !Below(x, i) :: res[x] == tree[x]
    decreases maxDepth - depth
  {
    res := tree;
    if depth == maxDepth { return; }
    ghost var h := maxDepth - depth;
    var p := (inf + sup) / 2;
    assert p == inf - 1 + Pow2(h - 1);
    ChildSize(i, h, |tree|);
    res := res[i := pivot[p - 1]];
    res := Dfs(2 * i, inf, p - 1, pivot, res, depth + 1, maxDepth);
    ghost var left := res;
    res := Dfs(2 * i + 1, p + 1, sup, pivot, res, depth + 1, maxDepth);
    forall x: nat | x < |tree| && Below(x, 2 * i) ensures left[x] == res[x] { ChildrenApart(x, i); }
    SeparatesFrame(left, res, pivot, 2 * i, inf - 1, h - 1);
    forall x: nat | x < |tree| && !Below(x, i) ensures res[x] == tree[x] { NotBelowChild(x, i); }
    RootKept(i);
  }

  lemma ChildSize(i: nat, h: nat, size: nat)
    requires h > 0 && (i + 1) * Pow2(h) <= size
    ensures i < size && (2 * i + 1) * Pow2(h - 1) <= size && (2 * i + 2) * Pow2(h - 1) <= size
  {
    var w := Pow2(h - 1);
    assert (2 * i + 2) * w == (i + 1) * (2 * w);
    assert (2 * i + 2) * w == (2 * i + 1) * w + w;
    assert (i + 1) * (2 * w) >= i + 1 by { assert (i + 1) * (2 * w) == (i + 1) * (2 * w - 1) + (i + 1); }
  }

  lemma NotBelowChild(x: nat, i: nat)
    requires i > 0 && !Below(x, i)
    ensures x != i && !Below(x, 2 * i) && !Below(x, 2 * i + 1)
  {
    if Below(x, 2 * i) { BelowChild(x, i, 2 * i); }
    if Below(x, 2 * i + 1) { BelowChild(x, i, 2 * i + 1); }
  }

  lemma RootKept(i: nat)
    requires i > 0
    ensures !Below(i, 2 * i) && !Below(i, 2 * i + 1)
  {
  }

  /** `built_pivot_tree` for 2^d buckets: inner nodes hold pivots, the last half holds the bucket numbers. */
  method BuildPivotTree(pivot: seq<real>, d: nat) returns (tree: seq<real>)
    requires Pivots(pivot, Pow2(d))
    ensures |tree| == 2 * Pow2(d) && Separates(tree, pivot, 1, 0, d)
    ensures forall y | Pow2(d) <= y < 2 * Pow2(d) :: tree[y] == (y - Pow2(d)) as real
  {
    var n := Pow2(d);
    tree := seq(2 * n, _ => 0.0);
    tree := Dfs(1, 1, n - 1, pivot, tree, 0, d);
    ghost var inner := tree;
    for i := n to 2 * n
      invariant |tree| == 2 * n && forall y | n <= y < i :: tree[y] == (y - n) as real
      invariant forall x | 0 < x < n :: tree[x] == inner[x]
    {
      tree := tree[i := (i - n) as real];
    }
    Upper(inner, tree, pivot, 1, 0, d, n);
  }

  /** The inner nodes of a tree of height h have numbers below (i + 1) * 2^h / 2. */
  lemma {:induction false} Upper(tree: seq<real>, other: seq<real>, pivot: seq<real>, i: nat, lo: nat, h: nat, n: nat)
    requires i > 0 && |tree| == |other| && Separates(tree, pivot, i, lo, h) && (i + 1) * Pow2(h) <= 2 * n
    requires forall x | 0 < x < n && x < |tree| :: tree[x] == other[x]
    ensures Separates(other, pivot, i, lo, h)
    decreases h
  {
    if h > 0 {
      ChildSize(i, h, 2 * n);
      assert Pow2(h) == 2 * Pow2(h - 1);
      assert (i + 1) * Pow2(h) == 2 * ((i + 1) * Pow2(h - 1));
      assert (i + 1) * Pow2(h - 1) >= i + 1 by { Product(i + 1, Pow2(h - 1)); }
      Upper(tree, other, pivot, 2 * i, lo, h - 1, n);
      Upper(tree, other, pivot, 2 * i + 1, lo + Pow2(h - 1), h - 1, n);
    }
  }

  lemma {:induction false} Product(a: nat, b: nat)
    requires b > 0
    ensures a * b >= a
  {
    assert a * b == a * (b - 1) + a;
  }

  /** `bucket_id`: the descent ends at the number of pivots not below the weight. */
  method BucketId(tree: seq<real>, val: real, maxDepth: nat, ghost pivot: seq<real>) returns (id: int)
    requires Pivots(pivot, Pow2(maxDepth)) && |tree| == 2 * Pow2(maxDepth) && Separates(tree, pivot, 1, 0, maxDepth)
    requires forall y | Pow2(maxDepth) <= y < 2 * Pow2(maxDepth) :: tree[y] == (y - Pow2(maxDepth)) as real
    ensures id == Bucket(pivot, val)
  {
    hide Bucket, Scaled, Pow2;
    var p := 1;
    ghost var lo: nat, c := 0, Bucket(pivot, val);
    ScaledOnce(maxDepth);
    for k := 0 to maxDepth
      invariant 0 < p && Separates(tree, pivot, p, lo, maxDepth - k)
      invariant lo <= c < lo + Pow2(maxDepth - k)
      invariant Scaled(p, maxDepth - k) == Pow2(maxDepth) + lo
    {
      ghost var w := Pow2(maxDepth - k - 1);
      BucketIs(pivot, val, lo + w - 1);
      ScaledDown(p, maxDepth - k);
      if val > tree[p] {
        p := p * 2;
      } else {
        lo := lo + w;
        p := p * 2 + 1;
      }
    }
    ScaledDone(p);
    id := tree[p].Floor;
  }

  /** The number of buckets left of the leaves below node p, counted from the node numbers. */
  function Scaled(p: nat, h: nat): nat
  {
    p * Pow2(h)
  }

  lemma ScaledOnce(h: nat)
    ensures Scaled(1, h) == Pow2(h)
  {
  }

  lemma ScaledDone(p: nat)
    ensures Scaled(p, 0) == p && Pow2(0) == 1
  {
  }

  lemma ScaledDown(p: nat, h: nat)
    requires h > 0
    ensures Pow2(h) == 2 * Pow2(h - 1)
    ensures Scaled(p * 2, h - 1) == Scaled(p, h) && Scaled(p * 2 + 1, h - 1) == Scaled(p, h) + Pow2(h - 1)
  {
    var w := Pow2(h - 1);
    assert (p * 2 + 1) * w == p * 2 * w + w;
    assert p * (2 * w) == p * 2 * w;
  }
}
