/** The shape of a Fibonacci tree, without its memory layout: which node hangs
    under which, in the order in which consolidation linked them, and which nodes
    have lost a child since they were linked. */
module FiboForest {
  import opened SiblingRing

  /** `kids[x]` lists the children of x in linking order, `up` the parent of every
      node that has one.  `rank` only witnesses that climbing terminates. */
  datatype Forest = Forest(kids: map<Ptr, seq<Ptr>>, up: map<Ptr, Ptr>,
                           mark: map<Ptr, bool>, rank: map<Ptr, nat>)

  ghost predicate ChildAt(f: Forest, x: Ptr, i: nat)
    requires x in f.kids && i < |f.kids[x]|
  {
    f.kids[x][i] in f.up && f.up[f.kids[x][i]] == x
  }

  ghost predicate Hangs(f: Forest, c: Ptr)
    requires c in f.up
  {
    && c in f.kids && c in f.rank
    && f.up[c] in f.kids && f.up[c] in f.rank
    && c in f.kids[f.up[c]]
    && f.rank[c] < f.rank[f.up[c]]
  }

  /** Parent and child pointers agree and there is no cycle. */
  ghost predicate Shape(f: Forest)
  {
    && f.mark.Keys == f.kids.Keys
    && f.rank.Keys == f.kids.Keys
    && (forall c | c in f.up :: Hangs(f, c))
    && (forall x | x in f.kids :: NoDup(f.kids[x]))
    && (forall x, i: nat | x in f.kids && i < |f.kids[x]| :: ChildAt(f, x, i))
  }

  lemma UpInKids(f: Forest, c: Ptr)
    requires Shape(f)
    ensures c in f.up ==> c in f.kids && Hangs(f, c)
  {
    if c in f.up {
      assert Hangs(f, c);
    }
  }

  function Bit(b: bool): nat { if b then 1 else 0 }

  /** The i-th linked child of x has degree at least i - 1, or i while it has lost nothing;
      a node that is about to be marked or cut may be one short. */
  ghost predicate ThickAt(f: Forest, x: Ptr, i: nat, owing: Ptr)
    requires x in f.kids && i < |f.kids[x]|
  {
    var c := f.kids[x][i];
    c in f.kids && c in f.mark && |f.kids[c]| + Bit(f.mark[c]) + Bit(c == owing) >= i
  }

  ghost predicate Thick(f: Forest, owing: Ptr)
  {
    forall x, i: nat | x in f.kids && i < |f.kids[x]| :: ThickAt(f, x, i, owing)
  }

  ghost predicate Valid(f: Forest)
  {
    && Shape(f)
    && Thick(f, NULL)
    && NULL !in f.kids && ROOT !in f.kids
  }

  ghost predicate IsRoot(f: Forest, x: Ptr)
  {
    x in f.kids && x !in f.up
  }

  ghost function Index(s: seq<Ptr>, x: Ptr): (i: nat)
    requires x in s
    ensures i < |s| && s[i] == x
  {
    var i: nat :| i < |s| && s[i] == x;
    i
  }

  ghost function Without(s: seq<Ptr>, x: Ptr): seq<Ptr>
  {
    if x in s then RemoveAt(s, Index(s, x)) else s
  }

  lemma WithoutProps(s: seq<Ptr>, x: Ptr)
    requires NoDup(s)
    ensures NoDup(Without(s, x))
    ensures forall y :: y in Without(s, x) <==> y in s && y != x
    ensures |Without(s, x)| == |s| - Bit(x in s)
  {
    if x in s {
      var i := Index(s, x);
      RemoveNoDup(s, i);
      forall y | y in s && y != x
        ensures y in Without(s, x)
      {
        var j := Index(s, y);
        assert Without(s, x)[if j < i then j else j - 1] == y;
      }
    }
  }

  /** Every surviving child moves to an earlier or equal linking position. */
  lemma WithoutPosition(s: seq<Ptr>, x: Ptr, i: nat) returns (j: nat)
    requires i < |Without(s, x)|
    ensures i <= j < |s| && s[j] == Without(s, x)[i]
  {
    j := if x in s && i >= Index(s, x) then i + 1 else i;
  }

  // ---------- The five operations on shapes ----------

  ghost function Plant(f: Forest, n: Ptr): Forest
  {
    Forest(f.kids[n := []], f.up, f.mark[n := false], f.rank[n := 0])
  }

  /** Consolidation: root `c` becomes the last linked child of root `p`. */
  ghost function Graft(f: Forest, c: Ptr, p: Ptr): Forest
    requires c in f.kids && p in f.kids && p in f.mark && c in f.rank && p in f.rank
  {
    Forest(f.kids[p := f.kids[p] + [c]],
           f.up[c := p],
           f.mark[p := f.mark[p] && f.kids[p] != []][c := false],
           f.rank[p := if f.rank[p] > f.rank[c] then f.rank[p] else f.rank[c] + 1])
  }

  /** Node `n` leaves the forest and its children become roots. */
  ghost function Drop(f: Forest, n: Ptr): Forest
  {
    Forest(map x | x in f.kids && x != n :: Without(f.kids[x], n),
           map c | c in f.up && c != n && f.up[c] != n :: f.up[c],
           f.mark - {n},
           f.rank - {n})
  }

  /** Child `c` is cut from its parent and becomes a root. */
  ghost function Sever(f: Forest, c: Ptr): Forest
  {
    Forest(map x | x in f.kids :: Without(f.kids[x], c), f.up - {c}, f.mark, f.rank)
  }

  ghost function SetMark(f: Forest, p: Ptr): Forest
  {
    f.(mark := f.mark[p := true])
  }

  lemma PlantValid(f: Forest, n: Ptr)
    requires Valid(f) && n !in f.kids && n != NULL && n != ROOT
    ensures Valid(Plant(f, n))
  {
    var g := Plant(f, n);
    forall c | c in g.up ensures Hangs(g, c) { assert Hangs(f, c); }
    forall x, i: nat | x in g.kids && i < |g.kids[x]|
      ensures ChildAt(g, x, i) && ThickAt(g, x, i, NULL)
    {
      assert ChildAt(f, x, i) && ThickAt(f, x, i, NULL);
    }
  }

  lemma GraftShape(f: Forest, c: Ptr, p: Ptr)
    requires Valid(f) && IsRoot(f, c) && IsRoot(f, p) && c != p
    ensures Shape(Graft(f, c, p))
  {
    var g := Graft(f, c, p);
    forall d | d in g.up ensures Hangs(g, d) {
      if d == c {
        assert g.kids[p][|f.kids[p]|] == c;
      } else {
        assert Hangs(f, d);
      }
    }
    forall x, i: nat | x in g.kids && i < |g.kids[x]| ensures ChildAt(g, x, i) {
      if x != p || i < |f.kids[p]| { assert ChildAt(f, x, i); }
    }
    forall x | x in g.kids ensures NoDup(g.kids[x]) {
      if x == p {
        forall i: nat, j: nat | i < j < |g.kids[p]| ensures Differ(g.kids[p], i, j) {
          if j < |f.kids[p]| { DistinctAt(f.kids[p], i, j); } else { assert ChildAt(f, p, i); }
        }
      }
    }
  }

  lemma GraftValid(f: Forest, c: Ptr, p: Ptr)
    requires Valid(f) && IsRoot(f, c) && IsRoot(f, p) && c != p
    requires |f.kids[c]| == |f.kids[p]|
    ensures Valid(Graft(f, c, p))
  {
    GraftShape(f, c, p);
    var g := Graft(f, c, p);
    forall x, i: nat | x in g.kids && i < |g.kids[x]| ensures ThickAt(g, x, i, NULL) {
      if x != p || i < |f.kids[p]| {
        assert ChildAt(f, x, i) && ThickAt(f, x, i, NULL);
      }
    }
  }

  lemma DropShape(f: Forest, n: Ptr)
    requires Shape(f) && n in f.kids
    ensures Shape(Drop(f, n))
  {
    var g := Drop(f, n);
    forall c | c in g.up ensures Hangs(g, c) {
      assert Hangs(f, c);
      WithoutProps(f.kids[f.up[c]], n);
    }
    forall x | x in g.kids ensures NoDup(g.kids[x]) {
      WithoutProps(f.kids[x], n);
    }
    forall x, i: nat | x in g.kids && i < |g.kids[x]| ensures ChildAt(g, x, i) {
      WithoutProps(f.kids[x], n);
      var j := WithoutPosition(f.kids[x], n, i);
      assert g.kids[x][i] in g.kids[x];
      assert ChildAt(f, x, j);
    }
  }

  /** Dropping a node leaves at most its parent one child short. */
  lemma DropValid(f: Forest, n: Ptr)
    requires Valid(f) && n in f.kids
    ensures Shape(Drop(f, n))
    ensures Thick(Drop(f, n), if n in f.up then f.up[n] else NULL)
  {
    DropShape(f, n);
    var g := Drop(f, n);
    var owing := if n in f.up then f.up[n] else NULL;
    forall x, i: nat | x in g.kids && i < |g.kids[x]| ensures ThickAt(g, x, i, owing) {
      WithoutProps(f.kids[x], n);
      var j := WithoutPosition(f.kids[x], n, i);
      assert g.kids[x][i] in g.kids[x];
      assert ChildAt(f, x, j) && ThickAt(f, x, j, NULL);
      var c := f.kids[x][j];
      WithoutProps(f.kids[c], n);
      if n in f.kids[c] {
        assert ChildAt(f, c, Index(f.kids[c], n));
      }
    }
  }

  /** Cutting a node that owes one passes the debt to its parent. */
  lemma SeverValid(f: Forest, c: Ptr)
    requires Shape(f) && c in f.up && Thick(f, c)
    ensures Shape(Sever(f, c)) && Thick(Sever(f, c), f.up[c])
  {
    SeverShape(f, c);
    var g := Sever(f, c);
    forall x, i: nat | x in g.kids && i < |g.kids[x]| ensures ThickAt(g, x, i, f.up[c]) {
      WithoutProps(f.kids[x], c);
      var j := WithoutPosition(f.kids[x], c, i);
      assert g.kids[x][i] in g.kids[x];
      assert ThickAt(f, x, j, c);
      var d := f.kids[x][j];
      WithoutProps(f.kids[d], c);
      if c in f.kids[d] {
        assert ChildAt(f, d, Index(f.kids[d], c));
      }
    }
  }

  lemma SeverShape(f: Forest, c: Ptr)
    requires Shape(f) && c in f.up
    ensures Shape(Sever(f, c))
  {
    var g := Sever(f, c);
    forall d | d in g.up ensures Hangs(g, d) {
      assert Hangs(f, d);
      WithoutProps(f.kids[f.up[d]], c);
    }
    forall x | x in g.kids ensures NoDup(g.kids[x]) {
      WithoutProps(f.kids[x], c);
    }
    forall x, i: nat | x in g.kids && i < |g.kids[x]| ensures ChildAt(g, x, i) {
      WithoutProps(f.kids[x], c);
      var j := WithoutPosition(f.kids[x], c, i);
      assert g.kids[x][i] in g.kids[x];
      assert ChildAt(f, x, j);
    }
  }

  /** A first loss is paid for by the mark; a root owes nothing. */
  lemma SetMarkValid(f: Forest, p: Ptr)
    requires Shape(f) && p in f.kids && Thick(f, p)
    requires !f.mark[p] || p !in f.up
    ensures Shape(SetMark(f, p)) && Thick(SetMark(f, p), NULL)
  {
    var g := SetMark(f, p);
    forall d | d in g.up ensures Hangs(g, d) { assert Hangs(f, d); }
    forall x, i: nat | x in g.kids && i < |g.kids[x]|
      ensures ChildAt(g, x, i) && ThickAt(g, x, i, NULL)
    {
      assert ChildAt(f, x, i) && ThickAt(f, x, i, p);
    }
  }

  // ---------- Fibonacci bound ----------

  function Fib(n: nat): nat
  {
    if n < 2 then n else Fib(n - 1) + Fib(n - 2)
  }

  /** The nodes of the subtree headed by x. */
  ghost function Subtree(f: Forest, x: Ptr): set<Ptr>
    requires Shape(f) && x in f.kids
    decreases f.rank[x], 1, 0
  {
    {x} + SubtreesOf(f, x, |f.kids[x]|)
  }

  /** The nodes under the first `n` linked children of x. */
  ghost function SubtreesOf(f: Forest, x: Ptr, n: nat): set<Ptr>
    requires Shape(f) && x in f.kids && n <= |f.kids[x]|
    decreases f.rank[x], 0, n
  {
    if n == 0 then {} else
      assert ChildAt(f, x, n - 1);
      assert Hangs(f, f.kids[x][n - 1]);
      SubtreesOf(f, x, n - 1) + Subtree(f, f.kids[x][n - 1])
  }

  /** Every node below x climbs to x, with rising rank. */
  lemma SubtreeClimbs(f: Forest, x: Ptr, y: Ptr)
    requires Shape(f) && x in f.kids && y in Subtree(f, x)
    ensures y in f.kids && f.rank[y] <= f.rank[x]
    ensures y != x ==> y in f.up && f.up[y] in Subtree(f, x) && f.rank[y] < f.rank[x]
    decreases f.rank[x], 1, 0
  {
    if y != x {
      SubtreesClimb(f, x, |f.kids[x]|, y);
    }
  }

  lemma SubtreesClimb(f: Forest, x: Ptr, n: nat, y: Ptr)
    requires Shape(f) && x in f.kids && n <= |f.kids[x]| && y in SubtreesOf(f, x, n)
    ensures y in f.kids && y in f.up && f.rank[y] < f.rank[x]
    ensures f.up[y] == x || f.up[y] in SubtreesOf(f, x, n)
    decreases f.rank[x], 0, n
  {
    var c := f.kids[x][n - 1];
    assert ChildAt(f, x, n - 1) && Hangs(f, c);
    if y in SubtreesOf(f, x, n - 1) {
      SubtreesClimb(f, x, n - 1, y);
    } else {
      SubtreeClimbs(f, c, y);
    }
  }

  /** Two different children of one node share no descendant. */
  lemma SiblingsDisjoint(f: Forest, x: Ptr, a: Ptr, b: Ptr, y: Ptr)
    requires Shape(f) && x in f.kids && a in f.up && b in f.up
    requires f.up[a] == x && f.up[b] == x && a != b
    requires Hangs(f, a) && Hangs(f, b)
    requires y in f.rank && f.rank[y] <= f.rank[x]
    requires y in Subtree(f, a) && y in Subtree(f, b)
    ensures false
    decreases f.rank[x] - f.rank[y]
  {
    SubtreeClimbs(f, a, y);
    SubtreeClimbs(f, b, y);
    if y == a {
      SubtreeClimbs(f, b, x);
    } else if y == b {
      SubtreeClimbs(f, a, x);
    } else {
      assert Hangs(f, y);
      SubtreeClimbs(f, a, f.up[y]);
      SiblingsDisjoint(f, x, a, b, f.up[y]);
    }
  }

  lemma SubtreesHasKid(f: Forest, x: Ptr, n: nat, y: Ptr) returns (i: nat)
    requires Shape(f) && x in f.kids && n <= |f.kids[x]| && y in SubtreesOf(f, x, n)
    ensures i < n && f.kids[x][i] in f.kids && y in Subtree(f, f.kids[x][i])
  {
    assert ChildAt(f, x, n - 1) && Hangs(f, f.kids[x][n - 1]);
    if y in Subtree(f, f.kids[x][n - 1]) {
      i := n - 1;
    } else {
      i := SubtreesHasKid(f, x, n - 1, y);
    }
  }

  /** The classical size bound: a node of degree d heads at least Fib(d + 2) nodes. */
  lemma {:induction false} SubtreeSize(f: Forest, x: Ptr)
    requires Valid(f) && x in f.kids
    ensures |Subtree(f, x)| >= Fib(|f.kids[x]| + 2)
    decreases f.rank[x], 1, 0
  {
    SubtreesSize(f, x, |f.kids[x]|);
    if x in SubtreesOf(f, x, |f.kids[x]|) {
      SubtreesClimb(f, x, |f.kids[x]|, x);
    }
  }

  lemma {:induction false} SubtreesSize(f: Forest, x: Ptr, n: nat)
    requires Valid(f) && x in f.kids && n <= |f.kids[x]|
    ensures |SubtreesOf(f, x, n)| + 1 >= Fib(n + 2)
    decreases f.rank[x], 0, n
  {
    if n > 0 {
      var c := f.kids[x][n - 1];
      assert ChildAt(f, x, n - 1) && Hangs(f, c) && ThickAt(f, x, n - 1, NULL);
      SubtreesSize(f, x, n - 1);
      SubtreeSize(f, c);
      var before, last := SubtreesOf(f, x, n - 1), Subtree(f, c);
      forall y | y in before && y in last ensures false {
        var i := SubtreesHasKid(f, x, n - 1, y);
        assert ChildAt(f, x, i) && Hangs(f, f.kids[x][i]);
        DistinctAt(f.kids[x], i, n - 1);
        SubtreeClimbs(f, c, y);
        SiblingsDisjoint(f, x, f.kids[x][i], c, y);
      }
      assert before !! last;
      assert |before + last| == |before| + |last|;
      FibMonotone(if n >= 2 then n else 2, |f.kids[c]| + 2);
    }
  }

  lemma FibMonotone(a: nat, b: nat)
    requires a <= b
    ensures Fib(a) <= Fib(b)
    decreases b
  {
    if a < b {
      FibMonotone(a, b - 1);
    }
  }

  const CELLS: nat := 32
  const LIMIT: nat := 5702887

  lemma FibAtLimit()
    ensures Fib(CELLS + 2) == LIMIT
  {
    assert Fib(3) == 2 && Fib(4) == 3;
    assert Fib(5) == 5 && Fib(6) == 8;
    assert Fib(7) == 13 && Fib(8) == 21;
    assert Fib(9) == 34 && Fib(10) == 55;
    assert Fib(11) == 89 && Fib(12) == 144;
    assert Fib(13) == 233 && Fib(14) == 377;
    assert Fib(15) == 610 && Fib(16) == 987;
    assert Fib(17) == 1597 && Fib(18) == 2584;
    assert Fib(19) == 4181 && Fib(20) == 6765;
    assert Fib(21) == 10946 && Fib(22) == 17711;
    assert Fib(23) == 28657 && Fib(24) == 46368;
    assert Fib(25) == 75025 && Fib(26) == 121393;
    assert Fib(27) == 196418 && Fib(28) == 317811;
    assert Fib(29) == 514229 && Fib(30) == 832040;
    assert Fib(31) == 1346269 && Fib(32) == 2178309;
    assert Fib(33) == 3524578 && Fib(34) == 5702887;
  }

  /** In a forest of fewer than Fib(34) nodes no degree exceeds a 32-cell table. */
  lemma DegreeFitsTable(f: Forest, x: Ptr)
    requires Valid(f) && x in f.kids && |f.kids| < LIMIT
    ensures |f.kids[x]| < CELLS
  {
    hide Subtree, Fib;
    SubtreeSize(f, x);
    forall y | y in Subtree(f, x) ensures y in f.kids.Keys { SubtreeClimbs(f, x, y); }
    SubsetSize(Subtree(f, x), f.kids.Keys);
    FibAtLimit();
    if |f.kids[x]| >= CELLS {
      FibMonotone(CELLS + 2, |f.kids[x]| + 2);
    }
  }

  lemma SubsetSize<T>(a: set<T>, b: set<T>)
    requires a <= b
    ensures |a| <= |b|
  {
    assert b == a + (b - a);
  }

  // ---------- Heap order ----------

  ghost predicate Ordered(f: Forest, key: map<Ptr, real>)
  {
    && f.kids.Keys <= key.Keys
    && forall c | c in f.up :: f.up[c] in key && c in key && key[c] <= key[f.up[c]]
  }

  ghost function Above(f: Forest, n: Ptr): set<Ptr>
    requires Shape(f) && n in f.kids
  {
    set y | y in f.kids && f.rank[y] > f.rank[n]
  }

  /** Some root is at least as good as any given node. */
  lemma {:induction false} RootAbove(f: Forest, key: map<Ptr, real>, n: Ptr) returns (r: Ptr)
    requires Valid(f) && Ordered(f, key) && n in f.kids
    ensures IsRoot(f, r) && key[n] <= key[r]
    decreases |Above(f, n)|
  {
    if n !in f.up {
      r := n;
    } else {
      var p := f.up[n];
      assert Hangs(f, n);
      SubsetSize(Above(f, p), Above(f, n) - {p});
      r := RootAbove(f, key, p);
    }
  }
}
