/** Pairing the nodes of a level two by two: pairs are visited from the heaviest to the
    lightest through lazily sorted buckets, and a pair of free nodes becomes a group. */
module BucketGrouping {
  import opened PartitionWeights
  import opened PivotTree
  import opened FiniteLists

  datatype Coord = Coord(i: nat, j: nat)

  predicate PairOk(c: Coord, n: nat)
  {
    c.i < c.j < n
  }

  function W(tab: Matrix, c: Coord): real
    requires Square(tab, |tab|) && PairOk(c, |tab|)
  {
    tab[c.i][c.j]
  }

  // ---------- Sorting a bucket ----------

  /** `tab_cmp`: heavier first, then larger indices first. */
  predicate Precedes(tab: Matrix, x: Coord, y: Coord)
    requires Square(tab, |tab|) && PairOk(x, |tab|) && PairOk(y, |tab|)
  {
    W(tab, x) > W(tab, y) || (W(tab, x) == W(tab, y) && (x.i > y.i || (x.i == y.i && x.j > y.j)))
  }

  ghost predicate AllPairs(s: seq<Coord>, n: nat)
  {
    forall a | 0 <= a < |s| :: PairOk(s[a], n)
  }

  /** No pair comes after one that it precedes. */
  ghost predicate Sorted(tab: Matrix, s: seq<Coord>)
    requires Square(tab, |tab|) && AllPairs(s, |tab|)
  {
    forall a, b | 0 <= a < b < |s| :: !Precedes(tab, s[b], s[a])
  }

  lemma PrecedesOnce(tab: Matrix, x: Coord, y: Coord)
    requires Square(tab, |tab|) && PairOk(x, |tab|) && PairOk(y, |tab|) && Precedes(tab, x, y)
    ensures !Precedes(tab, y, x)
  {
  }

  lemma NotBeforeTransitive(tab: Matrix, x: Coord, y: Coord, z: Coord)
    requires Square(tab, |tab|) && PairOk(x, |tab|) && PairOk(y, |tab|) && PairOk(z, |tab|)
    requires !Precedes(tab, x, y) && !Precedes(tab, y, z)
    ensures !Precedes(tab, x, z)
  {
  }

  method InsertCoord(tab: Matrix, s: seq<Coord>, x: Coord) returns (t: seq<Coord>)
    requires Square(tab, |tab|) && AllPairs(s, |tab|) && PairOk(x, |tab|) && Sorted(tab, s)
    ensures AllPairs(t, |tab|) && Sorted(tab, t) && multiset(t) == multiset(s) + multiset{x} && |t| == |s| + 1
    ensures Distinct(s) && x !in s ==> Distinct(t)
  {
    hide Precedes, PairOk, Square, Distinct;
    var i := |s|;
    while i > 0 && Precedes(tab, x, s[i - 1])
      invariant 0 <= i <= |s| && forall a | i <= a < |s| :: Precedes(tab, x, s[a])
    {
      i := i - 1;
    }
    t := s[..i] + [x] + s[i..];
    forall a | 0 <= a < i ensures !Precedes(tab, x, s[a]) {
      if a < i - 1 { NotBeforeTransitive(tab, x, s[i - 1], s[a]); }
    }
    forall a | i <= a < |s| ensures !Precedes(tab, s[a], x) { PrecedesOnce(tab, x, s[a]); }
    Inserted(tab, s, x, i, t);
    assert s == s[..i] + s[i..];
    if Distinct(s) && x !in s { InsertedOnce(s, x, i, t); }
  }

  lemma Inserted(tab: Matrix, s: seq<Coord>, x: Coord, i: nat, t: seq<Coord>)
    requires Square(tab, |tab|) && AllPairs(s, |tab|) && PairOk(x, |tab|) && Sorted(tab, s)
    requires i <= |s| && t == s[..i] + [x] + s[i..]
    requires (forall a | 0 <= a < i :: !Precedes(tab, x, s[a])) && forall a | i <= a < |s| :: !Precedes(tab, s[a], x)
    ensures AllPairs(t, |tab|) && Sorted(tab, t)
  {
    hide Precedes, PairOk, Square;
    assert forall a | 0 <= a < |t| :: t[a] == if a < i then s[a] else if a == i then x else s[a - 1];
  }

  lemma InsertedOnce(s: seq<Coord>, x: Coord, i: nat, t: seq<Coord>)
    requires i <= |s| && t == s[..i] + [x] + s[i..] && Distinct(s) && x !in s
    ensures Distinct(t)
  {
    hide Distinct;
    assert s == s[..i] + s[i..];
    forall a, b | 0 <= a < b < |t| ensures t[a] != t[b] {
      var c, d := if a < i then a else a - 1, if b < i then b else b - 1;
      assert a != i ==> t[a] == s[c];
      assert b != i ==> t[b] == s[d];
      if a != i && b != i { Apiece(s, c, d); }
    }
    DistinctAll(t);
  }

  lemma Apiece(s: seq<Coord>, a: nat, b: nat)
    requires Distinct(s) && a < b < |s|
    ensures s[a] != s[b]
  {
  }

  lemma DistinctAll(s: seq<Coord>)
    requires forall a, b | 0 <= a < b < |s| :: s[a] != s[b]
    ensures Distinct(s)
  {
  }

  /** The library sort with `tab_cmp`. */
  method SortBucket(tab: Matrix, s: seq<Coord>) returns (t: seq<Coord>)
    requires Square(tab, |tab|) && AllPairs(s, |tab|)
    ensures AllPairs(t, |tab|) && Sorted(tab, t) && multiset(t) == multiset(s) && |t| == |s|
    ensures Distinct(s) ==> Distinct(t)
  {
    t := [];
    for i := 0 to |s|
      invariant AllPairs(t, |tab|) && Sorted(tab, t) && multiset(t) == multiset(s[..i]) && |t| == i
      invariant Distinct(s) ==> Distinct(t)
    {
      assert s[..i + 1] == s[..i] + [s[i]];
      assert s[i] in t ==> s[i] in multiset(t);
      t := InsertCoord(tab, t, s[i]);
    }
    assert s[..|s|] == s;
  }

  // ---------- Filling the buckets ----------

  ghost predicate Seen(c: Coord, i: nat, j: nat)
  {
    c.i < i || (c.i == i && c.j < j)
  }

  /** Bucket b holds exactly the pairs before (i, j) whose weight belongs there, each once. */
  ghost predicate Holds(tab: Matrix, pivot: seq<real>, bucket: seq<Coord>, b: nat, i: nat, j: nat)
    requires Square(tab, |tab|)
  {
    && Distinct(bucket)
    && forall c: Coord :: c in bucket <==> PairOk(c, |tab|) && Seen(c, i, j) && Bucket(pivot, W(tab, c)) == b
  }

  /** `fill_buckets`: every pair goes to the bucket of its weight. */
  method FillBuckets(tab: Matrix, pivot: seq<real>, d: nat) returns (buckets: seq<seq<Coord>>)
    requires Square(tab, |tab|) && Pivots(pivot, Pow2(d))
    ensures |buckets| == Pow2(d) && forall b: nat | b < |buckets| :: Holds(tab, pivot, buckets[b], b, |tab|, 0)
  {
    hide Holds, Pivots, Separates, Bucket, Pow2, Square;
    var tree := BuildPivotTree(pivot, d);
    buckets := seq(Pow2(d), _ => []);
    forall b: nat | b < |buckets| ensures Holds(tab, pivot, buckets[b], b, 0, 0) { HoldsStart(tab, pivot, b); }
    for i := 0 to |tab|
      invariant |buckets| == Pow2(d) && forall b: nat | b < |buckets| :: Holds(tab, pivot, buckets[b], b, i, 0)
    {
      forall b: nat | b < |buckets| ensures Holds(tab, pivot, buckets[b], b, i, i + 1) {
        HoldsShift(tab, pivot, buckets[b], b, i, 0, i, i + 1);
      }
      for j := i + 1 to |tab|
        invariant |buckets| == Pow2(d) && forall b: nat | b < |buckets| :: Holds(tab, pivot, buckets[b], b, i, j)
      {
        var c := Coord(i, j);
        SquareRow(tab, i);
        var id := BucketId(tree, tab[i][j], d, pivot);
        BucketRange(pivot, d, tab[i][j]);
        ghost var before := buckets;
        buckets := buckets[id := buckets[id] + [c]];
        forall b: nat | b < |buckets| ensures Holds(tab, pivot, buckets[b], b, i, j + 1) {
          HoldsAdd(tab, pivot, before[b], b, c);
        }
      }
      forall b: nat | b < |buckets| ensures Holds(tab, pivot, buckets[b], b, i + 1, 0) {
        HoldsShift(tab, pivot, buckets[b], b, i, |tab|, i + 1, 0);
      }
    }
  }

  lemma SquareRow(tab: Matrix, i: nat)
    requires Square(tab, |tab|) && i < |tab|
    ensures |tab[i]| == |tab|
  {
  }

  lemma BucketRange(pivot: seq<real>, d: nat, val: real)
    requires Pivots(pivot, Pow2(d))
    ensures Bucket(pivot, val) < Pow2(d)
  {
  }

  lemma HoldsStart(tab: Matrix, pivot: seq<real>, b: nat)
    requires Square(tab, |tab|)
    ensures Holds(tab, pivot, [], b, 0, 0)
  {
  }

  /** Positions between which there is no pair are the same. */
  lemma HoldsShift(tab: Matrix, pivot: seq<real>, bucket: seq<Coord>, b: nat, i: nat, j: nat, i2: nat, j2: nat)
    requires Square(tab, |tab|) && Holds(tab, pivot, bucket, b, i, j)
    requires (i == i2 && j == 0 && j2 == i + 1) || (j == |tab| && i2 == i + 1 && j2 == 0)
    ensures Holds(tab, pivot, bucket, b, i2, j2)
  {
    hide Bucket;
    forall c: Coord ensures PairOk(c, |tab|) && Seen(c, i, j) <==> PairOk(c, |tab|) && Seen(c, i2, j2) { }
  }

  lemma HoldsAdd(tab: Matrix, pivot: seq<real>, bucket: seq<Coord>, b: nat, c: Coord)
    requires Square(tab, |tab|) && PairOk(c, |tab|) && Holds(tab, pivot, bucket, b, c.i, c.j)
    ensures Bucket(pivot, W(tab, c)) == b ==> Holds(tab, pivot, bucket + [c], b, c.i, c.j + 1)
    ensures Bucket(pivot, W(tab, c)) != b ==> Holds(tab, pivot, bucket, b, c.i, c.j + 1)
  {
    hide Bucket, Square;
    assert c !in bucket;
    forall x: Coord ensures Seen(x, c.i, c.j + 1) <==> Seen(x, c.i, c.j) || x == c { }
  }

  // ---------- Lazy iteration ----------

  lemma FoundLater(s: seq<Coord>, m: nat, k: nat)
    requires m <= |s| && k < |s|
    ensures s[k] in s[..m] || k >= m
  {
    assert k < m ==> s[..m][k] == s[k];
  }

  lemma SameMembers(s: seq<Coord>, t: seq<Coord>)
    requires multiset(s) == multiset(t)
    ensures forall c :: c in s <==> c in t
  {
    forall c ensures c in s <==> c in t { assert c in multiset(s) <==> c in multiset(t); }
  }

  ghost predicate BucketOk(tab: Matrix, pivot: seq<real>, bucket: seq<Coord>, sorted: bool, b: nat)
    requires Square(tab, |tab|)
  {
    Holds(tab, pivot, bucket, b, |tab|, 0) && AllPairs(bucket, |tab|) && (sorted ==> Sorted(tab, bucket))
  }

  class BucketList {
    const tab: Matrix
    ghost const pivot: seq<real>
    var buckets: seq<seq<Coord>>
    var sorted: seq<bool>
    var cur: nat
    var indice: nat
    ghost var emitted: set<Coord>   // the pairs returned so far

    ghost predicate Before(c: Coord)
      requires Square(tab, |tab|) && cur < |buckets| && indice <= |buckets[cur]| && PairOk(c, |tab|)
      reads this
    {
      Bucket(pivot, W(tab, c)) < cur || (Bucket(pivot, W(tab, c)) == cur && c in buckets[cur][..indice])
    }

    ghost predicate Valid()
      reads this
    {
      && Square(tab, |tab|) && |buckets| == |sorted| > |pivot|
      && (forall b: nat | b < |buckets| :: BucketOk(tab, pivot, buckets[b], sorted[b], b))
      && cur < |buckets| && indice <= |buckets[cur]| && (indice > 0 ==> sorted[cur])
      && (forall c :: c in emitted <==> PairOk(c, |tab|) && Before(c))
    }

    constructor (tab: Matrix, pivot: seq<real>, d: nat)
      requires Square(tab, |tab|) && Pivots(pivot, Pow2(d))
      ensures Valid() && emitted == {} && this.tab == tab
    {
      var bs := FillBuckets(tab, pivot, d);
      this.tab, this.pivot, buckets := tab, pivot, bs;
      sorted, cur, indice, emitted := seq(Pow2(d), _ => false), 0, 0, {};
    }

    /** What the solver needs to know about the current bucket. */
    lemma Current(c: Coord)
      requires Valid() && PairOk(c, |tab|)
      ensures BucketOk(tab, pivot, buckets[cur], sorted[cur], cur) && Bucket(pivot, W(tab, c)) < |buckets|
      ensures c in buckets[cur] <==> Bucket(pivot, W(tab, c)) == cur
    {
      assert BucketOk(tab, pivot, buckets[cur], sorted[cur], cur);
      assert Seen(c, |tab|, 0);
    }

    /** Step over a bucket that is used up. */
    method NextBucket(ghost d: Coord)
      requires Valid() && PairOk(d, |tab|) && d !in emitted && |buckets[cur]| <= indice
      modifies this`cur, this`indice
      ensures Valid() && cur == old(cur) + 1 && indice == 0
    {
      hide Bucket, Holds, Sorted, Square, W;
      assert buckets[cur][..indice] == buckets[cur];
      forall c | PairOk(c, |tab|) ensures Before(c) <==> Bucket(pivot, W(tab, c)) <= cur { Current(c); }
      Current(d);
      indice := 0;
      cur := cur + 1;
    }

    /** Sort the current bucket when it is first read. */
    method SortCurrent()
      requires Valid() && !sorted[cur]
      modifies this`buckets, this`sorted
      ensures Valid() && sorted[cur] && |buckets| == |old(buckets)|
      ensures forall b | 0 <= b < |buckets| :: |buckets[b]| == |old(buckets)[b]|
    {
      hide Bucket, Sorted, Square, W, PairOk, Precedes;
      assert BucketOk(tab, pivot, buckets[cur], sorted[cur], cur);
      var t := SortBucket(tab, buckets[cur]);
      SameMembers(t, buckets[cur]);
      buckets := buckets[cur := t];
      sorted := sorted[cur := true];
    }

    /** No pair not returned yet precedes the one at the cursor. */
    lemma Heaviest(x: Coord)
      requires Valid() && sorted[cur] && indice < |buckets[cur]| && PairOk(x, |tab|) && x !in emitted
      ensures PairOk(buckets[cur][indice], |tab|) && !Precedes(tab, x, buckets[cur][indice])
    {
      var c := buckets[cur][indice];
      Current(x);
      assert PairOk(c, |tab|);
      Current(c);
      if Bucket(pivot, W(tab, x)) == cur {
        var k :| 0 <= k < |buckets[cur]| && buckets[cur][k] == x;
        FoundLater(buckets[cur], indice, k);
      } else if W(tab, x) >= W(tab, c) {
        BucketMonotone(pivot, W(tab, x), W(tab, c));
      }
    }

    /** `next_bucket_elem`: of the pairs not returned yet the one that comes first when all are sorted.  The ghost
        argument is such a pair. */
    method Next(ghost d: Coord) returns (c: Coord)
      requires Valid() && PairOk(d, |tab|) && d !in emitted
      modifies this
      ensures Valid() && c !in old(emitted) && emitted == old(emitted) + {c} && PairOk(c, |tab|)
      ensures forall x | PairOk(x, |tab|) && x !in old(emitted) :: !Precedes(tab, x, c)
      ensures Ahead(old(cur), old(indice), old(buckets))
    {
      hide Bucket, Sorted, Square, W, PairOk, Precedes, BucketOk, Before;
      while |buckets[cur]| <= indice
        invariant Valid() && buckets == old(buckets) && emitted == old(emitted)
        invariant cur > old(cur) || (cur == old(cur) && indice == old(indice))
        decreases |buckets| - cur
      {
        NextBucket(d);
      }
      if !sorted[cur] { SortCurrent(); }
      c := buckets[cur][indice];
      Heaviest(d);
      forall x | PairOk(x, |tab|) && x !in emitted ensures !Precedes(tab, x, c) { Heaviest(x); }
      Emit();
    }

    method Emit()
      requires Valid() && sorted[cur] && indice < |buckets[cur]|
      modifies this`indice, this`emitted
      ensures Valid() && indice == old(indice) + 1 && PairOk(buckets[cur][old(indice)], |tab|)
      ensures buckets[cur][old(indice)] !in old(emitted) && emitted == old(emitted) + {buckets[cur][old(indice)]}
    {
      hide Bucket, Sorted, Square, W, Precedes;
      assert BucketOk(tab, pivot, buckets[cur], sorted[cur], cur);
      ghost var c := buckets[cur][indice];
      assert buckets[cur][..indice + 1] == buckets[cur][..indice] + [c];
      Current(c);
      indice := indice + 1;
      emitted := emitted + {c};
    }

    /** The iteration has moved on: the measure that bounds it. */
    ghost predicate Ahead(wasCur: nat, wasIndice: nat, was: seq<seq<Coord>>)
      reads this
    {
      && |buckets| == |was| && (forall b | 0 <= b < |buckets| :: |buckets[b]| == |was[b]|)
      && (cur > wasCur || (cur == wasCur && indice > wasIndice)) && cur < |buckets| && indice <= |buckets[cur]|
    }
  }

  // ---------- The grouping ----------

  function Total(tab: Matrix, cs: seq<Coord>): real
    requires Square(tab, |tab|) && forall a | 0 <= a < |cs| :: PairOk(cs[a], |tab|)
  {
    if cs == [] then 0.0 else Total(tab, cs[..|cs| - 1]) + W(tab, cs[|cs| - 1])
  }

  function Sum(s: seq<real>): real
  {
    if s == [] then 0.0 else Sum(s[..|s| - 1]) + s[|s| - 1]
  }

  lemma {:induction false} SumUpdate(s: seq<real>, v: nat, x: real)
    requires v < |s|
    ensures Sum(s[v := x]) == Sum(s) - s[v] + x
  {
    var last := |s| - 1;
    if v == last {
      assert s[v := x][..last] == s[..last];
    } else {
      SumUpdate(s[..last], v, x);
      assert s[v := x][..last] == s[..last][v := x];
    }
  }

  lemma {:induction false} SumNonNegative(s: seq<real>)
    requires forall v | 0 <= v < |s| :: s[v] >= 0.0
    ensures Sum(s) >= 0.0
  {
    if s != [] { SumNonNegative(s[..|s| - 1]); }
  }

  lemma {:induction false} SumZero(n: nat)
    ensures Sum(seq(n, _ => 0.0)) == 0.0
  {
    if n > 0 {
      SumZero(n - 1);
      assert seq(n, _ => 0.0)[..n - 1] == seq(n - 1, _ => 0.0);
    }
  }

  predicate Apart(c: Coord, d: Coord)
  {
    c.i != d.i && c.i != d.j && c.j != d.i && c.j != d.j
  }

  /** Pairs of which no two share a node. */
  ghost predicate Matching(cs: seq<Coord>, n: nat)
  {
    && (forall a | 0 <= a < |cs| :: PairOk(cs[a], n))
    && forall a, b | 0 <= a < b < |cs| :: Apart(cs[a], cs[b])
  }

  /** Charging every pair to its two nodes: a matching weighs at most the sum of the charges. */
  lemma {:induction false} Charged(tab: Matrix, cs: seq<Coord>, charge: seq<real>)
    requires Square(tab, |tab|) && Matching(cs, |tab|) && |charge| == |tab|
    requires forall v | 0 <= v < |charge| :: charge[v] >= 0.0
    requires forall a | 0 <= a < |cs| :: W(tab, cs[a]) <= charge[cs[a].i] + charge[cs[a].j]
    ensures Total(tab, cs) <= Sum(charge)
  {
    if cs == [] {
      SumNonNegative(charge);
    } else {
      var last := |cs| - 1;
      var c := cs[last];
      var rest := charge[c.i := 0.0][c.j := 0.0];
      SumUpdate(charge, c.i, 0.0);
      SumUpdate(charge[c.i := 0.0], c.j, 0.0);
      forall a | 0 <= a < last ensures W(tab, cs[a]) <= rest[cs[a].i] + rest[cs[a].j] { assert Apart(cs[a], c); }
      Charged(tab, cs[..last], rest);
    }
  }

  /** parent gives the group of every node that has one, and the groups are pairs of such nodes. */
  ghost predicate Grouped(groups: seq<Coord>, parent: seq<int>)
  {
    && (forall k | 0 <= k < |groups| :: PairOk(groups[k], |parent|) && parent[groups[k].i] == k == parent[groups[k].j])
    && (forall v | 0 <= v < |parent| :: -1 <= parent[v] < |groups|)
    && (forall v | 0 <= v < |parent| && parent[v] != -1 :: v == groups[parent[v]].i || v == groups[parent[v]].j)
    && Count(parent, -1, |parent|) == |parent| - 2 * |groups|
  }

  /** A node in a group carries the weight of its group, which no later pair exceeds; every pair already
      visited is outweighed by the charge of one of its nodes. */
  ghost predicate Charges(tab: Matrix, groups: seq<Coord>, parent: seq<int>, charge: seq<real>, emitted: set<Coord>)
    requires Square(tab, |tab|)
  {
    && |parent| == |charge| == |tab| && (forall v | 0 <= v < |charge| :: charge[v] >= 0.0)
    && (forall c | c in emitted :: PairOk(c, |tab|) && Covered(tab, parent, charge, c))
    && (forall v, d | 0 <= v < |tab| && parent[v] != -1 && PairOk(d, |tab|) && d !in emitted :: charge[v] >= W(tab, d))
  }

  ghost predicate Covered(tab: Matrix, parent: seq<int>, charge: seq<real>, c: Coord)
    requires Square(tab, |tab|) && PairOk(c, |tab|) && |parent| == |charge| == |tab|
  {
    (parent[c.i] != -1 && charge[c.i] >= W(tab, c)) || (parent[c.j] != -1 && charge[c.j] >= W(tab, c))
  }

  /** `tm_try_add_edge` for groups of two: both nodes must be free. */
  method TryAddEdge(groups: seq<Coord>, parent: seq<int>, c: Coord) returns (gs: seq<Coord>, ps: seq<int>, ok: bool)
    requires Grouped(groups, parent) && PairOk(c, |parent|)
    ensures Grouped(gs, ps) && |ps| == |parent| && (ok <==> parent[c.i] == -1 == parent[c.j])
    ensures ok ==> gs == groups + [c] && ps == parent[c.i := |groups|][c.j := |groups|]
    ensures !ok ==> gs == groups && ps == parent
  {
    gs, ps, ok := groups, parent, false;
    if parent[c.i] != -1 { return; }
    if parent[c.j] != -1 { return; }
    CountMove(parent, -1, |parent|, c.i, |groups|);
    CountMove(parent[c.i := |groups|], -1, |parent|, c.j, |groups|);
    gs := groups + [c];
    ps := parent[c.i := |groups|][c.j := |groups|];
    ok := true;
  }

  /** The charges after visiting pair c, the heaviest of those not visited before. */
  lemma Recharge(tab: Matrix, groups: seq<Coord>, parent: seq<int>, charge: seq<real>, emitted: set<Coord>, c: Coord,
                 gs: seq<Coord>, ps: seq<int>)
    returns (after: seq<real>)
    requires Square(tab, |tab|) && NonNegative(tab, |tab|) && Charges(tab, groups, parent, charge, emitted)
    requires PairOk(c, |tab|) && c !in emitted
    requires forall x | PairOk(x, |tab|) && x !in emitted :: W(tab, x) <= W(tab, c)
    requires if parent[c.i] == -1 == parent[c.j] then gs == groups + [c]
        && ps == parent[c.i := |groups|][c.j := |groups|]
             else gs == groups && ps == parent
    requires forall v | 0 <= v < |parent| && parent[v] == -1 :: charge[v] == 0.0
    ensures Charges(tab, gs, ps, after, emitted + {c})
    ensures forall v | 0 <= v < |ps| && ps[v] == -1 :: after[v] == 0.0
    ensures Sum(after) == Sum(charge) + if parent[c.i] == -1 == parent[c.j] then 2.0 * W(tab, c) else 0.0
  {
    after := charge;
    if parent[c.i] == -1 == parent[c.j] {
      var w := W(tab, c);
      after := charge[c.i := w][c.j := w];
      SumUpdate(charge, c.i, w);
      SumUpdate(charge[c.i := w], c.j, w);
      forall x | x in emitted ensures Covered(tab, ps, after, x) { assert Covered(tab, parent, charge, x); }
    }
  }

  /** A pair of nodes that are in none of the first a groups. */
  ghost predicate FreeOf(x: Coord, groups: seq<Coord>, a: nat)
    requires a <= |groups|
  {
    forall b | 0 <= b < a :: Apart(x, groups[b])
  }

  ghost predicate FirstFree(tab: Matrix, groups: seq<Coord>, a: nat)
    requires Square(tab, |tab|) && a < |groups| && PairOk(groups[a], |tab|)
  {
    forall x | PairOk(x, |tab|) && FreeOf(x, groups, a) :: !Precedes(tab, x, groups[a])
  }

  /** Each group is the pair that comes first among those of nodes not in an earlier group. */
  ghost predicate Foremost(tab: Matrix, groups: seq<Coord>)
    requires Square(tab, |tab|)
  {
    forall a: nat | a < |groups| ::
        PairOk(groups[a], |tab|) && FreeOf(groups[a], groups, a) && FirstFree(tab, groups, a)
  }

  lemma NoneForemost(tab: Matrix)
    requires Square(tab, |tab|)
    ensures Foremost(tab, [])
  {
  }

  lemma Lighter(tab: Matrix, emitted: set<Coord>, c: Coord)
    requires Square(tab, |tab|) && PairOk(c, |tab|)
    requires forall x | PairOk(x, |tab|) && x !in emitted :: !Precedes(tab, x, c)
    ensures forall x | PairOk(x, |tab|) && x !in emitted :: W(tab, x) <= W(tab, c)
  {
  }

  lemma NextForemost(tab: Matrix, groups: seq<Coord>, parent: seq<int>, charge: seq<real>, emitted: set<Coord>,
                     c: Coord)
    requires Square(tab, |tab|) && Charges(tab, groups, parent, charge, emitted) && Grouped(groups, parent)
    requires Foremost(tab, groups) && PairOk(c, |tab|) && |parent| == |tab| && parent[c.i] == -1 == parent[c.j]
    requires forall x | PairOk(x, |tab|) && x !in emitted :: !Precedes(tab, x, c)
    ensures Foremost(tab, groups + [c])
  {
    hide Precedes, Square, Charges;
    var more := groups + [c];
    forall x | PairOk(x, |tab|) && FreeOf(x, more, |groups|) ensures !Precedes(tab, x, c) {
      forall b | 0 <= b < |groups| ensures Apart(x, groups[b]) { assert more[b] == groups[b]; }
      assert parent[x.i] == -1 == parent[x.j];
      NotVisited(tab, groups, parent, charge, emitted, x);
    }
    forall a: nat | a < |groups| ensures FreeOf(more[a], more, a) && FirstFree(tab, more, a) {
      assert FreeOf(groups[a], groups, a) && FirstFree(tab, groups, a);
      forall x | FreeOf(x, more, a) ensures FreeOf(x, groups, a) {
        forall b | 0 <= b < a ensures Apart(x, groups[b]) { assert more[b] == groups[b]; }
      }
    }
  }

  lemma InOnePlace(tab: Matrix, x: Coord, y: Coord)
    requires Square(tab, |tab|) && PairOk(x, |tab|) && PairOk(y, |tab|) && !Precedes(tab, x, y) && !Precedes(tab, y, x)
    ensures x == y
  {
  }

  lemma SameNext(tab: Matrix, gs: seq<Coord>, hs: seq<Coord>, a: nat)
    requires Square(tab, |tab|) && Foremost(tab, gs) && Foremost(tab, hs) && a < |gs| == |hs|
    requires forall b | 0 <= b < a :: gs[b] == hs[b]
    ensures gs[a] == hs[a]
  {
    hide Precedes, Square, Apart;
    var x, y := gs[a], hs[a];
    assert FreeOf(x, gs, a) && FreeOf(y, hs, a) && FirstFree(tab, gs, a) && FirstFree(tab, hs, a);
    forall b | 0 <= b < a ensures Apart(x, hs[b]) && Apart(y, gs[b]) { assert gs[b] == hs[b]; }
    assert FreeOf(x, hs, a) && FreeOf(y, gs, a);
    InOnePlace(tab, x, y);
  }

  /** The pivots and the buckets do not matter: two such groupings agree. */
  lemma {:induction false} SameGrouping(tab: Matrix, gs: seq<Coord>, hs: seq<Coord>, a: nat)
    requires Square(tab, |tab|) && Foremost(tab, gs) && Foremost(tab, hs) && a <= |gs| == |hs|
    ensures forall b | 0 <= b < a :: gs[b] == hs[b]
  {
    hide Square, Foremost;
    if a > 0 {
      SameGrouping(tab, gs, hs, a - 1);
      SameNext(tab, gs, hs, a - 1);
    }
  }

  /** `tm_bucket_grouping` at arity two, for any nonincreasing pivots and a power of two of buckets: all m groups
      are found before the pairs run out, every node is in exactly one, each is the first free pair of the sorted list,
      and no matching weighs more than twice as much as the groups. */
  method GroupByBuckets(tab: Matrix, m: nat, pivot: seq<real>, d: nat) returns (groups: seq<Coord>, parent: seq<int>)
    requires Square(tab, |tab|) && NonNegative(tab, |tab|) && |tab| == 2 * m && Pivots(pivot, Pow2(d))
    ensures |groups| == m && |parent| == |tab| && Grouped(groups, parent)
    ensures forall v | 0 <= v < |parent| :: parent[v] != -1
    ensures Foremost(tab, groups)
    ensures forall other | Matching(other, |tab|) :: Total(tab, other) <= 2.0 * Total(tab, groups)
  {
    hide Charges, Pivots, Square, NonNegative, Sum, W, Pow2, Count, Precedes, Foremost;
    NoneForemost(tab);
    groups, parent := [], seq(|tab|, _ => -1);
    ghost var charge: seq<real> := seq(|tab|, _ => 0.0);
    GroupStart(tab, parent, charge);
    var list := new BucketList(tab, pivot, d);
    while |groups| < m
      invariant fresh(list) && list.Valid() && list.tab == tab && |groups| <= m && |parent| == |tab|
      invariant Grouped(groups, parent) && Charges(tab, groups, parent, charge, list.emitted)
      invariant |charge| == |parent| && (forall v | 0 <= v < |parent| && parent[v] == -1 :: charge[v] == 0.0)
      invariant Sum(charge) == 2.0 * Total(tab, groups) && Foremost(tab, groups)
      decreases |list.buckets| - list.cur, |list.buckets[list.cur]| - list.indice
    {
      ghost var u, v := TwoWitnesses(parent, -1, |parent|);
      ghost var emitted := list.emitted;
      NotVisited(tab, groups, parent, charge, emitted, Coord(u, v));
      var c := list.Next(Coord(u, v));
      var gs, ps, ok := TryAddEdge(groups, parent, c);
      Lighter(tab, emitted, c);
      if ok { NextForemost(tab, groups, parent, charge, emitted, c); }
      charge := Recharge(tab, groups, parent, charge, emitted, c, gs, ps);
      if ok {
        assert gs[..|groups|] == groups;
        SameTotal(tab, groups, c);
      }
      groups, parent := gs, ps;
    }
    AllInGroups(parent);
    forall other | Matching(other, |tab|) ensures Total(tab, other) <= 2.0 * Total(tab, groups) {
      FinalCharges(tab, groups, parent, charge, list.emitted, other);
    }
  }

  lemma SameTotal(tab: Matrix, groups: seq<Coord>, c: Coord)
    requires Square(tab, |tab|) && PairOk(c, |tab|) && forall a | 0 <= a < |groups| :: PairOk(groups[a], |tab|)
    ensures forall a | 0 <= a < |groups| + 1 :: PairOk((groups + [c])[a], |tab|)
    ensures Total(tab, groups + [c]) == Total(tab, groups) + W(tab, c)
  {
    assert (groups + [c])[..|groups|] == groups;
  }

  lemma GroupStart(tab: Matrix, parent: seq<int>, charge: seq<real>)
    requires Square(tab, |tab|) && parent == seq(|tab|, _ => -1) && charge == seq(|tab|, _ => 0.0)
    ensures Grouped([], parent) && Charges(tab, [], parent, charge, {}) && Sum(charge) == 0.0
  {
    CountSame(parent, -1, |parent|);
    SumZero(|tab|);
  }

  lemma {:induction false} CountSame(s: seq<int>, x: int, t: nat)
    requires t <= |s| && forall v | 0 <= v < t :: s[v] == x
    ensures Count(s, x, t) == t
  {
    if t > 0 { CountSame(s, x, t - 1); }
  }

  lemma NotVisited(tab: Matrix, groups: seq<Coord>, parent: seq<int>, charge: seq<real>, emitted: set<Coord>, c: Coord)
    requires Square(tab, |tab|) && Charges(tab, groups, parent, charge, emitted)
    requires PairOk(c, |tab|) && |parent| == |tab| && parent[c.i] == -1 == parent[c.j]
    ensures c !in emitted
  {
    assert c in emitted ==> Covered(tab, parent, charge, c);
  }

  lemma AllInGroups(parent: seq<int>)
    requires Count(parent, -1, |parent|) == 0
    ensures forall v | 0 <= v < |parent| :: parent[v] != -1
  {
    forall v | 0 <= v < |parent| ensures parent[v] != -1 {
      if parent[v] == -1 { CountPositive(parent, -1, |parent|, v); }
    }
  }

  /** With every node charged, every pair is covered, so any matching is within the sum of the charges. */
  lemma FinalCharges(tab: Matrix, groups: seq<Coord>, parent: seq<int>, charge: seq<real>, emitted: set<Coord>,
                     other: seq<Coord>)
    requires Square(tab, |tab|) && Charges(tab, groups, parent, charge, emitted) && Matching(other, |tab|)
    requires forall v | 0 <= v < |parent| :: parent[v] != -1
    ensures Total(tab, other) <= Sum(charge)
  {
    forall a | 0 <= a < |other| ensures W(tab, other[a]) <= charge[other[a].i] + charge[other[a].j] {
      assert PairOk(other[a], |tab|);
      if other[a] in emitted { assert Covered(tab, parent, charge, other[a]); }
    }
    Charged(tab, other, charge);
  }
}
