/** Where the pivots come from: the number of buckets, a random sample of pairs, and the
    weights picked from the sorted sample at positions that double. */
module PivotSampling {
  import opened PartitionWeights
  import opened PivotTree
  import opened BucketGrouping
  import opened Arithmetic
  import opened Wrappers

  // ---------- The number of buckets ----------

  /** Number of binary digits. */
  function Bits(v: nat): nat
  {
    if v == 0 then 0 else 1 + Bits(v / 2)
  }

  /** `ilog2`: the binary digits of a number, counted by shifting. */
  method Ilog2(v: nat) returns (i: nat)
    ensures i == Bits(v)
  {
    i := 0;
    var val := v;
    while val != 0
      invariant i + Bits(val) == Bits(v)
    {
      val := val / 2;
      i := i + 1;
    }
  }

  /** A number of b digits lies between two powers of two. */
  lemma {:induction false} BitsBetween(v: nat)
    requires v > 0
    ensures Bits(v) > 0 && Pow2(Bits(v) - 1) <= v < Pow2(Bits(v))
  {
    if v > 1 {
      BitsBetween(v / 2);
    } else {
      assert Bits(v / 2) == 0 && Pow2(0) == 1;
    }
  }

  lemma {:induction false} Pow2Monotone(a: nat, b: nat)
    requires a <= b
    ensures Pow2(a) <= Pow2(b)
    decreases b
  {
    if a < b { Pow2Monotone(a, b - 1); }
  }

  lemma BitsMore(v: nat, b: nat)
    ensures Bits(v) > b <==> v >= Pow2(b)
  {
    if v > 0 {
      BitsBetween(v);
      if Bits(v) > b { Pow2Monotone(b, Bits(v) - 1); } else { Pow2Monotone(Bits(v), b); }
    }
  }

  /** The depth of the pivot tree for n nodes: one less than the digits of the digits of n. */
  function Depth(n: nat): nat
    requires n > 0
  {
    BitsMore(n, 0);
    BitsMore(Bits(n), 0);
    Bits(Bits(n)) - 1
  }

  /** The greatest power of two within a number, by shifting its other digits out: the check of the source that the
      result is a power of two succeeds. */
  method BucketCount(n: nat) returns (buckets: nat)
    requires n > 0
    ensures buckets == Pow2(Depth(n))
  {
    var digits := Ilog2(n);
    BitsMore(n, 0);
    var bits := Ilog2(digits);
    BitsBetween(digits);
    var unit := Pow2(bits - 1);
    Rounded(digits, unit);
    buckets := (digits / unit) * unit;
  }

  /** `max_depth`: the digits of the number of buckets give the depth of the tree back. */
  lemma MaxDepth(d: nat)
    ensures Bits(Pow2(d)) - 1 == d
  {
    BitsMore(Pow2(d), d);
    BitsMore(Pow2(d), d + 1);
    assert Pow2(d + 1) == 2 * Pow2(d);
  }

  lemma Rounded(v: nat, unit: nat)
    requires 0 < unit <= v < 2 * unit
    ensures v / unit == 1
  {
    DivUnique(v, unit, 1, v - unit);
  }

  // ---------- The sample ----------

  /** A pair that can be drawn: the first node is not node 0, and the last node comes only with the one before it. */
  predicate Drawable(c: Coord, n: nat)
  {
    PairOk(c, n) && 1 <= c.i && (c.j == n - 1 <==> c.i == n - 2)
  }

  /** Random pairs: any first node from 1 to n - 2, any second node after it. */
  method Sample(n: nat, count: nat) returns (sample: seq<Coord>)
    requires n > 2
    ensures |sample| == count && AllPairs(sample, n) && forall k | 0 <= k < count :: Drawable(sample[k], n)
  {
    sample := [];
    for k := 0 to count
      invariant |sample| == k && AllPairs(sample, n) && forall a | 0 <= a < k :: Drawable(sample[a], n)
    {
      var x: nat, y: nat := *, *;
      var i := x % (n - 2) + 1;
      var j := n - 1;
      if i != n - 2 { j := y % (n - i - 2) + i + 1; }
      sample := sample + [Coord(i, j)];
    }
  }

  /** Pivot number a is the weight at position 2^a - 1 of the sample. */
  ghost predicate Picks(tab: Matrix, sample: seq<Coord>, pivot: seq<real>)
    requires Square(tab, |tab|) && AllPairs(sample, |tab|)
  {
    forall a: nat | a < |pivot| :: Pow2(a) - 1 < |sample| && pivot[a] == W(tab, sample[Pow2(a) - 1])
  }

  /** The weights at positions 0, 1, 3, 7, ... of the sorted sample, one fewer than buckets; `None` when a position lies
      outside the sample. */
  method PickPivots(tab: Matrix, sample: seq<Coord>, buckets: nat) returns (res: Option<seq<real>>)
    requires Square(tab, |tab|) && AllPairs(sample, |tab|) && Sorted(tab, sample) && buckets > 0
    ensures res.Some? <==> buckets == 1 || Pow2(buckets - 2) <= |sample|
    ensures res.Some? ==> Pivots(res.value, buckets) && Picks(tab, sample, res.value)
  {
    hide Sorted, Square, W;
    var pivot: seq<real> := [];
    var id := 1;
    for k := 1 to buckets
      invariant id == Pow2(k - 1) && |pivot| == k - 1 && (k > 1 ==> Pow2(k - 2) <= |sample|)
      invariant Picks(tab, sample, pivot)
    {
      if id - 1 >= |sample| {
        Pow2Monotone(k - 1, buckets - 2);
        return None;
      }
      ghost var before := pivot;
      pivot := pivot + [W(tab, sample[id - 1])];
      PicksMore(tab, sample, before, W(tab, sample[id - 1]));
      id := id * 2;
    }
    PicksPivots(tab, sample, pivot);
    res := Some(pivot);
  }

  lemma PicksMore(tab: Matrix, sample: seq<Coord>, pivot: seq<real>, w: real)
    requires Square(tab, |tab|) && AllPairs(sample, |tab|) && Picks(tab, sample, pivot)
    requires Pow2(|pivot|) - 1 < |sample| && w == W(tab, sample[Pow2(|pivot|) - 1])
    ensures Picks(tab, sample, pivot + [w])
  {
    hide W, Square, Pow2;
  }

  lemma PicksPivots(tab: Matrix, sample: seq<Coord>, pivot: seq<real>)
    requires Square(tab, |tab|) && AllPairs(sample, |tab|) && Sorted(tab, sample) && Picks(tab, sample, pivot)
    ensures Pivots(pivot, |pivot| + 1)
  {
    hide W, Square, Pow2, Sorted, AllPairs;
    forall a: nat, b: nat | a <= b < |pivot| ensures pivot[a] >= pivot[b] {
      Pow2Monotone(a, b);
      Lighter(tab, sample, Pow2(a) - 1, Pow2(b) - 1);
    }
  }

  lemma Lighter(tab: Matrix, s: seq<Coord>, a: nat, b: nat)
    requires Square(tab, |tab|) && AllPairs(s, |tab|) && Sorted(tab, s) && a <= b < |s|
    ensures W(tab, s[a]) >= W(tab, s[b])
  {
    if a < b { assert !Precedes(tab, s[b], s[a]); }
  }

  // ---------- When the sample is long enough ----------

  const SAMPLED := 32768

  lemma {:induction false} Pow2Add(a: nat, b: nat)
    ensures Pow2(a + b) == Pow2(a) * Pow2(b)
  {
    if a == 0 {
      assert Pow2(0) == 1;
    } else {
      Pow2Add(a - 1, b);
      assert 2 * (Pow2(a - 1) * Pow2(b)) == 2 * Pow2(a - 1) * Pow2(b);
    }
  }

  /** From 16 buckets on the last position, 2^(buckets - 2), is beyond the square of the number of buckets. */
  lemma {:induction false} TooFar(d: nat)
    requires d >= 4
    ensures Pow2(d) >= 4 * d && Pow2(d) >= 16
  {
    if d == 4 {
      assert Pow2(4) == 16 by { Powers(); }
    } else {
      TooFar(d - 1);
    }
  }

  lemma Powers()
    ensures Pow2(0) == 1 && Pow2(1) == 2 && Pow2(2) == 4 && Pow2(3) == 8 && Pow2(4) == 16 && Pow2(6) == 64
  {
    assert Pow2(5) == 32 by { assert Pow2(4) == 16 by { assert Pow2(3) == 8 by { assert Pow2(2) == 4; } } }
  }

  /** With a sample of buckets^2 pairs every position is inside it exactly up to eight buckets. */
  lemma LongEnough(d: nat)
    ensures Pow2(d) == 1 || Pow2(Pow2(d) - 2) <= Pow2(d) * Pow2(d) <==> d <= 3
  {
    Powers();
    if d >= 4 {
      TooFar(d);
      Pow2Add(d, d);
      Pow2Monotone(2 * d + 1, Pow2(d) - 2);
    } else if d == 0 {
    } else if d == 1 {
      assert Pow2(1) - 2 == 0;
    } else if d == 2 {
      assert Pow2(2) - 2 == 2;
    } else {
      assert Pow2(3) - 2 == 6;
    }
  }

  /** Fewer than 32768 nodes have at most 15 digits, which gives at most eight buckets. */
  lemma DepthBelow(n: nat)
    requires n > 0
    ensures Depth(n) <= 3 <==> n < SAMPLED
  {
    Powers();
    BitsMore(Bits(n), 4);
    BitsMore(n, 15);
    Pow2Add(4, 4);
    Pow2Add(8, 4);
    Pow2Add(12, 3);
  }

  /** `partial_sort` up to the pivots: it reads outside its sample exactly from 32768 nodes on. */
  method PartialSort(tab: Matrix) returns (res: Option<seq<real>>, ghost drawn: seq<Coord>)
    requires Square(tab, |tab|) && |tab| > 2
    ensures res.Some? <==> |tab| < SAMPLED
    ensures res.Some? ==> Pivots(res.value, Pow2(Depth(|tab|)))
    ensures AllPairs(drawn, |tab|) && Sorted(tab, drawn) && |drawn| == Pow2(Depth(|tab|)) * Pow2(Depth(|tab|))
    ensures (forall c | c in drawn :: Drawable(c, |tab|)) && (res.Some? ==> Picks(tab, drawn, res.value))
  {
    hide Square, Pow2, Depth, Pivots, Sorted, Drawable, Picks;
    var buckets := BucketCount(|tab|);
    var sample := Sample(|tab|, buckets * buckets);
    ghost var random := sample;
    sample := SortBucket(tab, sample);
    SameMembers(sample, random);
    drawn := sample;
    assert multiset(sample) == multiset(random) ==> |multiset(sample)| == |multiset(random)|;
    res := PickPivots(tab, sample, buckets);
    LongEnough(Depth(|tab|));
    DepthBelow(|tab|);
  }

  /** At 32768 nodes there are 16 buckets and 256 pairs, and the tenth pivot is looked for at position 511. */
  lemma SampleOverrun()
    ensures Depth(32768) == 4 && Pow2(4) * Pow2(4) == 256 && Pow2(9) - 1 == 511
  {
    Powers();
    Pow2Add(4, 4);
    Pow2Add(8, 1);
    BitsMore(32768, 15);
    BitsMore(32768, 16);
    Pow2Add(8, 7);
    Pow2Add(4, 3);
    Pow2Add(8, 8);
    BitsMore(16, 4);
    BitsMore(16, 5);
  }
}
