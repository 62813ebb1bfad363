/** Lists without repetition, and how long they can be. */
module FiniteLists {

  ghost predicate Distinct<T>(s: seq<T>)
  {
    forall i, j | 0 <= i < j < |s| :: s[i] != s[j]
  }

  function Without(idx: seq<nat>, p: nat): seq<nat>
    requires p < |idx|
  {
    idx[..p] + idx[p + 1..]
  }

  /** Distinct numbers below n are at most n. */
  lemma {:induction false} Pigeonhole(idx: seq<nat>, n: nat)
    requires Distinct(idx) && forall i | 0 <= i < |idx| :: idx[i] < n
    ensures |idx| <= n
  {
    if idx == [] { return; }
    assert idx[0] < n;
    if p: nat :| p < |idx| && idx[p] == n - 1 {
      WithoutSmaller(idx, p, n);
      Pigeonhole(Without(idx, p), n - 1);
    } else {
      Pigeonhole(idx, n - 1);
    }
  }

  lemma WithoutSmaller(idx: seq<nat>, p: nat, n: nat)
    requires Distinct(idx) && p < |idx| && idx[p] == n - 1 && forall i | 0 <= i < |idx| :: idx[i] < n
    ensures Distinct(Without(idx, p)) && |Without(idx, p)| == |idx| - 1
    ensures forall i | 0 <= i < |idx| - 1 :: Without(idx, p)[i] < n - 1
  {
    assert forall i | 0 <= i < |idx| - 1 :: Without(idx, p)[i] == idx[if i < p then i else i + 1];
  }
}
