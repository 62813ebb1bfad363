/** The MPIPP placement heuristic: passes of disjoint pairwise exchanges, each keeping
    its best prefix, until no exchange improves the solution. */
module PairwiseExchange {
  import opened PartitionWeights

  /** A machine and an affinity matrix: distinct cores have a nonzero speed. */
  datatype Problem = Problem(comm: Matrix, arch: Matrix)

  ghost predicate Sensible(p: Problem)
  {
    && Square(p.comm, |p.comm|) && Square(p.arch, |p.arch|)
    && forall a, b | 0 <= a < |p.arch| && 0 <= b < |p.arch| && a != b :: p.arch[a][b] != 0.0
  }

  /** A solution: distinct cores, one per process. */
  ghost predicate Solution(p: Problem, sol: seq<int>)
  {
    && |sol| == |p.comm| && (forall i | 0 <= i < |sol| :: 0 <= sol[i] < |p.arch|)
    && forall i, j | 0 <= i < j < |sol| :: sol[i] != sol[j]
  }

  /** Cost of process i with processes i + 1 .. t - 1. */
  function RowCost(p: Problem, sol: seq<int>, i: nat, t: nat): real
    requires Sensible(p) && Solution(p, sol) && i < t <= |sol|
    decreases t
  {
    if t == i + 1 then 0.0
    else RowCost(p, sol, i, t - 1) + p.comm[i][t - 1] / p.arch[sol[i]][sol[t - 1]]
  }

  /** Cost of the pairs whose first process is below t. */
  function Cost(p: Problem, sol: seq<int>, t: nat): real
    requires Sensible(p) && Solution(p, sol) && t <= |sol|
  {
    if t == 0 then 0.0 else Cost(p, sol, t - 1) + RowCost(p, sol, t - 1, |sol|)
  }

  function Eval(p: Problem, sol: seq<int>): real
    requires Sensible(p) && Solution(p, sol)
  {
    Cost(p, sol, |sol|)
  }

  /** `eval_sol`. */
  method EvalSol(p: Problem, sol: seq<int>) returns (res: real)
    requires Sensible(p) && Solution(p, sol)
    ensures res == Eval(p, sol)
  {
    res := 0.0;
    for i := 0 to |sol|
      invariant res == Cost(p, sol, i)
    {
      for j := i + 1 to |sol|
        invariant res == Cost(p, sol, i) + RowCost(p, sol, i, j)
      {
        res := res + p.comm[i][j] / p.arch[sol[i]][sol[j]];
      }
    }
  }

  // ---------- Exchanges ----------

  function Exchange(sol: seq<int>, l: nat, m: nat): (res: seq<int>)
    requires l < |sol| && m < |sol|
    ensures |res| == |sol|
  {
    sol[l := sol[m]][m := sol[l]]
  }

  lemma ExchangeSolution(p: Problem, sol: seq<int>, l: nat, m: nat)
    requires Solution(p, sol) && l < |sol| && m < |sol|
    ensures Solution(p, Exchange(sol, l, m))
  {
  }

  function Gain(p: Problem, sol: seq<int>, l: nat, m: nat): real
    requires Sensible(p) && Solution(p, sol) && l < |sol| && m < |sol|
  {
    ExchangeSolution(p, sol, l, m);
    Eval(p, sol) - Eval(p, Exchange(sol, l, m))
  }

  /** No single exchange lowers the cost. */
  ghost predicate LocalOptimum(p: Problem, sol: seq<int>)
    requires Sensible(p) && Solution(p, sol)
  {
    forall l: nat, m: nat | l < |sol| && m < |sol| :: Gain(p, sol, l, m) <= 0.0
  }

  /** `gain_exchange`: exchange, evaluate, exchange back. */
  method GainExchange(p: Problem, sol: seq<int>, l: nat, m: nat, eval1: real) returns (gain: real)
    requires Sensible(p) && Solution(p, sol) && l < |sol| && m < |sol| && eval1 == Eval(p, sol)
    ensures gain == Gain(p, sol, l, m)
  {
    hide Eval;
    ExchangeSolution(p, sol, l, m);
    if l == m {
      assert Exchange(sol, l, m) == sol;
      return 0.0;
    }
    var eval2 := EvalSol(p, Exchange(sol, l, m));
    gain := eval1 - eval2;
  }

  ghost predicate Gains(p: Problem, sol: seq<int>, gain: Matrix)
    requires Sensible(p) && Solution(p, sol)
  {
    && Square(gain, |sol|)
    && forall i: nat, j: nat | i < |sol| && j < |sol| :: GainAt(p, sol, gain, i, j)
  }

  ghost predicate GainAt(p: Problem, sol: seq<int>, gain: Matrix, i: nat, j: nat)
    requires Sensible(p) && Solution(p, sol) && Square(gain, |sol|) && i < |sol| && j < |sol|
  {
    gain[i][j] == Gain(p, sol, i, j)
  }

  lemma GainSymmetric(p: Problem, sol: seq<int>, i: nat, j: nat)
    requires Sensible(p) && Solution(p, sol) && i < |sol| && j < |sol|
    ensures Gain(p, sol, i, j) == Gain(p, sol, j, i)
  {
    assert Exchange(sol, i, j) == Exchange(sol, j, i);
  }

  /** `compute_gain`: the gain of every exchange, computed for half the pairs. */
  method ComputeGain(p: Problem, sol: seq<int>) returns (gain: Matrix)
    requires Sensible(p) && Solution(p, sol)
    ensures Gains(p, sol, gain)
  {
    hide Eval, Gain, Solution, Sensible;
    var n := |sol|;
    var eval1 := EvalSol(p, sol);
    gain := seq(n, _ => seq(n, _ => 0.0));
    for i := 0 to n
      invariant Square(gain, n) && forall a: nat, b: nat | a < i && b < i :: GainAt(p, sol, gain, a, b)
    {
      for j := 0 to i + 1
        invariant Square(gain, n) && forall a: nat, b: nat | a < i && b < i :: GainAt(p, sol, gain, a, b)
        invariant forall b: nat | b < j :: GainAt(p, sol, gain, i, b) && GainAt(p, sol, gain, b, i)
      {
        var g := GainExchange(p, sol, i, j, eval1);
        GainSymmetric(p, sol, i, j);
        ghost var before := gain;
        gain := Put(Put(gain, i, j, g), j, i, g);
        forall a: nat, b: nat | a < i && b < i
          ensures GainAt(p, sol, gain, a, b)
        {
          assert GainAt(p, sol, before, a, b);
        }
        forall b: nat | b < j ensures GainAt(p, sol, gain, i, b) && GainAt(p, sol, gain, b, i) {
          assert GainAt(p, sol, before, i, b) && GainAt(p, sol, before, b, i);
        }
      }
    }
  }

  function Put(m: Matrix, i: nat, j: nat, x: real): (r: Matrix)
    requires Square(m, |m|) && i < |m| && j < |m|
    ensures Square(r, |m|) && r[i][j] == x
    ensures forall a, b | 0 <= a < |m| && 0 <= b < |m| && (a != i || b != j) :: r[a][b] == m[a][b]
  {
    m[i := m[i][j := x]]
  }

  ghost predicate FreePair(state: seq<int>, l: nat, m: nat)
  {
    l < |state| && m < |state| && l != m && state[l] == 0 && state[m] == 0
  }

  predicate Earlier(l: nat, m: nat, i: nat, j: nat)
  {
    l < i || (l == i && m < j)
  }

  /** The exchange (l, m) is chosen over (i, j): it gains more, or as much without coming later. */
  predicate Chosen(gain: Matrix, l: nat, m: nat, i: nat, j: nat)
    requires Square(gain, |gain|) && l < |gain| && m < |gain| && i < |gain| && j < |gain|
  {
    if Earlier(i, j, l, m) then gain[i][j] < gain[l][m] else gain[i][j] <= gain[l][m]
  }

  /** `select_max`: the best exchange of two processes not exchanged in this pass. */
  method SelectMax(gain: Matrix, state: seq<int>) returns (l: nat, m: nat)
    requires Square(gain, |state|) && Count(state, 0, |state|) >= 2
    ensures FreePair(state, l, m)
    ensures forall i: nat, j: nat | FreePair(state, i, j) :: Chosen(gain, l, m, i, j)
  {
    var n := |state|;
    l, m := 0, 0;
    var found := false;   // until then the maximum is below every number
    for i := 0 to n
      invariant found ==> FreePair(state, l, m)
      invariant forall a: nat, b: nat | a < i && FreePair(state, a, b) :: found && Chosen(gain, l, m, a, b)
      invariant found ==> l < i
    {
      if state[i] == 0 {
        for j := 0 to n
          invariant found ==> FreePair(state, l, m)
          invariant forall a: nat, b: nat | a < i && FreePair(state, a, b) :: found && Chosen(gain, l, m, a, b)
          invariant forall b: nat | b < j && FreePair(state, i, b) :: found && Chosen(gain, l, m, i, b)
          invariant found ==> Earlier(l, m, i, j)
        {
          if i != j && state[j] == 0 && (!found || gain[i][j] > gain[l][m]) {
            l, m, found := i, j, true;
          }
        }
      }
    }
    ghost var u, v := TwoWitnesses(state, 0, n);
    assert FreePair(state, u, v);
  }

  // ---------- Sequences of exchanges ----------

  type Pair = (nat, nat)

  ghost predicate Pairs(h: seq<Pair>, n: nat)
  {
    forall i | 0 <= i < |h| :: h[i].0 < n && h[i].1 < n
  }

  predicate Apart(a: Pair, b: Pair)
  {
    a.0 != b.0 && a.0 != b.1 && a.1 != b.0 && a.1 != b.1
  }

  ghost predicate AllApart(h: seq<Pair>)
  {
    forall i, j | 0 <= i < j < |h| :: Apart(h[i], h[j])
  }

  /** The exchanges in order. */
  ghost function Applied(sol: seq<int>, h: seq<Pair>): (res: seq<int>)
    requires Pairs(h, |sol|)
    ensures |res| == |sol|
    decreases |h|
  {
    if h == [] then sol else Applied(Exchange(sol, h[0].0, h[0].1), h[1..])
  }

  lemma {:induction false} AppliedSolution(p: Problem, sol: seq<int>, h: seq<Pair>)
    requires Solution(p, sol) && Pairs(h, |sol|)
    ensures Solution(p, Applied(sol, h))
    decreases |h|
  {
    hide Solution;
    if h != [] {
      ExchangeSolution(p, sol, h[0].0, h[0].1);
      AppliedSolution(p, Exchange(sol, h[0].0, h[0].1), h[1..]);
    }
  }

  lemma {:induction false} AppliedLast(sol: seq<int>, h: seq<Pair>, q: Pair)
    requires Pairs(h, |sol|) && q.0 < |sol| && q.1 < |sol|
    ensures Pairs(h + [q], |sol|) && Applied(sol, h + [q]) == Exchange(Applied(sol, h), q.0, q.1)
    decreases |h|
  {
    hide Exchange;
    if h == [] {
      assert (h + [q])[1..] == [];
    } else {
      assert (h + [q])[1..] == h[1..] + [q];
      AppliedLast(Exchange(sol, h[0].0, h[0].1), h[1..], q);
    }
  }

  lemma Commute(sol: seq<int>, a: Pair, b: Pair)
    requires a.0 < |sol| && a.1 < |sol| && b.0 < |sol| && b.1 < |sol| && Apart(a, b)
    ensures Exchange(Exchange(sol, a.0, a.1), b.0, b.1) == Exchange(Exchange(sol, b.0, b.1), a.0, a.1)
  {
  }

  lemma Twice(sol: seq<int>, a: Pair)
    requires a.0 < |sol| && a.1 < |sol|
    ensures Exchange(Exchange(sol, a.0, a.1), a.0, a.1) == sol
  {
  }

  /** An exchange of other processes can be moved to the front. */
  lemma {:induction false} MoveFront(sol: seq<int>, h: seq<Pair>, q: Pair)
    requires Pairs(h, |sol|) && q.0 < |sol| && q.1 < |sol| && forall i | 0 <= i < |h| :: Apart(h[i], q)
    ensures Exchange(Applied(sol, h), q.0, q.1) == Applied(Exchange(sol, q.0, q.1), h)
    decreases |h|
  {
    hide Exchange;
    if h != [] {
      Commute(sol, h[0], q);
      MoveFront(Exchange(sol, h[0].0, h[0].1), h[1..], q);
    }
  }

  /** Undoing the first of disjoint exchanges leaves the others. */
  lemma UndoFirst(sol: seq<int>, h: seq<Pair>)
    requires h != [] && Pairs(h, |sol|) && AllApart(h)
    ensures Exchange(Applied(sol, h), h[0].0, h[0].1) == Applied(sol, h[1..])
  {
    hide Exchange;
    var q := h[0];
    forall i | 0 <= i < |h[1..]| ensures Apart(h[1..][i], q) { assert Apart(h[0], h[i + 1]); }
    MoveFront(Exchange(sol, q.0, q.1), h[1..], q);
    Twice(sol, q);
  }

  lemma {:induction false} AppliedSplit(sol: seq<int>, a: seq<Pair>, b: seq<Pair>)
    requires Pairs(a + b, |sol|)
    ensures Pairs(a, |sol|) && Pairs(b, |sol|) && Applied(sol, a + b) == Applied(Applied(sol, a), b)
    decreases |a|
  {
    hide Exchange;
    assert forall i | 0 <= i < |a| :: a[i] == (a + b)[i];
    assert forall i | 0 <= i < |b| :: b[i] == (a + b)[|a| + i];
    if a == [] {
      assert a + b == b;
    } else {
      assert (a + b)[1..] == a[1..] + b;
      AppliedSplit(Exchange(sol, a[0].0, a[0].1), a[1..], b);
    }
  }

  lemma ExchangeSame(sol: seq<int>, l: nat, m: nat)
    requires l < |sol| && m < |sol|
    ensures multiset(Exchange(sol, l, m)) == multiset(sol)
  {
  }

  /** Exchanges use the same cores. */
  lemma {:induction false} AppliedSame(sol: seq<int>, h: seq<Pair>)
    requires Pairs(h, |sol|)
    ensures multiset(Applied(sol, h)) == multiset(sol)
    decreases |h|
  {
    if h != [] {
      ExchangeSame(sol, h[0].0, h[0].1);
      AppliedSame(Exchange(sol, h[0].0, h[0].1), h[1..]);
    }
  }

  // ---------- One pass ----------

  /** Cost after the first i exchanges. */
  ghost function Value(p: Problem, sol: seq<int>, h: seq<Pair>, i: nat): real
    requires Sensible(p) && Solution(p, sol) && Pairs(h, |sol|) && i <= |h|
  {
    AppliedSolution(p, sol, h[..i]);
    Eval(p, Applied(sol, h[..i]))
  }

  /** The record of a sweep: disjoint exchanges with the gain of each when it was made. */
  ghost predicate Swept(p: Problem, sol: seq<int>, h: seq<Pair>, temp: seq<real>)
    requires Sensible(p) && Solution(p, sol)
  {
    && Pairs(h, |sol|) && AllApart(h) && |temp| == |h|
    && forall i: nat | i < |h| :: TempOk(p, sol, h, temp, i)
  }

  ghost predicate TempOk(p: Problem, sol: seq<int>, h: seq<Pair>, temp: seq<real>, i: nat)
    requires Sensible(p) && Solution(p, sol) && Pairs(h, |sol|) && |temp| == |h| && i < |h|
  {
    temp[i] == Value(p, sol, h, i) - Value(p, sol, h, i + 1)
  }

  /** A process that is in none of the exchanges. */
  ghost predicate FreeIn(h: seq<Pair>, v: nat)
  {
    forall i | 0 <= i < |h| :: h[i].0 != v && h[i].1 != v
  }

  /** Exchange i is the one to make after those before it: of two processes that are in none of them no other pair
      gains more, and no earlier pair as much. */
  ghost predicate PickOk(p: Problem, sol: seq<int>, h: seq<Pair>, i: nat)
    requires Sensible(p) && Solution(p, sol) && Pairs(h, |sol|) && i < |h| && Solution(p, Applied(sol, h[..i]))
  {
    forall l: nat, m: nat | l < |sol| && m < |sol| && l != m && FreeIn(h[..i], l) && FreeIn(h[..i], m) ::
      NoBetter(p, Applied(sol, h[..i]), h[i], l, m)
  }

  ghost predicate NoBetter(p: Problem, sol: seq<int>, q: Pair, l: nat, m: nat)
    requires Sensible(p) && Solution(p, sol) && q.0 < |sol| && q.1 < |sol| && l < |sol| && m < |sol|
  {
    if Earlier(l, m, q.0, q.1) then Gain(p, sol, l, m) < Gain(p, sol, q.0, q.1)
    else Gain(p, sol, l, m) <= Gain(p, sol, q.0, q.1)
  }

  ghost predicate Picks(p: Problem, sol: seq<int>, h: seq<Pair>)
    requires Sensible(p) && Solution(p, sol)
  {
    && Pairs(h, |sol|)
    && forall i: nat | i < |h| :: Solution(p, Applied(sol, h[..i])) && PickOk(p, sol, h, i)
  }

  lemma PicksMore(p: Problem, sol: seq<int>, h: seq<Pair>, state: seq<int>, gain: Matrix, l: nat, m: nat)
    requires Sensible(p) && Solution(p, sol) && Picks(p, sol, h) && Solution(p, Applied(sol, h)) && |state| == |sol|
    requires MarkedPairs(state, h) && Gains(p, Applied(sol, h), gain) && FreePair(state, l, m) && |gain| == |sol|
    requires forall i: nat, j: nat | FreePair(state, i, j) :: Chosen(gain, l, m, i, j)
    ensures Picks(p, sol, h + [(l, m)])
  {
    hide Gain, Applied, Solution, Sensible, Count;
    var more := h + [(l, m)];
    assert more[..|h|] == h;
    forall i: nat | i < |more| ensures Solution(p, Applied(sol, more[..i])) && PickOk(p, sol, more, i) {
      assert more[..i] == h[..i];
      if i < |h| {
        assert PickOk(p, sol, h, i);
      } else {
        assert h[..i] == h;
        var now := Applied(sol, h);
        assert GainAt(p, now, gain, l, m);
        forall a: nat, b: nat | a < |sol| && b < |sol| && a != b && FreeIn(h, a) && FreeIn(h, b)
          ensures NoBetter(p, now, (l, m), a, b)
        {
          assert FreePair(state, a, b) && GainAt(p, now, gain, a, b) && Chosen(gain, l, m, a, b);
        }
      }
    }
  }

  /** Processes already exchanged are marked. */
  ghost predicate MarkedPairs(state: seq<int>, h: seq<Pair>)
  {
    && Pairs(h, |state|) && (forall i | 0 <= i < |h| :: state[h[i].0] == 1 && state[h[i].1] == 1)
    && (forall v: nat | v < |state| && FreeIn(h, v) :: state[v] == 0)
    && Count(state, 0, |state|) == |state| - 2 * |h|
  }

  lemma MarkPair(state: seq<int>, h: seq<Pair>, l: nat, m: nat)
    requires MarkedPairs(state, h) && FreePair(state, l, m)
    ensures MarkedPairs(state[l := 1][m := 1], h + [(l, m)]) && forall i | 0 <= i < |h| :: Apart(h[i], (l, m))
  {
    hide Count, FreeIn;
    var more, after := h + [(l, m)], state[l := 1][m := 1];
    MarkCount(state, l, m);
    forall v: nat | v < |state| && FreeIn(more, v) ensures after[v] == 0 { StillFree(state, h, l, m, v); }
    forall i | 0 <= i < |more| ensures after[more[i].0] == 1 && after[more[i].1] == 1 {
      assert more[i] == if i < |h| then h[i] else (l, m);
    }
  }

  lemma MarkCount(state: seq<int>, l: nat, m: nat)
    requires FreePair(state, l, m)
    ensures Count(state[l := 1][m := 1], 0, |state|) == Count(state, 0, |state|) - 2
  {
    CountMove(state, 0, |state|, l, 1);
    CountMove(state[l := 1], 0, |state|, m, 1);
  }

  lemma StillFree(state: seq<int>, h: seq<Pair>, l: nat, m: nat, v: nat)
    requires MarkedPairs(state, h) && FreePair(state, l, m) && v < |state| && FreeIn(h + [(l, m)], v)
    ensures state[l := 1][m := 1][v] == 0
  {
    hide Count;
    var more := h + [(l, m)];
    assert more[|h|] == (l, m) && forall i | 0 <= i < |h| :: more[i] == h[i];
    assert FreeIn(h, v);
  }

  lemma SweptMore(p: Problem, sol: seq<int>, h: seq<Pair>, temp: seq<real>, q: Pair, g: real)
    requires Sensible(p) && Solution(p, sol) && Swept(p, sol, h, temp) && q.0 < |sol| && q.1 < |sol|
    requires (forall i | 0 <= i < |h| :: Apart(h[i], q)) && Solution(p, Applied(sol, h))
    requires g == Gain(p, Applied(sol, h), q.0, q.1)
    ensures Swept(p, sol, h + [q], temp + [g]) && Applied(sol, h + [q]) == Exchange(Applied(sol, h), q.0, q.1)
  {
    hide Eval, Applied;
    AppliedLast(sol, h, q);
    var more := h + [q];
    forall i: nat | i <= |h| ensures Value(p, sol, more, i) == Value(p, sol, h, i) { assert more[..i] == h[..i]; }
    assert h[..|h|] == h && more[..|more|] == more;
    forall i: nat | i < |more| ensures TempOk(p, sol, more, temp + [g], i) {
      if i < |h| { assert TempOk(p, sol, h, temp, i); }
    }
  }

  ghost predicate Dominates(p: Problem, sol: seq<int>, g: real)
    requires Sensible(p) && Solution(p, sol)
  {
    forall l: nat, m: nat | l < |sol| && m < |sol| && l != m :: Gain(p, sol, l, m) <= g
  }

  /** Exchange the best pair of processes not exchanged yet, over and over; the first gain is the best of all. */
  method Sweep(p: Problem, sol: seq<int>) returns (res: seq<int>, h: seq<Pair>, temp: seq<real>)
    requires Sensible(p) && Solution(p, sol)
    ensures Swept(p, sol, h, temp) && |h| == |sol| / 2 && res == Applied(sol, h)
    ensures Picks(p, sol, h) && (|h| > 0 ==> Dominates(p, sol, temp[0]))
  {
    hide Eval, Gain, Sensible, Exchange, Solution, Swept, Applied, MarkedPairs, Count, Picks, Chosen;
    var n := |sol|;
    var state := seq(n, _ => 0);
    res, h, temp := sol, [], [];
    SweepStart(p, sol, state);
    var gain := ComputeGain(p, res);
    for i := 0 to n / 2
      invariant |h| == i == |temp| && |state| == n && |res| == n && MarkedPairs(state, h) && Swept(p, sol, h, temp)
      invariant Pairs(h, n) && res == Applied(sol, h) && Solution(p, res) && Gains(p, res, gain)
      invariant i == 0 ==> res == sol && forall v | 0 <= v < n :: state[v] == 0
      invariant Picks(p, sol, h) && (i > 0 ==> Dominates(p, sol, temp[0]))
    {
      FreeLeft(state, h);
      var l, m := SelectMax(gain, state);
      if i == 0 { BestFirst(p, sol, gain, state, l, m); }
      PicksMore(p, sol, h, state, gain, l, m);
      MarkPair(state, h, l, m);
      assert GainAt(p, res, gain, l, m);
      SweptMore(p, sol, h, temp, (l, m), gain[l][m]);
      state := state[l := 1][m := 1];
      ExchangeSolution(p, res, l, m);
      res := Exchange(res, l, m);
      h := h + [(l, m)];
      temp := temp + [gain[l][m]];
      gain := ComputeGain(p, res);
    }
  }

  lemma SweepStart(p: Problem, sol: seq<int>, state: seq<int>)
    requires Sensible(p) && Solution(p, sol) && state == seq(|sol|, _ => 0)
    ensures MarkedPairs(state, []) && Swept(p, sol, [], []) && Applied(sol, []) == sol && Picks(p, sol, [])
  {
    AllZero(state, |state|);
  }

  lemma {:induction false} AllZero(state: seq<int>, t: nat)
    requires t <= |state| && forall v | 0 <= v < t :: state[v] == 0
    ensures Count(state, 0, t) == t
  {
    if t > 0 { AllZero(state, t - 1); }
  }

  lemma FreeLeft(state: seq<int>, h: seq<Pair>)
    requires MarkedPairs(state, h) && |h| < |state| / 2
    ensures Count(state, 0, |state|) >= 2
  {
  }

  lemma BestFirst(p: Problem, sol: seq<int>, gain: Matrix, state: seq<int>, l: nat, m: nat)
    requires Sensible(p) && Solution(p, sol) && Gains(p, sol, gain) && |state| == |sol| && FreePair(state, l, m)
    requires forall v | 0 <= v < |state| :: state[v] == 0
    requires forall i: nat, j: nat | FreePair(state, i, j) :: Chosen(gain, l, m, i, j)
    ensures Dominates(p, sol, gain[l][m])
  {
    hide Gain;
    forall i: nat, j: nat | i < |sol| && j < |sol| && i != j ensures Gain(p, sol, i, j) <= gain[l][m] {
      assert FreePair(state, i, j) && GainAt(p, sol, gain, i, j) && Chosen(gain, l, m, i, j);
    }
  }

  /** The prefix of exchanges with the largest total gain, if that is positive. */
  method BestPrefix(p: Problem, ghost sol: seq<int>, ghost h: seq<Pair>, temp: seq<real>) returns (t: int, max: real)
    requires Sensible(p) && Solution(p, sol) && Swept(p, sol, h, temp)
    ensures -1 <= t < |temp| && max >= 0.0 && (t == -1 <==> max == 0.0)
    ensures max == Value(p, sol, h, 0) - Value(p, sol, h, t + 1)
    ensures forall i: nat | i <= |h| :: Value(p, sol, h, 0) - Value(p, sol, h, i) <= max
    ensures forall i: nat | i <= t :: Value(p, sol, h, 0) - Value(p, sol, h, i) < max
  {
    hide Value;
    t, max := -1, 0.0;
    var sum := 0.0;
    for i := 0 to |temp|
      invariant -1 <= t < i && max >= 0.0 && (t == -1 <==> max == 0.0)
      invariant sum == Value(p, sol, h, 0) - Value(p, sol, h, i) && max == Value(p, sol, h, 0) - Value(p, sol, h, t + 1)
      invariant forall j: nat | j <= i :: Value(p, sol, h, 0) - Value(p, sol, h, j) <= max
      invariant forall j: nat | j <= t :: Value(p, sol, h, 0) - Value(p, sol, h, j) < max
    {
      assert TempOk(p, sol, h, temp, i);
      sum := sum + temp[i];
      if sum > max { max, t := sum, i; }
    }
  }

  /** Undo the exchanges from t on, in the order they were made. */
  method Undo(sol: seq<int>, ghost start: seq<int>, h: seq<Pair>, t: nat) returns (res: seq<int>)
    requires t <= |h| && Pairs(h, |start|) && AllApart(h) && sol == Applied(start, h)
    ensures res == Applied(start, h[..t])
  {
    hide Applied, Exchange;
    res := sol;
    ghost var kept := Applied(start, h[..t]);
    assert h[..t] + h[t..] == h;
    AppliedSplit(start, h[..t], h[t..]);
    for j := t to |h|
      invariant Pairs(h[j..], |kept|) && |res| == |kept| == |start| && res == Applied(kept, h[j..])
    {
      assert h[j..][1..] == h[j + 1..] && h[j..][0] == h[j];
      UndoFirst(kept, h[j..]);
      res := Exchange(res, h[j].0, h[j].1);
    }
    NothingApplied(kept);
    assert h[|h|..] == [];
  }

  lemma NothingApplied(sol: seq<int>)
    ensures Applied(sol, []) == sol
  {
  }

  /** The outcome of a pass: of the exchanges of a sweep the first ones, as many as lower the cost most, and no more
      than needed for that. */
  ghost predicate PassedBy(p: Problem, sol: seq<int>, res: seq<int>, h: seq<Pair>, temp: seq<real>, t: nat)
    requires Sensible(p) && Solution(p, sol)
  {
    && Swept(p, sol, h, temp) && Picks(p, sol, h) && |h| == |sol| / 2 && t <= |h| && res == Applied(sol, h[..t])
    && (forall i: nat | i <= |h| :: Value(p, sol, h, t) <= Value(p, sol, h, i))
    && forall i: nat | i < t :: Value(p, sol, h, t) < Value(p, sol, h, i)
  }

  ghost predicate Passed(p: Problem, sol: seq<int>, res: seq<int>)
    requires Sensible(p) && Solution(p, sol)
  {
    exists h, temp, t :: PassedBy(p, sol, res, h, temp, t)
  }

  /** One pass: the cost drops by exactly max, and when nothing was gained the solution is unchanged and no single
      exchange improves it. */
  method Pass(p: Problem, sol: seq<int>) returns (res: seq<int>, max: real)
    requires Sensible(p) && Solution(p, sol)
    ensures Solution(p, res) && max >= 0.0 && Eval(p, res) == Eval(p, sol) - max
    ensures max == 0.0 ==> res == sol && LocalOptimum(p, sol)
    ensures Passed(p, sol, res) && multiset(res) == multiset(sol)
  {
    hide Eval, Gain, Sensible, Solution, Applied, Picks;
    var h, temp, t;
    res, h, temp := Sweep(p, sol);
    t, max := BestPrefix(p, sol, h, temp);
    res := Undo(res, sol, h, t + 1);
    AppliedSolution(p, sol, h[..t + 1]);
    assert h[..0] == [];
    NothingApplied(sol);
    if max == 0.0 { NoGain(p, sol, h, temp); }
    assert PassedBy(p, sol, res, h, temp, t + 1);
    AppliedSame(sol, h[..t + 1]);
  }

  lemma NoGain(p: Problem, sol: seq<int>, h: seq<Pair>, temp: seq<real>)
    requires Sensible(p) && Solution(p, sol) && Swept(p, sol, h, temp) && |h| == |sol| / 2
    requires |h| > 0 ==> Dominates(p, sol, temp[0])
    requires forall i: nat | i <= |h| :: Value(p, sol, h, 0) - Value(p, sol, h, i) <= 0.0
    ensures LocalOptimum(p, sol)
  {
    hide Eval, Value;
    forall l: nat, m: nat | l < |sol| && m < |sol| ensures Gain(p, sol, l, m) <= 0.0 {
      if l == m {
        assert Exchange(sol, l, m) == sol;
      } else {
        assert TempOk(p, sol, h, temp, 0);
        assert Value(p, sol, h, 0) - Value(p, sol, h, 1) <= 0.0;
      }
    }
  }

  // ---------- The descent and the restarts ----------

  /** All sequences of n of the given cores. */
  ghost function Sequences(cores: set<int>, n: nat): set<seq<int>>
  {
    if n == 0 then {[]} else set c, s | c in cores && s in Sequences(cores, n - 1) :: [c] + s
  }

  ghost function Cores(u: nat): set<int>
  {
    if u == 0 then {} else Cores(u - 1) + {u - 1}
  }

  lemma {:induction false} CoresIs(u: nat, c: int)
    ensures c in Cores(u) <==> 0 <= c < u
  {
    if u > 0 { CoresIs(u - 1, c); }
  }

  lemma {:induction false} InSequences(cores: set<int>, s: seq<int>)
    requires forall i | 0 <= i < |s| :: s[i] in cores
    ensures s in Sequences(cores, |s|)
    decreases |s|
  {
    if s != [] {
      var c, t := s[0], s[1..];
      InSequences(cores, t);
      assert c in cores && t in Sequences(cores, |s| - 1);
      assert [c] + t in Sequences(cores, |s|);
      assert s == [c] + t;
    }
  }

  /** The solutions that cost less: finitely many, so the descent ends. */
  ghost function Cheaper(p: Problem, sol: seq<int>): set<seq<int>>
    requires Sensible(p) && Solution(p, sol)
  {
    set s | s in Sequences(Cores(|p.arch|), |p.comm|) && Solution(p, s) && Eval(p, s) < Eval(p, sol)
  }

  lemma CheaperShrinks(p: Problem, sol: seq<int>, next: seq<int>)
    requires Sensible(p) && Solution(p, sol) && Solution(p, next) && Eval(p, next) < Eval(p, sol)
    ensures Cheaper(p, next) < Cheaper(p, sol)
  {
    hide Eval;
    forall i | 0 <= i < |next| ensures next[i] in Cores(|p.arch|) { CoresIs(|p.arch|, next[i]); }
    InSequences(Cores(|p.arch|), next);
    assert next in Cheaper(p, sol);
    assert next !in Cheaper(p, next);
  }

  /** The best solution so far: nothing yet stands for the largest number. */
  datatype Best = NoBest | Best(eval: real)

  /** Solutions of which each is the outcome of a pass over the one before, and cheaper. */
  ghost predicate Path(p: Problem, path: seq<seq<int>>)
    requires Sensible(p)
  {
    && |path| > 0 && (forall i | 0 <= i < |path| :: Solution(p, path[i]) && multiset(path[i]) == multiset(path[0]))
    && forall i, j | 0 <= i && j == i + 1 && j < |path| ::
         Passed(p, path[i], path[j]) && Eval(p, path[j]) < Eval(p, path[i])
  }

  lemma PathStart(p: Problem, sol: seq<int>)
    requires Sensible(p) && Solution(p, sol)
    ensures Path(p, [sol])
  {
  }

  lemma PathMore(p: Problem, path: seq<seq<int>>, next: seq<int>)
    requires Sensible(p) && Path(p, path) && Solution(p, next)
    requires Passed(p, path[|path| - 1], next) && Eval(p, next) < Eval(p, path[|path| - 1])
    requires multiset(next) == multiset(path[|path| - 1])
    ensures Path(p, path + [next])
  {
    hide Passed, Eval, Solution, Sensible;
    var more := path + [next];
    forall i, j | 0 <= i && j == i + 1 && j < |more|
      ensures Passed(p, more[i], more[j]) && Eval(p, more[j]) < Eval(p, more[i])
    {
      if j < |path| { assert more[i] == path[i] && more[j] == path[j]; }
    }
  }

  /** Passes until nothing is gained: the result is a local optimum, and the record keeps the least cost seen. */
  method Descend(p: Problem, start: seq<int>, sigma: seq<int>, best: Best)
    returns (res: seq<int>, bestSol: seq<int>, bestEval: Best, ghost path: seq<seq<int>>)
    requires Sensible(p) && Solution(p, start) && Solution(p, sigma)
    requires best.Best? ==> best.eval == Eval(p, sigma) && LocalOptimum(p, sigma)
    ensures Solution(p, res) && LocalOptimum(p, res) && Eval(p, res) <= Eval(p, start)
    ensures Solution(p, bestSol) && LocalOptimum(p, bestSol) && bestEval == Best(Eval(p, bestSol))
    ensures Eval(p, bestSol) <= Eval(p, res) && (best.Best? ==> Eval(p, bestSol) <= best.eval)
    ensures bestSol == if best.NoBest? || Eval(p, res) < best.eval then res else sigma
    ensures Path(p, path) && path[0] == start && path[|path| - 1] == res
  {
    hide Eval, Gain, Sensible, Solution, LocalOptimum, Path, Passed;
    res, bestSol, bestEval, path := start, sigma, best, [start];
    PathStart(p, start);
    ghost var first := true;
    var max := 1.0;
    while max > 0.0
      invariant Solution(p, res) && Solution(p, bestSol) && max >= 0.0 && Eval(p, res) <= Eval(p, start)
      invariant bestEval.Best? ==> bestEval.eval == Eval(p, bestSol) && (LocalOptimum(p, bestSol) || bestSol == res)
      invariant bestEval.NoBest? ==> best.NoBest? && max == 1.0
      invariant max == 0.0 ==> LocalOptimum(p, res) && bestEval.Best? && bestEval.eval <= Eval(p, res)
      invariant best.Best? ==> bestEval.Best? && bestEval.eval <= best.eval
      invariant bestEval.NoBest? || (bestEval == best && bestSol == sigma && best.Best?)
          || bestEval.eval <= Eval(p, res)
      invariant |path| > 0 && Path(p, path) && path[0] == start && path[|path| - 1] == res && (first ==> max == 1.0)
      invariant first || bestSol == if best.NoBest? || Eval(p, res) < best.eval then res else sigma
      invariant !first ==> bestEval.Best?
      invariant first ==> bestEval == best && bestSol == sigma
      decreases max > 0.0, Cheaper(p, res)
    {
      ghost var before := res;
      res, max := Pass(p, res);
      if max > 0.0 {
        CheaperShrinks(p, before, res);
        PathMore(p, path, res);
        path := path + [res];
      }
      var eval := EvalSol(p, res);
      if bestEval.NoBest? || eval < bestEval.eval {
        bestEval := Best(eval);
        bestSol := res;
      }
      first := false;
    }
  }

  /** Some arrangement of the first cores: what the random generator leaves open. */
  method RandomSolution(p: Problem, cores: seq<int>) returns (sol: seq<int>)
    requires Solution(p, cores)
    ensures Solution(p, sol) && multiset(sol) == multiset(cores)
  {
    sol := cores;
    var swaps: int := *;
    var step := 0;
    while step < swaps
      invariant Solution(p, sol) && multiset(sol) == multiset(cores)
    {
      var a: nat, b: nat := *, *;
      if a < b < |sol| {
        ExchangeSame(sol, a, b);
        sol := Exchange(sol, a, b);
      }
      step := step + 1;
    }
  }

  /** The ends of some descents, none of which can be improved by a single exchange. */
  ghost predicate Ends(p: Problem, paths: seq<seq<seq<int>>>, cores: seq<int>)
    requires Sensible(p)
  {
    forall i | 0 <= i < |paths| ::
      Path(p, paths[i]) && LocalOptimum(p, End(paths[i])) && multiset(paths[i][0]) == multiset(cores)
  }

  function End(path: seq<seq<int>>): seq<int>
  {
    if path == [] then [] else path[|path| - 1]
  }

  /** The first of the cheapest ends. */
  ghost predicate FirstBest(p: Problem, paths: seq<seq<seq<int>>>, cores: seq<int>, sigma: seq<int>, at: nat)
    requires Sensible(p) && Ends(p, paths, cores)
  {
    && at < |paths| && sigma == End(paths[at])
    && forall i | 0 <= i < |paths| ::
         if i < at then Eval(p, sigma) < Eval(p, End(paths[i])) else Eval(p, sigma) <= Eval(p, End(paths[i]))
  }

  lemma PathEnd(p: Problem, path: seq<seq<int>>)
    requires Sensible(p) && Path(p, path)
    ensures |path| > 0 && Solution(p, End(path))
  {
  }

  lemma EndsMore(p: Problem, paths: seq<seq<seq<int>>>, cores: seq<int>, sigma: seq<int>, at: nat, path: seq<seq<int>>,
                 next: seq<int>)
    requires Sensible(p) && Ends(p, paths, cores) && Path(p, path) && LocalOptimum(p, End(path))
    requires multiset(path[0]) == multiset(cores) && (paths != [] ==> FirstBest(p, paths, cores, sigma, at))
    requires next == if paths == [] || Eval(p, End(path)) < Eval(p, sigma) then End(path) else sigma
    ensures Ends(p, paths + [path], cores)
    ensures FirstBest(p, paths + [path], cores, next,
                      if paths == [] || Eval(p, End(path)) < Eval(p, sigma) then |paths| else at)
  {
    hide Eval, LocalOptimum, Passed, Sensible, Path, Solution;
    PathEnd(p, path);
    forall i | 0 <= i < |paths| ensures |paths[i]| > 0 && Solution(p, End(paths[i])) { PathEnd(p, paths[i]); }
    var more := paths + [path];
    forall i | 0 <= i < |more|
      ensures Path(p, more[i]) && LocalOptimum(p, End(more[i])) && multiset(more[i][0]) == multiset(cores)
    {
      assert more[i] == if i < |paths| then paths[i] else path;
    }
  }

  /** `tm_map_MPIPP`: with at least one start the placement returned is one that no single exchange improves, the first
      of the cheapest that the descents from the random starts end with. */
  method MapMpipp(p: Problem, cores: seq<int>, seeds: nat)
    returns (sigma: seq<int>, ghost paths: seq<seq<seq<int>>>, ghost at: nat)
    requires Sensible(p) && Solution(p, cores)
    ensures Solution(p, sigma) && (seeds > 0 ==> LocalOptimum(p, sigma))
    ensures multiset(sigma) == multiset(cores) && |paths| == seeds && Ends(p, paths, cores)
    ensures seeds > 0 ==> FirstBest(p, paths, cores, sigma, at)
  {
    hide Eval, Gain, Sensible, Solution, LocalOptimum, Ends, FirstBest, Passed;
    paths, at := [], 0;
    NoEnds(p, cores);
    var sol := RandomSolution(p, cores);
    sigma := sol;
    var best := NoBest;
    var seed := 1;
    while seed <= seeds
      invariant 1 <= seed && Solution(p, sol) && Solution(p, sigma) && (best.NoBest? <==> seed == 1)
      invariant best.Best? ==> best.eval == Eval(p, sigma) && LocalOptimum(p, sigma)
      invariant |paths| == seed - 1 <= seeds && Ends(p, paths, cores)
      invariant multiset(sol) == multiset(cores) == multiset(sigma)
      invariant seed > 1 ==> FirstBest(p, paths, cores, sigma, at)
    {
      ghost var path, before, was := [], sigma, best;
      sol, sigma, best, path := Descend(p, sol, sigma, best);
      EndsMore(p, paths, cores, before, at, path, sigma);
      at := if was.NoBest? || Eval(p, sol) < was.eval then |paths| else at;
      paths := paths + [path];
      sol := RandomSolution(p, cores);
      seed := seed + 1;
    }
  }

  lemma NoEnds(p: Problem, cores: seq<int>)
    requires Sensible(p)
    ensures Ends(p, [], cores)
  {
  }
}
