/** Grouping a level of groups of three to five nodes: for each group in turn, the best of
    the first groups of free nodes in lexicographic order. */
module BoundedSearch {
  import opened PartitionWeights
  import opened Arithmetic
  import opened GroupEnumeration
  import opened GroupSelection
  import opened GroupValues
  import opened Wrappers
  import opened PivotTree

  /** Free nodes from lo on. */
  function Free(taken: seq<bool>, lo: nat): nat
    requires lo <= |taken|
    decreases |taken| - lo
  {
    if lo == |taken| then 0 else (if taken[lo] then 0 else 1) + Free(taken, lo + 1)
  }

  ghost predicate AllFree(taken: seq<bool>, g: Group)
  {
    forall i | 0 <= i < |g| :: g[i] < |taken| && !taken[g[i]]
  }

  // ---------- The groups of free nodes ----------

  /** The groups of k free nodes from lo on, in lexicographic order. */
  ghost function FreeGroups(taken: seq<bool>, lo: nat, k: nat): seq<Group>
    requires lo <= |taken|
    decreases |taken| - lo
  {
    if k == 0 then [[]]
    else if lo == |taken| then []
    else if taken[lo] then FreeGroups(taken, lo + 1, k)
    else Prefixed([lo], FreeGroups(taken, lo + 1, k - 1)) + FreeGroups(taken, lo + 1, k)
  }

  ghost predicate FreeGroup(taken: seq<bool>, lo: nat, k: nat, g: Group)
  {
    GroupOk(g, |taken|, lo, k) && AllFree(taken, g)
  }

  lemma {:induction false} FreeGroupsOk(taken: seq<bool>, lo: nat, k: nat)
    requires lo <= |taken|
    ensures forall i | 0 <= i < |FreeGroups(taken, lo, k)| :: FreeGroup(taken, lo, k, FreeGroups(taken, lo, k)[i])
    decreases |taken| - lo
  {
    hide FreeGroup;
    if k == 0 {
      assert FreeGroup(taken, lo, k, []) by { NoNodes(taken, lo); }
    } else if lo < |taken| {
      FreeGroupsOk(taken, lo + 1, k);
      var with, rest := FreeGroups(taken, lo + 1, k - 1), FreeGroups(taken, lo + 1, k);
      forall i | 0 <= i < |rest| ensures FreeGroup(taken, lo, k, rest[i]) { FromLater(taken, lo, k, rest[i]); }
      if !taken[lo] {
        FreeGroupsOk(taken, lo + 1, k - 1);
        forall i | 0 <= i < |with| ensures FreeGroup(taken, lo, k, [lo] + with[i]) { WithFirst(taken, lo, k, with[i]); }
      }
    }
  }

  lemma NoNodes(taken: seq<bool>, lo: nat)
    ensures FreeGroup(taken, lo, 0, [])
  {
  }

  lemma FromLater(taken: seq<bool>, lo: nat, k: nat, g: Group)
    requires FreeGroup(taken, lo + 1, k, g)
    ensures FreeGroup(taken, lo, k, g)
  {
  }

  lemma WithFirst(taken: seq<bool>, lo: nat, k: nat, g: Group)
    requires k > 0 && lo < |taken| && !taken[lo] && FreeGroup(taken, lo + 1, k - 1, g)
    ensures FreeGroup(taken, lo, k, [lo] + g)
  {
  }

  /** No group of free nodes is missing. */
  lemma {:induction false} FreeGroupsComplete(taken: seq<bool>, lo: nat, k: nat, g: Group)
    requires lo <= |taken| && FreeGroup(taken, lo, k, g)
    ensures g in FreeGroups(taken, lo, k)
    decreases |taken| - lo
  {
    if k > 0 {
      assert lo <= g[0] < |taken|;
      var rest := FreeGroups(taken, lo + 1, k);
      if g[0] == lo {
        var with := FreeGroups(taken, lo + 1, k - 1);
        FreeGroupsComplete(taken, lo + 1, k - 1, g[1..]);
        var i :| 0 <= i < |with| && with[i] == g[1..];
        assert g == [lo] + g[1..];
        assert FreeGroups(taken, lo, k)[i] == g;
      } else {
        assert forall i | 0 <= i < k :: g[0] <= g[i];
        FreeGroupsComplete(taken, lo + 1, k, g);
      }
    }
  }

  /** The list is strictly increasing. */
  lemma {:induction false} FreeGroupsOrdered(taken: seq<bool>, lo: nat, k: nat, i: nat, j: nat)
    requires lo <= |taken| && i < j < |FreeGroups(taken, lo, k)|
    ensures |FreeGroups(taken, lo, k)[i]| == |FreeGroups(taken, lo, k)[j]|
        && Before(FreeGroups(taken, lo, k)[i], FreeGroups(taken, lo, k)[j])
    decreases |taken| - lo
  {
    FreeGroupsOk(taken, lo, k);
    var all := FreeGroups(taken, lo, k);
    assert FreeGroup(taken, lo, k, all[i]) && FreeGroup(taken, lo, k, all[j]);
    if taken[lo] {
      FreeGroupsOrdered(taken, lo + 1, k, i, j);
    } else {
      var with, rest := FreeGroups(taken, lo + 1, k - 1), FreeGroups(taken, lo + 1, k);
      if j < |with| {
        FreeGroupsOrdered(taken, lo + 1, k - 1, i, j);
        assert all[i][1..] == with[i] && all[j][1..] == with[j];
      } else if i < |with| {
        FreeGroupsOk(taken, lo + 1, k);
        assert FreeGroup(taken, lo + 1, k, rest[j - |with|]);
        assert all[j] == rest[j - |with|] && all[i][0] == lo;
      } else {
        FreeGroupsOrdered(taken, lo + 1, k, i - |with|, j - |with|);
      }
    }
  }

  /** Without a group of k free nodes there is none of more. */
  lemma {:induction false} NoLonger(taken: seq<bool>, lo: nat, k: nat)
    requires lo <= |taken| && FreeGroups(taken, lo, k) == []
    ensures FreeGroups(taken, lo, k + 1) == []
    decreases |taken| - lo
  {
    if lo < |taken| {
      NoLonger(taken, lo + 1, k);
      if !taken[lo] { NoLonger(taken, lo + 1, k - 1); }
    }
  }

  /** Enough free nodes make a group. */
  lemma {:induction false} SomeGroup(taken: seq<bool>, lo: nat, k: nat)
    requires lo <= |taken| && Free(taken, lo) >= k
    ensures FreeGroups(taken, lo, k) != []
    decreases |taken| - lo
  {
    if k > 0 {
      if taken[lo] { SomeGroup(taken, lo + 1, k); } else { SomeGroup(taken, lo + 1, k - 1); }
    }
  }

  // ---------- One group ----------

  datatype Search = Search(best: Option<real>, child: Group, done: nat)

  /** Evaluate one complete group: only a strictly smaller value replaces the best one. */
  ghost function Consider(mat: Matrix, s: Search, g: Group): Search
    requires Square(mat, |mat|) && forall j | 0 <= j < |g| :: g[j] < |mat|
  {
    var val := Leaving(mat, g, |g|);
    if s.best.None? || val < s.best.value then Search(Some(val), g, s.done + 1) else s.(done := s.done + 1)
  }

  ghost predicate Below(gs: seq<Group>, n: nat)
  {
    forall i, j | 0 <= i < |gs| && 0 <= j < |gs[i]| :: gs[i][j] < n
  }

  /** The state after the first c groups. */
  ghost function Kept(mat: Matrix, s: Search, gs: seq<Group>, c: nat): Search
    requires Square(mat, |mat|) && c <= |gs| && Below(gs, |mat|)
  {
    if c == 0 then s else Consider(mat, Kept(mat, s, gs, c - 1), gs[c - 1])
  }

  lemma {:induction false} KeptDone(mat: Matrix, s: Search, gs: seq<Group>, c: nat)
    requires Square(mat, |mat|) && c <= |gs| && Below(gs, |mat|)
    ensures Kept(mat, s, gs, c).done == s.done + c
  {
    if c > 0 { KeptDone(mat, s, gs, c - 1); }
  }

  /** Going on in a part of the list is going on in the list. */
  lemma {:induction false} KeptMore(mat: Matrix, s: Search, gs: seq<Group>, c: nat, part: seq<Group>, d: nat)
    requires Square(mat, |mat|) && d <= |part| && c + d <= |gs| && Below(gs, |mat|) && Below(part, |mat|)
    requires forall i | 0 <= i < d :: gs[c + i] == part[i]
    ensures Kept(mat, Kept(mat, s, gs, c), part, d) == Kept(mat, s, gs, c + d)
  {
    hide Consider, Square, Below;
    if d > 0 { KeptMore(mat, s, gs, c, part, d - 1); }
  }

  /** How many of n groups are looked at when some were before: the search stops after max + 1, but not before it has
      looked at one. */
  function Looked(n: nat, done: nat, max: nat): nat
  {
    if done + n <= max || n == 0 then n else if done <= max then max + 1 - done else 1
  }

  /** The complete groups that a partial one can become. */
  ghost function Completions(taken: seq<bool>, from: nat, k: nat, cur: Group): seq<Group>
    requires from <= |taken| && |cur| <= k
  {
    Prefixed(cur, FreeGroups(taken, from, k - |cur|))
  }

  lemma CompletionsBelow(taken: seq<bool>, from: nat, k: nat, cur: Group)
    requires from <= |taken| && |cur| <= k && GroupOk(cur, from, 0, |cur|)
    ensures Below(Completions(taken, from, k, cur), |taken|)
  {
    FreeGroupsOk(taken, from, k - |cur|);
    var gs, all := FreeGroups(taken, from, k - |cur|), Completions(taken, from, k, cur);
    forall i, j | 0 <= i < |all| && 0 <= j < |all[i]| ensures all[i][j] < |taken| {
      assert FreeGroup(taken, from, k - |cur|, gs[i]);
    }
  }

  /** At a free node come first the groups with it, then those without it; a taken node is passed over. */
  lemma CompletionsStep(taken: seq<bool>, i: nat, k: nat, cur: Group)
    requires i < |taken| && |cur| < k
    ensures Completions(taken, i, k, cur)
         == (if taken[i] then [] else Completions(taken, i + 1, k, cur + [i])) + Completions(taken, i + 1, k, cur)
  {
    if !taken[i] {
      var with, rest := FreeGroups(taken, i + 1, k - |cur| - 1), FreeGroups(taken, i + 1, k - |cur|);
      PrefixedSum(cur, Prefixed([i], with), rest);
      PrefixedTwice(cur, i, with);
    }
  }

  /** The state inside the loop of the search: all groups before those from node i on are evaluated. */
  ghost predicate Upto(mat: Matrix, taken: seq<bool>, from: nat, k: nat, cur: Group, s: Search, r: Search, i: nat,
                       max: nat)
    requires Square(mat, |mat|) && |taken| == |mat| && from <= i <= |taken| && |cur| < k && GroupOk(cur, from, 0, |cur|)
  {
    CompletionsBelow(taken, from, k, cur);
    var all, rest := Completions(taken, from, k, cur), Completions(taken, i, k, cur);
    && |rest| <= |all| && all[|all| - |rest|..] == rest
    && r == Kept(mat, s, all, |all| - |rest|) && (r.done <= max || |rest| == |all|)
  }

  ghost predicate Searched(mat: Matrix, taken: seq<bool>, from: nat, k: nat, cur: Group, s: Search, r: Search, max: nat)
    requires Square(mat, |mat|) && |taken| == |mat| && from <= |taken| && |cur| <= k && GroupOk(cur, from, 0, |cur|)
  {
    CompletionsBelow(taken, from, k, cur);
    var all := Completions(taken, from, k, cur);
    r == Kept(mat, s, all, Looked(|all|, s.done, max))
  }

  lemma UptoStart(mat: Matrix, taken: seq<bool>, from: nat, k: nat, cur: Group, s: Search, max: nat)
    requires Square(mat, |mat|) && |taken| == |mat| && from <= |taken| && |cur| < k && GroupOk(cur, from, 0, |cur|)
    ensures Upto(mat, taken, from, k, cur, s, s, from, max)
  {
    hide Completions;
  }

  lemma UptoSkip(mat: Matrix, taken: seq<bool>, from: nat, k: nat, cur: Group, s: Search, r: Search, i: nat, max: nat)
    requires Square(mat, |mat|) && |taken| == |mat| && from <= i < |taken| && |cur| < k && GroupOk(cur, from, 0, |cur|)
    requires taken[i] && Upto(mat, taken, from, k, cur, s, r, i, max)
    ensures Upto(mat, taken, from, k, cur, s, r, i + 1, max)
  {
    hide Completions, Kept, Square;
    CompletionsStep(taken, i, k, cur);
    assert Completions(taken, i, k, cur) == Completions(taken, i + 1, k, cur);
  }

  /** After the search below node i either all is done for now, or the next node follows. */
  lemma UptoNext(mat: Matrix, taken: seq<bool>, from: nat, k: nat, cur: Group, s: Search, r: Search, i: nat, max: nat,
                 next: Search)
    requires Square(mat, |mat|) && |taken| == |mat| && from <= i < |taken| && |cur| < k && GroupOk(cur, from, 0, |cur|)
    requires !taken[i] && Upto(mat, taken, from, k, cur, s, r, i, max)
    requires GroupOk(cur + [i], i + 1, 0, |cur| + 1) && Searched(mat, taken, i + 1, k, cur + [i], r, next, max)
    ensures if next.done > max then Searched(mat, taken, from, k, cur, s, next, max)
            else Upto(mat, taken, from, k, cur, s, next, i + 1, max)
  {
    hide Completions, Kept, Square, GroupOk, Below;
    CompletionsStep(taken, i, k, cur);
    CompletionsBelow(taken, from, k, cur);
    CompletionsBelow(taken, i + 1, k, cur + [i]);
    var all, rest := Completions(taken, from, k, cur), Completions(taken, i, k, cur);
    var part, after := Completions(taken, i + 1, k, cur + [i]), Completions(taken, i + 1, k, cur);
    var c, d := |all| - |rest|, Looked(|part|, r.done, max);
    InTwo(all, c, part, after);
    KeptMore(mat, s, all, c, part, d);
    KeptDone(mat, s, all, c);
    KeptDone(mat, r, part, d);
    if part == [] { NoneWithout(taken, i, k, cur); }
  }

  lemma InTwo(all: seq<Group>, c: nat, part: seq<Group>, after: seq<Group>)
    requires c <= |all| && all[c..] == part + after
    ensures c + |part| <= |all| && all[c + |part|..] == after && forall j | 0 <= j < |part| :: all[c + j] == part[j]
  {
    assert all[c + |part|..] == all[c..][|part|..];
    forall j | 0 <= j < |part| ensures all[c + j] == part[j] { assert all[c..][j] == (part + after)[j]; }
  }

  lemma NoneWithout(taken: seq<bool>, i: nat, k: nat, cur: Group)
    requires i < |taken| && |cur| < k && Completions(taken, i + 1, k, cur + [i]) == []
    ensures Completions(taken, i + 1, k, cur) == []
  {
    assert |FreeGroups(taken, i + 1, k - |cur| - 1)| == |Completions(taken, i + 1, k, cur + [i])|;
    NoLonger(taken, i + 1, k - |cur| - 1);
  }

  lemma UptoEnd(mat: Matrix, taken: seq<bool>, from: nat, k: nat, cur: Group, s: Search, r: Search, max: nat)
    requires Square(mat, |mat|) && |taken| == |mat| && from <= |taken| && |cur| < k && GroupOk(cur, from, 0, |cur|)
    requires Upto(mat, taken, from, k, cur, s, r, |taken|, max)
    ensures Searched(mat, taken, from, k, cur, s, r, max)
  {
    CompletionsBelow(taken, from, k, cur);
    KeptDone(mat, s, Completions(taken, from, k, cur), |Completions(taken, from, k, cur)|);
    assert Completions(taken, |taken|, k, cur) == [];
  }

  lemma SearchedOne(mat: Matrix, taken: seq<bool>, from: nat, cur: Group, s: Search, r: Search, max: nat)
    requires Square(mat, |mat|) && |taken| == |mat| && from <= |taken| && GroupOk(cur, from, 0, |cur|)
    requires r == Consider(mat, s, cur)
    ensures Searched(mat, taken, from, |cur|, cur, s, r, max)
  {
    var all := Completions(taken, from, |cur|, cur);
    assert FreeGroups(taken, from, 0) == [[]];
    assert |all| == 1 && all[0] == cur + [] == cur;
    CompletionsBelow(taken, from, |cur|, cur);
    assert Kept(mat, s, all, 1) == Consider(mat, Kept(mat, s, all, 0), all[0]);
  }

  /** The group kept is one of free nodes, and its value is the weight that leaves it. */
  ghost predicate Found(mat: Matrix, s: Search, taken: seq<bool>, k: nat)
    requires Square(mat, |mat|) && |taken| == |mat|
  {
    s.best.Some? ==> FreeGroup(taken, 0, k, s.child) && s.best.value == Leaving(mat, s.child, k)
  }

  lemma {:induction false} KeptFound(mat: Matrix, s: Search, gs: seq<Group>, c: nat, taken: seq<bool>, k: nat)
    requires Square(mat, |mat|) && |taken| == |mat| && c <= |gs| && Below(gs, |mat|) && Found(mat, s, taken, k)
    requires forall i | 0 <= i < |gs| :: FreeGroup(taken, 0, k, gs[i])
    ensures Found(mat, Kept(mat, s, gs, c), taken, k) && (c > 0 || s.best.Some? ==> Kept(mat, s, gs, c).best.Some?)
  {
    hide Leaving, Square, GroupOk, AllFree;
    if c > 0 {
      KeptFound(mat, s, gs, c - 1, taken, k);
      FreeSize(taken, k, gs[c - 1]);
    }
  }

  lemma FreeSize(taken: seq<bool>, k: nat, g: Group)
    requires FreeGroup(taken, 0, k, g)
    ensures |g| == k
  {
  }

  /** What the search keeps is a group of free nodes, and there is one if enough nodes are free. */
  lemma SearchedFound(mat: Matrix, taken: seq<bool>, from: nat, k: nat, cur: Group, s: Search, r: Search, max: nat)
    requires Square(mat, |mat|) && |taken| == |mat| && from <= |taken| && |cur| <= k && GroupOk(cur, from, 0, |cur|)
    requires AllFree(taken, cur) && Found(mat, s, taken, k) && Searched(mat, taken, from, k, cur, s, r, max)
    ensures Found(mat, r, taken, k) && (s.best.Some? || Free(taken, from) >= k - |cur| ==> r.best.Some?)
  {
    hide Found, FreeGroup, Square, AllFree, GroupOk, FreeGroups, Below;
    var all := Completions(taken, from, k, cur);
    CompletionsBelow(taken, from, k, cur);
    CompletionsFree(taken, from, k, cur);
    if Free(taken, from) >= k - |cur| { SomeGroup(taken, from, k - |cur|); }
    KeptFound(mat, s, all, Looked(|all|, s.done, max), taken, k);
  }

  lemma CompletionsFree(taken: seq<bool>, from: nat, k: nat, cur: Group)
    requires from <= |taken| && |cur| <= k && GroupOk(cur, from, 0, |cur|) && AllFree(taken, cur)
    ensures forall i | 0 <= i < |Completions(taken, from, k, cur)| ::
        FreeGroup(taken, 0, k, Completions(taken, from, k, cur)[i])
  {
    hide FreeGroup, GroupOk, AllFree, FreeGroups;
    FreeGroupsOk(taken, from, k - |cur|);
    var gs, all := FreeGroups(taken, from, k - |cur|), Completions(taken, from, k, cur);
    forall i | 0 <= i < |all| ensures FreeGroup(taken, 0, k, all[i]) { JoinedFree(taken, from, k, cur, gs[i]); }
  }

  lemma JoinedFree(taken: seq<bool>, from: nat, k: nat, cur: Group, g: Group)
    requires from <= |taken| && |cur| <= k && GroupOk(cur, from, 0, |cur|) && AllFree(taken, cur)
    requires FreeGroup(taken, from, k - |cur|, g)
    ensures FreeGroup(taken, 0, k, cur + g)
  {
  }

  /** `fast_group`: extend the current group by free nodes in increasing order and keep the best complete group.  The
      groups evaluated are exactly the first ones in lexicographic order, up to one more than max. */
  method FastGroup(mat: Matrix, sumRow: seq<real>, taken: seq<bool>, from: nat, k: nat, cur: Group, s: Search, max: nat)
    returns (r: Search)
    requires Square(mat, |mat|) && RowSums(mat, sumRow) && |taken| == |mat| && from <= |taken| && |cur| <= k
    requires GroupOk(cur, from, 0, |cur|) && AllFree(taken, cur)
    ensures Searched(mat, taken, from, k, cur, s, r, max)
    ensures Found(mat, s, taken, k) ==>
        Found(mat, r, taken, k) && (s.best.Some? || Free(taken, from) >= k - |cur| ==> r.best.Some?)
    decreases k - |cur|
  {
    hide RowSums, Square, Leaving, Upto, Searched, Found;
    r := s;
    if |cur| == k {
      r := r.(done := r.done + 1);
      var val := EvalGrouping(mat, sumRow, cur);
      if r.best.None? || val < r.best.value { r := r.(best := Some(val), child := cur); }
      SearchedOne(mat, taken, from, cur, s, r, max);
      if Found(mat, s, taken, k) { SearchedFound(mat, taken, from, k, cur, s, r, max); }
      return;
    }
    UptoStart(mat, taken, from, k, cur, s, max);
    for i := from to |taken|
      invariant Upto(mat, taken, from, k, cur, s, r, i, max)
    {
      if taken[i] {
        UptoSkip(mat, taken, from, k, cur, s, r, i, max);
        continue;
      }
      ghost var before := r;
      r := FastGroup(mat, sumRow, taken, i + 1, k, cur + [i], r, max);
      UptoNext(mat, taken, from, k, cur, s, before, i, max, r);
      if r.done > max {
        if Found(mat, s, taken, k) { SearchedFound(mat, taken, from, k, cur, s, r, max); }
        return;
      }
    }
    UptoEnd(mat, taken, from, k, cur, s, r, max);
    if Found(mat, s, taken, k) { SearchedFound(mat, taken, from, k, cur, s, r, max); }
  }

  // ---------- All groups ----------

  /** Some group among the first max + 1 of free nodes: less weight leaves it than leaves those before it, and no more
      than leaves those after it. */
  ghost predicate BestAt(mat: Matrix, taken: seq<bool>, k: nat, max: nat, g: Group, c: nat)
    requires Square(mat, |mat|) && |taken| == |mat| && GroupOk(g, |mat|, 0, k)
  {
    var all := FreeGroups(taken, 0, k);
    && c < Looked(|all|, 0, max) && all[c] == g
    && forall j: nat | j < Looked(|all|, 0, max) :: LeavesMore(mat, all[j], g, j < c)
  }

  ghost predicate LeavesMore(mat: Matrix, h: Group, g: Group, strictly: bool)
    requires Square(mat, |mat|) && forall j | 0 <= j < |g| :: g[j] < |mat|
  {
    && (forall j | 0 <= j < |h| :: h[j] < |mat|)
    && if strictly then Leaving(mat, g, |g|) < Leaving(mat, h, |h|) else Leaving(mat, g, |g|) <= Leaving(mat, h, |h|)
  }

  ghost predicate FirstBest(mat: Matrix, taken: seq<bool>, k: nat, max: nat, g: Group)
    requires Square(mat, |mat|)
  {
    |taken| == |mat| && GroupOk(g, |mat|, 0, k) && exists c: nat :: BestAt(mat, taken, k, max, g, c)
  }

  /** The nodes of some groups. */
  ghost function TakenBy(gs: seq<Group>, n: nat): seq<bool>
  {
    seq(n, v => exists i :: 0 <= i < |gs| && v in gs[i])
  }

  /** Each group in turn is the first best one of the nodes that the groups before it leave. */
  ghost predicate BySearch(mat: Matrix, k: nat, m: nat, max: nat, gs: seq<Group>)
    requires Square(mat, |mat|)
  {
    |gs| == m && forall l: nat | l < m :: FirstBest(mat, TakenBy(gs[..l], |mat|), k, max, gs[l])
  }

  ghost predicate KeptAt(mat: Matrix, gs: seq<Group>, c: nat, s: Search, at: nat)
    requires Square(mat, |mat|) && c <= |gs| && Below(gs, |mat|)
  {
    && at < c && s.child == gs[at] && s.best == Some(Leaving(mat, s.child, |s.child|))
    && forall j: nat | j < c :: LeavesMore(mat, gs[j], s.child, j < at)
  }

  lemma {:induction false} KeptFirst(mat: Matrix, gs: seq<Group>, c: nat) returns (at: nat)
    requires Square(mat, |mat|) && 0 < c <= |gs| && Below(gs, |mat|)
    ensures KeptAt(mat, gs, c, Kept(mat, Search(None, [], 0), gs, c), at)
    decreases c
  {
    hide Leaving, Square;
    if c == 1 {
      at := 0;
      assert Kept(mat, Search(None, [], 0), gs, 1) == Consider(mat, Kept(mat, Search(None, [], 0), gs, 0), gs[0]);
    } else {
      var s := Kept(mat, Search(None, [], 0), gs, c - 1);
      at := KeptFirst(mat, gs, c - 1);
      forall j: nat | j < c - 1 ensures LeavesMore(mat, gs[j], s.child, j < at) { }
      if Leaving(mat, gs[c - 1], |gs[c - 1]|) < s.best.value { at := c - 1; }
    }
  }

  lemma SearchedBest(mat: Matrix, taken: seq<bool>, k: nat, s: Search, max: nat)
    requires Square(mat, |mat|) && |taken| == |mat| && GroupOk(s.child, |mat|, 0, k) && s.best.Some?
    requires Searched(mat, taken, 0, k, [], Search(None, [], 0), s, max)
    ensures FirstBest(mat, taken, k, max, s.child)
  {
    hide Leaving, Square;
    PrefixedEmpty(FreeGroups(taken, 0, k));
    CompletionsBelow(taken, 0, k, []);
    var all := FreeGroups(taken, 0, k);
    var c := Looked(|all|, 0, max);
    var at := KeptFirst(mat, all, c);
    assert BestAt(mat, taken, k, max, s.child, at);
  }

  lemma TakenNone(n: nat)
    ensures TakenBy([], n) == seq(n, _ => false)
  {
  }

  lemma TakenMore(gs: seq<Group>, taken: seq<bool>, after: seq<bool>, g: Group)
    requires taken == TakenBy(gs, |taken|) && |after| == |taken|
    requires forall v | 0 <= v < |taken| :: after[v] <==> taken[v] || v in g
    ensures after == TakenBy(gs + [g], |taken|)
  {
    var more := gs + [g];
    forall v | 0 <= v < |taken| ensures after[v] == exists i :: 0 <= i < |more| && v in more[i] {
      if taken[v] {
        var i :| 0 <= i < |gs| && v in gs[i];
        assert more[i] == gs[i];
      }
      if v in g { assert more[|gs|] == g; }
    }
  }

  lemma SearchMore(mat: Matrix, k: nat, l: nat, max: nat, gs: seq<Group>, g: Group)
    requires Square(mat, |mat|) && BySearch(mat, k, l, max, gs) && FirstBest(mat, TakenBy(gs, |mat|), k, max, g)
    ensures BySearch(mat, k, l + 1, max, gs + [g])
  {
    hide FirstBest, TakenBy, Square;
    var more := gs + [g];
    forall i: nat | i < l + 1 ensures FirstBest(mat, TakenBy(more[..i], |mat|), k, max, more[i]) {
      assert more[..i] == gs[..i];
    }
  }

  /** `fast_grouping`: group after group from the nodes still free. */
  method FastGrouping(mat: Matrix, sumRow: seq<real>, k: nat, m: nat, max: nat) returns (gs: seq<Group>)
    requires Square(mat, |mat|) && RowSums(mat, sumRow) && |mat| == m * k && 0 < k
    ensures Covering(gs, |mat|, k, m) && BySearch(mat, k, m, max, gs)
  {
    hide RowSums, Square, Free, Disjoint, Times, FirstBest, Found, Searched, TakenBy;
    var taken := seq(|mat|, _ => false);
    gs := [];
    NoneTaken(taken, 0);
    TakenNone(|mat|);
    NextTimes(0, k);
    for l := 0 to m
      invariant |taken| == |mat| && |gs| == l && Marked(gs, taken, k) && Free(taken, 0) + Times(l, k) == |mat|
      invariant taken == TakenBy(gs, |mat|) && BySearch(mat, k, l, max, gs)
    {
      TimesWithin(l, m, k);
      NothingFound(mat, taken, k);
      var s := FastGroup(mat, sumRow, taken, 0, k, [], Search(None, [], 0), max);
      FoundFree(mat, s, taken, k);
      SearchedBest(mat, taken, k, s, max);
      ghost var before := taken;
      taken := Take(taken, s.child, k);
      NextTimes(l, k);
      MarkMore(gs, before, taken, s.child, k);
      TakenMore(gs, before, taken, s.child);
      SearchMore(mat, k, l, max, gs, s.child);
      gs := gs + [s.child];
    }
  }

  lemma NothingFound(mat: Matrix, taken: seq<bool>, k: nat)
    requires Square(mat, |mat|) && |taken| == |mat|
    ensures Found(mat, Search(None, [], 0), taken, k)
  {
  }

  lemma FoundFree(mat: Matrix, s: Search, taken: seq<bool>, k: nat)
    requires Square(mat, |mat|) && |taken| == |mat| && Found(mat, s, taken, k) && s.best.Some?
    ensures GroupOk(s.child, |mat|, 0, k) && AllFree(taken, s.child)
  {
  }

  /** The groups are disjoint and their nodes are the taken ones. */
  ghost predicate Marked(gs: seq<Group>, taken: seq<bool>, k: nat)
  {
    && Covering(gs, |taken|, k, |gs|)
    && forall i, j | 0 <= i < |gs| && 0 <= j < k :: taken[gs[i][j]]
  }

  lemma {:induction false} NoneTaken(taken: seq<bool>, lo: nat)
    requires lo <= |taken| && forall v | 0 <= v < |taken| :: !taken[v]
    ensures Free(taken, lo) == |taken| - lo
    decreases |taken| - lo
  {
    if lo < |taken| { NoneTaken(taken, lo + 1); }
  }

  lemma {:induction false} FreeUpdate(taken: seq<bool>, v: nat, lo: nat)
    requires lo <= |taken| && v < |taken| && !taken[v]
    ensures Free(taken[v := true], lo) == Free(taken, lo) - if lo <= v then 1 else 0
    decreases |taken| - lo
  {
    if lo < |taken| { FreeUpdate(taken, v, lo + 1); }
  }

  /** Mark the nodes of a group. */
  method Take(taken: seq<bool>, g: Group, k: nat) returns (res: seq<bool>)
    requires GroupOk(g, |taken|, 0, k) && AllFree(taken, g)
    ensures |res| == |taken| && Free(res, 0) == Free(taken, 0) - k
    ensures forall v | 0 <= v < |res| :: res[v] <==> taken[v] || v in g
  {
    hide Free;
    res := taken;
    for i := 0 to k
      invariant |res| == |taken| && Free(res, 0) == Free(taken, 0) - i
      invariant forall v | 0 <= v < |res| :: res[v] <==> taken[v] || v in g[..i]
    {
      assert g[i] !in g[..i];
      assert g[..i + 1] == g[..i] + [g[i]];
      FreeUpdate(res, g[i], 0);
      res := res[g[i] := true];
    }
    assert g[..k] == g;
  }

  lemma MarkMore(gs: seq<Group>, taken: seq<bool>, after: seq<bool>, g: Group, k: nat)
    requires Marked(gs, taken, k) && GroupOk(g, |taken|, 0, k) && AllFree(taken, g) && |after| == |taken|
    requires forall v | 0 <= v < |taken| :: after[v] <==> taken[v] || v in g
    ensures Marked(gs + [g], after, k)
  {
    forall i | 0 <= i < |gs| ensures Disjoint(g, gs[i]) {
      forall a, b | 0 <= a < |g| && 0 <= b < |gs[i]| ensures g[a] != gs[i][b] { assert taken[gs[i][b]]; }
    }
  }

  // ---------- The cut-off ----------

  /** The logarithm to base two, rounded up. */
  function CeilLog2(n: nat): (e: nat)
    ensures Pow2(e) >= n && (e > 0 ==> Pow2(e - 1) < n)
  {
    if n <= 1 then 0 else 1 + CeilLog2((n + 1) / 2)
  }

  /** How many groups `fast_grouping` lets the search evaluate before it stops, for nb possible groups. */
  function Limit(nb: nat, m: nat): nat
  {
    var x := 50 - CeilLog2(nb) - m / 10;
    if x < 10 then 10 else x
  }
}
