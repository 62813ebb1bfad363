/** Choosing disjoint groups that cover a level: the greedy passes over the list of all
    groups, and the proof that the selection kept is always a full cover. */
module GroupSelection {
  import opened Arithmetic
  import opened GroupEnumeration
  import opened Wrappers

  /** A group with the weight that leaves it. */
  datatype Entry = Entry(tab: Group, val: real)

  ghost predicate Disjoint(g: Group, h: Group)
  {
    forall i, j | 0 <= i < |g| && 0 <= j < |h| :: g[i] != h[j]
  }

  ghost predicate Independent(sel: seq<Entry>, g: Group)
  {
    forall j | 0 <= j < |sel| :: Disjoint(g, sel[j].tab)
  }

  /** `independent_groups`. */
  method IndependentGroups(sel: seq<Entry>, e: Entry) returns (r: bool)
    ensures r <==> Independent(sel, e.tab)
  {
    for i := 0 to |e.tab|
      invariant forall j, a, b | 0 <= j < |sel| && 0 <= a < i && 0 <= b < |sel[j].tab| :: e.tab[a] != sel[j].tab[b]
    {
      for j := 0 to |sel|
        invariant forall c, b | 0 <= c < j && 0 <= b < |sel[c].tab| :: e.tab[i] != sel[c].tab[b]
      {
        for k := 0 to |sel[j].tab|
          invariant forall b | 0 <= b < k :: e.tab[i] != sel[j].tab[b]
        {
          if e.tab[i] == sel[j].tab[k] {
            assert !Disjoint(e.tab, sel[j].tab);
            return false;
          }
        }
      }
    }
    return true;
  }

  /** The greedy scan: take every group that is independent of those taken, until there are m. */
  ghost function Greedy(tab: seq<Entry>, i: nat, sel: seq<Entry>, m: nat): Option<seq<Entry>>
    requires i <= |tab| && |sel| <= m
    decreases |tab| - i
  {
    if |sel| == m then Some(sel)
    else if i == |tab| then None
    else if Independent(sel, tab[i].tab) then Greedy(tab, i + 1, sel + [tab[i]], m)
    else Greedy(tab, i + 1, sel, m)
  }

  /** m pairwise disjoint groups of k nodes below n. */
  ghost predicate Selection(sel: seq<Entry>, n: nat, k: nat)
  {
    && (forall i | 0 <= i < |sel| :: GroupOk(sel[i].tab, n, 0, k))
    && forall i, j | 0 <= i < j < |sel| :: Disjoint(sel[j].tab, sel[i].tab)
  }

  ghost predicate Cover(sel: seq<Entry>, n: nat, k: nat, m: nat)
  {
    |sel| == m && Selection(sel, n, k)
  }

  ghost predicate Listed(tab: seq<Entry>, n: nat, k: nat)
  {
    forall i | 0 <= i < |tab| :: GroupOk(tab[i].tab, n, 0, k)
  }

  lemma SelectionAdd(sel: seq<Entry>, e: Entry, n: nat, k: nat)
    requires Selection(sel, n, k) && GroupOk(e.tab, n, 0, k) && Independent(sel, e.tab)
    ensures Selection(sel + [e], n, k)
  {
    hide GroupOk, Disjoint;
  }

  /** Whatever the order of the list, what the greedy scan completes is a cover. */
  lemma {:induction false} GreedyCovers(tab: seq<Entry>, i: nat, sel: seq<Entry>, m: nat, n: nat, k: nat)
    requires i <= |tab| && |sel| <= m && Listed(tab, n, k) && Selection(sel, n, k)
    ensures Greedy(tab, i, sel, m).Some? ==> Cover(Greedy(tab, i, sel, m).value, n, k, m)
    decreases |tab| - i
  {
    hide GroupOk, Disjoint, Selection;
    if |sel| < m && i < |tab| {
      if Independent(sel, tab[i].tab) {
        SelectionAdd(sel, tab[i], n, k);
        GreedyCovers(tab, i + 1, sel + [tab[i]], m, n, k);
      } else {
        GreedyCovers(tab, i + 1, sel, m, n, k);
      }
    }
  }

  /** The best selection so far and its value; no value yet stands for the largest number. */
  datatype Best = Best(val: Option<real>, sel: seq<Entry>)

  predicate Improves(val: real, best: Best)
  {
    best.val.None? || val < best.val.value
  }

  /** The total value of a selection. */
  function Values(sel: seq<Entry>): real
  {
    if sel == [] then 0.0 else Values(sel[..|sel| - 1]) + sel[|sel| - 1].val
  }

  lemma ValuesMore(sel: seq<Entry>, e: Entry)
    ensures Values(sel + [e]) == Values(sel) + e.val
  {
    assert (sel + [e])[..|sel|] == sel;
  }

  /** A selection, when it is complete and better, takes the place of the best one. */
  ghost function Better(best: Best, sel: Option<seq<Entry>>): Best
  {
    if sel.Some? && Improves(Values(sel.value), best) then Best(Some(Values(sel.value)), sel.value) else best
  }

  /** `recurs_select_independent_groups`: the greedy selection is recorded exactly when it is complete and better. */
  method RecursSelect(tab: seq<Entry>, from: nat, sel: seq<Entry>, m: nat, val: real, best: Best)
    returns (found: bool, res: Best)
    requires from <= |tab| && |sel| <= m && val == Values(sel)
    ensures found <==> Greedy(tab, from, sel, m).Some? && Improves(Values(Greedy(tab, from, sel, m).value), best)
    ensures res == Better(best, Greedy(tab, from, sel, m))
    decreases m - |sel|
  {
    hide Independent, Improves, Values;
    found, res := false, best;
    if |sel| == m {
      if Improves(val, best) {
        res := Best(Some(val), sel);
        found := true;
      }
      return;
    }
    var i := from;
    while i < |tab|
      invariant from <= i <= |tab| && Greedy(tab, i, sel, m) == Greedy(tab, from, sel, m)
    {
      var free := IndependentGroups(sel, tab[i]);
      if free {
        ValuesMore(sel, tab[i]);
        found, res := RecursSelect(tab, i + 1, sel + [tab[i]], m, val + tab[i].val, best);
        return;
      }
      i := i + 1;
    }
  }

  /** The greedy selection that starts with the group at i. */
  ghost function From(tab: seq<Entry>, i: nat, m: nat): Option<seq<Entry>>
    requires i < |tab| && 0 < m
  {
    Greedy(tab, i + 1, [tab[i]], m)
  }

  /** The best selection after the given starts, one after the other. */
  ghost function After(tab: seq<Entry>, m: nat, best: Best, starts: seq<nat>): Best
    requires 0 < m && forall i | 0 <= i < |starts| :: starts[i] < |tab|
  {
    if starts == [] then best
    else
      var last := |starts| - 1;
      Better(After(tab, m, best, starts[..last]), From(tab, starts[last], m))
  }

  lemma AfterMore(tab: seq<Entry>, m: nat, best: Best, starts: seq<nat>, i: nat)
    requires 0 < m && i < |tab| && forall j | 0 <= j < |starts| :: starts[j] < |tab|
    ensures After(tab, m, best, starts + [i]) == Better(After(tab, m, best, starts), From(tab, i, m))
  {
    assert (starts + [i])[..|starts|] == starts;
  }

  /** What a pass leaves is worth no more than what it found, and no more than any of its starts. */
  lemma {:induction false} AfterBest(tab: seq<Entry>, m: nat, best: Best, starts: seq<nat>, t: nat)
    requires 0 < m && t <= |starts| && forall j | 0 <= j < |starts| :: starts[j] < |tab|
    ensures best.val.Some? ==>
        After(tab, m, best, starts).val.Some? && After(tab, m, best, starts).val.value <= best.val.value
    ensures t < |starts| && From(tab, starts[t], m).Some? ==>
        After(tab, m, best, starts).val.Some?
        && After(tab, m, best, starts).val.value <= Values(From(tab, starts[t], m).value)
  {
    hide From, Values;
    if starts != [] {
      var last := |starts| - 1;
      AfterBest(tab, m, best, starts[..last], if t < last then t else last);
    }
  }

  /** A pass keeps a cover, and improves the value if it changes it. */
  ghost predicate Keeps(before: Best, after: Best, n: nat, k: nat, m: nat)
  {
    after == before || (after.val == Some(Values(after.sel)) && Improves(Values(after.sel), before)
        && Cover(after.sel, n, k, m))
  }

  lemma KeepsOn(a: Best, b: Best, c: Best, n: nat, k: nat, m: nat)
    requires Keeps(a, b, n, k, m) && Keeps(b, c, n, k, m)
    ensures Keeps(a, c, n, k, m)
  {
  }

  /** Whatever the starts of a pass. */
  lemma {:induction false} AfterKeeps(tab: seq<Entry>, m: nat, best: Best, starts: seq<nat>, n: nat, k: nat)
    requires 0 < m && (forall j | 0 <= j < |starts| :: starts[j] < |tab|) && Listed(tab, n, k)
    ensures Keeps(best, After(tab, m, best, starts), n, k, m)
  {
    hide Cover, Selection, Values, Greedy;
    if starts != [] {
      var last := |starts| - 1;
      AfterKeeps(tab, m, best, starts[..last], n, k);
      Single(tab, starts[last], n, k);
      GreedyCovers(tab, starts[last] + 1, [tab[starts[last]]], m, n, k);
    }
  }

  /** One start of a pass: the group at i first, the others greedily after it. */
  method TryFrom(tab: seq<Entry>, i: nat, m: nat, best: Best) returns (found: bool, res: Best)
    requires i < |tab| && 0 < m
    ensures found <==> From(tab, i, m).Some? && Improves(Values(From(tab, i, m).value), best)
    ensures res == Better(best, From(tab, i, m))
  {
    hide Greedy;
    OneValue(tab[i]);
    found, res := RecursSelect(tab, i + 1, [tab[i]], m, tab[i].val, best);
  }

  lemma Single(tab: seq<Entry>, i: nat, n: nat, k: nat)
    requires i < |tab| && Listed(tab, n, k)
    ensures Selection([tab[i]], n, k)
  {
  }

  lemma OneValue(e: Entry)
    ensures Values([e]) == e.val
  {
    ValuesMore([], e);
    assert [e] == [] + [e];
  }

  /** The first c starts of a pass from the front. */
  function Upward(c: nat): seq<nat>
  {
    seq(c, i => i)
  }

  /** A pass from the front over at most bound starts; the clock is read after the starts at multiples of five and may
      stop the pass there, never before the first one. */
  ghost predicate UpPass(tab: seq<Entry>, m: nat, best: Best, res: Best, bound: nat)
    requires 0 < m
  {
    exists c: nat :: UpTo(tab, m, best, res, bound, c)
  }

  ghost predicate UpTo(tab: seq<Entry>, m: nat, best: Best, res: Best, bound: nat, c: nat)
    requires 0 < m
  {
    && c <= bound && c <= |tab| && res == After(tab, m, best, Upward(c))
    && (c == bound || c == |tab| || (c > 0 && (c - 1) % 5 == 0))
  }

  /** `select_independent_groups`. */
  method SelectIndependentGroups(tab: seq<Entry>, m: nat, best: Best, bound: nat) returns (res: Best)
    requires 0 < m
    ensures UpPass(tab, m, best, res, bound)
  {
    hide From, Improves, Better;
    res := best;
    var stop := if bound < |tab| then bound else |tab|;
    for i := 0 to stop
      invariant res == After(tab, m, best, Upward(i))
    {
      AfterMore(tab, m, best, Upward(i), i);
      assert Upward(i) + [i] == Upward(i + 1);
      var found;
      found, res := TryFrom(tab, i, m, res);
      var timeout: bool := *;
      if i % 5 == 0 && timeout {
        assert UpTo(tab, m, best, res, bound, i + 1);
        return;
      }
    }
    assert UpTo(tab, m, best, res, bound, stop);
  }

  /** The step of the pass from the end. */
  function Stride(n: nat): (dec: nat)
    ensures dec >= 2
  {
    if n / 10000 > 2 then n / 10000 else 2
  }

  /** The first c starts of a pass from the end, in steps of s. */
  ghost function Downward(n: nat, s: nat, c: nat): seq<nat>
    requires c > 0 ==> Times(c - 1, s) < n
  {
    seq(c, t requires 0 <= t < c => DownAt(n, s, c, t))
  }

  ghost function DownAt(n: nat, s: nat, c: nat, t: nat): nat
    requires t < c && Times(c - 1, s) < n
  {
    TimesMonotone(t, c - 1, s);
    n - 1 - Times(t, s)
  }

  lemma TimesMonotone(a: nat, b: nat, s: nat)
    requires a <= b
    ensures Times(a, s) <= Times(b, s)
  {
    MulMonotone(a, b, s);
  }

  /** How many of the given starts improve the best selection. */
  ghost function Hits(tab: seq<Entry>, m: nat, best: Best, starts: seq<nat>): nat
    requires 0 < m && forall i | 0 <= i < |starts| :: starts[i] < |tab|
  {
    if starts == [] then 0
    else
      var last := |starts| - 1;
      var sel := From(tab, starts[last], m);
      Hits(tab, m, best, starts[..last])
      + if sel.Some? && Improves(Values(sel.value), After(tab, m, best, starts[..last])) then 1 else 0
  }

  /** Where the pass from the end may stop: it has improved the selection often enough, the clock stops it at a group
      whose number is a multiple of five, or the next step leaves the list.  A single group is counted without being
      recorded. */
  ghost predicate DownStop(tab: seq<Entry>, m: nat, best: Best, bound: nat, starts: seq<nat>)
    requires 0 < m && forall i | 0 <= i < |starts| :: starts[i] < |tab|
  {
    || (starts != [] && bound <= if m > 1 then Hits(tab, m, best, starts) else |starts|)
    || (starts != [] && starts[|starts| - 1] % 5 == 0)
    || |tab| <= Times(|starts|, Stride(|tab|) * Stride(|tab|))
  }

  ghost predicate Walked(tab: seq<Entry>, m: nat, best: Best, res: Best, starts: seq<nat>)
    requires 0 < m
  {
    var step := Stride(|tab|) * Stride(|tab|);
    && (|starts| > 0 ==> Times(|starts| - 1, step) < |tab|) && starts == Downward(|tab|, step, |starts|)
    && (forall i | 0 <= i < |starts| :: starts[i] < |tab|)
    && res == if m > 1 then After(tab, m, best, starts) else best
  }

  /** No stop before the last start: until then too few starts have improved the selection. */
  ghost predicate GoesOn(tab: seq<Entry>, m: nat, best: Best, bound: nat, starts: seq<nat>)
    requires 0 < m
  {
    && (forall i | 0 <= i < |starts| :: starts[i] < |tab|)
    && (|starts| > 1 ==> (if m > 1 then Hits(tab, m, best, starts[..|starts| - 1]) else |starts| - 1) < bound)
  }

  ghost predicate DownTo(tab: seq<Entry>, m: nat, best: Best, res: Best, bound: nat, starts: seq<nat>)
    requires 0 < m
  {
    Walked(tab, m, best, res, starts) && GoesOn(tab, m, best, bound, starts) && DownStop(tab, m, best, bound, starts)
  }

  ghost predicate DownPass(tab: seq<Entry>, m: nat, best: Best, res: Best, bound: nat)
    requires 0 < m
  {
    exists starts :: DownTo(tab, m, best, res, bound, starts)
  }

  /** `select_independent_groups_by_largest_index`: starts from the end in steps; a single group is not recorded. */
  method SelectByLargestIndex(tab: seq<Entry>, m: nat, best: Best, bound: nat) returns (res: Best)
    requires 0 < m
    ensures DownPass(tab, m, best, res, bound)
  {
    hide Times, Walked, DownStop, Better, From, Counted, GoesOn;
    res := best;
    ghost var starts: seq<nat> := [];
    var nbGroups := 0;
    var dec := Stride(|tab|);
    var i := |tab| - 1;
    ghost var step := dec * dec;
    NextTimes(0, step);
    WalkStart(tab, m, best);
    while i >= 0
      invariant i == |tab| - 1 - Times(|starts|, step)
      invariant Walked(tab, m, best, res, starts) && Counted(tab, m, best, starts, nbGroups)
      invariant GoesOn(tab, m, best, bound, starts) && (starts != [] ==> nbGroups < bound)
    {
      ghost var before, was := res, starts;
      var found := true;
      if m > 1 { found, res := TryFrom(tab, i, m, res); }
      WalkMore(tab, m, best, before, was, nbGroups, i, found, res);
      GoOn(tab, m, best, bound, was, nbGroups, i);
      starts := starts + [i];
      if found { nbGroups := nbGroups + 1; }
      if nbGroups >= bound {
        WalkEnds(tab, m, best, res, bound, starts, nbGroups);
        return;
      }
      var timeout: bool := *;
      if i % 5 == 0 && timeout {
        WalkEnds(tab, m, best, res, bound, starts, nbGroups);
        return;
      }
      i := i - dec * dec;
    }
    WalkEnds(tab, m, best, res, bound, starts, nbGroups);
  }

  /** The starts that count towards the bound of the pass. */
  ghost predicate Counted(tab: seq<Entry>, m: nat, best: Best, starts: seq<nat>, hits: nat)
    requires 0 < m
  {
    (forall i | 0 <= i < |starts| :: starts[i] < |tab|)
        && hits == if m > 1 then Hits(tab, m, best, starts) else |starts|
  }

  lemma WalkStart(tab: seq<Entry>, m: nat, best: Best)
    requires 0 < m
    ensures Walked(tab, m, best, best, []) && Counted(tab, m, best, [], 0)
    ensures forall bound :: GoesOn(tab, m, best, bound, [])
  {
  }

  lemma GoOn(tab: seq<Entry>, m: nat, best: Best, bound: nat, starts: seq<nat>, hits: nat, i: nat)
    requires 0 < m && i < |tab| && Counted(tab, m, best, starts, hits) && (starts != [] ==> hits < bound)
    ensures GoesOn(tab, m, best, bound, starts + [i])
  {
    assert (starts + [i])[..|starts|] == starts;
  }

  lemma WalkMore(tab: seq<Entry>, m: nat, best: Best, res: Best, starts: seq<nat>, hits: nat, i: nat, found: bool,
                 next: Best)
    requires 0 < m && Walked(tab, m, best, res, starts) && Counted(tab, m, best, starts, hits)
    requires i < |tab| && i == |tab| - 1 - Times(|starts|, Stride(|tab|) * Stride(|tab|))
    requires m > 1 ==> next == Better(res, From(tab, i, m))
    requires m > 1 ==> (found <==> From(tab, i, m).Some? && Improves(Values(From(tab, i, m).value), res))
    requires m == 1 ==> found && next == res
    ensures Walked(tab, m, best, next, starts + [i])
    ensures Counted(tab, m, best, starts + [i], hits + if found then 1 else 0)
    ensures var s := Stride(|tab|) * Stride(|tab|); Times(|starts| + 1, s) == Times(|starts|, s) + s
  {
    hide From, Improves, Better, Times, After, Hits, Downward, Stride;
    var step := Stride(|tab|) * Stride(|tab|);
    NextTimes(|starts|, step);
    AfterMore(tab, m, best, starts, i);
    HitsMore(tab, m, best, starts, i);
    DownMore(|tab|, step, starts, i);
  }

  lemma WalkEnds(tab: seq<Entry>, m: nat, best: Best, res: Best, bound: nat, starts: seq<nat>, hits: nat)
    requires 0 < m && Walked(tab, m, best, res, starts) && Counted(tab, m, best, starts, hits)
    requires GoesOn(tab, m, best, bound, starts)
    requires || (starts != [] && (hits >= bound || starts[|starts| - 1] % 5 == 0))
             || |tab| <= Times(|starts|, Stride(|tab|) * Stride(|tab|))
    ensures DownPass(tab, m, best, res, bound)
  {
    hide Downward, After, Hits;
    assert DownTo(tab, m, best, res, bound, starts);
  }

  lemma HitsMore(tab: seq<Entry>, m: nat, best: Best, starts: seq<nat>, i: nat)
    requires 0 < m && i < |tab| && forall j | 0 <= j < |starts| :: starts[j] < |tab|
    ensures Hits(tab, m, best, starts + [i]) == Hits(tab, m, best, starts)
      + if From(tab, i, m).Some? && Improves(Values(From(tab, i, m).value), After(tab, m, best, starts)) then 1 else 0
  {
    assert (starts + [i])[..|starts|] == starts;
  }

  lemma DownMore(n: nat, s: nat, starts: seq<nat>, i: nat)
    requires |starts| > 0 ==> Times(|starts| - 1, s) < n
    requires starts == Downward(n, s, |starts|) && Times(|starts|, s) < n && i == n - 1 - Times(|starts|, s)
    ensures starts + [i] == Downward(n, s, |starts| + 1)
  {
  }

  /** Both kinds of pass keep a cover. */
  lemma PassKeeps(tab: seq<Entry>, m: nat, best: Best, res: Best, bound: nat, n: nat, k: nat)
    requires 0 < m && Listed(tab, n, k) && (UpPass(tab, m, best, res, bound) || DownPass(tab, m, best, res, bound))
    ensures Keeps(best, res, n, k, m)
  {
    hide After, Keeps, Listed, Downward, DownStop;
    if UpPass(tab, m, best, res, bound) {
      var c :| UpTo(tab, m, best, res, bound, c);
      AfterKeeps(tab, m, best, Upward(c), n, k);
    } else {
      var starts :| DownTo(tab, m, best, res, bound, starts);
      if m > 1 { AfterKeeps(tab, m, best, starts, n, k); } else { KeepsSame(best, n, k, m); }
    }
  }

  lemma KeepsSame(best: Best, n: nat, k: nat, m: nat)
    ensures Keeps(best, best, n, k, m)
  {
  }

  // ---------- Where selections come from ----------

  /** All groups of a selection are in the list, with the values they have there. */
  ghost predicate Drawn(sel: seq<Entry>, tab: seq<Entry>)
  {
    forall i | 0 <= i < |sel| :: sel[i] in tab
  }

  lemma {:induction false} GreedyDrawn(tab: seq<Entry>, i: nat, sel: seq<Entry>, m: nat)
    requires i <= |tab| && |sel| <= m && Drawn(sel, tab)
    ensures Greedy(tab, i, sel, m).Some? ==> Drawn(Greedy(tab, i, sel, m).value, tab)
    decreases |tab| - i
  {
    if |sel| < m && i < |tab| {
      if Independent(sel, tab[i].tab) {
        GreedyDrawn(tab, i + 1, sel + [tab[i]], m);
      } else {
        GreedyDrawn(tab, i + 1, sel, m);
      }
    }
  }

  lemma {:induction false} AfterDrawn(tab: seq<Entry>, m: nat, best: Best, starts: seq<nat>)
    requires 0 < m && forall j | 0 <= j < |starts| :: starts[j] < |tab|
    ensures After(tab, m, best, starts).sel == best.sel || Drawn(After(tab, m, best, starts).sel, tab)
  {
    if starts != [] {
      var last := |starts| - 1;
      AfterDrawn(tab, m, best, starts[..last]);
      GreedyDrawn(tab, starts[last] + 1, [tab[starts[last]]], m);
    }
  }

  lemma PassDrawn(tab: seq<Entry>, m: nat, best: Best, res: Best, bound: nat)
    requires 0 < m && (UpPass(tab, m, best, res, bound) || DownPass(tab, m, best, res, bound))
    ensures res.sel == best.sel || Drawn(res.sel, tab)
  {
    hide After, Drawn, Downward, DownStop;
    if UpPass(tab, m, best, res, bound) {
      var c :| UpTo(tab, m, best, res, bound, c);
      AfterDrawn(tab, m, best, Upward(c));
    } else {
      var starts :| DownTo(tab, m, best, res, bound, starts);
      if m > 1 { AfterDrawn(tab, m, best, starts); }
    }
  }

  /** A pass never makes the value worse, and one from the front is at least as good as its first start. */
  lemma PassBest(tab: seq<Entry>, m: nat, best: Best, res: Best, bound: nat)
    requires 0 < m && (UpPass(tab, m, best, res, bound) || DownPass(tab, m, best, res, bound))
    ensures best.val.Some? ==> res.val.Some? && res.val.value <= best.val.value
    ensures UpPass(tab, m, best, res, bound) && bound > 0 && |tab| > 0 && From(tab, 0, m).Some? ==>
        res.val.Some? && res.val.value <= Values(From(tab, 0, m).value)
  {
    hide After, Downward, DownStop, From, Values;
    if UpPass(tab, m, best, res, bound) {
      var c :| UpTo(tab, m, best, res, bound, c);
      AfterBest(tab, m, best, Upward(c), 0);
    } else {
      var starts :| DownTo(tab, m, best, res, bound, starts);
      if m > 1 { AfterBest(tab, m, best, starts, 0); }
    }
  }

  // ---------- The first pass: the list in lexicographic order ----------

  /** k consecutive nodes. */
  function Run(lo: nat, k: nat): Group
  {
    seq(k, j requires 0 <= j < k => lo + j)
  }

  lemma {:induction false} FirstGroup(n: nat, id: nat, k: nat)
    requires id + k <= n
    ensures |Groups(n, id, k)| > 0 && Groups(n, id, k)[0] == Run(id, k)
    decreases k
  {
    if k > 0 {
      hide Groups;
      FirstGroup(n, id + 1, k - 1);
      assert [id] + Run(id + 1, k - 1) == Run(id, k);
      Split(n, id, k);
    }
  }

  /** The groups with node id come before those without it. */
  lemma Split(n: nat, id: nat, k: nat)
    requires id < n && k > 0
    ensures |Groups(n, id, k)| == |Groups(n, id + 1, k - 1)| + |Groups(n, id + 1, k)|
    ensures Groups(n, id, k)[|Groups(n, id + 1, k - 1)|..] == Groups(n, id + 1, k)
    ensures forall j | 0 <= j < |Groups(n, id + 1, k - 1)| :: Groups(n, id, k)[j] == [id] + Groups(n, id + 1, k - 1)[j]
  {
    assert Groups(n, id, k) == Prefixed([id], Groups(n, id + 1, k - 1)) + Groups(n, id + 1, k);
  }

  /** The groups from id on are the end of the whole list, and what comes before starts below id. */
  lemma {:induction false} Suffix(n: nat, id: nat, k: nat)
    requires id <= n && k > 0
    ensures |Groups(n, id, k)| <= |Groups(n, 0, k)|
    ensures Groups(n, 0, k)[|Groups(n, 0, k)| - |Groups(n, id, k)|..] == Groups(n, id, k)
    decreases id
  {
    hide Groups;
    if id > 0 {
      Suffix(n, id - 1, k);
      Split(n, id - 1, k);
      var all, here, rest := Groups(n, 0, k), Groups(n, id - 1, k), Groups(n, id, k);
      var p, q := |all| - |here|, |all| - |rest|;
      DropTwice(all, p, q);
    }
  }

  lemma DropTwice(s: seq<Group>, p: nat, q: nat)
    requires p <= q <= |s|
    ensures s[p..][q - p..] == s[q..]
  {
  }

  function Pos(n: nat, id: nat, k: nat): nat
    requires id <= n && k > 0
  {
    Suffix(n, id, k);
    |Groups(n, 0, k)| - |Groups(n, id, k)|
  }

  lemma GroupAt(n: nat, id: nat, k: nat, j: nat)
    requires id <= n && k > 0 && Pos(n, id, k) <= j < |Groups(n, 0, k)|
    ensures Groups(n, 0, k)[j] == Groups(n, id, k)[j - Pos(n, id, k)]
  {
    Suffix(n, id, k);
    assert Groups(n, 0, k)[Pos(n, id, k)..][j - Pos(n, id, k)] == Groups(n, 0, k)[j];
  }

  /** Between the positions of id and hi, groups start with one of those nodes. */
  lemma {:induction false} StartsBelow(n: nat, id: nat, hi: nat, k: nat, j: nat)
    requires id <= hi <= n && k > 0 && Pos(n, id, k) <= j < Pos(n, hi, k)
    ensures |Groups(n, 0, k)[j]| > 0 && id <= Groups(n, 0, k)[j][0] < hi
    decreases hi - id
  {
    GroupAt(n, id, k, j);
    GroupsOk(n, id, k);
    assert GroupOk(Groups(n, id, k)[j - Pos(n, id, k)], n, id, k);
    if j >= Pos(n, id + 1, k) {
      StartsBelow(n, id + 1, hi, k, j);
    } else {
      Suffix(n, id + 1, k);
      Split(n, id, k);
    }
  }

  /** The selection is the first d runs of k nodes. */
  ghost predicate Runs(sel: seq<Entry>, d: nat, k: nat)
  {
    |sel| == d && forall i: nat | i < d :: sel[i].tab == Run(Times(i, k), k)
  }

  ghost predicate Lists(tab: seq<Entry>, n: nat, k: nat)
  {
    |tab| == |Groups(n, 0, k)| && forall j | 0 <= j < |tab| :: tab[j].tab == Groups(n, 0, k)[j]
  }

  /** Groups that start in a run already taken are passed over. */
  lemma {:induction false} SkipTo(tab: seq<Entry>, i: nat, e: nat, sel: seq<Entry>, m: nat)
    requires i <= e <= |tab| && |sel| < m && forall j | i <= j < e :: !Independent(sel, tab[j].tab)
    ensures Greedy(tab, i, sel, m) == Greedy(tab, e, sel, m)
    decreases e - i
  {
    hide Independent;
    if i < e { SkipTo(tab, i + 1, e, sel, m); }
  }

  lemma TimesWithin(d: nat, m: nat, k: nat)
    requires d < m
    ensures Times(d, k) + k <= Times(m, k) == m * k
  {
    MulMonotone(d + 1, m, k);
  }

  /** Whichever d runs are taken, the next one follows, and in the end all m are taken. */
  lemma {:induction false} FirstPass(tab: seq<Entry>, sel: seq<Entry>, d: nat, m: nat, k: nat, n: nat)
    requires 0 < d <= m && 0 < k && n == Times(m, k) && Lists(tab, n, k) && Runs(sel, d, k) && Times(d - 1, k) <= n
    requires Pos(n, Times(d - 1, k), k) < |tab|
    ensures Greedy(tab, Pos(n, Times(d - 1, k), k) + 1, sel, m).Some?
    ensures Runs(Greedy(tab, Pos(n, Times(d - 1, k), k) + 1, sel, m).value, m, k)
    decreases m - d
  {
    if d == m { return; }
    hide Groups, Times, Greedy, Independent, Pos, Run, Runs, Lists;
    var lo, hi := Times(d - 1, k), Times(d, k);
    NextTimes(d - 1, k);
    TimesWithin(d, m, k);
    RunAt(n, hi, k);
    PassRun(tab, sel, d, m, k, n, lo, hi);
    NextTaken(tab, sel, d, m, k, n, hi);
    FirstPass(tab, sel + [tab[Pos(n, hi, k)]], d + 1, m, k, n);
  }

  /** After the run from lo the scan reaches the run from hi without taking anything. */
  lemma PassRun(tab: seq<Entry>, sel: seq<Entry>, d: nat, m: nat, k: nat, n: nat, lo: nat, hi: nat)
    requires 0 < d < m && 0 < k && Lists(tab, n, k) && Runs(sel, d, k)
    requires lo == Times(d - 1, k) && hi == lo + k && hi + k <= n && Pos(n, hi, k) < |tab|
    ensures Pos(n, lo, k) + 1 <= Pos(n, hi, k)
        && Greedy(tab, Pos(n, lo, k) + 1, sel, m) == Greedy(tab, Pos(n, hi, k), sel, m)
  {
    hide Groups, Times, Greedy, Independent, Pos, Run;
    var i, e := Pos(n, lo, k) + 1, Pos(n, hi, k);
    RunAt(n, lo, k);
    PosLater(n, lo, hi, k);
    forall j | i <= j < e ensures !Independent(sel, tab[j].tab) {
      StartsBelow(n, lo, hi, k, j);
      Taken(sel, d - 1, tab[j].tab, lo, k);
    }
    SkipTo(tab, i, e, sel, m);
  }

  /** The run from hi is taken next. */
  lemma NextTaken(tab: seq<Entry>, sel: seq<Entry>, d: nat, m: nat, k: nat, n: nat, hi: nat)
    requires 0 < d < m && 0 < k && Lists(tab, n, k) && Runs(sel, d, k) && hi == Times(d, k) && hi + k <= n
        && Pos(n, hi, k) < |tab|
    ensures Runs(sel + [tab[Pos(n, hi, k)]], d + 1, k)
    ensures Greedy(tab, Pos(n, hi, k), sel, m) == Greedy(tab, Pos(n, hi, k) + 1, sel + [tab[Pos(n, hi, k)]], m)
  {
    hide Groups, Times, Greedy, Independent, Pos, Run;
    RunAt(n, hi, k);
    NextRun(sel, d, k);
    RunsLength(sel, d, k);
    TakeIt(tab, Pos(n, hi, k), sel, m);
  }

  lemma RunsLength(sel: seq<Entry>, d: nat, k: nat)
    requires Runs(sel, d, k)
    ensures |sel| == d
  {
  }

  lemma TakeIt(tab: seq<Entry>, e: nat, sel: seq<Entry>, m: nat)
    requires e < |tab| && |sel| < m && Independent(sel, tab[e].tab)
    ensures Greedy(tab, e, sel, m) == Greedy(tab, e + 1, sel + [tab[e]], m)
  {
  }

  lemma RunAt(n: nat, id: nat, k: nat)
    requires k > 0 && id + k <= n
    ensures Pos(n, id, k) < |Groups(n, 0, k)| && Groups(n, 0, k)[Pos(n, id, k)] == Run(id, k)
  {
    FirstGroup(n, id, k);
    Suffix(n, id, k);
    GroupAt(n, id, k, Pos(n, id, k));
  }

  /** A run is a group of its own, so later runs come later in the list. */
  lemma {:induction false} PosLater(n: nat, id: nat, hi: nat, k: nat)
    requires k > 0 && id < hi && hi <= n && id + k <= n
    ensures Pos(n, id, k) + 1 <= Pos(n, hi, k)
    decreases hi - id
  {
    hide Groups;
    FirstGroup(n, id + 1, k - 1);
    PosMonotone(n, id + 1, hi, k);
    Split(n, id, k);
  }

  lemma {:induction false} PosMonotone(n: nat, id: nat, hi: nat, k: nat)
    requires k > 0 && id <= hi <= n
    ensures |Groups(n, hi, k)| <= |Groups(n, id, k)|
    decreases hi - id
  {
    if id < hi { PosMonotone(n, id + 1, hi, k); }
  }

  lemma Taken(sel: seq<Entry>, i: nat, g: Group, lo: nat, k: nat)
    requires i < |sel| && sel[i].tab == Run(lo, k) && |g| > 0 && lo <= g[0] < lo + k
    ensures !Independent(sel, g)
  {
    assert sel[i].tab[g[0] - lo] == g[0];
    assert !Disjoint(g, sel[i].tab);
  }

  lemma NextRun(sel: seq<Entry>, d: nat, k: nat)
    requires Runs(sel, d, k)
    ensures Independent(sel, Run(Times(d, k), k))
  {
    hide Times;
    forall j: nat | j < d ensures Disjoint(Run(Times(d, k), k), sel[j].tab) {
      NextTimes(j, k);
      TimesMonotone(j + 1, d, k);
    }
  }
}
