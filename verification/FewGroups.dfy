/** Grouping a level with few possible groups: greedy passes over all of them, in four
    orders, and how good the outcome is. */
module FewGroups {
  import opened PartitionWeights
  import opened Arithmetic
  import opened FiniteLists
  import opened GroupEnumeration
  import opened GroupSelection
  import opened GroupValues
  import opened Wrappers

  // ---------- Sorting ----------

  /** A sort key; the quotient of a positive weight by zero comes before all numbers. */
  datatype Key = Least | Of(num: real) | Most

  predicate Lower(a: Key, b: Key)
  {
    match (a, b)
    case (Of(x), Of(y)) => x < y
    case (Least, Least) => false
    case (Least, _) => true
    case (Of(_), Most) => true
    case _ => false
  }

  ghost predicate Arranges(perm: seq<nat>, n: nat)
  {
    |perm| == n && Distinct(perm) && forall i | 0 <= i < n :: perm[i] < n
  }

  ghost predicate InOrder(perm: seq<nat>, keys: seq<Key>)
    requires forall i | 0 <= i < |perm| :: perm[i] < |keys|
  {
    forall i, j | 0 <= i < j < |perm| :: !Lower(keys[perm[j]], keys[perm[i]])
  }

  /** Put index x, above all those present, in its place. */
  method Insert(perm: seq<nat>, keys: seq<Key>, x: nat) returns (res: seq<nat>)
    requires Arranges(perm, x) && x < |keys| && InOrder(perm, keys)
    ensures Arranges(res, x + 1) && InOrder(res, keys)
  {
    var p := |perm|;
    while p > 0 && Lower(keys[x], keys[perm[p - 1]])
      invariant 0 <= p <= |perm| && forall q | p <= q < |perm| :: Lower(keys[x], keys[perm[q]])
    {
      p := p - 1;
    }
    res := perm[..p] + [x] + perm[p..];
    Inserted(perm, keys, x, p);
  }

  lemma NotLower(a: Key, b: Key, c: Key)
    requires !Lower(b, a) && !Lower(c, b)
    ensures !Lower(c, a)
  {
  }

  lemma LowerNot(a: Key, b: Key)
    requires Lower(a, b)
    ensures !Lower(b, a)
  {
  }

  lemma Inserted(perm: seq<nat>, keys: seq<Key>, x: nat, p: nat)
    requires Arranges(perm, x) && x < |keys| && InOrder(perm, keys) && p <= |perm|
    requires p > 0 ==> !Lower(keys[x], keys[perm[p - 1]])
    requires forall q | p <= q < |perm| :: Lower(keys[x], keys[perm[q]])
    ensures Arranges(perm[..p] + [x] + perm[p..], x + 1) && InOrder(perm[..p] + [x] + perm[p..], keys)
  {
    hide Lower;
    var res := perm[..p] + [x] + perm[p..];
    assert forall i | 0 <= i < |res| :: res[i] == if i < p then perm[i] else if i == p then x else perm[i - 1];
    forall i, j | 0 <= i < j < |res| ensures res[i] != res[j] && !Lower(keys[res[j]], keys[res[i]]) {
      if i < p && j == p {
        if i < p - 1 { NotLower(keys[perm[i]], keys[perm[p - 1]], keys[x]); }
      } else if i == p {
        LowerNot(keys[x], keys[perm[j - 1]]);
      } else {
        var a, b := if i < p then i else i - 1, if j < p then j else j - 1;
        assert perm[a] != perm[b] && !Lower(keys[perm[b]], keys[perm[a]]);
      }
    }
  }

  /** The library sort: some arrangement in ascending order; equal keys come in any order. */
  method SortBy(keys: seq<Key>) returns (perm: seq<nat>)
    ensures Arranges(perm, |keys|) && InOrder(perm, keys)
  {
    perm := [];
    for x := 0 to |keys|
      invariant Arranges(perm, x) && InOrder(perm, keys)
    {
      perm := Insert(perm, keys, x);
    }
  }

  function Arranged(tab: seq<Entry>, perm: seq<nat>): seq<Entry>
    requires forall i | 0 <= i < |perm| :: perm[i] < |tab|
  {
    seq(|perm|, i requires 0 <= i < |perm| => tab[perm[i]])
  }

  /** The same entries in the order of their keys. */
  ghost predicate Reordered(tab: seq<Entry>, keys: seq<Key>, res: seq<Entry>)
    requires |keys| == |tab|
  {
    exists perm :: Arranges(perm, |tab|) && InOrder(perm, keys) && res == Arranged(tab, perm)
  }

  method Reorder(tab: seq<Entry>, keys: seq<Key>) returns (res: seq<Entry>)
    requires |keys| == |tab|
    ensures Reordered(tab, keys, res)
  {
    var perm := SortBy(keys);
    res := Arranged(tab, perm);
  }

  lemma SameEntries(tab: seq<Entry>, keys: seq<Key>, res: seq<Entry>, e: Entry)
    requires |keys| == |tab| && Reordered(tab, keys, res)
    ensures |res| == |tab| && (e in res <==> e in tab)
  {
    var perm :| Arranges(perm, |tab|) && InOrder(perm, keys) && res == Arranged(tab, perm);
    if e in res {
      var i :| 0 <= i < |res| && res[i] == e;
      assert tab[perm[i]] == e;
    }
    if e in tab {
      var v: nat :| v < |tab| && tab[v] == e;
      var i := Reached(perm, |tab|, v);
      assert res[i] == e;
    }
  }

  /** An arrangement reaches every index. */
  lemma Reached(perm: seq<nat>, n: nat, v: nat) returns (i: nat)
    requires Arranges(perm, n) && v < n
    ensures i < n && perm[i] == v
  {
    if forall j | 0 <= j < n :: perm[j] != v {
      Pigeonhole(perm + [v], n);
      assert false;
    }
    i :| i < n && perm[i] == v;
  }

  // ---------- Keys ----------

  /** `group_list_asc` */
  function Ascending(tab: seq<Entry>): seq<Key>
  {
    seq(|tab|, i requires 0 <= i < |tab| => Of(tab[i].val))
  }

  /** `group_list_dsc` */
  function Descending(tab: seq<Entry>): seq<Key>
  {
    seq(|tab|, i requires 0 <= i < |tab| => Of(-tab[i].val))
  }

  /** Value of the other groups, among the first t, that share a node with the one at i. */
  ghost function Neighbours(tab: seq<Entry>, i: nat, t: nat): real
    requires i < |tab| && t <= |tab|
  {
    if t == 0 then 0.0
    else if t - 1 == i || Disjoint(tab[i].tab, tab[t - 1].tab) then Neighbours(tab, i, t - 1)
    else Neighbours(tab, i, t - 1) + tab[t - 1].val
  }

  /** The weighted degree of a group, as a key for descending order. */
  function Degree(sum: real, val: real): Key
  {
    if sum == 0.0 then Of(0.0)
    else if val != 0.0 then Of(-(sum / val))
    else if sum > 0.0 then Least
    else Most
  }

  ghost predicate Degrees(tab: seq<Entry>, keys: seq<Key>)
  {
    |keys| == |tab| && forall i: nat | i < |tab| :: keys[i] == Degree(Neighbours(tab, i, |tab|), tab[i].val)
  }

  /** `independent_tab` */
  method IndependentTab(g: Group, h: Group) returns (r: bool)
    ensures r <==> Disjoint(g, h)
  {
    for i := 0 to |g|
      invariant forall a, b | 0 <= a < i && 0 <= b < |h| :: g[a] != h[b]
    {
      for j := 0 to |h|
        invariant forall b | 0 <= b < j :: g[i] != h[b]
      {
        if g[i] == h[j] { return false; }
      }
    }
    return true;
  }

  /** `compute_weighted_degree`: every pair of groups is looked at once and counts for both. */
  method ComputeWeightedDegree(tab: seq<Entry>) returns (keys: seq<Key>)
    ensures Degrees(tab, keys)
  {
    hide Disjoint;
    var n := |tab|;
    var sum := seq(n, _ => 0.0);
    keys := [];
    for i := 0 to n
      invariant |sum| == n && |keys| == i
      invariant forall v: nat | i <= v < n :: sum[v] == Neighbours(tab, v, i)
      invariant forall v: nat | v < i :: keys[v] == Degree(Neighbours(tab, v, n), tab[v].val)
    {
      for j := i + 1 to n
        invariant |sum| == n && sum[i] == Neighbours(tab, i, j)
        invariant forall v: nat | i < v < n :: sum[v] == Neighbours(tab, v, if v < j then i + 1 else i)
      {
        var apart := IndependentTab(tab[i].tab, tab[j].tab);
        DisjointBoth(tab[i].tab, tab[j].tab);
        if !apart {
          sum := sum[i := sum[i] + tab[j].val];
          sum := sum[j := sum[j] + tab[i].val];
        }
      }
      keys := keys + [Degree(sum[i], tab[i].val)];
    }
  }

  lemma DisjointBoth(g: Group, h: Group)
    ensures Disjoint(g, h) <==> Disjoint(h, g)
  {
  }

  // ---------- The list ----------

  ghost predicate EntryOk(mat: Matrix, e: Entry, k: nat)
    requires Square(mat, |mat|)
  {
    GroupOk(e.tab, |mat|, 0, k) && e.val == Leaving(mat, e.tab, k)
  }

  ghost predicate EntriesOk(mat: Matrix, tab: seq<Entry>, k: nat)
    requires Square(mat, |mat|)
  {
    forall i | 0 <= i < |tab| :: EntryOk(mat, tab[i], k)
  }

  /** All groups of k nodes in lexicographic order, each with the weight that leaves it. */
  ghost predicate AllEntries(mat: Matrix, tab: seq<Entry>, k: nat)
    requires Square(mat, |mat|)
  {
    Lists(tab, |mat|, k) && EntriesOk(mat, tab, k)
  }

  method Evaluate(mat: Matrix, sumRow: seq<real>, gs: seq<Group>, k: nat) returns (tab: seq<Entry>)
    requires Square(mat, |mat|) && RowSums(mat, sumRow) && gs == Groups(|mat|, 0, k)
    ensures AllEntries(mat, tab, k)
  {
    hide RowSums, GroupOk, Groups;
    GroupsOk(|mat|, 0, k);
    tab := [];
    for i := 0 to |gs|
      invariant |tab| == i && EntriesOk(mat, tab, k) && forall j | 0 <= j < i :: tab[j].tab == gs[j]
    {
      GroupSize(gs[i], |mat|, k);
      var v := EvalGrouping(mat, sumRow, gs[i]);
      tab := tab + [Entry(gs[i], v)];
    }
  }

  lemma GroupSize(g: Group, n: nat, k: nat)
    requires GroupOk(g, n, 0, k)
    ensures |g| == k
  {
  }

  lemma AllListed(n: nat, k: nat, list: seq<Group>)
    requires list == [] + Prefixed([], Groups(n, 0, k))
    ensures list == Groups(n, 0, k) && |list| == Binomial(n, k)
  {
    PrefixedEmpty(Groups(n, 0, k));
    GroupCount(n, 0, k);
  }

  lemma EntriesListed(mat: Matrix, tab: seq<Entry>, k: nat)
    requires Square(mat, |mat|) && EntriesOk(mat, tab, k)
    ensures Listed(tab, |mat|, k)
  {
    hide GroupOk, Leaving;
    forall i | 0 <= i < |tab| ensures GroupOk(tab[i].tab, |mat|, 0, k) { assert EntryOk(mat, tab[i], k); }
  }

  lemma ReorderOk(mat: Matrix, tab: seq<Entry>, keys: seq<Key>, res: seq<Entry>, k: nat)
    requires Square(mat, |mat|) && |keys| == |tab| && EntriesOk(mat, tab, k) && Reordered(tab, keys, res)
    ensures EntriesOk(mat, res, k) && |res| == |tab|
  {
    hide EntryOk, InOrder, Distinct;
  }

  // ---------- The branch of `group_nodes` for few groups ----------

  /** The lists in their four orders and the selections after each pass. */
  datatype Passes = Passes(all: seq<Entry>, packed: Best, asc: seq<Entry>, cheap: Best, dsc: seq<Entry>, last: Best,
                           keys: seq<Key>, deg: seq<Entry>, final: Best)

  /** A packed selection is treated as if it were a little better than it is. */
  ghost function Credit(best: Best): Best
  {
    if best.val.None? then best else Best(Some(best.val.value / 1.001), best.sel)
  }

  /** The four passes: the list as it is, one start; cheapest groups first, ten starts; dearest groups last, from the
      end; largest weighted degree first, ten starts, unless there are too many groups. */
  ghost predicate PassesOk(mat: Matrix, k: nat, m: nat, p: Passes)
    requires Square(mat, |mat|) && 0 < m
  {
    && AllEntries(mat, p.all, k) && UpPass(p.all, m, Best(None, []), p.packed, 1)
    && Reordered(p.all, Ascending(p.all), p.asc) && UpPass(p.asc, m, Credit(p.packed), p.cheap, 10)
    && Reordered(p.asc, Descending(p.asc), p.dsc) && DownPass(p.dsc, m, p.cheap, p.last, 10)
    && if |p.all| < 1000000 then
         Degrees(p.dsc, p.keys) && Reordered(p.dsc, p.keys, p.deg) && UpPass(p.deg, m, p.last, p.final, 10)
       else p.final == p.last
  }

  /** The groups of a selection, ordered by their first nodes. */
  ghost predicate GroupsOf(gs: seq<Group>, sel: seq<Entry>)
  {
    exists perm :: Arranges(perm, |sel|) && |gs| == |sel| && InFront(gs)
      && forall i | 0 <= i < |gs| :: gs[i] == sel[perm[i]].tab
  }

  ghost predicate InFront(gs: seq<Group>)
  {
    && (forall i | 0 <= i < |gs| :: |gs[i]| > 0)
    && forall i, j | 0 <= i < j < |gs| :: gs[i][0] < gs[j][0]
  }

  /** The outcome of the four passes. */
  ghost predicate ByPasses(mat: Matrix, k: nat, m: nat, gs: seq<Group>)
    requires Square(mat, |mat|) && 0 < m
  {
    exists p :: PassesOk(mat, k, m, p) && GroupsOf(gs, p.final.sel)
  }

  /** The branch of `group_nodes` for few groups.  The list has as many entries as `choose` announces, the first
      pass finds a full cover, and every later pass keeps one. */
  method GroupFew(mat: Matrix, sumRow: seq<real>, k: nat, m: nat, nbGroups: nat) returns (gs: seq<Group>)
    requires Square(mat, |mat|) && RowSums(mat, sumRow) && |mat| == m * k && 0 < m && 0 < k
    requires nbGroups == Binomial(m * k, k)
    ensures Covering(gs, |mat|, k, m) && ByPasses(mat, k, m, gs)
  {
    hide Groups, Cover, Binomial, RowSums, Square, UpPass, DownPass, AllEntries, Reordered, Degrees, GroupsOf, Credit;
    var n := |mat|;
    var list := ListAllPossibleGroups(n, 0, k, [], []);
    AllListed(n, k, list);
    var opt := ListToTab(list, nbGroups);
    var tab := Evaluate(mat, sumRow, opt.value, k);
    EntryCount(mat, tab, k);
    ghost var all := tab;
    var best := SelectIndependentGroups(tab, m, Best(None, []), 1);
    ghost var packed := best;
    PackedRuns(mat, tab, k, m, best);
    CreditIs(best);
    best := best.(val := Some(best.val.value / 1.001));
    tab := Reorder(tab, Ascending(tab));
    ghost var asc := tab;
    best := SelectIndependentGroups(tab, m, best, 10);
    ghost var cheap := best;
    tab := Reorder(tab, Descending(tab));
    ghost var dsc := tab;
    best := SelectByLargestIndex(tab, m, best, 10);
    ghost var last := best;
    ghost var keys, deg := [], [];
    if nbGroups < 1000000 {
      var degrees := ComputeWeightedDegree(tab);
      DegreesLength(tab, degrees);
      tab := Reorder(tab, degrees);
      keys, deg := degrees, tab;
      best := SelectIndependentGroups(tab, m, best, 10);
    }
    ghost var p := Passes(all, packed, asc, cheap, dsc, last, keys, deg, best);
    assert PassesOk(mat, k, m, p);
    PassesCover(mat, k, m, p);
    gs := Tabs(best.sel, n, k, m);
  }

  lemma EntryCount(mat: Matrix, tab: seq<Entry>, k: nat)
    requires Square(mat, |mat|) && AllEntries(mat, tab, k)
    ensures |tab| == Binomial(|mat|, k)
  {
    GroupCount(|mat|, 0, k);
  }

  lemma DegreesLength(tab: seq<Entry>, keys: seq<Key>)
    requires Degrees(tab, keys)
    ensures |keys| == |tab|
  {
  }

  lemma CreditIs(best: Best)
    requires best.val.Some?
    ensures Credit(best) == best.(val := Some(best.val.value / 1.001))
  {
  }

  /** The groups in the order of their first nodes. */
  method Tabs(sel: seq<Entry>, ghost n: nat, ghost k: nat, m: nat) returns (gs: seq<Group>)
    requires Cover(sel, n, k, m) && 0 < k
    ensures Covering(gs, n, k, m) && GroupsOf(gs, sel)
  {
    var keys := seq(m, i requires 0 <= i < m => Of(sel[i].tab[0] as real));
    var perm := SortBy(keys);
    gs := seq(m, i requires 0 <= i < m => sel[perm[i]].tab);
    forall i, j | 0 <= i < j < m ensures Disjoint(gs[j], gs[i]) && gs[i][0] < gs[j][0] {
      var a, b := perm[i], perm[j];
      assert a < b ==> Disjoint(sel[b].tab, sel[a].tab);
      assert b < a ==> Disjoint(sel[a].tab, sel[b].tab);
      assert !Lower(keys[b], keys[a]);
    }
  }

  // ---------- What the passes keep and what they reach ----------

  /** The first pass packs: it selects the runs of consecutive nodes. */
  lemma PackedRuns(mat: Matrix, tab: seq<Entry>, k: nat, m: nat, best: Best)
    requires Square(mat, |mat|) && AllEntries(mat, tab, k) && |mat| == m * k && 0 < m && 0 < k
    requires UpPass(tab, m, Best(None, []), best, 1)
    ensures best.val == Some(Values(best.sel)) && Runs(best.sel, m, k) && Drawn(best.sel, tab)
  {
    hide Groups, Greedy, Runs, Drawn, Values, Square, EntriesOk, From;
    FirstSelected(mat, tab, k, m);
    var c :| UpTo(tab, m, Best(None, []), best, 1, c);
    assert Upward(1) == [] + [0];
    AfterMore(tab, m, Best(None, []), [], 0);
    NoneDrawn(tab);
    PassDrawn(tab, m, Best(None, []), best, 1);
  }

  lemma FirstSelected(mat: Matrix, tab: seq<Entry>, k: nat, m: nat)
    requires Square(mat, |mat|) && AllEntries(mat, tab, k) && |mat| == m * k && 0 < m && 0 < k
    ensures tab != [] && From(tab, 0, m).Some? && Runs(From(tab, 0, m).value, m, k)
  {
    hide Groups, Greedy, Pos, Run, Runs, Square, EntriesOk, Times;
    TimesWithin(0, m, k);
    NextTimes(0, k);
    RunAt(m * k, 0, k);
    StartPos(m * k, k);
    OneRun(tab[0], k);
    FirstPass(tab, [tab[0]], 1, m, k, m * k);
  }

  lemma StartPos(n: nat, k: nat)
    requires k > 0
    ensures Pos(n, 0, k) == 0
  {
  }

  lemma OneRun(e: Entry, k: nat)
    requires e.tab == Run(0, k)
    ensures Runs([e], 1, k)
  {
  }

  lemma NoneDrawn(tab: seq<Entry>)
    ensures Drawn([], tab)
  {
  }

  lemma RunsCover(mat: Matrix, tab: seq<Entry>, sel: seq<Entry>, k: nat, m: nat)
    requires Square(mat, |mat|) && EntriesOk(mat, tab, k) && Drawn(sel, tab) && |mat| == m * k && Runs(sel, m, k)
    ensures Cover(sel, |mat|, k, m)
  {
    hide Times, Leaving;
    forall i: nat | i < m ensures GroupOk(sel[i].tab, |mat|, 0, k) { DrawnOk(mat, tab, sel, k, i); }
    forall i: nat, j: nat | i < j < m ensures Disjoint(sel[j].tab, sel[i].tab) {
      NextTimes(i, k);
      TimesMonotone(i + 1, j, k);
    }
  }

  lemma DrawnOk(mat: Matrix, tab: seq<Entry>, sel: seq<Entry>, k: nat, i: nat)
    requires Square(mat, |mat|) && EntriesOk(mat, tab, k) && Drawn(sel, tab) && i < |sel|
    ensures EntryOk(mat, sel[i], k)
  {
    hide EntryOk;
    assert sel[i] in tab;
  }

  ghost predicate Sound(mat: Matrix, k: nat, m: nat, first: Best, b: Best)
    requires Square(mat, |mat|)
  {
    Keeps(first, b, |mat|, k, m) && EntriesOk(mat, b.sel, k) && b.val.Some?
  }

  /** One more pass. */
  lemma PassSound(mat: Matrix, tab: seq<Entry>, k: nat, m: nat, first: Best, before: Best, after: Best, bound: nat)
    requires Square(mat, |mat|) && 0 < m && EntriesOk(mat, tab, k) && Sound(mat, k, m, first, before)
    requires UpPass(tab, m, before, after, bound) || DownPass(tab, m, before, after, bound)
    ensures Sound(mat, k, m, first, after)
  {
    hide Keeps, UpPass, DownPass, EntryOk, Square;
    EntriesListed(mat, tab, k);
    PassKeeps(tab, m, before, after, bound, |mat|, k);
    KeepsOn(first, before, after, |mat|, k, m);
    PassBest(tab, m, before, after, bound);
    PassEntries(mat, tab, k, m, before, after, bound);
  }

  lemma PassEntries(mat: Matrix, tab: seq<Entry>, k: nat, m: nat, before: Best, after: Best, bound: nat)
    requires Square(mat, |mat|) && 0 < m && EntriesOk(mat, tab, k) && EntriesOk(mat, before.sel, k)
    requires UpPass(tab, m, before, after, bound) || DownPass(tab, m, before, after, bound)
    ensures EntriesOk(mat, after.sel, k)
  {
    hide UpPass, DownPass, EntryOk, Square;
    PassDrawn(tab, m, before, after, bound);
    if after.sel != before.sel {
      forall i: nat | i < |after.sel| ensures EntryOk(mat, after.sel[i], k) { DrawnOk(mat, tab, after.sel, k, i); }
    }
  }

  /** After all passes the selection covers the level, is valued right, and is as good as packing or better. */
  lemma PassesCover(mat: Matrix, k: nat, m: nat, p: Passes)
    requires Square(mat, |mat|) && 0 < m && 0 < k && |mat| == m * k && PassesOk(mat, k, m, p)
    ensures Sound(mat, k, m, Credit(p.packed), p.final) && Cover(p.final.sel, |mat|, k, m)
    ensures p.packed.val == Some(Values(p.packed.sel)) && Runs(p.packed.sel, m, k) && EntriesOk(mat, p.packed.sel, k)
  {
    hide UpPass, DownPass, EntriesOk, Lists, Reordered, Degrees, Values, Runs, Cover, Drawn, Sound, Keeps, Credit,
        Square;
    assert AllEntries(mat, p.all, k);
    PackedRuns(mat, p.all, k, m, p.packed);
    RunsCover(mat, p.all, p.packed.sel, k, m);
    var first := Credit(p.packed);
    CreditIs(p.packed);
    FirstSound(mat, p.all, k, m, first);
    ReorderOk(mat, p.all, Ascending(p.all), p.asc, k);
    PassSound(mat, p.asc, k, m, first, first, p.cheap, 10);
    ReorderOk(mat, p.asc, Descending(p.asc), p.dsc, k);
    PassSound(mat, p.dsc, k, m, first, p.cheap, p.last, 10);
    if |p.all| < 1000000 {
      DegreesLength(p.dsc, p.keys);
      ReorderOk(mat, p.dsc, p.keys, p.deg, k);
      PassSound(mat, p.deg, k, m, first, p.last, p.final, 10);
    }
    FinalCover(mat, k, m, first, p.final);
  }

  lemma FirstSound(mat: Matrix, tab: seq<Entry>, k: nat, m: nat, first: Best)
    requires Square(mat, |mat|) && EntriesOk(mat, tab, k) && Drawn(first.sel, tab) && first.val.Some?
    ensures Sound(mat, k, m, first, first) && EntriesOk(mat, first.sel, k)
  {
    hide EntryOk, Drawn;
    forall i: nat | i < |first.sel| ensures EntryOk(mat, first.sel[i], k) { DrawnOk(mat, tab, first.sel, k, i); }
  }

  lemma FinalCover(mat: Matrix, k: nat, m: nat, first: Best, final: Best)
    requires Square(mat, |mat|) && Sound(mat, k, m, first, final) && Cover(first.sel, |mat|, k, m)
    ensures Cover(final.sel, |mat|, k, m)
  {
    hide Cover, EntriesOk;
  }

  // ---------- How good the grouping is ----------

  /** Total value of the entries at the given indices. */
  ghost function Weight(tab: seq<Entry>, idx: seq<nat>): real
    requires forall i | 0 <= i < |idx| :: idx[i] < |tab|
  {
    if idx == [] then 0.0 else Weight(tab, idx[..|idx| - 1]) + tab[idx[|idx| - 1]].val
  }

  lemma {:induction false} WeightWithout(tab: seq<Entry>, idx: seq<nat>, p: nat)
    requires p < |idx| && forall i | 0 <= i < |idx| :: idx[i] < |tab|
    ensures Weight(tab, idx) == Weight(tab, Without(idx, p)) + tab[idx[p]].val
  {
    var last := |idx| - 1;
    if p == last {
      assert Without(idx, p) == idx[..last];
    } else {
      WeightWithout(tab, idx[..last], p);
      assert Without(idx, p)[..last - 1] == Without(idx[..last], p);
    }
  }

  /** An arrangement has the weight of the whole. */
  lemma {:induction false} WeightAll(tab: seq<Entry>, idx: seq<nat>, n: nat)
    requires n <= |tab| && Arranges(idx, n)
    ensures Weight(tab, idx) == Values(tab[..n])
    decreases n
  {
    if n == 0 {
      assert tab[..n] == [];
    } else {
      var p := Reached(idx, n, n - 1);
      WithoutSmaller(idx, p, n);
      WeightAll(tab, Without(idx, p), n - 1);
      WeightWithout(tab, idx, p);
      assert tab[..n][..n - 1] == tab[..n - 1];
    }
  }

  lemma {:induction false} GroupsWeight(mat: Matrix, gs: seq<Group>, sel: seq<Entry>, perm: seq<nat>, k: nat, c: nat)
    requires Square(mat, |mat|) && EntriesOk(mat, sel, k) && |gs| == |perm| && c <= |gs|
    requires forall i | 0 <= i < |gs| :: perm[i] < |sel| && gs[i] == sel[perm[i]].tab
    requires forall i, j | 0 <= i < |gs| && 0 <= j < |gs[i]| :: gs[i][j] < |mat|
    ensures TotalLeaving(mat, gs, c) == Weight(sel, perm[..c])
  {
    hide Leaving, GroupOk;
    if c > 0 {
      GroupsWeight(mat, gs, sel, perm, k, c - 1);
      assert EntryOk(mat, sel[perm[c - 1]], k);
      GroupSize(gs[c - 1], |mat|, k);
      assert perm[..c][..c - 1] == perm[..c - 1];
    }
  }

  /** The weight that leaves the groups is the value of the selection they come from. */
  lemma GroupsTotal(mat: Matrix, gs: seq<Group>, sel: seq<Entry>, k: nat)
    requires Square(mat, |mat|) && EntriesOk(mat, sel, k) && GroupsOf(gs, sel)
    ensures forall i, j | 0 <= i < |gs| && 0 <= j < |gs[i]| :: gs[i][j] < |mat|
    ensures TotalLeaving(mat, gs, |gs|) == Values(sel)
  {
    hide Leaving, TotalLeaving;
    var perm :| Arranges(perm, |sel|) && |gs| == |sel| && InFront(gs)
      && forall i | 0 <= i < |gs| :: gs[i] == sel[perm[i]].tab;
    forall i | 0 <= i < |gs| ensures GroupOk(gs[i], |mat|, 0, k) { assert EntryOk(mat, sel[perm[i]], k); }
    GroupsWeight(mat, gs, sel, perm, k, |gs|);
    WeightAll(sel, perm, |sel|);
    assert perm[..|gs|] == perm && sel[..|sel|] == sel;
  }

  /** Packing: runs of consecutive nodes. */
  function Packed(k: nat, m: nat): seq<Group>
  {
    seq(m, i requires 0 <= i < m => Run(Times(i, k), k))
  }

  lemma RunsPacked(sel: seq<Entry>, k: nat, m: nat)
    requires Runs(sel, m, k) && 0 < k
    ensures GroupsOf(Packed(k, m), sel)
  {
    hide Times;
    var gs, perm := Packed(k, m), seq(m, i requires 0 <= i < m => i);
    forall i: nat, j: nat | i < j < m ensures gs[i][0] < gs[j][0] {
      NextTimes(i, k);
      TimesMonotone(i + 1, j, k);
    }
    assert Arranges(perm, |sel|) && forall i | 0 <= i < m :: gs[i] == sel[perm[i]].tab;
  }

  lemma {:induction false} ValuesNonNegative(mat: Matrix, sel: seq<Entry>, k: nat)
    requires Square(mat, |mat|) && NonNegative(mat, |mat|) && EntriesOk(mat, sel, k)
    ensures Values(sel) >= 0.0
  {
    if sel != [] {
      var last := |sel| - 1;
      ValuesNonNegative(mat, sel[..last], k);
      assert EntryOk(mat, sel[last], k);
      LeavingNonNegative(mat, sel[last].tab, k);
    }
  }

  /** The grouping is never worse than packing: no more weight leaves its groups than leaves runs of consecutive
      nodes. */
  lemma NoWorseThanPacked(mat: Matrix, k: nat, m: nat, gs: seq<Group>)
    requires Square(mat, |mat|) && NonNegative(mat, |mat|) && 0 < m && 0 < k && |mat| == m * k
        && ByPasses(mat, k, m, gs)
    ensures (forall i, j | 0 <= i < |gs| && 0 <= j < |gs[i]| :: gs[i][j] < |mat|) && |gs| == m
    ensures forall i, j | 0 <= i < m && 0 <= j < |Packed(k, m)[i]| :: Packed(k, m)[i][j] < |mat|
    ensures TotalLeaving(mat, gs, m) <= TotalLeaving(mat, Packed(k, m), m)
  {
    hide PassesOk, GroupsOf, EntriesOk, Cover, Values, Runs, TotalLeaving, NonNegative, Square;
    var p :| PassesOk(mat, k, m, p) && GroupsOf(gs, p.final.sel);
    PassesCover(mat, k, m, p);
    GroupsLength(gs, p.final.sel, |mat|, k, m);
    RunsPacked(p.packed.sel, k, m);
    RunsLength(p.packed.sel, m, k);
    GroupsTotal(mat, gs, p.final.sel, k);
    GroupsTotal(mat, Packed(k, m), p.packed.sel, k);
    ValuesNonNegative(mat, p.packed.sel, k);
    CreditIs(p.packed);
  }

  lemma GroupsLength(gs: seq<Group>, sel: seq<Entry>, n: nat, k: nat, m: nat)
    requires Cover(sel, n, k, m) && GroupsOf(gs, sel)
    ensures |gs| == m
  {
  }

  /** Nor is it worse by more than a thousandth than taking the cheapest groups first, where that completes. */
  lemma NearCheapestFirst(mat: Matrix, k: nat, m: nat, p: Passes)
    requires Square(mat, |mat|) && NonNegative(mat, |mat|) && 0 < m && 0 < k && |mat| == m * k && PassesOk(mat, k, m, p)
    ensures |p.asc| > 0 && (From(p.asc, 0, m).Some? ==>
        Values(p.final.sel) <= 1.001 * Values(From(p.asc, 0, m).value))
  {
    hide UpPass, DownPass, EntriesOk, Lists, Reordered, Degrees, Values, Runs, Cover, Ascending, Descending, Keeps,
        Credit,
        Square, NonNegative, From;
    PassesCover(mat, k, m, p);
    CreditIs(p.packed);
    PassBest(p.asc, m, Credit(p.packed), p.cheap, 10);
    PassBest(p.dsc, m, p.cheap, p.last, 10);
    if |p.all| < 1000000 { PassBest(p.deg, m, p.last, p.final, 10); }
    ValuesNonNegative(mat, p.final.sel, k);
    ListedSome(mat, k, m, p);
    KeptValue(Credit(p.packed), p.final, |mat|, k, m);
  }

  lemma KeptValue(first: Best, final: Best, n: nat, k: nat, m: nat)
    requires Keeps(first, final, n, k, m)
    ensures final == first || final.val == Some(Values(final.sel))
  {
  }

  lemma ListedSome(mat: Matrix, k: nat, m: nat, p: Passes)
    requires Square(mat, |mat|) && 0 < m && 0 < k && |mat| == m * k && PassesOk(mat, k, m, p)
    ensures |p.asc| > 0
  {
    hide UpPass, DownPass, EntriesOk, Degrees, InOrder;
    TimesWithin(0, m, k);
    RunAt(m * k, 0, k);
  }
}
