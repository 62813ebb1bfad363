/** All groups of a given size in lexicographic order, their number, and the greedy
    choice of independent groups from such a list. */
module GroupEnumeration {
  import opened Arithmetic
  import opened Wrappers

  type Group = seq<nat>

  /** Every group with its members behind a common prefix. */
  function Prefixed(p: Group, gs: seq<Group>): seq<Group>
  {
    seq(|gs|, i requires 0 <= i < |gs| => p + gs[i])
  }

  /** The groups of k nodes among id .. n - 1, in lexicographic order. */
  function Groups(n: nat, id: nat, k: nat): (gs: seq<Group>)
    requires id <= n
    decreases n - id
  {
    if k == 0 then [[]]
    else if id == n then []
    else Prefixed([id], Groups(n, id + 1, k - 1)) + Groups(n, id + 1, k)
  }

  /** A group of k distinct nodes from lo .. n - 1, in increasing order. */
  ghost predicate GroupOk(g: Group, n: nat, lo: nat, k: nat)
  {
    |g| == k && (forall i | 0 <= i < k :: lo <= g[i] < n) && forall i, j | 0 <= i < j < k :: g[i] < g[j]
  }

  lemma {:induction false} GroupsOk(n: nat, id: nat, k: nat)
    requires id <= n
    ensures forall i | 0 <= i < |Groups(n, id, k)| :: GroupOk(Groups(n, id, k)[i], n, id, k)
    decreases n - id
  {
    if k > 0 && id < n {
      var with, without := Groups(n, id + 1, k - 1), Groups(n, id + 1, k);
      GroupsOk(n, id + 1, k - 1);
      GroupsOk(n, id + 1, k);
      var all := Groups(n, id, k);
      forall i | 0 <= i < |all| ensures GroupOk(all[i], n, id, k) {
        if i < |with| {
          assert GroupOk(with[i], n, id + 1, k - 1);
          assert all[i] == [id] + with[i];
        } else {
          assert GroupOk(without[i - |with|], n, id + 1, k);
        }
      }
    }
  }

  /** No group of increasing nodes is missing. */
  lemma {:induction false} GroupsComplete(n: nat, id: nat, k: nat, g: Group)
    requires id <= n && GroupOk(g, n, id, k)
    ensures g in Groups(n, id, k)
    decreases n - id
  {
    if k > 0 {
      assert id <= g[0] < n;
      var with, without := Groups(n, id + 1, k - 1), Groups(n, id + 1, k);
      if g[0] == id {
        GroupsComplete(n, id + 1, k - 1, g[1..]);
        var i :| 0 <= i < |with| && with[i] == g[1..];
        assert g == [id] + g[1..];
        assert Groups(n, id, k)[i] == g;
      } else {
        assert forall i | 0 <= i < k :: g[0] <= g[i];
        GroupsComplete(n, id + 1, k, g);
        var i :| 0 <= i < |without| && without[i] == g;
        assert Groups(n, id, k)[|with| + i] == g;
      }
    }
  }

  /** Lexicographic order on groups of one size. */
  predicate Before(a: Group, b: Group)
    requires |a| == |b|
  {
    a != [] && (a[0] < b[0] || (a[0] == b[0] && Before(a[1..], b[1..])))
  }

  /** The list is strictly increasing, so it holds every group once. */
  lemma {:induction false} GroupsOrdered(n: nat, id: nat, k: nat, i: nat, j: nat)
    requires id <= n && i < j < |Groups(n, id, k)|
    ensures |Groups(n, id, k)[i]| == |Groups(n, id, k)[j]| && Before(Groups(n, id, k)[i], Groups(n, id, k)[j])
    decreases n - id
  {
    GroupsOk(n, id, k);
    var all, with, without := Groups(n, id, k), Groups(n, id + 1, k - 1), Groups(n, id + 1, k);
    assert GroupOk(all[i], n, id, k) && GroupOk(all[j], n, id, k);
    if j < |with| {
      GroupsOrdered(n, id + 1, k - 1, i, j);
      assert all[i][1..] == with[i] && all[j][1..] == with[j];
    } else if i < |with| {
      GroupsOk(n, id + 1, k);
      assert GroupOk(without[j - |with|], n, id + 1, k);
      assert all[j] == without[j - |with|] && all[i][0] == id;
    } else {
      GroupsOrdered(n, id + 1, k, i - |with|, j - |with|);
    }
  }

  /** Too few nodes: no group. */
  lemma {:induction false} TooFew(n: nat, id: nat, k: nat)
    requires id <= n && n - id < k
    ensures Groups(n, id, k) == []
    decreases n - id
  {
    if id < n {
      TooFew(n, id + 1, k - 1);
      TooFew(n, id + 1, k);
    }
  }

  lemma PrefixedTwice(p: Group, x: nat, gs: seq<Group>)
    ensures Prefixed(p, Prefixed([x], gs)) == Prefixed(p + [x], gs)
  {
    forall i | 0 <= i < |gs| ensures Prefixed(p, Prefixed([x], gs))[i] == Prefixed(p + [x], gs)[i] {
      assert p + ([x] + gs[i]) == p + [x] + gs[i];
    }
  }

  lemma PrefixedSum(p: Group, a: seq<Group>, b: seq<Group>)
    ensures Prefixed(p, a + b) == Prefixed(p, a) + Prefixed(p, b)
  {
  }

  lemma PrefixedEmpty(gs: seq<Group>)
    ensures Prefixed([], gs) == gs
  {
    assert forall i | 0 <= i < |gs| :: [] + gs[i] == gs[i];
  }

  /** `list_all_possible_groups`: the groups are added one by one at the head of the list, which is kept here at
      the end of the sequence. */
  method ListAllPossibleGroups(n: nat, id: nat, arity: nat, cur: Group, list: seq<Group>) returns (res: seq<Group>)
    requires id <= n && |cur| <= arity
    ensures res == list + Prefixed(cur, Groups(n, id, arity - |cur|))
    decreases arity - |cur|
  {
    hide Groups, Prefixed;
    res := list;
    var k := arity - |cur|;
    Ends(cur, n, id);
    if |cur| == arity {
      res := res + [cur];
      return;
    }
    if n + |cur| >= arity + id {
      for i := id to n
        invariant res + Prefixed(cur, Groups(n, i, k)) == list + Prefixed(cur, Groups(n, id, k))
      {
        ghost var was, here, rest := res, Prefixed(cur + [i], Groups(n, i + 1, k - 1)),
            Prefixed(cur, Groups(n, i + 1, k));
        Unfold(cur, n, i, k);
        res := ListAllPossibleGroups(n, i + 1, arity, cur + [i], res);
        assert was + (here + rest) == was + here + rest;
      }
      NoneLeft(cur, n, k);
    } else {
      TooFew(n, id, k);
      Nothing(cur);
    }
  }

  lemma Ends(p: Group, n: nat, id: nat)
    requires id <= n
    ensures Prefixed(p, Groups(n, id, 0)) == [p]
  {
    assert p + [] == p;
    assert Prefixed(p, [[]]) == [p];
  }

  lemma Nothing(p: Group)
    ensures Prefixed(p, []) == []
  {
  }

  lemma NoneLeft(p: Group, n: nat, k: nat)
    requires k > 0
    ensures Prefixed(p, Groups(n, n, k)) == []
  {
  }

  lemma Unfold(p: Group, n: nat, i: nat, k: nat)
    requires i < n && k > 0
    ensures Prefixed(p, Groups(n, i, k))
        == Prefixed(p + [i], Groups(n, i + 1, k - 1)) + Prefixed(p, Groups(n, i + 1, k))
  {
    var with, rest := Groups(n, i + 1, k - 1), Groups(n, i + 1, k);
    PrefixedSum(p, Prefixed([i], with), rest);
    PrefixedTwice(p, i, with);
  }

  /** `list_to_tab`: refuses a list of another length, else the table in the order of creation. */
  method ListToTab(list: seq<Group>, n: nat) returns (res: Option<seq<Group>>)
    ensures res.Some? <==> |list| == n
    ensures res.Some? ==> res.value == list
  {
    var tab: seq<Group> := seq(n, _ => []);
    var left := |list|;
    for i := 0 to n
      invariant |tab| == n && left == |list| - i && left >= 0
      invariant |list| == n ==> forall j | n - i <= j < n :: tab[j] == list[j]
    {
      if left == 0 { return None; }
      tab := tab[n - i - 1 := list[left - 1]];
      left := left - 1;
    }
    if left > 0 { return None; }
    res := Some(tab);
  }

  // ---------- The number of groups ----------

  function Binomial(n: nat, k: nat): nat
  {
    if k == 0 then 1 else if n == 0 then 0 else Binomial(n - 1, k - 1) + Binomial(n - 1, k)
  }

  lemma {:induction false} GroupCount(n: nat, id: nat, k: nat)
    requires id <= n
    ensures |Groups(n, id, k)| == Binomial(n - id, k)
    decreases n - id
  {
    if k > 0 && id < n {
      GroupCount(n, id + 1, k - 1);
      GroupCount(n, id + 1, k);
    }
  }

  /** k C(n, k) = n C(n - 1, k - 1). */
  lemma {:induction false} Absorption(n: nat, k: nat)
    requires 0 < k && 0 < n
    ensures k * Binomial(n, k) == n * Binomial(n - 1, k - 1)
  {
    if n == 1 {
      BinomialLarge(0, k);
      if k > 1 { BinomialLarge(0, k - 1); }
    } else if k == 1 {
      Absorption(n - 1, 1);
      assert Binomial(n - 1, 0) == 1;
    } else {
      var a, b, c := Binomial(n - 2, k - 2), Binomial(n - 2, k - 1), Binomial(n - 2, k);
      Absorption(n - 1, k);
      Absorption(n - 1, k - 1);
      assert Binomial(n - 1, k - 1) == a + b && Binomial(n - 1, k) == b + c;
      Mix(n, k, a, b, c);
    }
  }

  lemma {:induction false} BinomialLarge(n: nat, k: nat)
    requires k > n
    ensures Binomial(n, k) == 0
  {
    if n > 0 {
      BinomialLarge(n - 1, k - 1);
      BinomialLarge(n - 1, k);
    }
  }

  lemma Mix(n: int, k: int, a: int, b: int, c: int)
    requires k * (b + c) == (n - 1) * b && (k - 1) * (a + b) == (n - 1) * a
    ensures k * (a + b + (b + c)) == n * (a + b)
  {
    assert k * (a + b + (b + c)) == k * (a + b) + k * (b + c);
    assert k * (a + b) == (k - 1) * (a + b) + (a + b);
    assert n * (a + b) == (n - 1) * (a + b) + (a + b);
    assert (n - 1) * (a + b) == (n - 1) * a + (n - 1) * b;
  }

  /** `choose`: the product of fractions is the number of groups. */
  method Choose(n: nat, k: nat) returns (res: real)
    requires k <= n
    ensures res == Binomial(n, k) as real
  {
    hide Ratio, Binomial;
    res := 1.0;
    RatioStart(n, k);
    for i := 0 to k
      invariant Ratio(n, k, i, res)
    {
      RatioNext(n, k, i, res);
      res := res * ((n - i) as real / (k - i) as real);
    }
    RatioEnd(n, k, res);
  }

  /** After i factors the product is C(n, k) / C(n - i, k - i). */
  ghost predicate Ratio(n: nat, k: nat, i: nat, res: real)
    requires i <= k <= n
  {
    res * Binomial(n - i, k - i) as real == Binomial(n, k) as real
  }

  lemma RatioStart(n: nat, k: nat)
    requires k <= n
    ensures Ratio(n, k, 0, 1.0)
  {
  }

  lemma RatioNext(n: nat, k: nat, i: nat, res: real)
    requires i < k <= n && Ratio(n, k, i, res)
    ensures Ratio(n, k, i + 1, res * ((n - i) as real / (k - i) as real))
  {
    hide Binomial;
    ChooseStep(n - i, k - i, res);
  }

  lemma RatioEnd(n: nat, k: nat, res: real)
    requires k <= n && Ratio(n, k, k, res)
    ensures res == Binomial(n, k) as real
  {
    assert Binomial(n - k, 0) == 1;
  }

  lemma ChooseStep(n: nat, k: nat, res: real)
    requires 0 < k <= n
    ensures res * (n as real / k as real) * Binomial(n - 1, k - 1) as real == res * Binomial(n, k) as real
  {
    hide Binomial;
    Absorption(n, k);
    var x, y := Binomial(n - 1, k - 1), Binomial(n, k);
    RealProduct(k, y);
    RealProduct(n, x);
    Fraction(x as real, y as real, n as real, k as real, res);
  }

  lemma {:induction false} RealProduct(a: nat, b: nat)
    ensures (a * b) as real == a as real * b as real
  {
    if a > 0 {
      RealProduct(a - 1, b);
      assert a * b == (a - 1) * b + b;
      assert a as real * b as real == (a - 1) as real * b as real + b as real;
    } else {
      assert a * b == 0;
    }
  }

  lemma Fraction(x: real, y: real, n: real, k: real, res: real)
    requires k > 0.0 && k * y == n * x
    ensures res * (n / k) * x == res * y
  {
    var q := n / k;
    assert q * k == n;
    assert k * y == q * k * x;
    assert k * (y - q * x) == 0.0;
    assert y == q * x;
  }
}
