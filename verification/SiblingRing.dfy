/** Circular doubly linked sibling lists, as manipulated by the link macros of
    the Fibonacci tree.  Memory is a pair of maps, one per link field, so that a
    macro is a sequence of field writes and the shape of the list is a predicate
    that relates those writes to a sequence of addresses. */
module SiblingRing {

  /** Addresses of nodes.  `NULL` and the dummy node `ROOT` are reserved. */
  type Ptr = nat

  const NULL: Ptr := 0
  const ROOT: Ptr := 1

  /** The two link fields of every node. */
  datatype Links = Links(prev: map<Ptr, Ptr>, next: map<Ptr, Ptr>)

  predicate Differ(s: seq<Ptr>, i: nat, j: nat)
    requires i < |s| && j < |s|
  {
    s[i] != s[j]
  }

  predicate NoDup(s: seq<Ptr>)
  {
    forall i: nat, j: nat :: i < j < |s| ==> Differ(s, i, j)
  }

  function Succ(i: nat, n: nat): nat
    requires i < n
  {
    if i + 1 < n then i + 1 else 0
  }

  /** `b` follows `a`, in both directions. */
  predicate Adjacent(l: Links, a: Ptr, b: Ptr)
  {
    a in l.next && b in l.prev && l.next[a] == b && l.prev[b] == a
  }

  predicate LinkedAt(l: Links, s: seq<Ptr>, i: nat)
    requires i < |s|
  {
    Adjacent(l, s[i], s[Succ(i, |s|)])
  }

  /** Following `next` from `s[0]` visits exactly `s` and returns, and `prev` is its inverse. */
  predicate IsRing(l: Links, s: seq<Ptr>)
  {
    && |s| > 0
    && NoDup(s)
    && forall i: nat :: i < |s| ==> LinkedAt(l, s, i)
  }

  /** `fiboTreeLinkAfter`: four field writes that put `n` behind `o`. */
  function LinkAfter(l: Links, o: Ptr, n: Ptr): Links
    requires o in l.next
  {
    var nextLoc := l.next[o];
    var next1 := l.next[n := nextLoc];
    var prev1 := l.prev[n := o];
    var prev2 := prev1[nextLoc := n];
    var next2 := next1[o := n];
    Links(prev2, next2)
  }

  /** `fiboTreeUnlink`: the neighbours of `n` skip it; the links of `n` itself stay. */
  function Unlink(l: Links, n: Ptr): Links
    requires n in l.next && n in l.prev
  {
    var next1 := l.next[l.prev[n] := l.next[n]];
    var prev1 := l.prev[l.next[n] := l.prev[n]];
    Links(prev1, next1)
  }

  /** A node chained to itself, as the first child of a node is. */
  function SelfLink(l: Links, n: Ptr): Links
  {
    Links(l.prev[n := n], l.next[n := n])
  }

  function InsertAt(s: seq<Ptr>, i: nat, n: Ptr): seq<Ptr>
    requires i < |s|
  {
    s[..i + 1] + [n] + s[i + 1..]
  }

  function RemoveAt(s: seq<Ptr>, i: nat): seq<Ptr>
    requires i < |s|
  {
    s[..i] + s[i + 1..]
  }

  lemma DistinctAt(s: seq<Ptr>, i: nat, j: nat)
    requires NoDup(s) && i < |s| && j < |s| && i != j
    ensures s[i] != s[j]
  {
    if i < j {
      assert Differ(s, i, j);
    } else {
      assert Differ(s, j, i);
    }
  }

  lemma InsertNoDup(s: seq<Ptr>, i: nat, n: Ptr)
    requires NoDup(s) && i < |s| && n !in s
    ensures NoDup(InsertAt(s, i, n))
  {
    var t := InsertAt(s, i, n);
    forall a: nat, b: nat | a < b < |t|
      ensures Differ(t, a, b)
    {
      if a != i + 1 && b != i + 1 {
        DistinctAt(s, if a <= i then a else a - 1, if b <= i then b else b - 1);
      }
    }
  }

  lemma RemoveNoDup(s: seq<Ptr>, i: nat)
    requires NoDup(s) && i < |s|
    ensures NoDup(RemoveAt(s, i))
    ensures s[i] !in RemoveAt(s, i)
  {
    var t := RemoveAt(s, i);
    forall a: nat | a < |t|
      ensures t[a] != s[i]
    {
      DistinctAt(s, if a < i then a else a + 1, i);
    }
    forall a: nat, b: nat | a < b < |t|
      ensures Differ(t, a, b)
    {
      DistinctAt(s, if a < i then a else a + 1, if b < i then b else b + 1);
    }
  }

  /** Linking a stranger behind the i-th element of a ring inserts it there. */
  lemma LinkAfterInserts(l: Links, s: seq<Ptr>, i: nat, n: Ptr)
    requires IsRing(l, s) && i < |s| && n !in s
    ensures s[i] in l.next
    ensures IsRing(LinkAfter(l, s[i], n), InsertAt(s, i, n))
  {
    assert LinkedAt(l, s, i);
    InsertNoDup(s, i, n);
    var l2 := LinkAfter(l, s[i], n);
    var t := InsertAt(s, i, n);
    forall j: nat | j < |t|
      ensures LinkedAt(l2, t, j)
    {
      if j != i && j != i + 1 {
        var k := if j < i then j else j - 1;
        assert LinkedAt(l, s, k);
        DistinctAt(s, k, i);
        if Succ(k, |s|) == Succ(i, |s|) {
          assert false;
        }
        DistinctAt(s, Succ(k, |s|), Succ(i, |s|));
        assert t[j] == s[k] && t[Succ(j, |t|)] == s[Succ(k, |s|)];
      }
    }
  }

  /** Rings that avoid the nodes written to are untouched. */
  lemma LinkAfterFrame(l: Links, s: seq<Ptr>, i: nat, n: Ptr, t: seq<Ptr>)
    requires IsRing(l, s) && i < |s| && IsRing(l, t)
    requires n !in t && forall x :: x in s ==> x !in t
    ensures s[i] in l.next
    ensures IsRing(LinkAfter(l, s[i], n), t)
  {
    assert LinkedAt(l, s, i);
    var l2 := LinkAfter(l, s[i], n);
    assert s[i] in s && s[Succ(i, |s|)] in s;
    forall j: nat | j < |t|
      ensures LinkedAt(l2, t, j)
    {
      assert LinkedAt(l, t, j);
      assert t[j] in t && t[Succ(j, |t|)] in t;
    }
  }

  function Pred(i: nat, n: nat): nat
    requires i < n
    ensures Pred(i, n) < n && Succ(Pred(i, n), n) == i
  {
    if i == 0 then n - 1 else i - 1
  }

  lemma UnlinkRemoves(l: Links, s: seq<Ptr>, i: nat)
    requires IsRing(l, s) && i < |s| && |s| > 1
    ensures s[i] in l.next && s[i] in l.prev
    ensures IsRing(Unlink(l, s[i]), RemoveAt(s, i))
  {
    var p := Pred(i, |s|);
    assert LinkedAt(l, s, i) && LinkedAt(l, s, p);
    RemoveNoDup(s, i);
    var l2 := Unlink(l, s[i]);
    var t := RemoveAt(s, i);
    forall j: nat | j < |t|
      ensures LinkedAt(l2, t, j)
    {
      var k := if j < i then j else j + 1;
      if k == p {
        assert t[j] == s[p] && t[Succ(j, |t|)] == s[Succ(i, |s|)];
      } else {
        assert LinkedAt(l, s, k);
        DistinctAt(s, k, p);
        DistinctAt(s, Succ(k, |s|), Succ(i, |s|));
        assert t[j] == s[k] && t[Succ(j, |t|)] == s[Succ(k, |s|)];
      }
    }
  }

  lemma UnlinkFrame(l: Links, s: seq<Ptr>, i: nat, t: seq<Ptr>)
    requires IsRing(l, s) && i < |s| && IsRing(l, t)
    requires forall x :: x in s ==> x !in t
    ensures s[i] in l.next && s[i] in l.prev
    ensures IsRing(Unlink(l, s[i]), t)
  {
    var p := Pred(i, |s|);
    assert LinkedAt(l, s, i) && LinkedAt(l, s, p);
    assert s[p] in s && s[Succ(i, |s|)] in s;
    var l2 := Unlink(l, s[i]);
    forall j: nat | j < |t|
      ensures LinkedAt(l2, t, j)
    {
      assert LinkedAt(l, t, j);
      assert t[j] in t && t[Succ(j, |t|)] in t;
    }
  }

  /** A ring may be read from any of its elements. */
  lemma Rotate(l: Links, s: seq<Ptr>, k: nat)
    requires IsRing(l, s) && k < |s|
    ensures IsRing(l, s[k..] + s[..k])
  {
    var t := s[k..] + s[..k];
    var n := |s|;
    forall a: nat, b: nat | a < b < |t|
      ensures Differ(t, a, b)
    {
      DistinctAt(s, if a < n - k then a + k else a + k - n, if b < n - k then b + k else b + k - n);
    }
    forall j: nat | j < |t|
      ensures LinkedAt(l, t, j)
    {
      var i := if j < n - k then j + k else j + k - n;
      assert LinkedAt(l, s, i);
      assert t[j] == s[i] && t[Succ(j, |t|)] == s[Succ(i, n)];
    }
  }
}
