/** How the fields of the nodes represent a Fibonacci forest: the root ring runs
    through the dummy node, every other ring holds the children of one node. */
module FiboMemory {
  import opened SiblingRing
  import opened FiboForest

  /** The `FiboNode` fields of every allocated node; `defl` packs degree and mark. */
  datatype Memory = Memory(links: Links, pare: map<Ptr, Ptr>, chld: map<Ptr, Ptr>, defl: map<Ptr, int>)

  ghost function ParentOf(f: Forest, x: Ptr): Ptr
  {
    if x in f.up then f.up[x] else NULL
  }

  function First(s: seq<Ptr>): Ptr
  {
    if s == [] then NULL else s[0]
  }

  ghost predicate SameMembers(s: seq<Ptr>, t: seq<Ptr>)
  {
    |s| == |t| && forall c :: c in s <==> c in t
  }

  /** Parent pointer and child ring of x. */
  ghost predicate NodeOk(m: Memory, f: Forest, ring: map<Ptr, seq<Ptr>>, x: Ptr)
    requires x in f.kids
  {
    && x in m.pare && m.pare[x] == ParentOf(f, x)
    && x in ring && SameMembers(ring[x], f.kids[x])
    && (ring[x] != [] ==> IsRing(m.links, ring[x]))
  }

  /** First child and packed degree of x. */
  ghost predicate HeadOk(m: Memory, f: Forest, ring: map<Ptr, seq<Ptr>>, x: Ptr)
    requires x in f.kids
  {
    && x in m.chld && x in m.defl && x in ring && x in f.mark
    && m.chld[x] == First(ring[x])
    && m.defl[x] == 2 * |f.kids[x]| + Bit(f.mark[x])
  }

  ghost predicate RootsOk(l: Links, f: Forest, roots: seq<Ptr>)
  {
    && IsRing(l, [ROOT] + roots)
    && forall x :: x in roots <==> IsRoot(f, x)
  }

  ghost predicate NodesOk(m: Memory, f: Forest, ring: map<Ptr, seq<Ptr>>)
  {
    forall x | x in f.kids :: NodeOk(m, f, ring, x)
  }

  /** The memory represents f, except for the head fields of node `owing`. */
  ghost predicate Rep(m: Memory, f: Forest, ring: map<Ptr, seq<Ptr>>, roots: seq<Ptr>, owing: Ptr)
  {
    && Shape(f) && NULL !in f.kids && ROOT !in f.kids
    && RootsOk(m.links, f, roots)
    && NodesOk(m, f, ring)
    && forall x | x in f.kids && x != owing :: HeadOk(m, f, ring, x)
  }

  lemma KidsOf(m: Memory, f: Forest, ring: map<Ptr, seq<Ptr>>, x: Ptr, c: Ptr)
    requires Shape(f) && NodesOk(m, f, ring) && x in f.kids
    ensures NodeOk(m, f, ring, x)
    ensures c in ring[x] <==> c in f.up && f.up[c] == x
    ensures c in ring[x] ==> c in f.kids && Hangs(f, c)
  {
    assert NodeOk(m, f, ring, x);
    if c in f.kids[x] {
      assert ChildAt(f, x, Index(f.kids[x], c));
    }
    if c in f.up {
      assert Hangs(f, c);
    }
  }

  /** Child rings share no node with each other or with the root ring. */
  lemma RingsApart(m: Memory, f: Forest, ring: map<Ptr, seq<Ptr>>, roots: seq<Ptr>, x: Ptr, y: Ptr)
    requires Shape(f) && NodesOk(m, f, ring) && ROOT !in f.kids
    requires forall z :: z in roots <==> IsRoot(f, z)
    requires x in f.kids && y in f.kids && x != y
    ensures x in ring && y in ring
    ensures forall c :: c in ring[x] ==> c !in ring[y]
    ensures forall c :: c in [ROOT] + roots ==> c !in ring[x]
  {
    assert NodeOk(m, f, ring, x) && NodeOk(m, f, ring, y);
    forall c | c in ring[x] ensures c !in ring[y] && c !in [ROOT] + roots {
      KidsOf(m, f, ring, x, c);
      KidsOf(m, f, ring, y, c);
    }
  }

  lemma RootsApart(m: Memory, f: Forest, ring: map<Ptr, seq<Ptr>>, roots: seq<Ptr>, x: Ptr)
    requires Shape(f) && NodesOk(m, f, ring) && ROOT !in f.kids
    requires forall z :: z in roots <==> IsRoot(f, z)
    requires x in f.kids
    ensures x in ring
    ensures forall c :: c in [ROOT] + roots ==> c !in ring[x]
  {
    assert NodeOk(m, f, ring, x);
    forall c | c in ring[x] ensures c !in [ROOT] + roots {
      KidsOf(m, f, ring, x, c);
    }
  }

  /** A ring read from the successor of its i-th element, without that element. */
  function Rest(s: seq<Ptr>, i: nat): seq<Ptr>
    requires i < |s|
  {
    s[i + 1..] + s[..i]
  }

  lemma RestMembers(s: seq<Ptr>, i: nat)
    requires NoDup(s) && i < |s|
    ensures |Rest(s, i)| == |s| - 1
    ensures forall c :: c in Rest(s, i) <==> c in s && c != s[i]
  {
    forall c | c in s && c != s[i] ensures c in Rest(s, i) {
      var j := Index(s, c);
      assert Rest(s, i)[if j < i then |s| - 1 - i + j else j - i - 1] == c;
    }
    forall c | c in Rest(s, i) ensures c in s && c != s[i] {
      var k := Index(Rest(s, i), c);
      DistinctAt(s, if k < |s| - 1 - i then k + i + 1 else k - (|s| - 1 - i), i);
    }
  }

  lemma UnlinkLeavesRest(l: Links, s: seq<Ptr>, i: nat)
    requires IsRing(l, s) && i < |s| && |s| > 1
    ensures s[i] in l.next && s[i] in l.prev
    ensures IsRing(Unlink(l, s[i]), Rest(s, i))
    ensures l.next[s[i]] == Rest(s, i)[0]
    ensures Unlink(l, s[i]).next[s[i]] == l.next[s[i]]
  {
    UnlinkRemoves(l, s, i);
    assert LinkedAt(l, s, i) && LinkedAt(l, s, Pred(i, |s|));
    DistinctAt(s, i, Pred(i, |s|));
    var t := RemoveAt(s, i);
    if i < |t| {
      Rotate(Unlink(l, s[i]), t, i);
      assert t[i..] + t[..i] == Rest(s, i);
    } else {
      assert t == Rest(s, i);
    }
  }

  /** A new root goes right behind the dummy node and disturbs no child ring. */
  lemma LinkRoot(l: Links, roots: seq<Ptr>, n: Ptr)
    requires IsRing(l, [ROOT] + roots) && n !in [ROOT] + roots
    ensures ROOT in l.next
    ensures IsRing(LinkAfter(l, ROOT, n), [ROOT] + ([n] + roots))
    ensures forall t | IsRing(l, t) && n !in t && (forall c :: c in [ROOT] + roots ==> c !in t)
              :: IsRing(LinkAfter(l, ROOT, n), t)
    ensures forall x | x in l.next && x != ROOT && x != n ::
        x in LinkAfter(l, ROOT, n).next && LinkAfter(l, ROOT, n).next[x] == l.next[x]
  {
    var s := [ROOT] + roots;
    LinkAfterInserts(l, s, 0, n);
    assert InsertAt(s, 0, n) == [ROOT] + ([n] + roots);
    forall t | IsRing(l, t) && n !in t && (forall c :: c in s ==> c !in t)
      ensures IsRing(LinkAfter(l, ROOT, n), t)
    {
      LinkAfterFrame(l, s, 0, n, t);
    }
  }

  // ---------- Adding a node ----------

  function AddNode(m: Memory, n: Ptr): Memory
    requires ROOT in m.links.next
  {
    Memory(LinkAfter(m.links, ROOT, n), m.pare[n := NULL], m.chld[n := NULL], m.defl[n := 0])
  }

  lemma AddNodeRep(m: Memory, f: Forest, ring: map<Ptr, seq<Ptr>>, roots: seq<Ptr>, n: Ptr)
    requires Rep(m, f, ring, roots, NULL) && Thick(f, NULL)
    requires n !in f.kids && n != NULL && n != ROOT
    ensures ROOT in m.links.next
    ensures Rep(AddNode(m, n), Plant(f, n), ring[n := []], [n] + roots, NULL)
    ensures Thick(Plant(f, n), NULL)
  {
    hide Thick, Shape;
    PlantValid(f, n);
    LinkRoot(m.links, roots, n);
    AddNodes(m, f, ring, roots, n);
    AddRoots(m, f, ring, roots, n);
  }

  lemma AddNodes(m: Memory, f: Forest, ring: map<Ptr, seq<Ptr>>, roots: seq<Ptr>, n: Ptr)
    requires Rep(m, f, ring, roots, NULL) && n !in f.kids && n != NULL && n != ROOT && ROOT in m.links.next
    ensures NodesOk(AddNode(m, n), Plant(f, n), ring[n := []])
    ensures forall x | x in Plant(f, n).kids :: HeadOk(AddNode(m, n), Plant(f, n), ring[n := []], x)
  {
    LinkRoot(m.links, roots, n);
    var m2, g, ring2 := AddNode(m, n), Plant(f, n), ring[n := []];
    UpInKids(f, n);
    forall x | x in g.kids ensures NodeOk(m2, g, ring2, x) && HeadOk(m2, g, ring2, x) {
      if x != n {
        assert NodeOk(m, f, ring, x) && HeadOk(m, f, ring, x);
        RootsApart(m, f, ring, roots, x);
        KidsOf(m, f, ring, x, n);
      }
    }
  }

  lemma AddRoots(m: Memory, f: Forest, ring: map<Ptr, seq<Ptr>>, roots: seq<Ptr>, n: Ptr)
    requires Rep(m, f, ring, roots, NULL) && n !in f.kids && n != NULL && n != ROOT && ROOT in m.links.next
    ensures RootsOk(AddNode(m, n).links, Plant(f, n), [n] + roots)
  {
    LinkRoot(m.links, roots, n);
    forall x ensures x in [n] + roots <==> IsRoot(Plant(f, n), x) { UpInKids(f, x); }
  }

  // ---------- Taking a node out ----------

  /** Unlinking child c of p leaves every ring but that of p alone. */
  lemma UnlinkChild(m: Memory, f: Forest, ring: map<Ptr, seq<Ptr>>, roots: seq<Ptr>, c: Ptr)
    requires Shape(f) && NodesOk(m, f, ring) && RootsOk(m.links, f, roots) && ROOT !in f.kids
    requires c in f.up
    ensures f.up[c] in ring && c in ring[f.up[c]] && c in m.links.next && c in m.links.prev
    ensures IsRing(Unlink(m.links, c), [ROOT] + roots)
    ensures forall x | x in f.kids && x != f.up[c] && x in ring && ring[x] != []
              :: IsRing(Unlink(m.links, c), ring[x])
    ensures var s := ring[f.up[c]]; var i := Index(s, c);
            |s| > 1 ==> IsRing(Unlink(m.links, c), Rest(s, i)) && m.links.next[c] == Rest(s, i)[0]
    ensures Unlink(m.links, c).next[c] == m.links.next[c]
  {
    UpInKids(f, c);
    var p := f.up[c];
    KidsOf(m, f, ring, p, c);
    var s := ring[p];
    var i := Index(s, c);
    assert LinkedAt(m.links, s, i) && LinkedAt(m.links, s, Pred(i, |s|));
    if |s| > 1 {
      UnlinkLeavesRest(m.links, s, i);
    }
    RootsApart(m, f, ring, roots, p);
    UnlinkFrame(m.links, s, i, [ROOT] + roots);
    forall x | x in f.kids && x != p && x in ring && ring[x] != []
      ensures IsRing(Unlink(m.links, c), ring[x])
    {
      RingsApart(m, f, ring, roots, p, x);
      assert NodeOk(m, f, ring, x);
      UnlinkFrame(m.links, s, i, ring[x]);
    }
  }

  /** Unlinking root n leaves every child ring alone. */
  lemma UnlinkRoot(m: Memory, f: Forest, ring: map<Ptr, seq<Ptr>>, roots: seq<Ptr>, i: nat)
    requires Shape(f) && NodesOk(m, f, ring) && RootsOk(m.links, f, roots) && ROOT !in f.kids
    requires i < |roots|
    ensures roots[i] in m.links.next && roots[i] in m.links.prev
    ensures IsRing(Unlink(m.links, roots[i]), [ROOT] + RemoveAt(roots, i))
    ensures forall x | x in f.kids && x in ring && ring[x] != []
              :: IsRing(Unlink(m.links, roots[i]), ring[x])
  {
    var s := [ROOT] + roots;
    assert s[i + 1] == roots[i];
    UnlinkRemoves(m.links, s, i + 1);
    assert RemoveAt(s, i + 1) == [ROOT] + RemoveAt(roots, i);
    forall x | x in f.kids && x in ring && ring[x] != []
      ensures IsRing(Unlink(m.links, roots[i]), ring[x])
    {
      RootsApart(m, f, ring, roots, x);
      assert NodeOk(m, f, ring, x);
      UnlinkFrame(m.links, s, i + 1, ring[x]);
    }
  }

  ghost function RingsAfterDrop(f: Forest, ring: map<Ptr, seq<Ptr>>, n: Ptr): map<Ptr, seq<Ptr>>
  {
    map x | x in ring && x != n :: RingWithout(ring[x], n)
  }

  /** The ring of a node after one of its members was unlinked and the head moved on. */
  ghost function RingWithout(s: seq<Ptr>, c: Ptr): seq<Ptr>
  {
    if c in s then Rest(s, Index(s, c)) else s
  }

  lemma RingWithoutMembers(s: seq<Ptr>, t: seq<Ptr>, c: Ptr)
    requires SameMembers(s, t) && NoDup(t) && (s != [] ==> NoDup(s))
    ensures SameMembers(RingWithout(s, c), Without(t, c))
  {
    WithoutProps(t, c);
    if c in s {
      RestMembers(s, Index(s, c));
    }
  }

  /** Once n is unlinked and its children are roots, the memory represents the forest
      without n, except for the head fields of the parent of n. */
  lemma DropRep(m: Memory, m2: Memory, f: Forest, ring: map<Ptr, seq<Ptr>>, roots: seq<Ptr>, roots2: seq<Ptr>, n: Ptr)
    requires Rep(m, f, ring, roots, NULL) && Thick(f, NULL) && n in f.kids
    requires m2.chld == m.chld && m2.defl == m.defl && n in ring
    requires IsRing(m2.links, [ROOT] + roots2)
    requires forall x :: x in roots2 <==> (x in roots && x != n) || x in ring[n]
    requires forall x | x in f.kids && x != n && x in ring && RingWithout(ring[x], n) != []
               :: IsRing(m2.links, RingWithout(ring[x], n))
    requires forall x | x in f.kids && x != n
               :: x in m2.pare && m2.pare[x] == (if x in ring[n] then NULL else ParentOf(f, x))
    ensures Rep(m2, Drop(f, n), RingsAfterDrop(f, ring, n), roots2, ParentOf(f, n))
    ensures Thick(Drop(f, n), ParentOf(f, n))
  {
    DropValid(f, n);
    var g, ring2, owing := Drop(f, n), RingsAfterDrop(f, ring, n), ParentOf(f, n);
    forall x | x in g.kids ensures NodeOk(m2, g, ring2, x) {
      KidsOf(m, f, ring, n, x);
      assert NodeOk(m, f, ring, x);
      RingWithoutMembers(ring[x], f.kids[x], n);
    }
    forall x | x in g.kids && x != owing ensures HeadOk(m2, g, ring2, x) {
      assert HeadOk(m, f, ring, x);
      KidsOf(m, f, ring, x, n);
    }
    assert RootsOk(m2.links, g, roots2) by {
      forall x ensures x in roots2 <==> IsRoot(g, x) {
        KidsOf(m, f, ring, n, x);
        UpInKids(f, x);
      }
    }
  }

  function SeverNode(m: Memory, c: Ptr): Memory
    requires c in m.links.next && c in m.links.prev && ROOT in Unlink(m.links, c).next
  {
    m.(links := LinkAfter(Unlink(m.links, c), ROOT, c), pare := m.pare[c := NULL])
  }

  ghost function RingsAfterSever(ring: map<Ptr, seq<Ptr>>, c: Ptr): map<Ptr, seq<Ptr>>
  {
    map x | x in ring :: RingWithout(ring[x], c)
  }

  /** One cascade step: a marked child that lost a second child becomes a root. */
  lemma SeverRep(m: Memory, f: Forest, ring: map<Ptr, seq<Ptr>>, roots: seq<Ptr>, c: Ptr)
    requires Rep(m, f, ring, roots, NULL) && Thick(f, c) && c in f.up
    ensures c in m.links.next && c in m.links.prev && ROOT in Unlink(m.links, c).next && c in ring
    ensures Rep(SeverNode(m, c), Sever(f, c), RingsAfterSever(ring, c), [c] + roots, f.up[c])
    ensures Thick(Sever(f, c), f.up[c])
  {
    SeverValid(f, c);
    UpInKids(f, c);
    assert NodeOk(m, f, ring, c);
    SeverNodes(m, f, ring, roots, c);
    SeverHeads(m, f, ring, roots, c);
    SeverRoots(m, f, ring, roots, c);
  }

  lemma SeverRoots(m: Memory, f: Forest, ring: map<Ptr, seq<Ptr>>, roots: seq<Ptr>, c: Ptr)
    requires Rep(m, f, ring, roots, NULL) && c in f.up
    ensures c in m.links.next && c in m.links.prev && ROOT in Unlink(m.links, c).next
    ensures RootsOk(SeverNode(m, c).links, Sever(f, c), [c] + roots)
  {
    UnlinkChild(m, f, ring, roots, c);
    UpInKids(f, c);
    LinkRoot(Unlink(m.links, c), roots, c);
  }

  lemma SeverHeads(m: Memory, f: Forest, ring: map<Ptr, seq<Ptr>>, roots: seq<Ptr>, c: Ptr)
    requires Rep(m, f, ring, roots, NULL) && c in f.up
    requires c in m.links.next && c in m.links.prev && ROOT in Unlink(m.links, c).next
    ensures forall x | x in f.kids && x != f.up[c] :: HeadOk(SeverNode(m, c), Sever(f, c), RingsAfterSever(ring, c), x)
  {
    forall x | x in f.kids && x != f.up[c]
      ensures HeadOk(SeverNode(m, c), Sever(f, c), RingsAfterSever(ring, c), x)
    {
      assert HeadOk(m, f, ring, x);
      KidsOf(m, f, ring, x, c);
    }
  }

  lemma SeverNodes(m: Memory, f: Forest, ring: map<Ptr, seq<Ptr>>, roots: seq<Ptr>, c: Ptr)
    requires Rep(m, f, ring, roots, NULL) && c in f.up
    ensures c in m.links.next && c in m.links.prev && ROOT in Unlink(m.links, c).next
    ensures NodesOk(SeverNode(m, c), Sever(f, c), RingsAfterSever(ring, c))
  {
    UnlinkChild(m, f, ring, roots, c);
    UpInKids(f, c);
    LinkRoot(Unlink(m.links, c), roots, c);
    var m2, g, ring2, p := SeverNode(m, c), Sever(f, c), RingsAfterSever(ring, c), f.up[c];
    forall x | x in g.kids ensures NodeOk(m2, g, ring2, x) {
      KidsOf(m, f, ring, x, c);
      RootsApart(m, f, ring, roots, x);
      RingWithoutMembers(ring[x], f.kids[x], c);
      var t := RingWithout(ring[x], c);
      assert c !in t by {
        if c in ring[x] { RestMembers(ring[x], Index(ring[x], c)); }
      }
      forall d | d in [ROOT] + roots ensures d !in t {
        if c in ring[x] { RestMembers(ring[x], Index(ring[x], c)); }
      }
    }
  }

  /** Writing the head fields of p, with its mark set, completes the representation. */
  lemma MarkRep(m: Memory, f: Forest, ring: map<Ptr, seq<Ptr>>, roots: seq<Ptr>, p: Ptr)
    requires Rep(m, f, ring, roots, p) && p in f.kids && p in ring
    ensures Rep(m.(chld := m.chld[p := First(ring[p])], defl := m.defl[p := 2 * |f.kids[p]| + 1]),
                SetMark(f, p), ring, roots, NULL)
  {
    hide IsRing, NoDup, Shape;
    var m2 := m.(chld := m.chld[p := First(ring[p])], defl := m.defl[p := 2 * |f.kids[p]| + 1]);
    var g := SetMark(f, p);
    MarkShape(f, p);
    forall x | x in g.kids ensures NodeOk(m2, g, ring, x) { assert NodeOk(m, f, ring, x); }
    forall x | x in g.kids && x != NULL ensures HeadOk(m2, g, ring, x) {
      ShapeMarked(f, x);
      if x != p { assert HeadOk(m, f, ring, x); }
    }
    assert RootsOk(m2.links, g, roots);
  }

  lemma ShapeMarked(f: Forest, x: Ptr)
    requires Shape(f) && x in f.kids
    ensures x in f.mark
  {
  }

  lemma MarkShape(f: Forest, p: Ptr)
    requires Shape(f) && p in f.kids
    ensures Shape(SetMark(f, p))
  {
    var g := SetMark(f, p);
    forall c | c in g.up ensures Hangs(g, c) { assert Hangs(f, c); }
    forall x, i: nat | x in g.kids && i < |g.kids[x]| ensures ChildAt(g, x, i) { assert ChildAt(f, x, i); }
  }

  // ---------- Consolidation ----------

  function ClearMark(d: int): int { d - d % 2 }

  predicate CanGraft(m: Memory, o: Ptr, r: Ptr)
  {
    && o in m.links.next && o in m.links.prev && o in m.defl && r in m.defl && r in m.chld
    && (m.chld[r] != NULL ==> m.chld[r] in Unlink(m.links, o).next)
  }

  /** The writes that hang root `o` under root `r`. */
  function GraftNode(m: Memory, o: Ptr, r: Ptr): Memory
    requires CanGraft(m, o, r)
  {
    var l1 := Unlink(m.links, o);
    var defl1 := m.defl[o := ClearMark(m.defl[o])];
    var pare1 := m.pare[o := r];
    if m.chld[r] != NULL then
      Memory(LinkAfter(l1, m.chld[r], o), pare1, m.chld, defl1[r := defl1[r] + 2])
    else
      Memory(SelfLink(l1, o), pare1, m.chld[r := o], defl1[r := 2])
  }

  ghost function RingWith(s: seq<Ptr>, o: Ptr): seq<Ptr>
  {
    if s == [] then [o] else InsertAt(s, 0, o)
  }

  ghost predicate GraftPre(m: Memory, f: Forest, ring: map<Ptr, seq<Ptr>>, roots: seq<Ptr>, j: nat, r: Ptr)
  {
    && Rep(m, f, ring, roots, NULL) && Thick(f, NULL)
    && j < |roots| && r in roots && r != roots[j]
    && r in f.kids && roots[j] in f.kids && |f.kids[roots[j]]| == |f.kids[r]|
  }

  lemma GraftReady(m: Memory, f: Forest, ring: map<Ptr, seq<Ptr>>, roots: seq<Ptr>, j: nat, r: Ptr)
    requires GraftPre(m, f, ring, roots, j, r)
    ensures CanGraft(m, roots[j], r) && r in ring && roots[j] in ring && IsRoot(f, roots[j]) && IsRoot(f, r)
    ensures roots[j] in [ROOT] + roots && roots[j] !in ring[r]
    ensures m.chld[r] == First(ring[r]) && (m.chld[r] == NULL <==> ring[r] == [])
  {
    var o := roots[j];
    assert o in roots;
    UnlinkRoot(m, f, ring, roots, j);
    assert HeadOk(m, f, ring, o) && HeadOk(m, f, ring, r) && NodeOk(m, f, ring, r) && NodeOk(m, f, ring, o);
    KidsOf(m, f, ring, r, o);
    if ring[r] != [] {
      assert LinkedAt(Unlink(m.links, o), ring[r], 0);
      KidsOf(m, f, ring, r, ring[r][0]);
    }
  }

  /** The root ring loses o. */
  lemma GraftRootRing(m: Memory, f: Forest, ring: map<Ptr, seq<Ptr>>, roots: seq<Ptr>, j: nat, r: Ptr)
    requires GraftPre(m, f, ring, roots, j, r) && CanGraft(m, roots[j], r)
    ensures RootsOk(GraftNode(m, roots[j], r).links, Graft(f, roots[j], r), RemoveAt(roots, j))
  {
    var o := roots[j];
    GraftReady(m, f, ring, roots, j, r);
    UnlinkRoot(m, f, ring, roots, j);
    RootsApart(m, f, ring, roots, r);
    RemoveRootsNoDup(m.links, roots, j);
    var l1 := Unlink(m.links, o);
    var t := [ROOT] + RemoveAt(roots, j);
    if ring[r] != [] {
      forall x | x in ring[r] ensures x !in t {
        assert x !in [ROOT] + roots;
      }
      LinkAfterFrame(l1, ring[r], 0, o, t);
    } else {
      SelfLinkFrame(l1, o, t);
    }
  }

  /** The ring of r gains o and the other child rings stay. */
  lemma GraftChildRing(m: Memory, f: Forest, ring: map<Ptr, seq<Ptr>>, roots: seq<Ptr>, j: nat, r: Ptr, x: Ptr)
    requires GraftPre(m, f, ring, roots, j, r) && CanGraft(m, roots[j], r) && x in f.kids && x in ring && r in ring
    ensures var t := if x == r then RingWith(ring[r], roots[j]) else ring[x];
            t != [] ==> IsRing(GraftNode(m, roots[j], r).links, t)
  {
    var o := roots[j];
    GraftReady(m, f, ring, roots, j, r);
    UnlinkRoot(m, f, ring, roots, j);
    RootsApart(m, f, ring, roots, x);
    var l1 := Unlink(m.links, o);
    if x != r {
      RingsApart(m, f, ring, roots, r, x);
    }
    if ring[r] == [] {
      if x == r {
        assert LinkedAt(SelfLink(l1, o), [o], 0);
      } else if ring[x] != [] {
        SelfLinkFrame(l1, o, ring[x]);
      }
    } else if x == r {
      LinkAfterInserts(l1, ring[r], 0, o);
    } else if ring[x] != [] {
      LinkAfterFrame(l1, ring[r], 0, o, ring[x]);
    }
  }

  lemma RemoveRootsNoDup(l: Links, roots: seq<Ptr>, j: nat)
    requires IsRing(l, [ROOT] + roots) && j < |roots|
    ensures NoDup(roots)
    ensures roots[j] !in [ROOT] + RemoveAt(roots, j)
    ensures forall x :: x in RemoveAt(roots, j) <==> x in roots && x != roots[j]
  {
    var s := [ROOT] + roots;
    forall a: nat, b: nat | a < b < |roots| ensures Differ(roots, a, b) {
      DistinctAt(s, a + 1, b + 1);
    }
    RemoveNoDup(roots, j);
    DistinctAt(s, 0, j + 1);
    forall x | x in roots && x != roots[j] ensures x in RemoveAt(roots, j) {
      var i := Index(roots, x);
      assert RemoveAt(roots, j)[if i < j then i else i - 1] == x;
    }
  }

  lemma SelfLinkFrame(l: Links, o: Ptr, t: seq<Ptr>)
    requires IsRing(l, t) && o !in t
    ensures IsRing(SelfLink(l, o), t)
  {
    forall j: nat | j < |t| ensures LinkedAt(SelfLink(l, o), t, j) {
      assert LinkedAt(l, t, j);
      assert t[j] in t && t[Succ(j, |t|)] in t;
    }
  }

  lemma GraftNodes(m: Memory, f: Forest, ring: map<Ptr, seq<Ptr>>, roots: seq<Ptr>, j: nat, r: Ptr)
    requires GraftPre(m, f, ring, roots, j, r) && CanGraft(m, roots[j], r) && r in ring
    ensures var o := roots[j];
            NodesOk(GraftNode(m, o, r), Graft(f, o, r), ring[r := RingWith(ring[r], o)])
  {
    var o := roots[j];
    GraftReady(m, f, ring, roots, j, r);
    var m2, g, ring2 := GraftNode(m, o, r), Graft(f, o, r), ring[r := RingWith(ring[r], o)];
    forall x | x in g.kids ensures NodeOk(m2, g, ring2, x) {
      assert NodeOk(m, f, ring, x);
      GraftChildRing(m, f, ring, roots, j, r, x);
      if x == r {
        RingWithMembers(ring[r], f.kids[r], o);
      }
    }
  }

  lemma RingWithMembers(s: seq<Ptr>, t: seq<Ptr>, o: Ptr)
    requires SameMembers(s, t)
    ensures SameMembers(RingWith(s, o), t + [o])
  {
    forall c ensures c in RingWith(s, o) <==> c in s || c == o {
      if s != [] {
        assert s == s[..1] + s[1..];
      }
    }
  }

  lemma GraftRep(m: Memory, f: Forest, ring: map<Ptr, seq<Ptr>>, roots: seq<Ptr>, j: nat, r: Ptr)
    requires GraftPre(m, f, ring, roots, j, r)
    ensures CanGraft(m, roots[j], r) && r in ring
    ensures var o := roots[j];
            && Rep(GraftNode(m, o, r), Graft(f, o, r), ring[r := RingWith(ring[r], o)], RemoveAt(roots, j), NULL)
            && Thick(Graft(f, o, r), NULL)
  {
    var o := roots[j];
    GraftReady(m, f, ring, roots, j, r);
    GraftValid(f, o, r);
    GraftRootRing(m, f, ring, roots, j, r);
    GraftNodes(m, f, ring, roots, j, r);
    forall x | x in Graft(f, o, r).kids
      ensures HeadOk(GraftNode(m, o, r), Graft(f, o, r), ring[r := RingWith(ring[r], o)], x)
    {
      GraftHead(m, f, ring, roots, j, r, x);
    }
  }

  lemma GraftHead(m: Memory, f: Forest, ring: map<Ptr, seq<Ptr>>, roots: seq<Ptr>, j: nat, r: Ptr, x: Ptr)
    requires j < |roots| && GraftPre(m, f, ring, roots, j, r) && CanGraft(m, roots[j], r) && r in ring && x in f.kids
    ensures HeadOk(GraftNode(m, roots[j], r), Graft(f, roots[j], r), ring[r := RingWith(ring[r], roots[j])], x)
  {
    hide GraftPre, IsRing, LinkAfter, Unlink, SelfLink, SameMembers;
    GraftReady(m, f, ring, roots, j, r);
    HeadAt(m, f, ring, roots, j, r, x);
    HeadAt(m, f, ring, roots, j, r, roots[j]);
    HeadAt(m, f, ring, roots, j, r, r);
  }

  lemma HeadAt(m: Memory, f: Forest, ring: map<Ptr, seq<Ptr>>, roots: seq<Ptr>, j: nat, r: Ptr, x: Ptr)
    requires GraftPre(m, f, ring, roots, j, r) && x in f.kids
    ensures HeadOk(m, f, ring, x) && |ring[x]| == |f.kids[x]| && x in f.rank && roots[j] in f.kids && r in f.kids
        && r != roots[j]
  {
    assert HeadOk(m, f, ring, x) && NodeOk(m, f, ring, x);
  }

  // ---------- Cutting the children of a node ----------

  function Rev(s: seq<Ptr>): seq<Ptr>
  {
    if s == [] then [] else [s[|s| - 1]] + Rev(s[..|s| - 1])
  }

  lemma RevMembers(s: seq<Ptr>)
    ensures forall c :: c in Rev(s) <==> c in s
  {
    if s != [] {
      RevMembers(s[..|s| - 1]);
      assert s == s[..|s| - 1] + [s[|s| - 1]];
    }
  }

  ghost predicate Apart(a: seq<Ptr>, b: seq<Ptr>)
  {
    forall c :: c in a ==> c !in b
  }

  /** The links after the first t members of ring s were moved behind the dummy node, one by one. */
  ghost function CutLinks(l: Links, s: seq<Ptr>, t: nat): Links
    requires t <= |s| && ROOT in l.next
    ensures ROOT in CutLinks(l, s, t).next
  {
    if t == 0 then l else LinkAfter(CutLinks(l, s, t - 1), ROOT, s[t - 1])
  }

  ghost predicate CutPre(l: Links, s: seq<Ptr>, roots: seq<Ptr>)
  {
    && IsRing(l, s) && IsRing(l, [ROOT] + roots)
    && Apart(s, [ROOT] + roots)
  }

  /** The moved members head the root ring, last moved first. */
  lemma {:induction false} CutLinksRing(l: Links, s: seq<Ptr>, roots: seq<Ptr>, t: nat)
    requires CutPre(l, s, roots) && t <= |s|
    ensures ROOT in l.next
    ensures IsRing(CutLinks(l, s, t), [ROOT] + (Rev(s[..t]) + roots))
  {
    assert LinkedAt(l, [ROOT] + roots, 0);
    if t == 0 {
      assert Rev(s[..0]) + roots == roots;
    } else {
      CutLinksRing(l, s, roots, t - 1);
      var before, n := Rev(s[..t - 1]) + roots, s[t - 1];
      assert n !in [ROOT] + before by {
        RevMembers(s[..t - 1]);
        assert n in s && n !in [ROOT] + roots;
        forall j: nat | j < t - 1 ensures s[j] != n { DistinctAt(s, j, t - 1); }
      }
      LinkRoot(CutLinks(l, s, t - 1), before, n);
      assert s[..t][..t - 1] == s[..t - 1];
      assert [n] + before == Rev(s[..t]) + roots;
    }
  }

  /** Nodes not yet moved keep their links. */
  lemma {:induction false} CutLinksNext(l: Links, s: seq<Ptr>, t: nat, x: Ptr)
    requires t <= |s| && ROOT in l.next && x in l.next && x != ROOT && x !in s[..t]
    ensures x in CutLinks(l, s, t).next && CutLinks(l, s, t).next[x] == l.next[x]
  {
    if t > 0 {
      assert s[..t] == s[..t - 1] + [s[t - 1]];
      CutLinksNext(l, s, t - 1, x);
    }
  }

  lemma {:induction false} CutLinksFrame(l: Links, s: seq<Ptr>, roots: seq<Ptr>, t: nat, q: seq<Ptr>)
    requires CutPre(l, s, roots) && t <= |s|
    requires IsRing(l, q) && Apart(s, q) && Apart([ROOT] + roots, q)
    ensures ROOT in l.next && IsRing(CutLinks(l, s, t), q)
  {
    assert LinkedAt(l, [ROOT] + roots, 0);
    if t > 0 {
      CutLinksFrame(l, s, roots, t - 1, q);
      CutLinksRing(l, s, roots, t - 1);
      RevMembers(s[..t - 1]);
      var n := s[t - 1];
      assert n in s && ROOT in [ROOT] + roots;
      assert forall c | c in roots :: c in [ROOT] + roots;
      LinkAfterFrame(CutLinks(l, s, t - 1), [ROOT] + (Rev(s[..t - 1]) + roots), 0, n, q);
    }
  }

  // ---------- Deletion: unlink, then cut the children ----------

  ghost function RootsWithout(f: Forest, roots: seq<Ptr>, n: Ptr): seq<Ptr>
  {
    if n in roots then RemoveAt(roots, Index(roots, n)) else roots
  }

  /** After n is unlinked, its child ring and the root ring are ready for the cut. */
  lemma UnlinkForDrop(m: Memory, f: Forest, ring: map<Ptr, seq<Ptr>>, roots: seq<Ptr>, n: Ptr)
    requires Rep(m, f, ring, roots, NULL) && n in f.kids
    ensures n in m.links.next && n in m.links.prev && n in ring
    ensures var l, rs := Unlink(m.links, n), RootsWithout(f, roots, n);
            && IsRing(l, [ROOT] + rs) && ROOT in l.next
            && (forall x :: x in rs <==> x in roots && x != n)
            && (ring[n] != [] ==> CutPre(l, ring[n], rs))
            && forall x | x in f.kids && x != n && x in ring && RingWithout(ring[x], n) != [] ::
               IsRing(l, RingWithout(ring[x], n))
    ensures n in f.up ==> f.up[n] in ring && n in ring[f.up[n]]
    ensures n in f.up && |ring[f.up[n]]| > 1 ==> Unlink(m.links, n).next[n] == First(RingWithout(ring[f.up[n]], n))
  {
    assert NodeOk(m, f, ring, n);
    RootsApart(m, f, ring, roots, n);
    if n in f.up {
      UnlinkChild(m, f, ring, roots, n);
    } else {
      var i := Index(roots, n);
      UnlinkRoot(m, f, ring, roots, i);
      RemoveRootsNoDup(m.links, roots, i);
    }
    var l, rs := Unlink(m.links, n), RootsWithout(f, roots, n);
    assert LinkedAt(l, [ROOT] + rs, 0);
    UpInKids(f, n);
    forall x | x in f.kids && x != n && x in ring && RingWithout(ring[x], n) != []
      ensures IsRing(l, RingWithout(ring[x], n))
    {
      KidsOf(m, f, ring, x, n);
    }
    forall c | c in ring[n] ensures c !in [ROOT] + rs { KidsOf(m, f, ring, n, c); }
  }

  /** Unlinking n and cutting its children leaves the forest without n. */
  lemma DropLinks(m: Memory, f: Forest, ring: map<Ptr, seq<Ptr>>, roots: seq<Ptr>, n: Ptr, m2: Memory)
    requires Rep(m, f, ring, roots, NULL) && Thick(f, NULL) && n in f.kids
    requires n in m.links.next && n in m.links.prev && n in ring && ROOT in Unlink(m.links, n).next
    requires m2.chld == m.chld && m2.defl == m.defl
    requires m2.links == CutLinks(Unlink(m.links, n), ring[n], |ring[n]|)
    requires forall x | x in m.pare :: x in m2.pare && m2.pare[x] == (if x in ring[n] then NULL else m.pare[x])
    ensures Rep(m2, Drop(f, n), RingsAfterDrop(f, ring, n), Rev(ring[n]) + RootsWithout(f, roots, n), ParentOf(f, n))
    ensures Thick(Drop(f, n), ParentOf(f, n))
  {
    hide Rep, Thick, IsRing, Shape, CutPre, Drop, RingsAfterDrop;
    UnlinkForDrop(m, f, ring, roots, n);
    DropPare(m, f, ring, roots, n, m2);
    var l, rs, s := Unlink(m.links, n), RootsWithout(f, roots, n), ring[n];
    var roots2 := Rev(s) + rs;
    RevMembers(s);
    if s == [] {
      assert roots2 == rs;
    } else {
      CutLinksRing(l, s, rs, |s|);
      assert s[..|s|] == s;
    }
    forall x | x in f.kids && x != n && x in ring && RingWithout(ring[x], n) != []
      ensures IsRing(m2.links, RingWithout(ring[x], n))
    {
      if s != [] {
        DropApart(m, f, ring, roots, n, x);
        CutLinksFrame(l, s, rs, |s|, RingWithout(ring[x], n));
      }
    }
    DropRep(m, m2, f, ring, roots, roots2, n);
  }

  lemma DropPare(m: Memory, f: Forest, ring: map<Ptr, seq<Ptr>>, roots: seq<Ptr>, n: Ptr, m2: Memory)
    requires Rep(m, f, ring, roots, NULL) && n in ring
    requires forall x | x in m.pare :: x in m2.pare && m2.pare[x] == (if x in ring[n] then NULL else m.pare[x])
    ensures forall x | x in f.kids && x != n
              :: x in m2.pare && m2.pare[x] == (if x in ring[n] then NULL else ParentOf(f, x))
  {
    forall x | x in f.kids && x != n
      ensures x in m2.pare && m2.pare[x] == (if x in ring[n] then NULL else ParentOf(f, x))
    {
      assert NodeOk(m, f, ring, x);
    }
  }

  lemma DropApart(m: Memory, f: Forest, ring: map<Ptr, seq<Ptr>>, roots: seq<Ptr>, n: Ptr, x: Ptr)
    requires Rep(m, f, ring, roots, NULL) && n in f.kids && x in f.kids && x != n && x in ring && n in ring
    ensures Apart(ring[n], RingWithout(ring[x], n))
    ensures Apart([ROOT] + RootsWithout(f, roots, n), RingWithout(ring[x], n))
  {
    RingsApart(m, f, ring, roots, x, n);
    KidsOf(m, f, ring, x, n);
    if n in ring[x] {
      RestMembers(ring[x], Index(ring[x], n));
    }
    forall c | c in RootsWithout(f, roots, n) ensures c in [ROOT] + roots { }
  }
}
