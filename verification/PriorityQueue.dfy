/** The priority queue of TreeMatch: a Fibonacci tree whose nodes are queue
    elements, plus an index from values to elements.  Greatest key first. */
module PriorityQueues {
  import opened SiblingRing
  import opened FiboForest
  import opened FiboMemory
  import opened QueueSpec

  class PriorityQueue {
    /** Number of values the index can hold. */
    const size: nat
    /** Node fields of all queue elements. */
    var mem: Memory
    /** Consolidation table: the root found so far for each degree. */
    var degrtab: seq<Ptr>
    /** Element fields. */
    var key: map<Ptr, real>
    var value: map<Ptr, int>
    var isInQueue: map<Ptr, bool>
    /** `elements[v]` is the element that holds value v. */
    var elements: seq<Ptr>
    /** Addresses from here on are free. */
    var top: Ptr

    ghost var forest: Forest
    ghost var ring: map<Ptr, seq<Ptr>>
    ghost var roots: seq<Ptr>

    /** The tree part of the invariant. */
    ghost predicate TreeOk()
      reads this
    {
      Rep(mem, forest, ring, roots, NULL) && Thick(forest, NULL)
    }

    ghost predicate TableClear()
      reads this
    {
      |degrtab| == CELLS && forall d :: 0 <= d < CELLS ==> degrtab[d] == NULL
    }

    ghost predicate AllocOk()
      reads this
    {
      top > ROOT && forall p | p in forest.kids || p in key || p in value :: ROOT < p < top
    }

    ghost predicate Valid()
      reads this
    {
      && TreeOk() && TableClear() && Ordered(forest, key) && AllocOk()
      && |elements| == size
      && IndexOk(forest.kids.Keys, elements, key, value, isInQueue)
    }

    /** What the queue means: the key of every value in it. */
    ghost function Contents(): map<int, real>
      reads this
    {
      ContentsOf(elements, key)
    }

    // ---------- Queue operations ----------

    /** `PQ_init` */
    constructor (capacity: nat)
      ensures Valid() && size == capacity && Contents() == map[]
    {
      size := capacity;
      elements := seq(capacity, _ => NULL);
      degrtab := seq(CELLS, _ => NULL);
      mem := Memory(Links(map[ROOT := ROOT], map[ROOT := ROOT]), map[], map[], map[]);
      key, value, isInQueue, top := map[], map[], map[], ROOT + 1;
      forest, ring, roots := Forest(map[], map[], map[], map[]), map[], [];
      new;
      assert LinkedAt(mem.links, [ROOT], 0);
      assert [ROOT] + roots == [ROOT];
    }

    /** `PQ_isEmpty`: the dummy node is its own neighbour. */
    method IsEmpty() returns (empty: bool)
      requires Valid()
      ensures empty <==> Contents() == map[]
    {
      RootsNext(mem, forest, ring, roots, 0);
      empty := mem.links.next[ROOT] == ROOT;
      NoRootsNoNodes(forest, key, roots);
      EmptyIndex(forest.kids.Keys, elements, key, value, isInQueue);
      if roots != [] {
        assert roots[0] in roots;
      }
    }

    /** `PQ_insertElement` */
    method InsertElement(e: Ptr)
      requires Valid() && e !in forest.kids && e in key && e in value && e != NULL && e != ROOT
      requires value[e] !in Contents()
      modifies this`mem, this`forest, this`ring, this`roots, this`elements, this`isInQueue
      ensures Valid() && forest.kids.Keys <= old(forest.kids.Keys) + {e}
      ensures Contents() == if 0 <= value[e] < size then old(Contents())[value[e] := key[e]] else old(Contents())
      ensures elements == if 0 <= value[e] < size then old(elements)[value[e] := e] else old(elements)
    {
      hide Rep, Thick, Ordered, IndexOk, ContentsOf, Plant;
      ContentsRange(elements, key, value[e]);
      if value[e] >= 0 && value[e] < size {
        IndexInsert(forest.kids.Keys, elements, key, value, isInQueue, e);
        PlantOrdered(forest, key, e);
        TreeAdd(e);
        elements := elements[value[e] := e];
        isInQueue := isInQueue[e := true];
      }
    }

    /** `PQ_deleteElement`: the element stays allocated. */
    method DeleteElement(e: Ptr)
      requires Valid() && e in forest.kids
      modifies this`mem, this`forest, this`ring, this`roots, this`elements, this`isInQueue
      ensures Valid() && forest.kids.Keys == old(forest.kids.Keys) - {e}
      ensures e in key && e in value && value[e] in old(Contents()) && old(Contents())[value[e]] == key[e]
      ensures 0 <= value[e] < size == |old(elements)| && old(elements)[value[e]] == e
      ensures Contents() == old(Contents()) - {value[e]} && elements == old(elements)[value[e] := NULL]
    {
      hide Rep, Thick, Ordered, IndexOk, ContentsOf;
      IndexDelete(forest.kids.Keys, elements, key, value, isInQueue, e);
      TreeDel(e);
      OrderedBelow(old(forest), forest, key);
      elements := elements[value[e] := NULL];
      isInQueue := isInQueue[e := false];
    }

    /** `PQ_insert`: values out of range are ignored. */
    method Insert(val: int, k: real)
      requires Valid() && val !in Contents()
      modifies this
      ensures Valid()
      ensures Contents() == if 0 <= val < size then old(Contents())[val := k] else old(Contents())
      ensures 0 <= val < size ==> |elements| == size && elements[val] !in old(key) && elements[val] !in old(value)
      ensures 0 <= val < size ==> key == old(key)[elements[val] := k] && value == old(value)[elements[val] := val]
      ensures !(0 <= val < size) ==> key == old(key) && value == old(value) && elements == old(elements)
    {
      hide Rep, Thick, Ordered, IndexOk, ContentsOf;
      ContentsRange(elements, key, val);
      if val >= 0 && val < size {
        var e := top;
        OrderedAllocate(mem, forest, ring, roots, key, e, k);
        IndexAllocate(forest.kids.Keys, elements, key, value, isInQueue, e, val, k);
        top := top + 1;
        value := value[e := val];
        key := key[e := k];
        InsertElement(e);
      }
    }

    /** `PQ_delete` */
    method Delete(val: int)
      requires Valid() && val in Contents()
      modifies this
      ensures Valid()
      ensures Contents() == old(Contents()) - {val}
      ensures 0 <= val < |old(elements)| && Freed(old(key), old(value), old(elements)[val])
    {
      IndexedAt(forest.kids.Keys, elements, key, value, isInQueue, val);
      var e := elements[val];
      DeleteElement(e);
      Free(e);
    }

    /** The element is allocated no longer, and no other is affected. */
    ghost predicate Freed(wasKey: map<Ptr, real>, wasValue: map<Ptr, int>, e: Ptr)
      reads this
    {
      key == wasKey - {e} && value == wasValue - {e} && e !in isInQueue
    }

    method Free(e: Ptr)
      requires Valid() && e !in forest.kids
      modifies this`key, this`value, this`isInQueue
      ensures Valid() && Contents() == old(Contents()) && Freed(old(key), old(value), e)
    {
      hide Rep, Thick, Ordered, IndexOk, ContentsOf;
      OrderedFree(mem, forest, ring, roots, key, e);
      IndexFree(forest.kids.Keys, elements, key, value, isInQueue, e);
      key, value, isInQueue := key - {e}, value - {e}, isInQueue - {e};
    }

    /** `PQ_findMaxElement`: consolidates the tree but changes no contents. */
    method FindMaxElement() returns (e: Ptr)
      requires Valid() && |Contents()| < LIMIT
      modifies this`mem, this`degrtab, this`forest, this`ring, this`roots
      ensures Valid() && Contents() == old(Contents()) && forest.kids.Keys == old(forest.kids.Keys)
      ensures e == NULL <==> Contents() == map[]
      ensures e != NULL ==> e in forest.kids && e in key && e in value
      ensures e != NULL ==> value[e] in Contents() && Contents()[value[e]] == key[e]
      ensures e != NULL ==> forall v | v in Contents() :: Contents()[v] <= key[e]
    {
      hide Rep, Thick, Ordered, IndexOk, ContentsOf;
      IndexSize(forest.kids.Keys, elements, key, value, isInQueue);
      EmptyIndex(forest.kids.Keys, elements, key, value, isInQueue);
      e := Consolidate();
    }

    /** `PQ_findMaxKey` */
    method FindMaxKey() returns (k: real)
      requires Valid() && |Contents()| < LIMIT
      modifies this`mem, this`degrtab, this`forest, this`ring, this`roots
      ensures Valid() && Contents() == old(Contents())
      ensures k == MaxKey(Contents())
    {
      hide Rep, Thick, IndexOk, ContentsOf;
      var e := FindMaxElement();
      if e != NULL {
        MaxKeyIs(Contents(), value[e]);
        k := key[e];
      } else {
        k := 0.0;
      }
    }

    /** `PQ_deleteMax` */
    method DeleteMax() returns (res: int)
      requires Valid() && |Contents()| < LIMIT
      modifies this
      ensures Valid()
      ensures old(Contents()) == map[] ==> res == -1 && Contents() == map[]
      ensures old(Contents()) != map[] ==>
          res in old(Contents()) && IsMax(old(Contents()), res) && Contents() == old(Contents()) - {res}
      ensures old(Contents()) != map[] ==>
          0 <= res < |old(elements)| && Freed(old(key), old(value), old(elements)[res])
      ensures old(Contents()) == map[] ==> key == old(key) && value == old(value)
    {
      hide Rep, Thick, IndexOk, ContentsOf;
      var e := FindMaxElement();
      res := -1;
      if e != NULL {
        DeleteElement(e);
        res := value[e];
        Free(e);
      }
    }

    /** `PQ_adjustElementKey`: take the element out, change its key, put it back; an element that is in no queue is left
        alone. */
    method ChangeElementKey(e: Ptr, k: real)
      requires Valid() && e in isInQueue && e in value && (isInQueue[e] <==> e in forest.kids)
      modifies this
      ensures Valid() && Contents() == if e in old(forest.kids) then old(Contents())[old(value)[e] := k]
          else old(Contents())
    {
      hide Rep, Thick, Ordered, IndexOk, ContentsOf;
      if isInQueue[e] {
        IndexDelete(forest.kids.Keys, elements, key, value, isInQueue, e);
        IndexedAt(forest.kids.Keys, elements, key, value, isInQueue, value[e]);
        DeleteElement(e);
        OrderedAllocate(mem, forest, ring, roots, key, e, k);
        IndexRekey(forest.kids.Keys, elements, key, value, isInQueue, e, k);
        key := key[e := k];
        InsertElement(e);
      }
    }

    /** `PQ_adjustKey` */
    method AdjustKey(val: int, k: real)
      requires Valid() && 0 <= val < size
      modifies this
      ensures Valid()
      ensures Contents() == if val in old(Contents()) then old(Contents())[val := k] else old(Contents())
    {
      var e := elements[val];
      if e != NULL {
        IndexedAt(forest.kids.Keys, elements, key, value, isInQueue, val);
        ChangeElementKey(e, k);
      }
    }

    /** `PQ_increaseKey` */
    method IncreaseKey(val: int, delta: real)
      requires Valid() && 0 <= val < size
      modifies this
      ensures Valid()
      ensures Contents() == if val in old(Contents()) then old(Contents())[val := old(Contents())[val] + delta]
          else old(Contents())
    {
      var e := elements[val];
      if e != NULL {
        IndexedAt(forest.kids.Keys, elements, key, value, isInQueue, val);
        ChangeElementKey(e, key[e] + delta);
      }
    }

    /** `PQ_decreaseKey` */
    method DecreaseKey(val: int, delta: real)
      requires Valid() && 0 <= val < size
      modifies this
      ensures Valid()
      ensures Contents() == if val in old(Contents()) then old(Contents())[val := old(Contents())[val] - delta]
          else old(Contents())
    {
      var e := elements[val];
      if e != NULL {
        IndexedAt(forest.kids.Keys, elements, key, value, isInQueue, val);
        ChangeElementKey(e, key[e] - delta);
      }
    }

    // ---------- The Fibonacci tree ----------

    /** `fiboTreeAddMacro` */
    method TreeAdd(n: Ptr)
      requires TreeOk() && n !in forest.kids && n != NULL && n != ROOT
      modifies this`mem, this`forest, this`ring, this`roots
      ensures TreeOk()
      ensures forest == Plant(old(forest), n) && roots == [n] + old(roots)
    {
      AddNodeRep(mem, forest, ring, roots, n);
      mem := mem.(pare := mem.pare[n := NULL]);
      mem := mem.(chld := mem.chld[n := NULL]);
      mem := mem.(defl := mem.defl[n := 0]);
      mem := mem.(links := LinkAfter(mem.links, ROOT, n));
      forest, ring, roots := Plant(forest, n), ring[n := []], [n] + roots;
    }

    /** `fiboTreeCutChildren`: every child of n, in ring order, becomes a root. */
    method CutChildren(n: Ptr, ghost s: seq<Ptr>, ghost rs: seq<Ptr>)
      requires n in mem.chld && mem.chld[n] == First(s) && NULL !in s && ROOT in mem.links.next
      requires s != [] ==> CutPre(mem.links, s, rs)
      modifies this`mem
      ensures mem.links == CutLinks(old(mem.links), s, |s|)
      ensures mem.chld == old(mem.chld) && mem.defl == old(mem.defl)
      ensures forall x | x in old(mem.pare) :: x in mem.pare && mem.pare[x] == if x in s then NULL else old(mem.pare)[x]
    {
      var chldptr := mem.chld[n];
      if chldptr != NULL {
        var cendptr := chldptr;
        ghost var l0, t := mem.links, 0;
        var more := true;
        while more
          invariant t <= |s| && s != [] && (more <==> t < |s|)
          invariant chldptr == if t < |s| then s[t] else s[0]
          invariant mem.links == CutLinks(l0, s, t)
          invariant mem.chld == old(mem.chld) && mem.defl == old(mem.defl)
          invariant forall x | x in old(mem.pare) ::
              x in mem.pare && mem.pare[x] == if x in s[..t] then NULL else old(mem.pare)[x]
          decreases |s| - t
        {
          assert chldptr !in s[..t] by {
            forall j: nat | j < t ensures s[j] != chldptr { DistinctAt(s, j, t); }
          }
          assert LinkedAt(l0, s, t) && s[t] in s && ROOT in [ROOT] + rs;
          CutLinksNext(l0, s, t, s[t]);
          var nextptr := mem.links.next[chldptr];
          mem := mem.(pare := mem.pare[chldptr := NULL]);
          mem := mem.(links := LinkAfter(mem.links, ROOT, chldptr));
          chldptr := nextptr;
          assert s[..t + 1] == s[..t] + [s[t]];
          t := t + 1;
          if t < |s| { DistinctAt(s, 0, t); }
          more := chldptr != cendptr;
        }
        assert s[..|s|] == s;
      }
    }

    /** `fiboTreeDelMacro`: unlink n, cut its children, then cascade towards the root. */
    method TreeDel(n: Ptr)
      requires TreeOk() && n in forest.kids
      modifies this`mem, this`forest, this`ring, this`roots
      ensures TreeOk()
      ensures forest.kids.Keys == old(forest.kids.Keys) - {n}
      ensures forall c | c in forest.up :: c in old(forest.up) && forest.up[c] == old(forest.up)[c]
    {
      hide Rep, Thick, Shape, IsRing, CutPre, CutLinks, Rev, RingsAfterDrop;
      ghost var m0, f0, ring0, roots0 := mem, forest, ring, roots;
      UnlinkForDrop(m0, f0, ring0, roots0, n);
      BeforeDrop(m0, f0, ring0, roots0, n);
      var pareptr := mem.pare[n];
      mem := mem.(links := Unlink(mem.links, n));
      CutChildren(n, ring0[n], RootsWithout(f0, roots0, n));
      DropLinks(m0, f0, ring0, roots0, n, mem);
      forest, ring, roots := Drop(f0, n), RingsAfterDrop(f0, ring0, n), Rev(ring0[n]) + RootsWithout(f0, roots0, n);
      if pareptr == NULL {
        return;
      }
      ghost var l1 := Unlink(m0.links, n);
      AfterDrop(m0, f0, ring0, roots0, n);
      CutLinksNext(l1, ring0[n], |ring0[n]|, n);
      var rghtptr := mem.links.next[n];
      Cascade(pareptr, rghtptr);
    }

    /** The loop of `fiboTreeDelMacro`: `pareptr` has just lost the child before `rghtptr`. */
    method Cascade(p: Ptr, r: Ptr)
      requires Rep(mem, forest, ring, roots, p) && Thick(forest, p) && p in forest.kids && p in ring
      requires Shape(forest) && p in forest.mark
      requires p in mem.defl && mem.defl[p] == 2 * (|forest.kids[p]| + 1) + Bit(forest.mark[p])
      requires ring[p] != [] ==> r == ring[p][0]
      modifies this`mem, this`forest, this`ring, this`roots
      ensures TreeOk()
      ensures forest.kids.Keys == old(forest.kids.Keys)
      ensures forall c | c in forest.up :: c in old(forest.up) && forest.up[c] == old(forest.up)[c]
    {
      hide Rep, Thick, Shape, Above, Sever, RingsAfterSever, LinkAfter, Unlink, SetLow;
      var pareptr, rghtptr := p, r;
      while true
        invariant Rep(mem, forest, ring, roots, pareptr) && Thick(forest, pareptr) && pareptr in forest.kids
            && pareptr in ring
        invariant Shape(forest) && pareptr in forest.mark
        invariant pareptr in mem.defl
            && mem.defl[pareptr] == 2 * (|forest.kids[pareptr]| + 1) + Bit(forest.mark[pareptr])
        invariant ring[pareptr] != [] ==> rghtptr == ring[pareptr][0]
        invariant forest.kids.Keys == old(forest.kids.Keys)
        invariant forall c | c in forest.up :: c in old(forest.up) && forest.up[c] == old(forest.up)[c]
        decreases |Above(forest, pareptr)|
      {
        MarkStep(mem, forest, ring, roots, pareptr, rghtptr);
        var deflval := mem.defl[pareptr] - 2;
        mem := mem.(defl := mem.defl[pareptr := SetLow(deflval)]);
        var gdpaptr := mem.pare[pareptr];
        mem := mem.(chld := mem.chld[pareptr := if deflval <= 1 then NULL else rghtptr]);
        if deflval % 2 == 0 || gdpaptr == NULL {
          forest := SetMark(forest, pareptr);
          break;
        }
        SeverStep(mem, forest, ring, roots, pareptr);
        rghtptr := mem.links.next[pareptr];
        mem := mem.(links := Unlink(mem.links, pareptr));
        mem := mem.(pare := mem.pare[pareptr := NULL]);
        mem := mem.(links := LinkAfter(mem.links, ROOT, pareptr));
        forest, ring, roots := Sever(forest, pareptr), RingsAfterSever(ring, pareptr), [pareptr] + roots;
        pareptr := gdpaptr;
      }
    }

    /** `compFunc`: negative when the first node has the greater key. */
    function Compare(a: Ptr, b: Ptr): int
      reads this
      requires a in key && b in key
    {
      if key[a] > key[b] then -1 else 1
    }

    /** `fiboTreeConsolidate`: link roots of equal degree until all degrees differ, then return the best. */
    method Consolidate() returns (bestptr: Ptr)
      requires TreeOk() && TableClear() && Ordered(forest, key) && |forest.kids| < LIMIT
      modifies this`mem, this`degrtab, this`forest, this`ring, this`roots
      ensures TreeOk() && TableClear() && Ordered(forest, key)
      ensures forest.kids.Keys == old(forest.kids.Keys)
      ensures bestptr == NULL <==> forest.kids.Keys == {}
      ensures bestptr != NULL ==> bestptr in forest.kids && forall n | n in forest.kids :: key[n] <= key[bestptr]
      ensures DegreesDiffer(forest, roots)
    {
      var degrmax := LinkByDegree();
      InCells(forest, roots, degrtab, degrmax);
      bestptr := BestRoot(degrmax);
      BestOverall(forest, key, roots, bestptr);
    }

    /** First loop of `fiboTreeConsolidate`. */
    method LinkByDegree() returns (degrmax: nat)
      requires TreeOk() && TableClear() && Ordered(forest, key) && |forest.kids| < LIMIT
      modifies this`mem, this`degrtab, this`forest, this`ring, this`roots
      ensures TreeOk() && Ordered(forest, key)
      ensures forest.kids.Keys == old(forest.kids.Keys)
      ensures degrmax < CELLS && Scan(forest, roots, degrtab, |roots|, ROOT, degrmax)
    {
      hide Rep, Thick, Shape, Scan, Ordered, IsRing;
      degrmax := 0;
      ScanStart(mem, forest, ring, roots, degrtab);
      var rootptr := mem.links.next[ROOT];
      var nextptr := mem.links.next[rootptr];
      ghost var i: nat := if roots == [] then 0 else 1;
      while rootptr != ROOT
        invariant Rep(mem, forest, ring, roots, NULL) && Thick(forest, NULL) && Ordered(forest, key)
        invariant forest.kids.Keys == old(forest.kids.Keys)
        invariant degrmax < CELLS && i <= |roots| && |degrtab| == CELLS
        invariant Scan(forest, roots, degrtab, i, rootptr, degrmax)
        invariant rootptr != ROOT ==> nextptr == if i < |roots| then roots[i] else ROOT
        invariant rootptr == ROOT ==> i == |roots|
        decreases 2 * |roots| - i, rootptr != ROOT
      {
        Current(mem, forest, ring, roots, degrtab, i, rootptr, degrmax, key);
        var degrval := mem.defl[rootptr] / 2;
        if degrtab[degrval] == NULL {
          ghost var before := degrmax;
          if degrval > degrmax {
            degrmax := degrval;
          }
          ScanRecord(mem, forest, ring, roots, degrtab, i, rootptr, before, degrmax);
          degrtab := degrtab[degrval := rootptr];
          rootptr := nextptr;
          nextptr := mem.links.next[rootptr];
          i := if i < |roots| then i + 1 else i;
        } else {
          var oldrptr := degrtab[degrval];
          if Compare(oldrptr, rootptr) <= 0 {
            oldrptr := rootptr;
            rootptr := degrtab[degrval];
          }
          LinkRoots(oldrptr, rootptr, degrval, i, degrmax);
          i := i - 1;
        }
      }
    }

    /** The linking branch of the first loop: `oldrptr` becomes a child of `rootptr`. */
    method LinkRoots(oldrptr: Ptr, rootptr: Ptr, degrval: nat, ghost i: nat, ghost degrmax: nat)
      requires TreeOk() && Ordered(forest, key)
      requires oldrptr in roots && rootptr in roots && oldrptr != rootptr && oldrptr in key && rootptr in key
      requires oldrptr in forest.kids && rootptr in forest.kids
      requires |forest.kids[oldrptr]| == |forest.kids[rootptr]| == degrval < CELLS == |degrtab|
      requires key[oldrptr] <= key[rootptr]
      requires (Scan(forest, roots, degrtab, i, oldrptr, degrmax) && degrtab[degrval] == rootptr)
            || (Scan(forest, roots, degrtab, i, rootptr, degrmax) && degrtab[degrval] == oldrptr)
      modifies this`mem, this`degrtab, this`forest, this`ring, this`roots
      ensures TreeOk() && Ordered(forest, key)
      ensures forest.kids.Keys == old(forest.kids.Keys) && |roots| == |old(roots)| - 1
      ensures 0 < i <= |old(roots)| && roots[i - 1..] == old(roots)[i..]
      ensures |degrtab| == CELLS && Scan(forest, roots, degrtab, i - 1, rootptr, degrmax)
    {
      hide Rep, Thick, Shape, Scan, Ordered, IsRing, GraftPre, GraftNode, CanGraft;
      ghost var j := Index(roots, oldrptr);
      ReadyToGraft(mem, forest, ring, roots, j, rootptr);
      GraftRep(mem, forest, ring, roots, j, rootptr);
      GraftScan(mem, forest, roots, degrtab, i, j, rootptr, degrmax);
      GraftOrdered(forest, key, oldrptr, rootptr);
      degrtab := degrtab[degrval := NULL];
      mem := GraftNode(mem, oldrptr, rootptr);
      forest, ring, roots := Graft(forest, oldrptr, rootptr), ring[rootptr := RingWith(ring[rootptr], oldrptr)],
          RemoveAt(roots, j);
    }

    /** Last loops of `fiboTreeConsolidate`: the best recorded root, and a clean table. */
    method BestRoot(degrmax: nat) returns (bestptr: Ptr)
      requires degrmax < CELLS && Scan(forest, roots, degrtab, |roots|, ROOT, degrmax)
      requires NULL !in roots && ROOT !in roots && forall x | x in roots :: x in key
      modifies this`degrtab
      ensures TableClear()
      ensures bestptr == NULL <==> roots == []
      ensures bestptr != NULL ==> bestptr in roots && forall x | x in roots :: key[x] <= key[bestptr]
    {
      ghost var tab := degrtab;
      bestptr := NULL;
      var degrval := 0;
      while degrval <= degrmax
        invariant 0 <= degrval <= degrmax + 1
        invariant |degrtab| == CELLS && forall d | 0 <= d < CELLS :: degrtab[d] == tab[d]
        invariant bestptr == NULL && forall d | 0 <= d < degrval :: tab[d] == NULL
      {
        if degrtab[degrval] != NULL {
          bestptr := degrtab[degrval];
          degrtab := degrtab[degrval := NULL];
          degrval := degrval + 1;
          break;
        }
        degrval := degrval + 1;
      }
      while degrval <= degrmax
        invariant 0 <= degrval <= degrmax + 1
        invariant |degrtab| == CELLS
        invariant forall d | 0 <= d < CELLS :: degrtab[d] == if d < degrval then NULL else tab[d]
        invariant bestptr == NULL ==> forall d | 0 <= d < degrval :: tab[d] == NULL
        invariant bestptr != NULL ==> bestptr in roots
        invariant bestptr != NULL ==>
            forall d | 0 <= d < degrval && tab[d] != NULL :: tab[d] in key && key[tab[d]] <= key[bestptr]
        invariant bestptr == NULL ==> degrval == degrmax + 1
      {
        if degrtab[degrval] != NULL {
          if Compare(degrtab[degrval], bestptr) < 0 {
            bestptr := degrtab[degrval];
          }
          degrtab := degrtab[degrval := NULL];
        }
        degrval := degrval + 1;
      }
      RootsInTable(forest, roots, tab, degrmax);
    }
  }

  // ---------- The index from values to elements ----------

  ghost function ContentsOf(elements: seq<Ptr>, key: map<Ptr, real>): map<int, real>
  {
    map v | 0 <= v < |elements| && elements[v] != NULL && elements[v] in key :: key[elements[v]]
  }

  ghost predicate Indexed(n: Ptr, elements: seq<Ptr>, key: map<Ptr, real>, value: map<Ptr, int>,
                          inQueue: map<Ptr, bool>)
  {
    && n in key && n in value && n in inQueue && inQueue[n]
    && 0 <= value[n] < |elements| && elements[value[n]] == n
  }

  ghost predicate Filed(nodes: set<Ptr>, elements: seq<Ptr>, value: map<Ptr, int>, v: nat)
    requires v < |elements|
  {
    elements[v] != NULL ==> elements[v] in nodes && elements[v] in value && value[elements[v]] == v
  }

  /** The index and the tree hold the same elements. */
  ghost predicate IndexOk(nodes: set<Ptr>, elements: seq<Ptr>, key: map<Ptr, real>, value: map<Ptr, int>,
                          inQueue: map<Ptr, bool>)
  {
    && NULL !in nodes
    && (forall n | n in nodes :: Indexed(n, elements, key, value, inQueue))
    && (forall v: nat | v < |elements| :: Filed(nodes, elements, value, v))
  }

  lemma IndexedAt(nodes: set<Ptr>, elements: seq<Ptr>, key: map<Ptr, real>, value: map<Ptr, int>,
                  inQueue: map<Ptr, bool>, v: int)
    requires IndexOk(nodes, elements, key, value, inQueue) && 0 <= v < |elements|
    ensures v in ContentsOf(elements, key) <==> elements[v] != NULL
    ensures elements[v] != NULL ==>
        elements[v] in nodes && elements[v] in value && value[elements[v]] == v && elements[v] in key
                                    && elements[v] in inQueue && inQueue[elements[v]]
  {
    assert Filed(nodes, elements, value, v);
    if elements[v] != NULL {
      assert Indexed(elements[v], elements, key, value, inQueue);
    }
  }

  lemma EmptyIndex(nodes: set<Ptr>, elements: seq<Ptr>, key: map<Ptr, real>, value: map<Ptr, int>,
                   inQueue: map<Ptr, bool>)
    requires IndexOk(nodes, elements, key, value, inQueue)
    ensures nodes == {} <==> ContentsOf(elements, key) == map[]
    ensures forall n | n in nodes ::
        n in value && n in key && value[n] in ContentsOf(elements, key) && ContentsOf(elements, key)[value[n]] == key[n]
    ensures forall v | v in ContentsOf(elements, key) ::
        elements[v] in nodes && elements[v] in key && ContentsOf(elements, key)[v] == key[elements[v]]
  {
    forall n | n in nodes
      ensures n in value && n in key && value[n] in ContentsOf(elements, key)
          && ContentsOf(elements, key)[value[n]] == key[n]
    {
      assert Indexed(n, elements, key, value, inQueue);
    }
    forall v | v in ContentsOf(elements, key) ensures elements[v] in nodes {
      assert Filed(nodes, elements, value, v);
    }
  }

  lemma IndexInsert(nodes: set<Ptr>, elements: seq<Ptr>, key: map<Ptr, real>, value: map<Ptr, int>,
                    inQueue: map<Ptr, bool>, e: Ptr)
    requires IndexOk(nodes, elements, key, value, inQueue)
    requires e !in nodes && e != NULL && e in key && e in value && 0 <= value[e] < |elements|
        && value[e] !in ContentsOf(elements, key)
    ensures IndexOk(nodes + {e}, elements[value[e] := e], key, value, inQueue[e := true])
    ensures ContentsOf(elements[value[e] := e], key) == ContentsOf(elements, key)[value[e] := key[e]]
  {
    var v := value[e];
    var els, q := elements[v := e], inQueue[e := true];
    IndexedAt(nodes, elements, key, value, inQueue, v);
    forall n | n in nodes + {e} ensures Indexed(n, els, key, value, q) {
      if n != e { assert Indexed(n, elements, key, value, inQueue); }
    }
    forall w: nat | w < |els| ensures Filed(nodes + {e}, els, value, w) {
      assert Filed(nodes, elements, value, w);
    }
  }

  lemma IndexDelete(nodes: set<Ptr>, elements: seq<Ptr>, key: map<Ptr, real>, value: map<Ptr, int>,
                    inQueue: map<Ptr, bool>, e: Ptr)
    requires IndexOk(nodes, elements, key, value, inQueue) && e in nodes
    ensures e in key && e in value && 0 <= value[e] < |elements| && elements[value[e]] == e
        && value[e] in ContentsOf(elements, key) && ContentsOf(elements, key)[value[e]] == key[e]
    ensures IndexOk(nodes - {e}, elements[value[e] := NULL], key, value, inQueue[e := false])
    ensures ContentsOf(elements[value[e] := NULL], key) == ContentsOf(elements, key) - {value[e]}
  {
    assert Indexed(e, elements, key, value, inQueue);
    var v := value[e];
    var els, q := elements[v := NULL], inQueue[e := false];
    forall n | n in nodes - {e} ensures Indexed(n, els, key, value, q) {
      assert Indexed(n, elements, key, value, inQueue);
    }
    forall w: nat | w < |els| ensures Filed(nodes - {e}, els, value, w) {
      assert Filed(nodes, elements, value, w);
    }
  }

  lemma IndexAllocate(nodes: set<Ptr>, elements: seq<Ptr>, key: map<Ptr, real>, value: map<Ptr, int>,
                      inQueue: map<Ptr, bool>, e: Ptr, val: int, k: real)
    requires IndexOk(nodes, elements, key, value, inQueue) && e !in nodes && e !in key && e !in value && e != NULL
    ensures IndexOk(nodes, elements, key[e := k], value[e := val], inQueue)
    ensures ContentsOf(elements, key[e := k]) == ContentsOf(elements, key)
  {
    var key2, value2 := key[e := k], value[e := val];
    forall n | n in nodes ensures Indexed(n, elements, key2, value2, inQueue) {
      assert Indexed(n, elements, key, value, inQueue);
    }
    forall w: nat | w < |elements| ensures Filed(nodes, elements, value2, w) && elements[w] != e {
      assert Filed(nodes, elements, value, w);
    }
  }

  lemma IndexRekey(nodes: set<Ptr>, elements: seq<Ptr>, key: map<Ptr, real>, value: map<Ptr, int>,
                   inQueue: map<Ptr, bool>, e: Ptr, k: real)
    requires IndexOk(nodes, elements, key, value, inQueue) && e !in nodes && e in key
    ensures IndexOk(nodes, elements, key[e := k], value, inQueue)
    ensures ContentsOf(elements, key[e := k]) == ContentsOf(elements, key)
  {
    forall n | n in nodes ensures Indexed(n, elements, key[e := k], value, inQueue) {
      assert Indexed(n, elements, key, value, inQueue);
    }
    forall w: nat | w < |elements| ensures elements[w] != e || e == NULL {
      assert Filed(nodes, elements, value, w);
    }
  }

  lemma IndexFree(nodes: set<Ptr>, elements: seq<Ptr>, key: map<Ptr, real>, value: map<Ptr, int>,
                  inQueue: map<Ptr, bool>, e: Ptr)
    requires IndexOk(nodes, elements, key, value, inQueue) && e !in nodes
    ensures IndexOk(nodes, elements, key - {e}, value - {e}, inQueue - {e})
    ensures ContentsOf(elements, key - {e}) == ContentsOf(elements, key)
  {
    forall n | n in nodes ensures Indexed(n, elements, key - {e}, value - {e}, inQueue - {e}) {
      assert Indexed(n, elements, key, value, inQueue);
    }
    forall w: nat | w < |elements| ensures Filed(nodes, elements, value - {e}, w) && (elements[w] != e || e == NULL) {
      assert Filed(nodes, elements, value, w);
    }
  }

  /** There are as many nodes as values, as no two nodes hold one value and every value is held. */
  lemma IndexSize(nodes: set<Ptr>, elements: seq<Ptr>, key: map<Ptr, real>, value: map<Ptr, int>,
                  inQueue: map<Ptr, bool>)
    requires IndexOk(nodes, elements, key, value, inQueue)
    ensures |nodes| == |ContentsOf(elements, key)|
  {
    forall v | v in ContentsOf(elements, key).Keys
      ensures 0 <= v < |elements| && elements[v] in nodes && elements[v] in value && value[elements[v]] == v
    {
      assert Filed(nodes, elements, value, v);
    }
    InjectionBack(ContentsOf(elements, key).Keys, value, elements, nodes);
    forall n | n in nodes
      ensures n in value && value[n] in ContentsOf(elements, key).Keys && 0 <= value[n] < |elements|
          && elements[value[n]] == n
    {
      assert Indexed(n, elements, key, value, inQueue);
    }
    InjectionSize(nodes, value, elements, ContentsOf(elements, key).Keys);
  }

  lemma {:induction false} InjectionSize(nodes: set<Ptr>, value: map<Ptr, int>, elements: seq<Ptr>, vals: set<int>)
    requires forall n | n in nodes ::
        n in value && value[n] in vals && 0 <= value[n] < |elements| && elements[value[n]] == n
    ensures |nodes| <= |vals|
  {
    if nodes != {} {
      var n :| n in nodes;
      InjectionSize(nodes - {n}, value, elements, vals - {value[n]});
    }
  }

  lemma {:induction false} InjectionBack(vals: set<int>, value: map<Ptr, int>, elements: seq<Ptr>, nodes: set<Ptr>)
    requires forall v | v in vals ::
        0 <= v < |elements| && elements[v] in nodes && elements[v] in value && value[elements[v]] == v
    ensures |vals| <= |nodes|
  {
    if vals != {} {
      SomeMember(vals);
      var v :| v in vals;
      InjectionBack(vals - {v}, value, elements, nodes - {elements[v]});
    }
  }

  lemma ContentsRange(elements: seq<Ptr>, key: map<Ptr, real>, v: int)
    ensures v in ContentsOf(elements, key) ==> 0 <= v < |elements|
  {
  }

  lemma OrderedBelow(f: Forest, g: Forest, key: map<Ptr, real>)
    requires Ordered(f, key) && g.kids.Keys <= f.kids.Keys
    requires forall c | c in g.up :: c in f.up && g.up[c] == f.up[c]
    ensures Ordered(g, key)
  {
  }

  lemma OrderedAllocate(m: Memory, f: Forest, ring: map<Ptr, seq<Ptr>>, roots: seq<Ptr>, key: map<Ptr, real>, e: Ptr,
                        k: real)
    requires Rep(m, f, ring, roots, NULL) && Ordered(f, key) && e !in f.kids
    ensures Ordered(f, key[e := k])
  {
    forall c | c in f.up ensures c != e && f.up[c] != e { UpInKids(f, c); }
  }

  lemma OrderedFree(m: Memory, f: Forest, ring: map<Ptr, seq<Ptr>>, roots: seq<Ptr>, key: map<Ptr, real>, e: Ptr)
    requires Rep(m, f, ring, roots, NULL) && Ordered(f, key) && e !in f.kids
    ensures Ordered(f, key - {e})
  {
    forall c | c in f.up ensures c != e && f.up[c] != e { UpInKids(f, c); }
  }

  lemma PlantOrdered(f: Forest, key: map<Ptr, real>, n: Ptr)
    requires Ordered(f, key) && n in key
    ensures Ordered(Plant(f, n), key) && Plant(f, n).kids.Keys == f.kids.Keys + {n}
  {
  }

  // ---------- The consolidation scan ----------

  /** Of the roots in `roots[..i]`, all but the current one are recorded under their degree,
      and nothing else is recorded. */
  ghost predicate Scan(f: Forest, roots: seq<Ptr>, tab: seq<Ptr>, i: nat, cur: Ptr, degrmax: nat)
  {
    && |tab| == CELLS && i <= |roots| && degrmax < CELLS
    && (forall d | 0 <= d < CELLS && tab[d] != NULL ::
          d <= degrmax && tab[d] in roots[..i] && tab[d] != cur && tab[d] in f.kids && |f.kids[tab[d]]| == d)
    && (forall x | x in roots[..i] && x != cur :: x in f.kids && |f.kids[x]| < CELLS && tab[|f.kids[x]|] == x)
    && (cur != ROOT ==> cur in roots[..i])
    && (cur == ROOT ==> i == |roots|)
  }

  /** No two roots have equally many children. */
  ghost predicate DegreesDiffer(f: Forest, roots: seq<Ptr>)
  {
    && (forall x | x in roots :: x in f.kids)
    && forall x, y | x in roots && y in roots && x != y :: |f.kids[x]| != |f.kids[y]|
  }

  lemma InCells(f: Forest, roots: seq<Ptr>, tab: seq<Ptr>, degrmax: nat)
    requires Scan(f, roots, tab, |roots|, ROOT, degrmax) && ROOT !in roots
    ensures DegreesDiffer(f, roots)
  {
    assert roots[..|roots|] == roots;
  }

  lemma RootsInTable(f: Forest, roots: seq<Ptr>, tab: seq<Ptr>, degrmax: nat)
    requires Scan(f, roots, tab, |roots|, ROOT, degrmax) && NULL !in roots && ROOT !in roots
    ensures forall x | x in roots :: exists d :: 0 <= d <= degrmax && tab[d] == x
    ensures roots != [] ==> exists d :: 0 <= d <= degrmax && tab[d] != NULL
    ensures forall d | degrmax < d < CELLS :: tab[d] == NULL
  {
    assert roots[..|roots|] == roots;
    forall x | x in roots ensures exists d :: 0 <= d <= degrmax && tab[d] == x {
      assert tab[|f.kids[x]|] == x;
    }
    if roots != [] {
      assert roots[0] in roots;
    }
  }

  lemma RootsNext(m: Memory, f: Forest, ring: map<Ptr, seq<Ptr>>, roots: seq<Ptr>, i: nat)
    requires Rep(m, f, ring, roots, NULL) && i <= |roots|
    ensures var x := if i == 0 then ROOT else roots[i - 1];
            x in m.links.next && m.links.next[x] == if i < |roots| then roots[i] else ROOT
  {
    assert LinkedAt(m.links, [ROOT] + roots, i);
  }

  lemma ScanStart(m: Memory, f: Forest, ring: map<Ptr, seq<Ptr>>, roots: seq<Ptr>, tab: seq<Ptr>)
    requires Rep(m, f, ring, roots, NULL)
    requires |tab| == CELLS && forall d :: 0 <= d < CELLS ==> tab[d] == NULL
    ensures ROOT in m.links.next && m.links.next[ROOT] in m.links.next
    ensures roots == [] ==> m.links.next[ROOT] == ROOT && Scan(f, roots, tab, 0, ROOT, 0)
    ensures roots != [] ==> m.links.next[ROOT] == roots[0] && roots[0] != ROOT && Scan(f, roots, tab, 1, roots[0], 0)
                            && m.links.next[roots[0]] == if 1 < |roots| then roots[1] else ROOT
  {
    RootsNext(m, f, ring, roots, 0);
    if roots != [] {
      RootsNext(m, f, ring, roots, 1);
      assert roots[0] in roots;
    }
  }

  /** The current root is a root whose degree fits the table. */
  lemma Current(m: Memory, f: Forest, ring: map<Ptr, seq<Ptr>>, roots: seq<Ptr>, tab: seq<Ptr>, i: nat, cur: Ptr,
                degrmax: nat, key: map<Ptr, real>)
    requires Rep(m, f, ring, roots, NULL) && Thick(f, NULL) && |f.kids| < LIMIT
    requires Scan(f, roots, tab, i, cur, degrmax) && cur != ROOT && Ordered(f, key)
    ensures cur in f.kids && cur in roots && cur in m.defl && cur in m.links.next && f.kids.Keys <= key.Keys
    ensures m.defl[cur] >= 0 && m.defl[cur] / 2 == |f.kids[cur]| < CELLS
    ensures i > 0 && |tab| == CELLS
    ensures tab[|f.kids[cur]|] != NULL ==> tab[|f.kids[cur]|] in f.kids && tab[|f.kids[cur]|] in roots
                                           && tab[|f.kids[cur]|] != cur && tab[|f.kids[cur]|] != ROOT
                                           && |f.kids[tab[|f.kids[cur]|]]| == |f.kids[cur]|
    ensures i < |roots| ==> roots[i] in m.links.next && roots[i] != ROOT
    ensures ROOT in m.links.next
  {
    assert cur in roots;
    assert HeadOk(m, f, ring, cur);
    DegreeFitsTable(f, cur);
    RootsNext(m, f, ring, roots, 0);
    RootsNext(m, f, ring, roots, Index(roots, cur) + 1);
    if i < |roots| {
      RootsNext(m, f, ring, roots, i + 1);
      assert roots[i] in roots;
    }
  }

  /** Recording the current root moves the scan one root on. */
  lemma ScanRecord(m: Memory, f: Forest, ring: map<Ptr, seq<Ptr>>, roots: seq<Ptr>, tab: seq<Ptr>, i: nat, cur: Ptr,
                   before: nat, degrmax: nat)
    requires Rep(m, f, ring, roots, NULL) && cur in f.kids && cur != ROOT
    requires degrmax < CELLS && i <= |roots| && |tab| == CELLS && |f.kids[cur]| <= degrmax && tab[|f.kids[cur]|] == NULL
    requires before <= degrmax && Scan(f, roots, tab, i, cur, before)
    ensures var tab2 := tab[|f.kids[cur]| := cur];
            if i < |roots| then Scan(f, roots, tab2, i + 1, roots[i], degrmax)
                else Scan(f, roots, tab2, i, ROOT, degrmax)
    ensures ROOT in m.links.next
    ensures i < |roots| ==>
        roots[i] in m.links.next && roots[i] != ROOT
            && m.links.next[roots[i]] == if i + 1 < |roots| then roots[i + 1] else ROOT
  {
    RootsNext(m, f, ring, roots, 0);
    RecordScan(m, f, ring, roots, tab, i, cur, before, degrmax);
    if i < |roots| {
      RootsNext(m, f, ring, roots, i + 1);
      assert roots[i] in roots;
    }
  }

  lemma RecordScan(m: Memory, f: Forest, ring: map<Ptr, seq<Ptr>>, roots: seq<Ptr>, tab: seq<Ptr>, i: nat, cur: Ptr,
                   before: nat, degrmax: nat)
    requires Rep(m, f, ring, roots, NULL) && cur in f.kids && cur != ROOT
    requires degrmax < CELLS && i <= |roots| && |tab| == CELLS && |f.kids[cur]| <= degrmax && tab[|f.kids[cur]|] == NULL
    requires before <= degrmax && Scan(f, roots, tab, i, cur, before)
    ensures var tab2 := tab[|f.kids[cur]| := cur];
            if i < |roots| then Scan(f, roots, tab2, i + 1, roots[i], degrmax)
                else Scan(f, roots, tab2, i, ROOT, degrmax)
  {
    if i < |roots| {
      RemoveRootsNoDup(m.links, roots, i);
      forall k: nat | k < i ensures roots[k] != roots[i] { DistinctAt(roots, k, i); }
      assert roots[..i + 1] == roots[..i] + [roots[i]];
    } else {
      assert roots[..i] == roots;
    }
    assert NULL !in f.kids && ROOT !in f.kids && forall x | x in roots :: x in f.kids;
    hide Rep, NoDup, RemoveAt, Shape;
  }

  lemma ReadyToGraft(m: Memory, f: Forest, ring: map<Ptr, seq<Ptr>>, roots: seq<Ptr>, j: nat, r: Ptr)
    requires Rep(m, f, ring, roots, NULL) && Thick(f, NULL)
    requires j < |roots| && r in roots && roots[j] != r && roots[j] in f.kids && r in f.kids
        && |f.kids[roots[j]]| == |f.kids[r]|
    ensures GraftPre(m, f, ring, roots, j, r) && IsRing(m.links, [ROOT] + roots) && Shape(f)
    ensures roots[j] != NULL && roots[j] != ROOT && r != NULL && r != ROOT
  {
  }

  lemma GraftOrdered(f: Forest, key: map<Ptr, real>, o: Ptr, r: Ptr)
    requires Shape(f) && Ordered(f, key) && o in f.kids && r in f.kids && o != r && key[o] <= key[r]
    ensures r in f.mark && o in f.rank && r in f.rank
    ensures Ordered(Graft(f, o, r), key) && Graft(f, o, r).kids.Keys == f.kids.Keys
  {
  }

  /** Linking two roots of one degree keeps the scan and takes one root out of the ring. */
  lemma GraftScan(m: Memory, f: Forest, roots: seq<Ptr>, tab: seq<Ptr>, i: nat, j: nat, r: Ptr, degrmax: nat)
    requires IsRing(m.links, [ROOT] + roots) && j < |roots| && r in roots && r != roots[j] && r != ROOT
        && roots[j] != ROOT
    requires Shape(f) && roots[j] in f.kids && r in f.kids && |f.kids[roots[j]]| == |f.kids[r]| < CELLS == |tab|
    requires (Scan(f, roots, tab, i, roots[j], degrmax) && tab[|f.kids[r]|] == r)
        || (Scan(f, roots, tab, i, r, degrmax) && tab[|f.kids[r]|] == roots[j])
    requires NULL != r && NULL != roots[j]
    ensures j < i <= |roots|
    ensures Scan(Graft(f, roots[j], r), RemoveAt(roots, j), tab[|f.kids[r]| := NULL], i - 1, r, degrmax)
    ensures RemoveAt(roots, j)[i - 1..] == roots[i..]
  {
    hide IsRing;
    var o := roots[j];
    RemoveRootsNoDup(m.links, roots, j);
    assert o in roots[..i];
    RemoveInPrefix(roots, i, j);
    hide NoDup, RemoveAt;
    assert forall x | x in roots[..i] && x != o && x != r :: Graft(f, o, r).kids[x] == f.kids[x];
  }

  /** Taking out an element of a prefix shortens the prefix and leaves the rest. */
  lemma RemoveInPrefix(s: seq<Ptr>, i: nat, j: nat)
    requires NoDup(s) && i <= |s| && j < |s| && s[j] in s[..i]
    ensures j < i && |RemoveAt(s, j)| == |s| - 1
    ensures RemoveAt(s, j)[i - 1..] == s[i..]
    ensures forall x :: x in RemoveAt(s, j)[..i - 1] <==> x in s[..i] && x != s[j]
  {
    var k := Index(s[..i], s[j]);
    if k != j { DistinctAt(s, k, j); }
    var t := RemoveAt(s, j);
    assert t[..i - 1] == RemoveAt(s[..i], j);
    forall x | x in s[..i] && x != s[j] ensures x in t[..i - 1] {
      var a := Index(s[..i], x);
      assert t[..i - 1][if a < j then a else a - 1] == x;
    }
    forall x | x in t[..i - 1] ensures x in s[..i] && x != s[j] {
      var a := Index(t[..i - 1], x);
      DistinctAt(s, if a < j then a else a + 1, j);
    }
  }

  /** A root that beats all roots beats all nodes. */
  lemma BestOverall(f: Forest, key: map<Ptr, real>, roots: seq<Ptr>, best: Ptr)
    requires FiboForest.Valid(f) && Ordered(f, key) && forall x :: x in roots <==> IsRoot(f, x)
    requires best == NULL <==> roots == []
    requires forall x | x in roots :: x in key
    requires best != NULL ==> best in roots && forall x | x in roots :: key[x] <= key[best]
    ensures best == NULL <==> f.kids.Keys == {}
    ensures best != NULL ==> best in f.kids && forall n | n in f.kids :: key[n] <= key[best]
  {
    forall n | n in f.kids ensures best != NULL && key[n] <= key[best] {
      var r := RootAbove(f, key, n);
    }
    if best != NULL {
      assert best in f.kids.Keys;
    }
  }

  lemma NoRootsNoNodes(f: Forest, key: map<Ptr, real>, roots: seq<Ptr>)
    requires FiboForest.Valid(f) && Ordered(f, key) && forall x :: x in roots <==> IsRoot(f, x)
    ensures roots == [] <==> f.kids.Keys == {}
  {
    forall n | n in f.kids ensures roots != [] { var r := RootAbove(f, key, n); }
    if roots != [] {
      assert roots[0] in roots;
    }
  }

  /** `deflval | 1` */
  function SetLow(d: int): int { d - d % 2 + 1 }

  lemma LowBit(k: nat, b: bool)
    ensures var d := 2 * k + Bit(b); d % 2 == Bit(b) && SetLow(d) == 2 * k + 1 && (d <= 1 <==> k == 0)
  {
  }

  lemma BeforeDrop(m: Memory, f: Forest, ring: map<Ptr, seq<Ptr>>, roots: seq<Ptr>, n: Ptr)
    requires Rep(m, f, ring, roots, NULL) && n in f.kids && n in ring
    ensures n in m.pare && (m.pare[n] == NULL <==> n !in f.up) && (n in f.up ==> m.pare[n] == f.up[n] == ParentOf(f, n))
    ensures n in m.chld && m.chld[n] == First(ring[n]) && NULL !in ring[n] && n !in ring[n] && n != ROOT
    ensures ring[n][..|ring[n]|] == ring[n]
  {
    assert NodeOk(m, f, ring, n) && HeadOk(m, f, ring, n);
    UpInKids(f, n);
    KidsOf(m, f, ring, n, NULL);
    KidsOf(m, f, ring, n, n);
  }

  /** What the parent of a dropped node still stores. */
  lemma AfterDrop(m: Memory, f: Forest, ring: map<Ptr, seq<Ptr>>, roots: seq<Ptr>, n: Ptr)
    requires Rep(m, f, ring, roots, NULL) && n in f.kids && n in f.up
    ensures var p, g := f.up[n], Drop(f, n);
            && p != n && p in g.kids && p in m.defl && p in g.mark && Shape(g)
            && m.defl[p] == 2 * (|g.kids[p]| + 1) + Bit(g.mark[p])
            && p in ring && p in RingsAfterDrop(f, ring, n) && RingsAfterDrop(f, ring, n)[p] == RingWithout(ring[p], n)
            && |RingWithout(ring[p], n)| == |ring[p]| - 1
  {
    UpInKids(f, n);
    DropShape(f, n);
    var p := f.up[n];
    assert HeadOk(m, f, ring, p);
    KidsOf(m, f, ring, p, n);
    WithoutProps(f.kids[p], n);
    RestMembers(ring[p], Index(ring[p], n));
  }

  lemma StoredAt(m: Memory, f: Forest, ring: map<Ptr, seq<Ptr>>, roots: seq<Ptr>, p: Ptr)
    requires Rep(m, f, ring, roots, p) && p in f.kids
    ensures Shape(f) && p in f.mark && p in m.pare && p in ring && |ring[p]| == |f.kids[p]|
    ensures (m.pare[p] == NULL <==> p !in f.up) && (p in f.up ==> m.pare[p] == f.up[p])
  {
    assert NodeOk(m, f, ring, p);
    UpInKids(f, p);
  }

  /** Writing back the head of p pays its debt with the mark, unless p is marked and not a root. */
  lemma MarkStep(m: Memory, f: Forest, ring: map<Ptr, seq<Ptr>>, roots: seq<Ptr>, p: Ptr, r: Ptr)
    requires Rep(m, f, ring, roots, p) && Thick(f, p) && p in f.kids && p in ring
    requires p in m.defl && m.defl[p] == 2 * (|f.kids[p]| + 1) + Bit(f.mark[p])
    requires ring[p] != [] ==> r == ring[p][0]
    ensures p in m.pare && (m.pare[p] == NULL <==> p !in f.up) && (p in f.up ==> m.pare[p] == f.up[p])
    ensures var d := m.defl[p] - 2;
            var m2 := m.(defl := m.defl[p := SetLow(d)], chld := m.chld[p := if d <= 1 then NULL else r]);
            if d % 2 == 0 || m.pare[p] == NULL
            then Rep(m2, SetMark(f, p), ring, roots, NULL) && Thick(SetMark(f, p), NULL)
            else Rep(m2, f, ring, roots, NULL) && p in f.up
  {
    hide Rep, Thick, NodeOk, Shape;
    StoredAt(m, f, ring, roots, p);
    LowBit(|f.kids[p]|, f.mark[p]);
    MarkRep(m, f, ring, roots, p);
    if !f.mark[p] || p !in f.up {
      SetMarkValid(f, p);
    }
    if f.mark[p] && p in f.up {
      assert SetMark(f, p) == f;
    }
  }

  /** One turn of the cascade, with the measure that makes it stop. */
  lemma SeverStep(m: Memory, f: Forest, ring: map<Ptr, seq<Ptr>>, roots: seq<Ptr>, c: Ptr)
    requires Rep(m, f, ring, roots, NULL) && Thick(f, c) && c in f.up
    ensures c in m.links.next && c in m.links.prev && ROOT in Unlink(m.links, c).next && c in ring
    ensures var p, g, ring2 := f.up[c], Sever(f, c), RingsAfterSever(ring, c);
            && Rep(SeverNode(m, c), g, ring2, [c] + roots, p) && Thick(g, p)
            && Shape(g) && p in g.mark && g.kids.Keys == f.kids.Keys
               && (forall d | d in g.up :: d in f.up && g.up[d] == f.up[d])
            && p in g.kids && p in m.defl && m.defl[p] == 2 * (|g.kids[p]| + 1) + Bit(g.mark[p])
            && p in ring2 && (ring2[p] != [] ==> m.links.next[c] == ring2[p][0])
            && |Above(g, p)| < |Above(f, c)|
  {
    SeverRep(m, f, ring, roots, c);
    SeverMeasure(m, f, ring, roots, c);
    UnlinkChild(m, f, ring, roots, c);
    UpInKids(f, c);
    hide Rep, Thick, Shape, IsRing;
    RingWithoutSize(ring[f.up[c]], c);
  }

  lemma RingWithoutSize(s: seq<Ptr>, c: Ptr)
    requires c in s
    ensures |RingWithout(s, c)| == |s| - 1
  {
  }

  lemma SeverMeasure(m: Memory, f: Forest, ring: map<Ptr, seq<Ptr>>, roots: seq<Ptr>, c: Ptr)
    requires Rep(m, f, ring, roots, NULL) && c in f.up && Shape(Sever(f, c))
    ensures var p, g := f.up[c], Sever(f, c);
            && p in g.kids && p in g.mark && p in m.defl && m.defl[p] == 2 * (|g.kids[p]| + 1) + Bit(g.mark[p])
            && p in ring && c in f.kids && c in ring[p] && |Above(g, p)| < |Above(f, c)|
  {
    UpInKids(f, c);
    var p, g := f.up[c], Sever(f, c);
    assert HeadOk(m, f, ring, p);
    KidsOf(m, f, ring, p, c);
    WithoutProps(f.kids[p], c);
    SubsetSize(Above(g, p), Above(f, c) - {p});
  }
}
