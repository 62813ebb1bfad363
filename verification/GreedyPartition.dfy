/** The greedy balanced partitioner used under core constraints: cores that may not
    be used are filled with dumb vertices first, then every block gets a seed, then
    each remaining vertex joins the block with room that attracts it most. */
module GreedyPartition {
  import opened Arithmetic
  import opened PartitionWeights
  import opened ConstraintRanks
  import opened Wrappers

  /** While a block has room, some vertex is unplaced. */
  lemma Unplaced(part: seq<int>, size: seq<nat>, k: nat, cap: nat, b: nat) returns (v: nat)
    requires SizesOk(part, size, k, cap) && |part| == k * cap && b < k && size[b] < cap
    ensures v < |part| && part[v] == -1
  {
    assert SizeAt(part, size, b, cap);
    if Count(part, -1, |part|) == 0 {
      forall p | 0 <= p < k ensures Count(part, p, |part|) <= cap { assert SizeAt(part, size, p, cap); }
      AllFull(part, k, cap, b);
      assert false;
    }
    v := CountWitness(part, -1, |part|);
  }

  ghost predicate HasRoom(part: seq<int>, size: seq<nat>, cap: nat, i: nat)
  {
    i < |part| && 0 <= part[i] < |size| && size[part[i]] < cap
  }

  /** Every block with room holds one of the first scan vertices. */
  ghost predicate Rooted(part: seq<int>, size: seq<nat>, cap: nat, scan: nat)
  {
    forall p: nat | p < |size| && size[p] < cap :: exists v :: Member(part, scan, p, v)
  }

  ghost predicate Member(part: seq<int>, scan: nat, p: nat, v: nat)
  {
    v < scan && v < |part| && part[v] == p
  }

  /** While a vertex is unplaced, one of the scanned vertices sits in a block with room. */
  lemma SomeRoom(part: seq<int>, size: seq<nat>, k: nat, cap: nat, scan: nat, v: nat) returns (i: nat)
    requires SizesOk(part, size, k, cap) && |part| == k * cap && v < |part| && part[v] == -1
        && Rooted(part, size, cap, scan)
    ensures i < scan && HasRoom(part, size, cap, i)
  {
    CountPositive(part, -1, |part|, v);
    var p := RoomLeft(part, k, cap);
    assert SizeAt(part, size, p, cap);
    var w :| Member(part, scan, p, w);
    i := w;
  }

  /** Placing a vertex leaves the members of the other blocks with room where they are. */
  lemma RootedMore(part: seq<int>, size: seq<nat>, cap: nat, scan: nat, v: nat, b: nat)
    requires Rooted(part, size, cap, scan) && v < |part| && part[v] == -1 && b < |size|
    ensures Rooted(part[v := b], size[b := size[b] + 1], cap, scan)
  {
    var part2, size2 := part[v := b], size[b := size[b] + 1];
    forall p: nat | p < |size2| && size2[p] < cap ensures exists w :: Member(part2, scan, p, w) {
      var w :| Member(part, scan, p, w);
      assert Member(part2, scan, p, w);
    }
  }

  // ---------- `allocate_vertex` ----------

  /** Weight of the edge to vertex i; dumb vertices have none. */
  function Cost(comm: Matrix, m: nat, u: nat, i: nat): real
    requires u < |comm| && |comm| == m && |comm[u]| == m
  {
    if i < m then comm[u][i] else 0.0
  }

  /** Vertex i is placed in a block with room: among the scanned vertices the first that a real vertex u is most
      attracted to, and for a dumb vertex the first of all. */
  ghost predicate Best(part: seq<int>, size: seq<nat>, cap: nat, scan: nat, comm: Matrix, u: nat, i: nat)
    requires Square(comm, |comm|)
  {
    && i < scan && HasRoom(part, size, cap, i)
    && forall j: nat | j < scan && HasRoom(part, size, cap, j) :: Preferred(comm, u, i, j)
  }

  predicate Preferred(comm: Matrix, u: nat, i: nat, j: nat)
    requires Square(comm, |comm|)
  {
    if u < |comm| then Cost(comm, |comm|, u, j) < Cost(comm, |comm|, u, i)
        || (Cost(comm, |comm|, u, j) == Cost(comm, |comm|, u, i) && i <= j)
    else i <= j
  }

  /** `allocate_vertex` and `allocate_vertex2`: the block chosen for u, looking at the first scan vertices. */
  method AllocateVertex(u: nat, part: seq<int>, comm: Matrix, scan: nat, size: seq<nat>, cap: nat, ghost w: nat)
    returns (best: int, ghost at: nat)
    requires Square(comm, |comm|) && NonNegative(comm, |comm|) && u < |part| && Blocks(part, |size|) && scan <= |part|
    requires w < scan && HasRoom(part, size, cap, w)
    ensures HasRoom(part, size, cap, at) && Best(part, size, cap, scan, comm, u, at) && part[at] == best
    ensures 0 <= best < |size| && size[best] < cap
  {
    best, at := 0, 0;
    if u >= |comm| {
      var i := 0;
      while i < scan
        invariant i <= scan && forall j: nat | j < i :: !HasRoom(part, size, cap, j)
      {
        if part[i] != -1 && size[part[i]] < cap {
          best := part[i];
          at := i;
          assert HasRoom(part, size, cap, at);
          break;
        }
        i := i + 1;
      }
    } else {
      var bestCost := -1.0;
      for i := 0 to scan
        invariant bestCost == -1.0 ==> forall j: nat | j < i :: !HasRoom(part, size, cap, j)
        invariant bestCost != -1.0 ==>
            HasRoom(part, size, cap, at) && best == part[at] && bestCost == Cost(comm, |comm|, u, at)
        invariant bestCost == -1.0 || bestCost >= 0.0
        invariant forall j: nat | j < i && HasRoom(part, size, cap, j) :: Cost(comm, |comm|, u, j) <= bestCost
        invariant bestCost != -1.0 ==>
            at < i && forall j: nat | j < i && HasRoom(part, size, cap, j) :: Preferred(comm, u, at, j)
      {
        if part[i] != -1 && size[part[i]] < cap {
          var cost := if i < |comm| then comm[u][i] else 0.0;
          assert cost >= 0.0;
          if cost > bestCost {
            bestCost := cost;
            best := part[i];
            at := i;
          }
        }
      }
    }
    assert Best(part, size, cap, scan, comm, u, at);
  }

  // ---------- Dumb vertices ----------

  /** The innermost loop of the dumb placement: `count` vertices from `from` downwards join block b. */
  method PlaceRun(start: seq<int>, size: seq<nat>, k: nat, cap: nat, b: nat, from: int, count: nat)
    returns (part: seq<int>, dumbId: int)
    requires SizesOk(start, size, k, cap) && b < k && size[b] + count <= cap
    requires -1 <= from - count && from < |start|
    requires forall v | 0 <= v <= from :: start[v] == -1
    ensures |part| == |start| && SizesOk(part, size[b := size[b] + count], k, cap) && dumbId == from - count
    ensures forall v | 0 <= v < |part| :: part[v] == if dumbId < v <= from then b else start[v]
  {
    part, dumbId := start, from;
    ghost var size2 := size;
    for j := 0 to count
      invariant |part| == |start| && dumbId == from - j
      invariant size2 == size[b := size[b] + j] && SizesOk(part, size2, k, cap)
      invariant forall v | 0 <= v < |part| :: part[v] == if dumbId < v <= from then b else start[v]
    {
      PlaceOne(part, size2, k, cap, dumbId, b);
      size2 := size2[b := size2[b] + 1];
      part := part[dumbId := b];
      dumbId := dumbId - 1;
    }
  }

  /** Dumb placement of `kpartition_greedy`: block p loses as many places as it has forbidden leaves,
      and exactly the vertices 0..|constraints|-1 stay free. */
  method PlaceDumb(k: nat, cap: nat, constraints: seq<int>) returns (part: seq<int>, size: seq<nat>)
    requires k > 0 && cap > 0 && Increasing(constraints) && Within(constraints, 0, k * cap) && |constraints| <= k * cap
    ensures |part| == k * cap && SizesOk(part, size, k, cap)
    ensures forall v | 0 <= v < |part| :: part[v] == -1 <==> v < |constraints|
    ensures forall v, w | |constraints| <= v < w < |part| :: part[v] >= part[w]
    ensures forall p: nat | p < k :: size[p] == cap - Share(constraints, p, cap)
  {
    hide SizesOk, Share, Increasing, Bound, Within, Times;
    var n := k * cap;
    part, size := Empty(k, n, cap);
    var start, dumbId := 0, n - 1;
    ghost var lo := 0;
    BoundEnds(constraints, n);
    NextTimes(0, cap);
    for i := 0 to k
      invariant |part| == n && |size| == k && SizesOk(part, size, k, cap) && lo == Times(i, cap) <= n
      invariant start == Bound(constraints, lo) && dumbId == n - 1 - (lo - start)
      invariant -1 <= dumbId < n && start <= |constraints| && (i == k ==> lo == n)
      invariant forall v | 0 <= v < n :: part[v] == -1 <==> v <= dumbId
      invariant forall v | dumbId < v < n :: part[v] < i
      invariant forall v, w | dumbId < v < w < n :: part[v] >= part[w]
      invariant forall p: nat | p < k :: size[p] == if p < i then cap - Share(constraints, p, cap) else 0
    {
      DumbStep(constraints, k, cap, i);
      var end := FindEnd(constraints, Times(i + 1, cap), start);
      assert end == Bound(constraints, lo + cap);
      var nbDumb := cap - (end - start);
      part, dumbId := PlaceRun(part, size, k, cap, i, dumbId, nbDumb);
      size := size[i := size[i] + nbDumb];
      start := end;
      lo := lo + cap;
    }
  }

  lemma DumbStep(cs: seq<int>, k: nat, cap: nat, i: nat)
    requires Increasing(cs) && Within(cs, 0, k * cap) && i < k
    ensures Times(i + 1, cap) == Times(i, cap) + cap <= k * cap && (i + 1 == k ==> Times(i + 1, cap) == k * cap)
    ensures var lo := Times(i, cap);
            && Bound(cs, lo) <= Bound(cs, lo + cap) <= Bound(cs, lo) + cap
            && Scan(cs, lo + cap, Bound(cs, lo)) == Bound(cs, lo + cap)
            && Share(cs, i, cap) == Bound(cs, lo + cap) - Bound(cs, lo)
            && Bound(cs, lo) + (k * cap - lo) >= |cs| && Bound(cs, lo + cap) + (k * cap - lo - cap) >= |cs|
  {
    MulMonotone(i + 1, k, cap);
    NextTimes(i, cap);
    var lo := Times(i, cap);
    ScanOn(cs, lo, lo + cap);
    ShareRange(cs, i, cap);
    BoundEnds(cs, k * cap);
    BoundGap(cs, lo, k * cap - lo);
    BoundGap(cs, lo + cap, k * cap - lo - cap);
  }

  /** The scan for the constraints of one subtree. */
  method FindEnd(constraints: seq<int>, maxVal: int, start: nat) returns (end: nat)
    requires start <= |constraints|
    ensures end == Scan(constraints, maxVal, start)
  {
    end := start;
    while end < |constraints|
      invariant start <= end <= |constraints| && Scan(constraints, maxVal, start) == Scan(constraints, maxVal, end)
    {
      if constraints[end] >= maxVal { break; }
      end := end + 1;
    }
  }

  method Empty(k: nat, n: nat, cap: nat) returns (part: seq<int>, size: seq<nat>)
    ensures |part| == n && |size| == k && SizesOk(part, size, k, cap)
    ensures (forall v | 0 <= v < n :: part[v] == -1) && forall p | 0 <= p < k :: size[p] == 0
  {
    part := seq(n, _ => -1);
    size := seq(k, _ => 0);
    forall p: nat | p < k ensures SizeAt(part, size, p, cap) { CountZero(part, p, n); }
  }

  // ---------- Seeds and attraction ----------

  ghost predicate KeepsPlaced(before: seq<int>, after: seq<int>)
  {
    |after| == |before| && forall v | 0 <= v < |before| && before[v] != -1 :: after[v] == before[v]
  }

  /** Seed phase: every block that is not full of dumb vertices gets exactly one unplaced vertex, whichever. */
  method Seed(start: seq<int>, counts: seq<nat>, k: nat, cap: nat) returns (part: seq<int>, size: seq<nat>)
    requires cap > 0 && |start| == k * cap && SizesOk(start, counts, k, cap)
    ensures SizesOk(part, size, k, cap) && KeepsPlaced(start, part)
    ensures |size| == |counts| == k
        && forall p | 0 <= p < k :: size[p] == if counts[p] < cap then counts[p] + 1 else counts[p]
    ensures forall p | 0 <= p < k :: size[p] > 0
  {
    hide SizesOk;
    part, size := start, counts;
    SizeLength(part, size, k, cap);
    for i := 0 to k
      invariant |size| == k && SizesOk(part, size, k, cap) && KeepsPlaced(start, part)
      invariant forall p | 0 <= p < k :: size[p] == if p < i && counts[p] < cap then counts[p] + 1 else counts[p]
    {
      if size[i] >= cap { continue; }
      ghost var w := Unplaced(part, size, k, cap, i);
      var j: nat :| j < |part| && part[j] == -1;
      PlaceOne(part, size, k, cap, j, i);
      part := part[j := i];
      size := size[i := size[i] + 1];
    }
  }

  /** Where no block is empty, every block has a member. */
  lemma AllRooted(part: seq<int>, size: seq<nat>, k: nat, cap: nat)
    requires SizesOk(part, size, k, cap) && forall p | 0 <= p < k :: size[p] > 0
    ensures Rooted(part, size, cap, |part|)
  {
    forall p: nat | p < |size| && size[p] < cap ensures exists v :: Member(part, |part|, p, v) {
      assert SizeAt(part, size, p, cap);
      var v := CountWitness(part, p, |part|);
      assert Member(part, |part|, p, v);
    }
  }

  lemma SizeLength(part: seq<int>, size: seq<nat>, k: nat, cap: nat)
    requires SizesOk(part, size, k, cap)
    ensures |size| == k && Blocks(part, k)
  {
  }

  /** The partition at the turn of vertex i: the vertices before it and those that were placed. */
  ghost function AtTurn(start: seq<int>, part: seq<int>, i: nat): seq<int>
    requires |start| == |part|
  {
    seq(|start|, v requires 0 <= v < |start| => if start[v] != -1 || v < i then part[v] else -1)
  }

  ghost function SizesOf(part: seq<int>, k: nat): seq<nat>
  {
    seq(k, p => Count(part, p, |part|))
  }

  /** Vertex i joined the block of the placed vertex that it preferred at its turn. */
  ghost predicate Joined(start: seq<int>, part: seq<int>, k: nat, cap: nat, scan: nat, comm: Matrix, i: nat, at: nat)
    requires |start| == |part| && Square(comm, |comm|)
  {
    && i < |part| && at < |part|
    && Best(AtTurn(start, part, i), SizesOf(AtTurn(start, part, i), k), cap, scan, comm, i, at)
    && part[i] == AtTurn(start, part, i)[at]
  }

  /** What later vertices do does not matter to those before. */
  lemma JoinedKept(start: seq<int>, part: seq<int>, k: nat, cap: nat, scan: nat, comm: Matrix, i: nat, at: nat, v: nat,
                   b: int)
    requires |start| == |part| && Square(comm, |comm|) && Joined(start, part, k, cap, scan, comm, i, at)
        && i < v < |part| && start[v] == -1
    ensures Joined(start, part[v := b], k, cap, scan, comm, i, at)
  {
    hide Best;
    assert AtTurn(start, part[v := b], i) == AtTurn(start, part, i);
  }

  lemma JoinedNow(start: seq<int>, part: seq<int>, size: seq<nat>, k: nat, cap: nat, scan: nat, comm: Matrix, i: nat,
                  at: nat)
    requires |start| == |part| && Square(comm, |comm|) && SizesOk(part, size, k, cap) && i < |part| && at < |part|
    requires Best(part, size, cap, scan, comm, i, at) && KeepsPlaced(start, part) && start[i] == -1
    requires forall v | i <= v < |part| && start[v] == -1 :: part[v] == -1
    ensures Joined(start, part[i := part[at]], k, cap, scan, comm, i, at)
  {
    var after := part[i := part[at]];
    assert AtTurn(start, after, i) == part;
    forall p: nat | p < k ensures size[p] == Count(part, p, |part|) { assert SizeAt(part, size, p, cap); }
    assert SizesOf(part, k) == size;
  }

  /** Last phase: every vertex still unplaced joins a block that `AllocateVertex` picks for it. */
  method Attract(start: seq<int>, counts: seq<nat>, k: nat, cap: nat, comm: Matrix, scan: nat) returns (part: seq<int>)
    requires |start| == k * cap && SizesOk(start, counts, k, cap) && scan <= |start| && Rooted(start, counts, cap, scan)
    requires Square(comm, |comm|) && NonNegative(comm, |comm|)
    ensures KeepsPlaced(start, part)
    ensures forall v | 0 <= v < |part| :: 0 <= part[v] < k
    ensures forall p | 0 <= p < k :: Count(part, p, |part|) == cap
    ensures forall v: nat | v < |part| && start[v] == -1 :: exists at :: Joined(start, part, k, cap, scan, comm, v, at)
  {
    hide SizesOk, Best, Square, NonNegative, Joined, Rooted;
    part := start;
    var size: seq<nat> := counts;
    SizeLength(part, size, k, cap);
    for i := 0 to |start|
      invariant |part| == |start| && |size| == k && SizesOk(part, size, k, cap) && KeepsPlaced(start, part)
      invariant Rooted(part, size, cap, scan) && forall v | 0 <= v < i :: part[v] != -1
      invariant forall v | i <= v < |part| && start[v] == -1 :: part[v] == -1
      invariant forall v: nat | v < i && start[v] == -1 :: exists at :: Joined(start, part, k, cap, scan, comm, v, at)
    {
      if part[i] == -1 {
        SizeLength(part, size, k, cap);
        ghost var w := SomeRoom(part, size, k, cap, scan, i);
        var b, at := AllocateVertex(i, part, comm, scan, size, cap, w);
        PlaceOne(part, size, k, cap, i, b);
        RootedMore(part, size, cap, scan, i, b);
        JoinedNow(start, part, size, k, cap, scan, comm, i, at);
        ghost var after := part[i := b];
        forall v: nat | v < i && start[v] == -1 ensures exists at :: Joined(start, after, k, cap, scan, comm, v, at) {
          var at :| Joined(start, part, k, cap, scan, comm, v, at);
          JoinedKept(start, part, k, cap, scan, comm, v, at, i, b);
        }
        part := part[i := b];
        size := size[b := size[b] + 1];
      }
    }
    Complete(part, size, k, cap);
  }

  /** When no vertex is unplaced, all blocks are exactly full. */
  lemma Complete(part: seq<int>, size: seq<nat>, k: nat, cap: nat)
    requires SizesOk(part, size, k, cap) && |part| == k * cap && forall v | 0 <= v < |part| :: part[v] != -1
    ensures forall v | 0 <= v < |part| :: 0 <= part[v] < k
    ensures forall p | 0 <= p < k :: Count(part, p, |part|) == cap
  {
    CountZero(part, -1, |part|);
    forall p | 0 <= p < k ensures Count(part, p, |part|) <= cap { assert SizeAt(part, size, p, cap); }
    forall p | 0 <= p < k ensures Count(part, p, |part|) == cap { AllFull(part, k, cap, p); }
  }

  /** A balanced partition in which block p holds exactly as many free vertices as it has usable leaves. */
  ghost predicate Split(part: seq<int>, k: nat, cap: nat, constraints: seq<int>)
  {
    && |part| == k * cap && |constraints| <= k * cap
    && (forall v | 0 <= v < |part| :: 0 <= part[v] < k)
    && (forall p | 0 <= p < k :: Count(part, p, |part|) == cap)
    && (constraints != [] ==> forall p: nat | p < k :: Count(part, p, |constraints|) == Share(constraints, p, cap))
  }

  /** How many dumb vertices block p gets. */
  ghost function Dumb(constraints: seq<int>, p: nat, cap: nat): int
  {
    if constraints == [] then 0 else cap - Share(constraints, p, cap)
  }

  /** The start of a trial: the dumb vertices, from the last one down, in the blocks from the first one up, and one more
      vertex in every block that has room. */
  ghost predicate Seeded(seeded: seq<int>, k: nat, cap: nat, constraints: seq<int>)
  {
    && Blocks(seeded, k)
    && (constraints != [] ==> forall v | |constraints| <= v < |seeded| :: seeded[v] != -1)
    && (constraints != [] ==> forall v, w | |constraints| <= v < w < |seeded| :: seeded[v] >= seeded[w])
    && forall p: nat | p < k :: Count(seeded, p, |seeded|) == SeedCount(constraints, p, cap)
  }

  ghost function SeedCount(constraints: seq<int>, p: nat, cap: nat): int
  {
    if Dumb(constraints, p, cap) < cap then Dumb(constraints, p, cap) + 1 else Dumb(constraints, p, cap)
  }

  /** What a trial may give: from some seeds, every free vertex joined the block with room that attracted it most at its
      turn. */
  ghost predicate Trial(seeded: seq<int>, part: seq<int>, k: nat, cap: nat, constraints: seq<int>, comm: Matrix)
    requires Square(comm, |comm|)
  {
    && Split(part, k, cap, constraints) && Seeded(seeded, k, cap, constraints) && KeepsPlaced(seeded, part)
    && forall v: nat | v < |part| && seeded[v] == -1 :: exists at :: Joined(seeded, part, k, cap, |part|, comm, v, at)
  }

  /** One trial of `kpartition_greedy`. */
  method GreedyTrial(k: nat, cap: nat, comm: Matrix, constraints: seq<int>)
    returns (part: seq<int>, ghost seeded: seq<int>)
    requires k > 0 && cap > 0 && Square(comm, |comm|) && NonNegative(comm, |comm|)
    requires Increasing(constraints) && Within(constraints, 0, k * cap)
    ensures Split(part, k, cap, constraints)
    ensures Trial(seeded, part, k, cap, constraints, comm)
  {
    hide SizesOk, Share, Square, NonNegative, Increasing, Joined;
    TooMany(constraints, k * cap);
    var size;
    if |constraints| != 0 {
      part, size := PlaceDumb(k, cap, constraints);
    } else {
      part, size := Empty(k, k * cap, cap);
    }
    ghost var part0, size0 := part, size;
    part, size := Seed(part, size, k, cap);
    seeded := part;
    SeededNow(part0, size0, part, size, k, cap, constraints);
    AllRooted(part, size, k, cap);
    part := Attract(part, size, k, cap, comm, |part|);
    if constraints != [] {
      forall p: nat | p < k ensures Count(part, p, |constraints|) == Share(constraints, p, cap) {
        FreeShare(part0, size0, part, k, cap, |constraints|, p);
      }
    }
  }

  lemma SeededNow(before: seq<int>, counts: seq<nat>, seeded: seq<int>, size: seq<nat>, k: nat, cap: nat, cs: seq<int>)
    requires SizesOk(before, counts, k, cap) && SizesOk(seeded, size, k, cap) && KeepsPlaced(before, seeded)
    requires forall p: nat | p < k :: counts[p] == Dumb(cs, p, cap)
    requires forall p | 0 <= p < k :: size[p] == if counts[p] < cap then counts[p] + 1 else counts[p]
    requires cs != [] ==> forall v | |cs| <= v < |before| :: before[v] != -1
    requires cs != [] ==> forall v, w | |cs| <= v < w < |before| :: before[v] >= before[w]
    ensures Seeded(seeded, k, cap, cs)
  {
    hide Dumb;
    forall p: nat | p < k
      ensures Count(seeded, p, |seeded|) == SeedCount(cs, p, cap)
    {
      assert SizeAt(seeded, size, p, cap);
    }
  }

  lemma TooMany(cs: seq<int>, n: nat)
    requires Increasing(cs) && Within(cs, 0, n)
    ensures |cs| <= n
  {
    BoundEnds(cs, n);
    BoundGap(cs, 0, n);
  }

  /** The free vertices of block p are those that the dumb ones left room for. */
  lemma FreeShare(before: seq<int>, size: seq<nat>, after: seq<int>, k: nat, cap: nat, free: nat, p: nat)
    requires SizesOk(before, size, k, cap) && KeepsPlaced(before, after) && free <= |before| && p < k
    requires forall v | 0 <= v < |before| :: before[v] == -1 <==> v < free
    requires Count(after, p, |after|) == cap
    ensures |size| == k && Count(after, p, free) == cap - size[p]
  {
    assert SizeAt(before, size, p, cap);
    CountZero(before, p, free);
    TailSame(before, after, p, free, |before|);
  }

  lemma {:induction false} TailSame(a: seq<int>, b: seq<int>, p: int, from: nat, t: nat)
    requires |a| == |b| && from <= t <= |a| && forall v | from <= v < t :: a[v] == b[v]
    ensures Count(a, p, t) - Count(a, p, from) == Count(b, p, t) - Count(b, p, from)
  {
    if t > from { TailSame(a, b, p, from, t - 1); }
  }

  // ---------- Repeated trials ----------

  const MAX_TRIALS: nat := 10

  /** Weight from vertex i to the later vertices, below t, in other blocks. */
  function RowCut(comm: Matrix, part: seq<int>, i: nat, t: nat): real
    requires i < |comm| && t <= |comm[i]| && t <= |part| && i < |part|
    decreases t
  {
    if t <= i + 1 then 0.0 else RowCut(comm, part, i, t - 1) + If(part[i] != part[t - 1], comm[i][t - 1])
  }

  /** Weight between the first i real vertices and the later ones in other blocks. */
  function PairCut(comm: Matrix, part: seq<int>, i: nat): real
    requires Square(comm, |comm|) && i <= |comm| <= |part|
  {
    if i == 0 then 0.0 else PairCut(comm, part, i - 1) + RowCut(comm, part, i - 1, |comm|)
  }

  /** `eval_cost` */
  method EvalCost(part: seq<int>, comm: Matrix) returns (cost: real)
    requires Square(comm, |comm|) && |comm| <= |part|
    ensures cost == PairCut(comm, part, |comm|)
  {
    cost := 0.0;
    for i := 0 to |comm|
      invariant cost == PairCut(comm, part, i)
    {
      ghost var before := cost;
      var j := i + 1;
      while j < |comm|
        invariant i + 1 <= j <= |comm| && cost == before + RowCut(comm, part, i, j)
      {
        if part[i] != part[j] { cost := cost + comm[i][j]; }
        j := j + 1;
      }
    }
  }

  lemma {:induction false} RowCutNonNegative(comm: Matrix, part: seq<int>, i: nat, t: nat)
    requires i < |comm| && t <= |comm[i]| && t <= |part| && i < |part| && forall j | 0 <= j < t :: comm[i][j] >= 0.0
    ensures RowCut(comm, part, i, t) >= 0.0
    decreases t
  {
    if t > i + 1 { RowCutNonNegative(comm, part, i, t - 1); }
  }

  lemma {:induction false} PairCutNonNegative(comm: Matrix, part: seq<int>, i: nat)
    requires Square(comm, |comm|) && NonNegative(comm, |comm|) && i <= |comm| <= |part|
    ensures PairCut(comm, part, i) >= 0.0
  {
    if i > 0 {
      PairCutNonNegative(comm, part, i - 1);
      RowCutNonNegative(comm, part, i - 1, |comm|);
    }
  }

  /** The first of the cheapest trials. */
  ghost predicate Cheapest(part: seq<int>, trials: seq<seq<int>>, comm: Matrix)
    requires Square(comm, |comm|)
  {
    exists t :: 0 <= t < |trials| && trials[t] == part && FirstBest(trials, comm, t)
  }

  ghost predicate FirstBest(trials: seq<seq<int>>, comm: Matrix, t: nat)
    requires Square(comm, |comm|)
  {
    && t < |trials| && (forall s | 0 <= s < |trials| :: |comm| <= |trials[s]|)
    && forall s | 0 <= s < |trials| ::
         if s < t then PairCut(comm, trials[t], |comm|) < PairCut(comm, trials[s], |comm|)
         else PairCut(comm, trials[t], |comm|) <= PairCut(comm, trials[s], |comm|)
  }

  /** The result of ten trials. */
  ghost predicate Chosen(part: seq<int>, trials: seq<seq<int>>, k: nat, cap: nat, constraints: seq<int>, comm: Matrix)
    requires Square(comm, |comm|)
  {
    && |trials| == MAX_TRIALS && Cheapest(part, trials, comm)
    && forall t | 0 <= t < |trials| :: Tried(trials[t], k, cap, constraints, comm)
  }

  ghost predicate Tried(part: seq<int>, k: nat, cap: nat, constraints: seq<int>, comm: Matrix)
    requires Square(comm, |comm|)
  {
    exists seeded :: Trial(seeded, part, k, cap, constraints, comm)
  }

  /** `kpartition_greedy`: the cheapest of ten trials.  More constraints than vertices is refused. */
  method KPartitionGreedy(k: nat, comm: Matrix, n: nat, constraints: seq<int>)
    returns (best: Option<seq<int>>, ghost trials: seq<seq<int>>)
    requires k > 0 && n / k > 0 && n == k * (n / k) && |comm| <= n && Square(comm, |comm|) && NonNegative(comm, |comm|)
    requires Increasing(constraints) && (|constraints| <= n ==> Within(constraints, 0, n))
    ensures best.None? <==> |constraints| > n
    ensures best.Some? ==> Split(best.value, k, n / k, constraints)
    ensures best.Some? ==> Chosen(best.value, trials, k, n / k, constraints, comm)
  {
    hide Split, Trial, Tried, FirstBest, NonNegative, PairCut;
    best, trials := None, [];
    if |constraints| > n { return; }
    var maxSize := n / k;
    var bestCost := -1.0;
    ghost var at: nat := 0;
    for trial := 0 to MAX_TRIALS
      invariant |trials| == trial && (best.None? <==> trial == 0) && (best.None? <==> bestCost == -1.0)
      invariant forall t | 0 <= t < |trials| :: |trials[t]| == n
      invariant forall t | 0 <= t < |trials| :: Tried(trials[t], k, maxSize, constraints, comm)
      invariant best.Some? ==> at < |trials| && best.value == trials[at] && FirstBest(trials, comm, at)
      invariant best.Some? ==> Split(best.value, k, maxSize, constraints)
      invariant best.Some? ==> bestCost == PairCut(comm, best.value, |comm|) >= 0.0
    {
      ghost var seeded;
      var part;
      part, seeded := GreedyTrial(k, maxSize, comm, constraints);
      TrialSplit(seeded, part, k, maxSize, constraints, comm);
      var cost := EvalCost(part, comm);
      PairCutNonNegative(comm, part, |comm|);
      BestOf(trials, part, comm, at, trial > 0);
      trials := trials + [part];
      if cost < bestCost || bestCost == -1.0 {
        bestCost := cost;
        best := Some(part);
        at := trial;
      }
    }
  }

  /** One more trial: it becomes the best one exactly when it is cheaper. */
  lemma BestOf(trials: seq<seq<int>>, part: seq<int>, comm: Matrix, at: nat, some: bool)
    requires Square(comm, |comm|) && |comm| <= |part| && (some <==> trials != [])
    requires some ==> FirstBest(trials, comm, at)
    ensures var more := trials + [part];
            if some && PairCut(comm, trials[at], |comm|) <= PairCut(comm, part, |comm|) then FirstBest(more, comm, at)
            else FirstBest(more, comm, |trials|)
  {
    hide PairCut;
  }

  lemma TrialSplit(seeded: seq<int>, part: seq<int>, k: nat, cap: nat, constraints: seq<int>, comm: Matrix)
    requires Square(comm, |comm|) && Trial(seeded, part, k, cap, constraints, comm)
    ensures Split(part, k, cap, constraints) && |part| == k * cap && Tried(part, k, cap, constraints, comm)
  {
    hide Joined;
  }

  /** `tm_kpartition` with the greedy partitioner: uneven splits are refused. */
  method KPartition(k: nat, comm: Matrix, n: nat, constraints: seq<int>)
    returns (res: Option<seq<int>>, ghost trials: seq<seq<int>>)
    requires 0 < k <= n && |comm| <= n && Square(comm, |comm|) && NonNegative(comm, |comm|)
    requires Increasing(constraints) && (|constraints| <= n ==> Within(constraints, 0, n))
    ensures res.Some? <==> n % k == 0 && |constraints| <= n
    ensures res.Some? ==> Split(res.value, k, n / k, constraints)
    ensures res.Some? ==> Chosen(res.value, trials, k, n / k, constraints, comm)
  {
    trials := [];
    if n % k != 0 { return None, trials; }
    assert n == k * (n / k);
    res, trials := KPartitionGreedy(k, comm, n, constraints);
  }
}
