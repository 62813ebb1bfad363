/** The Kernighan-Lin style k-way partitioner: vertices move one at a time to the
    block that attracts them most, driven by three families of priority queues. */
module KPartition {
  import opened Arithmetic
  import opened PartitionWeights
  import opened QueueSpec

  // ---------- Invariants, as predicates over the arrays and queues ----------

  /** `Qinst[v]` holds the weights into the blocks that v has not been moved to yet. */
  ghost predicate InstAt(row: seq<real>, inst: Queue)
  {
    forall p | p in inst :: 0 <= p < |row| && inst[p] == row[p]
  }

  /** The gain under which v is queued in its own block. */
  ghost function Gain(row: seq<real>, inst: Queue, p: int): real
    requires 0 <= p < |row|
  {
    MaxKey(inst) - row[p]
  }

  ghost predicate QueuedAt(q: Queue, v: int, row: seq<real>, inst: Queue, p: int)
  {
    && 0 <= p < |row|
    && (v in q <==> inst != map[])
    && (v in q ==> q[v] == Gain(row, inst, p))
  }

  ghost predicate OwnAt(part: seq<int>, q: Queue, p: int)
  {
    forall v | v in q :: 0 <= v < |part| && part[v] == p
  }

  /** The key of a block never promises a gain its own queue does not have. */
  ghost predicate PartAt(qpart: Queue, q: Queue, p: int)
  {
    p in qpart && (qpart[p] > 0.0 ==> q != map[] && qpart[p] <= MaxKey(q))
  }

  /** Every block but one is queued under the greatest gain of its own queue. */
  ghost predicate Exact(Q: seq<Queue>, Qpart: Queue, but: int)
  {
    forall p: nat | p < |Q| && p != but :: ExactAt(Qpart, Q[p], p)
  }

  ghost predicate ExactAt(qpart: Queue, q: Queue, p: int)
  {
    p in qpart && qpart[p] == MaxKey(q)
  }

  /** Refreshing the key of block p leaves no doubt about it. */
  lemma Refreshed(Q: seq<Queue>, Qpart: Queue, p: nat, q: Queue, but: int)
    requires p < |Q| && Exact(Q, Qpart, but)
    ensures Exact(Q[p := q], Qpart[p := MaxKey(q)], if p == but then -1 else but)
  {
    var Q2, Qpart2 := Q[p := q], Qpart[p := MaxKey(q)];
    forall b: nat | b < |Q2| && b != (if p == but then -1 else but) ensures ExactAt(Qpart2, Q2[b], b) {
      assert b != p ==> ExactAt(Qpart, Q[b], b);
    }
  }

  /** A block queued under another key, as the block of the vertex moved last is. */
  lemma Overwritten(Q: seq<Queue>, Qpart: Queue, p: nat, q: Queue, key: real)
    requires p < |Q| && Exact(Q, Qpart, -1)
    ensures Exact(Q[p := q], Qpart[p := key], p)
  {
    var Q2, Qpart2 := Q[p := q], Qpart[p := key];
    forall b: nat | b < |Q2| && b != p ensures ExactAt(Qpart2, Q2[b], b) { assert ExactAt(Qpart, Q[b], b); }
  }

  ghost predicate VertexOk(part: seq<int>, D: Matrix, Q: seq<Queue>, Qinst: seq<Queue>, v: nat, skip: int)
    requires v < |part| && v < |D| && v < |Qinst|
  {
    && 0 <= part[v] < |Q| && |D[v]| == |Q|
    && InstAt(D[v], Qinst[v])
    && (v != skip ==> QueuedAt(Q[part[v]], v, D[v], Qinst[v], part[v]))
  }

  ghost predicate BlockOk(part: seq<int>, Q: seq<Queue>, Qpart: Queue, p: nat, skip: int)
    requires p < |Q|
  {
    OwnAt(part, Q[p], p) && skip !in Q[p] && PartAt(Qpart, Q[p], p)
  }

  /** All queues agree with D; vertex `skip` is out of the block queues. */
  ghost predicate Consistent(part: seq<int>, D: Matrix, Q: seq<Queue>, Qinst: seq<Queue>, Qpart: Queue, skip: int)
  {
    && |D| == |part| && |Qinst| == |part|
    && (forall v: nat | v < |part| :: VertexOk(part, D, Q, Qinst, v, skip))
    && (forall p: nat | p < |Q| :: BlockOk(part, Q, Qpart, p, skip))
    && (forall p | p in Qpart :: 0 <= p < |Q|)
  }

  ghost predicate WeightRow(m: Matrix, part: seq<int>, row: seq<real>, v: nat)
    requires v < |m| && |part| <= |m[v]|
  {
    forall p | 0 <= p < |row| :: row[p] == Weight(m, part, v, p, |part|)
  }

  function Total(Qinst: seq<Queue>): nat
  {
    if Qinst == [] then 0 else Total(Qinst[..|Qinst| - 1]) + |Qinst[|Qinst| - 1]|
  }

  lemma {:induction false} TotalDrop(Qinst: seq<Queue>, u: nat, q: Queue)
    requires u < |Qinst|
    ensures Total(Qinst[u := q]) == Total(Qinst) - |Qinst[u]| + |q|
  {
    var last := |Qinst| - 1;
    if u == last {
      assert Qinst[u := q][..last] == Qinst[..last];
    } else {
      assert Qinst[u := q][..last] == Qinst[..last][u := q];
      TotalDrop(Qinst[..last], u, q);
    }
  }

  /** One turn of the neighbour loop: row, queue of v, key of v and key of its block. */
  lemma RowUpdate(part: seq<int>, D: Matrix, Q: seq<Queue>, Qinst: seq<Queue>, Qpart: Queue, u: int, v: nat,
                  row: seq<real>, inst: Queue)
    requires Consistent(part, D, Q, Qinst, Qpart, u) && v < |part|
    requires |row| == |Q| && InstAt(row, inst) && inst.Keys == Qinst[v].Keys
    ensures 0 <= part[v] < |row|
    ensures var p := part[v];
            var q := Adjust(Q[p], v, Gain(row, inst, p));
            Consistent(part, D[v := row], Q[p := q], Qinst[v := inst], Adjust(Qpart, p, MaxKey(q)), u)
  {
    assert VertexOk(part, D, Q, Qinst, v, u);
    var p := part[v];
    assert BlockOk(part, Q, Qpart, p, u);
    var q := Adjust(Q[p], v, Gain(row, inst, p));
    var D2, Q2, Qinst2, Qpart2 := D[v := row], Q[p := q], Qinst[v := inst], Adjust(Qpart, p, MaxKey(q));
    PositiveMax(q);
    assert inst != map[] <==> Qinst[v] != map[] by {
      assert inst == map[] <==> inst.Keys == {};
      assert Qinst[v] == map[] <==> Qinst[v].Keys == {};
    }
    forall w: nat | w < |part| ensures VertexOk(part, D2, Q2, Qinst2, w, u) {
      assert VertexOk(part, D, Q, Qinst, w, u);
    }
    forall b: nat | b < |Q2| ensures BlockOk(part, Q2, Qpart2, b, u) {
      assert BlockOk(part, Q, Qpart, b, u);
    }
  }

  /** Taking the best vertex of block p out of its queue and refreshing the key of p. */
  lemma TakeOut(part: seq<int>, D: Matrix, Q: seq<Queue>, Qinst: seq<Queue>, Qpart: Queue, p: nat, u: int)
    requires Consistent(part, D, Q, Qinst, Qpart, -1) && p < |Q| && u in Q[p]
    ensures 0 <= u < |part| && part[u] == p && |D[u]| == |Q| && Qinst[u] != map[] && Q[p][u] == Gain(D[u], Qinst[u], p)
    ensures var q := Q[p] - {u};
            Consistent(part, D, Q[p := q], Qinst, Qpart[p := MaxKey(q)], u)
  {
    assert BlockOk(part, Q, Qpart, p, -1);
    assert VertexOk(part, D, Q, Qinst, u, -1);
    var q := Q[p] - {u};
    PositiveMax(q);
    var Q2, Qpart2 := Q[p := q], Qpart[p := MaxKey(q)];
    forall v: nat | v < |part| ensures VertexOk(part, D, Q2, Qinst, v, u) {
      assert VertexOk(part, D, Q, Qinst, v, -1);
    }
    forall b: nat | b < |Q| ensures BlockOk(part, Q2, Qpart2, b, u) {
      assert BlockOk(part, Q, Qpart, b, -1);
    }
  }

  /** The target chosen for u is another block, and moving there gains what the queue promised. */
  lemma Target(row: seq<real>, inst: Queue, p: int, j: int)
    requires InstAt(row, inst) && 0 <= p < |row| && IsMax(inst, j) && Gain(row, inst, p) > 0.0
    ensures 0 <= j < |row| && j != p && row[j] - row[p] == Gain(row, inst, p)
  {
    MaxKeyIs(inst, j);
  }

  lemma UseTarget(part: seq<int>, D: Matrix, Q: seq<Queue>, Qinst: seq<Queue>, Qpart: Queue, u: nat, j: int)
    requires Consistent(part, D, Q, Qinst, Qpart, u) && u < |part|
    ensures Consistent(part, D, Q, Qinst[u := Qinst[u] - {j}], Qpart, u)
  {
    var Qinst2 := Qinst[u := Qinst[u] - {j}];
    forall v: nat | v < |part| ensures VertexOk(part, D, Q, Qinst2, v, u) {
      assert VertexOk(part, D, Q, Qinst, v, u);
    }
  }

  /** Putting u into its new block j, as the end of a step does. */
  lemma PutBack(part: seq<int>, D: Matrix, Q: seq<Queue>, Qinst: seq<Queue>, Qpart: Queue, u: nat, j: nat)
    requires Consistent(part, D, Q, Qinst, Qpart, u) && u < |part| && j < |Q|
    requires |D[u]| == |Q| && D[u][j] >= 0.0
    ensures var d := Gain(D[u], Qinst[u], j);
            var Q2 := if Qinst[u] != map[] then Q[j := Q[j][u := d]] else Q;
            Consistent(part[u := j], D, Q2, Qinst, Adjust(Qpart, j, d), -1)
  {
    var d := Gain(D[u], Qinst[u], j);
    var part2, Q2, Qpart2 := part[u := j], if Qinst[u] != map[] then Q[j := Q[j][u := d]] else Q, Adjust(Qpart, j, d);
    assert BlockOk(part, Q, Qpart, j, u);
    if Qinst[u] != map[] {
      KeyBelowMax(Q2[j], u);
    } else {
      PositiveMax(Qinst[u]);
    }
    forall v: nat | v < |part2| ensures VertexOk(part2, D, Q2, Qinst, v, -1) {
      assert VertexOk(part, D, Q, Qinst, v, u);
    }
    forall b: nat | b < |Q2| ensures BlockOk(part2, Q2, Qpart2, b, -1) {
      assert BlockOk(part, Q, Qpart, b, u);
    }
  }

  // ---------- Runs ----------

  /** What a step of the refinement depends on: the partition, the blocks that each vertex may still move to, the blocks
      with one vertex too few and too many (equal when the partition is balanced), and the vertex moved last. */
  datatype State = State(part: seq<int>, open: seq<set<int>>, deficit: int, surplus: int, last: int)

  ghost predicate StateOk(s: State, n: nat, k: nat)
  {
    |s.part| == |s.open| == n && forall v | 0 <= v < n :: 0 <= s.part[v] < k
  }

  /** The blocks that are still in the queues of the vertices. */
  ghost function Opened(Qinst: seq<Queue>): seq<set<int>>
  {
    seq(|Qinst|, v requires 0 <= v < |Qinst| => Qinst[v].Keys)
  }

  lemma OpenedLess(before: seq<Queue>, after: seq<Queue>, u: nat, j: int)
    requires |after| == |before| && u < |before|
    requires forall v | 0 <= v < |before| :: after[v].Keys == before[v].Keys - if v == u then {j} else {}
    ensures |Opened(before)| == |before| && Opened(after) == Opened(before)[u := Opened(before)[u] - {j}]
  {
    var less := Opened(before)[u := Opened(before)[u] - {j}];
    forall v | 0 <= v < |before| ensures Opened(after)[v] == less[v] {
      assert v != u ==> before[v].Keys - {} == before[v].Keys;
    }
  }

  /** What a move of v to block j gains. */
  ghost function GainOf(comm: Matrix, part: seq<int>, v: nat, j: int): real
    requires Square(comm, |part|) && v < |part|
  {
    Weight(comm, part, v, j, |part|) - Weight(comm, part, v, part[v], |part|)
  }

  ghost predicate NoBetter(comm: Matrix, s: State, v: nat, best: real)
    requires Square(comm, |s.part|) && v < |s.part| == |s.open|
  {
    forall j | j in s.open[v] :: GainOf(comm, s.part, v, j) <= best
  }

  /** The vertices whose moves a step compares: those of the surplus block when the partition is off balance.  When it
      is balanced, all, except that the block of the last move is represented by the vertex moved last. */
  predicate Compared(s: State, v: nat)
    requires v < |s.part|
  {
    if s.deficit != s.surplus then s.part[v] == s.surplus else s.last < 0 || s.part[v] != s.surplus || v == s.last
  }

  /** One step: vertex u moves, for a positive gain, to an open block.  No move of a vertex of its block, and no move
      that is compared, gains more. */
  ghost predicate Moves(comm: Matrix, s: State, t: State, u: nat)
    requires Square(comm, |s.part|) && |s.part| == |s.open|
  {
    && u < |s.part| && t.surplus in s.open[u] && t.last == u
    && t.part == s.part[u := t.surplus] && t.open == s.open[u := s.open[u] - {t.surplus}]
    && t.deficit == (if s.deficit == s.surplus then s.part[u] else s.deficit)
    && (s.deficit != s.surplus ==> s.part[u] == s.surplus)
    && GainOf(comm, s.part, u, t.surplus) > 0.0
    && forall v: nat | v < |s.part| && (s.part[v] == s.part[u] || Compared(s, v)) ::
         NoBetter(comm, s, v, GainOf(comm, s.part, u, t.surplus))
  }

  /** No move that is compared gains anything. */
  ghost predicate AtRest(comm: Matrix, s: State)
    requires Square(comm, |s.part|) && |s.part| == |s.open|
  {
    forall v: nat | v < |s.part| && Compared(s, v) :: NoBetter(comm, s, v, 0.0)
  }

  /** Every state follows from the one before by a step. */
  ghost predicate Run(comm: Matrix, n: nat, k: nat, run: seq<State>)
    requires Square(comm, n)
  {
    && |run| > 0 && (forall i | 0 <= i < |run| :: StateOk(run[i], n, k))
    && forall i, j | 0 <= i && j == i + 1 && j < |run| :: Stepped(comm, run[i], run[j])
  }

  ghost predicate Stepped(comm: Matrix, s: State, t: State)
    requires Square(comm, |s.part|) && |s.part| == |s.open|
  {
    exists u :: Moves(comm, s, t, u)
  }

  lemma RunMore(comm: Matrix, n: nat, k: nat, run: seq<State>, t: State, u: nat)
    requires Square(comm, n) && Run(comm, n, k, run) && StateOk(t, n, k) && Moves(comm, run[|run| - 1], t, u)
    ensures Run(comm, n, k, run + [t])
  {
    hide Moves, Square;
    var more := run + [t];
    forall i, j | 0 <= i && j == i + 1 && j < |more| ensures Stepped(comm, more[i], more[j]) {
      if i < |run| - 1 { assert Stepped(comm, run[i], run[j]); }
    }
  }

  lemma RunOne(comm: Matrix, n: nat, k: nat, s: State)
    requires Square(comm, n) && StateOk(s, n, k)
    ensures Run(comm, n, k, [s])
  {
  }

  /** The last move: the vertex of the surplus block that loses least by it goes to the deficit block. */
  ghost predicate Evened(comm: Matrix, s: State, part: seq<int>)
    requires Square(comm, |s.part|)
  {
    if s.deficit == s.surplus then part == s.part else exists u :: EvenedBy(comm, s, part, u)
  }

  ghost predicate EvenedBy(comm: Matrix, s: State, part: seq<int>, u: nat)
    requires Square(comm, |s.part|)
  {
    && u < |s.part| && s.part[u] == s.surplus && part == s.part[u := s.deficit]
    && forall v: nat | v < |s.part| && s.part[v] == s.surplus ::
         GainOf(comm, s.part, v, s.deficit) <= GainOf(comm, s.part, u, s.deficit)
  }

  ghost function Start(initial: seq<int>, k: nat): State
  {
    State(initial, seq(|initial|, _ => Range(k)), 0, 0, -1)
  }

  /** The outcome of the refinement: a run from the initial partition until no move compared gains, and a last move if
      the partition is off balance. */
  ghost predicate Refined(comm: Matrix, k: nat, initial: seq<int>, part: seq<int>, run: seq<State>)
    requires Square(comm, |initial|)
  {
    && Run(comm, |initial|, k, run) && run[0] == Start(initial, k)
    && AtRest(comm, run[|run| - 1]) && Evened(comm, run[|run| - 1], part)
  }

  /** What the queues say about the moves of a vertex. */
  lemma QueuedBest(comm: Matrix, s: State, D: Matrix, Q: seq<Queue>, Qinst: seq<Queue>, Qpart: Queue, v: nat)
    requires Square(comm, |s.part|) && v < |s.part| == |s.open| && Consistent(s.part, D, Q, Qinst, Qpart, -1)
    requires |D[v]| == |Q| && WeightRow(comm, s.part, D[v], v) && s.open[v] == Qinst[v].Keys
    ensures 0 <= s.part[v] < |Q| && NoBetter(comm, s, v, Gain(D[v], Qinst[v], s.part[v]))
    ensures s.open[v] != {} ==> Gain(D[v], Qinst[v], s.part[v]) <= MaxKey(Q[s.part[v]])
  {
    assert VertexOk(s.part, D, Q, Qinst, v, -1);
    forall j | j in s.open[v] ensures GainOf(comm, s.part, v, j) <= Gain(D[v], Qinst[v], s.part[v]) {
      KeyBelowMax(Qinst[v], j);
    }
    if s.open[v] != {} {
      assert Qinst[v] != map[];
      KeyBelowMax(Q[s.part[v]], v);
    }
  }

  ghost predicate Rows(comm: Matrix, part: seq<int>, D: Matrix, k: nat)
    requires Square(comm, |part|)
  {
    |D| == |part| && forall v | 0 <= v < |part| :: |D[v]| == k && WeightRow(comm, part, D[v], v)
  }

  /** The queues and the state that they stand for. */
  ghost predicate Backed(comm: Matrix, s: State, D: Matrix, Q: seq<Queue>, Qinst: seq<Queue>, Qpart: Queue)
    requires Square(comm, |s.part|)
  {
    && Consistent(s.part, D, Q, Qinst, Qpart, -1) && Rows(comm, s.part, D, |Q|)
    && |s.open| == |s.part| == |Qinst| && (forall v | 0 <= v < |s.part| :: s.open[v] == Qinst[v].Keys)
    && 0 <= s.surplus < |Q| && s.last < |s.part| && Exact(Q, Qpart, if s.last < 0 then -1 else s.surplus)
    && (s.last >= 0 ==> s.part[s.last] == s.surplus && |D[s.last]| > s.surplus && s.surplus in Qpart)
    && (s.last >= 0 ==> Qpart[s.surplus] == Gain(D[s.last], Qinst[s.last], s.surplus))
  }

  /** A bound on the keys that a step compares bounds the gains that it compares. */
  lemma ComparedBest(comm: Matrix, s: State, D: Matrix, Q: seq<Queue>, Qinst: seq<Queue>, Qpart: Queue, v: nat,
                     best: real)
    requires Square(comm, |s.part|) && Backed(comm, s, D, Q, Qinst, Qpart) && v < |s.part| && Compared(s, v)
    requires if s.deficit == s.surplus then forall p | p in Qpart :: Qpart[p] <= best else MaxKey(Q[s.surplus]) <= best
    ensures NoBetter(comm, s, v, best)
  {
    QueuedBest(comm, s, D, Q, Qinst, Qpart, v);
    hide Consistent, WeightRow, Gain, MaxKey;
    if s.deficit == s.surplus {
      if s.last >= 0 && v == s.last {
        assert Qpart[s.surplus] <= best;
      } else {
        assert ExactAt(Qpart, Q[s.part[v]], s.part[v]);
      }
    }
  }

  /** The moves of the mover's own block. */
  lemma BlockBest(comm: Matrix, s: State, D: Matrix, Q: seq<Queue>, Qinst: seq<Queue>, Qpart: Queue, u: nat, v: nat)
    requires Square(comm, |s.part|) && Backed(comm, s, D, Q, Qinst, Qpart) && u < |s.part| && v < |s.part|
    requires s.part[v] == s.part[u]
    ensures 0 <= s.part[u] < |Q| && NoBetter(comm, s, v, MaxKey(Q[s.part[u]]))
  {
    QueuedBest(comm, s, D, Q, Qinst, Qpart, v);
    hide Consistent, WeightRow, Gain, MaxKey;
  }

  lemma MoverGain(comm: Matrix, s: State, D: Matrix, Q: seq<Queue>, Qinst: seq<Queue>, Qpart: Queue, u: nat, j: int)
    requires Square(comm, |s.part|) && Backed(comm, s, D, Q, Qinst, Qpart) && u < |s.part| && 0 <= s.part[u] < |Q|
    requires IsMax(Q[s.part[u]], u) && IsMax(Qinst[u], j)
    ensures GainOf(comm, s.part, u, j) == MaxKey(Q[s.part[u]]) && j in s.open[u]
  {
    assert VertexOk(s.part, D, Q, Qinst, u, -1);
    MaxKeyIs(Q[s.part[u]], u);
    MaxKeyIs(Qinst[u], j);
  }

  /** A step of the queues is a step of the run. */
  lemma StepMoves(comm: Matrix, s: State, D: Matrix, Q: seq<Queue>, Qinst: seq<Queue>, Qpart: Queue, u: nat, t: State)
    requires Square(comm, |s.part|) && Backed(comm, s, D, Q, Qinst, Qpart) && u < |s.part| && 0 <= s.part[u] < |Q|
    requires IsMax(Q[s.part[u]], u) && IsMax(Qinst[u], t.surplus)
    requires if s.deficit == s.surplus then IsMax(Qpart, s.part[u]) && MaxKey(Qpart) > 0.0
             else s.part[u] == s.surplus && MaxKey(Q[s.surplus]) > 0.0
    requires t.part == s.part[u := t.surplus] && t.open == s.open[u := s.open[u] - {t.surplus}] && t.last == u
    requires t.deficit == if s.deficit == s.surplus then s.part[u] else s.deficit
    ensures Moves(comm, s, t, u)
  {
    MoverGain(comm, s, D, Q, Qinst, Qpart, u, t.surplus);
    var gain := GainOf(comm, s.part, u, t.surplus);
    if s.deficit == s.surplus {
      MaxKeyIs(Qpart, s.part[u]);
      PromisedGain(s.part, Q, Qpart, D, Qinst, s.part[u]);
    }
    hide Consistent, WeightRow, MaxKey, Exact, NoBetter;
    forall v: nat | v < |s.part| && (s.part[v] == s.part[u] || Compared(s, v)) ensures NoBetter(comm, s, v, gain) {
      if s.part[v] == s.part[u] {
        BlockBest(comm, s, D, Q, Qinst, Qpart, u, v);
      } else {
        ComparedBest(comm, s, D, Q, Qinst, Qpart, v, gain);
      }
    }
  }

  lemma PromisedGain(part: seq<int>, Q: seq<Queue>, Qpart: Queue, D: Matrix, Qinst: seq<Queue>, p: nat)
    requires Consistent(part, D, Q, Qinst, Qpart, -1) && p < |Q| && p in Qpart && Qpart[p] > 0.0
    ensures 0.0 < Qpart[p] <= MaxKey(Q[p])
  {
    assert BlockOk(part, Q, Qpart, p, -1);
  }

  /** Without a positive key the run is at rest. */
  lemma NoKeyNoMove(comm: Matrix, s: State, D: Matrix, Q: seq<Queue>, Qinst: seq<Queue>, Qpart: Queue)
    requires Square(comm, |s.part|) && Backed(comm, s, D, Q, Qinst, Qpart)
    requires (if s.deficit == s.surplus then MaxKey(Qpart) else MaxKey(Q[s.surplus])) <= 0.0
    ensures AtRest(comm, s)
  {
    hide Consistent, WeightRow, Exact, NoBetter;
    if s.deficit == s.surplus {
      forall p | p in Qpart ensures Qpart[p] <= 0.0 { KeyBelowMax(Qpart, p); }
    }
    forall v: nat | v < |s.part| && Compared(s, v) ensures NoBetter(comm, s, v, 0.0) {
      ComparedBest(comm, s, D, Q, Qinst, Qpart, v, 0.0);
    }
  }

  // ---------- The partitioner ----------

  class Partitioner {
    /** Number of vertices, number of blocks and communication matrix. */
    const n: nat
    const k: nat
    const comm: Matrix
    var part: seq<int>
    var D: Matrix
    var Q: seq<Queue>
    var Qinst: seq<Queue>
    var Qpart: Queue
    var deficit: int
    var surplus: int
    ghost var last: int   // the vertex moved last, -1 before the first move

    ghost predicate Inputs()
    {
      k > 0 && Square(comm, n) && Symmetric(comm, n) && NonNegative(comm, n)
    }

    ghost predicate WeightsOk()
      reads this
      requires Inputs()
    {
      |part| == n && |D| == n && forall v | 0 <= v < n :: |D[v]| == k && WeightRow(comm, part, D[v], v)
    }

    ghost predicate Valid()
      reads this
    {
      && Inputs() && |Q| == k && 0 <= deficit < k && 0 <= surplus < k
      && WeightsOk()
      && Consistent(part, D, Q, Qinst, Qpart, -1)
      && Exact(Q, Qpart, Doubtful()) && -1 <= last < n && |Qinst| == n
      && (last >= 0 ==> part[last] == surplus)
      && (last >= 0 ==> surplus in Qpart && Qpart[surplus] == Gain(D[last], Qinst[last], surplus))
    }

    /** The one block whose key need not be its greatest gain: that of the vertex moved last. */
    ghost function Doubtful(): int
      reads this
    {
      if last < 0 then -1 else surplus
    }

    /** No vertex has a positive gain from a block it has not been moved to yet. */
    ghost predicate NoGainLeft()
      reads this
    {
      forall p: nat | p < |Q| :: MaxKey(Q[p]) <= 0.0
    }

    /** Size of block p when the partition is `off` balance. */
    ghost predicate Sized(sizes: seq<nat>)
      reads this
    {
      && |sizes| == k && |part| == n
      && forall p | 0 <= p < k :: Count(part, p, n) == sizes[p] + Drift(deficit, surplus, p)
    }

    /** Gain that the next step would have. */
    ghost function NextGainSpec(): real
      reads this
      requires |Q| == k && 0 <= surplus < k
    {
      if deficit == surplus then MaxKey(Qpart) else MaxKey(Q[surplus])
    }

    ghost function Now(): State
      reads this
      requires |Qinst| == n
    {
      State(part, Opened(Qinst), deficit, surplus, last)
    }

    lemma NowBacked()
      requires Valid()
      ensures Backed(comm, Now(), D, Q, Qinst, Qpart) && StateOk(Now(), n, k)
    {
      InRange(part, D, Q, Qinst, Qpart);
      forall v | 0 <= v < n ensures |D[v]| == k { InstOf(part, D, Q, Qinst, Qpart, -1, v); }
    }

    /** Allocation: an initial partition and empty tables. */
    constructor (m: Matrix, blocks: nat, p: seq<int>)
      ensures n == |p| && k == blocks && comm == m && part == p
    {
      n, k, comm, part := |p|, blocks, m, p;
      D, Q, Qinst, Qpart, deficit, surplus, last := [], [], [], map[], 0, 0, -1;
    }

    /** `initialization` */
    method Initialization()
      requires Inputs() && |part| == n && forall v | 0 <= v < n :: 0 <= part[v] < k
      modifies this
      ensures Valid() && part == old(part) && deficit == surplus == 0 && last == -1
      ensures Total(Qinst) == n * k && forall v | 0 <= v < n :: Qinst[v].Keys == Range(k)
    {
      hide Consistent, InstAt, QueuedAt, OwnAt, WeightRow, Square, Symmetric, NonNegative, Exact, Total, Range, Gain;
      ComputeWeights();
      FillInstances();
      FillBlocks();
      FillParts();
      surplus, deficit, last := 0, 0, -1;
    }

    method ComputeWeights()
      requires Inputs() && |part| == n && forall v | 0 <= v < n :: 0 <= part[v] < k
      modifies this`D
      ensures WeightsOk()
    {
      D := seq(n, _ => seq(k, _ => 0.0));
      for i := 0 to n
        invariant |D| == n && forall v | 0 <= v < n :: |D[v]| == k
        invariant forall v | 0 <= v < i :: WeightRow(comm, part, D[v], v)
        invariant forall v, p | i <= v < n && 0 <= p < k :: D[v][p] == 0.0
      {
        for j := 0 to n
          invariant |D| == n && forall v | 0 <= v < n :: |D[v]| == k
          invariant forall v | 0 <= v < i :: WeightRow(comm, part, D[v], v)
          invariant forall v, p | i < v < n && 0 <= p < k :: D[v][p] == 0.0
          invariant forall p | 0 <= p < k :: D[i][p] == Weight(comm, part, i, p, j)
        {
          D := D[i := D[i][part[j] := D[i][part[j]] + comm[i][j]]];
        }
      }
    }

    method FillInstances()
      requires Inputs() && WeightsOk()
      modifies this`Qinst
      ensures |Qinst| == n && forall v | 0 <= v < n :: Qinst[v].Keys == Range(k) && InstAt(D[v], Qinst[v])
      ensures Total(Qinst) == n * k
    {
      Qinst := seq(n, _ => map[]);
      for i := 0 to n
        invariant |Qinst| == n
        invariant forall v | 0 <= v < i :: Qinst[v].Keys == Range(k) && InstAt(D[v], Qinst[v])
      {
        var inst := FillInstance(D[i]);
        Qinst := Qinst[i := inst];
      }
      forall v | 0 <= v < n ensures |Qinst[v]| == k {
        assert |Qinst[v]| == |Qinst[v].Keys|;
      }
      TotalUniform(Qinst, k);
    }

    method FillInstance(row: seq<real>) returns (inst: Queue)
      requires |row| == k
      ensures inst.Keys == Range(k) && InstAt(row, inst)
    {
      hide Range, InstAt;
      NoInst(row);
      inst := map[];
      for j := 0 to k
        invariant inst.Keys == Range(j) && InstAt(row, inst)
      {
        InstMore(row, inst, j);
        inst := inst[j := row[j]];
      }
    }

    method FillBlocks()
      requires Inputs() && WeightsOk() && |Qinst| == n && forall v | 0 <= v < n :: 0 <= part[v] < k
      requires forall v | 0 <= v < n :: Qinst[v].Keys == Range(k) && InstAt(D[v], Qinst[v])
      modifies this`Q
      ensures |Q| == k && forall p | 0 <= p < k :: OwnAt(part, Q[p], p)
      ensures forall v | 0 <= v < n :: QueuedAt(Q[part[v]], v, D[v], Qinst[v], part[v])
    {
      hide WeightRow, InstAt;
      Q := seq(k, _ => map[]);
      for i := 0 to n
        invariant |Q| == k && Filled(part, D, Q, Qinst, i)
      {
        assert 0 in Qinst[i];
        var max := FindMaxKey(Qinst[i]);
        FillOne(part, D, Q, Qinst, i);
        Q := Q[part[i] := Q[part[i]][i := max - D[i][part[i]]]];
      }
      forall p | 0 <= p < k ensures OwnAt(part, Q[p], p) { assert OwnBelow(part, Q[p], p, n); }
      forall v | 0 <= v < n
        ensures QueuedAt(Q[part[v]], v, D[v], Qinst[v], part[v])
      {
        assert InQueue(part, D, Q, Qinst, v);
      }
    }

    method FillParts()
      requires Inputs() && WeightsOk() && |Q| == k && |Qinst| == n && forall v | 0 <= v < n :: 0 <= part[v] < k
      requires forall v | 0 <= v < n :: InstAt(D[v], Qinst[v])
      requires forall p | 0 <= p < k :: OwnAt(part, Q[p], p)
      requires forall v | 0 <= v < n :: QueuedAt(Q[part[v]], v, D[v], Qinst[v], part[v])
      modifies this`Qpart
      ensures Consistent(part, D, Q, Qinst, Qpart, -1) && Exact(Q, Qpart, -1)
    {
      Qpart := map[];
      for i := 0 to k
        invariant forall p | p in Qpart :: 0 <= p < k
        invariant forall p | 0 <= p < i :: PartAt(Qpart, Q[p], p) && ExactAt(Qpart, Q[p], p)
      {
        PositiveMax(Q[i]);
        var d := FindMaxKey(Q[i]);
        Qpart := Qpart[i := d];
      }
      forall v: nat | v < |part| ensures VertexOk(part, D, Q, Qinst, v, -1) { }
      forall p: nat | p < |Q| ensures BlockOk(part, Q, Qpart, p, -1) { }
    }

    /** `nextGain` */
    method NextGain() returns (gain: real)
      requires |Q| == k && 0 <= surplus < k
      ensures gain == NextGainSpec()
    {
      if deficit == surplus {
        gain := FindMaxKey(Qpart);
      } else {
        gain := FindMaxKey(Q[surplus]);
      }
    }

    /** First half of `algo`: the best vertex of the best block, or of the surplus block, leaves its queue. */
    method ChooseMover() returns (u: nat)
      requires Valid() && NextGainSpec() > 0.0
      modifies this`Q, this`Qpart, this`deficit
      ensures |Q| == k && 0 <= deficit < k && u < n && 0 <= part[u] < k
      ensures Consistent(part, D, Q, Qinst, Qpart, u)
      ensures Qinst[u] != map[] && |D[u]| == k && Gain(D[u], Qinst[u], part[u]) > 0.0
      ensures if old(deficit) == surplus then deficit == part[u] else deficit == old(deficit) && part[u] == surplus
      ensures old(deficit) == surplus ==> IsMax(old(Qpart), part[u])
      ensures IsMax(old(Q)[part[u]], u) && Gain(D[u], Qinst[u], part[u]) == MaxKey(old(Q)[part[u]])
      ensures Exact(Q, Qpart, if part[u] == old(Doubtful()) then -1 else old(Doubtful()))
    {
      hide Consistent, WeightRow, Square, Symmetric, NonNegative, Gain, MaxKey, Exact;
      BlockKeys(part, D, Q, Qinst, Qpart, -1);
      var v: int;
      var q;
      if deficit == surplus {
        var p;
        p, Qpart := DeleteMax(Qpart);
        v, q := TakeBest(p, old(Qpart));
        Q := Q[p := q];
        deficit := part[v];
      } else {
        v, q := TakeBest(surplus, Qpart);
        Q := Q[surplus := q];
        Qpart := Qpart - {part[v]};
      }
      u := v;
      var d := FindMaxKey(Q[part[u]]);
      Qpart := Qpart[part[u] := d];
      assert Qpart == old(Qpart)[part[u] := d];
      Refreshed(old(Q), old(Qpart), part[u], Q[part[u]], old(Doubtful()));
    }

    method TakeBest(p: int, ghost qpart: Queue) returns (v: int, q: Queue)
      requires |Q| == k && 0 <= p < k && |part| == n && MaxKey(Q[p]) > 0.0 && Consistent(part, D, Q, Qinst, qpart, -1)
      ensures 0 <= v < n && part[v] == p && v < |D| && v < |Qinst| && |D[v]| == k
      ensures IsMax(Q[p], v) && q == Q[p] - {v} && Gain(D[v], Qinst[v], p) == MaxKey(Q[p])
      ensures Qinst[v] != map[] && Gain(D[v], Qinst[v], p) > 0.0
      ensures Consistent(part, D, Q[p := q], Qinst, qpart[p := MaxKey(q)], v)
    {
      PositiveMax(Q[p]);
      v, q := DeleteMax(Q[p]);
      TakeOut(part, D, Q, Qinst, qpart, p, v);
    }

    /** Neighbour loop of `algo`: u leaves block i for block j, and every row and queue follows. */
    method UpdateNeighbours(u: nat, i: int, j: int, ghost but: int, ghost member: nat)
      requires Inputs() && |Q| == k && WeightsOk()
      requires Consistent(part, D, Q, Qinst, Qpart, u) && |Qinst| == n
      requires u < n && part[u] == i && 0 <= i < k && 0 <= j < k && i != j
      requires Exact(Q, Qpart, but) && (but == -1 || (member < n && part[member] == but))
      modifies this`D, this`Q, this`Qinst, this`Qpart
      ensures |Q| == k && |D| == n && |Qinst| == n
      ensures Consistent(part, D, Q, Qinst, Qpart, u) && Exact(Q, Qpart, -1)
      ensures forall v | 0 <= v < n :: |D[v]| == k && WeightRow(comm, part[u := j], D[v], v)
      ensures forall v | 0 <= v < n :: Qinst[v].Keys == old(Qinst)[v].Keys
    {
      hide Exact;
      var v := 0;
      ghost var doubt := but;
      while v < n
        invariant 0 <= v <= n && |Q| == k && |D| == n && |Qinst| == n
        invariant Consistent(part, D, Q, Qinst, Qpart, u)
        invariant forall w | 0 <= w < v :: |D[w]| == k && WeightRow(comm, part[u := j], D[w], w)
        invariant forall w | v <= w < n :: D[w] == old(D)[w]
        invariant forall w | 0 <= w < n :: Qinst[w].Keys == old(Qinst)[w].Keys
        invariant Exact(Q, Qpart, doubt) && (doubt == -1 || (doubt == but && v <= member))
      {
        UpdateRow(u, i, j, v, doubt);
        if part[v] == doubt { doubt := -1; }
        v := v + 1;
      }
    }

    method UpdateRow(u: nat, i: int, j: int, v: nat, ghost but: int)
      requires Inputs() && |Q| == k && |D| == n && |Qinst| == n && |part| == n
      requires Consistent(part, D, Q, Qinst, Qpart, u)
      requires u < n && part[u] == i && 0 <= i < k && 0 <= j < k && i != j && v < n
      requires |D[v]| == k && WeightRow(comm, part, D[v], v) && Exact(Q, Qpart, but)
      modifies this`D, this`Q, this`Qinst, this`Qpart
      ensures |Q| == k && |D| == n && |Qinst| == n
      ensures Consistent(part, D, Q, Qinst, Qpart, u) && Exact(Q, Qpart, if part[v] == but then -1 else but)
      ensures D == old(D)[v := D[v]] && |D[v]| == k && WeightRow(comm, part[u := j], D[v], v)
      ensures Qinst == old(Qinst)[v := Qinst[v]] && Qinst[v].Keys == old(Qinst)[v].Keys
    {
      ghost var row, inst := MovedRow(D[v], i, j, comm[u][v]),
          AdjustTwo(Qinst[v], i, j, MovedRow(D[v], i, j, comm[u][v]));
      hide Consistent, Symmetric, NonNegative, Exact;
      InstOf(part, D, Q, Qinst, Qpart, u, v);
      PartKeys(part, D, Q, Qinst, Qpart, u);
      Refreshed(Q, Qpart, part[v], Adjust(Q[part[v]], v, Gain(row, inst, part[v])), but);
      MovedRowOk(comm, part, D[v], Qinst[v], u, v, i, j);
      RowUpdate(part, D, Q, Qinst, Qpart, u, v, row, inst);
      hide WeightRow;
      D := D[v := D[v][i := D[v][i] - comm[u][v]]];
      Qinst := Qinst[v := Adjust(Qinst[v], i, D[v][i])];
      D := D[v := D[v][j := D[v][j] + comm[u][v]]];
      Qinst := Qinst[v := Adjust(Qinst[v], j, D[v][j])];
      assert D[v] == row && Qinst[v] == inst;
      var max := FindMaxKey(Qinst[v]);
      var d := max - D[v][part[v]];
      Q := Q[part[v] := Adjust(Q[part[v]], v, d)];
      d := FindMaxKey(Q[part[v]]);
      Qpart := Adjust(Qpart, part[v], d);
      assert D == old(D)[v := row] && Qinst == old(Qinst)[v := inst];
    }

    /** `algo`: one vertex moves to the block that attracts it most. */
    method Algo(ghost sizes: seq<nat>) returns (ghost mover: nat)
      requires Valid() && NextGainSpec() > 0.0 && Sized(sizes)
      modifies this
      ensures Valid() && Sized(sizes)
      ensures Total(Qinst) == Total(old(Qinst)) - 1
      ensures mover < n && part == old(part)[mover := surplus] && old(part)[mover] != surplus && last == mover
      ensures if old(deficit) == old(surplus) then IsMax(old(Qpart), old(part)[mover])
          else old(part)[mover] == old(surplus)
      ensures deficit == if old(deficit) == old(surplus) then old(part)[mover] else old(deficit)
      ensures IsMax(old(Q)[old(part)[mover]], mover) && IsMax(old(Qinst)[mover], surplus)
      ensures forall v | 0 <= v < n :: Qinst[v].Keys == old(Qinst)[v].Keys - if v == mover then {surplus} else {}
      ensures Cut(comm, part, n) == Cut(comm, old(part), n) - MaxKey(old(Q)[old(part)[mover]]) - comm[mover][mover]
      ensures Cut(comm, part, n) < Cut(comm, old(part), n)
      ensures Moves(comm, old(Now()), Now(), mover)
    {
      hide Consistent, WeightRow, Square, Symmetric, NonNegative, InstAt, Count, Drift, Cut, Total, Gain, Exact, MaxKey,
          IsMax, Backed, Moves, Opened;
      NowBacked();
      var u := ChooseMover();
      mover := u;
      InstOf(part, D, Q, Qinst, Qpart, u, u);
      var j, inst := DeleteMax(Qinst[u]);
      Target(D[u], Qinst[u], part[u], j);
      if j < 0 {
        assert false;
      }
      ghost var Qinst1 := Qinst[u := inst];
      UseTarget(part, D, Q, Qinst, Qpart, u, j);
      TotalDrop(Qinst, u, inst);
      MoveEffect(comm, part, D[u], u, j, k);
      SizedMove(part, sizes, u, j, old(deficit), surplus, deficit);
      Qinst := Qinst[u := inst];
      surplus := j;
      UpdateNeighbours(u, part[u], surplus, if part[u] == old(Doubtful()) then -1
          else old(Doubtful()), if last < 0 then 0 else last);
      TotalSame(Qinst1, Qinst);
      Settle(u);
      OpenedLess(old(Qinst), Qinst, u, surplus);
      StepMoves(comm, old(Now()), old(D), old(Q), old(Qinst), old(Qpart), u, Now());
    }

    /** Last lines of `algo`: u joins the surplus block. */
    method Settle(u: nat)
      requires Inputs() && |Q| == k && |part| == n && |D| == n && u < n
      requires 0 <= deficit < k && 0 <= surplus < k
      requires Consistent(part, D, Q, Qinst, Qpart, u) && Exact(Q, Qpart, -1)
      requires forall v | 0 <= v < n :: |D[v]| == k && WeightRow(comm, part[u := surplus], D[v], v)
      modifies this`part, this`Q, this`Qpart, this`last
      ensures Valid() && part == old(part)[u := surplus] && last == u
    {
      InstOf(part, D, Q, Qinst, Qpart, u, u);
      EntryNonNegative(comm, part[u := surplus], D[u], u, surplus);
      PutBack(part, D, Q, Qinst, Qpart, u, surplus);
      PartKeys(part, D, Q, Qinst, Qpart, u);
      hide Consistent, WeightRow, InstAt, Square, Symmetric, NonNegative, Exact;
      ghost var d0 := Gain(D[u], Qinst[u], surplus);
      Overwritten(Q, Qpart, surplus, if Qinst[u] != map[] then Q[surplus][u := d0] else Q[surplus], d0);
      last := u;
      part := part[u := surplus];
      var max := FindMaxKey(Qinst[u]);
      var d := max - D[u][part[u]];
      if Qinst[u] != map[] {
        Q := Q[part[u] := Q[part[u]][u := d]];
      }
      Qpart := Adjust(Qpart, part[u], d);
    }

    /** The main loop: steps while the next gain is positive.  It stops with a balanced partition and gains left exactly
        when the block of the last move hides one, and with an unbalanced partition and gains left exactly when another
        block than the surplus block has one. */
    method Search(ghost sizes: seq<nat>) returns (ghost cuts: seq<real>, ghost run: seq<State>)
      requires Valid() && Sized(sizes)
      modifies this
      ensures Valid() && Sized(sizes) && NextGainSpec() <= 0.0
      ensures |cuts| - 1 + Total(Qinst) == Total(old(Qinst)) && |cuts| >= 1
      ensures cuts[0] == Cut(comm, old(part), n) && cuts[|cuts| - 1] == Cut(comm, part, n)
      ensures forall s | 0 <= s < |cuts| - 1 :: cuts[s + 1] < cuts[s]
      ensures NoGainLeft() <==> if deficit == surplus then !Hidden() else OthersSettled()
      ensures Run(comm, n, k, run) && run[0] == old(Now()) && run[|run| - 1] == Now() && AtRest(comm, Now())
      ensures |run| == |cuts|
          && forall s | 0 <= s < |cuts| :: |run[s].part| == n && cuts[s] == Cut(comm, run[s].part, n)
    {
      hide Consistent, WeightRow, Symmetric, NonNegative, Cut, Total, Exact, Backed, Run, Moves, AtRest;
      cuts, run := [Cut(comm, part, n)], [Now()];
      NowBacked();
      RunOne(comm, n, k, Now());
      var gain := NextGain();
      while gain > 0.0
        invariant Valid() && Sized(sizes) && gain == NextGainSpec()
        invariant |cuts| - 1 + Total(Qinst) == Total(old(Qinst)) && |cuts| >= 1
        invariant cuts[0] == Cut(comm, old(part), n) && cuts[|cuts| - 1] == Cut(comm, part, n)
        invariant forall s | 0 <= s < |cuts| - 1 :: cuts[s + 1] < cuts[s]
        invariant Run(comm, n, k, run) && |run| == |cuts| && run[0] == old(Now()) && run[|run| - 1] == Now()
        invariant forall s | 0 <= s < |cuts| :: |run[s].part| == n && cuts[s] == Cut(comm, run[s].part, n)
        decreases Total(Qinst)
      {
        ghost var u := Algo(sizes);
        NowBacked();
        RunMore(comm, n, k, run, Now(), u);
        cuts, run := cuts + [Cut(comm, part, n)], run + [Now()];
        gain := NextGain();
      }
      Stopped();
      NowBacked();
      NoKeyNoMove(comm, Now(), D, Q, Qinst, Qpart);
    }

    /** The block of the last move is queued under a gain that is not positive although its queue has a positive one. */
    ghost predicate Hidden()
      reads this
    {
      0 <= surplus < |Q| && surplus in Qpart && Qpart[surplus] <= 0.0 < MaxKey(Q[surplus])
    }

    /** No other block than the surplus block is queued under a positive gain. */
    ghost predicate OthersSettled()
      reads this
    {
      forall p | p in Qpart && p != surplus :: Qpart[p] <= 0.0
    }

    /** What it means that the next gain is not positive. */
    lemma Stopped()
      requires Valid() && NextGainSpec() <= 0.0
      ensures NoGainLeft() <==> if deficit == surplus then !Hidden() else OthersSettled()
    {
      PartKeys(part, D, Q, Qinst, Qpart, -1);
      forall p: nat | p < k
        ensures p != surplus ==> Qpart[p] == MaxKey(Q[p])
      {
        assert p != surplus ==> ExactAt(Qpart, Q[p], p);
      }
      assert last < 0 ==> ExactAt(Qpart, Q[surplus], surplus);
      if deficit == surplus {
        forall p | p in Qpart ensures Qpart[p] <= 0.0 { KeyBelowMax(Qpart, p); }
      }
      KnownBlocks(part, D, Q, Qinst, Qpart, -1);
    }

    /** No gain is left exactly when every block a vertex may still move to attracts it no more than its own. */
    lemma NoGainMeans()
      requires Valid()
      ensures NoGainLeft() <==>
          forall v: nat, j | v < n && 0 <= part[v] < k && j in Qinst[v] && 0 <= j < k :: D[v][j] <= D[v][part[v]]
    {
      if NoGainLeft() {
        forall v: nat, j | v < n && 0 <= part[v] < k && j in Qinst[v] && 0 <= j < k ensures D[v][j] <= D[v][part[v]] {
          assert VertexOk(part, D, Q, Qinst, v, -1);
          KeyBelowMax(Qinst[v], j);
          KeyBelowMax(Q[part[v]], v);
        }
      } else {
        var p: nat :| p < |Q| && MaxKey(Q[p]) > 0.0;
        PositiveMax(Q[p]);
        var v :| IsMax(Q[p], v) && Q[p][v] == MaxKey(Q[p]);
        assert BlockOk(part, Q, Qpart, p, -1);
        assert VertexOk(part, D, Q, Qinst, v, -1);
        MaxExists(Qinst[v]);
        var j :| IsMax(Qinst[v], j);
        MaxKeyIs(Qinst[v], j);
        assert D[v][j] > D[v][part[v]];
      }
    }

    /** `balancing`: an unbalanced partition gets one last, best move from surplus to deficit. */
    method Balancing(ghost sizes: seq<nat>) returns (ghost mover: nat)
      requires Valid() && Sized(sizes)
      modifies this`part
      ensures |part| == n && forall p | 0 <= p < k :: Count(part, p, n) == sizes[p]
      ensures deficit == surplus ==> part == old(part)
      ensures deficit != surplus ==> mover < n && old(part)[mover] == surplus && part == old(part)[mover := deficit]
      ensures deficit != surplus ==> forall v | 0 <= v < n && old(part)[v] == surplus ::
                D[v][deficit] - D[v][surplus] <= D[mover][deficit] - D[mover][surplus]
      ensures Evened(comm, old(Now()), part)
    {
      mover := 0;
      if surplus != deficit {
        hide Consistent, WeightRow;
        var moves: Queue := map[];
        for i := 0 to n
          invariant forall v :: v in moves <==> 0 <= v < i && part[v] == surplus
          invariant forall v | v in moves :: moves[v] == D[v][deficit] - D[v][surplus]
        {
          if part[i] == surplus {
            moves := moves[i := D[i][deficit] - D[i][surplus]];
          }
        }
        ghost var w := CountWitness(part, surplus, n);
        assert w in moves;
        var v, rest := DeleteMax(moves);
        mover := v;
        forall p | 0 <= p < k ensures Count(part[v := deficit], p, n) == sizes[p] {
          CountMove(part, p, n, v, deficit);
        }
        part := part[v := deficit];
        BestEvened(comm, old(Now()), D, k, v, part);
      }
    }
  }

  lemma BestEvened(comm: Matrix, s: State, D: Matrix, k: nat, u: nat, part: seq<int>)
    requires Square(comm, |s.part|) && Rows(comm, s.part, D, k) && 0 <= s.deficit < k && 0 <= s.surplus < k
    requires s.deficit != s.surplus && u < |s.part| && s.part[u] == s.surplus && part == s.part[u := s.deficit]
    requires forall v | 0 <= v < |s.part| && s.part[v] == s.surplus ::
        D[v][s.deficit] - D[v][s.surplus] <= D[u][s.deficit] - D[u][s.surplus]
    ensures Evened(comm, s, part)
  {
    assert EvenedBy(comm, s, part, u);
  }

  ghost predicate OwnBelow(part: seq<int>, q: Queue, p: int, i: int)
  {
    forall v | v in q :: 0 <= v < i && v < |part| && part[v] == p
  }

  ghost predicate InQueue(part: seq<int>, D: Matrix, Q: seq<Queue>, Qinst: seq<Queue>, v: nat)
    requires v < |part| && v < |D| && v < |Qinst|
  {
    0 <= part[v] < |Q| && QueuedAt(Q[part[v]], v, D[v], Qinst[v], part[v])
  }

  /** The first i vertices are in the queues of their blocks, and nothing else is. */
  ghost predicate Filled(part: seq<int>, D: Matrix, Q: seq<Queue>, Qinst: seq<Queue>, i: nat)
  {
    && i <= |part| && |D| == |part| && |Qinst| == |part|
    && (forall p: nat | p < |Q| :: OwnBelow(part, Q[p], p, i))
    && (forall v: nat | v < i :: InQueue(part, D, Q, Qinst, v))
  }

  lemma FillOne(part: seq<int>, D: Matrix, Q: seq<Queue>, Qinst: seq<Queue>, i: nat)
    requires Filled(part, D, Q, Qinst, i) && i < |part| && 0 <= part[i] < |Q| && |D[i]| == |Q| && Qinst[i] != map[]
    ensures Filled(part, D, Q[part[i] := Q[part[i]][i := Gain(D[i], Qinst[i], part[i])]], Qinst, i + 1)
  {
    var Q2 := Q[part[i] := Q[part[i]][i := Gain(D[i], Qinst[i], part[i])]];
    forall p: nat | p < |Q2| ensures OwnBelow(part, Q2[p], p, i + 1) {
      assert OwnBelow(part, Q[p], p, i);
    }
    forall v: nat | v < i + 1 ensures InQueue(part, D, Q2, Qinst, v) {
      if v < i { assert InQueue(part, D, Q, Qinst, v); }
    }
  }

  lemma NoInst(row: seq<real>)
    ensures InstAt(row, map[]) && Range(0) == {}
  {
  }

  lemma InstMore(row: seq<real>, inst: Queue, j: nat)
    requires j < |row| && inst.Keys == Range(j) && InstAt(row, inst)
    ensures inst[j := row[j]].Keys == Range(j + 1) && InstAt(row, inst[j := row[j]])
  {
    assert inst[j := row[j]].Keys == inst.Keys + {j};
  }

  function Range(k: nat): (r: set<int>)
    ensures |r| == k && forall p :: p in r <==> 0 <= p < k
  {
    if k == 0 then {} else Range(k - 1) + {k - 1}
  }

  lemma {:induction false} TotalUniform(Qinst: seq<Queue>, k: nat)
    requires forall v | 0 <= v < |Qinst| :: |Qinst[v]| == k
    ensures Total(Qinst) == |Qinst| * k
  {
    if Qinst != [] {
      TotalUniform(Qinst[..|Qinst| - 1], k);
    }
  }

  // ---------- A search that stops too early ----------

  const EARLY: Matrix := [[0.0, 1.0, 0.0, 2.0, 0.0], [1.0, 0.0, 1.0, 0.0, 1.0], [0.0, 1.0, 0.0, 0.0, 0.0],
                          [2.0, 0.0, 0.0, 0.0, 2.0], [0.0, 1.0, 0.0, 2.0, 0.0]]

  lemma WeightFive(m: Matrix, part: seq<int>, v: nat, p: int)
    requires v < |m| && |m[v]| == 5 && |part| == 5
    ensures Weight(m, part, v, p, 5)
        == If(part[0] == p, m[v][0]) + If(part[1] == p, m[v][1]) + If(part[2] == p, m[v][2])
                                      + If(part[3] == p, m[v][3]) + If(part[4] == p, m[v][4])
  {
    assert Weight(m, part, v, p, 1) == If(part[0] == p, m[v][0]) by { assert Weight(m, part, v, p, 0) == 0.0; }
    assert Weight(m, part, v, p, 3) == Weight(m, part, v, p, 1) + If(part[1] == p, m[v][1]) + If(part[2] == p, m[v][2])
      by { assert Weight(m, part, v, p, 2) == Weight(m, part, v, p, 1) + If(part[1] == p, m[v][1]); }
    assert Weight(m, part, v, p, 4) == Weight(m, part, v, p, 3) + If(part[3] == p, m[v][3]);
  }

  /** The gain of a vertex that may move to any of two blocks, and of one that may only move back. */
  lemma GainOfTwo(row: seq<real>, inst: Queue, p: int)
    requires |row| == 2 && InstAt(row, inst) && inst.Keys == {0, 1} && 0 <= p < 2
    ensures Gain(row, inst, p) == (if row[0] > row[1] then row[0] else row[1]) - row[p]
  {
    var j := if row[0] > row[1] then 0 else 1;
    assert 0 in inst.Keys && 1 in inst.Keys;
    assert IsMax(inst, j);
    MaxKeyIs(inst, j);
  }

  lemma GainOfOne(row: seq<real>, inst: Queue, p: int, j: int)
    requires |row| == 2 && InstAt(row, inst) && inst.Keys == {j} && 0 <= p < 2
    ensures 0 <= j < 2 && Gain(row, inst, p) == row[j] - row[p]
  {
    assert j in inst.Keys;
    assert IsMax(inst, j);
    MaxKeyIs(inst, j);
  }

  /** What the tables of the example hold. */
  ghost predicate Tables(part: seq<int>, D: Matrix, Q: seq<Queue>, Qinst: seq<Queue>, Qpart: Queue)
  {
    && |part| == 5 && |Q| == 2 && |D| == 5 && |Qinst| == 5 && Consistent(part, D, Q, Qinst, Qpart, -1)
    && forall v | 0 <= v < 5 :: |D[v]| == 2 && WeightRow(EARLY, part, D[v], v)
  }

  lemma RowOf(part: seq<int>, D: Matrix, Q: seq<Queue>, Qinst: seq<Queue>, Qpart: Queue, v: nat)
    requires Tables(part, D, Q, Qinst, Qpart) && v < 5
    ensures |D[v]| == 2 && InstAt(D[v], Qinst[v]) && 0 <= part[v] < 2
    ensures D[v][0] == Weight(EARLY, part, v, 0, 5) && D[v][1] == Weight(EARLY, part, v, 1, 5)
    ensures Qinst[v] != map[] ==> v in Q[part[v]] && Q[part[v]][v] == Gain(D[v], Qinst[v], part[v])
  {
    assert VertexOk(part, D, Q, Qinst, v, -1);
  }

  /** The gain of vertex v while both blocks are open to it. */
  lemma OpenGain(part: seq<int>, D: Matrix, Q: seq<Queue>, Qinst: seq<Queue>, Qpart: Queue, v: nat)
    requires Tables(part, D, Q, Qinst, Qpart) && v < 5 && Qinst[v].Keys == {0, 1}
    ensures |D[v]| == 2 && 0 <= part[v] < 2 && v in Q[part[v]]
    ensures D[v][0] == Weight(EARLY, part, v, 0, 5) && D[v][1] == Weight(EARLY, part, v, 1, 5)
    ensures Q[part[v]][v] == (if D[v][0] > D[v][1] then D[v][0] else D[v][1]) - D[v][part[v]]
  {
    RowOf(part, D, Q, Qinst, Qpart, v);
    assert 0 in Qinst[v].Keys;
    GainOfTwo(D[v], Qinst[v], part[v]);
  }

  lemma BackGain(part: seq<int>, D: Matrix, Q: seq<Queue>, Qinst: seq<Queue>, Qpart: Queue, v: nat, j: int)
    requires Tables(part, D, Q, Qinst, Qpart) && v < 5 && Qinst[v].Keys == {j}
    ensures |D[v]| == 2 && 0 <= part[v] < 2 && 0 <= j < 2 && v in Q[part[v]]
    ensures Q[part[v]][v] == Gain(D[v], Qinst[v], part[v])
        == Weight(EARLY, part, v, j, 5) - Weight(EARLY, part, v, part[v], 5)
  {
    RowOf(part, D, Q, Qinst, Qpart, v);
    assert j in Qinst[v].Keys;
    GainOfOne(D[v], Qinst[v], part[v], j);
  }

  /** Only vertices of the block are in its queue. */
  lemma InBlock(part: seq<int>, D: Matrix, Q: seq<Queue>, Qinst: seq<Queue>, Qpart: Queue, p: nat, v: int)
    requires Tables(part, D, Q, Qinst, Qpart) && p < 2 && v in Q[p]
    ensures 0 <= v < 5 && part[v] == p
  {
    assert BlockOk(part, Q, Qpart, p, -1);
  }

  lemma FirstWeights(part: seq<int>)
    requires part == [0, 1, 0, 1, 0]
    ensures Weight(EARLY, part, 0, 0, 5) == 0.0 && Weight(EARLY, part, 0, 1, 5) == 3.0
    ensures Weight(EARLY, part, 1, 0, 5) == 3.0 && Weight(EARLY, part, 1, 1, 5) == 0.0
    ensures Weight(EARLY, part, 2, 0, 5) == 0.0 && Weight(EARLY, part, 2, 1, 5) == 1.0
    ensures Weight(EARLY, part, 3, 0, 5) == 4.0 && Weight(EARLY, part, 3, 1, 5) == 0.0
    ensures Weight(EARLY, part, 4, 0, 5) == 0.0 && Weight(EARLY, part, 4, 1, 5) == 3.0
  {
    forall v: nat, p | v < 5 && 0 <= p < 2
      ensures Weight(EARLY, part, v, p, 5) == If(part[0] == p, EARLY[v][0]) + If(part[1] == p, EARLY[v][1])
        + If(part[2] == p, EARLY[v][2]) + If(part[3] == p, EARLY[v][3]) + If(part[4] == p, EARLY[v][4])
    {
      WeightFive(EARLY, part, v, p);
    }
  }

  lemma SecondWeights(part: seq<int>)
    requires part == [0, 1, 0, 0, 0]
    ensures Weight(EARLY, part, 0, 0, 5) == 2.0 && Weight(EARLY, part, 0, 1, 5) == 1.0
    ensures Weight(EARLY, part, 1, 0, 5) == 3.0 && Weight(EARLY, part, 1, 1, 5) == 0.0
    ensures Weight(EARLY, part, 2, 0, 5) == 0.0 && Weight(EARLY, part, 2, 1, 5) == 1.0
    ensures Weight(EARLY, part, 3, 0, 5) == 4.0 && Weight(EARLY, part, 3, 1, 5) == 0.0
    ensures Weight(EARLY, part, 4, 0, 5) == 2.0 && Weight(EARLY, part, 4, 1, 5) == 1.0
  {
    forall v: nat, p | v < 5 && 0 <= p < 2
      ensures Weight(EARLY, part, v, p, 5) == If(part[0] == p, EARLY[v][0]) + If(part[1] == p, EARLY[v][1])
        + If(part[2] == p, EARLY[v][2]) + If(part[3] == p, EARLY[v][3]) + If(part[4] == p, EARLY[v][4])
    {
      WeightFive(EARLY, part, v, p);
    }
  }

  lemma LastWeights(part: seq<int>)
    requires part == [0, 1, 1, 0, 0]
    ensures Weight(EARLY, part, 0, 0, 5) == 2.0 && Weight(EARLY, part, 0, 1, 5) == 1.0
    ensures Weight(EARLY, part, 1, 0, 5) == 2.0 && Weight(EARLY, part, 1, 1, 5) == 1.0
    ensures Weight(EARLY, part, 2, 0, 5) == 0.0 && Weight(EARLY, part, 2, 1, 5) == 1.0
    ensures Weight(EARLY, part, 3, 0, 5) == 4.0 && Weight(EARLY, part, 3, 1, 5) == 0.0
    ensures Weight(EARLY, part, 4, 0, 5) == 2.0 && Weight(EARLY, part, 4, 1, 5) == 1.0
  {
    forall v: nat, p | v < 5 && 0 <= p < 2
      ensures Weight(EARLY, part, v, p, 5) == If(part[0] == p, EARLY[v][0]) + If(part[1] == p, EARLY[v][1])
        + If(part[2] == p, EARLY[v][2]) + If(part[3] == p, EARLY[v][3]) + If(part[4] == p, EARLY[v][4])
    {
      WeightFive(EARLY, part, v, p);
    }
  }

  /** First vertex 3 moves from block 1 to block 0, which gains 4. */
  lemma FirstMove(part: seq<int>, D: Matrix, Q: seq<Queue>, Qinst: seq<Queue>, Qpart: Queue)
    requires Tables(part, D, Q, Qinst, Qpart) && part == [0, 1, 0, 1, 0] && Exact(Q, Qpart, -1)
    requires forall v | 0 <= v < 5 :: Qinst[v].Keys == {0, 1}
    ensures MaxKey(Qpart) > 0.0
    ensures forall p, u | IsMax(Qpart, p) && 0 <= p < 2 && IsMax(Q[p], u) :: u == 3
    ensures forall j | IsMax(Qinst[3], j) :: j == 0
  {
    hide Consistent, WeightRow, Weight, Gain;
    FirstWeights(part);
    OpenGain(part, D, Q, Qinst, Qpart, 0);
    OpenGain(part, D, Q, Qinst, Qpart, 1);
    OpenGain(part, D, Q, Qinst, Qpart, 2);
    OpenGain(part, D, Q, Qinst, Qpart, 3);
    OpenGain(part, D, Q, Qinst, Qpart, 4);
    assert ExactAt(Qpart, Q[0], 0) && ExactAt(Qpart, Q[1], 1);
    KeyBelowMax(Q[1], 3);
    KeyBelowMax(Qpart, 1);
    MaxExists(Q[0]);
    var w :| IsMax(Q[0], w);
    MaxKeyIs(Q[0], w);
    InBlock(part, D, Q, Qinst, Qpart, 0, w);
    forall p, u | IsMax(Qpart, p) && 0 <= p < 2 && IsMax(Q[p], u)
      ensures u == 3
    {
      InBlock(part, D, Q, Qinst, Qpart, p, u);
    }
    RowOf(part, D, Q, Qinst, Qpart, 3);
    assert 0 in Qinst[3].Keys;
  }

  /** Then vertex 2 moves the other way, which gains 1. */
  lemma SecondMove(part: seq<int>, D: Matrix, Q: seq<Queue>, Qinst: seq<Queue>, Qpart: Queue)
    requires Tables(part, D, Q, Qinst, Qpart) && part == [0, 1, 0, 0, 0]
    requires Qinst[3].Keys == {1} && forall v | 0 <= v < 5 && v != 3 :: Qinst[v].Keys == {0, 1}
    ensures MaxKey(Q[0]) > 0.0
    ensures forall u | IsMax(Q[0], u) :: u == 2
    ensures forall j | IsMax(Qinst[2], j) :: j == 1
  {
    hide Consistent, WeightRow, Weight, Gain;
    SecondWeights(part);
    OpenGain(part, D, Q, Qinst, Qpart, 0);
    OpenGain(part, D, Q, Qinst, Qpart, 2);
    BackGain(part, D, Q, Qinst, Qpart, 3, 1);
    OpenGain(part, D, Q, Qinst, Qpart, 4);
    KeyBelowMax(Q[0], 2);
    forall u | IsMax(Q[0], u) ensures u == 2 { InBlock(part, D, Q, Qinst, Qpart, 0, u); }
    RowOf(part, D, Q, Qinst, Qpart, 2);
    assert 1 in Qinst[2].Keys;
  }

  /** Block 1 is queued under the gain of vertex 2, which is -1, although vertex 1 would gain 1. */
  lemma NoThirdMove(part: seq<int>, D: Matrix, Q: seq<Queue>, Qinst: seq<Queue>, Qpart: Queue)
    requires Tables(part, D, Q, Qinst, Qpart) && part == [0, 1, 1, 0, 0] && Exact(Q, Qpart, 1)
    requires Qinst[3].Keys == {1} && Qinst[2].Keys == {0}
        && forall v | 0 <= v < 5 && v != 3 && v != 2 :: Qinst[v].Keys == {0, 1}
    requires |D[2]| == 2 && 1 in Qpart && Qpart[1] == Gain(D[2], Qinst[2], 1)
    ensures MaxKey(Qpart) <= 0.0 && Qpart[1] == -1.0 && MaxKey(Q[1]) > 0.0
  {
    hide Consistent, WeightRow, Weight, Gain;
    LastWeights(part);
    OpenGain(part, D, Q, Qinst, Qpart, 0);
    OpenGain(part, D, Q, Qinst, Qpart, 1);
    BackGain(part, D, Q, Qinst, Qpart, 2, 0);
    BackGain(part, D, Q, Qinst, Qpart, 3, 1);
    OpenGain(part, D, Q, Qinst, Qpart, 4);
    KeyBelowMax(Q[1], 1);
    assert ExactAt(Qpart, Q[0], 0);
    MaxExists(Q[0]);
    var w :| IsMax(Q[0], w);
    MaxKeyIs(Q[0], w);
    InBlock(part, D, Q, Qinst, Qpart, 0, w);
    MaxExists(Qpart);
    var p :| IsMax(Qpart, p);
    MaxKeyIs(Qpart, p);
    KnownBlocks(part, D, Q, Qinst, Qpart, -1);
  }

  /** The run that stops too early: five vertices that start in the blocks 0, 1, 0, 1, 0.  After two moves the partition
      is balanced again and the next gain is not positive, yet vertex 1 would gain by leaving block 1. */
  method StopsEarly() returns (t: Partitioner)
    ensures fresh(t) && t.Valid() && t.comm == EARLY && t.part == [0, 1, 1, 0, 0] && t.deficit == t.surplus == 1
    ensures t.NextGainSpec() <= 0.0 && t.Hidden() && !t.NoGainLeft()
  {
    hide Consistent, WeightRow, Exact, Gain, Cut, Total, Count;
    t := EarlyStart();
    EarlyFirst(t);
    EarlySecond(t);
    NoThirdMove(t.part, t.D, t.Q, t.Qinst, t.Qpart);
  }

  method EarlyStart() returns (t: Partitioner)
    ensures fresh(t) && t.Valid() && t.n == 5 && t.k == 2 && t.comm == EARLY && t.part == [0, 1, 0, 1, 0]
    ensures t.deficit == t.surplus && t.last == -1 && t.Sized([3, 2])
        && forall v | 0 <= v < 5 :: t.Qinst[v].Keys == {0, 1}
  {
    hide Consistent, WeightRow, Exact, Gain, Cut, Total;
    var start := [0, 1, 0, 1, 0];
    t := new Partitioner(EARLY, 2, start);
    t.Initialization();
    TwoBlocks();
    assert Count(start, 0, 3) == 2
        && Count(start, 1, 3) == 1 by { assert Count(start, 0, 1) == 1 && Count(start, 1, 1) == 0; }
  }

  method EarlyFirst(t: Partitioner)
    requires t.Valid() && t.n == 5 && t.k == 2 && t.comm == EARLY && t.part == [0, 1, 0, 1, 0]
    requires t.deficit == t.surplus && t.last == -1 && t.Sized([3, 2])
        && forall v | 0 <= v < 5 :: t.Qinst[v].Keys == {0, 1}
    modifies t
    ensures t.Valid() && t.part == [0, 1, 0, 0, 0] && t.deficit == 1 && t.surplus == 0 && t.last == 3 && t.Sized([3, 2])
    ensures t.Qinst[3].Keys == {1} && forall v | 0 <= v < 5 && v != 3 :: t.Qinst[v].Keys == {0, 1}
  {
    hide Consistent, WeightRow, Exact, Gain, Cut, Total, Count, Square, Symmetric, NonNegative;
    FirstMove(t.part, t.D, t.Q, t.Qinst, t.Qpart);
    ghost var u := t.Algo([3, 2]);
    assert u == 3 && t.surplus == 0;
  }

  method EarlySecond(t: Partitioner)
    requires t.Valid() && t.n == 5 && t.k == 2 && t.comm == EARLY
    requires t.part == [0, 1, 0, 0, 0] && t.deficit == 1 && t.surplus == 0 && t.last == 3 && t.Sized([3, 2])
    requires t.Qinst[3].Keys == {1} && forall v | 0 <= v < 5 && v != 3 :: t.Qinst[v].Keys == {0, 1}
    modifies t
    ensures t.Valid() && t.part == [0, 1, 1, 0, 0] && t.deficit == t.surplus == 1 && t.last == 2
    ensures t.Qinst[3].Keys == {1} && t.Qinst[2].Keys == {0}
        && forall v | 0 <= v < 5 && v != 3 && v != 2 :: t.Qinst[v].Keys == {0, 1}
  {
    hide Consistent, WeightRow, Exact, Gain, Cut, Total, Count, Square, Symmetric, NonNegative;
    SecondMove(t.part, t.D, t.Q, t.Qinst, t.Qpart);
    ghost var u := t.Algo([3, 2]);
    assert u == 2 && t.surplus == 1;
  }

  lemma TwoBlocks()
    ensures Range(2) == {0, 1}
  {
  }

  /** `tm_kPartitioning` after its initial partition: refine while a step gains, then balance.
      `cuts` records the cut weight before every step and after the last one. */
  method Refine(comm: Matrix, k: nat, initial: seq<int>)
    returns (part: seq<int>, ghost cuts: seq<real>, ghost run: seq<State>)
    requires k > 0 && Square(comm, |initial|) && Symmetric(comm, |initial|) && NonNegative(comm, |initial|)
    requires forall v | 0 <= v < |initial| :: 0 <= initial[v] < k
    ensures |part| == |initial| && forall v | 0 <= v < |part| :: 0 <= part[v] < k
    ensures forall p | 0 <= p < k :: Count(part, p, |part|) == Count(initial, p, |part|)
    ensures 1 <= |cuts| <= |initial| * k + 1 && cuts[0] == Cut(comm, initial, |initial|)
    ensures forall s | 0 <= s < |cuts| - 1 :: cuts[s + 1] < cuts[s]
    ensures Refined(comm, k, initial, part, run) && |run| == |cuts|
    ensures forall s | 0 <= s < |cuts| :: |run[s].part| == |initial| && cuts[s] == Cut(comm, run[s].part, |initial|)
  {
    hide Consistent, WeightRow, Symmetric, NonNegative, Cut, Total, Exact, Run, AtRest, Evened, Range;
    var t := new Partitioner(comm, k, initial);
    t.Initialization();
    ghost var sizes := seq(k, p requires 0 <= p < k => Count(initial, p, |initial|));
    assert Opened(t.Qinst) == Start(initial, k).open;
    cuts, run := t.Search(sizes);
    InRange(t.part, t.D, t.Q, t.Qinst, t.Qpart);
    ghost var u := t.Balancing(sizes);
    part := t.part;
  }

  lemma PartKeys(part: seq<int>, D: Matrix, Q: seq<Queue>, Qinst: seq<Queue>, Qpart: Queue, skip: int)
    requires Consistent(part, D, Q, Qinst, Qpart, skip)
    ensures |Qinst| == |part| && forall p | 0 <= p < |Q| :: p in Qpart
  {
    forall p | 0 <= p < |Q| ensures p in Qpart { assert BlockOk(part, Q, Qpart, p, skip); }
  }

  lemma KnownBlocks(part: seq<int>, D: Matrix, Q: seq<Queue>, Qinst: seq<Queue>, Qpart: Queue, skip: int)
    requires Consistent(part, D, Q, Qinst, Qpart, skip)
    ensures forall p | p in Qpart :: 0 <= p < |Q|
  {
  }

  lemma InRange(part: seq<int>, D: Matrix, Q: seq<Queue>, Qinst: seq<Queue>, Qpart: Queue)
    requires Consistent(part, D, Q, Qinst, Qpart, -1)
    ensures forall v | 0 <= v < |part| :: 0 <= part[v] < |Q|
  {
    forall v | 0 <= v < |part| ensures 0 <= part[v] < |Q| { InstOf(part, D, Q, Qinst, Qpart, -1, v); }
  }

  lemma EntryNonNegative(m: Matrix, part: seq<int>, row: seq<real>, v: nat, p: int)
    requires Square(m, |part|) && NonNegative(m, |part|) && v < |part| && 0 <= p < |row| && WeightRow(m, part, row, v)
    ensures row[p] >= 0.0
  {
    WeightNonNegative(m, part, v, p, |part|);
  }

  function MovedRow(row: seq<real>, i: int, j: int, w: real): seq<real>
    requires 0 <= i < |row| && 0 <= j < |row|
  {
    var row1 := row[i := row[i] - w];
    row1[j := row1[j] + w]
  }

  function AdjustTwo(inst: Queue, i: int, j: int, row: seq<real>): Queue
    requires 0 <= i < |row| && 0 <= j < |row|
  {
    Adjust(Adjust(inst, i, row[i]), j, row[j])
  }

  lemma InstOf(part: seq<int>, D: Matrix, Q: seq<Queue>, Qinst: seq<Queue>, Qpart: Queue, skip: int, v: nat)
    requires Consistent(part, D, Q, Qinst, Qpart, skip) && v < |part|
    ensures |D| == |part| && |Qinst| == |part| && |D[v]| == |Q| && InstAt(D[v], Qinst[v]) && 0 <= part[v] < |Q|
  {
    assert VertexOk(part, D, Q, Qinst, v, skip);
  }

  /** The new row of v is the weight row of the moved partition. */
  lemma MovedRowOk(m: Matrix, part: seq<int>, row: seq<real>, inst: Queue, u: nat, v: nat, i: int, j: int)
    requires Square(m, |part|) && Symmetric(m, |part|) && u < |part| && v < |part|
    requires part[u] == i && 0 <= i < |row| && 0 <= j < |row| && i != j
    requires WeightRow(m, part, row, v) && InstAt(row, inst)
    ensures var row2 := MovedRow(row, i, j, m[u][v]);
            && WeightRow(m, part[u := j], row2, v)
            && InstAt(row2, AdjustTwo(inst, i, j, row2)) && AdjustTwo(inst, i, j, row2).Keys == inst.Keys
  {
    var row2 := MovedRow(row, i, j, m[u][v]);
    assert m[u][v] == m[v][u];
    forall p | 0 <= p < |row2| ensures row2[p] == Weight(m, part[u := j], v, p, |part|) {
      WeightMove(m, part, v, p, |part|, u, j);
    }
  }

  lemma TotalSame(a: seq<Queue>, b: seq<Queue>)
    requires |a| == |b| && forall v | 0 <= v < |a| :: a[v].Keys == b[v].Keys
    ensures Total(a) == Total(b)
  {
    if a != [] {
      var last := |a| - 1;
      TotalSame(a[..last], b[..last]);
      assert |a[last]| == |a[last].Keys| == |b[last].Keys| == |b[last]|;
    }
  }

  /** A move lowers the cut by its gain and by the vertex's own diagonal weight. */
  lemma MoveEffect(m: Matrix, part: seq<int>, row: seq<real>, u: nat, j: int, k: nat)
    requires Square(m, |part|) && Symmetric(m, |part|) && NonNegative(m, |part|) && u < |part|
    requires |row| == k && WeightRow(m, part, row, u) && 0 <= part[u] < k && 0 <= j < k && j != part[u]
    requires row[j] - row[part[u]] > 0.0
    ensures Cut(m, part[u := j], |part|) == Cut(m, part, |part|) - (row[j] - row[part[u]]) - m[u][u]
    ensures Cut(m, part[u := j], |part|) < Cut(m, part, |part|)
  {
    CutMove(m, part, |part|, u, j);
    assert m[u][u] >= 0.0;
  }

  lemma SizedMove(part: seq<int>, sizes: seq<nat>, u: nat, j: int, deficit: int, surplus: int, deficit2: int)
    requires u < |part| && forall p | 0 <= p < |sizes| ::
        Count(part, p, |part|) == sizes[p] + Drift(deficit, surplus, p)
    requires j != part[u]
    requires if deficit == surplus then deficit2 == part[u] else deficit2 == deficit && part[u] == surplus
    ensures forall p | 0 <= p < |sizes| :: Count(part[u := j], p, |part|) == sizes[p] + Drift(deficit2, j, p)
  {
    forall p | 0 <= p < |sizes| ensures Count(part[u := j], p, |part|) == sizes[p] + Drift(deficit2, j, p) {
      CountMove(part, p, |part|, u, j);
    }
  }

  lemma BlockKeys(part: seq<int>, D: Matrix, Q: seq<Queue>, Qinst: seq<Queue>, Qpart: Queue, skip: int)
    requires Consistent(part, D, Q, Qinst, Qpart, skip)
    ensures forall p | p in Qpart :: 0 <= p < |Q|
    ensures forall p | 0 <= p < |Q| && p in Qpart && Qpart[p] > 0.0 :: MaxKey(Q[p]) > 0.0
    ensures MaxKey(Qpart) > 0.0 ==> Qpart != map[]
  {
    PositiveMax(Qpart);
    forall p | 0 <= p < |Q| && p in Qpart && Qpart[p] > 0.0 ensures MaxKey(Q[p]) > 0.0 {
      assert BlockOk(part, Q, Qpart, p, skip);
    }
  }

  /** Surplus and deficit of an unbalanced partition. */
  function Drift(deficit: int, surplus: int, p: int): int
  {
    if deficit == surplus then 0 else (if p == surplus then 1 else 0) - (if p == deficit then 1 else 0)
  }

  // ---------- The initial partition ----------

  /** Block in which constraint c fixes its vertex. */
  function BlockOf(c: int, perPart: nat): int
    requires perPart > 0
  {
    c / perPart
  }

  function Distance(j: nat, w: nat, k: nat): nat
    requires j < k && w < k
  {
    if j <= w then w - j else w + k - j
  }

  ghost function FixedBlocks(constraints: seq<int>, cap: nat): seq<int>
    requires cap > 0
  {
    seq(|constraints|, i requires 0 <= i < |constraints| => BlockOf(constraints[i], cap))
  }

  /** The constraints name vertices, and no block is asked to hold more than its share. */
  ghost predicate Fits(constraints: seq<int>, k: nat, cap: nat)
    requires cap > 0
  {
    && |constraints| <= k * cap && (forall i | 0 <= i < |constraints| :: 0 <= constraints[i] < k * cap)
    && AtMost(FixedBlocks(constraints, cap), k, cap)
  }

  /** Where the turn is after the given blocks. */
  function TurnAt(p: seq<int>, k: nat): (j: nat)
    requires k > 0 && forall v | 0 <= v < |p| :: 0 <= p[v] < k
    ensures j < k
  {
    if p == [] then 0 else Turn(p[|p| - 1], k)
  }

  /** Block b is next: it has room, and the blocks passed over on the way to it have none. */
  ghost predicate Next(p: seq<int>, b: int, counts: seq<nat>, k: nat, cap: nat)
    requires k > 0 && |counts| == k && forall v | 0 <= v < |p| :: 0 <= p[v] < k
  {
    && 0 <= b < k && counts[b] + Count(p, b, |p|) < cap
    && forall q: nat | q < k && Distance(TurnAt(p, k), q, k) < Distance(TurnAt(p, k), b, k) ::
         counts[q] + Count(p, q, |p|) >= cap
  }

  /** The vertices go to the blocks in turn; `counts` of the places are taken before. */
  ghost predicate InTurn(p: seq<int>, counts: seq<nat>, k: nat, cap: nat)
    requires k > 0 && |counts| == k
  {
    && (forall v | 0 <= v < |p| :: 0 <= p[v] < k)
    && (p == [] || (InTurn(p[..|p| - 1], counts, k, cap) && Next(p[..|p| - 1], p[|p| - 1], counts, k, cap)))
  }

  lemma InTurnMore(p: seq<int>, b: int, counts: seq<nat>, k: nat, cap: nat)
    requires k > 0 && |counts| == k && InTurn(p, counts, k, cap) && Next(p, b, counts, k, cap)
    ensures InTurn(p + [b], counts, k, cap)
  {
    assert (p + [b])[..|p|] == p;
  }

  /** How many constrained vertices each block gets. */
  ghost function FixedCounts(constraints: seq<int>, k: nat, cap: nat): seq<nat>
    requires cap > 0
  {
    seq(k, q => Count(FixedBlocks(constraints, cap), q, |constraints|))
  }

  /** `build_p_vector` without greedy trials: constrained vertices go to their block, the
      others fill the remaining room in turn.  Every block ends up with n / k vertices. */
  method BuildVector(n: nat, k: nat, constraints: seq<int>) returns (part: seq<int>)
    requires k > 0 && n % k == 0 && n / k > 0 && Fits(constraints, k, n / k)
    ensures |part| == n && forall v | 0 <= v < n :: 0 <= part[v] < k
    ensures forall p | 0 <= p < k :: Count(part, p, n) == n / k
    ensures forall i | 0 <= i < |constraints| :: part[n - |constraints| + i] == BlockOf(constraints[i], n / k)
    ensures InTurn(part[..n - |constraints|], FixedCounts(constraints, k, n / k), k, n / k)
  {
    var perPart := n / k;
    assert n == k * perPart;
    var start, size := FixConstraints(k, perPart, constraints);
    part := FillInTurn(start, size, k, perPart, n - |constraints|);
  }

  method FixConstraints(k: nat, cap: nat, constraints: seq<int>) returns (part: seq<int>, size: seq<nat>)
    requires k > 0 && cap > 0 && Fits(constraints, k, cap)
    ensures |part| == k * cap && |size| == k
    ensures forall v | 0 <= v < |part| :: if v < |part| - |constraints| then part[v] == -1 else 0 <= part[v] < k
    ensures forall i | 0 <= i < |constraints| :: part[|part| - |constraints| + i] == BlockOf(constraints[i], cap)
    ensures forall p | 0 <= p < k :: size[p] == Count(part, p, |part|) <= cap
    ensures size == FixedCounts(constraints, k, cap)
  {
    ghost var fixedBlocks := FixedBlocks(constraints, cap);
    var realNodes := k * cap - |constraints|;
    part := seq(k * cap, _ => -1);
    size := seq(k, _ => 0);
    forall p | 0 <= p < k ensures Count(part, p, |part|) == 0 { CountZero(part, p, |part|); }
    for i := 0 to |constraints|
      invariant |part| == realNodes + |constraints| && |size| == k
      invariant forall v | 0 <= v < |part| ::
          part[v] == if realNodes <= v < realNodes + i then fixedBlocks[v - realNodes] else -1
      invariant forall p | 0 <= p < k :: size[p] == Count(part, p, |part|)
    {
      BlockInRange(constraints[i], k, cap);
      var b := constraints[i] / cap;
      forall p | 0 <= p < k
        ensures Count(part[realNodes + i := b], p, |part|) == Count(part, p, |part|) + if p == b then 1 else 0
      {
        CountMove(part, p, |part|, realNodes + i, b);
      }
      part := part[realNodes + i := b];
      size := size[b := size[b] + 1];
    }
    forall p | 0 <= p < k ensures size[p] == Count(fixedBlocks, p, |constraints|) <= cap {
      CountShift(part, fixedBlocks, p, realNodes);
    }
    forall i | 0 <= i < |constraints|
      ensures part[realNodes + i] == BlockOf(constraints[i], cap) && 0 <= part[realNodes + i] < k
    {
      BlockInRange(constraints[i], k, cap);
    }
  }

  method FillInTurn(start: seq<int>, counts: seq<nat>, k: nat, cap: nat, realNodes: nat) returns (part: seq<int>)
    requires k > 0 && |start| == k * cap && |counts| == k && realNodes <= |start|
    requires forall v | 0 <= v < |start| :: if v < realNodes then start[v] == -1 else 0 <= start[v] < k
    requires forall p | 0 <= p < k :: counts[p] == Count(start, p, |start|) <= cap
    ensures |part| == |start| && forall v | 0 <= v < |part| :: 0 <= part[v] < k
    ensures forall p | 0 <= p < k :: Count(part, p, |part|) == cap
    ensures forall v | realNodes <= v < |start| :: part[v] == start[v]
    ensures InTurn(part[..realNodes], counts, k, cap)
  {
    hide Count, InTurn, Waiting, TurnAt, SizesOk;
    part := start;
    var size: seq<nat> := counts;
    var i, j := 0, 0;
    ghost var w := 0;
    ghost var placed: seq<int> := [];
    Sizes(part, size, k, cap);
    if realNodes > 0 { w := FreeSize(part, size, k, cap, 0); }
    StartTurn(counts, k, cap);
    while i < realNodes
      invariant 0 <= i <= realNodes && 0 <= j < k && |part| == |start| && |size| == k
      invariant forall v | 0 <= v < |part| :: if i <= v < realNodes then part[v] == -1 else 0 <= part[v] < k
      invariant forall v | realNodes <= v < |part| :: part[v] == start[v]
      invariant SizesOk(part, size, k, cap)
      invariant 0 <= w < k && (i < realNodes ==> size[w] < cap)
      invariant placed == part[..i] && InTurn(placed, counts, k, cap) && Waiting(placed, counts, size, k, cap, j)
      invariant Distance(TurnAt(placed, k), j, k) <= Distance(TurnAt(placed, k), w, k)
      decreases realNodes - i, Distance(j, w, k)
    {
      if size[j] < cap {
        PlaceOne(part, size, k, cap, i, j);
        TakeTurn(placed, counts, size, k, cap, j);
        size := size[j := size[j] + 1];
        part := part[i := j];
        placed := placed + [j];
        i := i + 1;
        if i < realNodes { w := FreeSize(part, size, k, cap, i); }
      } else {
        PassTurn(placed, counts, size, k, cap, j, w);
      }
      j := Turn(j, k);
    }
    AllSizes(part, size, k, cap);
  }

  lemma Sizes(part: seq<int>, size: seq<nat>, k: nat, cap: nat)
    requires |size| == k && forall v | 0 <= v < |part| :: -1 <= part[v] < k
    requires forall p | 0 <= p < k :: size[p] == Count(part, p, |part|) <= cap
    ensures SizesOk(part, size, k, cap)
  {
    forall p: nat | p < k ensures SizeAt(part, size, p, cap) { }
  }

  lemma AllSizes(part: seq<int>, size: seq<nat>, k: nat, cap: nat)
    requires |part| == k * cap && SizesOk(part, size, k, cap) && forall v | 0 <= v < |part| :: 0 <= part[v] < k
    ensures forall p | 0 <= p < k :: Count(part, p, |part|) == cap
  {
    CountZero(part, -1, |part|);
    forall p | 0 <= p < k ensures Count(part, p, |part|) <= cap { assert SizeAt(part, size, p, cap); }
    forall p | 0 <= p < k ensures Count(part, p, |part|) == cap { AllFull(part, k, cap, p); }
  }

  lemma FreeSize(part: seq<int>, size: seq<nat>, k: nat, cap: nat, i: nat) returns (w: nat)
    requires |part| == k * cap && i < |part| && part[i] == -1 && SizesOk(part, size, k, cap)
    requires forall v | 0 <= v < |part| :: -1 <= part[v] < k
    ensures w < k && w < |size| && size[w] < cap
  {
    w := FreeBlock(part, k, cap, i);
    assert SizeAt(part, size, w, cap);
  }

  /** While block j is looked at: the sizes are known, and the blocks passed over are full. */
  ghost predicate Waiting(p: seq<int>, counts: seq<nat>, size: seq<nat>, k: nat, cap: nat, j: nat)
    requires k > 0 && |counts| == k == |size| && j < k && forall v | 0 <= v < |p| :: 0 <= p[v] < k
  {
    && (forall q: nat | q < k :: size[q] == counts[q] + Count(p, q, |p|))
    && forall q: nat | q < k && Distance(TurnAt(p, k), q, k) < Distance(TurnAt(p, k), j, k) :: size[q] >= cap
  }

  lemma StartTurn(counts: seq<nat>, k: nat, cap: nat)
    requires k > 0 && |counts| == k
    ensures InTurn([], counts, k, cap) && Waiting([], counts, counts, k, cap, 0)
  {
  }

  lemma TakeTurn(p: seq<int>, counts: seq<nat>, size: seq<nat>, k: nat, cap: nat, j: nat)
    requires k > 0 && |counts| == k == |size| && j < k && InTurn(p, counts, k, cap)
    requires Waiting(p, counts, size, k, cap, j) && size[j] < cap
    ensures InTurn(p + [j], counts, k, cap) && Waiting(p + [j], counts, size[j := size[j] + 1], k, cap, Turn(j, k))
    ensures TurnAt(p + [j], k) == Turn(j, k)
  {
    InTurnMore(p, j, counts, k, cap);
    forall q: nat | q < k ensures Count(p + [j], q, |p| + 1) == Count(p, q, |p|) + if q == j then 1 else 0 {
      CountSnoc(p, j, q);
    }
  }

  lemma CountSnoc(p: seq<int>, b: int, q: int)
    ensures Count(p + [b], q, |p| + 1) == Count(p, q, |p|) + if q == b then 1 else 0
  {
    CountPrefix(p + [b], p, q, |p|);
  }

  lemma {:induction false} CountPrefix(a: seq<int>, b: seq<int>, q: int, t: nat)
    requires t <= |a| && t <= |b| && forall v | 0 <= v < t :: a[v] == b[v]
    ensures Count(a, q, t) == Count(b, q, t)
  {
    if t > 0 { CountPrefix(a, b, q, t - 1); }
  }

  lemma PassTurn(p: seq<int>, counts: seq<nat>, size: seq<nat>, k: nat, cap: nat, j: nat, w: nat)
    requires k > 0 && |counts| == k == |size| && j < k && w < k && forall v | 0 <= v < |p| :: 0 <= p[v] < k
    requires Waiting(p, counts, size, k, cap, j) && size[j] >= cap > size[w]
    requires Distance(TurnAt(p, k), j, k) <= Distance(TurnAt(p, k), w, k)
    ensures Waiting(p, counts, size, k, cap, Turn(j, k))
    ensures Distance(TurnAt(p, k), Turn(j, k), k) <= Distance(TurnAt(p, k), w, k)
  {
    hide Count;
  }

  /** `(j + 1) % k` */
  function Turn(j: nat, k: nat): (r: nat)
    requires j < k
    ensures r == if j + 1 == k then 0 else j + 1
  {
    (j + 1) % k
  }

  lemma FreeBlock(part: seq<int>, k: nat, cap: nat, i: nat) returns (w: nat)
    requires |part| == k * cap && i < |part| && part[i] == -1 && forall v | 0 <= v < |part| :: -1 <= part[v] < k
    ensures w < k && Count(part, w, |part|) < cap
  {
    CountPositive(part, -1, |part|, i);
    w := RoomLeft(part, k, cap);
  }

  lemma BlockInRange(c: int, k: nat, cap: nat)
    requires cap > 0 && 0 <= c < k * cap
    ensures 0 <= BlockOf(c, cap) < k
  {
    assert c == (c / cap) * cap + c % cap;
    QuotientBelow(c / cap, k, cap, c);
  }

  lemma QuotientBelow(q: int, k: int, d: nat, c: int)
    requires d > 0 && q * d <= c < k * d
    ensures q < k
  {
    if q >= k {
      MulMonotone(k, q, d);
      assert false;
    }
  }

  /** A block of constrained vertices at the end counts what the constraints count. */
  lemma {:induction false} CountShift(part: seq<int>, fixedBlocks: seq<int>, p: int, from: nat)
    requires p >= 0 && |part| == from + |fixedBlocks|
    requires forall v | 0 <= v < |part| :: part[v] == if v < from then -1 else fixedBlocks[v - from]
    ensures Count(part, p, |part|) == Count(fixedBlocks, p, |fixedBlocks|)
  {
    CountTail(part, fixedBlocks, p, from, |fixedBlocks|);
  }

  lemma {:induction false} CountTail(part: seq<int>, fixedBlocks: seq<int>, p: int, from: nat, t: nat)
    requires p >= 0 && |part| == from + |fixedBlocks| && t <= |fixedBlocks|
    requires forall v | 0 <= v < |part| :: part[v] == if v < from then -1 else fixedBlocks[v - from]
    ensures Count(part, p, from + t) == Count(fixedBlocks, p, t)
  {
    if t == 0 { CountZero(part, p, from); } else { CountTail(part, fixedBlocks, p, from, t - 1); }
  }
}
