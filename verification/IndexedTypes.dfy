/** The four indexed datatype constructors: blocks that follow each other in memory are
    merged, and the type stays the one the unmerged blocks describe. */
module IndexedTypes {
  import opened Arithmetic

  /** An entry of a type map: a basic type and its byte displacement. */
  datatype Entry = Entry(kind: int, disp: int)
  type TypeMap = seq<Entry>

  /** An old type: its type map, its size in bytes and its extent. */
  datatype Datatype = Datatype(entries: TypeMap, size: nat, extent: int)

  /** What is added to the new type: length copies of the old type, the first at byte disp. */
  datatype Run = Run(disp: int, length: nat)

  function Shift(t: TypeMap, d: int): TypeMap
  {
    seq(|t|, i requires 0 <= i < |t| => Entry(t[i].kind, t[i].disp + d))
  }

  /** Copies of the old type, one extent apart. */
  function Copies(t: Datatype, d: int, n: nat): TypeMap
  {
    if n == 0 then [] else Copies(t, d, n - 1) + Shift(t.entries, d + Scale(n - 1, t.extent))
  }

  /** A product whose definition can be hidden from the solver. */
  function Scale(n: int, e: int): int
  {
    n * e
  }

  lemma ScaleSum(a: int, b: int, e: int)
    ensures Scale(a, e) + Scale(b, e) == Scale(a + b, e) && Scale(0, e) == 0
  {
  }

  lemma ScaleInjective(a: int, b: int, e: int)
    requires e != 0
    ensures Scale(a, e) == Scale(b, e) <==> a == b
  {
    assert a * e - b * e == (a - b) * e;
  }

  /** The type map of a list of runs. */
  function MapOf(t: Datatype, runs: seq<Run>): TypeMap
  {
    if runs == [] then [] else MapOf(t, runs[..|runs| - 1]) + Copies(t, runs[|runs| - 1].disp, runs[|runs| - 1].length)
  }

  /** The type map the standard prescribes: one block after the other, with no merging. */
  function Blocks(t: Datatype, lengths: seq<nat>, disps: seq<int>, n: nat): TypeMap
    requires n <= |lengths| == |disps|
  {
    if n == 0 then [] else Blocks(t, lengths, disps, n - 1) + Copies(t, disps[n - 1], lengths[n - 1])
  }

  /** No run continues where the one before it ends. */
  ghost predicate Unmergeable(t: Datatype, runs: seq<Run>)
  {
    forall i | 0 < i < |runs| :: Separate(t, runs[i - 1], runs[i])
  }

  predicate Separate(t: Datatype, a: Run, b: Run)
  {
    a.disp + Scale(a.length, t.extent) != b.disp
  }

  lemma {:induction false} CopiesSplit(t: Datatype, d: int, a: nat, b: nat)
    ensures Copies(t, d, a + b) == Copies(t, d, a) + Copies(t, d + Scale(a, t.extent), b)
  {
    hide Scale;
    if b > 0 {
      CopiesSplit(t, d, a, b - 1);
      ScaleSum(a, b - 1, t.extent);
      assert d + Scale(a + b - 1, t.extent) == d + Scale(a, t.extent) + Scale(b - 1, t.extent);
    } else {
      assert Copies(t, d, a) + [] == Copies(t, d, a);
    }
  }

  lemma MapMore(t: Datatype, runs: seq<Run>, r: Run)
    ensures MapOf(t, runs + [r]) == MapOf(t, runs) + Copies(t, r.disp, r.length)
  {
    assert (runs + [r])[..|runs|] == runs;
  }

  /** What the loops have done after n blocks: finished runs, and one that may still grow. */
  ghost predicate Progress(t: Datatype, lengths: seq<nat>, disps: seq<int>, n: nat, runs: seq<Run>, open: Run,
                           strict: bool)
    requires n <= |lengths| == |disps|
  {
    && MapOf(t, runs + [open]) == Blocks(t, lengths, disps, n) && open.length > 0
    && (strict ==> Unmergeable(t, runs + [open]))
  }

  /** An empty block changes nothing. */
  lemma SkipBlock(t: Datatype, lengths: seq<nat>, disps: seq<int>, n: nat, runs: seq<Run>, open: Run, strict: bool)
    requires n < |lengths| == |disps| && Progress(t, lengths, disps, n, runs, open, strict) && lengths[n] == 0
    ensures Progress(t, lengths, disps, n + 1, runs, open, strict)
  {
    var b := Blocks(t, lengths, disps, n);
    assert Copies(t, disps[n], 0) == [];
    assert b + [] == b;
  }

  /** A block that continues the open run. */
  lemma GrowRun(t: Datatype, lengths: seq<nat>, disps: seq<int>, n: nat, runs: seq<Run>, open: Run, strict: bool)
    requires n < |lengths| == |disps| && Progress(t, lengths, disps, n, runs, open, strict)
    requires open.disp + Scale(open.length, t.extent) == disps[n]
    ensures Progress(t, lengths, disps, n + 1, runs, open.(length := open.length + lengths[n]), strict)
  {
    hide Copies, Scale;
    var more := open.(length := open.length + lengths[n]);
    CopiesSplit(t, open.disp, open.length, lengths[n]);
    MapMore(t, runs, open);
    MapMore(t, runs, more);
    var m, c := MapOf(t, runs), Copies(t, open.disp, open.length);
    assert m + (c + Copies(t, disps[n], lengths[n])) == m + c + Copies(t, disps[n], lengths[n]);
    forall i | strict && 0 < i < |runs + [more]| ensures Separate(t, (runs + [more])[i - 1], (runs + [more])[i]) {
      assert Separate(t, (runs + [open])[i - 1], (runs + [open])[i]);
    }
  }

  /** A block somewhere else. */
  lemma NewRun(t: Datatype, lengths: seq<nat>, disps: seq<int>, n: nat, runs: seq<Run>, open: Run, strict: bool)
    requires n < |lengths| == |disps| && Progress(t, lengths, disps, n, runs, open, strict) && lengths[n] > 0
    requires strict ==> open.disp + Scale(open.length, t.extent) != disps[n]
    ensures Progress(t, lengths, disps, n + 1, runs + [open], Run(disps[n], lengths[n]), strict)
  {
    hide Copies, Scale;
    var next := Run(disps[n], lengths[n]);
    MapMore(t, runs + [open], next);
    var all := runs + [open] + [next];
    forall i | strict && 0 < i < |all| ensures Separate(t, all[i - 1], all[i]) {
      if i < |runs| + 1 { assert Separate(t, (runs + [open])[i - 1], (runs + [open])[i]); }
    }
  }

  /** The first block that is not empty opens the first run. */
  lemma {:induction false} FirstRun(t: Datatype, lengths: seq<nat>, disps: seq<int>, n: nat)
    requires n < |lengths| == |disps| && lengths[n] > 0 && forall i | 0 <= i < n :: lengths[i] == 0
    ensures Progress(t, lengths, disps, n + 1, [], Run(disps[n], lengths[n]), true)
  {
    AllSkipped(t, lengths, disps, n);
    var r := Run(disps[n], lengths[n]);
    MapMore(t, [], r);
    assert [] + [r] == [r];
  }

  lemma {:induction false} AllSkipped(t: Datatype, lengths: seq<nat>, disps: seq<int>, n: nat)
    requires n <= |lengths| == |disps| && forall i | 0 <= i < n :: lengths[i] == 0
    ensures Blocks(t, lengths, disps, n) == []
  {
    if n > 0 { AllSkipped(t, lengths, disps, n - 1); }
  }

  /** The new type: its runs, with an empty list for the null type. */
  ghost predicate Describes(t: Datatype, lengths: seq<nat>, disps: seq<int>, runs: seq<Run>)
    requires |lengths| == |disps|
  {
    MapOf(t, runs) == Blocks(t, lengths, disps, |lengths|)
  }

  /** `ompi_datatype_create_hindexed`: byte displacements. */
  method CreateHindexed(lengths: seq<nat>, disps: seq<int>, t: Datatype) returns (runs: seq<Run>)
    requires |lengths| == |disps|
    ensures if t.size > 0 then Describes(t, lengths, disps, runs) else runs == []
    ensures Unmergeable(t, runs) && forall r | 0 <= r < |runs| :: runs[r].length > 0
  {
    hide Progress, Scale;
    var count, i := |lengths|, 0;
    while i < count && lengths[i] == 0
      invariant 0 <= i <= count && forall j | 0 <= j < i :: lengths[j] == 0
    {
      i := i + 1;
    }
    if i == count || t.size == 0 {
      if i == count { AllSkipped(t, lengths, disps, count); }
      return [];
    }
    var disp: int, length: nat := disps[i], lengths[i];
    var endAt := disp + Scale(length, t.extent);
    runs := [];
    FirstRun(t, lengths, disps, i);
    i := i + 1;
    while i < count
      invariant 0 < i <= count && Progress(t, lengths, disps, i, runs, Run(disp, length), true)
      invariant endAt == disp + Scale(length, t.extent) && length > 0
          && forall r | 0 <= r < |runs| :: runs[r].length > 0
    {
      if lengths[i] == 0 {
        SkipBlock(t, lengths, disps, i, runs, Run(disp, length), true);
      } else if endAt == disps[i] {
        GrowRun(t, lengths, disps, i, runs, Run(disp, length), true);
        ScaleSum(length, lengths[i], t.extent);
        length := length + lengths[i];
        endAt := endAt + Scale(lengths[i], t.extent);
      } else {
        NewRun(t, lengths, disps, i, runs, Run(disp, length), true);
        runs := runs + [Run(disp, length)];
        disp := disps[i];
        length := lengths[i];
        endAt := disp + Scale(lengths[i], t.extent);
      }
      i := i + 1;
    }
    Finished(t, lengths, disps, runs, Run(disp, length), true);
    runs := runs + [Run(disp, length)];
  }

  lemma Finished(t: Datatype, lengths: seq<nat>, disps: seq<int>, runs: seq<Run>, open: Run, strict: bool)
    requires |lengths| == |disps| && Progress(t, lengths, disps, |lengths|, runs, open, strict)
    ensures Describes(t, lengths, disps, runs + [open]) && (strict ==> Unmergeable(t, runs + [open]))
  {
  }

  /** Displacements counted in extents, as bytes. */
  function Bytes(disps: seq<int>, e: int): seq<int>
  {
    seq(|disps|, i requires 0 <= i < |disps| => Scale(disps[i], e))
  }

  /** Blocks i and j are not empty, and the blocks between them are. */
  ghost predicate Consecutive(lengths: seq<nat>, i: nat, j: nat)
  {
    i < j < |lengths| && lengths[i] > 0 && lengths[j] > 0 && forall m | i < m < j :: lengths[m] == 0
  }

  /** Among the first n blocks every one that is not empty starts where the one before it ended. */
  ghost predicate Contiguous(lengths: seq<nat>, disps: seq<int>, n: nat)
    requires n <= |lengths| == |disps|
  {
    forall i: nat, j: nat | j < n && Consecutive(lengths, i, j) :: disps[i] + lengths[i] == disps[j]
  }

  lemma NoneBefore(lengths: seq<nat>, disps: seq<int>, n: nat)
    requires n < |lengths| == |disps| && forall i | 0 <= i < n :: lengths[i] == 0
    ensures Contiguous(lengths, disps, n + 1)
  {
  }

  lemma AllEmpty(lengths: seq<nat>, disps: seq<int>)
    requires |lengths| == |disps| && forall i | 0 <= i < |lengths| :: lengths[i] == 0
    ensures Contiguous(lengths, disps, |lengths|)
  {
  }

  /** One more block, when the last one before it that is not empty is known. */
  lemma OneBlockMore(lengths: seq<nat>, disps: seq<int>, n: nat, last: nat)
    requires last < n < |lengths| == |disps| && lengths[last] > 0 && forall m | last < m < n :: lengths[m] == 0
    ensures Contiguous(lengths, disps, n + 1)
        <==> Contiguous(lengths, disps, n) && (lengths[n] == 0 || disps[last] + lengths[last] == disps[n])
  {
    assert lengths[n] > 0 ==> Consecutive(lengths, last, n);
    if Contiguous(lengths, disps, n) && (lengths[n] == 0 || disps[last] + lengths[last] == disps[n]) {
      forall i: nat, j: nat | j < n + 1 && Consecutive(lengths, i, j) ensures disps[i] + lengths[i] == disps[j] {
        assert j == n ==> i == last;
      }
    }
  }

  /** With extent zero all runs lie at byte 0, so any two of them could be merged. */
  lemma AtZero(t: Datatype, runs: seq<Run>)
    requires t.extent == 0 && forall i | 0 <= i < |runs| :: runs[i].disp == 0
    ensures Unmergeable(t, runs) <==> |runs| <= 1
  {
    if |runs| > 1 { assert !Separate(t, runs[0], runs[1]); }
  }

  lemma ScaleZero(e: int)
    ensures e == 0 ==> forall n :: Scale(n, e) == 0
  {
  }

  /** `ompi_datatype_create_indexed`: displacements in extents.  Runs are compared in extents, so with extent zero some
      that meet in memory stay apart, exactly when there is a gap between the blocks; the type map is right all the
      same. */
  method CreateIndexed(lengths: seq<nat>, disps: seq<int>, t: Datatype) returns (runs: seq<Run>)
    requires |lengths| == |disps|
    ensures if t.size > 0 then Describes(t, lengths, Bytes(disps, t.extent), runs) else runs == []
    ensures Unmergeable(t, runs) <==> t.extent != 0 || t.size == 0 || Contiguous(lengths, disps, |lengths|)
    ensures forall r | 0 <= r < |runs| :: runs[r].length > 0
  {
    hide Progress, Scale, Contiguous;
    ghost var bytes, strict := Bytes(disps, t.extent), t.extent != 0;
    ScaleZero(t.extent);
    var count, i := |lengths|, 0;
    while i < count && lengths[i] == 0
      invariant 0 <= i <= count && forall j | 0 <= j < i :: lengths[j] == 0
    {
      i := i + 1;
    }
    if i == count || t.size == 0 {
      if i == count {
        AllSkipped(t, lengths, bytes, count);
        AllEmpty(lengths, disps);
      }
      return [];
    }
    var disp: int, length: nat := disps[i], lengths[i];
    var endAt := disp + length;
    runs := [];
    ghost var last := i;
    NoneBefore(lengths, disps, i);
    FirstRun(t, lengths, bytes, i);
    Weaken(t, lengths, bytes, i + 1, runs, Run(bytes[i], length), strict);
    i := i + 1;
    while i < count
      invariant 0 < i <= count && Progress(t, lengths, bytes, i, runs, Run(Scale(disp, t.extent), length), strict)
      invariant endAt == disp + length && length > 0 && forall r | 0 <= r < |runs| :: runs[r].length > 0
      invariant 0 <= last < i && lengths[last] > 0 && endAt == disps[last] + lengths[last]
      invariant (forall m | last < m < i :: lengths[m] == 0) && (runs == [] <==> Contiguous(lengths, disps, i))
      invariant !strict ==> forall r | 0 <= r < |runs| :: runs[r].disp == 0
    {
      ghost var open := Run(Scale(disp, t.extent), length);
      OneBlockMore(lengths, disps, i, last);
      if lengths[i] > 0 { last := i; }
      ScaleSum(disp, length, t.extent);
      if strict { ScaleInjective(endAt, disps[i], t.extent); }
      if lengths[i] == 0 {
        SkipBlock(t, lengths, bytes, i, runs, open, strict);
      } else if endAt == disps[i] {
        GrowRun(t, lengths, bytes, i, runs, open, strict);
        length := length + lengths[i];
        endAt := endAt + lengths[i];
      } else {
        NewRun(t, lengths, bytes, i, runs, open, strict);
        runs := runs + [Run(Scale(disp, t.extent), length)];
        disp := disps[i];
        length := lengths[i];
        endAt := disp + lengths[i];
      }
      i := i + 1;
    }
    Finished(t, lengths, bytes, runs, Run(Scale(disp, t.extent), length), strict);
    runs := runs + [Run(Scale(disp, t.extent), length)];
    if !strict { AtZero(t, runs); }
  }

  lemma Weaken(t: Datatype, lengths: seq<nat>, disps: seq<int>, n: nat, runs: seq<Run>, open: Run, strict: bool)
    requires n <= |lengths| == |disps| && Progress(t, lengths, disps, n, runs, open, true)
    ensures Progress(t, lengths, disps, n, runs, open, strict)
  {
  }

  /** Blocks of one length. */
  function Same(count: nat, length: nat): seq<nat>
  {
    seq(count, _ => length)
  }

  lemma NoBlocks(t: Datatype, disps: seq<int>, length: nat)
    requires disps == [] || length == 0
    ensures Describes(t, Same(|disps|, length), disps, [])
  {
    AllSkipped(t, Same(|disps|, length), disps, |disps|);
  }

  /** `ompi_datatype_create_hindexed_block`: the size of the old type is not looked at. */
  method CreateHindexedBlock(length: nat, disps: seq<int>, t: Datatype) returns (runs: seq<Run>)
    ensures Describes(t, Same(|disps|, length), disps, runs)
    ensures Unmergeable(t, runs) && forall r | 0 <= r < |runs| :: runs[r].length > 0
  {
    hide Progress, Scale;
    ghost var lengths := Same(|disps|, length);
    if |disps| == 0 || length == 0 {
      NoBlocks(t, disps, length);
      return [];
    }
    var disp: int, len: nat := disps[0], length;
    var endAt := disp + Scale(len, t.extent);
    runs := [];
    FirstRun(t, lengths, disps, 0);
    for i := 1 to |disps|
      invariant Progress(t, lengths, disps, i, runs, Run(disp, len), true)
      invariant endAt == disp + Scale(len, t.extent) && len > 0 && forall r | 0 <= r < |runs| :: runs[r].length > 0
    {
      if endAt == disps[i] {
        GrowRun(t, lengths, disps, i, runs, Run(disp, len), true);
        ScaleSum(len, length, t.extent);
        len := len + length;
        endAt := endAt + Scale(length, t.extent);
      } else {
        NewRun(t, lengths, disps, i, runs, Run(disp, len), true);
        runs := runs + [Run(disp, len)];
        disp := disps[i];
        len := length;
        endAt := disp + Scale(length, t.extent);
      }
    }
    Finished(t, lengths, disps, runs, Run(disp, len), true);
    runs := runs + [Run(disp, len)];
  }

  /** Among the first n blocks of one length every one starts where the one before it ended. */
  ghost predicate Gapless(disps: seq<int>, length: nat, n: nat)
    requires n <= |disps|
  {
    forall i | 0 < i < n :: disps[i - 1] + length == disps[i]
  }

  lemma GaplessFew(disps: seq<int>, length: nat)
    ensures Gapless(disps, length, 0) && (disps != [] ==> Gapless(disps, length, 1))
  {
  }

  lemma GaplessMore(disps: seq<int>, length: nat, n: nat)
    requires 0 < n < |disps|
    ensures Gapless(disps, length, n + 1) <==> Gapless(disps, length, n) && disps[n - 1] + length == disps[n]
  {
    assert Gapless(disps, length, n + 1) ==> disps[n - 1] + length == disps[n];
  }

  /** `ompi_datatype_create_indexed_block`.  With extent zero runs stay apart exactly when there is a gap. */
  method CreateIndexedBlock(length: nat, disps: seq<int>, t: Datatype) returns (runs: seq<Run>)
    ensures Describes(t, Same(|disps|, length), Bytes(disps, t.extent), runs)
    ensures Unmergeable(t, runs) <==> t.extent != 0 || length == 0 || Gapless(disps, length, |disps|)
    ensures forall r | 0 <= r < |runs| :: runs[r].length > 0
  {
    hide Progress, Scale, Gapless;
    ScaleZero(t.extent);
    GaplessFew(disps, length);
    ghost var lengths, bytes, strict := Same(|disps|, length), Bytes(disps, t.extent), t.extent != 0;
    if |disps| == 0 || length == 0 {
      NoBlocks(t, bytes, length);
      return [];
    }
    var disp: int, len: nat := disps[0], length;
    var endAt := disp + len;
    runs := [];
    FirstRun(t, lengths, bytes, 0);
    Weaken(t, lengths, bytes, 1, runs, Run(bytes[0], len), strict);
    for i := 1 to |disps|
      invariant Progress(t, lengths, bytes, i, runs, Run(Scale(disp, t.extent), len), strict)
      invariant endAt == disp + len == disps[i - 1] + length && len > 0
          && forall r | 0 <= r < |runs| :: runs[r].length > 0
      invariant runs == [] <==> Gapless(disps, length, i)
      invariant !strict ==> forall r | 0 <= r < |runs| :: runs[r].disp == 0
    {
      ghost var open := Run(Scale(disp, t.extent), len);
      GaplessMore(disps, length, i);
      ScaleSum(disp, len, t.extent);
      if strict { ScaleInjective(endAt, disps[i], t.extent); }
      if endAt == disps[i] {
        GrowRun(t, lengths, bytes, i, runs, open, strict);
        len := len + length;
        endAt := endAt + length;
      } else {
        NewRun(t, lengths, bytes, i, runs, open, strict);
        runs := runs + [Run(Scale(disp, t.extent), len)];
        disp := disps[i];
        len := length;
        endAt := disp + length;
      }
    }
    Finished(t, lengths, bytes, runs, Run(Scale(disp, t.extent), len), strict);
    runs := runs + [Run(Scale(disp, t.extent), len)];
    if !strict { AtZero(t, runs); }
  }

  /** A type of one byte and extent zero, one copy at 0 and one five extents on: both lie at byte 0 and stay apart. */
  method GapAtExtentZero() returns (t: Datatype, a: seq<Run>, b: seq<Run>)
    ensures t.extent == 0 && t.size == 1 && !Unmergeable(t, a) && !Unmergeable(t, b)
  {
    t := Datatype([Entry(0, 0)], 1, 0);
    var lengths, disps := [1, 1], [0, 5];
    assert Consecutive(lengths, 0, 1);
    a := CreateIndexed(lengths, disps, t);
    GaplessMore(disps, 1, 1);
    b := CreateIndexedBlock(1, disps, t);
  }

  /** Indexed displacements d and byte displacements d times the extent make the same type, block constructor or not. */
  method SameTypes(length: nat, disps: seq<int>, t: Datatype)
    returns (a: seq<Run>, b: seq<Run>, c: seq<Run>, d: seq<Run>)
    requires t.size > 0
    ensures MapOf(t, a) == MapOf(t, b) == MapOf(t, c) == MapOf(t, d)
    ensures MapOf(t, a) == Blocks(t, Same(|disps|, length), Bytes(disps, t.extent), |disps|)
  {
    a := CreateIndexed(Same(|disps|, length), disps, t);
    b := CreateHindexed(Same(|disps|, length), Bytes(disps, t.extent), t);
    c := CreateIndexedBlock(length, disps, t);
    d := CreateHindexedBlock(length, Bytes(disps, t.extent), t);
  }

  /** The same for blocks of any lengths. */
  method IndexedAsHindexed(lengths: seq<nat>, disps: seq<int>, t: Datatype) returns (a: seq<Run>, b: seq<Run>)
    requires |lengths| == |disps|
    ensures MapOf(t, a) == MapOf(t, b)
  {
    a := CreateIndexed(lengths, disps, t);
    b := CreateHindexed(lengths, Bytes(disps, t.extent), t);
  }
}
