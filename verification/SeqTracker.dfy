/** The tracker of sequence numbers already seen: an ordered list of ranges with a cursor
    at the place last used. */
module SeqTracker {

  const WORD := 0x1_0000_0000
  const LAST := WORD - 1

  /** 32-bit arithmetic. */
  function Succ(x: int): int { (x + 1) % WORD }
  function Pred(x: int): int { (x - 1) % WORD }

  datatype Range = Range(low: int, high: int)

  predicate Within(r: Range, x: int)
  {
    r.low <= x <= r.high
  }

  ghost predicate Member(rs: seq<Range>, x: int)
  {
    exists i :: 0 <= i < |rs| && Within(rs[i], x)
  }

  /** Ranges of 32-bit numbers, in order, disjoint and never adjacent. */
  ghost predicate Canonical(rs: seq<Range>)
  {
    && (forall i | 0 <= i < |rs| :: 0 <= rs[i].low <= rs[i].high <= LAST)
    && forall i, j | 0 <= i < j < |rs| :: rs[i].high + 1 < rs[j].low
  }

  /** The ranges from a to b replaced by one. */
  function Splice(rs: seq<Range>, a: nat, b: nat, r: Range): seq<Range>
    requires a <= b <= |rs|
  {
    rs[..a] + [r] + rs[b..]
  }

  lemma SpliceCanonical(rs: seq<Range>, a: nat, b: nat, r: Range)
    requires Canonical(rs) && a <= b <= |rs| && 0 <= r.low <= r.high <= LAST
    requires (a > 0 ==> rs[a - 1].high + 1 < r.low) && (b < |rs| ==> r.high + 1 < rs[b].low)
    ensures Canonical(Splice(rs, a, b, r))
  {
    var t := Splice(rs, a, b, r);
    forall i | 0 <= i < a ensures rs[i].high + 1 < r.low { assert i < a - 1 ==> rs[i].high + 1 < rs[a - 1].low; }
    forall j | b <= j < |rs| ensures r.high + 1 < rs[j].low { assert b < j ==> rs[b].high + 1 < rs[j].low; }
    forall i, j | 0 <= i < j < |t| ensures t[i].high + 1 < t[j].low {
      var x, y := Old(a, b, i), Old(a, b, j);
      assert t[i] == (if i == a then r else rs[x]);
      assert t[j] == (if j == a then r else rs[y]);
    }
    forall i | 0 <= i < |t| ensures 0 <= t[i].low <= t[i].high <= LAST {
      assert t[i] == (if i == a then r else rs[Old(a, b, i)]);
    }
  }

  /** Where an entry of the spliced list stood before. */
  function Old(a: nat, b: nat, i: nat): int
    requires a <= b
  {
    if i <= a then i else i - a - 1 + b
  }

  /** Splicing in a range that covers the replaced ones and the number s adds exactly s. */
  lemma SpliceMember(rs: seq<Range>, a: nat, b: nat, r: Range, s: int, x: int)
    requires a <= b <= |rs|
    requires Within(r, x) <==> x == s || exists i :: a <= i < b && Within(rs[i], x)
    ensures Member(Splice(rs, a, b, r), x) <==> Member(rs, x) || x == s
  {
    var t := Splice(rs, a, b, r);
    assert forall i | 0 <= i < |t| :: t[i] == if i < a then rs[i] else if i == a then r else rs[i - a - 1 + b];
    assert t[a] == r;
    forall i | 0 <= i < |rs| && Within(rs[i], x) ensures Member(t, x) {
      if i < a {
        assert t[i] == rs[i];
      } else if i >= b {
        assert t[i - b + a + 1] == rs[i];
      }
    }
    if Member(t, x) {
      var i :| 0 <= i < |t| && Within(t[i], x);
      if i < a {
        assert Within(rs[i], x);
      } else if i > a {
        assert Within(rs[i - a - 1 + b], x);
      }
    }
  }

  /** Equal sets have equal lists: the list is the one canonical form of the set. */
  lemma {:induction false} Unique(a: seq<Range>, b: seq<Range>)
    requires Canonical(a) && Canonical(b) && forall x :: Member(a, x) <==> Member(b, x)
    ensures a == b
    decreases |a|
  {
    if a == [] {
      if b != [] { assert Within(b[0], b[0].low) && Member(b, b[0].low) && !Member(a, b[0].low); }
    } else if b == [] {
      assert Within(a[0], a[0].low) && Member(a, a[0].low);
    } else {
      Least(a, b);
      Least(b, a);
      Rest(a, b);
      Unique(a[1..], b[1..]);
    }
  }

  /** The first range of one list does not start after that of the other, nor end before it. */
  lemma Least(a: seq<Range>, b: seq<Range>)
    requires Canonical(a) && Canonical(b) && a != [] && b != [] && forall x :: Member(a, x) <==> Member(b, x)
    ensures a[0].low <= b[0].low && (a[0].low == b[0].low ==> b[0].high <= a[0].high)
  {
    assert Within(b[0], b[0].low) && Member(b, b[0].low);
    var i :| 0 <= i < |a| && Within(a[i], b[0].low);
    var x := a[0].high + 1;
    assert Within(b[0], x) <==> b[0].low <= x <= b[0].high;
    assert Within(b[0], x) ==> Member(b, x);
    Gap(a, 1, x);
  }

  lemma Rest(a: seq<Range>, b: seq<Range>)
    requires Canonical(a) && Canonical(b) && a != [] && b != [] && a[0] == b[0]
        && forall x :: Member(a, x) <==> Member(b, x)
    ensures Canonical(a[1..]) && Canonical(b[1..]) && forall x :: Member(a[1..], x) <==> Member(b[1..], x)
  {
    forall x ensures Member(a[1..], x) <==> Member(b[1..], x) {
      Tail(a, x);
      Tail(b, x);
    }
  }

  lemma Tail(a: seq<Range>, x: int)
    requires Canonical(a) && a != []
    ensures Member(a[1..], x) <==> Member(a, x) && !Within(a[0], x)
  {
    if Member(a, x) && !Within(a[0], x) {
      var i :| 0 <= i < |a| && Within(a[i], x);
      assert Within(a[1..][i - 1], x);
    }
    if Member(a[1..], x) {
      var i :| 0 <= i < |a[1..]| && Within(a[1..][i], x);
      assert Within(a[i + 1], x);
    }
  }

  /** The list holds the old numbers and s, nothing else. */
  ghost predicate Adds(before: seq<Range>, after: seq<Range>, s: int)
  {
    Canonical(after) && forall x :: AddsAt(before, after, s, x)
  }

  ghost predicate AddsAt(before: seq<Range>, after: seq<Range>, s: int, x: int)
  {
    Member(after, x) <==> Member(before, x) || x == s
  }

  lemma GrowUp(rs: seq<Range>, i: nat, s: int)
    requires Canonical(rs) && i < |rs| && rs[i].high + 1 == s <= LAST
    ensures i + 1 < |rs| && rs[i + 1].low == s + 1 ==>
        Adds(rs, Splice(rs, i, i + 2, Range(rs[i].low, rs[i + 1].high)), s)
    ensures !(i + 1 < |rs| && rs[i + 1].low == s + 1) ==> Adds(rs, Splice(rs, i, i + 1, Range(rs[i].low, s)), s)
  {
    assert i > 0 ==> rs[i - 1].high + 1 < rs[i].low;
    if i + 1 < |rs| && rs[i + 1].low == s + 1 {
      assert i + 2 < |rs| ==> rs[i + 1].high + 1 < rs[i + 2].low;
      var r := Range(rs[i].low, rs[i + 1].high);
      SpliceCanonical(rs, i, i + 2, r);
      var t := Splice(rs, i, i + 2, r);
      forall x ensures AddsAt(rs, t, s, x) {
        assert Within(r, x) <==> x == s || Within(rs[i], x) || Within(rs[i + 1], x);
        SpliceMember(rs, i, i + 2, r, s, x);
      }
    } else {
      var r := Range(rs[i].low, s);
      SpliceCanonical(rs, i, i + 1, r);
      var t := Splice(rs, i, i + 1, r);
      forall x ensures AddsAt(rs, t, s, x) {
        assert Within(r, x) <==> x == s || Within(rs[i], x);
        SpliceMember(rs, i, i + 1, r, s, x);
      }
    }
  }

  lemma GrowDown(rs: seq<Range>, i: nat, s: int)
    requires Canonical(rs) && i < |rs| && rs[i].low - 1 == s >= 0
    ensures i > 0 && rs[i - 1].high == s - 1 ==> Adds(rs, Splice(rs, i - 1, i + 1, Range(rs[i - 1].low, rs[i].high)), s)
    ensures !(i > 0 && rs[i - 1].high == s - 1) ==> Adds(rs, Splice(rs, i, i + 1, Range(s, rs[i].high)), s)
  {
    assert i + 1 < |rs| ==> rs[i].high + 1 < rs[i + 1].low;
    if i > 0 && rs[i - 1].high == s - 1 {
      assert i > 1 ==> rs[i - 2].high + 1 < rs[i - 1].low;
      var r := Range(rs[i - 1].low, rs[i].high);
      SpliceCanonical(rs, i - 1, i + 1, r);
      var t := Splice(rs, i - 1, i + 1, r);
      forall x ensures AddsAt(rs, t, s, x) {
        assert Within(r, x) <==> x == s || Within(rs[i], x) || Within(rs[i - 1], x);
        SpliceMember(rs, i - 1, i + 1, r, s, x);
      }
    } else {
      var r := Range(s, rs[i].high);
      SpliceCanonical(rs, i, i + 1, r);
      var t := Splice(rs, i, i + 1, r);
      forall x ensures AddsAt(rs, t, s, x) {
        assert Within(r, x) <==> x == s || Within(rs[i], x);
        SpliceMember(rs, i, i + 1, r, s, x);
      }
    }
  }

  /** A number between two ranges, next to neither, becomes a range. */
  lemma NewRange(rs: seq<Range>, i: nat, s: int)
    requires Canonical(rs) && i <= |rs| && 0 <= s <= LAST
    requires (i > 0 ==> rs[i - 1].high + 1 < s) && (i < |rs| ==> s + 1 < rs[i].low)
    ensures Adds(rs, Splice(rs, i, i, Range(s, s)), s)
  {
    SpliceCanonical(rs, i, i, Range(s, s));
    var t := Splice(rs, i, i, Range(s, s));
    forall x ensures AddsAt(rs, t, s, x) {
      SpliceMember(rs, i, i, Range(s, s), s, x);
    }
  }

  /** Below the range at k and above the one before it: not a member. */
  lemma Gap(rs: seq<Range>, k: nat, s: int)
    requires Canonical(rs) && k <= |rs| && (k > 0 ==> rs[k - 1].high < s) && (k < |rs| ==> s < rs[k].low)
    ensures !Member(rs, s)
  {
    forall i | 0 <= i < |rs| ensures !Within(rs[i], s) {
      assert i < k - 1 ==> rs[i].high + 1 < rs[k - 1].low;
      assert k < i ==> rs[k].high + 1 < rs[i].low;
    }
  }

  /** The one case 32-bit wrap-around breaks: the largest number is inserted with the cursor on a range that starts
      at 0 and does not reach up to it, or 0 with the cursor on a range that ends at the largest number. */
  predicate Confused(rs: seq<Range>, cur: int, s: int)
    requires rs != [] ==> 0 <= cur < |rs|
  {
    rs != [] && ((s == LAST && rs[cur].low == 0 && rs[cur].high < LAST - 1)
        || (s == 0 && rs[cur].high == LAST && rs[cur].low > 0))
  }

  /** What that leaves: the range of the cursor turned round, so that nothing is in it. */
  function Turned(rs: seq<Range>, cur: int, s: int): seq<Range>
    requires 0 <= cur < |rs|
  {
    rs[cur := if s == 0 then Range(rs[cur].low, 0) else Range(LAST, rs[cur].high)]
  }

  class Tracker {
    var ranges: seq<Range>
    var cur: int    // the cursor; the sentinel only while the list is empty

    ghost predicate Valid()
      reads this
    {
      Canonical(ranges) && (if ranges == [] then cur == 0 else 0 <= cur < |ranges|)
    }

    constructor ()
      ensures Valid() && ranges == []
    {
      ranges, cur := [], 0;
    }

    /** The walk has passed only ranges below s, or only ranges above it. */
    ghost predicate Passed(item: int, direction: int, s: int)
      requires -1 <= item <= |ranges|
      reads this
    {
      && (direction == 0 ==> item == cur)
      && (direction == 1 ==> item > 0 && ranges[item - 1].high < s)
      && (direction == -1 ==> item < |ranges| - 1 && s < ranges[item + 1].low)
    }

    /** `ompi_seq_tracker_check_duplicate`: exactly the numbers inserted are found. */
    method CheckDuplicate(s: int) returns (found: bool)
      requires Valid() && 0 <= s <= LAST
      modifies this`cur
      ensures Valid() && (found <==> Member(ranges, s))
      ensures if found then ranges != [] && Within(ranges[cur], s) else cur == old(cur)
    {
      var item, direction := cur, 0;
      while true
        invariant -1 <= item <= |ranges| && -1 <= direction <= 1 && Passed(item, direction, s) && Valid()
        invariant cur == old(cur)
        decreases if direction == 0 then |ranges| + 2 else if direction == 1 then |ranges| - item else item + 1
      {
        if item == -1 || item == |ranges| {
          Gap(ranges, if item == -1 then 0 else item, s);
          return false;
        } else if ranges[item].high >= s && ranges[item].low <= s {
          assert Within(ranges[item], s);
          cur := item;
          return true;
        } else if s > ranges[item].high && direction != -1 {
          direction := 1;
          item := item + 1;
        } else if s < ranges[item].low && direction != 1 {
          direction := -1;
          item := item - 1;
        } else {
          Gap(ranges, if direction == 1 then item else item + 1, s);
          return false;
        }
      }
    }
  
    /** `ompi_seq_tracker_insert`, on any 32-bit number.  The list stays canonical and gains exactly the number,
        whatever the cursor; in the confused case, and only then, it loses numbers instead. */
    method Insert(s: int)
      requires Valid() && 0 <= s <= LAST
      modifies this
      ensures !Confused(old(ranges), old(cur), s) ==> Valid() && Adds(old(ranges), ranges, s)
      ensures !Confused(old(ranges), old(cur), s) ==> ranges != [] && Within(ranges[cur], s)
      ensures Confused(old(ranges), old(cur), s) ==> cur == old(cur) && ranges == Turned(old(ranges), cur, s)
      ensures Confused(old(ranges), old(cur), s) ==> !Member(ranges, LAST - s) && Member(old(ranges), LAST - s)
    {
      hide Splice, Adds, Confused, Member, Canonical, Succ, Pred;
      var item, direction := cur, 0;
      while true
        invariant -1 <= item <= |ranges| && -1 <= direction <= 1 && Passed(item, direction, s) && Valid()
        invariant ranges == old(ranges) && cur == old(cur) && (direction != 0 ==> !Confused(ranges, cur, s))
        invariant direction == 1 ==> ranges[item - 1].high + 1 < s
        invariant direction == -1 ==> s + 1 < ranges[item + 1].low
        decreases if direction == 0 then |ranges| + 2 else if direction == 1 then |ranges| - item else item + 1
      {
        if item == -1 || item == |ranges| {
          EndNotConfused(ranges, cur, s);
          if direction == -1 {
            NewRange(ranges, 0, s);
            Spliced(ranges, 0, 0, Range(s, s));
            ranges, cur := Splice(ranges, 0, 0, Range(s, s)), 0;
          } else {
            NewRange(ranges, |ranges|, s);
            Spliced(ranges, |ranges|, |ranges|, Range(s, s));
            ranges, cur := Splice(ranges, |ranges|, |ranges|, Range(s, s)), |ranges|;
          }
          AddsCanonical(old(ranges), ranges, s);
          return;
        }
        Bounds(ranges, item);
        var r := ranges[item];
        if r.high >= s && r.low <= s {
          Already(ranges, item, cur, direction, s);
          cur := item;
          return;
        } else if Succ(r.high) == s {
          var join := item + 1 < |ranges| && ranges[item + 1].low == Succ(s);
          UpCase(ranges, item, cur, direction, s);
          if join {
            Spliced(ranges, item, item + 2, Range(r.low, ranges[item + 1].high));
            ranges := Splice(ranges, item, item + 2, Range(r.low, ranges[item + 1].high));
          } else {
            Spliced(ranges, item, item + 1, Range(r.low, s));
            ranges := Splice(ranges, item, item + 1, Range(r.low, s));
          }
          cur := item;
          AddsCanonical(old(ranges), ranges, s);
          return;
        } else if Pred(r.low) == s {
          var join := item > 0 && ranges[item - 1].high == Pred(s);
          DownCase(ranges, item, cur, direction, s);
          if join {
            Spliced(ranges, item - 1, item + 1, Range(ranges[item - 1].low, r.high));
            ranges, cur := Splice(ranges, item - 1, item + 1, Range(ranges[item - 1].low, r.high)), item - 1;
          } else {
            Spliced(ranges, item, item + 1, Range(s, r.high));
            ranges, cur := Splice(ranges, item, item + 1, Range(s, r.high)), item;
          }
          AddsCanonical(old(ranges), ranges, s);
          return;
        } else if s > r.high {
          StepNotConfused(ranges, item, cur, direction, s);
          if direction == -1 {
            NewRange(ranges, item + 1, s);
            Spliced(ranges, item + 1, item + 1, Range(s, s));
            ranges, cur := Splice(ranges, item + 1, item + 1, Range(s, s)), item + 1;
            AddsCanonical(old(ranges), ranges, s);
            return;
          } else {
            direction := 1;
            item := item + 1;
          }
        } else {
          StepNotConfused(ranges, item, cur, direction, s);
          if direction == 1 {
            NewRange(ranges, item, s);
            Spliced(ranges, item, item, Range(s, s));
            ranges, cur := Splice(ranges, item, item, Range(s, s)), item;
            AddsCanonical(old(ranges), ranges, s);
            return;
          } else {
            direction := -1;
            item := item - 1;
          }
        }
      }
    }
  
    /** `ompi_seq_tracker_copy` into a fresh tracker. */
    method CopyFrom(src: Tracker)
      requires Valid() && ranges == [] && src.Valid() && src != this
      modifies this
      ensures Valid() && ranges == src.ranges && cur == src.cur
    {
      for i := 0 to |src.ranges|
        invariant ranges == src.ranges[..i] && cur == if i <= src.cur then 0 else src.cur
      {
        ranges := ranges + [src.ranges[i]];
        if src.cur == i { cur := i; }
      }
    }
  }

  /** A run of inserts of numbers below the largest: the tracker holds exactly those, however they are ordered. */
  method Track(ids: seq<int>) returns (t: Tracker)
    requires forall i | 0 <= i < |ids| :: 0 <= ids[i] < LAST
    ensures fresh(t) && t.Valid() && forall x :: Member(t.ranges, x) <==> x in ids
  {
    hide Canonical;
    t := new Tracker();
    for i := 0 to |ids|
      invariant fresh(t) && t.Valid() && forall x :: Member(t.ranges, x) <==> x in ids[..i]
    {
      assert ids[..i + 1] == ids[..i] + [ids[i]];
      Unconfused(t.ranges, t.cur, ids[i]);
      ghost var before := t.ranges;
      t.Insert(ids[i]);
      forall x ensures Member(t.ranges, x) <==> x in ids[..i + 1] { assert AddsAt(before, t.ranges, ids[i], x); }
    }
    assert ids[..|ids|] == ids;
  }

  /** Without the largest number there is no confusion. */
  lemma Unconfused(rs: seq<Range>, cur: int, s: int)
    requires Canonical(rs) && (rs != [] ==> 0 <= cur < |rs|) && s != LAST && !Member(rs, LAST)
    ensures !Confused(rs, cur, s)
  {
    assert rs != [] && rs[cur].high == LAST ==> Within(rs[cur], LAST);
  }

  /** Two runs over the same numbers end with the same list, whatever the order and repetitions. */
  method OrderIrrelevant(a: seq<int>, b: seq<int>) returns (s: Tracker, t: Tracker)
    requires (forall i | 0 <= i < |a| :: 0 <= a[i] < LAST) && (forall i | 0 <= i < |b| :: 0 <= b[i] < LAST)
    requires forall x :: x in a <==> x in b
    ensures fresh(s) && fresh(t) && s.ranges == t.ranges
  {
    s := Track(a);
    t := Track(b);
    Unique(s.ranges, t.ranges);
  }

  /** The failing run: 0, then the largest number, and 0 is forgotten. */
  method ForgetsZero() returns (t: Tracker)
    ensures fresh(t) && !Member(t.ranges, 0)
  {
    t := new Tracker();
    t.Insert(0);
    var one := [Range(0, 0)];
    forall x ensures Member(t.ranges, x) <==> Member(one, x) {
      assert AddsAt([], t.ranges, 0, x);
      assert Within(one[0], x) <==> x == 0;
    }
    Unique(t.ranges, one);
    t.Insert(LAST);
  }

  lemma Bounds(rs: seq<Range>, i: nat)
    requires Canonical(rs) && i < |rs|
    ensures 0 <= rs[i].low <= rs[i].high <= LAST
  {
  }

  lemma Spliced(rs: seq<Range>, a: nat, b: nat, r: Range)
    requires a <= b <= |rs|
    ensures |Splice(rs, a, b, r)| == |rs| - (b - a) + 1 && Splice(rs, a, b, r)[a] == r
    ensures b == a + 1 ==> Splice(rs, a, b, r) == rs[a := r]
  {
  }

  lemma AddsCanonical(before: seq<Range>, after: seq<Range>, s: int)
    ensures Adds(before, after, s) ==> Canonical(after)
  {
  }

  lemma EndNotConfused(rs: seq<Range>, cur: int, s: int)
    requires rs != [] ==> 0 <= cur < |rs|
    ensures rs == [] ==> !Confused(rs, cur, s)
  {
  }

  /** How the walk stands at an item. */
  ghost predicate Stands(rs: seq<Range>, item: int, cur: int, direction: int, s: int)
  {
    && Canonical(rs) && 0 <= item < |rs| && 0 <= cur < |rs| && 0 <= s <= LAST && -1 <= direction <= 1
    && (direction == 0 ==> item == cur) && (direction != 0 ==> !Confused(rs, cur, s))
    && (direction == 1 ==> item > 0 && rs[item - 1].high < s)
       && (direction == -1 ==> item < |rs| - 1 && s < rs[item + 1].low)
  }

  lemma Already(rs: seq<Range>, item: int, cur: int, direction: int, s: int)
    requires Stands(rs, item, cur, direction, s) && Within(rs[item], s)
    ensures Adds(rs, rs, s) && !Confused(rs, cur, s)
  {
    assert Member(rs, s);
  }

  lemma UpCase(rs: seq<Range>, item: int, cur: int, direction: int, s: int)
    requires Stands(rs, item, cur, direction, s) && !Within(rs[item], s) && Succ(rs[item].high) == s
    ensures !Confused(rs, cur, s) ==> if item + 1 < |rs| && rs[item + 1].low == Succ(s)
              then Adds(rs, Splice(rs, item, item + 2, Range(rs[item].low, rs[item + 1].high)), s)
              else Adds(rs, Splice(rs, item, item + 1, Range(rs[item].low, s)), s)
    ensures !Confused(rs, cur, s) ==> rs[item].low <= s
    ensures !Confused(rs, cur, s) && item + 1 < |rs| && rs[item + 1].low == Succ(s) ==> s <= rs[item + 1].high
    ensures Confused(rs, cur, s) ==> item + 1 == |rs| && Member(rs, LAST - s) && s == 0 && item == cur
    ensures Confused(rs, cur, s) ==> !Member(Splice(rs, item, item + 1, Range(rs[item].low, s)), LAST - s)
  {
    hide Adds, Member;
    assert item + 1 < |rs| ==> rs[item].high + 1 < rs[item + 1].low <= LAST;
    if rs[item].high == LAST {
      LosesLast(rs);
    } else {
      GrowUp(rs, item, s);
    }
  }

  lemma LosesLast(rs: seq<Range>)
    requires Canonical(rs) && rs != [] && rs[|rs| - 1].high == LAST && rs[|rs| - 1].low > 0
    ensures Member(rs, LAST) && !Member(Splice(rs, |rs| - 1, |rs|, Range(rs[|rs| - 1].low, 0)), LAST)
  {
    var n := |rs| - 1;
    assert Within(rs[n], LAST);
    var t := Splice(rs, n, n + 1, Range(rs[n].low, 0));
    forall i | 0 <= i < |t|
      ensures !Within(t[i], LAST)
    {
      assert i < n ==> t[i] == rs[i] && rs[i].high + 1 < rs[n].low;
    }
  }

  lemma DownCase(rs: seq<Range>, item: int, cur: int, direction: int, s: int)
    requires Stands(rs, item, cur, direction, s) && !Within(rs[item], s) && Succ(rs[item].high) != s
        && Pred(rs[item].low) == s
    ensures !Confused(rs, cur, s) ==> if item > 0 && rs[item - 1].high == Pred(s)
              then Adds(rs, Splice(rs, item - 1, item + 1, Range(rs[item - 1].low, rs[item].high)), s)
              else Adds(rs, Splice(rs, item, item + 1, Range(s, rs[item].high)), s)
    ensures !Confused(rs, cur, s) ==> s <= rs[item].high
    ensures !Confused(rs, cur, s) && item > 0 && rs[item - 1].high == Pred(s) ==> rs[item - 1].low <= s
    ensures Confused(rs, cur, s) ==> item == 0 && Member(rs, LAST - s) && s == LAST && item == cur
    ensures Confused(rs, cur, s) ==> !Member(Splice(rs, item, item + 1, Range(s, rs[item].high)), LAST - s)
  {
    hide Adds, Member;
    assert item > 0 ==> 0 <= rs[item - 1].high + 1 < rs[item].low;
    if rs[item].low == 0 {
      LosesZero(rs);
    } else {
      GrowDown(rs, item, s);
    }
  }

  lemma LosesZero(rs: seq<Range>)
    requires Canonical(rs) && rs != [] && rs[0].low == 0
    ensures Member(rs, 0) && !Member(Splice(rs, 0, 1, Range(LAST, rs[0].high)), 0)
  {
    assert Within(rs[0], 0);
    var t := Splice(rs, 0, 1, Range(LAST, rs[0].high));
    forall i | 0 <= i < |t| ensures !Within(t[i], 0) { assert i > 0 ==> t[i] == rs[i] && rs[0].high + 1 < rs[i].low; }
  }

  lemma StepNotConfused(rs: seq<Range>, item: int, cur: int, direction: int, s: int)
    requires Stands(rs, item, cur, direction, s) && !Within(rs[item], s) && Succ(rs[item].high) != s
        && Pred(rs[item].low) != s
    ensures !Confused(rs, cur, s)
    ensures s > rs[item].high ==> s > rs[item].high + 1
    ensures s < rs[item].low ==> s + 1 < rs[item].low
  {
  }
}
