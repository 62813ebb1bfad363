/** What a priority queue is to its users: a finite map from values to keys.
    `PriorityQueues` proves that the Fibonacci tree implements these operations. */
module QueueSpec {

  type Queue = map<int, real>

  predicate IsMax(m: Queue, v: int)
  {
    v in m && forall w | w in m :: m[w] <= m[v]
  }

  /** The greatest key, and 0 for the empty queue. */
  ghost function MaxKey(m: Queue): real
  {
    if exists v :: IsMax(m, v) then var v :| IsMax(m, v); m[v] else 0.0
  }

  lemma MaxKeyIs(m: Queue, v: int)
    requires IsMax(m, v)
    ensures MaxKey(m) == m[v]
  {
  }

  /** A queue with a positive greatest key holds an element with that key. */
  lemma PositiveMax(m: Queue)
    ensures MaxKey(m) > 0.0 ==> m != map[] && exists v :: IsMax(m, v) && m[v] == MaxKey(m)
    ensures m == map[] ==> MaxKey(m) == 0.0
  {
  }

  function Adjust(m: Queue, v: int, key: real): Queue
  {
    if v in m then m[v := key] else m
  }

  lemma SomeMember(s: set<int>)
    ensures s == {} || exists v :: v in s
  {
    if !exists v :: v in s {
      assert s == {};
    }
  }

  lemma {:induction false} MaxExists(m: Queue)
    requires m != map[]
    ensures exists v :: IsMax(m, v)
    decreases |m|
  {
    SomeMember(m.Keys);
    var v :| v in m.Keys;
    var rest := m - {v};
    var x := v;
    if rest != map[] {
      MaxExists(rest);
      var w :| IsMax(rest, w);
      x := if m[v] > m[w] then v else w;
    }
    forall y | y in m ensures m[y] <= m[x] {
      assert y == v || y in rest;
    }
    assert IsMax(m, x);
  }

  lemma KeyBelowMax(m: Queue, v: int)
    requires v in m
    ensures m[v] <= MaxKey(m)
  {
    MaxExists(m);
  }

  /** Any element of greatest key; which one is left open. */
  method SomeMax(m: Queue) returns (v: int)
    requires m != map[]
    ensures IsMax(m, v)
  {
    SomeMember(m.Keys);
    v :| v in m.Keys;
    var rest := m.Keys - {v};
    while rest != {}
      invariant v in m && rest <= m.Keys
      invariant forall w | w in m && w !in rest :: m[w] <= m[v]
      decreases rest
    {
      SomeMember(rest);
      var w :| w in rest;
      if m[w] > m[v] { v := w; }
      rest := rest - {w};
    }
  }

  method FindMaxKey(m: Queue) returns (key: real)
    ensures key == MaxKey(m)
  {
    if m == map[] {
      key := 0.0;
    } else {
      var v := SomeMax(m);
      MaxKeyIs(m, v);
      key := m[v];
    }
  }

  method DeleteMax(m: Queue) returns (v: int, rest: Queue)
    ensures m == map[] ==> v == -1 && rest == map[]
    ensures m != map[] ==> IsMax(m, v) && MaxKey(m) == m[v] && rest == m - {v}
  {
    if m == map[] {
      v, rest := -1, m;
    } else {
      v := SomeMax(m);
      MaxKeyIs(m, v);
      rest := m - {v};
    }
  }
}
