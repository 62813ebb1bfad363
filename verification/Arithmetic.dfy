/** The few facts about products and quotients that the solver needs spelled out. */
module Arithmetic {

  lemma {:induction false} MulMonotone(a: int, b: int, d: nat)
    requires a <= b
    ensures a * d <= b * d
  {
    if d == 0 {
      assert a * d == 0 == b * d;
    } else {
      MulMonotone(a, b, d - 1);
      assert a * d == a * (d - 1) + a;
      assert b * d == b * (d - 1) + b;
    }
  }

  /** Quotient and remainder are determined by the division equation. */
  lemma DivUnique(x: int, k: nat, q: int, r: nat)
    requires r < k && x == q * k + r
    ensures x / k == q && x % k == r
  {
    var a, b := x / k, x % k;
    assert x == a * k + b;
    assert (a + 1) * k == a * k + k && (q + 1) * k == q * k + k;
    if a < q {
      MulMonotone(a + 1, q, k);
      assert false;
    }
    if q < a {
      MulMonotone(q + 1, a, k);
      assert false;
    }
  }

  /** A product whose definition can be hidden from the solver. */
  function Times(p: nat, cap: nat): nat { p * cap }

  lemma NextTimes(p: nat, cap: nat)
    ensures Times(0, cap) == 0 && Times(p + 1, cap) == Times(p, cap) + cap
  {
  }
}
