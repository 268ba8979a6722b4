/** Facts about products and quotients that the solver does not find on its own. */
module Arithmetic {

  lemma {:induction false} ProductOrder(d: nat, a: nat, b: nat)
    requires a <= b
    ensures d * a <= d * b
    ensures a < b ==> d * a + d <= d * b
    decreases b
  {
    if a < b {
      assert d * b == d * (b - 1) + d;
      ProductOrder(d, a, b - 1);
    }
  }

  /** Division with remainder has one answer. */
  lemma DivModUnique(x: nat, d: nat, q: nat, r: nat)
    requires d > 0 && x == d * q + r && r < d
    ensures x / d == q && x % d == r
  {
    var q', r' := x / d, x % d;
    assert x == d * q' + r';
    QuotientUnique(d, q, r, q', r');
  }

  lemma QuotientUnique(d: nat, q: nat, r: nat, q': nat, r': nat)
    requires d * q + r == d * q' + r' && r < d && r' < d
    ensures q == q' && r == r'
  {
    if q < q' {
      ProductOrder(d, q, q');
    } else if q' < q {
      ProductOrder(d, q', q);
    }
  }
}
