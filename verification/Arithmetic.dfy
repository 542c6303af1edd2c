/** Division facts shared by the ring buffer and the position arithmetic. */
module Arithmetic {

  lemma MulMono(a: nat, b: nat, d: nat)
    requires a < b
    ensures a * d + d <= b * d
  {
    assert (a + 1) * d <= b * d;
  }

  /** Quotient and remainder are determined by the equation they satisfy. */
  lemma DivUnique(x: nat, d: nat, q: nat, r: nat)
    requires r < d && x == q * d + r
    ensures x / d == q && x % d == r
  {
    var q', r' := x / d, x % d;
    assert x == q' * d + r';
    if q > q' {
      MulMono(q', q, d);
    } else if q < q' {
      MulMono(q, q', d);
    }
  }
}
