/** Arithmetic that several modules need. */
module Arithmetic {
  lemma MulMonotone(a: nat, b: nat, k: nat)
    requires a <= b
    ensures a * k <= b * k
  {
  }

  lemma DivMonotone(a: nat, b: nat, k: nat)
    requires a <= b && k >= 1
    ensures a / k <= b / k
  {
    var p, q := a / k, b / k;
    if q < p { MulMonotone(q + 1, p, k); }
  }
}
