module Arithmetic {

  function Quotient(x: nat, d: nat): nat
    requires d > 0
  {
    x / d
  }

  lemma MultipleBounds(k: int, d: int)
    requires d > 0
    ensures k >= 1 ==> k * d >= d
    ensures k <= -1 ==> k * d <= -d
  {
  }

  lemma QuotientUnique(x: nat, d: nat, q: nat, e: nat)
    requires d > 0 && x == q * d + e && e < d
    ensures x / d == q && x % d == e
  {
    var k := x / d - q;
    assert x == (x / d) * d + x % d;
    assert k * d == e - x % d by { assert (x / d) * d == q * d + k * d; }
    MultipleBounds(k, d);
  }

  /** Adding a multiple of the divisor does not change the remainder. */
  lemma SameRemainder(x: nat, k: nat, d: nat)
    requires d > 0
    ensures (k * d + x) % d == x % d
  {
    var q := x / d;
    assert x == q * d + x % d;
    assert k * d + x == (k + q) * d + x % d;
    QuotientUnique(k * d + x, d, k + q, x % d);
  }
}
