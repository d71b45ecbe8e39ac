/** Division and multiplication facts the proofs share. */
module Arithmetic {

  lemma MultipleOrder(a: int, b: int, f: nat)
    ensures a <= b ==> a * f <= b * f
  {
    assert b * f == a * f + (b - a) * f;
  }

  lemma DivisionBelow(r: nat, f: nat, n: nat)
    requires f > 0 && r < n * f
    ensures r / f < n && r == r / f * f + r % f
  {
    MultipleOrder(n, r / f, f);
  }

  lemma SmallMultiple(k: int, f: int)
    requires 0 < f && 0 - f < k * f && k * f < f
    ensures k == 0
  {
    MultipleOrder(1, k, f);
    MultipleOrder(k, -1, f);
  }

  lemma QuotientIs(r: nat, f: nat, q: nat, low: nat)
    requires f > 0 && low < f && r == q * f + low
    ensures r / f == q && r % f == low
  {
    var a, b := r / f, r % f;
    assert (a - q) * f == low - b;
    SmallMultiple(a - q, f);
  }
}
