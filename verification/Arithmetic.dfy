/**
 Powers of two and rounded-down division: alignments, field widths, shifts and
 clock dividers.
 */
module Arithmetic {

  function Pow2(k: nat): (p: nat)
    ensures p > 0
  {
    if k == 0 then 1 else 2 * Pow2(k - 1)
  }

  lemma {:induction false} Pow2Sum(i: nat, j: nat)
    ensures Pow2(i + j) == Pow2(i) * Pow2(j)
    decreases i
  {
    if i > 0 {
      Pow2Sum(i - 1, j);
      assert Pow2(i + j) == 2 * (Pow2(i - 1) * Pow2(j));
    }
  }

  predicate IsFloor(q: nat, x: nat, d: nat) {
    q * d <= x < (q + 1) * d
  }

  // Unsigned division.
  function Quotient(x: nat, d: nat): (q: nat)
    requires d > 0
    ensures IsFloor(q, x, d) && x == q * d + x % d
  {
    assert x == x / d * d + x % d;
    x / d
  }

  lemma QuotientUnique(x: nat, d: nat, q: nat, r: nat)
    requires d > 0 && x == q * d + r && r < d
    ensures Quotient(x, d) == q && x % d == r
  {
    var p := Quotient(x, d);
    if p < q {
      Scale(p + 1, q, d);
    } else if q < p {
      Scale(q + 1, p, d);
    }
  }

  lemma DivMod(x: nat, d: nat, q: nat, r: nat)
    requires d > 0 && x == q * d + r && r < d
    ensures x / d == q && x % d == r
  {
    QuotientUnique(x, d, q, r);
  }

  lemma Successor(a: nat, d: nat)
    ensures (a + 1) * d == a * d + d
  {}

  lemma Scale(a: nat, b: nat, d: nat)
    requires a <= b
    ensures a * d <= b * d
  {}
}
