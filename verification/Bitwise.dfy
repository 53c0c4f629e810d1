/**
 Bitwise operations on natural numbers.
 */
module Bitwise {
  import opened Arithmetic

  function BitOr(x: nat, y: nat): nat {
    if x == 0 && y == 0 then 0
    else (if x % 2 == 1 || y % 2 == 1 then 1 else 0) + 2 * BitOr(x / 2, y / 2)
  }

  // x & ~y
  function BitClear(x: nat, y: nat): nat {
    if x == 0 then 0
    else (if x % 2 == 1 && y % 2 == 0 then 1 else 0) + 2 * BitClear(x / 2, y / 2)
  }

  function BitXor(x: nat, y: nat): nat {
    if x == 0 && y == 0 then 0
    else (if x % 2 != y % 2 then 1 else 0) + 2 * BitXor(x / 2, y / 2)
  }

  // Bit k of a number.
  function Bit(x: nat, k: nat): bool {
    if k == 0 then x % 2 == 1 else Bit(x / 2, k - 1)
  }

  // Its weight is 2^k.
  lemma {:induction false} BitWeight(x: nat, k: nat)
    ensures Bit(x, k) <==> Quotient(x, Pow2(k)) % 2 == 1
    decreases k
  {
    if k > 0 {
      BitWeight(x / 2, k - 1);
      var p, h := Pow2(k - 1), x / 2;
      var q := Quotient(h, p);
      Regroup(q, p);
      QuotientUnique(x, 2 * p, q, 2 * (h % p) + x % 2);
    }
  }

  lemma Regroup(q: nat, p: nat)
    ensures 2 * (q * p) == q * (2 * p)
  {}

  // The three operations act on each bit by itself.
  lemma {:induction false} BitwiseMeaning(x: nat, y: nat, k: nat)
    ensures Bit(BitOr(x, y), k) == (Bit(x, k) || Bit(y, k))
    ensures Bit(BitClear(x, y), k) == (Bit(x, k) && !Bit(y, k))
    ensures Bit(BitXor(x, y), k) == (Bit(x, k) != Bit(y, k))
    decreases k
  {
    Halves(x, y);
    if k > 0 {
      BitwiseMeaning(x / 2, y / 2, k - 1);
    }
  }

  // Taking a number modulo a power of two keeps the lower bits.
  lemma {:induction false} BitOfRemainder(x: nat, width: nat, k: nat)
    requires k < width
    ensures Bit(x % Pow2(width), k) == Bit(x, k)
    decreases k
  {
    HalfRemainder(x, Pow2(width - 1));
    if k > 0 {
      BitOfRemainder(x / 2, width - 1, k - 1);
    }
  }

  // The lowest bit and the rest.
  lemma Halves(x: nat, y: nat)
    ensures BitOr(x, y) / 2 == BitOr(x / 2, y / 2) && (BitOr(x, y) % 2 == 1 <==> x % 2 == 1 || y % 2 == 1)
    ensures BitClear(x, y) / 2 == BitClear(x / 2, y / 2) && (BitClear(x, y) % 2 == 1 <==> x % 2 == 1 && y % 2 == 0)
    ensures BitXor(x, y) / 2 == BitXor(x / 2, y / 2) && (BitXor(x, y) % 2 == 1 <==> x % 2 != y % 2)
  {}

  /*
   * Clearing bits
   */

  // Clearing the bits of m takes away at most m.
  lemma {:induction false} ClearedBounds(x: nat, m: nat)
    ensures BitClear(x, m) <= x <= BitClear(x, m) + m
    decreases x
  {
    if x > 0 {
      ClearedBounds(x / 2, m / 2);
    }
  }

  // Clearing the bits below a power of two rounds down to a multiple of it.
  lemma {:induction false} ClearedRounds(x: nat, k: nat)
    ensures BitClear(x, Pow2(k) - 1) == x - x % Pow2(k)
    decreases k
  {
    if k == 0 {
      ClearedByZero(x);
    } else {
      ClearedRounds(x / 2, k - 1);
      ClearedBelow(x, Pow2(k - 1));
      HalfRemainder(x, Pow2(k - 1));
    }
  }

  lemma ClearedBelow(x: nat, p: nat)
    requires p > 0
    ensures BitClear(x, 2 * p - 1) == 2 * BitClear(x / 2, p - 1)
  {
    assert (2 * p - 1) / 2 == p - 1 && (2 * p - 1) % 2 == 1;
  }

  lemma {:induction false} ClearedByZero(x: nat)
    ensures BitClear(x, 0) == x
  {
    if x > 0 {
      ClearedByZero(x / 2);
    }
  }

  lemma {:induction false} ClearedBySelf(x: nat)
    ensures BitClear(x, x) == 0
  {
    if x > 0 {
      ClearedBySelf(x / 2);
    }
  }

  lemma HalfRemainder(x: nat, p: nat)
    requires p > 0
    ensures x % (2 * p) == 2 * (x / 2 % p) + x % 2
  {
    var h := x / 2;
    var q, r := Quotient(h, p), h % p;
    assert x == q * (2 * p) + (2 * r + x % 2);
    DivMod(x, 2 * p, q, 2 * r + x % 2);
  }
}
