/**
 Reversing and rotating the bits of a word.
 */
module BitReversal {
  import opened BitStrings

  function Shr(v: Word, n: nat): Word
    requires n <= 32
  {
    Zeros(n) + v[..32 - n]
  }

  function Shl(v: Word, n: nat): Word
    requires n <= 32
  {
    v[n..] + Zeros(n)
  }

  function Or(a: Word, b: Word): Word {
    seq(32, i requires 0 <= i < 32 => a[i] || b[i])
  }

  // The value of bit i, counted from the least significant one.
  function BitAt(v: Word, i: nat): bool
    requires i < 32
  {
    v[31 - i]
  }

  // Shifts the bits of `v` out at the low end and into the result there; the
  // remaining zeros are made up for in one shift at the end.
  method Rbit(v: Word) returns (result: Word)
    ensures forall i: nat :: i < 32 ==> BitAt(result, 31 - i) == BitAt(v, i)
    ensures result == Reverse(v)
  {
    var s: nat := 31;
    result := v;
    var value := Shr(v, 1);
    while value != Zeros(32)
      invariant 0 <= s < 32 && value == Shr(v, 32 - s) && (s == 0 ==> value == Zeros(32))
      invariant forall i: nat :: i < 32 - s ==> BitAt(result, 31 - s - i) == BitAt(v, i)
      decreases s
    {
      ghost var before := result;
      result := Or(Shl(result, 1), Zeros(31) + [BitAt(value, 0)]);
      Collected(v, before, s);
      s := s - 1;
      value := Shr(value, 1);
      ShiftsAdd(v, 31 - s);
    }
    Finished(v, result, s);
    result := Shl(result, s);
  }

  // One turn of the loop moves one more bit into place.
  lemma Collected(v: Word, r: Word, s: nat)
    requires 0 < s < 32
    requires forall i: nat :: i < 32 - s ==> BitAt(r, 31 - s - i) == BitAt(v, i)
    ensures var n := Or(Shl(r, 1), Zeros(31) + [BitAt(Shr(v, 32 - s), 0)]);
      forall i: nat :: i < 33 - s ==> BitAt(n, 32 - s - i) == BitAt(v, i)
  {
    assert BitAt(Shr(v, 32 - s), 0) == BitAt(v, 32 - s);
  }

  lemma ShiftsAdd(v: Word, n: nat)
    requires n < 32
    ensures Shr(Shr(v, n), 1) == Shr(v, n + 1)
    ensures n == 31 ==> Shr(v, n + 1) == Zeros(32)
  {}

  // When nothing is left of the value, the bits not collected are zero.
  lemma Finished(v: Word, r: Word, s: nat)
    requires s < 32 && Shr(v, 32 - s) == Zeros(32)
    requires forall i: nat :: i < 32 - s ==> BitAt(r, 31 - s - i) == BitAt(v, i)
    ensures Shl(r, s) == Reverse(v)
  {
    forall i: nat | 32 - s <= i < 32
      ensures !BitAt(v, i)
    {
      assert Shr(v, 32 - s)[63 - s - i] == v[31 - i];
    }
    forall k: nat | k < 32
      ensures Shl(r, s)[k] == Reverse(v)[k]
    {
      assert Reverse(v)[k] == BitAt(v, k);
      if k < 32 - s {
        assert Shl(r, s)[k] == r[s + k] == BitAt(r, 31 - s - k);
      }
    }
  }

  /*
   * Rotation
   */

  function Ror(v: Word, n: nat): Word {
    if n % 32 == 0 then v else Or(Shr(v, n % 32), Shl(v, 32 - n % 32))
  }

  function Rotated(v: Word, n: nat): (r: Word)
    requires n <= 32
    ensures forall k :: 0 <= k < 32 ==> r[k] == if k < n then v[32 - n + k] else v[k - n]
  {
    v[32 - n..] + v[..32 - n]
  }

  lemma RorRotates(v: Word, n: nat)
    ensures Ror(v, n) == Rotated(v, n % 32)
  {}

  lemma RotatedTwice(v: Word, a: nat, b: nat)
    requires a < 32 && b < 32
    ensures Rotated(Rotated(v, a), b) == Rotated(v, if a + b < 32 then a + b else a + b - 32)
  {
    var r, t := Rotated(Rotated(v, a), b), Rotated(v, if a + b < 32 then a + b else a + b - 32);
    forall k | 0 <= k < 32
      ensures r[k] == t[k]
    {}
    SameBits(r, t);
  }

  lemma SameBits(a: Word, b: Word)
    requires forall k :: 0 <= k < 32 ==> a[k] == b[k]
    ensures a == b
  {}

  // Rotations add up, so one of them is undone by the rest of the turn.
  lemma RorAdds(v: Word, m: nat, n: nat)
    ensures Ror(Ror(v, m), n) == Ror(v, m + n)
  {
    SumModulo(m, n);
    RorAddsTo(v, m, n, m % 32, n % 32, (m + n) % 32);
  }

  lemma RorAddsTo(v: Word, m: nat, n: nat, a: nat, b: nat, c: nat)
    requires m % 32 == a && n % 32 == b && (m + n) % 32 == c && c == if a + b < 32 then a + b else a + b - 32
    ensures Ror(Ror(v, m), n) == Ror(v, m + n)
  {
    assert Ror(Ror(v, m), n) == Rotated(Rotated(v, a), b) by {
      RorRotates(v, m);
      RorRotates(Rotated(v, a), n);
    }
    assert Ror(v, m + n) == Rotated(v, c) by { RorRotates(v, m + n); }
    RotatedTwice(v, a, b);
  }

  lemma SumModulo(m: nat, n: nat)
    ensures (m + n) % 32 == if m % 32 + n % 32 < 32 then m % 32 + n % 32 else m % 32 + n % 32 - 32
  {}

  // Reversal turns rotation by n into rotation by 32 - n.
  lemma ReversalTurnsRotation(v: Word, n: nat)
    requires n <= 32
    ensures Reverse(Ror(v, n)) == Ror(Reverse(v), 32 - n)
  {
    if n == 0 {
      assert Ror(v, 0) == v;
      assert Ror(Reverse(v), 32) == Reverse(v);
    } else if n == 32 {
      assert Ror(v, 32) == v;
      assert Ror(Reverse(v), 0) == Reverse(v);
    } else {
      RorWithin(v, n);
      RorWithin(Reverse(v), 32 - n);
      ReversedRotation(v, n);
    }
  }

  lemma RorWithin(v: Word, n: nat)
    requires 0 < n < 32
    ensures Ror(v, n) == Rotated(v, n)
  {
    RorRotates(v, n);
  }

  lemma ReversedRotation(v: Word, n: nat)
    requires n <= 32
    ensures Reverse(Rotated(v, n)) == Rotated(Reverse(v), 32 - n)
  {
    ReverseConcat(v[32 - n..], v[..32 - n]);
    ReversedParts(v, n);
  }

  lemma ReversedParts(v: Word, n: nat)
    requires n <= 32
    ensures Reverse(v[..32 - n]) == Reverse(v)[n..] && Reverse(v[32 - n..]) == Reverse(v)[..n]
  {}
}
