/**
 The mathematics of a shift-register CRC of any width: the register after a
 message is the remainder of a polynomial long division, the register is linear
 in seed and message, its mirror image is the right-shifting CRC, and it detects
 every burst no longer than itself exactly when the polynomial has a constant
 term.
 */
module CrcTheory {

  import opened BitStrings

  // One input bit shifted into the register; p holds the polynomial without its
  // leading term.
  function Step(p: Bits, r: Bits, b: bool): (r': Bits)
    requires |p| == |r| > 0
    ensures |r'| == |r|
  {
    var shifted := r[1..] + [false];
    if r[0] != b then Xor(shifted, p) else shifted
  }

  function Feed(p: Bits, r: Bits, m: Bits): (r': Bits)
    requires |p| == |r| > 0
    ensures |r'| == |r|
    decreases |m|
  {
    if m == [] then r else Feed(p, Step(p, r, m[0]), m[1..])
  }

  lemma {:induction false} FeedConcat(p: Bits, r: Bits, a: Bits, b: Bits)
    requires |p| == |r| > 0
    ensures Feed(p, r, a + b) == Feed(p, Feed(p, r, a), b)
    decreases |a|
  {
    if a == [] {
      assert a + b == b;
    } else {
      assert (a + b)[1..] == a[1..] + b;
      FeedConcat(p, Step(p, r, a[0]), a[1..], b);
    }
  }

  /*
   * Long division
   */

  // Schoolbook division of the polynomial d (highest coefficient first) by the
  // monic polynomial 1:p over GF(2); no register is involved.
  function Remainder(d: Bits, p: Bits): (r: Bits)
    requires |d| >= |p| > 0
    ensures |r| == |p|
    decreases |d|
  {
    if |d| == |p| then d
    else if d[0] then Remainder(Xor(d[1..|p| + 1], p) + d[|p| + 1..], p)
    else Remainder(d[1..], p)
  }

  // The dividend of a CRC: the message times x^n, with the seed added to its
  // leading n coefficients.
  function Dividend(s: Bits, m: Bits): (d: Bits)
    ensures |d| == |s| + |m|
  {
    var padded := m + Zeros(|s|);
    Xor(s, padded[..|s|]) + padded[|s|..]
  }

  // The register always holds the remainder of the long division.
  lemma {:induction false} FeedIsRemainder(p: Bits, s: Bits, m: Bits)
    requires |p| == |s| > 0
    ensures Feed(p, s, m) == Remainder(Dividend(s, m), p)
    decreases |m|
  {
    if m == [] {
      assert (m + Zeros(|s|))[..|s|] == Zeros(|s|);
      assert Dividend(s, m) == s;
    } else {
      DividendStep(p, s, m);
      FeedIsRemainder(p, Step(p, s, m[0]), m[1..]);
    }
  }

  lemma DividendStep(p: Bits, s: Bits, m: Bits)
    requires |p| == |s| > 0 && m != []
    ensures Dividend(Step(p, s, m[0]), m[1..])
         == var d := Dividend(s, m);
            if d[0] then Xor(d[1..|p| + 1], p) + d[|p| + 1..] else d[1..]
  {
    var n := |s|;
    var d := Dividend(s, m);
    var padded := m + Zeros(n);
    var padded' := m[1..] + Zeros(n);
    assert forall i :: 0 <= i < |padded'| - 1 ==> padded'[i] == padded[i + 1];
    assert |padded'| == |padded| - 1;
    assert padded' == padded[1..];
    assert d[0] == (s[0] != m[0]);
    assert d[n + 1..] == padded[n + 1..] == padded'[n..];
    forall i | 0 <= i < n
      ensures d[1 + i] == (if i < n - 1 then s[i + 1] != padded'[i] else padded'[i])
    {
      if i == n - 1 {
        assert d[n] == padded[n..][0];
      }
    }
  }

  /*
   * Linearity
   */

  lemma {:induction false} FeedLinear(p: Bits, r: Bits, s: Bits, x: Bits, y: Bits)
    requires |p| == |r| == |s| > 0 && |x| == |y|
    ensures Feed(p, Xor(r, s), Xor(x, y)) == Xor(Feed(p, r, x), Feed(p, s, y))
    decreases |x|
  {
    if x != [] {
      assert Step(p, Xor(r, s), Xor(x, y)[0]) == Xor(Step(p, r, x[0]), Step(p, s, y[0]));
      assert Xor(x, y)[1..] == Xor(x[1..], y[1..]);
      FeedLinear(p, Step(p, r, x[0]), Step(p, s, y[0]), x[1..], y[1..]);
    }
  }

  // Feeding a register its own leading bits cancels every feedback.
  lemma {:induction false} FeedOwnBits(p: Bits, r: Bits, k: nat)
    requires |p| == |r| > 0 && k <= |r|
    ensures Feed(p, r, r[..k]) == r[k..] + Zeros(k)
    decreases k
  {
    if k == 0 {
      assert r[0..] + Zeros(0) == r;
    } else {
      var r' := Step(p, r, r[0]);
      assert r' == r[1..] + [false];
      assert r[..k][1..] == r'[..k - 1];
      FeedOwnBits(p, r', k - 1);
      assert r'[k - 1..] + Zeros(k - 1) == r[k..] + Zeros(k);
    }
  }

  // A message followed by its own checksum leaves the register zero.
  lemma CodewordLeavesZero(p: Bits, s: Bits, m: Bits)
    requires |p| == |s| > 0
    ensures Feed(p, s, m + Feed(p, s, m)) == Zeros(|p|)
  {
    var r := Feed(p, s, m);
    FeedConcat(p, s, m, r);
    FeedOwnBits(p, r, |r|);
    assert r[..|r|] == r;
    assert r[|r|..] + Zeros(|r|) == Zeros(|p|);
  }

  /*
   * Burst detection
   */

  ghost predicate HasConstantTerm(p: Bits)
    requires |p| > 0
  {
    p[|p| - 1]
  }

  // Equal registers after one common bit come from equal registers.
  lemma StepInjective(p: Bits, r: Bits, s: Bits, b: bool)
    requires |p| == |r| == |s| > 0 && HasConstantTerm(p)
    requires Step(p, r, b) == Step(p, s, b)
    ensures r == s
  {
    var n := |p|;
    assert Step(p, r, b)[n - 1] == (r[0] != b);
    assert Step(p, s, b)[n - 1] == (s[0] != b);
    forall i | 1 <= i < n
      ensures r[i] == s[i]
    {
      assert Step(p, r, b)[i - 1] == (r[i] != ((r[0] != b) && p[i - 1]));
      assert Step(p, s, b)[i - 1] == (s[i] != ((s[0] != b) && p[i - 1]));
    }
  }

  lemma {:induction false} FeedInjective(p: Bits, r: Bits, s: Bits, m: Bits)
    requires |p| == |r| == |s| > 0 && HasConstantTerm(p)
    requires Feed(p, r, m) == Feed(p, s, m)
    ensures r == s
    decreases |m|
  {
    if m != [] {
      FeedInjective(p, Step(p, r, m[0]), Step(p, s, m[0]), m[1..]);
      StepInjective(p, r, s, m[0]);
    }
  }

  // Read backwards, equal final registers fix every feedback bit of the last n
  // steps and all but the leading bits of the registers before them.
  lemma {:induction false} FeedbackDetermined(p: Bits, r: Bits, s: Bits, x: Bits, y: Bits)
    requires |p| == |r| == |s| > 0 && HasConstantTerm(p)
    requires |x| == |y| <= |p|
    requires Feed(p, r, x) == Feed(p, s, y)
    ensures r[|x|..] == s[|x|..]
    ensures x != [] ==> (r[0] != x[0]) == (s[0] != y[0])
    decreases |x|
  {
    if x != [] {
      FeedbackDetermined(p, Step(p, r, x[0]), Step(p, s, y[0]), x[1..], y[1..]);
      StepBack(p, r, s, x[0], y[0], |x|);
    }
  }

  // One step backwards.
  lemma StepBack(p: Bits, r: Bits, s: Bits, a: bool, b: bool, w: nat)
    requires |p| == |r| == |s| > 0 && HasConstantTerm(p) && 0 < w <= |p|
    requires Step(p, r, a)[w - 1..] == Step(p, s, b)[w - 1..]
    ensures r[w..] == s[w..] && (r[0] != a) == (s[0] != b)
  {
    StepBits(p, r, a);
    StepBits(p, s, b);
    StepBackBits(p, r, s, r[0] != a, s[0] != b, Step(p, r, a), Step(p, s, b), w);
  }

  // How a register r and a feedback bit f determine the next register r'.
  predicate Shifted(p: Bits, r: Bits, f: bool, r': Bits)
    requires |p| == |r| == |r'| > 0
  {
    r'[|p| - 1] == f && forall i :: 1 <= i < |p| ==> r'[i - 1] == (r[i] != (f && p[i - 1]))
  }

  lemma StepBits(p: Bits, r: Bits, b: bool)
    requires |p| == |r| > 0 && HasConstantTerm(p)
    ensures Shifted(p, r, r[0] != b, Step(p, r, b))
  {}

  lemma StepBackBits(p: Bits, r: Bits, s: Bits, f: bool, g: bool, r': Bits, s': Bits, w: nat)
    requires |p| == |r| == |s| == |r'| == |s'| && 0 < w <= |p|
    requires Shifted(p, r, f, r') && Shifted(p, s, g, s')
    requires r'[w - 1..] == s'[w - 1..]
    ensures r[w..] == s[w..] && f == g
  {
    forall i | w - 1 <= i < |p|
      ensures r'[i] == s'[i]
    {
      assert r'[i] == r'[w - 1..][i - (w - 1)] == s'[w - 1..][i - (w - 1)];
    }
    forall i | w <= i < |p|
      ensures r[i] == s[i]
    {
      assert r'[i - 1] == s'[i - 1];
    }
  }

  lemma {:induction false} ShortMessageInjective(p: Bits, s: Bits, x: Bits, y: Bits)
    requires |p| == |s| > 0 && HasConstantTerm(p)
    requires |x| == |y| <= |p|
    requires Feed(p, s, x) == Feed(p, s, y)
    ensures x == y
    decreases |x|
  {
    if x != [] {
      FeedbackDetermined(p, s, s, x, y);
      ShortMessageInjective(p, Step(p, s, x[0]), x[1..], y[1..]);
    }
  }

  // Two messages that differ only inside a window of at most n bits never leave
  // the same register.
  lemma BurstDetected(p: Bits, s: Bits, before: Bits, x: Bits, y: Bits, after: Bits)
    requires |p| == |s| > 0 && HasConstantTerm(p)
    requires |x| == |y| <= |p| && x != y
    ensures Feed(p, s, before + x + after) != Feed(p, s, before + y + after)
  {
    FeedConcat(p, s, before + x, after);
    FeedConcat(p, s, before + y, after);
    FeedConcat(p, s, before, x);
    FeedConcat(p, s, before, y);
    var u := Feed(p, s, before);
    if Feed(p, s, before + x + after) == Feed(p, s, before + y + after) {
      FeedInjective(p, Feed(p, u, x), Feed(p, u, y), after);
      ShortMessageInjective(p, u, x, y);
    }
  }

  // Without a constant term the burst 1:p, cut to n bits, is never seen.
  lemma BurstMissed(p: Bits, s: Bits, x: Bits)
    requires |p| == |s| == |x| > 0 && !HasConstantTerm(p)
    ensures var burst := [true] + p[..|p| - 1];
            Xor(x, burst) != x && Feed(p, s, Xor(x, burst)) == Feed(p, s, x)
  {
    var n := |p|;
    var burst := [true] + p[..n - 1];
    assert Xor(x, burst)[0] != x[0];
    assert Step(p, Zeros(n), true) == p;
    assert burst[1..] == p[..n - 1];
    FeedOwnBits(p, p, n - 1);
    assert p[n - 1..] + Zeros(n - 1) == Zeros(n);
    assert Feed(p, Zeros(n), burst) == Zeros(n);
    ErrorMissed(p, s, x, burst);
  }

  // An error that leaves the zero register zero is not seen in any message.
  lemma ErrorMissed(p: Bits, s: Bits, x: Bits, e: Bits)
    requires |p| == |s| > 0 && |x| == |e| && Feed(p, Zeros(|p|), e) == Zeros(|p|)
    ensures Feed(p, s, Xor(x, e)) == Feed(p, s, x)
  {
    FeedLinear(p, s, Zeros(|p|), x, e);
    XorZeros(s);
    XorZeros(Feed(p, s, x));
  }

  lemma XorZeros(a: Bits)
    ensures Xor(a, Zeros(|a|)) == a
  {}

  ghost predicate DetectsBursts(p: Bits, s: Bits)
    requires |p| == |s| > 0
  {
    forall before: Bits, x: Bits, y: Bits, after: Bits | |x| == |y| <= |p| && x != y ::
      Feed(p, s, before + x + after) != Feed(p, s, before + y + after)
  }

  // The constant term is exactly what burst detection needs.
  lemma DetectsBurstsIff(p: Bits, s: Bits)
    requires |p| == |s| > 0
    ensures DetectsBursts(p, s) <==> HasConstantTerm(p)
  {
    if HasConstantTerm(p) {
      forall before: Bits, x: Bits, y: Bits, after: Bits | |x| == |y| <= |p| && x != y
        ensures Feed(p, s, before + x + after) != Feed(p, s, before + y + after)
      {
        BurstDetected(p, s, before, x, y, after);
      }
    } else {
      var x: Bits := Zeros(|p|);
      var y := Xor(x, [true] + p[..|p| - 1]);
      BurstMissed(p, s, x);
      var none: Bits := [];
      assert none + x + none == x && none + y + none == y;
      assert Feed(p, s, none + x + none) == Feed(p, s, none + y + none);
    }
  }

  /*
   * Errors in an odd number of bits
   */

  function Odd(a: Bits): bool {
    if a == [] then false else a[0] != Odd(a[1..])
  }

  lemma {:induction false} OddConcat(a: Bits, b: Bits)
    ensures Odd(a + b) == (Odd(a) != Odd(b))
    decreases |a|
  {
    if a == [] {
      assert a + b == b;
    } else {
      assert (a + b)[1..] == a[1..] + b;
      OddConcat(a[1..], b);
    }
  }

  lemma {:induction false} OddSingle(n: nat)
    ensures !Odd(Zeros(n)) && Odd(Zeros(n) + [true])
  {
    OddConcat(Zeros(n), [true]);
    assert [true][1..] == [];
    if n > 0 {
      OddSingle(n - 1);
      assert Zeros(n)[1..] == Zeros(n - 1);
    }
  }

  lemma {:induction false} OddXor(a: Bits, b: Bits)
    requires |a| == |b|
    ensures Odd(Xor(a, b)) == (Odd(a) != Odd(b))
    decreases |a|
  {
    if a != [] {
      assert Xor(a, b)[1..] == Xor(a[1..], b[1..]);
      OddXor(a[1..], b[1..]);
    }
  }

  lemma OddStep(p: Bits, r: Bits, b: bool)
    requires |p| == |r| > 0 && Odd(p)
    ensures Odd(Step(p, r, b)) == (Odd(r) != b)
  {
    var shifted := r[1..] + [false];
    OddConcat(r[1..], [false]);
    OddXor(shifted, p);
  }

  // If the polynomial's low part has odd weight, the register counts bits modulo 2.
  lemma {:induction false} OddFeed(p: Bits, r: Bits, m: Bits)
    requires |p| == |r| > 0 && Odd(p)
    ensures Odd(Feed(p, r, m)) == (Odd(r) != Odd(m))
    decreases |m|
  {
    if m != [] {
      OddStep(p, r, m[0]);
      OddFeed(p, Step(p, r, m[0]), m[1..]);
    }
  }

  ghost predicate DetectsOddErrors(p: Bits, s: Bits)
    requires |p| == |s| > 0
  {
    forall x: Bits, y: Bits | |x| == |y| && Odd(Xor(x, y)) :: Feed(p, s, x) != Feed(p, s, y)
  }

  // Every error in an odd number of bits, in messages of any length, is detected
  // exactly when the polynomial's low part has odd weight.
  lemma DetectsOddErrorsIff(p: Bits, s: Bits)
    requires |p| == |s| > 0
    ensures DetectsOddErrors(p, s) <==> Odd(p)
  {
    if Odd(p) {
      forall x: Bits, y: Bits | |x| == |y| && Odd(Xor(x, y))
        ensures Feed(p, s, x) != Feed(p, s, y)
      {
        OddXor(x, y);
        OddFeed(p, s, x);
        OddFeed(p, s, y);
      }
    } else {
      var error: Bits := [true] + p;
      var x: Bits := Zeros(|error|);
      OddConcat([true], p);
      PolynomialMissed(p, s, x);
      var y := Xor(x, error);
      assert Xor(x, y) == error;
    }
  }

  lemma PolynomialLeavesZero(p: Bits)
    requires |p| > 0
    ensures Feed(p, Zeros(|p|), [true] + p) == Zeros(|p|)
  {
    var n := |p|;
    assert Step(p, Zeros(n), true) == p;
    assert ([true] + p)[1..] == p && p[..n] == p;
    FeedOwnBits(p, p, n);
    assert p[n..] + Zeros(n) == Zeros(n);
  }

  // The polynomial itself, as an error, is never seen.
  lemma PolynomialMissed(p: Bits, s: Bits, x: Bits)
    requires |p| == |s| > 0 && |x| == |p| + 1
    ensures Feed(p, s, Xor(x, [true] + p)) == Feed(p, s, x)
  {
    PolynomialLeavesZero(p);
    ErrorMissed(p, s, x, [true] + p);
  }

  /*
   * The reflected form
   */

  // One input bit of the right-shifting CRC, as table-free software writes it.
  function StepLsb(q: Bits, r: Bits, b: bool): (r': Bits)
    requires |q| == |r| > 0
    ensures |r'| == |r|
  {
    var shifted := [false] + r[..|r| - 1];
    if r[|r| - 1] != b then Xor(shifted, q) else shifted
  }

  function FeedLsb(q: Bits, r: Bits, m: Bits): (r': Bits)
    requires |q| == |r| > 0
    ensures |r'| == |r|
    decreases |m|
  {
    if m == [] then r else FeedLsb(q, StepLsb(q, r, m[0]), m[1..])
  }

  // The left-shifting register is the mirror image of the right-shifting one.
  lemma {:induction false} FeedReflected(p: Bits, s: Bits, m: Bits)
    requires |p| == |s| > 0
    ensures Reverse(Feed(p, s, m)) == FeedLsb(Reverse(p), Reverse(s), m)
    decreases |m|
  {
    if m != [] {
      assert Reverse(Step(p, s, m[0])) == StepLsb(Reverse(p), Reverse(s), m[0]);
      FeedReflected(p, Step(p, s, m[0]), m[1..]);
    }
  }
}
