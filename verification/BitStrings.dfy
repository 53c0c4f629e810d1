/**
 Bit strings of any length, most significant bit first. Registers, words and
 bytes are bit strings where their single bits matter, so that every law below
 holds for each register width at once.
 */
module BitStrings {

  type Bits = seq<bool>

  type Byte = b: Bits | |b| == 8
    witness [false, false, false, false, false, false, false, false]

  type Half = h: Bits | |h| == 16
    witness seq(16, i => false)

  type Word = w: Bits | |w| == 32
    witness seq(32, i => false)

  function Fill(n: nat, b: bool): (z: Bits)
    ensures |z| == n
  {
    seq(n, i => b)
  }

  function Zeros(n: nat): (z: Bits)
    ensures |z| == n
  {
    Fill(n, false)
  }

  function Xor(a: Bits, b: Bits): (c: Bits)
    requires |a| == |b|
    ensures |c| == |a|
  {
    seq(|a|, i requires 0 <= i < |a| => a[i] != b[i])
  }

  function And(a: Bits, b: Bits): (c: Bits)
    requires |a| == |b|
    ensures |c| == |a|
  {
    seq(|a|, i requires 0 <= i < |a| => a[i] && b[i])
  }

  function Not(a: Bits): (c: Bits)
    ensures |c| == |a|
  {
    seq(|a|, i requires 0 <= i < |a| => !a[i])
  }

  function Reverse(a: Bits): (c: Bits)
    ensures |c| == |a|
  {
    seq(|a|, i requires 0 <= i < |a| => a[|a| - 1 - i])
  }

  lemma ReverseTwice(a: Bits)
    ensures Reverse(Reverse(a)) == a
  {
  }

  lemma ReverseConcat(a: Bits, b: Bits)
    ensures Reverse(a + b) == Reverse(b) + Reverse(a)
  {
  }

  lemma NotTwice(a: Bits)
    ensures Not(Not(a)) == a
  {
  }
}
