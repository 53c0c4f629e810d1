/**
 Interrupt priorities: splitting a priority into a preemption level and a
 subpriority, and the priority registers that hold it.
 */
module Priorities {
  import opened Arithmetic

  // Field widths for a priority group when `bits` bits are implemented.
  function PreemptBits(group: nat, bits: nat): nat {
    if 7 - group % 8 > bits then bits else 7 - group % 8
  }

  function SubBits(group: nat, bits: nat): nat {
    if group % 8 + bits < 7 then 0 else group % 8 + bits - 7
  }

  lemma WidthsSum(group: nat, bits: nat)
    ensures PreemptBits(group, bits) + SubBits(group, bits) == bits
  {}

  function EncodePriority(group: nat, preempt: nat, sub: nat, bits: nat): nat {
    preempt % Pow2(PreemptBits(group, bits)) * Pow2(SubBits(group, bits)) + sub % Pow2(SubBits(group, bits))
  }

  datatype Levels = Levels(preempt: nat, sub: nat)

  function Decoded(priority: nat, group: nat, bits: nat): Levels {
    var p, s := Pow2(PreemptBits(group, bits)), Pow2(SubBits(group, bits));
    Levels(Quotient(priority, s) % p, priority % s)
  }

  // The two levels are within their widths, and encode to the implemented bits of
  // the priority: no other pair does both.
  method DecodePriority(priority: nat, group: nat, bits: nat) returns (preempt: nat, sub: nat)
    ensures preempt < Pow2(PreemptBits(group, bits)) && sub < Pow2(SubBits(group, bits))
    ensures EncodePriority(group, preempt, sub, bits) == priority % Pow2(bits)
  {
    var preemptBits, subBits := PreemptBits(group, bits), SubBits(group, bits);
    preempt := Quotient(priority, Pow2(subBits)) % Pow2(preemptBits);
    sub := priority % Pow2(subBits);
    EncodeInvertsDecode(priority, group, bits);
  }

  // Values already in range come back unchanged; others come back cut to width.
  lemma DecodeInvertsEncode(group: nat, preempt: nat, sub: nat, bits: nat)
    ensures Decoded(EncodePriority(group, preempt, sub, bits), group, bits)
         == Levels(preempt % Pow2(PreemptBits(group, bits)), sub % Pow2(SubBits(group, bits)))
  {
    var p, s := Pow2(PreemptBits(group, bits)), Pow2(SubBits(group, bits));
    QuotientUnique(EncodePriority(group, preempt, sub, bits), s, preempt % p, sub % s);
    ModTwice(preempt, p);
  }

  // Within the widths only one pair has a given encoding.
  lemma EncodingUnique(group: nat, preempt: nat, sub: nat, p: nat, s: nat, bits: nat)
    requires p < Pow2(PreemptBits(group, bits)) && s < Pow2(SubBits(group, bits))
    requires EncodePriority(group, preempt, sub, bits) == EncodePriority(group, p, s, bits)
    ensures Levels(p, s) == InWidth(Levels(preempt, sub), group, bits)
  {
    DecodeInvertsEncode(group, preempt, sub, bits);
    DecodeInvertsEncode(group, p, s, bits);
    InRange(p, Pow2(PreemptBits(group, bits)));
    InRange(s, Pow2(SubBits(group, bits)));
  }

  lemma ModTwice(x: nat, d: nat)
    requires d > 0
    ensures x % d < d && x % d % d == x % d
  {}

  lemma InRange(x: nat, d: nat)
    requires x < d
    ensures x % d == x
  {}

  // A priority's implemented bits are the encoding of what it decodes to.
  lemma EncodeInvertsDecode(priority: nat, group: nat, bits: nat)
    ensures var l := Decoded(priority, group, bits);
      EncodePriority(group, l.preempt, l.sub, bits) == priority % Pow2(bits)
  {
    var p, s := Pow2(PreemptBits(group, bits)), Pow2(SubBits(group, bits));
    WidthsSum(group, bits);
    Pow2Sum(PreemptBits(group, bits), SubBits(group, bits));
    ModTwice(Quotient(priority, s), p);
    ModTwice(priority, s);
    TwoDigits(priority, p, s);
  }

  // The remainder modulo p * s is that of the quotient by s, and that by s.
  lemma TwoDigits(x: nat, p: nat, s: nat)
    requires p > 0 && s > 0
    ensures x % (p * s) == Quotient(x, s) % p * s + x % s
  {
    var q := Quotient(x, s);
    var h, l := Quotient(q, p), q % p;
    Scale(l + 1, p, s);
    Successor(l, s);
    assert q * s == (h * p + l) * s == h * (p * s) + l * s;
    QuotientUnique(x, p * s, h, l * s + x % s);
  }

  lemma EncodedFits(group: nat, preempt: nat, sub: nat, bits: nat)
    ensures EncodePriority(group, preempt, sub, bits) < Pow2(bits)
  {
    var p, s := Pow2(PreemptBits(group, bits)), Pow2(SubBits(group, bits));
    WidthsSum(group, bits);
    Pow2Sum(PreemptBits(group, bits), SubBits(group, bits));
    ModTwice(preempt, p);
    ModTwice(sub, s);
    Scale(preempt % p + 1, p, s);
  }

  // ------------------------------------------------------------ stored bytes

  // The priority byte: the implemented bits are the upper ones.
  function Stored(priority: nat, bits: nat): nat
    requires bits <= 8
  {
    priority * Pow2(8 - bits) % 0x100
  }

  function Loaded(byte: nat, bits: nat): nat
    requires bits <= 8
  {
    Quotient(byte, Pow2(8 - bits))
  }

  lemma WholeByte(bits: nat)
    requires bits <= 8
    ensures Pow2(bits) * Pow2(8 - bits) == 0x100
  {
    Pow2Sum(bits, 8 - bits);
    assert Pow2(8) == 0x100;
  }

  // What is read back is the low implemented bits of what was set.
  lemma LoadedIsCut(priority: nat, bits: nat)
    requires bits <= 8
    ensures Stored(priority, bits) == priority % Pow2(bits) * Pow2(8 - bits) < 0x100
    ensures Loaded(Stored(priority, bits), bits) == priority % Pow2(bits)
  {
    var n, w := Pow2(bits), Pow2(8 - bits);
    WholeByte(bits);
    var q, r := Quotient(priority, n), priority % n;
    ModTwice(priority, n);
    CutByte(priority, n, w, q, r);
    QuotientUnique(r * w, w, r, 0);
  }

  lemma CutByte(x: nat, n: nat, w: nat, q: nat, r: nat)
    requires x == q * n + r && r < n && n * w == 0x100
    ensures x * w % 0x100 == r * w < 0x100
  {
    Regroup(q, r, n, w, 1, n * w);
    ScaleOrder(r, n, w);
    QuotientUnique(x * w, 0x100, q, r * w);
  }

  predicate LexLess(a: Levels, b: Levels) {
    a.preempt < b.preempt || (a.preempt == b.preempt && a.sub < b.sub)
  }

  // Both levels cut to their widths.
  function InWidth(l: Levels, group: nat, bits: nat): Levels {
    Levels(l.preempt % Pow2(PreemptBits(group, bits)), l.sub % Pow2(SubBits(group, bits)))
  }

  function Encoded(l: Levels, group: nat, bits: nat): nat {
    EncodePriority(group, l.preempt, l.sub, bits)
  }

  // Stored bytes compare as (preempt, sub) does lexicographically.
  lemma StoredOrder(x: Levels, y: Levels, group: nat, bits: nat)
    requires bits <= 8
    ensures Stored(Encoded(x, group, bits), bits) < Stored(Encoded(y, group, bits), bits)
        <==> LexLess(InWidth(x, group, bits), InWidth(y, group, bits))
  {
    var a, b := InWidth(x, group, bits), InWidth(y, group, bits);
    var s := Pow2(SubBits(group, bits));
    ModTwice(x.sub, s);
    ModTwice(y.sub, s);
    Lexicographic(a, b, s);
    StoredEncoded(x, group, bits);
    StoredEncoded(y, group, bits);
    ScaleOrder(a.preempt * s + a.sub, b.preempt * s + b.sub, Pow2(8 - bits));
  }

  lemma StoredEncoded(x: Levels, group: nat, bits: nat)
    requires bits <= 8
    ensures var a := InWidth(x, group, bits);
      Stored(Encoded(x, group, bits), bits) == (a.preempt * Pow2(SubBits(group, bits)) + a.sub) * Pow2(8 - bits)
  {
    EncodedFits(group, x.preempt, x.sub, bits);
    LoadedIsCut(Encoded(x, group, bits), bits);
    InRange(Encoded(x, group, bits), Pow2(bits));
  }

  lemma Lexicographic(a: Levels, b: Levels, s: nat)
    requires a.sub < s && b.sub < s
    ensures a.preempt * s + a.sub < b.preempt * s + b.sub <==> LexLess(a, b)
  {
    if a.preempt < b.preempt {
      DigitsOrdered(a.preempt, b.preempt, a.sub, s);
    } else if b.preempt < a.preempt {
      DigitsOrdered(b.preempt, a.preempt, b.sub, s);
    }
  }

  lemma DigitsOrdered(p: nat, q: nat, sub: nat, s: nat)
    requires p < q && sub < s
    ensures p * s + sub < q * s
  {
    Successor(p, s);
    Scale(p + 1, q, s);
  }

  lemma ScaleOrder(a: nat, b: nat, d: nat)
    requires d > 0
    ensures a * d < b * d <==> a < b
  {
    if a < b {
      Scale(a + 1, b, d);
    } else {
      Scale(b, a, d);
    }
  }

  // The part of a priority byte that decides preemption: the bits above the
  // binary point of the group.
  function GroupPriority(byte: nat, group: nat): nat {
    Quotient(byte, Pow2(group % 8 + 1))
  }

  // One interrupt can preempt another exactly when its preemption level is lower.
  lemma PreemptionOrder(x: Levels, y: Levels, group: nat, bits: nat)
    requires bits <= 8
    ensures GroupPriority(Stored(Encoded(x, group, bits), bits), group)
          < GroupPriority(Stored(Encoded(y, group, bits), bits), group)
        <==> InWidth(x, group, bits).preempt < InWidth(y, group, bits).preempt
  {
    GroupPriorityMeaning(x, group, bits);
    GroupPriorityMeaning(y, group, bits);
    var unused := Unused(group, bits);
    ScaleOrder(InWidth(x, group, bits).preempt, InWidth(y, group, bits).preempt, Pow2(unused));
  }

  // Preemption bits of the group that are not implemented.
  function Unused(group: nat, bits: nat): nat {
    if group % 8 + bits < 7 then 7 - group % 8 - bits else 0
  }

  lemma GroupPriorityMeaning(x: Levels, group: nat, bits: nat)
    requires bits <= 8
    ensures GroupPriority(Stored(Encoded(x, group, bits), bits), group)
         == InWidth(x, group, bits).preempt * Pow2(Unused(group, bits))
  {
    var a := InWidth(x, group, bits);
    var s, w, d, u := Pow2(SubBits(group, bits)), Pow2(8 - bits), Pow2(group % 8 + 1), Pow2(Unused(group, bits));
    StoredEncoded(x, group, bits);
    ModTwice(x.sub, s);
    Pow2Sum(SubBits(group, bits), 8 - bits);
    Pow2Sum(Unused(group, bits), group % 8 + 1);
    SumsAgree(group, bits);
    AbovePoint(a.preempt, a.sub, s, w, u, d);
  }

  lemma AbovePoint(p: nat, b: nat, s: nat, w: nat, u: nat, d: nat)
    requires b < s && w > 0 && d > 0 && s * w == u * d && (s == 1 || u == 1)
    ensures Quotient((p * s + b) * w, d) == p * u
  {
    BelowPoint(b, s, w, u, d);
    Regroup(p, b, s, w, u, d);
    QuotientUnique((p * s + b) * w, d, p * u, b * w);
  }

  lemma SumsAgree(group: nat, bits: nat)
    requires bits <= 8
    ensures Pow2(SubBits(group, bits)) * Pow2(8 - bits) == Pow2(Unused(group, bits)) * Pow2(group % 8 + 1)
    ensures Pow2(SubBits(group, bits)) == 1 || Pow2(Unused(group, bits)) == 1
  {
    Pow2Sum(SubBits(group, bits), 8 - bits);
    Pow2Sum(Unused(group, bits), group % 8 + 1);
    assert SubBits(group, bits) + (8 - bits) == Unused(group, bits) + (group % 8 + 1);
  }

  lemma Regroup(p: nat, b: nat, s: nat, w: nat, u: nat, d: nat)
    requires s * w == u * d
    ensures (p * s + b) * w == p * u * d + b * w
  {
    assert p * s * w == p * (s * w) == p * (u * d) == p * u * d;
  }

  lemma BelowPoint(b: nat, s: nat, w: nat, u: nat, d: nat)
    requires b < s && w > 0 && s * w == u * d && (s == 1 || u == 1) && d > 0
    ensures b * w < d
  {
    if s > 1 {
      ScaleOrder(b, s, w);
    }
  }

  // ---------------------------------------------------- the priority registers

  // Device interrupts index one array, system exceptions -12 .. -1 the other.
  predicate HasSlot(irq: int) {
    -12 <= irq < 496
  }

  class Nvic {
    const bits: nat
    const ipr: array<nat>
    const shpr: array<nat>

    predicate Valid()
      reads this
    {
      bits <= 8 && ipr.Length == 496 && shpr.Length == 12 && ipr != shpr
    }

    constructor (prioBits: nat)
      requires prioBits <= 8
      ensures Valid() && fresh(ipr) && fresh(shpr) && bits == prioBits
    {
      bits := prioBits;
      ipr, shpr := new nat[496], new nat[12];
    }

    // The byte that holds the priority of an interrupt.
    function Slot(irq: int): nat
      requires Valid() && HasSlot(irq)
      reads this, ipr, shpr
    {
      if irq >= 0 then ipr[irq] else shpr[12 + irq]
    }

    method SetPriority(irq: int, priority: nat)
      requires Valid() && HasSlot(irq)
      modifies ipr, shpr
      ensures Slot(irq) == Stored(priority, bits)
      ensures forall i :: HasSlot(i) && i != irq ==> Slot(i) == old(Slot(i))
    {
      if irq >= 0 {
        ipr[irq] := Stored(priority, bits);
      } else {
        shpr[(irq + 0x1_0000_0000) % 0x10 - 4] := Stored(priority, bits);
      }
    }

    method GetPriority(irq: int) returns (priority: nat)
      requires Valid() && HasSlot(irq)
      ensures priority == Loaded(Slot(irq), bits)
    {
      if irq >= 0 {
        priority := Quotient(ipr[irq], Pow2(8 - bits));
      } else {
        priority := Quotient(shpr[(irq + 0x1_0000_0000) % 0x10 - 4], Pow2(8 - bits));
      }
    }

    // Encode, set, read back, decode: both levels return, cut to their widths,
    // and no other interrupt's priority has moved.
    method RoundTrip(irq: int, group: nat, preempt: nat, sub: nat) returns (p: nat, s: nat)
      requires Valid() && HasSlot(irq)
      modifies ipr, shpr
      ensures Levels(p, s) == InWidth(Levels(preempt, sub), group, bits)
      ensures forall i :: HasSlot(i) && i != irq ==> Slot(i) == old(Slot(i))
    {
      var e := EncodePriority(group, preempt, sub, bits);
      SetPriority(irq, e);
      var priority := GetPriority(irq);
      LoadedIsCut(e, bits);
      EncodedFits(group, preempt, sub, bits);
      InRange(e, Pow2(bits));
      p, s := DecodePriority(priority, group, bits);
      EncodingUnique(group, preempt, sub, p, s, bits);
    }
  }
}
