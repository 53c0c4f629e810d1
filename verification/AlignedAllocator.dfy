/**
 The aligned allocator: over-allocation, rounding up, a four-byte header in front
 of the returned pointer, and recovery of the raw block on free. Addresses and
 sizes are those of a 32-bit machine.
 */
module AlignedAllocator {
  import opened Arithmetic
  import opened Bitwise
  import opened Wrappers

  const WORD: nat := 0x1_0000_0000
  const SIZE_MAX: nat := 0xFFFF_FFFF
  const HEADER: nat := 4
  const MAGIC: nat := 12345

  // The powers of two a 32-bit alignment can be.
  ghost predicate PowerOfTwo(a: nat) {
    exists k: nat :: k < 32 && a == Pow2(k)
  }

  // The alignments for which alignment, slack and header themselves fit 32 bits;
  // every power of two is one.
  predicate Reasonable(a: nat) {
    0 < a <= SIZE_MAX - HEADER
  }

  // a - 1 in 32 bits.
  function Mask(a: nat): nat {
    if a == 0 then WORD - 1 else a - 1
  }

  // 32-bit size alignment: add a - 1, then clear the bits of a - 1.
  function SizeAlign(x: nat, a: nat): nat {
    BitClear((x + Mask(a)) % WORD, Mask(a))
  }

  /*
   * Rounding
   */

  lemma Pow2OfWord()
    ensures Pow2(32) == WORD && Pow2(31) == WORD / 2 && Pow2(16) == 0x1_0000 && Pow2(15) == 0x8000
  {
    assert Pow2(4) == 16;
    Pow2Sum(4, 4);
    Pow2Sum(8, 8);
    Pow2Sum(16, 16);
  }

  lemma PowerIsReasonable(a: nat)
    requires PowerOfTwo(a)
    ensures 0 < a <= WORD / 2 && Reasonable(a)
  {
    var k: nat :| k < 32 && a == Pow2(k);
    Pow2OfWord();
    Pow2Sum(31 - k, k);
    Scale(1, Pow2(31 - k), a);
  }

  // Any a: the result is within a of x, or below x when the sum wraps.
  lemma SizeAlignBounds(x: nat, a: nat)
    requires 0 < a <= WORD && x < WORD
    ensures x + a - 1 < WORD ==> x <= SizeAlign(x, a) < x + a
    ensures x + a - 1 >= WORD ==> SizeAlign(x, a) < x
    ensures SizeAlign(x, a) < WORD
  {
    var y := (x + (a - 1)) % WORD;
    assert y == if x + (a - 1) < WORD then x + (a - 1) else x + (a - 1) - WORD;
    ClearedBounds(y, a - 1);
  }

  // A power of two: without wrap-around the result is the least multiple of a that
  // is not less than x; with it, the result is zero.
  lemma SizeAlignMeaning(x: nat, a: nat)
    requires PowerOfTwo(a) && x < WORD
    ensures a > 0
    ensures x + a - 1 < WORD ==> x <= SizeAlign(x, a) < x + a && SizeAlign(x, a) % a == 0
    ensures x + a - 1 >= WORD ==> SizeAlign(x, a) == 0 && x > 0
  {
    PowerIsReasonable(a);
    SizeAlignBounds(x, a);
    WrappedSum(x, a);
    if x + a - 1 < WORD {
      ClearedByPower(x + a - 1, a);
    } else {
      ClearedByPower(x + a - 1 - WORD, a);
    }
  }

  lemma WrappedSum(x: nat, a: nat)
    requires 0 < a <= WORD && x < WORD
    ensures (x + Mask(a)) % WORD == if x + a - 1 < WORD then x + a - 1 else x + a - 1 - WORD
  {}

  lemma ClearedByPower(y: nat, a: nat)
    requires PowerOfTwo(a) && a > 0
    ensures BitClear(y, a - 1) % a == 0 && (y < a ==> BitClear(y, a - 1) == 0)
  {
    var k: nat :| k < 32 && a == Pow2(k);
    ClearedRounds(y, k);
    RoundedDown(y, a);
    if y < a {
      DivMod(y, a, 0, y);
    }
  }

  lemma RoundedDown(y: nat, a: nat)
    requires a > 0
    ensures 0 <= y - y % a && (y - y % a) % a == 0
  {
    DivMod(Quotient(y, a) * a, a, Quotient(y, a), 0);
  }

  /*
   * Requests
   */

  // The size passed to malloc, or None when the overflow checks reject. All
  // arithmetic is that of 32 bits.
  function RawSize(size: nat, align: nat): Option<nat> {
    Checked(SizeAlign(size, align), size, align)
  }

  function Checked(aligned: nat, size: nat, align: nat): Option<nat> {
    if aligned < size then None
    else if aligned > (SIZE_MAX - align - HEADER) % WORD then None
    else Some((aligned + align + HEADER) % WORD)
  }

  // The true size of the request: rounded up, plus slack, plus header.
  function NeededSize(size: nat, align: nat): nat
    requires align > 0
  {
    BitClear(size + (align - 1), align - 1) + align + HEADER
  }

  ghost predicate ChecksExact(align: nat)
    requires align > 0
  {
    forall size: nat :: size < WORD ==>
      RawSize(size, align) == if NeededSize(size, align) < WORD then Some(NeededSize(size, align)) else None
  }

  // The two checks reject exactly the requests that do not fit in 32 bits, for
  // every alignment, power of two or not, but the four that already do not fit.
  lemma OverflowChecksExactIff(align: nat)
    requires 0 < align < WORD
    ensures ChecksExact(align) <==> Reasonable(align)
  {
    if Reasonable(align) {
      forall size: nat | size < WORD
        ensures RawSize(size, align) == if NeededSize(size, align) < WORD then Some(NeededSize(size, align)) else None
      {
        RequestChecked(size, align);
      }
    } else {
      ClearedBySelf(align - 1);
      NoWrap(0, align);
      UncheckedSum(align);
      assert RawSize(0, align).Some? && NeededSize(0, align) >= WORD;
    }
  }

  lemma RequestChecked(size: nat, align: nat)
    requires size < WORD && Reasonable(align)
    ensures RawSize(size, align) == if NeededSize(size, align) < WORD then Some(NeededSize(size, align)) else None
  {
    SizeAlignBounds(size, align);
    ClearedBounds(size + (align - 1), align - 1);
    CheckedSum(SizeAlign(size, align), size, align);
    if size + (align - 1) < WORD {
      NoWrap(size, align);
    }
  }

  lemma NoWrap(x: nat, a: nat)
    requires a > 0 && x + (a - 1) < WORD
    ensures SizeAlign(x, a) == BitClear(x + (a - 1), a - 1)
  {
    assert (x + (a - 1)) % WORD == x + (a - 1);
  }

  lemma CheckedSum(aligned: nat, size: nat, align: nat)
    requires aligned < WORD && Reasonable(align)
    ensures Checked(aligned, size, align)
         == if aligned >= size && aligned + align + HEADER < WORD then Some(aligned + align + HEADER) else None
  {}

  lemma UncheckedSum(align: nat)
    requires 0 < align < WORD && !Reasonable(align)
    ensures Checked(0, 0, align) == Some(align + HEADER - WORD)
  {}

  /*
   * Layout of one block
   */

  // The returned pointer for a raw block.
  function AlignedAddress(base: nat, align: nat): nat {
    SizeAlign(base + HEADER, align)
  }

  // Header and payload lie inside the raw block, the header directly in front of
  // the payload; the offset lies in [4, align + 3]; for a power of two the pointer
  // is aligned.
  lemma Layout(base: nat, size: nat, align: nat)
    requires size < WORD && Reasonable(align)
    requires base + NeededSize(size, align) <= WORD
    ensures var p := AlignedAddress(base, align);
            && HEADER <= p - base <= align + 3 && base <= p - HEADER
            && p + size <= base + NeededSize(size, align) && p < base + NeededSize(size, align)
            && (PowerOfTwo(align) ==> p % align == 0)
  {
    ClearedBounds(size + (align - 1), align - 1);
    SizeAlignBounds(base + HEADER, align);
    if PowerOfTwo(align) {
      SizeAlignMeaning(base + HEADER, align);
    }
  }

  // For the other alignments the pointer comes out below any block, at 4 or less, and
  // there is no room for a header in front of it.
  lemma WildAddress(base: nat, align: nat)
    requires 0 < base < WORD && align < WORD && !Reasonable(align)
    ensures AlignedAddress(base, align) < base + HEADER
    ensures align == 0 ==> AlignedAddress(base, align) == 0
  {
    var y := (base + HEADER + Mask(align)) % WORD;
    ClearedBounds(y, Mask(align));
    if align == 0 {
      Pow2OfWord();
      ClearedRounds(y, 32);
      DivMod(y, WORD, 0, y);
    }
  }

  // Whether a granted request is wild shows in the pointer; if not, it is of the
  // needed size.
  lemma Granted(size: nat, align: nat, base: nat)
    requires size < WORD && align < WORD && RawSize(size, align).Some? && 0 < base < WORD
    requires base + RawSize(size, align).value <= WORD
    ensures Reasonable(align) <==> base + HEADER <= AlignedAddress(base, align)
    ensures Reasonable(align) ==> RawSize(size, align).value == NeededSize(size, align) < WORD
  {
    if Reasonable(align) {
      RequestChecked(size, align);
      Layout(base, size, align);
    } else {
      WildAddress(base, align);
    }
  }

  // What the 16-bit offset field gives back.
  function RecoveredBase(base: nat, align: nat): int
    requires align > 0
  {
    var p := AlignedAddress(base, align);
    p - (p - base) % 0x1_0000
  }

  // The raw block malloc returns for a request may lie at this base.
  predicate Placeable(base: nat, size: nat, align: nat) {
    align > 0 && 0 < base && size < WORD && base + NeededSize(size, align) <= WORD
  }

  ghost predicate AlwaysRecovered(align: nat) {
    forall base: nat, size: nat :: Placeable(base, size, align) ==> RecoveredBase(base, align) == base
  }

  // The base survives the 16-bit field, wherever malloc puts the block, exactly
  // for the powers of two up to 32768.
  lemma AlignmentFitsIff(align: nat)
    requires PowerOfTwo(align)
    ensures AlwaysRecovered(align) <==> align <= 32768
  {
    PowerIsReasonable(align);
    if align <= 32768 {
      forall base: nat, size: nat | Placeable(base, size, align)
        ensures RecoveredBase(base, align) == base
      {
        Layout(base, size, align);
      }
    } else {
      var base := LostBase(align);
    }
  }

  // At the alignment itself, or at 8 where that leaves no room: addresses as a malloc
  // that aligns to eight bytes returns them.
  lemma LostBase(align: nat) returns (base: nat)
    requires PowerOfTwo(align) && align > 32768
    ensures base % 8 == 0 && Placeable(base, 0, align) && RecoveredBase(base, align) != base
  {
    var k, m := LargePower(align);
    if k == 31 {
      base := 8;
      LostAtEight(align, k);
    } else {
      base := align;
      LostAtAlignment(align, k, m);
    }
  }

  lemma LostAtEight(align: nat, k: nat)
    requires align == Pow2(k) == WORD / 2
    ensures Placeable(8, 0, align) && RecoveredBase(8, align) != 8
  {
    ClearedBySelf(align - 1);
    NoWrap(8 + HEADER, align);
    ClearedRounds(align + HEADER + 7, k);
    DivMod(align + HEADER + 7, align, 1, HEADER + 7);
    assert AlignedAddress(8, align) == align;
    DivMod(align - 8, 0x1_0000, 0x7FFF, 0x1_0000 - 8);
  }

  lemma LostAtAlignment(align: nat, k: nat, m: nat)
    requires align == Pow2(k) == m * 0x1_0000 && 0 < m && align <= WORD / 4
    ensures align % 8 == 0 && Placeable(align, 0, align) && RecoveredBase(align, align) != align
  {
    ClearedBySelf(align - 1);
    NoWrap(align + HEADER, align);
    ClearedRounds(2 * align + HEADER - 1, k);
    DivMod(2 * align + HEADER - 1, align, 2, HEADER - 1);
    assert AlignedAddress(align, align) == 2 * align;
    DivMod(align, 0x1_0000, m, 0);
    DivMod(align, 8, 0x2000 * m, 0);
  }

  lemma LargePower(align: nat) returns (k: nat, m: nat)
    requires PowerOfTwo(align) && align > 32768
    ensures k < 32 && align == Pow2(k) == m * 0x1_0000
    ensures if k == 31 then align == WORD / 2 else align <= WORD / 4
  {
    k :| k < 32 && align == Pow2(k);
    Pow2OfWord();
    if k < 16 {
      Pow2Sum(15 - k, k);
      Scale(1, Pow2(15 - k), align);
    }
    Pow2Sum(k - 16, 16);
    m := Pow2(k - 16);
    if k < 31 {
      Pow2Sum(30 - k, k);
      Scale(1, Pow2(30 - k), align);
      assert Pow2(31) == 2 * Pow2(30);
    }
  }

  /*
   * The heap
   */

  // A live allocation: the raw block malloc returned, and the request it serves.
  datatype Block = Block(base: nat, rawSize: nat, size: nat, align: nat)

  // The pointer p serves the request from inside its raw block, behind its header.
  ghost predicate BlockOk(p: nat, b: Block) {
    && 0 < b.base && b.base + b.rawSize <= WORD
    && b.base + HEADER <= p < b.base + b.rawSize && p + b.size <= b.base + b.rawSize
    && b.align > 0 && p - b.base <= b.align + 3
    && (PowerOfTwo(b.align) ==> p % b.align == 0)
  }

  ghost predicate Apart(b: Block, c: Block) {
    b.base + b.rawSize <= c.base || c.base + c.rawSize <= b.base
  }

  // The blocks malloc has handed out do not overlap.
  ghost predicate RawApart(raw: map<nat, nat>) {
    forall a, b :: a in raw && b in raw && a < b ==> a + raw[a] <= b
  }

  ghost predicate LiveApart(live: map<nat, Block>) {
    forall p, q :: p in live && q in live && p != q ==> Apart(live[p], live[q])
  }

  lemma NewBlockApart(live: map<nat, Block>, p: nat, b: Block)
    requires LiveApart(live) && p !in live && forall q :: q in live ==> Apart(b, live[q])
    ensures LiveApart(live[p := b])
  {}

  // Memory that was never written reads as 0.
  function Byte(memory: map<nat, nat>, a: nat): nat {
    if a in memory then memory[a] else 0
  }

  // A 16-bit little-endian load.
  function Load16(memory: map<nat, nat>, a: nat): nat {
    Byte(memory, a) + 0x100 * Byte(memory, a + 1)
  }

  ghost predicate HeaderOk(memory: map<nat, nat>, p: nat, b: Block)
    requires BlockOk(p, b)
  {
    Load16(memory, p - 4) == 12345 && Load16(memory, p - 2) == (p - b.base) % 0x1_0000
  }

  ghost predicate SameOutside(before: map<nat, nat>, after: map<nat, nat>, lo: int, hi: int) {
    forall x: nat :: x < lo || hi <= x ==> Byte(after, x) == Byte(before, x)
  }

  ghost predicate PayloadKept(p: nat, size: nat, before: map<nat, nat>, after: map<nat, nat>) {
    forall x: nat :: p <= x < p + size ==> Byte(after, x) == Byte(before, x)
  }

  // Writing inside one raw block disturbs no other block.
  lemma OtherBlockKept(before: map<nat, nat>, after: map<nat, nat>, b: Block, q: nat, c: Block)
    requires BlockOk(q, c) && Apart(b, c) && HeaderOk(before, q, c)
    requires SameOutside(before, after, b.base, b.base + b.rawSize)
    ensures HeaderOk(after, q, c) && PayloadKept(q, c.size, before, after)
  {
  }

  // What SDK_Free passes to free: the base, or an address further inside the block.
  lemma FreedAddress(memory: map<nat, nat>, p: nat, b: Block)
    requires BlockOk(p, b) && HeaderOk(memory, p, b)
    ensures p - b.base < 0x1_0000 ==> p - Load16(memory, p - 2) == b.base
    ensures p - b.base >= 0x1_0000 ==> b.base < p - Load16(memory, p - 2) < b.base + b.rawSize
  {}

  // The live pointer p is where its block puts it, in a raw block malloc handed out
  // for it, and its header is intact.
  ghost predicate LiveOk(memory: map<nat, nat>, raw: map<nat, nat>, p: nat, b: Block) {
    BlockOk(p, b) && HeaderOk(memory, p, b) && b.base in raw && raw[b.base] == b.rawSize
  }

  // The heap invariant.
  ghost predicate Consistent(memory: map<nat, nat>, raw: map<nat, nat>, live: map<nat, Block>) {
    && (forall p :: p in live ==> LiveOk(memory, raw, p, live[p]))
    && LiveApart(live) && RawApart(raw)
  }

  // Payloads and headers of different live pointers never overlap.
  lemma LiveBlocksApart(memory: map<nat, nat>, raw: map<nat, nat>, live: map<nat, Block>, p: nat, q: nat)
    requires Consistent(memory, raw, live) && p in live && q in live && p != q
    ensures p + live[p].size <= q - HEADER || q + live[q].size <= p - HEADER
  {
    assert LiveOk(memory, raw, p, live[p]) && LiveOk(memory, raw, q, live[q]) && Apart(live[p], live[q]);
  }

  ghost predicate PayloadsKept(live: map<nat, Block>, before: map<nat, nat>, after: map<nat, nat>) {
    forall q :: q in live ==> PayloadKept(q, live[q].size, before, after)
  }

  // A new block with its header written.
  lemma InsertKeeps(before: map<nat, nat>, after: map<nat, nat>, raw: map<nat, nat>, live: map<nat, Block>,
                    p: nat, b: Block)
    requires Consistent(before, raw, live) && LiveOk(after, raw, p, b)
    requires SameOutside(before, after, p - HEADER, p)
    requires forall q :: q in live ==> Apart(b, live[q])
    ensures p !in live && Consistent(after, raw, live[p := b]) && PayloadsKept(live, before, after)
  {
    assert p in live ==> LiveOk(before, raw, p, live[p]);
    forall q | q in live
      ensures LiveOk(after, raw, q, live[q]) && PayloadKept(q, live[q].size, before, after)
    {
      assert LiveOk(before, raw, q, live[q]);
      OtherBlockKept(before, after, b, q, live[q]);
    }
    NewBlockApart(live, p, b);
  }

  // A raw block more, not yet in use.
  lemma RawMore(memory: map<nat, nat>, raw: map<nat, nat>, live: map<nat, Block>, base: nat, n: nat)
    requires Consistent(memory, raw, live) && base !in raw
    requires forall a :: a in raw ==> a + raw[a] <= base || base + n <= a
    ensures Consistent(memory, raw[base := n], live)
  {
    forall p | p in live
      ensures LiveOk(memory, raw[base := n], p, live[p])
    {
      assert LiveOk(memory, raw, p, live[p]);
    }
  }

  // The pointer made for it lies in it, apart from all others.
  lemma NewBlockOk(memory: map<nat, nat>, raw: map<nat, nat>, live: map<nat, Block>, b: Block)
    requires Consistent(memory, raw, live) && b.size < WORD && Reasonable(b.align)
    requires b.rawSize == NeededSize(b.size, b.align) && 0 < b.base && b.base + b.rawSize <= WORD
    requires forall a :: a in raw ==> a + raw[a] <= b.base || b.base + b.rawSize <= a
    ensures BlockOk(AlignedAddress(b.base, b.align), b)
    ensures forall q :: q in live ==> Apart(b, live[q])
  {
    Layout(b.base, b.size, b.align);
    forall q | q in live
      ensures Apart(b, live[q])
    {
      assert LiveOk(memory, raw, q, live[q]);
    }
  }

  // The address passed to free is one malloc returned exactly when the offset fits,
  // and then it is the base.
  lemma FreedKnown(memory: map<nat, nat>, raw: map<nat, nat>, live: map<nat, Block>, p: nat)
    requires Consistent(memory, raw, live) && p in live
    ensures p >= HEADER && Load16(memory, p - 4) == MAGIC && p - Load16(memory, p - 2) >= 0
    ensures p - Load16(memory, p - 2) in raw <==> p - live[p].base < 0x1_0000
    ensures p - live[p].base < 0x1_0000 ==> p - Load16(memory, p - 2) == live[p].base
  {
    assert LiveOk(memory, raw, p, live[p]);
    FreedAddress(memory, p, live[p]);
  }

  lemma RemoveKeeps(memory: map<nat, nat>, raw: map<nat, nat>, live: map<nat, Block>, p: nat)
    requires Consistent(memory, raw, live) && p in live
    ensures Consistent(memory, raw - {live[p].base}, live - {p})
  {
    forall q | q in live && q != p
      ensures LiveOk(memory, raw - {live[p].base}, q, live[q])
    {
      assert LiveOk(memory, raw, q, live[q]) && LiveOk(memory, raw, p, live[p]) && Apart(live[p], live[q]);
    }
  }

  // A write inside one payload.
  lemma WriteKeeps(before: map<nat, nat>, after: map<nat, nat>, raw: map<nat, nat>, live: map<nat, Block>, p: nat)
    requires Consistent(before, raw, live) && p in live
    requires SameOutside(before, after, p, p + live[p].size)
    ensures Consistent(after, raw, live) && PayloadsKept(live - {p}, before, after)
  {
    assert LiveOk(before, raw, p, live[p]);
    forall q | q in live
      ensures LiveOk(after, raw, q, live[q]) && (q != p ==> PayloadKept(q, live[q].size, before, after))
    {
      assert LiveOk(before, raw, q, live[q]);
      if q != p {
        OtherBlockKept(before, after, live[p], q, live[q]);
      }
    }
  }

  class Heap {
    var memory: map<nat, nat>        // bytes
    var raw: map<nat, nat>           // what malloc has handed out: base and size
    ghost var live: map<nat, Block>  // what SDK_Malloc has handed out
    ghost var asked: seq<(nat, nat)> // every call of malloc: the size and what it gave

    ghost predicate Valid()
      reads this
    {
      Consistent(memory, raw, live)
    }

    constructor ()
      ensures Valid() && live == map[] && raw == map[]
    {
      memory, raw, live, asked := map[], map[], map[], [];
    }

    /*
     * The C library and memory
     */

    // Any block apart from all others, or null.
    method Malloc(n: nat) returns (base: nat)
      modifies this`raw, this`asked
      ensures asked == old(asked) + [(n, base)]
      ensures base == 0 ==> raw == old(raw)
      ensures base > 0 ==>
        && base < WORD && base + n <= WORD && base !in old(raw) && raw == old(raw)[base := n]
        && forall a :: a in old(raw) ==> a + old(raw)[a] <= base || base + n <= a
    {
      base :| base == 0
        || (base < WORD && base + n <= WORD && base !in raw
            && forall a :: a in raw ==> a + raw[a] <= base || base + n <= a);
      if base > 0 {
        raw := raw[base := n];
      }
      asked := asked + [(n, base)];
    }

    // Undefined on anything malloc did not return.
    method Free(base: nat)
      requires base in raw
      modifies this`raw
      ensures raw == old(raw) - {base}
    {
      raw := raw - {base};
    }

    method Store16(a: nat, v: nat)
      requires v < 0x1_0000
      modifies this`memory
      ensures Load16(memory, a) == v && SameOutside(old(memory), memory, a, a + 2)
    {
      memory := memory[a := v % 0x100][a + 1 := v / 0x100];
    }

    // The header fields of an aligned address.
    method WriteHeader(p: nat, offset: nat)
      requires p >= HEADER
      modifies this`memory
      ensures Load16(memory, p - 4) == MAGIC && Load16(memory, p - 2) == offset % 0x1_0000
      ensures SameOutside(old(memory), memory, p - HEADER, p)
    {
      Store16(p - 4, MAGIC);
      Store16(p - 2, offset % 0x1_0000);
    }

    /*
     * The allocator
     */

    // Fails when the request does not fit in 32 bits or malloc fails; otherwise the
    // pointer lies in a block of its own, aligned if the alignment is a power of two,
    // and no live byte changes. For the few alignments that are not reasonable the
    // pointer is wild instead: its header would not lie in the block. Malloc is asked
    // once, for the needed size, exactly if that fits, and what it gives is used.
    method SdkMalloc(size: nat, align: nat) returns (p: nat, wild: bool)
      requires Valid() && size < WORD && align < WORD
      modifies this
      ensures Valid() && (wild ==> !Reasonable(align))
      ensures Reasonable(align) && NeededSize(size, align) >= WORD ==> p == 0 && asked == old(asked)
      ensures Reasonable(align) && NeededSize(size, align) < WORD ==>
        && |asked| == |old(asked)| + 1 && asked[..|old(asked)|] == old(asked)
        && var (n, base) := asked[|old(asked)|];
           && n == NeededSize(size, align) && (p == 0 <==> base == 0)
           && (p > 0 ==> p in live && live[p].base == base && p == AlignedAddress(base, align))
      ensures !wild && p == 0 ==> live == old(live) && raw == old(raw) && memory == old(memory)
      ensures !wild && p > 0 ==>
        && Reasonable(align) && p !in old(live) && p in live && live == old(live)[p := live[p]]
        && live[p].size == size && live[p].align == align
        && live[p].rawSize == NeededSize(size, align) && raw == old(raw)[live[p].base := live[p].rawSize]
      ensures wild ==> live == old(live) && memory == old(memory)
      ensures PayloadsKept(old(live), old(memory), memory)
    {
      if Reasonable(align) {
        RequestChecked(size, align);
      }
      var request := RawSize(size, align);
      if request.None? {
        return 0, false;
      }
      var base := Malloc(request.value);
      if base == 0 {
        return 0, false;
      }
      RawMore(memory, old(raw), live, base, request.value);
      p := SizeAlign(base + HEADER, align);
      Granted(size, align, base);
      if p < base + HEADER {
        return p, true;
      }
      ghost var b := Block(base, request.value, size, align);
      NewBlockOk(memory, old(raw), live, b);
      WriteHeader(p, p - base);
      InsertKeeps(old(memory), memory, raw, live, p, b);
      live := live[p := b];
      wild := false;
    }

    // A pointer without the magic number is ignored; a live one is released, and
    // free gets exactly the raw base, unless the offset did not fit its 16 bits: then
    // free would get an address malloc never returned.
    method SdkFree(p: nat) returns (undefined: bool)
      requires Valid() && p >= HEADER
      requires p !in live ==> Load16(memory, p - 4) != MAGIC
      modifies this`raw, this`live
      ensures Valid()
      ensures undefined <==> p in old(live) && p - old(live)[p].base >= 0x1_0000
      ensures p in old(live) && !undefined ==>
        live == old(live) - {p} && raw == old(raw) - {old(live)[p].base}
      ensures p !in old(live) || undefined ==> live == old(live) && raw == old(raw)
    {
      if p in live {
        FreedKnown(memory, raw, live, p);
      }
      if Load16(memory, p - 4) != MAGIC {
        return false;
      }
      var base := p - Load16(memory, p - 2);
      if base !in raw {
        return true;
      }
      RemoveKeeps(memory, raw, live, p);
      Free(base);
      live := live - {p};
      return false;
    }

    // The owner of a live pointer may write anywhere in its payload.
    method WritePayload(p: nat, i: nat, v: nat)
      requires Valid() && p in live && i < live[p].size
      modifies this`memory
      ensures Valid() && Byte(memory, p + i) == v && SameOutside(old(memory), memory, p + i, p + i + 1)
      ensures PayloadsKept(live - {p}, old(memory), memory)
    {
      memory := memory[p + i := v];
      WriteKeeps(old(memory), memory, raw, live, p);
    }
  }
}
