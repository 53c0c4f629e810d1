/**
 The CRC driver over its engine: the control, polynomial and data registers with
 their read and write transposition, the start sequence, the mixed byte/word
 write loop and the result readers.
 */
module CrcDriver {

  import opened BitStrings
  import opened CrcTheory

  datatype Transpose = TransposeNone | TransposeBits | TransposeBitsAndBytes | TransposeBytes
  {
    function Code(): nat {
      match this
      case TransposeNone => 0
      case TransposeBits => 1
      case TransposeBitsAndBytes => 2
      case TransposeBytes => 3
    }
  }

  datatype CrcBits = Crc16 | Crc32
  {
    function Width(): (n: nat)
      ensures n == 16 || n == 32
    {
      if Crc16? then 16 else 32
    }
  }

  datatype CrcResult = FinalChecksum | IntermediateChecksum

  // The caller's protocol description.
  datatype Config = Config(
    polynomial: Word, seed: Word, reflectIn: bool, reflectOut: bool,
    complementChecksum: bool, crcBits: CrcBits, crcResult: CrcResult)

  // The engine settings a protocol is turned into.
  datatype ModuleConfig = ModuleConfig(
    polynomial: Word, seed: Word, readTranspose: Transpose, writeTranspose: Transpose,
    complementChecksum: bool, crcBits: CrcBits)

  datatype Control = Control(tot: Transpose, totr: Transpose, fxor: bool, was: bool, tcrc: CrcBits)

  /*
   * Words, bytes and their transposition
   */

  function SwapBytes(w: Word): Word {
    w[24..] + w[16..24] + w[8..16] + w[..8]
  }

  function SwapBitsInBytes(w: Word): Word {
    Reverse(w[..8]) + Reverse(w[8..16]) + Reverse(w[16..24]) + Reverse(w[24..])
  }

  function Transposed(t: Transpose, w: Word): Word {
    match t
    case TransposeNone => w
    case TransposeBits => SwapBitsInBytes(w)
    case TransposeBitsAndBytes => SwapBitsInBytes(SwapBytes(w))
    case TransposeBytes => SwapBytes(w)
  }

  function TransposedByte(t: Transpose, b: Byte): Byte {
    match t
    case TransposeNone => b
    case TransposeBits => Reverse(b)
    case TransposeBitsAndBytes => Reverse(b)
    case TransposeBytes => b
  }

  function Concat4(a: Bits, b: Bits, c: Bits, d: Bits): Bits {
    a + b + c + d
  }

  // A little-endian 32-bit load.
  function LoadWord(b: seq<Byte>): (w: Word)
    requires |b| == 4
  {
    Concat4(b[3], b[2], b[1], b[0])
  }

  // The input bits of a byte string in the order the protocol defines.
  function InputBits(reflectIn: bool, data: seq<Byte>): (m: Bits)
    ensures |m| == 8 * |data|
  {
    if data == [] then []
    else (if reflectIn then Reverse(data[0]) else data[0]) + InputBits(reflectIn, data[1..])
  }

  lemma {:induction false} InputBitsConcat(reflectIn: bool, a: seq<Byte>, b: seq<Byte>)
    ensures InputBits(reflectIn, a + b) == InputBits(reflectIn, a) + InputBits(reflectIn, b)
    decreases |a|
  {
    if a == [] {
      assert a + b == b;
    } else {
      assert (a + b)[1..] == a[1..] + b;
      InputBitsConcat(reflectIn, a[1..], b);
    }
  }

  // Feeding k more bytes extends the prefix fed so far.
  lemma FeedNext(reflectIn: bool, p: Bits, start: Bits, bytes: seq<Byte>, i: nat, k: nat)
    requires |p| == |start| > 0 && i + k <= |bytes|
    ensures Feed(p, Feed(p, start, InputBits(reflectIn, bytes[..i])), InputBits(reflectIn, bytes[i..i + k]))
         == Feed(p, start, InputBits(reflectIn, bytes[..i + k]))
  {
    assert bytes[..i + k] == bytes[..i] + bytes[i..i + k];
    InputBitsConcat(reflectIn, bytes[..i], bytes[i..i + k]);
    FeedConcat(p, start, InputBits(reflectIn, bytes[..i]), InputBits(reflectIn, bytes[i..i + k]));
  }

  function ReflectInTranspose(enable: bool): Transpose {
    if enable then TransposeBitsAndBytes else TransposeBytes
  }

  function ReflectOutTranspose(enable: bool): Transpose {
    if enable then TransposeBitsAndBytes else TransposeNone
  }

  lemma BitsAndBytesReverses(w: Word)
    ensures Transposed(TransposeBitsAndBytes, w) == Reverse(w)
  {
    var a, b, c, d := w[..8], w[8..16], w[16..24], w[24..];
    var s := SwapBytes(w);
    assert s[..8] == d && s[8..16] == c && s[16..24] == b && s[24..] == a;
    ReverseConcat(a, b + (c + d));
    ReverseConcat(b, c + d);
    ReverseConcat(c, d);
    assert w == a + (b + (c + d));
  }

  lemma FourInputBytes(reflectIn: bool, b: seq<Byte>)
    requires |b| == 4
    ensures InputBits(reflectIn, b)
         == InputBits(reflectIn, [b[0]]) + InputBits(reflectIn, [b[1]])
          + InputBits(reflectIn, [b[2]]) + InputBits(reflectIn, [b[3]])
  {
    assert b == [b[0]] + ([b[1]] + ([b[2]] + [b[3]]));
    InputBitsConcat(reflectIn, [b[0]], [b[1]] + ([b[2]] + [b[3]]));
    InputBitsConcat(reflectIn, [b[1]], [b[2]] + [b[3]]);
    InputBitsConcat(reflectIn, [b[2]], [b[3]]);
  }

  lemma OneInputByte(reflectIn: bool, b: Byte)
    ensures InputBits(reflectIn, [b]) == TransposedByte(ReflectInTranspose(reflectIn), b)
  {
    assert InputBits(reflectIn, [b][1..]) == [];
  }

  // The bytes of a word, as the transposition sees them.
  lemma LoadedBytes(b: seq<Byte>)
    requires |b| == 4
    ensures var w := LoadWord(b);
            && w[..8] == b[3] && w[8..16] == b[2] && w[16..24] == b[1] && w[24..] == b[0]
    ensures SwapBytes(LoadWord(b)) == Concat4(b[0], b[1], b[2], b[3])
    ensures SwapBitsInBytes(SwapBytes(LoadWord(b)))
         == Concat4(Reverse(b[0]), Reverse(b[1]), Reverse(b[2]), Reverse(b[3]))
  {
    var s := SwapBytes(LoadWord(b));
    assert s[..8] == b[0] && s[8..16] == b[1] && s[16..24] == b[2] && s[24..] == b[3];
  }

  // Both write transpositions the driver selects undo the little-endian order of
  // a word, so a word is fed as its four bytes in memory order.
  lemma WordIsFourBytes(reflectIn: bool, b: seq<Byte>)
    requires |b| == 4
    ensures Transposed(ReflectInTranspose(reflectIn), LoadWord(b)) == InputBits(reflectIn, b)
  {
    LoadedBytes(b);
    FourInputBytes(reflectIn, b);
    OneInputByte(reflectIn, b[0]);
    OneInputByte(reflectIn, b[1]);
    OneInputByte(reflectIn, b[2]);
    OneInputByte(reflectIn, b[3]);
  }

  // The bits a word write and four byte writes feed to the engine.
  function WordFeed(t: Transpose, b: seq<Byte>): Bits
    requires |b| == 4
  {
    Transposed(t, LoadWord(b))
  }

  function ByteFeeds(t: Transpose, b: seq<Byte>): Bits
    requires |b| == 4
  {
    Concat4(TransposedByte(t, b[0]), TransposedByte(t, b[1]), TransposedByte(t, b[2]), TransposedByte(t, b[3]))
  }

  // The word loop may stand in for the byte loop under exactly the two
  // transpositions that swap bytes.
  lemma WordAgreesWithBytesIff(t: Transpose)
    ensures (forall b: seq<Byte> | |b| == 4 :: WordFeed(t, b) == ByteFeeds(t, b))
       <==> t == TransposeBitsAndBytes || t == TransposeBytes
  {
    if t == TransposeBitsAndBytes || t == TransposeBytes {
      forall b: seq<Byte> | |b| == 4
        ensures WordFeed(t, b) == ByteFeeds(t, b)
      {
        LoadedBytes(b);
      }
    } else {
      var b := WordDiffers(t);
    }
  }

  lemma WordDiffers(t: Transpose) returns (b: seq<Byte>)
    requires t == TransposeNone || t == TransposeBits
    ensures |b| == 4 && WordFeed(t, b) != ByteFeeds(t, b)
  {
    var one: Byte, zero: Byte := Fill(8, true), Fill(8, false);
    b := [one, zero, zero, zero];
    LoadedBytes(b);
    assert TransposedByte(t, one)[0];
    assert ByteFeeds(t, b)[0];
    assert WordFeed(t, b)[..8] == TransposedByte(t, zero);
    assert !TransposedByte(t, zero)[0];
  }

  // Masking one half of a word and keeping it.
  lemma Halves(w: Word)
    ensures And(w, Fill(16, true) + Zeros(16))[..16] == w[..16]
    ensures And(w, Zeros(16) + Fill(16, true))[16..] == w[16..]
  {}

  lemma ReverseLow(w: Word)
    ensures Reverse(w)[..16] == Reverse(w[16..])
  {}

  /*
   * What a protocol means
   */

  function Low(w: Word, bits: CrcBits): (r: Bits)
    ensures |r| == bits.Width()
  {
    if bits.Crc16? then w[16..] else w
  }

  function Finish(cfg: Config, r: Bits): (c: Bits)
    ensures |c| == |r|
  {
    if cfg.crcResult == IntermediateChecksum then r
    else
      var reflected := if cfg.reflectOut then Reverse(r) else r;
      if cfg.complementChecksum then Not(reflected) else reflected
  }

  // The bitwise checksum of a byte string under a protocol.
  function Checksum(cfg: Config, data: seq<Byte>): (c: Bits)
    ensures |c| == cfg.crcBits.Width()
  {
    Finish(cfg,
      Feed(Low(cfg.polynomial, cfg.crcBits), Low(cfg.seed, cfg.crcBits), InputBits(cfg.reflectIn, data)))
  }

  // The default protocol: x^16 + x^12 + x^5 + 1 with an all-ones seed.
  function DefaultConfig(): Config {
    Config(
      Zeros(16) + [false, false, false, true, false, false, false, false,
                   false, false, true, false, false, false, false, true],
      Zeros(16) + Fill(16, true), false, false, false, Crc16, FinalChecksum)
  }

  lemma FinishInjective(cfg: Config, r: Bits, s: Bits)
    requires |r| == |s| && Finish(cfg, r) == Finish(cfg, s)
    ensures r == s
  {
    var r1, s1 := if cfg.reflectOut then Reverse(r) else r, if cfg.reflectOut then Reverse(s) else s;
    NotTwice(r1);
    NotTwice(s1);
    ReverseTwice(r);
    ReverseTwice(s);
  }

  // The bytes one after the other, each most significant bit first.
  function MsbFirst(data: seq<Byte>): (m: Bits)
    ensures |m| == 8 * |data|
  {
    seq(8 * |data|, k requires 0 <= k < 8 * |data| => data[k / 8][k % 8])
  }

  // The least significant bit of every byte first, as reflected protocols send it.
  function LsbFirst(data: seq<Byte>): (m: Bits)
    ensures |m| == 8 * |data|
  {
    seq(8 * |data|, k requires 0 <= k < 8 * |data| => data[k / 8][7 - k % 8])
  }

  // Bit j of byte i in the input, for both orders.
  lemma {:induction false} InputBitAt(reflectIn: bool, data: seq<Byte>, i: nat, j: nat)
    requires i < |data| && j < 8
    ensures InputBits(reflectIn, data)[8 * i + j] == if reflectIn then data[i][7 - j] else data[i][j]
    decreases i
  {
    var first := if reflectIn then Reverse(data[0]) else data[0];
    if i > 0 {
      InputBitAt(reflectIn, data[1..], i - 1, j);
      assert InputBits(reflectIn, data)[8 * i + j] == InputBits(reflectIn, data[1..])[8 * (i - 1) + j];
    } else {
      assert InputBits(reflectIn, data)[j] == first[j];
    }
  }

  // The input bits in the order the protocol asks for.
  function Ordered(reflectIn: bool, data: seq<Byte>): Bits {
    if reflectIn then LsbFirst(data) else MsbFirst(data)
  }

  lemma InputIsOrdered(reflectIn: bool, data: seq<Byte>)
    ensures InputBits(reflectIn, data) == Ordered(reflectIn, data)
  {
    var a, b := InputBits(reflectIn, data), Ordered(reflectIn, data);
    forall k: nat | k < 8 * |data|
      ensures a[k] == b[k]
    {
      InputOrderedAt(reflectIn, data, k);
    }
    SameBits(a, b);
  }

  lemma InputOrderedAt(reflectIn: bool, data: seq<Byte>, k: nat)
    requires k < 8 * |data|
    ensures InputBits(reflectIn, data)[k] == Ordered(reflectIn, data)[k]
  {
    var i, j := k / 8, k % 8;
    assert k == 8 * i + j;
    InputBitAt(reflectIn, data, i, j);
    OrderedAt(reflectIn, data, i, j);
  }

  lemma OrderedAt(reflectIn: bool, data: seq<Byte>, i: nat, j: nat)
    requires i < |data| && j < 8
    ensures Ordered(reflectIn, data)[8 * i + j] == if reflectIn then data[i][7 - j] else data[i][j]
  {
    ByteAndBit(i, j);
    var k := 8 * i + j;
    if reflectIn {
      assert LsbFirst(data)[k] == data[k / 8][7 - k % 8];
    } else {
      assert MsbFirst(data)[k] == data[k / 8][k % 8];
    }
  }

  lemma ByteAndBit(i: nat, j: nat)
    requires j < 8
    ensures (8 * i + j) / 8 == i && (8 * i + j) % 8 == j
  {}

  lemma SameBits(a: Bits, b: Bits)
    requires |a| == |b| && forall k: nat :: k < |a| ==> a[k] == b[k]
    ensures a == b
  {}

  // The checksum of every protocol, bit by bit: the remainder of the bytes in the
  // order reflectIn says, read in the direction reflectOut says, complemented if asked.
  lemma ChecksumBits(cfg: Config, data: seq<Byte>, k: nat)
    requires cfg.crcResult == FinalChecksum && k < cfg.crcBits.Width()
    ensures var p, s := Low(cfg.polynomial, cfg.crcBits), Low(cfg.seed, cfg.crcBits);
            var r := Remainder(Dividend(s, if cfg.reflectIn then LsbFirst(data) else MsbFirst(data)), p);
            Checksum(cfg, data)[k] == (r[if cfg.reflectOut then |r| - 1 - k else k] != cfg.complementChecksum)
  {
    ChecksumIsRemainder(cfg, data);
    InputIsOrdered(cfg.reflectIn, data);
  }

  // Without reflections it is the finished remainder of the plain bytes.
  lemma UnreflectedChecksum(cfg: Config, data: seq<Byte>)
    requires !cfg.reflectIn && !cfg.reflectOut && cfg.crcResult == FinalChecksum
    ensures var p, s := Low(cfg.polynomial, cfg.crcBits), Low(cfg.seed, cfg.crcBits);
            var r := Remainder(Dividend(s, MsbFirst(data)), p);
            Checksum(cfg, data) == if cfg.complementChecksum then Not(r) else r
  {
    ChecksumIsRemainder(cfg, data);
    InputIsOrdered(false, data);
  }

  // An intermediate result is the remainder itself.
  lemma RawChecksum(cfg: Config, data: seq<Byte>)
    requires cfg.crcResult == IntermediateChecksum
    ensures var p, s := Low(cfg.polynomial, cfg.crcBits), Low(cfg.seed, cfg.crcBits);
            Checksum(cfg, data) == Remainder(Dividend(s, Ordered(cfg.reflectIn, data)), p)
  {
    ChecksumIsRemainder(cfg, data);
    InputIsOrdered(cfg.reflectIn, data);
  }

  // The default polynomial has the terms x^12, x^5 and 1 below its leading one, the
  // seed is all ones, and nothing is reflected or complemented.
  lemma DefaultTerms(k: nat)
    requires k < 32
    ensures var c := DefaultConfig();
      !c.reflectIn && !c.reflectOut && !c.complementChecksum && c.crcBits == Crc16 && c.crcResult == FinalChecksum
    ensures DefaultConfig().polynomial[31 - k] <==> k == 12 || k == 5 || k == 0
    ensures DefaultConfig().seed[31 - k] <==> k < 16
  {}

  // A protocol with both reflections is the right-shifting CRC of the mirrored
  // polynomial and seed.
  lemma ReflectedChecksum(cfg: Config, data: seq<Byte>)
    requires cfg.reflectIn && cfg.reflectOut && cfg.crcResult == FinalChecksum
    ensures var p, s := Low(cfg.polynomial, cfg.crcBits), Low(cfg.seed, cfg.crcBits);
            var c := FeedLsb(Reverse(p), Reverse(s), LsbFirst(data));
            Checksum(cfg, data) == if cfg.complementChecksum then Not(c) else c
  {
    FeedReflected(Low(cfg.polynomial, cfg.crcBits), Low(cfg.seed, cfg.crcBits), InputBits(true, data));
    InputIsOrdered(true, data);
  }

  // The checksum is the remainder of a polynomial long division.
  lemma ChecksumIsRemainder(cfg: Config, data: seq<Byte>)
    ensures var p, s := Low(cfg.polynomial, cfg.crcBits), Low(cfg.seed, cfg.crcBits);
            Checksum(cfg, data) == Finish(cfg, Remainder(Dividend(s, InputBits(cfg.reflectIn, data)), p))
  {
    FeedIsRemainder(Low(cfg.polynomial, cfg.crcBits), Low(cfg.seed, cfg.crcBits), InputBits(cfg.reflectIn, data));
  }

  // The input bits of two buffers differ, and only inside one window.
  ghost predicate DifferInWindow(cfg: Config, a: seq<Byte>, b: seq<Byte>, lo: nat, hi: nat) {
    var x, y := InputBits(cfg.reflectIn, a), InputBits(cfg.reflectIn, b);
    && |a| == |b| && lo <= hi <= |x|
    && x[..lo] == y[..lo] && x[hi..] == y[hi..] && x[lo..hi] != y[lo..hi]
  }

  lemma Window(x: Bits, lo: nat, hi: nat)
    requires lo <= hi <= |x|
    ensures x == x[..lo] + x[lo..hi] + x[hi..]
  {}

  // No burst as long as the checksum or shorter goes unnoticed.
  lemma BurstChangesChecksum(cfg: Config, a: seq<Byte>, b: seq<Byte>, lo: nat, hi: nat)
    requires HasConstantTerm(Low(cfg.polynomial, cfg.crcBits))
    requires DifferInWindow(cfg, a, b, lo, hi) && hi - lo <= cfg.crcBits.Width()
    ensures Checksum(cfg, a) != Checksum(cfg, b)
  {
    var p, s := Low(cfg.polynomial, cfg.crcBits), Low(cfg.seed, cfg.crcBits);
    var x, y := InputBits(cfg.reflectIn, a), InputBits(cfg.reflectIn, b);
    Window(x, lo, hi);
    Window(y, lo, hi);
    BurstDetected(p, s, x[..lo], x[lo..hi], y[lo..hi], x[hi..]);
    if Checksum(cfg, a) == Checksum(cfg, b) {
      FinishInjective(cfg, Feed(p, s, x), Feed(p, s, y));
    }
  }

  // Nor does an error in an odd number of bits, if the polynomial's low part has odd
  // weight.
  lemma OddErrorChangesChecksum(cfg: Config, a: seq<Byte>, b: seq<Byte>)
    requires Odd(Low(cfg.polynomial, cfg.crcBits)) && |a| == |b|
    requires Odd(Xor(InputBits(cfg.reflectIn, a), InputBits(cfg.reflectIn, b)))
    ensures Checksum(cfg, a) != Checksum(cfg, b)
  {
    var p, s := Low(cfg.polynomial, cfg.crcBits), Low(cfg.seed, cfg.crcBits);
    var x, y := InputBits(cfg.reflectIn, a), InputBits(cfg.reflectIn, b);
    DetectsOddErrorsIff(p, s);
    assert Feed(p, s, x) != Feed(p, s, y);
    if Checksum(cfg, a) == Checksum(cfg, b) {
      FinishInjective(cfg, Feed(p, s, x), Feed(p, s, y));
    }
  }

  // Three terms below the leading one.
  lemma DefaultIsOdd()
    ensures Odd(Low(DefaultConfig().polynomial, Crc16))
  {
    var a, b, c := Zeros(3) + [true], Zeros(6) + [true], Zeros(4) + [true];
    assert Low(DefaultConfig().polynomial, Crc16) == a + (b + c);
    OddSingle(3);
    OddSingle(6);
    OddSingle(4);
    OddConcat(b, c);
    OddConcat(a, b + c);
  }

  lemma DefaultDetectsOddErrors(a: seq<Byte>, b: seq<Byte>)
    requires |a| == |b| && Odd(Xor(InputBits(false, a), InputBits(false, b)))
    ensures Checksum(DefaultConfig(), a) != Checksum(DefaultConfig(), b)
  {
    DefaultIsOdd();
    OddErrorChangesChecksum(DefaultConfig(), a, b);
  }

  lemma DefaultDetectsBursts(a: seq<Byte>, b: seq<Byte>, lo: nat, hi: nat)
    requires DifferInWindow(DefaultConfig(), a, b, lo, hi) && hi - lo <= 16
    ensures Checksum(DefaultConfig(), a) != Checksum(DefaultConfig(), b)
  {
    BurstChangesChecksum(DefaultConfig(), a, b, lo, hi);
  }

  /*
   * The engine and the driver
   */

  predicate Aligned(address: nat) {
    address % 4 == 0
  }

  lemma BoundaryAt(word: nat, offset: nat)
    requires offset < 4
    ensures Aligned(4 * word + offset) <==> offset == 0
  {}

  // A word wherever one is left on a 4-byte boundary, a byte elsewhere.
  function Widths(address: nat, size: nat): seq<nat>
    decreases size
  {
    if size == 0 then []
    else if size >= 4 && Aligned(address) then [4] + Widths(address + 4, size - 4)
    else [1] + Widths(address + 1, size - 1)
  }

  // With i of n bytes written: the accesses so far, and those the rest still takes,
  // make up the total.
  predicate OnCourse(sofar: seq<nat>, address: nat, i: nat, n: nat, total: seq<nat>) {
    i <= n && sofar + Widths(address + i, n - i) == total
  }

  lemma CourseDone(sofar: seq<nat>, address: nat, n: nat, total: seq<nat>)
    requires OnCourse(sofar, address, n, n, total)
    ensures sofar == total
  {
    assert sofar + [] == sofar;
  }

  lemma ByteFirst(sofar: seq<nat>, address: nat, i: nat, n: nat, total: seq<nat>)
    requires OnCourse(sofar, address, i, n, total) && i < n && (n - i < 4 || !Aligned(address + i))
    ensures OnCourse(sofar + [1], address, i + 1, n, total)
  {
    var rest := Widths(address + (i + 1), n - (i + 1));
    assert Widths(address + i, n - i) == [1] + rest;
    assert sofar + [1] + rest == sofar + ([1] + rest);
  }

  lemma WordFirst(sofar: seq<nat>, address: nat, i: nat, n: nat, total: seq<nat>)
    requires OnCourse(sofar, address, i, n, total) && i + 4 <= n && Aligned(address + i)
    ensures OnCourse(sofar + [4], address, i + 4, n, total)
  {
    var rest := Widths(address + (i + 4), n - (i + 4));
    assert Widths(address + i, n - i) == [4] + rest;
    assert sofar + [4] + rest == sofar + ([4] + rest);
  }

  lemma NextWord(address: nat)
    ensures Aligned(address + 4) == Aligned(address)
  {}

  class Crc {
    var ctrl: Control
    var gpoly: Word
    var data: Word
    ghost var widths: seq<nat>      // of all writes to the data register, in bytes

    constructor ()
      ensures ctrl == Control(TransposeNone, TransposeNone, false, false, Crc16)
    {
      ctrl := Control(TransposeNone, TransposeNone, false, false, Crc16);
      gpoly := Zeros(32);
      data := Zeros(32);
      widths := [];
    }

    // The part of the data register that takes part in the computation.
    function Register(): (r: Bits)
      reads this
      ensures |r| == ctrl.tcrc.Width()
    {
      Low(data, ctrl.tcrc)
    }

    function Polynomial(): (p: Bits)
      reads this
      ensures |p| == ctrl.tcrc.Width()
    {
      Low(gpoly, ctrl.tcrc)
    }

    // Hardware: bits enter most significant first. In 16-bit mode the content of
    // the upper half of the data register is not specified.
    method Shift(m: Bits)
      modifies this`data
      ensures Register() == Feed(old(Polynomial()), old(Register()), m)
    {
      var r := Feed(Polynomial(), Register(), m);
      var unspecified: Half :| true;
      var upper: Bits := unspecified;
      if ctrl.tcrc.Crc16? {
        assert |upper + r| == 32;
        data := upper + r;
        assert data[16..] == r;
      } else {
        data := r;
      }
    }

    // Hardware: a 32-bit write is a seed while WAS is set and data otherwise.
    method WriteDATA(w: Word)
      modifies this`data, this`widths
      ensures ctrl.was ==> data == w
      ensures !ctrl.was ==>
        Register() == Feed(old(Polynomial()), old(Register()), Transposed(ctrl.tot, w))
      ensures widths == old(widths) + [4]
    {
      widths := widths + [4];
      if ctrl.was {
        data := w;
      } else {
        Shift(Transposed(ctrl.tot, w));
      }
    }

    // Hardware: an 8-bit write of data.
    method WriteDATALL(b: Byte)
      requires !ctrl.was
      modifies this`data, this`widths
      ensures Register() == Feed(old(Polynomial()), old(Register()), TransposedByte(ctrl.tot, b))
      ensures widths == old(widths) + [1]
    {
      widths := widths + [1];
      Shift(TransposedByte(ctrl.tot, b));
    }

    // Hardware: reading applies transposition and complement.
    function ReadDATA(): (w: Word)
      reads this
    {
      var t := Transposed(ctrl.totr, data);
      if ctrl.fxor then Not(t) else t
    }

    method ConfigureAndStart(config: ModuleConfig)
      modifies this
      ensures ctrl == Control(config.writeTranspose, config.readTranspose,
                              config.complementChecksum, false, config.crcBits)
      ensures gpoly == config.polynomial && data == config.seed
    {
      var crcControl := Control(config.writeTranspose, config.readTranspose,
                                config.complementChecksum, false, config.crcBits);
      ctrl := crcControl;
      gpoly := config.polynomial;
      ctrl := crcControl.(was := true);
      WriteDATA(config.seed);
      ctrl := crcControl;
    }

    method SetProtocolConfig(cfg: Config)
      requires cfg.crcResult == FinalChecksum
      modifies this
      ensures Configured(cfg) && Register() == Low(cfg.seed, cfg.crcBits)
    {
      ConfigureAndStart(ModuleConfig(cfg.polynomial, cfg.seed,
        ReflectOutTranspose(cfg.reflectOut), ReflectInTranspose(cfg.reflectIn),
        cfg.complementChecksum, cfg.crcBits));
    }

    method SetRawProtocolConfig(cfg: Config)
      requires cfg.crcResult == IntermediateChecksum
      modifies this
      ensures Configured(cfg) && Register() == Low(cfg.seed, cfg.crcBits)
    {
      ConfigureAndStart(ModuleConfig(cfg.polynomial, cfg.seed,
        TransposeNone, ReflectInTranspose(cfg.reflectIn), false, cfg.crcBits));
    }

    // The engine settings a protocol calls for.
    ghost predicate Configured(cfg: Config)
      reads this
    {
      && ctrl.tot == ReflectInTranspose(cfg.reflectIn)
      && ctrl.totr == (if cfg.crcResult == FinalChecksum
                       then ReflectOutTranspose(cfg.reflectOut) else TransposeNone)
      && ctrl.fxor == (cfg.crcResult == FinalChecksum && cfg.complementChecksum)
      && !ctrl.was && ctrl.tcrc == cfg.crcBits && gpoly == cfg.polynomial
    }

    method Init(cfg: Config)
      modifies this
      ensures Configured(cfg) && Register() == Low(cfg.seed, cfg.crcBits)
    {
      if cfg.crcResult == FinalChecksum {
        SetProtocolConfig(cfg);
      } else {
        SetRawProtocolConfig(cfg);
      }
    }

    // The engine has been fed the first i bytes since its register held start.
    ghost predicate Fed(cfg: Config, bytes: seq<Byte>, i: int, start: Bits)
      reads this
    {
      && Configured(cfg) && 0 <= i <= |bytes| && |start| == cfg.crcBits.Width()
      && Register() == Feed(Polynomial(), start, InputBits(cfg.reflectIn, bytes[..i]))
    }

    // Fed so, and the accesses still to come are those planned for the rest.
    ghost predicate Progress(cfg: Config, bytes: seq<Byte>, i: int, start: Bits, address: nat, total: seq<nat>)
      reads this
    {
      Fed(cfg, bytes, i, start) && OnCourse(widths, address, i, |bytes|, total)
    }

    method FeedByte(ghost cfg: Config, bytes: seq<Byte>, i: nat, ghost start: Bits)
      requires i < |bytes| && Fed(cfg, bytes, i, start)
      modifies this`data, this`widths
      ensures Fed(cfg, bytes, i + 1, start) && widths == old(widths) + [1]
    {
      WriteDATALL(bytes[i]);
      OneInputByte(cfg.reflectIn, bytes[i]);
      assert bytes[i..i + 1] == [bytes[i]];
      FeedNext(cfg.reflectIn, Polynomial(), start, bytes, i, 1);
    }

    method FeedWord(ghost cfg: Config, bytes: seq<Byte>, i: nat, ghost start: Bits)
      requires i + 4 <= |bytes| && Fed(cfg, bytes, i, start)
      modifies this`data, this`widths
      ensures Fed(cfg, bytes, i + 4, start) && widths == old(widths) + [4]
    {
      WriteDATA(LoadWord(bytes[i..i + 4]));
      WordIsFourBytes(cfg.reflectIn, bytes[i..i + 4]);
      FeedNext(cfg.reflectIn, Polynomial(), start, bytes, i, 4);
    }

    method WriteByte(ghost cfg: Config, bytes: seq<Byte>, i: nat, ghost start: Bits, address: nat,
                     ghost total: seq<nat>)
      requires i < |bytes| && Progress(cfg, bytes, i, start, address, total)
      requires |bytes| - i < 4 || !Aligned(address + i)
      modifies this`data, this`widths
      ensures Progress(cfg, bytes, i + 1, start, address, total)
    {
      ByteFirst(widths, address, i, |bytes|, total);
      FeedByte(cfg, bytes, i, start);
    }

    method WriteWord(ghost cfg: Config, bytes: seq<Byte>, i: nat, ghost start: Bits, address: nat,
                     ghost total: seq<nat>)
      requires i + 4 <= |bytes| && Progress(cfg, bytes, i, start, address, total)
      requires Aligned(address + i)
      modifies this`data, this`widths
      ensures Progress(cfg, bytes, i + 4, start, address, total)
    {
      WordFirst(widths, address, i, |bytes|, total);
      FeedWord(cfg, bytes, i, start);
    }

    // Bytes up to the first 4-byte boundary, then words, then the tail; address is
    // where bytes[0] lies. Words are used wherever one lies on a boundary.
    method WriteData(ghost cfg: Config, bytes: seq<Byte>, address: nat)
      requires Configured(cfg)
      modifies this`data, this`widths
      ensures Configured(cfg)
      ensures Register() == Feed(old(Polynomial()), old(Register()), InputBits(cfg.reflectIn, bytes))
      ensures widths == old(widths) + Widths(address, |bytes|)
    {
      ghost var start, total := Register(), widths + Widths(address, |bytes|);
      var i, dataSize := 0, |bytes|;
      assert bytes[..0] == [];
      while dataSize != 0 && !Aligned(address + i)
        invariant 0 <= dataSize && 0 <= i && i + dataSize == |bytes|
        invariant Progress(cfg, bytes, i, start, address, total)
        decreases dataSize
      {
        WriteByte(cfg, bytes, i, start, address, total);
        i, dataSize := i + 1, dataSize - 1;
      }
      WriteAligned(cfg, bytes, i, start, address, total);
      assert bytes[..|bytes|] == bytes;
      CourseDone(widths, address, |bytes|, total);
    }

    // From a boundary on: words, then the tail.
    method WriteAligned(ghost cfg: Config, bytes: seq<Byte>, from: nat, ghost start: Bits, address: nat,
                        ghost total: seq<nat>)
      requires from <= |bytes| && Progress(cfg, bytes, from, start, address, total)
      requires from == |bytes| || Aligned(address + from)
      modifies this`data, this`widths
      ensures Progress(cfg, bytes, |bytes|, start, address, total)
    {
      var i, dataSize := from, |bytes| - from;
      while dataSize >= 4
        invariant 0 <= dataSize && 0 <= i && i + dataSize == |bytes|
        invariant dataSize == 0 || Aligned(address + i)
        invariant Progress(cfg, bytes, i, start, address, total)
        decreases dataSize
      {
        WriteWord(cfg, bytes, i, start, address, total);
        NextWord(address + i);
        i, dataSize := i + 4, dataSize - 4;
      }
      while dataSize != 0
        invariant 0 <= dataSize < 4 && 0 <= i && i + dataSize == |bytes|
        invariant Progress(cfg, bytes, i, start, address, total)
        decreases dataSize
      {
        WriteByte(cfg, bytes, i, start, address, total);
        i, dataSize := i + 1, dataSize - 1;
      }
    }

    method Get32bitResult(ghost cfg: Config) returns (retval: Word)
      requires Configured(cfg)
      ensures cfg.crcBits == Crc32 ==> retval == Finish(cfg, Register())
    {
      retval := ReadDATA();
      BitsAndBytesReverses(data);
    }

    // The half of the register that carries the checksum depends on the read
    // transposition; the other half may hold anything.
    method Get16bitResult(ghost cfg: Config) returns (retval: Half)
      requires Configured(cfg)
      ensures cfg.crcBits == Crc16 ==> retval == Finish(cfg, Register())
    {
      var val: Word := ReadDATA();
      if ctrl.totr.Code() >= 2 {
        val := And(val, Fill(16, true) + Zeros(16));
        val := Zeros(16) + val[..16];
      } else {
        val := And(val, Zeros(16) + Fill(16, true));
      }
      retval := val[16..];
      BitsAndBytesReverses(data);
      ReverseLow(data);
      Halves(ReadDATA());
    }

    // A whole session: any number of writes of any sizes at any addresses.
    method Session16(cfg: Config, chunks: seq<(seq<Byte>, nat)>) returns (sum: Half)
      requires cfg.crcBits == Crc16
      modifies this
      ensures sum == Checksum(cfg, Joined(chunks))
    {
      Init(cfg);
      WriteChunks(cfg, chunks);
      sum := Get16bitResult(cfg);
    }

    method Session32(cfg: Config, chunks: seq<(seq<Byte>, nat)>) returns (sum: Word)
      requires cfg.crcBits == Crc32
      modifies this
      ensures sum == Checksum(cfg, Joined(chunks))
    {
      Init(cfg);
      WriteChunks(cfg, chunks);
      sum := Get32bitResult(cfg);
    }

    method WriteChunks(ghost cfg: Config, chunks: seq<(seq<Byte>, nat)>)
      requires Configured(cfg)
      modifies this`data, this`widths
      ensures Configured(cfg)
      ensures Register() == Feed(old(Polynomial()), old(Register()), InputBits(cfg.reflectIn, Joined(chunks)))
    {
      ghost var start := Register();
      var k := 0;
      while k < |chunks|
        invariant k <= |chunks| && Configured(cfg)
        invariant Register() == Feed(Polynomial(), start, InputBits(cfg.reflectIn, Joined(chunks[..k])))
      {
        WriteData(cfg, chunks[k].0, chunks[k].1);
        FeedChunk(cfg.reflectIn, Polynomial(), start, chunks, k);
        k := k + 1;
      }
      assert chunks[..k] == chunks;
    }

    // Interrupted after a, in intermediate mode, and resumed with the value read
    // as the new seed; the engine may serve anyone else in between.
    method SplitAndResume16(cfg: Config, other: Config, a: seq<Byte>, b: seq<Byte>,
                            noise: seq<Byte>, addressA: nat, addressB: nat)
      returns (sum: Half)
      requires cfg.crcBits == Crc16
      modifies this
      ensures sum == Checksum(cfg, a + b)
    {
      var raw := cfg.(crcResult := IntermediateChecksum);
      Init(raw);
      WriteData(raw, a, addressA);
      var carried := Get16bitResult(raw);
      Init(other);
      WriteData(other, noise, 0);
      var resumed := cfg.(seed := Zeros(16) + carried);
      Init(resumed);
      WriteData(resumed, b, addressB);
      sum := Get16bitResult(resumed);
      InputBitsConcat(cfg.reflectIn, a, b);
      FeedConcat(Low(cfg.polynomial, Crc16), Low(cfg.seed, Crc16),
                 InputBits(cfg.reflectIn, a), InputBits(cfg.reflectIn, b));
    }

    method SplitAndResume32(cfg: Config, other: Config, a: seq<Byte>, b: seq<Byte>,
                            noise: seq<Byte>, addressA: nat, addressB: nat)
      returns (sum: Word)
      requires cfg.crcBits == Crc32
      modifies this
      ensures sum == Checksum(cfg, a + b)
    {
      var raw := cfg.(crcResult := IntermediateChecksum);
      Init(raw);
      WriteData(raw, a, addressA);
      var carried := Get32bitResult(raw);
      Init(other);
      WriteData(other, noise, 0);
      var resumed := cfg.(seed := carried);
      Init(resumed);
      WriteData(resumed, b, addressB);
      sum := Get32bitResult(resumed);
      InputBitsConcat(cfg.reflectIn, a, b);
      FeedConcat(Low(cfg.polynomial, Crc32), Low(cfg.seed, Crc32),
                 InputBits(cfg.reflectIn, a), InputBits(cfg.reflectIn, b));
    }
  }

  function Joined(chunks: seq<(seq<Byte>, nat)>): seq<Byte> {
    if chunks == [] then [] else chunks[0].0 + Joined(chunks[1..])
  }

  lemma {:induction false} JoinedLast(chunks: seq<(seq<Byte>, nat)>)
    requires chunks != []
    ensures Joined(chunks) == Joined(chunks[..|chunks| - 1]) + chunks[|chunks| - 1].0
    decreases |chunks|
  {
    if |chunks| > 1 {
      JoinedLast(chunks[1..]);
      assert chunks[1..][..|chunks| - 2] == chunks[..|chunks| - 1][1..];
    }
  }

  lemma FeedChunk(reflectIn: bool, p: Bits, start: Bits, chunks: seq<(seq<Byte>, nat)>, k: nat)
    requires |p| == |start| > 0 && k < |chunks|
    ensures Feed(p, Feed(p, start, InputBits(reflectIn, Joined(chunks[..k]))), InputBits(reflectIn, chunks[k].0))
         == Feed(p, start, InputBits(reflectIn, Joined(chunks[..k + 1])))
  {
    JoinedLast(chunks[..k + 1]);
    assert chunks[..k + 1][..k] == chunks[..k];
    InputBitsConcat(reflectIn, Joined(chunks[..k]), chunks[k].0);
    FeedConcat(p, start, InputBits(reflectIn, Joined(chunks[..k])), InputBits(reflectIn, chunks[k].0));
  }
}
