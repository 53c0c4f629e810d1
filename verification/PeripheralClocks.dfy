/**
 Peripheral clock gates (one control word each: gate, source, divider, reset)
 and the clock frequencies derived from them.
 */
module PeripheralClocks {
  import opened ClockSources
  import opened Arithmetic

  datatype IpName =
    | NoGate
    | Lpi2c0 | Lpi2c1 | I3c0 | Lpspi0 | Lpspi1 | Lpit0 | Lpadc0 | Flexio0
    | Lpuart0 | Lpuart1 | Tpm0 | Tpm1
    | Can0
    | OtherIp(offset: nat)

  // A control word by its fields; `low`, `middle` and `high` are the bits between.
  datatype Gate = Gate(cc: nat, low: nat, mux: nat, middle: nat, div: nat, high: nat, rstb: bool, pr: bool)

  predicate Fits(g: Gate) {
    g.cc < 4 && g.low < 4 && g.mux < 8 && g.middle < 2 && g.div < 16 && g.high < 0x4_0000
  }

  function Bit(b: bool): nat {
    if b then 1 else 0
  }

  function Packed(g: Gate): nat {
    g.cc + 4 * g.low + 0x10 * g.mux + 0x80 * g.middle + 0x100 * g.div + 0x1000 * g.high
    + 0x4000_0000 * Bit(g.rstb) + 0x8000_0000 * Bit(g.pr)
  }

  // The masks and shifts of the control word find the fields in it.
  lemma FieldsOfWord(g: Gate)
    requires Fits(g)
    ensures Packed(g) % 4 == g.cc && Packed(g) / 0x10 % 8 == g.mux && Packed(g) / 0x100 % 0x10 == g.div
  {
    LowFields(g.cc, g.low, g.mux, g.middle, g.div, g.high + 0x4_0000 * Bit(g.rstb) + 0x8_0000 * Bit(g.pr));
  }

  lemma LowFields(cc: nat, low: nat, mux: nat, middle: nat, div: nat, rest: nat)
    requires cc < 4 && low < 4 && mux < 8 && middle < 2 && div < 0x10
    ensures var word := cc + 4 * low + 0x10 * mux + 0x80 * middle + 0x100 * div + 0x1000 * rest;
      word % 4 == cc && word / 0x10 % 8 == mux && word / 0x100 % 0x10 == div
  {
    var word := cc + 4 * low + 0x10 * mux + 0x80 * middle + 0x100 * div + 0x1000 * rest;
    var above := middle + 2 * div + 0x20 * rest;
    DivMod(word, 4, low + 4 * (mux + 8 * above), cc);
    DivMod(word, 0x10, mux + 8 * above, cc + 4 * low);
    DivMod(mux + 8 * above, 8, above, mux);
    DivMod(word, 0x100, div + 0x10 * rest, cc + 4 * low + 0x10 * mux + 0x80 * middle);
    DivMod(div + 0x10 * rest, 0x10, rest, div);
  }

  lemma FlagsOfWord(g: Gate)
    requires Fits(g)
    ensures (Packed(g) / 0x4000_0000 % 2 == 1 <==> g.rstb) && (Packed(g) / 0x8000_0000 == 1 <==> g.pr)
    ensures Packed(g) < 0x1_0000_0000
  {
    var rest := g.cc + 4 * g.low + 0x10 * g.mux + 0x80 * g.middle + 0x100 * g.div + 0x1000 * g.high;
    DivMod(Packed(g), 0x4000_0000, Bit(g.rstb) + 2 * Bit(g.pr), rest);
    DivMod(Packed(g), 0x8000_0000, Bit(g.pr), rest + 0x4000_0000 * Bit(g.rstb));
  }

  // A register write: PR is read only.
  function Stored(g: Gate, w: Gate): Gate {
    w.(pr := g.pr)
  }

  // A change that reroutes or redivides a clock leaves the gate closed.
  predicate Glitchless(before: Gate, after: Gate) {
    before.mux != after.mux || before.div != after.div ==> after.cc == 0
  }

  datatype Change = Change(before: Gate, after: Gate)

  predicate Clean(changes: seq<Change>) {
    forall c <- changes :: Glitchless(c.before, c.after)
  }

  // ------------------------------------------------ what the operations leave

  // Opens a closed gate and takes a present module out of reset.
  function Enabled(g: Gate): (n: Gate)
    ensures n.cc != 0 && (g.cc != 0 ==> n == g) && (g.cc == 0 && g.pr ==> n.rstb)
    ensures n.mux == g.mux && n.div == g.div && n.pr == g.pr
  {
    if g.cc != 0 then g else g.(cc := 1, rstb := g.rstb || g.pr)
  }

  // Everything is cleared, source and divider included.
  function Disabled(g: Gate): Gate {
    Gate(0, 0, 0, 0, 0, 0, false, g.pr)
  }

  function WithSource(g: Gate, src: nat): Gate {
    g.(mux := src % 8)
  }

  function WithDivider(g: Gate, divValue: nat): Gate {
    g.(div := divValue % 0x10)
  }

  class Gates {
    var reg: map<IpName, Gate>
    ghost var changes: seq<Change>    // every register write so far

    constructor (r: map<IpName, Gate>)
      ensures reg == r && changes == []
    {
      reg, changes := r, [];
    }

    predicate Has(name: IpName)
      reads this
    {
      name != NoGate ==> name in reg
    }

    method Store(name: IpName, w: Gate)
      requires name in reg
      modifies this
      ensures reg == old(reg)[name := Stored(old(reg)[name], w)]
      ensures changes == old(changes) + [Change(old(reg)[name], Stored(old(reg)[name], w))]
    {
      changes := changes + [Change(reg[name], Stored(reg[name], w))];
      reg := reg[name := Stored(reg[name], w)];
    }

    method EnableClock(name: IpName)
      requires Has(name)
      modifies this
      ensures name == NoGate ==> reg == old(reg)
      ensures name != NoGate ==> reg == old(reg)[name := Enabled(old(reg)[name])]
      ensures old(changes) <= changes && (Clean(old(changes)) ==> Clean(changes))
    {
      if name == NoGate || reg[name].cc != 0 {
        return;
      }
      Store(name, reg[name].(cc := 0));
      Store(name, reg[name].(cc := 1));
      if reg[name].pr {
        Store(name, reg[name].(rstb := true));
      }
    }

    method DisableClock(name: IpName)
      requires Has(name)
      modifies this
      ensures name == NoGate ==> reg == old(reg)
      ensures name != NoGate ==> reg == old(reg)[name := Disabled(old(reg)[name])]
      ensures old(changes) <= changes && (Clean(old(changes)) ==> Clean(changes))
    {
      if name == NoGate {
        return;
      }
      Store(name, Gate(0, 0, 0, 0, 0, 0, false, false));
      if reg[name].pr {
        Store(name, reg[name].(rstb := false));
      }
    }

    method SetIpSrc(name: IpName, src: nat)
      requires Has(name) && (name != NoGate ==> reg[name].pr)
      modifies this
      ensures name == NoGate ==> reg == old(reg)
      ensures name != NoGate ==> reg == old(reg)[name := WithSource(old(reg)[name], src)]
      ensures old(changes) <= changes && (Clean(old(changes)) ==> Clean(changes))
    {
      if name == NoGate {
        return;
      }
      var w := reg[name].(mux := src % 8);
      Store(name, w.(cc := 0));
      Store(name, w);
    }

    method SetIpSrcDiv(name: IpName, divValue: nat)
      requires Has(name) && (name != NoGate ==> reg[name].pr)
      modifies this
      ensures name == NoGate ==> reg == old(reg)
      ensures name != NoGate ==> reg == old(reg)[name := WithDivider(old(reg)[name], divValue)]
      ensures old(changes) <= changes && (Clean(old(changes)) ==> Clean(changes))
    {
      if name == NoGate {
        return;
      }
      var w := reg[name].(div := divValue % 0x10);
      Store(name, w.(cc := 0));
      Store(name, w);
    }
  }

  // ------------------------------------------------------------- frequencies

  const SCG_SIRC_FREQ: nat := 6000000

  // Everything a frequency depends on besides the gates.
  datatype Board = Board(regs: Regs, xtal0: nat, xtal32: nat)

  predicate Supplied(b: Board) {
    && Wf(b.regs) && b.regs.firc.range < 4
    && (b.regs.csr[Sosc].vld ==> b.xtal0 > 0) && (b.regs.csr[Rosc].vld ==> b.xtal32 > 0)
  }

  function GetSysOscFreq(b: Board): nat
    requires Supplied(b)
  {
    if b.regs.csr[Sosc].vld then b.xtal0 else 0
  }

  function GetSircFreq(b: Board): nat
    requires Supplied(b)
  {
    if b.regs.csr[Sirc].vld then SCG_SIRC_FREQ else 0
  }

  function GetFircFreq(b: Board): nat
    requires Supplied(b)
  {
    if b.regs.csr[Firc].vld then [48000000, 64000000, 96000000, 192000000][b.regs.firc.range] else 0
  }

  function GetRtcOscFreq(b: Board): nat
    requires Supplied(b)
  {
    if b.regs.csr[Rosc].vld then b.xtal32 else 0
  }

  function GetIpFreq(name: IpName, g: Gate, b: Board): nat
    requires Supplied(b) && (name != NoGate ==> g.pr)
  {
    match name
    case NoGate => 0
    case Lpi2c0 | Lpi2c1 | I3c0 | Lpspi0 | Lpspi1 | Lpit0 | Lpadc0 | Flexio0 =>
      (match g.mux
       case 2 => Quotient(GetSircFreq(b), g.div + 1)
       case 3 => Quotient(GetFircFreq(b), g.div + 1)
       case 4 => Quotient(GetSysOscFreq(b), g.div + 1)
       case _ => 0)
    case Lpuart0 | Lpuart1 | Tpm0 | Tpm1 =>
      (match g.mux
       case 2 => Quotient(GetSircFreq(b), g.div + 1)
       case 3 => Quotient(GetFircFreq(b), g.div + 1)
       case 4 => Quotient(GetSysOscFreq(b), g.div + 1)
       case 5 => Quotient(GetRtcOscFreq(b), g.div + 1)
       case _ => 0)
    case Can0 =>
      (match g.mux
       case 3 => Quotient(GetFircFreq(b), g.div + 1)
       case 4 => Quotient(GetSysOscFreq(b), g.div + 1)
       case _ => 0)
    case OtherIp(_) => 0
  }

  // ------------------------------------------ the same, as a table of sources

  // The source a multiplexer value stands for.
  function SourceOf(mux: nat): Source
    requires 2 <= mux <= 5
  {
    [Sirc, Firc, Sosc, Rosc][mux - 2]
  }

  function Nominal(s: Source, b: Board): nat
    requires b.regs.firc.range < 4
  {
    match s
    case Sosc => b.xtal0
    case Sirc => SCG_SIRC_FREQ
    case Firc => 1000000 * [48, 64, 96, 192][b.regs.firc.range]
    case Rosc => b.xtal32
  }

  predicate Serves(s: Source, name: IpName) {
    match name
    case NoGate | OtherIp(_) => false
    case Can0 => s.Firc? || s.Sosc?
    case Lpuart0 | Lpuart1 | Tpm0 | Tpm1 => true
    case _ => !s.Rosc?
  }

  function SourceFreq(s: Source, b: Board): nat
    requires Supplied(b)
  {
    if b.regs.csr[s].vld then Nominal(s, b) else 0
  }

  lemma IpFreqByTable(name: IpName, g: Gate, b: Board)
    requires Supplied(b) && (name != NoGate ==> g.pr)
    ensures GetIpFreq(name, g, b) ==
      if 2 <= g.mux <= 5 && Serves(SourceOf(g.mux), name)
      then Quotient(SourceFreq(SourceOf(g.mux), b), g.div + 1)
      else 0
  {
    assert GetSircFreq(b) == SourceFreq(Sirc, b) && GetFircFreq(b) == SourceFreq(Firc, b);
    assert GetSysOscFreq(b) == SourceFreq(Sosc, b) && GetRtcOscFreq(b) == SourceFreq(Rosc, b);
  }

  // A frequency is reported exactly for valid sources that serve the peripheral,
  // and is then the source's frequency divided by div + 1, rounded down.
  lemma IpFreqMeaning(name: IpName, g: Gate, b: Board)
    requires Supplied(b) && Fits(g) && (name != NoGate ==> g.pr)
    ensures
      var f := GetIpFreq(name, g, b);
      if 2 <= g.mux <= 5 && Serves(SourceOf(g.mux), name) && b.regs.csr[SourceOf(g.mux)].vld
      then IsFloor(f, Nominal(SourceOf(g.mux), b), g.div + 1)
      else f == 0
  {
    IpFreqByTable(name, g, b);
    NothingToDivide(g.div + 1);
  }

  lemma NothingToDivide(d: nat)
    requires d > 0
    ensures Quotient(0, d) == 0
  {}

  // Source and divider can be set in either order; the frequency that follows is
  // that of the chosen source over divValue + 1.
  lemma SourceAndDividerCommute(name: IpName, g: Gate, b: Board, src: nat, divValue: nat)
    requires Supplied(b) && Fits(g) && g.pr
    requires 2 <= src <= 5 && Serves(SourceOf(src), name) && b.regs.csr[SourceOf(src)].vld
    ensures WithDivider(WithSource(g, src), divValue) == WithSource(WithDivider(g, divValue), src)
    ensures var f := GetIpFreq(name, WithDivider(WithSource(g, src), divValue), b);
      IsFloor(f, Nominal(SourceOf(src), b), divValue % 0x10 + 1)
  {
    IpFreqMeaning(name, WithDivider(WithSource(g, src), divValue), b);
  }

  // Disabling forgets the source: enabling again brings no frequency back.
  lemma ReenabledHasNoFrequency(name: IpName, g: Gate, b: Board)
    requires Supplied(b) && Fits(g) && g.pr
    ensures GetIpFreq(name, Enabled(Disabled(g)), b) == 0
  {
    IpFreqMeaning(name, Enabled(Disabled(g)), b);
  }

  // An open gate survives disabling and enabling exactly when all it held was
  // "open, out of reset".
  lemma ReenableRestoresIff(g: Gate)
    requires Fits(g) && g.cc != 0
    ensures Enabled(Disabled(g)) == g
        <==> g.cc == 1 && g.low == 0 && g.mux == 0 && g.middle == 0 && g.div == 0 && g.high == 0 && g.rstb == g.pr
  {}

  // ------------------------------------------------------------ system clock

  datatype SysClk = SysClkSlow | SysClkBus | SysClkPlatform | SysClkCore

  datatype SysClkConfig = SysClkConfig(divSlow: nat, divBus: nat, divCore: nat, src: nat)

  predicate ConfigFits(c: SysClkConfig) {
    c.divSlow < 16 && c.divBus < 16 && c.divCore < 16 && c.src < 8
  }

  // The bit-field layout of the run control and status words.
  function ConfigWord(c: SysClkConfig): nat {
    c.divSlow + 0x10 * c.divBus + 0x1_0000 * c.divCore + 0x100_0000 * c.src
  }

  function ConfigOf(word: nat): SysClkConfig {
    SysClkConfig(word % 0x10, word / 0x10 % 0x10, word / 0x1_0000 % 0x10, word / 0x100_0000 % 8)
  }

  lemma ConfigRoundTrip(c: SysClkConfig)
    requires ConfigFits(c)
    ensures ConfigOf(ConfigWord(c)) == c && ConfigWord(c) < 0x1_0000_0000
  {
    var w := ConfigWord(c);
    var bus := c.divBus + 0x1000 * c.divCore + 0x10_0000 * c.src;
    var core := c.divCore + 0x100 * c.src;
    DivMod(w, 0x10, bus, c.divSlow);
    DivMod(bus, 0x10, 0x100 * c.divCore + 0x1_0000 * c.src, c.divBus);
    DivMod(w, 0x1_0000, core, c.divSlow + 0x10 * c.divBus);
    DivMod(core, 0x10, 0x10 * c.src, c.divCore);
    DivMod(w, 0x100_0000, c.src, c.divSlow + 0x10 * c.divBus + 0x1_0000 * c.divCore);
  }

  function MainFreq(b: Board, src: nat): nat
    requires Supplied(b)
  {
    match src
    case 1 => GetSysOscFreq(b)
    case 2 => GetSircFreq(b)
    case 3 => GetFircFreq(b)
    case 4 => GetRtcOscFreq(b)
    case _ => 24000000
  }

  // Divided by the core divider first, then by the divider of the domain.
  function GetSysClkFreq(b: Board, csr: nat, domain: SysClk): nat
    requires Supplied(b)
  {
    var c := ConfigOf(csr);
    var freq := Quotient(MainFreq(b, c.src), c.divCore + 1);
    match domain
    case SysClkSlow => Quotient(freq, c.divSlow + 1)
    case SysClkBus => Quotient(freq, c.divBus + 1)
    case SysClkPlatform | SysClkCore => freq
  }

  // The frequency of the source field's meaning; the default for reserved values.
  function SystemFreq(b: Board, src: nat): nat
    requires Supplied(b)
  {
    if 1 <= src <= 4 then SourceFreq([Sosc, Sirc, Firc, Rosc][src - 1], b) else 24000000
  }

  // The two divisions lose nothing over one division by the product.
  lemma SysClkIsOneDivision(b: Board, csr: nat, domain: SysClk)
    requires Supplied(b)
    ensures
      var core, src := csr / 0x1_0000 % 0x10, csr / 0x100_0000 % 8;
      var d := match domain case SysClkSlow => csr % 0x10 case SysClkBus => csr / 0x10 % 0x10 case _ => 0;
      IsFloor(GetSysClkFreq(b, csr, domain), SystemFreq(b, src), (core + 1) * (d + 1))
  {
    var c := ConfigOf(csr);
    var d := match domain case SysClkSlow => c.divSlow case SysClkBus => c.divBus case _ => 0;
    MainIsSystemFreq(b, c.src);
    FloorTwice(MainFreq(b, c.src), c.divCore + 1, d + 1);
  }

  lemma MainIsSystemFreq(b: Board, src: nat)
    requires Supplied(b)
    ensures MainFreq(b, src) == SystemFreq(b, src)
  {}

  lemma FloorTwice(f: nat, a: nat, b: nat)
    requires a > 0 && b > 0
    ensures IsFloor(Quotient(Quotient(f, a), b), f, a * b)
  {
    var p := Quotient(f, a);
    var q := Quotient(p, b);
    Scaled(q, b, p, a);
    Scaled(p + 1, 1, (q + 1) * b, a);
    Reordered(q + 1, a, b);
  }

  lemma Scaled(x: nat, b: nat, y: nat, a: nat)
    requires x * b <= y
    ensures x * (a * b) <= y * a
  {
    Reordered(x, a, b);
    assert x * b * a <= y * a;
  }

  lemma Reordered(x: nat, a: nat, b: nat)
    ensures x * b * a == x * (a * b)
  {}

  // No domain runs faster than the core.
  lemma DomainsNotFasterThanCore(b: Board, csr: nat, domain: SysClk)
    requires Supplied(b)
    ensures GetSysClkFreq(b, csr, domain) <= GetSysClkFreq(b, csr, SysClkCore)
  {
    var c := ConfigOf(csr);
    var core := Quotient(MainFreq(b, c.src), c.divCore + 1);
    QuotientShrinks(core, c.divSlow + 1);
    QuotientShrinks(core, c.divBus + 1);
  }

  lemma QuotientShrinks(f: nat, d: nat)
    requires d > 0
    ensures Quotient(f, d) <= f
  {
    Scale(1, d, Quotient(f, d));
  }
}
