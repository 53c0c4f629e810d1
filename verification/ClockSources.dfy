/**
 The system clock generator: one control status register per oscillator, the
 switch that picks the system clock, and what the hardware may do by itself.
 */
module ClockSources {
  import opened Wrappers

  datatype Source = Sosc | Sirc | Firc | Rosc

  // The programmable and sticky bits of a control status register. A running
  // oscillator becomes valid after `warmup` further moments.
  datatype Csr = Csr(
    en: bool, sten: bool, tren: bool, trup: bool, cm: bool, cmre: bool,
    lk: bool, err: bool, vld: bool, warmup: nat)

  // A value read from or written to such a register.
  datatype Word = Word(
    en: bool, sten: bool, tren: bool, trup: bool, cm: bool, cmre: bool,
    lk: bool, err: bool, vld: bool, sel: bool)

  const ZERO := Word(false, false, false, false, false, false, false, false, false, false)

  datatype FircConfig = FircConfig(range: nat, trimDiv: nat, trimSrc: nat, trimFine: nat, trimCoar: nat)

  datatype Regs = Regs(
    csr: map<Source, Csr>,
    current: Source,       // what the system runs from
    requested: Source,     // what it was last told to run from
    lag: nat,              // moments the switch takes once that source is valid
    firc: FircConfig)

  // One moment of hardware: the faults it detects.
  datatype Moment = Moment(faults: set<Source>)

  // How a control register drives its oscillator: the bits that start or retune it.
  datatype Drive = Drive(en: bool, sten: bool, tren: bool, trup: bool)

  // A register write by the driver, with the state of its source at that time; no
  // drive is given for a configuration register.
  datatype Access = Access(target: Source, selected: bool, locked: bool, drive: Option<Drive>)

  predicate Running(s: Source, c: Csr) {
    s.Sirc? || s.Rosc? || c.en
  }

  predicate Wf(r: Regs) {
    && (forall s: Source :: s in r.csr)
    && (forall s: Source :: r.csr[s].vld ==> Running(s, r.csr[s]))
  }

  // The system has a clock.
  predicate Steady(r: Regs)
    requires Wf(r)
  {
    r.csr[r.current].vld
  }

  function ReadCsr(r: Regs, s: Source): Word
    requires Wf(r)
  {
    var c := r.csr[s];
    Word(c.en, c.sten, c.tren, c.trup, c.cm, c.cmre, c.lk, c.err, c.vld, r.current == s)
  }

  function DriveOf(c: Csr): Drive {
    Drive(c.en, c.sten, c.tren, c.trup)
  }

  function WordDrive(w: Word): Drive {
    Drive(w.en, w.sten, w.tren, w.trup)
  }

  predicate SameDrive(c: Csr, w: Word) {
    DriveOf(c) == WordDrive(w)
  }

  // A write: VLD and SEL are read only, writing 1 clears ERR, a locked register
  // takes LK alone. A write that changes how the oscillator is driven may make it
  // invalid for a while (`keep` and `warmup` are the hardware's choice).
  function Written(s: Source, c: Csr, w: Word, keep: bool, warmup: nat): (n: Csr)
    ensures c.vld && SameDrive(c, w) && Running(s, c) ==> n.vld
    ensures n.lk == w.lk && (!c.lk ==> DriveOf(n) == WordDrive(w))
  {
    if c.lk then c.(lk := w.lk)
    else
      var runs := s.Sirc? || s.Rosc? || w.en;
      Csr(w.en, w.sten, w.tren, w.trup, w.cm, w.cmre, w.lk, c.err && !w.err,
          c.vld && runs && (keep || SameDrive(c, w)), warmup)
  }

  // What hardware may change in a register, and how far.
  predicate Settled(b: Csr, a: Csr) {
    && a.en == b.en && a.sten == b.sten && a.tren == b.tren && a.trup == b.trup
    && a.cm == b.cm && a.cmre == b.cmre && a.lk == b.lk
    && (b.vld ==> a.vld) && (b.err ==> a.err) && a.warmup <= b.warmup
    && (a.err ==> b.err || b.cm || b.tren)
  }

  // An unattended register: faults stick, a running source becomes valid in time.
  function Settle(s: Source, c: Csr, fault: bool): (n: Csr)
    ensures Settled(c, n) && (Running(s, n) <==> Running(s, c))
    ensures n.vld <==> c.vld || (Running(s, c) && c.warmup == 0)
    ensures !n.vld && Running(s, c) ==> n.warmup < c.warmup
  {
    var waiting := !c.vld && Running(s, c);
    Csr(c.en, c.sten, c.tren, c.trup, c.cm, c.cmre, c.lk, c.err || (fault && (c.cm || c.tren)),
        c.vld || (waiting && c.warmup == 0), if waiting && c.warmup > 0 then c.warmup - 1 else c.warmup)
  }

  // A requested switch completes some time after the requested source is valid.
  function Tick(r: Regs, m: Moment): Regs
    requires Wf(r)
  {
    var csr := Settling(r.csr, m.faults);
    var ready := csr[r.requested].vld;
    Regs(csr, if ready && r.lag == 0 then r.requested else r.current, r.requested,
         if ready && r.lag > 0 then r.lag - 1 else r.lag, r.firc)
  }

  function Settling(csr: map<Source, Csr>, faults: set<Source>): (n: map<Source, Csr>)
    requires forall s: Source :: s in csr
    ensures forall s: Source :: s in n && n[s] == Settle(s, csr[s], s in faults)
  {
    map s: Source | s in csr :: Settle(s, csr[s], s in faults)
  }

  lemma TickWf(r: Regs, m: Moment)
    requires Wf(r)
    ensures Wf(Tick(r, m))
  {
    var n := Tick(r, m);
    forall s: Source ensures n.csr[s].vld ==> Running(s, n.csr[s]) {
      assert n.csr[s] == Settle(s, r.csr[s], s in m.faults);
    }
  }

  function Later(r: Regs, moments: seq<Moment>): (a: Regs)
    requires Wf(r)
    ensures Wf(a)
    decreases |moments|
  {
    if moments == [] then r
    else
      TickWf(r, moments[0]);
      Later(Tick(r, moments[0]), moments[1..])
  }

  // At most the configuration of `s` was written; the rest is hardware's doing.
  predicate Touched(b: Regs, s: Source, a: Regs)
    requires Wf(b) && Wf(a)
  {
    && a.requested == b.requested
    && (forall t: Source :: t != s ==> Settled(b.csr[t], a.csr[t]))
    && (s != Firc ==> a.firc == b.firc)
    && (a.current == b.current || a.current == b.requested)
    && (a.current != b.current && a.current != s ==> a.csr[a.current].vld)
  }

  // Nothing was written.
  predicate Drifted(b: Regs, a: Regs)
    requires Wf(b) && Wf(a)
  {
    Touched(b, Sosc, a) && Touched(b, Sirc, a)
  }

  lemma LaterDrifts(r: Regs, moments: seq<Moment>)
    requires Wf(r)
    ensures Drifted(r, Later(r, moments))
    decreases |moments|
  {
    if moments != [] {
      TickWf(r, moments[0]);
      var n := Tick(r, moments[0]);
      LaterDrifts(n, moments[1..]);
      TickDrifts(r, moments[0]);
      TouchedAgain(r, Sosc, n, Later(n, moments[1..]));
      TouchedAgain(r, Sirc, n, Later(n, moments[1..]));
    }
  }

  lemma TickDrifts(r: Regs, m: Moment)
    requires Wf(r)
    ensures Wf(Tick(r, m)) && Drifted(r, Tick(r, m))
  {
    TickWf(r, m);
    var n := Tick(r, m);
    forall s: Source ensures Settled(r.csr[s], n.csr[s]) {
      assert n.csr[s] == Settle(s, r.csr[s], s in m.faults);
    }
  }

  lemma TouchedAgain(a: Regs, s: Source, b: Regs, c: Regs)
    requires Wf(a) && Wf(b) && Wf(c)
    requires Touched(a, s, b) && Touched(b, s, c)
    ensures Touched(a, s, c)
  {
    forall t: Source | t != s
      ensures Settled(a.csr[t], c.csr[t])
    {
      assert Settled(a.csr[t], b.csr[t]) && Settled(b.csr[t], c.csr[t]);
    }
  }

  lemma DriftTouches(b: Regs, a: Regs, s: Source)
    requires Wf(b) && Wf(a) && Drifted(b, a)
    ensures Touched(b, s, a)
    ensures Settled(b.csr[s], a.csr[s])
  {}

  // Configuring a source that is neither in use nor about to be used
  // leaves the system its clock.
  lemma OtherSourceKeepsClock(b: Regs, s: Source, a: Regs)
    requires Wf(b) && Wf(a) && Touched(b, s, a)
    requires b.current != s && b.requested != s
    requires Steady(b)
    ensures Steady(a) && a.current != s
  {}

  // An enabled source is valid after its start-up time.
  lemma {:induction false} WarmsUp(r: Regs, s: Source, moments: seq<Moment>)
    requires Wf(r) && Running(s, r.csr[s]) && |moments| > r.csr[s].warmup
    ensures Later(r, moments).csr[s].vld
    decreases |moments|
  {
    TickWf(r, moments[0]);
    var n := Tick(r, moments[0]);
    assert n.csr[s] == Settle(s, r.csr[s], s in moments[0].faults);
    if n.csr[s].vld {
      LaterDrifts(n, moments[1..]);
      DriftTouches(n, Later(n, moments[1..]), s);
    } else {
      WarmsUp(n, s, moments[1..]);
    }
  }

  function Store(r: Regs, s: Source, w: Word, keep: bool, warmup: nat): (a: Regs)
    requires Wf(r)
    ensures Wf(a) && Touched(r, s, a) && a.current == r.current && a.firc == r.firc
    ensures a.csr == r.csr[s := Written(s, r.csr[s], w, keep, warmup)]
  {
    var n := Written(s, r.csr[s], w, keep, warmup);
    var a := Regs(r.csr[s := n], r.current, r.requested, r.lag, r.firc);
    assert forall t: Source :: t != s ==> a.csr[t] == r.csr[t];
    a
  }

  // A write to the register of `s`, `gap` moments after it was read.
  function AccessAfter(r: Regs, s: Source, w: Word, gap: seq<Moment>): Access
    requires Wf(r)
  {
    Access(s, Later(r, gap).current == s, Later(r, gap).csr[s].lk, Some(WordDrive(w)))
  }

  // Moments a pending switch can still take.
  function Pending(r: Regs): nat
    requires Wf(r)
  {
    (if r.csr[r.requested].vld then 0 else r.csr[r.requested].warmup + 1) + r.lag
  }

  lemma SwitchNears(r: Regs, m: Moment)
    requires Wf(r) && Running(r.requested, r.csr[r.requested])
    ensures var t := Tick(r, m);
      && Wf(t) && t.requested == r.requested && Running(r.requested, t.csr[r.requested])
      && (t.current == r.requested || Pending(t) < Pending(r))
      && (r.current == r.requested ==> t.current == r.requested)
  {
    TickWf(r, m);
    var s := r.requested;
    assert Tick(r, m).csr[s] == Settle(s, r.csr[s], s in m.faults);
  }

  // A switch to a running source is over after finitely many moments.
  lemma {:induction false} SwitchCompletes(r: Regs, moments: seq<Moment>)
    requires Wf(r) && Running(r.requested, r.csr[r.requested])
    requires r.current == r.requested || |moments| > Pending(r)
    ensures Later(r, moments).current == r.requested
    decreases |moments|
  {
    if moments != [] {
      SwitchNears(r, moments[0]);
      SwitchCompletes(Tick(r, moments[0]), moments[1..]);
    }
  }

  // Selection is checked before the write. The write can still hit the running
  // source exactly when a switch to that very source is on its way at the call.
  lemma CheckedWriteHitsIff(r: Regs, s: Source, w: Word)
    requires Wf(r) && r.current != s
    ensures (exists gap: seq<Moment> :: AccessAfter(r, s, w, gap).selected)
        <==> r.requested == s && Running(s, r.csr[s])
  {
    if r.requested == s && Running(s, r.csr[s]) {
      var gap := seq(Pending(r) + 1, _ => Moment({}));
      SwitchCompletes(r, gap);
      assert AccessAfter(r, s, w, gap).selected;
    }
    forall gap: seq<Moment> | AccessAfter(r, s, w, gap).selected
      ensures r.requested == s && Running(s, r.csr[s])
    {
      PickedRuns(r, s, gap);
    }
  }

  lemma PickedRuns(r: Regs, s: Source, gap: seq<Moment>)
    requires Wf(r) && r.current != s && Later(r, gap).current == s
    ensures r.requested == s && Running(s, r.csr[s])
  {
    LaterDrifts(r, gap);
    DriftTouches(r, Later(r, gap), s);
    assert Later(r, gap).csr[s].vld;
  }
}
