/**
 Initialising, releasing and switching between the four oscillators, and what
 every sequence of such calls keeps.
 */
module Oscillators {
  import opened ClockSources
  import opened Wrappers

  datatype Status = Success | Fail | ReadOnly | Busy

  datatype Monitor = MonitorDisable | MonitorInt | MonitorReset
  datatype Enable = Enable(en: bool, sten: bool)
  datatype TrimMode = TrimNonUpdate | TrimUpdate
  datatype Trim = Trim(mode: TrimMode, src: nat, div: nat, coar: nat, fine: nat)
  datatype FircTrim = NoTrim | WithTrim(trim: Trim)

  datatype Call =
    | Release(source: Source)
    | InitSysOsc(enable: Enable, monitor: Monitor)
    | InitSirc(sten: bool)
    | InitFirc(enable: Enable, range: nat, trim: FircTrim)
    | InitRosc(monitor: Monitor)
    | SetRunModeSysClkConfig(source: Source)
    | Elapse

  function Target(c: Call): Source
    requires Configures(c)
  {
    match c
    case Release(s) => s
    case InitSysOsc(_, _) => Sosc
    case InitSirc(_) => Sirc
    case InitFirc(_, _, _) => Firc
    case InitRosc(_) => Rosc
  }

  predicate Configures(c: Call) {
    !c.SetRunModeSysClkConfig? && !c.Elapse?
  }

  function ErrMask(s: Source): Word {
    if s.Sirc? then ZERO else ZERO.(err := true)
  }

  // What an idle, unlocked register holds after de-initialisation.
  predicate Released(c: Csr) {
    !c.en && !c.sten && !c.tren && !c.trup && !c.cm && !c.cmre && !c.lk
  }

  predicate Monitored(n: Csr, m: Monitor) {
    n.cm == !m.MonitorDisable? && n.cmre == m.MonitorReset?
  }

  // What a successful initialisation promises about the register it configured.
  predicate Configured(c: Call, n: Csr)
    requires Configures(c)
  {
    match c
    case Release(s) => Released(n) && (s != Sirc ==> !n.err) && (s.Sosc? || s.Firc? ==> !n.vld)
    case InitSysOsc(e, m) => n.vld && n.en && n.sten == e.sten && Monitored(n, m)
    case InitSirc(sten) => n.vld && n.sten == sten
    case InitFirc(e, _, t) =>
      n.vld && n.en && n.sten == e.sten && n.tren == t.WithTrim? && n.trup == (t.WithTrim? && t.trim.mode.TrimUpdate?)
    case InitRosc(m) => n.vld && Monitored(n, m)
  }

  // New driver writes all go to `s`, never while locked, and while selected only
  // if a switch to `s` was on its way.
  predicate Guarded(b: Regs, s: Source, written: seq<Access>) {
    forall w <- written :: w.target == s && !w.locked && (w.selected ==> b.requested == s)
  }

  const OFF := Drive(false, false, false, false)

  // How the control register is driven by the writes of a call, one after the other.
  function Program(c: Call): seq<Drive>
    requires Configures(c)
  {
    match c
    case Release(_) => [OFF]
    case InitSysOsc(e, _) => [OFF, Drive(true, e.sten, false, false), Drive(true, e.sten, false, false)]
    case InitSirc(sten) => [OFF, Drive(false, sten, false, false)]
    case InitFirc(e, _, NoTrim) => [OFF, Drive(true, e.sten, false, false)]
    case InitFirc(e, _, WithTrim(t)) =>
      [OFF, Drive(false, false, true, t.mode.TrimUpdate?), Drive(true, e.sten, true, t.mode.TrimUpdate?)]
    case InitRosc(_) => [OFF, OFF]
  }

  function Drives(written: seq<Access>): seq<Drive> {
    if written == [] then []
    else
      var last := written[|written| - 1];
      Drives(written[..|written| - 1]) + if last.drive.Some? then [last.drive.value] else []
  }

  lemma DrivesAppend(written: seq<Access>, w: Access)
    ensures Drives(written + [w]) == Drives(written) + if w.drive.Some? then [w.drive.value] else []
  {
    assert (written + [w])[..|written|] == written;
  }

  predicate Runs(s: Source, d: Drive) {
    s.Sirc? || s.Rosc? || d.en
  }

  function LastDrive(d: Drive, ds: seq<Drive>): Drive {
    if ds == [] then d else ds[|ds| - 1]
  }

  // Some write changes how a source that runs is driven.
  predicate Exposed(s: Source, d: Drive, ds: seq<Drive>) {
    ds != []
    && var front := ds[..|ds| - 1];
       Exposed(s, d, front) || (Runs(s, LastDrive(d, front)) && ds[|ds| - 1] != LastDrive(d, front))
  }

  // Unless a switch to `s` is pending and its writes are of that kind, the system
  // keeps its clock.
  predicate Calm(b: Regs, s: Source, a: Regs, ds: seq<Drive>)
    requires Wf(b) && Wf(a)
  {
    Steady(b) && !(b.requested == s && Exposed(s, DriveOf(b.csr[s]), ds)) ==> Steady(a)
  }

  // The result of one call: final registers, status and the writes it made.
  predicate Outcome(b: Regs, c: Call, status: Status, a: Regs, written: seq<Access>)
    requires Wf(b)
  {
    && Wf(a)
    && match c
       case SetRunModeSysClkConfig(s) => status == Success && a == b.(requested := s, lag := a.lag) && written == []
       case Elapse => status == Success && Drifted(b, a) && written == []
       case _ =>
         var s := Target(c);
         if b.current == s then status == Busy && a == b && written == []
         else if b.csr[s].lk then status == ReadOnly && a == b && written == []
         else
           && Touched(b, s, a) && Guarded(b, s, written) && written != []
           && (status == Success || status == Fail)
           && (status == Success ==> Configured(c, a.csr[s]) && Drives(written) == Program(c))
           && (status == Fail ==> Drives(written) <= Program(c) && a.csr[s].err)
           && FircTaken(c, status, b, a) && Calm(b, s, a, Drives(written))
  }

  // Only trimming can fail; FIRC's configuration is what was asked for, except
  // that setting a fine trim resets the coarse one.
  predicate FircTaken(c: Call, status: Status, b: Regs, a: Regs) {
    match c
    case InitFirc(_, range, NoTrim) => status == Success && a.firc == b.firc.(range := range % 4)
    case InitFirc(_, range, WithTrim(t)) => a.firc == Trimmed(b.firc.(range := range % 4), t)
    case _ => status == Success && a.firc == b.firc
  }

  function Trimmed(f: FircConfig, t: Trim): FircConfig {
    if t.mode.TrimNonUpdate?
    then FircConfig(f.range, t.div % 0x800, t.src % 4, t.fine % 0x100, 0)
    else FircConfig(f.range, t.div % 0x800, t.src % 4, f.trimFine, f.trimCoar)
  }

  // The coarse trim a caller asks for: an 8-bit value for a field of 6 bits.
  predicate CoarseTrimTaken(t: Trim, a: Regs) {
    a.firc.trimCoar == t.coar % 0x40
  }

  // A successful initialisation in the fixed-trim mode leaves the coarse trim that
  // was asked for exactly when that is zero.
  lemma CoarseTrimTakenIff(b: Regs, c: Call, a: Regs, written: seq<Access>)
    requires Wf(b) && c.InitFirc? && c.trim.WithTrim? && c.trim.trim.mode.TrimNonUpdate?
    requires Outcome(b, c, Success, a, written)
    ensures CoarseTrimTaken(c.trim.trim, a) <==> c.trim.trim.coar % 0x40 == 0
  {}

  // ---------------------------------------------------------------- whole runs

  datatype Step = Step(call: Call, status: Status, after: Regs, written: seq<Access>)

  predicate IsRun(b: Regs, run: seq<Step>)
    decreases |run|
  {
    && Wf(b)
    && (run != [] ==>
          && Outcome(b, run[0].call, run[0].status, run[0].after, run[0].written)
          && IsRun(run[0].after, run[1..]))
  }

  // A source being switched to is configured again only once the switch is done.
  predicate Settles(b: Regs, c: Call) {
    Configures(c) && b.requested == Target(c) ==> b.current == Target(c)
  }

  predicate Patient(b: Regs, run: seq<Step>)
    decreases |run|
  {
    run != [] ==> Settles(b, run[0].call) && Patient(run[0].after, run[1..])
  }

  predicate Safe(written: seq<Access>) {
    forall w <- written :: !w.selected && !w.locked
  }

  lemma CallKeepsClock(b: Regs, c: Call, status: Status, a: Regs, written: seq<Access>)
    requires Wf(b) && Outcome(b, c, status, a, written)
    requires Steady(b) && Settles(b, c)
    ensures Steady(a) && Safe(written)
  {
    if Configures(c) && written != [] {
      OtherSourceKeepsClock(b, Target(c), a);
    }
  }

  // Over every patient run the system keeps a valid clock, and no control
  // register is written while its source is in use or locked.
  lemma {:induction false} RunKeepsClock(b: Regs, run: seq<Step>, k: nat)
    requires IsRun(b, run) && Steady(b) && Patient(b, run) && k < |run|
    ensures Wf(run[k].after) && Steady(run[k].after) && Safe(run[k].written)
    decreases |run|
  {
    var first := run[0];
    CallKeepsClock(b, first.call, first.status, first.after, first.written);
    if k > 0 {
      RunKeepsClock(first.after, run[1..], k - 1);
    }
  }

  // ------------------------------------------------------------------ a write

  // The register took the written value; it is valid only if it runs.
  predicate Holds(s: Source, n: Csr, w: Word) {
    && n.en == w.en && n.sten == w.sten && n.tren == w.tren && n.trup == w.trup
    && n.cm == w.cm && n.cmre == w.cmre && n.lk == w.lk && (w.err ==> !n.err)
    && (n.vld ==> Running(s, n))
  }

  function WriteAfter(b: Regs, s: Source, w: Word, gap: seq<Moment>, keep: bool, warmup: nat): Regs
    requires Wf(b)
  {
    Store(Later(b, gap), s, w, keep, warmup)
  }

  lemma WriteEffect(b: Regs, s: Source, w: Word, gap: seq<Moment>, keep: bool, warmup: nat)
    requires Wf(b) && !b.csr[s].lk && (b.current == s ==> b.requested == s)
    ensures var a := WriteAfter(b, s, w, gap, keep, warmup);
      && Wf(a) && Touched(b, s, a) && Holds(s, a.csr[s], w) && a.firc == b.firc
      && (a.csr[s].err ==> b.csr[s].err || b.csr[s].cm || b.csr[s].tren)
      && Guarded(b, s, [AccessAfter(b, s, w, gap)])
  {
    var m := Later(b, gap);
    LaterDrifts(b, gap);
    DriftTouches(b, m, s);
    TouchedAgain(b, s, m, WriteAfter(b, s, w, gap, keep, warmup));
    CheckedWrite(b, s, w, gap);
  }

  lemma ReleaseEffect(b: Regs, s: Source, gap: seq<Moment>, keep: bool, warmup: nat)
    requires Wf(b) && !b.csr[s].lk && b.current != s
    ensures Outcome(b, Release(s), Success, WriteAfter(b, s, ErrMask(s), gap, keep, warmup),
                    [AccessAfter(b, s, ErrMask(s), gap)])
  {
    WriteEffect(b, s, ErrMask(s), gap, keep, warmup);
    DrivesAppend([], AccessAfter(b, s, ErrMask(s), gap));
    assert [] + [AccessAfter(b, s, ErrMask(s), gap)] == [AccessAfter(b, s, ErrMask(s), gap)];
    var a, w := WriteAfter(b, s, ErrMask(s), gap, keep, warmup), AccessAfter(b, s, ErrMask(s), gap);
    assert Configured(Release(s), a.csr[s]);
    WriteStops(b, s, ErrMask(s), gap, keep, warmup);
    CalmStep(b, s, b, [], a, w);
    assert [] + [w.drive.value] == Drives([w]);
  }

  lemma CheckedWrite(b: Regs, s: Source, w: Word, gap: seq<Moment>)
    requires Wf(b)
    ensures AccessAfter(b, s, w, gap).selected ==> b.current == s || b.requested == s
    ensures AccessAfter(b, s, w, gap).locked == b.csr[s].lk
  {
    LaterDrifts(b, gap);
    DriftTouches(b, Later(b, gap), s);
  }

  // A call that has released `s` and is still configuring it.
  predicate Ongoing(b: Regs, s: Source, r: Regs, written: seq<Access>)
    requires Wf(b)
  {
    && Wf(r) && Touched(b, s, r) && Guarded(b, s, written) && written != []
    && !r.csr[s].lk && (r.current == s ==> b.requested == s)
    && DriveOf(r.csr[s]) == LastDrive(DriveOf(b.csr[s]), Drives(written)) && Calm(b, s, r, Drives(written))
  }

  // One more access: of the control register, with a drive, or of another one.
  lemma OngoingStep(b: Regs, s: Source, r: Regs, written: seq<Access>, n: Regs, w: Access)
    requires Wf(b) && Ongoing(b, s, r, written) && Wf(n)
    requires Touched(r, s, n) && Guarded(r, s, [w]) && !n.csr[s].lk
    requires Steady(r) && !Steady(n) ==> StopsAt(r, s, w)
    requires DriveOf(n.csr[s]) == if w.drive.Some? then w.drive.value else DriveOf(r.csr[s])
    ensures Ongoing(b, s, n, written + [w])
  {
    TouchedAgain(b, s, r, n);
    DrivesAppend(written, w);
    CalmStep(b, s, r, Drives(written), n, w);
  }

  // The write changes the drive of a source that runs and provides the clock, or is
  // about to.
  predicate StopsAt(r: Regs, s: Source, w: Access)
    requires Wf(r)
  {
    && (r.current == s || r.requested == s) && Runs(s, DriveOf(r.csr[s]))
    && w.drive.Some? && w.drive.value != DriveOf(r.csr[s])
  }

  lemma CalmStep(b: Regs, s: Source, r: Regs, ds: seq<Drive>, n: Regs, w: Access)
    requires Wf(b) && Wf(r) && Wf(n) && Calm(b, s, r, ds)
    requires DriveOf(r.csr[s]) == LastDrive(DriveOf(b.csr[s]), ds)
    requires r.requested == b.requested && (r.current == s ==> b.requested == s)
    requires Steady(r) && !Steady(n) ==> StopsAt(r, s, w)
    ensures Calm(b, s, n, ds + if w.drive.Some? then [w.drive.value] else [])
  {
    if w.drive.Some? {
      assert (ds + [w.drive.value])[..|ds|] == ds;
    } else {
      assert ds + [] == ds;
    }
  }

  lemma WriteOn(m: Regs, s: Source, w: Word, keep: bool, warmup: nat)
    requires Wf(m) && !m.csr[s].lk && !w.lk
    ensures var a := Store(m, s, w, keep, warmup);
      && Wf(a) && !a.csr[s].lk && DriveOf(a.csr[s]) == WordDrive(w)
      && a.requested == m.requested && a.current == m.current
      && (Steady(m) && !Steady(a) ==> m.current == s && !SameDrive(m.csr[s], w))
  {}

  lemma StillSteady(b: Regs, s: Source, gap: seq<Moment>)
    requires Wf(b) && Steady(b)
    ensures Steady(Later(b, gap))
    ensures Later(b, gap).current == s ==> (b.current == s || b.requested == s) && Runs(s, DriveOf(b.csr[s]))
  {
    LaterDrifts(b, gap);
    DriftTouches(b, Later(b, gap), s);
    DriftTouches(b, Later(b, gap), b.current);
    if b.current != s && Later(b, gap).current == s {
      PickedRuns(b, s, gap);
    }
  }

  // A write takes the clock away only in that way.
  lemma WriteStops(b: Regs, s: Source, w: Word, gap: seq<Moment>, keep: bool, warmup: nat)
    requires Wf(b) && !b.csr[s].lk && !w.lk
    ensures var a := WriteAfter(b, s, w, gap, keep, warmup);
      Wf(a) && (Steady(b) && !Steady(a) ==> StopsAt(b, s, AccessAfter(b, s, w, gap)))
  {
    LaterDrifts(b, gap);
    DriftTouches(b, Later(b, gap), s);
    WriteOn(Later(b, gap), s, w, keep, warmup);
    if Steady(b) {
      StillSteady(b, s, gap);
    }
  }

  lemma DriftSteady(r: Regs, n: Regs)
    requires Wf(r) && Wf(n) && Drifted(r, n) && Steady(r)
    ensures Steady(n)
  {
    DriftTouches(r, n, r.current);
  }

  lemma OngoingDrift(b: Regs, s: Source, r: Regs, written: seq<Access>, n: Regs)
    requires Wf(b) && Ongoing(b, s, r, written) && Wf(n) && Drifted(r, n)
    ensures Ongoing(b, s, n, written)
    ensures Settled(r.csr[s], n.csr[s]) && n.firc == r.firc
  {
    DriftTouches(r, n, s);
    TouchedAgain(b, s, r, n);
    if Steady(r) {
      DriftSteady(r, n);
    }
  }

  predicate Undriven(b: Regs, a: Regs)
    requires Wf(b) && Wf(a)
  {
    (forall t: Source :: Settled(b.csr[t], a.csr[t])) && a.firc == b.firc
  }

  predicate Switched(b: Regs, s: Source, a: Regs)
    requires Wf(b)
  {
    Wf(a) && Steady(a) && a.current == s && a.requested == s && Undriven(b, a)
  }

  lemma UndrivenAgain(b: Regs, r: Regs, a: Regs)
    requires Wf(b) && Wf(r) && Wf(a) && Undriven(b, r) && Drifted(r, a)
    ensures Undriven(b, a)
  {
    forall t: Source ensures Settled(b.csr[t], a.csr[t]) {
      DriftTouches(r, a, t);
      assert Settled(b.csr[t], r.csr[t]);
    }
  }

  lemma PendingShrinks(r: Regs, moments: seq<Moment>)
    requires Wf(r) && moments != [] && Running(r.requested, r.csr[r.requested])
    ensures Later(r, moments).current == r.requested || Pending(Later(r, moments)) < Pending(r)
    decreases |moments|
  {
    SwitchNears(r, moments[0]);
    var t := Tick(r, moments[0]);
    if moments[1..] != [] {
      if t.current == r.requested {
        SwitchCompletes(t, moments[1..]);
      } else {
        PendingShrinks(t, moments[1..]);
      }
    }
  }

  // What an initialisation set up stays so while others are configured.
  lemma StaysConfigured(c: Call, b: Csr, a: Csr)
    requires Configures(c) && !c.Release? && Configured(c, b) && Settled(b, a)
    ensures Configured(c, a)
  {}

  predicate RunsFrom(s: Source, r: Regs) {
    Wf(r) && Steady(r) && r.current == s && r.requested == s
  }

  predicate OthersSettled(b: Regs, except: set<Source>, a: Regs)
    requires Wf(b) && Wf(a)
  {
    forall t: Source :: t !in except ==> Settled(b.csr[t], a.csr[t])
  }

  lemma OthersSettledTwice(b: Regs, r: Regs, s: Source, a: Regs)
    requires Wf(b) && Wf(r) && Wf(a) && Undriven(b, r) && OthersSettled(r, {s}, a)
    ensures OthersSettled(b, {s}, a)
  {
    forall t: Source | t != s ensures Settled(b.csr[t], a.csr[t]) {
      assert Settled(b.csr[t], r.csr[t]) && Settled(r.csr[t], a.csr[t]);
    }
  }

  // Setting up an unlocked source the system neither uses nor is about to use.
  lemma SetUpOther(b: Regs, c: Call, status: Status, a: Regs, written: seq<Access>)
    requires Wf(b) && Configures(c) && Outcome(b, c, status, a, written)
    requires RunsFrom(b.current, b) && b.current != Target(c) && !b.csr[Target(c)].lk
    ensures status == Success || (status == Fail && c.InitFirc? && c.trim.WithTrim? && a.csr[Firc].err)
    ensures RunsFrom(b.current, a) && Safe(written) && OthersSettled(b, {Target(c)}, a)
    ensures status == Success ==> Configured(c, a.csr[Target(c)])
    ensures a.firc.range == if c.InitFirc? then c.range % 4 else b.firc.range
  {
    CallKeepsClock(b, c, status, a, written);
  }

  // The source is unlocked, other locks are as they were, and the system keeps its
  // clock even if this source provides it.
  predicate Unlocked(b: Regs, s: Source, a: Regs)
    requires Wf(b)
  {
    Wf(a) && Steady(a) && !a.csr[s].lk && forall t: Source :: t != s ==> a.csr[t].lk == b.csr[t].lk
  }

  lemma UnlockEffect(b: Regs, s: Source, gap: seq<Moment>, keep: bool, warmup: nat)
    requires Wf(b) && Steady(b)
    ensures Unlocked(b, s, WriteAfter(b, s, ReadCsr(b, s).(lk := false), gap, keep, warmup))
  {
    LaterDrifts(b, gap);
    DriftTouches(b, Later(b, gap), s);
    DriftTouches(b, Later(b, gap), b.current);
    Rewritten(Later(b, gap), s, ReadCsr(b, s).(lk := false), keep, warmup);
  }

  // A write that keeps the drive keeps the oscillator valid.
  lemma Rewritten(m: Regs, s: Source, w: Word, keep: bool, warmup: nat)
    requires Wf(m) && Steady(m) && SameDrive(m.csr[s], w) && !w.lk
    ensures var a := Store(m, s, w, keep, warmup);
      Wf(a) && Steady(a) && !a.csr[s].lk && forall t: Source :: t != s ==> a.csr[t] == m.csr[t]
  {
    var n := Written(s, m.csr[s], w, keep, warmup);
    assert m.csr[s].vld ==> n.vld;
  }

  lemma FircWritten(b: Regs, r: Regs, written: seq<Access>, m: Regs, f: FircConfig)
    requires Wf(b) && Ongoing(b, Firc, r, written) && Wf(m) && Drifted(r, m)
    ensures var w := Access(Firc, m.current == Firc, m.csr[Firc].lk, None);
      && Ongoing(b, Firc, m.(firc := f), written + [w]) && Drives(written + [w]) == Drives(written)
    ensures Settled(r.csr[Firc], m.csr[Firc])
  {
    OngoingDrift(b, Firc, r, written, m);
    DriftTouches(r, m, Firc);
    var w := Access(Firc, m.current == Firc, m.csr[Firc].lk, None);
    assert Guarded(m, Firc, [w]);
    assert Touched(m, Firc, m.(firc := f));
    OngoingStep(b, Firc, m, written, m.(firc := f), w);
    DrivesAppend(written, w);
  }

  // A call that has made all its writes and seen its source valid.
  lemma Completed(b: Regs, c: Call, a: Regs, written: seq<Access>)
    requires Wf(b) && Configures(c) && b.current != Target(c) && !b.csr[Target(c)].lk
    requires Ongoing(b, Target(c), a, written) && Configured(c, a.csr[Target(c)])
    requires Drives(written) == Program(c) && FircTaken(c, Success, b, a)
    ensures Outcome(b, c, Success, a, written)
  {}

  // The verdict on a trim: the mode was written, FIRC not yet enabled, and the status is
  // the error flag's.
  predicate TrimJudged(t: Trim, status: Status, atRead: Regs) {
    && Wf(atRead) && DriveOf(atRead.csr[Firc]) == Drive(false, false, true, t.mode.TrimUpdate?)
    && (status == Fail <==> atRead.csr[Firc].err) && (status == Success <==> !atRead.csr[Firc].err)
  }

  lemma FailedTrim(b: Regs, c: Call, a: Regs, written: seq<Access>)
    requires Wf(b) && c.InitFirc? && c.trim.WithTrim? && b.current != Firc && !b.csr[Firc].lk
    requires Ongoing(b, Firc, a, written)
    requires Drives(written) <= Program(c) && FircTaken(c, Fail, b, a) && a.csr[Firc].err
    ensures Outcome(b, c, Fail, a, written)
  {}

  class Scg {
    var regs: Regs
    ghost var written: seq<Access>     // the writes of the call in progress
    ghost var faulted: set<Source>     // the sources hardware found a fault in since it began

    constructor (r: Regs)
      requires Wf(r)
      ensures regs == r && written == []
    {
      regs, written, faulted := r, [], {};
    }

    // One moment or more of oscillators and clock switch left to themselves.
    method Hardware() returns (ghost gap: seq<Moment>)
      requires Wf(regs)
      modifies this`regs, this`faulted
      ensures gap != [] && Wf(regs) && regs == Later(old(regs), gap)
      ensures Drifted(old(regs), regs) && faulted == old(faulted) + FaultsIn(gap)
      ensures forall s: Source :: regs.csr[s].err ==> old(regs).csr[s].err || s in faulted
      ensures forall s: Source :: Running(s, old(regs).csr[s]) && !regs.csr[s].vld ==>
        regs.csr[s].warmup < old(regs).csr[s].warmup
    {
      var first: Moment, more: seq<Moment> := *, *;
      var moments := [first] + more;
      gap := moments;
      faulted := faulted + FaultsIn(moments);
      forall s: Source ensures Later(regs, moments).csr[s].err ==> regs.csr[s].err || s in FaultsIn(moments) {
        ErrorsAreFaults(regs, moments, s);
      }
      regs := Later(regs, moments);
      LaterProgresses(old(regs), moments);
      LaterDrifts(old(regs), moments);
    }

    // Hardware goes on between reading a register and writing it.
    method Write(s: Source, w: Word) returns (ghost gap: seq<Moment>, ghost keep: bool, ghost warmup: nat)
      requires Wf(regs)
      modifies this
      ensures regs == WriteAfter(old(regs), s, w, gap, keep, warmup)
      ensures written == old(written) + [AccessAfter(old(regs), s, w, gap)]
    {
      gap := Hardware();
      written := written + [Access(s, regs.current == s, regs.csr[s].lk, Some(WordDrive(w)))];
      var k: bool, n: nat := *, *;
      regs := Store(regs, s, w, k, n);
      keep, warmup := k, n;
    }

    // De-initialisation, the same for each source up to its error mask.
    method Deinit(s: Source) returns (status: Status)
      requires Wf(regs)
      modifies this
      ensures Outcome(old(regs), Release(s), status, regs, written)
      ensures status == Success ==> exists gap, keep, warmup ::
        && regs == WriteAfter(old(regs), s, ErrMask(s), gap, keep, warmup)
        && written == [AccessAfter(old(regs), s, ErrMask(s), gap)]
    {
      written, faulted := [], {};
      var reg := ReadCsr(regs, s);
      if reg.sel {
        return Busy;
      }
      if reg.lk {
        return ReadOnly;
      }
      ghost var gap, keep, warmup := Write(s, ErrMask(s));
      ReleaseEffect(old(regs), s, gap, keep, warmup);
      return Success;
    }

    // One more write of a call that has already released `s`.
    method Configure(ghost b: Regs, s: Source, w: Word)
      requires Wf(b) && Ongoing(b, s, regs, written) && !w.lk
      modifies this
      ensures Ongoing(b, s, regs, written)
      ensures Holds(s, regs.csr[s], w) && regs.firc == old(regs).firc
      ensures Drives(written) == Drives(old(written)) + [WordDrive(w)]
      ensures regs.csr[s].err ==> old(regs).csr[s].err || old(regs).csr[s].cm || old(regs).csr[s].tren
    {
      ghost var gap, keep, warmup := Write(s, w);
      WriteEffect(old(regs), s, w, gap, keep, warmup);
      WriteStops(old(regs), s, w, gap, keep, warmup);
      OngoingStep(b, s, old(regs), old(written), regs, AccessAfter(old(regs), s, w, gap));
      DrivesAppend(old(written), AccessAfter(old(regs), s, w, gap));
    }

    // Polls VLD; the oscillator needs finitely many moments to start.
    method AwaitValid(ghost b: Regs, s: Source)
      requires Wf(b) && Ongoing(b, s, regs, written) && Running(s, regs.csr[s])
      modifies this
      ensures Ongoing(b, s, regs, written)
      ensures regs.csr[s].vld && Settled(old(regs).csr[s], regs.csr[s]) && regs.firc == old(regs).firc
      ensures written == old(written)
    {
      while !ReadCsr(regs, s).vld
        invariant Ongoing(b, s, regs, written) && written == old(written)
        invariant Settled(old(regs).csr[s], regs.csr[s]) && regs.firc == old(regs).firc
        invariant Running(s, regs.csr[s])
        decreases if regs.csr[s].vld then 0 else regs.csr[s].warmup + 1
      {
        ghost var before := regs;
        ghost var gap := Hardware();
        OngoingDrift(b, s, before, written, regs);
      }
    }

    // Reads the register and writes it back with another monitor mode.
    method SetMonitorMode(ghost b: Regs, s: Source, monitor: Monitor)
      requires Wf(b) && Ongoing(b, s, regs, written)
      modifies this
      ensures Ongoing(b, s, regs, written)
      ensures Monitored(regs.csr[s], monitor) && DriveOf(regs.csr[s]) == DriveOf(old(regs).csr[s])
      ensures regs.firc == old(regs).firc && Drives(written) == Drives(old(written)) + [DriveOf(old(regs).csr[s])]
    {
      var reg := ReadCsr(regs, s);
      Configure(b, s, reg.(cm := !monitor.MonitorDisable?, cmre := monitor.MonitorReset?));
    }

    method InitSysOsc(enable: Enable, monitor: Monitor) returns (status: Status)
      requires Wf(regs)
      modifies this
      ensures Outcome(old(regs), Call.InitSysOsc(enable, monitor), status, regs, written)
    {
      status := Deinit(Sosc);
      if status != Success {
        return status;
      }
      StartSysOsc(old(regs), enable, monitor);
    }

    // From the released register on.
    method StartSysOsc(ghost b: Regs, enable: Enable, monitor: Monitor)
      requires Wf(b) && b.current != Sosc && !b.csr[Sosc].lk && regs.firc == b.firc
      requires Ongoing(b, Sosc, regs, written) && Drives(written) == [OFF]
      modifies this
      ensures Outcome(b, Call.InitSysOsc(enable, monitor), Success, regs, written)
    {
      ghost var c := Call.InitSysOsc(enable, monitor);
      Configure(b, Sosc, ZERO.(sten := enable.sten, en := true));
      assert Drives(written) == Program(c)[..2];
      SetMonitorMode(b, Sosc, monitor);
      assert Drives(written) == Program(c);
      AwaitValid(b, Sosc);
      Completed(b, c, regs, written);
    }

    method InitSirc(sten: bool) returns (status: Status)
      requires Wf(regs)
      modifies this
      ensures Outcome(old(regs), Call.InitSirc(sten), status, regs, written)
    {
      status := Deinit(Sirc);
      if status != Success {
        return status;
      }
      ghost var b, c := old(regs), Call.InitSirc(sten);
      assert Drives(written) == Program(c)[..1];
      Configure(b, Sirc, ZERO.(sten := sten));
      assert Drives(written) == Program(c);
      AwaitValid(b, Sirc);
      Completed(b, c, regs, written);
    }

    method InitRosc(monitor: Monitor) returns (status: Status)
      requires Wf(regs)
      modifies this
      ensures Outcome(old(regs), Call.InitRosc(monitor), status, regs, written)
    {
      status := Deinit(Rosc);
      if status != Success {
        return status;
      }
      ghost var b, c := old(regs), Call.InitRosc(monitor);
      assert Drives(written) == Program(c)[..1];
      SetMonitorMode(b, Rosc, monitor);
      assert Drives(written) == Program(c);
      AwaitValid(b, Rosc);
      Completed(b, c, regs, written);
    }

    // A write to one of FIRC's own configuration registers.
    method ConfigureFirc(ghost b: Regs, f: FircConfig)
      requires Wf(b) && Ongoing(b, Firc, regs, written)
      modifies this
      ensures Ongoing(b, Firc, regs, written)
      ensures Settled(old(regs).csr[Firc], regs.csr[Firc]) && regs.firc == f
      ensures Drives(written) == Drives(old(written))
    {
      ghost var gap := Hardware();
      FircWritten(b, old(regs), written, regs, f);
      written := written + [Access(Firc, regs.current == Firc, regs.csr[Firc].lk, None)];
      regs := regs.(firc := f);
    }

    // With a trim, the call fails exactly if the error flag is set when it is read after
    // the trim mode was written (atRead), which takes a fault of FIRC.
    method InitFirc(enable: Enable, range: nat, trim: FircTrim) returns (status: Status, ghost atRead: Regs)
      requires Wf(regs)
      modifies this
      ensures Outcome(old(regs), Call.InitFirc(enable, range, trim), status, regs, written)
      ensures old(regs).current != Firc && !old(regs).csr[Firc].lk && trim.WithTrim? ==>
        TrimJudged(trim.trim, status, atRead)
      ensures status == Fail ==> regs == atRead && Firc in faulted
    {
      atRead := regs;
      status := Deinit(Firc);
      if status != Success {
        return status, atRead;
      }
      status, atRead := StartFirc(old(regs), enable, range, trim);
    }

    // From the released register on.
    method StartFirc(ghost b: Regs, enable: Enable, range: nat, trim: FircTrim)
      returns (status: Status, ghost atRead: Regs)
      requires Wf(b) && b.current != Firc && !b.csr[Firc].lk && regs.firc == b.firc
      requires Ongoing(b, Firc, regs, written) && Released(regs.csr[Firc]) && Drives(written) == [OFF]
      requires !regs.csr[Firc].err
      modifies this
      ensures Outcome(b, Call.InitFirc(enable, range, trim), status, regs, written)
      ensures trim.WithTrim? ==> TrimJudged(trim.trim, status, atRead)
      ensures status == Fail ==> regs == atRead && Firc in faulted
    {
      ghost var c := Call.InitFirc(enable, range, trim);
      ConfigureFirc(b, regs.firc.(range := range % 4));
      atRead := regs;
      if trim.WithTrim? {
        TrimFirc(b, trim.trim);
        assert Drives(written) == Program(c)[..2];
        atRead := regs;
        if ReadCsr(regs, Firc).err {
          FailedTrim(b, c, regs, written);
          return Fail, atRead;
        }
      }
      EnableFirc(b, c, enable);
      status := Success;
    }

    // Time between two accesses of a call.
    method Elapse(ghost b: Regs, s: Source)
      requires Wf(b) && Ongoing(b, s, regs, written)
      modifies this
      ensures Ongoing(b, s, regs, written) && written == old(written)
      ensures Settled(old(regs).csr[s], regs.csr[s]) && regs.firc == old(regs).firc
      ensures regs.csr[s].err ==> old(regs).csr[s].err || s in faulted
    {
      ghost var before := regs;
      ghost var gap := Hardware();
      OngoingDrift(b, s, before, written, regs);
    }

    // The last step: FIRC on, and wait.
    method EnableFirc(ghost b: Regs, ghost c: Call, enable: Enable)
      requires Wf(b) && b.current != Firc && !b.csr[Firc].lk
      requires c.InitFirc? && c.enable == enable && FircTaken(c, Success, b, regs)
      requires Ongoing(b, Firc, regs, written) && Drives(written) == Program(c)[..|Program(c)| - 1]
      requires DriveOf(regs.csr[Firc]) == Drives(written)[|Drives(written)| - 1]
      modifies this
      ensures Outcome(b, c, Success, regs, written)
    {
      var reg := ReadCsr(regs, Firc);
      Configure(b, Firc, reg.(en := true, sten := reg.sten || enable.sten));
      assert Drives(written) == Program(c);
      AwaitValid(b, Firc);
      Completed(b, c, regs, written);
    }

    // The trim configuration and mode, and the time they take to show.
    method TrimFirc(ghost b: Regs, t: Trim)
      requires Wf(b) && Ongoing(b, Firc, regs, written) && Released(regs.csr[Firc]) && !regs.csr[Firc].err
      modifies this
      ensures Ongoing(b, Firc, regs, written) && (regs.csr[Firc].err ==> Firc in faulted)
      ensures DriveOf(regs.csr[Firc]) == Drive(false, false, true, t.mode.TrimUpdate?)
      ensures Drives(written) == Drives(old(written)) + [Drive(false, false, true, t.mode.TrimUpdate?)]
      ensures regs.firc == Trimmed(old(regs).firc, t)
    {
      ConfigureFirc(b, regs.firc.(trimDiv := t.div % 0x800, trimSrc := t.src % 4));
      if t.mode.TrimNonUpdate? {
        ConfigureFirc(b, regs.firc.(trimFine := t.fine % 0x100, trimCoar := 0));
      }
      Configure(b, Firc, ZERO.(tren := true, trup := t.mode.TrimUpdate?));
      Elapse(b, Firc);
    }

    method SetRunModeSysClkConfig(source: Source)
      requires Wf(regs)
      modifies this
      ensures Outcome(old(regs), Call.SetRunModeSysClkConfig(source), Success, regs, written)
    {
      written := [];
      var lag: nat := *;
      regs := regs.(requested := source, lag := lag);
    }

    // Requests a source and waits until the system runs from it.
    method SwitchTo(source: Source)
      requires Wf(regs) && Steady(regs) && Running(source, regs.csr[source])
      modifies this
      ensures Switched(old(regs), source, regs)
    {
      SetRunModeSysClkConfig(source);
      while regs.current != source
        invariant Wf(regs) && regs.requested == source && Running(source, regs.csr[source])
        invariant regs.current == old(regs).current || regs.csr[source].vld
        invariant regs.current == old(regs).current || regs.current == source
        invariant Undriven(old(regs), regs)
        decreases regs.current != source, Pending(regs)
      {
        ghost var before := regs;
        ghost var gap := Hardware();
        UndrivenAgain(old(regs), before, regs);
        PendingShrinks(before, gap);
      }
    }

    // FIRC is configured while the system runs from SIRC.
    method FircSafeConfig(firc: Call) returns (status: Status)
      requires firc.InitFirc? && Wf(regs) && Steady(regs) && !regs.csr[Firc].lk
      modifies this
      ensures RunsFrom(Sirc, regs) && OthersSettled(old(regs), {Firc}, regs)
      ensures status == Success ==> Configured(firc, regs.csr[Firc]) && regs.firc.range == firc.range % 4
      ensures status != Success ==> status == Fail && firc.trim.WithTrim? && regs.csr[Firc].err && Firc in faulted
    {
      SwitchTo(Sirc);
      ghost var b := regs;
      ghost var atRead;
      status, atRead := InitFirc(firc.enable, firc.range, firc.trim);
      SetUpOther(b, firc, status, regs, written);
      OthersSettledTwice(old(regs), b, Firc, regs);
    }

    // Reads the register and writes it back without LK, whatever the source is doing.
    method UnlockControlStatusReg(s: Source)
      requires Wf(regs) && Steady(regs)
      modifies this
      ensures Unlocked(old(regs), s, regs)
    {
      var reg := ReadCsr(regs, s);
      ghost var gap, keep, warmup := Write(s, reg.(lk := false));
      UnlockEffect(old(regs), s, gap, keep, warmup);
    }

    // The board's start-up: unlock the sources, set FIRC up, run from it, then set up two others.
    method BootClocks(firc: Call, sosc: Call, sirc: Call) returns (booted: bool)
      requires firc.InitFirc? && sosc.InitSysOsc? && sirc.InitSirc?
      requires Wf(regs) && Steady(regs)
      modifies this
      ensures booted ==> RunsFrom(Firc, regs) && regs.firc.range == firc.range % 4
      ensures booted ==>
        && Configured(firc, regs.csr[Firc]) && Configured(sosc, regs.csr[Sosc])
        && Configured(sirc, regs.csr[Sirc])
      ensures !booted ==> RunsFrom(Sirc, regs) && firc.trim.WithTrim? && regs.csr[Firc].err && Firc in faulted
    {
      UnlockControlStatusReg(Firc);
      UnlockControlStatusReg(Sirc);
      UnlockControlStatusReg(Rosc);
      UnlockControlStatusReg(Sosc);
      booted := RunClocks(firc, sosc, sirc);
    }

    // The same, with the sources unlocked.
    method RunClocks(firc: Call, sosc: Call, sirc: Call) returns (booted: bool)
      requires firc.InitFirc? && sosc.InitSysOsc? && sirc.InitSirc?
      requires Wf(regs) && Steady(regs)
      requires !regs.csr[Firc].lk && !regs.csr[Sosc].lk && !regs.csr[Sirc].lk
      modifies this
      ensures booted ==> RunsFrom(Firc, regs) && regs.firc.range == firc.range % 4
      ensures booted ==>
        && Configured(firc, regs.csr[Firc]) && Configured(sosc, regs.csr[Sosc])
        && Configured(sirc, regs.csr[Sirc])
      ensures !booted ==> RunsFrom(Sirc, regs) && firc.trim.WithTrim? && regs.csr[Firc].err && Firc in faulted
    {
      var status := FircSafeConfig(firc);
      if status != Success {
        return false;
      }
      ghost var b := regs;
      SwitchTo(Firc);
      StaysConfigured(firc, b.csr[Firc], regs.csr[Firc]);
      SetUpRest(firc, sosc, sirc);
      return true;
    }

    method SetUpRest(ghost firc: Call, sosc: Call, sirc: Call)
      requires firc.InitFirc? && sosc.InitSysOsc? && sirc.InitSirc?
      requires RunsFrom(Firc, regs) && Configured(firc, regs.csr[Firc])
      requires !regs.csr[Sosc].lk && !regs.csr[Sirc].lk
      modifies this
      ensures RunsFrom(Firc, regs) && regs.firc.range == old(regs).firc.range
      ensures Configured(firc, regs.csr[Firc]) && Configured(sosc, regs.csr[Sosc]) && Configured(sirc, regs.csr[Sirc])
    {
      ghost var b := regs;
      var status := InitSysOsc(sosc.enable, sosc.monitor);
      SetUpOther(b, sosc, status, regs, written);
      ghost var m := regs;
      status := InitSirc(sirc.sten);
      SetUpOther(m, sirc, status, regs, written);
      StaysConfigured(firc, b.csr[Firc], m.csr[Firc]);
      StaysConfigured(firc, m.csr[Firc], regs.csr[Firc]);
      StaysConfigured(sosc, m.csr[Sosc], regs.csr[Sosc]);
    }
  }

  function FaultsIn(moments: seq<Moment>): set<Source> {
    if moments == [] then {} else moments[0].faults + FaultsIn(moments[1..])
  }

  // An error flag is set by a fault and nothing else.
  lemma {:induction false} ErrorsAreFaults(r: Regs, moments: seq<Moment>, s: Source)
    requires Wf(r)
    ensures Later(r, moments).csr[s].err ==> r.csr[s].err || s in FaultsIn(moments)
    decreases |moments|
  {
    if moments != [] {
      var n := Tick(r, moments[0]);
      TickWf(r, moments[0]);
      assert n.csr[s] == Settle(s, r.csr[s], s in moments[0].faults);
      ErrorsAreFaults(n, moments[1..], s);
    }
  }

  lemma LaterProgresses(r: Regs, moments: seq<Moment>)
    requires Wf(r) && moments != []
    ensures forall s: Source :: Running(s, r.csr[s]) && !Later(r, moments).csr[s].vld ==>
      Later(r, moments).csr[s].warmup < r.csr[s].warmup
  {
    var n := Tick(r, moments[0]);
    TickWf(r, moments[0]);
    LaterDrifts(n, moments[1..]);
    var a := Later(r, moments);
    assert a == Later(n, moments[1..]);
    forall s: Source | Running(s, r.csr[s]) && !a.csr[s].vld
      ensures a.csr[s].warmup < r.csr[s].warmup
    {
      DriftTouches(n, a, s);
      assert n.csr[s] == Settle(s, r.csr[s], s in moments[0].faults);
    }
  }
}
