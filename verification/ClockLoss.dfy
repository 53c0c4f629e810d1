/**
 Exactly when configuring a source the system does not run from can still take
 the system's clock away.
 */
module ClockLoss {
  import opened ClockSources
  import opened Oscillators

  // One write of the given drive, any moments after the register was read.
  ghost predicate Reaches(b: Regs, s: Source, d: Drive, a: Regs)
    requires Wf(b)
  {
    exists w, gap, keep, warmup :: WordDrive(w) == d && !w.lk && a == WriteAfter(b, s, w, gap, keep, warmup)
  }

  // After one of these writes, one after the other, the system may be without clock.
  ghost predicate MayStop(b: Regs, s: Source, ds: seq<Drive>)
    requires Wf(b)
    decreases |ds|
  {
    ds != [] && exists a :: Reaches(b, s, ds[0], a) && Wf(a) && (!Steady(a) || MayStop(a, s, ds[1..]))
  }

  // From the first write on.
  lemma {:induction false} ExposedFirst(s: Source, d: Drive, ds: seq<Drive>)
    requires ds != []
    ensures Exposed(s, d, ds) <==> (Runs(s, d) && ds[0] != d) || Exposed(s, ds[0], ds[1..])
    decreases |ds|
  {
    var front := ds[..|ds| - 1];
    if front != [] {
      ExposedFirst(s, d, front);
      assert ds[1..][..|ds| - 2] == front[1..];
    }
  }

  lemma {:induction false} ExposedPrefix(s: Source, d: Drive, ds: seq<Drive>, k: nat)
    requires k <= |ds| && Exposed(s, d, ds[..k])
    ensures Exposed(s, d, ds)
    decreases |ds|
  {
    if k < |ds| {
      assert ds[..|ds| - 1][..k] == ds[..k];
      ExposedPrefix(s, d, ds[..|ds| - 1], k);
    } else {
      assert ds[..k] == ds;
    }
  }

  lemma OneWrite(b: Regs, s: Source, d: Drive, a: Regs)
    requires Wf(b) && !b.csr[s].lk && Reaches(b, s, d, a)
    ensures Wf(a) && !a.csr[s].lk && DriveOf(a.csr[s]) == d && a.requested == b.requested
    ensures a.current == b.current || a.current == b.requested
    ensures Steady(b) && !Steady(a) ==>
      (b.current == s || b.requested == s) && Runs(s, DriveOf(b.csr[s])) && d != DriveOf(b.csr[s])
  {
    var w, gap, keep, warmup :|
      WordDrive(w) == d && !w.lk && a == WriteAfter(b, s, w, gap, keep, warmup);
    LaterDrifts(b, gap);
    DriftTouches(b, Later(b, gap), s);
    WriteOn(Later(b, gap), s, w, keep, warmup);
    WriteStops(b, s, w, gap, keep, warmup);
  }

  lemma {:induction false} Unaffected(b: Regs, s: Source, ds: seq<Drive>)
    requires Wf(b) && Steady(b) && !b.csr[s].lk && b.current != s && b.requested != s
    ensures !MayStop(b, s, ds)
    decreases |ds|
  {
    if MayStop(b, s, ds) {
      var a :| Reaches(b, s, ds[0], a) && Wf(a) && (!Steady(a) || MayStop(a, s, ds[1..]));
      OneWrite(b, s, ds[0], a);
      Unaffected(a, s, ds[1..]);
    }
  }

  // A switch that completes just before the write makes it hit the system's clock.
  lemma HitStops(b: Regs, s: Source, d: Drive) returns (a: Regs)
    requires Wf(b) && !b.csr[s].lk && b.requested == s && Running(s, b.csr[s]) && d != DriveOf(b.csr[s])
    ensures Reaches(b, s, d, a) && Wf(a) && !Steady(a)
  {
    var gap := SwitchFirst(b, s);
    HitWrite(Later(b, gap), s, Plain(d));
    a := Reached(b, s, d, gap, false);
  }

  lemma SwitchFirst(b: Regs, s: Source) returns (gap: seq<Moment>)
    requires Wf(b) && b.requested == s && Running(s, b.csr[s])
    ensures Later(b, gap).current == s && Later(b, gap).csr[s].lk == b.csr[s].lk
    ensures DriveOf(Later(b, gap).csr[s]) == DriveOf(b.csr[s])
  {
    gap := seq(Pending(b) + 1, _ => Moment({}));
    SwitchCompletes(b, gap);
    LaterDrifts(b, gap);
    DriftTouches(b, Later(b, gap), s);
  }

  lemma Reached(b: Regs, s: Source, d: Drive, gap: seq<Moment>, keep: bool) returns (a: Regs)
    requires Wf(b)
    ensures a == Store(Later(b, gap), s, Plain(d), keep, 0) && Reaches(b, s, d, a)
  {
    a := WriteAfter(b, s, Plain(d), gap, keep, 0);
  }

  function Plain(d: Drive): (w: Word)
    ensures WordDrive(w) == d && !w.lk
  {
    Word(d.en, d.sten, d.tren, d.trup, false, false, false, false, false, false)
  }

  lemma HitWrite(m: Regs, s: Source, w: Word)
    requires Wf(m) && m.current == s && !m.csr[s].lk && !SameDrive(m.csr[s], w)
    ensures !Steady(Store(m, s, w, false, 0))
  {}

  // While a switch to the source is pending or done, its writes may stop the clock
  // exactly if one of them changes how the running source is driven.
  lemma {:induction false} PendingStopsIff(b: Regs, s: Source, ds: seq<Drive>)
    requires Wf(b) && Steady(b) && b.requested == s && !b.csr[s].lk
    ensures MayStop(b, s, ds) <==> Exposed(s, DriveOf(b.csr[s]), ds)
    decreases |ds|
  {
    if ds != [] {
      ExposedFirst(s, DriveOf(b.csr[s]), ds);
      if Runs(s, DriveOf(b.csr[s])) && ds[0] != DriveOf(b.csr[s]) {
        var a := HitStops(b, s, ds[0]);
      } else if Exposed(s, ds[0], ds[1..]) {
        var a := Reached(b, s, ds[0], [], true);
        OneWrite(b, s, ds[0], a);
        PendingStopsIff(a, s, ds[1..]);
      } else if MayStop(b, s, ds) {
        var a :| Reaches(b, s, ds[0], a) && Wf(a) && (!Steady(a) || MayStop(a, s, ds[1..]));
        OneWrite(b, s, ds[0], a);
        PendingStopsIff(a, s, ds[1..]);
      }
    }
  }

  // What the register must hold for a call to be dangerous: the source is on, or,
  // where it is always on, driven otherwise than the call will drive it.
  predicate Endangers(c: Call, n: Csr)
    requires Configures(c)
  {
    match Target(c)
    case Sosc => n.en
    case Firc => n.en
    case Sirc => DriveOf(n) != OFF || (c.InitSirc? && c.sten)
    case Rosc => DriveOf(n) != OFF
  }

  // A call on an idle, unlocked source may take the system's clock away exactly if a
  // switch to that source is on its way when it starts, and the register says so.
  lemma CallStopsClockIff(b: Regs, c: Call)
    requires Wf(b) && Steady(b) && Configures(c) && b.current != Target(c) && !b.csr[Target(c)].lk
    ensures MayStop(b, Target(c), Program(c)) <==> b.requested == Target(c) && Endangers(c, b.csr[Target(c)])
  {
    var s := Target(c);
    if b.requested == s {
      PendingStopsIff(b, s, Program(c));
      ProgramExposed(c, b.csr[s]);
    } else {
      Unaffected(b, s, Program(c));
    }
  }

  lemma ProgramExposed(c: Call, n: Csr)
    requires Configures(c)
    ensures Exposed(Target(c), DriveOf(n), Program(c)) <==> Endangers(c, n)
  {
    var s, ds := Target(c), Program(c);
    ExposedFirst(s, DriveOf(n), ds);
    if |ds| > 1 {
      ExposedFirst(s, ds[0], ds[1..]);
    }
    if |ds| > 2 {
      ExposedFirst(s, ds[1], ds[1..][1..]);
    }
  }

  // And what the calls do is safe otherwise: in no outcome of any call is the system
  // without clock unless that switch is pending and the register says so.
  lemma OutcomeKeepsClock(b: Regs, c: Call, status: Status, a: Regs, written: seq<Access>)
    requires Wf(b) && Steady(b) && Configures(c) && Outcome(b, c, status, a, written)
    requires !(b.requested == Target(c) && Endangers(c, b.csr[Target(c)]))
    ensures Steady(a)
  {
    var s := Target(c);
    if b.current != s && !b.csr[s].lk && b.requested == s {
      ProgramExposed(c, b.csr[s]);
      if Exposed(s, DriveOf(b.csr[s]), Drives(written)) {
        assert Drives(written) == Program(c)[..|Drives(written)|];
        ExposedPrefix(s, DriveOf(b.csr[s]), Program(c), |Drives(written)|);
      }
    }
  }

  // No call of the run is dangerous when it is made.
  predicate Harmless(b: Regs, run: seq<Step>)
    requires IsRun(b, run)
    decreases |run|
  {
    run != [] ==>
      && (Configures(run[0].call) ==>
            !(b.requested == Target(run[0].call) && Endangers(run[0].call, b.csr[Target(run[0].call)])))
      && Harmless(run[0].after, run[1..])
  }

  // Over every harmless run the system keeps a valid clock, whether or not calls wait
  // for switches.
  lemma {:induction false} HarmlessRunKeepsClock(b: Regs, run: seq<Step>, k: nat)
    requires IsRun(b, run) && Steady(b) && Harmless(b, run) && k < |run|
    ensures Wf(run[k].after) && Steady(run[k].after)
    decreases |run|
  {
    var first := run[0];
    if Configures(first.call) {
      OutcomeKeepsClock(b, first.call, first.status, first.after, first.written);
    } else {
      CallKeepsClock(b, first.call, first.status, first.after, first.written);
    }
    if k > 0 {
      HarmlessRunKeepsClock(first.after, run[1..], k - 1);
    }
  }
}
