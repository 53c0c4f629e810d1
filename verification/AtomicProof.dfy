/**
 What every interleaving keeps, and what follows from it for whole runs.
 */
module AtomicProof {

  import opened AtomicSpec
  import opened AtomicMachine
  import Arithmetic

  lemma OpsOfAppend(log: seq<Event>, e: Event, i: nat)
    ensures OpsOf(log + [e], i) == OpsOf(log, i) + if e.context == i then [e.op] else []
    ensures ResultsOf(log + [e], i) == ResultsOf(log, i) + if e.context == i then [e.result] else []
  {
    assert (log + [e])[..|log|] == log;
  }

  lemma {:induction false} NoOpsOfNew(log: seq<Event>, i: nat)
    requires forall e :: 0 <= e < |log| ==> log[e].context < i
    ensures OpsOf(log, i) == [] && ResultsOf(log, i) == []
    decreases |log|
  {
    if log != [] {
      NoOpsOfNew(log[..|log| - 1], i);
    }
  }

  // A step of the running context appends at most one event, of its own.
  ghost predicate LogStep(s: State, s': State)
    requires s.stack != []
  {
    || s'.log == s.log
    || (|s'.log| > 0 && s'.log[..|s'.log| - 1] == s.log && s'.log[|s'.log| - 1].context == Top(s))
  }

  lemma OthersKept(branch: Branch, s: State, s': State, i: nat)
    requires s.stack != [] && s'.stack == s.stack && LogStep(s, s')
    requires i < |s.contexts| == |s'.contexts| && i != Top(s)
    requires s'.contexts[i] == s.contexts[i] && ContextOk(branch, s, i)
    ensures ContextOk(branch, s', i)
  {
  }

  // What an operation of the running context does to log and cell.
  ghost predicate Effect(branch: Branch, size: Size, s: State, s': State, logged: bool, op: Op)
    requires s.stack != []
  {
    var n := AccessSize(branch, size, op);
    && s'.log == (if logged then s.log + [Event(Top(s), n, op, Result(n, op, s.cell))] else s.log)
    && s'.cell == (if logged then CellAfter(n, op, s.cell) else s.cell)
  }

  // The result the operation has in its place in the log.
  function Given(branch: Branch, size: Size, s: State, logged: bool, op: Op): seq<nat> {
    if logged then [Result(AccessSize(branch, size, op), op, s.cell)] else []
  }

  lemma EffectOk(branch: Branch, size: Size, cell0: nat, s: State, s': State, logged: bool, op: Op)
    requires s.stack != [] && s.cell == Final(cell0, s.log) && Legal(cell0, s.log)
    requires Effect(branch, size, s, s', logged, op)
    ensures LogStep(s, s')
    ensures s'.cell == Final(cell0, s'.log) && Legal(cell0, s'.log)
    ensures OpsOf(s'.log, Top(s)) == OpsOf(s.log, Top(s)) + if logged then [op] else []
    ensures ResultsOf(s'.log, Top(s)) == ResultsOf(s.log, Top(s)) + Given(branch, size, s, logged, op)
  {
    var n := AccessSize(branch, size, op);
    var e := Event(Top(s), n, op, Result(n, op, s.cell));
    if logged {
      AppendEvent(cell0, s.log, e);
      OpsOfAppend(s.log, e, Top(s));
      assert (s.log + [e])[..|s.log|] == s.log;
    }
  }

  // What a step must do to its own context.
  ghost predicate OwnStep(
    branch: Branch, size: Size, s: State, c: Context, c': Context, s': State, logged: bool, op: Op)
  {
    && c'.entryMask == c.entryMask
    && ProgOk(branch, c) && ProgOk(branch, c')
    && MaskOk(c', s'.primask) && RetryOk(c', !s'.closed)
    && Effective(c') == Effective(c) + (if logged then [op] else [])
    && c'.returned + Held(c') == c.returned + Held(c) + Given(branch, size, s, logged, op)
    && HeldOk(branch, size, c', s'.closed, s'.cell)
  }

  lemma TopOk(branch: Branch, size: Size, s: State, s': State, c': Context, logged: bool, op: Op)
    requires s.stack != [] && Top(s) < |s.contexts| == |s'.contexts|
    requires ContextOk(branch, s, Top(s)) && Top(s) in s.stack
    requires s'.stack == s.stack && s'.contexts[Top(s)] == c'
    requires OpsOf(s'.log, Top(s)) == OpsOf(s.log, Top(s)) + if logged then [op] else []
    requires ResultsOf(s'.log, Top(s)) == ResultsOf(s.log, Top(s)) + Given(branch, size, s, logged, op)
    requires OwnStep(branch, size, s, s.contexts[Top(s)], c', s', logged, op)
    ensures ContextOk(branch, s', Top(s))
  {
  }

  lemma StackKept(s: State, s': State)
    requires StackOk(s) && s'.stack == s.stack && |s'.contexts| == |s.contexts| && LogStep(s, s')
    ensures StackOk(s')
  {
    forall e | 0 <= e < |s'.log|
      ensures s'.log[e].context < |s'.contexts|
    {
      if s'.log != s.log && e < |s'.log| - 1 {
        assert s'.log[e] == s.log[e];
      }
    }
  }

  lemma AllOthersKept(branch: Branch, s: State, s': State, c': Context)
    requires StackOk(s) && s'.stack == s.stack && LogStep(s, s')
    requires s'.contexts == s.contexts[Top(s) := c']
    requires forall i :: 0 <= i < |s.contexts| ==> ContextOk(branch, s, i)
    ensures forall i :: 0 <= i < |s'.contexts| && i != Top(s) ==> ContextOk(branch, s', i)
  {
    forall i | 0 <= i < |s'.contexts| && i != Top(s)
      ensures ContextOk(branch, s', i)
    {
      OthersKept(branch, s, s', i);
    }
  }

  lemma OwnContextOk(branch: Branch, size: Size, cell0: nat, s: State, s': State, c': Context, logged: bool, op: Op)
    requires Inv(branch, size, cell0, s)
    requires s'.stack == s.stack && s'.contexts == s.contexts[Top(s) := c']
    requires Effect(branch, size, s, s', logged, op)
    requires OwnStep(branch, size, s, s.contexts[Top(s)], c', s', logged, op)
    ensures ContextOk(branch, s', Top(s)) && HeldOk(branch, size, c', s'.closed, s'.cell)
  {
    EffectOk(branch, size, cell0, s, s', logged, op);
    assert ContextOk(branch, s, Top(s)) && Top(s) in s.stack;
    TopOk(branch, size, s, s', c', logged, op);
  }

  // The rest of the invariant follows.
  lemma TopStep(branch: Branch, size: Size, cell0: nat, s: State, s': State, c': Context, logged: bool, op: Op)
    requires Inv(branch, size, cell0, s)
    requires s'.stack == s.stack && s'.contexts == s.contexts[Top(s) := c']
    requires Effect(branch, size, s, s', logged, op)
    requires ContextOk(branch, s', Top(s)) && HeldOk(branch, size, c', s'.closed, s'.cell)
    ensures Inv(branch, size, cell0, s')
  {
    EffectOk(branch, size, cell0, s, s', logged, op);
    StackKept(s, s');
    AllOthersKept(branch, s, s', c');
  }

  // The running context's share of the invariant.
  ghost predicate OwnOk(branch: Branch, size: Size, s: State)
    requires s.stack != [] && Top(s) < |s.contexts|
  {
    var c := s.contexts[Top(s)];
    && ProgOk(branch, c) && MaskOk(c, s.primask) && RetryOk(c, !s.closed)
    && HeldOk(branch, size, c, s.closed, s.cell)
  }

  lemma FinishedOk(branch: Branch, c: Context)
    requires ProgOk(branch, c) && c.next < |c.prog| && c.prog[c.next].Atomic?
    ensures forall ret ::
      && ProgOk(branch, Finished(c, ret)) && Level(Finished(c, ret)) == Level(c)
      && Effective(Finished(c, ret)) == Ops(c.prog, c.next) + [c.prog[c.next].op]
  {
  }

  // Whether the next instruction is the one at which the operation takes effect.
  predicate TakesEffect(branch: Branch, size: Size, s: State, c: Context, op: Op) {
    match c.pc
    case Idle => branch.LoadStoreExclusive? && Refuses(size, op, Read(size, s.cell))
    case Loaded(_) => s.closed
    case MaskedLoaded(_, _) => true
    case _ => false
  }

  lemma LoadOwn(branch: Branch, size: Size, s: State, op: Op)
    requires s.stack != [] && Top(s) < |s.contexts| && OwnOk(branch, size, s)
    requires var c := s.contexts[Top(s)];
             c.next < |c.prog| && c.prog[c.next] == Atomic(op) && c.pc.Idle?
    ensures var c := s.contexts[Top(s)];
            var s', logged := RunAtomic(branch, size, s, c, op), TakesEffect(branch, size, s, c, op);
            && OwnStep(branch, size, s, c, s'.contexts[Top(s)], s', logged, op)
            && Effect(branch, size, s, s', logged, op)
  {
    FinishedOk(branch, s.contexts[Top(s)]);
  }

  lemma StoreOwn(branch: Branch, size: Size, s: State, op: Op)
    requires s.stack != [] && Top(s) < |s.contexts| && OwnOk(branch, size, s)
    requires var c := s.contexts[Top(s)];
             c.next < |c.prog| && c.prog[c.next] == Atomic(op) && (c.pc.Loaded? || c.pc.Refused?)
    ensures var c := s.contexts[Top(s)];
            var s', logged := RunAtomic(branch, size, s, c, op), TakesEffect(branch, size, s, c, op);
            && OwnStep(branch, size, s, c, s'.contexts[Top(s)], s', logged, op)
            && Effect(branch, size, s, s', logged, op)
  {
    FinishedOk(branch, s.contexts[Top(s)]);
  }

  lemma MaskingOwn(branch: Branch, size: Size, s: State, op: Op)
    requires s.stack != [] && Top(s) < |s.contexts| && OwnOk(branch, size, s)
    requires var c := s.contexts[Top(s)];
             c.next < |c.prog| && c.prog[c.next] == Atomic(op) && (c.pc.MaskRead? || c.pc.Masked?)
    ensures var c := s.contexts[Top(s)];
            var s', logged := RunAtomic(branch, size, s, c, op), TakesEffect(branch, size, s, c, op);
            && OwnStep(branch, size, s, c, s'.contexts[Top(s)], s', logged, op)
            && Effect(branch, size, s, s', logged, op)
  {
    FinishedOk(branch, s.contexts[Top(s)]);
  }

  lemma MaskedOwn(branch: Branch, size: Size, s: State, op: Op)
    requires s.stack != [] && Top(s) < |s.contexts| && OwnOk(branch, size, s)
    requires var c := s.contexts[Top(s)];
             c.next < |c.prog| && c.prog[c.next] == Atomic(op) && (c.pc.MaskedLoaded? || c.pc.MaskedDone?)
    ensures var c := s.contexts[Top(s)];
            var s', logged := RunAtomic(branch, size, s, c, op), TakesEffect(branch, size, s, c, op);
            && OwnStep(branch, size, s, c, s'.contexts[Top(s)], s', logged, op)
            && Effect(branch, size, s, s', logged, op)
  {
    FinishedOk(branch, s.contexts[Top(s)]);
  }

  lemma DisableOwn(branch: Branch, size: Size, s: State)
    requires s.stack != [] && Top(s) < |s.contexts| && OwnOk(branch, size, s)
    requires var c := s.contexts[Top(s)]; c.next < |c.prog| && c.prog[c.next] == Disable
    ensures var c := s.contexts[Top(s)];
            var s' := RunCommand(branch, size, s, c);
            && OwnStep(branch, size, s, c, s'.contexts[Top(s)], s', false, TestAndSet(0))
            && Effect(branch, size, s, s', false, TestAndSet(0))
  {
    var c := s.contexts[Top(s)];
    assert Depth(c.prog, c.next + 1) >= 0;
  }

  lemma EnableOwn(branch: Branch, size: Size, s: State)
    requires s.stack != [] && Top(s) < |s.contexts| && OwnOk(branch, size, s)
    requires var c := s.contexts[Top(s)]; c.next < |c.prog| && c.prog[c.next] == Enable
    ensures var c := s.contexts[Top(s)];
            var s' := RunCommand(branch, size, s, c);
            && OwnStep(branch, size, s, c, s'.contexts[Top(s)], s', false, TestAndSet(0))
            && Effect(branch, size, s, s', false, TestAndSet(0))
  {
    var c := s.contexts[Top(s)];
    assert Depth(c.prog, c.next + 1) >= 0;
  }

  lemma AtomicOwn(branch: Branch, size: Size, cell0: nat, s: State, op: Op)
    requires Inv(branch, size, cell0, s) && Enabled(s, Run)
    requires var c := s.contexts[Top(s)]; c.prog[c.next] == Atomic(op)
    ensures var c := s.contexts[Top(s)];
            var s', logged := RunAtomic(branch, size, s, c, op), TakesEffect(branch, size, s, c, op);
            && OwnStep(branch, size, s, c, s'.contexts[Top(s)], s', logged, op)
            && Effect(branch, size, s, s', logged, op)
  {
    assert ContextOk(branch, s, Top(s)) && Top(s) in s.stack;
    match s.contexts[Top(s)].pc {
      case Idle => LoadOwn(branch, size, s, op);
      case Loaded(_) => StoreOwn(branch, size, s, op);
      case Refused => StoreOwn(branch, size, s, op);
      case MaskRead(_) => MaskingOwn(branch, size, s, op);
      case Masked(_) => MaskingOwn(branch, size, s, op);
      case _ => MaskedOwn(branch, size, s, op);
    }
  }

  lemma AtomicKeeps(branch: Branch, size: Size, cell0: nat, s: State, op: Op)
    requires Inv(branch, size, cell0, s) && Enabled(s, Run)
    requires var c := s.contexts[Top(s)]; c.prog[c.next] == Atomic(op)
    ensures Inv(branch, size, cell0, RunAtomic(branch, size, s, s.contexts[Top(s)], op))
  {
    var c := s.contexts[Top(s)];
    var s', logged := RunAtomic(branch, size, s, c, op), TakesEffect(branch, size, s, c, op);
    AtomicOwn(branch, size, cell0, s, op);
    OwnContextOk(branch, size, cell0, s, s', s'.contexts[Top(s)], logged, op);
    TopStep(branch, size, cell0, s, s', s'.contexts[Top(s)], logged, op);
  }

  lemma PairKeeps(branch: Branch, size: Size, cell0: nat, s: State)
    requires Inv(branch, size, cell0, s) && Enabled(s, Run)
    requires var c := s.contexts[Top(s)]; !c.prog[c.next].Atomic?
    ensures Inv(branch, size, cell0, RunCommand(branch, size, s, s.contexts[Top(s)]))
  {
    var t := Top(s);
    var s' := RunCommand(branch, size, s, s.contexts[t]);
    assert ContextOk(branch, s, t) && t in s.stack;
    if s.contexts[t].prog[s.contexts[t].next].Disable? {
      DisableOwn(branch, size, s);
    } else {
      EnableOwn(branch, size, s);
    }
    OwnContextOk(branch, size, cell0, s, s', s'.contexts[t], false, TestAndSet(0));
    TopStep(branch, size, cell0, s, s', s'.contexts[t], false, TestAndSet(0));
  }

  lemma RunKeeps(branch: Branch, size: Size, cell0: nat, s: State)
    requires Inv(branch, size, cell0, s) && Enabled(s, Run)
    ensures Inv(branch, size, cell0, Next(branch, size, s, Run))
  {
    var c := s.contexts[Top(s)];
    if c.prog[c.next].Atomic? {
      AtomicKeeps(branch, size, cell0, s, c.prog[c.next].op);
    } else {
      PairKeeps(branch, size, cell0, s);
    }
  }

  lemma NewContextOk(branch: Branch, size: Size, s: State, handler: seq<Command>)
    requires StackOk(s) && Enabled(s, Interrupt(handler))
    ensures ContextOk(branch, Next(branch, size, s, Interrupt(handler)), |s.contexts|)
  {
    NoOpsOfNew(s.log, |s.contexts|);
  }

  lemma InterruptedContextOk(branch: Branch, size: Size, s: State, handler: seq<Command>, i: nat)
    requires StackOk(s) && Enabled(s, Interrupt(handler)) && i < |s.contexts|
    requires ContextOk(branch, s, i)
    ensures ContextOk(branch, Next(branch, size, s, Interrupt(handler)), i)
  {
    var s' := Next(branch, size, s, Interrupt(handler));
    assert Top(s) in s.stack;
    assert i in s'.stack <==> i in s.stack;
    assert Held(s'.contexts[i]) == Held(s.contexts[i]);
  }

  lemma InterruptedStackOk(branch: Branch, size: Size, s: State, handler: seq<Command>)
    requires StackOk(s) && Enabled(s, Interrupt(handler))
    ensures StackOk(Next(branch, size, s, Interrupt(handler)))
  {}

  lemma InterruptKeeps(branch: Branch, size: Size, cell0: nat, s: State, handler: seq<Command>)
    requires Inv(branch, size, cell0, s) && Enabled(s, Interrupt(handler))
    ensures Inv(branch, size, cell0, Next(branch, size, s, Interrupt(handler)))
  {
    var s' := Next(branch, size, s, Interrupt(handler));
    InterruptedStackOk(branch, size, s, handler);
    forall i | 0 <= i < |s'.contexts|
      ensures ContextOk(branch, s', i)
    {
      if i < |s.contexts| {
        InterruptedContextOk(branch, size, s, handler, i);
      } else {
        NewContextOk(branch, size, s, handler);
      }
    }
  }

  // The interrupted context finds PRIMASK as it left it.
  lemma ReturnUnmasked(branch: Branch, s: State)
    requires StackOk(s) && Enabled(s, Return) && ContextOk(branch, s, Top(s))
    ensures !s.primask
  {
    var t := Top(s);
    assert t in s.stack && s.stack[0] < t;
    assert s.contexts[t].saved == [] && !s.contexts[t].entryMask;
  }

  lemma ReturnedContextOk(branch: Branch, size: Size, s: State, i: nat)
    requires StackOk(s) && Enabled(s, Return) && !s.primask
    requires i < |s.contexts| && ContextOk(branch, s, i)
    ensures ContextOk(branch, Next(branch, size, s, Return), i)
  {
    var s' := Next(branch, size, s, Return);
    assert s.stack == s'.stack + [Top(s)];
    assert i in s.stack <==> i in s'.stack || i == Top(s);
    assert Top(s) !in s'.stack;
  }

  lemma ReturnKeeps(branch: Branch, size: Size, cell0: nat, s: State)
    requires Inv(branch, size, cell0, s) && Enabled(s, Return)
    ensures Inv(branch, size, cell0, Next(branch, size, s, Return))
  {
    var s' := Next(branch, size, s, Return);
    assert ContextOk(branch, s, Top(s));
    ReturnUnmasked(branch, s);
    forall i | 0 <= i < |s'.contexts|
      ensures ContextOk(branch, s', i)
    {
      ReturnedContextOk(branch, size, s, i);
    }
    assert ContextOk(branch, s', Top(s')) && Top(s') in s'.stack;
  }

  /*
   * Whole runs
   */

  lemma InitialInv(branch: Branch, size: Size, s: State)
    requires Initial(s)
    ensures Inv(branch, size, s.cell, s)
  {
    assert ContextOk(branch, s, 0);
  }

  lemma {:induction false} RunInv(branch: Branch, size: Size, run: seq<State>, actions: seq<Action>, i: nat)
    requires IsRun(branch, size, run, actions) && i < |run|
    ensures Inv(branch, size, run[0].cell, run[i])
    decreases i
  {
    if i == 0 {
      InitialInv(branch, size, run[0]);
    } else {
      RunInv(branch, size, run, actions, i - 1);
      match actions[i - 1]
      case Run => RunKeeps(branch, size, run[0].cell, run[i - 1]);
      case Interrupt(handler) => InterruptKeeps(branch, size, run[0].cell, run[i - 1], handler);
      case Return => ReturnKeeps(branch, size, run[0].cell, run[i - 1]);
    }
  }

  // No lost update, and every result as if the operations ran one at a time, in
  // the order of the log: for both branches, in every state of every run.
  lemma NoLostUpdate(branch: Branch, size: Size, run: seq<State>, actions: seq<Action>, i: nat)
    requires IsRun(branch, size, run, actions) && i < |run|
    ensures run[i].cell == Final(run[0].cell, run[i].log)
    ensures Legal(run[0].cell, run[i].log)
  {
    RunInv(branch, size, run, actions, i);
  }

  // Whatever the interleaving, a variable that is only added to and subtracted from
  // holds its first value plus all additions less all subtractions, modulo its range.
  lemma CounterIsSum(branch: Branch, size: Size, run: seq<State>, actions: seq<Action>, i: nat)
    requires IsRun(branch, size, run, actions) && i < |run| && OnlyCounts(run[i].log, size)
    ensures Read(size, run[i].cell)
         == (Read(size, run[0].cell) + Added(run[i].log) - Subtracted(run[i].log)) % size.Range()
  {
    NoLostUpdate(branch, size, run, actions, i);
    CountsAddUp(size, run[0].cell, run[i].log);
  }

  // The current operation, once it has taken effect but not yet returned.
  function Pending(c: Context): seq<Op> {
    if (c.pc.Refused? || c.pc.MaskedDone?) && c.next < |c.prog| && c.prog[c.next].Atomic?
    then [c.prog[c.next].op] else []
  }

  // Every operation takes effect exactly once, in its own program's order: the
  // log holds the operations a context has completed, plus the current one if it
  // has already taken effect, and nothing else of that context.
  lemma ExactlyOnce(branch: Branch, size: Size, run: seq<State>, actions: seq<Action>, i: nat, k: nat)
    requires IsRun(branch, size, run, actions) && i < |run| && k < |run[i].contexts|
    ensures var c := run[i].contexts[k];
            && c.next <= |c.prog|
            && OpsOf(run[i].log, k) == Ops(c.prog, c.next) + Pending(c)
  {
    RunInv(branch, size, run, actions, i);
    assert ContextOk(branch, run[i], k);
  }

  // What calls return is what the log says: the values a context has been handed
  // are the results of its logged operations, in order, but for the current call's
  // if that has taken effect and not yet returned.
  lemma ReturnsAreLogged(branch: Branch, size: Size, run: seq<State>, actions: seq<Action>, i: nat, k: nat)
    requires IsRun(branch, size, run, actions) && i < |run| && k < |run[i].contexts|
    ensures ResultsOf(run[i].log, k) == run[i].contexts[k].returned + Held(run[i].contexts[k])
  {
    RunInv(branch, size, run, actions, i);
    assert ContextOk(branch, run[i], k);
  }

  // A call has retried at most once per interrupt it has suffered.
  lemma RetriesBounded(branch: Branch, size: Size, run: seq<State>, actions: seq<Action>, i: nat, k: nat)
    requires IsRun(branch, size, run, actions) && i < |run| && k < |run[i].contexts|
    ensures run[i].contexts[k].retries <= run[i].contexts[k].hits
  {
    RunInv(branch, size, run, actions, i);
    assert ContextOk(branch, run[i], k);
  }

  // A call that is not interrupted is over after its load and its store.
  lemma UninterruptedCallCompletes(size: Size, s: State, op: Op)
    requires s.stack != [] && Top(s) < |s.contexts|
    requires var c := s.contexts[Top(s)];
             c.next < |c.prog| && c.prog[c.next] == Atomic(op) && c.pc.Idle?
    ensures var b, c := LoadStoreExclusive, s.contexts[Top(s)];
            var s1 := RunAtomic(b, size, s, c, op);
            var s2 := RunAtomic(b, size, s1, s1.contexts[Top(s1)], op);
            && s2.contexts == s.contexts[Top(s) := Finished(c, Result(size, op, s.cell))] && s2.stack == s.stack
            && s2.cell == CellAfter(size, op, s.cell) && !s2.closed
  {
    var b, c := LoadStoreExclusive, s.contexts[Top(s)];
    var s1 := RunAtomic(b, size, s, c, op);
    assert Top(s1) == Top(s) && s1.closed && s1.cell == s.cell;
    if Refuses(size, op, Read(size, s.cell)) {
      assert s1.contexts == s.contexts[Top(s) := c.(pc := Refused)];
    } else {
      assert s1.contexts == s.contexts[Top(s) := c.(pc := Loaded(Read(size, s.cell)))];
    }
  }

  // Between commands PRIMASK is what the open Disable calls amount to: the entry
  // value once every pair is closed, whatever ran in between and at any depth.
  lemma MaskRestored(branch: Branch, size: Size, run: seq<State>, actions: seq<Action>, i: nat)
    requires IsRun(branch, size, run, actions) && i < |run|
    ensures run[i].stack != [] && Top(run[i]) < |run[i].contexts|
    ensures var c := run[i].contexts[Top(run[i])];
            && c.next <= |c.prog|
            && (c.pc.Idle? && Depth(c.prog, c.next) == 0 ==> run[i].primask == c.entryMask)
            && (c.pc.Idle? && Depth(c.prog, c.next) > 0 ==> run[i].primask)
  {
    RunInv(branch, size, run, actions, i);
    assert ContextOk(branch, run[i], Top(run[i]));
    assert Top(run[i]) in run[i].stack;
  }

  // A compare-and-set that reports failure wrote nothing and leaves the monitor
  // open; one that reports success replaced the expected value in one step.
  lemma CompareAndSetHonest(branch: Branch, size: Size, run: seq<State>, actions: seq<Action>, i: nat, e: nat)
    requires IsRun(branch, size, run, actions) && i < |run|
    requires e < |run[i].log| && run[i].log[e].op.CompareAndSet?
    ensures var ev, log, cell0 := run[i].log[e], run[i].log, run[0].cell;
            var before, after := Final(cell0, log[..e]), Final(cell0, log[..e + 1]);
            && (ev.result == 1 <==> Read(ev.size, before) == ev.op.expected % ev.size.Range())
            && (ev.result == 1 ==> after == Write(ev.size, before, ev.op.newValue))
            && (ev.result != 1 ==> ev.result == 0 && after == before)
  {
    NoLostUpdate(branch, size, run, actions, i);
    assert run[i].log[..e + 1][..e] == run[i].log[..e];
  }

  // Instruction by instruction: a compare-and-set changes the cell in the one step
  // that settles its answer, and answers 1 exactly if that step found the expected
  // value and replaced it.
  lemma CompareAndSetStep(branch: Branch, size: Size, run: seq<State>, actions: seq<Action>, i: nat)
    requires IsRun(branch, size, run, actions) && i < |actions| && actions[i] == Run
    requires var s := run[i];
             && s.stack != [] && Top(s) < |s.contexts|
             && var c := s.contexts[Top(s)];
                c.next < |c.prog| && c.prog[c.next].Atomic? && c.prog[c.next].op.CompareAndSet?
    ensures var s, s' := run[i], run[i + 1];
            && s'.stack == s.stack && |s'.contexts| == |s.contexts|
            && var c, c' := s.contexts[Top(s)], s'.contexts[Top(s)];
               var op, n := c.prog[c.next].op, AccessSize(branch, size, c.prog[c.next].op);
               var had, has := c.returned + Held(c), c'.returned + Held(c');
               var expected := Read(n, s.cell) == op.expected % n.Range();
               || (has == had && s'.cell == s.cell)
               || (has == had + [1] && expected && s'.cell == Write(n, s.cell, op.newValue))
               || (has == had + [0] && !expected && s'.cell == s.cell)
  {
    RunInv(branch, size, run, actions, i);
    var s := run[i];
    assert Enabled(s, actions[i]) && run[i + 1] == Next(branch, size, s, actions[i]);
    AtomicOwn(branch, size, run[0].cell, s, s.contexts[Top(s)].prog[s.contexts[Top(s)].next].op);
  }

  lemma MonitorOpenBetweenCommands(branch: Branch, size: Size, run: seq<State>, actions: seq<Action>, i: nat)
    requires IsRun(branch, size, run, actions) && i < |run|
    ensures run[i].stack != [] && Top(run[i]) < |run[i].contexts|
    ensures run[i].contexts[Top(run[i])].pc.Idle? ==> !run[i].closed
  {
    RunInv(branch, size, run, actions, i);
  }

  // A lock taken with test-and-set has one holder between two releases, in every
  // run and whatever else touches the variable.
  lemma LockHasOneHolder(branch: Branch, size: Size, run: seq<State>, actions: seq<Action>, n: nat,
                         i: nat, j: nat, free: nat, locked: nat)
    requires IsRun(branch, size, run, actions) && n < |run| && i < j
    requires var width := AccessSize(branch, size, TestAndSet(locked));
             && free != locked % width.Range()
             && Acquires(run[n].log, i, width, free, locked) && Acquires(run[n].log, j, width, free, locked)
    ensures var width := AccessSize(branch, size, TestAndSet(locked));
            exists k :: i < k < j && Frees(run[0].cell, width, run[n].log, k, free)
  {
    NoLostUpdate(branch, size, run, actions, n);
    LockIsExclusive(run[0].cell, AccessSize(branch, size, TestAndSet(locked)), run[n].log, i, j, free, locked);
  }

  /*
   * Where the two branches differ
   */

  // The two branches leave the same cell and return the same result.
  ghost predicate SameOutcome(size: Size, op: Op, cell: nat) {
    var n := AccessSize(InterruptMasking, size, op);
    CellAfter(n, op, cell) == CellAfter(size, op, cell) && Result(n, op, cell) == Result(size, op, cell)
  }

  // The fallback's compare-and-set and test-and-set access four bytes whatever the
  // variable's size, and cast their operands to four bytes. The outcome is the
  // exclusive branch's exactly when nothing beyond the variable gets in the way.
  lemma FallbackTestAndSetAgreesIff(size: Size, newValue: nat, cell: nat)
    requires cell < FourBytes.Range()
    ensures SameOutcome(size, TestAndSet(newValue), cell)
       <==> cell / size.Range() == 0 && newValue % FourBytes.Range() / size.Range() == 0
  {
    Parts(size, cell);
    Parts(size, newValue % FourBytes.Range());
    CutTwice(size, newValue);
  }

  lemma FallbackCompareAndSetAgreesIff(size: Size, expected: nat, newValue: nat, cell: nat)
    requires cell < FourBytes.Range()
    ensures SameOutcome(size, CompareAndSet(expected, newValue), cell)
       <==> if cell == expected % FourBytes.Range()
            then newValue % FourBytes.Range() / size.Range() == cell / size.Range()
            else Read(size, cell) != expected % size.Range()
  {
    Parts(size, cell);
    Parts(size, newValue % FourBytes.Range());
    CutTwice(size, newValue);
    CutTwice(size, expected);
  }

  // For operands that fit the variable: the neighbouring bytes are zero, or the
  // compare fails anyway.
  lemma FallbackCompareAndSetFitting(size: Size, expected: nat, newValue: nat, cell: nat)
    requires cell < FourBytes.Range() && expected < size.Range() && newValue < size.Range()
    ensures SameOutcome(size, CompareAndSet(expected, newValue), cell)
       <==> cell / size.Range() == 0 || Read(size, cell) != expected
  {
    FallbackCompareAndSetAgreesIff(size, expected, newValue, cell);
    Parts(size, cell);
    Arithmetic.DivMod(newValue, size.Range(), 0, newValue);
    Arithmetic.DivMod(expected, size.Range(), 0, expected);
  }

  lemma Parts(size: Size, x: nat)
    ensures x == size.Range() * (x / size.Range()) + Read(size, x)
    ensures x < FourBytes.Range() ==> Read(FourBytes, x) == x
  {}

  lemma CutTwice(size: Size, x: nat)
    ensures x % FourBytes.Range() % size.Range() == x % size.Range()
  {
    var q, y := x / FourBytes.Range(), x % FourBytes.Range();
    match size {
      case OneByte => Arithmetic.DivMod(x, 0x100, 0x100_0000 * q + y / 0x100, y % 0x100);
      case TwoBytes => Arithmetic.DivMod(x, 0x1_0000, 0x1_0000 * q + y / 0x1_0000, y % 0x1_0000);
      case FourBytes =>
    }
  }
}
