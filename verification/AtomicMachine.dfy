/**
 The local atomic operations as interleaved steps of a thread and nested
 interrupt handlers on one core: one memory cell, one exclusive monitor and
 PRIMASK. The monitor follows section A3.4 of the ARMv7-M Architecture Reference
 Manual: it opens on exception entry and return, and a store-exclusive stores
 only while it is still closed.

 Both branches of the header are steps of the same machine: the retry loop over
 LDREX and STREX, and the fallback that masks interrupts.
 */
module AtomicMachine {

  import opened AtomicSpec

  datatype Branch = LoadStoreExclusive | InterruptMasking

  // What a context executes: atomic operations, and explicit pairs of
  // DisableGlobalIRQ and EnableGlobalIRQ around any of them.
  datatype Command = Atomic(op: Op) | Disable | Enable

  datatype Pc =
    | Idle
    | Loaded(val: nat)                  // LDREX done
    | Refused                            // compare failed, CLREX pending
    | MaskRead(mask: bool)               // PRIMASK read, not yet set
    | Masked(mask: bool)                 // fallback: interrupts off
    | MaskedLoaded(mask: bool, val: nat)
    | MaskedDone(mask: bool, ret: nat)   // fallback: mask still to be restored

  datatype Context = Context(
    prog: seq<Command>, next: nat, pc: Pc,
    entryMask: bool, saved: seq<bool>,   // PRIMASK at entry and at each open Disable
    retries: nat, hits: nat,             // of the current call
    returned: seq<nat>)                  // by the completed calls, 0 for void

  datatype State = State(
    cell: nat, closed: bool, primask: bool,
    contexts: seq<Context>, stack: seq<nat>, log: seq<Event>)

  datatype Action = Run | Interrupt(handler: seq<Command>) | Return

  // The fallback's compare-and-set and test-and-set always access four bytes.
  function AccessSize(branch: Branch, size: Size, op: Op): Size {
    if branch.InterruptMasking? && (op.CompareAndSet? || op.TestAndSet?) then FourBytes else size
  }

  /*
   * Programs
   */

  // The number of open Disable calls after the first k commands.
  function Depth(prog: seq<Command>, k: nat): int
    requires k <= |prog|
  {
    if k == 0 then 0
    else Depth(prog, k - 1) + match prog[k - 1] case Atomic(_) => 0 case Disable => 1 case Enable => -1
  }

  // Disable and Enable come in pairs, as the header demands of its users.
  ghost predicate Balanced(prog: seq<Command>) {
    && Depth(prog, |prog|) == 0
    && forall k: nat :: k <= |prog| ==> Depth(prog, k) >= 0
  }

  // The atomic operations among the first k commands.
  function Ops(prog: seq<Command>, k: nat): seq<Op>
    requires k <= |prog|
  {
    if k == 0 then []
    else Ops(prog, k - 1) + if prog[k - 1].Atomic? then [prog[k - 1].op] else []
  }

  // The operations of one context in the log, oldest first.
  function OpsOf(log: seq<Event>, context: nat): seq<Op> {
    if log == [] then []
    else
      var last := log[|log| - 1];
      OpsOf(log[..|log| - 1], context) + if last.context == context then [last.op] else []
  }

  // And what the log says they returned.
  function ResultsOf(log: seq<Event>, context: nat): seq<nat> {
    if log == [] then []
    else
      var last := log[|log| - 1];
      ResultsOf(log[..|log| - 1], context) + if last.context == context then [last.result] else []
  }

  /*
   * Steps
   */

  function Top(s: State): nat
    requires s.stack != []
  {
    s.stack[|s.stack| - 1]
  }

  function Fresh(prog: seq<Command>, mask: bool): Context {
    Context(prog, 0, Idle, mask, [], 0, 0, [])
  }

  ghost predicate Initial(s: State) {
    && |s.contexts| == 1 && s.stack == [0] && s.log == [] && !s.closed
    && s.contexts[0] == Fresh(s.contexts[0].prog, s.primask)
    && Balanced(s.contexts[0].prog)
  }

  // What a completed command leaves of its context, and a call that returns ret.
  function Advanced(c: Context): Context {
    c.(next := c.next + 1, pc := Idle, retries := 0, hits := 0)
  }

  function Finished(c: Context, ret: nat): Context {
    Advanced(c).(returned := c.returned + [ret])
  }

  function Update(s: State, c: Context): State
    requires s.stack != [] && Top(s) < |s.contexts|
  {
    s.(contexts := s.contexts[Top(s) := c])
  }

  // The value the code hands back: test-and-set what it had loaded, compare-and-set
  // on which of its two exits it is.
  function Returned(op: Op, loaded: nat, stored: bool): nat {
    match op
    case CompareAndSet(_, _) => if stored then 1 else 0
    case TestAndSet(_) => loaded
    case _ => 0
  }

  function Logged(branch: Branch, size: Size, s: State, op: Op, ret: nat): seq<Event>
    requires s.stack != []
  {
    s.log + [Event(Top(s), AccessSize(branch, size, op), op, ret)]
  }

  function RunAtomic(branch: Branch, size: Size, s: State, c: Context, op: Op): State
    requires s.stack != [] && Top(s) < |s.contexts|
  {
    var n := AccessSize(branch, size, op);
    match c.pc
    case Idle =>
      if branch.InterruptMasking? then
        Update(s, c.(pc := MaskRead(s.primask)))
      else
        var x := Read(n, s.cell);
        if Refuses(n, op, x) then
          Update(s, c.(pc := Refused)).(
            closed := true, log := Logged(branch, size, s, op, Returned(op, x, false)))
        else
          Update(s, c.(pc := Loaded(x))).(closed := true)
    case Loaded(x) =>
      if s.closed then
        var ret := Returned(op, x, true);
        Update(s, Finished(c, ret)).(
          closed := false, cell := Write(n, s.cell, Modified(n, op, x)), log := Logged(branch, size, s, op, ret))
      else
        Update(s, c.(pc := Idle, retries := c.retries + 1))
    case Refused =>
      Update(s, Finished(c, 0)).(closed := false)
    case MaskRead(m) =>
      Update(s, c.(pc := Masked(m))).(primask := true)
    case Masked(m) =>
      Update(s, c.(pc := MaskedLoaded(m, Read(n, s.cell))))
    case MaskedLoaded(m, x) =>
      var stores := !Refuses(n, op, x);
      var ret := Returned(op, x, stores);
      Update(s, c.(pc := MaskedDone(m, ret))).(
        cell := if stores then Write(n, s.cell, Modified(n, op, x)) else s.cell,
        log := Logged(branch, size, s, op, ret))
    case MaskedDone(m, ret) =>
      Update(s, Finished(c, ret)).(primask := m)
  }

  function RunCommand(branch: Branch, size: Size, s: State, c: Context): State
    requires s.stack != [] && Top(s) < |s.contexts| && c.next < |c.prog|
  {
    match c.prog[c.next]
    case Atomic(op) => RunAtomic(branch, size, s, c, op)
    case Disable =>
      if c.pc.MaskRead? then
        Update(s, Advanced(c).(saved := c.saved + [c.pc.mask])).(primask := true)
      else
        Update(s, c.(pc := MaskRead(s.primask)))
    case Enable =>
      if c.saved == [] then s
      else
        Update(s, Advanced(c).(saved := c.saved[..|c.saved| - 1])).(primask := c.saved[|c.saved| - 1])
  }

  // Which actions can happen in a state. An interrupt is taken only while
  // PRIMASK is clear; a handler returns when its program is over.
  ghost predicate Enabled(s: State, a: Action) {
    && s.stack != [] && Top(s) < |s.contexts|
    && match a
       case Run => s.contexts[Top(s)].next < |s.contexts[Top(s)].prog|
       case Interrupt(handler) => !s.primask && Balanced(handler)
       case Return => |s.stack| > 1 && s.contexts[Top(s)].next == |s.contexts[Top(s)].prog|
  }

  function Next(branch: Branch, size: Size, s: State, a: Action): State
    requires s.stack != [] && Top(s) < |s.contexts|
    requires a.Run? ==> s.contexts[Top(s)].next < |s.contexts[Top(s)].prog|
  {
    var c := s.contexts[Top(s)];
    match a
    case Run => RunCommand(branch, size, s, c)
    case Interrupt(handler) =>
      s.(closed := false,
         contexts := s.contexts[Top(s) := c.(hits := c.hits + 1)] + [Fresh(handler, false)],
         stack := s.stack + [|s.contexts|])
    case Return =>
      s.(closed := false, stack := s.stack[..|s.stack| - 1])
  }

  // A run: consecutive states related by enabled actions.
  ghost predicate IsRun(branch: Branch, size: Size, run: seq<State>, actions: seq<Action>) {
    && |run| == |actions| + 1 && Initial(run[0])
    && forall i :: 0 <= i < |actions| ==>
         Enabled(run[i], actions[i]) && run[i + 1] == Next(branch, size, run[i], actions[i])
  }

  /*
   * The invariant
   */

  // The PRIMASK value the context's open Disable calls amount to.
  function Level(c: Context): bool {
    if c.saved == [] then c.entryMask else true
  }

  // The context agrees with the given PRIMASK value.
  ghost predicate MaskOk(c: Context, primask: bool) {
    && (forall i :: 0 <= i < |c.saved| ==> c.saved[i] == (i > 0 || c.entryMask))
    && match c.pc
       case Idle => primask == Level(c)
       case Loaded(_) => primask == Level(c)
       case Refused => primask == Level(c)
       case MaskRead(m) => primask == Level(c) == m
       case Masked(m) => primask && m == Level(c)
       case MaskedLoaded(m, _) => primask && m == Level(c)
       case MaskedDone(m, _) => primask && m == Level(c)
  }

  ghost predicate ProgOk(branch: Branch, c: Context) {
    && Balanced(c.prog) && c.next <= |c.prog|
    && |c.saved| == Depth(c.prog, c.next)
    && (!c.pc.Idle? ==> c.next < |c.prog|)
    && (branch.InterruptMasking? ==> !c.pc.Loaded? && !c.pc.Refused?)
    && (branch.LoadStoreExclusive? && c.next < |c.prog| && c.prog[c.next].Atomic? ==>
          c.pc.Idle? || c.pc.Loaded? || c.pc.Refused?)
    && (c.next < |c.prog| && c.prog[c.next].Disable? ==> c.pc.Idle? || c.pc.MaskRead?)
    && (c.next < |c.prog| && c.prog[c.next].Enable? ==> c.pc.Idle?)
  }

  // An attempt that is bound to fail counts as a retry already.
  ghost predicate RetryOk(c: Context, doomed: bool) {
    c.retries + (if c.pc.Loaded? && doomed then 1 else 0) <= c.hits
  }

  // The operations of a context that have taken effect.
  function Effective(c: Context): seq<Op>
    requires c.next <= |c.prog|
  {
    Ops(c.prog, if (c.pc.Refused? || c.pc.MaskedDone?) && c.next < |c.prog| then c.next + 1 else c.next)
  }

  // What the current call will return, once it has taken effect.
  function Held(c: Context): seq<nat> {
    match c.pc
    case Refused => [0]
    case MaskedDone(_, ret) => [ret]
    case _ => []
  }

  ghost predicate ContextOk(branch: Branch, s: State, i: nat)
    requires i < |s.contexts| && s.stack != []
  {
    var c := s.contexts[i];
    && ProgOk(branch, c)
    && OpsOf(s.log, i) == Effective(c) && ResultsOf(s.log, i) == c.returned + Held(c)
    && RetryOk(c, !(i == Top(s) && s.closed))
    && (i in s.stack ==> MaskOk(c, i == Top(s) && s.primask))
    && (i !in s.stack ==> c.next == |c.prog| && c.pc.Idle?)
    && (i > 0 ==> !c.entryMask)
  }

  ghost predicate StackOk(s: State) {
    && s.stack != []
    && (forall i :: 0 <= i < |s.stack| ==> s.stack[i] < |s.contexts|)
    && (forall i, j :: 0 <= i < j < |s.stack| ==> s.stack[i] < s.stack[j])
    && (forall e :: 0 <= e < |s.log| ==> s.log[e].context < |s.contexts|)
  }

  // The value a context holds is current whenever it may still be stored.
  ghost predicate HeldOk(branch: Branch, size: Size, c: Context, closed: bool, cell: nat) {
    && (closed ==> c.pc.Loaded? || c.pc.Refused?)
    && (c.next < |c.prog| && c.prog[c.next].Atomic? ==>
          var op := c.prog[c.next].op;
          && (c.pc.Loaded? && closed ==> c.pc.val == Read(size, cell) && !Refuses(size, op, c.pc.val))
          && (c.pc.MaskedLoaded? ==> c.pc.val == Read(AccessSize(branch, size, op), cell)))
  }

  ghost predicate Inv(branch: Branch, size: Size, cell0: nat, s: State) {
    && StackOk(s)
    && (forall i :: 0 <= i < |s.contexts| ==> ContextOk(branch, s, i))
    && HeldOk(branch, size, s.contexts[Top(s)], s.closed, s.cell)
    && s.cell == Final(cell0, s.log) && Legal(cell0, s.log)
  }
}
