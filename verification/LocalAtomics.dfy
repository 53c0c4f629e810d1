/**
 The atomic functions as the header writes them: do/while loops over
 load-exclusive and store-exclusive, and the variants that mask interrupts.

 Interrupts strike between a load and its store. What their handlers do to the
 variable is a sequence of completed operations: in AtomicProof every operation
 takes effect in one step, in every interleaving and at every nesting depth.
 */
module LocalAtomics {

  import opened AtomicSpec

  // The handlers' operations, in the order they took effect.
  type Strike = seq<Op>

  // Only handlers have acted since.
  ghost predicate Struck(before: seq<Event>, log: seq<Event>) {
    && |before| <= |log| && log[..|before|] == before
    && forall i :: |before| <= i < |log| ==> log[i].context == 1
  }

  // The last event is the call's own, and only handlers acted before it.
  ghost predicate OwnEventLast(before: seq<Event>, log: seq<Event>, size: Size, op: Op, result: nat) {
    && log != [] && log[|log| - 1] == Event(0, size, op, result)
    && Struck(before, log[..|log| - 1])
  }

  lemma StruckAgain(a: seq<Event>, b: seq<Event>, c: seq<Event>)
    requires Struck(a, b) && Struck(b, c)
    ensures Struck(a, c)
  {
    assert c[..|a|] == c[..|b|][..|a|];
    forall i | |a| <= i < |c|
      ensures c[i].context == 1
    {
      assert i < |b| ==> c[i] == c[..|b|][i];
    }
  }

  // Each of the first n attempts was interrupted.
  predicate Suffered(strikes: seq<Strike>, n: nat) {
    n <= |strikes| && forall k :: 0 <= k < n ==> strikes[k] != []
  }

  class Core {
    var cell: nat
    var closed: bool       // exclusive monitor
    var primask: bool
    ghost const cell0: nat
    ghost var log: seq<Event>

    // The cell is the fold of the log and every result is legal.
    ghost predicate Valid()
      reads this
    {
      cell == Final(cell0, log) && Legal(cell0, log)
    }

    constructor (initial: nat)
      ensures Valid() && log == [] && cell == initial && !closed && !primask
    {
      cell, closed, primask := initial, false, false;
      cell0, log := initial, [];
    }

    method LoadExclusive(size: Size) returns (x: nat)
      modifies this`closed
      ensures closed && x == Read(size, cell)
    {
      closed := true;
      x := cell % size.Range();
    }

    // Stores, and reports 0, only while the monitor is closed.
    method StoreExclusive(size: Size, val: nat) returns (status: nat)
      modifies this`closed, this`cell
      ensures !closed
      ensures old(closed) ==> status == 0 && cell == Write(size, old(cell), val)
      ensures !old(closed) ==> status == 1 && cell == old(cell)
    {
      status := if closed then 0 else 1;
      if closed {
        Store(size, val);
      }
      closed := false;
    }

    method ClearExclusive()
      modifies this`closed
      ensures !closed
    {
      closed := false;
    }

    ghost method Log(context: nat, size: Size, op: Op, was: nat)
      requires was == Final(cell0, log) && Legal(cell0, log)
      requires cell == CellAfter(size, op, was)
      modifies this`log
      ensures Valid() && log == old(log) + [Event(context, size, op, Result(size, op, was))]
    {
      var e := Event(context, size, op, Result(size, op, was));
      AppendEvent(cell0, log, e);
      log := log + [e];
    }

    // Exception entry, handlers, exception return. Nothing happens when no
    // interrupt is due or PRIMASK is set.
    method Interrupt(size: Size, strike: Strike)
      requires Valid()
      modifies this`cell, this`closed, this`log
      ensures Valid()
      ensures strike == [] || primask ==> cell == old(cell) && closed == old(closed) && log == old(log)
      ensures strike != [] && !primask ==> !closed
      ensures Struck(old(log), log)
    {
      if strike != [] && !primask {
        closed := false;
        for k := 0 to |strike|
          invariant Valid() && !closed
          invariant Struck(old(log), log)
        {
          ghost var was := cell;
          cell := CellAfter(size, strike[k], cell);
          Log(1, size, strike[k], was);
        }
      }
    }

    // One event of this call, after whatever handlers did since before.
    ghost method LogOwn(before: seq<Event>, size: Size, op: Op, was: nat)
      requires was == Final(cell0, log) && Legal(cell0, log) && cell == CellAfter(size, op, was)
      requires Struck(before, log)
      modifies this`log
      ensures Valid() && OwnEventLast(before, log, size, op, Result(size, op, was))
    {
      Log(0, size, op, was);
      assert log[..|log| - 1] == old(log);
    }

    // One attempt of the retry loop.
    method Attempt(ghost before: seq<Event>, size: Size, op: Op, strike: Strike) returns (oldValue: nat, failed: bool)
      requires Valid() && Struck(before, log) && !op.CompareAndSet?
      modifies this`cell, this`closed, this`log
      ensures Valid() && !closed
      ensures failed ==> strike != [] && Struck(before, log)
      ensures !failed ==> OwnEventLast(before, log, size, op, if op.TestAndSet? then oldValue else 0)
    {
      oldValue := LoadExclusive(size);
      var val := Modified(size, op, oldValue);
      ghost var loaded := cell;
      Interrupt(size, strike);
      StruckAgain(before, old(log), log);
      ghost var was := cell;
      var status := StoreExclusive(size, val);
      failed := status != 0;
      if !failed {
        assert was == loaded;
        LogOwn(before, size, op, was);
      }
    }

    // do { val = LDREX; ops } while (0 != STREX): strikes[k] hits the k-th attempt.
    // The call terminates and fails at most as often as it was interrupted.
    method AtomicLocalOps(size: Size, op: Op, strikes: seq<Strike>) returns (oldValue: nat, retries: nat)
      requires Valid() && !op.CompareAndSet?
      modifies this`cell, this`closed, this`log
      ensures Valid() && !closed
      ensures OwnEventLast(old(log), log, size, op, if op.TestAndSet? then oldValue else 0)
      ensures Suffered(strikes, retries)
    {
      ghost var before := log;
      oldValue, retries := 0, 0;
      var failed := true;
      while failed
        invariant Valid() && Suffered(strikes, retries)
        invariant failed ==> Struck(before, log)
        invariant !failed ==> !closed && OwnEventLast(before, log, size, op, if op.TestAndSet? then oldValue else 0)
        decreases failed, |strikes| - retries
      {
        var strike := if retries < |strikes| then strikes[retries] else [];
        oldValue, failed := Attempt(before, size, op, strike);
        if failed {
          retries := retries + 1;
        }
      }
    }

    // True exactly when the expected value was replaced in one step. A failing
    // compare takes effect at its load, which handlers may still follow: logged is
    // the log just after the call took effect.
    method CompareAndSetExclusive(size: Size, expected: nat, newValue: nat, strikes: seq<Strike>)
      returns (swapped: bool, ghost logged: seq<Event>)
      requires Valid()
      modifies this`cell, this`closed, this`log
      ensures Valid() && !closed
      ensures OwnEventLast(old(log), logged, size, CompareAndSet(expected, newValue), if swapped then 1 else 0)
      ensures Struck(logged, log) && (swapped ==> logged == log)
    {
      ghost var op := CompareAndSet(expected, newValue);
      var attempt := 0;
      while true
        invariant Valid() && attempt <= |strikes| && Struck(old(log), log)
        decreases |strikes| - attempt
      {
        var strike := if attempt < |strikes| then strikes[attempt] else [];
        ghost var entered := log;
        var actual := LoadExclusive(size);
        if actual != expected % size.Range() {
          LogOwn(old(log), size, op, cell);
          logged := log;
          Interrupt(size, strike);
          ClearExclusive();
          return false, logged;
        }
        Interrupt(size, strike);
        StruckAgain(old(log), entered, log);
        ghost var was := cell;
        var status := StoreExclusive(size, newValue);
        if status == 0 {
          LogOwn(old(log), size, op, was);
          return true, log;
        }
        attempt := attempt + 1;
      }
      assert false;
      swapped, logged := false, log;
    }

    method DisableGlobalIRQ(size: Size, strike: Strike) returns (mask: bool)
      requires Valid()
      modifies this`cell, this`closed, this`log, this`primask
      ensures Valid() && primask && mask == old(primask) && Struck(old(log), log)
    {
      mask := primask;
      Interrupt(size, strike);
      primask := true;
    }

    method Load(size: Size) returns (x: nat)
      ensures x == Read(size, cell)
    {
      x := cell % size.Range();
    }

    method Store(size: Size, val: nat)
      modifies this`cell
      ensures cell == Write(size, old(cell), val)
    {
      cell := cell - cell % size.Range() + val % size.Range();
    }

    method EnableGlobalIRQ(mask: bool)
      modifies this`primask
      ensures primask == mask
    {
      primask := mask;
    }

    // The fallback macros: handlers act only before interrupts are off, whatever
    // is pending later.
    method MaskedOps(size: Size, op: Op, before: Strike, during: Strike)
      requires Valid() && !op.CompareAndSet? && !op.TestAndSet?
      modifies this
      ensures Valid() && primask == old(primask)
      ensures OwnEventLast(old(log), log, size, op, 0)
    {
      var mask := DisableGlobalIRQ(size, before);
      var x := Load(size);
      Interrupt(size, during);
      ghost var was := cell;
      Store(size, Modified(size, op, x));
      LogOwn(old(log), size, op, was);
      EnableGlobalIRQ(mask);
    }

    method MaskedCompareAndSet(expected: nat, newValue: nat, before: Strike, during: Strike)
      returns (swapped: bool)
      requires Valid()
      modifies this
      ensures Valid() && primask == old(primask)
      ensures OwnEventLast(old(log), log, FourBytes, CompareAndSet(expected, newValue), if swapped then 1 else 0)
    {
      var mask := DisableGlobalIRQ(FourBytes, before);
      var actual := Load(FourBytes);
      Interrupt(FourBytes, during);
      ghost var was := cell;
      if actual == expected % FourBytes.Range() {
        Store(FourBytes, newValue);
        LogOwn(old(log), FourBytes, CompareAndSet(expected, newValue), was);
        EnableGlobalIRQ(mask);
        return true;
      } else {
        LogOwn(old(log), FourBytes, CompareAndSet(expected, newValue), was);
        EnableGlobalIRQ(mask);
        return false;
      }
    }

    method MaskedTestAndSet(newValue: nat, before: Strike, during: Strike) returns (oldValue: nat)
      requires Valid()
      modifies this
      ensures Valid() && primask == old(primask)
      ensures OwnEventLast(old(log), log, FourBytes, TestAndSet(newValue), oldValue)
    {
      var mask := DisableGlobalIRQ(FourBytes, before);
      oldValue := Load(FourBytes);
      Interrupt(FourBytes, during);
      ghost var was := cell;
      Store(FourBytes, newValue);
      LogOwn(old(log), FourBytes, TestAndSet(newValue), was);
      EnableGlobalIRQ(mask);
    }
  }
}
