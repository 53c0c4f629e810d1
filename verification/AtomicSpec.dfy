/**
 The sequential meaning of the local atomic operations: what one operation does
 to the memory cell that holds the variable, what it returns, and what a
 log of operations amounts to.
 */
module AtomicSpec {

  import opened Arithmetic
  import opened Bitwise

  // The operand size; the variable occupies the low bytes of its cell.
  datatype Size = OneByte | TwoBytes | FourBytes
  {
    function Range(): (m: nat)
      ensures m > 0
    {
      match this
      case OneByte => 0x100
      case TwoBytes => 0x1_0000
      case FourBytes => 0x1_0000_0000
    }

    function Width(): nat {
      match this
      case OneByte => 8
      case TwoBytes => 16
      case FourBytes => 32
    }
  }

  datatype Op =
    | Add(val: nat)
    | Sub(val: nat)
    | SetBits(bits: nat)
    | ClearBits(bits: nat)
    | Toggle(bits: nat)
    | ClearAndSet(clearBits: nat, setBits: nat)
    | CompareAndSet(expected: nat, newValue: nat)
    | TestAndSet(newValue: nat)

  // The variable's value, and a store that leaves the neighbouring bytes alone.
  function Read(size: Size, cell: nat): (x: nat)
    ensures x < size.Range()
  {
    cell % size.Range()
  }

  function Write(size: Size, cell: nat, val: nat): nat {
    cell - cell % size.Range() + val % size.Range()
  }

  lemma ReadOfWrite(size: Size, cell: nat, val: nat)
    ensures Read(size, Write(size, cell, val)) == val % size.Range()
    ensures Write(size, cell, val) / size.Range() == cell / size.Range()
  {
    var m, q := size.Range(), cell / size.Range();
    assert Write(size, cell, val) == m * q + val % m;
    DivMod(Write(size, cell, val), m, q, val % m);
  }

  /*
   * Operations
   */

  // The value the operation stores over x; C's unsigned arithmetic wraps.
  function Modified(size: Size, op: Op, x: nat): nat {
    match op
    case Add(val) => (x + val) % size.Range()
    case Sub(val) => (x - val) % size.Range()
    case SetBits(bits) => BitOr(x, bits)
    case ClearBits(bits) => BitClear(x, bits)
    case Toggle(bits) => BitXor(x, bits)
    case ClearAndSet(clearBits, setBits) => BitOr(BitClear(x, clearBits), setBits)
    case CompareAndSet(expected, newValue) => newValue
    case TestAndSet(newValue) => newValue
  }

  // Only compare-and-set may decline to store.
  predicate Refuses(size: Size, op: Op, x: nat) {
    op.CompareAndSet? && x != op.expected % size.Range()
  }

  function CellAfter(size: Size, op: Op, cell: nat): nat {
    var x := Read(size, cell);
    if Refuses(size, op, x) then cell else Write(size, cell, Modified(size, op, x))
  }

  // Compare-and-set reports success as 1, test-and-set the old value.
  function Result(size: Size, op: Op, cell: nat): nat {
    var x := Read(size, cell);
    match op
    case CompareAndSet(_, _) => if Refuses(size, op, x) then 0 else 1
    case TestAndSet(_) => x
    case _ => 0
  }

  /*
   * What the operations do to the variable
   */

  lemma RangeOfWidth(size: Size)
    ensures size.Range() == Pow2(size.Width())
  {
    assert Pow2(8) == 0x100;
    Pow2Sum(8, 8);
    Pow2Sum(16, 16);
  }

  // Setting, clearing and toggling bit by bit; where ClearAndSet is told to do both,
  // setting wins.
  lemma OperationBits(size: Size, op: Op, cell: nat, k: nat)
    requires k < size.Width()
    ensures var before, after := Bit(Read(size, cell), k), Bit(Read(size, CellAfter(size, op, cell)), k);
      && (op.SetBits? ==> after == (before || Bit(op.bits, k)))
      && (op.ClearBits? ==> after == (before && !Bit(op.bits, k)))
      && (op.Toggle? ==> after == (before != Bit(op.bits, k)))
      && (op.ClearAndSet? ==> after == (Bit(op.setBits, k) || (before && !Bit(op.clearBits, k))))
  {
    var x := Read(size, cell);
    var y := Modified(size, op, x);
    ReadOfWrite(size, cell, y);
    RangeOfWidth(size);
    BitOfRemainder(y, size.Width(), k);
    match op {
      case SetBits(bits) => BitwiseMeaning(x, bits, k);
      case ClearBits(bits) => BitwiseMeaning(x, bits, k);
      case Toggle(bits) => BitwiseMeaning(x, bits, k);
      case ClearAndSet(clearBits, setBits) =>
        BitwiseMeaning(x, clearBits, k);
        BitwiseMeaning(BitClear(x, clearBits), setBits, k);
      case _ =>
    }
  }

  // No operation touches the neighbouring bytes.
  lemma NeighboursKept(size: Size, op: Op, cell: nat)
    ensures CellAfter(size, op, cell) / size.Range() == cell / size.Range()
  {
    ReadOfWrite(size, cell, Modified(size, op, Read(size, cell)));
  }

  // Adding and subtracting are those of integers, modulo the variable's range.
  lemma OperationSum(size: Size, op: Op, cell: nat)
    ensures op.Add? ==> Read(size, CellAfter(size, op, cell)) == (Read(size, cell) + op.val) % size.Range()
    ensures op.Sub? ==> Read(size, CellAfter(size, op, cell)) == (Read(size, cell) - op.val) % size.Range()
  {
    ReadOfWrite(size, cell, Modified(size, op, Read(size, cell)));
  }

  datatype Event = Event(context: nat, size: Size, op: Op, result: nat)

  // The cell after the logged operations, one after the other.
  function Final(cell: nat, log: seq<Event>): nat {
    if log == [] then cell
    else
      var last := log[|log| - 1];
      CellAfter(last.size, last.op, Final(cell, log[..|log| - 1]))
  }

  // Every logged result is the one the operation gives at its place in the log.
  ghost predicate Legal(cell: nat, log: seq<Event>) {
    forall i :: 0 <= i < |log| ==>
      log[i].result == Result(log[i].size, log[i].op, Final(cell, log[..i]))
  }

  lemma AppendEvent(cell: nat, log: seq<Event>, e: Event)
    requires Legal(cell, log)
    requires e.result == Result(e.size, e.op, Final(cell, log))
    ensures Final(cell, log + [e]) == CellAfter(e.size, e.op, Final(cell, log))
    ensures Legal(cell, log + [e])
  {
    var log' := log + [e];
    assert log'[..|log|] == log;
    forall i | 0 <= i < |log'|
      ensures log'[i].result == Result(log'[i].size, log'[i].op, Final(cell, log'[..i]))
    {
      assert i < |log| ==> log'[..i] == log[..i];
    }
  }

  /*
   * Counters
   */

  function Added(log: seq<Event>): nat {
    if log == [] then 0
    else
      var op := log[|log| - 1].op;
      Added(log[..|log| - 1]) + if op.Add? then op.val else 0
  }

  function Subtracted(log: seq<Event>): nat {
    if log == [] then 0
    else
      var op := log[|log| - 1].op;
      Subtracted(log[..|log| - 1]) + if op.Sub? then op.val else 0
  }

  ghost predicate OnlyCounts(log: seq<Event>, size: Size) {
    forall i :: 0 <= i < |log| ==> log[i].size == size && (log[i].op.Add? || log[i].op.Sub?)
  }

  // A variable that is only added to and subtracted from holds its first value plus
  // all additions less all subtractions.
  lemma {:induction false} CountsAddUp(size: Size, cell: nat, log: seq<Event>)
    requires OnlyCounts(log, size)
    ensures Read(size, Final(cell, log)) == (Read(size, cell) + Added(log) - Subtracted(log)) % size.Range()
    decreases |log|
  {
    if log != [] {
      var front, op := log[..|log| - 1], log[|log| - 1].op;
      CountsAddUp(size, cell, front);
      OperationSum(size, op, Final(cell, front));
      var sum := Read(size, cell) + Added(front) - Subtracted(front);
      SumModulo(size, sum, if op.Add? then op.val as int else 0 - op.val);
    } else {
      SumModulo(size, cell, 0);
    }
  }

  lemma SumModulo(size: Size, x: int, y: int)
    ensures (x % size.Range() + y) % size.Range() == (x + y) % size.Range()
  {}

  /*
   * The lock built from test-and-set
   */

  // The variable's value after the first k events.
  function ValueAt(cell: nat, size: Size, log: seq<Event>, k: nat): nat
    requires k <= |log|
  {
    Read(size, Final(cell, log[..k]))
  }

  // Event i is a test-and-set that found the lock free and took it.
  ghost predicate Acquires(log: seq<Event>, i: nat, size: Size, free: nat, locked: nat) {
    i < |log| && log[i].op == TestAndSet(locked) && log[i].result == free && log[i].size == size
  }

  // Event k turns a held lock free.
  ghost predicate Frees(cell: nat, size: Size, log: seq<Event>, k: nat, free: nat) {
    k < |log| && ValueAt(cell, size, log, k) != free && ValueAt(cell, size, log, k + 1) == free
  }

  lemma {:induction false} SomeEventFrees(cell: nat, size: Size, log: seq<Event>, a: nat, b: nat, free: nat)
    requires a <= b <= |log|
    requires ValueAt(cell, size, log, a) != free && ValueAt(cell, size, log, b) == free
    ensures exists k :: a <= k < b && Frees(cell, size, log, k, free)
    decreases b - a
  {
    if ValueAt(cell, size, log, a + 1) == free {
      assert Frees(cell, size, log, a, free);
    } else {
      SomeEventFrees(cell, size, log, a + 1, b, free);
    }
  }

  lemma AfterTestAndSet(cell: nat, size: Size, log: seq<Event>, i: nat)
    requires i < |log| && log[i].op.TestAndSet? && log[i].size == size
    ensures ValueAt(cell, size, log, i + 1) == log[i].op.newValue % size.Range()
  {
    assert log[..i + 1][..i] == log[..i];
    ReadOfWrite(size, Final(cell, log[..i]), log[i].op.newValue);
  }

  // Between two acquisitions some event has freed the lock: never two holders.
  lemma LockIsExclusive(cell: nat, size: Size, log: seq<Event>, i: nat, j: nat, free: nat, locked: nat)
    requires Legal(cell, log) && free != locked % size.Range()
    requires i < j && Acquires(log, i, size, free, locked) && Acquires(log, j, size, free, locked)
    ensures exists k :: i < k < j && Frees(cell, size, log, k, free)
  {
    AfterTestAndSet(cell, size, log, i);
    assert log[j].result == ValueAt(cell, size, log, j);
    SomeEventFrees(cell, size, log, i + 1, j, free);
  }
}
