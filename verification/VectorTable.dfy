/**
 The interrupt vector table: copied to RAM when the first handler is installed,
 then updated in place.
 */
module VectorTable {

  const USER_IRQ_OFFSET: int := 16

  // One installation: interrupt number and handler address.
  datatype Install = Install(irq: int, handler: nat)

  // The ROM table overlaid with installations, oldest first.
  function Overlay(rom: seq<nat>, installs: seq<Install>): (t: seq<nat>)
    ensures |t| == |rom|
  {
    if installs == [] then rom
    else
      var last := installs[|installs| - 1];
      var t := Overlay(rom, installs[..|installs| - 1]);
      var slot := last.irq + USER_IRQ_OFFSET;
      if 0 <= slot < |t| then t[slot := last.handler] else t
  }

  predicate Untouched(installs: seq<Install>, from: nat, irq: int) {
    forall j :: from <= j < |installs| ==> installs[j].irq != irq
  }

  // An interrupt without installations keeps ROM's handler.
  lemma {:induction false} NeverInstalled(rom: seq<nat>, installs: seq<Install>, irq: int)
    requires 0 <= irq + USER_IRQ_OFFSET < |rom|
    requires Untouched(installs, 0, irq)
    ensures Overlay(rom, installs)[irq + USER_IRQ_OFFSET] == rom[irq + USER_IRQ_OFFSET]
  {
    if installs != [] {
      NeverInstalled(rom, installs[..|installs| - 1], irq);
    }
  }

  // Otherwise its entry is the handler installed last, whatever came before or after.
  lemma {:induction false} LastInstalledWins(rom: seq<nat>, installs: seq<Install>, last: nat)
    requires last < |installs| && Untouched(installs, last + 1, installs[last].irq)
    requires 0 <= installs[last].irq + USER_IRQ_OFFSET < |rom|
    ensures Overlay(rom, installs)[installs[last].irq + USER_IRQ_OFFSET] == installs[last].handler
    decreases |installs|
  {
    if last < |installs| - 1 {
      var earlier := installs[..|installs| - 1];
      assert earlier[last] == installs[last];
      LastInstalledWins(rom, earlier, last);
    }
  }

  class Vectors {
    const rom: seq<nat>
    const ram: array<nat>
    var inRam: bool        // where VTOR points
    var primask: bool
    ghost var installs: seq<Install>

    ghost predicate Valid()
      reads this, ram
    {
      && ram.Length <= |rom|
      && (inRam ==> ram[..] == Overlay(rom[..ram.Length], installs))
      && (!inRam ==> installs == [])
    }

    // The table the core uses, as far as RAM reaches.
    function Table(): seq<nat>
      requires ram.Length <= |rom|
      reads this, ram
    {
      if inRam then ram[..] else rom[..ram.Length]
    }

    constructor (romTable: seq<nat>, ramWords: nat)
      requires ramWords <= |romTable|
      ensures Valid() && fresh(ram) && !inRam && installs == [] && rom == romTable && ram.Length == ramWords
    {
      rom := romTable;
      ram := new nat[ramWords];
      inRam, primask, installs := false, false, [];
    }

    // Copies the table on first use, replaces one entry and returns the old one, all
    // with interrupts masked; PRIMASK is then as it was.
    method InstallIRQHandler(irq: int, irqHandler: nat) returns (ret: nat)
      requires Valid() && 0 <= irq + USER_IRQ_OFFSET < ram.Length
      modifies this`inRam, this`primask, this`installs, ram
      ensures Valid() && inRam && primask == old(primask)
      ensures installs == old(installs) + [Install(irq, irqHandler)]
      ensures ret == old(Table()[irq + USER_IRQ_OFFSET])
      ensures Table() == old(Table())[irq + USER_IRQ_OFFSET := irqHandler]
    {
      var irqMaskValue := primask;
      primask := true;
      if !inRam {
        CopyTable();
      }
      ret := Exchange(irq, irqHandler);
      primask := irqMaskValue;
    }

    // Moves the table to RAM, while no interrupt can use it.
    method CopyTable()
      requires Valid() && !inRam && primask
      modifies this`inRam, ram
      ensures Valid() && inRam && Table() == old(Table())
    {
      var n := 0;
      while n < ram.Length
        invariant n <= ram.Length && ram[..n] == rom[..n]
        invariant !inRam && installs == old(installs)
      {
        ram[n] := rom[n];
        n := n + 1;
      }
      inRam := true;
    }

    method Exchange(irq: int, irqHandler: nat) returns (ret: nat)
      requires Valid() && inRam && primask && 0 <= irq + USER_IRQ_OFFSET < ram.Length
      modifies this`installs, ram
      ensures Valid() && installs == old(installs) + [Install(irq, irqHandler)]
      ensures ret == old(Table()[irq + 16])
      ensures Table() == old(Table())[irq + 16 := irqHandler]
    {
      ghost var table, before := Table(), installs;
      ret := ram[irq + 16];
      ram[irq + 16] := irqHandler;
      installs := installs + [Install(irq, irqHandler)];
      assert installs[..|before|] == before;
      assert ram[..] == table[irq + 16 := irqHandler];
    }

    method GetVector(irq: int) returns (vector: nat)
      requires Valid() && 0 <= irq + USER_IRQ_OFFSET < ram.Length
      ensures vector == Overlay(rom[..ram.Length], installs)[irq + USER_IRQ_OFFSET]
    {
      if inRam {
        vector := ram[irq + USER_IRQ_OFFSET];
      } else {
        vector := rom[irq + USER_IRQ_OFFSET];
      }
    }

    // The vector write that presumes a table in RAM.
    method SetVector(irq: int, vector: nat)
      requires Valid() && inRam && 0 <= irq + USER_IRQ_OFFSET < ram.Length
      modifies this`installs, ram
      ensures Valid() && installs == old(installs) + [Install(irq, vector)]
      ensures Table() == old(Table())[irq + USER_IRQ_OFFSET := vector]
    {
      ghost var table, before := Table(), installs;
      ram[irq + USER_IRQ_OFFSET] := vector;
      installs := installs + [Install(irq, vector)];
      assert installs[..|before|] == before;
      assert ram[..] == table[irq + USER_IRQ_OFFSET := vector];
    }
  }
}
