# Models of the MCXW716 firmware drivers

The firmware of a wireless UART board consists mostly of register definitions. This
project models the parts of it that carry algorithms, protocols or invariants over whole
runs, and proves what they promise. Each hardware block is a small explicit machine of
registers, flags and their read and write effects; the driver code is modelled over it.

- **Local atomics** (`AtomicSpec`, `AtomicMachine`, `AtomicProof`, `LocalAtomics`). A thread
  and nested interrupt handlers interleave instruction by instruction over one memory cell,
  the exclusive monitor and PRIMASK. The retry loops over load- and store-exclusive and the
  interrupt-masking fallback are steps of the same machine, and again methods with loops.
- **CRC** (`BitStrings`, `CrcTheory`, `CrcDriver`). The shift-register engine with its
  transpositions, the start sequence, the mixed byte and word write loop, the result readers.
- **EdgeLock message unit** (`MailboxProtocol`, `MessageUnit`, `MailboxArrivals`). One-word
  slots with full and empty flags between the driver and a peer, as interleaved steps over
  whole runs, the polling and message loops as methods, and the link between the two.
- **Aligned allocator** (`AlignedAllocator`), **cycle-counter delay** (`CycleDelay`) and
  **RAM vector table** (`VectorTable`).
- **Clocks** (`ClockSources`, `Oscillators`, `ClockLoss`, `PeripheralClocks`). Four oscillators with busy
  and lock guards, the system clock switch, peripheral gates and the frequency arithmetic.
- **Priorities and bit reversal** (`Priorities`, `BitReversal`), with `Arithmetic`, `Bitwise`
  and `Wrappers` shared.

## What is assumed of the hardware

- Exclusive monitor: as section A3.4 of the ARMv7-M Architecture Reference Manual, it opens
  on exception entry and return, and a store-exclusive stores exactly while it is closed.
- CRC engine: bits enter most significant first; a seed is not transposed; in 16-bit mode the
  upper half of the data register may hold anything. All else is taken from the comments at
  `fsl_crc.c` lines 47-70 and 285-294.
- Message unit: writing fills a transmit slot and reading empties a receive slot; a finite
  number of polls passes before the peer acts, which is the fairness an unbounded wait needs.
- C library: `malloc` returns null or a block apart from all others.
- Clock generator: SEL and VLD are read only and SEL_i holds exactly for the source in use;
  writing 1 clears ERR; a write that changes how an oscillator is driven may make it invalid
  for a while; a running oscillator becomes valid after finitely many moments and stays so;
  the system clock switches to the requested source only once that source is valid. SIRC and
  the 32 kHz oscillator always run. Between any two register accesses the hardware may go on
  for any number of moments.
- Peripheral gates: the presence bit is read only.
- Priority registers: the implemented bits are the upper ones of each byte, and the binary
  point of a group lies as in section B1.5.4 of the ARMv7-M Architecture Reference Manual.

## Results that correct the sources' own description

- The oscillator guards check selection and then write. That is not one step: if a switch to
  the very source is pending, a write can hit the running source (`CheckedWriteHitsIff`) and
  take the system's clock away (`CallStopsClockIff` and `OutcomeKeepsClock` say exactly when).
  The board code waits for every switch and is safe.
- The re-read loop of the message unit takes the newest word, so a peer that refills a slot
  before the driver has left it can make the driver lose a word. Without a rule for the peer
  receiving is safe exactly if no two words of the whole session share a register
  (`OrderKeptIff`), that is, if the session is a single message of at most as many words as
  there are registers (`ReceivingSafeIff`): two one-word messages in a row are already too
  many. The two start-up words are safe only if nothing is sent after them until both are
  read. With the rule every session arrives (`MessagesReceived`, `SessionReceives`). Once a
  word is lost the driver gets fewer words than were sent, so if the peer sends no more it
  waits for ever for the rest (`LostWordStarvesReader`).
- The allocator's 16-bit offset loses the base for some block at every power-of-two alignment
  above 32768, and for none up to it (`AlignmentFitsIff`). The overflow checks fail for the four
  largest alignments (`OverflowChecksExactIff`), and with alignment 0 these are the ones whose
  pointers are wild (`Granted`).
- Compare-and-set and test-and-set of the masking fallback access four bytes whatever the
  variable's size (`FallbackTestAndSetAgreesIff`, `FallbackCompareAndSetAgreesIff`).
- `CLOCK_DisableClock` clears source and divider too, so that enabling again restores a gate
  only if it held neither (`ReenableRestoresIff`, `ReenabledHasNoFrequency`).
- FIRC initialisation with a fixed trim writes the fine trim and thereby zeroes the coarse
  trim: the one asked for is in place exactly when it is zero (`CoarseTrimTakenIff`).
- Reading a message without its header stores from the second buffer word on
  (`ReadMessage`); a bounded wait of 0 means 2^32 polls (`HalReceiveDataWait`).

## Model

| member | source | states |
|---|---|---|
| `AtomicProof.NoLostUpdate` | ZKFJ_BLE_wireless_uart_freertos/drivers/fsl_common_arm.h:92-236 | in every state of every interleaving of a thread and nested handlers, under either branch of the header, the cell is the fold of the logged operations, and the value the code computed for each call, from what it had loaded and which exit it took, is the one the operation gives at its place in that order |
| `AtomicProof.ReturnsAreLogged` | ZKFJ_BLE_wireless_uart_freertos/drivers/fsl_common_arm.h:92-236 | the values a context's calls have returned are the results of its logged operations, in order, but for a current call that has taken effect and not yet returned |
| `AtomicProof.ExactlyOnce` | ZKFJ_BLE_wireless_uart_freertos/drivers/fsl_common_arm.h:92-236 | a context's operations are in the log exactly once, in program order: those it completed plus the current one if it has taken effect |
| `AtomicProof.RetriesBounded` | ZKFJ_BLE_wireless_uart_freertos/drivers/fsl_common_arm.h:92-111 | a call has retried at most as often as it was interrupted |
| `AtomicProof.UninterruptedCallCompletes` | ZKFJ_BLE_wireless_uart_freertos/drivers/fsl_common_arm.h:92-111 | without an interrupt a call is over after one load and one store, with the sequential effect |
| `AtomicProof.MaskRestored` | ZKFJ_BLE_wireless_uart_freertos/drivers/fsl_common_arm.h:897-935 | between commands PRIMASK is the context's entry value when all its disable/enable pairs are closed and set while one is open, at any nesting depth and whatever ran in between |
| `AtomicProof.CompareAndSetStep` | ZKFJ_BLE_wireless_uart_freertos/drivers/fsl_common_arm.h:1044-1094 | instruction by instruction in every run: a compare-and-set changes the cell only in the step that settles its answer, and answers 1 exactly if that step found the expected value and replaced it, 0 exactly if it found another and wrote nothing |
| `AtomicProof.CompareAndSetHonest` | ZKFJ_BLE_wireless_uart_freertos/drivers/fsl_common_arm.h:1044-1094 | in every run, a compare-and-set for which the code answered 1 replaced the expected value at its place in the log, and one for which it answered 0 found another value there and wrote nothing |
| `AtomicProof.MonitorOpenBetweenCommands` | ZKFJ_BLE_wireless_uart_freertos/drivers/fsl_common_arm.h:1044-1094 | no finished call leaves the exclusive monitor closed, a refused compare-and-set included |
| `AtomicProof.LockHasOneHolder` | ZKFJ_BLE_wireless_uart_freertos/drivers/fsl_common_arm.h:1096-1130 | in every run and under either branch, at the width that branch accesses, between two test-and-set calls to which the code answered "free" some event freed the lock |
| `Bitwise.BitwiseMeaning` | ZKFJ_BLE_wireless_uart_freertos/drivers/fsl_common_arm.h:155-236 | or, and-not and exclusive or act on every bit by itself |
| `Bitwise.BitWeight` | ZKFJ_BLE_wireless_uart_freertos/drivers/fsl_common_arm.h:155-236 | bit k is the one of weight 2^k |
| `AtomicSpec.LockIsExclusive` | ZKFJ_BLE_wireless_uart_freertos/drivers/fsl_common_arm.h:1096-1130 | in every legal log of operations of any kind on the variable, some event between two acquisitions of the lock has freed it |
| `AtomicProof.CounterIsSum` | ZKFJ_BLE_wireless_uart_freertos/drivers/fsl_common_arm.h:113-153 | in every interleaving a variable that is only added to and subtracted from holds its first value plus all additions less all subtractions, modulo its range |
| `AtomicSpec.OperationSum` | ZKFJ_BLE_wireless_uart_freertos/drivers/fsl_common_arm.h:113-153 | one addition or subtraction is that of integers, modulo the range |
| `AtomicSpec.OperationBits` | ZKFJ_BLE_wireless_uart_freertos/drivers/fsl_common_arm.h:155-236 | every bit of the variable after setting, clearing, toggling and clear-and-set, in terms of the old bit and the operand bits; where clear-and-set is told both, setting wins |
| `AtomicSpec.NeighboursKept` | ZKFJ_BLE_wireless_uart_freertos/drivers/fsl_common_arm.h:92-111 | no operation touches the neighbouring bytes of the cell |
| `AtomicSpec.ReadOfWrite` | ZKFJ_BLE_wireless_uart_freertos/drivers/fsl_common_arm.h:92-111 | a 1-, 2- or 4-byte store gives the new value modulo the operand size and leaves the neighbouring bytes |
| `AtomicProof.FallbackTestAndSetAgreesIff` | ZKFJ_BLE_wireless_uart_freertos/drivers/fsl_common_arm.h:1154-1163 | the interrupt-masking test-and-set, always four bytes wide, has the outcome of the exclusive one exactly when the neighbouring bytes are zero and the new value, cast to four bytes, fits the variable |
| `AtomicProof.FallbackCompareAndSetAgreesIff` | ZKFJ_BLE_wireless_uart_freertos/drivers/fsl_common_arm.h:1133-1152 | for all operands: where the four-byte compare succeeds, exactly when the new value leaves the neighbouring bytes as they are; elsewhere exactly when the narrow compare fails too |
| `AtomicProof.FallbackCompareAndSetFitting` | ZKFJ_BLE_wireless_uart_freertos/drivers/fsl_common_arm.h:1133-1152 | for operands that fit the variable: exactly when the neighbouring bytes are zero or the compare fails anyway |
| `LocalAtomics.Core.AtomicLocalOps` | ZKFJ_BLE_wireless_uart_freertos/drivers/fsl_common_arm.h:92-111 | the retry loop ends, was interrupted in each failed attempt, and logs exactly one operation of its own after whatever handlers did; the monitor is open |
| `LocalAtomics.Core.CompareAndSetExclusive` | ZKFJ_BLE_wireless_uart_freertos/drivers/fsl_common_arm.h:1044-1094 | the loop with its early return: true exactly when the logged compare-and-set swapped; what handlers did afterwards is not undone |
| `LocalAtomics.Core.DisableGlobalIRQ` | ZKFJ_BLE_wireless_uart_freertos/drivers/fsl_common_arm.h:897-912 | returns the previous PRIMASK and masks interrupts; handlers may act up to that point |
| `LocalAtomics.Core.MaskedOps` | ZKFJ_BLE_wireless_uart_freertos/drivers/fsl_common_arm.h:293-345 | the fallback macros: one own operation, PRIMASK as before, no handler between load and store |
| `LocalAtomics.Core.MaskedCompareAndSet` | ZKFJ_BLE_wireless_uart_freertos/drivers/fsl_common_arm.h:1133-1152 | PRIMASK restored on both return paths; the result tells whether the logged four-byte operation swapped |
| `LocalAtomics.Core.MaskedTestAndSet` | ZKFJ_BLE_wireless_uart_freertos/drivers/fsl_common_arm.h:1154-1163 | returns the value the logged four-byte exchange replaced; PRIMASK restored |
| `CrcTheory.FeedIsRemainder` | ZKFJ_BLE_wireless_uart_freertos/drivers/fsl_crc.c:47-70 | the shift register after a message holds the remainder of a polynomial long division, for every width, polynomial, seed and message |
| `CrcTheory.FeedReflected` | ZKFJ_BLE_wireless_uart_freertos/drivers/fsl_crc.c:123-138 | the mirror image of the left-shifting register is the right-shifting CRC of the mirrored polynomial and seed |
| `CrcTheory.DetectsBurstsIff` | ZKFJ_BLE_wireless_uart_freertos/drivers/fsl_crc.c:25-41 | every burst no longer than the register is detected, in messages of any length, exactly when polynomial bit 0 is 1 |
| `CrcTheory.DetectsOddErrorsIff` | ZKFJ_BLE_wireless_uart_freertos/drivers/fsl_crc.c:25-41 | every error in an odd number of bits is detected, in messages of any length, exactly when the polynomial's low part has odd weight |
| `CrcTheory.FeedInjective` | ZKFJ_BLE_wireless_uart_freertos/drivers/fsl_crc.c:149-171 | with polynomial bit 0 set, equal registers after a common tail come from equal registers |
| `CrcTheory.CodewordLeavesZero` | ZKFJ_BLE_wireless_uart_freertos/drivers/fsl_crc.c:336-371 | a message followed by its own raw checksum leaves the register zero |
| `CrcTheory.FeedLinear` | ZKFJ_BLE_wireless_uart_freertos/drivers/fsl_crc.c:47-70 | the register is linear over exclusive-or in seed and message |
| `CrcDriver.WordIsFourBytes` | ZKFJ_BLE_wireless_uart_freertos/drivers/fsl_crc.c:123-126 | under both write transpositions the driver selects, a little-endian word feeds its four bytes in memory order |
| `CrcDriver.WordAgreesWithBytesIff` | ZKFJ_BLE_wireless_uart_freertos/drivers/fsl_crc.c:295-325 | a word write equals four byte writes for all data exactly under the two transpositions that swap bytes |
| `CrcDriver.ReflectedChecksum` | ZKFJ_BLE_wireless_uart_freertos/drivers/fsl_crc.c:123-138 | with both reflections set the checksum is the LSB-first right-shifting CRC of the bit-reversed polynomial and seed, complemented if asked |
| `CrcDriver.UnreflectedChecksum` | ZKFJ_BLE_wireless_uart_freertos/drivers/fsl_crc.c:123-138 | with no reflection it is the remainder of the plain bytes, each most significant bit first, complemented if asked |
| `CrcDriver.ChecksumBits` | ZKFJ_BLE_wireless_uart_freertos/drivers/fsl_crc.c:123-196 | for every combination of reflections, bit by bit: the remainder of the bytes in the order one reflection says, read in the direction the other says, complemented if asked |
| `CrcDriver.InputBitAt` | ZKFJ_BLE_wireless_uart_freertos/drivers/fsl_crc.c:123-126 | bit j of byte i stands at place 8i + j of the input, counted from the most significant bit, or from the least with input reflection |
| `CrcDriver.DefaultTerms` | ZKFJ_BLE_wireless_uart_freertos/drivers/fsl_crc.c:25-41 | the default protocol is x^16 + x^12 + x^5 + 1 with an all-ones seed, nothing reflected or complemented |
| `CrcDriver.ChecksumIsRemainder` | ZKFJ_BLE_wireless_uart_freertos/drivers/fsl_crc.c:295-371 | the checksum under every protocol is the finished remainder of a long division |
| `CrcDriver.BurstChangesChecksum` | ZKFJ_BLE_wireless_uart_freertos/drivers/fsl_crc.c:295-371 | two buffers whose fed bits differ only inside a window no wider than the checksum have different final checksums |
| `CrcDriver.DefaultDetectsBursts` | ZKFJ_BLE_wireless_uart_freertos/drivers/fsl_crc.c:25-41 | the default protocol detects every burst of at most 16 bits |
| `CrcDriver.OddErrorChangesChecksum` | ZKFJ_BLE_wireless_uart_freertos/drivers/fsl_crc.c:295-371 | two buffers whose fed bits differ in an odd number of places have different final checksums if the polynomial's low part has odd weight |
| `CrcDriver.DefaultDetectsOddErrors` | ZKFJ_BLE_wireless_uart_freertos/drivers/fsl_crc.c:25-41 | which holds of the default protocol |
| `CrcDriver.Crc.ConfigureAndStart` | ZKFJ_BLE_wireless_uart_freertos/drivers/fsl_crc.c:149-171 | the start sequence leaves the control word without WAS, the polynomial and the seed in place |
| `CrcDriver.Crc.Init` | ZKFJ_BLE_wireless_uart_freertos/drivers/fsl_crc.c:232-252 | either protocol configuration leaves the engine settings the protocol calls for and the seed in the register |
| `CrcDriver.Crc.WriteData` | ZKFJ_BLE_wireless_uart_freertos/drivers/fsl_crc.c:295-325 | for every buffer, length and alignment the byte/word/byte loops leave the register that feeding the bytes one by one in memory order gives, with a word access wherever a word is left on a 4-byte boundary and byte accesses elsewhere |
| `CrcDriver.Crc.Get16bitResult` | ZKFJ_BLE_wireless_uart_freertos/drivers/fsl_crc.c:350-371 | the finished checksum under either read transposition, whatever the unused half of the register holds |
| `CrcDriver.Crc.Get32bitResult` | ZKFJ_BLE_wireless_uart_freertos/drivers/fsl_crc.c:336-339 | the finished checksum of a 32-bit protocol |
| `CrcDriver.Crc.Session16` | ZKFJ_BLE_wireless_uart_freertos/drivers/fsl_crc.c:232-371 | initialise, any writes of any sizes at any addresses, read: the bitwise checksum of the concatenation |
| `CrcDriver.Crc.Session32` | ZKFJ_BLE_wireless_uart_freertos/drivers/fsl_crc.c:232-371 | the same for 32-bit protocols |
| `CrcDriver.Crc.SplitAndResume16` | ZKFJ_BLE_wireless_uart_freertos/drivers/fsl_crc.h:59-67 | reading an intermediate checksum and resuming with it as seed gives the one-shot checksum for every split, though the engine served someone else in between |
| `CrcDriver.Crc.SplitAndResume32` | ZKFJ_BLE_wireless_uart_freertos/drivers/fsl_crc.h:59-67 | the same for 32-bit protocols |
| `MailboxProtocol.NoOverwrite` | ZKFJ_BLE_wireless_uart_freertos/drivers/fsl_elemu.c:43-50 | in every interleaving a slot is never written while it is full |
| `MailboxProtocol.OrderKeptIff` | ZKFJ_BLE_wireless_uart_freertos/drivers/fsl_elemu.c:52-65 | for every order of slots: the reader gets the stream in order with every peer, polite or not, exactly if it never looks again or no two words of the whole stream share a slot |
| `MailboxProtocol.ReceivingSafeIff` | ZKFJ_BLE_wireless_uart_freertos/drivers/fsl_elemu.c:236-309 | a session of received messages, each starting at register 0, is in order with every peer exactly if the driver never looks again or all words of the session are in one message of at most one lap |
| `MailboxProtocol.PolitePreservesOrder` | ZKFJ_BLE_wireless_uart_freertos/drivers/fsl_elemu.c:52-65 | if a slot is refilled only after the reader has left it, or the reader does not look again, the words read are the stream's prefix in every state of every run |
| `MailboxProtocol.MessagesArrive` | ZKFJ_BLE_wireless_uart_freertos/drivers/fsl_elemu.c:93-119 | any sequence of accepted messages, each starting at slot 0, arrives as the concatenation of the buffers: a prefix at all times, all of it at the end |
| `MailboxProtocol.MessagesReceived` | ZKFJ_BLE_wireless_uart_freertos/drivers/fsl_elemu.c:236-309 | with a polite peer any sequence of messages of any lengths, each starting at register 0, is received as their concatenation: a prefix at all times, all of it at the end |
| `MailboxProtocol.ImpolitePeerLosesWord` | ZKFJ_BLE_wireless_uart_freertos/drivers/fsl_elemu.c:60-64 | for the first repeated slot of any order, shared by words p and q, and any number of second looks, a run exists in which the re-read loop replaces word p by word q |
| `MailboxProtocol.WordsConserved` | ZKFJ_BLE_wireless_uart_freertos/drivers/fsl_elemu.c:43-65 | in every state of every run each word sent is handed over, overwritten, in hand or in a slot, and in one of these places only |
| `MailboxProtocol.LostWordStarvesReader` | ZKFJ_BLE_wireless_uart_freertos/drivers/fsl_elemu.c:43-65 | of a stream with an end: before the last word is read, a run that has lost no word can always make progress; one that has lost a word never gets to the last |
| `MailboxProtocol.ProductiveStepsRunOut` | ZKFJ_BLE_wireless_uart_freertos/drivers/fsl_elemu.c:43-65 | every step that changes the state, re-reads included, lowers a bound that stays non-negative |
| `MessageUnit.Elemu.HalSendData` | ZKFJ_BLE_wireless_uart_freertos/drivers/fsl_elemu.c:43-50 | waits until the register is empty and writes exactly the one word |
| `MessageUnit.Elemu.HalReceiveData` | ZKFJ_BLE_wireless_uart_freertos/drivers/fsl_elemu.c:52-65 | takes the word waited for, or the newest refill the re-read loop saw, after exactly as many idle polls as it was late |
| `MessageUnit.Elemu.HalReceiveDataWait` | ZKFJ_BLE_wireless_uart_freertos/drivers/fsl_elemu.c:67-91 | success exactly when the word is there within the limit, which is wait polls, or 2^32 for wait 0; on timeout exactly that many idle polls and nothing taken |
| `MessageUnit.Elemu.SendMessage` | ZKFJ_BLE_wireless_uart_freertos/drivers/fsl_elemu.c:93-119 | the error cases exactly, and otherwise word k of the buffer written to transmit register k |
| `MessageUnit.Elemu.SendMessages` | ZKFJ_BLE_wireless_uart_freertos/drivers/fsl_elemu.c:93-119 | any number of messages, one call after the other, each written from register 0 on |
| `MailboxArrivals.SentAsPlanned` | ZKFJ_BLE_wireless_uart_freertos/drivers/fsl_elemu.c:93-119 | what these calls write is the stream of the interleaved model, word by word in the planned slots |
| `MessageUnit.Elemu.ReadMessage` | ZKFJ_BLE_wireless_uart_freertos/drivers/fsl_elemu.c:236-273 | word k taken from register k mod RR_COUNT, whatever was received before; with a header whose third byte is n, exactly n + 1 words are taken and n + 1 modulo 256 is the size, the buffer holds header and payload in wire order and the rest is untouched |
| `MessageUnit.SizeOfHeader` | ZKFJ_BLE_wireless_uart_freertos/drivers/fsl_elemu.h:37-43 | the size of a header word composed of any four bytes is its third byte |
| `MessageUnit.Elemu.ReadMessages` | ZKFJ_BLE_wireless_uart_freertos/drivers/fsl_elemu.c:236-273 | successive framed reads return the messages of the queue one after the other, for any number of them |
| `MessageUnit.Elemu.Session` | ZKFJ_BLE_wireless_uart_freertos/drivers/fsl_elemu.c:121-153 | wait for readiness, start-up words included, then any number of framed reads: the messages that follow |
| `MessageUnit.Elemu.ReadDataWait` | ZKFJ_BLE_wireless_uart_freertos/drivers/fsl_elemu.c:275-309 | timeout exactly at the first word not there in its register within wait polls; exactly the words before it are stored and taken, the rest of the buffer is untouched, and idle polls are at most wait per word |
| `MessageUnit.Elemu.WaitForData` | ZKFJ_BLE_wireless_uart_freertos/drivers/fsl_elemu.c:330-347 | the error cases exactly; success only with all words there in time and stored |
| `MessageUnit.Elemu.StartupWait` | ZKFJ_BLE_wireless_uart_freertos/drivers/fsl_elemu.c:354-376 | success exactly when both reset words arrive in time and are the right ones |
| `MessageUnit.Elemu.WakeupPathInit` | ZKFJ_BLE_wireless_uart_freertos/drivers/fsl_elemu.c:378-410 | a running subsystem is not waited for; otherwise success exactly as the start-up wait |
| `MessageUnit.Elemu.WaitForReady` | ZKFJ_BLE_wireless_uart_freertos/drivers/fsl_elemu.c:121-153 | success exactly when woken and idle within the allowed polls |
| `MessageUnit.PoliteTransfer` | ZKFJ_BLE_wireless_uart_freertos/drivers/fsl_elemu.c:236-309 | with a polite peer the stored words are the sent stream |
| `MailboxArrivals.RunIsArrivalQueue` | ZKFJ_BLE_wireless_uart_freertos/drivers/fsl_elemu.c:52-65 | every run of the mailbox, with any peer, presents itself to the reader as an arrival queue: transfer k hands over its newest refill, its delays add up to the idle polls, what it drops is what was overwritten, and it takes no more refills than the reader looks again |
| `MailboxArrivals.PoliteRunIsPoliteQueue` | ZKFJ_BLE_wireless_uart_freertos/drivers/fsl_elemu.c:52-65 | with a polite peer no transfer of that queue is refilled and transfer k yields word k, from its register |
| `MailboxArrivals.SessionReceives` | ZKFJ_BLE_wireless_uart_freertos/drivers/fsl_elemu.c:236-273 | end to end: whatever framed messages a polite peer sends and however the steps interleave, the reader's queue is one from which successive framed reads return exactly these messages |
| `AlignedAllocator.SizeAlignMeaning` | ZKFJ_BLE_wireless_uart_freertos/drivers/fsl_common_arm.h:418-419 | adding and masking in 32 bits gives, for a power of two, the least multiple not below the argument unless the sum wraps, and then zero |
| `AlignedAllocator.SizeAlignBounds` | ZKFJ_BLE_wireless_uart_freertos/drivers/fsl_common_arm.h:418-419 | for every alignment, power of two or not, the result is less than the alignment above the argument, or below the argument when the sum wraps |
| `Bitwise.ClearedRounds` | ZKFJ_BLE_wireless_uart_freertos/drivers/fsl_common_arm.h:418-419 | masking off the bits below a power of two is rounding down to a multiple of it |
| `AlignedAllocator.OverflowChecksExactIff` | ZKFJ_BLE_wireless_uart_freertos/drivers/fsl_common.c:30-42 | the two checks reject exactly the requests that do not fit in 32 bits, for all sizes, exactly for the alignments that leave room for themselves and the header; powers of two or not |
| `AlignedAllocator.Layout` | ZKFJ_BLE_wireless_uart_freertos/drivers/fsl_common.c:57-61 | header and payload lie inside the raw block, the offset lies in [4, align + 3], and for a power of two the pointer is aligned |
| `AlignedAllocator.AlignmentFitsIff` | ZKFJ_BLE_wireless_uart_freertos/drivers/fsl_common.c:61-61 | for a power-of-two alignment, the 16-bit offset gives the base back wherever malloc puts the block exactly when the alignment is at most 32768 |
| `AlignedAllocator.LostBase` | ZKFJ_BLE_wireless_uart_freertos/drivers/fsl_common.c:61-61 | for every larger power of two, a block at a multiple of 8 whose base is not recovered |
| `AlignedAllocator.Granted` | ZKFJ_BLE_wireless_uart_freertos/drivers/fsl_common.c:44-61 | a granted request has room for its header below the pointer exactly for the alignments that leave room for themselves and the header |
| `AlignedAllocator.OtherBlockKept` | ZKFJ_BLE_wireless_uart_freertos/drivers/fsl_common.c:57-61 | writing inside one raw block disturbs no other block's header or payload |
| `AlignedAllocator.LiveBlocksApart` | ZKFJ_BLE_wireless_uart_freertos/drivers/fsl_common.c:25-64 | header and payload of two live pointers never overlap |
| `AlignedAllocator.Heap.SdkMalloc` | ZKFJ_BLE_wireless_uart_freertos/drivers/fsl_common.c:25-64 | for every size and alignment, keeps the heap invariant; malloc is asked once, for the needed size, exactly if that fits 32 bits; null exactly if it does not fit or malloc gave null, and otherwise one pointer in the block malloc gave, aligned for a power of two; only for alignment 0 and the four largest a pointer whose header would lie outside the block; no live payload byte changes |
| `AlignedAllocator.FreedAddress` | ZKFJ_BLE_wireless_uart_freertos/drivers/fsl_common.c:66-84 | the address passed to free is the base when the offset fits, and otherwise lies further inside the block |
| `AlignedAllocator.Heap.SdkFree` | ZKFJ_BLE_wireless_uart_freertos/drivers/fsl_common.c:66-84 | keeps the heap invariant; frees exactly the raw base of a live pointer and nothing for a pointer without the magic number; free gets an address malloc never returned exactly for a live pointer whose offset exceeds 16 bits |
| `AlignedAllocator.Heap.WritePayload` | ZKFJ_BLE_wireless_uart_freertos/drivers/fsl_common.c:25-84 | a write to a live payload keeps the heap invariant and every other payload |
| `CycleDelay.DelayLongEnough` | ZKFJ_BLE_wireless_uart_freertos/drivers/fsl_common_arm.c:205-233 | for every start value and every count up to 2^32 - 1, samples that let both loops end are at least the count apart from the start, provided the clock advanced before the first loop's sample or the count is not the largest |
| `CycleDelay.StuckClockDefeatsLargestCount` | ZKFJ_BLE_wireless_uart_freertos/drivers/fsl_common_arm.c:219-233 | with the largest count and no time passing both loops end at once |
| `CycleDelay.UsecToCountFits` | ZKFJ_BLE_wireless_uart_freertos/drivers/fsl_common_arm.h:359-359 | the 64-bit product cannot overflow for 32-bit arguments |
| `CycleDelay.SdkDelayAtLeastUs` | ZKFJ_BLE_wireless_uart_freertos/drivers/fsl_common_arm.c:205-233 | over any strictly advancing samples the two loops stop exactly at the first sample to reach the target, after the first to show the overflow if there is one, and then less than one cycle is missing from the time asked for |
| `VectorTable.LastInstalledWins` | ZKFJ_BLE_wireless_uart_freertos/drivers/fsl_common_arm.c:59-61 | after any sequence of installations an entry is the handler installed last for its interrupt |
| `VectorTable.NeverInstalled` | ZKFJ_BLE_wireless_uart_freertos/drivers/fsl_common_arm.c:48-57 | an interrupt nothing was installed for keeps the handler of the ROM table |
| `VectorTable.Vectors.InstallIRQHandler` | ZKFJ_BLE_wireless_uart_freertos/drivers/fsl_common_arm.c:18-66 | copies on first use, returns the handler replaced, changes that entry only, all with interrupts masked, and restores PRIMASK |
| `VectorTable.Vectors.GetVector` | ZKFJ_BLE_wireless_uart_freertos/CMSIS/core_cm33.h:2668-2672 | reads the ROM table overlaid with all installations |
| `VectorTable.Vectors.SetVector` | ZKFJ_BLE_wireless_uart_freertos/CMSIS/core_cm33.h:2652-2657 | replaces one entry of a table in RAM |
| `ClockSources.CheckedWriteHitsIff` | ZKFJ_BLE_wireless_uart_freertos/drivers/fsl_clock.c:357-376 | a control register write after a check that found the source idle can hit the running source exactly when a switch to that source was pending and the source runs |
| `ClockSources.SwitchCompletes` | ZKFJ_BLE_wireless_uart_freertos/source/clock_config.c:76-82 | a switch to a running source is over after finitely many moments |
| `ClockSources.WarmsUp` | ZKFJ_BLE_wireless_uart_freertos/drivers/fsl_clock.c:338-341 | an enabled source is valid after its start-up time |
| `ClockSources.OtherSourceKeepsClock` | ZKFJ_BLE_wireless_uart_freertos/drivers/fsl_clock.c:357-376 | configuring a source neither in use nor requested leaves the system a valid clock |
| `Oscillators.RunKeepsClock` | ZKFJ_BLE_wireless_uart_freertos/drivers/fsl_clock.c:321-680 | over every run of initialisations, releases, switches and idle time in which a source being switched to is left alone until the switch is done, the system clock stays valid and no control register is written while its source is in use or locked |
| `Oscillators.CallKeepsClock` | ZKFJ_BLE_wireless_uart_freertos/drivers/fsl_clock.c:321-680 | one call, doing what its method is proved to do, keeps the system clock valid and writes no register of a source in use or locked |
| `ClockLoss.CallStopsClockIff` | ZKFJ_BLE_wireless_uart_freertos/drivers/fsl_clock.c:321-680 | releasing or initialising an idle, unlocked source can take the system clock away exactly if a switch to it is pending when the call starts and its register shows it on, or, for a source that is always on, driven otherwise than the call will drive it |
| `ClockLoss.PendingStopsIff` | ZKFJ_BLE_wireless_uart_freertos/drivers/fsl_clock.c:321-680 | a sequence of register writes can do so exactly if one of them changes how the running source is driven |
| `ClockLoss.OutcomeKeepsClock` | ZKFJ_BLE_wireless_uart_freertos/drivers/fsl_clock.c:321-680 | no outcome that the methods are proved to have leaves the system without clock unless that switch is pending and the register says so |
| `ClockLoss.HarmlessRunKeepsClock` | ZKFJ_BLE_wireless_uart_freertos/drivers/fsl_clock.c:321-680 | over every run without such a call the system keeps a valid clock, whether or not calls wait for switches |
| `Oscillators.CoarseTrimTakenIff` | ZKFJ_BLE_wireless_uart_freertos/drivers/fsl_clock.c:532-535 | a successful fixed-trim initialisation leaves the coarse trim that was asked for exactly when that is zero |
| `Oscillators.Scg.Deinit` | ZKFJ_BLE_wireless_uart_freertos/drivers/fsl_clock.c:357-376 | Busy and ReadOnly exactly for a selected or else locked source, with every register unchanged; otherwise one write that leaves the source released |
| `Oscillators.Scg.InitSysOsc` | ZKFJ_BLE_wireless_uart_freertos/drivers/fsl_clock.c:321-344 | de-initialise, enable, set the monitor mode, wait: on success valid and configured as asked; only this source's register written, by exactly the writes of the call |
| `Oscillators.Scg.InitSirc` | ZKFJ_BLE_wireless_uart_freertos/drivers/fsl_clock.c:412-441 | the same for the slow internal oscillator |
| `Oscillators.Scg.InitFirc` | ZKFJ_BLE_wireless_uart_freertos/drivers/fsl_clock.c:511-560 | the same for the fast one, with range and optional trim; with a trim it fails exactly if the error flag is set when read after the trim mode was written, which takes a fault, and then FIRC stays off |
| `Oscillators.Scg.InitRosc` | ZKFJ_BLE_wireless_uart_freertos/drivers/fsl_clock.c:627-648 | the same for the RTC oscillator, which has no enable bit |
| `Oscillators.Scg.AwaitValid` | ZKFJ_BLE_wireless_uart_freertos/drivers/fsl_clock.c:338-341 | the wait loop ends with the source valid, having written nothing |
| `Oscillators.Scg.SwitchTo` | ZKFJ_BLE_wireless_uart_freertos/source/clock_config.c:76-82 | request and wait: the system then runs from the source, with a valid clock |
| `Oscillators.Scg.FircSafeConfig` | ZKFJ_BLE_wireless_uart_freertos/source/clock_config.c:68-86 | FIRC is configured while the system runs from SIRC; it fails only with a trim, the error flag set and a fault of FIRC |
| `Oscillators.Scg.UnlockControlStatusReg` | ZKFJ_BLE_wireless_uart_freertos/drivers/fsl_clock.h:1126-1129 | unlocks one source and keeps the system clock even if that source provides it |
| `Oscillators.Scg.BootClocks` | ZKFJ_BLE_wireless_uart_freertos/source/clock_config.c:184-236 | the clock part of the board sequence, unlocking included, ends running from a configured FIRC with the other two sources configured, unless the trim found FIRC faulty |
| `PeripheralClocks.Gates.EnableClock` | ZKFJ_BLE_wireless_uart_freertos/drivers/fsl_clock.h:586-611 | opens a closed gate, releases a present module from reset and keeps source and divider |
| `PeripheralClocks.Gates.DisableClock` | ZKFJ_BLE_wireless_uart_freertos/drivers/fsl_clock.h:655-668 | clears the whole word, source and divider included |
| `PeripheralClocks.Gates.SetIpSrc` | ZKFJ_BLE_wireless_uart_freertos/drivers/fsl_clock.h:688-707 | changes the source alone; every write that changes source or divider has the gate closed |
| `PeripheralClocks.Gates.SetIpSrcDiv` | ZKFJ_BLE_wireless_uart_freertos/drivers/fsl_clock.h:737-756 | changes the divider alone, under the same rule |
| `PeripheralClocks.FieldsOfWord` | ZKFJ_BLE_wireless_uart_freertos/device/periph2/PERI_MRCC.h:1348-1356 | gate, source and divider are the disjoint bit fields the masks and shifts name |
| `PeripheralClocks.FlagsOfWord` | ZKFJ_BLE_wireless_uart_freertos/device/periph2/PERI_MRCC.h:1357-1362 | and so are reset negation and presence |
| `PeripheralClocks.SourceAndDividerCommute` | ZKFJ_BLE_wireless_uart_freertos/drivers/fsl_clock.h:688-756 | source and divider can be set in either order, and the reported frequency is then the chosen source's over divider + 1, rounded down |
| `PeripheralClocks.IpFreqMeaning` | ZKFJ_BLE_wireless_uart_freertos/drivers/fsl_clock.c:161-242 | a frequency is reported exactly for a valid source that serves the peripheral, as the rounded-down quotient; otherwise 0 |
| `PeripheralClocks.SysClkIsOneDivision` | ZKFJ_BLE_wireless_uart_freertos/drivers/fsl_clock.c:253-305 | the two-stage division is one rounded-down division by the product of the dividers |
| `PeripheralClocks.DomainsNotFasterThanCore` | ZKFJ_BLE_wireless_uart_freertos/drivers/fsl_clock.c:253-305 | bus and slow clock never exceed the core clock |
| `PeripheralClocks.ConfigRoundTrip` | ZKFJ_BLE_wireless_uart_freertos/drivers/fsl_clock.h:387-396 | the bit-field layout of the system clock configuration is read back as written |
| `Priorities.WidthsSum` | ZKFJ_BLE_wireless_uart_freertos/CMSIS/core_cm33.h:2604-2609 | preemption and subpriority widths add up to the implemented bits |
| `Priorities.DecodeInvertsEncode` | ZKFJ_BLE_wireless_uart_freertos/CMSIS/core_cm33.h:2602-2640 | decoding an encoded pair gives both levels back, cut to their widths |
| `Priorities.EncodeInvertsDecode` | ZKFJ_BLE_wireless_uart_freertos/CMSIS/core_cm33.h:2602-2640 | encoding what a priority decodes to gives back its implemented bits, for every priority |
| `Priorities.LoadedIsCut` | ZKFJ_BLE_wireless_uart_freertos/CMSIS/core_cm33.h:2555-2588 | what is read back is the low implemented bits of what was set |
| `Priorities.StoredOrder` | ZKFJ_BLE_wireless_uart_freertos/CMSIS/core_cm33.h:2555-2615 | stored priority bytes compare as the pairs do lexicographically, for every group and 0 to 8 implemented bits |
| `Priorities.PreemptionOrder` | ZKFJ_BLE_wireless_uart_freertos/CMSIS/core_cm33.h:2602-2615 | the part of the byte above the binary point of the group compares as the preemption levels do |
| `Priorities.DecodePriority` | ZKFJ_BLE_wireless_uart_freertos/CMSIS/core_cm33.h:2629-2640 | both levels are within their widths and encode to the implemented bits of the priority |
| `Priorities.EncodingUnique` | ZKFJ_BLE_wireless_uart_freertos/CMSIS/core_cm33.h:2602-2640 | and no other pair within the widths does |
| `Priorities.Nvic.SetPriority` | ZKFJ_BLE_wireless_uart_freertos/CMSIS/core_cm33.h:2555-2565 | changes the slot of that interrupt and no other |
| `Priorities.Nvic.GetPriority` | ZKFJ_BLE_wireless_uart_freertos/CMSIS/core_cm33.h:2577-2588 | reads the slot of that interrupt |
| `Priorities.Nvic.RoundTrip` | ZKFJ_BLE_wireless_uart_freertos/CMSIS/core_cm33.h:2555-2640 | encode, set, get, decode returns both levels cut to their widths and moves no other interrupt's priority |
| `BitReversal.Rbit` | ZKFJ_BLE_wireless_uart_freertos/CMSIS/cmsis_gcc.h:274-293 | the shifting loop puts bit i at 31 - i for every word |
| `BitReversal.RorRotates` | ZKFJ_BLE_wireless_uart_freertos/CMSIS/cmsis_gcc.h:247-255 | the two shifts of a rotation make one rotation, for every count |
| `BitReversal.RorAdds` | ZKFJ_BLE_wireless_uart_freertos/CMSIS/cmsis_gcc.h:247-255 | rotations add up |
| `BitReversal.ReversalTurnsRotation` | ZKFJ_BLE_wireless_uart_freertos/CMSIS/cmsis_gcc.h:247-293 | bit reversal turns rotation by n into rotation by 32 - n |
| `BitStrings.ReverseTwice` | ZKFJ_BLE_wireless_uart_freertos/CMSIS/cmsis_gcc.h:274-293 | bit reversal is an involution |

## Left out

- Pin muxing, GPIO, timers, the 32 kHz clock module and device headers: straight-line register writes.
- Low-power entry, watchdog unlock and memory protection set-up: behaviour of hardware the files do not show.
- The semaphore calls of the message unit (`fsl_elemu.c` lines 155-233) and `ELEMU_mu_get_response`, which only wraps the framed read.
- Firmware loading over the message unit: it uses libraries that are not part of this model.
- The inline-assembly delay loop and its cycles per turn; the delay is modelled for the cycle counter only.
- Unbounded waits are proved to end only under the finite delays named above; what happens when a peer or oscillator never answers is not modelled.
- A store-exclusive that fails although the monitor is closed, and unaligned four-byte accesses of the masking fallback.
- Addresses that wrap around while a buffer is written to the CRC engine.
- AlignedAllocator.Heap.SdkFree: what `free` does with an address malloc never returned is undefined and not modelled; the method reports that case. A pointer that is not live must not be preceded by the magic number, as after freeing it twice.
- AlignedAllocator.Heap.SdkMalloc: what writing a header outside every block does is undefined and not modelled; the method reports that case.
- MessageUnit.Elemu.HalReceiveData: a word is seen in its register only after all words sent before it have been taken; a peer that fills the registers out of turn is not modelled.
- CrcDriver.Crc.Init: the clock gate and the reset line that CRC_Init operates first are not modelled.
- MessageUnit.Elemu.ReadMessage: the buffer must have room for the message, and enough words must be on their way, since the wait is unbounded.
- CycleDelay.SdkDelayAtLeastUs: does not say when the delay ends at the latest; samples that skip the end of a counter lap can prolong it.
- Oscillators.Scg.BootClocks: the board code ignores a failed FIRC trim and would then wait for ever for the switch; the model reports it instead. Regulator and flash writes and the 32 kHz oscillator's set-up in the same function are not modelled.
- Locking of oscillator registers, clearing their error flags by a separate call, and the radio FRO192M clock.
- Oscillators and PeripheralClocks represent registers by their fields; FieldsOfWord and FlagsOfWord connect gate words to their 32-bit layout, oscillator words have no such lemma. Reserved and trim-status bits of oscillator words are not modelled.
- CLOCK_GetFreq, which only dispatches; there the name for the system clock yields the crystal oscillator's frequency.
- EnableClockLPMode and the TPM2 clock settings, which repeat the gate operations.
- Priorities: the shift by 8 minus the implemented bits is modelled by multiplication, and the disjoint or of the two fields by addition.
- BitReversal: counting leading zeros and saturation are not modelled.
- VectorTable: where VTOR points is a flag, and memory barriers are not modelled.
