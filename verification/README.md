# Verified models of the simulation harness, boot loader and bring-up programs

This Dafny 4.11 project models the checkers, protocols and arithmetic that surround the RISC-V system on chip in
this repository, and proves what each of them is relied on for. `dafny verify dfyconfig.toml` checks all of it.

## What is modelled

**The SDRAM part** (`SdramMachine`, `SdramHistory`, `SdramChecker`, `SdramMessages`, `SdramData`, `SdramRefresh`,
`SdramLevels`, `SdramWitness`, `SdramPart`). The harness's model of a 16-bit SDR SDRAM refuses protocol errors while
keeping one timestamp per bank and kind of event. `SdramHistory` states the rules over the whole command history, for
every pair of an earlier and a later edge, without mentioning the state; `SdramChecker` proves that the constant-size
state decides exactly those rules on traces of any length. `SdramData` proves the data path against a flat memory,
`SdramRefresh` bounds the number of refreshes, `SdramMessages` that the printed message names a rule really broken,
`SdramLevels` says in numbers what the pin levels and constants mean, with a run from power-up to a word read back,
and `SdramPart` is the class itself, proved to be the step function the theorems speak of. Times are tenths of a
nanosecond, so every constant is an exact integer.

**The UART image loader** (`Crc32`, `CrcRemainder`, `LoaderRom`, `LoaderGuard`, `LoaderProgram`, `LoaderProtocol`,
`LoaderSafety`, `LoaderCompletes`). `LoaderRom` is the ROM as an automaton over what it hears, and `LoaderProgram` the
program, proved to be that automaton. `LoaderGuard` is about the ROM alone, on any line whatever: any bytes, any
header, any silences. `LoaderProtocol` puts a host on the other end; host and ROM are interleaved freely, any wait may
run out and the board may be reset until a knock is answered. Safety, what success means, and that a transfer nothing
disturbs must succeed are proved for every job the host accepts. The ROM's bitwise CRC-32 is proved to be the
table-driven one of section 8 of RFC 1952, to be the remainder of the message modulo the generator polynomial
(`CrcRemainder`), and to detect any corruption inside 32 consecutive bits.

**The serial receiver and the console checker** (`UartRx`, `Console`). The receiver decodes 8N1 frames with any gaps,
for any clocks per bit, exactly when two inequalities between the sender's and the receiver's bit lengths hold. The
checker's clean verdict is proved equivalent to a statement about every prefix of the run.

**The two-hart coherence program** (`RvEncode`, `TwoHart`, `TwoHartSafety`, `TwoHartProgress`, `TwoHartCaches`,
`TwoHartStale`). The generator's word list decodes to the program; the program runs over all interleavings, first over
plain memory, then over write-through caches that drop a word on the other hart's write, and then over caches that do
not, where each of the four failures the program looks for comes about.

**The interrupt-driven transmit ring** (`TxRing`), **64-by-32 division** (`Div64`), **the Sv32 page tables of the two
paging tests and the reference walker** (`Sv32`, `MmuTest`, `DdrMmuTest`), **the address tests** (`AddressTests`),
**the Kconfig merger** (`Kconfig`), **the newc cpio writer** (`Cpio`) and **the boot matrix's job scheduler**
(`BootMatrix`). `Wrappers`, `Words`, `Powers` and `Sequences` hold what several modules share.

## Where the code and its documentation part, or a promise fails

* The SDRAM's mode register accepts a burst length of eight, but a READ then writes past the eight pipeline slots.
  The model ends such a run with an outcome of its own (`Overrun`); `SdramChecker.OverrunIsBurstOfEight` says exactly
  when, and `SdramWitness.BurstOfEightOverruns` gives a trace.
* The dense SDRAM sweep is described as checking that addresses are unique. Its pattern is the same at byte offsets
  0x120 and 0x644, so memory in which those two words are one passes (`AddressTests.SweepBlindSpot`). What a pass does
  exclude is `AddressTests.SweepExcludes`.
* A Kconfig base that repeats a symbol can defeat the fragment; the exact condition is `Kconfig.MergeOverlays`.
* "Exactly one interrupt per byte" holds if and only if there is a byte: an empty transfer takes one interrupt
  (`TxRing.DoneMeansSent`).
* The cpio writer's header comment says the trailer has every field zero. The code gives it an inode number, a link
  count of one and a name size; the model follows the code.
* An archive reads back as all its entries if and only if none is named as the trailer is, leading slashes aside
  (`Cpio.RoundTrip`); in general it reads back as the entries before the first one that is (`Cpio.TrailerNameHides`).
* `run` accepts a cell twice, and a cell started again while it runs loses its first simulation. Whatever the builds
  and simulations take, nothing is lost if and only if one simulation runs at a time or the pending cells differ
  (`BootMatrix.NothingLost`).
* A byte queued on a full transmit ring overwrites the oldest (`TxRing.QueueExact`).

## Model

| member | source | states |
|---|---|---|
| SdramChecker.CheckerExact | sim/verilator_soc.cpp:426-607 | after any number of edges the part is still accepting if and only if every pair of earlier and later edges obeys the rules (power-up wait, tMRD, tRFC, tRP after a PRECHARGE that closed the bank, tRC, tRCD, tRAS, tWR from every written word, banks open or closed, legal mode word, refresh gap) and every READ fits the pipeline |
| SdramChecker.FirstFault | sim/verilator_soc.cpp:653-661 | a run that is no longer accepting stopped at the first edge that broke a rule, or overran the pipeline at the first legal READ that did not fit |
| SdramChecker.OverrunIsBurstOfEight | sim/verilator_soc.cpp:482-482 | a legal READ overruns the pipeline exactly when the burst length in force is eight |
| SdramChecker.BurstStaysAimed | sim/verilator_soc.cpp:446-460 | in every run a write burst under way targets a row that stays open, inside the row and the storage; no PRECHARGE, ACTIVE, mode change or refresh that would disturb it is accepted, and its two storage failures cannot occur |
| SdramChecker.LatestSuffices | sim/verilator_soc.cpp:496-503 | keeping the latest time of an event is as good as keeping all of them |
| SdramChecker.LatestRefresh | sim/verilator_soc.cpp:431-434 | the refresh-gap test on one timestamp is the rule over all earlier refreshes |
| SdramChecker.StepVerdict | sim/verilator_soc.cpp:426-607 | one edge is refused exactly when it breaks a rule of the history, and otherwise the state still describes the history |
| SdramChecker.MrsVerdict | sim/verilator_soc.cpp:470-494 | LOAD MODE REGISTER is accepted exactly when the history allows it |
| SdramChecker.ActVerdict | sim/verilator_soc.cpp:495-508 | ACTIVE is accepted exactly when the history allows it |
| SdramChecker.RdVerdict | sim/verilator_soc.cpp:509-536 | READ is refused exactly when the history forbids it, and goes on exactly when it also fits the pipeline |
| SdramChecker.WrVerdict | sim/verilator_soc.cpp:537-559 | WRITE is accepted exactly when the history allows it |
| SdramChecker.PreVerdict | sim/verilator_soc.cpp:560-586 | PRECHARGE, of one bank or all, is accepted exactly when every open bank it closes has met tRAS and tWR |
| SdramChecker.RefVerdict | sim/verilator_soc.cpp:587-595 | AUTO REFRESH is accepted exactly when all banks are closed and tRFC has passed |
| SdramChecker.BurstVerdict | sim/verilator_soc.cpp:446-460 | the burst half of an edge can fail only because the bus is not driven |
| SdramMessages.MessageTells | sim/verilator_soc.cpp:426-607 | a run that stops stopped at the first edge that breaks any rule, and its message names a rule that edge breaks: each of the 32 refusals is stated over the command history, and the two storage refusals of a burst under way never come |
| SdramMessages.StepTells | sim/verilator_soc.cpp:426-607 | an edge that is refused is refused with the name of a rule it breaks |
| SdramLevels.CommandCodes | sim/verilator_soc.cpp:614-616 | each command is one value of the four control pins with the clock enabled; anything else is no command |
| SdramLevels.CommandLevels | sim/verilator_soc.cpp:462-470 | the same, pin by pin |
| SdramLevels.AddressPins | sim/verilator_soc.cpp:472-475 | the address pins in numbers: burst code, CAS latency, reserved bits, A10, row, column, and which banks a PRECHARGE closes |
| SdramLevels.MaskPins | sim/verilator_soc.cpp:641-644 | what is stored for each of the four values of the two mask pins |
| SdramLevels.FlatFields | sim/verilator_soc.cpp:649-651 | the flat address is the column, the two bank bits above it, and the row above those |
| SdramLevels.BurstLengths | sim/verilator_soc.cpp:478-484 | the four burst codes are lengths 1, 2, 4 and 8 |
| SdramLevels.SpeedGrade | sim/verilator_soc.cpp:355-372 | the timing constants in nanoseconds |
| SdramLevels.WriteThenRead | sim/verilator_soc.cpp:426-612 | on bare pin levels and any contents: refresh, mode, ACTIVATE, WRITE 0xBEEF, WRITE 0x1234 with the low byte masked, READ drives 0x12EF one edge after the READ, and that word of storage is all that changed |
| SdramRefresh.RefreshRate | sim/verilator_soc.cpp:431-434 | over any accepted stretch of length L after the mode is set, the refresh counter rises by at least L/(2 tREFI) - 1 and at most L/tRFC + 1 |
| SdramRefresh.CounterCounts | sim/verilator_soc.cpp:587-595 | the refresh counter is the number of AUTO REFRESH commands in the trace |
| SdramData.FlatInjective | sim/verilator_soc.cpp:649-651 | different bank, row and column reach different words |
| SdramData.StoreWordLane | sim/verilator_soc.cpp:641-644 | a masked byte lane keeps its byte and an unmasked one takes the bus's |
| SdramData.DataPath | sim/verilator_soc.cpp:436-607 | every byte lane of storage holds the last unmasked value stored at that bank, row and column, and every pipeline slot holds what the READ it belongs to fetched |
| SdramData.DrivesExactlyWhatWasRead | sim/verilator_soc.cpp:611-612 | the part drives after an edge if and only if a beat of some READ is due then, and what it drives is that beat |
| SdramData.BeatArrives | sim/verilator_soc.cpp:521-534 | with one mode setting and READs at least a burst apart, beat i of a READ is driven CL-1+i edges after it, with the bytes last stored there before the READ |
| SdramWitness.BurstOfEightOverruns | sim/verilator_soc.cpp:482-533 | a four-command trace that is accepted up to a READ with burst length eight, which overruns |
| SdramPart.Sdram.constructor | sim/verilator_soc.cpp:618-634 | a new part is the initial state |
| SdramPart.Sdram.ShiftPipe | sim/verilator_soc.cpp:436-443 | the pipeline moves up one slot and the last becomes empty |
| SdramPart.Sdram.Store | sim/verilator_soc.cpp:641-644 | one word changes, by byte lanes, and no other |
| SdramPart.Sdram.TakeBurstWord | sim/verilator_soc.cpp:446-460 | the burst half of the edge, failure for failure |
| SdramPart.Sdram.AnyBankActive | sim/verilator_soc.cpp:636-639 | true exactly when some bank has a row open |
| SdramPart.Sdram.LoadMode | sim/verilator_soc.cpp:470-494 | the mode register command, failure for failure |
| SdramPart.Sdram.Activate | sim/verilator_soc.cpp:495-508 | the ACTIVE command, failure for failure |
| SdramPart.Sdram.Read | sim/verilator_soc.cpp:509-536 | the READ command, failure for failure, with its slots filled |
| SdramPart.Sdram.FillSlots | sim/verilator_soc.cpp:521-534 | the slots a READ fills, and no others |
| SdramPart.Sdram.Write | sim/verilator_soc.cpp:537-559 | the WRITE command, failure for failure, with its first word stored |
| SdramPart.Sdram.Precharge | sim/verilator_soc.cpp:560-586 | the PRECHARGE command, failure for failure |
| SdramPart.Sdram.Refresh | sim/verilator_soc.cpp:587-595 | the AUTO REFRESH command, failure for failure |
| SdramPart.Sdram.Edge | sim/verilator_soc.cpp:426-607 | a whole clock edge of the class is one step of the machine the theorems are about |
| SdramPart.Sdram.Output | sim/verilator_soc.cpp:611-612 | what the part drives is the head of the pipeline |
| Crc32.Crc32Step | software/soc/bootrom.c:301-307 | the ROM's loop is eight bit steps on the state XOR the byte |
| Crc32.MatchesRfc1952 | software/soc/uartload.py:260-260 | the ROM's CRC equals the table-driven CRC of section 8 of RFC 1952, which the host computes |
| Crc32.StepBijective | software/soc/bootrom.c:305-305 | each bit step is a bijection on 32-bit states |
| Crc32.BitLinear | software/soc/bootrom.c:305-305 | a bit step distributes over XOR |
| Crc32.FeedIsWordSteps | software/soc/bootrom.c:301-307 | up to 32 message bits are that many bit steps on the state XOR the word of those bits |
| Crc32.FeedIsBits | software/soc/bootrom.c:301-307 | the run over bytes is the run over their bits, low bit first |
| Crc32.FeedInjective | software/soc/bootrom.c:437-437 | different states stay different under the same data |
| Crc32.BurstDetected | software/soc/bootrom.c:440-453 | two images of one length that differ only inside some 32 consecutive bits, wherever they start, have different CRCs |
| Crc32.FourBytesAreABurst | software/soc/bootrom.c:440-453 | any four consecutive bytes are such a burst |
| CrcRemainder.PolyIsGenerator | software/soc/bootrom.c:305-305 | the constant is the generator polynomial of RFC 1952, its highest coefficient in bit 0 |
| CrcRemainder.CrcIsRemainder | software/soc/uartload.py:260-260 | the CRC of any bytes is the complement of the remainder, by long division modulo the generator, of the message times x^32 with its 32 highest coefficients complemented |
| CrcRemainder.BitOrder | software/soc/bootrom.c:301-307 | a byte enters lowest bit first |
| CrcRemainder.CheckValue | software/soc/bootrom.c:437-440 | the CRC of the nine characters 123456789 is 0xCBF43926 |
| LoaderGuard.AnyLineGuarded | software/soc/bootrom.c:309-463 | on any line, memory differs only inside a region that passes the address check, and a jump is to such a region, holding bytes with the checksum the header gave |
| LoaderGuard.JumpsExactly | software/soc/bootrom.c:342-463 | on any line the ROM jumps if and only if it hears a knock, any number of late probes, a header with the right magic and a region that passes the check, and the whole image with the header's checksum, without a silence; whatever follows |
| LoaderGuard.GetsKeeps | software/soc/bootrom.c:394-454 | any byte read keeps memory equal to the received bytes laid over the old contents at an accepted address, with the checksum so far |
| LoaderProgram.BootRom.GetcTimeout | software/soc/bootrom.c:287-295 | a wait yields the next byte or, if it runs out, nothing |
| LoaderProgram.BootRom.UartLoad | software/soc/bootrom.c:335-463 | the program, for every script of bytes and timeouts, ends as the byte-driven automaton does: same memory, same replies, same outcome; and memory has changed only inside a region that passes the address check |
| LoaderProgram.BootRom.Receive | software/soc/bootrom.c:426-454 | the image loop and the checksum test, likewise |
| LoaderProtocol.RegionsAgree | software/soc/bootrom.c:313-328 | the ROM accepts exactly the regions the host offers, and more only with DDR3 |
| LoaderProtocol.RomRegions | software/soc/bootrom.c:313-328 | the regions the ROM accepts, in addresses |
| LoaderProtocol.HostRegions | software/soc/uartload.py:52-66 | the regions the host offers, in addresses |
| LoaderProtocol.RomSays | software/soc/bootrom.c:342-454 | what the ROM replies to each byte in each state, in byte values |
| LoaderProtocol.PackRoundTrip | software/soc/uartload.py:282-282 | a packed header word is read back by the ROM as itself |
| LoaderProtocol.PackCrcRoundTrip | software/soc/uartload.py:282-282 | so is a packed checksum |
| LoaderProtocol.HeaderBytes | software/soc/uartload.py:282-282 | the sixteen header bytes: the magic, then address, length and checksum, low byte first |
| LoaderProtocol.HeaderUnderstood | software/soc/bootrom.c:394-415 | a header that arrives whole is accepted with the address, length and checksum the host meant |
| LoaderSafety.LoaderSafe | software/soc/bootrom.c:335-463 | in every interleaving no image byte meets a full receiver, at most one is unread, a header being collected is the host's with no late probe in it, replies match image bytes one for one, and memory changes only inside a region that passes the ROM's check |
| LoaderSafety.SuccessMeansLoaded | software/soc/uartload.py:282-303 | the host reports success only if the ROM has jumped to the address asked for with the received bytes in memory there, nothing else changed and the checksum right; they are the payload if the line was faithful or corrupted at most 32 consecutive bits |
| LoaderSafety.JumpMeansChecked | software/soc/bootrom.c:440-463 | an image corrupted only inside 32 consecutive bits is never jumped to, whether or not the host has given up |
| LoaderSafety.StepSafe | software/soc/soc.h:342-404 | every action of host, line and ROM keeps the protocol's invariant |
| LoaderSafety.HearsSafe | software/soc/bootrom.c:375-463 | every action keeps what the ROM hears in order, with or without a host: late probes before the header, and an image of the checksum the header gave |
| LoaderSafety.ResetSafe | software/soc/uartload.py:11-15 | a reset pressed before a knock is answered keeps the invariant |
| LoaderSafety.ReadKnock | software/soc/uartload.py:177-199 | what the ROM reads while the host knocks keeps the exchange in order |
| LoaderSafety.ReadSkip | software/soc/bootrom.c:375-383 | late probes are skipped and none is taken for the header's first byte |
| LoaderSafety.ReadHeader | software/soc/bootrom.c:385-415 | header bytes are collected in order, and the last one decides as the host meant |
| LoaderSafety.ReadImage | software/soc/bootrom.c:426-454 | an image byte read is acknowledged once and lands at its place |
| LoaderSafety.ReplySafe | software/soc/uartload.py:202-231 | a reply read moves the host on only when it is an acknowledgement |
| LoaderSafety.TimeoutSafe | software/soc/bootrom.c:376-392 | a wait of the ROM that runs out keeps the invariant in every phase |
| LoaderCompletes.UndisturbedSucceeds | software/soc/uartload.py:177-303 | once a knock has been answered, and while no wait of the ROM runs out, the board is not reset, the host does not give up and no byte is corrupted, a transfer takes at most a bounded number of steps and two for each further knock (at most one knock more than there are bytes to read, for a host that reads between its knocks), cannot stop short of success, and its success means the payload is loaded |
| LoaderCompletes.TakesOne | software/soc/bootrom.c:368-463 | every step of such a transfer takes from a bound on what is left, but a console print, which adds nothing, and a further knock, which adds at most two |
| LoaderCompletes.NeverStuck | software/soc/uartload.py:282-303 | and before success one of them can happen |
| LoaderCompletes.SuccessReachable | software/soc/uartload.py:275-303 | for every job the host accepts and every power-up state, some interleaving answers the knock and ends in success with the payload in memory |
| UartRx.Receiver.TakeSample | sim/verilator_soc.cpp:742-766 | one sample of the class is one step of the receiver, and completed bytes are passed on in order |
| UartRx.FrameSampled | sim/verilator_soc.cpp:742-766 | from idle, any line that falls yields exactly the byte its eight sample points spell |
| UartRx.FrameDecodes | sim/verilator_soc.cpp:742-766 | a frame in tolerance yields its byte and leaves the receiver ready, though it stops part-way through the last data bit |
| UartRx.LineDecodes | sim/verilator_soc.cpp:731-766 | every sequence of frames with any gaps, none included, is decoded exactly |
| UartRx.EndBitsSettleAll | sim/verilator_soc.cpp:738-740 | all eight samples fall in their own bits if and only if the first and the last do |
| UartRx.DecodesExactlyInTolerance | sim/verilator_soc.cpp:735-766 | every sequence of frames is decoded exactly if and only if d <= 3c/2 < 2d and 8d <= 3c/2 + 7c < 9d, c and d being the two bit lengths |
| UartRx.Misread | sim/verilator_soc.cpp:738-750 | outside the tolerance some byte, sent alone, comes out as another |
| UartRx.SameRate | sim/verilator_soc.cpp:738-740 | a sender at the receiver's rate is in tolerance from one clock per bit up |
| UartRx.BitIsBinary | sim/verilator_soc.cpp:751-751 | data bit b has weight 2^b |
| UartRx.FrameLevels | sim/verilator_soc.cpp:735-740 | the frame on the line: low for one bit time, then the binary digits lowest first, then high |
| UartRx.ToleranceInClocks | sim/verilator_soc.cpp:738-740 | the tolerance as two inequalities in clocks |
| Console.Monitor.ThrWrite | sim/verilator_soc.cpp:302-314 | a write to a busy transmitter is counted as dropped, any other joins the queue |
| Console.Monitor.WireByte | sim/verilator_soc.cpp:317-334 | a byte on the line is compared with the oldest one accepted, or is bad if there is none |
| Console.Monitor.Verdict | sim/verilator_soc.cpp:1701-1717 | the end-of-run verdict, with one byte forgiven while the transmitter is shifting |
| Console.QueueExact | sim/verilator_soc.cpp:302-334 | while nothing has gone wrong the queue is what was written and not yet carried, and the counters say exactly whether something has |
| Console.BooksExact | sim/verilator_soc.cpp:302-334 | in every run, faulty or not, the queue is what was accepted less one byte per byte carried while it was not empty, and the bad count is the carried bytes that differ from the oldest then waiting or met an empty queue |
| Console.CleanExactlyFaultless | sim/verilator_soc.cpp:1701-1717 | the verdict is clean if and only if no write found the transmitter busy, the line always carried a prefix of what had been written, and at most the byte still shifting is missing |
| Console.CleanMeansCarried | sim/verilator_soc.cpp:1701-1717 | a clean verdict means the line carried the written bytes in order, short by at most one |
| Console.CleanMeansFramesSent | sim/verilator_soc.cpp:750-754 | through the receiver, a clean verdict speaks about the frames on the line |
| Console.TotalsTrue | sim/verilator_soc.cpp:290-293 | the reported totals are the numbers of writes, of writes while busy, and of bytes carried |
| RvEncode.DecodeEncode | sim/gen_soc2hart_coh.py:25-57 | decoding by the RV32I formats undoes the encoders, for every operand that fits |
| RvEncode.KnownWords | sim/gen_soc2hart_coh.py:25-57 | eight instructions whose words are given as numbers |
| TwoHart.BuildWords | sim/gen_soc2hart_coh.py:62-110 | the list built and patched decodes, word by word, to the program, its dispatch branch landing on hart 1's first word, whatever data region is asked for |
| TwoHartSafety.AddressesDiffer | sim/gen_soc2hart_coh.py:6-12 | the seven shared words and four mirrors are at different addresses in every data region |
| TwoHartSafety.RunKeeps | sim/gen_soc2hart_coh.py:62-104 | every interleaving keeps the program's invariant |
| TwoHartSafety.ReadsAreCoherent | sim/gen_soc2hart_coh.py:12-20 | in every interleaving hart 1's first read of Z is 0, hart 0's early read of X is OLD, and the reads after the polls are NEW and NEW2 |
| TwoHartSafety.FinishedMeansCoherent | sim/gen_soc2hart_coh.py:62-98 | when both harts spin, result and result2 and their mirrors are NEW and NEW2 and both harts have reported |
| TwoHartProgress.SomeoneMoves | sim/gen_soc2hart_coh.py:69-91 | until both are done one hart is not waiting for the other |
| TwoHartProgress.FairRunsFinish | sim/gen_soc2hart_coh.py:62-98 | after forty-two rounds in which each hart takes a turn, both have finished |
| TwoHartCaches.CachedRunRefines | sim/gen_soc2hart_coh.py:18-20 | with caches that drop a word on the other hart's write, every hit agrees with memory and every run is a plain run of the same turns, whatever allocates, fills or is evicted |
| TwoHartCaches.CachedReadsAreCoherent | sim/gen_soc2hart_coh.py:4-20 | the guarantees of the plain program hold over such caches |
| TwoHartCaches.CachedFairRunsFinish | sim/gen_soc2hart_coh.py:4-20 | and so does finishing under fair scheduling, with the right results |
| TwoHartStale.WithoutDrops | sim/gen_soc2hart_coh.py:18-20 | without the drop each of the four failures is reached from reset (hart 0 spins on done or reads the old X, hart 1 spins on go2 or reads the old Z), and it lasts, whatever both harts and the caches do, for as long as the victim's copy of that word is neither evicted nor refilled |
| TwoHartStale.StaleForEver | sim/gen_soc2hart_coh.py:18-20 | from any state with such a stale copy, and under the same condition, the failure lasts |
| TxRing.Ring.StoreByte | software/soc/uartirq.c:58-58 | the byte is stored in the slot the head names: it is staged, and on a full ring it replaces what is queued in that slot |
| TxRing.Ring.PublishByte | software/soc/uartirq.c:59-59 | the head moves past the stored byte, which joins the end of the queue, across wrap-around of the indices |
| TxRing.Ring.TxQueue | software/soc/uartirq.c:56-60 | storing and publishing, on a ring with room or without |
| TxRing.Ring.Handler | software/soc/uartirq.c:66-89 | the oldest byte, if any, is written to the transmitter; the interrupt is turned off when none is left |
| TxRing.Ring.ArmInterrupt | software/soc/uartirq.c:109-112 | the count and the flag are cleared and the interrupt enabled |
| TxRing.Ring.WriteThr | sim/verilator_soc.cpp:302-314 | a busy transmitter discards the byte, an idle one takes it |
| TxRing.Fifo | software/soc/uartirq.c:40-89 | in every interleaving, with interrupts between the store of a byte and the move of the head included, the bytes handed over and those still held are what was stored, in order, and none is lost |
| TxRing.Drains | software/soc/uartirq.c:66-89 | with nothing queued after arming, k interrupts have handed over exactly the first k bytes |
| TxRing.DoneMeansSent | software/soc/uartirq.c:127-131 | done means every byte handed over in order, and then one interrupt per byte exactly when there was a byte |
| TxRing.DrainFinishes | software/soc/uartirq.c:115-125 | the transfer finishes: at most two events per byte and one, and never stuck before it is done |
| TxRing.DisarmedKeepsRing | software/soc/uartirq.c:75-85 | bytes queued after the interrupt is off stay in the ring |
| TxRing.QueueExact | software/soc/uartirq.c:44-60 | a queued byte joins the queue and leaves the rest alone if and only if no byte already in its slot differs from it; a ring with room has none there, and a full one loses its oldest |
| TxRing.SendMessage | software/soc/uartirq.c:106-131 | queue, arm and wait: whatever the hardware has done by then, done means the whole message is on the line with one interrupt per byte, and not done means as many bytes as interrupts |
| Div64.Div64By32 | software/soc/div64test.c:58-89 | exact quotient and remainder for every dividend and nonzero divisor, every intermediate fitting its word, the first loop at most 63 turns and the second one more than the first |
| Sv32.MegapageWalk | sim/verilator_soc.cpp:696-706 | a level-1 leaf translates by its high frame field and the low 22 bits |
| Sv32.FourKbWalk | sim/verilator_soc.cpp:707-714 | a level-2 leaf translates by its frame number and the low 12 bits |
| Sv32.InvalidPage | sim/verilator_soc.cpp:707-711 | a level-2 entry with its lowest bit clear fails the walk, whatever the rest of it |
| Sv32.InvalidMegapage | sim/verilator_soc.cpp:699-702 | a level-1 entry with its lowest bit clear fails the walk, whatever the rest of it |
| Sv32.WalkInNumbers | sim/verilator_soc.cpp:696-715 | the walk in arithmetic: which entry is read at each level, which bits decide, and the address made |
| Sv32.WordInNumbers | sim/verilator_soc.cpp:718-724 | a word is read from its two halfwords, and only inside the window and the storage |
| Sv32.ReadStored | sim/verilator_soc.cpp:717-724 | a word stored in the part's 16-bit storage reads back, and no other aligned word changes |
| Sv32.Store | sim/verilator_soc.cpp:717-724 | the store in place is the function the other lemmas speak of |
| MmuTest.BuildTables | software/soc/mmutest.c:363-413 | whatever the part held, it holds the two tables and the six seeds afterwards, and four checks are reported, all passed |
| MmuTest.FillRoot | software/soc/mmutest.c:371-372 | every root entry becomes an identity megapage, and nothing outside the table changes |
| MmuTest.FillL2 | software/soc/mmutest.c:391-392 | every second-level entry becomes an identity page, and nothing outside the table changes |
| MmuTest.IdentityMap | software/soc/mmutest.c:370-407 | for every 32-bit address the walk yields the address, except in the one invalid page, where it fails |
| MmuTest.IdentityInNumbers | software/soc/mmutest.c:370-407 | the same with the one page that fails given as addresses |
| MmuTest.TablesInNumbers | software/soc/mmutest.c:370-407 | every entry of both tables, as a number |
| MmuTest.SeedsInNumbers | software/soc/mmutest.c:363-413 | the six seeds, as addresses and words |
| MmuTest.SweepInNumbers | software/soc/mmutest.c:149-184 | the pages of the sweep and the values written to them |
| MmuTest.StoreViaKeeps | software/soc/mmutest.c:214-216 | a store through the map outside the tables keeps the map and changes only its own word |
| MmuTest.SModeMain | software/soc/mmutest.c:199-334 | the twelve S-mode checks that do not rest on permissions are reported and pass, re-reading the three pages of one megapage and the 32-page sweep in both orders included; the two words stored hold their complements afterwards, the pages of the sweep their own values, and nothing else that the map reaches has changed, the tables included |
| MmuTest.SweepPages | software/soc/mmutest.c:304-318 | each of the 32 pages reads back the value of its own index, in order and in reverse |
| MmuTest.ReadInOrder | software/soc/mmutest.c:311-312 | the reading pass says yes exactly when every page holds its own value, whatever the memory |
| MmuTest.ReadInReverse | software/soc/mmutest.c:314-315 | so does the reverse pass |
| DdrMmuTest.MegapagePte | software/soc/ddrmmutest.c:196-200 | the entry carries the megapage number in the high frame field alone, with the RWX leaf flags |
| DdrMmuTest.BuildTables | software/soc/ddrmmutest.c:718-791 | whatever the part held, it holds the ten entries, the copied routine and the seeds, and nine checks are reported, all passed |
| DdrMmuTest.CheckCode | software/soc/ddrmmutest.c:747-757 | the read-back of the routine says yes exactly when it is all there, whatever the memory |
| DdrMmuTest.SparseMap | software/soc/ddrmmutest.c:718-776 | every address the ten entries decide translates as meant: two megapages, the console's page, two aliased pages, and the invalid entries fail |
| DdrMmuTest.MapInNumbers | software/soc/ddrmmutest.c:718-776 | the same with every range and offset given as addresses |
| DdrMmuTest.EntriesInNumbers | software/soc/ddrmmutest.c:718-776 | the ten entries, as numbers |
| DdrMmuTest.Places | software/soc/ddrmmutest.c:139-182 | the physical and virtual addresses the map is made of |
| DdrMmuTest.TwoNames | software/soc/ddrmmutest.c:167-182 | the read-only page and the PMP page are also reached through the translated megapage, offset for offset |
| DdrMmuTest.StoreViaKeepsTables | software/soc/ddrmmutest.c:643-645 | a store through the map keeps the tables unless it goes through the part of the megapage that maps them |
| DdrMmuTest.StoreTest | software/soc/ddrmmutest.c:643-645 | the program's store is read back through both names of the frame, and the tables are as they were |
| DdrMmuTest.FetchesCopy | software/soc/ddrmmutest.c:747-757 | a fetch of the copied routine at its virtual address gets the copied word |
| AddressTests.TestAddressUniqueness | software/soc/main.c:100-109 | against any aliasing of addresses, the test passes if and only if no two words of the region are one cell |
| AddressTests.PatternTells | software/soc/sdramcheck.c:129-132 | the pattern is injective, modulo 2^32, on addresses that agree in their low three bits |
| AddressTests.XorBits | software/soc/sdramcheck.c:129-132 | each binary digit of the exclusive or is 1 exactly when the two digits differ |
| AddressTests.PatternValues | software/soc/sdramcheck.c:129-132 | the patterns of three addresses, as numbers |
| AddressTests.Regions | software/soc/sdramcheck.c:243-275 | which addresses each of the three tests covers |
| AddressTests.ThreeMoreBits | software/soc/sdramcheck.c:129-132 | equal patterns whose addresses agree in the low m bits agree in three more |
| AddressTests.PatternTest | software/soc/sdramcheck.c:239-253 | the count of wrong words is right, the first bad address is that of the first word that reads back wrong, and the count is zero if and only if no two aliased words carry different patterns |
| AddressTests.CountsWrong | software/soc/sdramcheck.c:245-251 | the count is the number of addresses that read back wrong |
| AddressTests.TestAllRows | software/soc/sdramcheck.c:239-263 | the row test passes if and only if no two rows alias |
| AddressTests.TestSweep | software/soc/sdramcheck.c:271-303 | the dense sweep passes if and only if no two aliased words carry different patterns |
| AddressTests.SweepExcludes | software/soc/sdramcheck.c:271-303 | a passing sweep excludes aliasing of any two words whose addresses agree in bit 2 |
| AddressTests.SweepBlindSpot | software/soc/sdramcheck.c:129-132 | and not in general: memory in which the words at 0x120 and 0x644 are one passes |
| Kconfig.RenderReads | software/linux/kconfig-merge.py:27-48 | a rendered symbol, set or off, is matched back as itself |
| Kconfig.ClassifyExactly | software/linux/kconfig-merge.py:27-48 | a line is about a symbol if and only if it is, to the letter, one of the two texts for it; any other line, a comment that begins like one included, is none |
| Kconfig.ParseLines | software/linux/kconfig-merge.py:31-44 | the parsing loop yields the symbols in order of first appearance with their last values |
| Kconfig.ParseKeepsLast | software/linux/kconfig-merge.py:31-44 | parsing keeps exactly the last value each symbol is given |
| Kconfig.KeysInOrder | software/linux/kconfig-merge.py:31-44 | symbols are listed in the order in which the lines first name them |
| Kconfig.Merge | software/linux/kconfig-merge.py:51-83 | the loops with their set of written symbols produce the line-by-line merge |
| Kconfig.MergedReads | software/linux/kconfig-merge.py:60-79 | the value of any symbol in the merged file |
| Kconfig.MergeOverlays | software/linux/kconfig-merge.py:51-83 | the merged file parses as the base overlaid by the fragment if and only if every symbol of the fragment that the base repeats already ends with the fragment's value there |
| Kconfig.CheckAfterMerge | software/linux/kconfig-merge.py:86-99 | the check passes on the merged file under exactly that condition |
| Kconfig.RepeatDefeatsFragment | software/linux/kconfig-merge.py:68-73 | a base of two lines on which it fails |
| Kconfig.MergeKeepsLines | software/linux/kconfig-merge.py:60-73 | every line but the first about each symbol of the fragment keeps its text and its place |
| Kconfig.ExtraSelected | software/linux/kconfig-merge.py:75-75 | the symbols appended are exactly those the base does not name, in order |
| Kconfig.MergedShape | software/linux/kconfig-merge.py:75-79 | the base's lines come first, then, if anything is new, a blank line, the heading and the new symbols |
| Kconfig.MergeIdempotent | software/linux/kconfig-merge.py:51-83 | merging the same fragment again changes nothing |
| Kconfig.Check | software/linux/kconfig-merge.py:86-99 | the loop lists exactly the symbols whose final value differs, a missing one counting as off |
| Kconfig.LostSelected | software/linux/kconfig-merge.py:90-94 | the symbols listed are exactly those whose final value is not the one asked for, in order |
| Cpio.Writer.Entry | software/linux/mkcpio.py:53-76 | one aligned block for the next inode number is appended and nothing before it changes |
| Cpio.Writer.Pad | software/linux/mkcpio.py:49-51 | zeros up to a multiple of four |
| Cpio.WriteArchive | software/linux/mkcpio.py:53-82 | a run of the writer produces the blocks of all entries and the trailer |
| Cpio.Hex8Reads | software/linux/mkcpio.py:72-72 | a field that fits 32 bits takes eight digits and reads back |
| Cpio.Hex8AlwaysReads | software/linux/mkcpio.py:72-72 | a field of any size reads back, and takes more than eight digits exactly when 32 bits do not hold it |
| Cpio.SlashesStripped | software/linux/mkcpio.py:58-58 | a name loses exactly its leading slashes |
| Cpio.BlockReads | software/linux/mkcpio.py:14-16 | a reader of the layout gets one entry back and stops where the next begins |
| Cpio.EmptyArchive | software/linux/mkcpio.py:53-82 | the empty archive, byte for byte |
| Cpio.RoundTrip | software/linux/mkcpio.py:42-82 | the archive reads back as all entries, names less leading slashes, and then the trailer, if and only if no entry's stripped name is the trailer's |
| Cpio.InodesDistinct | software/linux/mkcpio.py:45-61 | inode numbers are consecutive and distinct |
| Cpio.Aligned | software/linux/mkcpio.py:72-76 | headers and data start at multiples of four |
| Cpio.TrailerNameHides | software/linux/mkcpio.py:78-82 | what any archive reads back as: the entries before the first with the trailer's name, and that one as the end |
| BootMatrix.BuiltInDistinct | sim/linux_matrix.py:50-54 | the built-in list names no cell twice |
| BootMatrix.CellAt | sim/linux_matrix.py:50-54 | each of the 42 built-in cells, by its place |
| BootMatrix.NameExamples | sim/linux_matrix.py:51-54 | five cell names, spelled out |
| BootMatrix.ImagesTell | sim/linux_matrix.py:142-145 | two cells share an image exactly when they have one core and agree on having four harts |
| BootMatrix.PendingSelected | sim/linux_matrix.py:139-139 | the cells to run are exactly those without a result, or all when forced, in the order of the list |
| BootMatrix.PendingTimes | sim/linux_matrix.py:139-139 | each as often as the list names it |
| BootMatrix.NamesTell | sim/linux_matrix.py:51-54 | different cells have different names, so no result is filed over another |
| BootMatrix.Scheduler.Collect | sim/linux_matrix.py:122-131 | one polling pass records every simulation that is over and keeps exactly the others |
| BootMatrix.Scheduler.Reap | sim/linux_matrix.py:120-133 | waiting to make room ends at the first moment with fewer than the allowed number running, and keeps exactly what is not over |
| BootMatrix.Scheduler.Launch | sim/linux_matrix.py:142-148 | the image is built if it is not there, room is made, and the cell is started; the simulation of that cell that was not over, if any, is lost |
| BootMatrix.Scheduler.Run | sim/linux_matrix.py:136-151 | for any durations and any cells it ends; the cells started are exactly those of the list without a result, or all when forced, in order, and exactly those end with a result of this run, all that was started recorded or lost, exactly as the launches go; one at a time or with different cells nothing is lost; each image is built once |
| BootMatrix.NothingLost | sim/linux_matrix.py:136-151 | a list of pending cells loses no simulation under any durations if and only if one runs at a time or no cell is named twice |
| BootMatrix.TwiceLoses | sim/linux_matrix.py:136-151 | for given durations, one cell named twice loses its first simulation exactly when there is room for both and the first outlasts the second's build |
| BootMatrix.RestartForgets | sim/linux_matrix.py:148-148 | restarting a running cell writes the earlier simulation off, and the accounts do not balance otherwise |

## Left out

* SDRAM registers in place: the class keeps its bank registers and the pipeline as sequence fields that the methods
  reassign; only the storage is an array. The printed mode-register line is not modelled.
* SDRAM address width: row, bank and column are unbounded naturals; the flat address of the real part has 24 bits, so
  it never wraps.
* SDRAM access delay: read data is taken at the edge, as the model itself does after checking its margin.
* Loader hypotheses: a header byte reaches the receiver only once it is empty (the header is sent unacknowledged);
  probes and the header are not corrupted on the line; what the ROM and programs print is never a control code;
  replies are not corrupted; the board is not reset after it has answered a knock. Up to the end of the header
  `LoaderSafety` uses all five. In the image phase it uses the last three: that no image byte meets a full receiver,
  and what success means, rest on each acknowledgement being the ROM's for the byte last sent. Image bytes may be
  corrupted and arrive at any time. `LoaderGuard` and `LoaderProgram` use none.
* Loader time: timeouts are allowed at any moment instead of being measured; the cycle counter and the host's clock
  are not modelled.
* Receiver: the stop-string watch and the terminal output of a completed byte.
* Console checker: the printed reports, and the cycle numbers in them.
* Coherence: the caches' drop of a line is the stated hypothesis, modelled word by word; dropping or filling a whole
  line is several of these actions. Instruction fetch is not cached. No cache or bus hardware is modelled.
* Transmit ring: the interrupt controller's claim and completion; the interrupt is a level, up while the transmitter is
  idle and enabled. The unrelated work the mainline does meanwhile is not modelled.
* TxRing.SendMessage: requires a message of at most 128 bytes, as the program's is; the report on how much of the
  unrelated work was left is not modelled. Arming clears the count and the flag and sets the enable in one step.
* Div64.Div64By32: requires a nonzero divisor, as the routine's division does; the dividend that the routine
  overwrites through its pointer is an in-parameter and an out-parameter.
* Page tables: permissions, accessed and dirty bits, physical memory protection and traps. The walker resolves
  addresses only, so checks that expect a permission fault are not modelled; the DDR3 test's atomics are stores.
* MmuTest.BuildTables: requires a part of at least 0x801000 halfwords, so that both tables are backed; the harness's
  parts are larger.
* AddressTests.TestSweep: the classification of wrong bits that the program prints is not modelled; the pass or fail
  result and the count are.
* Kconfig: a file is a sequence of lines; the override messages and the exit status text are not modelled. Merging
  nothing into nothing gives no line, where the program writes an empty one.
* Cpio: the specification file's parser and the encoding of names; names are bytes.
* BootMatrix.Scheduler.Run: building and parsing results are durations only; the number of simulations running counts
  those kept track of and not those lost.
* Time in the job scheduler: each poll interval is one tick, and builds and simulations take any number of ticks.
* Everything else in the harness: tracing, coverage, file loading, the bus monitor, workload generators, the benchmark
  matrices other than the scheduler, image packers, and the directed tests whose content is a list of checks.
