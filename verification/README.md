# Verified model of the sel4cp VMM: interrupt injection, register emulation, formatted output

This project models three parts of the seL4 Core Platform virtual machine monitor and proves
properties of them:

1. **The GICv2 interrupt-injection protocol** (`Protocol`, `Flight`, `Invariants`, `Runs`, `Capacity`,
   `Masking`, `Boot`, `Progress`, `Saturation`), as a state machine over what the VMM stores, what the
   kernel holds and a history of the run. A run is any sequence of actions: registrations, kernel
   messages, guest completions, maintenance events and guest register writes, bit by bit. The driver's own code is modelled
   imperatively (`IrqRing`, `Bitmaps`, `RegisterWrites`, `Vgic`, `System`): a masked-index ring, bitmap
   words, slot tables and loops updated in place. Every handler is proved to perform exactly its step
   of the protocol, so what is proved of all runs of the protocol holds of all runs of the driver.
2. **Lane emulation** (`Lanes`): guest stores and loads of one byte, halfword or word of a
   distributor register.
3. **The bounded formatter** (`NumberText`, `NumberReading`, `Format`, `FormatSpecs`, `Conversions`,
   `Snprintf`): a rendering that knows no buffer, the code that writes it into a bounded one, readers that
   undo it, and what every conversion prints, from the format as written.

`dafny verify dfyconfig.toml` checks the whole project.

## How the code is represented

- A 32-bit or 64-bit register word is the set of its one bits: `w | v` is `w + v`, `w & ~v` is `w - v`, a
  shift moves bit numbers. Integers whose width matters (the `_atoi` result, `va_arg` values, the
  returned `int`, the program counter) are reduced explicitly.
- A failed `assert` loops for ever and a NULL dereference faults, so both stop the VMM: the state gets a
  `status` that names the cause, and no longer changes. Two causes come after all updates of the
  handler, the `assert(0)` at the end of maintenance (`Unanswered`) and the one on writes to GICD_CPENDSGIR
  and GICD_SPENDSGIR (`Unimplemented`). The invariants hold in running states and in these (`Intact`).
- `handle_vgic_maintenance` tests an `err` that is uninitialised when the queue is empty and that holds
  the true-on-success result of a refill otherwise. A maintenance action carries what `err` starts as;
  the model retires and refills as written, then replies if `err` is zero and stops if it is not.
- The kernel is the environment. It masks a source when it fires and sends one message; a masked
  source does not fire; a list register completes only while occupied; each completion raises one
  maintenance event; loading an occupied register is refused.
- Board: qemu_arm_virt_hyp, one vCPU, serial interrupt 33.

## Findings

Where the code does not do what its comments or the ARM GIC Architecture Specification (version 2.0,
issue B.b) promise, the model follows the code, and the exact condition is a theorem:

- Switching GICD_CTLR on acknowledges nothing. A serial interrupt whose notification was dropped while it
  or the distributor was disabled stays masked until the guest writes its ISENABLER bit, or its ISPENDR
  bit while deliverable; it is stuck while deliverable exactly when no such write came between
  (`SerialLiveIffDropped`, `StrandedForever`, `EnableRevives`, `PendRevives`; a run: `LateSwitchOnStrands`).
- Maintenance replies exactly when at most four copies are in flight and the stack garbage in `err` is
  zero, and hangs otherwise: every refill from the queue ends in `assert(0)` (`RepliesWithoutRefill`). So
  interrupts in flight can be drained exactly when there are at most four (`DrainsIff`), with more nothing
  is ever retired again (`NothingRetiredOnceQueued`), and the guest can get there (`BootedHangs`). The four
  interrupts that `init` registers never reach the queue unless the guest writes ICPENDR, and the VMM then
  runs exactly until a fatal action (`BootedNeverQueues`).
- Clearing a pending flag through ICPENDR leaves the copy in flight, so one interrupt can fill the ring
  (`UnpendKeepsExact`, `ToggleOverflows`).
- Reads of ISENABLERn, ICENABLERn, ISPENDRn and ICPENDRn for n >= 1 return the word of bank n - 1
  (`ReadRegister`; a failing read-back: `EnableDoesNotReadBack`).
- Byte and halfword writes to the upper lanes of a bitmap register act on the wrong bits
  (`NarrowBitmapWrite`).
- `#` can take back real digits (`HashKeepsDigits`; an input: `HashDropsDigits`), the sign of a negative
  number is lost when zeros fill the scratch buffer (`FieldReadsBack`; an input: `SignIsLost`), and
  `%lb` prints the low 32 bits only (`BinaryReadsBack`).

## Model

| member | source | states |
|---|---|---|
| Words.Ctz | src/util/util.h:25 | the position returned is a one bit and no lower bit is set |
| Words.Irqs | src/vgic/vdist.h:458-464 | the interrupts a written word selects: exactly base + b for each one bit b, each once, ascending |
| Words.CtzTakesHead | src/vgic/vdist.h:458-463 | one turn of the count-trailing-zeros loop takes the first selected interrupt off the list and leaves the rest |
| Protocol.FindSpi | src/vgic/virq.h:104-112 | lookup returns the earliest slot registered for the interrupt, and NULL exactly when there is none |
| Protocol.FirstFree | src/vgic/virq.h:193-199 | the first invalid slot, or none exactly when all are valid |
| Invariants.FindNamesIrq | src/vgic/virq.h:114-120 | a handle found for an interrupt that is registered names that interrupt |
| Invariants.FindRegistered | src/vgic/virq.h:104-120 | lookup yields a valid handle if and only if the interrupt is registered |
| Invariants.AddFills | src/vgic/virq.h:122-155 | a registration fails if and only if its local slot is taken or no SPI slot is free, and otherwise fills the local slot of that number or the lowest free SPI slot and nothing else |
| Invariants.AddKeepsSlots | src/vgic/virq.h:122-155 | a registration changes no slot in use, keeps local slot i naming interrupt i and used SPI slots a prefix |
| Invariants.AdmitKeepsCore | src/vgic/vdist.h:191-202 | marking pending and queueing adds exactly one copy in flight and keeps order, conservation and shadow agreement |
| Invariants.LoadKeepsCore | src/vgic/virq.h:174-219 | loading a register whose shadow is free always finds the kernel's register free, and moves the oldest queued interrupt without losing or adding a copy |
| Invariants.RetireKeepsCore | src/vgic/vgic.c:32-41 | retiring a completed register takes exactly its copy out of flight and keeps every pending interrupt resident |
| Invariants.InjectCases | src/vgic/vdist.h:172-226 | every outcome of an injection; an injection that finds a free list register found the queue empty and loads exactly the interrupt it queued, otherwise it joins the end of the queue |
| Invariants.InjectEffect | src/vgic/vdist.h:172-226 | the whole effect and result of an injection, case by case: NULL handle, dropped, already pending, overflow after the flag is set, or one copy more in the lowest free list register or last in the queue |
| Invariants.DroppedWhenDisabled | src/vgic/vdist.h:181-184 | a disabled or unregistered interrupt, or any while the distributor is off, is dropped and nothing changes |
| Invariants.RefillCases | src/vgic/vgic.c:42-55 | refilling the retired register restores work conservation and keeps all copies |
| Invariants.MaintainCases | src/vgic/vgic.c:19-62 | the assertion on the slot never fails; a NULL callback stops the handler, otherwise a non-empty queue or non-zero garbage does, at the last assertion; in all but the first case one copy has left flight, the oldest queued interrupt is in its register, the flag is cleared, the source acknowledged and the invariant kept |
| Invariants.StepMoves | src/vgic/vdist.h:181-225 | only an accepted injection of a registered, enabled, not yet pending interrupt adds a copy, only maintenance removes one, each exactly one |
| Invariants.StepKeepsInv | src/vgic/vgic_v2.c:16-36 | every action keeps registration, order, conservation, shadow agreement, residency, SGI enables and work conservation, also when maintenance then hangs |
| Invariants.RunKeepsInv | src/vgic/vgic_v2.c:16-36 | the invariant holds after every run that no failed injection or callback has stopped |
| Runs.AcceptedIsRetiredOrInFlight | src/vgic/vgic.c:32-55 | in every run accepted injections of an interrupt equal its maintenance acknowledgements plus its copies in flight, and loads followed by the queue are the accepted injections in order |
| Runs.ShadowAgrees | src/vgic/virq.h:71-75 | in every run an occupied kernel list register matches its shadow, and a free shadow means a free kernel register and an empty queue |
| Runs.SgisStayEnabled | src/vgic/vdist.h:156-170 | in every run all 16 SGI enable flags stay set |
| Runs.StepKeepsExact | src/vgic/vdist.h:186-192 | every action but an ICPENDR write keeps the pending flag equal to the number of copies |
| Runs.PendingIsResident | src/vgic/vdist.h:172-234 | in every run a pending interrupt has a copy in flight; without ICPENDR writes exactly one, and none when not pending |
| Runs.UnpendKeepsExact | src/vgic/vdist.h:228-234 | clearing a flag keeps the single-copy property if and only if the flag was clear |
| Capacity.FlightFits | src/vgic/virq.h:55-57 | without duplicates the copies in flight fit among the registered interrupts, leaving a place for one not pending |
| Capacity.QueueLength | src/vgic/virq.h:69-75 | the queue holds exactly what exceeds four copies in flight |
| Capacity.OverflowsWhenFull | src/vgic/vdist.h:197-202 | a newly accepted injection overflows exactly when 67 copies are in flight |
| Capacity.OverflowNeeds68 | src/vgic/virq.h:157-172 | in every run without ICPENDR writes an overflow needs 68 distinct registered interrupts |
| Capacity.BurstOverflows | src/vgic/vdist.h:478-490 | in any state the guest can pend a burst of distinct deliverable interrupts, and it overflows exactly when it exceeds the 67 places |
| Capacity.ToggleOverflows | src/vgic/vgic_v2.c:38-40 | the guest can set and clear one pending flag any number of times; each round leaves a copy, and the queue overflows exactly when the rounds exceed the places left |
| Masking.StepKeepsSlots | src/vgic/virq.h:122-147 | no action changes a registered slot, and a newly filled slot holds the registration just made |
| Masking.SlotsNeverChange | src/vgic/virq.h:63-67 | in every run a pointer to a registered slot keeps naming the same handle |
| Masking.MessageCases | src/vmm.c:82-105 | handling a message leaves a copy in flight or drops the injection because it is unregistered or disabled |
| Masking.StepSources | src/vmm.c:82-105 | the exact effect of every action on the masked sources and the messages under way: a VPPI event unmasks its source if and only if it is not delivered, maintenance unmasks exactly the source it retires, enabling unmasks exactly a registered source that is not pending, firing masks, nothing else changes them |
| Masking.StepSwitches | src/vgic/vdist.h:135-170 | the exact effect of every action on the distributor switch, the enable flags and the record of retirements |
| Masking.DeliveryHolds | src/vmm.c:82-105 | a delivered PPI or serial message leaves its source masked, its message taken and its interrupt pending |
| Masking.HeldUntilRetired | src/vgic/vgic_v2.c:16-36 | in every run in which the guest does not clear its pending flag, a delivered source stays masked until maintenance retires its interrupt |
| Masking.StepKeepsPpiLive | src/vmm.c:82-105 | every action keeps a masked PPI signalled or in flight |
| Masking.NoPpiStuck | src/vmm.c:82-105 | in every run, whatever the guest writes, a masked PPI has its message under way or a copy in flight |
| Masking.EnableAcks | src/vgic/vdist.h:135-154 | enabling the serial interrupt while it is not pending unmasks its source |
| Masking.StepKeepsSerialLive | src/vgic/vgic_v2.c:16-36 | every action except a late switch-on keeps the serial interrupt acknowledgeable |
| Masking.NoSerialStuck | src/vgic/vgic_v2.c:16-36 | in every run without a switch-on under a set enable bit, a masked serial interrupt is signalled, in flight, disabled, or the distributor is off |
| Masking.SwitchOnKeepsSerialLive | src/vgic/vdist.h:421-430 | switching the distributor on keeps that property if and only if no enabled serial interrupt was dropped before |
| Masking.StepStranded | src/vmm.c:306-320 | a step strands the serial source if and only if it drops its notification, and ends that if and only if the guest enables it or pends it while deliverable |
| Masking.StrandedIffDropped | src/vgic/vgic_v2.c:16-36 | in every run the serial source ends stranded if and only if one of its notifications was dropped and no later action rescued it |
| Masking.SerialLiveIffDropped | src/vgic/vdist.h:421-430 | in every run, late switch-ons included, the registered serial interrupt is stuck while deliverable if and only if a dropped notification was not rescued and it and the distributor are now enabled |
| Masking.StrandedForever | src/vgic/vgic_v2.c:38-40 | a stranded serial interrupt stays masked in every run without a write of its ISENABLER or ISPENDR bit |
| Masking.EnableRevives | src/vgic/vgic_v2.c:16-24 | writing the ISENABLER bit again unmasks a stranded serial interrupt |
| Masking.PendRevives | src/vgic/vdist.h:478-490 | writing the ISPENDR bit puts a copy of a stranded serial interrupt in flight if and only if it and the distributor are enabled |
| Boot.BootedInv | src/vmm.c:260-283 | after `init` the distributor is off, exactly the 16 SGIs are enabled, nothing is pending or queued, and every invariant holds |
| Boot.BootedTables | src/vmm.c:263-281 | the four registrations of `init` succeed and fill exactly the local slots 27, 0 and 1 and the first SPI slot |
| Boot.FindFails | src/vgic/virq.h:104-120 | lookup is NULL if and only if the interrupt is shared and not registered |
| Boot.StepStatus | src/vgic/vdist.h:174-181 | with callbacks registered, each cause of a stop has its exact condition: a NULL handle if and only if an unregistered shared interrupt is injected, the last assertion of maintenance if and only if more than four copies are in flight or `err` started non-zero, the unimplemented registers if and only if written, and no other assertion ever |
| Boot.RepliesWithoutRefill | src/vgic/vgic.c:22-62 | maintenance replies if and only if at most four copies are in flight and the uninitialised `err` is zero, and the VMM goes on if and only if it replies and the callback is not NULL |
| Boot.BootedNeverQueues | src/vmm.c:263-281 | with the interrupts of `init` and no ICPENDR write the queue is empty between events in every run, and the VMM is running if and only if no maintenance found garbage in `err`, no unimplemented register was written and no unregistered shared interrupt was pended |
| Boot.LateSwitchOnStrands | src/vmm.c:306-320 | a concrete run that leaves the serial interrupt deliverable, masked and never to be acknowledged |
| Progress.SomethingToRetire | src/vgic/vgic.c:23-34 | while anything is in flight some list register can complete or awaits maintenance |
| Progress.Drained | src/vgic/vgic.c:32-43 | each maintenance event that replies takes one copy out of flight, and when all are gone no PPI is left masked without a message under way |
| Progress.DrainsIff | src/vgic/vgic.c:32-62 | completions and maintenance can empty the list registers and the queue and leave the VMM running if and only if at most four copies are in flight |
| Progress.NothingRetiredOnceQueued | src/vgic/vgic.c:42-62 | with five or more copies in flight, every run of any actions that leaves the VMM running contains no maintenance event and keeps every copy in flight |
| Progress.BootedHangs | src/vgic/vgic.c:53-61 | a run of the booted system with `err` initially zero that hangs in `assert(0)` after a refill |
| Saturation.SixtyEightOverflow | src/vgic/virq.h:55-67 | the bound is exact: in any idle state with 68 distinct interrupts registered a run that the guest can make overflows the queue |
| Saturation.RegistersShared | src/vgic/virq.h:122-147 | registering n shared interrupts from reset fills exactly the first n of the 200 slots |
| Saturation.OverflowFromReset | src/vgic/virq.h:157-172 | a run from reset, without ICPENDR writes, in which 68 registrations lead to an overflow |
| IrqRing.Between | src/vgic/virq.h:57-67 | head and tail always delimit at most 63 pointers, 63 exactly when the next tail is the head, none exactly when they are equal |
| IrqRing.BetweenAppend | src/vgic/virq.h:168-169 | storing at the tail and advancing it appends to the sequence, also across the wrap |
| IrqRing.BetweenTail | src/vgic/virq.h:181-184 | advancing the head removes the first element, also across the wrap |
| IrqRing.Ring.Enqueue | src/vgic/virq.h:157-172 | appends to the queue, failing exactly when 63 pointers are queued |
| IrqRing.Ring.Dequeue | src/vgic/virq.h:174-187 | removes and returns the oldest pointer, NULL exactly when the queue is empty |
| Bitmaps.Bitmap.Put | src/vgic/vdist.h:18-47 | changes one flag, in both words of its bank, and nothing else; the set and clear words stay equal |
| Bitmaps.Bitmap.ReadRegister | src/vgic/vdist.h:270-297 | register 0 reads its own bank, register 1 reads zero, register n reads bank n - 1 |
| RegisterWrites.LoopTurn | src/vgic/vdist.h:458-464 | one turn of a bitmap loop performs the action of the lowest selected bit and leaves the others |
| RegisterWrites.WritesWhole | src/vgic/vdist.h:453-502 | a completed write sets or clears exactly the selected flags, keeps SGI enables, for ISPENDR sets exactly the selected flags of registered and enabled interrupts while the distributor is on, and leaves the other bitmap alone |
| RegisterWrites.BankUpdate | src/vgic/vdist.h:453-502 | setting or clearing the selected flags is a whole-word OR or AND-NOT of one bank |
| RegisterWrites.SgiBitsKept | src/vgic/vdist.h:156-170 | what ICENABLER clears is the written word without the low half of bank 0 |
| RegisterWrites.DeliveredAsBits | src/vgic/vdist.h:478-490 | the flags that ISPENDR sets are one word of the written bank: the selected bits of registered and enabled interrupts |
| RegisterWrites.OneBitWrite | src/vgic/vgic_v2.h:80-91 | writing bit irq % 32 at offset 0x100, 0x180, 0x200 or 0x280 plus 4 * (irq / 32) enables, disables, pends or unpends exactly interrupt irq |
| RegisterWrites.WriteEffect | src/vgic/vdist.h:412-595 | the effect of a word write by literal offset: CTLR switches the distributor, a bitmap register updates one bank, SGIR injects bits 3 to 0 unless the filter is reserved, 0xF10 to 0xF2C stop the VMM, every other offset changes nothing |
| RegisterWrites.WritePossible | src/vgic/vdist.h:412-595 | every in-bounds word write, also to the asserting registers, is a run the guest can make in any state |
| Vgic.Driver.constructor | src/vgic/vgic_v2.c:109-122 | initialisation yields the protocol's initial state |
| Vgic.Driver.FindSpiSlot | src/vgic/virq.h:104-112 | the search loop returns what the lookup specifies |
| Vgic.Driver.FindEmptyListReg | src/vgic/virq.h:189-200 | the search loop returns the first free list register or -1 |
| Vgic.Driver.VirqAdd | src/vgic/virq.h:122-155 | registers the handle, or fails exactly when the local slot is taken or the SPI list is full |
| Vgic.Driver.VirqAck | src/vgic/virq.h:42-47 | runs the callback; a NULL callback stops the VMM |
| Vgic.Driver.DistEnableIrq | src/vgic/vdist.h:135-154 | performs the protocol's enable step |
| Vgic.Driver.DistDisableIrq | src/vgic/vdist.h:156-170 | performs the protocol's disable step |
| Vgic.Driver.DistClrPendingIrq | src/vgic/vdist.h:228-234 | clears the flag and changes nothing else |
| Vgic.Driver.VcpuLoadListReg | src/vgic/virq.h:202-219 | loads kernel register and shadow together, or stops when the kernel refuses |
| Vgic.Driver.DistSetPendingIrq | src/vgic/vdist.h:172-226 | state and result are those of the protocol's injection |
| Vgic.Driver.HandleMaintenance | src/vgic/vgic.c:19-65 | performs the protocol's maintenance step, including its stop, and replies if and only if the VMM still runs |
| Vgic.Driver.HandleVppiEvent | src/vmm.c:82-105 | performs the protocol's VPPI step, acknowledging the source exactly when the injection is dropped |
| Vgic.Driver.HandleSerialNotification | src/vmm.c:306-320 | performs the protocol's serial step |
| Vgic.Driver.WriteWord | src/vgic/vdist.h:453-502 | an aligned word write changes one bank by OR or AND-NOT, keeps SGI bits, for ISPENDR ORs the registered and enabled bits into the pending word, and leaves every other word as it was |
| Vgic.Driver.WriteCtlr | src/vgic/vdist.h:421-430 | 1 switches the distributor on, 0 off, other values do nothing |
| Vgic.Driver.WriteSgir | src/vgic/vdist.h:536-563 | injects the SGI in bits 3 to 0 unless the filter is reserved |
| Vgic.Driver.RegWrite | src/vgic/vdist.h:412-595 | a word write performs the protocol actions its offset selects, and on the driver's fields: 0x000 switches, a reserved 0xF00 and every offset without a register change nothing, 0xF10 to 0xF2C stop |
| System.Perform | src/vmm.c:322-352 | each event handled by the driver is that step of the protocol, stops included |
| System.PerformAll | src/vmm.c:322-352 | any run of the driver is that run of the protocol |
| System.BootAndRun | src/vmm.c:241-283 | after `init` and any run of a guest that does not write ICPENDR the driver's ring is empty, and it is running if and only if no action was fatal |
| System.EnableDoesNotReadBack | src/vgic/vdist.h:270-297 | a word written to ISENABLER1 of a fresh driver is stored in bank 1, and the register reads as zero |
| Lanes.LaneRoundTrip | src/fault.c:71-98 | bit by bit for lanes of 8, 16 and 32 bits: the stored lane holds the low bits of the source, the loaded register gets exactly those, all other bits of word and register are kept |
| Lanes.NarrowBitmapWrite | src/vgic/vdist.h:455-463 | a narrow bitmap write acts on the register bits under its lane, which are the stored low bits if and only if the lane is the lowest or no bit of either is set |
| Lanes.RtIsBits | src/fault.c:16 | the register number in binary is bits 20 to 16 of the syndrome |
| Lanes.SyndromeLane | src/fault.c:71-98 | syndrome bits 24, 23 and 22 select a lane of 8, 16 or 32 bits |
| Lanes.SlotsDistinct | src/vgic/vdist.h:446-452 | two offsets share a stored word exactly when they lie in the same aligned word |
| Lanes.StorageRegisters.RegWrite | src/vgic/vdist.h:503-516 | a store updates one word by the emulated value and advances the program counter |
| Lanes.StorageRegisters.RegRead | src/vgic/vdist.h:298-311 | a load updates one guest register by the emulated value and advances the program counter |
| Lanes.StorageRegisters.StoreThenLoad | src/fault.c:178-203 | storing and loading back a lane of 8, 16 or 32 bits, as the syndrome bits say, moves exactly its bits and preserves every other guest register, lane and word |
| NumberText.DigitsRead | src/util/printf.c:291-298 | the digits collected in n places read back as the value modulo base to the n |
| NumberText.Digits64 | src/util/printf.c:281-301 | a 64-bit value in base 8, 10 or 16 takes at most 22 digits, which read back as the value |
| NumberText.DigitsModulo | src/util/printf.c:281-301 | in any base the digits of a value read back as the value modulo base to the 32 |
| NumberText.DigitsCanonical | src/util/printf.c:291-298 | a zero is `0`, or nothing if a precision was given; any other 64-bit value has a first digit that is not zero, and letters in the case asked for |
| NumberText.DigitsAreNumeral | src/util/printf.c:281-301 | the digits are the numeral of the value: they read back as it, without leading zeros, in the right case |
| NumberText.NumeralUnique | src/util/printf.c:291-298 | a value has only one numeral, so the digits are determined |
| NumberText.FieldShape | src/util/printf.c:199-277 | for every width and precision a field is spaces, the sign if zeros left room for it, zeros, digits and spaces, with the exact number of each |
| NumberText.SignIsLost | src/util/printf.c:264-274 | `%.32d` of -1 prints 31 zeros and a 1 |
| NumberText.HashKeepsDigits | src/util/printf.c:242-262 | with `#`, in bases 2, 8 and 16, the printed field ends in all collected digits if and only if the padded length meets neither precision nor width, a precision was given, or the padding zeros cover what is taken back |
| NumberText.HashDropsDigits | src/util/printf.c:242-262 | a format whose `#` prefix replaces every digit |
| NumberReading.FieldReadsBack | src/util/printf.c:199-301 | without `#` a field of any width and precision reads back as the signed value if and only if it shows a digit and the value is not negative, or left-justified, or has a precision below 32 and, if zero-padded, a width of at most 32; it shows no digit if and only if it is a zero with a precision and no zeros are due |
| NumberReading.BinaryReadsBack | src/util/printf.c:199-301 | a base 2 field of any width and precision that shows a digit reads back as the low 32 bits of the value |
| NumberReading.AtoiReads | src/util/printf.c:188-195 | `_atoi` over any digits returns their value modulo 2^32 and stops after them |
| Format.ToSigned | src/util/printf.c:726-735 | the signed value congruent to the argument within the type's range |
| Format.IntegerFlags | src/util/printf.c:691-719 | unsigned conversions have no sign, a precision switches zero padding off, decimal ignores `#`, only `X` sets upper case, nothing else changes |
| Format.IntegerReadsBack | src/util/printf.c:684-756 | a rendered integer conversion of any width and precision reads back, in the base of the conversion, as the value that conversion and length select, if and only if it shows a digit, the value is not negative or its sign fits, and it has at most 32 bits in binary |
| Format.AtoiUndoesPrint | src/util/printf.c:188-223 | `_atoi` on the rendering of `%u` for a 32-bit value returns the value and stops at the next character |
| Format.Clipped | src/util/printf.c:797-811 | the prefix whose length is the smaller of the string's and a given precision |
| Format.Padded | src/util/printf.c:796-820 | padded text has the larger of width and text length, with the text at its end or start |
| Format.PaddedWithBlanks | src/util/printf.c:796-820 | the rest of padded text is blanks |
| FormatSpecs.FlagsParse | src/util/printf.c:601-612 | flags in any order and number set exactly the flags they name |
| FormatSpecs.SpecParses | src/util/printf.c:601-680 | reading undoes writing: any flags, width and precision (digits of any number, or `*`) and length are parsed as exactly what they mean, up to the conversion character |
| Conversions.IntegerFormat | src/util/printf.c:199-301 | the exact text of every integer conversion from the format as written, wherever it stands in a format: the numeral of the selected value in base 10, 16, 8 or 2, with sign, zeros and blanks as flags, width and precision ask |
| Conversions.SelectedArg | src/util/printf.c:721-752 | conversion and length select the value of 8, 16, 32 or 64 bits that is congruent to the argument |
| Conversions.IntPrints | src/util/printf.c:721-736 | `%d` and `%i` print the 32-bit value in decimal |
| Conversions.UnsignedPrints | src/util/printf.c:737-752 | `%u`, `%x`, `%X`, `%o` and `%b` print the 32-bit value in base 10, 16, 16, 8 and 2 |
| Conversions.LongPrints | src/util/printf.c:721-731 | `%ld`, `%lld` and `%zd` print the 64-bit value in decimal |
| Conversions.UnsignedLongPrints | src/util/printf.c:737-747 | `%lu`, `%lx`, `%lX`, `%lo`, `%llx` and `%zu` print the 64-bit value |
| Conversions.ShortPrints | src/util/printf.c:732-752 | `h` and `hh` print the 16-bit and the unsigned 8-bit value |
| Conversions.WidthFormats | src/util/printf.c:199-240 | `%-5d`, `%5d`, `%05d` and `%+d` add blanks after, blanks before, zeros after the sign, or a plus |
| Conversions.PrecisionFormat | src/util/printf.c:233-236 | `%.3d` prints at least three digits |
| Conversions.HashFormats | src/util/printf.c:242-262 | `%#x`, `%#X` and `%#o` of a positive number put `0x`, `0X` and `0` before its numeral |
| Conversions.OrdinaryText | src/util/printf.c:587-597 | text without `%` renders as itself, followed by the rest of the format, which ends with the string or at a NUL in it |
| Conversions.StringFormat | src/util/printf.c:796-820 | `%s` prints the string cut at the precision and padded with blanks to the width |
| Conversions.CharFormat | src/util/printf.c:776-794 | `%c` prints one character padded with blanks to the width |
| Conversions.PointerFormat | src/util/printf.c:822-838 | `%p` prints 64 bits as upper-case hexadecimal filled with zeros to 16 digits |
| Conversions.PercentFormat | src/util/printf.c:840-843 | `%%` prints a percent sign |
| Snprintf.Sink.Put | src/util/printf.c:133-138 | the buffer holds the text output so far as far as it fits, and its old contents beyond |
| Snprintf.Sink.Terminate | src/util/printf.c:852-853 | the NUL follows the kept characters and the rest of the buffer is untouched |
| Snprintf.PutReversed | src/util/printf.c:199-223 | outputs the reversed scratch buffer padded as specified |
| Snprintf.PutFormatted | src/util/printf.c:227-277 | outputs padding, prefix and sign around the digits as specified |
| Snprintf.CollectDigits | src/util/printf.c:293-297 | the loop leaves exactly the specified digits in the scratch buffer |
| Snprintf.PutNumber | src/util/printf.c:281-301 | outputs exactly the specified field |
| Snprintf.Atoi | src/util/printf.c:188-195 | the loop returns the specified value and position |
| Snprintf.ScanFlags | src/util/printf.c:601-612 | the loop collects exactly the leading flag characters |
| Snprintf.ScanSpec | src/util/printf.c:601-680 | reads flags, width, precision and length as specified |
| Snprintf.PutConversion | src/util/printf.c:682-849 | outputs the specified text of one conversion and consumes its arguments |
| Snprintf.PutFormat | src/util/printf.c:587-850 | outputs the whole rendering, whatever fits in the buffer |
| Snprintf.Vsnprintf | src/util/printf.c:577-857 | the buffer receives the first min(n, count - 1) characters of the rendering and a NUL, nothing else changes, and the result does not depend on count |

## Left out

- GICv3 (`vgic_v3.c`, `vgic_v3.h`): repeats the enable loops with other reset values.
- The odroidc2 and imx8mm_evk boards: the odroidc2 serial callback re-enters injection; the others differ in constants.
- PSCI, SMC and syscall dispatch: each result is settled by one branch.
- Interrupt numbers from 992 on, whose flags would lie outside the 31-word bitmaps: the driver's methods require smaller numbers.
- Byte and halfword writes to the bitmap registers are characterised in `NarrowBitmapWrite` but are not actions of the protocol.
- Register offsets that the guest reads but that hold constants (TYPER, IIDR, ICFGR, identification registers), and writes that the code ignores.
- Accesses through the zero register, and accesses with an invalid syndrome or misaligned address, which stop the VMM: `Lanes` requires accepted accesses.
- Several vCPUs: the code injects into the only one.
- Floating-point conversions and the `_out_char`, `_out_null` and `_out_fct` output functions.
- Formats that end inside a specification (with the string or at a NUL), arguments of the wrong kind and negation of the smallest signed value, which are undefined in the source: `Render` is `None` for them.
- Image loading, register dumps, logging and the RISC-V stub.
