# A verified model of the µMPS3 simulation kernel

µMPS3 emulates a small multiprocessor with a MIPS-like instruction set. Its kernel is a discrete-event
machine: a 64-bit clock, a timer, a queue of future events, an interrupt controller, up to sixteen
processors, and devices that complete their work through events. This project states in Dafny what that
kernel does and proves what it is relied on for: that fast-forwarding over idle time changes nothing,
that events run on time and wake-ups are not lost, that exceptions are precise, that interrupts are
routed fairly and acknowledged correctly, that device buffers never show stale data, and that the
supporting indexes, products and file formats are right.

`dafny verify dfyconfig.toml` checks everything.

## How it is laid out

Each part has a specification on values, with the theorems, and, where the emulator updates objects in
place, a class with the same fields whose methods are proved to do to the fields what the specification
says.

| part | specification and theorems | objects |
|---|---|---|
| 32-bit words, finite sets | `Words`, `Finite` | |
| event list | `EventQueue` | `EventQueue` |
| processor | `Cpu`, `InterruptLines`, `PreciseExceptions`, `Nesting`, `Translation`, `Faults`, `ControlRegisters`, `Unaligned`, `UnalignedAccess` | `Processors` |
| interrupt controller | `Pic`, `Bookkeeping`, `ControllerRuns`, `Fairness` | `InterruptControllers` |
| bus and machine | `Kernel`, `FastForward`, `Traces`, `MachineRuns`, `MessageRuns`, `IdleRounds`, `BusTimers` | `Machines` |
| terminal | `Terminal`, `HostedTerminals` | `TerminalDevices` |
| disk, flash and their transfers | `Dma`, `Images`, `Disk`, `Flash` | `Dma`, `DiskDevices`, `FlashDevices` |
| multiplication and overflow | `Arithmetic` (methods) | |
| stoppoints | `Stoppoints` | `StoppointSets` |
| JSON | `Json` | `JsonParsers` |

Five choices run through all of it.

- Devices, memory and programs are a *world*: functions that answer what a completed device operation
  does, what the current instruction is and does, and what a fetch reads. The kernel theorems hold for
  every world. What a world asks of the kernel is a list of operations: raise or acknowledge an
  interrupt, send or take a message, route, set the timer, schedule an event. An instruction is one of
  a few classes (plain, multiplication or division, branch, faulting, load, store, compare-and-swap,
  coprocessor 0), with the outcome of ordinary arithmetic and of the bus as part of it.
- The kernel carries a history that nothing in the machine reads: the controller's operations with their
  ticks, the writes to outboxes, the events that ran, the instructions executed. Theorems about one
  processor or about the controller alone are carried over to runs of the whole machine through it.
- Words are numbers below 2^32 with wrap-around written out; bits are read with `BitVal`.
- Theorems speak of registers as programs read them: handlers by their addresses, causes by their codes, fields
  of registers and command words by arithmetic on the word, and not by the functions that compute them.
- Times: delays are positive and 32 bits wide, and runs end before the 64-bit clock has less than one
  such delay left (`HasRoom`).

## Where the code differs from what one would expect

- `UnsMult` drops a carry of the middle products, so the unsigned product can be short by 2^48
  (`UnsMult`, `CarryIsLost`); the signed product never is.
- An event that ties with the head of the queue goes before it, though other ties go after (`TieOrder`).
- Raising a source again while it is pending at another processor leaves the old bit set
  (`ExactKeptIff`, `ReRaiseHappens`).
- A processor reset clears CAUSE even while the controller has a line up for it (`ResetMirror`,
  `ResetBreaksMirror`).
- A transfer to or from memory that runs into the interrupt controller's per-processor registers follows a
  null processor (`SendReachesIff`, `FetchReachesIff`).
- A disk or flash write whose memory transfer failed still writes the buffer and reports success
  (`FailedTransferStillWrites`, `StaleWordsStored`).
- The comment at the disk's RESET speaks of recalibration, but the current cylinder does not change
  (`OnlySeeksMove`).
- The codes of the two bus errors are exchanged with respect to the header that kernels are built with
  (`BusFaultCodes`; src/include/umps/cp0.h:87-88).
- The coprocessor number of an unusable-coprocessor exception is put one bit below the field CAUSE.CE, so
  that field is right for coprocessor 0 only (`CoprocessorField`).
- With the TLB floor among the exception vectors, which a configuration file can set to any of 0x1FC00001 to
  0x1FC00180 (0 stands for the end of RAM, and a floor up to 0x1FC00000 stops the emulator at the boot
  program's first fetch), the refill fault of a handler's own first fetch overwrites the EPC just saved
  (`FaultIsPrecise`, `InterruptIsPrecise`, `FloorAmongVectors`).
- Restarting at a branch is sure to go the same way only if the branch did not write a register it reads,
  as a link or a load that completes with it may do (`ResumeReplaysSlot`, `LinkOverSource`).
- The unaligned load pair with its base register as target takes the second address from the half-loaded
  register (`BaseIsLost`).
- More than two exceptions open at once lose mode and interrupt enable (`NestingInRuns`), and a load to STATUS
  still pending at RFE overwrites what it restores (`ReturnPops`).
- An empty inbox reads like message 0 of processor 0 (`InboxShowsNext`).
- RANDOM covers all entries but 0 only for TLB sizes that are powers of two (`RandomMisses`).
- The JSON parser accepts a comma before a closing brace once a member stands before it, but never before a
  bracket (`CommaBeforeBrace`, `CommaBeforeBracket`), and ignores whatever follows the first value unless
  that goes on with the digits of a number (`TrailingText`).
- JSON numbers from 2^31 on are cut down without an error (`NumberExactIff`).
- Stoppoint ids wrap after 2^32 - 1 (`IdsCanWrap`).

## Model

| member | source | states |
|---|---|---|
| FastForward.SkipIsRounds | src/umps/machine.cc:94-117 | for every settled machine and every n up to its idle time, `skip(n)` leaves exactly the state n rounds of clock tick plus every processor's cycle leave, whatever the world would have answered |
| FastForward.SkipLeaves | src/umps/machine.cc:94-117 | after `skip(n)` exactly n fewer idle cycles are left |
| FastForward.ChunkedSkips | src/frontends/qmps/debug_session.cc:449-467 | skips done in any number of chunks whose sum is within the idle time land where that many rounds do |
| IdleRounds.IdleIffQuiet | src/umps/systembus.cc:181-191 | the idle time is positive if and only if the next round leaves no trace; a due event runs in it, a timer at 0 raises its interrupt in its tick, and otherwise at idle time 0 some processor executes |
| FastForward.SkipAssertsIff | src/umps/processor.cc:363-368 | within the idle time the assertion in `Processor::Skip` holds if and only if n is positive or no processor is running |
| FastForward.QuietRound | src/umps/processor.cc:294-316 | with idle time left one round does no more than a skip of one cycle |
| Kernel.EventsRunOnTime | src/umps/systembus.cc:161-179 | in every run each scheduled event has run exactly as often as scheduled once its deadline has come and never before, each in the tick of its deadline and in deadline order; everything queued is later than the clock |
| Kernel.NoLostWakeUp | src/umps/processor.cc:387-399 | in every run a sleeping processor has no line pending; for a processor whose last reset met no pending line, CAUSE.IP shows the controller's mask on lines 0 and 2 to 7, so while it sleeps it has an empty mailbox and no device bit |
| BusTimers.BusTimerInRuns | src/umps/systembus.cc:161-172 | in every run, whatever devices and programs write, the bus timer is the value last written less the ticks since, modulo 2^32 |
| BusTimers.OpTimer | src/umps/systembus.cc:569-574 | a write to the timer sets it in that tick and acknowledges its interrupt |
| BusTimers.BootTimer | src/umps/machine.cc:35-63 | the machine as built is a start for this, counting from 2^32 - 1 |
| MessageRuns.MessagesInSendOrder | src/umps/mpic.cc:163-219 | in every run from power-on, of two messages sent in different ticks that a processor accepted, the one sent first comes first among those it accepted and among those it took, each with its origin and contents |
| MessageRuns.MessagesArriveOnce | src/umps/mpic.cc:173-176 | in every run each message is delivered exactly as often as it was sent once its latency is over, in that tick and not before, and nothing else is ever delivered |
| MessageRuns.SentArrives | src/umps/mpic.cc:173-176 | every write to an outbox whose latency is over has its delivery in the log, one latency after it |
| MachineRuns.RoundsMove | src/umps/machine.cc:71-87 | in every run what happens to a processor is a sequence of its own steps: exactly one cycle in each round, with the line changes it causes, the resets and halts that ran for it, in order and with their arguments, and lines changed from outside; those steps are admissible if it executed no branch and no WAIT in a delay slot |
| MachineRuns.OnOffInRuns | src/umps/systembus.cc:161-179 | in every run a processor is off if and only if the last reset or halt that ran for it was a halt, or there was none and it was off; the machine is off if and only if it was or a power-off ran |
| MachineRuns.ControllerIsLog | src/umps/mpic.cc:40-219 | from every settled state the log only grows, and the controller is where the operations logged since take it, in the order of their ticks; their dynamic deliveries are the logged ones |
| MachineRuns.PendingInRuns | src/umps/mpic.cc:40-103 | in every machine run without a re-raise elsewhere the set bits are the requests delivered and not yet acknowledged |
| MachineRuns.FairInRuns | src/umps/mpic.cc:40-61 | in every machine run from a settled state, however its sources are routed, during which mask, priorities and routes stay, any k consecutive dynamic deliveries reach each of the k eligible processors exactly once |
| MachineRuns.PcStackInMachine | src/umps/processor.cc:294-351 | in every machine run a processor that executes no branch and no WAIT in a delay slot is off or has a well formed PC stack |
| MachineRuns.TlbInMachine | src/umps/processor.cc:256-256 | in every machine run from power-on INDEX and RANDOM of a processor that is on name existing TLB entries, RANDOM never entry 0 |
| MachineRuns.BootUnused | src/umps/machine.cc:35-63 | the machine as built, with its first processor reset and whatever the registers of the others hold, is a start for all of these |
| Kernel.BootSettled | src/umps/machine.cc:35-63 | the machine as built, with its first processor reset and whatever the registers of the others hold, is a settled start for all of the above, at tick 0, on, and with no event waiting, and that reset met no pending line |
| Kernel.ScheduleUndisturbed | src/umps/systembus.cc:368-371 | scheduling with a positive 32-bit delay keeps the kernel's invariant and neither adds to nor displaces what is due now, the event being run included |
| Kernel.HeadRuns | src/umps/systembus.cc:175-178 | removing the head after its callback accounts for exactly that event |
| EventQueue.EventList.InsertQ | src/umps/event.cc:106-137 | the linked list stays acyclic and sorted with the finger null only when empty and otherwise a member, and holds the very sequence a scan from the head would give |
| EventQueue.EventList.FindPlace | src/umps/event.cc:121-134 | starting at the finger finds the same place as starting at the head |
| EventQueue.EventList.RemoveHead | src/umps/event.cc:141-155 | takes off exactly the first event and keeps the list and finger valid |
| EventQueue.InsertSorted | src/umps/event.cc:106-137 | insertion keeps the deadlines sorted |
| EventQueue.InsertAdds | src/umps/event.cc:106-137 | insertion loses and invents no event |
| EventQueue.InsertLater | src/umps/event.cc:106-137 | an event later than d leaves the part due by d, and a due head, where they are |
| EventQueue.TieOrder | src/umps/event.cc:113-128 | of two events with one deadline the later insertion goes first if and only if that deadline is the head's |
| Machines.Machine.ClockTick | src/umps/systembus.cc:161-179 | the tick with its drain loop, where the head is removed after its callback, is the specified tick; the loop ends |
| Machines.Machine.RunNext | src/umps/systembus.cc:175-178 | one turn of the drain loop runs the head's callback and then removes that event, though callbacks insert events |
| Machines.Machine.RunCpu | src/umps/processor.cc:294-351 | one cycle of a processor inside the machine is the specified cycle, stores and scheduled events included |
| Machines.Machine.RunRound | src/umps/machine.cc:78-82 | a tick and a cycle of each processor in order is one round |
| Machines.Machine.Step | src/umps/machine.cc:71-87 | `step` leaves the state as many rounds on as it reports, stops short only if the machine is off or a processor fell asleep, and never runs on after a round that did either |
| Machines.Machine.IdleCycles | src/umps/machine.cc:94-108 | the fold with its early exits gives the least idle time of bus and processors |
| Machines.Machine.Skip | src/umps/machine.cc:110-117 | skipping the bus and each processor that is not halted is the specified skip |
| Machines.Machine.ScheduleEvent | src/umps/systembus.cc:368-371 | puts the event in the queue and changes nothing else |
| Machines.Machine.RunCallback | src/umps/systembus.cc:176-176 | runs message delivery, processor reset and halt, power-off and device completion as specified |
| InterruptControllers.InterruptController.FindTarget | src/umps/mpic.cc:45-61 | the rotating scan finds the specified target |
| InterruptControllers.InterruptController.StartIRQ | src/umps/mpic.cc:40-77 | routing, recording of the target, device bit, mask bit and the line of the target processor are as specified; no other processor changes |
| InterruptControllers.InterruptController.EndIRQ | src/umps/mpic.cc:79-103 | drops the device bit, lowers the line with the last device, forgets the target, and nothing else |
| InterruptControllers.InterruptController.DeliverIPI | src/umps/mpic.cc:196-219 | delivers to each recipient with a free slot for the origin |
| InterruptControllers.InterruptController.WriteInbox | src/umps/mpic.cc:163-171 | takes the first message off and lowers the line with the last |
| InterruptControllers.InterruptController.ReadInbox | src/umps/mpic.cc:122-129 | reads the specified inbox register |
| Fairness.DynamicTarget | src/umps/mpic.cc:48-61 | a dynamic delivery goes to the first processor, clockwise from the arbiter, among the allowed ones with the greatest priority value; it is lost if and only if none is allowed |
| Fairness.RoundRobin | src/umps/mpic.cc:48-61 | k deliveries in a row reach each of the k eligible processors exactly once |
| Fairness.FairWindow | src/umps/mpic.cc:40-61 | in any run where mask and priorities stay, with fixed-policy deliveries, acknowledgements and messages between, any k consecutive dynamic deliveries reach each of the k eligible processors exactly once |
| Fairness.TurnsAreTaken | src/umps/mpic.cc:48-61 | such a run: two raises of a source routed dynamically to both of two processors reach one each |
| Bookkeeping.StartIRQKeeps | src/umps/mpic.cc:40-77 | a delivery keeps the books, records its target with the bit set, raises the target's line and wakes it at once |
| Bookkeeping.EndIRQKeeps | src/umps/mpic.cc:79-103 | an acknowledgement keeps the books and forgets the target |
| Bookkeeping.DeliverKeeps | src/umps/mpic.cc:196-219 | delivery keeps the books: one message per origin, line 0 exactly while a mailbox is not empty, no sleeper with a line up |
| Bookkeeping.InboxAckKeeps | src/umps/mpic.cc:163-171 | taking a message keeps the books |
| Bookkeeping.ResetMirror | src/umps/processor.cc:252-256 | after a reset CAUSE.IP equals the controller's mask for that processor if and only if the controller shows it nothing, whatever CAUSE held before |
| Bookkeeping.ResetBreaksMirror | src/umps/processor.cc:252-256 | an interrupt raised on a new machine, then a reset of its target, leave CAUSE and mask different |
| ControllerRuns.ExactKeptIff | src/umps/mpic.cc:68-74 | an operation keeps every set device bit a recorded, unacknowledged request if and only if it does not re-raise a source still pending at another processor |
| ControllerRuns.BitsAreUnackedRequests | src/umps/mpic.cc:40-103 | in every run without such a re-raise the set bits are exactly the requests delivered and not yet acknowledged, each at the processor it went to |
| ControllerRuns.LastTargetIsHistory | src/umps/mpic.cc:68-102 | in every run the recorded target of a source is where its last unacknowledged request went |
| ControllerRuns.MailboxIsFifo | src/umps/mpic.cc:163-219 | in every run what a mailbox accepted, bits 0 to 7 of the outbox words whose bits 8 to 23 name it, is what was taken from it, in order, followed by what waits in it |
| ControllerRuns.MailboxBound | src/umps/mpic.cc:196-219 | in every run a mailbox holds no more messages than there are processors |
| ControllerRuns.InboxStep | src/umps/mpic.cc:196-219 | one operation: a message to an occupied slot changes nothing |
| ControllerRuns.InboxShowsNext | src/umps/mpic.cc:122-129 | the inbox register shows origin and contents of the message that is taken next, and 0 if there is none or it is message 0 of processor 0 |
| ControllerRuns.LastWritten | src/umps/mpic.cc:150-185 | in every run the task priority of a processor is the low four bits of the last write, and the route of a source bits 0 to 15 and bit 28 of its last write, whatever is raised, acknowledged or delivered between |
| ControllerRuns.ReRaiseHappens | src/umps/mpic.cc:68-74 | a run from power-on that raises a source, routes it elsewhere and raises it again leaves the old bit set |
| PreciseExceptions.PcStackInRuns | src/umps/processor.cc:294-351 | in every run from power-on without branches or WAIT in delay slots, at each cycle boundary the processor is off, or succPC = nextPC + 4, a delay slot follows its branch, and otherwise nextPC = currPC + 4 unless a fetch was nullified |
| PreciseExceptions.FaultIsPrecise | src/umps/processor.cc:644-698 | a faulting instruction leaves EPC at itself, or at its branch with BD set exactly in a delay slot, its code, and STATUS with its three pairs shifted up, the lowest cleared and the rest kept; the handler, at 0x0 or 0x80 or with BEV set at 0x1FC00100 or 0x1FC00180, the first of each for refills, runs next exactly if its page is mapped, as it is with the TLB floor above the vectors; otherwise EPC is lost to the handler's address |
| PreciseExceptions.InterruptIsPrecise | src/umps/processor.cc:617-698 | with interrupts on and a line up that STATUS lets through, the interrupt is taken at the boundary before the next instruction, which EPC names, with the same record, and the handler at 0x80, or 0x1FC00180 with BEV set, runs at once exactly if its page is mapped; otherwise EPC is lost |
| PreciseExceptions.PendingIsRequested | src/umps/processor.cc:617-630 | the masked test for interrupts holds if and only if IEc is set and some line is up in CAUSE whose mask bit is set in STATUS |
| PreciseExceptions.HandledCause | src/umps/processor.cc:650-667 | after an exception CAUSE holds the code in bits 2 to 6, the lines as they were in 8 to 15, the coprocessor in 27 and 28 for an unusable one, the delay slot in 31 and nothing else |
| PreciseExceptions.BusFaultCodes | src/umps/processor.cc:72-89 | the code recorded is the one of the emulator's public header if and only if the exception is no bus error |
| PreciseExceptions.FloorAmongVectors | src/umps/machine_config.cc:90-91 | a floor in such a configuration: a system call of the boot program enters a handler whose page is not mapped, and EPC names the handler |
| PreciseExceptions.FetchFaultIsPrecise | src/umps/processor.cc:338-350 | a failing fetch records the instruction that could not be fetched, with the cause its translation signalled or, if its address maps, a bus error, nullifies its slot and turns to the handler by BEV and cause |
| PreciseExceptions.NullifiedThenHandler | src/umps/processor.cc:338-350 | the cycle after a nullified fetch changes neither registers nor STATUS and lands on the first instruction of the handler the fetch turned to exactly if its page is mapped |
| PreciseExceptions.NextInstruction | src/umps/processor.cc:318-333 | after an instruction without fault, the next one is in a delay slot exactly if it was a branch, and its restart address is then the branch |
| PreciseExceptions.ResumeReplaysSlot | src/umps/processor.cc:1515-1551 | restarting at the recorded branch, with the registers as the branch left them, reaches the same delay slot, and the same successor if and only if the branch goes where it went, as it does unless it wrote a register it reads, or, where it links before it tests, as BGEZAL and BLTZAL do, one it reads other than the link |
| PreciseExceptions.SlotFaultKeepsGpr | src/umps/processor.cc:644-698 | a fault in the slot changes no register, so the handler finds them as the branch left them |
| PreciseExceptions.LinkOverSource | src/umps/processor.cc:1318-1324 | a jump that links over the register it jumps through goes elsewhere when it is run again |
| PreciseExceptions.CoprocessorField | src/umps/processor.cc:664-667 | CAUSE.CE reads the coprocessor number if and only if that is 0; for coprocessor 1 it reads 0 |
| PreciseExceptions.CycleIsStep | src/umps/processor.cc:294-351 | a cycle of the emulator is the step the theorems on runs speak of |
| PreciseExceptions.NestingRestores | src/umps/processor.cc:581-610 | n exceptions and n returns restore the current mode and interrupt enable if and only if n is at most 2 or both were 0 |
| Nesting.NestingInRuns | src/umps/processor.cc:581-610 | in every run of a processor that writes STATUS only by exceptions, interrupts included, and RFE, each return after its exception and all returned from: mode and interrupt enable are as before if and only if at most two were open at once or both bits were 0, and otherwise both are 0; the rest of STATUS is as before |
| Nesting.ReturnPops | src/umps/processor.cc:925-926 | RFE leaves bits 0 to 3 of STATUS as bits 2 to 5 were and the others as they were, unless a load to STATUS is pending, which then overwrites it |
| Nesting.ExecuteTurns | src/umps/processor.cc:859-1091 | an executed instruction pushes the pairs of STATUS if it faults, pops them if it is RFE, and otherwise leaves STATUS alone |
| Nesting.CallAndReturn | src/umps/processor.cc:581-610 | such a run: a system call in the kernel whose handler returns |
| Cpu.NoIpIsNoLine | src/umps/processor.cc:635-639 | the masked test that allows sleeping holds if and only if none of the eight lines is up |
| InterruptLines.ExecuteLines | src/umps/processor.cc:859-1091 | executing touches no line but the processor's own timer, and puts it to sleep only with none up |
| Processors.Processor.Cycle | src/umps/processor.cc:294-351 | a cycle on the object's fields is one step of the processor's runs and keeps PC stack and TLB registers well formed |
| Processors.Processor.HandleExc | src/umps/processor.cc:644-698 | likewise for exception entry |
| Processors.Processor.PushKUIEStack | src/umps/processor.cc:581-594 | the downward loop over STATUS shifts the three pairs up and clears the lowest |
| Processors.Processor.PopKUIEStack | src/umps/processor.cc:600-610 | the upward loop shifts the pairs down and keeps the top one |
| Processors.Processor.ProbeTLB | src/umps/processor.cc:1105-1117 | the upward scan ends with the highest matching entry |
| Processors.Processor.CompleteLoad | src/umps/processor.cc:714-770 | a delayed load to a register or a CP0 register, with each register's mask |
| Processors.Processor.MapVirtual | src/umps/processor.cc:779-846 | translation on the object's fields with its four fault exits |
| Processors.Processor.ExecInstr | src/umps/processor.cc:859-1091 | execution by instruction class, with the delayed load completed at the right point and the delay-slot flag set only without a fault |
| Processors.Processor.AssertIRQ | src/umps/processor.cc:387-394 | sets the line and wakes a sleeper |
| Processors.Processor.Skip | src/umps/processor.cc:363-368 | takes the cycles off a running timer and changes nothing else |
| Processors.Processor.Reset | src/umps/processor.cc:225-272 | the state after a reset whose first instruction could be fetched |
| Translation.HighestEntryDecides | src/umps/processor.cc:779-846 | above the floor the highest entry for the page alone decides success and each fault; success keeps the 12-bit offset and takes the frame of that entry; a fault reports address and page and changes no other register |
| Translation.AddressFaults | src/umps/processor.cc:786-805 | translation signals an address error, with BADVADDR set and no other register changed, if and only if the address is misaligned or the processor is in user mode and the address is below 0x80000000; every other address below the floor is its own translation |
| Translation.MatchIsForPage | src/umps/processor.cc:1105-1117 | an entry matches if and only if it has the page number of the address and is global or has the address space of ENTRYHI |
| Faults.AccessFaults | src/umps/processor.cc:786-805 | a load, store or compare-and-swap at such an address is recorded as an address error with that address in BADVADDR, whatever the bus would answer; at any other address below the floor it faults exactly if the bus does |
| Faults.FaultCause | src/umps/processor.cc:1096-1100 | of the other instructions coprocessor 0 faults exactly in user mode without CU0, and those that fault by themselves have their own cause |
| Translation.NoEntryRefills | src/umps/processor.cc:835-856 | with no entry for the page the access asks for a refill, reported likewise with the old address space kept in ENTRYHI |
| Translation.WriteThenRead | src/umps/processor.cc:929-939 | TLBWI then TLBR gives back ENTRYHI and ENTRYLO whatever load is pending, except one to INDEX, when TLBR reads the entry the new INDEX names |
| Translation.WriteThenProbe | src/umps/processor.cc:920-939 | TLBWI then TLBP names the highest entry matching ENTRYHI as the pending load leaves it, or reports none; unless that load is to ENTRYHI it is the entry written or a later one |
| Translation.TlbInRuns | src/umps/processor.cc:225-272 | in every run from power-on, once a processor is reset, INDEX and RANDOM name an existing entry, RANDOM never entry 0, for every size 4 to 64, and zero-filled fields stay zero |
| Translation.ZeroEntries | src/umps/processor.cc:97-100 | the TLB entries as built are such a start |
| Translation.RandomCycles | src/umps/processor.cc:572-577 | for sizes that are powers of two RANDOM names every entry but 0 within any size - 1 ticks and repeats with that period |
| Translation.RandomMisses | src/umps/processor.cc:572-577 | for every other size some entry other than 0 is never named |
| ControlRegisters.RandomInRuns | src/umps/processor.cc:572-577 | from a reset on RANDOM has ticked once in every cycle the processor got through awake, faults and interrupts included, and in no other |
| ControlRegisters.ResetRandom | src/umps/processor.cc:256-256 | a reset is where that starts, at the entry below the top one |
| ControlRegisters.RandomTick | src/umps/processor.cc:572-577 | a tick takes one entry off, cuts to the bits of the index field, and goes to the top entry if none is left, for every size |
| ControlRegisters.TimerInRuns | src/umps/processor.cc:294-316 | in every run that leaves TIMER and STATUS to themselves, with TE set TIMER has gone down by one in every cycle, asleep or not, and its line is up exactly if it was or more cycles have passed than TIMER held; with TE clear TIMER stays and the line is down after the first cycle |
| ControlRegisters.TimerTicks | src/umps/processor.cc:294-316 | a tick of the timer changes TIMER, its line, and the sleep of a processor whose TIMER was 0, and nothing else |
| ControlRegisters.LoadLands | src/umps/processor.cc:714-770 | a load leaves in each register of coprocessor 0 exactly the fields that can be loaded, none in those that are read-only; one to TIMER lowers the line; nothing else changes |
| ControlRegisters.MoveToAndBack | src/umps/processor.cc:993-1022 | MTC0 and then MFC0 deliver what the register can hold of the value moved |
| ControlRegisters.TlbWrites | src/umps/processor.cc:941-951 | TLBWI writes the entry INDEX names, TLBWR the one RANDOM names, the backpatched TLBCLR zeroes all but the first, and no other entry changes |
| ControlRegisters.TlbReads | src/umps/processor.cc:936-939 | TLBR reads the entry INDEX names into the two registers and changes nothing else |
| ControlRegisters.ResetState | src/umps/processor.cc:225-272 | after a reset: the program counters, the stack pointer, STATUS with BEV and CU0 alone, RANDOM two below the size, the number of the processor, and 0 elsewhere |
| ControlRegisters.OffUntilReset | src/umps/processor.cc:294-300 | a processor switched off keeps all its registers but the lines in CAUSE until it is reset |
| Unaligned.MergeBytes | src/umps/processor.cc:1224-1251 | each byte of the merge comes from the stated register |
| Unaligned.StorePairBytes | src/umps/processor.cc:1786-1813 | the store pair writes exactly the four bytes at the address, in either byte order, and leaves every other byte alone |
| Unaligned.LoadPairBytes | src/umps/processor.cc:1692-1718 | the load pair reads exactly the four bytes at the address, whatever the register held |
| Unaligned.UnalignedRoundTrip | src/umps/processor.cc:1692-1813 | storing a register at any byte address and loading it back gives the register |
| UnalignedAccess.LoadPairRuns | src/umps/processor.cc:1692-1718 | run by a processor with its delayed loads, anything between the halves that gives the registers back included, the load pair leaves the four bytes at the address in its target and every other register alone, the target not being the base |
| UnalignedAccess.StorePairRuns | src/umps/processor.cc:1786-1813 | likewise the store pair writes the four bytes of the register, the load into it that may have been pending completed, and changes no register |
| UnalignedAccess.RegisterComesBack | src/umps/processor.cc:1692-1813 | stored by one pair and loaded by another, the register comes back |
| UnalignedAccess.BaseIsLost | src/umps/processor.cc:1692-1718 | with the base as target the second half takes its address from the half-loaded register |
| Arithmetic.UnsMult | src/umps/utility.cc:115-131 | the result is the product less 2^48 per lost carry; exact if and only if the middle sum fits 32 bits |
| Arithmetic.SignMult | src/umps/utility.cc:137-169 | the full signed 64-bit product for every pair of operands |
| Arithmetic.LostCarryBound | src/umps/utility.cc:125-126 | the lost carry is 0 or 1, and 0 for operands up to 2^31 |
| Arithmetic.CarryIsLost | src/umps/utility.cc:125-126 | two operands for which it is 1 |
| Arithmetic.SignAdd | src/umps/utility.cc:82-86 | overflow is reported if and only if the true sum does not fit a signed word |
| Arithmetic.SignSub | src/umps/utility.cc:91-95 | the same for the difference |
| Arithmetic.UnsAdd | src/umps/utility.cc:64-68 | carry is reported if and only if the sum does not fit a word |
| Terminal.TerminalRuns | src/umps/device.cc:524-817 | in every run there is one outstanding event per busy sub-device, at its own time; the shared interrupt is up exactly while one of them wants it; the characters RECVSTATUS showed, followed by what is unread, are what was typed; the characters TRANSTATUS answered for, followed by the one in flight, are what was to be transmitted; no completion can panic |
| Terminal.FireIsCharged | src/umps/device.cc:676-782 | a completion is charged to a sub-device that is busy and whose own time has come, to the receiver if both have, and the unknown-operation panics are unreachable |
| Terminal.StepKeeps | src/umps/device.cc:524-817 | each command, completion, tick, typed line and change of condition keeps that |
| Terminal.NewIsReady | src/umps/device.cc:488-504 | a new terminal works, both its halves are ready, nothing is unread and no interrupt is wanted |
| Terminal.CommandShows | src/umps/device.cc:524-637 | what each command leaves in the registers, by its number: busy for a reset or a character, with the time it takes, ready for an acknowledgement, an error with an interrupt otherwise; the interrupt goes down unless the other half holds it up; the other half and a busy half are untouched |
| Terminal.ReceiveShows | src/umps/device.cc:708-731 | with text waiting a receiver that works shows the next character in bits 8 to 15 and takes it off, and one that does not shows an error; with none it polls again |
| Terminal.TransmitShows | src/umps/device.cc:745-770 | the transmitter shows the character of the command, as sent if it works and in error if not |
| HostedTerminals.TerminalInMachine | src/umps/device.cc:524-817 | in every run of the machine the kernel's queue holds one completion for each busy half of the terminal, at that half's own time, which lies ahead, and no other; request, text and panic are as in the runs of the terminal alone |
| HostedTerminals.RunHeadTied | src/umps/systembus.cc:175-178 | one turn of the drain loop, whether it completes the terminal's operation or runs another callback, keeps queue and terminal in step |
| HostedTerminals.ActsKeep | src/umps/device.cc:524-637 | whatever instructions do to the terminal schedules exactly the events it gains |
| HostedTerminals.BootTied | src/umps/machine.cc:35-63 | the machine as built, with its terminal idle, is a start for this |
| TerminalDevices.TerminalDevice.WriteDevReg | src/umps/device.cc:524-637 | the two command registers on the object, each only while its half is not busy, with the bus calls in order |
| TerminalDevices.TerminalDevice.CompleteDevOp | src/umps/device.cc:676-782 | the completion on the object, with its bus call and the register it rewrote |
| TerminalDevices.TerminalDevice.Input | src/umps/device.cc:788-817 | a typed line goes after what is still unread |
| Disk.BufferIsInvisible | src/umps/device.cc:886-1159 | over any run, with any DATA0, the disk and one that forgets its buffer tag after each step agree on image, memory, status, cylinder and interrupt request |
| Disk.ReadDelivers | src/umps/device.cc:1089-1120 | a read that works hands memory the sector as the image has it at that moment, from the buffer or from the file |
| Disk.WriteStores | src/umps/device.cc:1122-1148 | a write that works stores the buffer in its sector and changes no other sector and not the header |
| Disk.CompleteKeeps | src/umps/device.cc:1055-1159 | a completion never panics, ends the operation, keeps the cylinder in range under working and failing seeks, and keeps a tagged buffer equal to its sector |
| Disk.WriteRegKeeps | src/umps/device.cc:886-1048 | a register write keeps that, the buffer being ahead of the image only during a write |
| Disk.SectorsApart | src/umps/device.cc:1094-1095 | different sectors in range have disjoint image blocks inside the image |
| Disk.OnlySeeksMove | src/umps/device.cc:1062-1085 | over any run the cylinder changes only at the end of a seek; a reset leaves it |
| Disk.ArmInRuns | src/umps/device.cc:1072-1085 | over any run the cylinder is where the completed seeks have put it: at bits 8 to 23 of the command if the drive worked, and half way there if not |
| Disk.SeekThenRead | src/umps/device.cc:1072-1120 | after an accepted seek and an accepted read RAM at DATA0 holds the words of the very sector of the image whose cylinder, head and sector the two command words name |
| Disk.ReadsSector | src/umps/device.cc:1089-1120 | an accepted read puts the sector at the current cylinder and the head and sector of the command into RAM at DATA0 and leaves the image as it was |
| Disk.WritesSector | src/umps/device.cc:991-1148 | an accepted write puts the block RAM had at DATA0 when the command was given into that sector and changes no other word of the image |
| Disk.CommandShows | src/umps/device.cc:886-1048 | what each command leaves in STATUS, by its number and fields, and that it changes neither arm nor image; a busy disk takes none |
| Disk.CompletionShows | src/umps/device.cc:1055-1159 | what each completion leaves in STATUS, by operation and condition |
| Disk.FailedTransferStillWrites | src/umps/device.cc:991-1138 | an accepted write reports success always; the sector stored is the block memory has at DATA0 if and only if that is aligned and all its words can be read, and otherwise exactly the mix of words read, all ones and old buffer words |
| Disk.StaleWordsStored | src/umps/device.cc:991-1138 | a write from a misaligned address that reports success with stale words stored |
| DiskDevices.DiskDevice.WriteDevReg | src/umps/device.cc:886-1048 | commands on the object, the transfer from memory included |
| DiskDevices.DiskDevice.CompleteDevOp | src/umps/device.cc:1055-1159 | completion on the object, the transfer to memory and the image included |
| Flash.BufferIsInvisible | src/umps/device.cc:1223-1414 | the same for the flash drive |
| Flash.ReadDelivers | src/umps/device.cc:1349-1382 | a flash read that works hands memory the block as the image has it |
| Flash.WriteStores | src/umps/device.cc:1384-1406 | a flash write stores the buffer in its block and changes no other |
| Flash.ReadsBlock | src/umps/device.cc:1349-1382 | an accepted read puts the words of the block that bits 8 to 31 of the command name into RAM at DATA0 and leaves the image as it was |
| Flash.WritesBlock | src/umps/device.cc:1287-1406 | an accepted write puts the block RAM had at DATA0 into that place and changes no other word of the image |
| Flash.CommandShows | src/umps/device.cc:1223-1327 | what each command leaves in STATUS |
| Flash.CompletionShows | src/umps/device.cc:1334-1414 | what each completion leaves there |
| Flash.FailedTransferStillWrites | src/umps/device.cc:1287-1393 | the same for the flash drive: success always, the right block if and only if it can be fetched |
| Flash.StaleWordsStored | src/umps/device.cc:1287-1393 | and such a write |
| FlashDevices.FlashDevice.WriteDevReg | src/umps/device.cc:1223-1327 | commands on the object |
| FlashDevices.FlashDevice.CompleteDevOp | src/umps/device.cc:1334-1414 | completion on the object |
| Images.WrittenBlock | src/umps/blockdev.cc:68-81 | a written block reads back, every other block and the header are untouched |
| Images.ByteOffsetExact | src/umps/device.cc:1094-1095 | for a block the image holds the 32-bit offset neither wraps nor turns negative |
| Dma.Bus.DMATransfer | src/umps/systembus.cc:288-311 | for every address but those from which a transfer reaches the controller's per-processor registers, the word loops move the words up to the first the bus refuses and no other; an error if and only if the address is misaligned or some word is refused; a failed read leaves all ones in that word |
| Dma.SendsIff | src/umps/systembus.cc:549-583 | the bus takes every word of a block exactly at an aligned place in RAM, or in the BIOS data page and the registers after it |
| Dma.SendReachesIff | src/umps/mpic.cc:160-161 | sending a block reaches the controller's per-processor registers, where there is no processor to ask, if and only if it is aligned and overlaps them |
| Dma.FetchReachesIff | src/umps/mpic.cc:107-110 | fetching one reaches them, or the bitmap of pending devices, if and only if it is aligned and overlaps what lies from the bitmap to the last of them, the BIOS ROM ending below |
| Dma.SentSafelyIff | src/umps/systembus.cc:549-583 | a block is sent whole, without getting that far, if and only if it is aligned and lies in RAM or between the BIOS data page and the first of them |
| Dma.FetchLeaves | src/umps/systembus.cc:302-308 | a fetch gives the block memory has there if and only if there is one; else the old block, or words, all ones, old words |
| Dma.FetchesFromRam | src/umps/systembus.cc:420-442 | above the ROMs a block is fetched exactly if it is aligned and fits in RAM |
| Dma.WordsRead | src/umps/systembus.cc:418-442 | what a word address reads as, by the bounds of each area: RAM, BIOS data, the two ROMs, the registers, and all ones where nothing can be read |
| Dma.SentThenFetched | src/umps/systembus.cc:288-311 | a block sent to RAM or to the BIOS data page and fetched back from there is the same block |
| Dma.OutsideUntouched | src/umps/systembus.cc:288-311 | a transfer touches no word outside its block, registers aside |
| Stoppoints.OnlyTheCandidate | src/umps/stoppoint.cc:105-130 | the entry the predecessor lookup tries is the only one that can contain the address |
| Stoppoints.OverlapIsShared | src/umps/stoppoint.h:73-81 | two ranges overlap if and only if some address of some address space lies in both, ends included |
| Stoppoints.SharesIff | src/umps/stoppoint.h:122-127 | two access modes share an access if and only if some bit is set in both |
| StoppointSets.StoppointSet.Probe | src/umps/stoppoint.cc:105-130 | returns the one enabled point that contains the address and shares the mode, or none if there is none |
| StoppointSets.StoppointSet.AddWithId | src/umps/stoppoint.cc:59-73 | adds if and only if no range overlaps, at the end of the list and in key order in the index; ids go on increasing if and only if none in use is 2^32 - 1 |
| StoppointSets.StoppointSet.Remove | src/umps/stoppoint.cc:75-88 | takes the point out of list and index and keeps ids increasing |
| StoppointSets.StoppointSet.Find | src/umps/stoppoint.cc:39-44 | finds the point that starts at the address, or none if there is none |
| StoppointSets.StoppointSet.CanInsert | src/umps/stoppoint.cc:46-52 | true if and only if no point overlaps |
| StoppointSets.StoppointSet.NextFreeId | src/umps/stoppoint.cc:157-163 | the loop gives the specified next id |
| StoppointSets.StoppointSet.GetStoppointsInRange | src/umps/stoppoint.h:207-220 | exactly the points of the address space starting in the interval, in index order |
| Stoppoints.NewIdKeepsOrder | src/umps/stoppoint.cc:157-163 | the new id keeps ids strictly increasing if and only if no id in use is 2^32 - 1 |
| Stoppoints.IdsCanWrap | src/umps/stoppoint.cc:157-163 | after id 2^32 - 1 the next id is 0 |
| Stoppoints.InsertKeeps | src/umps/stoppoint.cc:65-70 | list and index hold the same, pairwise disjoint points, the index sorted, after an insertion |
| Stoppoints.RemoveKeeps | src/umps/stoppoint.cc:79-85 | and after a removal |
| Json.RoundTrip | src/base/json.cc:172-544 | for every tree with ordered keys and any indentation, parsing the printed text gives the tree back if and only if no string or key holds a quote and no number is negative |
| Json.NodeParses | src/base/json.cc:373-395 | a quote-free node's text, whatever follows, parses to the node and stops right after it, or is rejected if a number is negative |
| Json.NodeIsSound | src/base/json.cc:373-395 | whatever the input, a tree the parser returns holds no quote and has its keys in order |
| Json.ParseNode | src/base/json.cc:373-395 | parsing ends on every input: each node uses up part of a measure of the characters left and the token read ahead |
| Json.SetMemberKeeps | src/base/json.cc:118-125 | setting a member keeps the keys in order |
| Json.SetMemberSets | src/base/json.cc:118-125 | setting a member puts it in place of any with its key and keeps all others |
| Json.NumberExactIff | src/base/json.cc:383-384 | a number reads as what it denotes if and only if that is below 2^31; otherwise as its low 32 bits with a sign, and as -1 from 2^63 on |
| Json.OneLine | src/base/json.cc:172-363 | without indentation a tree whose strings hold no line end is printed on one line |
| Json.OwnLine | src/base/json.cc:172-363 | with indentation the first member or element starts a line of its own, indented to its level |
| Json.CommaBeforeBrace | src/base/json.cc:397-420 | a comma before the closing brace of an object without quotes is accepted, and ignored, if and only if a member stands before it and every printed number is non-negative |
| Json.CommaBeforeBracket | src/base/json.cc:422-438 | a comma before the closing bracket is always an error |
| Json.TrailingText | src/base/json.cc:365-371 | text after one that parses is ignored if and only if it does not go on with the digits of a number that ends it |
| JsonParsers.Serialize | src/base/json.cc:172-363 | the printing loops append exactly the node's text |
| JsonParsers.JsonParser.Parse | src/base/json.cc:365-371 | the parser object gives the specified result |
| JsonParsers.JsonParser.ParseObject | src/base/json.cc:397-420 | the object loop, which ends on every input |
| JsonParsers.JsonParser.ParseArray | src/base/json.cc:422-438 | the array loop; the assertion that no token is read ahead twice holds |
| JsonParsers.JsonParser.NextToken | src/base/json.cc:440-487 | the scanner with its loops over blanks, strings, keywords and digits |

## Left out

- Machines.Machine.Step: does not model a stop requested by a breakpoint, because the debugger is left out: the Qt front end, its signals, stop masks and edits of registers, TLB and memory are assumed not to happen.
- Kernel.EventsRunOnTime: holds until the 64-bit clock is within one 32-bit delay of wrapping (`HasRoom`), as do the other theorems on whole machine runs.
- PreciseExceptions.PcStackInRuns: leaves out branches and WAIT in delay slots, whose effect the architecture does not define.
- Dma.Bus.DMATransfer: answers as a register would where the emulator follows a null processor (`SendReachesIff`, `FetchReachesIff`), and takes the register area's answers as given, because they are the other devices' and the controller's; a transfer that reads or writes the registers of the very disk or flash drive that makes it is not tied to that drive.
- Dma.SendsIff: says what the bus takes; where a transfer reaches the controller's per-processor registers, exactly as `SendReachesIff` and `FetchReachesIff` say, the emulator follows a null processor and the model answers as a register would.
- Processors.Processor.Reset: takes the first instruction as given; the emulator treats a failing first fetch as fatal.
- Disk and flash are proved beside their own completions, with one operation outstanding at a time; of the devices only the terminal is placed inside the kernel's world.
- HostedTerminals.TerminalInMachine: does not model where the terminal's interrupt goes beyond the operations on the controller, because the controller's own theorems say that.
- The network device, printers, and the machine controller's registers beyond reset, halt and power-off: they add no new kind of behaviour.
- The opcode table: instructions are classes with their results given; plain arithmetic that traps on overflow is the faulting class with the flag of `SignAdd` or `SignSub`.
- Completion times of disk and flash operations (rotation, seek and transfer time): a device asks for some positive delay, and when it ends does not matter to any property here.
- Host file errors, the checks of image headers, and log files: images are sequences of words that hold the blocks their header announces and are under 2^31 bytes.
- Status strings, disassembly, time formatting, the BIOS reserved words of the controller, and the bookkeeping copies of the previous instruction and physical addresses: nothing reads them.
- Registers, TLB, controller tables and the stoppoint vector are sequences their object reassigns rather than arrays or vectors, the ordered map of stoppoints is a sequence kept in key order whose lower bound is a function, and the objects of a JSON tree are values: sharing of these parts between objects is not captured.
- The processor's fetch and the instruction's effect on memory are answers of the world, so that a store by one processor is seen by another only through the world; memory itself is not part of the kernel.
- JSON escapes, negative and non-integer numbers (RFC 8259, sections 6 and 7): the parser does not implement them, and the round trip says exactly what that excludes.
