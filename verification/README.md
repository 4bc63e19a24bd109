# Verified model of the rover software

A Dafny 4.11 model of the hard parts of the rover's software and of the board support package it
runs on, with proofs. `dafny verify dfyconfig.toml` checks everything.

- **Kernel** (`software/ROVER_bsp/UCOSII/src/os_core.c`, with `OS_LOWEST_PRIO <= 63`). `PriorityList`
  is the two-level bitmap of the ready list and the wait lists. `KernelModel` is the kernel as a
  state machine over priority sets, with any number of tasks and events; `KernelInvariant`,
  `KernelRuns`, `KernelScheduling`, `KernelTicks`, `KernelTimeouts` and `KernelStores` prove what it
  keeps over every run. `KernelData` and `KernelPool` say what the C tables and linked lists mean, and
  the class in `Kernel` is `os_core.c` itself over arrays, each method proved to do to the meaning of
  its tables what the state machine says. A context switch is the assignment to `OSPrioCur`.
- **Flash stack**. `NorFlash` is a serial flash as its pins show it (frames delimited by chip select,
  write-enable and address-mode latches, programming that only clears bits, busy times that pass with
  status reads). `SpiTransfer` is `alt_avalon_spi_command` against any schedule of its status bits,
  `EpcsCommands` the byte frames, `FlashSpec` what a write should leave, said on byte arrays alone,
  and `EpcsFlash` the controller with its block walk, comparison and page split. `Sectors` divides
  address spaces by counting.
- **JTAG UART fast driver**. `UartRing` is the ring buffer; `UartReceive` and `UartTransmit` are state
  machines in which the interrupt routine may run between any two statements of any number of readers
  and writers; `JtagUart` is the driver as loops over shared arrays that are preempted at every
  statement, down to single bytes of each `memcpy`.
- **Alarms** against unbounded deadlines, the **I2C** master against a slave that decodes the two
  wires (UM10204, sections 3.1.3 to 3.1.6), two **number printers** that must agree, the recursive
  **heap lock** under any interleaving of tasks, and the rover's own message and status protocol
  (`Rover`) and flash library (`RoverFlash`).

What the device registers hold, when interrupts come, what the other side of a wire answers, and what
callbacks return are parameters that the results hold for all values of.

## Where the code does less than its callers may expect

Each is stated exactly, and where it takes a particular run to get there, that run is given.

- A task suspended inside `OSEventPendMulti` whose event arrives is never ready again: the
  `OS_STAT_MULTI` bit keeps `OSTaskResume` from making it ready, and the event is lost
  (`ResumeReadiesUnlessMulti`, `WedgeArises`, `WedgedForever`, `WedgeHappens`). One whose time runs out
  while it is suspended is not ready either until an event is handed to it, and then the timeout is
  not reported (`StrandedArises`, `StrandedStep`, `StrandedUntilGiven`).
- `OSSchedLock` does nothing in an interrupt routine but `OSSchedUnlock` still counts down, so a pair
  of them there gives up the lock of the interrupted task (`LockPairNeutral`, `LockLostToInterrupt`,
  `LockLostExample`).
- `alt_avalon_spi_command` with nothing to write or read never returns (`EmptyTransferHangs`).
- `alt_alarm_start` with an interval of 2^32 - 1 fires at the next tick, unless the counter is just
  about to wrap (`ArmedTracks`, `LongestFiresAtOnce`).
- A blocking UART read reports -EIO although the host is there, and a blocking write stops short,
  when a READ_RDY or WRITE_RDY flag is left over from before (`StaleReadyFails`, `StaleReadyStops`, and
  in both modules `StaleReadyHappens`). A write need not find the flag left over: a byte that goes out
  while it fills the ring sets it (`StaleReadyOwnCall`).
- `alt_epcs_flash_write` and `Flash_Write` report success when the source runs past the end of the
  device and is cut there (`EpcsFlash.EpcsFlashDevice.Write`, `RoverFlash.Write`).
- The history task reads the index of the travel log three times, and the navigation task may commit
  entries in between: its store can then overwrite the heading of a turn, which is never put right
  (`LogRightUnlessLate`, `LateIfTurned`, `LateStoreHappens`).
- An unlock of the heap by a task that has not locked it lets a second task in while another still has
  it, whenever a lock is counted (`StrayUnlock`).
- `Flash_Write` names a block its bytes do not lie in when the offset lies past the first block
  (`RoverFlash.Write`).

## Model

| member | source | states |
|---|---|---|
| `PriorityList.UnMapIsLowestBit` | software/ROVER_bsp/UCOSII/src/os_core.c:38-55 | the 256-entry table gives, for every byte but 0, the position of its lowest set bit |
| `PriorityList.InsertOk` | software/ROVER_bsp/UCOSII/src/os_core.c:1069-1075 | setting a priority's table and group bits keeps the list well formed (group bit set exactly where the table byte is not 0) and adds exactly that priority |
| `PriorityList.RemoveOk` | software/ROVER_bsp/UCOSII/src/os_core.c:1138-1149 | clearing the table bit, and the group bit only when the byte became 0, keeps the list well formed and takes out exactly that priority |
| `PriorityList.GroupZero` | software/ROVER_bsp/UCOSII/src/os_core.c:1000-1003 | the group byte is 0 exactly when the list has no member |
| `PriorityList.HighestIsLeast` | software/ROVER_bsp/UCOSII/src/os_core.c:1652-1659 | the two-level lookup finds the least member of any non-empty list |
| `KernelInvariant.StepKeepsInv` | software/ROVER_bsp/UCOSII/src/os_core.c:306-1196 | every step of the machine (create, pend, multi pend, resume after pend, post, abort, tick, delay, suspend, resume, interrupt enter and exit, lock, unlock, schedule) keeps the invariant of the ready list, the wait lists, the control blocks and the scheduler |
| `KernelInvariant.EventTaskRdyOk` | software/ROVER_bsp/UCOSII/src/os_core.c:989-1043 | OS_EventTaskRdy keeps what holds of every task's data, also of those it does not touch |
| `KernelInvariant.TickTaskOk` | software/ROVER_bsp/UCOSII/src/os_core.c:894-915 | a task whose delay runs out is ready unless suspended; inside a pend it is told of a timeout and is still on exactly the lists it waits on, a state the invariant admits until it runs |
| `KernelInvariant.TailOk` | software/ROVER_bsp/UCOSII/src/os_core.c:457-536 | the tail of a pend takes the task off all its lists after a timeout and leaves its control block clear |
| `KernelRuns.ReachableSafe` | software/ROVER_bsp/UCOSII/src/os_core.c:851-919 | in every reachable state a ready task is not suspended and has no delay, a task with status ready and no delay is ready, a waiting task's block names the event it waits for, it is ready only if timed out and yet to run, and an unlocked scheduling point leaves the most urgent ready task running |
| `KernelRuns.ReachableCallsSafe` | software/ROVER_bsp/UCOSII/src/os_core.c:457-536 | the event array of every waiting task, and the event a resumed one was handed, exist in every reachable state |
| `KernelRuns.DeliveredExactlyOnce` | software/ROVER_bsp/UCOSII/src/os_core.c:457-536 | between the call of a pend or multi pend and its return, whatever comes between, at most one event is handed over; until then the task is on exactly the lists it named and then on none; the call returns that event and message, or a timeout if there was none, also when a post lands between timeout and resumption; afterwards it is on no list |
| `KernelScheduling.SwitchesOnlyWhenFree` | software/ROVER_bsp/UCOSII/src/os_core.c:1610-1635 | the running task changes only when both nesting counts are 0, and then to the most urgent ready task |
| `KernelScheduling.NestingIsDepth` | software/ROVER_bsp/UCOSII/src/os_core.c:617-680 | over runs nested at most 255 deep the nesting count is the depth of interrupts entered and not left |
| `KernelScheduling.NoSwitchInsideInterrupts` | software/ROVER_bsp/UCOSII/src/os_core.c:651-680 | over such runs no switch happens inside an interrupt |
| `KernelScheduling.CountsStep` | software/ROVER_bsp/UCOSII/src/os_core.c:617-765 | OSIntEnter and OSIntExit move the nesting count, OSSchedLock and OSSchedUnlock the lock count, by one within 0 to 255, the lock not in an interrupt; nothing else moves either |
| `KernelScheduling.NestingBounded` | software/ROVER_bsp/UCOSII/src/os_core.c:617-712 | over every run both counts stay within 255 |
| `KernelScheduling.CallGoesOn` | software/ROVER_bsp/UCOSII/src/os_core.c:457-536 | a waiting call whose task is the most urgent ready one, with nothing nested, goes on to return |
| `KernelScheduling.StaleWhy` | software/ROVER_bsp/UCOSII/src/os_core.c:651-680 | only a tick from task level leaves another than the most urgent ready task running |
| `KernelScheduling.LockPairNeutral` | software/ROVER_bsp/UCOSII/src/os_core.c:698-765 | a lock and unlock pair leaves the lock count as it was if and only if the count is 0, or is below 255 outside interrupts; in an interrupt under a held lock the pair gives the lock up |
| `KernelScheduling.LockLostToInterrupt` | software/ROVER_bsp/UCOSII/src/os_core.c:698-765 | the run in which such a pair takes the processor from a task that holds the lock |
| `KernelScheduling.LockLostExample` | software/ROVER_bsp/UCOSII/src/os_core.c:698-765 | a state reached from OSStart to which that applies |
| `KernelScheduling.ResumeReadiesUnlessMulti` | software/ROVER_bsp/UCOSII/src/os_core.c:1024-1043 | resuming a suspended task whose wait is over makes it ready if and only if it is not inside a multi pend, whose status bit is still set |
| `KernelScheduling.WedgeArises` | software/ROVER_bsp/UCOSII/src/os_core.c:1026-1043 | exactly which steps leave a multi-pending task handed an event but never ready: delivery while suspended, or suspension after delivery |
| `KernelScheduling.WedgedForever` | software/ROVER_bsp/UCOSII/src/os_core.c:1026-1043 | no run makes such a task ready again |
| `KernelScheduling.WedgeHappens` | software/ROVER_bsp/UCOSII/src/os_core.c:1026-1043 | a run from OSStart that leads there: multi pend, suspend, post |
| `KernelScheduling.StrandedArises` | software/ROVER_bsp/UCOSII/src/os_core.c:894-915 | exactly which steps leave a multi-pending task timed out but not ready: the last tick while it is suspended, or suspension between timeout and running |
| `KernelScheduling.StrandedStep` | software/ROVER_bsp/UCOSII/src/os_core.c:989-1043 | exactly which steps make such a task ready: a post or abort that picks it while it is not suspended; OSTaskResume and ticks do not |
| `KernelScheduling.StrandedUntilGiven` | software/ROVER_bsp/UCOSII/src/os_core.c:989-1043 | over any run in which no event is handed to it, it stays so |
| `KernelTicks.TickListIsTickAll` | software/ROVER_bsp/UCOSII/src/os_core.c:894-915 | walking the control blocks in any order, each once, ticks every task but the idle one exactly once |
| `KernelTicks.TicksExact` | software/ROVER_bsp/UCOSII/src/os_core.c:894-915 | after n ticks and nothing else, a task whose delay was 1 to n has delay 0, is ready unless suspended, and is told of a timeout exactly if it was pending; a longer delay is n less; wait lists, stores, nesting counts and the running task are unchanged |
| `KernelTimeouts.TimeoutExact` | software/ROVER_bsp/UCOSII/src/os_core.c:457-536 | a pend or multi pend with timeout n, over every run in which nothing is handed to its task: after k ticks of the task its delay is n - k, it is told of a timeout from the n-th tick on and not before, with n = 0 never, and the call cannot return earlier |
| `KernelTimeouts.DelayExact` | software/ROVER_bsp/UCOSII/src/os_core.c:894-915 | a task that delays itself by n > 0 ticks, over every run in which it calls nothing else that waits, is ready if and only if it has had n ticks and is not suspended |
| `KernelStores.ImmediatePathExact` | software/ROVER_bsp/UCOSII/src/os_core.c:379-454 | over any array, the events returned are, in order, those that had something when visited; each loses exactly one unit or its oldest message; messages align; others keep theirs |
| `KernelStores.UnitsConserved` | software/ROVER_bsp/UCOSII/src/os_core.c:379-454 | over any run, what a store holds plus what was handed out is what it began with plus what was accepted; a post is accepted if a task waits or the count is below 65535, the mailbox empty, the queue not full |
| `KernelStores.PutExact` | software/ROVER_bsp/UCOSII/src/os_core.c:379-454 | an accepted post adds exactly its unit or message behind those stored, a refused one nothing |
| `KernelData.RingTake` | software/ROVER_bsp/UCOSII/src/os_core.c:418-432 | advancing the OUT pointer of a queue, wrapping at its end, drops exactly the oldest message |
| `KernelData.ReadiedOk` | software/ROVER_bsp/UCOSII/src/os_core.c:989-1043 | OS_EventTaskRdy on the tables means handing the event to that task in the abstract kernel |
| `KernelData.TickedOk` | software/ROVER_bsp/UCOSII/src/os_core.c:894-915 | one pass of the tick loop on a control block means one tick of that task |
| `KernelData.MultiPendedOk` | software/ROVER_bsp/UCOSII/src/os_core.c:457-481 | the statements that start a multi pend mean what the abstract kernel does |
| `KernelData.MultiReturnedOk` | software/ROVER_bsp/UCOSII/src/os_core.c:483-536 | and those that end it |
| `KernelPool.WalkIsTick` | software/ROVER_bsp/UCOSII/src/os_core.c:893-917 | the walk from OSTCBList to the idle task meets every task once, so it is one whole tick |
| `KernelPool.TakenFromPool` | software/ROVER_bsp/UCOSII/src/os_core.c:1934-1937 | taking a block off the free list keeps free list, active list and blocks in flight a partition of the table |
| `KernelPool.LinkedIn` | software/ROVER_bsp/UCOSII/src/os_core.c:2003-2015 | linking it in at the head keeps both lists acyclic and doubly linked, the counter right and the idle task last |
| `KernelPool.InitialPool` | software/ROVER_bsp/UCOSII/src/os_core.c:1504-1531 | initialisation leaves every block on the free list |
| `KernelCore.Kernel.constructor` | software/ROVER_bsp/UCOSII/src/os_core.c:1213-1531 | initialisation leaves empty ready and wait lists and a whole pool |
| `KernelCore.Kernel.MakeReady` | software/ROVER_bsp/UCOSII/src/os_core.c:2011-2012 | the two writes that make a task ready |
| `KernelCore.Kernel.MakeUnready` | software/ROVER_bsp/UCOSII/src/os_core.c:1067-1073 | the writes that make it not ready |
| `KernelCore.Kernel.EventTaskRemove` | software/ROVER_bsp/UCOSII/src/os_core.c:1138-1149 | one list loses the task |
| `KernelCore.Kernel.EventTaskRemoveMulti` | software/ROVER_bsp/UCOSII/src/os_core.c:1168-1196 | every list of the array loses it |
| `KernelCore.Kernel.EventTaskRdy` | software/ROVER_bsp/UCOSII/src/os_core.c:989-1043 | the tables after it mean the abstract delivery to the least waiter, whose priority is returned |
| `KernelCore.Kernel.TimeTick` | software/ROVER_bsp/UCOSII/src/os_core.c:851-919 | the walk ends, ticks every task exactly once and keeps the pool |
| `KernelCore.Kernel.IntEnter` | software/ROVER_bsp/UCOSII/src/os_core.c:617-630 | counts up to 255 |
| `KernelCore.Kernel.IntExit` | software/ROVER_bsp/UCOSII/src/os_core.c:651-680 | counts down if it can and, with the count then 0 and unlocked, switches to the most urgent ready task |
| `KernelCore.Kernel.SchedLock` | software/ROVER_bsp/UCOSII/src/os_core.c:698-712 | counts up to 255, and not in an interrupt |
| `KernelCore.Kernel.SchedUnlock` | software/ROVER_bsp/UCOSII/src/os_core.c:735-760 | counts down, and schedules when it reaches 0 outside interrupts |
| `KernelCore.Kernel.SchedNew` | software/ROVER_bsp/UCOSII/src/os_core.c:1652-1659 | finds the least ready priority |
| `KernelCore.Kernel.Sched` | software/ROVER_bsp/UCOSII/src/os_core.c:1610-1635 | switches to it, counting switches, unless nested or locked |
| `KernelCore.Kernel.EventTaskWait` | software/ROVER_bsp/UCOSII/src/os_core.c:1061-1075 | the running task leaves the ready list and joins the event's list |
| `KernelCore.Kernel.TakeAvailable` | software/ROVER_bsp/UCOSII/src/os_core.c:386-446 | the first loop of the multi pend takes what is available, event by event; if nothing is, the status bits are those of the kinds of the events |
| `KernelCore.Kernel.EventPendMulti` | software/ROVER_bsp/UCOSII/src/os_core.c:375-481 | refused in interrupts and under a lock; otherwise it returns what is available or makes the task wait on every event with its timeout, which `TimeoutExact` counts down |
| `KernelCore.Kernel.EventPendMultiReturn` | software/ROVER_bsp/UCOSII/src/os_core.c:457-536 | returns the event handed over, the abort or the timeout, and clears the block |
| `KernelCore.Kernel.TcbTake` | software/ROVER_bsp/UCOSII/src/os_core.c:1926-1960 | a free block is filled in without any task seeing it, or there is none |
| `KernelCore.Kernel.TcbLink` | software/ROVER_bsp/UCOSII/src/os_core.c:2003-2015 | the new task appears, ready, and the counter goes up by one |
| `SpiTransfer.TransferExact` | software/ROVER_bsp/drivers/src/altera_avalon_spi.c:57-118 | for any readings of the status register: credits plus bytes in flight is 1, the -1024 arm is never reached, and a finished transfer has sent the bytes to write and then the zeros and stored exactly the last answers; it finishes once both bits have been seen set twice for each byte |
| `SpiTransfer.EmptyTransferHangs` | software/ROVER_bsp/drivers/src/altera_avalon_spi.c:79-118 | with nothing to write or read the loop never ends |
| `EpcsCommands.EpcsDevice.Clock` | software/ROVER_bsp/drivers/src/altera_avalon_spi.c:57-118 | the loop itself leaves the chip as after exactly those bytes and returns its last answers |
| `EpcsCommands.EpcsDevice.SpiCommand` | software/ROVER_bsp/drivers/src/altera_avalon_spi.c:41-135 | whatever an earlier transfer left in the receive register, the command exchanges exactly its bytes, the transmitter has finished when it returns, and chip select is released afterwards unless the caller merges two commands into one frame |
| `NorFlash.AddressDecodes` | software/ROVER_bsp/drivers/src/epcs_commands.c:70-88 | the address bytes decode to the address, in 3-byte mode below 2^24 and in 4-byte mode below 2^32 |
| `NorFlash.EraseFrame` | software/ROVER_bsp/drivers/src/epcs_commands.c:70-104 | a sector-erase frame erases exactly the sector that holds the address, given the write-enable latch |
| `NorFlash.ProgramFrame` | software/ROVER_bsp/drivers/src/epcs_commands.c:190-254 | the frame made of opcode and address and then the data programs exactly those data there |
| `NorFlash.ReadAnswers` | software/ROVER_bsp/drivers/src/epcs_commands.c:110-153 | a read frame answers with the array from the address on, wrapping at its end |
| `NorFlash.ProgramInPage` | software/ROVER_bsp/drivers/src/epcs_commands.c:190-254 | a program inside one page ands the data into the cells and never wraps |
| `EpcsCommands.EpcsDevice.AwaitWipReleased` | software/ROVER_bsp/drivers/src/epcs_commands.c:52-63 | returns with the chip no longer busy |
| `EpcsCommands.EpcsDevice.Enter4BytesMode` | software/ROVER_bsp/drivers/src/epcs_commands.c:293-311 | write enable, then the mode change |
| `EpcsCommands.EpcsDevice.Exit4BytesMode` | software/ROVER_bsp/drivers/src/epcs_commands.c:313-331 | write enable, then the change back |
| `EpcsCommands.EpcsDevice.SectorErase` | software/ROVER_bsp/drivers/src/epcs_commands.c:65-108 | one sector is erased and nothing else happens; the chip is idle, write-disabled and in 3-byte mode on return |
| `EpcsCommands.EpcsDevice.WriteBuffer` | software/ROVER_bsp/drivers/src/epcs_commands.c:190-254 | the data are programmed at the address, and likewise |
| `EpcsCommands.EpcsDevice.ReadBuffer` | software/ROVER_bsp/drivers/src/epcs_commands.c:110-153 | the array is returned from the address on, and the chip is as before |
| `EpcsFlash.EveryRegionOk` | software/ROVER_bsp/drivers/src/altera_avalon_epcs_flash_controller.c:97-170 | every device in the table has as many bytes as its blocks hold, and 4-byte addresses exactly if it is larger than 2^24 |
| `EpcsFlash.DensityTells` | software/ROVER_bsp/drivers/src/altera_avalon_epcs_flash_controller.c:97-170 | which devices are known, that each has 2 to the power its density code says in bytes, and the block size of each |
| `EpcsFlash.ChunkCompareIsMemcmp` | software/ROVER_bsp/drivers/src/altera_avalon_epcs_flash_controller.c:190-241 | comparing in chunks of 32 is comparing the whole, inside the device |
| `EpcsFlash.EpcsFlashDevice.TestAddress` | software/ROVER_bsp/drivers/src/altera_avalon_epcs_flash_controller.c:353-375 | only offsets inside the device pass, negative ones too compared as unsigned |
| `EpcsFlash.EpcsFlashDevice.Read` | software/ROVER_bsp/drivers/src/altera_avalon_epcs_flash_controller.c:447-470 | 0 and the bytes, or -EIO and nothing |
| `EpcsFlash.EpcsFlashDevice.CompareWith` | software/ROVER_bsp/drivers/src/altera_avalon_epcs_flash_controller.c:190-241 | the chunk loop finds what comparing chunk by chunk finds, failing reads included |
| `EpcsFlash.EpcsFlashDevice.EraseBlock` | software/ROVER_bsp/drivers/src/altera_avalon_epcs_flash_controller.c:384-399 | the sector that holds the offset is blank afterwards, or -EIO |
| `EpcsFlash.EpcsFlashDevice.WriteBlock` | software/ROVER_bsp/drivers/src/altera_avalon_epcs_flash_controller.c:409-440 | the data are anded into the array by programs that each stay inside a 256-byte page |
| `EpcsFlash.EpcsFlashDevice.Write` | software/ROVER_bsp/drivers/src/altera_avalon_epcs_flash_controller.c:256-322 | for every offset and length, every byte of the device is what a write should leave: the source byte where there is one, else 0xFF in sectors that had to be rewritten, else the old byte; the commands sent are exactly those needed; an offset outside does nothing; it returns 0 also when the source was cut at the end of the device |
| `FlashSpec.WrittenStores` | software/ROVER_bsp/drivers/src/altera_avalon_epcs_flash_controller.c:256-322 | a write that ends inside the device has stored exactly the source |
| `FlashSpec.WrittenSpares` | software/ROVER_bsp/drivers/src/altera_avalon_epcs_flash_controller.c:290-300 | a sector whose bytes already matched is unchanged |
| `FlashSpec.OpsAreNeeded` | software/ROVER_bsp/drivers/src/altera_avalon_epcs_flash_controller.c:285-440 | every erase of a write is of a sector that differed, and every program is of source bytes at their place inside one page |
| `FlashSpec.MemcmpSplit` | software/ROVER_bsp/drivers/src/altera_avalon_epcs_flash_controller.c:203-236 | comparing in pieces is comparing the whole |
| `UartRing.PublishAppends` | software/ROVER_bsp/drivers/src/altera_avalon_jtag_uart_write.c:105-126 | publishing a piece stored in free cells appends exactly it |
| `UartRing.TakeDrops` | software/ROVER_bsp/drivers/src/altera_avalon_jtag_uart_read.c:122-140 | publishing that a piece was taken drops exactly it |
| `UartRing.WriteChunk` | software/ROVER_bsp/drivers/src/altera_avalon_jtag_uart_write.c:109-114 | the piece computed from copies of the indices lies in free cells, and is empty only if the ring was full |
| `UartRing.ReadChunk` | software/ROVER_bsp/drivers/src/altera_avalon_jtag_uart_read.c:125-128 | the piece to take lies in held cells, and is empty only if the ring was empty |
| `UartReceive.StepKeepsInv` | software/ROVER_bsp/drivers/src/altera_avalon_jtag_uart_read.c:113-195 | every statement of a reader and every step of the interrupt routine, in any order, keeps order, account and owed wakeups |
| `UartReceive.ReachableSafe` | software/ROVER_bsp/drivers/src/altera_avalon_jtag_uart_init.c:125-167 | in every reachable state the readers have the oldest bytes received, the ring holds the rest, at most 2047; receive interrupts are off only if the ring is full or a reader has taken bytes and is yet to enable them |
| `UartReceive.WaitsForBytes` | software/ROVER_bsp/drivers/src/altera_avalon_jtag_uart_read.c:152-178 | no lost wakeup: in every reachable state a reader that has to wait faces an empty ring, with receive interrupts on or about to be enabled |
| `UartReceive.CopySafe` | software/ROVER_bsp/drivers/src/altera_avalon_jtag_uart_read.c:136-140 | the interrupt routine never stores into the cells a reader is copying |
| `UartReceive.EmptyHandedWhy` | software/ROVER_bsp/drivers/src/altera_avalon_jtag_uart_read.c:152-178 | a reader that waited leaves with nothing only if the host timed out or READ_RDY was already set when it found the ring empty |
| `UartReceive.WaitsOnlyIfAsked` | software/ROVER_bsp/drivers/src/altera_avalon_jtag_uart_read.c:152-178 | in every reachable state a reader waits, or has waited, only if called with wait |
| `UartReceive.TakesAllWaiting` | software/ROVER_bsp/drivers/src/altera_avalon_jtag_uart_read.c:113-150 | in every reachable state a reader that leaves has filled its space or taken at least as many bytes as were waiting when it got the lock |
| `UartReceive.StaleReadyFails` | software/ROVER_bsp/drivers/src/altera_avalon_jtag_uart_read.c:152-178 | a blocking read of an empty ring runs through without waiting and fails if and only if one of the two flags is left over |
| `UartReceive.StaleReadyHappens` | software/ROVER_bsp/drivers/src/altera_avalon_jtag_uart_read.c:152-178 | a run from init that leads to such a read, the host never having been away |
| `UartTransmit.StepKeepsInv` | software/ROVER_bsp/drivers/src/altera_avalon_jtag_uart_write.c:98-195 | every statement of a writer and every step of the interrupt routine, in any order, keeps order, account and owed wakeups |
| `UartTransmit.ReachableSafe` | software/ROVER_bsp/drivers/src/altera_avalon_jtag_uart_write.c:100-139 | in every reachable state the device has the oldest bytes enqueued and the ring the rest, transmit interrupts are off only if the ring is empty or the writer is yet to enable them, and exactly the first `sent` bytes of the writer's data are enqueued |
| `UartTransmit.WaitsForRoom` | software/ROVER_bsp/drivers/src/altera_avalon_jtag_uart_write.c:151-186 | no lost wakeup: in every reachable state a writer that has to wait faces a full ring, with transmit interrupts on |
| `UartTransmit.StoreSafe` | software/ROVER_bsp/drivers/src/altera_avalon_jtag_uart_write.c:122-126 | a writer never stores into cells still to be sent |
| `UartTransmit.ShortWhy` | software/ROVER_bsp/drivers/src/altera_avalon_jtag_uart_write.c:151-186 | a writer that waited stops short only if the host timed out or WRITE_RDY was already set when it found the ring full |
| `UartTransmit.WaitsOnlyIfAsked` | software/ROVER_bsp/drivers/src/altera_avalon_jtag_uart_write.c:151-186 | in every reachable state a writer writes the data it was called with and waits, or has waited, only if called with wait |
| `UartTransmit.StaleReadyStops` | software/ROVER_bsp/drivers/src/altera_avalon_jtag_uart_write.c:151-186 | a blocking write to a full ring runs through without waiting and stops if and only if one of the two flags is left over |
| `UartTransmit.StaleReadyHappens` | software/ROVER_bsp/drivers/src/altera_avalon_jtag_uart_write.c:151-186 | a run from init that leads to such a write, for any data longer than the ring |
| `UartTransmit.StaleReadyOwnCall` | software/ROVER_bsp/drivers/src/altera_avalon_jtag_uart_write.c:98-186 | the first write of all can stop short too, for data longer than the ring: a byte sent while it fills the ring sets WRITE_RDY |
| `JtagUart.Uart.constructor` | software/ROVER_bsp/drivers/src/altera_avalon_jtag_uart_init.c:66-76 | empty rings, receive interrupts on |
| `JtagUart.Uart.FillRing` | software/ROVER_bsp/drivers/src/altera_avalon_jtag_uart_init.c:140-158 | the loop stores every valid answer and stops only with the ring full or at an answer without a byte; it asks nothing of the device if the ring was full |
| `JtagUart.Uart.ReceiveInterrupt` | software/ROVER_bsp/drivers/src/altera_avalon_jtag_uart_init.c:125-167 | the bytes received are exactly those of the valid answers the device gave, in order; it stops only with the ring full or at an answer without a byte; READ_RDY is posted if and only if a byte was stored; its interrupt stays on if and only if it was on and something was read whose last answer announced nothing more |
| `JtagUart.Uart.TransmitInterrupt` | software/ROVER_bsp/drivers/src/altera_avalon_jtag_uart_init.c:169-195 | it sends the oldest bytes, as many as there are and fit, and turns its interrupt off if and only if there was room for more |
| `JtagUart.Uart.Preempt` | software/ROVER_bsp/drivers/src/altera_avalon_jtag_uart_init.c:106-197 | it runs for as long as the device shows an interrupt and serves each one shown: after a receive interrupt the ring is full or the device had no byte, and exactly as many bytes have gone out as there were and the transmit interrupts had room for |
| `JtagUart.Uart.Read` | software/ROVER_bsp/drivers/src/altera_avalon_jtag_uart_read.c:100-205 | preempted at every statement, it returns the oldest bytes no reader has had, in order, at least all that were waiting if they fit, and the error codes otherwise; with wait, it returns nothing only if it waited and the host timed out or a flag was left over at the call; without wait it never waits |
| `JtagUart.Uart.Write` | software/ROVER_bsp/drivers/src/altera_avalon_jtag_uart_write.c:83-202 | preempted at every statement, it returns how many of the first bytes it has enqueued, in order, at least as many as there was room for, and the error codes otherwise; with wait, it stops short only if it waited and the host timed out, a timeout was left over, or WRITE_RDY was set when tx_out was last read; without wait it never waits |
| `Alarms.ArmedTracks` | software/ROVER_bsp/HAL/src/alt_alarm_start.c:78-96 | the 32-bit time and rollover flag stand for the true deadline if and only if the interval is not 2^32 - 1 or the counter is about to wrap |
| `Alarms.LongestFiresAtOnce` | software/ROVER_bsp/HAL/src/alt_alarm_start.c:82-96 | otherwise the alarm goes off at the very next tick |
| `Alarms.TickTracks` | software/ROVER_bsp/HAL/src/alt_tick.c:109-138 | a tick fires the alarm exactly at its deadline, and the next deadline is counted from that one |
| `Alarms.StepAgrees` | software/ROVER_bsp/HAL/src/alt_tick.c:66-141 | a start, stop or tick of the 32-bit clock fires what the unbounded one fires, and leaves them agreeing if and only if it does not start the longest interval at the wrong time |
| `Alarms.RunAgrees` | software/ROVER_bsp/HAL/src/alt_tick.c:66-141 | over any run of starts, stops and ticks the two agree |
| `Alarms.FiresExactly` | software/ROVER_bsp/HAL/src/alt_tick.c:87-141 | an alarm is started, and then other alarms are started and stopped and ticks come in any order and number: a tick fires it exactly at its deadline and at the sums of what its callback returns from there |
| `Alarms.StopSilences` | software/ROVER_bsp/HAL/src/alt_tick.c:66-73 | an alarm that was stopped does not go off over any run of starts, stops and ticks in which it is not started again |
| `Alarms.AlarmClock.Start` | software/ROVER_bsp/HAL/src/alt_alarm_start.c:64-112 | the alarm goes to the head of the list with that time and flag, or -ENOTSUP, or -EINVAL for a null pointer |
| `Alarms.AlarmClock.Stop` | software/ROVER_bsp/HAL/src/alt_tick.c:66-73 | exactly that alarm leaves the list |
| `Alarms.AlarmClock.Tick` | software/ROVER_bsp/HAL/src/alt_tick.c:87-141 | one pass over the list, with alarms leaving it, treats each alarm once and fires them in list order |
| `I2c.Master.StartCondition` | software/ROVER/lib/I2C.c:204-220 | the slave hears one START and nothing else |
| `I2c.Master.StopCondition` | software/ROVER/lib/I2C.c:223-236 | the slave hears one STOP and nothing else |
| `I2c.Master.WriteByte` | software/ROVER/lib/I2C.c:238-275 | the slave hears exactly that byte in nine clocks, most significant bit first, and the result is its acknowledge |
| `I2c.Master.ReadByte` | software/ROVER/lib/I2C.c:277-313 | the result is the byte the slave gave, with the master's acknowledge in the ninth clock |
| `I2c.Master.MultipleWrite` | software/ROVER/lib/I2C.c:64-156 | the slave hears START, the bytes up to the first it does not acknowledge, STOP; it succeeds if and only if all were acknowledged |
| `I2c.Master.MultipleRead` | software/ROVER/lib/I2C.c:158-193 | the slave hears the addresses, a second START only if it answered, and the bytes read, all but the last acknowledged; the buffer is what it gave |
| `I2c.Master.ReadOne` | software/ROVER/lib/I2C.c:96-125 | the same for one byte, but with the second START even after no answer |
| `I2c.ValueOfBits` | software/ROVER/lib/I2C.c:247-261 | eight bits sent most significant first are the byte |
| `NumberPrinters.PrintHex` | software/ROVER_bsp/HAL/src/alt_printf.c:82-111 | the characters printed, read back by their places in 0123456789abcdef, are the number, with no leading zero but for 0; and they are what the other printer should print for %x |
| `NumberPrinters.PrintInteger` | software/ROVER_bsp/HAL/src/alt_log_printf.c:204-297 | in bases 8, 10 and 16 of either case, the field is blanks, then the sign, then characters that read back as the magnitude with no leading zero but for 0; or with zero padding the sign, then zeros, then those; as wide as asked or as it needs |
| `NumberPrinters.NumberMeans` | software/ROVER_bsp/HAL/src/alt_log_printf.c:247-296 | the digits read back as the number and begin with 0 only for 0 |
| `NumberPrinters.FieldWidth` | software/ROVER_bsp/HAL/src/alt_log_printf.c:257-279 | the field is as wide as asked or as digits and sign need |
| `NumberPrinters.SignedMagnitude` | software/ROVER_bsp/HAL/src/alt_log_printf.c:238-245 | a signed number prints with its own sign and size, the most negative one too |
| `HeapLock.StepKeepsInv` | software/ROVER_bsp/UCOSII/src/alt_malloc_lock.c:63-146 | every statement of the two functions, in any order over the tasks, keeps the semaphore's one unit with at most one task |
| `HeapLock.Exclusive` | software/ROVER_bsp/UCOSII/src/alt_malloc_lock.c:63-146 | at most one task ever has the heap locked, and the code's count is how often |
| `HeapLock.QueryNeverStale` | software/ROVER_bsp/UCOSII/src/alt_malloc_lock.c:85-107 | although the semaphore is queried before the critical section, the check lets through exactly the task that has the heap locked, which never waits |
| `HeapLock.PostsWhenMatched` | software/ROVER_bsp/UCOSII/src/alt_malloc_lock.c:133-143 | the semaphore is posted exactly when unlocks have matched locks |
| `HeapLock.StrayUnlock` | software/ROVER_bsp/UCOSII/src/alt_malloc_lock.c:126-131 | after an unlock by a task that has not locked, some run of proper calls leads to two tasks that both have the heap locked, if and only if a lock was counted |
| `HeapLock.HeapSemaphore.Lock` | software/ROVER_bsp/UCOSII/src/alt_malloc_lock.c:63-109 | the caller has it once more, at once if it had it already or the semaphore was free, else after waiting for whatever the other tasks do; if they never give it up it still waits |
| `HeapLock.HeapSemaphore.Unlock` | software/ROVER_bsp/UCOSII/src/alt_malloc_lock.c:115-146 | and once less, the semaphore being free exactly when that is none |
| `Rover.HeadingExact` | software/ROVER/lib/motors.c:303-379 | each heading is north turned by right turns less left turns plus twice the reversals |
| `Rover.AlwaysOneMessage` | software/ROVER/nav.c:59-189 | over all interleavings at most one message is queued, handled or about to be posted, none while the system is free, so no post meets a full queue |
| `Rover.ActsAsTold` | software/ROVER/nav.c:59-189 | over all interleavings the navigation task stops for a message if and only if it was posted because the front was seen blocked or was still blocked after a turn, and starts if and only if the front was seen clear or a start had failed |
| `Rover.StatusExact` | software/ROVER/nav.c:75-184 | in every reachable state SYSTEM_STATUS is what the last claim, turn, start or goal made it |
| `Rover.TellsItself` | software/ROVER/nav.c:140-151 | after a turn the queue holds a blocked message if the front is still blocked and nothing if it is clear |
| `Rover.NeverStalls` | software/ROVER/nav.c:59-189 | until the history task ends the course, a busy system always has exactly one message queued, handled or about to be posted |
| `Rover.LogIsCourse` | software/ROVER/nav.c:68-131 | over all interleavings the moves in the log are the moves made, in order |
| `Rover.AlwaysFaithful` | software/ROVER/nav.c:68-131 | every entry ever committed faces as its moves say, if no store of the history task was late |
| `Rover.LogRightUnlessLate` | software/ROVER/nav.c:241-245 | over all interleavings every committed heading follows from the one before if and only if no store of the history task was late, which shows before the store: its target has been committed since, and the moves between the entry worked for and the target turn the rover |
| `Rover.LateChanges` | software/ROVER/nav.c:242 | a store is late if and only if it changes a heading |
| `Rover.LateIfTurned` | software/ROVER/nav.c:241-245 | if the index was the same at both reads, a store is late if and only if the move committed there since is not forward |
| `Rover.LateStoreHappens` | software/ROVER/nav.c:241-245 | the run in which a left turn ends up facing north |
| `Rover.EvalHistory` | software/ROVER/lib/motors.c:242-265 | true if and only if some prefix of the log leads to within a twentieth of the end of the course |
| `RoverFlash.GetBlockInfo` | software/ROVER/lib/flash.c:123-152 | succeeds if and only if the index is below the number of blocks, with the sum of the earlier sizes and the block's own |
| `RoverFlash.Write` | software/ROVER/lib/flash.c:167-227 | the calls tile the stretch written, in order, without gap or overlap, each for a block of the table; it stops at the first call that fails; each call stays in its block if and only if the offset does not lie past the first block; success is reported even if the table ended first |

## Left out

- Semaphore, mailbox, queue, mutex, flag and time services of the kernel: their calls into `os_core.c` are steps of the state machine (pend, post, abort, delay, suspend, resume), their argument checks and priority inheritance are not modelled.
- OSTaskDel, OSTaskChangePrio, OSTimeDlyResume, event creation and deletion, mutexes and event flags in a multi pend (which return an error), task names, statistics, tick stepping, hooks, and the reserved marker OSTaskCreate puts into OSTCBPrioTbl before OS_TCBInit.
- OSStart: runs begin in a state in which the idle task and at least the running task exist.
- The 16-bit width of delays and counts in the kernel: they are unbounded numbers in the model, except for the two nesting counts.
- EpcsCommands.EpcsDevice.WriteBuffer: a write of no bytes, which never returns, because its transfer does not (`EmptyTransferHangs`).
- EpcsFlash.EpcsFlashDevice.WriteBlock: a block write that starts inside the device and runs past its end is not modelled; the driver's own writes never do that.
- The block-protection bits and the status register write of the flash chip, and the identity commands themselves: what they answer is a parameter of the device table.
- The small (polled) UART driver, the spinning waits used before the kernel runs, the host-presence timer and close; the events group is the two flags and the timeout.
- UartReceive.ReachableSafe: an answer without a valid byte is taken to announce no further bytes, as the hardware does; without that receive interrupts could be turned off with the ring not full.
- Alarms whose callback starts or stops other alarms, and starting an alarm that is already in the list.
- I2c.Master.ReadOne: a slave that stretches the clock, arbitration and timing are not modelled; the slave changes SDA only when SCL falls.
- NumberPrinters.PrintHex: shifting and masking by four bits at a time is written as division by a power of 16.
- The parsing of format strings, the other conversions, and characters in the two printers.
- Rover.EvalHistory: distances are real numbers, so floating-point rounding is not modelled.
- The answers of newDir to letters that are neither headings nor moves, the length of the travel log, and what sensors, motors and delays do beyond the messages and the log.
- RoverFlash.Write: tables and writes of 2^31 bytes or more, and blocks of no bytes.
- Assembly, stack frames, cache flushing, register headers, thin system-call wrappers and demonstration menus: nothing to prove or hardware-level.
