# A verified model of the NAND flash stack

The repository emulates a raw NAND flash device, drives it through a polling driver and a
page-by-page framework, and fuzzes the whole stack against a flat "mirror" of the storage. This
project models all of these layers in Dafny and proves what the fuzzing only samples: for every
clock, every sequence of non-empty reads, writes and erases, and both kinds of driver, the stack
and the mirror agree, no call reports a timeout, and the device never enters its bug state.

## How the model is built

- **Device.** `ParserSpec.Handle` is one access to the IO word as a function from machine to
  machine; `StoreSpec` says what the storage operations mean on a numeric cursor and on sequences.
  The classes in `DeviceEmulator`, `Store` and `Clock` do the same in place, with arrays, with the
  cursor as a machine word under masks and shifts, and with a deadline compared with a clock; each
  method is proved equal to its function.
- **Time.** A clock is a schedule of readings that never decrease and do not stand still for ever
  (`Clock.Schedule`). Every access and every poll takes its next readings from it, so a statement
  about all schedules is a statement about all clocks. Sleeping is a gap between two readings.
- **Driver actions.** `Bus` lists what a driver can do: store a register, send or receive one byte
  of the caller's buffer, wait. `Run` performs a list of actions on any `Device`, up to the first
  that makes the driver give up. A device is a function value; `Emulates` ties it to the emulator
  under a schedule. The quantifier there fires only where `Perform` is mentioned, which keeps the
  parser out of proofs that do not need it.
- **Requests.** `Requests` gives the actions that serve a write, a read or an erase. A driver
  records what it does to the device (`Driver.trace`). The methods of `JumpTable` (over the loops of
  `Driver`) and of `Compiler` (over the interpreter in `ExecOp`), working on the emulator in place,
  are proved to do exactly these actions in this order, all of them if they return 0 and else those
  up to the first wait that times out. That the direct and the compiled actions are equal under
  every device and every outcome of the waits is proved of the lists (`Compiler.CompiledServesAlike`).
- **Rings.** Cache, store and mirror are written one byte after the other, around their end.
  `Ring.Put` is that, with "the last write wins" as its independent characterisation.
- **Refinement.** `WriteRefinement`, `ReadRefinement` and `EraseRefinement` take the actions through
  the parser and arrive at the mirror's operations; `EndToEnd` lifts this to sequences of requests,
  and `Tester` to the test loop itself, in place, against the mirror of `Mirror`.
- **Beside the main line.** `BusyTimes` (for how long the device is busy, and that no request is
  served faster), `Resets` (the reset pin in any state), `ParserRuns` (laws of single accesses and
  invariants of every run), `ParserLanguage` (the exact command grammar), `WaitLoop`, `CacheRing`,
  `EmptyReads`, `MirrorLaws`, and the device information base in `Dib` and `Kilo`, on finite pointer
  graphs that may be cyclic and share nodes.

Offsets and sizes are natural numbers, and the theorems about requests (`EndToEnd` and the
refinements) are about the action lists on all of them. That the frameworks do these actions is
proved wherever no sum of theirs overflows: always for jt_write and jt_read, for exec_write and
exec_read where their own assertions hold (`Compiler.CountExactly`), and for both erases if
offset % 65536 + size is below 2^32; what an erase does beyond that is part of its contract
(`BlockRange.UnsignedBlockCount`). The mirror adds with unsigned ints too: a write may wrap around
but must not end on the last page of the 32-bit address space, and an erase must end before its last
block. The conversions to unsigned char that make addresses wrap at 16 MB are written out
(`Geometry.ToByte`).

Findings about the code:

- A read of no bytes strands the parser, and the next request drives the device into MS_BUG;
  `EmptyReads.BugExactlyAfterEmptyRead` shows that this is the only way for a request sequence to
  get there. The tester asserts that it makes no empty requests.
- A write whose pages do not all fit into the store overwrites its own first page;
  `MirrorLaws.ReadBackExactly` gives the exact bound for reading everything back.
- Registering a device returns a malformed base in exactly three cases: the base was full with 64
  devices, it contained this very device already, so that the list is now a cycle, or a device in
  it has another controller whose chips end with this driver's chip
  (`Kilo.KiloDriver.RegisterNandDevice`). If the driver's nodes are new to the base, only the first
  can happen.
- The number of instructions that is computed in advance for a transfer is right if and only if the
  request is not empty or is page-aligned, and offset % 256 + size does not overflow. An empty,
  unaligned request breaks an assertion; with offset 1 and size 2^32 - 1 there is room for 2
  instructions and more than 50 million follow (`Compiler.CountExactly`).
- An erase whose unsigned size overflows erases at most one block where at least 65536 are touched
  (`BlockRange.EraseCountExactly`).
- The manual's table of timeouts (manual/framework.html) gives 10 per cent over the device's
  durations; the code in driver/driver.h adds 25 microseconds. The model follows the code.

## Model

| member | source | states |
|---|---|---|
| EndToEnd.StackAgreesWithMirror | tester/st_stochastic.c:203-249 | for every clock, every device that behaves as the emulator under it, and every sequence of non-empty requests from power-on, every call returns 0, every buffer and the store equal the mirror's, the device is not in its bug state, and no access ever reached a busy device |
| EndToEnd.ServeAllAgrees | tester/st_stochastic.c:217-233 | the same from any idle device, whatever it holds, with the device idle again after every prefix of the sequence |
| EndToEnd.ServeAgrees | framework/fw_jumptable.c:33-210 | one request on any idle device: it returns 0, leaves store and buffer as the mirror does, leaves the device idle, and is on time at every access |
| Tester.Rig.DoTest | tester/st_stochastic.c:203-249 | the test loop, run in place on both systems with any operations, any clock and either kind of driver, returns 0 and leaves the two in agreement; it has put the arena erase, every operation and the arena read to both systems, in order |
| Tester.StepsAreAnswers | tester/st_stochastic.c:212-249 | what the test loop leads to is the mirror of the answer key for its requests, and the actions of all of them one after the other |
| Tester.Rig.Erase | tester/st_stochastic.c:103-114 | whatever state the device is in, the mirror is erased, the device is left as the actions of the erase leave it, and 0 is returned if and only if no wait times out; from an agreement there is no timeout and both systems still agree; for every range that ends before the last block of the 32-bit address space |
| Tester.Rig.Write | tester/st_stochastic.c:117-138 | whatever state the device is in, the mirror is written, the device is left as the actions of the write leave it, and 0 is returned if and only if no wait times out; from an agreement there is no timeout and both systems still agree; for every range that does not end on the last page of the 32-bit address space |
| Tester.Rig.ReadAndCompare | tester/st_stochastic.c:141-200 | whatever state the device is in, 0 if and only if the device serves the read in time and with the very bytes of the mirror, which stays; from an agreement that is so, for every range |
| Tester.Compare | tester/st_stochastic.c:173-187 | the comparison loop returns 0 if and only if the buffers are equal |
| Tester.Rig.WriteNand | framework/framework.c:35-47 | whichever the driver type, a write does to the device the actions of a write, in order, all of them if it returns 0 and else those up to the first wait that times out, and leaves the world that they leave |
| Tester.Rig.ReadNand | framework/framework.c:50-63 | whichever the driver type, a read does to the device the actions of a read, in order, all of them if it returns 0 and else those up to the first wait that times out, and leaves the world that they leave |
| Tester.Rig.EraseNand | framework/framework.c:66-79 | whichever the driver type, an erase does to the device the actions of an erase of the computed number of blocks, in order, all of them if it returns 0 and else those up to the first wait that times out |
| WriteRefinement.WriteRefinesMirror | framework/fw_jumptable.c:33-80 | the actions of a write turn an idle device's store into what write_mirror makes of it, also if the write wraps or laps its own first page |
| WriteRefinement.WriteBodyProgramsImage | framework/fw_jumptable.c:51-78 | the page loop leaves one run of zeroes, data and zeroes in the ring, in order, and a zero cache |
| WriteRefinement.SendsFillCache | device/de_parser.c:311-315 | any number of data writes fill the cache as a ring from the cursor's byte on, with the cursor staying on its page |
| WriteRefinement.ProgramOnePage | device/de_parser.c:316-327 | a program execute and the wait after it put the cache into the cursor's page, clear the cache, move to the next page, and always succeed |
| WriteRefinement.AcceptedPage | device/de_store.c:227-236 | the page programmed from a zero cache is the data with zeroes before and after it |
| WriteRefinement.WrittenIsMirrored | tester/st_mirror.c:105-125 | the image laid down page by page is what the mirror's three loops lay down |
| ReadRefinement.ReadRefinesMirror | framework/fw_jumptable.c:98-144 | the actions of a read fill the first size bytes of the buffer as read_mirror does, leave its other bytes alone, and leave the store unchanged |
| ReadRefinement.ReadBodyReadsRing | framework/fw_jumptable.c:115-142 | the page loop returns the store bytes at (offset + i) modulo 16 MB and leaves the cursor just behind the last of them, modulo 16 MB |
| ReadRefinement.RecvsDrainCache | device/de_parser.c:225-241 | any number of data reads return the loaded page around its end while the cursor runs on through the store |
| ReadRefinement.ReadLoadedPage | device/de_parser.c:206-251 | a read execute, its wait and any number of data reads return bytes of the page under the cursor |
| EraseRefinement.EraseRefinesMirror | framework/fw_jumptable.c:174-210 | the actions of an erase turn an idle device's store into what erase_mirror makes of it, for any range, also of more than 256 blocks |
| EraseRefinement.EraseBodyZeroesRing | framework/fw_jumptable.c:201-207 | the block loop writes one run of zeroes, block-aligned and wrapping, and nothing else |
| Sessions.Open | device/de_parser.c:159-205 | from any idle state the four writes that open a read or a write leave the cursor at the wrapped address and the cache zero |
| Sessions.Begin | device/de_parser.c:252-264 | a setup command from any idle state clears cursor, cache and deadline and keeps the store |
| Safety.NoBugMeansOnTime | device/de_parser.c:158-406 | a run that does not end in MS_BUG has found the device ready at each of its accesses |
| Safety.OnTimeMeaning | device/de_parser.c:158-394 | a run is on time if and only if each of its actions that touches the IO word, in the world that the actions before it leave, finds the device ready |
| Safety.BugIsForEver | device/de_parser.c:396-399 | no action of a driver leads out of MS_BUG |
| EmptyReads.BugExactlyAfterEmptyRead | framework/fw_jumptable.c:110-115 | for requests of any size, the device ends in MS_BUG if and only if a read of no bytes is followed by another request |
| EmptyReads.StateAfter | framework/fw_jumptable.c:98-144 | the state after any sequence of requests: bug, waiting for the execute command of an empty read, or idle, and exactly when which |
| MirrorLaws.EraseMeaning | tester/st_mirror.c:151-160 | an erase zeroes the bytes of the blocks its range touches, modulo 256 blocks, and changes no other byte |
| MirrorLaws.ReadBackExactly | tester/st_mirror.c:220-231 | all contents of a write of a given size can be read back if and only if its pages fit into the store |
| MirrorLaws.ReadBack | tester/st_mirror.c:73-125 | what has been written can be read back if the write touches no page twice |
| MirrorLaws.LapLosesBytes | tester/st_mirror.c:115-123 | a write that touches a page twice loses some contents |
| MirrorLaws.StackReadsBack | tester/st_stochastic.c:117-200 | after any requests, the stack returns what has just been written, if the write touches no page twice |
| CacheRing.ProgramCacheIsRing | device/de_parser.c:307-327 | after any number of data writes and one execute, each byte of the page is the last one sent to it around the page, or 0; no other byte of the store changes |
| CacheRing.OverlongReadsStayOnPage | device/de_parser.c:221-251 | any number of data reads stay on the loaded page while the cursor runs on, and the next execute loads the page that the cursor names |
| ParserRuns.ReachableIsTidy | device/de_parser.c:137-407 | on every run, resets included: the deadline is clear in the address states, in the state before the first read and initially; the cache is zero outside the data states and MS_BUG; the cursor is below 2^24 |
| ParserRuns.TidyStep | device/de_parser.c:137-407 | each access and each reset keeps this invariant |
| ParserRuns.ProgramExecuteClearsCache | device/de_parser.c:316-326 | a program execute leaves a zero cache and a page-aligned cursor |
| ParserRuns.TestsAreRedundant | device/de_parser.c:176-355 | the machine without the deadline tests in the address states and before the first read is the same on every run |
| ParserRuns.BusyAccessIsBug | device/de_parser.c:221-223 | in every reachable machine, an access before the deadline leads to MS_BUG |
| ParserRuns.WordAfter | device/de_parser.c:158-394 | the IO word after any access: in the data states no command is left behind, a provided byte stays in the data register, and everything else stays as the driver left it |
| ParserRuns.AddressPhase | device/de_parser.c:159-205 | until a session has its address, an access changes neither cache nor deadline nor any digit of the cursor but the one that is due |
| ParserRuns.RegistersAreSeparate | driver/alpha/alpha_0.c:18-21 | each of the three registers holds what was stored in it last |
| ParserRuns.ReadSeesRegister | device/de_parser.c:225-241 | what the driver reads is what the data register holds after the access, or before it if the device takes a command away |
| ParserRuns.ClockIsReadAsNeeded | device/de_parser.c:158-394 | an access tests the deadline except initially and in MS_BUG, and reads the clock once more if and only if the outcome depends on that reading |
| ParserRuns.BugFreezes | device/de_parser.c:158-399 | an access that leads to MS_BUG changes nothing else |
| ParserRuns.StorageIsSafe | device/de_parser.c:316-374 | a stored byte changes only by an execute command to a ready device, and only within the page or block of the cursor |
| ParserLanguage.BugFreeExactlyInLanguage | device/de_parser.c:158-394 | a device that is ready all the time avoids MS_BUG from power-on if and only if the commands it sees are a prefix of a sequence of read, program and erase sessions |
| ParserLanguage.WalkDecomposes | device/de_parser.c:158-394 | commands that avoid MS_BUG split into whole sessions and one partial session that fits the state |
| ParserLanguage.SessionsStayOpen | device/de_parser.c:252-264 | after whole sessions a new one may always begin |
| ParserLanguage.FeedFollowsWalk | device/de_parser.c:158-394 | the state of a ready machine depends on the commands alone |
| BusyTimes.Executed | device/de_parser.c:206-217 | each of the three execute commands sets the deadline to its second clock reading plus the duration of the command, overwrites the IO word, and allows for a further execute command |
| BusyTimes.ExecutesExactly | device/de_parser.c:158-394 | a ready device accepts each of the three execute commands in its own data or awaiting states and nowhere else |
| BusyTimes.BusyExactlyForDuration | device/de_parser.c:221-223 | after an execute command, at every later reading of every clock: the status pin shows busy, every access is a bug, and the next execute command is refused, if and only if less time has passed than the command takes |
| BusyTimes.NoDataAfterErase | device/de_parser.c:357-394 | after an erase execute any data access is a bug, busy or not |
| BusyTimes.WaitTellsTheTruth | driver/alpha/alpha_0.c:24-41 | after an execute command, a wait with any timeout returns 0 if and only if the time of the command had passed at its last poll |
| BusyTimes.RequestsArePaced | framework/fw_jumptable.c:33-210 | in every request each execute command is followed by a wait whose timeout is the duration of that command and one polling interval, and there are no other waits |
| BusyTimes.RequestTakesTime | framework/fw_jumptable.c:33-210 | under every clock a request takes at least 600, 100 or 2000 microseconds for each page written, page read or block erased |
| BusyTimes.RequestsTakeTime | tester/st_stochastic.c:217-233 | these times add up over any sequence of requests |
| Resets.ResetIsPowerOn | device/de_parser.c:85-88 | a reset machine is one at power-on, except for its stored bytes and the IO word |
| Resets.ResetIsIdle | device/de_gpio.c:31-48 | from every state, MS_BUG and a busy device included, a reset leads to an idle device with the same stored bytes |
| Resets.LanguageAfterReset | device/de_parser.c:85-88 | after a reset the bug-free commands are those of a fresh device: nothing of the interrupted session is remembered |
| Resets.ResetRecovers | device/de_parser.c:85-88 | after a reset at any time, any sequence of non-empty requests agrees with the mirror of the bytes that the reset has found, returns 0 and is on time |
| CursorWord.SetBlockReplacesDigit | device/de_store.c:189-193 | clearing and or-ing the block byte replaces the block digit of the address |
| CursorWord.SetPageReplacesDigit | device/de_store.c:189-193 | the same for the page digit |
| CursorWord.SetByteReplacesDigit | device/de_store.c:189-193 | the same for the byte digit |
| CursorWord.NextOnPageCounts | device/de_store.c:96-101 | with remain set the cursor counts modulo 256 and keeps its page |
| CursorWord.NextInStoreCounts | device/de_store.c:103-109 | otherwise it is the successor modulo 2^24, carries included |
| CursorWord.NextPageCounts | device/de_store.c:125-146 | increment_page moves to the start of the next page modulo 2^24 |
| CursorWord.NextBlockCounts | device/de_store.c:160-174 | increment_block moves to the start of the next block modulo 2^24 |
| CursorWord.PageIndex | device/de_store.c:210 | the masked cursor is the index of the start of its page |
| CursorWord.BlockIndex | device/de_store.c:287 | the masked cursor is the index of the start of its block |
| CursorWord.ByteIndex | device/de_store.c:252 | the masked cursor is the offset within its page |
| Store.Store.constructor | device/de_store.c:70-77 | cursor, cache and store are zero |
| StoreSpec.DigitsAfterSet | device/de_store.c:189-193 | an address byte replaces its digit of the cursor and leaves the other two |
| StoreSpec.NextBeginning | device/de_store.c:125-174 | after a page or a block the cursor is at the beginning of the next one, and after the last at the beginning of the store |
| Store.Store.ClearCache | device/de_store.c:35-38 | the cache becomes zero and nothing else changes |
| Store.Store.IncrementCursor | device/de_store.c:93-110 | the word operations do to the address what counting modulo 256 or modulo 2^24 does |
| Store.Store.IncrementPage | device/de_store.c:125-146 | the new state is the old one with the cursor at the next page |
| Store.Store.IncrementBlock | device/de_store.c:160-174 | the new state is the old one with the cursor at the next block |
| Store.Store.SetCursorByte | device/de_store.c:189-193 | the new state is the old one with one digit of the cursor replaced |
| Store.Store.CopyPageToCache | device/de_store.c:208-211 | the cache becomes the page of the cursor, in bounds for every cursor |
| Store.Store.CopyPageFromCache | device/de_store.c:227-236 | the loop writes the cache to the page of the cursor and to nothing else |
| Store.Store.GetCacheByte | device/de_store.c:250-253 | the cache byte at the cursor's byte number |
| Store.Store.SetCacheByte | device/de_store.c:267-270 | one cache byte changes and nothing else |
| Store.Store.EraseBlock | device/de_store.c:285-289 | the block of the cursor becomes zero and nothing else changes |
| Clock.Deadline.BeforeDeadline | device/de_deadline.c:73-88 | busy if and only if the next clock reading is before the deadline |
| Clock.Deadline.Set | device/de_deadline.c:101-110 | the deadline is the next clock reading plus the duration |
| Clock.Clock.Now | clock/clock.c:38-50 | the next reading of the schedule |
| DeviceEmulator.DeviceEmulator.constructor | device/de_parser.c:105-113 | the machine at power-on |
| DeviceEmulator.DeviceEmulator.HandleAccess | device/de_parser.c:137-407 | the handler, in place, is the parser function, in every state, busy or ready, and reads the clock as often as it says |
| DeviceEmulator.DeviceEmulator.Reset | device/de_parser.c:84-88 | reset clears cursor, cache and deadline, returns to the initial state and keeps store and IO word |
| DeviceEmulator.DeviceEmulator.GpioGet | device/de_gpio.c:61-86 | the status pin shows busy if and only if the clock is before the deadline; the machine does not change |
| DeviceEmulator.DeviceEmulator.GpioSet | device/de_gpio.c:31-48 | setting the reset pin resets the machine; nothing else has an effect |
| Driver.Driver.SetRegister | driver/alpha/alpha_0.c:18-21 | one register write |
| Driver.Driver.Wait | driver/alpha/alpha_0.c:24-41 | the wait, with its result, time and unchanged machine |
| Driver.Driver.PollStatus | driver/alpha/alpha_0.c:33-40 | the polling loop terminates under every schedule with the result and the reading of the function that WaitLoop is about |
| Driver.Driver.ReadBuffer | driver/alpha/alpha_0.c:44-49 | the loop receives exactly length bytes, in order, to the right places |
| Driver.Driver.WriteBuffer | driver/alpha/alpha_0.c:52-58 | the loop sends exactly length bytes, in order, from the right places |
| WaitLoop.PollSucceeds | driver/alpha/alpha_0.c:32-40 | if the device's deadline is no later than the timeout, the loop returns ready and the device stays ready, whatever the clock |
| WaitLoop.PollMeaning | driver/alpha/alpha_0.c:33-40 | ready if and only if the last poll saw a ready device; all polls before it saw a busy one; the loop gives up only after the timeout |
| WaitLoop.LoopCondition | driver/alpha/alpha_0.c:38 | the loop does not go on once its condition has seen the timeout, and it gives up only if it has |
| WaitLoop.WaitMeaning | driver/alpha/alpha_0.c:24-41 | nand_wait returns 0 if and only if its last poll sees a ready device, which none before has seen |
| WaitLoop.WaitGivesUp | driver/alpha/alpha_0.c:32-40 | nand_wait goes on as long as the clock shows less than its start and the interval, and gives up only after that |
| WaitLoop.WaitPollsBounded | driver/alpha/alpha_0.c:24-41 | if each sleep of this wait lasts at least 25 microseconds there are at most max(1, ceil(interval / 25)) + 1 polls |
| JumpTable.JtWrite | framework/fw_jumptable.c:33-80 | does to the device the actions of a write, in order, all of them if it returns 0 and else those up to the first wait that times out, and leaves the world that they leave |
| JumpTable.JtRead | framework/fw_jumptable.c:98-144 | the same for a read |
| JumpTable.JtErase | framework/fw_jumptable.c:174-210 | the same for an erase of the number of blocks that unsigned addition yields, for all offsets and sizes |
| JumpTable.SizeOnPage | framework/fw_jumptable.c:52-60 | the chunk is what is left, or what fits on the page if that is less |
| BlockRange.NumBlocks | framework/fw_jumptable.c:187-190 | the number of blocks that contain a byte of the range, if and only if the unsigned sum does not overflow |
| BlockRange.EraseCountExactly | framework/fw_execop.c:441-444 | rounding up the unsigned sum gives the number of blocks touched if and only if the sum does not overflow; if it does, the result is at most 1 and at least 65536 blocks are touched |
| BlockRange.BlockCountMeaning | framework/fw_jumptable.c:187-190 | the blocks that contain a byte of the range are that many blocks in a row |
| Bus.RunRecords | framework/fw_jumptable.c:51-78 | on the emulator the record of a driver grows by the actions performed, which are all of them if the driver does not give up |
| Bus.PerformedIsPrefix | driver/foxtrot/foxtrot_0.c:66-105 | what is performed is everything before the action at which the driver gives up and that action, unless it is unknown; if the driver does not give up, it is the whole list |
| Bus.EmulatorOnlyFailsWaits | driver/foxtrot/foxtrot_0.c:93-101 | on the emulator nothing but waits and unknown instructions makes the driver give up, and unknown instructions always do |
| ExecOp.ExecOp | driver/foxtrot/foxtrot_0.c:66-105 | the interpreter loop does the effects of the instructions one after the other, in order; it returns 0 after the last one, and else -1 after the first wait that times out or before the first unknown instruction |
| ExecOp.ExecInstr | driver/foxtrot/foxtrot_0.c:72-101 | one instruction has exactly its effects, and unknown ones have none and return -1 |
| ExecOp.PrefixLaw | driver/foxtrot/foxtrot_0.c:66-105 | on every device on which only waits and unknown instructions fail, for any instructions and any outcomes of the waits: the actions performed are those of the whole array, all of it known, if the result is 0, else of the part that ends with the first wait that times out or before the first unknown instruction |
| Compiler.CompiledEqualsDirect | framework/fw_execop.c:186-489 | the instructions compiled for a request have exactly the effects that the jump-table framework has, in the same order |
| Compiler.CompiledServesAlike | framework/fw_execop.c:186-489 | on any device, with any outcomes of the waits, interpreting a compiled request leaves the same world and result as serving it directly |
| Compiler.CountExactly | framework/fw_execop.c:267-269 | the instruction count, computed with unsigned ints, is the number of instructions emitted if and only if the sum does not overflow and the request is not empty or is page-aligned; on overflow it is at most 5 for more than 50 million |
| Compiler.TrioCount | framework/fw_execop.c:233-264 | the compiled loops emit three instructions for each page that the range touches |
| Compiler.PageCountMeaning | framework/fw_execop.c:233-264 | the pages that contain a byte of the range are that many pages in a row |
| Compiler.SlicesPartition | framework/fw_execop.c:231-264 | the slices begin at 0, follow one another, end at size, are not empty, and each lies on its own page |
| Compiler.TriosCarrySlices | framework/fw_execop.c:233-264 | the k-th trio transfers the k-th slice, in the order that the operation needs |
| Compiler.InstructionCountDataXfer | framework/fw_execop.c:50-77 | two instructions and three for each page of the unsigned sum, which is the number of pages if it does not overflow |
| Compiler.InstructionCountErase | framework/fw_execop.c:91-103 | two instructions and two for each block |
| Compiler.CompileWrite | framework/fw_execop.c:204-269 | fills an array of exactly the computed length with the compiled write; its assertions hold |
| Compiler.CompileRead | framework/fw_execop.c:317-382 | fills an array of exactly the computed length with the compiled read; its assertions hold |
| Compiler.CompileErase | framework/fw_execop.c:438-478 | fills an array of exactly the computed length with the compiled erase of the computed number of blocks, for all offsets and sizes; its assertion holds |
| Compiler.ExecWrite | framework/fw_execop.c:186-282 | does to the device the actions of jt_write, in the same order and with the same result, up to the first wait that times out |
| Compiler.ExecRead | framework/fw_execop.c:300-395 | does to the device the actions of jt_read, in the same order and with the same result, up to the first wait that times out |
| Compiler.ExecErase | framework/fw_execop.c:425-489 | does to the device the actions of jt_erase, in the same order and with the same result, up to the first wait that times out, for all offsets and sizes |
| Mirror.Mirror.ReadMirror | tester/st_mirror.c:73-82 | the buffer receives the ring's bytes from offset on, and its other bytes stay |
| Mirror.Mirror.WriteMirror | tester/st_mirror.c:105-125 | the three loops write zeroes, data and zeroes into the ring, in this order, for every range whose last page is not the last of the 32-bit address space |
| Mirror.Mirror.EraseMirror | tester/st_mirror.c:151-160 | the loop zeroes the whole blocks around the range, wrapped |
| Ring.LastWriteWins | tester/st_mirror.c:105-125 | each index of a ring holds the last byte written to it, or what it held before |
| Ring.PutConcat | framework/fw_jumptable.c:51-78 | writing two pieces one after the other is writing their concatenation, overlaps included |
| Dib.VerifyDib | framework/fw_dib.c:178-200 | terminates on every pointer graph and returns 0 if and only if the list of devices ends after at most 64 well-formed devices |
| Dib.MalformedExactly | framework/fw_dib.c:21-200 | a base is malformed if and only if it has more than 64 devices or one with a defect: no controller, no chip or more than 8, a wrong last link, a wrong back link, or a wrong count in a chip, the controller or the device |
| Dib.VerifyDevice | framework/fw_dib.c:139-162 | 0 if and only if the device has a well-formed controller and a reference count one above it |
| Dib.VerifyController | framework/fw_dib.c:69-123 | terminates and returns 0 if and only if the list has 1 to 8 chips, its ends and only they point back, the last link is right, and all counts are right |
| Dib.VerifyStorage | framework/fw_dib.c:21-53 | 0 if and only if back link and reference count of one chip are right |
| Dib.CyclesAreMalformed | framework/fw_dib.c:187-196 | a list of devices that leads back to its beginning is malformed |
| Kilo.KiloDriver.RegisterNandDevice | driver/kilo/kilo_0.c:153-162 | refuses a malformed base with NULL and changes nothing; else its device is in front of the old list, and the result is well-formed if and only if there were at most 63 devices, this device was not among them, and no other controller in the list owned its chip; the last two always hold if the driver's nodes are new to the base, and the old base then stays well-formed |
| Kilo.KiloDriver.RegisteredTwice | driver/kilo/kilo_0.c:159-161 | linking a device into a base that already contains it closes a cycle, which is malformed |

## Left out

- The tracer plumbing (ptrace, fork, signals, breakpoints, the decoding of mov instructions, device/de_ioregs.c and device/de_device.c): a data read simply returns the byte that the device provides.
- How the three IO registers share one machine word: the model keeps them as three bytes.
- Real time and RESET_DURATION: clock_gettime and usleep are the clock schedule; a reset only resets.
- A clock that stands still for ever: the polling loop would then not end on a busy device.
- malloc failure, printing, diagnostics, the command line, and the exit on the first access in MS_BUG (MS_BUG is a state that only a reset leaves).
- Compiler.ExecWrite: requires, as does Compiler.ExecRead, that the computed number of instructions is right; otherwise an assertion fails or the instruction array is too small, which is undefined in C, and `Compiler.CountExactly` says exactly when.
- Mirror.Mirror.WriteMirror: requires that the range does not end on the last page of the 32-bit address space, where the last loop of the source does not end.
- Mirror.Mirror.EraseMirror: requires that the range ends before the last block of the 32-bit address space; in that block the loop of the source does not end, and a range that wraps around is not erased.
- The index arithmetic of jt_write and jt_read within the caller's buffer: it cannot overflow, as it stays below size.
- Empty requests in the agreement with the mirror: the tester asserts that there are none; EmptyReads says what they do to the device.
- An index outside the caller's buffer: undefined in C, harmless in `Bus.Perform`; the methods require that it does not happen.
- The unequal spelling of the byte loops in driver/foxtrot/foxtrot_0.c and driver/kilo/kilo_0.c: the interpreter is modelled over the loops of alpha_0.
- A compiled operation that names several buffers: the framework uses one buffer for each operation.
- The deliberately faulty drivers alpha_1 to alpha_8, foxtrot_1, foxtrot_2 and kilo_1 to kilo_5, the fields of the device information base that the validator does not look at, and tester/st_data.c.
