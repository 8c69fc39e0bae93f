# AdvancedSlop: a verified model of the emulator core

A Dafny model of the parts of the AdvancedSlop GBA emulator that are hardest to get right, with proofs of what
they promise. `dafny verify dfyconfig.toml` checks everything. Each module follows one component:

- **FrameHandshake**: the four-thread frame protocol as an interleaved state machine (13 kinds of atomic step).
- **Scheduler**, **ImmEvents**, **CycleManagerImpl** (CycleManager.dfy): the event scheduler, its immediate events, and
  its in-place implementation.
- **Clients**, **EmuSystem**, **EventGrid**, **CatchUp**, **MainLoop**, **TimerRates**, **TimerReads**, **TimerStalls**,
  **GridLoss**: the scanline, timer and audio-sample clients that run on it, the main loop around them, their grid of
  cycles, when a check comes too late for it, how fast the timers run, what they read and when one stops, and the run
  that breaks the grid.
- **CodeRing**, **SmallBlocks**, **EntryTable**, **JitCache**, **Coherence**, **JitMemoryImpl** (JitMemory.dfy): the
  code-block ring, why it never fails for real blocks, the mirrored entry table and live bits, all of them together,
  what each invalidation removes, and the in-place implementation.
- **Vram**, **TextBg**, **BitmapBg**, **OamLists**, **Sprites**, **LayerSelect**: the software scanline renderer.
- **BgLayout**, **ObjLayout**, **Blending**: its registers, bytes and colours in plain arithmetic.
- **Bytes**, **Savestate**, **StateFile**, **Labels**, **RewindRing** (Rewind.dfy): the savestate walk, its file
  container and labels, and the rewind ring.
- **Trace**, **TraceLog**: the instruction-trace format and its writer and decoder.
- **IoLut**: the I/O accessor generator. **AudioQueue**: the sample queue.
- **BankedRegs**, **BlockTransfer**, **BlockTransferImpl**, **StackFrames**: the banked CPU registers, LDM and STM of
  compiled code and of the interpreter compared, both of their loops on the register file, and push and pop.
- **Wrappers**, **Arithmetic**, **Seqs**: an option type and a few facts about division and concatenation.

Components that work by changing state are modelled twice: a specification on values, about which the properties are
proved, and the source's own loops and fields, proved to be that specification.

## What differs from what the source says of itself

- **Clock rebase.** `cm_on_overflow_event` subtracts the clock from `next_event_cycle` with wrap-around. When a catch-up
  reschedule in the same batch left it behind the clock, the result is a huge bound, and until the clock gets there an
  overdue event is not dispatched. `Scheduler.RebaseCanLoseEvents` gives a run, `Scheduler.RebaseKeepsBoundIff` and
  `Scheduler.BehindIffCatchUp` the exact condition. `DEVELOPMENT.md` describes a saturating subtraction and
  dispatch-relative scanline rescheduling; the code has neither, and the model follows the code. No assumption that a
  handler makes at most one from-due request is needed anywhere.
- **Late checks.** On the emulator's own events the condition can be tested before the check (`MainLoop.LosesIff`): the
  clock is past 2^31, the check does not return early, and the handler of some due event would ask for a cycle behind
  the clock. Up to the first such check the clock stays within a sample period and a slice of 2^31
  (`MainLoop.ClockStays`).
- **Periodic grid.** Samples and scanlines keep their exact grid of cycles, over all runs, until a check finds the next
  sample or the next scanline event it would not dispatch beyond the 32 bits of a cycle, or a slice wraps the clock, and
  not a step longer (`EventGrid.StepKeepsGridIff`, `EventGrid.RunKeepsGridIff`). No run comes near that before a check
  loses the bound (`MainLoop.InTimeKeepsGrid`), but `GridLoss.GridBreaks` is a run from power-on that does after one: a
  slice ends 514 cycles past cycle 2^31, its check dispatches a sample twice and rebases, the next halt skips to the
  wrapped bound at the top of the clock, and the check there saturates the next sample off its grid.
- **Top of the clock.** The scan for the next due event starts from `u32::MAX` and looks for less, so an event at that
  very cycle is never dispatched. That nothing is left due after the re-scan therefore fails, exactly for a check at the
  last cycle of the clock: whatever is still active is then pending there, and the rebase moves it to cycle 0 with the
  clock, overdue (`Scheduler.CheckOverdueIff`; for the emulator's own events, always: `GridLoss.SampleOverdueIff`). The
  main loop reaches that cycle: with a slice one cycle shorter than in `GridBreaks` the bound wraps to `u32::MAX`, and
  after the halt there the audio sample stays overdue through both checks (`GridLoss.SampleIsStuck`).
- **Code ring.** A reset does not always leave room for a quarter of the pool: the window can be cut short by the pool
  end (`CodeRing.AllocateFitsIff`), and requests of 2000 pages and more, about 8 MiB each, can exhaust the ring while
  it is nearly empty (`CodeRing.AllocateCanFail`). No block is that large: a block compiles less than 4096 guest bytes.
  For requests of at most 204 pages, 816 KiB, no allocation ever fails (`SmallBlocks.SmallAlwaysServed`).
- **Entry table.** `write_jit_entries` advances by rounding the address up, which does not move an aligned address, so
  a span that runs more than one map block past its first block boundary is not written to its end
  (`EntryTable.CoversIff`). No compiled block is that long.
- **Overwritten code.** A write looks at the pages of its first and last byte. When both are the same page, the first
  look clears the page's live bit, so the blocks over the last byte are not collected: one that begins inside the
  written word keeps its entries on other pages (`Coherence.WriteIsStaleIff` is the exact condition,
  `Coherence.StaleAfterWrite` an example). At most eight blocks over a byte are collected; up to that many, no entry of a
  block over the byte stays (`Coherence.NoStaleCode`).
- **Count-up timers** do not count. What an overflow passes on depends on the overflowing channel's own count-up bit and
  on its reload value being the last one, and what is passed on is a reload and not an increment. `TimerRates.CountUpIff`
  says exactly when that comes to one more count, and `TimerRates.CountUpStands` gives the ordinary case, in which the
  channel above stays where it is.
- **Changing the rate** of a running timer restarts its schedule from the value last latched by a read, a start or an
  overflow, not from the value it has reached (`TimerRates.ControlSchedules`).
- **Timers** read elapsed prescaled cycles rounded up, not down. A control write reschedules a running channel only when
  the stored shift changes, and count-up stores shift 0. So a channel started at 64 cycles per count, switched to
  count-up, to prescaler 0 and back keeps its old schedule and reads it at one cycle per count: 64 where it holds 1
  (`TimerReads.TimerCanMisread`). `TimerReads.TimerReadsIff` is the exact condition for one read,
  `TimerReads.ReadsThroughoutIff` for a whole period: the prescaler in force is the one of the schedule.
- **Stalled timers.** A running channel keeps a pending overflow event except exactly after one kind of write: the
  channel is started and in count-up mode with no event pending, and the write leaves count-up mode with the stored
  shift unchanged, that is for prescaler 0 (`TimerStalls.StallsIff` for every step, `TimerStalls.RunStallsIff` for every
  run from power-on). The channel then counts as running and never overflows (`TimerStalls.TimerCanStall`).
- **LDM and STM.** The handler that compiled code calls and the interpreter do the same, except exactly in these cases:
  a stored PC is 8 past the instruction in the handler and 12 in the interpreter; a user-bank store from FIQ mode with
  write-back whose base is one of R0 to R7 and listed after another register stores the moved base in the handler and
  the old one in the interpreter (`BlockTransfer.StoreAgreesIff`); and a user-bank load whose base is listed and has a
  word of its own in the current mode writes the base back in the handler and not in the interpreter
  (`BlockTransfer.LoadAgreesIff`). `BlockTransfer.QuirksHappen` gives such transfers.
- **Sprites** whose box crosses line 256 are drawn only above the fold; on screen this differs from counting lines
  modulo 256 only for 128-line boxes (`OamLists.CoverageIsModular`).
- **Identity bitmaps.** The fast path equals the affine loop for every 32-bit reference, even one that would wrap;
  `BitmapBg.ReferencesBounded` shows in addition that no run reaches such a reference.
- **Vectors of empty elements** do not survive a savestate: the corrupt-length guard refuses more elements than the
  buffer has bytes (`Savestate.RoundTripIff`, `Savestate.EmptyElementsFail`).
- **Trace decoder.** A slice access cut inside an element ends only the element loop; the decode ends on the next read.

## Model

| member | source | states |
|---|---|---|
| FrameHandshake.StepKeeps | src/core/gpu.rs:643-690 | every step of every thread, in any interleaving, keeps the protocol invariant |
| FrameHandshake.RunKeeps | src/core/gpu.rs:442-472 | so does every run |
| FrameHandshake.SlotFreeIff | src/core/gpu.rs:643-672 | the free-slot check passes exactly when fewer than two frames are in flight |
| FrameHandshake.SlotBitsAreExact | src/core/gpu.rs:442-472 | in every reachable state the bits of both slots are determined by the counters, with P <= W0, W1 <= E <= P + 2, and a frame is dropped exactly when two are in flight |
| FrameHandshake.VblankQueuesIff | src/core/gpu.rs:643-690 | a vblank queues guest memory as it stands and the lines captured since the last one exactly when fewer than two frames are in flight; a dropped frame leaves slots, captures and queue alone |
| FrameHandshake.VblankPublishes | src/core/gpu.rs:643-690 | so the emulation thread by itself, whatever the consumers do, adds exactly that frame to the queue |
| FrameHandshake.NoSharedAccess | src/core/gpu.rs:742-759 | slot inputs are written only while no worker can read them, and the buffers drawn, presented and captured are distinct |
| FrameHandshake.RewriteSlack | src/core/gpu.rs:838-876 | a pixel buffer is rewritten only after its own swap and the two following swaps have returned |
| FrameHandshake.FilledSlotIsCurrent | src/core/graphics/gpu_mem_buf.rs:35-53 | copying only the dirty regions leaves the slot equal to all of guest video memory |
| FrameHandshake.VblankTracked | src/core/gpu.rs:643-660 | dropping a frame loses no dirty bit of any slot |
| FrameHandshake.QueuedFrameIsCurrent | src/core/gpu.rs:675-690 | a frame about to be published is the guest's memory and this frame's line captures, through restores and rewinds |
| FrameHandshake.PresentedFramesAreExact | src/core/gpu.rs:826-876 | the k-th presented image is, on all 160 rows, the rasterization of the k-th queued frame: none skipped, repeated or mixed |
| FrameHandshake.ScreenshotIsLastPresented | src/core/gpu.rs:773-779 | a screenshot reads the whole image of the last presented frame |
| FrameHandshake.SomeConsumerCanStep | src/core/gpu.rs:826-844 | while a slot is occupied some worker or presenter step is enabled |
| FrameHandshake.ConsumerStepPaysDebt | src/core/gpu.rs:742-759 | every consumer step lowers a bounded debt |
| FrameHandshake.ConsumersDrain | src/core/gpu.rs:742-759 | the consumers alone take boundedly many steps, and where they stop every queued frame has been presented |
| Scheduler.DispatchAdvances | src/core/cycle_manager.rs:200-234 | whatever a handler reschedules, nothing becomes due before the dispatched event's due cycle, and the batch's measure falls |
| Scheduler.BatchDrains | src/core/cycle_manager.rs:200-234 | a batch leaves no active event due, but for what is pending at the last cycle of the clock, which the scan never picks |
| Scheduler.DispatchOrder | src/core/cycle_manager.rs:193-234 | a batch dispatches in strictly increasing (due cycle, table index) order, across catch-up reschedules |
| Scheduler.NoEventMissed | src/core/cycle_manager.rs:200-234 | every event due at the start is dispatched unless another handler moves it |
| Scheduler.PerformKeepsBound | src/core/cycle_manager.rs:115-140 | schedule and schedule_from_due keep next_event_cycle a lower bound of all active due cycles |
| Scheduler.EarlyReturnIsSafe | src/core/cycle_manager.rs:189-191 | under that bound, the whole check would dispatch nothing: it would only refresh the cached bound and, past 2^31, rebase the clock |
| Scheduler.RebaseKeepsBoundIff | src/core/cycle_manager.rs:261-278 | the rebase keeps the bound if and only if next_event_cycle is not behind the clock, or nothing is active |
| Scheduler.BehindIffCatchUp | src/core/cycle_manager.rs:132-140 | a batch ends with the bound behind the clock if and only if it made a from-due reschedule into the past |
| Scheduler.FullCheckKeepsBoundIff | src/core/cycle_manager.rs:189-258 | a full check leaves something overdue if and only if it comes at the last cycle of the clock with an event active, and keeps the bound if and only if it does not rebase after a catch-up while an event is active |
| Scheduler.CheckKeepsBoundIff | src/core/cycle_manager.rs:156-258 | a whole check, immediate events and early return included, keeps the bound under the same condition |
| Scheduler.CheckOverdueIff | src/core/cycle_manager.rs:189-278 | a check that fires, or any under the bound, ends with an active event at or before the clock if and only if it comes at the last cycle of the clock with an event active |
| Scheduler.RebaseCanLoseEvents | src/core/cycle_manager.rs:261-278 | a concrete run in which the rebase loses an active event |
| ImmEvents.ImmRunsAll | src/core/cycle_manager.rs:175-187 | a check calls the handlers of exactly the pending immediate events, each once, in index order, each on the state its predecessor left, and performs all they ask for |
| ImmEvents.ImmIsServed | src/core/cycle_manager.rs:156-234 | an event set before a check is dispatched by it, and is set after it if and only if some handler of the check asked for it |
| ImmEvents.ScheduledImmRuns | src/core/cycle_manager.rs:111-113 | an event made pending is dispatched by the next check, with the ones already pending and no others |
| ImmEvents.ScheduleSaturates | src/core/cycle_manager.rs:115-130 | scheduling lands at least one cycle ahead and at most at the last cycle of the clock, and moves no other event |
| CycleManagerImpl.CycleManager.DoAddCycles | src/core/cycle_manager.rs:103-105 | a slice moves the clock, modulo 2^32, and nothing else |
| CycleManagerImpl.CycleManager.DoSchedule | src/core/cycle_manager.rs:115-130 | the in-place schedule is Scheduler.Schedule |
| CycleManagerImpl.CycleManager.DoScheduleFromDue | src/core/cycle_manager.rs:132-140 | the in-place schedule_from_due is its specification, including the overflow clamp |
| CycleManagerImpl.CycleManager.DoJumpToNextEvent | src/core/cycle_manager.rs:146-152 | the clock jumps to the bound and never backwards |
| CycleManagerImpl.CycleManager.PickDue | src/core/cycle_manager.rs:209-224 | the leading-zero scan finds the due event least in (due cycle, index) |
| CycleManagerImpl.CycleManager.RecomputeNext | src/core/cycle_manager.rs:236-250 | the scan lowers the bound to the least active due cycle |
| CycleManagerImpl.CycleManager.OnOverflow | src/core/cycle_manager.rs:261-278 | the rebase, wrap-around included |
| CycleManagerImpl.CycleManager.RunImmEvents | src/core/cycle_manager.rs:175-187 | the immediate events run in table order |
| CycleManagerImpl.CycleManager.RunDueEvents | src/core/cycle_manager.rs:200-234 | the nested loops are the specified batch |
| CycleManagerImpl.CycleManager.DoCheckEvents | src/core/cycle_manager.rs:156-258 | cm_check_events is Scheduler.CheckEvents |
| CatchUp.MovedIsLate | src/core/timers.rs:106-144 | a due timer that another timer's overflow reloads before its own turn is late only if that other one is |
| CatchUp.AfterNotLate | src/core/cycle_manager.rs:200-234 | dispatching an event that is not late leaves exactly the other late events late |
| CatchUp.CaughtIff | src/core/cycle_manager.rs:132-140 | a batch of the emulator's own events catches up if and only if the handler of some event due at its start would ask for a cycle behind the clock |
| MainLoop.LosesIff | src/core/cycle_manager.rs:156-278 | a check loses the bound if and only if the clock is past 2^31, the bound has come and some due event is late, all seen before the check |
| MainLoop.CheckKeepsIff | src/core/cycle_manager.rs:156-278 | on the emulator's own clients a check keeps the bound, the grid and the timers if and only if that condition on the state before it fails |
| MainLoop.StepKeeps | src/core/timers.rs:71-144 | every other step, and every check that does not, keeps them |
| MainLoop.RunKeeps | src/lib.rs:161-188 | so does every run of the main loop, for every choice of slice lengths |
| MainLoop.ClockStays | src/lib.rs:161-188 | in such a run the clock stays below 2^31 + 66048, so no slice wraps it and no check comes at its last cycle |
| MainLoop.InTimeKeepsGrid | src/lib.rs:161-188 | in such a run no step overruns the top of the clock, so the grid holds |
| EventGrid.CheckKeepsGridIff | src/core/cycle_manager.rs:132-258 | a check keeps the grid if and only if it returns early or the next sample and the next scanline event it would not dispatch have a 32-bit cycle, at any clock, and whether it loses the bound or not |
| EventGrid.StepKeepsGridIff | src/core/cycle_manager.rs:132-152 | any step keeps the grid if and only if it is no such check and no slice that wraps the clock |
| EventGrid.RunKeepsGridIff | src/lib.rs:161-188 | a run keeps the grid in all its states if and only if none of its steps overruns |
| EventGrid.SampleGrid | src/core/apu.rs:651-661 | until a step overruns, the k-th audio sample is due exactly 512 k cycles after power-on, and the next one is pending at its own grid cycle |
| EventGrid.ScanlineGrid | src/core/gpu.rs:139-218 | likewise the two scanline events alternate 960 and 272 cycles apart, exactly, and the next one is pending at its own grid cycle |
| EventGrid.VblankPeriod | src/core/gpu.rs:186-218 | two vblank entries are a multiple of 228 * 1232 cycles apart, by the frames between them, and exactly that with no entry in between |
| EventGrid.VblankFlag | src/core/gpu.rs:147-218 | the line counter is the line count modulo 228 and the vblank flag is set exactly on lines 160 to 226, whatever the guest writes to DISPSTAT |
| EventGrid.HblankFlag | src/core/gpu.rs:164-203 | the hblank flag is set exactly while the pending scanline event is the end of the line |
| EventGrid.CounterMatch | src/core/gpu.rs:186-213 | the end of a line sets the match flag by comparing the new line counter with the guest's setting, and keeps that setting and the guest's other bits |
| TimerRates.PrescalerIs | src/core/timers.rs:86-97 | prescaler p stands for 2^(4 + 2p) cycles per count, and for one if it is 0 or the channel counts up |
| TimerRates.RunRates | src/core/timers.rs:71-104 | in every run from power-on a channel counts at the rate its prescaler bits name |
| TimerRates.ControlSchedules | src/core/timers.rs:71-104 | a control write that starts a channel or changes its rate leaves its overflow pending after the counts left from the reload value, or from the value last latched, at that rate, saturating, and moves nothing else |
| TimerRates.OverflowSchedules | src/core/timers.rs:106-120 | an overflow puts the next one a full count from the reload value after its own due cycle, however late it is dispatched |
| TimerRates.ControlIs | src/core/timers.rs:71-80 | a control write changes the start, interrupt, count-up and prescaler bits under its mask and no other register |
| TimerRates.ReadIs | src/core/timers.rs:50-60 | a read latches the value it returns and changes nothing else |
| TimerRates.NextChannelIs | src/core/timers.rs:106-144 | the channel above an overflow is reloaded if the cascade test passes, and is otherwise untouched |
| TimerRates.CarriesIff | src/core/timers.rs:128-144 | the cascade test passes if and only if the overflowing channel has its own count-up bit and the last reload value |
| TimerRates.CountUpIff | src/core/timers.rs:106-144 | a count-up channel counts the overflow below it if and only if that reload, or standing still, comes to one more |
| TimerRates.CountUpStands | src/core/timers.rs:106-144 | a free-running channel whose overflow leaves the count-up channel above it at 0 |
| TimerReads.TimerDueIsScheduled | src/core/timers.rs:71-120 | an active timer event is due at the channel's recorded schedule, made for the counts its value left at the prescaler of that moment, through writes, reloads and rebases |
| TimerReads.TimerReadsIff | src/core/timers.rs:50-60 | up to its due cycle a running timer reads its start value plus elapsed counts rounded up, modulo 2^16, if and only if both prescalers divide the remaining cycles into as many counts modulo 2^16 |
| TimerReads.ReadsThroughoutIff | src/core/timers.rs:50-60 | over a whole period it does if and only if the prescaler in force is the scheduled one |
| TimerReads.TimerCanMisread | src/core/timers.rs:71-104 | a run of four control writes after which a channel reads 64 where it holds 1 |
| TimerStalls.StallsIff | src/core/timers.rs:71-104 | a step leaves a running channel without its overflow event if and only if it is a control write out of count-up mode under an unchanged shift while no event of the channel is pending |
| TimerStalls.RunStallsIff | src/core/timers.rs:71-144 | over a whole run from power-on a channel has its overflow pending whenever it runs, if and only if the run has no such write |
| TimerStalls.RunningReadsIff | src/core/timers.rs:50-60 | then every running channel, up to its schedule, reads as the read condition says |
| TimerStalls.TimerCanStall | src/core/timers.rs:71-104 | a run of two control writes, the second of which stalls a running channel |
| GridLoss.GridBreaks | src/core/cycle_manager.rs:132-152 | a run from power-on whose one late check loses the bound, and in which a later check overruns and the next sample is pending off its grid |
| GridLoss.SampleOverdueIff | src/core/cycle_manager.rs:200-278 | with the emulator's own events, a check that fires, or any under the bound, leaves one at or before the clock if and only if it comes at the last cycle of the clock |
| GridLoss.SampleIsStuck | src/core/cycle_manager.rs:142-278 | a run from power-on whose halt reaches the last cycle of the clock, and in which the sample stays overdue through both checks there |
| CodeRing.BlocksDisjoint | src/jit/jit_memory.rs:500-560 | live blocks are pairwise disjoint and disjoint from the bump window |
| CodeRing.AtMostOneWrap | src/jit/jit_memory.rs:500-560 | the queue is in address order with at most one wrap |
| CodeRing.ResetWindow | src/jit/jit_memory.rs:500-538 | a reset frees, from the oldest block on, at least a quarter of the pool or everything up to its end, and no block more than that takes |
| CodeRing.AllocateFitsIff | src/jit/jit_memory.rs:540-560 | an allocation that has to reset succeeds if and only if the request fits between the oldest block and the pool end |
| CodeRing.AllocateKeeps | src/jit/jit_memory.rs:540-560 | every successful allocation keeps the ring in order |
| CodeRing.ServeKeeps | src/jit/jit_memory.rs:500-560 | so does every served sequence of requests of at most a quarter of the pool |
| CodeRing.AllocateCanFail | src/jit/jit_memory.rs:540-560 | a sequence of requests just under the quarter, far beyond any real block, after which a two-page request fails |
| SmallBlocks.NextWindow | src/jit/jit_memory.rs:500-538 | if the last window started within the slack of one quarter mark, the next one starts within the slack of the next |
| SmallBlocks.ServesSmall | src/jit/jit_memory.rs:540-560 | a request of at most 204 pages succeeds and keeps the unused pages around the quarter marks |
| SmallBlocks.SmallAlwaysServed | src/jit/jit_memory.rs:540-560 | so every sequence of such requests is served: a reset always makes room for them |
| EntryTable.EntryIsMirrored | src/jit/jit_memory_map.rs:23-86 | the block-wise pointer map is modulo indexing, so all mirrors share one entry and no lookup leaves its table |
| EntryTable.LiveBitIsMirrored | src/jit/jit_memory_map.rs:114-125 | all mirrors of a RAM halfword share one live bit, a function of its slot |
| EntryTable.StuckOnBlock | src/jit/jit_memory_map.rs:87-103 | from an aligned address the fill loop writes its first block again and again |
| EntryTable.CoversIff | src/jit/jit_memory_map.rs:87-103 | a span is written exactly if and only if it ends within one block of its first boundary |
| JitCache.EvictionKeeps | src/jit/jit_memory.rs:500-531 | evicting and clearing the oldest blocks leaves no entry of theirs |
| JitCache.InsertKeeps | src/jit/jit_memory.rs:384-418 | inserting a block keeps entries owned and live bits covering |
| JitCache.InvalidateAtKeeps | src/jit/jit_memory.rs:686-758 | so does a written page, with overlap clearing capped at eight blocks |
| JitCache.InvalidatePagesKeep | src/jit/jit_memory.rs:760-773 | and a page-wise invalidation |
| JitCache.InvalidateMmuPageKeeps | src/jit/jit_memory.rs:669-684 | and a 4 KB page |
| JitCache.InvalidateRamKeeps | src/jit/jit_memory.rs:466-476 | and dropping all RAM entries |
| JitCache.ApplyKeeps | src/jit/jit_memory.rs:669-773 | every operation keeps the cache invariant |
| JitCache.NoDanglingEntries | src/jit/jit_memory.rs:369-418 | after any sequence of operations a non-default entry points to exactly one block still in the ring whose guest span has that slot, and a RAM page with a clear live bit has only default entries |
| Coherence.EntriesShared | src/jit/jit_memory_map.rs:23-86 | two addresses share an entry if and only if they are in one region and their halfwords agree modulo its size |
| Coherence.RegionsAre | src/jit/jit_memory_map.rs:23-86 | the code regions, their mirrors and their sizes |
| Coherence.InvalidateAtIs | src/jit/jit_memory.rs:686-758 | a byte written to a live page removes exactly the entries of its page and those of the first eight blocks over the byte; ring, other entries and other live bits stay |
| Coherence.InvalidateBlockIs | src/jit/jit_memory.rs:686-730 | what the two looks of a whole write remove, exactly: the last byte's only if its page is another one and live |
| Coherence.WrittenPagesAreClear | src/jit/jit_memory.rs:686-730 | after a write no entry is left on the pages of its first and last byte |
| Coherence.NoStaleCode | src/jit/jit_memory.rs:732-758 | with the page live and at most eight blocks over the byte, no slot of any of them keeps an entry |
| Coherence.WriteIsStaleIff | src/jit/jit_memory.rs:686-730 | with both bytes on one live page, a block over the last byte keeps an entry if and only if that entry is off the page and in no block over the first byte |
| Coherence.StaleAfterWrite | src/jit/jit_memory.rs:686-730 | such a block: it begins inside the written word and stays reachable |
| Coherence.InsertIs | src/jit/jit_memory.rs:384-418 | an insertion leaves on every slot of the block its own code, drops those of the evicted blocks, and keeps the others |
| Coherence.InvalidatePagesIs | src/jit/jit_memory.rs:760-773 | a range removes exactly the entries and live bits of its pages, at every mirror |
| Coherence.InvalidateMmuPageIs | src/jit/jit_memory.rs:669-684 | a 4 KB page removes exactly those of its sixteen pages |
| Coherence.InvalidateRamIs | src/jit/jit_memory.rs:466-476 | rewinding removes exactly those of RAM |
| JitMemoryImpl.JitMemory.WriteEntries | src/jit/jit_memory_map.rs:87-103 | the fill loop writes exactly the slots its address stepping reaches |
| JitMemoryImpl.JitMemory.WriteSpan | src/jit/jit_memory_map.rs:87-103 | spans of at most one map block are written exactly |
| JitMemoryImpl.JitMemory.DoResetBlocks | src/jit/jit_memory.rs:500-538 | the eviction loop is the specified reset, with the evicted entries cleared |
| JitMemoryImpl.JitMemory.DoAllocate | src/jit/jit_memory.rs:540-560 | the in-place allocation is CodeRing.Allocate |
| JitMemoryImpl.JitMemory.SetLiveRange | src/jit/jit_memory.rs:369-382 | the loop sets the live bits of exactly the block's pages |
| JitMemoryImpl.JitMemory.InsertBlock | src/jit/jit_memory.rs:384-418 | the whole insertion is JitCache.Insert |
| JitMemoryImpl.JitMemory.InvalidateOverlapping | src/jit/jit_memory.rs:732-758 | the first eight overlapping blocks, and only they, are cleared |
| JitMemoryImpl.JitMemory.DoInvalidateBlock | src/jit/jit_memory.rs:686-730 | a write's invalidation is its specification |
| JitMemoryImpl.JitMemory.DoInvalidatePages | src/jit/jit_memory.rs:760-773 | so is the page loop |
| JitMemoryImpl.JitMemory.DoInvalidateMmuPage | src/jit/jit_memory.rs:669-684 | so is the 4 KB page loop over shared live bytes |
| Vram.RowContiguous | src/core/memory/mem.rs:79-86 | inside aligned groups the mirror fold keeps offsets contiguous and in bounds |
| Vram.MirrorIs | src/core/memory/mem.rs:79-86 | video memory repeats every 128 KB, and in that the third 32 KB once more |
| Vram.Texel8Is | src/core/ppu.rs:725-737 | texels shifted out of an 8bpp row word are the bytes in memory |
| Vram.Texel4Is | src/core/ppu.rs:738-751 | texels shifted out of a 4bpp row word are the nibbles in memory |
| Vram.RowTexel | src/core/ppu.rs:721-751 | one row load gives every texel that single fetches through the mirror would |
| TextBg.RunStaysInTile | src/core/ppu.rs:714-719 | a run stays inside one tile of one screenblock, through scroll wraps |
| TextBg.DrawRow | src/core/ppu.rs:725-751 | the texel loop, skipped on a zero row, leaves what is wanted |
| TextBg.Draw | src/core/ppu.rs:684-755 | tile-run drawing leaves on every column the pixel's own map entry and texel, for all sizes, offsets and flips |
| BgLayout.TextPixelIs | src/core/ppu.rs:684-755 | for all fields of the control register and of the map entry, which byte is the entry, which is the texel under the flips, and which palette colour it shows |
| BgLayout.TextWraps | src/core/ppu.rs:684-755 | scrolling by the width and height of the map changes no pixel |
| BitmapBg.RefIs | src/core/ppu.rs:839-843 | k wrapping steps are one multiplication modulo 2^32 |
| BitmapBg.DrawIdentity | src/core/ppu.rs:806-837 | the sliced identity path leaves the per-pixel affine result for every 32-bit reference |
| BitmapBg.DrawAffine | src/core/ppu.rs:839-861 | so does the general loop |
| BitmapBg.Draw | src/core/ppu.rs:796-861 | so both paths agree |
| BgLayout.BitmapPixelIs | src/core/ppu.rs:796-861 | which byte or halfword of the shown page a column displays, by mode, page and reference, and nothing outside the bitmap |
| BitmapBg.ReferencesBounded | src/core/ppu.rs:211-235 | over every run of register writes and scanline events the internal references stay within 28 bits plus 160 steps |
| BgLayout.WriteRefIs | src/core/ppu.rs:211-223 | a masked write keeps 28 bits as a signed number and reloads the internal reference |
| BgLayout.FrameLines | src/core/gpu.rs:164-203 | line n is drawn from the reference moved n steps, and the next frame starts from the written one |
| BitmapBg.NoWrap | src/core/gpu.rs:164-203 | from any such reference the affine loop never wraps |
| OamLists.OamScratch.Decode | src/core/ppu.rs:921-1013 | for every OAM image the list of every decoded line resolves to exactly the eligible sprites on it |
| OamLists.OnListIff | src/core/ppu.rs:933-965 | an entry is listed on a line iff it is drawable, on screen and covers the line |
| OamLists.InOamOrder | src/core/ppu.rs:986-1011 | listed in OAM order, each once |
| OamLists.CoverageIsModular | src/core/ppu.rs:950-958 | the vertical rule is counting lines modulo 256, except exactly for boxes past line 256 |
| OamLists.OffScreenHasNoPixel | src/core/ppu.rs:959-965 | dropped sprites have no pixel on screen |
| ObjLayout.DecodedIs | src/core/ppu.rs:921-1013 | an entry put together from its fields decodes to those fields, for all of them |
| ObjLayout.BoxIs | src/core/ppu.rs:933-965 | the bounding box, doubled and wrapped, from the fields |
| ObjLayout.SizesAre | src/core/ppu.rs:864-868 | the twelve sprite sizes |
| ObjLayout.DrawableIs | src/core/ppu.rs:933-945 | which entries are drawn at all |
| ObjLayout.MatrixIs | src/core/ppu.rs:966-985 | an affine sprite takes its matrix from the fourth halfwords of its group |
| Sprites.PlotAt | src/core/ppu.rs:1039-1061 | a texel is resolved against one column, and the semi-transparency flag covers every semi-transparent pixel |
| Sprites.DrawAffine | src/core/ppu.rs:1063-1089 | the affine loop plots the per-pixel texels |
| Sprites.DrawRegular | src/core/ppu.rs:1090-1125 | tile-run drawing with flips and zero-row skips plots the per-pixel texels |
| ObjLayout.TexelIs | src/core/ppu.rs:1063-1125 | the byte of every texel, under both tile mappings and both depths |
| ObjLayout.InkIs | src/core/ppu.rs:1039-1061 | the palette colour of a texel |
| ObjLayout.FlipsMirror | src/core/ppu.rs:1090-1125 | a flipped sprite shows the unflipped one's mirrored columns and rows |
| ObjLayout.IdentityIsRegular | src/core/ppu.rs:1063-1089 | the identity matrix in a box of the sprite's size draws the regular sprite |
| ObjLayout.AffineIs | src/core/ppu.rs:1063-1089 | the matrix maps the offset from the box's centre to the offset from the sprite's, in 256ths, rounded down |
| Sprites.ListIsScan | src/core/ppu.rs:1016-1027 | walking the line's list is scanning all 128 entries |
| Sprites.WinnerIsMinimal | src/core/ppu.rs:1039-1061 | in-place plotting leaves the opaque non-window sprite least in (priority, OAM index), or nothing |
| Sprites.WindowIff | src/core/ppu.rs:1046-1047 | the object window is set iff some window sprite is opaque |
| Sprites.DrawLine | src/core/ppu.rs:271-303 | from the decoded lists, every column of the line holds its winner among all 128 entries, and a semi-transparent pixel raises the flag |
| LayerSelect.CandidateOrder | src/core/ppu.rs:422-442 | compose lists exactly the active backgrounds, strictly ordered by (priority, index), at most four |
| LayerSelect.SelectVector | src/core/ppu.rs:609-661 | the masked running two-minimum selects the two visible layers with the least keys |
| LayerSelect.SelectScalar | src/core/ppu.rs:548-598 | so does the early-exit ordered walk |
| LayerSelect.SelectionUnique | src/core/ppu.rs:131-151 | the layers determine the selection |
| LayerSelect.SelectionsAgree | src/core/ppu.rs:443-458 | both selections are the same, key and colour, top and bottom |
| LayerSelect.NoBlendShortcut | src/core/ppu.rs:460-467 | under the shortcut's guard the full blend is the top colour |
| LayerSelect.ComposeLine | src/core/ppu.rs:410-502 | every composed word is the blend of the two least visible layers, through candidate list, selection and shortcut |
| Blending.ComposedIs | src/core/ppu.rs:471-500 | every byte of a composed word is eight times the channel that the effect gives in natural arithmetic, from the two least visible layers and the weights, each at most sixteen |
| Blending.EffectIs | src/core/ppu.rs:471-497 | which effect applies, from the effects bit, the top object's transparency and the target bits of the two layers |
| Blending.BlendedLevels | src/core/ppu.rs:663-682 | the weighted sum at most 31, and the steps to white and black, channel by channel |
| Blending.LayersAre | src/core/ppu.rs:471-480 | the layer numbers the target bits go by |
| Blending.ShowsIs | src/core/ppu.rs:609-661 | a layer is visible where its pixel is opaque and its bit of the window mask is set |
| Bytes.LeRoundTrip | src/savestate.rs:287-297 | a number that fits its little-endian width survives |
| Savestate.LoadIs | src/savestate.rs:609-736 | reading a saved value consumes exactly its bytes and restores every serialized field, or the length guard refuses |
| Savestate.RoundTripIff | src/savestate.rs:503-506 | loading what was saved, into any target, succeeds iff no vector is longer than the buffer |
| Savestate.SizedIsGuarded | src/savestate.rs:672-696 | with elements of at least a byte the guard never refuses |
| Savestate.RoundTrip | macros/src/savestate.rs:58-156 | so such shapes always round-trip |
| Savestate.EmptyElementsFail | src/savestate.rs:682-688 | five empty elements are refused |
| Savestate.WholeRestores | macros/src/savestate.rs:68-84 | without skipped fields the whole value comes back |
| Savestate.RestoreSavesSame | macros/src/savestate.rs:68-84 | what is restored saves to the same bytes |
| Savestate.PrefixRejected | src/savestate.rs:503-556 | every strict prefix is refused |
| Savestate.ExtensionRejected | src/savestate.rs:503-506 | every strict extension is refused |
| Savestate.SavestateContext.BytesOf | src/savestate.rs:540-556 | the raw copy, either way, all or nothing |
| Savestate.SavestateContext.WalkMany | src/savestate.rs:638-643 | the element loop saves or loads the elements in order |
| Savestate.SavestateContext.WalkEnum | macros/src/savestate.rs:87-156 | the tagged arms, defaults first, unknown tags refused |
| Savestate.SavestateContext.Walk | src/savestate.rs:439-574 | one walk over the mutable context is Save or Load |
| Savestate.SaveThenLoad | src/savestate.rs:742-753 | saving and loading through the context restores the value and reports success |
| StateFile.DecodeEncodeIff | src/savestate.rs:371-433 | an encoded file decodes to its state for exactly its own kind and exactly within the screenshot and state limits |
| StateFile.PeekAssembled | src/savestate.rs:309-333 | the list shows its own label and screenshot |
| StateFile.RelabelOkIff | src/savestate.rs:339-352 | relabelling accepts exactly the files the list can read |
| StateFile.RelabelPreserves | src/savestate.rs:339-369 | relabelling changes the label and nothing any decode sees |
| StateFile.RelabelTwice | src/savestate.rs:339-369 | the last label wins |
| Labels.TrimIs | src/savestate.rs:354-354 | trimming drops the white space at both ends, all of it and nothing else |
| Labels.TruncateLabel | src/savestate.rs:354-358 | the encoding of the longest prefix of the trimmed label that fits: whole characters, never cut inside one |
| RewindRing.Emu.Snapshot | src/core/rewind.rs:99-124 | the guest's state joins the ring, the oldest leaves at the limit, slots and spares stay within budget |
| RewindRing.PushKeepsNewest | src/core/rewind.rs:99-124 | after any number of snapshots the ring holds the newest ones, as many as its limit, in order |
| RewindRing.Emu.StepBack | src/core/rewind.rs:126-138 | the newest snapshot is restored field for field, or nothing happens |
| RewindRing.Emu.Clear | src/core/rewind.rs:65-68 | the ring empties within budget |
| RewindRing.Emu.OnFrame | src/core/rewind.rs:78-97 | one tick: step back, record every twelfth frame, or give the memory back |
| Trace.DeltaRecordIs | src/inst_log_format.rs:207-252 | a delta payload read under its own flags and mask is the record |
| Trace.SliceLinesAre | src/inst_log_format.rs:280-320 | a slice prints one line for each element, at successive addresses or at one |
| Trace.EntryDecodes | src/debug_inst_log.rs:202-276 | any single entry decodes to its own lines, whatever follows |
| Trace.DecodeEncode | src/inst_log_format.rs:151-324 | any interleaving of entries decodes to exactly those entries |
| Trace.CutIsPrefix | src/inst_log_format.rs:151-324 | cutting any byte stream anywhere, corrupt or not, prints a prefix of its output |
| Trace.CutLogIsPrefix | src/inst_log_format.rs:151-324 | so a cut log prints a prefix of what was logged |
| TraceLog.TraceWriter.WriteRecord | src/debug_inst_log.rs:202-276 | keyframe or delta, the buffer stays the encoding of everything logged |
| TraceLog.TraceWriter.WriteText | src/debug_inst_log.rs:301-311 | the same for text |
| TraceLog.TraceWriter.LogMem | src/debug_inst_log.rs:317-347 | the same for single accesses of any width |
| TraceLog.TraceWriter.LogMemSlice | src/debug_inst_log.rs:352-384 | the same for slices, empty ones included |
| TraceLog.DecodeFile | src/inst_log_format.rs:187-324 | the reader loop prints what the stream means |
| TraceLog.LogThenDecode | src/inst_log_format.rs:148-151 | decoding a writer's buffer prints what it logged |
| IoLut.ScanWindow | macros/src/lib.rs:90-105 | resuming at the carried index finds exactly the overlapping registers |
| IoLut.AssembleLut | macros/src/lib.rs:82-110 | every window of the table, in order, with exactly its registers |
| IoLut.FewPerWindow | macros/src/lib.rs:102-102 | the generator's own assertion holds |
| IoLut.ReadIsImage | macros/src/lib.rs:112-152 | every generated read is those bytes of the flat little-endian image |
| IoLut.WriteIsImage | macros/src/lib.rs:254-306 | every generated write changes those mapped bytes and no others |
| IoLut.TableIndex | macros/src/lib.rs:190-202 | the shifted index finds the window of every aligned offset in range |
| IoLut.Read | macros/src/lib.rs:199-207 | the accessor reads the image at any aligned offset in range |
| IoLut.Write | macros/src/lib.rs:376-384 | the accessor writes the mapped bytes of the window there and no others |
| IoLut.ReadAfterWrite | macros/src/lib.rs:112-306 | a window reads back what was written to it, at every byte a register has |
| BankedRegs.ThreadRegs.SetMode | src/core/thread_regs.rs:165-284 | no mode switch, by any path, changes any bank |
| BankedRegs.ThreadRegs.SetReg | src/core/thread_regs.rs:71-81 | a write changes exactly the word the mode names |
| BankedRegs.ThreadRegs.GetRegUsr | src/jit/inst_mem_handler.rs:80-86 | the accessor reads the user bank from every other mode |
| BankedRegs.ThreadRegs.SetRegUsr | src/core/thread_regs.rs:97-109 | and writes exactly the user bank's word |
| BankedRegs.ThreadRegs.Run | src/core/thread_regs.rs:252-284 | any sequence of writes and switches is the same sequence on separate banks |
| BlockTransfer.EarlyIff | src/jit/inst_mem_handler.rs:115-115 | the masked comparison of the register list holds exactly when the base is listed after another register |
| BlockTransfer.AddressesAgree | src/jit/jit_memory.rs:1165-1170 | the flipped pre bit and the upward walk start where the four addressing modes do, address wrap-around included |
| BlockTransfer.StoredInOrder | src/jit/inst_mem_handler.rs:137-148 | the words stored are those of the listed registers, one each, in ascending order, each from its bank |
| BlockTransfer.StoreAgreesIff | src/jit/interpreter/memory.rs:302-328 | STM of compiled code and of the interpreter store the same words and leave the same registers if and only if the PC is not stored and it is not the FIQ case; address and registers always agree |
| BlockTransfer.LoadedExactly | src/jit/inst_mem_handler.rs:162-168 | every listed register takes the word at its place in the list, in its bank, and no other word of any bank changes |
| BlockTransfer.LoadAgreesIff | src/jit/interpreter/memory.rs:256-287 | LDM of both leave the same registers, all banks included, if and only if no write-back meets a base loaded into the user bank |
| BlockTransfer.QuirksHappen | src/jit/interpreter/memory.rs:256-328 | a store in FIQ mode and a load in IRQ mode that fall under the two exceptions |
| BlockTransfer.UserBankedIff | src/jit/inst_mem_handler.rs:109-173 | the user bit means the user bank exactly in the five modes with registers of their own, without the PC in the list |
| StackFrames.FrameAddress | src/jit/inst_mem_handler.rs:109-136 | where the words of a transfer lie in the four addressing modes |
| StackFrames.PushPop | src/jit/inst_mem_handler.rs:109-173 | for the four kinds of stack, a store with write-back and the load the other way give every listed register and the base back |
| BlockTransferImpl.StoreHandled | src/jit/inst_mem_handler.rs:109-152 | the handler's store on the register file: early write-back, lowest register first, the PC last, write-back |
| BlockTransferImpl.LoadHandled | src/jit/inst_mem_handler.rs:109-173 | the handler's load: write-back first, the listed registers, write-back again of a base that is not listed |
| BlockTransferImpl.StoreInterpreted | src/jit/interpreter/memory.rs:302-328 | the interpreter's store loop over all sixteen registers |
| BlockTransferImpl.LoadInterpreted | src/jit/interpreter/memory.rs:256-287 | the interpreter's load loop, in which a loaded base wins over the write-back |
| AudioQueue.RunConserves | src/core/apu.rs:78-154 | consumed, ready and busy samples are exactly the pushed sequence, in every interleaving |
| AudioQueue.PushIs | src/core/apu.rs:78-125 | a push appends to the busy queue; a complete queue signals, hands over or makes the producer wait |
| AudioQueue.ConsumeIs | src/core/apu.rs:138-154 | a handoff empties the ready queue, and a waiting producer goes on into it |
| AudioQueue.WaiterIsServed | src/core/apu.rs:110-153 | a waiting producer has a signal on offer or a consumer in its handoff, which wakes it |
| AudioQueue.WholeQueues | src/core/apu.rs:127-146 | without stretching the consumer only takes whole queues |
| AudioQueue.SoundSampler.DoPush | src/core/apu.rs:78-125 | push on the sampler's buffers is the specified step |
| AudioQueue.SoundSampler.DoConsume | src/core/apu.rs:138-154 | so is the handoff half of consume |

## Left out

- GL, SDL, the user interface, files, mmap and the other host services: parameters or absent.
- Memory ordering: every handshake access is one atomic step, and the audio spin lock is mutual exclusion.
- Arithmetic is that of a release build: where the bound or the clock wraps, a build with overflow checks stops.
- Savestate loads inside an event handler: they replace the clock and start a new run of the scheduler.
- Execution counts, sticky self-modifying-code counters and the BIOS entry of the code cache: they guard nothing proved here.
- Coherence.NoStaleCode: at most eight blocks over the written byte, as the source's span buffer has room for; a write looks at no page between its first and its last byte, and a guest write, of at most four bytes, has none.
- Scheduling from inside a slice other than the timers': serial and DMA events use the same two operations, which keep the bound (Scheduler.PerformKeepsBound).
- SmallBlocks.SmallAlwaysServed: that a block of less than 4096 guest bytes compiles to at most 816 KiB is taken from its size, not derived from the code generator.
- CodeRing.ServeKeeps: requests of at most a quarter of the pool, the size the allocator's own comment relies on.
- Affine backgrounds and the window mask of a line: single loops without a second form to compare with.
- The NEON lanes are one scalar step per pixel; line buffers kept as parallel arrays are one array of records in `Sprites`.
- LayerSelect.SelectVector: one column at a time, where the source takes eight.
- Savestate.RoundTrip: `with` functions are custom code and not part of the shapes; `isize` is not modelled; `usize` is that of a 32-bit host.
- StateFile.DecodeEncodeIff: compression is any codec whose inflate undoes its deflate; labels of 256 bytes and screenshots of 4 GiB would overflow their length fields and are excluded.
- Labels.TruncateLabel: a label is a sequence of code points, surrogates not excluded.
- The trace's print filters, disassembly and line formatting; the vblank and cycle gates of the logger.
- IoLut.ReadIsImage: register getters are values here; side effects of a getter are not modelled.
- BankedRegs.ThreadRegs.SetMode: R8 to R14 and the seven valid modes; the saved status registers are not banked faithfully by the fast paths and are not modelled.
- BlockTransfer.StoreAgreesIff: lists of at most fifteen registers, as the handler's four-bit length has them, and ARM state, since Thumb stores no PC; empty lists and a base of R15 are left out, and so is the compiled fast path, which calls no handler.
- BlockTransferImpl.LoadHandled: the words loaded are a parameter, the branch and status restore of a loaded PC are absent.
- AudioQueue.RunConserves: normal speed only; other frame limits drop samples by design. Time-stretching itself and the consumer's timeout are absent.
