# SeaBIOS cooperative threads and i8259 helpers, modelled in Dafny

This project models two small parts of the SeaBIOS firmware.

- **The thread ring and preemption gate** of `roms/seabios/src/stacks.c`.
  The firmware runs cooperative threads, each on a 4096-byte stack block that
  starts with a `struct thread_info` (`next`, `stackpos`). The blocks form a
  circular singly-linked list anchored at the global `MainThread`.
  - `thread_setup` makes the one-element ring.
  - `getCurThread` finds the running thread from the stack pointer.
  - `run_thread` splices a new block in right after the running thread. When
    threads are off or no block is free, it calls the function directly.
  - `__end_thread` scans from `MainThread` for the predecessor of a finished
    thread and unlinks it.
  - `yield` and `wait_threads` move around the ring.
  - `start_preempt`, `finish_preempt`, `check_preempt` and `yield_preempt` gate
    preemption from the RTC interrupt on `CanPreempt` and count it in
    `PreemptCount`.
  - `call32` refuses when CR0.PE is set. Otherwise it saves and restores
    fs, gs, the GDT location and the CMOS index.
- **The i8259 helpers** of `roms/seabios/src/pic.h`:
  - the read-modify-write mask updates;
  - the EOI and read-ISR command words;
  - the choice of controller, mask bit and real-mode vector in `__enable_hwirq`.

Layout:

- `types.dfy` (`Types`): 16- and 32-bit integer ranges, addresses, `Option`.
- `io_ports.dfy` (`IoPorts`): the port numbers used, and the port-access trace
  type `IoOp`.
- `ring.dfy` (`Ring`): the circular list as values. `next` is a map from each
  live block to the block its `next` field points at. The ghost sequence
  `ring` lists the live blocks in `next` order from the anchor. The file proves
  that the splice of `run_thread` and the unlink of `__end_thread` keep the
  list circular, and how they change its order. It also proves that following
  `next` visits every block once per round.
- `stacks.dfy` (`Stacks`):
  - the pure `GetCurThread`;
  - class `Threads`, whose fields are `MainThread`'s ring, `CanPreempt`,
    `PreemptCount`, the running thread and the calls made to collaborators.
    Its methods model the C functions, and its invariant `Valid` is kept by
    each of them;
  - class `Cpu`, for `call32`.
- `pic.dfy` (`Pic`): the mask, bit and vector functions with their lemmas, and
  class `PicPair`. `PicPair` holds the two controllers' mask, request and
  in-service registers as seen through their ports, the OCW3 read selection,
  the trace of port accesses and the handlers passed to `__set_irq`.

The CPU's stack switch is abstract. The running thread is the field
`current`. `switch_next(cur)` stores the live stack pointer in
`cur.stackpos` and makes `cur.next` the running thread. Methods that call
`getCurThread` take the live stack pointer `sp` as a parameter, with the
precondition that it lies on the running thread's stack.
`Stacks.CurThreadOfRunning` proves that `GetCurThread(sp)` then is the
running thread.

Spawning from the main thread: `run_thread` always inserts right after the
running thread (`stacks.c:207-209`), so threads spawned one after another
from the main thread end up in reverse spawn order: main → C → B → A.
`Stacks.Threads.SpawnFromMain` states this order, and
`Stacks.SpawnTwoFromMain` shows it on two threads.

## Model

| member | source | states |
|---|---|---|
| `Stacks.GetCurThread` | roms/seabios/src/stacks.c:137-144 | a stack pointer at or below BUILD_STACK_ADDR gives MainThread; any other gives a 4096-aligned `t` with `t <= esp < t + 4096` |
| `Stacks.CurThreadOfRunning` | roms/seabios/src/stacks.c:137-144 | for a stack pointer on the stack of MainThread or of a live thread block, `GetCurThread` returns that thread, and it returns MainThread exactly when `esp <= BUILD_STACK_ADDR` |
| `Stacks.Threads.Setup` | roms/seabios/src/stacks.c:128-134 | the ring is exactly `[MainThread]`, `MainThread.next == &MainThread`, its `stackpos` is NULL, `CanPreempt == 0`, and the invariant holds |
| `Stacks.Threads.SwitchNext` | roms/seabios/src/stacks.c:147-162 | the live stack pointer is saved in `cur.stackpos` and `cur.next` runs; links and order are unchanged and the invariant is kept |
| `Stacks.Threads.Yield` | roms/seabios/src/stacks.c:165-180 | in 16-bit mode or without threads, only check_irqs runs and nothing switches; otherwise check_irqs runs only on MainThread, then the next thread in ring order runs |
| `Stacks.Threads.FindPredecessor` | roms/seabios/src/stacks.c:186-188 | the scan from MainThread terminates, at the block whose `next` is `old`, which is the one just before `old` in ring order |
| `Stacks.Threads.EndThread` | roms/seabios/src/stacks.c:183-192 | the ring becomes the old ring with exactly `old` removed, the others in their order; the predecessor's link skips `old`, the block is freed and the invariant is kept |
| `Stacks.Threads.RunThread` | roms/seabios/src/stacks.c:195-235 | without threads or without a block, the function runs inline and nothing else changes; otherwise `thread.next` is the old `cur.next`, `cur.next` is `thread`, `thread.stackpos` is the top of its block, the new thread sits right after the running one in ring order and runs the function on its own stack, and the invariant is kept |
| `Stacks.Threads.SpawnFromMain` | roms/seabios/src/stacks.c:206-209 | a thread spawned from MainThread goes right after MainThread, ahead of every earlier one, its block becomes linked, and it runs the function |
| `Stacks.SpawnTwoFromMain` | roms/seabios/src/stacks.c:206-209 | spawning A then B from main gives the order main, B, A, and a yield from B resumes A, not main |
| `Stacks.Threads.FinishThread` | roms/seabios/src/stacks.c:220-226 | when a thread's function returns, the thread after it runs and the finished thread is unlinked and freed as by `__end_thread` |
| `Stacks.Threads.WaitThreads` | roms/seabios/src/stacks.c:238-246 | without threads, or when MainThread is running and already alone, it returns at once and changes nothing; when it returns, MainThread is alone (`MainThread.next == &MainThread`) and running |
| `Stacks.Threads.StartPreempt` | roms/seabios/src/stacks.c:256-264 | with both thread options on, `CanPreempt == 1`, `PreemptCount == 0` and the RTC is turned on; otherwise nothing changes |
| `Stacks.Threads.FinishPreempt` | roms/seabios/src/stacks.c:267-275 | with both thread options on, `CanPreempt == 0` and the RTC is released; otherwise nothing changes |
| `Stacks.Threads.YieldPreempt` | roms/seabios/src/stacks.c:280-285 | `PreemptCount` increases by one, modulo 2^32, and control passes from MainThread to `MainThread.next` |
| `Stacks.Threads.CheckPreempt` | roms/seabios/src/stacks.c:289-298 | unless both options are on, `CanPreempt` is set, another thread exists and CR0.PE is clear, nothing changes; otherwise `PreemptCount` increases by one, modulo 2^32, and `MainThread.next` runs |
| `Stacks.Cpu.Call32` | roms/seabios/src/stacks.c:24-79 | returns -1 and changes nothing exactly when CR0.PE is set; otherwise returns 0 with fs, gs, the GDT location and the CMOS index as they were, after the NMI-masking port accesses in order |
| `Stacks.UnlinkKeepsInv` | roms/seabios/src/stacks.c:189-190 | unlinking and freeing a thread other than main and the running one keeps the thread state well formed |
| `Stacks.SpliceKeepsInv` | roms/seabios/src/stacks.c:206-209 | splicing in a fresh thread block after the running thread, with its stack at the top of the block, keeps the thread state well formed |
| `Stacks.Threads.LiveThreadIsBlock` | roms/seabios/src/stacks.c:202-206 | every live thread other than MainThread is a 4096-aligned block above the main stack |
| `Stacks.Threads.RunningThread` | roms/seabios/src/stacks.c:173-174 | `getCurThread` on the running thread's stack gives that thread, and MainThread exactly on the low stack |
| `Ring.SpliceKeepsLinked` | roms/seabios/src/stacks.c:208-209 | the two pointer writes of the splice give a circular list again, whose order is the old one with the new block inserted after the current one |
| `Ring.SpliceLink` | roms/seabios/src/stacks.c:208-209 | each link of the spliced list points at the next position, the last one back at the anchor |
| `Ring.InsertKeepsDistinct` | roms/seabios/src/stacks.c:208-209 | a fresh block inserted into the ring does not repeat any block |
| `Ring.SpliceKeepsKeys` | roms/seabios/src/stacks.c:208-209 | after the splice the linked blocks are the old ones plus the new one |
| `Ring.UnlinkKeepsLinked` | roms/seabios/src/stacks.c:189 | redirecting the predecessor past `old` gives a circular list again, whose order is the old one without `old` |
| `Ring.UnlinkLink` | roms/seabios/src/stacks.c:189 | each link of the shortened list points at the next position, the last one back at the anchor |
| `Ring.UnlinkKeepsKeys` | roms/seabios/src/stacks.c:189-190 | after the unlink the linked blocks are the old ones without `old` |
| `Ring.RemoveKeepsDistinct` | roms/seabios/src/stacks.c:189 | removing a block keeps the ring free of repetitions |
| `Ring.WalkFollowsRing` | roms/seabios/src/stacks.c:150 | following `next` `k` times from position `j` reaches position `j + k`, and the anchor after the last block |
| `Ring.RoundRobin` | roms/seabios/src/stacks.c:178-179 | yielding around the ring from MainThread visits every live thread exactly once before MainThread runs again |
| `Ring.SuccessorLinked` | roms/seabios/src/stacks.c:150 | a live thread's `next` is the thread after it in ring order, and is live |
| `Ring.AloneIffSelfLoop` | roms/seabios/src/stacks.c:244 | `MainThread.next == &MainThread` holds exactly when MainThread is the only thread |
| `Ring.LoneRing` | roms/seabios/src/stacks.c:131 | a ring of MainThread alone is MainThread linked to itself and nothing else |
| `Ring.IndexOf` | roms/seabios/src/stacks.c:186-188 | a linked block has a position in ring order |
| `Pic.Unmasked` | roms/seabios/src/pic.h:39-49 | the new mask has exactly the bits of the old mask that are not in `irq` |
| `Pic.Masked` | roms/seabios/src/pic.h:51-61 | the new mask has exactly the bits of the old mask and those of `irq` |
| `Pic.MaskIdempotent` | roms/seabios/src/pic.h:51-61 | masking the same bits twice is masking them once |
| `Pic.UnmaskAfterMask` | roms/seabios/src/pic.h:39-61 | unmasking after masking the same bits gives the same mask as unmasking alone, and the other way round |
| `Pic.IrqBit` | roms/seabios/src/pic.h:86-90 | the mask bit of hardware IRQ `hwirq` has exactly bit `hwirq % 8` set |
| `Pic.UnmaskIrqClearsOnlyItsBit` | roms/seabios/src/pic.h:86-90 | unmasking an IRQ's bit clears exactly bit `hwirq % 8` of its controller's mask and keeps every other bit |
| `Pic.EnableVector` | roms/seabios/src/pic.h:86-92 | IRQ0-7 get vectors 0x08-0x0F and IRQ8-15 get vectors 0x70-0x77, with the IRQ's position in its controller as the vector's low three bits |
| `Pic.VectorRoundTrip` | roms/seabios/src/pic.h:86-92 | no two hardware IRQs share a vector, and the IRQ is read back from its vector |
| `Pic.ReadsIsrAfter` | roms/seabios/src/pic.h:66-68 | command word 0x0b selects the in-service register for the next read of the command port; an OCW2 word such as the EOI 0x20 leaves the selection alone; an ICW1 word resets it to the request register |
| `Pic.EoiCleared` | roms/seabios/src/pic.h:24-29 | a non-specific EOI clears exactly the highest-priority (lowest-numbered) in-service bit and keeps every other one; with nothing in service nothing changes |
| `Pic.ClearLowestBit` | roms/seabios/src/pic.h:24-29 | bit by bit, the EOI's new in-service register is the old one without its lowest set bit |
| `Pic.LowestSetBit` | roms/seabios/src/pic.h:24-29 | the bit chosen is set in the in-service register and no lower-numbered bit is |
| `Pic.PicPair.Eoi1` | roms/seabios/src/pic.h:24-29 | exactly one write, 0x20 to PIC1's command port; PIC1's highest-priority in-service bit is cleared as `EoiCleared` states and PIC2's in-service register is kept; the masks and request registers are unchanged |
| `Pic.PicPair.Eoi2` | roms/seabios/src/pic.h:31-37 | 0x20 goes to PIC2's command port, then to PIC1's, in that order; each controller's highest-priority in-service bit is cleared as `EoiCleared` states; the masks and request registers are unchanged |
| `Pic.PicPair.Unmask1` | roms/seabios/src/pic.h:39-43 | PIC1's mask is read, then written back with the bits of `irq` cleared; PIC2's mask is unchanged; the request and in-service registers are unchanged |
| `Pic.PicPair.Unmask2` | roms/seabios/src/pic.h:45-49 | PIC2's mask is read, then written back with the bits of `irq` cleared; PIC1's mask is unchanged; the request and in-service registers are unchanged |
| `Pic.PicPair.Mask1` | roms/seabios/src/pic.h:51-55 | PIC1's mask is read, then written back with the bits of `irq` set; PIC2's mask is unchanged; the request and in-service registers are unchanged |
| `Pic.PicPair.Mask2` | roms/seabios/src/pic.h:57-61 | PIC2's mask is read, then written back with the bits of `irq` set; PIC1's mask is unchanged; the request and in-service registers are unchanged |
| `Pic.PicPair.GetPic1Isr` | roms/seabios/src/pic.h:63-69 | 0x0b is written to PIC1's command port before it is read, the value read is PIC1's in-service register, and neither mask changes; the request and in-service registers are unchanged |
| `Pic.PicPair.GetPic2Isr` | roms/seabios/src/pic.h:71-77 | 0x0b is written to PIC2's command port before it is read, the value read is PIC2's in-service register, and neither mask changes; the request and in-service registers are unchanged |
| `Pic.PicPair.EnableHwIrq` | roms/seabios/src/pic.h:82-94 | IRQ0-7 clear bit `hwirq` of PIC1's mask with PIC2's unchanged; IRQ8-15 clear bit `hwirq - 8` of PIC2's with PIC1's unchanged; the port accesses are exactly the read and the write-back of that controller's data port; request and in-service registers are unchanged; the handler is passed to `__set_irq` for the IRQ's vector |

## Left out

- The inline assembly of `switch_next`, `run_thread`, `call32` and
  `stack_hop` is not modelled. That covers the register saves, the
  real-mode/protected-mode transitions and the stack hops. A stack switch is
  the abstract step "save the stack pointer in `cur.stackpos`, run
  `cur.next`".
- The stack contents and the stack pointer a resumed thread finds are not
  modelled. Only the value written to `stackpos` is.
- `check_irqs`, `useRTC` and `releaseRTC`, and the call of the thread's
  function, appear only as events in the `log` field: `CallInline` for the
  call on the caller's stack, `CallOn(thread)` for the call on a new
  thread's stack. What the function does is not modelled. `dprintf` is left
  out.
- `memalign_tmphigh` is an `Option` argument. A present block must be
  4096-aligned, above BUILD_STACK_ADDR, with its top still a 32-bit address,
  and not already linked.
- `free` is modelled as forgetting the block and logging it. The allocator
  itself is not part of this model.
- `__set_irq` is defined in `post.c`, which is not part of this model. Its
  calls are recorded in `installs`.
- Stacks.Threads.WaitThreads: the other threads' behaviour between the
  waiter's yields is an input script, so termination is not modelled.
  `returned` is false when the script ends before MainThread is alone. A
  scripted step the running thread could not take (main exiting, an
  allocator answer that is not a free block) is skipped.
- Stacks.Threads.CheckPreempt: `yield_preempt` runs inside `call32`, so
  in the firmware the other threads run in 32-bit mode, before `call32`
  restores fs, gs, the GDT location and the CMOS index (with NMI still
  masked); the restore happens only when MainThread next resumes. The model
  runs the restore before the switch, so its post-state (the next thread
  running with the CPU state already restored) is not one the firmware
  passes through.
- Stacks.Cpu.Call32: the 32-bit function runs as one abstract step that may
  leave any values in fs, gs and the GDT location. ss, esp and ds are not
  modelled.
- Stacks.Threads.Setup: also sets `PreemptCount` to 0 and the running
  thread to MainThread. In the firmware these are the load-time zero of a
  static variable and the boot stack.
- The 8259A's response to an EOI is modelled for fully nested mode only,
  where the lowest-numbered in-service IRQ has the highest priority. Other
  OCW2 commands (specific EOI, rotation) are not modelled; the firmware
  here sends only the non-specific EOI.
- The initialisation sequence `pic_setup` is not modelled. An ICW1 word
  only resets the read selection; the ICW2-ICW4 words that would follow it
  on the data port are not. The controllers are taken to be initialised,
  so data-port accesses reach the mask registers.
- Pic.PicPair.EnableHwIrq: requires `0 <= hwirq < 16`. Outside that range
  the source's selection means nothing. A negative shift is undefined in C,
  and for 16 and above `1 << (hwirq - 8)`, cut to a byte, is no bit of
  PIC2's mask, while the vector falls past 0x77.
- `MODE16`, `CONFIG_THREADS` and `CONFIG_THREAD_OPTIONROMS` are booleans:
  the `mode16` argument of `Yield` and the fields of `Config`.
- The constants come from `config.h` and `ioport.h`, which are not part of
  this model: BUILD_STACK_ADDR is 0x7c00, the i8259 ports are
  0x20/0x21/0xa0/0xa1, and the CMOS index and data ports are 0x70/0x71.
