/**
 * The thread ring and preemption gate of the firmware's cooperative
 * threads, and the guard and save/restore of the 16-bit to 32-bit call
 * bridge.
 *
 * The CPU's stack switch is abstract: the running thread is the field
 * `current`, a switch stores the live stack pointer into the old thread's
 * `stackpos` and makes `current` the next thread. Code that identifies the
 * running thread does it, as the firmware does, from the live stack
 * pointer `sp` through `GetCurThread`.
 */
module Stacks {
  import opened Types
  import opened IoPorts
  import opened Ring

  /** Size and alignment of a thread's stack block, which starts with its `thread_info`. */
  const THREADSTACKSIZE: u32 := 4096

  /** Stack pointers at or below this address belong to the main thread's stack. */
  const BUILD_STACK_ADDR: u32 := 0x7c00

  const NULL: Addr := 0

  /** The protection-enable bit of CR0. */
  const CR0_PE: bv32 := 1

  /**
   * The thread whose stack holds `esp`: the main thread for the low stack,
   * otherwise the `thread_info` at the start of the 4096-byte block that
   * contains `esp`.
   */
  function GetCurThread(mainThread: Addr, esp: u32): (t: Addr)
    ensures esp <= BUILD_STACK_ADDR ==> t == mainThread
    ensures BUILD_STACK_ADDR < esp ==> t % THREADSTACKSIZE == 0 && t <= esp < t + THREADSTACKSIZE
  {
    if esp <= BUILD_STACK_ADDR then mainThread else esp - esp % THREADSTACKSIZE
  }

  /**
   * A block the allocator may hand out as a thread stack: aligned to its
   * own size, above the main stack, with its top still a 32-bit address.
   */
  predicate IsThreadBlock(t: Addr)
  {
    t % THREADSTACKSIZE == 0 && BUILD_STACK_ADDR < t && t < 0x1_0000_0000 - THREADSTACKSIZE
  }

  /** `sp` lies on the stack of thread `t`. */
  predicate OnStackOf(mainThread: Addr, sp: u32, t: Addr)
  {
    if t == mainThread then sp <= BUILD_STACK_ADDR else t <= sp < t + THREADSTACKSIZE
  }

  /** A stack pointer on the stack of `t` (one word below the block top), for the scripted threads of `RunOthers`. */
  function SomeSpOn(mainThread: Addr, t: Addr): (sp: u32)
    requires t == mainThread || IsThreadBlock(t)
    ensures OnStackOf(mainThread, sp, t)
  {
    if t == mainThread then BUILD_STACK_ADDR else t + THREADSTACKSIZE - 4
  }

  /**
   * Identifying the running thread by address arithmetic is right: for a
   * stack pointer on the stack of the main thread or of a thread block,
   * `GetCurThread` gives that thread, and it gives the main thread exactly
   * when the stack pointer is on the low stack.
   */
  lemma CurThreadOfRunning(mainThread: Addr, sp: u32, t: Addr)
    requires t == mainThread || (IsThreadBlock(t) && t != mainThread)
    requires OnStackOf(mainThread, sp, t)
    ensures GetCurThread(mainThread, sp) == t
    ensures GetCurThread(mainThread, sp) == mainThread <==> sp <= BUILD_STACK_ADDR
  {
    if t != mainThread {
      var r := GetCurThread(mainThread, sp);
      assert r % THREADSTACKSIZE == 0 && r <= sp < r + THREADSTACKSIZE;
      assert t - THREADSTACKSIZE < r < t + THREADSTACKSIZE;
      assert (r - t) % THREADSTACKSIZE == 0;
    }
  }

  /**
   * The thread state is well formed: the blocks reachable from MainThread
   * form a circular list that starts at MainThread, every other block in it
   * is a thread block, each has a saved stack position, the running thread
   * is one of them, and without thread support MainThread is alone.
   */
  ghost predicate ThreadsInv(cfg: Config, mainThread: Addr, next: map<Addr, Addr>, stackpos: map<Addr, u32>,
                             ring: seq<Addr>, current: Addr)
  {
    && Linked(next, ring)
    && ring[0] == mainThread
    && stackpos.Keys == next.Keys
    && (forall k :: 0 < k < |ring| ==> IsThreadBlock(ring[k]))
    && current in next
    && (!cfg.threads ==> ring == [mainThread])
  }

  /** Unlinking and freeing a thread other than MainThread and the running one keeps the state well formed. */
  lemma UnlinkKeepsInv(cfg: Config, mainThread: Addr, next: map<Addr, Addr>, stackpos: map<Addr, u32>,
                       ring: seq<Addr>, current: Addr, m: nat)
    requires ThreadsInv(cfg, mainThread, next, stackpos, ring, current)
    requires 0 < m < |ring| && ring[m] in next && ring[m] != current
    ensures ThreadsInv(cfg, mainThread, next[ring[m - 1] := next[ring[m]]] - {ring[m]},
                       stackpos - {ring[m]}, RemoveAt(ring, m), current)
  {
    Member(next, ring, m - 1);
    UnlinkKeepsLinked(next, ring, m);
    var ring' := RemoveAt(ring, m);
    forall k | 0 < k < |ring'| ensures IsThreadBlock(ring'[k]) {
      assert ring'[k] == ring[if k < m then k else k + 1];
    }
  }

  /**
   * Splicing a fresh thread block in after position `i`, with its stack
   * position at the top of the block, and running it keeps the state well
   * formed.
   */
  lemma SpliceKeepsInv(cfg: Config, mainThread: Addr, next: map<Addr, Addr>, stackpos: map<Addr, u32>,
                       ring: seq<Addr>, current: Addr, i: nat, t: Addr, sp: u32)
    requires ThreadsInv(cfg, mainThread, next, stackpos, ring, current)
    requires cfg.threads && i < |ring| && ring[i] == current && IsThreadBlock(t) && t !in next
    ensures ThreadsInv(cfg, mainThread, next[t := next[current]][current := t],
                       stackpos[t := t + THREADSTACKSIZE][current := sp], InsertAfter(ring, i, t), t)
  {
    SpliceKeepsLinked(next, ring, i, t);
    var ring' := InsertAfter(ring, i, t);
    forall k | 0 < k < |ring'| ensures IsThreadBlock(ring'[k]) {
      assert k != i + 1 ==> ring'[k] == ring[if k <= i then k else k - 1];
    }
  }

  /** The build options that this core reads. */
  datatype Config = Config(threads: bool, threadOptionRoms: bool)

  /** What the core asks of the collaborators it calls, in order. */
  datatype Event =
    | CheckIrqs            // check_irqs(): let pending hardware interrupts run
    | CallInline           // func(data) called on the caller's own stack
    | CallOn(thread: Addr) // func(data) called on the new thread's own stack
    | Freed(block: Addr)   // free() of a thread's stack block
    | UseRtc               // useRTC(): turn on the periodic RTC interrupt
    | ReleaseRtc           // releaseRTC()

  /** What `run_thread` did with the function it was given. */
  datatype SpawnResult = Inline | Started(thread: Addr)

  /** One cooperative action of a thread other than the waiting one, for `RunOthers`. */
  datatype Step =
    | StepYield
    | StepSpawn(alloc: Option<Addr>)
    | StepExit

  /**
   * The global thread state: MainThread, CanPreempt and PreemptCount, the
   * `thread_info` blocks reachable from MainThread, the running thread and
   * the calls made to collaborators.
   */
  class Threads {
    const cfg: Config
    /** &MainThread, the anchor of the ring. */
    const mainThread: Addr
    /** The `next` field of every live `thread_info`. */
    var next: map<Addr, Addr>
    /** The `stackpos` field of every live `thread_info`. */
    var stackpos: map<Addr, u32>
    var canPreempt: int
    var preemptCount: u32
    /** The thread the CPU is running. */
    var current: Addr
    var log: seq<Event>
    /** The live threads in ring order, starting from MainThread. */
    ghost var ring: seq<Addr>

    ghost predicate Valid()
      reads this
    {
      ThreadsInv(cfg, mainThread, next, stackpos, ring, current)
    }

    /** thread_setup: the ring is MainThread alone, and preemption is off. */
    constructor Setup(cfg: Config, mainThread: Addr)
      ensures Valid()
      ensures this.cfg == cfg && this.mainThread == mainThread
      ensures next == map[mainThread := mainThread] && stackpos == map[mainThread := NULL]
      ensures ring == [mainThread] && current == mainThread
      ensures canPreempt == 0 && preemptCount == 0 && log == []
    {
      this.cfg := cfg;
      this.mainThread := mainThread;
      next := map[mainThread := mainThread];
      stackpos := map[mainThread := NULL];
      canPreempt := 0;
      preemptCount := 0;
      current := mainThread;
      log := [];
      ring := [mainThread];
    }

    /** A live thread other than main is a thread block on which `OnStackOf` identifies it. */
    lemma LiveThreadIsBlock(t: Addr)
      requires Valid() && t in next
      ensures t == mainThread || (IsThreadBlock(t) && t != mainThread)
    {
      var k := IndexOf(ring, t);
      if k > 0 {
        assert ring[k] != ring[0];
      }
    }

    /** The thread that `GetCurThread` finds from a stack pointer on the running thread's stack is that thread. */
    lemma RunningThread(sp: u32)
      requires Valid() && OnStackOf(mainThread, sp, current)
      ensures GetCurThread(mainThread, sp) == current
      ensures current == mainThread <==> sp <= BUILD_STACK_ADDR
    {
      LiveThreadIsBlock(current);
      CurThreadOfRunning(mainThread, sp, current);
    }

    /**
     * switch_next: save the live stack pointer in `cur.stackpos` and resume
     * `cur.next`.
     */
    method SwitchNext(cur: Addr, sp: u32)
      requires Valid() && cur == current
      modifies this
      ensures Valid()
      ensures current == old(next[cur]) && stackpos == old(stackpos)[cur := sp]
      ensures next == old(next) && ring == old(ring) && log == old(log)
      ensures canPreempt == old(canPreempt) && preemptCount == old(preemptCount)
    {
      SuccessorLinked(next, ring, cur);
      var nxt := next[cur];
      stackpos := stackpos[cur := sp];
      current := nxt;
    }

    /**
     * yield: in 16-bit code or without thread support only check irqs;
     * otherwise check irqs when running on main, then switch to the next
     * thread in the ring.
     */
    method Yield(mode16: bool, sp: u32)
      requires Valid() && OnStackOf(mainThread, sp, current)
      modifies this
      ensures Valid()
      ensures next == old(next) && ring == old(ring)
      ensures canPreempt == old(canPreempt) && preemptCount == old(preemptCount)
      ensures mode16 || !cfg.threads ==>
        current == old(current) && stackpos == old(stackpos) && log == old(log) + [CheckIrqs]
      ensures !mode16 && cfg.threads ==>
        && current == old(next[current])
        && stackpos == old(stackpos)[old(current) := sp]
        && log == old(log) + (if old(current) == mainThread then [CheckIrqs] else [])
    {
      if mode16 || !cfg.threads {
        log := log + [CheckIrqs];
        return;
      }
      var cur := GetCurThread(mainThread, sp);
      RunningThread(sp);
      if cur == mainThread {
        log := log + [CheckIrqs];
      }
      SwitchNext(cur, sp);
    }

    /**
     * The scan of __end_thread: walking from MainThread, the first block
     * whose `next` is `dead` is the one just before `dead` in ring order.
     */
    method FindPredecessor(dead: Addr) returns (pos: Addr)
      requires Valid() && dead in next && dead != mainThread
      ensures pos in next && next[pos] == dead
      ensures 0 < IndexOf(ring, dead) && pos == ring[IndexOf(ring, dead) - 1]
    {
      ghost var m := IndexOf(ring, dead);
      pos := mainThread;
      ghost var i := 0;
      while next[pos] != dead
        invariant 0 <= i < m && pos == ring[i] && pos in next
        decreases m - i
      {
        pos := next[pos];
        i := i + 1;
        Member(next, ring, i);
      }
      if i < |ring| - 1 {
        assert ring[i + 1] == ring[m];
      }
    }

    /**
     * __end_thread: unlink `dead` from the ring through its predecessor and
     * free its block; the others stay in their order.
     */
    method EndThread(dead: Addr)
      requires Valid() && dead in next && dead != mainThread && dead != current
      modifies this
      ensures Valid()
      ensures 0 < IndexOf(old(ring), dead)
      ensures ring == RemoveAt(old(ring), IndexOf(old(ring), dead))
      ensures next == old(next)[old(ring)[IndexOf(old(ring), dead) - 1] := old(next)[dead]] - {dead}
      ensures stackpos == old(stackpos) - {dead}
      ensures log == old(log) + [Freed(dead)]
      ensures current == old(current)
      ensures canPreempt == old(canPreempt) && preemptCount == old(preemptCount)
    {
      var pos := FindPredecessor(dead);
      ghost var m := IndexOf(ring, dead);
      UnlinkKeepsInv(cfg, mainThread, next, stackpos, ring, current, m);
      next := next[pos := next[dead]] - {dead};
      stackpos := stackpos - {dead};
      log := log + [Freed(dead)];
      ring := RemoveAt(ring, m);
    }

    /**
     * run_thread: without thread support, or when the allocator gives no
     * block, call the function on the caller's stack. Otherwise put the new
     * block, with its stack position at the top of the block, into the ring
     * right after the running thread, and start running it.
     */
    method RunThread(sp: u32, alloc: Option<Addr>) returns (result: SpawnResult)
      requires Valid() && OnStackOf(mainThread, sp, current)
      requires alloc.Some? ==> IsThreadBlock(alloc.value) && alloc.value !in next
      modifies this
      ensures Valid()
      ensures result == if cfg.threads && alloc.Some? then Started(alloc.value) else Inline
      ensures canPreempt == old(canPreempt) && preemptCount == old(preemptCount)
      ensures result.Inline? ==>
        && next == old(next) && ring == old(ring) && stackpos == old(stackpos)
        && current == old(current) && log == old(log) + [CallInline]
      ensures result.Started? ==> next == old(next)[alloc.value := old(next)[old(current)]][old(current) := alloc.value]
      ensures result.Started? ==> ring == InsertAfter(old(ring), IndexOf(old(ring), old(current)), alloc.value)
      ensures result.Started? ==> stackpos == old(stackpos)[alloc.value := alloc.value + THREADSTACKSIZE][old(current) := sp]
      ensures result.Started? ==> current == alloc.value && log == old(log) + [CallOn(alloc.value)]
    {
      if !cfg.threads || alloc.None? {
        log := log + [CallInline];
        return Inline;
      }
      var cur := GetCurThread(mainThread, sp);
      RunningThread(sp);
      var thread := alloc.value;
      ghost var i := IndexOf(ring, cur);
      SpliceKeepsInv(cfg, mainThread, next, stackpos, ring, current, i, thread, sp);
      // Splice the new block in after the running thread; then start it:
      // save the caller's stack pointer and run on the new stack.
      next, ring := next[thread := next[cur]][cur := thread], InsertAfter(ring, i, thread);
      stackpos, current := stackpos[thread := thread + THREADSTACKSIZE][cur := sp], thread;
      log := log + [CallOn(thread)];
      result := Started(thread);
    }

    /**
     * run_thread called from MainThread with a fresh block: the new thread
     * goes right after MainThread, ahead of every thread spawned before it,
     * and runs at once.
     */
    method SpawnFromMain(t: Addr)
      requires Valid() && cfg.threads && current == mainThread && IsThreadBlock(t) && t !in next
      modifies this
      ensures Valid()
      ensures ring == [mainThread, t] + old(ring)[1..] && current == t
      ensures next.Keys == old(next).Keys + {t}
      ensures log == old(log) + [CallOn(t)] && canPreempt == old(canPreempt) && preemptCount == old(preemptCount)
    {
      ghost var ring0 := ring;
      var r := RunThread(BUILD_STACK_ADDR, Some(t));
      assert IndexOf(ring0, mainThread) == 0 by {
        assert ring0[0] == mainThread;
      }
      assert ring == [mainThread, t] + ring0[1..];
    }

    /**
     * The end of a thread in run_thread: when the thread's function returns,
     * move to the next thread's stack and call __end_thread on the finished
     * one.
     */
    method FinishThread()
      requires Valid() && current != mainThread
      modifies this
      ensures Valid()
      ensures current == old(next[current])
      ensures 0 < IndexOf(old(ring), old(current))
      ensures ring == RemoveAt(old(ring), IndexOf(old(ring), old(current)))
      ensures next == old(next)[old(ring)[IndexOf(old(ring), old(current)) - 1] := old(next)[old(current)]]
                      - {old(current)}
      ensures stackpos == old(stackpos) - {old(current)}
      ensures log == old(log) + [Freed(old(current))]
      ensures canPreempt == old(canPreempt) && preemptCount == old(preemptCount)
    {
      var thread := current;
      ghost var m := IndexOf(ring, thread);
      assert next[thread] != thread by {
        if m < |ring| - 1 {
          assert next[thread] == ring[m + 1];
        } else {
          assert m != 0;
        }
      }
      SuccessorLinked(next, ring, thread);
      current := next[thread];
      EndThread(thread);
    }

    /**
     * The threads other than `waiter` run their scripted actions, in turn,
     * until the waiter is running again or the script ends. A step that the
     * running thread cannot take (main exiting, an allocator answer that is
     * not a free thread block) is skipped.
     */
    method RunOthers(waiter: Addr, steps: seq<Step>)
      requires Valid() && waiter in next
      modifies this
      ensures Valid() && waiter in next
    {
      var k := 0;
      while k < |steps| && current != waiter
        invariant Valid() && waiter in next
        decreases |steps| - k
      {
        LiveThreadIsBlock(current);
        var sp := SomeSpOn(mainThread, current);
        var step := steps[k];
        k := k + 1;
        match step
        case StepYield =>
          Yield(false, sp);
        case StepSpawn(alloc) =>
          if alloc.None? || (IsThreadBlock(alloc.value) && alloc.value !in next) {
            var _ := RunThread(sp, alloc);
          }
        case StepExit =>
          if current != mainThread {
            FinishThread();
          }
      }
    }

    /**
     * wait_threads: without thread support return at once; otherwise yield
     * until MainThread is the only thread. `rounds[i]` is what the other
     * threads do after the waiter's `i`-th yield; `returned` is false when
     * the rounds end before the loop does.
     */
    method WaitThreads(sp: u32, rounds: seq<seq<Step>>) returns (returned: bool)
      requires Valid() && OnStackOf(mainThread, sp, current)
      modifies this
      ensures Valid()
      ensures !cfg.threads ==> returned && unchanged(this)
      ensures old(current) == mainThread && old(next[mainThread]) == mainThread ==> returned && unchanged(this)
      ensures returned ==> next == map[mainThread := mainThread] && ring == [mainThread]
      ensures returned ==> current == old(current) && current == mainThread
    {
      if !cfg.threads {
        LoneRing(next, ring);
        return true;
      }
      var me := current;
      var running := true;
      returned := next[mainThread] == mainThread;
      var i := 0;
      while !returned && running && i < |rounds|
        invariant Valid() && me in next && i <= |rounds| && me == old(current)
        invariant OnStackOf(mainThread, sp, me)
        invariant running ==> current == me
        invariant returned ==> running && next[mainThread] == mainThread
        invariant i == 0 ==> unchanged(this) && returned == (next[mainThread] == mainThread)
        invariant old(current) == mainThread && old(next[mainThread]) == mainThread ==> i == 0
        decreases |rounds| - i
      {
        Yield(false, sp);
        RunOthers(me, rounds[i]);
        i := i + 1;
        running := current == me;
        returned := running && next[mainThread] == mainThread;
      }
      if returned {
        AloneIffSelfLoop(next, ring);
        LoneRing(next, ring);
      }
    }

    /**
     * start_preempt: with both thread options on, allow preemption, reset
     * the counter and turn on the RTC interrupt; otherwise do nothing.
     */
    method StartPreempt()
      requires Valid()
      modifies this
      ensures Valid()
      ensures !cfg.threads || !cfg.threadOptionRoms ==> unchanged(this)
      ensures cfg.threads && cfg.threadOptionRoms ==>
        && canPreempt == 1 && preemptCount == 0 && log == old(log) + [UseRtc]
        && next == old(next) && ring == old(ring) && stackpos == old(stackpos) && current == old(current)
    {
      if !cfg.threads || !cfg.threadOptionRoms {
        return;
      }
      canPreempt := 1;
      preemptCount := 0;
      log := log + [UseRtc];
    }

    /**
     * finish_preempt: with both thread options on, forbid preemption and
     * turn off the RTC interrupt; otherwise do nothing.
     */
    method FinishPreempt()
      requires Valid()
      modifies this
      ensures Valid()
      ensures !cfg.threads || !cfg.threadOptionRoms ==> unchanged(this)
      ensures cfg.threads && cfg.threadOptionRoms ==>
        && canPreempt == 0 && preemptCount == old(preemptCount) && log == old(log) + [ReleaseRtc]
        && next == old(next) && ring == old(ring) && stackpos == old(stackpos) && current == old(current)
    {
      if !cfg.threads || !cfg.threadOptionRoms {
        return;
      }
      canPreempt := 0;
      log := log + [ReleaseRtc];
    }

    /** yield_preempt: count the attempt (a 32-bit counter) and switch from main to the next thread. */
    method YieldPreempt(sp: u32)
      requires Valid() && current == mainThread
      modifies this
      ensures Valid()
      ensures preemptCount == (old(preemptCount) + 1) % 0x1_0000_0000
      ensures current == old(next[mainThread]) && stackpos == old(stackpos)[mainThread := sp]
      ensures next == old(next) && ring == old(ring) && log == old(log) && canPreempt == old(canPreempt)
    {
      preemptCount := (preemptCount + 1) % 0x1_0000_0000;
      SwitchNext(mainThread, sp);
    }

    /**
     * check_preempt, run from the RTC interrupt on the main stack: when both
     * thread options are on, preemption is allowed and some other thread
     * exists, call yield_preempt through call32. When call32 refuses (CR0.PE
     * already set), nothing happens.
     */
    method CheckPreempt(cpu: Cpu, sp: u32, during: SegState)
      requires Valid() && current == mainThread
      modifies this, cpu
      ensures Valid()
      ensures next == old(next) && ring == old(ring) && log == old(log) && canPreempt == old(canPreempt)
      ensures cpu.cr0 == old(cpu.cr0) && cpu.cmosIndex == old(cpu.cmosIndex)
      ensures cpu.fs == old(cpu.fs) && cpu.gs == old(cpu.gs) && cpu.gdt == old(cpu.gdt)
      ensures
        var gate := cfg.threads && cfg.threadOptionRoms && old(canPreempt) != 0
                    && old(next[mainThread]) != mainThread;
        if gate && old(cpu.cr0) & CR0_PE == 0 then
          && preemptCount == (old(preemptCount) + 1) % 0x1_0000_0000
          && current == old(next[mainThread]) && stackpos == old(stackpos)[mainThread := sp]
          && cpu.ports == old(cpu.ports) + Call32Ports(old(cpu.cmosIndex))
        else
          && preemptCount == old(preemptCount) && current == old(current)
          && stackpos == old(stackpos) && cpu.ports == old(cpu.ports)
    {
      if !cfg.threads || !cfg.threadOptionRoms || canPreempt == 0 || next[mainThread] == mainThread {
        return;
      }
      var r := cpu.Call32(during);
      if r == 0 {
        YieldPreempt(sp);
      }
    }
  }

  /** A descriptor-table location as stored by `sgdt`: limit and base. */
  datatype DescLoc = DescLoc(limit: u16, base: u32)

  /** The registers that call32 saves and restores around the 32-bit call. */
  datatype SegState = SegState(fs: u16, gs: u16, gdt: DescLoc)

  /** The port accesses of call32 around the call: mask NMI through the CMOS index, then restore it. */
  function Call32Ports(cmosIndex: bv8): seq<IoOp>
  {
    [ Inb(PORT_CMOS_INDEX), Outb(PORT_CMOS_INDEX, cmosIndex | NMI_DISABLE_BIT), Inb(PORT_CMOS_DATA),
      Outb(PORT_CMOS_INDEX, cmosIndex), Inb(PORT_CMOS_DATA) ]
  }

  /** The machine state that call32 reads and must give back. */
  class Cpu {
    var cr0: bv32
    var cmosIndex: bv8
    var fs: u16
    var gs: u16
    var gdt: DescLoc
    var ports: seq<IoOp>

    /**
     * call32: refuse with -1, changing nothing, when CR0.PE is set.
     * Otherwise mask NMI, save fs, gs and the GDT location, run the 32-bit
     * function (which may leave `during` in those registers), restore them
     * and the CMOS index, and return 0.
     */
    method Call32(during: SegState) returns (r: int)
      modifies this
      ensures r == -1 <==> old(cr0) & CR0_PE != 0
      ensures r == -1 ==> unchanged(this)
      ensures r != -1 ==>
        && r == 0 && cr0 == old(cr0) && cmosIndex == old(cmosIndex)
        && fs == old(fs) && gs == old(gs) && gdt == old(gdt)
        && ports == old(ports) + Call32Ports(old(cmosIndex))
    {
      if cr0 & CR0_PE != 0 {
        return -1;
      }
      // Back up the CMOS index register and disable NMI.
      var savedIndex := cmosIndex;
      ports := ports + [Inb(PORT_CMOS_INDEX)];
      cmosIndex := savedIndex | NMI_DISABLE_BIT;
      ports := ports + [Outb(PORT_CMOS_INDEX, cmosIndex), Inb(PORT_CMOS_DATA)];
      // Back up fs/gs and the GDT location.
      var savedFs, savedGs, savedGdt := fs, gs, gdt;
      // The transition to 32-bit mode, the call and the way back.
      fs, gs, gdt := during.fs, during.gs, during.gdt;
      // Restore the GDT location, fs/gs and the CMOS index register.
      gdt := savedGdt;
      fs, gs := savedFs, savedGs;
      cmosIndex := savedIndex;
      ports := ports + [Outb(PORT_CMOS_INDEX, savedIndex), Inb(PORT_CMOS_DATA)];
      return 0;
    }
  }

  /**
   * Two threads spawned from main, the first yielding back at once: the
   * second goes right after main, ahead of the first, so the ring order is
   * the reverse of the spawn order, and a yield from the second thread
   * resumes the first one, not main.
   */
  method SpawnTwoFromMain(cfg: Config, mainThread: Addr, a: Addr, b: Addr) returns (s: Threads)
    requires cfg.threads
    requires IsThreadBlock(a) && IsThreadBlock(b) && mainThread != a && mainThread != b && a != b
    ensures s.ring == [mainThread, b, a]
    ensures s.current == a
  {
    s := new Threads.Setup(cfg, mainThread);
    s.SpawnFromMain(a);
    s.Yield(false, a + THREADSTACKSIZE - 4);
    s.SpawnFromMain(b);
    assert s.ring == [mainThread, b, a];
    s.Yield(false, b + THREADSTACKSIZE - 4);
  }
}
