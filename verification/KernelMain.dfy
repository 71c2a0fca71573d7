/** src/main.c `cstart`: from the boot loader's memory to the first process running in
    user mode, across the allocator, the address spaces, the loader and the scheduler. */
module KernelMain {
  import opened Bytes
  import opened Paging
  import opened Ownership
  import opened Machines
  import opened Frame
  import opened Radix
  import opened AddressSpace
  import opened KernelSpace
  import opened UserMemory
  import opened Elf
  import opened Tasks
  import opened Userspace
  import opened Multiboot
  import opened Selection
  import opened Cpus
  import Descriptors
  import KernelRuns
  import Switch
  import Dispatch

  // ----- boot -----

  /** The state the kernel builds from memory `m` once it has chosen the record of
      `length` bytes at `base`. */
  ghost function BootState(m: Mem, k: Layout, base: nat, length: nat, freeMemoryStart: nat): State {
    var first := RegionStart(base, freeMemoryStart);
    State(m, k, first, first, RegionEnd(base, length), [], KernelOwner(k))
  }

  /** The boot loader's data is in memory, the chosen record reaches beyond the kernel
      image, and the boot modules lie outside what the allocator is given. */
  ghost predicate BootOk(m: Mem, k: Layout, info: nat, freeMemoryStart: nat, modules: seq<Module>) {
    && BootInfoOk(m, k, info)
    && forall at: nat :: FirstLongest(m, BootRecords(m, info), at) ==>
         var a := BootRecords(m, info)[at];
         && RegionStart(BaseAddr(m, a), freeMemoryStart) <= RegionEnd(BaseAddr(m, a), Length(m, a))
         && ModulesOk(BootState(m, k, BaseAddr(m, a), Length(m, a), freeMemoryStart), modules)
  }

  /** Building the tables disturbs nothing outside them. */
  lemma BootExtends(m: Mem, s: State, base: nat, length: nat, freeMemoryStart: nat)
    requires SameOutsideKernel(m, s.mem, s.k) && s.owner == KernelOwner(s.k)
    requires s.first == RegionStart(base, freeMemoryStart) && s.end == RegionEnd(base, length)
    ensures Extends(BootState(m, s.k, base, length, freeMemoryStart), s)
  {
    hide RegionStart, RegionEnd;
    var s0 := BootState(m, s.k, base, length, freeMemoryStart);
    forall j | 0 <= j < |s0.mem| && Outside(s0, j) ensures s.mem[j] == m[j] {
      assert NotKernel(s.k, j);
    }
  }

  /** The kernel half as built holds no page for user code. */
  lemma BootClosed(s: State)
    requires Valid(s) && KernelTables(s.mem, s.k) && s.owner == KernelOwner(s.k)
    ensures NoSharedUser(s)
  {
    hide RegionOk, ChainOk, Partition, TablesOk, Entry, Present, Big, Writable, Usermode, Target;
    forall r: nat, p: Path | IsRoot(s, r) && p.i4 == 511 ensures !UserOpen(Translate(s.mem, r, p)) {
      assert KernelFramesOk(s);
      assert r == s.k.pml4;
      EmptyEntry();
      SharedEntry(s, 4, r, 511);
      if p.i3 == 510 {
        SharedEntry(s, 3, s.k.pdt, 510);
        if p.i2 < 16 { BigEntry(s, 2, s.k.pd, p.i2); }
      }
    }
  }

  lemma {:induction false} SameTotal(s0: State, s: State, modules: seq<Module>, n: nat)
    requires n <= |modules| && ModulesOk(s0, modules) && Extends(s0, s)
    ensures TotalCost(s.mem, modules, n) == TotalCost(s0.mem, modules, n)
  {
    hide Bootable, Extends, ProgramOf, ProcessCost;
    if n > 0 {
      SameTotal(s0, s, modules, n - 1);
      SameProgram(s0, s, modules[n - 1]);
    }
  }

  /** What runs, told in terms of the boot loader's memory. */
  lemma AllRunFrom(s0: State, s1: State, s: State, modules: seq<Module>, procs: seq<Process>)
    requires ModulesOk(s0, modules) && Extends(s0, s1) && AllRun(s, s1.mem, modules, procs)
    ensures AllRun(s, s0.mem, modules, procs)
  {
    hide Bootable, Extends, ProgramOf, Runs;
    forall i | 0 <= i < |procs| ensures Runs(s, s0.mem, procs[i], ProgramOf(s0.mem, modules[i])) {
      RunsFrom(s0, s1, s, modules[i], procs[i]);
    }
  }

  lemma ModulesStillOk(s0: State, s: State, modules: seq<Module>)
    requires ModulesOk(s0, modules) && Extends(s0, s)
    ensures ModulesOk(s, modules)
  {
    hide Bootable, Extends;
    forall i | 0 <= i < |modules| ensures Bootable(s, modules[i]) {
      ModuleStillOk(s0, s, modules[i]);
    }
  }

  lemma FirstInRange(m: Mem, records: seq<nat>, at: nat)
    requires FirstLongest(m, records, at)
    ensures at < |records|
  {
  }

  /** Boots and creates a process for each module. Each runs exactly what the boot loader
      left in memory for it, none can read anything of another, every frame in use lies in
      the chosen record, and all are created exactly if that record's frames suffice. What
      happened since the tables were built is a run, so all that runs keep holds. */
  method Cstart(k: Machine, info: nat, freeMemoryStart: Word, modules: seq<Module>)
    returns (booted: bool, ok: bool, procs: seq<Process>, ghost at: nat, ghost start: State)
    requires k.k.Ok() && (forall f :: f in k.k.Frames() ==> f + FRAME_SIZE <= freeMemoryStart)
    requires freeMemoryStart + 0xfff < SIZE_512G && freeMemoryStart <= k.ram.Length <= SIZE_512G
    requires BootOk(k.ram[..], k.k, info, freeMemoryStart, modules)
    modifies k, k.ram
    ensures !booted ==> NoneAvailable(old(k.ram[..]), BootRecords(old(k.ram[..]), info))
    ensures booted ==> FirstLongest(old(k.ram[..]), BootRecords(old(k.ram[..]), info), at)
    ensures booted ==> k.Ready() && AllRun(k.S(), old(k.ram[..]), modules, procs) && NoSharedUser(k.S())
    ensures booted ==> var m := old(k.ram[..]); var a := BootRecords(m, info)[at];
      var first, end := RegionStart(BaseAddr(m, a), freeMemoryStart), RegionEnd(BaseAddr(m, a), Length(m, a));
      && k.S().first == first && k.S().end == end
      && (ok <==> TotalCost(m, modules, |modules|) <= (end - first) / FRAME_SIZE)
      && (ok ==> |procs| == |modules|)
      && (forall f :: f in k.S().owner ==>
            f in k.k.Frames() || InsideRecord(f, BaseAddr(m, a), Length(m, a), freeMemoryStart))
    ensures booted ==> Valid(start) && start.owner == KernelOwner(k.k) && start.chain == []
    ensures booted && ok ==> KernelRuns.Reaches(start, k.S())
  {
    hide Valid, Runs, ModulesOk, ProgramOf, AllRun, LineLength, FreeCount, Extends, SameTranslations, TotalCost;
    hide BootInfoOk, FirstLongest, NoneAvailable, BootRecords, RegionStart, RegionEnd, Number, KernelTables;
    hide SameOutsideKernel, NoSharedUser, ProcessCost, HasFrame, KernelRuns.Reaches, InsideRecord;
    ghost var m := k.ram[..];
    booted, at := Boot(k, info, freeMemoryStart);
    start := k.S();
    ok, procs := false, [];
    if booted {
      FirstInRange(m, BootRecords(m, info), at);
      ghost var a := BootRecords(m, info)[at];
      ghost var s1 := k.S();
      ghost var s0 := BootState(m, k.k, BaseAddr(m, a), Length(m, a), freeMemoryStart);
      BootExtends(m, s1, BaseAddr(m, a), Length(m, a), freeMemoryStart);
      BootClosed(s1);
      ModulesStillOk(s0, s1, modules);
      SameTotal(s0, s1, modules, |modules|);
      ok, procs := StartProcesses(k, modules);
      AllRunFrom(s0, s1, k.S(), modules, procs);
      NoSharedKept(s1, k.S());
      assert k.S().first == s1.first && k.S().end == s1.end by { ExtendsKernel(s1, k.S()); }
      OwnedInside(k.S(), BaseAddr(m, a), Length(m, a), freeMemoryStart);
    }
  }

  // ----- the first switch into a process -----

  /** A byte that is no table's, no freed link's and no user page's. */
  ghost predicate Spare(s: State, j: nat) {
    && (forall f :: f in s.owner && s.owner[f] != Data ==> !(f <= j < f + FRAME_SIZE))
    && (forall i :: 0 <= i < |s.chain| ==> !(s.chain[i] <= j < s.chain[i] + 8))
  }

  ghost predicate Aside(s: State, a: nat, n: nat) {
    forall j :: a <= j < a + n ==> Spare(s, j)
  }

  /** Memory that is neither the allocator's nor a static table's is aside. */
  lemma OutsideAside(s: State, a: nat, n: nat)
    requires Valid(s) && forall j :: a <= j < a + n ==> Outside(s, j)
    ensures Aside(s, a, n)
  {
    hide ChainOk, KernelFramesOk, TablesOk;
    forall j | a <= j < a + n ensures Spare(s, j) {
      assert Outside(s, j);
      forall f | f in s.owner && f !in s.k.Frames() ensures !(f <= j < f + FRAME_SIZE) { TaskBelow(s, f); }
      forall i | 0 <= i < |s.chain| ensures !(s.chain[i] <= j < s.chain[i] + 8) {
        hide Aligned, RegionOk;
        ChainFrame(s, i);
        ChainBelow(s, i);
      }
    }
  }

  lemma ChainBelow(s: State, i: nat)
    requires Valid(s) && i < |s.chain|
    ensures s.chain[i] + FRAME_SIZE <= s.end
  {
    hide KernelFramesOk, TablesOk, Partition, Aligned;
    ChainFrame(s, i);
    assert Aligned(s.end);
    FramesApart(s.chain[i], s.end);
  }

  /** Changing only bytes that are aside, and none of the task's, keeps a process. */
  lemma RunsBeside(s: State, s': State, m: Mem, proc: Process, prog: Program)
    requires Runs(s, m, proc, prog) && s' == s.(mem := s'.mem) && |s'.mem| == |s.mem| && SameTranslations(s, s')
    requires forall f, j :: f in s.owner && s.owner[f] != Data && f <= j < f + FRAME_SIZE && j < |s.mem| ==>
               s'.mem[j] == s.mem[j]
    requires forall j :: 0 <= j < FIELDS ==> Field(s'.mem, proc.task, j) == Field(s.mem, proc.task, j)
    ensures Runs(s', m, proc, prog)
  {
    hide NewField, AddressOf, Winner, Word64, StackPointer, StackContent, SegmentPage, Translate, CanonicalPages;
    forall p | UserPath(p) ensures PageRuns(s', m, proc.root, prog, p) {
      assert PageRuns(s, m, proc.root, prog, p);
      var page := Translate(s.mem, proc.root, p);
      assert Translate(s'.mem, proc.root, p) == page;
      if page.Mapped? && page.frame in s.owner && s.owner[page.frame] == UserPage(proc.root, p)
         && page.frame + FRAME_SIZE <= |s.mem| {
        assert s'.mem[page.frame..page.frame + FRAME_SIZE] == s.mem[page.frame..page.frame + FRAME_SIZE];
      }
    }
  }

  lemma SavesAside(s: State, f: Dispatch.Fixed, m': Mem, task: nat)
    requires Valid(s) && OnlySave(s.mem, m', task, f.stackTop) && TasksOk(|s.mem|, f.tasks, f.stackTop)
    requires task in f.tasks
    requires Aside(s, task, TASK_SIZE) && Aside(s, f.stackTop - STACK_ROOM, STACK_ROOM)
    ensures KernelRuns.Harmless(s, m') && Valid(s.(mem := m')) && SameTranslations(s, s.(mem := m'))
    ensures forall g, j :: g in s.owner && s.owner[g] != Data && g <= j < g + FRAME_SIZE && j < |s.mem| ==>
              m'[j] == s.mem[j]
    ensures forall t, i :: t in f.tasks && t != task && 0 <= i < FIELDS ==> Field(m', t, i) == Field(s.mem, t, i)
  {
    hide RegionOk, ChainOk, Partition, KernelFramesOk, TablesOk, Word64, Entry;
    forall j | 0 <= j < |m'| && m'[j] != s.mem[j] ensures Spare(s, j) { }
    KernelRuns.HarmlessKeeps(s, m');
    KernelRuns.SameWalks(s, m');
    forall t, i | t in f.tasks && t != task && 0 <= i < FIELDS ensures Field(m', t, i) == Field(s.mem, t, i) {
      assert Apart(t, TASK_SIZE, task, TASK_SIZE);
      SameBytesSameWord(s.mem, m', t + 8 * i);
    }
  }

  /** The processor as a process first finds it: its own address space, in user mode at
      its entry point, with its stack pointer and argument at its command line. */
  ghost predicate Enters(m: Mem, ctx: Context, space: Word, proc: Process, prog: Program)
    requires ProgramOk(prog)
  {
    && space == proc.root && ctx[RIP] == prog.entry && Descriptors.RunsAt(ctx[CS], ctx[SS], ctx[RFLAGS], 3)
    && ctx[RSP] == ctx[RDI] == StackPointer(prog) && ctx[RDI] % 16 == 0
    && forall i :: 0 <= i < |prog.args| ==> ReadsArgument(m, space, ctx[RDI], prog, i)
  }

  /** User code reads byte `i` of its command line `i` bytes after `at`. */
  ghost predicate ReadsArgument(m: Mem, space: Word, at: Word, prog: Program, i: nat)
    requires i < |prog.args|
  {
    at + i < STACK_TOP && UserByte(m, space, at + i) == Some(prog.args[i])
  }

  lemma EntersWhatRuns(s: State, m: Mem, proc: Process, prog: Program)
    requires Runs(s, m, proc, prog)
    ensures Enters(s.mem, ContextAt(s.mem, proc.task), Field(s.mem, proc.task, ADDRESS_SPACE), proc, prog)
  {
    hide UserByte, Field, PageRuns, StackPointer;
    var ctx, space := ContextAt(s.mem, proc.task), Field(s.mem, proc.task, ADDRESS_SPACE);
    CommandLineSeen(s, m, proc, prog, 0);
    assert ctx[RIP] == Field(s.mem, proc.task, RIP) == prog.entry;
    assert ctx[CS] == Field(s.mem, proc.task, CS) == USER_CS;
    assert ctx[SS] == Field(s.mem, proc.task, SS) == USER_SS;
    assert ctx[RFLAGS] == Field(s.mem, proc.task, RFLAGS) == DEFAULT_RFLAGS;
    NewTaskRuns(StackPointer(prog), prog.entry, StackPointer(prog), proc.root, true, 0);
    assert ctx[RSP] == Field(s.mem, proc.task, RSP) == StackPointer(prog);
    assert ctx[RDI] == Field(s.mem, proc.task, RDI) == StackPointer(prog);
    assert space == proc.root;
    forall i | 0 <= i < |prog.args| ensures ReadsArgument(s.mem, space, ctx[RDI], prog, i) {
      CommandLineSeen(s, m, proc, prog, i);
    }
  }

  /** A switch keeps every invariant, every translation, and every process whose
      registers it does not save. */
  lemma SwitchKeeps(s: State, m: Mem, proc: Process, prog: Program,
                    f: Dispatch.Fixed, w: Dispatch.World, e: Dispatch.Event, w': Dispatch.World)
    requires Valid(s) && Runs(s, m, proc, prog) && w.mem == s.mem
    requires Dispatch.Step(f, w, e, w') && e.Switched? && proc.task in f.tasks && proc.task != w.current
    requires Aside(s, w.current, TASK_SIZE) && Aside(s, f.stackTop - STACK_ROOM, STACK_ROOM)
    ensures Valid(s.(mem := w'.mem)) && SameTranslations(s, s.(mem := w'.mem)) && Runs(s.(mem := w'.mem), m, proc, prog)
  {
    hide Valid, Runs, Aside, OnlySave, ContextAt, Field, TasksOk, SameTranslations;
    assert OnlySave(w.mem, w'.mem, w.current, f.stackTop) && TasksOk(|w.mem|, f.tasks, f.stackTop);
    assert w.current in f.tasks;
    hide Dispatch.Step;
    SavesAside(s, f, w'.mem, w.current);
    assert |w'.mem| == |s.mem| by { SameSize(w.mem, w'.mem, w.current, f.stackTop); }
    RunsBeside(s, s.(mem := w'.mem), m, proc, prog);
  }

  /** When a process is switched in for the first time, in any state in which it still is
      as it was made, it starts as its program asks. */
  lemma FirstSwitchIn(s: State, m: Mem, proc: Process, prog: Program,
                      f: Dispatch.Fixed, w: Dispatch.World, e: Dispatch.Event, w': Dispatch.World)
    requires Valid(s) && Runs(s, m, proc, prog) && w.mem == s.mem
    requires Dispatch.Step(f, w, e, w') && e.Switched? && w'.current == proc.task != w.current
    requires Aside(s, w.current, TASK_SIZE) && Aside(s, f.stackTop - STACK_ROOM, STACK_ROOM)
    ensures ProgramOk(prog) && Enters(w'.mem, e.loaded, e.space, proc, prog)
  {
    hide Valid, Runs, Aside, OnlySave, ContextAt, Field, TasksOk, SameTranslations, Enters;
    SwitchKeeps(s, m, proc, prog, f, w, e, w');
    RunsOk(s, m, proc, prog);
    EntersWhatRuns(s.(mem := w'.mem), m, proc, prog);
  }

  lemma SameSize(m: Mem, m': Mem, task: nat, top: nat)
    requires OnlySave(m, m', task, top)
    ensures |m'| == |m|
  {
  }

  lemma RunsOk(s: State, m: Mem, proc: Process, prog: Program)
    requires Runs(s, m, proc, prog)
    ensures ProgramOk(prog)
  {
  }

  // ----- the first processes scheduled -----

  /** The boot loop's calls of `schedule`: process `i` in round-robin slot `i`. */
  method ScheduleAll(c: Cpu, procs: seq<Process>)
    requires c.Valid() && |procs| <= ROBINS && (forall i :: 0 <= i < |procs| ==> procs[i].task in c.tasks)
    requires forall i :: 0 <= i < c.vector.Length ==> c.vector[i].task == 0
    modifies c.vector
    ensures c.Valid()
    ensures forall i :: 0 <= i < c.vector.Length ==>
              c.vector[i].task == if PRIORITIES <= i < PRIORITIES + |procs| then procs[i - PRIORITIES].task else 0
  {
    hide TasksOk;
    var i := 0;
    while i < |procs|
      invariant 0 <= i <= |procs| && c.Valid()
      invariant forall j :: 0 <= j < c.vector.Length ==>
                  c.vector[j].task == if PRIORITIES <= j < PRIORITIES + i then procs[j - PRIORITIES].task else 0
    {
      ghost var before := c.vector[..];
      var was := Dispatch.ScheduleTask(c, i, procs[i].task, 0);
      Scheduled(c, before, i, procs[i].task);
      i := i + 1;
    }
  }

  lemma Scheduled(c: Cpu, before: seq<Slot>, i: nat, task: nat)
    requires i < ROBINS && |before| == PRIORITIES + ROBINS == c.vector.Length
    requires c.vector[..] == before[PRIORITIES + i := Slot(0, task)]
    ensures forall j :: 0 <= j < |before| ==> c.vector[j] == if j == PRIORITIES + i then Slot(0, task) else before[j]
  {
    assert forall j :: 0 <= j < |before| ==> c.vector[j] == c.vector[..][j];
  }

  /** A task lies in a data frame of the allocator's region. */
  lemma TaskPlace(s: State, m: Mem, proc: Process, prog: Program)
    requires Valid(s) && Runs(s, m, proc, prog)
    ensures 0 < proc.task && Aligned(proc.task) && s.first <= proc.task && proc.task + FRAME_SIZE <= |s.mem|
    ensures Aside(s, proc.task, TASK_SIZE)
  {
    hide RegionOk, TablesOk, Aligned, Word64, PageRuns, NewField, Field, LinkWord;
    OwnedBelow(s, proc.task);
    forall j | proc.task <= j < proc.task + TASK_SIZE ensures Spare(s, j) {
      forall f | f in s.owner && s.owner[f] != Data ensures !(f <= j < f + FRAME_SIZE) { FramesApart(f, proc.task); }
      forall i | 0 <= i < |s.chain| ensures !(s.chain[i] <= j < s.chain[i] + 8) { FramesApart(s.chain[i], proc.task); }
    }
  }

  /** Then exactly their slots are ready, and the first switch picks the first. */
  lemma ReadyAfterBoot(s: State, m: Mem, modules: seq<Module>, procs: seq<Process>, slots: seq<Slot>)
    requires Valid(s) && AllRun(s, m, modules, procs) && 0 < |procs| <= ROBINS && |slots| == PRIORITIES + ROBINS
    requires forall i :: 0 <= i < |slots| ==>
               slots[i].task == if PRIORITIES <= i < PRIORITIES + |procs| then procs[i - PRIORITIES].task else 0
    ensures forall i :: 0 <= i < |slots| ==> ReadySlots(s.mem, slots)[i] == (PRIORITIES <= i < PRIORITIES + |procs|)
    ensures Select(ReadySlots(s.mem, slots), 0) == Run(PRIORITIES)
  {
    hide Valid, Field, PageRuns, FirstPriority, FirstRobin, ProgramOf, StackPointer;
    var r := ReadySlots(s.mem, slots);
    forall i | 0 <= i < |slots| ensures r[i] == (PRIORITIES <= i < PRIORITIES + |procs|) {
      if PRIORITIES <= i < PRIORITIES + |procs| {
        var j := i - PRIORITIES;
        assert Runs(s, m, procs[j], ProgramOf(m, modules[j]));
        assert Field(s.mem, procs[j].task, TASK_FLAGS) == CAN_EXECUTE;
        assert procs[j].task != 0 by { TaskPlace(s, m, procs[j], ProgramOf(m, modules[j])); }
      }
    }
    SelectionIs(r, 0);
    assert RobinSlot(0, 0) == PRIORITIES;
  }

  /** The structure of the idle task and the stack are the kernel's own memory. */
  ghost predicate KernelPlace(s: State, idle: nat, stackTop: nat) {
    && 0 < idle && idle + TASK_SIZE <= s.first && STACK_ROOM <= stackTop <= s.first
    && Apart(idle, TASK_SIZE, stackTop - STACK_ROOM, STACK_ROOM)
    && (forall j :: idle <= j < idle + TASK_SIZE ==> Outside(s, j))
    && (forall j :: stackTop - STACK_ROOM <= j < stackTop ==> Outside(s, j))
  }

  ghost function TasksOf(idle: nat, procs: seq<Process>): set<nat> {
    {idle} + set i | 0 <= i < |procs| :: procs[i].task
  }

  /** All task structures lie apart from each other and from the stack. */
  lemma TasksApart(s: State, m: Mem, modules: seq<Module>, procs: seq<Process>, idle: nat, stackTop: nat)
    requires Valid(s) && AllRun(s, m, modules, procs) && KernelPlace(s, idle, stackTop) && |s.mem| <= SIZE_512G
    ensures TasksOk(|s.mem|, TasksOf(idle, procs), stackTop)
  {
    hide Valid, Aligned, Runs, ProgramOf, Aside;
    RegionLimit(s);
    forall t | t in TasksOf(idle, procs) && t != idle
      ensures Aligned(t) && s.first <= t && t + FRAME_SIZE <= |s.mem| {
      var i :| 0 <= i < |procs| && procs[i].task == t;
      TaskPlace(s, m, procs[i], ProgramOf(m, modules[i]));
    }
    forall t, u | t in TasksOf(idle, procs) && u in TasksOf(idle, procs) && t != u
      ensures Apart(t, TASK_SIZE, u, TASK_SIZE) {
      if t != idle && u != idle { FramesApart(t, u); }
    }
  }

  /** The first process, as it is entered. */
  ghost predicate FirstEnters(mem: Mem, m: Mem, modules: seq<Module>, procs: seq<Process>, regs: seq<Word>, cr3: Word) {
    && 0 < |procs| <= |modules| && |regs| == REGISTERS && ProgramOk(ProgramOf(m, modules[0]))
    && Enters(mem, regs, cr3, procs[0], ProgramOf(m, modules[0]))
  }

  /** Schedules the processes and yields from the idle loop: the first of them runs. */
  method EnterFirst(k: Machine, c: Cpu, procs: seq<Process>, scratch: Switch.Scratch, ghost m: Mem,
      ghost modules: seq<Module>)
    requires k.Ready() && AllRun(k.S(), m, modules, procs) && 0 < |procs| <= ROBINS && scratch.Fits()
    requires c.ram == k.ram && c.Valid() && c.current == c.idle && c.roundSchedule == 0
    requires KernelPlace(k.S(), c.idle, c.stackTop) && c.tasks == TasksOf(c.idle, procs)
    requires forall i :: 0 <= i < c.vector.Length ==> c.vector[i].task == 0
    modifies c, c.ram, c.vector
    ensures c.Valid() && c.current == procs[0].task && c.roundSchedule == 1
    ensures k.Ready() && k.S() == old(k.S()).(mem := k.S().mem) && SameTranslations(old(k.S()), k.S())
    ensures AllRun(k.S(), m, modules, procs)
    ensures FirstEnters(k.S().mem, m, modules, procs, c.regs, c.cr3)
  {
    hide Valid, AllRun, TasksOk, SameTranslations, Runs, ReadySlots, Select, LinkWord, Enters, ProgramOf, OnlySave;
    hide ContextAt;
    ghost var s := k.S();
    FirstRuns(s, m, modules, procs);
    ghost var prog := ProgramOf(m, modules[0]);
    ScheduleAll(c, procs);
    ReadyAfterBoot(s, m, modules, procs, c.vector[..]);
    OutsideAside(s, c.idle, TASK_SIZE);
    OutsideAside(s, c.stackTop - STACK_ROOM, STACK_ROOM);
    AboveIdle(s, m, modules, procs, c.idle);
    ghost var w, out := Dispatch.WorldOf(c), c.regs;
    Dispatch.Yield(c, scratch);
    ghost var e := Dispatch.Switched(out, c.regs, c.cr3);
    FirstSwitchIn(s, m, procs[0], prog, Dispatch.FixedOf(c), w, e, Dispatch.WorldOf(c));
    SwitchKeeps(s, m, procs[0], prog, Dispatch.FixedOf(c), w, e, Dispatch.WorldOf(c));
    assert k.S() == s.(mem := k.ram[..]);
    SwitchKeepsAll(s, m, modules, procs, Dispatch.FixedOf(c), w, e, Dispatch.WorldOf(c));
  }

  lemma AboveIdle(s: State, m: Mem, modules: seq<Module>, procs: seq<Process>, idle: nat)
    requires Valid(s) && AllRun(s, m, modules, procs) && idle < s.first
    ensures forall i :: 0 <= i < |procs| ==> procs[i].task != idle
  {
    hide Valid, Runs, ProgramOf, Aside;
    forall i | 0 <= i < |procs| ensures procs[i].task != idle {
      TaskPlace(s, m, procs[i], ProgramOf(m, modules[i]));
    }
  }

  lemma SwitchKeepsAll(s: State, m: Mem, modules: seq<Module>, procs: seq<Process>,
                       f: Dispatch.Fixed, w: Dispatch.World, e: Dispatch.Event, w': Dispatch.World)
    requires Valid(s) && AllRun(s, m, modules, procs) && w.mem == s.mem
    requires Dispatch.Step(f, w, e, w') && e.Switched?
    requires forall i :: 0 <= i < |procs| ==> procs[i].task in f.tasks && procs[i].task != w.current
    requires Aside(s, w.current, TASK_SIZE) && Aside(s, f.stackTop - STACK_ROOM, STACK_ROOM)
    ensures AllRun(s.(mem := w'.mem), m, modules, procs)
  {
    hide Valid, Runs, Aside, ProgramOf, Dispatch.Step, SameTranslations;
    forall i | 0 <= i < |procs| ensures Runs(s.(mem := w'.mem), m, procs[i], ProgramOf(m, modules[i])) {
      SwitchKeeps(s, m, procs[i], ProgramOf(m, modules[i]), f, w, e, w');
    }
  }

  lemma FirstRuns(s: State, m: Mem, modules: seq<Module>, procs: seq<Process>)
    requires AllRun(s, m, modules, procs) && 0 < |procs|
    ensures 0 < |procs| <= |modules| && Runs(s, m, procs[0], ProgramOf(m, modules[0]))
    ensures ProgramOk(ProgramOf(m, modules[0]))
  {
    hide PageRuns, Field, NewField, ProgramOf, CanonicalPages;
  }

  /** Where the linker puts the idle task and the stack: below the free memory, apart from
      each other and from the static tables. */
  ghost predicate Linked(k: Layout, freeMemoryStart: nat, idle: nat, stackTop: nat) {
    && 0 < idle && idle + TASK_SIZE <= freeMemoryStart && STACK_ROOM <= stackTop <= freeMemoryStart
    && Apart(idle, TASK_SIZE, stackTop - STACK_ROOM, STACK_ROOM)
    && (forall j :: idle <= j < idle + TASK_SIZE ==> NotKernel(k, j))
    && (forall j :: stackTop - STACK_ROOM <= j < stackTop ==> NotKernel(k, j))
  }

  lemma LinkedPlace(s: State, base: nat, freeMemoryStart: nat, idle: nat, stackTop: nat)
    requires Linked(s.k, freeMemoryStart, idle, stackTop) && s.first == RegionStart(base, freeMemoryStart)
    ensures KernelPlace(s, idle, stackTop)
  {
    assert freeMemoryStart <= s.first;
    hide RegionStart;
    forall j | idle <= j < idle + TASK_SIZE ensures Outside(s, j) { assert NotKernel(s.k, j); }
    forall j | stackTop - STACK_ROOM <= j < stackTop ensures Outside(s, j) { assert NotKernel(s.k, j); }
  }

  /** From the boot loader to user mode: if the frames suffice, the idle loop's first yield
      enters the first module's program, in its own address space, with its command line in
      rdi; every module's process is ready as its file asks, and none can read another. */
  method BootInto(k: Machine, info: nat, freeMemoryStart: Word, modules: seq<Module>, idle: nat, stackTop: nat,
                  vector: array<Slot>, regs: Context, scratch: Switch.Scratch)
    returns (booted: bool, ok: bool, procs: seq<Process>, c: Cpu?)
    requires k.k.Ok() && (forall f :: f in k.k.Frames() ==> f + FRAME_SIZE <= freeMemoryStart)
    requires freeMemoryStart + 0xfff < SIZE_512G && freeMemoryStart <= k.ram.Length <= SIZE_512G
    requires BootOk(k.ram[..], k.k, info, freeMemoryStart, modules) && 0 < |modules| <= ROBINS
    requires Linked(k.k, freeMemoryStart, idle, stackTop) && scratch.Fits()
    requires vector.Length == PRIORITIES + ROBINS && forall i :: 0 <= i < vector.Length ==> vector[i].task == 0
    modifies k, k.ram, vector
    ensures !booted ==> NoneAvailable(old(k.ram[..]), BootRecords(old(k.ram[..]), info))
    ensures booted ==> k.Ready() && AllRun(k.S(), old(k.ram[..]), modules, procs) && NoSharedUser(k.S())
    ensures booted && ok ==>
              && |procs| == |modules| && c != null && c.ram == k.ram && c.Valid() && c.current == procs[0].task
              && FirstEnters(k.S().mem, old(k.ram[..]), modules, procs, c.regs, c.cr3)
  {
    hide Valid, AllRun, TasksOk, SameTranslations, LinkWord, FirstEnters, TasksOf, BootOk, NoSharedUser, Linked;
    hide KernelPlace;
    hide RegionStart, RegionEnd, Number, FirstLongest, NoneAvailable, BootRecords, TotalCost;
    ghost var m, at, start := k.ram[..], 0, k.S();
    c := null;
    booted, ok, procs, at, start := Cstart(k, info, freeMemoryStart, modules);
    if booted && ok {
      ghost var s := k.S();
      ghost var a := RecordAt(m, info, at);
      LinkedPlace(s, BaseAddr(m, a), freeMemoryStart, idle, stackTop);
      TasksApart(s, m, modules, procs, idle, stackTop);
      InTasks(idle, procs);
      c := new Cpu(k.ram, stackTop, idle, vector, regs, TasksOf(idle, procs));
      EnterFirst(k, c, procs, scratch, m, modules);
      ghost var s' := k.S();
      SharedStillClosed(s, s');
    }
  }

  ghost function RecordAt(m: Mem, info: nat, at: nat): nat
    requires FirstLongest(m, BootRecords(m, info), at)
  {
    BootRecords(m, info)[at]
  }

  lemma InTasks(idle: nat, procs: seq<Process>)
    ensures idle in TasksOf(idle, procs) && forall i :: 0 <= i < |procs| ==> procs[i].task in TasksOf(idle, procs)
  {
  }

  lemma SharedStillClosed(s: State, s': State)
    requires NoSharedUser(s) && SameTranslations(s, s') && s'.owner == s.owner
    ensures NoSharedUser(s')
  {
    hide Translate;
  }
}
