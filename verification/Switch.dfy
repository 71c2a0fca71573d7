/** src/scheduler_asm.s `asm_reschedule`: the interrupted registers are pushed into the
    current task structure, used as a stack, and the next task's are popped from its. */
module Switch {
  import opened Bytes
  import opened Tasks
  import opened Selection
  import opened Cpus
  import Klib

  // ----- what holds between instructions -----

  /** Words `j` and up of the task structure at `base` hold those of `ctx`. */
  ghost predicate Saved(m: Mem, base: nat, ctx: Context, j: nat) {
    forall i :: j <= i < REGISTERS ==> Field(m, base, i) == ctx[i]
  }

  /** The first `n` of the eight words below the stack top hold SS, RSP, RFLAGS, CS,
      RIP, rbp, rax and rbx of `ctx`, downwards. */
  ghost predicate StackHas(m: Mem, top: nat, ctx: Context, n: nat)
    requires n <= 8 && STACK_ROOM <= top
  {
    forall i :: 0 <= i < n ==> Word64(m, top - 8 * (i + 1)) == ctx[i]
  }

  ghost predicate OnlyStack(m: Mem, m': Mem, top: nat) {
    |m'| == |m| && forall a :: 0 <= a < |m| && !(top - STACK_ROOM <= a < top) ==> m'[a] == m[a]
  }

  ghost predicate SameStack(m: Mem, m': Mem, top: nat) {
    |m'| == |m| && forall a :: top - STACK_ROOM <= a < top && 0 <= a < |m| ==> m'[a] == m[a]
  }

  lemma StackKept(m: Mem, m': Mem, top: nat, ctx: Context, n: nat)
    requires STACK_ROOM <= top <= |m| && n <= 8 && StackHas(m, top, ctx, n) && SameStack(m, m', top)
    ensures StackHas(m', top, ctx, n)
  {
    hide Word64;
    forall i | 0 <= i < n ensures Word64(m', top - 8 * (i + 1)) == ctx[i] {
      SameBytesSameWord(m, m', top - 8 * (i + 1));
    }
  }

  lemma FieldsKept(m: Mem, m': Mem, top: nat, task: nat)
    requires OnlyStack(m, m', top) && STACK_ROOM <= top
    requires Apart(task, TASK_SIZE, top - STACK_ROOM, STACK_ROOM)
    ensures forall i :: 0 <= i < FIELDS ==> Field(m', task, i) == Field(m, task, i)
  {
    hide Word64;
    forall i | 0 <= i < FIELDS ensures Field(m', task, i) == Field(m, task, i) {
      SameBytesSameWord(m, m', task + 8 * i);
    }
  }

  // ----- pushes and pops -----

  method Push(c: Cpu, w: Word)
    requires |c.regs| == REGISTERS && 8 <= c.regs[RSP] <= c.ram.Length
    modifies c`regs, c.ram
    ensures c.regs == old(c.regs)[RSP := old(c.regs)[RSP] - 8]
    ensures c.ram[..] == Put64(old(c.ram[..]), c.regs[RSP], w)
  {
    c.regs := c.regs[RSP := c.regs[RSP] - 8];
    Klib.Store64(c.ram, c.regs[RSP], w);
  }

  method Pop(c: Cpu) returns (w: Word)
    requires |c.regs| == REGISTERS && c.regs[RSP] + 8 <= c.ram.Length < 0x1_0000_0000_0000_0000
    modifies c`regs
    ensures c.regs == old(c.regs)[RSP := old(c.regs)[RSP] + 8]
    ensures w == Word64(c.ram[..], old(c.regs)[RSP])
  {
    w := Klib.Load64(c.ram, c.regs[RSP]);
    c.regs := c.regs[RSP := c.regs[RSP] + 8];
  }

  /** Pushes word `i` of the interrupt frame. */
  method PushFrame(c: Cpu, w: Word, i: nat, ghost m0: Mem, ghost ctx: Context)
    requires c.Valid() && i < 8 && c.regs[RSP] == c.stackTop - 8 * i && w == ctx[i]
    requires StackHas(c.ram[..], c.stackTop, ctx, i) && OnlyStack(m0, c.ram[..], c.stackTop)
    modifies c`regs, c.ram
    ensures c.Valid() && c.regs == old(c.regs)[RSP := c.stackTop - 8 * (i + 1)]
    ensures StackHas(c.ram[..], c.stackTop, ctx, i + 1) && OnlyStack(m0, c.ram[..], c.stackTop)
  {
    hide Word64, Encode;
    ghost var m := c.ram[..];
    Push(c, w);
    Put64Same(m, c.regs[RSP], w);
    forall l | 0 <= l < i ensures Word64(c.ram[..], c.stackTop - 8 * (l + 1)) == ctx[l] {
      BlitWord(m, c.regs[RSP], Encode(w, 8), c.stackTop - 8 * (l + 1));
    }
  }

  /** Pushes register word `j` into the task structure at `base`. */
  method PushField(c: Cpu, w: Word, ghost base: nat, ghost j: nat, ghost m0: Mem, ghost ctx: Context)
    requires c.Valid() && base in c.tasks && j < REGISTERS && c.regs[RSP] == base + 8 * (j + 1) && w == ctx[j]
    requires Saved(c.ram[..], base, ctx, j + 1) && OnlySave(m0, c.ram[..], base, c.stackTop)
    requires StackHas(c.ram[..], c.stackTop, ctx, 8)
    modifies c`regs, c.ram
    ensures c.Valid() && c.regs == old(c.regs)[RSP := base + 8 * j]
    ensures Saved(c.ram[..], base, ctx, j) && OnlySave(m0, c.ram[..], base, c.stackTop)
    ensures StackHas(c.ram[..], c.stackTop, ctx, 8)
  {
    hide Word64, Encode;
    ghost var m := c.ram[..];
    Push(c, w);
    PushedField(m, base, j, w, ctx, m0, c.stackTop);
    StackKept(m, c.ram[..], c.stackTop, ctx, 8);
  }

  lemma PushedField(m: Mem, base: nat, j: nat, w: Word, ctx: Context, m0: Mem, top: nat)
    requires j < REGISTERS && base + TASK_SIZE <= |m| && w == ctx[j] && STACK_ROOM <= top <= |m|
    requires Saved(m, base, ctx, j + 1) && OnlySave(m0, m, base, top)
    requires Apart(base, TASK_SIZE, top - STACK_ROOM, STACK_ROOM)
    ensures var m' := Put64(m, base + 8 * j, w);
            Saved(m', base, ctx, j) && OnlySave(m0, m', base, top) && SameStack(m, m', top)
  {
    hide Word64, Encode;
    var a := base + 8 * j;
    Put64Same(m, a, w);
    forall i | j + 1 <= i < REGISTERS ensures Field(Put64(m, a, w), base, i) == ctx[i] {
      BlitWord(m, a, Encode(w, 8), base + 8 * i);
    }
  }

  /** `mov off(%rbp), %rax; push %rax` for frame word `j`. */
  method PushSavedWord(c: Cpu, ghost base: nat, j: nat, ghost m0: Mem, ghost ctx: Context)
    requires c.Valid() && base in c.tasks && j < 8 && c.regs[RSP] == base + 8 * (j + 1)
    requires c.regs[RBP] == c.stackTop - 48
    requires Saved(c.ram[..], base, ctx, j + 1) && OnlySave(m0, c.ram[..], base, c.stackTop)
    requires StackHas(c.ram[..], c.stackTop, ctx, 8)
    modifies c`regs, c.ram
    ensures c.Valid() && c.regs[RBP] == old(c.regs[RBP]) && c.regs[RSP] == base + 8 * j
    ensures c.regs[RBX] == old(c.regs[RBX])
    ensures Saved(c.ram[..], base, ctx, j) && OnlySave(m0, c.ram[..], base, c.stackTop)
    ensures StackHas(c.ram[..], c.stackTop, ctx, 8)
  {
    hide Word64, Saved, OnlySave;
    var w := Klib.Load64(c.ram, c.regs[RBP] + 40 - 8 * j);
    c.regs := c.regs[RAX := w];
    PushField(c, w, base, j, m0, ctx);
  }

  // ----- the interrupt handler -----

  /** The processor's part of the interrupt, and the handler's first pushes. */
  method Enter(c: Cpu)
    requires c.Valid()
    modifies c`regs, c.ram
    ensures c.Valid()
    ensures c.regs == old(c.regs)[RSP := c.stackTop - 64][RBP := c.stackTop - 48]
    ensures StackHas(c.ram[..], c.stackTop, old(c.regs), 8) && OnlyStack(old(c.ram[..]), c.ram[..], c.stackTop)
  {
    hide StackHas, OnlyStack;
    ghost var m0, ctx: Context := c.ram[..], c.regs;
    StartFrame(m0, c.stackTop, ctx);
    var rsp := c.regs[RSP];
    c.regs := c.regs[RSP := c.stackTop];  // interrupt stack table entry 1
    PushFrame(c, c.regs[SS], 0, m0, ctx);
    PushFrame(c, rsp, 1, m0, ctx);
    PushFrame(c, c.regs[RFLAGS], 2, m0, ctx);
    PushFrame(c, c.regs[CS], 3, m0, ctx);
    PushFrame(c, c.regs[RIP], 4, m0, ctx);
    PushFrame(c, c.regs[RBP], 5, m0, ctx);
    c.regs := c.regs[RBP := c.regs[RSP]];
    PushFrame(c, c.regs[RAX], 6, m0, ctx);
    PushFrame(c, c.regs[RBX], 7, m0, ctx);
  }

  lemma StartFrame(m: Mem, top: nat, ctx: Context)
    requires STACK_ROOM <= top
    ensures StackHas(m, top, ctx, 0) && OnlyStack(m, m, top)
  {
  }

  /** Saves the interrupted registers: 20 pushes that start just above the registers
      of the current task's structure and end at its offset 0. */
  method SaveTask(c: Cpu, ghost m0: Mem, ghost ctx: Context)
    requires c.Valid() && c.regs == ctx[RSP := c.stackTop - 64][RBP := c.stackTop - 48]
    requires StackHas(c.ram[..], c.stackTop, ctx, 8) && OnlyStack(m0, c.ram[..], c.stackTop)
    modifies c`regs, c.ram
    ensures c.Valid() && c.regs[RBP] == c.stackTop - 48 && c.regs[RSP] == c.current
    ensures Saved(c.ram[..], c.current, ctx, 0) && OnlySave(m0, c.ram[..], c.current, c.stackTop)
  {
    hide StackHas, OnlyStack, Saved, OnlySave;
    ghost var base := c.current;
    CallGetCpuid(c, m0, ctx);
    StartSave(m0, c.ram[..], base, ctx, c.stackTop);
    c.regs := c.regs[RBX := c.regs[RAX]];
    c.regs := c.regs[RAX := c.current];
    c.regs := c.regs[RSP := c.regs[RAX] + 0xa0];
    SaveUpper(c, base, m0, ctx);
    PushField(c, c.regs[RDI], base, RDI, m0, ctx);
    PushField(c, c.regs[RSI], base, RSI, m0, ctx);
    PushField(c, c.regs[RDX], base, RDX, m0, ctx);
    PushField(c, c.regs[RCX], base, RCX, m0, ctx);
    SaveFrame(c, base, m0, ctx);
  }

  /** `call asm_get_cpuid`: the return address goes below the frame; the answer is 0. */
  method CallGetCpuid(c: Cpu, ghost m0: Mem, ghost ctx: Context)
    requires c.Valid() && c.regs[RSP] == c.stackTop - 64
    requires StackHas(c.ram[..], c.stackTop, ctx, 8) && OnlyStack(m0, c.ram[..], c.stackTop)
    modifies c`regs, c.ram
    ensures c.Valid() && c.regs == old(c.regs)[RAX := 0]
    ensures StackHas(c.ram[..], c.stackTop, ctx, 8) && OnlyStack(m0, c.ram[..], c.stackTop)
  {
    hide Word64, Encode;
    ghost var m := c.ram[..];
    Push(c, RETURN_ADDRESS);
    forall l | 0 <= l < 8 ensures Word64(c.ram[..], c.stackTop - 8 * (l + 1)) == ctx[l] {
      BlitWord(m, c.stackTop - 72, Encode(RETURN_ADDRESS, 8), c.stackTop - 8 * (l + 1));
    }
    c.regs := c.regs[RAX := 0];
    var ret := Pop(c);
  }

  const RETURN_ADDRESS: Word := 0xFFFF_FFFF_8000_0000  // some kernel address

  /** The pushes of r15 down to r8. */
  method SaveUpper(c: Cpu, ghost base: nat, ghost m0: Mem, ghost ctx: Context)
    requires c.Valid() && base in c.tasks && c.regs[RSP] == base + 8 * REGISTERS
    requires forall i :: RCX <= i < REGISTERS ==> c.regs[i] == ctx[i]
    requires Saved(c.ram[..], base, ctx, REGISTERS) && OnlySave(m0, c.ram[..], base, c.stackTop)
    requires StackHas(c.ram[..], c.stackTop, ctx, 8)
    modifies c`regs, c.ram
    ensures c.Valid() && c.regs == old(c.regs)[RSP := base + 8 * 12]
    ensures Saved(c.ram[..], base, ctx, 12) && OnlySave(m0, c.ram[..], base, c.stackTop)
    ensures StackHas(c.ram[..], c.stackTop, ctx, 8)
  {
    hide StackHas, Saved, OnlySave;
    PushField(c, c.regs[19], base, 19, m0, ctx);  // r15
    PushField(c, c.regs[18], base, 18, m0, ctx);
    PushField(c, c.regs[17], base, 17, m0, ctx);
    PushField(c, c.regs[16], base, 16, m0, ctx);
    PushField(c, c.regs[15], base, 15, m0, ctx);
    PushField(c, c.regs[14], base, 14, m0, ctx);
    PushField(c, c.regs[13], base, 13, m0, ctx);
    PushField(c, c.regs[12], base, 12, m0, ctx);  // r8
  }

  lemma StartSave(m0: Mem, m: Mem, base: nat, ctx: Context, top: nat)
    requires OnlyStack(m0, m, top)
    ensures Saved(m, base, ctx, REGISTERS) && OnlySave(m0, m, base, top)
  {
  }

  /** The part of the save that comes from the interrupt stack. */
  method SaveFrame(c: Cpu, ghost base: nat, ghost m0: Mem, ghost ctx: Context)
    requires c.Valid() && base in c.tasks && c.regs[RSP] == base + 64 && c.regs[RBP] == c.stackTop - 48
    requires Saved(c.ram[..], base, ctx, 8) && OnlySave(m0, c.ram[..], base, c.stackTop)
    requires StackHas(c.ram[..], c.stackTop, ctx, 8)
    modifies c`regs, c.ram
    ensures c.Valid() && c.regs[RBP] == c.stackTop - 48 && c.regs[RSP] == base
    ensures Saved(c.ram[..], base, ctx, 0) && OnlySave(m0, c.ram[..], base, c.stackTop)
  {
    hide StackHas, Saved, OnlySave;
    PushSavedWord(c, base, RBX, m0, ctx);
    PushSavedWord(c, base, RAX, m0, ctx);
    PushSavedWord(c, base, RBP, m0, ctx);
    PushSavedWord(c, base, RIP, m0, ctx);
    PushSavedWord(c, base, CS, m0, ctx);
    PushSavedWord(c, base, RFLAGS, m0, ctx);
    PushSavedWord(c, base, RSP, m0, ctx);
    PushSavedWord(c, base, SS, m0, ctx);
  }

  /** `pop %rbx; mov %rbx, off(%rbp)` for frame word `i`. */
  method PopToFrame(c: Cpu, ghost base: nat, i: nat, ghost m0: Mem, ghost ctx: Context)
    requires c.Valid() && base in c.tasks && i < 6 && c.regs[RSP] == base + 8 * i && c.regs[RBP] == c.stackTop - 48
    requires Saved(c.ram[..], base, ctx, 0) && StackHas(c.ram[..], c.stackTop, ctx, i)
    requires OnlyStack(m0, c.ram[..], c.stackTop)
    modifies c`regs, c.ram
    ensures c.Valid() && c.regs[RSP] == base + 8 * (i + 1) && c.regs[RBP] == c.stackTop - 48
    ensures Saved(c.ram[..], base, ctx, 0) && StackHas(c.ram[..], c.stackTop, ctx, i + 1)
    ensures OnlyStack(m0, c.ram[..], c.stackTop)
  {
    hide Word64, Encode;
    var w := Pop(c);
    assert w == Field(c.ram[..], base, i);
    c.regs := c.regs[RBX := w];
    ghost var m := c.ram[..];
    ghost var a := c.stackTop - 8 * (i + 1);
    Klib.Store64(c.ram, c.regs[RBP] + 40 - 8 * i, w);
    Put64Same(m, a, w);
    forall l | 0 <= l < i ensures Word64(c.ram[..], c.stackTop - 8 * (l + 1)) == ctx[l] {
      BlitWord(m, a, Encode(w, 8), c.stackTop - 8 * (l + 1));
    }
    FieldsKept(m, c.ram[..], c.stackTop, base);
  }

  /** `pop` into register `r`, which is also word `r` of the structure. */
  method PopRegister(c: Cpu, ghost base: nat, r: nat, ghost ctx: Context)
    requires c.Valid() && base in c.tasks && RAX <= r < REGISTERS && c.regs[RSP] == base + 8 * r
    requires Saved(c.ram[..], base, ctx, 0) && (forall i :: RAX <= i < r ==> c.regs[i] == ctx[i])
    modifies c`regs
    ensures c.Valid() && c.regs[RSP] == base + 8 * (r + 1) && c.regs[RBP] == old(c.regs[RBP])
    ensures forall i :: RAX <= i <= r ==> c.regs[i] == ctx[i]
  {
    hide Word64;
    var w := Pop(c);
    assert w == Field(c.ram[..], base, r);
    c.regs := c.regs[r := w];
  }

  /** Restores the registers of the task whose structure rax points to. */
  method LoadTask(c: Cpu, ghost m0: Mem, ghost ctx: Context)
    requires c.Valid() && c.regs[RAX] in c.tasks && c.regs[RBP] == c.stackTop - 48
    requires Saved(c.ram[..], c.regs[RAX], ctx, 0) && OnlyStack(m0, c.ram[..], c.stackTop)
    modifies c`regs, c`cr3, c.ram
    ensures c.Valid() && c.regs[RBP] == c.stackTop - 48 && OnlyStack(m0, c.ram[..], c.stackTop)
    ensures StackHas(c.ram[..], c.stackTop, ctx, 6) && forall i :: RAX <= i < REGISTERS ==> c.regs[i] == ctx[i]
    ensures c.cr3 == Field(old(c.ram[..]), old(c.regs[RAX]), ADDRESS_SPACE)
  {
    hide StackHas, OnlyStack, Saved, Word64;
    ghost var base := c.regs[RAX];
    c.regs := c.regs[RSP := c.regs[RAX]];
    var space := Klib.Load64(c.ram, c.regs[RAX] + 0xa8);
    c.regs := c.regs[RBX := space];
    c.cr3 := c.regs[RBX];
    assert StackHas(c.ram[..], c.stackTop, ctx, 0) by { StartFrame(c.ram[..], c.stackTop, ctx); }
    PopToFrame(c, base, SS, m0, ctx);
    PopToFrame(c, base, RSP, m0, ctx);
    PopToFrame(c, base, RFLAGS, m0, ctx);
    PopToFrame(c, base, CS, m0, ctx);
    PopToFrame(c, base, RIP, m0, ctx);
    PopToFrame(c, base, RBP, m0, ctx);
    PopRegisters(c, base, ctx);
  }

  /** The pops of rax up to r15. */
  method PopRegisters(c: Cpu, ghost base: nat, ghost ctx: Context)
    requires c.Valid() && base in c.tasks && c.regs[RSP] == base + 8 * RAX && Saved(c.ram[..], base, ctx, 0)
    modifies c`regs
    ensures c.Valid() && c.regs[RBP] == old(c.regs[RBP]) && forall i :: RAX <= i < REGISTERS ==> c.regs[i] == ctx[i]
  {
    hide StackHas, OnlyStack, Saved, Word64, TasksOk;
    PopRegister(c, base, RAX, ctx);
    PopRegister(c, base, RBX, ctx);
    PopRegister(c, base, RCX, ctx);
    PopRegister(c, base, RDX, ctx);
    PopRegister(c, base, RSI, ctx);
    PopRegister(c, base, RDI, ctx);
    PopRegister(c, base, 12, ctx);  // r8
    PopRegister(c, base, 13, ctx);
    PopRegister(c, base, 14, ctx);
    PopRegister(c, base, 15, ctx);
    PopRegister(c, base, 16, ctx);
    PopRegister(c, base, 17, ctx);
    PopRegister(c, base, 18, ctx);
    PopRegister(c, base, 19, ctx);  // r15
  }

  /** Reloads the data segment through rax, then `pop %rbp; iretq`. */
  method Leave(c: Cpu, ghost ctx: Context)
    requires c.Valid() && c.regs[RBP] == c.stackTop - 48
    requires StackHas(c.ram[..], c.stackTop, ctx, 6) && forall i :: RAX <= i < REGISTERS ==> c.regs[i] == ctx[i]
    modifies c`regs
    ensures c.Valid() && c.regs == ctx
  {
    hide Word64;
    c.regs := c.regs[RSP := c.regs[RBP]];
    c.regs := c.regs[RBP := c.regs[RAX]];
    var ds := Klib.Load64(c.ram, c.regs[RSP] + 0x28);
    c.regs := c.regs[RAX := ds];
    c.regs := c.regs[RAX := c.regs[RBP]];
    assert Word64(c.ram[..], c.stackTop - 8 * (5 + 1)) == ctx[RBP];
    assert Word64(c.ram[..], c.stackTop - 8 * (4 + 1)) == ctx[RIP];
    assert Word64(c.ram[..], c.stackTop - 8 * (3 + 1)) == ctx[CS];
    assert Word64(c.ram[..], c.stackTop - 8 * (2 + 1)) == ctx[RFLAGS];
    assert Word64(c.ram[..], c.stackTop - 8 * (1 + 1)) == ctx[RSP];
    assert Word64(c.ram[..], c.stackTop - 8 * (0 + 1)) == ctx[SS];
    var rbp := Pop(c);
    var rip := Pop(c);
    var cs := Pop(c);
    var rflags := Pop(c);
    var rsp := Pop(c);
    var ss := Pop(c);
    c.regs := c.regs[RBP := rbp][RIP := rip][CS := cs][RFLAGS := rflags][RSP := rsp][SS := ss];
  }

  /** What the C code of the scheduler leaves behind: values in the registers it need not
      preserve, and its stack frame, whatever that holds. */
  datatype Scratch = Scratch(regs: Context, frame: seq<Byte>) {
    ghost predicate Fits() { |frame| + 56 <= STACK_ROOM }
  }

  /** `call scheduler`, whose return address overwrites the saved rax, and whose frame
      lies below it. */
  method CallScheduler(c: Cpu, scratch: Scratch, ghost m0: Mem)
    requires scratch.Fits()
    requires c.Valid() && c.regs[RBP] == c.stackTop - 48 && OnlySave(m0, c.ram[..], c.current, c.stackTop)
    modifies c`regs, c`current, c`roundSchedule, c.ram
    ensures c.Valid() && c.regs[RBP] == c.stackTop - 48
    ensures OnlySave(m0, c.ram[..], old(c.current), c.stackTop) && OnlyStack(old(c.ram[..]), c.ram[..], c.stackTop)
    ensures c.regs[RAX] == c.current == PickedTask(c.vector[..], c.idle, old(c.Pick()))
    ensures c.roundSchedule == NextRound(old(c.Pick()), old(c.roundSchedule))
  {
    hide Encode, CanExecute, Field, Select, PickedTask;
    c.regs := c.regs[RSP := c.regs[RBP]];
    c.regs := c.regs[RDI := c.regs[RBX]];
    ghost var m := c.ram[..];
    Push(c, RETURN_ADDRESS);
    Klib.Store(c.ram, c.regs[RSP] - |scratch.frame|, scratch.frame);
    SamePick(m, c.ram[..], c.vector[..], c.tasks, c.stackTop);
    var next := c.Schedule();
    var rsp, rbp, rbx := c.regs[RSP], c.regs[RBP], c.regs[RBX];
    c.regs := scratch.regs[RSP := rsp][RBP := rbp][RBX := rbx];
    c.regs := c.regs[RAX := next];
    var ret := Pop(c);
  }

  /** The cursor's raw value after a selection. */
  function NextRound(pick: Pick, round: int): int {
    if pick.Run? && pick.slot >= PRIORITIES then pick.slot - PRIORITIES + 1 else round
  }

  /** Which slots are ready depends on no stack byte. */
  lemma SamePick(m: Mem, m': Mem, slots: seq<Slot>, tasks: set<nat>, top: nat)
    requires |slots| == PRIORITIES + ROBINS && TasksOk(|m|, tasks, top)
    requires forall i :: 0 <= i < |slots| ==> slots[i].task == 0 || slots[i].task in tasks
    requires OnlyStack(m, m', top)
    ensures ReadySlots(m', slots) == ReadySlots(m, slots)
  {
    hide Word64;
    forall i | 0 <= i < |slots| ensures CanExecute(m', slots[i]) == CanExecute(m, slots[i]) {
      if slots[i].task != 0 { FieldsKept(m, m', top, slots[i].task); }
    }
  }

  lemma SamePickSaved(m: Mem, m': Mem, slots: seq<Slot>, tasks: set<nat>, task: nat, top: nat)
    requires |slots| == PRIORITIES + ROBINS && TasksOk(|m|, tasks, top) && task in tasks
    requires forall i :: 0 <= i < |slots| ==> slots[i].task == 0 || slots[i].task in tasks
    requires OnlySave(m, m', task, top)
    ensures ReadySlots(m', slots) == ReadySlots(m, slots)
  {
    hide Word64;
    forall i | 0 <= i < |slots| ensures CanExecute(m', slots[i]) == CanExecute(m, slots[i]) {
      var t := slots[i].task;
      if t != 0 {
        assert t == task || Apart(t, TASK_SIZE, task, TASK_SIZE);
        SameBytesSameWord(m, m', t + 8 * TASK_FLAGS);
      }
    }
  }

  lemma SavedContext(m: Mem, base: nat, ctx: Context)
    ensures Saved(m, base, ctx, 0) <==> ContextAt(m, base) == ctx
  {
  }

  lemma ContextKept(m: Mem, m': Mem, top: nat, task: nat)
    requires OnlyStack(m, m', top) && STACK_ROOM <= top
    requires Apart(task, TASK_SIZE, top - STACK_ROOM, STACK_ROOM)
    ensures ContextAt(m', task) == ContextAt(m, task)
  {
    FieldsKept(m, m', top, task);
  }

  /** The whole switch: the interrupted registers end up in the task that was current,
      those of the picked task in the processor; beyond that only stack bytes change. */
  method Reschedule(c: Cpu, scratch: Scratch)
    requires c.Valid() && scratch.Fits()
    modifies c, c.ram
    ensures c.Valid() && c.vector[..] == old(c.vector[..])
    ensures OnlySave(old(c.ram[..]), c.ram[..], old(c.current), c.stackTop)
    ensures ContextAt(c.ram[..], old(c.current)) == old(c.regs)
    ensures c.current == PickedTask(c.vector[..], c.idle, old(c.Pick()))
    ensures c.roundSchedule == NextRound(old(c.Pick()), old(c.roundSchedule))
    ensures c.regs == ContextAt(c.ram[..], c.current) && c.cr3 == Field(c.ram[..], c.current, ADDRESS_SPACE)
  {
    hide StackHas, OnlyStack, Saved, OnlySave, ReadySlots, Field, Select, PickedTask, ContextAt;
    ghost var m0, ctx: Context, before := c.ram[..], c.regs, c.current;
    Enter(c);
    SaveTask(c, m0, ctx);
    ghost var m1 := c.ram[..];
    SavedContext(m1, before, ctx);
    SamePickSaved(m0, m1, c.vector[..], c.tasks, before, c.stackTop);
    CallScheduler(c, scratch, m0);
    ghost var m2 := c.ram[..];
    ContextKept(m1, m2, c.stackTop, before);
    ghost var next: Context := ContextAt(m2, c.current);
    SavedContext(m2, c.current, next);
    assert OnlyStack(m2, m2, c.stackTop) by { StartFrame(m2, c.stackTop, ctx); }
    LoadTask(c, m2, next);
    Leave(c, next);
    ghost var m3 := c.ram[..];
    ContextKept(m2, m3, c.stackTop, before);
    ContextKept(m2, m3, c.stackTop, c.current);
    FieldsKept(m2, m3, c.stackTop, c.current);
    SaveAndStack(m0, m2, m3, before, c.stackTop);
  }

  lemma SaveAndStack(m0: Mem, m2: Mem, m3: Mem, task: nat, top: nat)
    requires OnlySave(m0, m2, task, top) && OnlyStack(m2, m3, top)
    ensures OnlySave(m0, m3, task, top)
  {
  }
}
