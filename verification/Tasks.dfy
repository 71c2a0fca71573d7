/** The task structure of src/scheduler.h: 22 words, of which the first 20 are a
    register file in the order the context switch pushes and pops it. */
module Tasks {
  import opened Bytes
  import Descriptors
  import Klib

  const SS: nat := 0
  const RSP: nat := 1
  const RFLAGS: nat := 2
  const CS: nat := 3
  const RIP: nat := 4
  const RBP: nat := 5
  const RAX: nat := 6
  const RBX: nat := 7
  const RCX: nat := 8
  const RDX: nat := 9
  const RSI: nat := 10
  const RDI: nat := 11
  const REGISTERS: nat := 20
  const TASK_FLAGS: nat := 20
  const ADDRESS_SPACE: nat := 21
  const FIELDS: nat := 22
  const TASK_SIZE: nat := 8 * FIELDS

  const CAN_EXECUTE: Word := 1
  const DEFAULT_RFLAGS: Word := 0x246
  const KERNEL_CS: Word := 0x08  // offsets in the descriptor table
  const KERNEL_SS: Word := 0x10
  const USER_SS: Word := 0x20 + 3
  const USER_CS: Word := 0x28 + 3

  function Field(m: Mem, task: nat, j: nat): Word { Word64(m, task + 8 * j) }

  /** `m'` differs from `m` inside the task structure only. */
  ghost predicate OnlyTask(m: Mem, m': Mem, task: nat) {
    |m'| == |m| && forall a :: 0 <= a < |m| && !(task <= a < task + TASK_SIZE) ==> m'[a] == m[a]
  }

  method SetField(ram: array<Byte>, ghost m0: Mem, task: nat, j: nat, w: Word)
    requires task + TASK_SIZE <= ram.Length == |m0| && j < FIELDS && OnlyTask(m0, ram[..], task)
    modifies ram
    ensures OnlyTask(m0, ram[..], task)
    ensures forall i :: 0 <= i < FIELDS ==>
              Field(ram[..], task, i) == if i == j then w else Field(old(ram[..]), task, i)
  {
    hide Word64, Encode;
    ghost var m := ram[..];
    Klib.Store64(ram, task + 8 * j, w);
    Put64Same(m, task + 8 * j, w);
    forall i | 0 <= i < FIELDS && i != j ensures Field(ram[..], task, i) == Field(m, task, i) {
      BlitWord(m, task + 8 * j, Encode(w, 8), task + 8 * i);
    }
  }

  /** What a new task's field `j` holds; `before` is what was there. */
  function NewField(j: nat, stack: Word, entry: Word, arg: Word, space: Word, userMode: bool, before: Word): Word {
    if j == SS then if userMode then USER_SS else KERNEL_SS
    else if j == RSP then stack
    else if j == RFLAGS then DEFAULT_RFLAGS
    else if j == CS then if userMode then USER_CS else KERNEL_CS
    else if j == RIP then entry
    else if j == RDI then arg
    else if j == TASK_FLAGS then CAN_EXECUTE
    else if j == ADDRESS_SPACE then space
    else before
  }

  /** Prepares a task to start at `entry`; the registers it does not set keep what
      the memory held. */
  method MakeTask(ram: array<Byte>, task: nat, stack: Word, entry: Word, arg: Word, addressSpace: Word,
                  kernelAddressSpace: Word, userMode: bool)
    requires task + TASK_SIZE <= ram.Length
    modifies ram
    ensures OnlyTask(old(ram[..]), ram[..], task)
    ensures var space := if addressSpace != 0 then addressSpace else kernelAddressSpace;
      forall j :: 0 <= j < FIELDS ==>
        (Field(ram[..], task, j) == NewField(j, stack, entry, arg, space, userMode, Field(old(ram[..]), task, j)))
  {
    hide Field, OnlyTask;
    ghost var m := ram[..];
    assert OnlyTask(m, m, task) by { SameTask(m, task); }
    SetField(ram, m, task, RIP, entry);
    SetField(ram, m, task, CS, if userMode then USER_CS else KERNEL_CS);
    SetField(ram, m, task, RFLAGS, DEFAULT_RFLAGS);
    SetField(ram, m, task, SS, if userMode then USER_SS else KERNEL_SS);
    SetField(ram, m, task, RSP, stack);
    SetField(ram, m, task, RDI, arg);
    SetField(ram, m, task, TASK_FLAGS, CAN_EXECUTE);
    SetField(ram, m, task, ADDRESS_SPACE, if addressSpace != 0 then addressSpace else kernelAddressSpace);
  }

  /** A user-mode task gets registers that run at privilege 3, any other ones that run at
      privilege 0; it starts at its entry point, on its stack, with its argument in rdi, in
      its address space, able to execute; no other register is set. */
  lemma NewTaskRuns(stack: Word, entry: Word, arg: Word, space: Word, userMode: bool, before: Word)
    ensures var f := (j: nat) => NewField(j, stack, entry, arg, space, userMode, before);
      && Descriptors.RunsAt(f(3), f(0), f(2), if userMode then 3 else 0)
      && f(1) == stack && f(4) == entry && f(11) == arg && f(20) == 1 && f(21) == space
      && forall j :: 5 <= j < 20 && j != 11 ==> f(j) == before
  {
  }

  lemma SameTask(m: Mem, task: nat)
    ensures OnlyTask(m, m, task)
  {
  }
}
