/** src/scheduler.c: the scheduling vector, the cursor and the loops that pick a task, with
    the registers and the memory a task switch works on. */
module Cpus {
  import opened Bytes
  import opened Tasks
  import opened Selection
  import Klib

  /** An entry of the scheduling vector; task 0 is a null pointer. */
  datatype Slot = Slot(flags: Word, task: nat)

  const STACK_ROOM: nat := 0x20_0000  // the linker script keeps 2M for the stack

  // ----- memory the switch uses -----

  predicate Apart(a: nat, n: nat, b: nat, l: nat) { a + n <= b || b + l <= a }

  /** Task structures lie in memory, apart from each other and from the stack. */
  ghost predicate TasksOk(size: nat, tasks: set<nat>, stackTop: nat) {
    && STACK_ROOM <= stackTop <= size < 0x1_0000_0000_0000_0000
    && (forall t :: t in tasks ==>
          0 < t && t + TASK_SIZE <= size && Apart(t, TASK_SIZE, stackTop - STACK_ROOM, STACK_ROOM))
    && (forall t, u :: t in tasks && u in tasks && t != u ==> Apart(t, TASK_SIZE, u, TASK_SIZE))
  }

  /** Registers as a task structure stores them. */
  type Context = s: seq<Word> | |s| == REGISTERS witness seq(REGISTERS, _ => 0)

  ghost function ContextAt(m: Mem, task: nat): Context {
    seq(REGISTERS, i requires 0 <= i < REGISTERS => Field(m, task, i))
  }

  /** `m'` differs from `m` at most in the registers of `task` and on the stack. */
  ghost predicate OnlySave(m: Mem, m': Mem, task: nat, stackTop: nat) {
    && |m'| == |m|
    && forall a :: 0 <= a < |m| && !(task <= a < task + 8 * REGISTERS) && !(stackTop - STACK_ROOM <= a < stackTop) ==>
         m'[a] == m[a]
  }

  // ----- picking a task -----

  predicate CanExecute(m: Mem, slot: Slot) {
    slot.task != 0 && Field(m, slot.task, TASK_FLAGS) % 2 == 1
  }

  ghost function ReadySlots(m: Mem, slots: seq<Slot>): Ready
    requires |slots| == PRIORITIES + ROBINS
  {
    seq(PRIORITIES + ROBINS, i requires 0 <= i < |slots| => CanExecute(m, slots[i]))
  }

  function PickedTask(slots: seq<Slot>, idle: nat, pick: Pick): nat {
    if pick.Run? && pick.slot < |slots| then slots[pick.slot].task else idle
  }

  /** What a selection makes current: the task of the slot it picked, whichever that is,
      and the idle task for none. */
  lemma PickIsLoaded(m: Mem, slots: seq<Slot>, idle: nat, c: Cursor)
    requires |slots| == PRIORITIES + ROBINS
    ensures match Select(ReadySlots(m, slots), c)
            case Run(i) => i < |slots| && PickedTask(slots, idle, Run(i)) == slots[i].task && CanExecute(m, slots[i])
            case Idle => PickedTask(slots, idle, Idle) == idle
  {
    hide CanExecute, ReadySlots, FirstPriority, FirstRobin, Wrap;
    PickedReady(m, slots, c);
  }

  class Cpu {
    const ram: array<Byte>
    const stackTop: nat           // the interrupt stack, IST entry 1
    const idle: nat               // idle_loop_task
    const vector: array<Slot>     // scheduling_vector[0]; asm_get_cpuid is always 0
    ghost const tasks: set<nat>   // every task structure there is
    var current: nat              // current_task_table[0]
    var roundSchedule: int
    var regs: seq<Word>           // the registers, in the order of the task structure
    var cr3: Word

    constructor (ram: array<Byte>, stackTop: nat, idle: nat, vector: array<Slot>, regs: Context, ghost tasks: set<nat>)
      requires TasksOk(ram.Length, tasks, stackTop) && idle in tasks
      requires vector.Length == PRIORITIES + ROBINS && forall i :: 0 <= i < vector.Length ==> vector[i].task == 0
      ensures Valid() && current == idle && this.ram == ram && this.stackTop == stackTop && this.idle == idle
      ensures this.vector == vector && this.tasks == tasks && this.regs == regs && roundSchedule == 0
    {
      this.ram, this.stackTop, this.idle, this.vector, this.tasks := ram, stackTop, idle, vector, tasks;
      current, roundSchedule, this.regs, cr3 := idle, 0, regs, 0;
    }

    ghost predicate Valid()
      reads this, ram, vector
    {
      && TasksOk(ram.Length, tasks, stackTop) && |regs| == REGISTERS
      && vector.Length == PRIORITIES + ROBINS && 0 <= roundSchedule <= ROBINS
      && idle in tasks && current in tasks
      && forall i :: 0 <= i < vector.Length ==> vector[i].task == 0 || vector[i].task in tasks
    }

    /** The task of a slot if it can execute, else 0. */
    method GetIfCanExecute(i: nat) returns (task: nat)
      requires Valid() && i < vector.Length
      ensures task == if CanExecute(ram[..], vector[i]) then vector[i].task else 0
    {
      task := 0;
      var slot := vector[i];
      if slot.task != 0 {
        var flags := Klib.Load64(ram, slot.task + 8 * TASK_FLAGS);
        if flags % 2 == 1 {
          task := slot.task;
        }
      }
    }

    ghost function Pick(): Selection.Pick
      requires Valid()
      reads this, ram, vector
    {
      Select(ReadySlots(ram[..], vector[..]), Wrap(roundSchedule))
    }

    /** The first loop of `scheduler`: the lowest ready priority slot. */
    method ScanPriorities() returns (pick: Selection.Pick)
      requires Valid()
      ensures pick == FirstPriority(ReadySlots(ram[..], vector[..]), 0)
    {
      hide CanExecute, Field;
      ghost var r := ReadySlots(ram[..], vector[..]);
      var pos := -128;
      while pos < 0
        invariant -128 <= pos <= 0
        invariant FirstPriority(r, 0) == FirstPriority(r, 128 + pos)
      {
        var next := GetIfCanExecute(128 + pos);
        SlotReady(ram[..], vector[..], 128 + pos);
        if next != 0 {
          return Run(128 + pos);
        }
        pos := pos + 1;
      }
      pick := Idle;
    }

    /** The second loop: the first ready round-robin slot of the window. */
    method ScanRobins() returns (pick: Selection.Pick)
      requires Valid()
      ensures pick == FirstRobin(ReadySlots(ram[..], vector[..]), Wrap(roundSchedule), 0)
    {
      hide CanExecute, Field, Wrap;
      ghost var r, c := ReadySlots(ram[..], vector[..]), Wrap(roundSchedule);
      var pos := roundSchedule % 128;
      ghost var k: nat := 0;
      ScanStart(roundSchedule);
      while pos != (roundSchedule + 127) % 128
        invariant 0 <= k <= WINDOW && 0 <= pos < 128 && pos == Wrap(c + k)
        invariant FirstRobin(r, c, 0) == FirstRobin(r, c, k)
        invariant pos == (roundSchedule + 127) % 128 <==> k == WINDOW
        decreases WINDOW - k
      {
        var next := GetIfCanExecute(128 + pos);
        SlotReady(ram[..], vector[..], 128 + pos);
        if next != 0 {
          return Run(128 + pos);
        }
        ScanStep(roundSchedule, pos, k);
        pos := (pos + 1) % 128;
        k := k + 1;
      }
      pick := Idle;
    }

    /** src/scheduler.c `scheduler`: makes the picked task current and moves the cursor
        just past it if it came from a round-robin slot. */
    method Schedule() returns (next: nat)
      requires Valid()
      modifies this`current, this`roundSchedule
      ensures Valid() && next == current == PickedTask(vector[..], idle, old(Pick()))
      ensures match old(Pick())
              case Run(i) => i < vector.Length && next == vector[i].task && CanExecute(ram[..], vector[i])
              case Idle => next == idle
      ensures var pick := old(Pick());
              roundSchedule ==
              if pick.Run? && pick.slot >= PRIORITIES then pick.slot - PRIORITIES + 1 else old(roundSchedule)
    {
      hide CanExecute, Field, Wrap, FirstPriority, FirstRobin;
      ghost var r, c := ReadySlots(ram[..], vector[..]), Wrap(roundSchedule);
      SelectionIs(r, c);
      PickedReady(ram[..], vector[..], c);
      PriorityIsFirst(r, 0);
      var pick := ScanPriorities();
      if pick.Run? {
        current := vector[pick.slot].task;
        return current;
      }
      pick := ScanRobins();
      if pick.Run? {
        roundSchedule := pick.slot - 128 + 1;
        current := vector[pick.slot].task;
        return current;
      }
      current := idle;
      next := idle;
    }
  }

  lemma SlotReady(m: Mem, slots: seq<Slot>, i: nat)
    requires i < |slots| == PRIORITIES + ROBINS
    ensures ReadySlots(m, slots)[i] == CanExecute(m, slots[i])
    ensures CanExecute(m, slots[i]) ==> slots[i].task != 0
  {
  }

  /** A slot that is picked holds a task. */
  lemma PickedReady(m: Mem, slots: seq<Slot>, c: Cursor)
    requires |slots| == PRIORITIES + ROBINS
    ensures var pick := Select(ReadySlots(m, slots), c);
            pick.Run? ==> pick.slot < |slots| && CanExecute(m, slots[pick.slot]) && slots[pick.slot].task != 0
  {
    hide Wrap, Field, FirstPriority, FirstRobin;
    SelectionIs(ReadySlots(m, slots), c);
  }

  lemma ScanStart(round: int)
    requires 0 <= round <= ROBINS
    ensures Wrap(Wrap(round) + 0) == round % 128 != (round + 127) % 128
  {
  }

  lemma ScanStep(round: int, pos: int, k: nat)
    requires 0 <= round <= ROBINS && k < WINDOW && pos == Wrap(Wrap(round) + k)
    ensures (pos + 1) % 128 == Wrap(Wrap(round) + k + 1)
    ensures (pos + 1) % 128 == (round + 127) % 128 <==> k + 1 == WINDOW
  {
    WrapAdd(round, k);
    WrapAdd(round + k, 1);
    WrapAdd(round, k + 1);
    DistanceOf(Wrap(round), k + 1);
    DistanceOf(Wrap(round), WINDOW);
    WrapAdd(round, WINDOW);
  }
}
