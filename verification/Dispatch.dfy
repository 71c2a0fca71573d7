/** Whole runs of the scheduler: task switches in any interleaving with scheduling,
    suspending, resuming and creating tasks. */
module Dispatch {
  import opened Bytes
  import opened Tasks
  import opened Selection
  import opened Cpus
  import opened Switch
  import Descriptors
  import Klib

  // ----- states and events -----

  datatype World = World(mem: Mem, slots: seq<Slot>, current: nat, round: int)

  /** What never changes in a run. */
  datatype Fixed = Fixed(tasks: set<nat>, stackTop: nat, idle: nat)

  datatype Event =
    | Worked                                                // whatever runs between switches
    | Switched(out: Context, loaded: Context, space: Word)  // registers before and after, cr3
    | Scheduled(slot: nat, content: Slot)
    | Suspended(task: nat)
    | Resumed(task: nat)
    | Made(task: nat, stack: Word, entry: Word, arg: Word, space: Word, userMode: bool)

  ghost predicate WorldOk(f: Fixed, w: World) {
    && TasksOk(|w.mem|, f.tasks, f.stackTop) && |w.slots| == PRIORITIES + ROBINS && 0 <= w.round <= ROBINS
    && f.idle in f.tasks && w.current in f.tasks
    && forall i :: 0 <= i < |w.slots| ==> w.slots[i].task == 0 || w.slots[i].task in f.tasks
  }

  ghost function ReadyOf(w: World): Ready {
    if |w.slots| == PRIORITIES + ROBINS then ReadySlots(w.mem, w.slots)
    else seq(PRIORITIES + ROBINS, _ => false)
  }

  ghost function CursorOf(w: World): Cursor { Wrap(if w.round >= 0 then w.round else 0) }

  ghost function PickOf(w: World): Pick { Select(ReadyOf(w), CursorOf(w)) }

  /** `m'` differs from `m` in the flags of `task` at most, which are now `flags`. */
  ghost predicate FlagsBecome(m: Mem, m': Mem, task: nat, flags: Word) {
    && |m'| == |m| && Field(m', task, TASK_FLAGS) == flags
    && forall a :: 0 <= a < |m| && !(task + 8 * TASK_FLAGS <= a < task + 8 * ADDRESS_SPACE) ==> m'[a] == m[a]
  }

  /** `m'` differs from `m` nowhere inside a task structure. */
  ghost predicate SameTasks(m: Mem, m': Mem, tasks: set<nat>) {
    |m'| == |m| && forall t, a :: t in tasks && t <= a < t + TASK_SIZE && a < |m| ==> m'[a] == m[a]
  }

  ghost predicate Step(f: Fixed, w: World, e: Event, w': World) {
    && WorldOk(f, w) && WorldOk(f, w')
    && match e
       case Worked => w' == w.(mem := w'.mem) && SameTasks(w.mem, w'.mem, f.tasks)
       case Switched(out, loaded, space) =>
         && OnlySave(w.mem, w'.mem, w.current, f.stackTop) && ContextAt(w'.mem, w.current) == out
         && w'.slots == w.slots && w'.current == PickedTask(w.slots, f.idle, PickOf(w))
         && w'.round == NextRound(PickOf(w), w.round)
         && loaded == ContextAt(w'.mem, w'.current) && space == Field(w'.mem, w'.current, ADDRESS_SPACE)
       case Scheduled(i, entry) => i < |w.slots| && w' == w.(slots := w.slots[i := entry])
       case Suspended(t) =>
         t in f.tasks && w' == w.(mem := w'.mem)
         && FlagsBecome(w.mem, w'.mem, t, Field(w.mem, t, TASK_FLAGS) / 2 * 2)
       case Resumed(t) =>
         t in f.tasks && w' == w.(mem := w'.mem)
         && FlagsBecome(w.mem, w'.mem, t, Field(w.mem, t, TASK_FLAGS) / 2 * 2 + 1)
       case Made(t, stack, entry, arg, space, userMode) =>
         t in f.tasks && w' == w.(mem := w'.mem) && OnlyTask(w.mem, w'.mem, t)
         && forall j :: 0 <= j < FIELDS ==>
              (Field(w'.mem, t, j) == NewField(j, stack, entry, arg, space, userMode, Field(w.mem, t, j)))
  }

  ghost predicate IsRun(f: Fixed, ws: seq<World>, es: seq<Event>) {
    |ws| == |es| + 1 && forall k :: 0 <= k < |es| ==> Step(f, ws[k], es[k], ws[k + 1])
  }

  // ----- the kernel's operations are steps -----

  ghost function WorldOf(c: Cpu): World
    reads c, c.ram, c.vector
  {
    World(c.ram[..], c.vector[..], c.current, c.roundSchedule)
  }

  ghost function FixedOf(c: Cpu): Fixed { Fixed(c.tasks, c.stackTop, c.idle) }

  lemma ValidWorld(c: Cpu)
    requires c.Valid()
    ensures WorldOk(FixedOf(c), WorldOf(c)) && PickOf(WorldOf(c)) == c.Pick()
  {
    hide ReadySlots, Select, TasksOk;
    assert forall i :: 0 <= i < c.vector.Length ==> c.vector[..][i] == c.vector[i];
  }

  method Yield(c: Cpu, scratch: Scratch)
    requires c.Valid() && scratch.Fits()
    modifies c, c.ram
    ensures c.Valid() && Step(FixedOf(c), old(WorldOf(c)), Switched(old(c.regs), c.regs, c.cr3), WorldOf(c))
  {
    hide OnlySave, ContextAt, Select, PickedTask, ReadySlots, TasksOk;
    ValidWorld(c);
    ghost var w := WorldOf(c);
    Reschedule(c, scratch);
    ValidWorld(c);
  }

  /** src/scheduler.c `schedule`: fills a slot and returns what it held. */
  method ScheduleTask(c: Cpu, priority: int, task: nat, flags: Word) returns (was: Slot)
    requires c.Valid() && -128 <= priority < 128 && (task == 0 || task in c.tasks)
    modifies c.vector
    ensures c.Valid() && was == old(c.vector[128 + priority])
    ensures Step(FixedOf(c), old(WorldOf(c)), Scheduled(128 + priority, Slot(flags, task)), WorldOf(c))
  {
    hide ReadySlots, TasksOk;
    ValidWorld(c);
    was := c.vector[128 + priority];
    c.vector[128 + priority] := Slot(flags, task);
    ValidWorld(c);
  }

  /** Sets or clears the flag of a task that lets it execute. */
  method SetCanExecute(c: Cpu, task: nat, on: bool)
    requires c.Valid() && task in c.tasks
    modifies c.ram
    ensures c.Valid()
    ensures Step(FixedOf(c), old(WorldOf(c)), if on then Resumed(task) else Suspended(task), WorldOf(c))
  {
    hide ReadySlots, Word64, Encode;
    ValidWorld(c);
    ghost var m := c.ram[..];
    var a := task + 8 * TASK_FLAGS;
    var flags := Klib.Load64(c.ram, a);
    var executable := if flags % 2 == 1 then flags else flags + 1;          // |= CAN_EXECUTE
    var result: Word := if on then executable else executable - 1;          // ^= CAN_EXECUTE
    assert result == flags / 2 * 2 + (if on then 1 else 0);
    Klib.Store64(c.ram, a, result);
    Put64Same(m, a, result);
    ValidWorld(c);
  }

  /** src/scheduler.c `suspend`: the given task, or the current one for a null pointer;
      then yields. */
  method Suspend(c: Cpu, task: nat, scratch: Scratch) returns (ghost mid: World)
    requires c.Valid() && (task == 0 || task in c.tasks) && scratch.Fits()
    modifies c, c.ram
    ensures c.Valid()
    ensures Step(FixedOf(c), old(WorldOf(c)), Suspended(if task == 0 then old(c.current) else task), mid)
    ensures Step(FixedOf(c), mid, Switched(old(c.regs), c.regs, c.cr3), WorldOf(c))
    ensures var t := if task == 0 then old(c.current) else task; t != c.idle ==> c.current != t
  {
    hide Step, WorldOk, PickOf, CanExecute, Field, ReadyOf;
    var t := if task == 0 then c.current else task;
    ghost var w := WorldOf(c);
    SetCanExecute(c, t, false);
    mid := WorldOf(c);
    SuspendStops(FixedOf(c), w, t, mid);
    ghost var out := c.regs;
    Yield(c, scratch);
    if t != c.idle {
      NotPicked(FixedOf(c), mid, Switched(out, c.regs, c.cr3), WorldOf(c), t);
    }
  }

  /** A task that cannot execute is not switched to, unless it is the idle task. */
  lemma NotPicked(f: Fixed, w: World, e: Event, w': World, t: nat)
    requires Step(f, w, e, w') && e.Switched? && Field(w.mem, t, TASK_FLAGS) % 2 == 0 && t != f.idle
    ensures w'.current != t
  {
    hide Field, PickOf, ContextAt, OnlySave, PickedTask;
    SwitchLoadsPick(f, w, e, w');
  }

  method Resume(c: Cpu, task: nat)
    requires c.Valid() && task in c.tasks
    modifies c.ram
    ensures c.Valid() && Step(FixedOf(c), old(WorldOf(c)), Resumed(task), WorldOf(c))
  {
    SetCanExecute(c, task, true);
  }

  /** src/scheduler.c `make_task`: address space 0 stands for the kernel's. */
  method Make(c: Cpu, task: nat, stack: Word, entry: Word, arg: Word, space: Word, kernelSpace: Word, userMode: bool)
    requires c.Valid() && task in c.tasks
    modifies c.ram
    ensures c.Valid()
    ensures Step(FixedOf(c), old(WorldOf(c)),
                 Made(task, stack, entry, arg, if space != 0 then space else kernelSpace, userMode), WorldOf(c))
  {
    hide ReadySlots, Field, NewField, OnlyTask;
    ValidWorld(c);
    MakeTask(c.ram, task, stack, entry, arg, space, kernelSpace, userMode);
    ValidWorld(c);
  }

  // ----- what the steps mean -----

  /** A switch makes the task of the picked slot current, or the idle task for none. */
  lemma SwitchLoadsPick(f: Fixed, w: World, e: Event, w': World)
    requires Step(f, w, e, w') && e.Switched?
    ensures match PickOf(w)
            case Run(i) => i < |w.slots| && w'.current == w.slots[i].task && CanExecute(w.mem, w.slots[i])
            case Idle => w'.current == f.idle
  {
    hide CanExecute, ReadySlots, Select, OnlySave, ContextAt, PickedTask, TasksOk;
    PickIsLoaded(w.mem, w.slots, f.idle, CursorOf(w));
  }

  lemma ReadyIs(w: World, i: nat)
    requires i < |w.slots| == PRIORITIES + ROBINS
    ensures ReadyOf(w)[i] <==> w.slots[i].task != 0 && Field(w.mem, w.slots[i].task, TASK_FLAGS) % 2 == 1
  {
  }

  /** A suspended task cannot execute, from whatever slot; its other flags stay. */
  lemma SuspendStops(f: Fixed, w: World, t: nat, w': World)
    requires Step(f, w, Suspended(t), w')
    ensures var before, after := Field(w.mem, t, TASK_FLAGS), Field(w'.mem, t, TASK_FLAGS);
            after % 2 == 0 && after / 2 == before / 2
    ensures forall i :: 0 <= i < |w'.slots| && w'.slots[i].task == t ==> !ReadyOf(w')[i]
  {
    hide ReadyOf, Field, TasksOk;
    forall i | 0 <= i < |w'.slots| && w'.slots[i].task == t ensures !ReadyOf(w')[i] {
      ReadyIs(w', i);
    }
  }

  /** A resumed task can, from every slot that holds it; its other flags stay. */
  lemma ResumeStarts(f: Fixed, w: World, t: nat, w': World)
    requires Step(f, w, Resumed(t), w')
    ensures var before, after := Field(w.mem, t, TASK_FLAGS), Field(w'.mem, t, TASK_FLAGS);
            after % 2 == 1 && after / 2 == before / 2
    ensures forall i :: 0 <= i < |w'.slots| && w'.slots[i].task == t ==> ReadyOf(w')[i]
  {
    hide ReadyOf, Field, TasksOk;
    forall i | 0 <= i < |w'.slots| && w'.slots[i].task == t ensures ReadyOf(w')[i] {
      TaskNotNull(f, w', t);
      ReadyIs(w', i);
    }
  }

  /** So can a task just made. */
  lemma MakeStarts(f: Fixed, w: World, e: Event, w': World)
    requires Step(f, w, e, w') && e.Made?
    ensures forall i :: 0 <= i < |w'.slots| && w'.slots[i].task == e.task ==> ReadyOf(w')[i]
  {
    hide ReadyOf, Field, TasksOk, OnlyTask;
    forall i | 0 <= i < |w'.slots| && w'.slots[i].task == e.task ensures ReadyOf(w')[i] {
      assert Field(w'.mem, e.task, TASK_FLAGS) == CAN_EXECUTE;
      TaskNotNull(f, w', e.task);
      ReadyIs(w', i);
    }
  }

  lemma TaskNotNull(f: Fixed, w: World, t: nat)
    requires WorldOk(f, w) && t in f.tasks
    ensures t != 0
  {
  }

  // ----- register files over runs -----

  ghost function NewContext(before: Context, e: Event): Context
    requires e.Made?
  {
    seq(REGISTERS, i requires 0 <= i < REGISTERS =>
      NewField(i, e.stack, e.entry, e.arg, e.space, e.userMode, before[i]))
  }

  /** What the history says the registers of task `t` are after `k` events: those it
      was last switched out with, or was made with, or had in its structure at first. */
  ghost function LastContext(ws: seq<World>, es: seq<Event>, t: nat, k: nat): Context
    requires |ws| == |es| + 1 && k <= |es|
    decreases k
  {
    if k == 0 then ContextAt(ws[0].mem, t)
    else
      var before := LastContext(ws, es, t, k - 1);
      match es[k - 1]
      case Switched(out, _, _) => if ws[k - 1].current == t then out else before
      case Made(u, _, _, _, _, _) => if u == t then NewContext(before, es[k - 1]) else before
      case _ => before
  }

  /** An event leaves the saved registers of a task alone unless it saves or makes it. */
  lemma ContextStep(f: Fixed, w: World, e: Event, w': World, t: nat)
    requires Step(f, w, e, w') && t in f.tasks
    requires e.Switched? ==> w.current != t
    ensures ContextAt(w'.mem, t) ==
            if e.Made? && e.task == t then NewContext(ContextAt(w.mem, t), e) else ContextAt(w.mem, t)
  {
    hide Word64, ReadySlots, Select, PickedTask;
    if e.Worked? {
      forall i | 0 <= i < REGISTERS ensures Field(w'.mem, t, i) == Field(w.mem, t, i) {
        SameBytesSameWord(w.mem, w'.mem, t + 8 * i);
      }
    } else if !(e.Made? && e.task == t) {
      var u := if e.Switched? then w.current else if e.Scheduled? then t else e.task;
      assert u == t || Apart(t, TASK_SIZE, u, TASK_SIZE);
      forall i | 0 <= i < REGISTERS ensures Field(w'.mem, t, i) == Field(w.mem, t, i) {
        SameBytesSameWord(w.mem, w'.mem, t + 8 * i);
      }
    }
  }

  lemma {:induction false} ContextsKept(f: Fixed, ws: seq<World>, es: seq<Event>, t: nat, k: nat)
    requires IsRun(f, ws, es) && k <= |es| && t in f.tasks && t != ws[k].current
    ensures ContextAt(ws[k].mem, t) == LastContext(ws, es, t, k)
  {
    hide ContextAt, NewContext, OnlySave, OnlyTask, SameTasks, FlagsBecome, Field, WorldOk, PickedTask;
    if k > 0 {
      var e := es[k - 1];
      assert Step(f, ws[k - 1], e, ws[k]);
      if !(e.Switched? && ws[k - 1].current == t) {
        ContextsKept(f, ws, es, t, k - 1);
        ContextStep(f, ws[k - 1], e, ws[k], t);
      }
    }
  }

  /** Context switching preserves every task's registers: in any run, the registers a
      task is switched in with are those the history gives it. */
  lemma RegistersPreserved(f: Fixed, ws: seq<World>, es: seq<Event>, k: nat)
    requires IsRun(f, ws, es) && k < |es| && es[k].Switched?
    ensures es[k].loaded == LastContext(ws, es, ws[k + 1].current, k + 1)
  {
    hide ContextAt, NewContext, OnlySave, OnlyTask, SameTasks, FlagsBecome, Field, PickedTask, LastContext;
    var t := ws[k + 1].current;
    assert Step(f, ws[k], es[k], ws[k + 1]);
    assert LastContext(ws, es, t, k + 1) ==
           if ws[k].current == t then es[k].out else LastContext(ws, es, t, k) by { UnfoldLast(ws, es, t, k); }
    if t != ws[k].current {
      ContextsKept(f, ws, es, t, k);
      ContextStep(f, ws[k], es[k], ws[k + 1], t);
    }
  }

  lemma UnfoldLast(ws: seq<World>, es: seq<Event>, t: nat, k: nat)
    requires |ws| == |es| + 1 && k < |es| && es[k].Switched?
    ensures LastContext(ws, es, t, k + 1) == if ws[k].current == t then es[k].out else LastContext(ws, es, t, k)
  {
  }

  /** The idle task, current at boot with an empty structure, is never switched in
      before it has been switched out. */
  lemma {:induction false} IdleSavedFirst(f: Fixed, ws: seq<World>, es: seq<Event>, k: nat)
    requires IsRun(f, ws, es) && k < |es| && ws[0].current == f.idle
    requires es[k].Switched?
    ensures exists j :: 0 <= j <= k && es[j].Switched? && ws[j].current == f.idle
  {
    hide WorldOk, OnlySave, OnlyTask, SameTasks, FlagsBecome, PickedTask, ContextAt;
    var j := 0;
    while !es[j].Switched?
      invariant 0 <= j <= k && ws[j].current == f.idle
      decreases k - j
    {
      assert Step(f, ws[j], es[j], ws[j + 1]);
      j := j + 1;
    }
  }

  /** The address space of task `t` after `k` events: the one it was last made with. */
  ghost function LastSpace(ws: seq<World>, es: seq<Event>, t: nat, k: nat): Word
    requires |ws| == |es| + 1 && k <= |es|
    decreases k
  {
    if k == 0 then Field(ws[0].mem, t, ADDRESS_SPACE)
    else
      match es[k - 1]
      case Made(u, _, _, _, space, _) => if u == t then space else LastSpace(ws, es, t, k - 1)
      case _ => LastSpace(ws, es, t, k - 1)
  }

  lemma SpaceStep(f: Fixed, w: World, e: Event, w': World, t: nat)
    requires Step(f, w, e, w') && t in f.tasks
    ensures Field(w'.mem, t, ADDRESS_SPACE) ==
            if e.Made? && e.task == t then e.space else Field(w.mem, t, ADDRESS_SPACE)
  {
    hide Word64, ReadySlots, Select, PickedTask, ContextAt;
    if e.Worked? {
      SameBytesSameWord(w.mem, w'.mem, t + 8 * ADDRESS_SPACE);
    } else if !(e.Made? && e.task == t) {
      var u := if e.Switched? then w.current else if e.Scheduled? then t else e.task;
      assert u == t || Apart(t, TASK_SIZE, u, TASK_SIZE);
      SameBytesSameWord(w.mem, w'.mem, t + 8 * ADDRESS_SPACE);
    }
  }

  lemma {:induction false} SpacesKept(f: Fixed, ws: seq<World>, es: seq<Event>, t: nat, k: nat)
    requires IsRun(f, ws, es) && k <= |es| && t in f.tasks
    ensures Field(ws[k].mem, t, ADDRESS_SPACE) == LastSpace(ws, es, t, k)
  {
    hide Step, Field, WorldOk;
    if k > 0 {
      SpacesKept(f, ws, es, t, k - 1);
      SpaceStep(f, ws[k - 1], es[k - 1], ws[k], t);
    }
  }

  /** A task made at event `a` and then switched in for the first time starts as it was
      made: in the mode asked for, at its entry point, on its stack, with its argument, in
      its address space. */
  lemma MadeIsEntered(f: Fixed, ws: seq<World>, es: seq<Event>, a: nat, k: nat)
    requires IsRun(f, ws, es) && a < k < |es| && es[a].Made? && es[k].Switched? && ws[k + 1].current == es[a].task
    requires forall j :: a < j <= k ==> !(es[j].Made? && es[j].task == es[a].task)
    requires forall j :: a < j <= k && es[j].Switched? ==> ws[j].current != es[a].task
    ensures var ctx := es[k].loaded;
      && Descriptors.RunsAt(ctx[CS], ctx[SS], ctx[RFLAGS], if es[a].userMode then 3 else 0)
      && ctx[RIP] == es[a].entry && ctx[RSP] == es[a].stack && ctx[RDI] == es[a].arg && es[k].space == es[a].space
  {
    hide IsRun, NewContext, LastContext, LastSpace, Descriptors.RunsAt;
    RegistersPreserved(f, ws, es, k);
    SpacePreserved(f, ws, es, k);
    assert |ws| == |es| + 1 by { RunSize(f, ws, es); }
    SinceMade(ws, es, a, k + 1);
    NewContextRuns(LastContext(ws, es, es[a].task, a), es[a]);
  }

  lemma RunSize(f: Fixed, ws: seq<World>, es: seq<Event>)
    requires IsRun(f, ws, es)
    ensures |ws| == |es| + 1
  {
  }

  lemma {:induction false} SinceMade(ws: seq<World>, es: seq<Event>, a: nat, k: nat)
    requires |ws| == |es| + 1 && a < k <= |es| && es[a].Made?
    requires forall j :: a < j < k ==> !(es[j].Made? && es[j].task == es[a].task)
    requires forall j :: a < j < k && es[j].Switched? ==> ws[j].current != es[a].task
    ensures LastContext(ws, es, es[a].task, k) == NewContext(LastContext(ws, es, es[a].task, a), es[a])
    ensures LastSpace(ws, es, es[a].task, k) == es[a].space
    decreases k
  {
    hide NewContext;
    if k > a + 1 {
      SinceMade(ws, es, a, k - 1);
    }
  }

  lemma NewContextRuns(before: Context, e: Event)
    requires e.Made?
    ensures var ctx := NewContext(before, e);
      && Descriptors.RunsAt(ctx[CS], ctx[SS], ctx[RFLAGS], if e.userMode then 3 else 0)
      && ctx[RIP] == e.entry && ctx[RSP] == e.stack && ctx[RDI] == e.arg
  {
    NewTaskRuns(e.stack, e.entry, e.arg, e.space, e.userMode, 0);
  }

  /** A switch always enters the address space the task was made with. */
  lemma SpacePreserved(f: Fixed, ws: seq<World>, es: seq<Event>, k: nat)
    requires IsRun(f, ws, es) && k < |es| && es[k].Switched?
    ensures es[k].space == LastSpace(ws, es, ws[k + 1].current, k + 1)
  {
    hide ContextAt, OnlySave, Field, PickedTask, LastSpace;
    assert Step(f, ws[k], es[k], ws[k + 1]);
    SpacesKept(f, ws, es, ws[k + 1].current, k + 1);
  }

  // ----- suspended tasks -----

  /** Only resuming or making a task sets its flag. */
  lemma FlagStaysClear(f: Fixed, w: World, e: Event, w': World, t: nat)
    requires Step(f, w, e, w') && t in f.tasks && Field(w.mem, t, TASK_FLAGS) % 2 == 0
    requires !(e.Resumed? && e.task == t) && !(e.Made? && e.task == t)
    ensures Field(w'.mem, t, TASK_FLAGS) % 2 == 0
  {
    hide Word64, ReadySlots, Select, PickedTask, ContextAt;
    if e.Worked? {
      SameBytesSameWord(w.mem, w'.mem, t + 8 * TASK_FLAGS);
    } else if !(e.Suspended? && e.task == t) {
      var u := if e.Switched? then w.current else if e.Scheduled? then t else e.task;
      assert u == t || Apart(t, TASK_SIZE, u, TASK_SIZE);
      SameBytesSameWord(w.mem, w'.mem, t + 8 * TASK_FLAGS);
    }
  }

  /** Whatever else happens, a task whose flag is clear is not picked until it is resumed
      or made anew. */
  lemma {:induction false} ClearedNeverRuns(f: Fixed, ws: seq<World>, es: seq<Event>, a: nat, k: nat, t: nat)
    requires IsRun(f, ws, es) && a <= k < |es| && t in f.tasks && t != f.idle
    requires Field(ws[a].mem, t, TASK_FLAGS) % 2 == 0
    requires forall j :: a <= j <= k ==> !(es[j].Resumed? && es[j].task == t) && !(es[j].Made? && es[j].task == t)
    ensures Field(ws[k].mem, t, TASK_FLAGS) % 2 == 0
    ensures es[k].Switched? ==> ws[k + 1].current != t
    decreases k
  {
    hide Field, ContextAt, OnlySave, OnlyTask, SameTasks, FlagsBecome, Select;
    if a < k {
      ClearedNeverRuns(f, ws, es, a, k - 1, t);
      assert Step(f, ws[k - 1], es[k - 1], ws[k]);
      FlagStaysClear(f, ws[k - 1], es[k - 1], ws[k], t);
    }
    assert Step(f, ws[k], es[k], ws[k + 1]);
    PickedReady(ws[k].mem, ws[k].slots, Wrap(ws[k].round));
  }

  /** So a task suspended at event `a` is not picked again until it is resumed or made
      anew, whatever slots it is in and whatever else happens. */
  lemma SuspendedNeverRuns(f: Fixed, ws: seq<World>, es: seq<Event>, a: nat, k: nat, t: nat)
    requires IsRun(f, ws, es) && a < k < |es| && t != f.idle && es[a] == Suspended(t)
    requires forall j :: a < j <= k ==> !(es[j].Resumed? && es[j].task == t) && !(es[j].Made? && es[j].task == t)
    ensures es[k].Switched? ==> ws[k + 1].current != t
  {
    hide Step, ReadyOf, Field;
    assert Step(f, ws[a], es[a], ws[a + 1]);
    SuspendStops(f, ws[a], t, ws[a + 1]);
    StepTask(f, ws[a], t, ws[a + 1]);
    ClearedNeverRuns(f, ws, es, a + 1, k, t);
  }

  lemma StepTask(f: Fixed, w: World, t: nat, w': World)
    requires Step(f, w, Suspended(t), w')
    ensures t in f.tasks
  {
  }

  // ----- waiting -----

  lemma CursorMoves(w: World, w': World)
    requires w'.round == NextRound(PickOf(w), w.round) && 0 <= w.round <= ROBINS
    ensures CursorOf(w') == NextCursor(ReadyOf(w), CursorOf(w))
  {
    hide ReadyOf;
    SelectionIs(ReadyOf(w), CursorOf(w));
  }

  /** Picks of any slot among the switches from event `a` up to `b`. */
  ghost function PicksMade(ws: seq<World>, es: seq<Event>, a: nat, b: nat): nat
    requires a <= b <= |es| == |ws| - 1
    decreases b - a
  {
    if a == b then 0
    else (if es[a].Switched? && PickOf(ws[a]).Run? then 1 else 0) + PicksMade(ws, es, a + 1, b)
  }

  /** A switch finds robin `t` ready and no priority slot ready, and picks another. */
  ghost predicate PassedOver(w: World, t: Cursor) {
    NoPriority(ReadyOf(w)) && RobinReady(ReadyOf(w), t) && PickOf(w) != Run(PRIORITIES + t)
  }

  /** Bounded waiting in any run: while round-robin slot `t` is passed over at every
      switch, at most 127 other picks happen. */
  lemma {:induction false} WaitIsBounded(f: Fixed, ws: seq<World>, es: seq<Event>, a: nat, b: nat, t: Cursor)
    requires IsRun(f, ws, es) && a <= b <= |es|
    requires forall j :: a <= j < b && es[j].Switched? ==> PassedOver(ws[j], t)
    ensures PicksMade(ws, es, a, b) <= Distance(CursorOf(ws[a]), t) <= WINDOW
    decreases b - a
  {
    hide ReadyOf, CursorOf, Distance, Select, NextCursor, NextRound;
    hide OnlySave, OnlyTask, SameTasks, FlagsBecome, ContextAt, PickedTask, TasksOk;
    if a < b {
      assert Step(f, ws[a], es[a], ws[a + 1]);
      WaitIsBounded(f, ws, es, a + 1, b, t);
      if es[a].Switched? {
        assert PassedOver(ws[a], t);
        OneSelection(ReadyOf(ws[a]), CursorOf(ws[a]), t);
        CursorMoves(ws[a], ws[a + 1]);
      } else {
        assert CursorOf(ws[a + 1]) == CursorOf(ws[a]) by { SameRound(ws[a], ws[a + 1]); }
      }
    }
  }

  lemma SameRound(w: World, w': World)
    requires w'.round == w.round
    ensures CursorOf(w') == CursorOf(w)
  {
  }

  // ----- when a waiting robin is served -----

  /** The ready sets and the picks of the switches from event `a` up to `b`. */
  ghost function ReadyAtSwitches(ws: seq<World>, es: seq<Event>, a: nat, b: nat): seq<Ready>
    requires a <= b <= |es| == |ws| - 1
    decreases b - a
  {
    if a == b then [] else (if es[a].Switched? then [ReadyOf(ws[a])] else []) + ReadyAtSwitches(ws, es, a + 1, b)
  }

  ghost function PicksAtSwitches(ws: seq<World>, es: seq<Event>, a: nat, b: nat): seq<Pick>
    requires a <= b <= |es| == |ws| - 1
    decreases b - a
  {
    if a == b then [] else (if es[a].Switched? then [PickOf(ws[a])] else []) + PicksAtSwitches(ws, es, a + 1, b)
  }

  /** The switches of a run are consecutive calls of the scheduler, whatever happens
      between them. */
  lemma {:induction false} SwitchesPick(f: Fixed, ws: seq<World>, es: seq<Event>, a: nat, b: nat)
    requires IsRun(f, ws, es) && a <= b <= |es|
    ensures PicksAtSwitches(ws, es, a, b) == Picks(ReadyAtSwitches(ws, es, a, b), CursorOf(ws[a]))
    decreases b - a
  {
    hide ReadyOf, CursorOf, PickOf, Select, NextCursor, NextRound, Step;
    if a < b {
      assert Step(f, ws[a], es[a], ws[a + 1]);
      SwitchesPick(f, ws, es, a + 1, b);
      CursorStep(f, ws[a], es[a], ws[a + 1]);
      var rs := ReadyAtSwitches(ws, es, a, b);
      if es[a].Switched? {
        assert rs[0] == ReadyOf(ws[a]) && rs[1..] == ReadyAtSwitches(ws, es, a + 1, b);
      } else {
        assert rs == ReadyAtSwitches(ws, es, a + 1, b);
      }
    }
  }

  /** A switch moves the cursor as the selection says; nothing else does. */
  lemma CursorStep(f: Fixed, w: World, e: Event, w': World)
    requires Step(f, w, e, w')
    ensures CursorOf(w') == if e.Switched? then NextCursor(ReadyOf(w), CursorOf(w)) else CursorOf(w)
    ensures PickOf(w) == Select(ReadyOf(w), CursorOf(w))
  {
    hide ReadyOf, Select, NextCursor, NextRound;
    hide OnlySave, OnlyTask, SameTasks, FlagsBecome, ContextAt, PickedTask, TasksOk;
    if e.Switched? { CursorMoves(w, w'); } else { SameRound(w, w'); }
  }

  lemma {:induction false} PickAtSwitch(ws: seq<World>, es: seq<Event>, a: nat, b: nat, pick: Pick) returns (j: nat)
    requires a <= b <= |es| == |ws| - 1 && pick in PicksAtSwitches(ws, es, a, b)
    ensures a <= j < b && es[j].Switched? && PickOf(ws[j]) == pick
    decreases b - a
  {
    hide ReadyOf, CursorOf, Select;
    if es[a].Switched? && PickOf(ws[a]) == pick {
      j := a;
    } else {
      j := PickAtSwitch(ws, es, a + 1, b, pick);
    }
  }

  /** Robin `t` is ready at every switch from `a` up to `b`, and no priority slot is. */
  ghost predicate WaitsFrom(ws: seq<World>, es: seq<Event>, a: nat, b: nat, t: Cursor)
    requires b <= |es| == |ws| - 1
  {
    forall j :: a <= j < b && es[j].Switched? ==> NoPriority(ReadyOf(ws[j])) && RobinReady(ReadyOf(ws[j]), t)
  }

  lemma {:induction false} WaitingAtSwitches(ws: seq<World>, es: seq<Event>, a: nat, b: nat, t: Cursor)
    requires a <= b <= |es| == |ws| - 1 && WaitsFrom(ws, es, a, b, t)
    ensures Waiting(ReadyAtSwitches(ws, es, a, b), t)
    decreases b - a
  {
    hide ReadyOf, NoPriority, RobinReady;
    if a < b {
      WaitingAtSwitches(ws, es, a + 1, b, t);
    }
  }

  /** In any run a waiting robin is picked, provided it is inside the window at first and
      there are as many switches, or some switch finds another robin ready and a round
      of switches follows. */
  lemma ServedInRun(f: Fixed, ws: seq<World>, es: seq<Event>, a: nat, b: nat, t: Cursor)
    requires IsRun(f, ws, es) && a <= b <= |es| && WaitsFrom(ws, es, a, b, t)
    requires var rs, d := ReadyAtSwitches(ws, es, a, b), Distance(CursorOf(ws[a]), t);
             (d < WINDOW && d < |rs|) || exists i :: 0 <= i && i + ROBINS <= |rs| && Others(rs[i], t)
    ensures exists j :: a <= j < b && es[j].Switched? && PickOf(ws[j]) == Run(PRIORITIES + t)
                        && |ws[j].slots| == PRIORITIES + ROBINS
                        && ws[j + 1].current == ws[j].slots[PRIORITIES + t].task
  {
    assert |es| == |ws| - 1;
    hide IsRun, ReadyOf, CursorOf, Distance, Select, Others, Waiting, WaitsFrom;
    var rs, c := ReadyAtSwitches(ws, es, a, b), CursorOf(ws[a]);
    SwitchesPick(f, ws, es, a, b);
    WaitingAtSwitches(ws, es, a, b, t);
    if Distance(c, t) < WINDOW && Distance(c, t) < |rs| {
      ServedWithin(rs, c, t);
    } else {
      var i :| 0 <= i && i + ROBINS <= |rs| && Others(rs[i], t);
      ServedAfterOther(rs, c, t, i);
    }
    var j := PickAtSwitch(ws, es, a, b, Run(PRIORITIES + t));
    SwitchInRun(f, ws, es, j);
  }

  lemma SwitchInRun(f: Fixed, ws: seq<World>, es: seq<Event>, j: nat)
    requires IsRun(f, ws, es) && j < |es| && es[j].Switched?
    ensures |ws[j].slots| == PRIORITIES + ROBINS
    ensures PickOf(ws[j]).Run? ==> PickOf(ws[j]).slot < |ws[j].slots|
                                   && ws[j + 1].current == ws[j].slots[PickOf(ws[j]).slot].task
  {
    hide OnlySave, OnlyTask, SameTasks, FlagsBecome, ContextAt, PickedTask, TasksOk, PickOf, CanExecute;
    assert Step(f, ws[j], es[j], ws[j + 1]);
    SwitchLoadsPick(f, ws[j], es[j], ws[j + 1]);
  }

  /** Just before the cursor and ready alone at every switch, it is never picked: each of
      them loads the idle task. */
  lemma {:induction false} StarvesInRun(f: Fixed, ws: seq<World>, es: seq<Event>, a: nat, b: nat, t: Cursor)
    requires IsRun(f, ws, es) && a <= b <= |es| && WaitsFrom(ws, es, a, b, t)
    requires Distance(CursorOf(ws[a]), t) == WINDOW
    requires forall j :: a <= j < b && es[j].Switched? ==> !Others(ReadyOf(ws[j]), t)
    ensures forall j :: a <= j < b && es[j].Switched? ==> PickOf(ws[j]) == Idle && ws[j + 1].current == f.idle
    decreases b - a
  {
    hide ReadyOf, CursorOf, Distance, Select, Others, NextCursor, NextRound, NoPriority, RobinReady, TasksOk;
    hide OnlySave, OnlyTask, SameTasks, FlagsBecome, ContextAt;
    if a < b {
      assert Step(f, ws[a], es[a], ws[a + 1]);
      if es[a].Switched? {
        var r, c := ReadyOf(ws[a]), CursorOf(ws[a]);
        assert Waiting([r], t);
        NeverServed([r], c, t);
        assert Picks([r], c)[0] == Select(r, c);
        OneSelection(r, c, t);
        CursorMoves(ws[a], ws[a + 1]);
      } else {
        SameRound(ws[a], ws[a + 1]);
      }
      StarvesInRun(f, ws, es, a + 1, b, t);
    }
  }
}
