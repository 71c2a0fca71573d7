# metal-to-app: verified model

A Dafny 4.11 model of the kernel's core, with proofs. `dafny verify dfyconfig.toml`
checks everything.

**Virtual memory.** Physical memory is a sequence of bytes; page-table entries, free-list
links and task fields are little-endian words in it (`Bytes`). `Paging` defines what the
processor does with such memory (4-level paging, Intel SDM volume 3A, section 4.5: 1G and
2M pages, rights combined by AND), independently of the kernel. `Machines.Machine` holds the
RAM and the allocator's globals. `Ownership` states the invariant: every frame in use has
one role, and a page table below a root names the single entry that points to it, so the
tables of all address spaces form a forest. `Frame`, `Radix`, `Population`, `Accounting`,
`AddressSpace`, `KernelSpace`, `UserMemory`, `Elf` and `Userspace` follow the C files and prove
each against the processor's walk and down to the exact number of frames; `Multiboot` chooses
the allocator's region at boot. `KernelRuns` is about whole runs of allocations, frees, stores,
new address spaces, maps and unmaps in any order, and proves that the page tables implement the
map those operations describe. Loading files and creating processes are such runs (`Reaches` in
their contracts), so all that holds of every reachable state holds of the kernel's own.

**Scheduling.** `Selection` is the choice of a slot and its fairness, `Cpus` the scheduler's
state and scanning loops, `Switch` the assembly task switch push by push, `Dispatch` whole
runs of switches mixed with schedule, suspend, resume, task creation and whatever code runs in
between. `KernelMain` joins both halves: from the boot loader's memory to the first process
running in user mode.

**Formats.** `Layouts` defines packed structures; `ElfFiles` the ELF-64 headers and what a program
sees of such a file, `Multiboot` the boot information and memory map, `Descriptors` the segments
and flags that decide at which privilege a task runs.

**Keyboard.** `Scancodes` is the byte-fed scan code decoder with its drain loop, and the
message-wise meaning it is proved to have; `Keys` lists the key codes.

The methods are imperative and change the machine in place. Their contracts speak of the
snapshot `Machine.S()` before and after, through relations such as `Extends` (owned frames
keep their roles, data frames and foreign memory their bytes), `Remapped` (exactly one page
changed its translation), `Spent` (exactly these pages were paid for) and `Runs` (a process sees
exactly its program). `ok == false` in a method's result is where the kernel panics; the
contracts say exactly when that happens, and that no frame is left then.

What the kernel is taken to rely on: physical memory of at most 512G, the region above
address 0; the boot loader's data, ELF files and command lines in memory that is neither the
allocator's region nor a static page table; ELF segments in the private half of an address
space (not under root entries 256 or 511), with file sizes below 2^63; command lines shorter
than a page; frames freed only by their owner and only if they hold no table; task structures
that overlap neither each other nor the 2M stack of the linker script, and that only the
scheduler's functions write.

Things the proofs show about the code that a reader might not expect:

- A ready round-robin task is ever picked exactly if it is not in the slot just before the
  cursor, which the scan leaves out, or another one becomes ready (`ServedIff`, `ServedInRun`,
  `StarvesInRun`). At boot a task alone in the first slot runs once and never again, one alone
  in the last slot never runs (`BootStarves`).
- `load_elf` gives every page it touches a fresh zeroed frame, so a segment that shares a
  page with an earlier one wipes the earlier one's bytes there; segments all survive exactly
  when no two share a page (`KeptIffDisjoint`, `SharedPageLost`, `SharedPageExample`).
- The allocator stops only where its bump pointer meets the end exactly, so a largest memory
  record that ends below the kernel image makes it hand out frames outside the record, and
  nothing but such frames (`FirstInsideIff`, `AllocInverted`, `LowMemoryInverts`).
- Left Alt and A produce the same key code; no other two keys do (`EventIdentifiesKey`).
- `munmap` creates missing tables on the way to a page that is not mapped, and so can panic.

## Model

| member | source | states |
|---|---|---|
| Klib.Memset | src/klib/memset.c:3-9 | the range holds the value, every other byte is unchanged |
| Klib.Memcpy | src/klib/memcpy.c:3-9 | the destination holds the source's old bytes, everything else is unchanged |
| Klib.Strlen | src/klib/strlen.c:3-11 | the distance to the first NUL |
| Paging.AddressOfPath | src/address_space.c:5-13 | the four table indices and the page offset identify a canonical address |
| Paging.PathOfAddress | src/address_space.c:5-13 | every choice of indices is the path of exactly one canonical page |
| Machines.LinearRoundTrip | src/memory.c:18-31 | pointerToLinearAddress inverts linearAddressToPtr exactly for 0 < a < 512G |
| Machines.PointerIff | src/memory.c:22-31 | the kernel converts exactly the pointers under root entry 256 and those of the 1G under entries 511 and 510, but for the first byte of each; it panics on any other |
| Ownership.Child | src/address_space.c:14-50 | in a valid state a present, non-big entry leads to a table in use one level down |
| Ownership.SameEntriesSameWalk | src/address_space.c:3-53 | translation depends on nothing but the entries of tables in use |
| Frame.AllocInRange | src/frame.c:28-41 | the next frame is aligned, inside the region and owned by nobody |
| Frame.AllocValid | src/frame.c:28-41 | an allocation keeps the free list, the partition and all tables valid and takes one frame |
| Frame.AllocZeroedValid | src/frame.c:48-53 | a zeroed allocation clears its frame and touches no other byte and no table entry |
| Frame.ClientWrite | src/frame.c:8-14 | writes by a frame's owner damage neither the links in free frames nor any table |
| Frame.DeallocValid | src/frame.c:55-60 | freeing keeps everything valid; the frame is the next one handed out |
| Frame.InitFrameAllocator | src/frame.c:20-27 | region bounds rounded inwards, free list empty |
| Frame.FrameAllocInternal | src/frame.c:28-41 | pops the list, else bumps, refining the abstract allocation; panics exactly when nothing is left |
| Frame.FrameAlloc | src/frame.c:43-46 | the physical address of the frame; the pointer conversion never panics |
| Frame.FrameAllocZero | src/frame.c:48-53 | refines the abstract zeroed allocation |
| Frame.FrameDealloc | src/frame.c:55-60 | links the frame through its own first word, refining the abstract free |
| KernelRuns.Perform | src/address_space.c:55-77 | every call of the allocator and address space functions that returns is a step of a run; one that does not is a panic with no frame left |
| KernelRuns.HarmlessKeeps | src/frame.c:8-14 | stores anywhere but in page tables and in the links of freed frames keep every invariant and every entry |
| KernelRuns.StepKeeps | src/address_space.c:55-77 | every operation, allocator or page table, keeps every invariant and all translations but those it sets |
| KernelRuns.FramesCounted | src/frame.c:16-60 | owned frames and frames that can still be handed out always add up to the region and the static tables |
| KernelRuns.EveryStateValid | src/frame.c:16-60 | in every state reached by allocations, frees, stores, new roots, maps and unmaps, each frame of the region is exactly one of owned, on the free list, never handed out, and frames are conserved |
| KernelRuns.TakenWasFree | src/frame.c:28-41 | whatever takes a frame, as data, table, root or page, takes an aligned free one of the region |
| KernelRuns.PanicIffExhausted | src/frame.c:36-39 | the allocator panics exactly when every frame of the region is owned |
| KernelRuns.NoDoubleHandout | src/frame.c:28-60 | between two uses of one frame, whatever for, there is a free of it |
| KernelRuns.FreedComesBack | src/frame.c:30-35 | freed frames come back last in, first out, and the list is then as before |
| KernelRuns.ReachesFilled | src/elf.c:10-18 | mapping a frame in hand, filling it and setting it aside for its page is a run |
| Radix.StopAtLeaf | src/address_space.c:14-52 | on the way to a private leaf all rights are granted, so the leaf alone decides |
| Radix.StopUnique | src/address_space.c:14-52 | a leaf entry belongs to one page of one address space, or to one page of the shared half |
| Radix.LeafWalk | src/address_space.c:55-71 | changing a leaf changes the translation of the pages that end there and of no other |
| Radix.LinkWalk | src/address_space.c:19-48 | linking an empty table changes no translation, from whatever table a walk starts |
| Radix.LinkValid | src/address_space.c:19-48 | linking keeps the forest of tables and every invariant |
| Radix.EntryDecides | src/address_space.c:55-71 | the entry resolve_pageentry finds decides that page alone, for every root at once |
| Radix.ThroughBigIff | src/address_space.c:14-50 | a walk ends in a private level-1 table exactly if its page is neither in the linear map nor in the kernel image |
| Radix.SharedHalf | src/memory.c:73-86 | everything under root entries 256 and 511 is the same through every root |
| Radix.RemapUndone | src/address_space.c:55-71 | munmap after mmap of an unmapped page restores every translation of every address space |
| Population.ReachUnique | src/address_space.c:14-52 | only pages with the same upper indices pass through a given table |
| Population.LinkMissing | src/address_space.c:19-48 | a new table saves one frame for the walks that come by it and none for others |
| Population.PopulatedLinked | src/address_space.c:19-48 | after a level is filled in, the tables any page still needs are those not shared with the walk |
| AddressSpace.WriteEntry | src/address_space.c:58-61 | the address and flags, set one by one, make the intended entry |
| AddressSpace.EnsureTable | src/address_space.c:19-24 | fills an absent entry with a zeroed table; panics exactly when it needs a frame and there is none |
| AddressSpace.GrowKeeps | src/address_space.c:19-48 | that costs one frame, keeps every translation of every root and every other entry |
| AddressSpace.DescendOne | src/address_space.c:14-26 | one level of the walk: stops at a big entry or enters the table below |
| AddressSpace.ResolvePageentry | src/address_space.c:3-53 | returns the entry at which the walk ends; keeps all translations; takes exactly the missing tables in frames and panics exactly when there are fewer |
| AddressSpace.ResolveEnds | src/address_space.c:3-53 | the walk that creates tables ends at an entry, keeps all translations and takes exactly the missing tables in frames |
| AddressSpace.MapPageEffect | src/address_space.c:55-71 | setting a page through that entry changes exactly that page, in this root or under entry 511 in all, and takes exactly the missing tables |
| AddressSpace.Mmap | src/address_space.c:55-62 | exactly that page becomes present, writable, with the requested user right, in this root or under entry 511 in all; later walks need exactly the tables they do not share |
| AddressSpace.Munmap | src/address_space.c:64-71 | returns the frame last mapped, 0 if none, and removes only that page; takes the missing tables in frames and panics exactly when there are fewer |
| AddressSpace.InitAddressSpace | src/memory.c:73-86 | an empty private half and the two shared entries |
| AddressSpace.NewRootEffect | src/address_space.c:73-77 | a new root joins the forest with nothing mapped; every earlier root translates as before |
| AddressSpace.CreateAddressSpace | src/address_space.c:73-77 | the same for the method; panics exactly when there is no frame |
| KernelSpace.LinearMapAgrees | src/memory.c:18-47 | in every address space the walk of linearAddressToPtr(a) is a for all a below 512G, writable, never user-accessible |
| KernelSpace.KernelImageAgrees | src/memory.c:41-68 | in every address space KERNEL_BASE + a maps to a for the first 32M, read-only from 2M to 16M, never user-accessible |
| KernelRuns.WalksAreTheMap | src/address_space.c:55-77 | after any run the walk of every page from every root is what the map built by the operations says |
| KernelRuns.KernelPageStays | src/memory.c:73-86 | a page of the kernel half means the same through every root, old or new, in every later state, until it is itself set |
| KernelRuns.KernelPageShared | src/memory.c:81-85 | a page mapped under entry 511 through one root is there through every root, past and future, until set again |
| KernelRuns.PrivatePageStays | src/address_space.c:55-71 | a private page keeps its meaning whatever is done to other pages and roots |
| KernelRuns.LinearMapAlways | src/memory.c:18-47 | in every reachable state, through every root, the linear map and the kernel image are in place and closed to user code |
| KernelRuns.UserPagesKeepKernel | src/address_space.c:55-71 | over any run that maps and unmaps private pages only, the kernel half of every root, old or new, stays as it was |
| KernelSpace.FillLinear | src/memory.c:35-40 | 512 writable supervisor 1G pages |
| KernelSpace.FillPdt | src/memory.c:41-47 | a single entry, 510, to the image directory |
| KernelSpace.FillPd | src/memory.c:49-65 | 16 supervisor 2M pages, the first and the upper eight writable |
| KernelSpace.CreateKernelAddressSpace | src/memory.c:33-71 | the four static tables hold exactly this, other memory is unchanged |
| KernelSpace.BootValid | src/memory.c:33-71 | with a usable region that is a valid state with the whole region free |
| UserMemory.PageFilled | src/elf.c:10-18 | allocation, mapping and copy together fill one page and leave every other translation and byte alone |
| UserMemory.FillPage | src/elf.c:10-18 | the same for the method, with its exact cost in frames |
| Elf.IterationContent | src/elf.c:7-18 | what an iteration copies is what the segment wants in that page, whatever the alignment and sizes |
| Elf.ProgressStep | src/elf.c:6-21 | the loop's variables stay those of the segment's unread rest, and the loop ends at its last page |
| Accounting.SpentTransitive | src/elf.c:6-21 | lists of pages filled one after another cost what the joined list costs |
| Accounting.CostIs | src/address_space.c:19-48 | from any state, filling pages costs a frame a page and one for each distinct table on the way that was lacking, in whatever order |
| Accounting.FreshCost | src/address_space.c:19-48 | from a fresh root every table on the way is lacking |
| Elf.CopySection | src/elf.c:5-22 | every page touched holds file bytes, then zeros; nothing else changes; from any state it takes exactly the cost of its pages and panics exactly when that is more than there is |
| Elf.SpanCost | src/elf.c:6-21 | a run of pages costs, page by page, the page and those of its missing tables the page before did not need |
| Elf.FreshSpanCost | src/elf.c:6-21 | where no table of the range exists yet, that is the closed form: pages plus distinct 2M, 1G and 512G slots |
| Elf.CostStep | src/elf.c:6-21 | the closed-form cost (pages plus distinct 2M, 1G and 512G slots) grows by the page and the tables not shared with the last page |
| Elf.KeptIffDisjoint | src/elf.c:30-47 | every segment has the last word on all its pages exactly when no two segments share a page |
| Elf.EverySegmentSeen | src/elf.c:30-47 | with disjoint pages the program reads every byte of every segment |
| Elf.TouchedIs | src/elf.c:6-21 | the pages a segment touches are exactly those that overlap it |
| Layouts.ReadItem | src/elf.c:26-41 | a field of a packed structure is read back at the sum of the widths before it |
| ElfFiles.FileHeaderRead | src/elf.c:26-31 | of a file with an ELF-64 header the loader reads the entry point and finds every program header |
| ElfFiles.ProgramHeaderRead | src/elf.c:32-43 | of a program header it reads the type, file offset, address, file size and memory size |
| ElfFiles.SegmentsRead | src/elf.c:30-47 | the segments it loads are those of the headers of type 1, in order |
| ElfFiles.FileSeen | src/elf.c:24-49 | if the pages of these headers are disjoint, the loaded file is seen as they say: file bytes, then zeros |
| ElfFiles.ProcessSeesFile | src/userspace.c:33-47 | so it is by a process made from it, which starts at the file's entry point |
| ElfFiles.ZeroedTail | src/elf.c:6-21 | 0x200 bytes of a file in 0x3000 bytes of memory: the rest is zero |
| Elf.SharedPageLost | src/elf.c:10-11 | on a shared page the earlier segment's bytes are gone and read as 0 |
| Elf.SharedPageExample | src/elf.c:10-11 | two half-page segments at 0x400000 and 0x400800: the first is read as zeros |
| Elf.OrderIrrelevant | src/elf.c:30-47 | disjoint segments give the same image in any header order |
| Elf.LoadHeader | src/elf.c:32-46 | a loadable header adds its segment to the image and its pages to the cost, any other header does nothing |
| Elf.LoadElf | src/elf.c:24-49 | every page some segment touches holds what the last such segment wants; the entry point is returned; nothing else changes; it takes exactly the cost of all pages and panics exactly when that is more than there is |
| Tasks.MakeTask | src/scheduler.c:25-42 | exactly the eight fields it sets, all other bytes unchanged |
| Descriptors.OnlySelectors | src/arch/x86_64/gdt.c:88-97 | one selector each leads to kernel code, kernel data, user code and user data |
| Tasks.NewTaskRuns | src/scheduler.c:33-40 | a user task runs at privilege 3 and any other at 0, interruptible and without port access, at its entry point, on its stack, with its argument in rdi; no other register is set |
| Userspace.ArgumentFits | src/userspace.c:42-44 | room for the string and its NUL, 16-byte aligned, inside the stack page exactly below 4096 characters |
| Userspace.LoadProgram | src/userspace.c:35-36 | the image in a fresh address space, all earlier ones as before, with its exact cost and panic condition |
| Userspace.MakeStack | src/userspace.c:37-44 | the stack page holds the command line, the task frame is fresh and zero, nothing else changes; exact cost and panic condition |
| Userspace.CopyArguments | src/userspace.c:42-44 | the string ends within its padding below the top of the stack frame |
| Userspace.ProcessMade | src/userspace.c:33-47 | image, stack and task together are the process the program asks for |
| Userspace.CostOfProgram | src/userspace.c:33-47 | what a process costs is a root, a task, its pages and the distinct tables that lead to them |
| Userspace.MakeUserspaceProcess | src/userspace.c:33-47 | the new process runs its program; all earlier address spaces translate, and their frames read, as before; it takes exactly that cost and panics exactly when there are fewer frames |
| Userspace.RunsKept | src/userspace.c:33-47 | a process is untouched by whatever keeps its translations and owned frames |
| Userspace.ImageSeen | src/userspace.c:35-36 | user code reads its own file's bytes in every segment page but the stack's |
| Userspace.CommandLineSeen | src/userspace.c:41-45 | user code finds its NUL-terminated command line at the 16-byte-aligned address in RSP and rdi |
| Userspace.Isolated | src/userspace.c:33-47 | no frame is reachable from the private halves of two processes |
| Userspace.UserReadsOwn | src/userspace.c:33-47 | whatever address a process reads, in either half, is in a page frame of its own |
| Userspace.NothingShared | src/userspace.c:33-47 | two processes share no frame they can read, whatever addresses they use |
| Userspace.StartProcesses | src/main.c:56-59 | after any number of creations every process still runs its own program; all are made exactly if their costs add up to no more than there is, else as many as that allows |
| Multiboot.BiggestMap | src/arch/x86_64/multiboot.c:27-44 | the walk ends and finds the first longest available record, if any |
| Multiboot.MapRead | src/arch/x86_64/multiboot.h:6-11 | the walk over a memory map sees exactly its records, whatever their sizes, and of each its base, length and type |
| Multiboot.InfoRead | src/arch/x86_64/multiboot.h:21-32 | it starts and ends where the boot information says |
| Multiboot.ChosenRecord | src/arch/x86_64/multiboot.c:27-44 | the record chosen is the first of the longest of type 1 among those the boot loader described |
| Multiboot.SetupFrameAllocator | src/arch/x86_64/multiboot.c:8-58 | the allocator gets that record, above the kernel image, rounded inwards |
| Multiboot.FirstInsideIff | src/arch/x86_64/multiboot.c:45-57 | the first frame of the rounded region lies in the record exactly when the region is neither empty nor inverted |
| Multiboot.RegionInside | src/arch/x86_64/multiboot.c:45-57 | the frames of the rounded region are exactly those that lie in the record, above the image |
| Multiboot.FramesInside | src/arch/x86_64/multiboot.c:45-57 | over any run from a region that is not inverted, every frame ever taken into use lies in the record, above the image |
| Multiboot.OwnedInside | src/arch/x86_64/multiboot.c:45-57 | in a valid state every frame in use but the static tables lies in the record, above the image |
| Multiboot.AllocInverted | src/frame.c:36-40 | on an inverted region the allocator never panics and every frame it returns lies outside the record |
| Multiboot.LowMemoryInverts | src/arch/x86_64/multiboot.c:45-57 | a map of low memory only makes the region inverted |
| Multiboot.Boot | src/main.c:37-38 | with a region that is not inverted, boot ends in a valid state; otherwise the globals are inverted |
| KernelMain.Cstart | src/main.c:35-59 | boot and process creation together: each module runs as the boot loader left it, none can read another, every frame in use lies in the chosen record, all are made exactly if the chosen record has frames enough |
| KernelMain.ScheduleAll | src/main.c:58 | process i ends up in round-robin slot i |
| KernelMain.ReadyAfterBoot | src/scheduler.c:56-81 | exactly those slots are ready then, and the first switch picks the first process |
| KernelMain.SwitchKeeps | src/scheduler_asm.s:15-118 | a task switch keeps every invariant, every translation and every process it does not save |
| KernelMain.FirstSwitchIn | src/scheduler_asm.s:73-118 | a process switched in for the first time is in its own address space, in user mode at its entry point, and reads its command line at rdi |
| KernelMain.EnterFirst | src/main.c:25-33 | the first yield of the idle loop does this for the first process and keeps the others |
| KernelMain.BootInto | src/main.c:35-62 | from the boot loader to user mode: all of the above in one |
| Selection.SelectionIs | src/scheduler.c:56-81 | the lowest ready priority slot, else the first ready robin of the 127-slot window, else idle |
| Selection.OneSelection | src/scheduler.c:69-78 | a ready robin passed over comes strictly nearer; idle only if it is just before the cursor and alone |
| Selection.BoundedWaiting | src/scheduler.c:60-81 | a ready robin is overtaken by at most its distance, at most 127, whatever else becomes ready |
| Selection.LoneRobinStarves | src/scheduler.c:69 | a robin ready alone runs at most once and is then never picked |
| Selection.ServedWithin | src/scheduler.c:69-78 | a ready robin inside the window is picked within as many calls as its distance, whatever else becomes ready |
| Selection.ServedAfterOther | src/scheduler.c:69-78 | a ready robin just before the cursor is picked within a round of a call that finds another ready |
| Selection.NeverServed | src/scheduler.c:69 | in no other case is it ever picked |
| Selection.ServedIff | src/scheduler.c:69-78 | with a fixed ready set a waiting robin is ever picked exactly if it is in the window or not alone, and then within 128 calls |
| Selection.BootStarves | src/scheduler.c:60-69 | at boot a task alone in slot 128 runs once, one alone in slot 255 never |
| Selection.RoundRobin | src/scheduler.c:69-78 | with a fixed set of two or more ready robins, that many calls pick each exactly once, in cyclic order |
| Cpus.Cpu.GetIfCanExecute | src/scheduler.c:47-55 | the slot's task if it can execute |
| Cpus.Cpu.ScanPriorities | src/scheduler.c:61-68 | the first loop computes the priority choice |
| Cpus.Cpu.ScanRobins | src/scheduler.c:69-78 | the second loop computes the round-robin choice across wraparound |
| Cpus.Cpu.Schedule | src/scheduler.c:56-81 | the picked task becomes current and the cursor moves just past a picked robin |
| Cpus.PickIsLoaded | src/scheduler.c:61-80 | what becomes current is the task of the slot picked, whichever it is, and it can execute; the idle task for none |
| Switch.Enter | src/scheduler_asm.s:15-19 | the interrupt frame and the first pushes hold the interrupted registers |
| Switch.SaveTask | src/scheduler_asm.s:20-67 | 20 pushes end at offset 0 of the current task and save every register; flags and address space are untouched |
| Switch.CallScheduler | src/scheduler_asm.s:68-72 | the scheduler runs on the interrupt stack, whatever its frame holds, and its choice arrives in rax |
| Switch.LoadTask | src/scheduler_asm.s:73-109 | pops put every saved word into its register or the interrupt frame; cr3 is the task's address space |
| Switch.Leave | src/scheduler_asm.s:110-118 | the registers after iretq are exactly the loaded ones |
| Switch.Reschedule | src/scheduler_asm.s:15-118 | interrupted registers end up in the old task, the picked task's in the processor, nothing else but stack bytes changes |
| Dispatch.Yield | src/scheduler.c:113-118 | a yield is a switch step |
| Dispatch.ScheduleTask | src/scheduler.c:125-131 | fills a slot and returns what it held |
| Dispatch.Suspend | src/scheduler.c:83-99 | clears the flag of the given or current task, then switches, to another task unless it is the idle one |
| Dispatch.Resume | src/scheduler.c:120-123 | sets the flag and nothing else |
| Dispatch.Make | src/scheduler.c:25-42 | making a task is a step that touches only that task |
| Dispatch.RegistersPreserved | src/scheduler_asm.s:15-118 | in any run, whatever the tasks do to other memory, a task is switched in with the registers it was last switched out with or made with |
| Dispatch.SpacePreserved | src/scheduler_asm.s:75-77 | and in the address space it was made with |
| Dispatch.MadeIsEntered | src/scheduler.c:25-42 | in any run a task made and then switched in for the first time starts in the mode, at the entry point, on the stack, with the argument and in the address space it was made with |
| Dispatch.IdleSavedFirst | src/scheduler.c:101-104 | the idle task is never restored before it has been saved |
| Dispatch.SwitchLoadsPick | src/scheduler.c:61-80 | a switch makes the task of the picked slot current, the idle task if none is picked |
| Dispatch.SuspendStops | src/scheduler.c:96-97 | a suspended task cannot execute, from whatever slot; its other flags stay |
| Dispatch.ResumeStarts | src/scheduler.c:120-123 | a resumed task can, from every slot that holds it; its other flags stay |
| Dispatch.MakeStarts | src/scheduler.c:39 | a task just made can execute |
| Dispatch.ClearedNeverRuns | src/scheduler.c:47-55 | a task whose flag is clear is not picked until resumed or made anew, in any interleaving |
| Dispatch.SuspendedNeverRuns | src/scheduler.c:83-99 | so a task suspended at some event is not switched to again until resumed or made anew |
| Dispatch.WaitIsBounded | src/scheduler.c:60-81 | bounded waiting in any run of the whole scheduler |
| Dispatch.SwitchesPick | src/scheduler.c:56-81 | the switches of a run are consecutive selections, whatever happens between them |
| Dispatch.ServedInRun | src/scheduler.c:69-78 | in any run a waiting robin inside the window, or no longer alone, is picked within a round, and its task becomes current |
| Dispatch.StarvesInRun | src/scheduler.c:69 | just before the cursor and ready alone it is never picked, and every switch loads the idle task |
| Scancodes.Keyboard.Ps2Set2ToUsb | src/scancodes.c:10-437 | in place, the decoding function, re-entrant releases included |
| Scancodes.Keyboard.ProcessScancode | src/keyboard.c:121-129 | shifts a byte in, emits its events, at most two decoder calls |
| Scancodes.Keyboard.ProcessAll | src/keyboard.c:131-143 | the events and the buffer for a whole stream of bytes |
| Scancodes.NonzeroClears | src/scancodes.c:10-13 | a nonzero result leaves the buffer empty |
| Scancodes.RestingClosed | src/scancodes.c:309-435 | the sixteen prefixes are closed under every byte and the shift loses no bits |
| Scancodes.RestingReached | src/scancodes.c:309-435 | each of the sixteen prefixes is reached from an empty buffer |
| Scancodes.AlwaysResting | src/scancodes.c:309-435 | after any stream the buffer is one of them |
| Scancodes.Resynchronises | src/scancodes.c:318-435 | any byte outside E0 E1 F0 12 14 77 7C empties the buffer, whatever came before |
| Scancodes.StructuralIff | src/scancodes.c:309-435 | these seven bytes only: each leaves some resting buffer non-empty |
| Scancodes.MessageDecoded | src/scancodes.c:408-422 | the bytes of one message emit its meaning and leave the buffer empty |
| Scancodes.DecodedIffWellFormed | src/scancodes.c:309-422 | a message decodes to its meaning and an empty buffer exactly if its key byte is no prefix |
| Scancodes.StreamDecoded | src/keyboard.c:121-129 | byte-wise decoding of any sequence of messages is the concatenation of their meanings |
| Scancodes.EventIdentifiesKey | src/scancodes.c:54-61 | an event identifies its key and whether it was pressed or released, except that left Alt and A share a code |
| Scancodes.SingleTable | src/scancodes.c:18-320 | exactly the listed codes are produced by one byte, each by one byte alone, but for left Alt |
| Scancodes.ExtendedTable | src/scancodes.c:322-407 | the same for the bytes after E0 |
| Scancodes.EveryKeyHasItsMessage | src/scancodes.c:10-437 | no key is dead: exactly the listed codes are ever emitted, and for each there is a message whose bytes emit it and nothing else |

## Left out

- AddressSpace.Mmap: pages under root entry 256 or in the first 32M above KERNEL_BASE are excluded; there the walk stops at a big entry (`Radix.LinearIsBig`) and writing it would change the mapping of 1G or 2M at once.
- Userspace.MakeUserspaceProcess: command lines of a page or more are excluded; `ArgumentFits` shows that exactly those leave the stack's page.
- Machines.Machine: an access through a linear-map pointer is modelled as an access to the physical address it maps to, which `LinearMapAgrees` justifies; only src/frame.c is modelled with the pointers themselves.
- Paging.Descend: the execute-disable bit, accessed and dirty bits, TLB contents and physical-address widths below 52 bits are not modelled; no entry the kernel writes sets those bits.
- Cpus.Cpu: one processor, as asm_get_cpuid always answers 0; the data segment register, and the address space the idle task is given by init_scheduler, are not modelled.
- KernelMain.BootInto: the list of modules is a parameter, as setup_initrd only copies and prints it; all processes are scheduled after the last is created rather than one by one, as if no interrupt arrived in between.
- KernelMain.EnterFirst: what the boot thread keeps on the stack it shares with the interrupt stack table is not modelled.
- Interrupts arriving during a switch and races between processors: not handled by the code either.
- Device access, interrupt controllers, exception handlers, descriptor tables, system call setup and all printing.
- The keyboard's command queue, the empty destroy_address_space, the unused cleanup of src/userspace.c, and src/map-dynamic.c, which is not built.
