/** src/userspace.c: a process is an address space with an ELF image and a stack,
    and a task that starts it; and the boot loop of src/main.c that creates them. */
module Userspace {
  import opened Bytes
  import opened Paging
  import opened Ownership
  import opened Machines
  import opened Frame
  import opened Radix
  import opened Population
  import opened Accounting
  import opened AddressSpace
  import opened UserMemory
  import opened Elf
  import opened Tasks
  import KernelRuns
  import Klib

  const STACK_TOP: Word := 0x7FFF_FFFF_F000
  const STACK_PAGE: Word := STACK_TOP - FRAME_SIZE

  // ----- the command line -----

  /** The room kept on the stack for a command line of `n` characters. */
  function PaddedArgSize(n: nat): nat { n / 16 * 16 + 16 }

  /** The copy, with its NUL, fits below the stack top, 16-byte aligned and no lower than
      need be; it stays inside the stack's one page exactly for lines shorter than a page. */
  lemma ArgumentFits(n: nat)
    ensures n + 1 <= PaddedArgSize(n) < n + 1 + 16 && (STACK_TOP - PaddedArgSize(n)) % 16 == 0
    ensures PaddedArgSize(n) <= FRAME_SIZE <==> n < FRAME_SIZE
  {
  }

  /** A command line of `n` characters the kernel can read. */
  ghost predicate CommandLine(s: State, a: nat, n: nat) {
    Klib.StringAt(s.mem, a, n) && Readable(s, a, n + 1) && n < FRAME_SIZE
  }

  // ----- processes -----

  /** What was asked for: the file, the string, and where they were found. */
  datatype Program = Program(segs: seq<Segment>, entry: Word, args: seq<Byte>)

  datatype Process = Process(task: nat, root: Word)

  function StackPointer(prog: Program): Word
    requires 0 < |prog.args| <= FRAME_SIZE
  {
    ArgumentFits(|prog.args| - 1);
    STACK_TOP - PaddedArgSize(|prog.args| - 1)
  }

  function StackContent(prog: Program): seq<Byte>
    requires 0 < |prog.args| <= FRAME_SIZE
  {
    ArgumentFits(|prog.args| - 1);
    PageContent(FRAME_SIZE - PaddedArgSize(|prog.args| - 1), prog.args)
  }

  ghost predicate ProgramOk(prog: Program) {
    0 < |prog.args| <= FRAME_SIZE && CanonicalPages(prog.segs)
  }

  /** Page `p` of the process: the stack, else the image, else nothing. */
  ghost predicate PageRuns(s: State, m: Mem, root: nat, prog: Program, p: Path)
    requires ProgramOk(prog)
  {
    var q := AddressOf(p);
    if q == STACK_PAGE then PageHolds(s, root, p, StackContent(prog))
    else if Winner(prog.segs, q).Some? then PageHolds(s, root, p, SegmentPage(m, Winner(prog.segs, q).value, q))
    else Translate(s.mem, root, p) == Unmapped
  }

  /** The whole private half of the address space and the task are as the program
      asks; `m` is the memory its file was read from. */
  ghost predicate Runs(s: State, m: Mem, proc: Process, prog: Program) {
    && ProgramOk(prog) && IsRoot(s, proc.root)
    && (forall p :: UserPath(p) ==> PageRuns(s, m, proc.root, prog, p))
    && proc.task in s.owner && s.owner[proc.task] == Data && proc.task + FRAME_SIZE <= |s.mem|
    && forall j :: 0 <= j < FIELDS ==>
         Field(s.mem, proc.task, j) == NewField(j, StackPointer(prog), prog.entry, StackPointer(prog), proc.root,
             true, 0)
  }

  // ----- how many frames a process takes -----

  /** The pages that get a frame: every page of every segment, then the stack's. */
  function ProcessPages(segs: seq<Segment>): seq<Path> {
    TouchedPages(segs) + [PathOf(STACK_PAGE)]
  }

  /** A frame for the root, one for the task, one a page, and one for each distinct
      table that leads to a page. */
  function ProcessCost(prog: Program): nat {
    var pages := ProcessPages(prog.segs);
    2 + |pages| + |Tables(pages)|
  }

  /** The part of it that is spent before the stack is made. */
  function LoadCost(prog: Program): nat {
    var pages := TouchedPages(prog.segs);
    1 + |pages| + |Tables(pages)|
  }

  lemma {:induction false} CostsOrdered(prog: Program)
    ensures LoadCost(prog) <= ProcessCost(prog)
  {
    hide Way;
    var pages := TouchedPages(prog.segs);
    assert ProcessPages(prog.segs) == pages + [PathOf(STACK_PAGE)];
    assert Tables(pages) <= Tables(ProcessPages(prog.segs));
    SubsetSize(Tables(pages), Tables(ProcessPages(prog.segs)));
  }

  lemma {:induction false} SubsetSize<T>(a: set<T>, b: set<T>)
    requires a <= b
    ensures |a| <= |b|
  {
    assert b == a + (b - a);
  }

  lemma LoadCostPositive(prog: Program)
    ensures LoadCost(prog) >= 1
  {
  }

  lemma SpentIs(s0: State, s: State, root: nat, pages: seq<Path>)
    requires Spent(s0, s, root, pages)
    ensures FreeCount(s) == FreeCount(s0) - PagesCost(s0.mem, root, pages)
  {
  }

  lemma {:induction false} SpanUser(lo: nat, q: nat, hi: nat)
    requires UserRange(lo, hi) && lo % FRAME_SIZE == 0 && q % FRAME_SIZE == 0 && lo <= q <= hi
    ensures forall p :: p in Span(lo, q) ==> UserPath(p)
    decreases q
  {
    hide PathOf;
    if q > lo {
      FramesApart(lo, q);
      SpanUser(lo, q - FRAME_SIZE, hi);
      UserRangePath(lo, q - FRAME_SIZE, hi);
    }
  }

  lemma {:induction false} TouchedUser(segs: seq<Segment>)
    requires forall seg :: seg in segs ==> UserRange(seg.Lo(), seg.Hi())
    ensures forall p :: p in TouchedPages(segs) ==> UserPath(p)
  {
    hide Span, UserRange, UserPath;
    if segs != [] {
      var seg := segs[|segs| - 1];
      TouchedUser(segs[..|segs| - 1]);
      assert seg in segs;
      SegmentBounds(seg);
      SpanUser(seg.Lo(), seg.Hi(), seg.Hi());
    }
  }

  lemma SegmentBounds(seg: Segment)
    ensures seg.Lo() % FRAME_SIZE == 0 && seg.Hi() % FRAME_SIZE == 0 && seg.Lo() <= seg.Hi()
  {
  }

  /** Into a fresh root the image costs what `LoadCost` says, and the stack what is
      missing from `ProcessCost`. */
  lemma CostOfProgram(sa: State, sb: State, root: nat, prog: Program)
    requires forall p :: UserPath(p) ==> Missing(sa.mem, 4, root, p) == 3
    requires forall seg :: seg in prog.segs ==> UserRange(seg.Lo(), seg.Hi())
    ensures PagesCost(sa.mem, root, TouchedPages(prog.segs)) == LoadCost(prog) - 1
    ensures Spent(sa, sb, root, TouchedPages(prog.segs)) ==>
              ProcessCost(prog) == LoadCost(prog) + 2 + Missing(sb.mem, 4, root, PathOf(STACK_PAGE))
  {
    hide Missing, PagesCost, UserPath, Tables, TouchedPages, UserRange, PathOf, FreeCount;
    TouchedUser(prog.segs);
    StackPath();
    FreshCost(sa.mem, root, TouchedPages(prog.segs));
    FreshCost(sa.mem, root, ProcessPages(prog.segs));
    if Spent(sa, sb, root, TouchedPages(prog.segs)) {
      NextCost(sa, sb, root, TouchedPages(prog.segs), PathOf(STACK_PAGE));
    }
  }

  /** A running process is untouched by whatever keeps its translations. */
  lemma RunsKept(s: State, s': State, m: Mem, proc: Process, prog: Program)
    requires Runs(s, m, proc, prog) && Extends(s, s')
    requires forall p :: UserPath(p) ==> Translate(s'.mem, proc.root, p) == Translate(s.mem, proc.root, p)
    ensures Runs(s', m, proc, prog)
  {
    hide NewField, PageHolds, AddressOf, Winner, Word64, StackPointer, StackContent, SegmentPage;
    forall p | UserPath(p) ensures PageRuns(s', m, proc.root, prog, p) {
      assert PageRuns(s, m, proc.root, prog, p);
      var q := AddressOf(p);
      if q == STACK_PAGE {
        PageHoldsKept(s, s', proc.root, p, StackContent(prog));
      } else if Winner(prog.segs, q).Some? {
        PageHoldsKept(s, s', proc.root, p, SegmentPage(m, Winner(prog.segs, q).value, q));
      }
    }
    forall j | 0 <= j < FIELDS ensures Field(s'.mem, proc.task, j) == Field(s.mem, proc.task, j) {
      SameBytesSameWord(s.mem, s'.mem, proc.task + 8 * j);
    }
  }

  /** A program sees its own file wherever a segment is last on a page other than
      the stack's. */
  lemma ImageSeen(s: State, m: Mem, proc: Process, prog: Program, i: nat, va: Word)
    requires Runs(s, m, proc, prog) && i < |prog.segs| && Last(prog.segs, i, va / FRAME_SIZE * FRAME_SIZE)
    requires Canonical(va) && UserPath(PathOf(va)) && va / FRAME_SIZE * FRAME_SIZE != STACK_PAGE
    ensures UserByte(s.mem, proc.root, va) == Some(SegmentByte(m, prog.segs[i], va))
  {
    hide UserByte, PageHolds, PathOf, AddressOf, NewField, Field;
    var q := va / FRAME_SIZE * FRAME_SIZE;
    LastWins(prog.segs, i, q);
    SamePage(va);
    AddressOfPath(q);
    assert PageRuns(s, m, proc.root, prog, PathOf(va));
    PageHoldsByte(s, proc.root, va, SegmentPage(m, prog.segs[i], q));
    assert q + va % FRAME_SIZE == va;
  }

  /** A program finds its NUL-terminated command line at the 16-byte-aligned address
      in both RSP and rdi. */
  lemma CommandLineSeen(s: State, m: Mem, proc: Process, prog: Program, i: nat)
    requires Runs(s, m, proc, prog) && i < |prog.args|
    ensures var sp := Field(s.mem, proc.task, RSP);
      && sp % 16 == 0 && sp == Field(s.mem, proc.task, RDI) && sp + i < STACK_TOP
      && UserByte(s.mem, proc.root, sp + i) == Some(prog.args[i])
  {
    hide UserByte, PageHolds, PathOf, AddressOf, Field, Blit, Zeros;
    var n := PaddedArgSize(|prog.args| - 1);
    ArgumentFits(|prog.args| - 1);
    var sp := StackPointer(prog);
    assert Field(s.mem, proc.task, RSP) == sp && Field(s.mem, proc.task, RDI) == sp;
    var va := sp + i;
    assert va / FRAME_SIZE * FRAME_SIZE == STACK_PAGE && va % FRAME_SIZE == FRAME_SIZE - n + i;
    SamePage(va);
    StackPath();
    assert PageRuns(s, m, proc.root, prog, PathOf(va));
    PageHoldsByte(s, proc.root, va, StackContent(prog));
    assert StackContent(prog)[FRAME_SIZE - n..FRAME_SIZE - n + |prog.args|] == prog.args;
  }

  /** The stack ends a page below the end of the lower canonical half. */
  lemma StackAtTop()
    ensures STACK_TOP + FRAME_SIZE == CANONICAL_LOW && !Canonical(STACK_TOP + FRAME_SIZE) && Canonical(STACK_TOP)
    ensures STACK_PAGE + FRAME_SIZE == STACK_TOP
  {
  }

  lemma StackPath()
    ensures STACK_PAGE % FRAME_SIZE == 0 && Canonical(STACK_PAGE)
    ensures UserPath(PathOf(STACK_PAGE)) && AddressOf(PathOf(STACK_PAGE)) == STACK_PAGE
    ensures !ThroughBig(PathOf(STACK_PAGE))
  {
    UserRangePath(STACK_PAGE, STACK_PAGE, STACK_TOP);
  }

  /** No frame is reachable from the private halves of two processes, and none of
      those frames holds a page table or a task. */
  lemma Isolated(s: State, m: Mem, a: Process, pa: Program, b: Process, pb: Program, p: Path, q: Path)
    requires Runs(s, m, a, pa) && Runs(s, m, b, pb) && a.root != b.root && UserPath(p) && UserPath(q)
    requires Translate(s.mem, a.root, p).Mapped? && Translate(s.mem, b.root, q).Mapped?
    ensures var f := Translate(s.mem, a.root, p).frame;
      && f != Translate(s.mem, b.root, q).frame
      && f in s.owner && Level(s.owner[f]) == 0 && f != a.task && f != b.task
  {
    hide AddressOf, Winner, Field, NewField, StackContent, SegmentPage, Translate;
    assert PageRuns(s, m, a.root, pa, p) && PageRuns(s, m, b.root, pb, q);
  }

  // ----- what user code can reach -----

  predicate UserOpen(page: Page) { page.Mapped? && page.user }

  /** No page of the half all address spaces share is open to user code. */
  ghost predicate NoSharedUser(s: State) {
    forall r: nat, p: Path :: IsRoot(s, r) && p.i4 == 511 ==> !UserOpen(Translate(s.mem, r, p))
  }

  lemma LinearNotUser(s: State, r: nat, p: Path)
    requires Valid(s) && IsRoot(s, r) && p.i4 == 256
    ensures !UserOpen(Translate(s.mem, r, p))
  {
    hide RegionOk, ChainOk, Partition, TablesOk, Entry, Present, Big, Writable, Usermode, Target;
    SharedEntry(s, 4, r, 256);
    BigEntry(s, 3, s.k.linear, p.i3);
  }

  lemma KernelHalfClosed(s: State, r: nat, p: Path)
    requires Valid(s) && NoSharedUser(s) && IsRoot(s, r)
    ensures !UserPath(p) ==> !UserOpen(Translate(s.mem, r, p))
  {
    hide Valid, Translate;
    if p.i4 == 256 { LinearNotUser(s, r, p); }
  }

  /** Whatever a process can read, in either half, is a page of its own. */
  lemma UserReadsOwn(s: State, m: Mem, proc: Process, prog: Program, va: Word)
    requires Valid(s) && NoSharedUser(s) && Runs(s, m, proc, prog) && UserByte(s.mem, proc.root, va).Some?
    ensures var page := Translate(s.mem, proc.root, PathOf(va));
      && page.Mapped? && Walk(s.mem, proc.root, va) == Some(page.frame + va % FRAME_SIZE)
      && page.frame in s.owner && s.owner[page.frame] == UserPage(proc.root, PathOf(va))
  {
    hide Valid, PathOf, AddressOf, Winner, Field, NewField, StackContent, SegmentPage, Translate;
    var p := PathOf(va);
    KernelHalfClosed(s, proc.root, p);
    assert UserPath(p) ==> PageRuns(s, m, proc.root, prog, p);
  }

  /** So two processes share nothing they can read, whatever addresses they use. */
  lemma NothingShared(s: State, m: Mem, a: Process, pa: Program, b: Process, pb: Program, va: Word, vb: Word)
    requires Valid(s) && NoSharedUser(s) && Runs(s, m, a, pa) && Runs(s, m, b, pb) && a.root != b.root
    requires UserByte(s.mem, a.root, va).Some? && UserByte(s.mem, b.root, vb).Some?
    ensures Walk(s.mem, a.root, va).value / FRAME_SIZE != Walk(s.mem, b.root, vb).value / FRAME_SIZE
  {
    hide RegionOk, ChainOk, KernelFramesOk, TablesOk, PathOf, Translate, Runs, Walk, UserByte;
    UserReadsOwn(s, m, a, pa, va);
    UserReadsOwn(s, m, b, pb, vb);
    var f, g := Translate(s.mem, a.root, PathOf(va)).frame, Translate(s.mem, b.root, PathOf(vb)).frame;
    assert Aligned(f) && Aligned(g);
    FrameOfByte(f, va % FRAME_SIZE);
    FrameOfByte(g, vb % FRAME_SIZE);
  }

  lemma FrameOfByte(f: nat, x: nat)
    requires Aligned(f) && x < FRAME_SIZE
    ensures (f + x) / FRAME_SIZE * FRAME_SIZE == f
  {
  }

  /** That stays so as long as no page of the shared half is set. */
  lemma NoSharedKept(s: State, s': State)
    requires Valid(s) && Valid(s') && Extends(s, s') && SameTranslations(s, s') && NoSharedUser(s)
    ensures NoSharedUser(s')
  {
    hide Valid, Translate, Extends;
    KernelRoot(s);
    var kernel := s.k.pml4;
    StillRoot(s, s', kernel);
    forall r: nat, p: Path | IsRoot(s', r) && p.i4 == 511 ensures !UserOpen(Translate(s'.mem, r, p)) {
      SharedHalf(s', r, kernel, p);
    }
  }

  // ----- boot modules -----

  /** A boot module: an ELF file and its command line, both readable throughout. */
  ghost predicate ModuleOk(s: State, start: nat, cmd: nat, n: nat) {
    ElfOk(s, start) && CommandLine(s, cmd, n)
  }

  /** What a module with a command line of `n` characters asks for. */
  ghost function ProgramAt(m: Mem, start: nat, cmd: nat, n: nat): Program {
    Pow256Of8();
    Program(Segments(m, start, HeaderCount(m, start)), EntryPoint(m, start), Slice(m, cmd, n + 1))
  }

  lemma HeadersKept(s: State, s': State, start: nat)
    requires Readable(s, start, 0x3A) && Extends(s, s')
    ensures Readable(s', start, 0x3A)
    ensures HeaderCount(s'.mem, start) == HeaderCount(s.mem, start)
    ensures EntryPoint(s'.mem, start) == EntryPoint(s.mem, start)
    ensures forall i: nat :: HeaderAt(s'.mem, start, i) == HeaderAt(s.mem, start, i)
  {
    hide Number, Extends, Readable;
    ReadableKept(s, s', start, 0x3A);
    NumberKept(s, s', start, 0x3A, start + 0x18, 8);
    NumberKept(s, s', start, 0x3A, start + 0x20, 8);
    NumberKept(s, s', start, 0x3A, start + 0x36, 2);
    NumberKept(s, s', start, 0x3A, start + 0x38, 2);
  }

  lemma HeaderOkKept(s: State, s': State, start: nat, h: nat)
    requires HeaderOk(s, start, h) && Extends(s, s')
    ensures HeaderOk(s', start, h)
  {
    hide Number, Extends, Readable;
    HeaderKept(s, s', start, h);
    ReadableKept(s, s', h, 0x30);
    if Loadable(s.mem, h) {
      var seg := SegmentAt(s.mem, start, h);
      ReadableKept(s, s', seg.source, seg.Copied());
    }
  }

  lemma {:induction false} SegmentsKept(s: State, s': State, start: nat, n: nat)
    requires ElfOk(s, start) && Extends(s, s') && n <= HeaderCount(s.mem, start)
    ensures Segments(s'.mem, start, n) == Segments(s.mem, start, n)
    ensures forall seg :: seg in Segments(s.mem, start, n) ==>
              UserRange(seg.Lo(), seg.Hi()) && Readable(s, seg.source, seg.Copied())
  {
    hide Number, Extends, Readable, HeaderAt, SegmentAt, Loadable;
    if n > 0 {
      SegmentsKept(s, s', start, n - 1);
      HeadersKept(s, s', start);
      var h := HeaderAt(s.mem, start, n - 1);
      assert HeaderOk(s, start, h);
      HeaderKept(s, s', start, h);
    }
  }

  /** A module reads the same in every later state: its header, every page of every
      segment, and its command line. */
  lemma ModuleKept(s: State, s': State, start: nat, cmd: nat, n: nat)
    requires ModuleOk(s, start, cmd, n) && Extends(s, s')
    ensures ModuleOk(s', start, cmd, n)
    ensures var prog := ProgramAt(s.mem, start, cmd, n);
      && ProgramAt(s'.mem, start, cmd, n) == prog && |prog.args| == n + 1
      && (forall q: nat :: q % FRAME_SIZE == 0 && Winner(prog.segs, q).Some? ==>
            SegmentPage(s'.mem, Winner(prog.segs, q).value, q) == SegmentPage(s.mem, Winner(prog.segs, q).value, q))
      && CanonicalPages(prog.segs) && (forall q: Word :: Winner(prog.segs, q).Some? ==> UserPath(PathOf(q)))
  {
    hide Extends, Readable, HeaderOk, HeaderAt, SegmentPage, PathOf, HeaderCount, EntryPoint, Slice;
    HeadersKept(s, s', start);
    SegmentsKept(s, s', start, HeaderCount(s.mem, start));
    ReadableKept(s, s', cmd, n + 1);
    StringKept(s, s', cmd, n);
    forall i | 0 <= i < HeaderCount(s.mem, start) ensures HeaderOk(s', start, HeaderAt(s'.mem, start, i)) {
      assert HeaderOk(s, start, HeaderAt(s.mem, start, i));
      HeaderOkKept(s, s', start, HeaderAt(s.mem, start, i));
    }
    var segs := Segments(s.mem, start, HeaderCount(s.mem, start));
    forall q: nat | q % FRAME_SIZE == 0 && Winner(segs, q).Some?
      ensures SegmentPage(s'.mem, Winner(segs, q).value, q) == SegmentPage(s.mem, Winner(segs, q).value, q) {
      var i := WinnerIs(segs, q);
      assert segs[i] in segs;
      SamePageBytes(s, s', segs[i], q);
    }
    forall q: Word | Winner(segs, q).Some? ensures Canonical(q) && UserPath(PathOf(q)) {
      var i := WinnerIs(segs, q);
      assert segs[i] in segs;
      UserRangePath(segs[i].Lo(), q, segs[i].Hi());
    }
  }

  lemma StringKept(s: State, s': State, cmd: nat, n: nat)
    requires CommandLine(s, cmd, n) && Extends(s, s')
    ensures Klib.StringAt(s'.mem, cmd, n)
  {
    hide Extends, Readable;
    ReadableKept(s, s', cmd, n + 1);
    ExtendsKernel(s, s');
    var x := Slice(s.mem, cmd, n + 1);
    assert x == Slice(s'.mem, cmd, n + 1);
    forall i | cmd <= i < cmd + n + 1 ensures s'.mem[i] == s.mem[i] {
      assert s'.mem[i] == x[i - cmd] == s.mem[i];
    }
  }

  // ----- make_userspace_process -----

  lemma NewSpaceKept(s0: State, sa: State, sb: State, root: nat, segs: seq<Segment>)
    requires Extends(s0, sa) && SameTranslations(s0, sa) && root !in s0.owner
    requires Extends(sa, sb) && KeepsOthers(sa, sb, root, segs)
    ensures Extends(s0, sb) && SameTranslations(s0, sb)
  {
    hide AddressOf, Winner;
    ExtendsTransitive(s0, sa, sb);
    forall r, p | IsRoot(s0, r) ensures Translate(sb.mem, r, p) == Translate(s0.mem, r, p) {
      assert IsRoot(sa, r);
    }
  }

  /** The frame for the task: allocated after the stack's, zero, and still so when
      the stack has been mapped. */
  lemma TaskFrame(sc: State, se: State)
    requires Valid(sc) && HasFrame(sc) && Valid(se) && Extends(AllocZeroed(sc), se)
    ensures var f := NextFrame(sc);
      && f in se.owner && se.owner[f] == Data && f !in sc.owner && f !in sc.k.Frames() && Aligned(f)
      && f + FRAME_SIZE <= |se.mem| && f + FRAME_SIZE <= sc.end && sc.first <= f
      && (forall j :: 0 <= j < 512 ==> Entry(se.mem, f, j) == 0)
      && Extends(sc, se)
  {
    hide RegionOk, ChainOk, Partition, KernelFramesOk, TablesOk, AllocZeroed, Aligned, Word64, Zeros;
    var f, sd := NextFrame(sc), AllocZeroed(sc);
    AllocZeroedValid(sc);
    AllocExtends(sc);
    OwnedBelow(se, f);
    ExtendsTransitive(sc, sd, se);
    forall j | 0 <= j < 512 ensures Entry(se.mem, f, j) == 0 {
      assert Entry(sd.mem, f, j) == 0;
      SameBytesSameWord(sd.mem, se.mem, f + 8 * j);
    }
  }

  /** Writing the task structure changes nothing but the task. */
  lemma TaskWritten(s: State, s': State, f: nat)
    requires Valid(s) && f in s.owner && s.owner[f] == Data
    requires s' == s.(mem := s'.mem) && OnlyTask(s.mem, s'.mem, f)
    ensures Valid(s') && SameTranslations(s, s') && OnlyFrame(s.mem, s'.mem, f)
  {
    hide RegionOk, ChainOk, Partition, KernelFramesOk, TablesOk, Aligned, SameTranslations;
    OwnedBelow(s, f);
    var bs := s'.mem[f..f + FRAME_SIZE];
    assert s'.mem == Blit(s.mem, f, bs);
    DataWrite(s, f, f, bs);
  }

  lemma TaskReached(s: State, s': State, f: nat)
    requires Valid(s) && f in s.owner && s.owner[f] == Data
    requires s' == s.(mem := s'.mem) && OnlyTask(s.mem, s'.mem, f)
    ensures KernelRuns.Reaches(s, s')
  {
    hide RegionOk, ChainOk, Partition, KernelFramesOk, TablesOk, Aligned, KernelRuns.Reaches, KernelRuns.Step;
    OwnedBelow(s, f);
    var bs := s'.mem[f..f + FRAME_SIZE];
    assert s'.mem == Blit(s.mem, f, bs);
    KernelRuns.ClientWriteIsStore(s, f, f, bs);
    KernelRuns.ReachesOne(s, KernelRuns.StoreOp, s');
  }

  lemma PageHoldsBeside(s: State, s': State, f: nat, root: nat, p: Path, content: seq<Byte>)
    requires Valid(s) && PageHolds(s, root, p, content) && f in s.owner && s.owner[f] == Data
    requires s' == s.(mem := s'.mem) && OnlyFrame(s.mem, s'.mem, f)
    requires Translate(s'.mem, root, p) == Translate(s.mem, root, p)
    ensures PageHolds(s', root, p, content)
  {
    hide RegionOk, ChainOk, Partition, KernelFramesOk, TablesOk, Aligned, Translate;
    var g := Translate(s.mem, root, p).frame;
    OwnedBelow(s, f);
    OwnedBelow(s, g);
    FramesApart(f, g);
    assert s'.mem[g..g + FRAME_SIZE] == s.mem[g..g + FRAME_SIZE];
  }

  /** The pieces of a process put together. From `sb` (image loaded) the stack page
      was filled, giving `sf`, and the task structure written, giving `sg`. */
  lemma ProcessRuns(s0: State, sa: State, sb: State, sf: State, sg: State,
                    start: nat, cmd: nat, n: nat, proc: Process)
    requires ModuleOk(s0, start, cmd, n) && Extends(s0, sa) && Extends(sa, sb) && Extends(sb, sf)
    requires IsRoot(sa, proc.root) && (forall p :: UserPath(p) ==> Translate(sa.mem, proc.root, p) == Unmapped)
    requires var prog := ProgramAt(s0.mem, start, cmd, n);
      && KeepsOthers(sa, sb, proc.root, prog.segs) && Image(sb, proc.root, sa.mem, prog.segs)
      && |prog.args| == n + 1 <= FRAME_SIZE && CanonicalPages(prog.segs)
      && PageHolds(sf, proc.root, PathOf(STACK_PAGE), StackContent(prog))
      && (forall j :: 0 <= j < FIELDS ==>
            (Field(sg.mem, proc.task, j)
             == NewField(j, StackPointer(prog), prog.entry, StackPointer(prog), proc.root, true, 0)))
    requires forall q :: q != PathOf(STACK_PAGE) ==> Translate(sf.mem, proc.root, q) == Translate(sb.mem, proc.root, q)
    requires Valid(sf) && proc.task in sf.owner && sf.owner[proc.task] == Data
    requires sg == sf.(mem := sg.mem) && OnlyFrame(sf.mem, sg.mem, proc.task) && SameTranslations(sf, sg)
    ensures Runs(sg, s0.mem, proc, ProgramAt(s0.mem, start, cmd, n))
  {
    hide RegionOk, ChainOk, Partition, KernelFramesOk, TablesOk, Aligned, Translate, PageHolds, PathOf, AddressOf;
    hide SegmentPage, StackContent, StackPointer, NewField, Field, Winner, Readable, ElfOk, ModuleOk, CommandLine;
    hide ProgramAt;
    var prog, root := ProgramAt(s0.mem, start, cmd, n), proc.root;
    ModuleKept(s0, sa, start, cmd, n);
    ExtendsTransitive(sa, sb, sf);
    StillRoot(sa, sf, root);
    StackPath();
    OwnedBelow(sf, proc.task);
    forall p | UserPath(p) ensures PageRuns(sg, s0.mem, root, prog, p) {
      PathOfAddress(p);
      var q := AddressOf(p);
      SameAt(sf, sg, root, p);
      if q == STACK_PAGE {
        PageHoldsBeside(sf, sg, proc.task, root, p, StackContent(prog));
      } else if Winner(prog.segs, q).Some? {
        var content := SegmentPage(sa.mem, Winner(prog.segs, q).value, q);
        assert PageHolds(sb, root, PathOf(q), content);
        PageHoldsKept(sb, sf, root, p, content);
        PageHoldsBeside(sf, sg, proc.task, root, p, content);
      } else {
        assert Translate(sb.mem, root, p) == Translate(sa.mem, root, p);
      }
    }
  }

  /** Where the loader's work begins: a fresh root with nothing mapped. */
  ghost predicate Fresh(s0: State, sa: State, root: Word) {
    && Extends(s0, sa) && SameTranslations(s0, sa) && root !in s0.owner && IsRoot(sa, root)
    && FreeCount(sa) == FreeCount(s0) - 1
    && forall p :: UserPath(p) ==> Translate(sa.mem, root, p) == Unmapped && Missing(sa.mem, 4, root, p) == 3
  }

  /** What the loader leaves: the image of the program in the fresh address space. */
  ghost predicate Loaded(s0: State, sa: State, sb: State, root: Word, prog: Program) {
    && Fresh(s0, sa, root) && Extends(sa, sb) && IsRoot(sb, root) && Extends(s0, sb) && SameTranslations(s0, sb)
    && KeepsOthers(sa, sb, root, prog.segs) && Image(sb, root, sa.mem, prog.segs)
    && Spent(sa, sb, root, TouchedPages(prog.segs))
  }

  lemma ProgramRanges(s: State, start: nat, cmd: nat, n: nat)
    requires ModuleOk(s, start, cmd, n)
    ensures forall seg :: seg in ProgramAt(s.mem, start, cmd, n).segs ==> UserRange(seg.Lo(), seg.Hi())
  {
    hide ElfOk, CommandLine, Segments, HeaderCount, EntryPoint, Slice;
    SelfExtends(s);
    SegmentsKept(s, s, start, HeaderCount(s.mem, start));
  }

  /** Creates the address space and loads the file into it. It panics exactly when there
      are fewer frames than the root and the image need. */
  method LoadProgram(k: Machine, elfStart: nat, ghost cmd: nat, ghost n: nat)
    returns (ok: bool, root: Word, entry: Word, ghost sa: State)
    requires k.Ready() && ModuleOk(k.S(), elfStart, cmd, n)
    modifies k, k.ram
    ensures k.Ready() && Extends(old(k.S()), k.S()) && SameTranslations(old(k.S()), k.S())
    ensures ok ==> var prog := ProgramAt(old(k.S()).mem, elfStart, cmd, n);
              Loaded(old(k.S()), sa, k.S(), root, prog) && entry == prog.entry
    ensures ok <==> LoadCost(ProgramAt(old(k.S()).mem, elfStart, cmd, n)) <= FreeCount(old(k.S()))
    ensures ok ==> FreeCount(k.S()) == FreeCount(old(k.S())) - LoadCost(ProgramAt(old(k.S()).mem, elfStart, cmd, n))
    ensures ok ==> KernelRuns.Reaches(old(k.S()), k.S())
    ensures !ok ==> !HasFrame(k.S())
  {
    hide RegionOk, ChainOk, Partition, KernelFramesOk, TablesOk, LinkWord;
    hide Extends, SameTranslations, KeepsOthers, Readable, Image, HeaderOk, CommandLine, HasFrame, FreeCount;
    hide Segments, HeaderCount, Spent, PagesCost, Missing, LoadCost, TouchedPages, UserPath, UserRange;
    hide KernelRuns.Reaches, NewSpace;
    ghost var s0 := k.S();
    ghost var prog := ProgramAt(s0.mem, elfStart, cmd, n);
    SelfExtends(s0);
    NoFrame(s0);
    assert LoadCost(prog) >= 1 by { LoadCostPositive(prog); }
    ProgramRanges(s0, elfStart, cmd, n);
    root, entry, sa := 0, 0, s0;
    var newRoot;
    ok, newRoot := CreateAddressSpace(k);
    if !ok {
      return;
    }
    sa := k.S();
    KernelRuns.ReachesOne(s0, KernelRuns.CreateOp(newRoot), sa);
    OwnedBelow(sa, newRoot);
    root := newRoot;
    ModuleKept(s0, sa, elfStart, cmd, n);
    CostOfProgram(sa, sa, root, prog);
    var e;
    ok, e := LoadElf(k, root, elfStart);
    ghost var segs := ProgramAt(s0.mem, elfStart, cmd, n).segs;
    assert ok ==> FreeCount(k.S()) == FreeCount(sa) - PagesCost(sa.mem, root, TouchedPages(segs)) by {
      if ok { SpentIs(sa, k.S(), root, TouchedPages(segs)); }
    }
    NewSpaceKept(s0, sa, k.S(), root, segs);
    StillRoot(sa, k.S(), root);
    if ok {
      KernelRuns.ReachesTransitive(s0, sa, k.S());
      Pow256Of8();
      entry := e;
    }
  }

  /** The stack page of `root` holds the command line, everything else of every
      address space is as in `s`, and `task` is a fresh frame of zeros. */
  ghost predicate StackMade(s: State, s': State, root: nat, commandLine: nat, n: nat, task: nat) {
    && |Slice(s.mem, commandLine, n + 1)| == n + 1 && n + 1 <= PaddedArgSize(n) <= FRAME_SIZE
    && Extends(s, s')
    && PageHolds(s', root, PathOf(STACK_PAGE),
                 PageContent(FRAME_SIZE - PaddedArgSize(n), Slice(s.mem, commandLine, n + 1)))
    && OnlyPage(s, s', root, PathOf(STACK_PAGE))
    && task in s'.owner && s'.owner[task] == Data && task !in s.owner && task + FRAME_SIZE <= |s'.mem|
    && (forall j :: 0 <= j < 512 ==> Entry(s'.mem, task, j) == 0)
  }

  /** The stack as the kernel's steps leave it: two allocations, a mapping (`s2`) and
      a copy. */
  lemma StackEffect(s: State, s2: State, root: nat, commandLine: nat, n: nat)
    requires Valid(s) && HasFrame(s) && IsRoot(s, root) && CommandLine(s, commandLine, n)
    requires Valid(AllocZeroed(s)) && HasFrame(AllocZeroed(s))
    requires var s1 := AllocZeroed(s);
      && Valid(s2) && Extends(AllocZeroed(s1), s2)
      && Remapped(AllocZeroed(s1), s2, root, PathOf(STACK_PAGE), Mapped(NextFrame(s), true, true))
    ensures var f, p := NextFrame(s), PathOf(STACK_PAGE);
      && Klib.StringAt(s2.mem, commandLine, n)
      && |Slice(s.mem, commandLine, n + 1)| == n + 1 && n + 1 <= PaddedArgSize(n) <= FRAME_SIZE
      && commandLine + n + 1 <= |s2.mem| && s2.mem[commandLine..commandLine + n + 1] == Slice(s.mem, commandLine, n + 1)
      && f + FRAME_SIZE <= |s2.mem| && (commandLine + n + 1 <= f || f + FRAME_SIZE <= commandLine)
      && var s3 := s2.(mem := Blit(s2.mem, f + FRAME_SIZE - PaddedArgSize(n), Slice(s.mem, commandLine, n + 1)),
                       owner := s2.owner[f := UserPage(root, p)]);
         Valid(s3) && StackMade(s, s3, root, commandLine, n, NextFrame(AllocZeroed(s)))
  {
    hide RegionOk, ChainOk, Partition, KernelFramesOk, TablesOk, AllocZeroed, Entry, HasFrame, NextFrame, Aligned;
    hide Extends, SameTranslations, Remapped, Missing, Blit, PageContent, PathOf, FreeCount, PageHolds, Readable;
    hide Translate;
    var f, p, s1 := NextFrame(s), PathOf(STACK_PAGE), AllocZeroed(s);
    var s1', t := AllocZeroed(s1), NextFrame(s1);
    StackPath();
    AllocatedFrame(s, root, p);
    AllocatedFrame(s1, root, p);
    AllocZeroedValid(s);
    ExtendsTransitive(s1, s1', s2);
    RemappedAfter(s1, s1', s2, root, p, Mapped(f, true, true));
    TaskFrame(s1, s2);
    ReadableFar(s, s1, s2, f, commandLine, n + 1);
    ExtendsTransitive(s, s1, s2);
    StringKept(s, s2, commandLine, n);
    ArgumentFits(n);
    var off := FRAME_SIZE - PaddedArgSize(n);
    var bs := Slice(s.mem, commandLine, n + 1);
    PageFilled(s, s2, root, p, off, bs);
    var m' := Blit(s2.mem, f + off, bs);
    forall j | 0 <= j < 512 ensures Entry(m', t, j) == 0 {
      assert Entry(s2.mem, t, j) == 0;
      BlitEntry(s2.mem, f, f + off, bs, t, j);
    }
  }

  /** Allocates the stack's and the task's frames, maps the stack and copies the
      command line to its top; ok is false where the kernel panics. */
  method MakeStack(k: Machine, root: Word, commandLine: nat, ghost n: nat)
    returns (ok: bool, task: nat, stackPointer: Word)
    requires k.Ready() && IsRoot(k.S(), root) && CommandLine(k.S(), commandLine, n)
    modifies k, k.ram
    ensures k.Ready() && Extends(old(k.S()), k.S())
    ensures !ok ==> SameTranslations(old(k.S()), k.S()) && !HasFrame(k.S())
    ensures ok ==> StackMade(old(k.S()), k.S(), root, commandLine, n, task)
    ensures ok ==> stackPointer == STACK_TOP - PaddedArgSize(n)
    ensures ok <==> 2 + Missing(old(k.S()).mem, 4, root, PathOf(STACK_PAGE)) <= FreeCount(old(k.S()))
    ensures ok ==> FreeCount(k.S()) == FreeCount(old(k.S())) - 2 - Missing(old(k.S()).mem, 4, root, PathOf(STACK_PAGE))
    ensures ok ==> KernelRuns.Reaches(old(k.S()), k.S())
  {
    hide RegionOk, ChainOk, Partition, KernelFramesOk, TablesOk, LinkWord, AllocZeroed, Entry, HasFrame, NextFrame;
    hide Extends, SameTranslations, Remapped, Missing, Blit, PathOf, FreeCount, PageHolds, Readable, Translate;
    hide StackMade, ThroughBig, IsRoot, Slice, CommandLine, Klib.StringAt, PaddedArgSize, Populated, MapPage;
    hide KernelRuns.Reaches;
    ghost var s, p := k.S(), PathOf(STACK_PAGE);
    SelfExtends(s);
    NoFrame(s);
    StackPath();
    task, stackPointer := 0, 0;
    var initrdStack;
    ok, initrdStack := FrameAllocZero(k);
    if !ok {
      return;
    }
    ghost var s1 := k.S();
    AllocatedFrame(s, root, p);
    NoFrame(s1);
    ok, task := FrameAllocZero(k);
    if !ok {
      return;
    }
    ghost var s1' := k.S();
    AllocatedFrame(s1, root, p);
    ExtendsTransitive(s, s1, s1');
    SameTranslationsTransitive(s, s1, s1');
    ok := Mmap(k, root, initrdStack, STACK_PAGE, true);
    ghost var s2 := k.S();
    if !ok {
      ExtendsTransitive(s, s1', s2);
      SameTranslationsTransitive(s, s1', s2);
      return;
    }
    StackEffect(s, s2, root, commandLine, n);
    StackReached(s, root, FRAME_SIZE - PaddedArgSize(n), Slice(s.mem, commandLine, n + 1));
    var paddedArgSize := CopyArguments(k, initrdStack, commandLine, n);
    k.owner := k.owner[initrdStack := UserPage(root, p)];
    assert k.chain == s2.chain;
    SameFreeCount(s2, k.S());
    StackMadeExtends(s, k.S(), root, commandLine, n, task);
    stackPointer := STACK_TOP - paddedArgSize;
  }

  /** Two zeroed allocations, then the first of the frames mapped and filled, are a run. */
  lemma StackReached(s: State, root: nat, off: nat, bs: seq<Byte>)
    requires Valid(s) && HasFrame(s) && IsRoot(s, root) && off + |bs| <= FRAME_SIZE
    requires Valid(AllocZeroed(s)) && HasFrame(AllocZeroed(s))
    requires var s1' := AllocZeroed(AllocZeroed(s)); var p := PathOf(STACK_PAGE);
      Valid(s1') && IsRoot(s1', root) && !ThroughBig(p) && Missing(s1'.mem, 4, root, p) <= FreeCount(s1')
    ensures var f, p := NextFrame(s), PathOf(STACK_PAGE);
      var s2 := MapPage(AllocZeroed(AllocZeroed(s)), root, p, f + 7);
      && f + off + |bs| <= |s2.mem|
      && KernelRuns.Reaches(s, s2.(mem := Blit(s2.mem, f + off, bs), owner := s2.owner[f := UserPage(root, p)]))
  {
    hide RegionOk, ChainOk, Partition, KernelFramesOk, TablesOk, AllocZeroed, Entry, MapPage, Blit, Missing, FreeCount;
    hide KernelRuns.Reaches, Aligned, NextFrame, ThroughBig, PathOf, HasFrame;
    var s1, f, p := AllocZeroed(s), NextFrame(s), PathOf(STACK_PAGE);
    var s1' := AllocZeroed(s1);
    StackPath();
    AllocatedFrame(s, root, p);
    AllocatedFrame(s1, root, p);
    AllocZeroedValid(s);
    AllocZeroedValid(s1);
    AllocShape(s);
    AllocShape(s1);
    KernelRuns.ReachesOne(s, KernelRuns.AllocZeroOp, s1);
    KernelRuns.ReachesOne(s1, KernelRuns.AllocZeroOp, s1');
    KernelRuns.ReachesFilled(s1', root, p, f, off, bs);
    var s2 := MapPage(s1', root, p, f + 7);
    var s3 := s2.(mem := Blit(s2.mem, f + off, bs), owner := s2.owner[f := UserPage(root, p)]);
    KernelRuns.ReachesTransitive(s, s1, s1');
    KernelRuns.ReachesTransitive(s, s1', s3);
  }

  /** Copies the command line and its NUL so that it ends within the padding below
      the top of the stack's frame. */
  method CopyArguments(k: Machine, initrdStack: nat, commandLine: nat, ghost n: nat) returns (paddedArgSize: nat)
    requires Klib.StringAt(k.ram[..], commandLine, n) && n < FRAME_SIZE
    requires initrdStack + FRAME_SIZE <= k.ram.Length
    requires commandLine + n + 1 <= initrdStack || initrdStack + FRAME_SIZE <= commandLine
    modifies k.ram
    ensures n + 1 <= paddedArgSize == PaddedArgSize(n) <= FRAME_SIZE
    ensures k.ram[..] == Blit(old(k.ram[..]), initrdStack + FRAME_SIZE - PaddedArgSize(n),
                              old(k.ram[..])[commandLine..commandLine + n + 1])
  {
    hide Blit;
    var argSize := Klib.Strlen(k.ram, commandLine);
    assert argSize == n;
    ArgumentFits(n);
    paddedArgSize := argSize / 16 * 16 + 16;
    Klib.Memcpy(k.ram, initrdStack + FRAME_SIZE - paddedArgSize, commandLine, argSize + 1);
  }

  lemma StackMadeExtends(s: State, s': State, root: nat, commandLine: nat, n: nat, task: nat)
    requires StackMade(s, s', root, commandLine, n, task)
    ensures Extends(s, s')
  {
  }

  /** Image, stack and task together, seen from the state before the process. */
  lemma ProcessMade(s0: State, sa: State, sb: State, sf: State, sg: State, start: nat, cmd: nat, n: nat, proc: Process)
    requires ModuleOk(s0, start, cmd, n) && Valid(s0)
    requires Loaded(s0, sa, sb, proc.root, ProgramAt(s0.mem, start, cmd, n))
    requires Valid(sf) && StackMade(sb, sf, proc.root, cmd, n, proc.task)
    requires sg == sf.(mem := sg.mem) && OnlyTask(sf.mem, sg.mem, proc.task)
    requires var prog := ProgramAt(s0.mem, start, cmd, n); var sp: Word := STACK_TOP - PaddedArgSize(n);
      forall j :: 0 <= j < FIELDS ==>
        (Field(sg.mem, proc.task, j) == NewField(j, sp, prog.entry, sp, proc.root, true, Field(sf.mem, proc.task, j)))
    ensures Valid(sg) && Extends(s0, sg) && SameTranslations(s0, sg)
    ensures Runs(sg, s0.mem, proc, ProgramAt(s0.mem, start, cmd, n))
  {
    hide RegionOk, ChainOk, Partition, KernelFramesOk, TablesOk, Aligned, Translate, PageHolds, PathOf, AddressOf;
    hide Extends, SameTranslations, Readable, ElfOk, KeepsOthers, Image, Segments, HeaderCount, EntryPoint;
    hide PageContent, Slice, Word64;
    hide OnlyTask, OnlyFrame, Runs;
    var prog, root, task := ProgramAt(s0.mem, start, cmd, n), proc.root, proc.task;
    ModuleKept(s0, sb, start, cmd, n);
    ExtendsTransitive(s0, sb, sf);
    TaskWritten(sf, sg, task);
    assert Extends(s0, sg) by { TaskFresh(s0, sb, sf, sg, task); }
    assert SameTranslations(s0, sg) by { OnlyStackMoved(s0, sb, sf, sg, root); }
    forall j | 0 <= j < FIELDS ensures Field(sf.mem, task, j) == 0 {
      assert Entry(sf.mem, task, j) == 0;
    }
    assert Slice(s0.mem, cmd, n + 1) == Slice(sb.mem, cmd, n + 1) == prog.args;
    assert PageHolds(sf, root, PathOf(STACK_PAGE), StackContent(prog));
    ProcessRuns(s0, sa, sb, sf, sg, start, cmd, n, proc);
  }

  lemma TaskFresh(s0: State, sb: State, sf: State, sg: State, task: nat)
    requires Valid(s0) && Valid(sf) && Extends(s0, sb) && Extends(sb, sf)
    requires task in sf.owner && task !in sb.owner
    requires sg == sf.(mem := sg.mem) && OnlyFrame(sf.mem, sg.mem, task)
    ensures Extends(s0, sg)
  {
    hide RegionOk, ChainOk, TablesOk, Aligned, KernelFramesOk;
    ExtendsTransitive(s0, sb, sf);
    assert s0.k.Frames() <= s0.owner.Keys by { KernelOwned(s0); }
    assert task !in s0.owner;
    assert Aligned(task) && s0.first <= task;
    assert task + FRAME_SIZE <= s0.end by { TaskBelow(sf, task); }
    forall f, j | f in s0.owner && Level(s0.owner[f]) == 0 && f <= j < f + FRAME_SIZE && j < |s0.mem|
      ensures sg.mem[j] == s0.mem[j] {
      FramesApart(f, task);
    }
  }

  lemma TaskBelow(s: State, f: nat)
    requires Valid(s) && f in s.owner && f !in s.k.Frames()
    ensures f + FRAME_SIZE <= s.end
  {
    hide ChainOk, KernelFramesOk, TablesOk, Aligned;
    FramesApart(f, s.end);
  }

  lemma OnlyStackMoved(s0: State, sb: State, sf: State, sg: State, root: nat)
    requires Extends(s0, sb) && SameTranslations(s0, sb) && SameTranslations(sf, sg) && root !in s0.owner
    requires Extends(sb, sf)
    requires OnlyPage(sb, sf, root, PathOf(STACK_PAGE))
    ensures SameTranslations(s0, sg)
  {
    forall r, p | IsRoot(s0, r) ensures Translate(sg.mem, r, p) == Translate(s0.mem, r, p) {
      assert IsRoot(sb, r) && IsRoot(sf, r);
    }
  }

  /** Creates a process. On success it runs the program its file and command line
      describe; every earlier address space translates, and every byte it owns
      reads, as before. ok is false where the kernel panics. */
  method MakeUserspaceProcess(k: Machine, elfStart: nat, commandLine: nat, ghost n: nat) returns (ok: bool,
      proc: Process)
    requires k.Ready() && ModuleOk(k.S(), elfStart, commandLine, n)
    modifies k, k.ram
    ensures k.Ready() && Extends(old(k.S()), k.S()) && SameTranslations(old(k.S()), k.S())
    ensures ok <==> ProcessCost(ProgramAt(old(k.S()).mem, elfStart, commandLine, n)) <= FreeCount(old(k.S()))
    ensures ok ==> FreeCount(k.S()) == FreeCount(old(k.S())) - ProcessCost(ProgramAt(old(k.S()).mem, elfStart,
              commandLine, n))
    ensures !ok ==> !HasFrame(k.S())
    ensures ok ==> KernelRuns.Reaches(old(k.S()), k.S())
    ensures ok ==> proc.root !in old(k.S()).owner && proc.task !in old(k.S()).owner
    ensures ok ==> Runs(k.S(), old(k.S()).mem, proc, ProgramAt(old(k.S()).mem, elfStart, commandLine, n))
  {
    hide RegionOk, ChainOk, Partition, KernelFramesOk, TablesOk, LinkWord;
    hide Extends, SameTranslations, Runs, ProgramAt, ElfOk, CommandLine, StackMade, NewField, OnlyTask, Field;
    ghost var s0 := k.S();
    proc := Process(0, 0);
    hide ProcessCost, LoadCost, Missing, PagesCost, FreeCount, Spent, KernelRuns.Reaches;
    ghost var prog := ProgramAt(s0.mem, elfStart, commandLine, n);
    CostsOrdered(prog);
    var root, entry;
    ghost var sa;
    ok, root, entry, sa := LoadProgram(k, elfStart, commandLine, n);
    if !ok {
      return;
    }
    ghost var sb := k.S();
    ModuleKept(s0, sb, elfStart, commandLine, n);
    LoadedFacts(s0, sa, sb, root, ProgramAt(s0.mem, elfStart, commandLine, n));
    ProgramRanges(s0, elfStart, commandLine, n);
    CostOfProgram(sa, k.S(), root, prog);
    hide Loaded;
    var task, stackPointer;
    ok, task, stackPointer := MakeStack(k, root, commandLine, n);
    ghost var sf := k.S();
    if !ok {
      ExtendsTransitive(s0, sb, sf);
      SameTranslationsTransitive(s0, sb, sf);
      return;
    }
    TaskPlace(sb, sf, s0, root, commandLine, n, task);
    MakeTask(k.ram, task, stackPointer, entry, stackPointer, root, 0, true);
    proc := Process(task, root);
    assert k.S() == sf.(mem := k.S().mem);
    SameFreeCount(sf, k.S());
    StackTask(sb, sf, root, commandLine, n, task);
    TaskReached(sf, k.S(), task);
    KernelRuns.ReachesTransitive(s0, sb, sf);
    KernelRuns.ReachesTransitive(s0, sf, k.S());
    ProcessMade(s0, sa, sb, sf, k.S(), elfStart, commandLine, n, proc);
  }

  lemma StackTask(s: State, s': State, root: nat, commandLine: nat, n: nat, task: nat)
    requires StackMade(s, s', root, commandLine, n, task)
    ensures task in s'.owner && s'.owner[task] == Data
  {
  }

  lemma LoadedFacts(s0: State, sa: State, sb: State, root: Word, prog: Program)
    requires Loaded(s0, sa, sb, root, prog) && Valid(sb)
    ensures IsRoot(sb, root) && root !in s0.owner && root != 0
  {
    hide RegionOk, ChainOk, Partition, KernelFramesOk, TablesOk;
    OwnedBelow(sb, root);
  }

  lemma TaskPlace(sb: State, sf: State, s0: State, root: nat, cmd: nat, n: nat, task: nat)
    requires StackMade(sb, sf, root, cmd, n, task) && Extends(s0, sb)
    ensures task + TASK_SIZE <= |sf.mem| && task !in s0.owner
  {
  }

  // ----- the boot loop -----

  datatype Module = Module(start: nat, commandLine: nat)

  /** The length of the string at `a`. */
  ghost function LineLength(m: Mem, a: nat): (n: nat)
    ensures (exists i :: Klib.StringAt(m, a, i)) ==> Klib.StringAt(m, a, n)
  {
    if i: nat :| Klib.StringAt(m, a, i) then i else 0
  }

  ghost predicate Bootable(s: State, mod: Module) {
    ModuleOk(s, mod.start, mod.commandLine, LineLength(s.mem, mod.commandLine))
  }

  ghost predicate ModulesOk(s: State, modules: seq<Module>) {
    forall i :: 0 <= i < |modules| ==> Bootable(s, modules[i])
  }

  ghost function ProgramOf(m: Mem, mod: Module): Program {
    ProgramAt(m, mod.start, mod.commandLine, LineLength(m, mod.commandLine))
  }

  lemma LineLengthKept(s: State, s': State, cmd: nat)
    requires CommandLine(s, cmd, LineLength(s.mem, cmd)) && Extends(s, s')
    ensures LineLength(s'.mem, cmd) == LineLength(s.mem, cmd)
  {
    hide Extends;
    StringKept(s, s', cmd, LineLength(s.mem, cmd));
  }

  /** The first `|procs|` modules run, each in an address space of its own. */
  ghost predicate AllRun(s: State, m: Mem, modules: seq<Module>, procs: seq<Process>) {
    && |procs| <= |modules|
    && (forall i :: 0 <= i < |procs| ==> Runs(s, m, procs[i], ProgramOf(m, modules[i])))
    && (forall i, j :: 0 <= i < j < |procs| ==> procs[i].root != procs[j].root && procs[i].task != procs[j].task)
  }

  /** A program read from a later memory is the program read from the first. */
  lemma RunsFrom(s0: State, s1: State, s: State, mod: Module, proc: Process)
    requires Bootable(s0, mod) && Extends(s0, s1)
    requires Runs(s, s1.mem, proc, ProgramOf(s1.mem, mod))
    ensures Runs(s, s0.mem, proc, ProgramOf(s0.mem, mod))
  {
    hide Extends, ElfOk, Klib.StringAt, ProgramAt, Translate, PageHolds, PathOf, AddressOf, SegmentPage, NewField;
    hide Field, StackContent, Winner;
    LineLengthKept(s0, s1, mod.commandLine);
    ModuleKept(s0, s1, mod.start, mod.commandLine, LineLength(s0.mem, mod.commandLine));
    var prog := ProgramOf(s0.mem, mod);
    forall p | UserPath(p) ensures PageRuns(s, s0.mem, proc.root, prog, p) {
      assert PageRuns(s, s1.mem, proc.root, prog, p);
      PathOfAddress(p);
    }
  }

  /** One more process, and the earlier ones as they were. */
  lemma OneMoreRuns(s0: State, s: State, s': State, modules: seq<Module>, procs: seq<Process>, proc: Process)
    requires ModulesOk(s0, modules) && Extends(s0, s) && AllRun(s, s0.mem, modules, procs) && |procs| < |modules|
    requires Extends(s, s') && SameTranslations(s, s') && proc.root !in s.owner && proc.task !in s.owner
    requires Runs(s', s.mem, proc, ProgramOf(s.mem, modules[|procs|]))
    ensures AllRun(s', s0.mem, modules, procs + [proc])
  {
    hide Extends, Translate, ProgramOf, PageRuns, Field, NewField, Bootable;
    var all := procs + [proc];
    forall i | 0 <= i < |all| ensures Runs(s', s0.mem, all[i], ProgramOf(s0.mem, modules[i])) {
      if i < |procs| {
        RunsKept(s, s', s0.mem, procs[i], ProgramOf(s0.mem, modules[i]));
      } else {
        RunsFrom(s0, s, s', modules[i], proc);
      }
    }
  }

  /** Frames the first `n` modules take together. */
  ghost function TotalCost(m: Mem, modules: seq<Module>, n: nat): nat
    requires n <= |modules|
  {
    if n == 0 then 0 else TotalCost(m, modules, n - 1) + ProcessCost(ProgramOf(m, modules[n - 1]))
  }

  lemma {:induction false} TotalGrows(m: Mem, modules: seq<Module>, i: nat, n: nat)
    requires i <= n <= |modules|
    ensures TotalCost(m, modules, i) <= TotalCost(m, modules, n)
    decreases n
  {
    hide ProcessCost, ProgramOf;
    if i < n {
      TotalGrows(m, modules, i, n - 1);
    }
  }

  /** A module asks for the same program, at the same cost, whenever it is read. */
  lemma SameProgram(s0: State, s: State, mod: Module)
    requires Bootable(s0, mod) && Extends(s0, s)
    ensures ProgramOf(s.mem, mod) == ProgramOf(s0.mem, mod)
  {
    hide ElfOk, Extends, ProgramAt;
    LineLengthKept(s0, s, mod.commandLine);
    ModuleKept(s0, s, mod.start, mod.commandLine, LineLength(s0.mem, mod.commandLine));
  }

  /** Creates a process for each boot module in turn. However many there are, each
      runs its own program in the end. ok is false where the kernel panics, which happens
      exactly when all of them together need more frames than there are; those created
      before that still run, and there are as many as the frames suffice for. */
  method StartProcesses(k: Machine, modules: seq<Module>) returns (ok: bool, procs: seq<Process>)
    requires k.Ready() && ModulesOk(k.S(), modules)
    modifies k, k.ram
    ensures k.Ready() && Extends(old(k.S()), k.S()) && SameTranslations(old(k.S()), k.S())
    ensures AllRun(k.S(), old(k.S()).mem, modules, procs)
    ensures if ok then |procs| == |modules| else !HasFrame(k.S())
    ensures ok <==> TotalCost(old(k.S()).mem, modules, |modules|) <= FreeCount(old(k.S()))
    ensures ok ==> FreeCount(k.S()) == FreeCount(old(k.S())) - TotalCost(old(k.S()).mem, modules, |modules|)
    ensures ok ==> KernelRuns.Reaches(old(k.S()), k.S())
    ensures !ok ==> |procs| < |modules|
    ensures !ok ==> TotalCost(old(k.S()).mem, modules, |procs|) <= FreeCount(old(k.S()))
                    < TotalCost(old(k.S()).mem, modules, |procs| + 1)
  {
    hide RegionOk, ChainOk, Partition, KernelFramesOk, TablesOk, LinkWord;
    hide Extends, SameTranslations, Runs, ModuleOk, ProgramOf, AllRun, LineLength, ProcessCost, FreeCount, HasFrame;
    hide KernelRuns.Reaches;
    ghost var s0 := k.S();
    SelfExtends(s0);
    NoFrame(s0);
    KernelRuns.ReachesSelf(s0);
    procs := [];
    NoneRun(s0, modules);
    ok := true;
    var i := 0;
    while i < |modules|
      invariant 0 <= i == |procs| <= |modules|
      invariant k.Ready() && Extends(s0, k.S()) && SameTranslations(s0, k.S())
      invariant AllRun(k.S(), s0.mem, modules, procs) && KernelRuns.Reaches(s0, k.S())
      invariant FreeCount(k.S()) == FreeCount(s0) - TotalCost(s0.mem, modules, i) >= 0
    {
      ghost var s := k.S();
      var mod := modules[i];
      ModuleStillOk(s0, s, mod);
      SameProgram(s0, s, mod);
      ProgramOfAt(s.mem, mod);
      TotalGrows(s0.mem, modules, i + 1, |modules|);
      var proc;
      ok, proc := MakeUserspaceProcess(k, mod.start, mod.commandLine, LineLength(s.mem, mod.commandLine));
      ExtendsTransitive(s0, s, k.S());
      SameTranslationsTransitive(s0, s, k.S());
      if !ok {
        StillAllRun(s, k.S(), s0.mem, modules, procs);
        return;
      }
      KernelRuns.ReachesTransitive(s0, s, k.S());
      assert Runs(k.S(), s.mem, proc, ProgramOf(s.mem, mod));
      OneMoreRuns(s0, s, k.S(), modules, procs, proc);
      procs := procs + [proc];
      i := i + 1;
    }
  }

  lemma NoneRun(s: State, modules: seq<Module>)
    ensures AllRun(s, s.mem, modules, [])
  {
  }

  lemma ProgramOfAt(m: Mem, mod: Module)
    ensures ProgramOf(m, mod) == ProgramAt(m, mod.start, mod.commandLine, LineLength(m, mod.commandLine))
  {
  }

  lemma ModuleStillOk(s0: State, s: State, mod: Module)
    requires Bootable(s0, mod) && Extends(s0, s)
    ensures Bootable(s, mod)
  {
    hide ElfOk, Extends;
    LineLengthKept(s0, s, mod.commandLine);
    ModuleKept(s0, s, mod.start, mod.commandLine, LineLength(s0.mem, mod.commandLine));
  }

  /** Processes keep running through anything that keeps their translations. */
  lemma StillAllRun(s: State, s': State, m: Mem, modules: seq<Module>, procs: seq<Process>)
    requires AllRun(s, m, modules, procs) && Extends(s, s') && SameTranslations(s, s')
    ensures AllRun(s', m, modules, procs)
  {
    hide Extends, Translate, ProgramOf, PageRuns, Field, NewField;
    forall i | 0 <= i < |procs| ensures Runs(s', m, procs[i], ProgramOf(m, modules[i])) {
      RunsKept(s, s', m, procs[i], ProgramOf(m, modules[i]));
    }
  }
}
