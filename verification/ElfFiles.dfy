/** The ELF-64 file format (System V gABI, chapters 4 and 5), field by field, and what the
    loader makes of such a file. */
module ElfFiles {
  import opened Bytes
  import opened Paging
  import opened Ownership
  import opened Layouts
  import opened Elf
  import opened Tasks
  import opened AddressSpace
  import opened Userspace

  // ----- the format -----

  datatype FileHeader = FileHeader(
    ident: nat, kind: nat, machine: nat, version: nat, entry: nat, phoff: nat, shoff: nat, flags: nat,
    ehsize: nat, phentsize: nat, phnum: nat, shentsize: nat, shnum: nat, shstrndx: nat)
  {
    function Items(): seq<Item> {
      [Item(ident, 16), Item(kind, 2), Item(machine, 2), Item(version, 4), Item(entry, 8), Item(phoff, 8),
       Item(shoff, 8), Item(flags, 4), Item(ehsize, 2), Item(phentsize, 2), Item(phnum, 2), Item(shentsize, 2),
       Item(shnum, 2), Item(shstrndx, 2)]
    }
  }

  datatype ProgramHeader = ProgramHeader(
    kind: nat, flags: nat, offset: nat, vaddr: nat, paddr: nat, filesz: nat, memsz: nat, align: nat)
  {
    function Items(): seq<Item> {
      [Item(kind, 4), Item(flags, 4), Item(offset, 8), Item(vaddr, 8), Item(paddr, 8), Item(filesz, 8),
       Item(memsz, 8), Item(align, 8)]
    }
  }

  /** A file with these headers lies at `start`. */
  ghost predicate FileAt(m: Mem, start: nat, h: FileHeader, phs: seq<ProgramHeader>) {
    && PackedAt(m, start, h.Items()) && h.phnum == |phs|
    && forall i :: 0 <= i < |phs| ==> PackedAt(m, start + h.phoff + h.phentsize * i, phs[i].Items())
  }

  // ----- what the loader reads of it -----

  lemma FileHeaderRead(m: Mem, start: nat, h: FileHeader)
    requires PackedAt(m, start, h.Items())
    ensures EntryPoint(m, start) == h.entry && HeaderCount(m, start) == h.phnum
    ensures forall i: nat :: HeaderAt(m, start, i) == start + h.phoff + h.phentsize * i
  {
    hide Number, PackedAt;
    var items := h.Items();
    assert Offset(items, 1) == 16;
    assert Offset(items, 2) == 18;
    assert Offset(items, 4) == 24;
    assert Offset(items, 5) == 32;
    assert Offset(items, 7) == 48;
    assert Offset(items, 9) == 54;
    assert Offset(items, 10) == 56;
    ReadItem(m, start, items, 4);
    ReadItem(m, start, items, 5);
    ReadItem(m, start, items, 9);
    ReadItem(m, start, items, 10);
  }

  /** The segment a header asks for; a size with the sign bit set counts as none. */
  function SegmentOf(start: nat, ph: ProgramHeader): Segment {
    Segment(ph.vaddr, if ph.memsz < 0x8000_0000_0000_0000 then ph.memsz else 0, ph.filesz, start + ph.offset)
  }

  lemma ProgramHeaderRead(m: Mem, start: nat, a: nat, ph: ProgramHeader)
    requires PackedAt(m, a, ph.Items())
    ensures Loadable(m, a) <==> ph.kind == 1
    ensures SegmentAt(m, start, a) == SegmentOf(start, ph)
  {
    hide Number;
    var items := ph.Items();
    Pow256Of8();
    assert items[6].Fits();
    hide PackedAt;
    assert Offset(items, 1) == 4;
    assert Offset(items, 2) == 8;
    assert Offset(items, 3) == 16;
    assert Offset(items, 4) == 24;
    assert Offset(items, 5) == 32;
    assert Offset(items, 6) == 40;
    ReadItem(m, a, items, 0);
    ReadItem(m, a, items, 2);
    ReadItem(m, a, items, 3);
    ReadItem(m, a, items, 5);
    ReadItem(m, a, items, 6);
  }

  /** The segments of the headers of type 1, in order. */
  function LoadSegments(start: nat, phs: seq<ProgramHeader>): seq<Segment> {
    if phs == [] then []
    else
      var last := phs[|phs| - 1];
      LoadSegments(start, phs[..|phs| - 1]) + if last.kind == 1 then [SegmentOf(start, last)] else []
  }

  /** The loader works on exactly those. */
  lemma {:induction false} SegmentsRead(m: Mem, start: nat, h: FileHeader, phs: seq<ProgramHeader>, n: nat)
    requires FileAt(m, start, h, phs) && n <= |phs|
    ensures Segments(m, start, n) == LoadSegments(start, phs[..n])
  {
    hide PackedAt, HeaderAt, Loadable, SegmentAt, SegmentOf;
    if n > 0 {
      SegmentsRead(m, start, h, phs, n - 1);
      FileHeaderRead(m, start, h);
      assert HeaderAt(m, start, n - 1) == start + h.phoff + h.phentsize * (n - 1);
      ProgramHeaderRead(m, start, HeaderAt(m, start, n - 1), phs[n - 1]);
      assert phs[..n][..n - 1] == phs[..n - 1];
    }
  }

  // ----- what the program sees -----

  /** No two loadable headers touch a common page. */
  ghost predicate Disjoint(start: nat, phs: seq<ProgramHeader>) {
    forall i, j :: 0 <= i < j < |phs| && phs[i].kind == 1 && phs[j].kind == 1 ==>
      !SharePage(SegmentOf(start, phs[i]), SegmentOf(start, phs[j]))
  }

  /** Where the segment of a loadable header is in the list. */
  lemma {:induction false} InLoadSegments(start: nat, phs: seq<ProgramHeader>, i: nat) returns (at: nat)
    requires i < |phs| && phs[i].kind == 1
    ensures at < |LoadSegments(start, phs)| && LoadSegments(start, phs)[at] == SegmentOf(start, phs[i])
  {
    var n := |phs| - 1;
    if i == n {
      at := |LoadSegments(start, phs[..n])|;
    } else {
      at := InLoadSegments(start, phs[..n], i);
    }
  }

  /** Every segment in the list is that of a header, and later ones are of later headers. */
  lemma {:induction false} FromHeader(start: nat, phs: seq<ProgramHeader>, j: nat) returns (i: nat)
    requires j < |LoadSegments(start, phs)|
    ensures i < |phs| && phs[i].kind == 1 && LoadSegments(start, phs)[j] == SegmentOf(start, phs[i])
  {
    var n := |phs| - 1;
    if j < |LoadSegments(start, phs[..n])| {
      i := FromHeader(start, phs[..n], j);
    } else {
      i := n;
    }
  }

  lemma {:induction false} DisjointPages(start: nat, phs: seq<ProgramHeader>)
    requires Disjoint(start, phs)
    ensures PagesDisjoint(LoadSegments(start, phs))
  {
    hide SharePage;
    if phs != [] {
      var n := |phs| - 1;
      assert Disjoint(start, phs[..n]);
      DisjointPages(start, phs[..n]);
      var front := LoadSegments(start, phs[..n]);
      if phs[n].kind == 1 {
        forall j | 0 <= j < |front| ensures !SharePage(front[j], SegmentOf(start, phs[n])) {
          var i := FromHeader(start, phs[..n], j);
        }
      }
    }
  }

  /** The byte a loadable header puts at `va`: the file's, then zeros. */
  function ByteAt(m: Mem, start: nat, ph: ProgramHeader, va: nat): Byte
    requires ph.vaddr <= va && start + ph.offset + ph.filesz <= |m|
  {
    if va < ph.vaddr + ph.filesz then m[start + ph.offset + (va - ph.vaddr)] else 0
  }

  ghost predicate InSegment(m: Mem, start: nat, ph: ProgramHeader, va: nat) {
    && ph.kind == 1 && ph.memsz < 0x8000_0000_0000_0000 && start + ph.offset + ph.filesz <= |m|
    && ph.vaddr <= va < ph.vaddr + ph.memsz
  }

  /** A loaded file is seen as its headers say, if their pages are disjoint. */
  lemma FileSeen(s: State, root: nat, m: Mem, start: nat, h: FileHeader, phs: seq<ProgramHeader>, i: nat, va: Word)
    requires FileAt(m, start, h, phs) && Image(s, root, m, Segments(m, start, HeaderCount(m, start)))
    requires Disjoint(start, phs) && i < |phs| && InSegment(m, start, phs[i], va) && Canonical(va)
    ensures UserByte(s.mem, root, va) == Some(ByteAt(m, start, phs[i], va))
  {
    hide UserByte, Image, PackedAt, Disjoint, Segments, SharePage, PagesDisjoint;
    FileHeaderRead(m, start, h);
    SegmentsRead(m, start, h, phs, |phs|);
    assert phs[..|phs|] == phs;
    DisjointPages(start, phs);
    var at := InLoadSegments(start, phs, i);
    EverySegmentSeen(s, root, m, LoadSegments(start, phs), at, va);
  }

  /** And so by a process made from it: it starts at the file's entry point and sees every
      segment in every page but the stack's. */
  lemma ProcessSeesFile(s: State, m: Mem, proc: Process, start: nat, cmd: nat, n: nat,
                        h: FileHeader, phs: seq<ProgramHeader>, i: nat, va: Word)
    requires FileAt(m, start, h, phs) && Runs(s, m, proc, ProgramAt(m, start, cmd, n))
    requires Disjoint(start, phs) && i < |phs| && InSegment(m, start, phs[i], va)
    requires Canonical(va) && UserPath(PathOf(va)) && va / FRAME_SIZE * FRAME_SIZE != STACK_PAGE
    ensures UserByte(s.mem, proc.root, va) == Some(ByteAt(m, start, phs[i], va))
    ensures Field(s.mem, proc.task, RIP) == h.entry
  {
    hide UserByte, PackedAt, Disjoint, Segments, SharePage, PageRuns, Field, PathOf, StackPointer;
    FileHeaderRead(m, start, h);
    SegmentsRead(m, start, h, phs, |phs|);
    assert phs[..|phs|] == phs;
    DisjointPages(start, phs);
    var prog := ProgramAt(m, start, cmd, n);
    assert Field(s.mem, proc.task, RIP) == prog.entry;
    var at := InLoadSegments(start, phs, i);
    InItsPages(prog.segs[at], va);
    KeptIffDisjoint(prog.segs);
    ImageSeen(s, m, proc, prog, at, va);
  }

  /** What filling in zeros is for: 0x200 bytes of a file, then zeros up to 0x3000. */
  lemma ZeroedTail(s: State, root: nat, m: Mem, start: nat, h: FileHeader, va: Word)
    requires var phs := [ProgramHeader(1, 6, 0x1000, 0x40_0000, 0, 0x200, 0x3000, 0x1000)];
      && FileAt(m, start, h, phs) && Image(s, root, m, Segments(m, start, HeaderCount(m, start)))
    requires start + 0x1200 <= |m| && 0x40_0000 <= va < 0x40_3000
    ensures UserByte(s.mem, root, va) == Some(if va < 0x40_0200 then m[start + 0x1000 + (va - 0x40_0000)] else 0)
  {
    hide UserByte, Image, FileAt, Segments;
    var phs := [ProgramHeader(1, 6, 0x1000, 0x40_0000, 0, 0x200, 0x3000, 0x1000)];
    FileSeen(s, root, m, start, h, phs, 0, va);
  }
}
