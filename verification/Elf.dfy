/** src/elf.c: loading the segments of an ELF file into an address space. */
module Elf {
  import opened Bytes
  import opened Paging
  import opened Ownership
  import opened Machines
  import opened Frame
  import opened Radix
  import opened Population
  import opened Accounting
  import opened AddressSpace
  import opened UserMemory
  import KernelRuns

  // ----- what a segment means -----

  /** A loadable segment: `filesz` bytes of the file, at physical address `source`,
      belong at virtual address `vaddr`; the rest of its `memsz` bytes are 0. */
  datatype Segment = Segment(vaddr: nat, memsz: nat, filesz: nat, source: nat) {
    /** First page it touches, and first page after the last. */
    function Lo(): nat { vaddr / FRAME_SIZE * FRAME_SIZE }
    function Hi(): (h: nat)
      ensures Lo() <= h
    {
      if memsz == 0 then Lo() else (vaddr + memsz - 1) / FRAME_SIZE * FRAME_SIZE + FRAME_SIZE
    }

    /** The pages it touches, in order. */
    function Pages(): seq<Path> { Span(Lo(), Hi()) }

    /** How many bytes of the file end up in its pages. */
    function Copied(): nat { if vaddr + filesz <= Hi() then filesz else if Hi() <= vaddr then 0 else Hi() - vaddr }
  }

  /** Those bytes of the file part that lie in a page the segment touches, and no others. */
  lemma CopiedIs(seg: Segment, i: nat)
    requires i < seg.filesz
    ensures i < seg.Copied() <==> seg.vaddr + i < seg.Hi()
    ensures seg.Copied() <= seg.filesz
  {
  }

  /** The pages it touches are those that overlap it. */
  lemma TouchedIs(seg: Segment, q: nat)
    requires q % FRAME_SIZE == 0
    ensures Covers(seg, q) <==> seg.memsz > 0 && q < seg.vaddr + seg.memsz && seg.vaddr < q + FRAME_SIZE
  {
    var x := q / FRAME_SIZE;
    assert q == x * FRAME_SIZE;
    PageOrder(seg.vaddr, x);
    if seg.memsz > 0 {
      PageOrder(seg.vaddr + seg.memsz - 1, x);
    }
  }

  /** An address lies below the end of a page exactly if its own page is no later. */
  lemma PageOrder(a: nat, x: nat)
    ensures a / FRAME_SIZE * FRAME_SIZE <= x * FRAME_SIZE <==> a < x * FRAME_SIZE + FRAME_SIZE
    ensures x * FRAME_SIZE < a / FRAME_SIZE * FRAME_SIZE + FRAME_SIZE <==> x * FRAME_SIZE <= a
  {
    var q := a / FRAME_SIZE;
    assert q * FRAME_SIZE <= a < q * FRAME_SIZE + FRAME_SIZE;
    assert q <= x ==> q * FRAME_SIZE <= x * FRAME_SIZE;
    assert q > x ==> q * FRAME_SIZE >= x * FRAME_SIZE + FRAME_SIZE;
  }

  /** The byte that belongs at `va`, given the memory that holds the file. */
  function SegmentByte(m: Mem, seg: Segment, va: nat): Byte {
    if seg.vaddr <= va < seg.vaddr + seg.filesz && seg.source + (va - seg.vaddr) < |m|
    then m[seg.source + (va - seg.vaddr)] else 0
  }

  function SegmentPage(m: Mem, seg: Segment, q: nat): (c: seq<Byte>)
    ensures |c| == FRAME_SIZE
  {
    seq<Byte>(FRAME_SIZE, (j: int) requires 0 <= j < FRAME_SIZE => SegmentByte(m, seg, q + j))
  }

  /** Every page of `lo..hi` is mapped and holds what `seg` wants there. */
  ghost predicate Holds(s: State, root: nat, m: Mem, seg: Segment, lo: nat, hi: nat) {
    forall q: Word :: q % FRAME_SIZE == 0 && lo <= q < hi ==> PageHolds(s, root, PathOf(q), SegmentPage(m, seg, q))
  }

  // ----- copy_section -----

  /** One more page held, the earlier ones kept. */
  lemma HoldsGrows(s: State, s': State, root: nat, m: Mem, seg: Segment, lo: nat, q: Word, hi: nat)
    requires Holds(s, root, m, seg, lo, q) && Extends(s, s') && IsRoot(s, root)
    requires UserRange(lo, hi) && q % FRAME_SIZE == 0 && lo <= q < hi
    requires PageHolds(s', root, PathOf(q), SegmentPage(m, seg, q))
    requires OnlyPage(s, s', root, PathOf(q))
    ensures Holds(s', root, m, seg, lo, q + FRAME_SIZE)
  {
    hide PageHolds, Extends, PathOf, SegmentPage;
    forall q': Word | q' % FRAME_SIZE == 0 && lo <= q' < q + FRAME_SIZE
      ensures PageHolds(s', root, PathOf(q'), SegmentPage(m, seg, q')) {
      if q' != q {
        assert q' < q;
        UserRangePath(lo, q, hi);
        UserRangePath(lo, q', hi);
        assert PathOf(q') != PathOf(q);
        PageHoldsKept(s, s', root, PathOf(q'), SegmentPage(m, seg, q'));
      }
    }
  }

  lemma OnePageOutside(s: State, s': State, root: nat, q: Word, lo: nat, hi: nat)
    requires UserRange(lo, hi) && lo <= q < hi && q % FRAME_SIZE == 0
    requires OnlyPage(s, s', root, PathOf(q))
    ensures KeepsOutside(s, s', root, q, q + FRAME_SIZE)
  {
    hide PathOf, AddressOf;
    UserRangePath(lo, q, hi);
  }

  /** Where one iteration stands: the bounds the kernel's variables keep. */
  ghost predicate Progress(seg: Segment, vaddr: nat, memsz: int, filesz: nat, source: nat) {
    && seg.vaddr <= vaddr && memsz == seg.memsz - (vaddr - seg.vaddr)
    && (vaddr == seg.vaddr || vaddr % FRAME_SIZE == 0)
    && filesz == (if vaddr - seg.vaddr <= seg.filesz then seg.filesz - (vaddr - seg.vaddr) else 0)
    && (filesz > 0 ==> source == seg.source + (vaddr - seg.vaddr))
  }

  /** What one iteration copies is what the segment wants in that page. */
  lemma IterationContent(m: Mem, seg: Segment, vaddr: nat, memsz: int, filesz: nat, source: nat, n: nat)
    requires Progress(seg, vaddr, memsz, filesz, source)
    requires n == if filesz + vaddr % FRAME_SIZE > FRAME_SIZE then FRAME_SIZE - vaddr % FRAME_SIZE else filesz
    requires vaddr % FRAME_SIZE + n <= FRAME_SIZE && (n == 0 || source + n <= |m|)
    ensures PageContent(vaddr % FRAME_SIZE, Slice(m, source, n)) == SegmentPage(m, seg, vaddr - vaddr % FRAME_SIZE)
  {
    var off := vaddr % FRAME_SIZE;
    assert vaddr == seg.vaddr || off == 0;
    ByteContent(m, seg, vaddr, off, memsz, filesz, source, n);
  }

  lemma ByteContent(m: Mem, seg: Segment, vaddr: nat, off: nat, memsz: int, filesz: nat, source: nat, n: nat)
    requires off <= vaddr && (vaddr == seg.vaddr || off == 0) && seg.vaddr <= vaddr
    requires filesz == if vaddr - seg.vaddr <= seg.filesz then seg.filesz - (vaddr - seg.vaddr) else 0
    requires filesz > 0 ==> source == seg.source + (vaddr - seg.vaddr)
    requires n == if filesz + off > FRAME_SIZE then FRAME_SIZE - off else filesz
    requires off + n <= FRAME_SIZE && (n == 0 || source + n <= |m|)
    ensures PageContent(off, Slice(m, source, n)) == SegmentPage(m, seg, vaddr - off)
  {
    hide Zeros, Blit;
    var q := vaddr - off;
    var bs := Slice(m, source, n);
    var x, y := PageContent(off, bs), SegmentPage(m, seg, q);
    forall j | 0 <= j < FRAME_SIZE ensures x[j] == y[j] {
      assert y[j] == SegmentByte(m, seg, q + j);
      if off <= j < off + n {
        assert x[j] == x[off..off + n][j - off] == bs[j - off];
      } else {
        assert x[j] == Zeros(FRAME_SIZE)[j] == 0;
      }
    }
  }

  lemma ProgressStep(seg: Segment, vaddr: nat, memsz: int, filesz: nat, source: nat)
    requires Progress(seg, vaddr, memsz, filesz, source) && memsz > 0
    ensures var off := vaddr % FRAME_SIZE;
      var n := if filesz + off > FRAME_SIZE then FRAME_SIZE - off else filesz;
      && off + n <= FRAME_SIZE && n <= filesz && seg.Lo() <= vaddr - off && vaddr - off + FRAME_SIZE <= seg.Hi()
      && (n > 0 ==> seg.source <= source && source + n <= seg.source + seg.Copied())
      && Progress(seg, vaddr - off + FRAME_SIZE, memsz + off - FRAME_SIZE, filesz - n, source + n)
      && (memsz + off - FRAME_SIZE <= 0 ==> vaddr - off + FRAME_SIZE == seg.Hi())
      && (vaddr - off) % FRAME_SIZE == 0 && seg.Lo() % FRAME_SIZE == 0
  {
    var last := seg.vaddr + seg.memsz - 1;
    var q, a, l := vaddr / FRAME_SIZE, seg.vaddr / FRAME_SIZE, last / FRAME_SIZE;
    assert vaddr == q * FRAME_SIZE + vaddr % FRAME_SIZE;
    assert a <= q <= l;
  }

  /** One iteration, as seen from the state before the loop. */
  lemma IterationEffect(s0: State, s: State, s': State, root: nat, seg: Segment,
                        vaddr: nat, memsz: int, filesz: nat, source: nat, n: nat)
    requires Progress(seg, vaddr, memsz, filesz, source) && memsz > 0
    requires UserRange(seg.Lo(), seg.Hi()) && Readable(s0, seg.source, seg.Copied())
    requires n == if filesz + vaddr % FRAME_SIZE > FRAME_SIZE then FRAME_SIZE - vaddr % FRAME_SIZE else filesz
    requires IsRoot(s0, root) && Extends(s0, s) && Extends(s, s')
    requires var q := vaddr - vaddr % FRAME_SIZE;
      && q < 0x1_0000_0000_0000_0000 && vaddr % FRAME_SIZE + n <= FRAME_SIZE && |Slice(s.mem, source, n)| == n
      && KeepsOutside(s0, s, root, seg.Lo(), q) && Holds(s, root, s0.mem, seg, seg.Lo(), q)
      && PageHolds(s', root, PathOf(q), PageContent(vaddr % FRAME_SIZE, Slice(s.mem, source, n)))
      && OnlyPage(s, s', root, PathOf(q))
    ensures var q := vaddr - vaddr % FRAME_SIZE + FRAME_SIZE;
            Extends(s0, s') && KeepsOutside(s0, s', root, seg.Lo(), q) && Holds(s', root, s0.mem, seg, seg.Lo(), q)
  {
    hide Extends, KeepsOutside, Holds, PageHolds, PathOf, Readable, PageContent, SegmentPage, Slice, Translate;
    ProgressStep(seg, vaddr, memsz, filesz, source);
    var q := vaddr - vaddr % FRAME_SIZE;
    ReadablePart(s0, seg.source, seg.Copied(), source, n);
    ReadableKept(s0, s, source, n);
    SliceFits(s0, source, n);
    IterationContent(s0.mem, seg, vaddr, memsz, filesz, source, n);
    StillRoot(s0, s, root);
    HoldsGrows(s, s', root, s0.mem, seg, seg.Lo(), q, seg.Hi());
    OnePageOutside(s, s', root, q, seg.Lo(), seg.Hi());
    KeepsOutsideTransitive(s0, s, s', root, seg.Lo(), q, q + FRAME_SIZE);
    ExtendsTransitive(s0, s, s');
  }

  lemma SliceFits(s: State, a: nat, n: nat)
    requires Readable(s, a, n)
    ensures n == 0 || a + n <= |s.mem|
  {
  }

  lemma NothingYet(s: State, root: nat, seg: Segment)
    ensures Extends(s, s) && KeepsOutside(s, s, root, seg.Lo(), seg.Lo())
    ensures Holds(s, root, s.mem, seg, seg.Lo(), seg.Lo())
  {
  }

  lemma KeepsMore(s0: State, s: State, s': State, root: nat, lo: nat, mid: nat, hi: nat)
    requires Extends(s0, s) && Extends(s, s') && KeepsOutside(s0, s, root, lo, mid) && SameTranslations(s, s')
    requires mid <= hi
    ensures Extends(s0, s') && KeepsOutside(s0, s', root, lo, hi)
  {
    hide AddressOf;
    ExtendsTransitive(s0, s, s');
    forall r, p | IsRoot(s0, r) && !(r == root && lo <= AddressOf(p) < hi)
      ensures Translate(s'.mem, r, p) == Translate(s0.mem, r, p) {
      assert IsRoot(s, r);
    }
  }

  // ----- how many frames a segment takes -----

  /** Tables on the way to page number `y` that are not on the way to page `x`. */
  function UnsharedPages(x: nat, y: nat): nat {
    if x / 512 / 512 / 512 != y / 512 / 512 / 512 then 3
    else if x / 512 / 512 != y / 512 / 512 then 2
    else if x / 512 != y / 512 then 1
    else 0
  }

  lemma UnsharedIs(lo: nat, hi: nat, va: Word, va': Word)
    requires UserRange(lo, hi) && lo <= va < hi && lo <= va' < hi
    ensures Unshared(PathOf(va), PathOf(va')) == UnsharedPages(va / FRAME_SIZE, va' / FRAME_SIZE)
  {
    PathDigits(va);
    PathDigits(va');
    hide PathOf;
    TopDigit(lo, hi, va);
    TopDigit(lo, hi, va');
    var x, y := va / FRAME_SIZE, va' / FRAME_SIZE;
    assert x / 512 == x / 512 / 512 * 512 + x / 512 % 512 && y / 512 == y / 512 / 512 * 512 + y / 512 % 512;
    assert x / 512 / 512 == x / 512 / 512 / 512 * 512 + x / 512 / 512 % 512;
    assert y / 512 / 512 == y / 512 / 512 / 512 * 512 + y / 512 / 512 % 512;
  }

  /** In one half of the address space the top index is the top digit itself. */
  lemma TopDigit(lo: nat, hi: nat, va: Word)
    requires UserRange(lo, hi) && lo <= va < hi
    ensures var top := va / FRAME_SIZE / 512 / 512 / 512;
            if hi <= CANONICAL_LOW then top < 512 && top == top % 512 else top == 0xFFFF * 512 + top % 512
  {
    var top := va / FRAME_SIZE / 512 / 512 / 512;
    assert top == va / SIZE_512G by {
      assert va / SIZE_2M == va / FRAME_SIZE / 512;
      assert va / SIZE_1G == va / SIZE_2M / 512;
    }
    if hi <= CANONICAL_LOW {
      assert top < 256;
    } else {
      assert 0xFFFF * 512 <= top < 0xFFFF * 512 + 512;
    }
  }

  /** Tables and data frames for the pages of `lo..hi` in a fresh address space: one
      frame for each page and one for each distinct 2M, 1G and 512G slot. */
  function Cost(lo: nat, hi: nat): int {
    var a, z := lo / FRAME_SIZE, hi / FRAME_SIZE - 1;
    if z < a then 0
    else (z - a + 1) + (z / 512 - a / 512 + 1) + (z / 512 / 512 - a / 512 / 512 + 1)
         + (z / 512 / 512 / 512 - a / 512 / 512 / 512 + 1)
  }

  /** The next page costs itself and the tables it does not share with the last. */
  lemma CostStep(lo: nat, q: nat)
    requires lo % FRAME_SIZE == 0 && q % FRAME_SIZE == 0 && lo <= q
    ensures Cost(lo, q + FRAME_SIZE) == Cost(lo, q) + 1 +
            if q == lo then 3 else UnsharedPages(q / FRAME_SIZE - 1, q / FRAME_SIZE)
  {
    var a, p := lo / FRAME_SIZE, q / FRAME_SIZE;
    assert (q + FRAME_SIZE) / FRAME_SIZE == p + 1;
    if q != lo {
      assert a <= p - 1;
      NextDigit(p - 1);
      NextDigit((p - 1) / 512);
      NextDigit((p - 1) / 512 / 512);
    }
  }

  lemma NextDigit(x: nat)
    ensures (x + 1) / 512 == x / 512 || ((x + 1) / 512 == x / 512 + 1)
  {
  }

  /** A later page shares no less with the page just mapped than with the one before. */
  lemma CloserShares(x: nat, p: nat, y: nat)
    requires x <= p <= y
    ensures UnsharedPages(p, y) <= UnsharedPages(x, y)
  {
    assert x / 512 <= p / 512 <= y / 512;
    assert x / 512 / 512 <= p / 512 / 512 <= y / 512 / 512;
    assert x / 512 / 512 / 512 <= p / 512 / 512 / 512 <= y / 512 / 512 / 512;
  }

  /** The pages of `lo..hi`, in order. */
  function Span(lo: nat, hi: nat): seq<Path> {
    if hi < lo + FRAME_SIZE then [] else Span(lo, hi - FRAME_SIZE) + [PathOf(hi - FRAME_SIZE)]
  }

  lemma {:induction false} SpanSplit(lo: nat, mid: nat, hi: nat)
    requires Aligned(lo) && Aligned(mid) && Aligned(hi) && lo <= mid <= hi
    ensures Span(lo, hi) == Span(lo, mid) + Span(mid, hi)
    decreases hi
  {
    hide PathOf, Aligned;
    if mid < hi {
      FrameBelow(mid, hi);
      SpanSplit(lo, mid, hi - FRAME_SIZE);
    } else {
      assert Span(mid, hi) == [];
    }
  }

  /** The pages up to and including `q` cost no more than all of them. */
  lemma PrefixSpanCost(m: Mem, root: nat, lo: nat, q: nat, hi: nat)
    requires lo % FRAME_SIZE == 0 && q % FRAME_SIZE == 0 && hi % FRAME_SIZE == 0 && lo <= q < hi
    ensures PagesCost(m, root, Span(lo, q) + [PathOf(q)]) <= PagesCost(m, root, Span(lo, hi))
  {
    hide PathOf, PagesCost;
    FramesApart(q, hi);
    SpanSplit(lo, q + FRAME_SIZE, hi);
    PrefixCost(m, root, Span(lo, q + FRAME_SIZE), Span(q + FRAME_SIZE, hi));
  }

  /** In a run of consecutive pages the last one shares most with any later page. */
  lemma {:induction false} NearestSpan(lo: nat, q: nat, hi: nat, y: nat)
    requires UserRange(lo, hi) && lo % FRAME_SIZE == 0 && q % FRAME_SIZE == 0 && lo <= q <= y < hi
    ensures Nearest(Span(lo, q), PathOf(y)) ==
            if q == lo then 3 else UnsharedPages((q - FRAME_SIZE) / FRAME_SIZE, y / FRAME_SIZE)
    decreases q
  {
    hide PathOf, UnsharedPages, Unshared;
    if q > lo {
      FramesApart(lo, q);
      var x := q - FRAME_SIZE;
      NearestSpan(lo, x, hi, y);
      Snoc(Span(lo, x), PathOf(x));
      UnsharedIs(lo, hi, x, y);
      UnsharedBound(PathOf(x), PathOf(y));
      if x > lo {
        FramesApart(lo, x);
        CloserShares((x - FRAME_SIZE) / FRAME_SIZE, x / FRAME_SIZE, y / FRAME_SIZE);
      }
    }
  }

  /** What a run of pages costs, page by page, from any starting state: the page, and
      those of its missing tables that the page before did not already need. */
  lemma SpanCost(m: Mem, root: nat, lo: nat, q: nat, hi: nat)
    requires UserRange(lo, hi) && lo % FRAME_SIZE == 0 && q % FRAME_SIZE == 0 && lo <= q < hi
    ensures PagesCost(m, root, Span(lo, q + FRAME_SIZE)) == PagesCost(m, root, Span(lo, q)) + 1 +
            Min(Missing(m, 4, root, PathOf(q)),
                if q == lo then 3 else UnsharedPages((q - FRAME_SIZE) / FRAME_SIZE, q / FRAME_SIZE))
  {
    hide PathOf, UnsharedPages, Unshared, Missing, Nearest;
    Snoc(Span(lo, q), PathOf(q));
    NearestSpan(lo, q, hi, q);
  }

  /** Where no table of the range is there yet, the cost has a closed form. */
  lemma {:induction false} FreshSpanCost(m: Mem, root: nat, lo: nat, q: nat, hi: nat)
    requires UserRange(lo, hi) && lo % FRAME_SIZE == 0 && q % FRAME_SIZE == 0 && lo <= q <= hi
    requires forall y: nat :: y % FRAME_SIZE == 0 && lo <= y < hi ==> Missing(m, 4, root, PathOf(y)) == 3
    ensures PagesCost(m, root, Span(lo, q)) == Cost(lo, q)
    decreases q
  {
    hide PathOf, UnsharedPages, Missing, PagesCost;
    if q > lo {
      FramesApart(lo, q);
      var x := q - FRAME_SIZE;
      FreshSpanCost(m, root, lo, x, hi);
      SpanCost(m, root, lo, x, hi);
      CostStep(lo, x);
      assert (x - FRAME_SIZE) / FRAME_SIZE == x / FRAME_SIZE - 1;
    } else {
      EmptyCost(m, root, lo);
    }
  }

  lemma EmptyCost(m: Mem, root: nat, lo: nat)
    ensures PagesCost(m, root, Span(lo, lo)) == 0 == Cost(lo, lo)
  {
  }

  /** Everything the loop keeps, with the pages before `done` copied. */
  ghost predicate Midway(s0: State, s: State, root: nat, seg: Segment, done: nat) {
    && seg.Lo() <= done && IsRoot(s, root) && Extends(s0, s)
    && KeepsOutside(s0, s, root, seg.Lo(), done) && Holds(s, root, s0.mem, seg, seg.Lo(), done)
    && Spent(s0, s, root, Span(seg.Lo(), done))
  }

  lemma StartCopy(s: State, root: nat, seg: Segment)
    requires IsRoot(s, root)
    ensures Midway(s, s, root, seg, seg.Lo())
  {
    hide Spent, Holds, KeepsOutside, Extends;
    NothingYet(s, root, seg);
    SpentNothing(s, root);
  }

  lemma MidwayStep(s0: State, s: State, s': State, root: nat, seg: Segment,
                   vaddr: nat, memsz: int, filesz: nat, source: nat, n: nat)
    requires Progress(seg, vaddr, memsz, filesz, source) && memsz > 0
    requires UserRange(seg.Lo(), seg.Hi()) && Readable(s0, seg.source, seg.Copied())
    requires n == if filesz + vaddr % FRAME_SIZE > FRAME_SIZE then FRAME_SIZE - vaddr % FRAME_SIZE else filesz
    requires IsRoot(s0, root) && Extends(s, s')
    requires var q := vaddr - vaddr % FRAME_SIZE;
      && q < 0x1_0000_0000_0000_0000 && vaddr % FRAME_SIZE + n <= FRAME_SIZE && |Slice(s.mem, source, n)| == n
      && Midway(s0, s, root, seg, q)
      && PageHolds(s', root, PathOf(q), PageContent(vaddr % FRAME_SIZE, Slice(s.mem, source, n)))
      && FreeCount(s') == FreeCount(s) - 1 - Missing(s.mem, 4, root, PathOf(q)) && Populated(s, s', root, PathOf(q), 1)
      && OnlyPage(s, s', root, PathOf(q))
    ensures Midway(s0, s', root, seg, vaddr - vaddr % FRAME_SIZE + FRAME_SIZE)
  {
    hide Extends, KeepsOutside, Holds, PageHolds, PathOf, Readable, PageContent, SegmentPage, Slice, Translate;
    hide Spent, Populated, Missing, FreeCount, UserRange;
    IterationEffect(s0, s, s', root, seg, vaddr, memsz, filesz, source, n);
    ProgressStep(seg, vaddr, memsz, filesz, source);
    MidwayGrows(s0, s, s', root, seg, vaddr - vaddr % FRAME_SIZE);
  }

  lemma MidwayGrows(s0: State, s: State, s': State, root: nat, seg: Segment, q: Word)
    requires Midway(s0, s, root, seg, q) && Extends(s, s') && Extends(s0, s') && IsRoot(s0, root)
    requires KeepsOutside(s0, s', root, seg.Lo(), q + FRAME_SIZE)
    requires Holds(s', root, s0.mem, seg, seg.Lo(), q + FRAME_SIZE)
    requires UserRange(seg.Lo(), seg.Hi()) && seg.Lo() % FRAME_SIZE == 0 && q % FRAME_SIZE == 0 && q < seg.Hi()
    requires FreeCount(s') == FreeCount(s) - 1 - Missing(s.mem, 4, root, PathOf(q))
    requires Populated(s, s', root, PathOf(q), 1)
    ensures Midway(s0, s', root, seg, q + FRAME_SIZE)
  {
    hide Extends, KeepsOutside, Holds, PathOf, Spent, Populated, Missing, FreeCount, UserRange;
    StillRoot(s0, s', root);
    SpentStep(s0, s, s', root, Span(seg.Lo(), q), PathOf(q));
  }

  lemma MidwayFails(s0: State, s: State, s': State, root: nat, seg: Segment, q: Word)
    requires Midway(s0, s, root, seg, q) && Extends(s, s') && SameTranslations(s, s')
    requires q % FRAME_SIZE == 0 && seg.Hi() % FRAME_SIZE == 0 && q < seg.Hi()
    requires 1 + Missing(s.mem, 4, root, PathOf(q)) > FreeCount(s)
    ensures Extends(s0, s') && KeepsOutside(s0, s', root, seg.Lo(), seg.Hi())
    ensures PagesCost(s0.mem, root, seg.Pages()) > FreeCount(s0)
  {
    hide Extends, KeepsOutside, Holds, PathOf, Spent, PagesCost, Missing, FreeCount, SameTranslations, Span;
    KeepsMore(s0, s, s', root, seg.Lo(), q, seg.Hi());
    NextCost(s0, s, root, Span(seg.Lo(), q), PathOf(q));
    assert seg.Lo() % FRAME_SIZE == 0;
    PrefixSpanCost(s0.mem, root, seg.Lo(), q, seg.Hi());
  }

  lemma CopyDone(s0: State, s: State, root: nat, seg: Segment)
    requires Valid(s) && Midway(s0, s, root, seg, seg.Hi())
    ensures Extends(s0, s) && KeepsOutside(s0, s, root, seg.Lo(), seg.Hi())
    ensures Holds(s, root, s0.mem, seg, seg.Lo(), seg.Hi())
    ensures Spent(s0, s, root, seg.Pages()) && PagesCost(s0.mem, root, seg.Pages()) <= FreeCount(s0)
  {
    hide Extends, KeepsOutside, Holds, FreeCount, PagesCost, Missing, RegionOk, ChainOk, Partition;
    hide KernelFramesOk, TablesOk;
    NoFrame(s);
  }

  /** Copies a segment page by page; ok is false where the kernel panics, which is
      exactly when its pages cost more frames than there are. */
  method CopySection(k: Machine, root: nat, vaddr0: Word, sectionStart0: nat, memsz0: int, filesz0: nat,
      ghost seg: Segment)
    returns (ok: bool)
    requires k.Ready() && IsRoot(k.S(), root)
    requires seg == Segment(vaddr0, if memsz0 < 0 then 0 else memsz0, filesz0, sectionStart0)
    requires UserRange(seg.Lo(), seg.Hi()) && Readable(k.S(), sectionStart0, seg.Copied())
    modifies k, k.ram
    ensures k.Ready() && Extends(old(k.S()), k.S())
    ensures KeepsOutside(old(k.S()), k.S(), root, seg.Lo(), seg.Hi())
    ensures ok ==> Holds(k.S(), root, old(k.S()).mem, seg, seg.Lo(), seg.Hi())
    ensures !ok ==> !HasFrame(k.S())
    ensures ok <==> PagesCost(old(k.S()).mem, root, seg.Pages()) <= FreeCount(old(k.S()))
    ensures ok ==> Spent(old(k.S()), k.S(), root, seg.Pages())
    ensures ok ==> KernelRuns.Reaches(old(k.S()), k.S())
  {
    hide RegionOk, ChainOk, Partition, KernelFramesOk, TablesOk, LinkWord, Entry;
    hide Extends, SameTranslations, KeepsOutside, Holds, PageHolds, Missing, PathOf, Readable, PageContent, FreeCount;
    hide SegmentPage, Slice;
    hide Populated, Spent, PagesCost, Midway, KernelRuns.Reaches;
    var vaddr: nat, sectionStart: nat := vaddr0, sectionStart0;
    var memsz: int, filesz: nat := memsz0, filesz0;
    ghost var s0 := k.S();
    StartCopy(s0, root, seg);
    KernelRuns.ReachesSelf(s0);
    ok := true;
    ghost var done: nat := seg.Lo();
    assert done == vaddr - vaddr % FRAME_SIZE;
    assert memsz0 <= 0 ==> seg.Hi() == seg.Lo();
    while memsz > 0
      invariant k.Ready() && Midway(s0, k.S(), root, seg, done) && KernelRuns.Reaches(s0, k.S())
      invariant memsz0 > 0 ==> Progress(seg, vaddr, memsz, filesz, sectionStart)
      invariant memsz > 0 ==> done == vaddr - vaddr % FRAME_SIZE
      invariant memsz <= 0 ==> done == seg.Hi()
      decreases memsz
    {
      assert memsz0 > 0;
      ProgressStep(seg, vaddr, memsz, filesz, sectionStart);
      var destOffset := vaddr % FRAME_SIZE;
      var alignedDest := vaddr - destOffset;
      var toCopy := if filesz + destOffset > FRAME_SIZE then FRAME_SIZE - destOffset else filesz;
      ghost var s := k.S();
      BeforePage(s0, s, root, seg, alignedDest, sectionStart, toCopy);
      ok := FillPage(k, root, alignedDest, destOffset, sectionStart, toCopy);
      if !ok {
        MidwayFails(s0, s, k.S(), root, seg, alignedDest);
        return;
      }
      KernelRuns.ReachesTransitive(s0, s, k.S());
      MidwayStep(s0, s, k.S(), root, seg, vaddr, memsz, filesz, sectionStart, toCopy);
      if toCopy > 0 {
        sectionStart := sectionStart + toCopy;
        filesz := filesz - toCopy;
      }
      vaddr := alignedDest + FRAME_SIZE;
      memsz := memsz + destOffset - FRAME_SIZE;
      done := done + FRAME_SIZE;
    }
    CopyDone(s0, k.S(), root, seg);
  }

  lemma BeforePage(s0: State, s: State, root: nat, seg: Segment, q: nat, source: nat, n: nat)
    requires Midway(s0, s, root, seg, q) && UserRange(seg.Lo(), seg.Hi()) && q < seg.Hi()
    requires Readable(s0, seg.source, seg.Copied())
    requires n > 0 ==> seg.source <= source && source + n <= seg.source + seg.Copied()
    ensures q < 0x1_0000_0000_0000_0000 && UserPath(PathOf(q)) && IsRoot(s, root)
    ensures Readable(s, source, n) && |Slice(s.mem, source, n)| == n
    ensures seg.Hi() % FRAME_SIZE == 0
  {
    hide Extends, KeepsOutside, Holds, PathOf, Readable, Spent, Slice;
    UserRangePath(seg.Lo(), q, seg.Hi());
    ReadablePart(s0, seg.source, seg.Copied(), source, n);
    ReadableKept(s0, s, source, n);
  }

  // ----- the file -----

  function EntryPoint(m: Mem, start: nat): nat { Number(m, start + 0x18, 8) }
  function HeaderOffset(m: Mem, start: nat): nat { Number(m, start + 0x20, 8) }
  function HeaderSize(m: Mem, start: nat): nat { Number(m, start + 0x36, 2) }
  function HeaderCount(m: Mem, start: nat): nat { Number(m, start + 0x38, 2) }

  function HeaderAt(m: Mem, start: nat, i: nat): nat {
    start + HeaderOffset(m, start) + HeaderSize(m, start) * i
  }

  const PT_LOAD: nat := 1

  function Loadable(m: Mem, h: nat): bool { Number(m, h, 4) == PT_LOAD }

  /** A byte count as the signed size the copy loop compares with 0. */
  function Signed(v: nat): int {
    if v < 0x8000_0000_0000_0000 then v else v - 0x1_0000_0000_0000_0000
  }

  function SegmentAt(m: Mem, start: nat, h: nat): Segment {
    var memsz := Signed(Number(m, h + 0x28, 8));
    Segment(Number(m, h + 0x10, 8), if memsz < 0 then 0 else memsz, Number(m, h + 0x20, 8),
            start + Number(m, h + 0x8, 8))
  }

  /** The loadable segments among the first `n` program headers, in file order. */
  function Segments(m: Mem, start: nat, n: nat): seq<Segment> {
    if n == 0 then []
    else
      var h := HeaderAt(m, start, n - 1);
      Segments(m, start, n - 1) + if Loadable(m, h) then [SegmentAt(m, start, h)] else []
  }

  /** What the loader relies on: headers and file bytes are in memory the kernel
      does not use, and segments lie in the private half of the address space. */
  ghost predicate ElfOk(s: State, start: nat) {
    && Readable(s, start, 0x3A)
    && forall i :: 0 <= i < HeaderCount(s.mem, start) ==> HeaderOk(s, start, HeaderAt(s.mem, start, i))
  }

  ghost predicate HeaderOk(s: State, start: nat, h: nat) {
    && Readable(s, h, 0x30)
    && (Loadable(s.mem, h) ==>
          var seg := SegmentAt(s.mem, start, h);
          && seg.filesz < 0x8000_0000_0000_0000
          && UserRange(seg.Lo(), seg.Hi()) && Readable(s, seg.source, seg.Copied()))
  }

  // ----- what a list of segments means -----

  predicate Covers(seg: Segment, q: nat) { seg.Lo() <= q < seg.Hi() }

  /** The last segment that touches page `q`: the one whose copy stays visible. */
  function Winner(segs: seq<Segment>, q: nat): Option<Segment> {
    if segs == [] then None
    else if Covers(segs[|segs| - 1], q) then Some(segs[|segs| - 1])
    else Winner(segs[..|segs| - 1], q)
  }

  /** Every page some segment touches holds what the last such segment wants. */
  ghost predicate Image(s: State, root: nat, m: Mem, segs: seq<Segment>) {
    forall q: Word :: q % FRAME_SIZE == 0 && Winner(segs, q).Some? ==>
      PageHolds(s, root, PathOf(q), SegmentPage(m, Winner(segs, q).value, q))
  }

  /** Nothing but the pages of these segments in `root` changed translation. */
  ghost predicate KeepsOthers(s: State, s': State, root: nat, segs: seq<Segment>) {
    forall r, p :: IsRoot(s, r) && !(r == root && Winner(segs, AddressOf(p)).Some?) ==>
      Translate(s'.mem, r, p) == Translate(s.mem, r, p)
  }

  /** The pages the segments touch, each as often as it is touched. */
  function TouchedPages(segs: seq<Segment>): seq<Path> {
    if segs == [] then [] else TouchedPages(segs[..|segs| - 1]) + segs[|segs| - 1].Pages()
  }

  lemma TouchedSnoc(segs: seq<Segment>, seg: Segment)
    ensures TouchedPages(segs + [seg]) == TouchedPages(segs) + seg.Pages()
  {
    assert (segs + [seg])[..|segs|] == segs;
  }

  lemma WinnerSnoc(segs: seq<Segment>, seg: Segment, q: nat)
    ensures Winner(segs + [seg], q) == if Covers(seg, q) then Some(seg) else Winner(segs, q)
  {
    assert (segs + [seg])[..|segs|] == segs;
  }

  lemma {:induction false} WinnerPrefix(segs: seq<Segment>, n: nat, q: nat)
    requires n <= |segs| && Winner(segs[..n], q).Some?
    ensures Winner(segs, q).Some?
  {
    if n < |segs| {
      assert segs[..|segs| - 1][..n] == segs[..n];
      WinnerPrefix(segs[..|segs| - 1], n, q);
    } else {
      assert segs[..n] == segs;
    }
  }

  lemma {:induction false} WinnerIs(segs: seq<Segment>, q: nat) returns (i: nat)
    requires Winner(segs, q).Some?
    ensures i < |segs| && segs[i] == Winner(segs, q).value && Covers(segs[i], q)
    ensures forall j :: i < j < |segs| ==> !Covers(segs[j], q)
  {
    if Covers(segs[|segs| - 1], q) {
      i := |segs| - 1;
    } else {
      i := WinnerIs(segs[..|segs| - 1], q);
    }
  }

  lemma {:induction false} WinnerExists(segs: seq<Segment>, i: nat, q: nat)
    requires i < |segs| && Covers(segs[i], q)
    ensures Winner(segs, q).Some?
  {
    if !Covers(segs[|segs| - 1], q) {
      WinnerExists(segs[..|segs| - 1], i, q);
    }
  }

  /** Segment `i` is the last that touches page `q`. */
  ghost predicate Last(segs: seq<Segment>, i: nat, q: nat) {
    i < |segs| && Covers(segs[i], q) && forall j :: i < j < |segs| ==> !Covers(segs[j], q)
  }

  lemma LastWins(segs: seq<Segment>, i: nat, q: nat)
    requires Last(segs, i, q)
    ensures Winner(segs, q) == Some(segs[i])
  {
    WinnerExists(segs, i, q);
    var j := WinnerIs(segs, q);
  }

  /** Two segments touch a common page. */
  predicate SharePage(a: Segment, b: Segment) {
    a.Lo() < a.Hi() && b.Lo() < b.Hi() && a.Lo() < b.Hi() && b.Lo() < a.Hi()
  }

  ghost predicate PagesDisjoint(segs: seq<Segment>) {
    forall i, j :: 0 <= i < j < |segs| ==> !SharePage(segs[i], segs[j])
  }

  /** The loader leaves every segment the last word on every page it touches exactly
      when no two segments share a page. */
  lemma KeptIffDisjoint(segs: seq<Segment>)
    ensures PagesDisjoint(segs) <==>
            (forall i: nat, q: nat :: i < |segs| && q % FRAME_SIZE == 0 && Covers(segs[i], q) ==> Last(segs, i, q))
  {
    if !PagesDisjoint(segs) {
      var i, j :| 0 <= i < j < |segs| && SharePage(segs[i], segs[j]);
      var q := if segs[i].Lo() <= segs[j].Lo() then segs[j].Lo() else segs[i].Lo();
      assert q % FRAME_SIZE == 0 && Covers(segs[i], q) && Covers(segs[j], q);
      assert !Last(segs, i, q);
    }
  }

  /** In the loaded image, the segment that is last on the page of `va` is seen at
      `va`: its file byte, or 0 past the end of the file part. */
  lemma SegmentSeen(s: State, root: nat, m: Mem, segs: seq<Segment>, i: nat, va: Word)
    requires Image(s, root, m, segs) && Canonical(va) && Last(segs, i, va / FRAME_SIZE * FRAME_SIZE)
    ensures UserByte(s.mem, root, va) == Some(SegmentByte(m, segs[i], va))
  {
    hide UserByte, PageHolds, PathOf;
    var q := va / FRAME_SIZE * FRAME_SIZE;
    LastWins(segs, i, q);
    SamePage(va);
    PageHoldsByte(s, root, va, SegmentPage(m, segs[i], q));
    assert q + va % FRAME_SIZE == va;
  }

  lemma SamePage(va: Word)
    ensures var q := va / FRAME_SIZE * FRAME_SIZE;
            q % FRAME_SIZE == 0 && q <= va < q + FRAME_SIZE && PathOf(q) == PathOf(va)
  {
    var q := va / FRAME_SIZE * FRAME_SIZE;
    PathDigits(va);
    PathDigits(q);
    assert q / FRAME_SIZE == va / FRAME_SIZE;
  }

  /** If no two loadable segments share a page, the program sees every byte of every
      segment, whatever the order of the headers. */
  lemma EverySegmentSeen(s: State, root: nat, m: Mem, segs: seq<Segment>, i: nat, va: Word)
    requires Image(s, root, m, segs) && PagesDisjoint(segs) && i < |segs|
    requires segs[i].vaddr <= va < segs[i].vaddr + segs[i].memsz && Canonical(va)
    ensures UserByte(s.mem, root, va) == Some(SegmentByte(m, segs[i], va))
  {
    hide UserByte, Image, SegmentByte;
    InItsPages(segs[i], va);
    KeptIffDisjoint(segs);
    SegmentSeen(s, root, m, segs, i, va);
  }

  lemma InItsPages(seg: Segment, va: nat)
    requires seg.vaddr <= va < seg.vaddr + seg.memsz
    ensures Covers(seg, va / FRAME_SIZE * FRAME_SIZE) && va / FRAME_SIZE * FRAME_SIZE % FRAME_SIZE == 0
  {
    var a, q, l := seg.vaddr / FRAME_SIZE, va / FRAME_SIZE, (seg.vaddr + seg.memsz - 1) / FRAME_SIZE;
    assert a <= q <= l;
  }

  /** Where a later segment shares the page, an earlier segment's byte is lost: the
      program reads what the later one wants there, 0 outside its file part. */
  lemma SharedPageLost(s: State, root: nat, m: Mem, segs: seq<Segment>, i: nat, j: nat, va: Word)
    requires Image(s, root, m, segs) && Canonical(va) && i < j < |segs|
    requires Last(segs, j, va / FRAME_SIZE * FRAME_SIZE)
    requires segs[i].vaddr <= va < segs[i].vaddr + segs[i].filesz
    requires !(segs[j].vaddr <= va < segs[j].vaddr + segs[j].filesz)
    ensures UserByte(s.mem, root, va) == Some(0)
  {
    hide UserByte, Image;
    SegmentSeen(s, root, m, segs, j, va);
  }

  /** For instance: 0x800 bytes of code at 0x400000 and as many of data at 0x400800 are a
      legal file, and the program reads all its code as zeros. */
  lemma SharedPageExample(s: State, root: nat, m: Mem, code: nat, data: nat, va: Word)
    requires var segs := [Segment(0x40_0000, 0x800, 0x800, code), Segment(0x40_0800, 0x800, 0x800, data)];
             Image(s, root, m, segs)
    requires 0x40_0000 <= va < 0x40_0800
    ensures UserByte(s.mem, root, va) == Some(0)
  {
    hide UserByte, Image;
    var segs := [Segment(0x40_0000, 0x800, 0x800, code), Segment(0x40_0800, 0x800, 0x800, data)];
    assert va / FRAME_SIZE * FRAME_SIZE == 0x40_0000;
    assert SharePage(segs[0], segs[1]);
    SharedPageLost(s, root, m, segs, 0, 1, va);
  }

  /** Disjoint segments load to the same image in any order. */
  lemma OrderIrrelevant(segs: seq<Segment>, segs': seq<Segment>, q: nat)
    requires PagesDisjoint(segs) && PagesDisjoint(segs')
    requires forall seg :: seg in segs <==> seg in segs'
    requires q % FRAME_SIZE == 0
    ensures Winner(segs, q) == Winner(segs', q)
  {
    KeptIffDisjoint(segs);
    KeptIffDisjoint(segs');
    if Winner(segs, q).Some? {
      SameWinner(segs, segs', q);
    } else if Winner(segs', q).Some? {
      SameWinner(segs', segs, q);
    }
  }

  lemma SameWinner(segs: seq<Segment>, segs': seq<Segment>, q: nat)
    requires Winner(segs, q).Some?
    requires forall seg :: seg in segs <==> seg in segs'
    requires forall j :: 0 <= j < |segs'| && Covers(segs'[j], q) ==> Last(segs', j, q)
    ensures Winner(segs', q) == Winner(segs, q)
  {
    var i := WinnerIs(segs, q);
    assert segs[i] in segs';
    var j :| 0 <= j < |segs'| && segs'[j] == segs[i];
    LastWins(segs', j, q);
  }

  // ----- load_elf -----

  method Load(ram: array<Byte>, a: nat, n: nat) returns (v: nat)
    requires a + n <= ram.Length
    ensures v == Number(ram[..], a, n) && v < Pow256(n)
  {
    v := Decode(ram[a..a + n]);
    assert ram[..][a..a + n] == ram[a..a + n];
  }

  /** Adding one segment to a loaded image. */
  lemma ImageGrows(s0: State, s: State, s': State, root: nat, m: Mem, segs: seq<Segment>, seg: Segment)
    requires IsRoot(s0, root) && Extends(s0, s) && Extends(s, s')
    requires KeepsOthers(s0, s, root, segs) && KeepsOutside(s, s', root, seg.Lo(), seg.Hi())
    requires UserRange(seg.Lo(), seg.Hi())
    ensures Extends(s0, s') && KeepsOthers(s0, s', root, segs + [seg])
    ensures Image(s, root, m, segs) && Holds(s', root, m, seg, seg.Lo(), seg.Hi()) && CanonicalPages(segs) ==>
              Image(s', root, m, segs + [seg]) && CanonicalPages(segs + [seg])
  {
    hide AddressOf, PathOf, PageHolds, SegmentPage;
    ExtendsTransitive(s0, s, s');
    forall r, p | IsRoot(s0, r) && !(r == root && Winner(segs + [seg], AddressOf(p)).Some?)
      ensures Translate(s'.mem, r, p) == Translate(s0.mem, r, p) {
      assert IsRoot(s, r);
      WinnerSnoc(segs, seg, AddressOf(p));
    }
    if Image(s, root, m, segs) && Holds(s', root, m, seg, seg.Lo(), seg.Hi()) && CanonicalPages(segs) {
      forall q: Word | q % FRAME_SIZE == 0 && Winner(segs + [seg], q).Some?
        ensures PageHolds(s', root, PathOf(q), SegmentPage(m, Winner(segs + [seg], q).value, q)) {
        WinnerSnoc(segs, seg, q);
        if !Covers(seg, q) {
          AddressOfPath(q);
          assert IsRoot(s, root);
          PageHoldsKept(s, s', root, PathOf(q), SegmentPage(m, Winner(segs, q).value, q));
        }
      }
      forall q: Word | Winner(segs + [seg], q).Some? ensures Canonical(q) {
        WinnerSnoc(segs, seg, q);
      }
    }
  }

  ghost predicate CanonicalPages(segs: seq<Segment>) {
    forall q: Word :: Winner(segs, q).Some? ==> Canonical(q)
  }

  lemma NumberKept(s: State, s': State, a: nat, n: nat, b: nat, l: nat)
    requires Readable(s, a, n) && Extends(s, s') && a <= b && b + l <= a + n && 0 < n
    ensures b + l <= |s'.mem| && Number(s'.mem, b, l) == Number(s.mem, b, l)
  {
    hide Decode;
    ReadableKept(s, s', a, n);
    assert s.mem[b..b + l] == s.mem[a..a + n][b - a..b - a + l];
    assert s'.mem[b..b + l] == s'.mem[a..a + n][b - a..b - a + l];
  }

  /** A header reads the same whenever the loader looks at it. */
  lemma HeaderKept(s0: State, s: State, start: nat, h: nat)
    requires HeaderOk(s0, start, h) && Extends(s0, s)
    ensures h + 0x30 <= |s.mem|
    ensures Loadable(s.mem, h) == Loadable(s0.mem, h) && SegmentAt(s.mem, start, h) == SegmentAt(s0.mem, start, h)
    ensures Number(s.mem, h + 0x8, 8) == Number(s0.mem, h + 0x8, 8)
  {
    hide Number, Extends, Readable;
    NumberKept(s0, s, h, 0x30, h, 4);
    NumberKept(s0, s, h, 0x30, h + 0x8, 8);
    NumberKept(s0, s, h, 0x30, h + 0x10, 8);
    NumberKept(s0, s, h, 0x30, h + 0x20, 8);
    NumberKept(s0, s, h, 0x30, h + 0x28, 8);
  }

  /** Handles one program header: copies its segment if it is loadable. */
  method LoadHeader(k: Machine, root: nat, start: nat, programHeader: nat, ghost s0: State, ghost segs: seq<Segment>)
    returns (ok: bool, ghost segs': seq<Segment>)
    requires k.Ready() && IsRoot(s0, root) && Extends(s0, k.S())
    requires HeaderOk(s0, start, programHeader)
    requires KeepsOthers(s0, k.S(), root, segs) && CanonicalPages(segs) && Image(k.S(), root, s0.mem, segs)
    requires Spent(s0, k.S(), root, TouchedPages(segs)) && KernelRuns.Reaches(s0, k.S())
    modifies k, k.ram
    ensures segs' == segs + if Loadable(s0.mem, programHeader) then [SegmentAt(s0.mem, start, programHeader)] else []
    ensures k.Ready() && Extends(s0, k.S()) && KeepsOthers(s0, k.S(), root, segs')
    ensures ok ==> CanonicalPages(segs') && Image(k.S(), root, s0.mem, segs')
    ensures ok <==> PagesCost(s0.mem, root, TouchedPages(segs')) <= FreeCount(s0)
    ensures ok ==> Spent(s0, k.S(), root, TouchedPages(segs')) && KernelRuns.Reaches(s0, k.S())
    ensures !ok ==> !HasFrame(k.S())
  {
    hide RegionOk, ChainOk, Partition, KernelFramesOk, TablesOk, LinkWord;
    hide Extends, KeepsOutside, KeepsOthers, Holds, Readable, Number, Image, CanonicalPages, IsRoot;
    hide TouchedPages, PagesCost, FreeCount, Missing, KernelRuns.Reaches;
    ghost var s := k.S();
    NoFrame(s);
    HeaderKept(s0, s, start, programHeader);
    StillRoot(s0, s, root);
    Pow256Of8();
    var headerType := Load(k.ram, programHeader, 4);
    var off := Load(k.ram, programHeader + 0x8, 8);
    var vaddr := Load(k.ram, programHeader + 0x10, 8);
    var filesz := Load(k.ram, programHeader + 0x20, 8);
    var memsz := Load(k.ram, programHeader + 0x28, 8);
    ok := true;
    segs' := segs;
    if headerType == 1 {
      ghost var seg := SegmentAt(s0.mem, start, programHeader);
      segs' := segs + [seg];
      ReadableKept(s0, s, seg.source, seg.Copied());
      ok := CopySection(k, root, vaddr, start + off, Signed(memsz), filesz, seg);
      HoldsFrom(s0, s, k.S(), root, seg);
      ImageGrows(s0, s, k.S(), root, s0.mem, segs, seg);
      TouchedSnoc(segs, seg);
      LaterCost(s0, s, root, TouchedPages(segs), seg.Pages());
      if ok {
        KernelRuns.ReachesTransitive(s0, s, k.S());
        SpentTransitive(s0, s, k.S(), root, TouchedPages(segs), seg.Pages());
      }
    }
  }

  /** The file's bytes are the same whether read before or during loading. */
  lemma HoldsFrom(s0: State, s: State, s': State, root: nat, seg: Segment)
    requires Extends(s0, s) && Readable(s0, seg.source, seg.Copied())
    ensures Holds(s', root, s.mem, seg, seg.Lo(), seg.Hi()) ==> Holds(s', root, s0.mem, seg, seg.Lo(), seg.Hi())
  {
    hide PageHolds, PathOf;
    forall q: Word | q % FRAME_SIZE == 0 && seg.Lo() <= q < seg.Hi()
      ensures SegmentPage(s.mem, seg, q) == SegmentPage(s0.mem, seg, q) {
      SamePageBytes(s0, s, seg, q);
    }
  }

  lemma SamePageBytes(s0: State, s: State, seg: Segment, q: nat)
    requires Extends(s0, s) && Readable(s0, seg.source, seg.Copied())
    requires q % FRAME_SIZE == 0 && seg.Lo() <= q < seg.Hi()
    ensures SegmentPage(s.mem, seg, q) == SegmentPage(s0.mem, seg, q)
  {
    hide Extends;
    assert |s.mem| == |s0.mem| by { ExtendsKernel(s0, s); }
    PageBelow(seg, q);
    var x, y := SegmentPage(s.mem, seg, q), SegmentPage(s0.mem, seg, q);
    forall j | 0 <= j < FRAME_SIZE ensures x[j] == y[j] {
      var va := q + j;
      assert x[j] == SegmentByte(s.mem, seg, va) && y[j] == SegmentByte(s0.mem, seg, va);
      if seg.vaddr <= va < seg.vaddr + seg.filesz {
        var a := seg.source + (va - seg.vaddr);
        assert va - seg.vaddr < seg.Copied();
        assert Outside(s0, a) && a < |s0.mem|;
        assert s.mem[a] == s0.mem[a] by { OutsideSame(s0, s, a); }
      }
    }
  }

  lemma PageBelow(seg: Segment, q: nat)
    requires q % FRAME_SIZE == 0 && seg.Lo() <= q < seg.Hi()
    ensures q + FRAME_SIZE <= seg.Hi()
  {
    var a, b := q / FRAME_SIZE, seg.Hi() / FRAME_SIZE;
    assert q == a * FRAME_SIZE && seg.Hi() == b * FRAME_SIZE;
  }

  lemma OutsideSame(s0: State, s: State, a: nat)
    requires Extends(s0, s) && a < |s0.mem| && Outside(s0, a)
    ensures s.mem[a] == s0.mem[a]
  {
  }

  /** Loads every program header in turn and returns the entry point; ok is false
      where the kernel panics. */
  method LoadElf(k: Machine, root: nat, start: nat) returns (ok: bool, entry: nat)
    requires k.Ready() && IsRoot(k.S(), root) && ElfOk(k.S(), start)
    modifies k, k.ram
    ensures k.Ready() && Extends(old(k.S()), k.S())
    ensures var m := old(k.S()).mem; var segs := Segments(m, start, HeaderCount(m, start));
      && KeepsOthers(old(k.S()), k.S(), root, segs)
      && (ok ==> Image(k.S(), root, m, segs) && entry == EntryPoint(m, start))
      && (ok <==> PagesCost(m, root, TouchedPages(segs)) <= FreeCount(old(k.S())))
      && (ok ==> Spent(old(k.S()), k.S(), root, TouchedPages(segs)))
    ensures ok ==> KernelRuns.Reaches(old(k.S()), k.S())
    ensures !ok ==> !HasFrame(k.S())
  {
    hide RegionOk, ChainOk, Partition, KernelFramesOk, TablesOk, LinkWord;
    hide Extends, KeepsOthers, Readable, Number, Image, CanonicalPages, IsRoot, HeaderOk;
    hide TouchedPages, PagesCost, Spent, FreeCount, KernelRuns.Reaches;
    ghost var s0 := k.S();
    SelfExtends(s0);
    KernelRuns.ReachesSelf(s0);
    StartLoading(s0, root, start);
    entry := Load(k.ram, start + 0x18, 8);
    var programHeaderOffset := Load(k.ram, start + 0x20, 8);
    var programHeaderSize := Load(k.ram, start + 0x36, 2);
    var programHeaderCount := Load(k.ram, start + 0x38, 2);
    ok := true;
    var i := 0;
    ghost var segs: seq<Segment> := [];
    while i < programHeaderCount
      invariant 0 <= i <= programHeaderCount && k.Ready() && Extends(s0, k.S())
      invariant KernelRuns.Reaches(s0, k.S())
      invariant segs == Segments(s0.mem, start, i)
      invariant KeepsOthers(s0, k.S(), root, segs) && CanonicalPages(segs) && Image(k.S(), root, s0.mem, segs)
      invariant Spent(s0, k.S(), root, TouchedPages(segs))
      invariant PagesCost(s0.mem, root, TouchedPages(segs)) <= FreeCount(s0)
    {
      var programHeader := start + programHeaderOffset + programHeaderSize * i;
      assert HeaderOk(s0, start, HeaderAt(s0.mem, start, i));
      ok, segs := LoadHeader(k, root, start, programHeader, s0, segs);
      i := i + 1;
      if !ok {
        PrefixKeeps(s0, k.S(), root, start, i, programHeaderCount);
        PrefixSegmentsCost(s0.mem, root, start, i, programHeaderCount);
        return;
      }
    }
  }

  lemma StartLoading(s: State, root: nat, start: nat)
    requires ElfOk(s, start)
    ensures start + 0x3A <= |s.mem|
    ensures KeepsOthers(s, s, root, []) && CanonicalPages([]) && Image(s, root, s.mem, [])
    ensures Valid(s) ==>
              Spent(s, s, root, TouchedPages([])) && PagesCost(s.mem, root, TouchedPages([])) == 0 <= FreeCount(s)
  {
    hide RegionOk, ChainOk, Partition, KernelFramesOk, TablesOk, FreeCount, Missing;
    SpentNothing(s, root);
    if Valid(s) { NoFrame(s); }
  }

  lemma {:induction false} TouchedPrefix(segs: seq<Segment>, n: nat) returns (rest: seq<Path>)
    requires n <= |segs|
    ensures TouchedPages(segs) == TouchedPages(segs[..n]) + rest
  {
    if n < |segs| {
      rest := TouchedPrefix(segs[..|segs| - 1], n);
      assert segs[..|segs| - 1][..n] == segs[..n];
      rest := rest + segs[|segs| - 1].Pages();
    } else {
      assert segs[..n] == segs;
      rest := [];
    }
  }

  lemma PrefixSegmentsCost(m: Mem, root: nat, start: nat, i: nat, n: nat)
    requires i <= n
    ensures PagesCost(m, root, TouchedPages(Segments(m, start, i)))
            <= PagesCost(m, root, TouchedPages(Segments(m, start, n)))
  {
    hide PagesCost, TouchedPages, Segments;
    SegmentsPrefix(m, start, i, n);
    var rest := TouchedPrefix(Segments(m, start, n), |Segments(m, start, i)|);
    PrefixCost(m, root, TouchedPages(Segments(m, start, i)), rest);
  }

  lemma {:induction false} SegmentsPrefix(m: Mem, start: nat, i: nat, n: nat)
    requires i <= n
    ensures |Segments(m, start, i)| <= |Segments(m, start, n)|
    ensures Segments(m, start, n)[..|Segments(m, start, i)|] == Segments(m, start, i)
    decreases n
  {
    if i < n {
      SegmentsPrefix(m, start, i, n - 1);
    }
  }

  lemma PrefixKeeps(s: State, s': State, root: nat, start: nat, i: nat, n: nat)
    requires i <= n && KeepsOthers(s, s', root, Segments(s.mem, start, i))
    ensures KeepsOthers(s, s', root, Segments(s.mem, start, n))
  {
    hide AddressOf;
    SegmentsPrefix(s.mem, start, i, n);
    var segs, part := Segments(s.mem, start, n), Segments(s.mem, start, i);
    forall r, p | IsRoot(s, r) && !(r == root && Winner(segs, AddressOf(p)).Some?)
      ensures Translate(s'.mem, r, p) == Translate(s.mem, r, p) {
      if Winner(part, AddressOf(p)).Some? {
        WinnerPrefix(segs, |part|, AddressOf(p));
      }
    }
  }
}
