/** src/arch/x86_64/multiboot.c: choosing the memory the frame allocator manages
    from the boot loader's memory map (Multiboot Specification 0.6.96, section 3.3). */
module Multiboot {
  import opened Bytes
  import opened Paging
  import opened Ownership
  import opened Machines
  import opened Frame
  import opened Radix
  import opened KernelSpace
  import opened KernelRuns
  import opened Layouts
  import opened Elf

  const RECORD_SIZE: nat := 24
  const AVAILABLE: nat := 1

  function Size(m: Mem, a: nat): nat { Number(m, a, 4) }
  function BaseAddr(m: Mem, a: nat): nat { Number(m, a + 4, 8) }
  function Length(m: Mem, a: nat): nat { Number(m, a + 12, 8) }
  predicate Available(m: Mem, a: nat) { Number(m, a + 20, 4) == AVAILABLE }

  /** The addresses of the records between `a` and `end`. A record's size field does
      not count itself. */
  function Records(m: Mem, a: nat, end: nat): seq<nat>
    decreases end - a
  {
    if a < end then [a] + Records(m, a + Size(m, a) + 4, end) else []
  }

  ghost predicate InMemory(m: Mem, records: seq<nat>) {
    forall a :: a in records ==> a + RECORD_SIZE <= |m|
  }

  /** `i` is the first of the longest available records. */
  ghost predicate FirstLongest(m: Mem, records: seq<nat>, i: nat) {
    && i < |records| && Available(m, records[i])
    && (forall j :: 0 <= j < |records| && Available(m, records[j]) ==>
          Length(m, records[j]) <= Length(m, records[i]))
    && (forall j :: 0 <= j < i && Available(m, records[j]) ==> Length(m, records[j]) < Length(m, records[i]))
  }

  lemma {:induction false} RecordsFrom(m: Mem, a: nat, end: nat, b: nat)
    requires b in Records(m, a, end)
    ensures a <= b < end
    decreases end - a
  {
    if b != a {
      RecordsFrom(m, a + Size(m, a) + 4, end, b);
    }
  }

  ghost predicate NoneAvailable(m: Mem, records: seq<nat>) {
    forall i :: 0 <= i < |records| ==> !Available(m, records[i])
  }

  lemma LongestSoFar(m: Mem, seen: seq<nat>, at: nat, a: nat)
    requires FirstLongest(m, seen, at)
    ensures Available(m, a) && Length(m, a) > Length(m, seen[at]) ==> FirstLongest(m, seen + [a], |seen|)
    ensures !(Available(m, a) && Length(m, a) > Length(m, seen[at])) ==> FirstLongest(m, seen + [a], at)
  {
    hide Number;
  }

  lemma FirstAvailable(m: Mem, seen: seq<nat>, a: nat)
    requires NoneAvailable(m, seen)
    ensures Available(m, a) ==> FirstLongest(m, seen + [a], |seen|)
    ensures !Available(m, a) ==> NoneAvailable(m, seen + [a])
  {
    hide Number;
  }

  /** Walks the records; returns the address of the first longest available one,
      the `at`-th record. */
  method BiggestMap(ram: array<Byte>, start: nat, end: nat) returns (best: Option<nat>, ghost at: nat)
    requires InMemory(ram[..], Records(ram[..], start, end))
    ensures var records := Records(ram[..], start, end);
      match best
      case None => NoneAvailable(ram[..], records)
      case Some(a) => FirstLongest(ram[..], records, at) && records[at] == a
  {
    hide Number, FirstLongest, NoneAvailable, Records, InMemory;
    ghost var m := ram[..];
    ghost var all := Records(m, start, end);
    ghost var seen: seq<nat> := [];
    assert NoneAvailable(m, seen) by { NothingSeen(m); }
    best, at := None, 0;
    var a := start;
    while a < end
      invariant all == seen + Records(m, a, end)
      invariant best.None? ==> NoneAvailable(m, seen)
      invariant best.Some? ==> FirstLongest(m, seen, at) && at < |seen| && seen[at] == best.value
      invariant best.Some? ==> best.value + RECORD_SIZE <= |m|
      decreases end - a
    {
      RecordsStep(m, a, end);
      FirstHere(m, all, seen, Records(m, a, end), a);
      var size := Load(ram, a, 4);
      var kind := Load(ram, a + 20, 4);
      var length := Load(ram, a + 12, 8);
      if best.None? {
        FirstAvailable(m, seen, a);
        if kind == AVAILABLE {
          best, at := Some(a), |seen|;
        }
      } else {
        LongestSoFar(m, seen, at, a);
        var longest := Load(ram, best.value + 12, 8);
        if kind == AVAILABLE && length > longest {
          best, at := Some(a), |seen|;
        }
      }
      seen := seen + [a];
      a := a + size + 4;
    }
    assert Records(m, a, end) == [] by { NoRecords(m, a, end); }
    assert seen == all;
  }

  lemma RecordsStep(m: Mem, a: nat, end: nat)
    requires a < end
    ensures Records(m, a, end) == [a] + Records(m, a + Size(m, a) + 4, end)
  {
  }

  lemma NoRecords(m: Mem, a: nat, end: nat)
    requires a >= end
    ensures Records(m, a, end) == []
  {
  }

  /** The record at hand is one of them, and in memory. */
  lemma FirstHere(m: Mem, all: seq<nat>, seen: seq<nat>, rest: seq<nat>, a: nat)
    requires InMemory(m, all) && all == seen + rest && rest != [] && rest[0] == a
    ensures a in all && a + RECORD_SIZE <= |m|
  {
    assert all[|seen|] == a;
  }

  lemma NothingSeen(m: Mem)
    ensures NoneAvailable(m, [])
  {
  }

  // ----- the region -----

  function RoundUp(a: nat): nat { (a + 0xfff) / 0x1000 * 0x1000 }
  function RoundDown(a: nat): nat { a / 0x1000 * 0x1000 }

  /** Bounds of the allocator's region for a record at `base` of `length` bytes. */
  function RegionStart(base: nat, freeMemoryStart: nat): nat {
    RoundUp(if base > freeMemoryStart then base else freeMemoryStart)
  }
  function RegionEnd(base: nat, length: nat): nat { RoundDown(base + length) }

  predicate InsideRecord(f: nat, base: nat, length: nat, freeMemoryStart: nat) {
    f % FRAME_SIZE == 0 && freeMemoryStart <= f && base <= f && f + FRAME_SIZE <= base + length
  }

  /** The frames of the rounded region are exactly those that lie in the record, above the
      kernel image. */
  lemma RegionInside(base: nat, length: nat, freeMemoryStart: nat, f: nat)
    requires f % FRAME_SIZE == 0
    ensures RegionStart(base, freeMemoryStart) <= f && f + FRAME_SIZE <= RegionEnd(base, length) <==>
              InsideRecord(f, base, length, freeMemoryStart)
  {
    var end := RegionEnd(base, length);
    assert end <= base + length < end + FRAME_SIZE && end % FRAME_SIZE == 0;
    RoundedUp(if base > freeMemoryStart then base else freeMemoryStart, f);
    RoundedDown(base + length, f + FRAME_SIZE);
  }

  lemma RoundedUp(a: nat, f: nat)
    requires f % FRAME_SIZE == 0
    ensures RoundUp(a) <= f <==> a <= f
  {
    var q, r := f / FRAME_SIZE, (a + 0xfff) / 0x1000;
    assert f == q * FRAME_SIZE;
    assert r * 0x1000 <= a + 0xfff < r * 0x1000 + 0x1000;
    assert a <= f ==> r <= q;
  }

  lemma RoundedDown(b: nat, f: nat)
    requires f % FRAME_SIZE == 0
    ensures f <= RoundDown(b) <==> f <= b
  {
    var q, r := f / FRAME_SIZE, b / 0x1000;
    assert f == q * FRAME_SIZE;
    assert r * 0x1000 <= b < r * 0x1000 + 0x1000;
    assert f <= b ==> q <= r;
  }

  lemma FirstInsideIff(base: nat, length: nat, freeMemoryStart: nat)
    ensures InsideRecord(RegionStart(base, freeMemoryStart), base, length, freeMemoryStart) <==>
            RegionStart(base, freeMemoryStart) < RegionEnd(base, length)
  {
    hide InsideRecord;
    var first, end := RegionStart(base, freeMemoryStart), RegionEnd(base, length);
    assert first % FRAME_SIZE == 0 && end % FRAME_SIZE == 0;
    RegionInside(base, length, freeMemoryStart, first);
    if first != end { FramesApart(first, end); }
  }

  /** Whatever the kernel does with such a region, every frame it takes into use, as data,
      table, root or page, lies in the record, above the kernel image. */
  lemma FramesInside(ss: seq<State>, ops: seq<Op>, k: nat, f: nat, base: nat, length: nat, freeMemoryStart: nat)
    requires IsRun(ss, ops) && k < |ops| && Takes(ss[k], ss[k + 1], f)
    requires ss[0].first == RegionStart(base, freeMemoryStart) && ss[0].end == RegionEnd(base, length)
    ensures InsideRecord(f, base, length, freeMemoryStart)
  {
    hide Valid, Takes, Step, InsideRecord, RegionStart, RegionEnd, FreeCount, OneOfThree;
    EveryStateValid(ss, ops, k);
    StepAt(ss, ops, k);
    TakenWasFree(ss[k], ops[k], ss[k + 1], f);
    RegionInside(base, length, freeMemoryStart, f);
  }

  /** In particular whatever is in use in a valid state with that region. */
  lemma OwnedInside(s: State, base: nat, length: nat, freeMemoryStart: nat)
    requires Valid(s) && s.first == RegionStart(base, freeMemoryStart) && s.end == RegionEnd(base, length)
    ensures forall f :: f in s.owner ==> f in s.k.Frames() || InsideRecord(f, base, length, freeMemoryStart)
  {
    hide RegionStart, RegionEnd, InsideRecord, Aligned, ChainOk, TablesOk, KernelFramesOk;
    forall f | f in s.owner && f !in s.k.Frames() ensures InsideRecord(f, base, length, freeMemoryStart) {
      assert Aligned(f) && Aligned(s.end) && s.first <= f < s.end;
      FramesApart(f, s.end);
      AlignedIs(f);
      RegionInside(base, length, freeMemoryStart, f);
    }
  }

  lemma AlignedIs(f: nat)
    requires Aligned(f)
    ensures f % FRAME_SIZE == 0
  {
  }

  /** The allocator's globals for a region whose start is beyond its end. */
  ghost predicate Inverted(k: Machine, base: nat, length: nat)
    reads k
  {
    && k.freelist == 0 && k.freememEnd == LINEAR_START + RegionEnd(base, length)
    && k.freememEnd < k.freememStart && (k.freememStart - LINEAR_START) % FRAME_SIZE == 0
  }

  /** On an inverted region the allocator never panics: it stops only where its pointer
      meets the end exactly, so every frame it returns lies outside the record. */
  method AllocInverted(k: Machine, ghost base: nat, ghost length: nat, ghost freeMemoryStart: nat)
    returns (ok: bool, ptr: Word)
    requires Inverted(k, base, length) && k.freememStart <= LINEAR_END
    modifies k
    ensures ok && LINEAR_START <= ptr && Inverted(k, base, length)
    ensures !InsideRecord(ptr - LINEAR_START, base, length, freeMemoryStart)
  {
    ok, ptr := FrameAllocInternal(k);
    RegionInside(base, length, freeMemoryStart, ptr - LINEAR_START);
  }

  /** A memory map of one available record, the first 639K. */
  function LowMemoryMap(): Mem {
    Encode(20, 4) + Encode(0, 8) + Encode(0x9_FC00, 8) + Encode(1, 4)
  }

  /** Such a map inverts the region of any kernel loaded above the first megabyte. */
  lemma LowMemoryInverts(freeMemoryStart: nat)
    requires freeMemoryStart >= 0x10_0000
    ensures var m := LowMemoryMap(); var records := Records(m, 0, RECORD_SIZE);
      && records == [0] && FirstLongest(m, records, 0)
      && RegionStart(BaseAddr(m, 0), freeMemoryStart) > RegionEnd(BaseAddr(m, 0), Length(m, 0))
  {
    hide Encode, Decode, Number;
    var m := LowMemoryMap();
    Pow256Of8();
    assert m[0..4] == Encode(20, 4) && m[4..12] == Encode(0, 8);
    assert m[12..20] == Encode(0x9_FC00, 8) && m[20..24] == Encode(1, 4);
    NumberIs(m, 0, 4, 20);
    NumberIs(m, 4, 8, 0);
    NumberIs(m, 12, 8, 0x9_FC00);
    NumberIs(m, 20, 4, 1);
    assert Records(m, 24, 24) == [];
  }

  lemma NumberIs(m: Mem, a: nat, n: nat, v: nat)
    requires a + n <= |m| && m[a..a + n] == Encode(v, n) && v < Pow256(n)
    ensures Number(m, a, n) == v
  {
    DecodeEncode(v, n);
  }

  // ----- the boot loader's format -----

  datatype MapRecord = MapRecord(size: nat, base: nat, length: nat, kind: nat) {
    function Items(): seq<Item> { [Item(size, 4), Item(base, 8), Item(length, 8), Item(kind, 4)] }
  }

  /** These records lie one after another from `a` on; the size of a record counts what
      follows the size field itself, at least the three fields after it. */
  ghost predicate MapAt(m: Mem, a: nat, rs: seq<MapRecord>)
    decreases |rs|
  {
    rs == [] || (PackedAt(m, a, rs[0].Items()) && rs[0].size >= 20 && MapAt(m, a + 4 + rs[0].size, rs[1..]))
  }

  function MapLength(rs: seq<MapRecord>): nat {
    if rs == [] then 0 else 4 + rs[0].size + MapLength(rs[1..])
  }

  lemma RecordRead(m: Mem, a: nat, r: MapRecord)
    requires PackedAt(m, a, r.Items())
    ensures Size(m, a) == r.size && BaseAddr(m, a) == r.base && Length(m, a) == r.length
    ensures (Available(m, a) <==> r.kind == 1) && a + RECORD_SIZE <= |m|
  {
    hide Number;
    var items := r.Items();
    PackedSize(items);
    assert |Packed(items)| == Offset(items, 4);
    hide PackedAt;
    assert Offset(items, 1) == 4;
    assert Offset(items, 2) == 12;
    assert Offset(items, 3) == 20;
    assert Offset(items, 4) == 24;
    ReadItem(m, a, items, 0);
    ReadItem(m, a, items, 1);
    ReadItem(m, a, items, 2);
    ReadItem(m, a, items, 3);
  }

  /** The walk sees exactly the records of the map, and of each what it says. */
  lemma {:induction false} MapRead(m: Mem, a: nat, rs: seq<MapRecord>)
    requires MapAt(m, a, rs)
    ensures var records := Records(m, a, a + MapLength(rs));
      && |records| == |rs| && InMemory(m, records)
      && forall i :: 0 <= i < |rs| ==>
           && BaseAddr(m, records[i]) == rs[i].base && Length(m, records[i]) == rs[i].length
           && (Available(m, records[i]) <==> rs[i].kind == 1)
    decreases |rs|
  {
    hide Number, PackedAt, Size, BaseAddr, Length, Available;
    if rs != [] {
      RecordRead(m, a, rs[0]);
      var next := a + 4 + rs[0].size;
      MapRead(m, next, rs[1..]);
      RecordsStep(m, a, a + MapLength(rs));
      assert next + MapLength(rs[1..]) == a + MapLength(rs);
    } else {
      NoRecords(m, a, a);
    }
  }

  /** The boot information, as far as the kernel reads it. */
  datatype Info = Info(
    flags: nat, memLower: nat, memUpper: nat, bootDevice: nat, cmdline: nat, modsCount: nat, modsAddr: nat,
    syms0: nat, syms1: nat, syms2: nat, syms3: nat, mmapLength: nat, mmapAddr: nat)
  {
    function Items(): seq<Item> {
      [Item(flags, 4), Item(memLower, 4), Item(memUpper, 4), Item(bootDevice, 4), Item(cmdline, 4),
       Item(modsCount, 4), Item(modsAddr, 4), Item(syms0, 4), Item(syms1, 4), Item(syms2, 4), Item(syms3, 4),
       Item(mmapLength, 4), Item(mmapAddr, 4)]
    }
  }

  lemma InfoRead(m: Mem, info: nat, i: Info)
    requires PackedAt(m, info, i.Items())
    ensures BootRecords(m, info) == Records(m, i.mmapAddr, i.mmapAddr + i.mmapLength)
  {
    hide Number, PackedAt, Records;
    var items := i.Items();
    WordOffset(items, 11);
    WordOffset(items, 12);
    ReadItem(m, info, items, 11);
    ReadItem(m, info, items, 12);
  }

  lemma {:induction false} WordOffset(items: seq<Item>, n: nat)
    requires n <= |items| && forall i :: 0 <= i < n ==> items[i].width == 4
    ensures Offset(items, n) == 4 * n
  {
    if n > 0 { WordOffset(items, n - 1); }
  }

  /** The record the kernel chooses, in terms of what the boot loader described: the first
      of the longest of type 1. */
  lemma ChosenRecord(m: Mem, info: nat, i: Info, rs: seq<MapRecord>, at: nat)
    requires PackedAt(m, info, i.Items()) && MapAt(m, i.mmapAddr, rs) && i.mmapLength == MapLength(rs)
    ensures FirstLongest(m, BootRecords(m, info), at) <==>
            && at < |rs| && rs[at].kind == 1
            && (forall j :: 0 <= j < |rs| && rs[j].kind == 1 ==> rs[j].length <= rs[at].length)
            && (forall j :: 0 <= j < at && rs[j].kind == 1 ==> rs[j].length < rs[at].length)
  {
    hide PackedAt, MapAt, MapLength, Records, BaseAddr, Length, Available, BootRecords;
    InfoRead(m, info, i);
    MapRead(m, i.mmapAddr, rs);
  }

  // ----- setup_frame_allocator -----

  const MMAP_LENGTH: nat := 44  // offsets in the boot information
  const MMAP_ADDR: nat := 48

  ghost function BootRecords(m: Mem, info: nat): seq<nat> {
    var start := Number(m, info + MMAP_ADDR, 4);
    Records(m, start, start + Number(m, info + MMAP_LENGTH, 4))
  }

  /** Gives the allocator the first longest available record, above the kernel image;
      false where the map has none and the kernel dereferences a null pointer. */
  method SetupFrameAllocator(k: Machine, info: nat, freeMemoryStart: Word) returns (ok: bool, ghost at: nat)
    requires info + MMAP_ADDR + 4 <= k.ram.Length && InMemory(k.ram[..], BootRecords(k.ram[..], info))
    requires forall a :: a in BootRecords(k.ram[..], info) && Available(k.ram[..], a) ==>
               BaseAddr(k.ram[..], a) + Length(k.ram[..], a) <= SIZE_512G
    requires 0 < freeMemoryStart && freeMemoryStart + 0xfff < SIZE_512G
    modifies k
    ensures k.owner == old(k.owner)
    ensures !ok ==> NoneAvailable(k.ram[..], BootRecords(k.ram[..], info))
    ensures ok ==> FirstLongest(k.ram[..], BootRecords(k.ram[..], info), at)
    ensures ok ==> var a := BootRecords(k.ram[..], info)[at];
      var base, length := BaseAddr(k.ram[..], a), Length(k.ram[..], a);
      && k.freelist == 0 && k.chain == []
      && k.first == k.S().next == RegionStart(base, freeMemoryStart)
      && k.S().end == RegionEnd(base, length)
  {
    hide Number, Records;
    Pow256Of8();
    var start := Load(k.ram, info + MMAP_ADDR, 4);
    var length := Load(k.ram, info + MMAP_LENGTH, 4);
    var best;
    best, at := BiggestMap(k.ram, start, start + length);
    ok := best.Some?;
    if ok {
      var a := best.value;
      assert a in BootRecords(k.ram[..], info);
      var base := Load(k.ram, a + 4, 8);
      var size := Load(k.ram, a + 12, 8);
      var bigareaStart := freeMemoryStart;
      if base > bigareaStart {
        bigareaStart := base;
      }
      RoundedPointers(bigareaStart, base + size);
      InitFrameAllocator(k, bigareaStart, base + size);
    }
  }

  lemma RoundedPointers(a: nat, b: nat)
    requires a + 0xfff < SIZE_512G + 0x1000 && b <= SIZE_512G
    ensures LinearAddressToPtr(RoundUp(a)) == LINEAR_START + RoundUp(a)
    ensures LinearAddressToPtr(RoundDown(b)) == LINEAR_START + RoundDown(b)
  {
  }

  // ----- the first steps of the kernel -----

  ghost predicate NotKernel(k: Layout, j: nat) {
    forall f :: f in k.Frames() ==> !(f <= j < f + FRAME_SIZE)
  }

  ghost predicate RecordApart(k: Layout, a: nat) {
    forall j :: a <= j < a + RECORD_SIZE ==> NotKernel(k, j)
  }

  /** Where the boot loader left its data: in memory, outside the kernel's tables. */
  ghost predicate BootInfoOk(m: Mem, k: Layout, info: nat) {
    && info + MMAP_ADDR + 4 <= |m| && InMemory(m, BootRecords(m, info))
    && (forall j :: info <= j < info + MMAP_ADDR + 4 ==> NotKernel(k, j))
    && (forall a :: a in BootRecords(m, info) ==> RecordApart(k, a))
    && (forall a :: a in BootRecords(m, info) && Available(m, a) ==> BaseAddr(m, a) + Length(m, a) <= |m|)
  }

  ghost predicate SameOutsideKernel(m: Mem, m': Mem, k: Layout) {
    |m'| == |m| && forall j :: 0 <= j < |m| && NotKernel(k, j) ==> m'[j] == m[j]
  }

  lemma NumberSame(m: Mem, m': Mem, k: Layout, a: nat, n: nat)
    requires SameOutsideKernel(m, m', k) && a + n <= |m|
    requires forall j :: a <= j < a + n ==> NotKernel(k, j)
    ensures Number(m', a, n) == Number(m, a, n)
  {
    hide NotKernel;
    assert m'[a..a + n] == m[a..a + n];
  }

  /** A record reads the same in both memories. */
  ghost predicate SameRecord(m: Mem, m': Mem, a: nat) {
    && Size(m', a) == Size(m, a) && BaseAddr(m', a) == BaseAddr(m, a) && Length(m', a) == Length(m, a)
    && Available(m', a) == Available(m, a)
  }

  lemma RecordSame(m: Mem, m': Mem, k: Layout, a: nat)
    requires SameOutsideKernel(m, m', k) && a + RECORD_SIZE <= |m| && RecordApart(k, a)
    ensures SameRecord(m, m', a)
  {
    hide Number, NotKernel, SameOutsideKernel;
    NumberSame(m, m', k, a, 4);
    NumberSame(m, m', k, a + 4, 8);
    NumberSame(m, m', k, a + 12, 8);
    NumberSame(m, m', k, a + 20, 4);
  }

  lemma InMemoryRest(m: Mem, a: nat, rest: seq<nat>)
    requires InMemory(m, [a] + rest)
    ensures a + RECORD_SIZE <= |m| && InMemory(m, rest)
    ensures a in [a] + rest && forall r :: r in rest ==> r in [a] + rest
  {
    assert ([a] + rest)[0] == a;
    assert a in [a] + rest;
    forall r | r in rest ensures r in [a] + rest { }
  }

  lemma {:induction false} RecordsSame(m: Mem, m': Mem, k: Layout, a: nat, end: nat)
    requires SameOutsideKernel(m, m', k) && InMemory(m, Records(m, a, end))
    requires forall r :: r in Records(m, a, end) ==> RecordApart(k, r)
    ensures Records(m', a, end) == Records(m, a, end)
    ensures forall r :: r in Records(m, a, end) ==> SameRecord(m, m', r)
    decreases end - a
  {
    hide Number, NotKernel, SameOutsideKernel, RecordApart, Available, BaseAddr, Length, Size;
    if a < end {
      var rest := Records(m, a + Size(m, a) + 4, end);
      assert Records(m, a, end) == [a] + rest;
      InMemoryRest(m, a, rest);
      RecordSame(m, m', k, a);
      RecordsSame(m, m', k, a + Size(m, a) + 4, end);
    }
  }

  /** Building the kernel's tables does not disturb the boot loader's data. */
  lemma BootInfoKept(m: Mem, m': Mem, k: Layout, info: nat)
    requires BootInfoOk(m, k, info) && SameOutsideKernel(m, m', k)
    ensures BootRecords(m', info) == BootRecords(m, info) && InMemory(m', BootRecords(m', info))
    ensures forall r :: r in BootRecords(m, info) ==>
              BaseAddr(m', r) == BaseAddr(m, r) && Length(m', r) == Length(m, r) && Available(m', r) == Available(m, r)
  {
    hide Number, NotKernel, Records;
    NumberSame(m, m', k, info + MMAP_ADDR, 4);
    NumberSame(m, m', k, info + MMAP_LENGTH, 4);
    var start := Number(m, info + MMAP_ADDR, 4);
    RecordsSame(m, m', k, start, start + Number(m, info + MMAP_LENGTH, 4));
  }

  lemma FirstLongestSame(m: Mem, m': Mem, records: seq<nat>, i: nat)
    requires forall r :: r in records ==> Length(m', r) == Length(m, r) && Available(m', r) == Available(m, r)
    ensures FirstLongest(m', records, i) <==> FirstLongest(m, records, i)
    ensures NoneAvailable(m', records) <==> NoneAvailable(m, records)
  {
    hide Number;
    assert forall j :: 0 <= j < |records| ==> records[j] in records;
  }

  lemma KernelFits(k: Layout, freeMemoryStart: nat)
    requires forall f :: f in k.Frames() ==> f + FRAME_SIZE <= freeMemoryStart
    ensures k.Ok() ==> 0 < freeMemoryStart
  {
    assert k.pml4 in k.Frames();
  }

  lemma KernelOnly(m: Mem, m': Mem, k: Layout)
    requires |m'| == |m|
    requires forall j :: 0 <= j < |m| && (forall f :: f in k.Frames() ==> !(f <= j < f + FRAME_SIZE)) ==> m'[j] == m[j]
    ensures SameOutsideKernel(m, m', k)
  {
  }

  lemma RegionFits(base: nat, length: nat, freeMemoryStart: nat, size: nat, k: Layout)
    requires 0 < freeMemoryStart && base + length <= size
    requires forall f :: f in k.Frames() ==> f + FRAME_SIZE <= freeMemoryStart
    ensures var first, end := RegionStart(base, freeMemoryStart), RegionEnd(base, length);
      && Aligned(first) && Aligned(end) && 0 < freeMemoryStart <= first && end <= size
      && forall f :: f in k.Frames() ==> !(first <= f < end)
  {
  }

  /** Builds the kernel's address space and the allocator. When the chosen record
      reaches beyond the kernel image, every invariant holds and the whole rounded
      region is free; otherwise the region is inverted. ok is false where the kernel
      dereferences a null pointer. */
  method Boot(k: Machine, info: nat, freeMemoryStart: Word) returns (ok: bool, ghost at: nat)
    requires k.k.Ok() && (forall f :: f in k.k.Frames() ==> f + FRAME_SIZE <= freeMemoryStart)
    requires BootInfoOk(k.ram[..], k.k, info)
    requires freeMemoryStart + 0xfff < SIZE_512G && freeMemoryStart <= k.ram.Length <= SIZE_512G
    modifies k, k.ram
    ensures SameOutsideKernel(old(k.ram[..]), k.ram[..], k.k)
    ensures KernelTables(k.ram[..], k.k) && k.owner == KernelOwner(k.k)
    ensures !ok ==> NoneAvailable(old(k.ram[..]), BootRecords(old(k.ram[..]), info))
    ensures ok ==> FirstLongest(old(k.ram[..]), BootRecords(old(k.ram[..]), info), at)
    ensures ok ==> var m := old(k.ram[..]); var a := BootRecords(m, info)[at];
      var first, end := RegionStart(BaseAddr(m, a), freeMemoryStart), RegionEnd(BaseAddr(m, a), Length(m, a));
      && k.S().first == first && k.S().next == first && k.S().end == end && k.chain == []
      && (first <= end ==> k.Ready() && IsRoot(k.S(), k.k.pml4) && FreeCount(k.S()) == (end - first) / FRAME_SIZE)
      && (first > end ==> Inverted(k, BaseAddr(m, a), Length(m, a)))
  {
    hide Number, Records, KernelTables, BootRecords, NoneAvailable, RegionStart, RegionEnd, NotKernel;
    ghost var m0 := k.ram[..];
    KernelFits(k.k, freeMemoryStart);
    CreateKernelAddressSpace(k);
    ghost var m := k.ram[..];
    assert SameOutsideKernel(m0, m, k.k) by { KernelOnly(m0, m, k.k); }
    BootInfoKept(m0, m, k.k, info);
    forall i: nat ensures FirstLongest(m, BootRecords(m, info), i) <==> FirstLongest(m0, BootRecords(m, info), i) {
      FirstLongestSame(m0, m, BootRecords(m, info), i);
    }
    FirstLongestSame(m0, m, BootRecords(m, info), 0);
    ok, at := SetupFrameAllocator(k, info, freeMemoryStart);
    if ok {
      ghost var a := BootRecords(m, info)[at];
      RegionFits(BaseAddr(m, a), Length(m, a), freeMemoryStart, |m|, k.k);
      if k.S().first <= k.S().end {
        assert RegionOk(k.S());
        BootValid(k.S());
      }
    }
  }
}
