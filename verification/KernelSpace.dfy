/** src/memory.c: the tables every address space shares, and what they map. */
module KernelSpace {
  import opened Bytes
  import opened Paging
  import opened Ownership
  import opened Machines
  import opened Frame
  import opened Radix
  import opened AddressSpace
  import Klib

  // ----- what the shared half maps -----

  /** In every address space the linear map gives each physical address below 512G
      its own pointer, writable and never user-accessible. */
  lemma LinearMapAgrees(s: State, r: nat, a: Word)
    requires Valid(s) && IsRoot(s, r) && a < SIZE_512G
    ensures var va := LinearAddressToPtr(a);
      && Walk(s.mem, r, va) == Some(a)
      && Translate(s.mem, r, PathOf(va)) == Mapped(Base(a), true, false)
      && (PointerToLinearAddress(va) == Some(a) <==> a > 0)
  {
    hide RegionOk, ChainOk, Partition, TablesOk, Entry, Present, Big, Writable, Usermode, Target, PathOf, AddressOf;
    LinearRoundTrip(a);
    LinearPath(a);
    assert LinearAddressToPtr(a) == LINEAR_START + a;
    assert Base(a) == a - a % FRAME_SIZE;
    var p := PathOf(LINEAR_START + a);
    SharedEntry(s, 4, r, 256);
    BigEntry(s, 3, s.k.linear, p.i3);
    LinearWord(p.i3);
    assert BigFrame(3, p.i3 * SIZE_1G + 0x83, p) == p.i3 * SIZE_1G + p.i2 * SIZE_2M + p.i1 * FRAME_SIZE by {
      BigBase1G(p.i3);
    }
  }

  lemma BigBase1G(i: Index)
    ensures (i * SIZE_1G + 0x83) / SIZE_1G * SIZE_1G % PHYSICAL_LIMIT == i * SIZE_1G
  {
    assert (i * SIZE_1G + 0x83) / SIZE_1G == i;
    assert i * SIZE_1G < PHYSICAL_LIMIT;
  }

  lemma BigBase2M(i: nat, x: nat)
    requires i < 16 && x < SIZE_2M
    ensures (i * SIZE_2M + x) / SIZE_2M * SIZE_2M % PHYSICAL_LIMIT == i * SIZE_2M
  {
    assert (i * SIZE_2M + x) / SIZE_2M == i;
    assert i * SIZE_2M < PHYSICAL_LIMIT;
  }

  lemma LinearPath(a: Word)
    requires a < SIZE_512G
    ensures var va := LINEAR_START + a; var p := PathOf(va);
      && Canonical(va) && p.i4 == 256 && va % FRAME_SIZE == a % FRAME_SIZE
      && p.i3 * SIZE_1G + p.i2 * SIZE_2M + p.i1 * FRAME_SIZE + a % FRAME_SIZE == a
  {
    hide PathOf;
    var va := LINEAR_START + a;
    AddressOfPath(va);
    assert LINEAR_START == 0xFFFF_8000_0000_0 * FRAME_SIZE;
  }

  lemma KernelPath(a: Word)
    requires a < 16 * SIZE_2M
    ensures var va := KERNEL_BASE + a; var p := PathOf(va);
      && Canonical(va) && p.i4 == 511 && p.i3 == 510 && p.i2 < 16 && va % FRAME_SIZE == a % FRAME_SIZE
      && p.i2 * SIZE_2M + p.i1 * FRAME_SIZE + a % FRAME_SIZE == a
      && (p.i2 == 0 || p.i2 >= 8 <==> a < SIZE_2M || a >= 8 * SIZE_2M)
  {
    hide PathOf;
    var va := KERNEL_BASE + a;
    AddressOfPath(va);
    assert KERNEL_BASE == 0xFFFF_FFFF_8000_0 * FRAME_SIZE;
  }

  /** The kernel image: the first 32M of physical memory above KERNEL_BASE, with
      2M to 16M read-only, never user-accessible, in every address space. */
  lemma KernelImageAgrees(s: State, r: nat, a: Word)
    requires Valid(s) && IsRoot(s, r) && a < 16 * SIZE_2M
    ensures var va := KERNEL_BASE + a;
      && Walk(s.mem, r, va) == Some(a)
      && Translate(s.mem, r, PathOf(va)) == Mapped(Base(a), a < SIZE_2M || a >= 8 * SIZE_2M, false)
      && (PointerToLinearAddress(va) == Some(a) <==> a > 0)
  {
    hide RegionOk, ChainOk, Partition, TablesOk, Entry, Present, Big, Writable, Usermode, Target, PathOf, AddressOf;
    KernelPath(a);
    assert Base(a) == a - a % FRAME_SIZE;
    hide Base;
    var p := PathOf(KERNEL_BASE + a);
    SharedEntry(s, 4, r, 511);
    SharedEntry(s, 3, s.k.pdt, 510);
    BigEntry(s, 2, s.k.pd, p.i2);
    ImageWord(p.i2);
    BigBase2M(p.i2, ImageEntry(p.i2) - p.i2 * SIZE_2M);
  }

  // ----- building it -----

  /** The contents of the four static tables after boot. */
  ghost predicate KernelTables(m: Mem, k: Layout) {
    forall i :: 0 <= i < 512 ==>
      && Entry(m, k.pml4, i) == RootEntry(k, i)
      && Entry(m, k.linear, i) == i * SIZE_1G + 0x83
      && Entry(m, k.pdt, i) == (if i == 510 then k.pd + 7 else 0)
      && Entry(m, k.pd, i) == if i < 16 then ImageEntry(i) else 0
  }

  lemma OnlyFrameEntry(m: Mem, m': Mem, f: nat, t: nat)
    requires OnlyFrame(m, m', f) && Aligned(f) && Aligned(t) && f != t
    ensures forall i :: 0 <= i < 512 ==> Entry(m', t, i) == Entry(m, t, i)
  {
    hide Word64, Aligned;
    FramesApart(f, t);
    forall i | 0 <= i < 512 ensures Entry(m', t, i) == Entry(m, t, i) {
      SameBytesSameWord(m, m', t + 8 * i);
    }
  }

  /** An entry for a big supervisor page, flag by flag. */
  method WriteBigEntry(ram: array<Byte>, entry: nat, address: Word, writable: bool)
    requires entry + 8 <= ram.Length && address % SIZE_2M == 0 && address < SIZE_512G
    modifies ram
    ensures ram[..] == Put64(old(ram[..]), entry, address + if writable then 0x83 else 0x81)
  {
    hide Put64, Word64;
    ghost var m := ram[..];
    BigSums(address);
    Klib.Store64(ram, entry, address);
    Put64Same(m, entry, address);
    Klib.SetFlag(ram, entry, 1);
    Put64Put64(m, entry, address, address + 1);
    Put64Same(m, entry, address + 1);
    var a := address + 1;
    if writable {
      Klib.SetFlag(ram, entry, 2);
      Put64Put64(m, entry, a, a + 2);
      a := a + 2;
    } else {
      Klib.ClearFlag(ram, entry, 2);
      Put64Put64(m, entry, a, a);
    }
    Put64Same(m, entry, a);
    Klib.SetFlag(ram, entry, 128);
    Put64Put64(m, entry, a, a + 128);
    Put64Same(m, entry, a + 128);
    Klib.ClearFlag(ram, entry, 4);
    Put64Put64(m, entry, a + 128, a + 128);
  }

  lemma BigSums(a: nat)
    requires a % SIZE_2M == 0
    ensures a % 2 == 0 && (a + 1) / 2 % 2 == 0 && (a + 1) / 128 % 2 == 0 && (a + 3) / 128 % 2 == 0
    ensures (a + 0x81) / 4 % 2 == 0 && (a + 0x83) / 4 % 2 == 0
  {
    var q := a / SIZE_2M * 512;
    assert a == q * FRAME_SIZE;
    BitsLow(q, 0);
    BitsLow(q, 1);
    BitsLow(q, 3);
    BitsLow(q, 0x81);
    BitsLow(q, 0x83);
  }

  method FillLinear(ram: array<Byte>, t: nat)
    requires Aligned(t) && t + FRAME_SIZE <= ram.Length
    modifies ram
    ensures OnlyFrame(old(ram[..]), ram[..], t)
    ensures forall i :: 0 <= i < 512 ==> Entry(ram[..], t, i) == i * SIZE_1G + 0x83
  {
    hide Word64, Put64, Aligned;
    ghost var m0 := ram[..];
    var i := 0;
    while i < 512
      invariant 0 <= i <= 512
      invariant OnlyFrame(m0, ram[..], t)
      invariant forall j :: 0 <= j < i ==> Entry(ram[..], t, j) == j * SIZE_1G + 0x83
    {
      ghost var m := ram[..];
      GigMultiple(i);
      WriteBigEntry(ram, t + 8 * i, i * SIZE_1G, true);
      EntryPut(m0, m, ram[..], t, i, i * SIZE_1G + 0x83);
      i := i + 1;
    }
  }

  lemma GigMultiple(i: Index)
    ensures i * SIZE_1G % SIZE_2M == 0 && i * SIZE_1G < SIZE_512G
  {
    assert i * SIZE_1G == i * 512 * SIZE_2M;
  }

  method FillPdt(ram: array<Byte>, k: Layout)
    requires k.Ok() && k.pdt + FRAME_SIZE <= ram.Length
    modifies ram
    ensures OnlyFrame(old(ram[..]), ram[..], k.pdt)
    ensures forall i :: 0 <= i < 512 ==> Entry(ram[..], k.pdt, i) == if i == 510 then k.pd + 7 else 0
  {
    hide Word64, Put64, Aligned;
    ghost var m0 := ram[..];
    var i := 0;
    while i < 512
      invariant 0 <= i <= 512
      invariant OnlyFrame(m0, ram[..], k.pdt)
      invariant forall j :: 0 <= j < i ==> Entry(ram[..], k.pdt, j) == 0
    {
      ZeroEntry(ram, m0, k.pdt, i);
      i := i + 1;
    }
    KernelPointers(k);
    assert k.pd in k.Frames();
    var pd := PointerToLinearAddress(KERNEL_BASE + k.pd).value;
    WriteTableEntry(ram, m0, k.pdt, 510, pd, true);
  }

  method FillPd(ram: array<Byte>, t: nat)
    requires Aligned(t) && t + FRAME_SIZE <= ram.Length
    modifies ram
    ensures OnlyFrame(old(ram[..]), ram[..], t)
    ensures forall i :: 0 <= i < 512 ==> Entry(ram[..], t, i) == if i < 16 then ImageEntry(i) else 0
  {
    hide Word64, Put64, Aligned;
    ghost var m0 := ram[..];
    var i := 0;
    while i < 0x10
      invariant 0 <= i <= 0x10
      invariant OnlyFrame(m0, ram[..], t)
      invariant forall j :: 0 <= j < i ==> Entry(ram[..], t, j) == j * SIZE_2M + 0x81
    {
      ghost var m := ram[..];
      WriteBigEntry(ram, t + 8 * i, i * SIZE_2M, false);
      EntryPut(m0, m, ram[..], t, i, i * SIZE_2M + 0x81);
      i := i + 1;
    }
    while i < 0x200
      invariant 0x10 <= i <= 0x200
      invariant OnlyFrame(m0, ram[..], t)
      invariant forall j :: 0 <= j < i ==> Entry(ram[..], t, j) == if j < 16 then j * SIZE_2M + 0x81 else 0
    {
      ZeroEntry(ram, m0, t, i);
      i := i + 1;
    }
    i := 0x08;
    while i < 0x10
      invariant 0x08 <= i <= 0x10
      invariant OnlyFrame(m0, ram[..], t)
      invariant forall j :: 16 <= j < 512 ==> Entry(ram[..], t, j) == 0
      invariant forall j :: 0 <= j < 16 ==>
                  (Entry(ram[..], t, j) == j * SIZE_2M + if 8 <= j < i then 0x83 else 0x81)
    {
      MakeWritable(ram, m0, t, i);
      i := i + 1;
    }
    MakeWritable(ram, m0, t, 0);
  }

  /** Sets the writable flag of 2M entry `i` and clears its user flag. */
  method MakeWritable(ram: array<Byte>, ghost m0: Mem, t: nat, i: nat)
    requires Aligned(t) && t + FRAME_SIZE <= ram.Length == |m0| && i < 16
    requires OnlyFrame(m0, ram[..], t) && Entry(ram[..], t, i) == i * SIZE_2M + 0x81
    modifies ram
    ensures OnlyFrame(m0, ram[..], t)
    ensures forall j :: 0 <= j < 512 ==>
              Entry(ram[..], t, j) == if j == i then i * SIZE_2M + 0x83 else Entry(old(ram[..]), t, j)
  {
    hide Word64, Put64, Aligned;
    ghost var m := ram[..];
    var c := i * SIZE_2M;
    WritableSums(i);
    Klib.SetFlag(ram, t + 8 * i, 2);
    Put64Same(m, t + 8 * i, c + 0x83);
    Klib.ClearFlag(ram, t + 8 * i, 4);
    Put64Put64(m, t + 8 * i, c + 0x83, c + 0x83);
    EntryPut(m0, m, ram[..], t, i, c + 0x83);
  }

  lemma WritableSums(i: nat)
    ensures (i * SIZE_2M + 0x81) / 2 % 2 == 0 && (i * SIZE_2M + 0x83) / 4 % 2 == 0
  {
    BitsLow(i * 512, 0x81);
    BitsLow(i * 512, 0x83);
  }

  /** Who owns the static tables. */
  ghost function KernelOwner(k: Layout): Owner {
    map[k.pml4 := Root, k.linear := KernelLinear, k.pdt := KernelPdt, k.pd := KernelPd]
  }

  method CreateKernelAddressSpace(k: Machine)
    requires k.k.Ok() && (forall f :: f in k.k.Frames() ==> f + FRAME_SIZE <= k.ram.Length)
    modifies k, k.ram
    ensures KernelTables(k.ram[..], k.k) && k.owner == KernelOwner(k.k)
    ensures forall j :: 0 <= j < k.ram.Length && (forall f :: f in k.k.Frames() ==> !(f <= j < f + FRAME_SIZE)) ==>
              k.ram[j] == old(k.ram[j])
  {
    hide Aligned, Entry;
    var l := k.k;
    assert l.linear in l.Frames() && l.pdt in l.Frames() && l.pd in l.Frames() && l.pml4 in l.Frames();
    ghost var m0 := k.ram[..];
    FillLinear(k.ram, l.linear);
    ghost var m1 := k.ram[..];
    FillPdt(k.ram, l);
    ghost var m2 := k.ram[..];
    OnlyFrameEntry(m1, m2, l.pdt, l.linear);
    FillPd(k.ram, l.pd);
    ghost var m3 := k.ram[..];
    OnlyFrameEntry(m2, m3, l.pd, l.linear);
    OnlyFrameEntry(m2, m3, l.pd, l.pdt);
    InitAddressSpace(k.ram, l, l.pml4);
    ghost var m4 := k.ram[..];
    OnlyFrameEntry(m3, m4, l.pml4, l.linear);
    OnlyFrameEntry(m3, m4, l.pml4, l.pdt);
    OnlyFrameEntry(m3, m4, l.pml4, l.pd);
    k.owner := KernelOwner(l);
    forall j | 0 <= j < k.ram.Length && (forall f :: f in l.Frames() ==> !(f <= j < f + FRAME_SIZE))
      ensures k.ram[j] == m0[j] {
      assert m4[j] == m3[j] == m2[j] == m1[j] == m0[j];
    }
  }

  /** Once the region is known, the machine is in a valid state: the static tables
      are the only frames in use and the whole region is free. */
  lemma BootValid(s: State)
    requires s.k.Ok() && KernelTables(s.mem, s.k) && s.owner == KernelOwner(s.k)
    requires s.chain == [] && s.next == s.first && RegionOk(s)
    requires forall f :: f in s.k.Frames() ==> f + FRAME_SIZE <= |s.mem| && !(s.first <= f < s.end)
    ensures Valid(s) && IsRoot(s, s.k.pml4) && FreeCount(s) == (s.end - s.first) / FRAME_SIZE
  {
    hide Entry, Aligned;
    assert s.owner.Keys == s.k.Frames();
    assert KernelFramesOk(s);
    assert TablesOk(s) by { BootTables(s); }
  }

  lemma BootTables(s: State)
    requires s.k.Ok() && KernelTables(s.mem, s.k) && s.owner == KernelOwner(s.k)
    ensures TablesOk(s)
  {
    hide Entry, Aligned;
    forall t, i | t in s.owner && 0 <= i < 512 ensures EntryOk(s.k, s.owner, t, i, Entry(s.mem, t, i)) {
      assert Entry(s.mem, s.k.pml4, i) == RootEntry(s.k, i);
    }
  }
}
