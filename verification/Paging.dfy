/** Page-table entries, virtual addresses and the translation the processor
    performs: 4-level paging, Intel SDM volume 3A, section 4.5. Nothing here
    depends on how the kernel builds its tables. */
module Paging {
  import opened Bytes

  const SIZE_2M: nat := 0x20_0000
  const SIZE_1G: nat := 0x4000_0000
  const SIZE_512G: nat := 0x80_0000_0000
  const PHYSICAL_LIMIT: nat := 0x10_0000_0000_0000  // entries hold 52-bit addresses

  const LINEAR_START: nat := 0xFFFF_8000_0000_0000
  const LINEAR_END: nat := LINEAR_START + SIZE_512G
  const KERNEL_BASE: nat := 0xFFFF_FFFF_8000_0000
  const DYNAMIC_START: nat := KERNEL_BASE + SIZE_1G
  const CANONICAL_LOW: nat := 0x8000_0000_0000

  type Index = i: int | 0 <= i < 512

  datatype Option<+T> = None | Some(value: T)

  // ----- entries -----

  predicate Present(w: Word) { w % 2 == 1 }
  predicate Writable(w: Word) { w / 2 % 2 == 1 }
  predicate Usermode(w: Word) { w / 4 % 2 == 1 }
  predicate Big(w: Word) { w / 128 % 2 == 1 }

  /** The 4K-aligned address held in an entry, as the kernel masks it. */
  function Base(w: Word): (a: Word)
    ensures a <= w < a + FRAME_SIZE
  {
    w / FRAME_SIZE * FRAME_SIZE
  }

  /** The frame an entry points to, as the processor masks it. */
  function Target(w: Word): nat {
    Base(w) % PHYSICAL_LIMIT
  }

  /** Entry `i` of the table at physical address `t`. */
  function Entry(m: Mem, t: nat, i: nat): Word {
    Word64(m, t + 8 * i)
  }

  // ----- virtual addresses -----

  /** The four table indices of a virtual page. */
  datatype Path = Path(i4: Index, i3: Index, i2: Index, i1: Index) {
    function At(level: nat): Index {
      if level == 4 then i4 else if level == 3 then i3 else if level == 2 then i2 else i1
    }
  }

  function PathOf(va: nat): Path {
    Path(va / SIZE_512G % 512, va / SIZE_1G % 512, va / SIZE_2M % 512, va / FRAME_SIZE % 512)
  }

  predicate Canonical(va: Word) {
    va < CANONICAL_LOW || LINEAR_START <= va
  }

  /** The page-aligned canonical address with these indices. */
  function AddressOf(p: Path): (va: Word)
    ensures Canonical(va) && va % FRAME_SIZE == 0
  {
    (if p.i4 < 256 then 0 else 0xFFFF_0000_0000_0000)
    + p.i4 * SIZE_512G + p.i3 * SIZE_1G + p.i2 * SIZE_2M + p.i1 * FRAME_SIZE
  }

  /** The indices of an address are its page number written in base 512. */
  lemma PathDigits(va: Word)
    ensures var p := PathOf(va); var page := va / FRAME_SIZE;
            && p.i1 == page % 512 && p.i2 == page / 512 % 512
            && p.i3 == page / 512 / 512 % 512 && p.i4 == page / 512 / 512 / 512 % 512
  {
    var page := va / FRAME_SIZE;
    assert va / SIZE_2M == page / 512;
    assert va / SIZE_1G == page / 512 / 512 by {
      assert va / SIZE_1G == va / SIZE_2M / 512;
    }
    assert va / SIZE_512G == va / SIZE_1G / 512;
  }

  lemma Digit(hi: nat, d: Index)
    ensures (hi * 512 + d) / 512 == hi && (hi * 512 + d) % 512 == d
  {
  }

  lemma PathOfAddress(p: Path)
    ensures PathOf(AddressOf(p)) == p
  {
    var va := AddressOf(p);
    PathDigits(va);
    var h4 := (if p.i4 < 256 then 0 else 0xFFFF) * 512 + p.i4;
    var h3 := h4 * 512 + p.i3;
    var h2 := h3 * 512 + p.i2;
    var h1 := h2 * 512 + p.i1;
    assert va == h1 * FRAME_SIZE;
    assert va / FRAME_SIZE == h1;
    Digit(h2, p.i1);
    Digit(h3, p.i2);
    Digit(h4, p.i3);
    Digit(if p.i4 < 256 then 0 else 0xFFFF, p.i4);
  }

  /** Indices and page offset identify a canonical address. */
  lemma AddressOfPath(va: Word)
    requires Canonical(va)
    ensures AddressOf(PathOf(va)) + va % FRAME_SIZE == va
  {
    PathDigits(va);
    var h1 := va / FRAME_SIZE;
    var h2, h3, h4 := h1 / 512, h1 / 512 / 512, h1 / 512 / 512 / 512;
    TopOfCanonical(va);
    var p := PathOf(va);
    hide PathOf;
    assert va == h1 * FRAME_SIZE + va % FRAME_SIZE;
    assert h1 == h2 * 512 + p.i1 && h2 == h3 * 512 + p.i2 && h3 == h4 * 512 + p.i3;
  }

  /** Above the low half the top 17 bits are set. */
  lemma TopOfCanonical(va: Word)
    requires Canonical(va)
    ensures var h4 := va / FRAME_SIZE / 512 / 512 / 512;
            h4 == (if h4 % 512 < 256 then 0 else 0xFFFF) * 512 + h4 % 512
  {
    var h1 := va / FRAME_SIZE;
    var h2 := h1 / 512;
    var h3 := h2 / 512;
    var h4 := h3 / 512;
    assert va < CANONICAL_LOW ==> h1 < 0x8_0000_0000 && h2 < 0x400_0000 && h3 < 0x2_0000 && h4 < 256;
    assert va >= LINEAR_START ==> h1 >= 0xF_FFF8_0000_0000 && h2 >= 0x7FF_FC00_0000 && h3 >= 0x3_FFFE_0000;
    assert va >= LINEAR_START ==> 0xFFFF * 512 + 256 <= h4 < 0xFFFF * 512 + 512;
  }

  // ----- the hardware walk -----

  /** What a virtual page maps to: a 4K physical page and the effective rights. */
  datatype Page = Unmapped | Mapped(frame: nat, writable: bool, user: bool)

  /** The physical page a big entry at `level` gives the 4K page `p` inside it. */
  function BigFrame(level: nat, w: Word, p: Path): nat {
    if level == 3
    then w / SIZE_1G * SIZE_1G % PHYSICAL_LIMIT + p.i2 * SIZE_2M + p.i1 * FRAME_SIZE
    else w / SIZE_2M * SIZE_2M % PHYSICAL_LIMIT + p.i1 * FRAME_SIZE
  }

  /** The walk from the level-`level` table at `t`, with the rights granted so far.
      The page-size bit is reserved at level 4, selects 1G and 2M pages at levels
      3 and 2, and is no size bit at level 1. */
  function Descend(m: Mem, level: nat, t: nat, p: Path, writable: bool, user: bool): Page
    requires 1 <= level <= 4
    decreases level
  {
    var e := Entry(m, t, p.At(level));
    var w := writable && Writable(e);
    var u := user && Usermode(e);
    if !Present(e) then Unmapped
    else if level == 1 then Mapped(Target(e), w, u)
    else if Big(e) then
      if level == 4 then Unmapped else Mapped(BigFrame(level, e, p), w, u)
    else Descend(m, level - 1, Target(e), p, w, u)
  }

  function Translate(m: Mem, root: nat, p: Path): Page {
    Descend(m, 4, root, p, true, true)
  }

  /** Physical address of a virtual address, None when the access faults. */
  function Walk(m: Mem, root: nat, va: Word): Option<nat> {
    if !Canonical(va) then None
    else
      match Translate(m, root, PathOf(va))
      case Unmapped => None
      case Mapped(f, _, _) => Some(f + va % FRAME_SIZE)
  }

  /** The byte a user-mode program reads at `va`. */
  function UserByte(m: Mem, root: nat, va: Word): Option<Byte> {
    match Walk(m, root, va)
    case None => None
    case Some(pa) =>
      if Translate(m, root, PathOf(va)).user && pa < |m| then Some(m[pa]) else None
  }

  // ----- the linear map -----

  function LinearAddressToPtr(a: Word): Word {
    (LINEAR_START + a) % 0x1_0000_0000_0000_0000
  }

  /** None where the kernel panics. */
  function PointerToLinearAddress(ptr: Word): Option<Word> {
    if KERNEL_BASE < ptr < DYNAMIC_START then Some(ptr - KERNEL_BASE)
    else if LINEAR_START < ptr < LINEAR_END then Some(ptr - LINEAR_START)
    else None
  }
}
