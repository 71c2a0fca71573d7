/** The abstract state of physical memory: which frame plays which part, and the
    invariant that ties those parts to the bytes. */
module Ownership {
  import opened Bytes
  import opened Paging

  /** What an allocated or static frame is used for. A page table below the root
      names the one entry that points to it, so the tables of all address spaces
      form a forest of distinct frames. */
  datatype Role =
    | Root
    | Table(level: nat, parent: nat, index: nat)
    | KernelLinear  // one shared level-3 table of 1G pages
    | KernelPdt     // the shared level-3 table of the last 512G
    | KernelPd      // the shared level-2 table holding the kernel image
    | Data
    | UserPage(root: nat, path: Path)

  ghost function Level(r: Role): nat {
    match r
    case Root => 4
    case Table(l, _, _) => l
    case KernelLinear => 3
    case KernelPdt => 3
    case KernelPd => 2
    case _ => 0
  }

  /** Physical addresses of the four statically allocated tables. */
  datatype Layout = Layout(pml4: nat, linear: nat, pdt: nat, pd: nat) {
    ghost function Frames(): set<nat> { {pml4, linear, pdt, pd} }

    ghost predicate Ok() {
      && Aligned(pml4) && Aligned(linear) && Aligned(pdt) && Aligned(pd)
      && pml4 != linear && pml4 != pdt && pml4 != pd && linear != pdt && linear != pd && pdt != pd
      && 0 < pml4 < SIZE_1G && 0 < linear < SIZE_1G && 0 < pdt < SIZE_1G && 0 < pd < SIZE_1G
    }
  }

  type Owner = map<nat, Role>

  /** `next..end` is the part of the region `first..end` never handed out; `chain`
      lists the freed frames in the order of the free list. */
  datatype State = State(mem: Mem, k: Layout, first: int, next: int, end: int, chain: seq<nat>, owner: Owner)

  // ----- frames -----

  ghost predicate Aligned(a: int) { a % FRAME_SIZE == 0 }

  lemma FramesApart(f: nat, g: nat)
    requires Aligned(f) && Aligned(g) && f != g
    ensures f + FRAME_SIZE <= g || g + FRAME_SIZE <= f
  {
    assert f == f / FRAME_SIZE * FRAME_SIZE && g == g / FRAME_SIZE * FRAME_SIZE;
  }

  /** The frame just below an aligned address. */
  lemma FrameBelow(a: nat, b: nat)
    requires Aligned(a) && Aligned(b) && a < b
    ensures a + FRAME_SIZE <= b && Aligned(b - FRAME_SIZE)
  {
    FramesApart(a, b);
  }

  // ----- allocator -----

  ghost function LinkWord(chain: seq<nat>, i: nat): Word {
    if i < |chain| then LinearAddressToPtr(if chain[i] < SIZE_512G then chain[i] else 0) else 0
  }

  ghost predicate RegionOk(s: State) {
    && Aligned(s.first) && Aligned(s.next) && Aligned(s.end)
    && 0 < s.first <= s.next <= s.end <= |s.mem|
    && s.end <= SIZE_512G
  }

  ghost predicate ChainOk(s: State) {
    && (forall i :: 0 <= i < |s.chain| ==>
          Aligned(s.chain[i]) && s.first <= s.chain[i] < s.next && s.chain[i] !in s.owner)
    && (forall i, j :: 0 <= i < j < |s.chain| ==> s.chain[i] != s.chain[j])
    && (forall i :: 0 <= i < |s.chain| ==> Word64(s.mem, s.chain[i]) == LinkWord(s.chain, i + 1))
  }

  /** Every frame below the bump pointer is either owned or on the free list. */
  ghost predicate Partition(s: State) {
    && (forall f :: f in s.owner ==>
          Aligned(f) && f + FRAME_SIZE <= |s.mem| && (f in s.k.Frames() || s.first <= f < s.next))
    && (forall f: nat :: Aligned(f) && s.first <= f < s.next && f !in s.chain ==> f in s.owner)
  }

  ghost predicate KernelFramesOk(s: State) {
    && s.k.Ok()
    && s.k.pml4 in s.owner && s.owner[s.k.pml4] == Root
    && s.k.linear in s.owner && s.owner[s.k.linear] == KernelLinear
    && s.k.pdt in s.owner && s.owner[s.k.pdt] == KernelPdt
    && s.k.pd in s.owner && s.owner[s.k.pd] == KernelPd
    && (forall f :: f in s.owner && (s.owner[f].KernelLinear? || s.owner[f].KernelPdt? || s.owner[f].KernelPd?) ==>
          f in s.k.Frames())
    && (forall f :: f in s.k.Frames() ==> !(s.first <= f < s.end))
  }

  // ----- page tables -----

  /** An entry that may point to a private table: empty, or the table it created,
      present, writable and user-accessible. */
  ghost predicate Link(owner: Owner, level: nat, t: nat, i: nat, w: Word) {
    w == 0 || (w >= 7 && w - 7 in owner && owner[w - 7] == Table(level, t, i))
  }

  ghost predicate LeafOk(w: Word) {
    w == 0 || (w < PHYSICAL_LIMIT && (w % FRAME_SIZE == 3 || w % FRAME_SIZE == 7))
  }

  /** Entry `i` of a kernel image directory: 2M pages, writable except 1 to 7. */
  function ImageEntry(i: nat): nat {
    i * SIZE_2M + 0x81 + (if i == 0 || i >= 8 then 2 else 0)
  }

  ghost predicate EntryOk(k: Layout, owner: Owner, t: nat, i: nat, w: Word)
    requires t in owner
  {
    match owner[t]
    case Root =>
      if i == 256 then w == k.linear + 3
      else if i == 511 then w == k.pdt + 7
      else Link(owner, 3, t, i, w)
    case KernelLinear => w == i * SIZE_1G + 0x83
    case KernelPdt => if i == 510 then w == k.pd + 7 else Link(owner, 2, t, i, w)
    case KernelPd => if i < 16 then w == ImageEntry(i) else Link(owner, 1, t, i, w)
    case Table(l, _, _) => 1 <= l <= 3 && if l == 1 then LeafOk(w) else Link(owner, l - 1, t, i, w)
    case _ => true
  }

  ghost predicate TablesOk(s: State) {
    forall t, i :: t in s.owner && 0 <= i < 512 ==> EntryOk(s.k, s.owner, t, i, Entry(s.mem, t, i))
  }

  ghost predicate Valid(s: State) {
    RegionOk(s) && ChainOk(s) && Partition(s) && KernelFramesOk(s) && TablesOk(s)
  }

  // ----- disjointness -----

  /** Bytes written inside frame `f` change no entry of another frame. */
  lemma BlitEntry(m: Mem, f: nat, a: nat, bs: seq<Byte>, t: nat, i: nat)
    requires Aligned(f) && Aligned(t) && t != f && i < 512
    requires f <= a && a + |bs| <= f + FRAME_SIZE && a + |bs| <= |m|
    ensures Entry(Blit(m, a, bs), t, i) == Entry(m, t, i)
  {
    FramesApart(f, t);
    BlitWord(m, a, bs, t + 8 * i);
  }

  lemma PutEntry(m: Mem, t: nat, i: nat, w: Word, t': nat, i': nat)
    requires Aligned(t) && Aligned(t') && i < 512 && i' < 512
    requires t + FRAME_SIZE <= |m|
    ensures Entry(Put64(m, t + 8 * i, w), t', i') == if t == t' && i == i' then w else Entry(m, t', i')
  {
    if t == t' && i == i' {
      Put64Same(m, t + 8 * i, w);
    } else if t == t' {
      BlitWord(m, t + 8 * i, Encode(w, 8), t' + 8 * i');
    } else {
      BlitEntry(m, t, t + 8 * i, Encode(w, 8), t', i');
    }
  }

  // ----- walking a valid forest -----

  lemma Flags(c: nat, x: nat)
    requires Aligned(c) && x < FRAME_SIZE && c + x < PHYSICAL_LIMIT
    ensures Base(c + x) == Target(c + x) == c
    ensures Present(c + x) == Present(x) && Writable(c + x) == Writable(x)
    ensures Usermode(c + x) == Usermode(x) && Big(c + x) == Big(x)
  {
    var q := c / FRAME_SIZE;
    assert c == q * FRAME_SIZE;
    assert Base(c + x) == c;
    BitsLow(q, x);
  }

  lemma EvenPlus(h: nat, y: nat)
    ensures (2 * h + y) % 2 == y % 2
  {
  }

  /** Bit tests of an entry see only its low bits. */
  lemma BitsLow(q: nat, x: nat)
    ensures var e := q * FRAME_SIZE + x;
            e % 2 == x % 2 && e / 2 % 2 == x / 2 % 2 && e / 4 % 2 == x / 4 % 2 && e / 128 % 2 == x / 128 % 2
  {
    var e := q * FRAME_SIZE + x;
    assert e / 2 == 2 * (q * 0x400) + x / 2;
    assert e / 4 == 2 * (q * 0x200) + x / 4;
    assert e / 128 == 2 * (q * 0x10) + x / 128;
    EvenPlus(q * 0x800, x);
    EvenPlus(q * 0x400, x / 2);
    EvenPlus(q * 0x200, x / 4);
    EvenPlus(q * 0x10, x / 128);
  }

  lemma EmptyEntry()
    ensures !Present(0) && !Big(0) && Target(0) == 0
  {
  }

  /** An entry as the kernel links tables: present, writable, user-accessible. */
  lemma LinkFlags(c: nat)
    requires Aligned(c) && c + FRAME_SIZE <= SIZE_512G
    ensures var e := c + 7;
            Present(e) && !Big(e) && Writable(e) && Usermode(e) && Base(e) == Target(e) == c
  {
    Flags(c, 7);
  }

  lemma LinearLinkFlags(c: nat)
    requires Aligned(c) && c + FRAME_SIZE <= SIZE_512G
    ensures var e := c + 3;
            Present(e) && !Big(e) && Writable(e) && !Usermode(e) && Base(e) == Target(e) == c
  {
    Flags(c, 3);
  }

  /** Frames in use lie below 512G, so entries lose nothing to the 52-bit mask. */
  lemma OwnedBelow(s: State, f: nat)
    requires Valid(s) && f in s.owner
    ensures Aligned(f) && f + FRAME_SIZE <= |s.mem| && f + FRAME_SIZE <= SIZE_512G && 0 < f
  {
    hide ChainOk, TablesOk;
    if f in s.k.Frames() {
      FramesApart(f, SIZE_1G);
    } else {
      FramesApart(f, s.end);
    }
  }

  lemma KernelOwned(s: State)
    requires Valid(s)
    ensures s.k.Frames() <= s.owner.Keys
  {
    hide RegionOk, ChainOk, Partition, TablesOk;
  }

  ghost predicate IsTable(s: State, level: nat, t: nat) {
    t in s.owner && Level(s.owner[t]) == level && 1 <= level <= 4
  }

  /** True of the entries that may hold a private table. */
  ghost predicate Open(s: State, t: nat, i: nat)
    requires t in s.owner
  {
    match s.owner[t]
    case Root => i != 256 && i != 511
    case KernelPdt => i != 510
    case KernelPd => i >= 16
    case Table(l, _, _) => l >= 2
    case _ => false
  }

  /** An open entry is empty or points to the private table it created. */
  lemma OpenEntry(s: State, level: nat, t: nat, i: Index)
    requires Valid(s) && IsTable(s, level, t) && Open(s, t, i)
    ensures level >= 2
    ensures var e := Entry(s.mem, t, i);
            && !Big(e)
            && (Present(e) <==> e != 0)
            && (e != 0 ==>
                  && e == Target(e) + 7 && Target(e) == Base(e) && Target(e) in s.owner
                  && s.owner[Target(e)] == Table(level - 1, t, i)
                  && IsTable(s, level - 1, Target(e))
                  && Writable(e) && Usermode(e))
  {
    hide Entry, Aligned, Present, Big, Writable, Usermode, Base, Target;
    hide RegionOk, ChainOk, Partition, KernelFramesOk;
    var e := Entry(s.mem, t, i);
    assert EntryOk(s.k, s.owner, t, i, e);
    assert Link(s.owner, level - 1, t, i, e);
    EmptyEntry();
    if e != 0 {
      var c := e - 7;
      OwnedBelow(s, c);
      LinkFlags(c);
      assert EntryOk(s.k, s.owner, c, 0, Entry(s.mem, c, 0));
    }
  }

  /** The roots and the shared level-3 table point to the shared tables. */
  lemma SharedEntry(s: State, level: nat, t: nat, i: Index)
    requires Valid(s) && IsTable(s, level, t) && level >= 2 && !Open(s, t, i)
    requires level == 4 || t == s.k.pdt
    ensures var e := Entry(s.mem, t, i);
            var c := if t == s.k.pdt then s.k.pd else if i == 256 then s.k.linear else s.k.pdt;
            && Present(e) && !Big(e) && Writable(e) && Target(e) == Base(e) == c
            && (Usermode(e) <==> !(level == 4 && i == 256))
            && IsTable(s, level - 1, c)
  {
    hide Entry, RegionOk, ChainOk, Partition, Aligned, Present, Big, Writable, Usermode, Base, Target;
    var e := Entry(s.mem, t, i);
    assert EntryOk(s.k, s.owner, t, i, e);
    var c := if t == s.k.pdt then s.k.pd else if i == 256 then s.k.linear else s.k.pdt;
    OwnedBelow(s, c);
    LinkFlags(c);
    LinearLinkFlags(c);
  }

  lemma LinearWord(i: Index)
    ensures var w := i * SIZE_1G + 0x83;
            Present(w) && Big(w) && Writable(w) && !Usermode(w) && Base(w) == i * SIZE_1G
  {
    var c := i * SIZE_1G;
    assert c == i * 0x4_0000 * FRAME_SIZE;
    assert Aligned(c);
    Flags(c, 0x83);
  }

  lemma ImageWord(i: nat)
    requires i < 16
    ensures var w := ImageEntry(i);
            && Present(w) && Big(w) && !Usermode(w) && Base(w) == i * SIZE_2M
            && (Writable(w) <==> i == 0 || i >= 8)
  {
    var c := i * SIZE_2M;
    assert c == i * 0x200 * FRAME_SIZE;
    assert Aligned(c);
    if i == 0 || i >= 8 { Flags(c, 0x83); } else { Flags(c, 0x81); }
  }

  lemma BigEntry(s: State, level: nat, t: nat, i: Index)
    requires Valid(s) && IsTable(s, level, t) && level >= 2 && !Open(s, t, i)
    requires !(level == 4 || t == s.k.pdt)
    ensures var e := Entry(s.mem, t, i);
            && Present(e) && Big(e) && !Usermode(e)
            && (t == s.k.linear || (t == s.k.pd && i < 16))
            && (t == s.k.linear ==> level == 3 && e == i * SIZE_1G + 0x83 && Writable(e))
            && (t == s.k.pd ==> level == 2 && e == ImageEntry(i) && (Writable(e) <==> i == 0 || i >= 8))
  {
    assert EntryOk(s.k, s.owner, t, i, Entry(s.mem, t, i));
    if s.owner[t].KernelLinear? {
      LinearWord(i);
    } else {
      ImageWord(i);
    }
  }

  /** A present entry above level 1 is a big page or leads to a table in use. */
  lemma Child(s: State, level: nat, t: nat, i: Index)
    requires Valid(s) && IsTable(s, level, t) && level >= 2
    ensures var e := Entry(s.mem, t, i);
            Present(e) && !Big(e) ==> IsTable(s, level - 1, Target(e)) && Target(e) == Base(e)
    ensures Big(Entry(s.mem, t, i)) ==> Present(Entry(s.mem, t, i)) && level < 4
  {
    if Open(s, t, i) {
      OpenEntry(s, level, t, i);
    } else if level == 4 || t == s.k.pdt {
      SharedEntry(s, level, t, i);
    } else {
      BigEntry(s, level, t, i);
    }
  }

  /** Translation depends only on the entries of the tables in use. */
  lemma {:induction false} SameEntriesSameWalk(s: State, m': Mem, level: nat, t: nat, p: Path, w: bool, u: bool)
    requires Valid(s) && IsTable(s, level, t)
    requires forall t', i :: t' in s.owner && Level(s.owner[t']) > 0 && 0 <= i < 512 ==>
               Entry(m', t', i) == Entry(s.mem, t', i)
    ensures Descend(m', level, t, p, w, u) == Descend(s.mem, level, t, p, w, u)
    decreases level
  {
    var e := Entry(s.mem, t, p.At(level));
    assert Entry(m', t, p.At(level)) == e;
    if level > 1 {
      Child(s, level, t, p.At(level));
      if Present(e) && !Big(e) {
        SameEntriesSameWalk(s, m', level - 1, Target(e), p, w && Writable(e), u && Usermode(e));
      }
    }
  }
}
