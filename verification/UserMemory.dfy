/** Filling the pages of one user address space while every other stays as it was. */
module UserMemory {
  import opened Bytes
  import opened Paging
  import opened Ownership
  import opened Machines
  import opened Frame
  import opened Radix
  import opened Population
  import opened AddressSpace
  import KernelRuns
  import Klib

  // ----- user addresses -----

  /** A range of page-aligned addresses in the private half of an address space. */
  predicate UserRange(lo: nat, hi: nat) {
    lo <= hi && (hi <= CANONICAL_LOW || (LINEAR_END <= lo && hi <= 0x1_0000_0000_0000_0000 - SIZE_512G))
  }

  lemma UserRangePath(lo: nat, va: Word, hi: nat)
    requires UserRange(lo, hi) && lo <= va < hi
    ensures Canonical(va) && UserPath(PathOf(va)) && !ThroughBig(PathOf(va))
    ensures va % FRAME_SIZE == 0 ==> AddressOf(PathOf(va)) == va
  {
    hide PathOf;
    AddressOfPath(va);
  }

  /** A page is such a range exactly if it is canonical and under no shared root entry. */
  lemma UserRangeIff(va: Word)
    requires va % FRAME_SIZE == 0
    ensures UserRange(va, va + FRAME_SIZE) <==> Canonical(va) && UserPath(PathOf(va))
  {
    PathDigits(va);
    if Canonical(va) { AddressOfPath(va); }
    var page := va / FRAME_SIZE;
    assert va == page * FRAME_SIZE;
  }

  // ----- what stays as it was -----

  /** Only pages of `root` in `lo..hi` change their translation. */
  ghost predicate KeepsOutside(s: State, s': State, root: nat, lo: nat, hi: nat) {
    forall r, p :: IsRoot(s, r) && !(r == root && lo <= AddressOf(p) < hi) ==>
      Translate(s'.mem, r, p) == Translate(s.mem, r, p)
  }

  lemma KeepsOutsideTransitive(s: State, s1: State, s2: State, root: nat, lo: nat, mid: nat, hi: nat)
    requires Extends(s, s1) && KeepsOutside(s, s1, root, lo, mid) && KeepsOutside(s1, s2, root, mid, hi)
    requires lo <= mid <= hi
    ensures KeepsOutside(s, s2, root, lo, hi)
  {
    hide AddressOf;
    forall r, p | IsRoot(s, r) && !(r == root && lo <= AddressOf(p) < hi)
      ensures Translate(s2.mem, r, p) == Translate(s.mem, r, p) {
      assert IsRoot(s1, r);
    }
  }

  /** Only page `p` of `root` may have changed its translation. */
  ghost predicate OnlyPage(s: State, s': State, root: nat, p: Path) {
    forall r, q :: IsRoot(s, r) && !(r == root && q == p) ==> Translate(s'.mem, r, q) == Translate(s.mem, r, q)
  }

  // ----- one page -----

  /** Page `p` of `root` is mapped for reading and writing by user code, to a frame
      of its own that holds the 4096 bytes `content`. */
  ghost predicate PageHolds(s: State, root: nat, p: Path, content: seq<Byte>) {
    var page := Translate(s.mem, root, p);
    && page.Mapped? && page.writable && page.user
    && page.frame in s.owner && s.owner[page.frame] == UserPage(root, p)
    && page.frame + FRAME_SIZE <= |s.mem|
    && s.mem[page.frame..page.frame + FRAME_SIZE] == content
  }

  /** A frame owned for one page keeps its bytes as the state evolves. */
  lemma PageHoldsKept(s: State, s': State, root: nat, p: Path, content: seq<Byte>)
    requires PageHolds(s, root, p, content) && Extends(s, s')
    requires Translate(s'.mem, root, p) == Translate(s.mem, root, p)
    ensures PageHolds(s', root, p, content)
  {
    var f := Translate(s.mem, root, p).frame;
    assert forall j :: f <= j < f + FRAME_SIZE ==> s'.mem[j] == s.mem[j];
    assert s'.mem[f..f + FRAME_SIZE] == s.mem[f..f + FRAME_SIZE];
  }

  /** What a user program reads in a page that holds `content`. */
  lemma PageHoldsByte(s: State, root: nat, va: Word, content: seq<Byte>)
    requires Canonical(va) && PageHolds(s, root, PathOf(va), content)
    ensures |content| == FRAME_SIZE && UserByte(s.mem, root, va) == Some(content[va % FRAME_SIZE])
  {
    hide PathOf;
    var f := Translate(s.mem, root, PathOf(va)).frame;
    assert s.mem[f..f + FRAME_SIZE][va % FRAME_SIZE] == s.mem[f + va % FRAME_SIZE];
  }

  lemma DataWrite(s: State, f: nat, a: nat, bs: seq<Byte>)
    requires Valid(s) && f in s.owner && Level(s.owner[f]) == 0
    requires f <= a && a + |bs| <= f + FRAME_SIZE
    ensures a + |bs| <= |s.mem|
    ensures var s' := s.(mem := Blit(s.mem, a, bs));
            Valid(s') && SameTranslations(s, s') && OnlyFrame(s.mem, s'.mem, f)
  {
    hide RegionOk, ChainOk, Partition, KernelFramesOk, TablesOk, Entry;
    ClientWrite(s, f, a, bs);
    var m' := Blit(s.mem, a, bs);
    forall r, p | IsRoot(s, r) ensures Translate(m', r, p) == Translate(s.mem, r, p) {
      SameEntriesSameWalk(s, m', 4, r, p, true, true);
    }
  }

  /** Memory written in a frame that was not owned before, then given a role. */
  lemma FreshFrameExtends(s: State, s1: State, s2: State, s3: State, f: nat)
    requires Valid(s) && Extends(s, s1) && Extends(s1, s2) && f !in s.owner && f in s1.owner
    requires Aligned(f) && s.first <= f && f + FRAME_SIZE <= s.end
    requires s3 == s2.(mem := s3.mem, owner := s3.owner) && OnlyFrame(s2.mem, s3.mem, f)
    requires forall g :: g in s2.owner ==> g in s3.owner && (g != f ==> s3.owner[g] == s2.owner[g])
    ensures Extends(s, s3)
  {
    hide RegionOk, ChainOk, KernelFramesOk, TablesOk, Aligned;
    ExtendsTransitive(s, s1, s2);
    forall g, j | g in s.owner && Level(s.owner[g]) == 0 && g <= j < g + FRAME_SIZE && j < |s.mem|
      ensures s3.mem[j] == s.mem[j] {
      assert Aligned(g);
      FramesApart(f, g);
    }
  }

  /** The 4096 bytes of a zeroed page with `bs` copied to offset `off`. */
  function PageContent(off: nat, bs: seq<Byte>): (c: seq<Byte>)
    requires off + |bs| <= FRAME_SIZE
    ensures |c| == FRAME_SIZE
  {
    Blit(Zeros(FRAME_SIZE), off, bs)
  }

  lemma BlitShift(m: Mem, f: nat, off: nat, bs: seq<Byte>)
    requires off + |bs| <= FRAME_SIZE && f + FRAME_SIZE <= |m| && m[f..f + FRAME_SIZE] == Zeros(FRAME_SIZE)
    ensures Blit(m, f + off, bs)[f..f + FRAME_SIZE] == PageContent(off, bs)
  {
    hide Zeros;
    var page := m[f..f + FRAME_SIZE];
    var x, y := Blit(m, f + off, bs)[f..f + FRAME_SIZE], Blit(page, off, bs);
    forall j | 0 <= j < FRAME_SIZE ensures x[j] == y[j] {
      assert page[j] == m[f + j];
    }
  }

  /** The allocation, the mapping and the copy for one page, taken together. */
  lemma PageFilled(s: State, s2: State, root: nat, p: Path, off: nat, bs: seq<Byte>)
    requires Valid(s) && HasFrame(s) && IsRoot(s, root) && UserPath(p) && off + |bs| <= FRAME_SIZE
    requires var s1 := AllocZeroed(s); var f := NextFrame(s);
      Valid(s2) && Extends(s1, s2) && Remapped(s1, s2, root, p, Mapped(f, true, true))
    ensures var f := NextFrame(s);
      && f + FRAME_SIZE <= |s2.mem|
      && var s3 := s2.(mem := Blit(s2.mem, f + off, bs), owner := s2.owner[f := UserPage(root, p)]);
         && Valid(s3) && Extends(s, s3) && FreeCount(s3) == FreeCount(s2)
         && PageHolds(s3, root, p, PageContent(off, bs))
         && OnlyPage(s, s3, root, p)
  {
    hide RegionOk, ChainOk, Partition, KernelFramesOk, TablesOk, Entry, AllocZeroed, Aligned, Blit, PageContent, Zeros;
    hide Extends, FreeCount, NextFrame, HasFrame;
    var f, s1 := NextFrame(s), AllocZeroed(s);
    AllocZeroedValid(s);
    AllocExtends(s);
    AllocShape(s);
    AllocSameTranslations(s);
    ExtendsRole(s1, s2, f);
    OwnedBelow(s1, f);
    SameFrameBytes(s1, s2, f);
    OwnedBelow(s2, f);
    ExtendsKernel(s1, s2);
    DataWrite(s2, f, f + off, bs);
    var s3' := s2.(mem := Blit(s2.mem, f + off, bs));
    var s3 := s3'.(owner := s2.owner[f := UserPage(root, p)]);
    Retag(s3', f, UserPage(root, p));
    assert TablesOk(s3) by { DataRetag(s3', f, UserPage(root, p)); }
    assert FreeCount(s3) == FreeCount(s2) by { SameFreeCount(s2, s3); }
    FreshFrameExtends(s, s1, s2, s3, f);
    BlitShift(s2.mem, f, off, bs);
    StillRoot(s, s1, root);
    StillRoot(s1, s2, root);
    forall r, q | IsRoot(s, r)
      ensures Translate(s3.mem, r, q) == if r == root && q == p then Mapped(f, true, true) else Translate(s.mem, r, q) {
      StillRoot(s, s1, r);
      StillRoot(s1, s2, r);
      assert Translate(s3.mem, r, q) == Translate(s2.mem, r, q);
      assert Translate(s1.mem, r, q) == Translate(s.mem, r, q);
    }
  }

  lemma SameFrameBytes(s: State, s': State, f: nat)
    requires Extends(s, s') && f in s.owner && Level(s.owner[f]) == 0 && f + FRAME_SIZE <= |s.mem|
    ensures s'.mem[f..f + FRAME_SIZE] == s.mem[f..f + FRAME_SIZE]
  {
  }

  /** Bytes `a..a + n` exist and are not the allocator's or the page tables'. */
  ghost predicate Readable(s: State, a: nat, n: nat) {
    n == 0 || (a + n <= |s.mem| && forall j :: a <= j < a + n ==> Outside(s, j))
  }

  function Slice(m: Mem, a: nat, n: nat): (bs: seq<Byte>)
    ensures n == 0 || a + n <= |m| ==> |bs| == n
  {
    if a + n <= |m| then m[a..a + n] else []
  }

  lemma ReadableKept(s: State, s': State, a: nat, n: nat)
    requires Readable(s, a, n) && Extends(s, s')
    ensures Readable(s', a, n) && Slice(s'.mem, a, n) == Slice(s.mem, a, n) && |Slice(s.mem, a, n)| == n
  {
    if n > 0 {
      forall j | a <= j < a + n ensures Outside(s', j) && s'.mem[j] == s.mem[j] { assert Outside(s, j); }
    }
  }

  lemma ReadablePart(s: State, a: nat, n: nat, b: nat, l: nat)
    requires Readable(s, a, n) && (l > 0 ==> a <= b && b + l <= a + n)
    ensures Readable(s, b, l)
  {
  }

  /** Allocates a zeroed frame, maps it at `alignedDest` for user code and copies `n`
      bytes to offset `off` of it; ok is false where the kernel panics. */
  method FillPage(k: Machine, root: nat, alignedDest: Word, off: nat, source: nat, n: nat) returns (ok: bool)
    requires k.Ready() && IsRoot(k.S(), root) && UserPath(PathOf(alignedDest)) && off + n <= FRAME_SIZE
    requires Readable(k.S(), source, n)
    modifies k, k.ram
    ensures |Slice(old(k.S()).mem, source, n)| == n
    ensures k.Ready() && Extends(old(k.S()), k.S())
    ensures !ok ==> SameTranslations(old(k.S()), k.S()) && !HasFrame(k.S())
    ensures ok ==> PageHolds(k.S(), root, PathOf(alignedDest), PageContent(off, Slice(old(k.S()).mem, source, n)))
    ensures ok ==> OnlyPage(old(k.S()), k.S(), root, PathOf(alignedDest))
    ensures ok <==> 1 + Missing(old(k.S()).mem, 4, root, PathOf(alignedDest)) <= FreeCount(old(k.S()))
    ensures ok ==> FreeCount(k.S()) == FreeCount(old(k.S())) - 1 - Missing(old(k.S()).mem, 4, root, PathOf(alignedDest))
    ensures ok ==> Populated(old(k.S()), k.S(), root, PathOf(alignedDest), 1)
    ensures ok ==> KernelRuns.Reaches(old(k.S()), k.S())
  {
    hide RegionOk, ChainOk, Partition, KernelFramesOk, TablesOk, LinkWord, AllocZeroed, Entry;
    hide Extends, SameTranslations, Remapped, Missing, Blit, PageContent, PathOf, FreeCount, PageHolds, Readable;
    hide Populated, MapPage, KernelRuns.Reaches;
    ghost var s, p := k.S(), PathOf(alignedDest);
    NoFrame(s);
    SelfExtends(s);
    ReadableKept(s, s, source, n);
    var newFrame;
    ok, newFrame := FrameAllocZero(k);
    if !ok {
      return;
    }
    ghost var s1 := k.S();
    AllocatedFrame(s, root, p);
    ok := Mmap(k, root, newFrame, alignedDest, true);
    if !ok {
      ExtendsTransitive(s, s1, k.S());
      SameTranslationsTransitive(s, s1, k.S());
      return;
    }
    ghost var s2 := k.S();
    ReadableFar(s, s1, s2, newFrame, source, n);
    ghost var bs := Slice(s.mem, source, n);
    PageFilled(s, s2, root, p, off, bs);
    PopulatedFrom(s, s1, s2, root, p);
    FilledPopulated(s, s1, s2, newFrame, off, bs, root, p);
    FilledReached(s, root, p, off, bs);
    if n > 0 {
      Klib.Memcpy(k.ram, newFrame + off, source, n);
    } else {
      assert s2.mem == Blit(s2.mem, newFrame + off, bs) by { EmptyBlit(s2.mem, newFrame + off); }
    }
    k.owner := k.owner[newFrame := UserPage(root, p)];
    assert k.S() == s2.(mem := Blit(s2.mem, newFrame + off, bs), owner := s2.owner[newFrame := UserPage(root, p)]);
  }

  lemma FilledPopulated(s: State, s1: State, s2: State, f: nat, off: nat, bs: seq<Byte>, root: nat, p: Path)
    requires Valid(s2) && Extends(s1, s2) && IsRoot(s1, root) && f in s1.owner && s1.owner[f] == Data
    requires off + |bs| <= FRAME_SIZE && Populated(s, s2, root, p, 1)
    ensures f + off + |bs| <= |s2.mem|
    ensures Populated(s, s2.(mem := Blit(s2.mem, f + off, bs), owner := s2.owner[f := UserPage(root, p)]), root, p, 1)
  {
    hide RegionOk, ChainOk, Partition, KernelFramesOk, TablesOk, Entry, Populated, Blit;
    ExtendsRole(s1, s2, f);
    StillRoot(s1, s2, root);
    ClientWrite(s2, f, f + off, bs);
    var m' := Blit(s2.mem, f + off, bs);
    PopulatedKept(s, s2, m', root, p, 1);
    PopulatedMem(s, s2.(mem := m'), s2.(mem := m', owner := s2.owner[f := UserPage(root, p)]), root, p, 1);
  }

  /** A zeroed allocation, a mapping, a copy and the claim of the frame are a run. */
  lemma FilledReached(s: State, root: nat, p: Path, off: nat, bs: seq<Byte>)
    requires Valid(s) && HasFrame(s) && IsRoot(s, root) && UserPath(p) && off + |bs| <= FRAME_SIZE
    requires Valid(AllocZeroed(s)) && IsRoot(AllocZeroed(s), root) && !ThroughBig(p)
    requires Missing(AllocZeroed(s).mem, 4, root, p) <= FreeCount(AllocZeroed(s))
    ensures var f := NextFrame(s); var s2 := MapPage(AllocZeroed(s), root, p, f + 7);
      && f + off + |bs| <= |s2.mem|
      && KernelRuns.Reaches(s, s2.(mem := Blit(s2.mem, f + off, bs), owner := s2.owner[f := UserPage(root, p)]))
  {
    hide RegionOk, ChainOk, Partition, KernelFramesOk, TablesOk, AllocZeroed, Entry, MapPage, Blit, Missing, FreeCount;
    hide KernelRuns.Reaches, Aligned, NextFrame, ThroughBig;
    var s1, f := AllocZeroed(s), NextFrame(s);
    AllocatedFrame(s, root, p);
    AllocZeroedValid(s);
    AllocShape(s);
    KernelRuns.ReachesOne(s, KernelRuns.AllocZeroOp, s1);
    KernelRuns.ReachesFilled(s1, root, p, f, off, bs);
    var s2 := MapPage(s1, root, p, f + 7);
    var s3 := s2.(mem := Blit(s2.mem, f + off, bs), owner := s2.owner[f := UserPage(root, p)]);
    KernelRuns.ReachesTransitive(s, s1, s3);
  }

  lemma SelfExtends(s: State)
    ensures Extends(s, s) && SameTranslations(s, s)
  {
  }

  lemma EmptyBlit(m: Mem, a: nat)
    requires a <= |m|
    ensures Blit(m, a, []) == m
  {
  }

  lemma AllocatedFrame(s: State, root: nat, p: Path)
    requires Valid(s) && HasFrame(s) && IsRoot(s, root) && UserPath(p)
    ensures var s1, f := AllocZeroed(s), NextFrame(s);
      && Extends(s, s1) && SameTranslations(s, s1) && IsRoot(s1, root) && FreeCount(s1) == FreeCount(s) - 1
      && Aligned(f) && f + FRAME_SIZE <= PHYSICAL_LIMIT && !ThroughBig(p)
      && f in s1.owner && s1.owner[f] == Data
      && (forall q :: Missing(s1.mem, 4, root, q) == Missing(s.mem, 4, root, q))
  {
    hide RegionOk, ChainOk, Partition, KernelFramesOk, TablesOk, Entry, AllocZeroed, Aligned, Extends;
    AllocZeroedValid(s);
    AllocExtends(s);
    AllocSameTranslations(s);
    OwnedBelow(AllocZeroed(s), NextFrame(s));
    forall q ensures Missing(AllocZeroed(s).mem, 4, root, q) == Missing(s.mem, 4, root, q) {
      SameMissing(s, AllocZeroed(s).mem, 4, root, q);
    }
  }

  /** The bytes to copy are still there and lie outside the new frame. */
  lemma ReadableFar(s: State, s1: State, s2: State, f: nat, a: nat, n: nat)
    requires Valid(s) && Readable(s, a, n) && Extends(s, s1) && Extends(s1, s2)
    requires HasFrame(s) && f == NextFrame(s)
    ensures |s2.mem| == |s.mem| && Slice(s2.mem, a, n) == Slice(s.mem, a, n) && |Slice(s.mem, a, n)| == n
    ensures n > 0 ==> a + n <= |s.mem| && (a + n <= f || f + FRAME_SIZE <= a)
  {
    hide RegionOk, ChainOk, Partition, KernelFramesOk, TablesOk, Aligned, NextFrame;
    ExtendsTransitive(s, s1, s2);
    ReadableKept(s, s2, a, n);
    AllocInRange(s);
    if n > 0 {
      assert a <= f < a + n ==> Outside(s, f);
      assert f <= a < f + FRAME_SIZE ==> Outside(s, a);
    }
  }
}
