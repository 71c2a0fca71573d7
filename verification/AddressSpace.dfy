/** src/address_space.c: finding, creating, setting and clearing page-table entries. */
module AddressSpace {
  import opened Bytes
  import opened Paging
  import opened Ownership
  import opened Machines
  import opened Frame
  import opened Radix
  import opened Population
  import Klib

  // ----- one level of resolve_pageentry -----

  /** The effect of the block that fills an absent entry with a new table. */
  ghost function Grow(s: State, t: nat, i: Index): State
    requires Valid(s) && IsTable(s, TableLevel(s, t), t) && TableLevel(s, t) >= 2
    requires Present(Entry(s.mem, t, i)) || HasFrame(s)
  {
    if Present(Entry(s.mem, t, i)) then s
    else
      FreshLinkable(s, t);
      LinkTable(AllocZeroed(s), t, i, NextFrame(s))
  }

  lemma FreshLinkable(s: State, t: nat)
    requires Valid(s) && HasFrame(s) && t in s.owner
    ensures t + FRAME_SIZE <= |AllocZeroed(s).mem| && NextFrame(s) < SIZE_512G
    ensures t in AllocZeroed(s).owner && AllocZeroed(s).owner[t] == s.owner[t]
  {
    hide RegionOk, ChainOk, Partition, KernelFramesOk, TablesOk, Blit, Zeros, Entry, NextFrame, Aligned;
    OwnedBelow(s, t);
    AllocZeroedValid(s);
    OwnedBelow(AllocZeroed(s), NextFrame(s));
  }

  lemma AbsentIsEmpty(s: State, level: nat, t: nat, i: Index)
    requires Valid(s) && IsTable(s, level, t) && level >= 2 && !Present(Entry(s.mem, t, i))
    ensures Entry(s.mem, t, i) == 0 && Open(s, t, i) && !Big(0)
  {
    hide RegionOk, ChainOk, Partition, TablesOk, Entry, Present, Big, Writable, Usermode, Target;
    EmptyEntry();
    if Open(s, t, i) {
      OpenEntry(s, level, t, i);
    } else if level == 4 || t == s.k.pdt {
      SharedEntry(s, level, t, i);
    } else {
      BigEntry(s, level, t, i);
    }
  }

  lemma OpenSame(s: State, s1: State, t: nat, i: Index)
    requires t in s.owner && t in s1.owner && s1.owner[t] == s.owner[t]
    ensures Open(s1, t, i) == Open(s, t, i)
  {
  }

  lemma AllocExtends(s: State)
    requires Valid(s) && HasFrame(s)
    ensures Extends(s, AllocZeroed(s))
  {
    hide ChainOk, KernelFramesOk, TablesOk, Entry, Zeros, Aligned, Blit, AllocZeroed;
    var f, s' := NextFrame(s), AllocZeroed(s);
    AllocZeroedValid(s);
    AllocShape(s);
    forall g, j | g in s.owner && Level(s.owner[g]) == 0 && g <= j < g + FRAME_SIZE && j < |s.mem|
      ensures s'.mem[j] == s.mem[j] {
      FramesApart(f, g);
    }
  }

  lemma AllocSameTranslations(s: State)
    requires Valid(s) && HasFrame(s)
    ensures SameTranslations(s, AllocZeroed(s))
  {
    hide RegionOk, ChainOk, Partition, KernelFramesOk, TablesOk, Entry, AllocZeroed, Aligned;
    AllocZeroedValid(s);
    forall r, p | IsRoot(s, r) ensures Translate(AllocZeroed(s).mem, r, p) == Translate(s.mem, r, p) {
      SameEntriesSameWalk(s, AllocZeroed(s).mem, 4, r, p, true, true);
    }
  }

  lemma AllocShape(s: State)
    requires Valid(s) && HasFrame(s)
    ensures var s' := AllocZeroed(s);
            s'.k == s.k && s'.first == s.first && s'.end == s.end && |s'.mem| == |s.mem|
  {
    hide RegionOk, ChainOk, Partition, KernelFramesOk, TablesOk;
  }

  lemma LinkEffect(s: State, t: nat, i: Index, f: nat)
    requires Linkable(s, t, i, f)
    ensures LinkFitsIn(s, t, f)
    ensures var s' := LinkTable(s, t, i, f);
            && Extends(s, s'.(owner := s.owner))
            && FreeCount(s') == FreeCount(s) && s'.owner == s.owner[f := Table(Level(s.owner[t]) - 1, t, i)]
            && (forall t', j :: t' in s.owner && 0 <= j < 512 ==>
                  Entry(s'.mem, t', j) == if t' == t && j == i then f + 7 else Entry(s.mem, t', j))
  {
    hide RegionOk, ChainOk, Partition, KernelFramesOk, TablesOk, Entry, Put64, Extends;
    LinkFits(s, t, i, f);
    TableWrite(s, t, i, f + 7);
    var s' := LinkTable(s, t, i, f);
    assert s'.(owner := s.owner) == s.(mem := s'.mem);
  }

  /** A frame that was not owned before may take any role. */
  lemma ExtendsFresh(s: State, s1: State, s': State, f: nat)
    requires Extends(s, s1) && Extends(s1, s'.(owner := s1.owner))
    requires f !in s.owner && f in s1.owner && s'.owner.Keys == s1.owner.Keys
    requires forall g :: g in s1.owner && g != f ==> s'.owner[g] == s1.owner[g]
    ensures Extends(s, s')
  {
    ExtendsTransitive(s, s1, s'.(owner := s1.owner));
  }

  /** Filling an absent entry costs one frame, keeps every translation and every
      other entry, and leaves one table less to create on the way. */
  lemma GrowKeeps(s: State, level: nat, t: nat, i: Index)
    requires Valid(s) && IsTable(s, level, t) && level >= 2 && !Big(Entry(s.mem, t, i))
    requires Present(Entry(s.mem, t, i)) || HasFrame(s)
    ensures var s' := Grow(s, t, i); var e := Entry(s'.mem, t, i);
      && Valid(s') && Extends(s, s') && SameTranslations(s, s')
      && FreeCount(s') == FreeCount(s) - (if Present(Entry(s.mem, t, i)) then 0 else 1)
      && Present(e) && !Big(e) && IsTable(s', level - 1, Target(e)) && Target(e) == Base(e)
      && (forall t', j :: t' in s.owner && Level(s.owner[t']) > 0 && 0 <= j < 512 && !(t' == t && j == i) ==>
            Entry(s'.mem, t', j) == Entry(s.mem, t', j))
      && (forall p: Path :: p.At(level) == i ==>
            Missing(s'.mem, level - 1, Target(e), p)
            == Missing(s.mem, level, t, p) - (if Present(Entry(s.mem, t, i)) then 0 else 1))
  {
    hide RegionOk, ChainOk, Partition, KernelFramesOk, TablesOk, Entry, Present, Big, Writable, Usermode, Base, Target;
    if Present(Entry(s.mem, t, i)) {
      Child(s, level, t, i);
    } else {
      GrowAbsent(s, level, t, i);
    }
  }

  lemma GrowAbsent(s: State, level: nat, t: nat, i: Index)
    requires Valid(s) && IsTable(s, level, t) && level >= 2
    requires !Present(Entry(s.mem, t, i)) && HasFrame(s)
    ensures var s' := Grow(s, t, i); var e := Entry(s'.mem, t, i);
      && Valid(s') && Extends(s, s') && SameTranslations(s, s')
      && FreeCount(s') == FreeCount(s) - 1
      && Present(e) && !Big(e) && IsTable(s', level - 1, Target(e)) && Target(e) == Base(e)
      && (forall t', j :: t' in s.owner && Level(s.owner[t']) > 0 && 0 <= j < 512 && !(t' == t && j == i) ==>
            Entry(s'.mem, t', j) == Entry(s.mem, t', j))
      && (forall p: Path :: p.At(level) == i ==>
            && Missing(s'.mem, level - 1, Target(e), p) == level - 2
            && Missing(s.mem, level, t, p) == level - 1)
  {
    hide RegionOk, ChainOk, Partition, KernelFramesOk, TablesOk, Entry, Present, Big, Writable, Usermode, Base, Target;
    hide Blit, Zeros, Put64, Aligned, AllocZeroed, LinkTable, Extends, FreeCount;
    var f, s1, s' := NextFrame(s), AllocZeroed(s), Grow(s, t, i);
    AbsentIsEmpty(s, level, t, i);
    AllocZeroedValid(s);
    FreshLinkable(s, t);
    AllocExtends(s);
    EmptyEntry();
    AllocShape(s);
    OpenSame(s, s1, t, i);
    assert Linkable(s1, t, i, f);
    LinkValid(s1, t, i, f);
    LinkEffect(s1, t, i, f);
    OwnedBelow(s1, f);
    LinkFlags(f);
    ExtendsFresh(s, s1, s', f);
    forall r, p | IsRoot(s, r) ensures Translate(s'.mem, r, p) == Translate(s.mem, r, p) {
      SameEntriesSameWalk(s, s1.mem, 4, r, p, true, true);
      LinkWalk(s1, s'.mem, t, i, f, 4, r, p, true, true);
    }
    forall p: Path | p.At(level) == i ensures Missing(s'.mem, level - 1, f, p) == level - 2 {
      assert Entry(s'.mem, f, p.At(level - 1)) == 0;
    }
  }

  // ----- the walk that creates tables -----

  /** One more level reached, with present entries of the way unchanged. */
  lemma {:induction false} ReachGrows(s: State, m': Mem, l: nat, x: nat, p: Path, level: nat, t: nat)
    requires Valid(s) && IsTable(s, l, x) && 2 <= level <= l && Reach(s.mem, l, x, p, level, t)
    requires forall t', j :: t' in s.owner && Level(s.owner[t']) > 0 && 0 <= j < 512 && Present(Entry(s.mem, t', j)) ==>
               Entry(m', t', j) == Entry(s.mem, t', j)
    requires Present(Entry(m', t, p.At(level))) && !Big(Entry(m', t, p.At(level)))
    ensures Reach(m', l, x, p, level - 1, Target(Entry(m', t, p.At(level))))
    decreases l
  {
    hide RegionOk, ChainOk, Partition, KernelFramesOk, TablesOk, Entry, Present, Big, Writable, Usermode, Base, Target;
    if l > level {
      Child(s, l, x, p.At(l));
      ReachGrows(s, m', l - 1, Target(Entry(s.mem, x, p.At(l))), p, level, t);
    }
  }

  lemma NoFrame(s: State)
    requires Valid(s)
    ensures FreeCount(s) >= 0
    ensures HasFrame(s) <==> FreeCount(s) > 0
  {
    hide ChainOk, Partition, KernelFramesOk, TablesOk;
    if s.next < s.end {
      FramesApart(s.next, s.end);
    }
  }

  /** What one step of `Resolve` needs and leaves. */
  lemma ResolveStep(s: State, level: nat, t: nat, p: Path)
    requires Valid(s) && IsTable(s, level, t) && Missing(s.mem, level, t, p) <= FreeCount(s)
    requires level >= 2 && !Big(Entry(s.mem, t, p.At(level)))
    ensures TableLevel(s, t) == level && (Present(Entry(s.mem, t, p.At(level))) || HasFrame(s))
    ensures var s' := Grow(s, t, p.At(level)); var c := Target(Entry(s'.mem, t, p.At(level)));
            Valid(s') && IsTable(s', level - 1, c) && Missing(s'.mem, level - 1, c, p) <= FreeCount(s')
  {
    hide RegionOk, ChainOk, Partition, KernelFramesOk, TablesOk, Entry, Present, Big, Writable, Usermode, Base, Target;
    hide Extends, SameTranslations, FreeCount, Grow;
    NoFrame(s);
    if !Present(Entry(s.mem, t, p.At(level))) {
      AbsentIsEmpty(s, level, t, p.At(level));
    }
    GrowKeeps(s, level, t, p.At(level));
  }

  /** What `resolve_pageentry` makes of the state: the tables it found missing on the
      way of page `p` from the level-`level` table `t` are there. */
  ghost function Resolve(s: State, level: nat, t: nat, p: Path): State
    requires Valid(s) && IsTable(s, level, t) && Missing(s.mem, level, t, p) <= FreeCount(s)
    decreases level
  {
    var i := p.At(level);
    if level == 1 || Big(Entry(s.mem, t, i)) then s
    else
      ResolveStep(s, level, t, p);
      var s' := Grow(s, t, i);
      Resolve(s', level - 1, Target(Entry(s'.mem, t, i)), p)
  }

  /** The frames suffice for the walk, and what is left to do from `s` leads where the
      whole walk from `s0` leads. */
  ghost predicate SameEnd(s0: State, s: State, root: nat, p: Path, level: nat, t: nat) {
    && Valid(s0) && IsTable(s0, 4, root) && Valid(s) && IsTable(s, level, t)
    && (Missing(s0.mem, 4, root, p) <= FreeCount(s0) ==>
          && Missing(s.mem, level, t, p) <= FreeCount(s)
          && Resolve(s0, 4, root, p) == Resolve(s, level, t, p))
  }

  lemma SameEndStep(s0: State, s: State, root: nat, p: Path, level: nat, t: nat)
    requires SameEnd(s0, s, root, p, level, t) && level >= 2
    requires !Big(Entry(s.mem, t, p.At(level)))
    requires Present(Entry(s.mem, t, p.At(level))) || HasFrame(s)
    ensures var s' := Grow(s, t, p.At(level));
            SameEnd(s0, s', root, p, level - 1, Target(Entry(s'.mem, t, p.At(level))))
  {
    hide RegionOk, ChainOk, Partition, KernelFramesOk, TablesOk, Entry, Present, Big, Writable, Usermode, Base, Target;
    hide Extends, SameTranslations, FreeCount, Grow, Missing;
    GrowKeeps(s, level, t, p.At(level));
    if Missing(s0.mem, 4, root, p) <= FreeCount(s0) {
      ResolveStep(s, level, t, p);
    }
  }

  /** What holds between two levels of the walk for page `p` that began in `s0`. */
  ghost predicate Walking(s0: State, s: State, root: nat, p: Path, level: nat, t: nat) {
    && Valid(s) && Extends(s0, s) && SameTranslations(s0, s) && SameEnd(s0, s, root, p, level, t)
    && IsTable(s, 4, root) && IsTable(s, level, t) && Reach(s.mem, 4, root, p, level, t)
    && FreeCount(s) - Missing(s.mem, level, t, p) == FreeCount(s0) - Missing(s0.mem, 4, root, p)
    && FreeCount(s) <= FreeCount(s0) && Populated(s0, s, root, p, level)
  }

  lemma WalkingStep(s0: State, s: State, root: nat, p: Path, level: nat, t: nat)
    requires Walking(s0, s, root, p, level, t) && level >= 2
    requires !Big(Entry(s.mem, t, p.At(level)))
    requires Present(Entry(s.mem, t, p.At(level))) || HasFrame(s)
    ensures var s' := Grow(s, t, p.At(level)); var e := Entry(s'.mem, t, p.At(level));
            Walking(s0, s', root, p, level - 1, Target(e)) && Target(e) == Base(e)
  {
    hide RegionOk, ChainOk, Partition, KernelFramesOk, TablesOk, Entry, Present, Big, Writable, Usermode, Base, Target;
    hide Extends, SameTranslations, FreeCount, Grow, Populated, SameEnd;
    SameEndStep(s0, s, root, p, level, t);
    var i := p.At(level);
    var s' := Grow(s, t, i);
    GrowKeeps(s, level, t, i);
    ExtendsTransitive(s0, s, s');
    SameTranslationsTransitive(s0, s, s');
    assert IsTable(s', 4, root) by { ExtendsRole(s, s', root); }
    if Present(Entry(s.mem, t, i)) {
      assert s' == s by { GrowSame(s, t, i); }
    }
    ReachGrows(s, s'.mem, 4, root, p, level, t);
    GrowPopulated(s0, s, root, p, level, t);
  }

  lemma GrowPopulated(s0: State, s: State, root: nat, p: Path, level: nat, t: nat)
    requires Valid(s) && IsTable(s, 4, root) && IsTable(s, level, t) && level >= 2
    requires Reach(s.mem, 4, root, p, level, t) && Populated(s0, s, root, p, level)
    requires !Big(Entry(s.mem, t, p.At(level))) && (Present(Entry(s.mem, t, p.At(level))) || HasFrame(s))
    ensures Populated(s0, Grow(s, t, p.At(level)), root, p, level - 1)
  {
    hide RegionOk, ChainOk, Partition, KernelFramesOk, TablesOk, Entry, Present, Big, Writable, Usermode, Base, Target;
    hide AllocZeroed, LinkTable, Populated, Aligned;
    var i := p.At(level);
    if Present(Entry(s.mem, t, i)) {
      PopulatedPresent(s0, s, root, p, level, t);
    } else {
      var f, s1 := NextFrame(s), AllocZeroed(s);
      AbsentIsEmpty(s, level, t, i);
      AllocZeroedValid(s);
      FreshLinkable(s, t);
      AllocShape(s);
      OpenSame(s, s1, t, i);
      FreshLinkable(s, root);
      assert Linkable(s1, t, i, f);
      LinkEffect(s1, t, i, f);
      PopulatedKept(s0, s, s1.mem, root, p, level);
      PopulatedMem(s0, s.(mem := s1.mem), s1, root, p, level);
      ReachSame(s, s1.mem, 4, root, p, level, t);
      PopulatedLinked(s0, s1, LinkTable(s1, t, i, f).mem, root, p, level, t, f);
      PopulatedIs(s0, Grow(s, t, i), root, p, level - 1);
    }
  }

  lemma PopulatedIs(s0: State, s: State, root: nat, p: Path, level: nat)
    requires forall q :: Missing(s.mem, 4, root, q) == Min(Missing(s0.mem, 4, root, q), Max(Unshared(p, q), level - 1))
    ensures Populated(s0, s, root, p, level)
  {
  }

  lemma GrowSame(s: State, t: nat, i: Index)
    requires Valid(s) && IsTable(s, TableLevel(s, t), t) && TableLevel(s, t) >= 2 && Present(Entry(s.mem, t, i))
    ensures Grow(s, t, i) == s
  {
  }

  lemma ExtendsRole(s: State, s': State, f: nat)
    requires Extends(s, s') && f in s.owner
    ensures f in s'.owner && s'.owner[f] == s.owner[f]
  {
  }

  // ----- the kernel's functions -----

  /** An entry set the way the kernel sets one: the address, then each flag. */
  method WriteEntry(ram: array<Byte>, entry: nat, address: nat, usermode: bool)
    requires entry + 8 <= ram.Length
    requires Aligned(address) && address + FRAME_SIZE <= PHYSICAL_LIMIT
    modifies ram
    ensures ram[..] == Put64(old(ram[..]), entry, address + if usermode then 7 else 3)
  {
    hide Put64, Word64;
    ghost var m := ram[..];
    FlagSums(address);
    Klib.Store64(ram, entry, address);
    Put64Same(m, entry, address);
    Klib.SetFlag(ram, entry, 1);
    Put64Put64(m, entry, address, address + 1);
    Put64Same(m, entry, address + 1);
    Klib.SetFlag(ram, entry, 2);
    Put64Put64(m, entry, address + 1, address + 3);
    Put64Same(m, entry, address + 3);
    if usermode {
      Klib.SetFlag(ram, entry, 4);
      Put64Put64(m, entry, address + 3, address + 7);
    } else {
      Klib.ClearFlag(ram, entry, 4);
      Put64Put64(m, entry, address + 3, address + 3);
    }
  }

  lemma FlagSums(a: nat)
    requires Aligned(a)
    ensures a % 2 == 0 && (a + 1) / 2 % 2 == 0 && (a + 3) / 4 % 2 == 0
  {
    var q := a / FRAME_SIZE;
    assert a == q * FRAME_SIZE;
    BitsLow(q, 0);
    BitsLow(q, 1);
    BitsLow(q, 3);
  }

  /** Creates the table an absent entry should point to; ok is false where the
      kernel panics for want of a frame. */
  method EnsureTable(k: Machine, t: nat, i: Index) returns (ok: bool)
    requires k.Ready() && IsTable(k.S(), TableLevel(k.S(), t), t) && TableLevel(k.S(), t) >= 2
    requires !Big(Entry(k.S().mem, t, i))
    modifies k, k.ram
    ensures k.Ready()
    ensures ok <==> Present(Entry(old(k.S()).mem, t, i)) || HasFrame(old(k.S()))
    ensures k.S() == if ok then Grow(old(k.S()), t, i) else old(k.S())
  {
    hide RegionOk, ChainOk, Partition, KernelFramesOk, TablesOk, Word64, LinkWord, Present, Put64, AllocZeroed;
    ghost var s := k.S();
    OwnedBelow(s, t);
    var w := Klib.Load64(k.ram, t + 8 * i);
    if Present(w) {
      return true;
    }
    var f;
    ok, f := FrameAllocZero(k);
    if ok {
      GrowAbsent(s, TableLevel(s, t), t, i);
      AllocZeroedValid(s);
      FreshLinkable(s, t);
      OwnedBelow(AllocZeroed(s), f);
      WriteEntry(k.ram, t + 8 * i, f, true);
      k.owner := k.owner[f := Table(TableLevel(s, t) - 1, t, i)];
      assert k.S() == LinkTable(AllocZeroed(s), t, i, f);
      assert k.chain == AllocZeroed(s).chain;
    }
  }

  /** One level of the walk: stops at a big entry, else enters the table below,
      creating it if need be. */
  method DescendOne(k: Machine, t: nat, i: Index, ghost s0: State, ghost root: nat, ghost p: Path, ghost level: nat)
    returns (ok: bool, big: bool, child: nat)
    requires k.Ready() && Walking(s0, k.S(), root, p, level, t) && level >= 2 && i == p.At(level)
    modifies k, k.ram
    ensures k.Ready()
    ensures !ok ==> k.S() == old(k.S()) && !HasFrame(k.S()) && Missing(s0.mem, 4, root, p) > FreeCount(s0)
    ensures ok && big ==> k.S() == old(k.S()) && Stop(k.S().mem, 4, root, p) == Some((t, i))
    ensures ok && big ==> Missing(s0.mem, 4, root, p) == FreeCount(s0) - FreeCount(k.S()) <= FreeCount(s0)
    ensures ok && big ==> Valid(s0) && IsTable(s0, 4, root) && k.S() == Resolve(s0, 4, root, p)
    ensures ok && !big ==> Walking(s0, k.S(), root, p, level - 1, child)
  {
    hide RegionOk, ChainOk, Partition, KernelFramesOk, TablesOk, Word64, LinkWord, Present, Big, Writable, Usermode;
    hide Target;
    hide FreeCount, Grow, Missing, Stop, HasFrame, Walking, Resolve;
    ghost var s := k.S();
    child := 0;
    WalkingFacts(s0, s, root, p, level, t);
    var e := Klib.Load64(k.ram, t + 8 * i);
    big := Big(e);
    if big {
      BigStops(s0, s, root, p, level, t);
      return true, true, 0;
    }
    ok := EnsureTable(k, t, i);
    if !ok {
      OutOfFrames(s0, s, root, p, level, t);
      return;
    }
    WalkingStep(s0, s, root, p, level, t);
    e := Klib.Load64(k.ram, t + 8 * i);
    child := Base(e);
  }

  /** Finds the entry that maps `ptr`, creating tables on the way; ok is false
      where the kernel panics. It stops at the first big entry. */
  method ResolvePageentry(k: Machine, root: nat, ptr: Word) returns (ok: bool, entry: nat)
    requires k.Ready() && IsRoot(k.S(), root)
    modifies k, k.ram
    ensures k.Ready()
    ensures Extends(old(k.S()), k.S()) && SameTranslations(old(k.S()), k.S())
    ensures ok <==> Missing(old(k.S()).mem, 4, root, PathOf(ptr)) <= FreeCount(old(k.S()))
    ensures !ok ==> !HasFrame(k.S())
    ensures ok ==> FreeCount(k.S()) == FreeCount(old(k.S())) - Missing(old(k.S()).mem, 4, root, PathOf(ptr))
    ensures ok ==> var stop := Stop(k.S().mem, 4, root, PathOf(ptr));
                   stop.Some? && entry == stop.value.0 + 8 * stop.value.1
    ensures ok && IsLeafTable(k.S(), Stop(k.S().mem, 4, root, PathOf(ptr)).value.0) ==>
              Populated(old(k.S()), k.S(), root, PathOf(ptr), 1)
    ensures ok ==> k.S() == Resolve(old(k.S()), 4, root, PathOf(ptr))
  {
    hide RegionOk, ChainOk, Partition, KernelFramesOk, TablesOk, LinkWord, Entry, Populated, ThroughBig, IsLeafTable;
    hide Extends, SameTranslations, FreeCount, Missing, Stop, Walking, PathOf, Resolve;
    var p := PathOf(ptr);
    ghost var s0 := k.S();
    StartWalking(s0, root, p);
    WalkingFacts(s0, s0, root, p, 4, root);
    entry := 0;

    var big, l3Table, l2Table, l1Table;
    ok, big, l3Table := DescendOne(k, root, p.i4, s0, root, p, 4);
    if !ok || big {
      if ok { NotLeaf(k.S(), 4, root); }
      return ok, root + 8 * p.i4;
    }
    WalkingFacts(s0, k.S(), root, p, 3, l3Table);
    ok, big, l2Table := DescendOne(k, l3Table, p.i3, s0, root, p, 3);
    if !ok || big {
      if ok { NotLeaf(k.S(), 3, l3Table); }
      return ok, l3Table + 8 * p.i3;
    }
    WalkingFacts(s0, k.S(), root, p, 2, l2Table);
    ok, big, l1Table := DescendOne(k, l2Table, p.i2, s0, root, p, 2);
    if !ok || big {
      if ok { NotLeaf(k.S(), 2, l2Table); }
      return ok, l2Table + 8 * p.i2;
    }
    WalkingFacts(s0, k.S(), root, p, 1, l1Table);
    LeafStops(s0, k.S(), root, p, l1Table);
    entry := l1Table + 8 * p.i1;
  }

  lemma NotLeaf(s: State, level: nat, t: nat)
    requires IsTable(s, level, t) && level >= 2
    ensures !IsLeafTable(s, t)
  {
  }

  lemma WalkingFacts(s0: State, s: State, root: nat, p: Path, level: nat, t: nat)
    requires Walking(s0, s, root, p, level, t)
    ensures IsTable(s, level, t) && TableLevel(s, t) == level && t + FRAME_SIZE <= |s.mem|
    ensures Extends(s0, s) && SameTranslations(s0, s)
  {
    hide RegionOk, ChainOk, Partition, KernelFramesOk, TablesOk, Extends, SameTranslations;
    OwnedBelow(s, t);
  }

  lemma StartWalking(s: State, root: nat, p: Path)
    requires Valid(s) && IsRoot(s, root)
    ensures Walking(s, s, root, p, 4, root)
  {
    StartPopulated(s, root, p);
    hide Populated, RegionOk, ChainOk, Partition, KernelFramesOk, TablesOk, Entry;
  }

  lemma BigStops(s0: State, s: State, root: nat, p: Path, level: nat, t: nat)
    requires Walking(s0, s, root, p, level, t) && Big(Entry(s.mem, t, p.At(level)))
    ensures Stop(s.mem, 4, root, p) == Some((t, p.At(level)))
    ensures Missing(s0.mem, 4, root, p) == FreeCount(s0) - FreeCount(s)
    ensures FreeCount(s) >= 0
    ensures Valid(s0) && IsTable(s0, 4, root) && Missing(s0.mem, 4, root, p) <= FreeCount(s0)
    ensures Resolve(s0, 4, root, p) == s
  {
    hide RegionOk, ChainOk, Partition, KernelFramesOk, TablesOk, Entry, Present, Big, Target, FreeCount, Extends;
    hide SameTranslations, Populated;
    ReachMissing(s.mem, 4, root, p, level, t);
    NoFrame(s);
  }

  lemma LeafStops(s0: State, s: State, root: nat, p: Path, t: nat)
    requires Walking(s0, s, root, p, 1, t)
    ensures Stop(s.mem, 4, root, p) == Some((t, p.i1)) && Populated(s0, s, root, p, 1)
    ensures Missing(s0.mem, 4, root, p) == FreeCount(s0) - FreeCount(s)
    ensures FreeCount(s) >= 0
    ensures Valid(s0) && IsTable(s0, 4, root) && Missing(s0.mem, 4, root, p) <= FreeCount(s0)
    ensures Resolve(s0, 4, root, p) == s
  {
    hide RegionOk, ChainOk, Partition, KernelFramesOk, TablesOk, Entry, Present, Big, Target, FreeCount, Extends;
    hide SameTranslations, Populated;
    ReachMissing(s.mem, 4, root, p, 1, t);
    NoFrame(s);
  }

  lemma OutOfFrames(s0: State, s: State, root: nat, p: Path, level: nat, t: nat)
    requires Walking(s0, s, root, p, level, t) && level >= 2
    requires !Present(Entry(s.mem, t, p.At(level))) && !HasFrame(s)
    ensures Missing(s0.mem, 4, root, p) > FreeCount(s0)
  {
    hide RegionOk, ChainOk, Partition, KernelFramesOk, TablesOk, Entry, Writable, Usermode, FreeCount, Extends;
    hide SameTranslations;
    AbsentIsEmpty(s, level, t, p.At(level));
    NoFrame(s);
  }

  // ----- one page mapped or unmapped -----

  /** Writing a leaf creates no table. */
  lemma LeafPopulated(s0: State, s: State, root: nat, p: Path, entry: nat, w: Word)
    requires Valid(s) && IsRoot(s, root) && Stop(s.mem, 4, root, p).Some? && LeafOk(w)
    requires var stop := Stop(s.mem, 4, root, p).value;
             IsLeafTable(s, stop.0) && entry == stop.0 + 8 * stop.1 && entry + 8 <= |s.mem|
    requires Populated(s0, s, root, p, 1)
    ensures Populated(s0, s.(mem := Put64(s.mem, entry, w)), root, p, 1)
  {
    hide RegionOk, ChainOk, Partition, KernelFramesOk, TablesOk, Entry, Put64, Populated, Stop, LeafOk, Aligned;
    var stop := Stop(s.mem, 4, root, p).value;
    LeafWrite(s, stop.0, stop.1, w);
    PopulatedKept(s0, s, Put64(s.mem, entry, w), root, p, 1);
  }

  lemma StillRoot(s: State, s': State, root: nat)
    requires Extends(s, s') && IsRoot(s, root)
    ensures IsRoot(s', root)
  {
  }

  lemma LeafWord(a: nat, usermode: bool)
    requires Aligned(a) && a + FRAME_SIZE <= PHYSICAL_LIMIT
    ensures var w := a + if usermode then 7 else 3;
            LeafOk(w) && LeafPage(w, true, true) == Mapped(a, true, usermode)
  {
    var q := a / FRAME_SIZE;
    assert a == q * FRAME_SIZE;
    Flags(a, if usermode then 7 else 3);
  }

  /** An empty leaf, or one that holds the frame it maps. */
  lemma LeafHolds(w: Word)
    requires LeafOk(w)
    ensures LeafPage(w, true, true) ==
            if w == 0 then Unmapped else Mapped(Base(w), true, w % FRAME_SIZE == 7)
    ensures w == 0 ==> Base(w) == 0
  {
    if w != 0 {
      var x := w % FRAME_SIZE;
      var c := w - x;
      assert Aligned(c) by { assert c == w / FRAME_SIZE * FRAME_SIZE; }
      Flags(c, x);
    }
  }

  lemma RemappedAfter(s0: State, s: State, s': State, root: nat, p: Path, page: Page)
    requires Extends(s0, s) && SameTranslations(s0, s) && Remapped(s, s', root, p, page)
    ensures Remapped(s0, s', root, p, page)
  {
    forall r, q | IsRoot(s0, r)
      ensures Translate(s'.mem, r, q) ==
              if q == p && (r == root || p.i4 == 511) then page else Translate(s0.mem, r, q) {
      assert IsRoot(s, r);
    }
  }

  ghost function FrameOf(page: Page): nat {
    match page
    case Unmapped => 0
    case Mapped(f, _, _) => f
  }

  /** An entry cleared the way the kernel clears one. */
  method ClearEntry(ram: array<Byte>, entry: nat)
    requires entry + 8 <= ram.Length
    modifies ram
    ensures ram[..] == Put64(old(ram[..]), entry, 0)
  {
    hide Put64, Word64;
    ghost var m := ram[..];
    Klib.ClearFlag(ram, entry, 2);
    ghost var v := Word64(m, entry);
    Put64Put64(m, entry, if v / 2 % 2 == 1 then v - 2 else v, 0);
    ghost var m1 := ram[..];
    Klib.ClearFlag(ram, entry, 1);
    ghost var v1 := Word64(m1, entry);
    Put64Put64(m1, entry, if v1 / 1 % 2 == 1 then v1 - 1 else v1, 0);
    Klib.Store64(ram, entry, 0);
  }

  /** The walk ends at an entry, having taken the missing tables in frames. */
  lemma {:induction false} ResolveEnds(s0: State, s: State, root: nat, p: Path, level: nat, t: nat)
    requires Walking(s0, s, root, p, level, t) && Missing(s.mem, level, t, p) <= FreeCount(s)
    ensures var s' := Resolve(s, level, t, p);
      && Valid(s') && Extends(s0, s') && SameTranslations(s0, s') && Stop(s'.mem, 4, root, p).Some?
      && FreeCount(s') == FreeCount(s0) - Missing(s0.mem, 4, root, p)
      && (IsLeafTable(s', Stop(s'.mem, 4, root, p).value.0) ==> Populated(s0, s', root, p, 1))
    decreases level
  {
    hide RegionOk, ChainOk, Partition, KernelFramesOk, TablesOk, Entry, Present, Big, Writable, Usermode, Base, Target;
    hide Extends, SameTranslations, FreeCount, Grow, Populated, SameEnd, Reach, IsLeafTable;
    if level == 1 {
      LeafStops(s0, s, root, p, t);
    } else if Big(Entry(s.mem, t, p.At(level))) {
      BigStops(s0, s, root, p, level, t);
      NotLeaf(s, level, t);
    } else {
      ResolveStep(s, level, t, p);
      WalkingStep(s0, s, root, p, level, t);
      var s' := Grow(s, t, p.At(level));
      ResolveEnds(s0, s', root, p, level - 1, Target(Entry(s'.mem, t, p.At(level))));
    }
  }

  /** The frames a walk takes become tables and nothing else. */
  ghost predicate OnlyTables(s: State, s': State) {
    && (forall f :: f in s.owner ==> f in s'.owner && s'.owner[f] == s.owner[f])
    && (forall f :: f in s'.owner && f !in s.owner ==> s'.owner[f].Table?)
  }

  lemma GrowTables(s: State, t: nat, i: Index)
    requires Valid(s) && IsTable(s, TableLevel(s, t), t) && TableLevel(s, t) >= 2
    requires Present(Entry(s.mem, t, i)) || HasFrame(s)
    ensures OnlyTables(s, Grow(s, t, i))
  {
    hide RegionOk, ChainOk, Partition, KernelFramesOk, TablesOk, Entry, Present, NextFrame;
    if !Present(Entry(s.mem, t, i)) {
      AllocZeroedValid(s);
      FreshLinkable(s, t);
    }
  }

  lemma {:induction false} ResolveTables(s: State, level: nat, t: nat, p: Path)
    requires Valid(s) && IsTable(s, level, t) && Missing(s.mem, level, t, p) <= FreeCount(s)
    ensures OnlyTables(s, Resolve(s, level, t, p))
    decreases level
  {
    hide RegionOk, ChainOk, Partition, KernelFramesOk, TablesOk, Entry, Present, Big, Target, Grow, FreeCount, Missing;
    if level > 1 && !Big(Entry(s.mem, t, p.At(level))) {
      ResolveStep(s, level, t, p);
      GrowTables(s, t, p.At(level));
      var s' := Grow(s, t, p.At(level));
      ResolveTables(s', level - 1, Target(Entry(s'.mem, t, p.At(level))), p);
    }
  }

  /** The state after `mmap` or `munmap` has set the entry of page `p` to `w`. */
  ghost function MapPage(s: State, root: nat, p: Path, w: Word): State
    requires Valid(s) && IsRoot(s, root) && !ThroughBig(p) && Missing(s.mem, 4, root, p) <= FreeCount(s)
  {
    MapPageFits(s, root, p);
    var s' := Resolve(s, 4, root, p);
    var stop := Stop(s'.mem, 4, root, p).value;
    s'.(mem := Put64(s'.mem, stop.0 + 8 * stop.1, w))
  }

  lemma MapPageFits(s: State, root: nat, p: Path)
    requires Valid(s) && IsRoot(s, root) && !ThroughBig(p) && Missing(s.mem, 4, root, p) <= FreeCount(s)
    ensures var s' := Resolve(s, 4, root, p); var stop := Stop(s'.mem, 4, root, p);
      && Valid(s') && Extends(s, s') && SameTranslations(s, s') && IsRoot(s', root)
      && FreeCount(s') == FreeCount(s) - Missing(s.mem, 4, root, p)
      && stop.Some? && IsLeafTable(s', stop.value.0) && stop.value.0 + FRAME_SIZE <= |s'.mem|
      && stop.value.1 == p.i1 && Populated(s, s', root, p, 1)
  {
    hide RegionOk, ChainOk, Partition, KernelFramesOk, TablesOk, LeafOk, Entry, Stop, ThroughBig, IsLeafTable;
    hide Extends, SameTranslations, FreeCount, Missing, Resolve, Populated, Walking;
    StartWalking(s, root, p);
    ResolveEnds(s, s, root, p, 4, root);
    var s' := Resolve(s, 4, root, p);
    StillRoot(s, s', root);
    ZeroLeaf();
    EntryDecides(s', root, p, 0);
  }

  /** That page, and no other, now translates as its new entry says; the frames taken
      are the tables that were missing, and they are there for later walks. */
  lemma MapPageEffect(s: State, root: nat, p: Path, w: Word)
    requires Valid(s) && IsRoot(s, root) && !ThroughBig(p) && Missing(s.mem, 4, root, p) <= FreeCount(s)
    requires LeafOk(w)
    ensures var s' := MapPage(s, root, p, w);
      && Valid(s') && Extends(s, s') && Remapped(s, s', root, p, LeafPage(w, true, true))
      && FreeCount(s') == FreeCount(s) - Missing(s.mem, 4, root, p) && Populated(s, s', root, p, 1)
  {
    hide RegionOk, ChainOk, Partition, KernelFramesOk, TablesOk, LeafOk, Entry, Stop, ThroughBig, IsLeafTable, Put64;
    hide Extends, SameTranslations, FreeCount, Missing, Resolve, Populated, LeafPage, Remapped;
    MapPageFits(s, root, p);
    var s1, s' := Resolve(s, 4, root, p), MapPage(s, root, p, w);
    EntryDecides(s1, root, p, w);
    ExtendsTransitive(s, s1, s');
    RemappedAfter(s, s1, s', root, p, LeafPage(w, true, true));
    LeafPopulated(s, s1, root, p, Stop(s1.mem, 4, root, p).value.0 + 8 * p.i1, w);
    SameFreeCount(s1, s');
  }

  /** The entry found holds the frame the page maps to. */
  lemma FoundEntry(s: State, root: nat, p: Path)
    requires Valid(s) && IsRoot(s, root) && !ThroughBig(p) && Missing(s.mem, 4, root, p) <= FreeCount(s)
    requires Stop(Resolve(s, 4, root, p).mem, 4, root, p).Some?
    ensures var s' := Resolve(s, 4, root, p); var stop := Stop(s'.mem, 4, root, p).value;
            Base(Word64(s'.mem, stop.0 + 8 * stop.1)) == FrameOf(Translate(s.mem, root, p))
  {
    hide RegionOk, ChainOk, Partition, KernelFramesOk, TablesOk, Put64, Word64, Base, LeafOk, LeafPage, Stop;
    hide Extends, SameTranslations, FreeCount, Missing, Resolve, Populated, ThroughBig, Remapped;
    MapPageFits(s, root, p);
    var s' := Resolve(s, 4, root, p);
    var t := Stop(s'.mem, 4, root, p).value.0;
    ZeroLeaf();
    LeafHolds(0);
    EntryDecides(s', root, p, 0);
    LeafEntryOk(s', t, p.i1);
    LeafHolds(Word64(s'.mem, t + 8 * p.i1));
    SameAt(s, s', root, p);
  }

  /** Maps one page. Exactly that page changes its meaning, in this address space
      or, under entry 511, in all of them; ok is false where the kernel panics. */
  method Mmap(k: Machine, root: nat, pageStart: nat, mappingStart: Word, usermode: bool) returns (ok: bool)
    requires k.Ready() && IsRoot(k.S(), root)
    requires Aligned(pageStart) && pageStart + FRAME_SIZE <= PHYSICAL_LIMIT
    requires !ThroughBig(PathOf(mappingStart))
    modifies k, k.ram
    ensures k.Ready() && Extends(old(k.S()), k.S())
    ensures ok <==> Missing(old(k.S()).mem, 4, root, PathOf(mappingStart)) <= FreeCount(old(k.S()))
    ensures ok ==> k.S() == MapPage(old(k.S()), root, PathOf(mappingStart), pageStart + if usermode then 7 else 3)
    ensures ok ==> FreeCount(k.S()) == FreeCount(old(k.S())) - Missing(old(k.S()).mem, 4, root, PathOf(mappingStart))
    ensures ok ==> Remapped(old(k.S()), k.S(), root, PathOf(mappingStart), Mapped(pageStart, true, usermode))
    ensures ok ==> Populated(old(k.S()), k.S(), root, PathOf(mappingStart), 1)
    ensures !ok ==> SameTranslations(old(k.S()), k.S()) && !HasFrame(k.S())
  {
    hide RegionOk, ChainOk, Partition, KernelFramesOk, TablesOk, LinkWord, Entry, Put64, Resolve;
    hide Extends, SameTranslations, Missing, Stop, PathOf, ThroughBig, Remapped, IsRoot, LeafPage, LeafOk, Aligned;
    hide Populated, IsLeafTable, FreeCount;
    var p := PathOf(mappingStart);
    ghost var s0 := k.S();
    var entry;
    ok, entry := ResolvePageentry(k, root, mappingStart);
    if ok {
      ghost var s := k.S();
      ghost var w := pageStart + if usermode then 7 else 3;
      LeafWord(pageStart, usermode);
      MapPageFits(s0, root, p);
      MapPageEffect(s0, root, p, w);
      WriteEntry(k.ram, entry, pageStart, usermode);
      assert k.S() == s.(mem := Put64(s.mem, entry, w));
    }
  }

  /** Unmaps one page and returns the frame it mapped, 0 if none. Like mmap it may
      create tables, and fails where that panics. */
  method Munmap(k: Machine, root: nat, mappingStart: Word) returns (ok: bool, ret: nat)
    requires k.Ready() && IsRoot(k.S(), root)
    requires !ThroughBig(PathOf(mappingStart))
    modifies k, k.ram
    ensures k.Ready() && Extends(old(k.S()), k.S())
    ensures ok <==> Missing(old(k.S()).mem, 4, root, PathOf(mappingStart)) <= FreeCount(old(k.S()))
    ensures ok ==> k.S() == MapPage(old(k.S()), root, PathOf(mappingStart), 0)
    ensures ok ==> ret == FrameOf(Translate(old(k.S()).mem, root, PathOf(mappingStart)))
    ensures ok ==> FreeCount(k.S()) == FreeCount(old(k.S())) - Missing(old(k.S()).mem, 4, root, PathOf(mappingStart))
    ensures ok ==> Remapped(old(k.S()), k.S(), root, PathOf(mappingStart), Unmapped)
    ensures ok ==> Populated(old(k.S()), k.S(), root, PathOf(mappingStart), 1)
    ensures !ok ==> SameTranslations(old(k.S()), k.S()) && !HasFrame(k.S())
  {
    hide RegionOk, ChainOk, Partition, KernelFramesOk, TablesOk, LinkWord, Put64, Word64, Resolve, Populated;
    hide Extends, SameTranslations, Missing, Stop, PathOf, ThroughBig, Remapped, IsRoot, Base, FrameOf, FreeCount;
    hide LeafOk, LeafPage, IsLeafTable;
    var p := PathOf(mappingStart);
    ghost var s0 := k.S();
    ret := 0;
    var entry;
    ok, entry := ResolvePageentry(k, root, mappingStart);
    if ok {
      ghost var s := k.S();
      ZeroLeaf();
      LeafHolds(0);
      MapPageFits(s0, root, p);
      MapPageEffect(s0, root, p, 0);
      FoundEntry(s0, root, p);
      var w := Klib.Load64(k.ram, entry);
      ret := Base(w);
      ClearEntry(k.ram, entry);
      assert k.S() == s.(mem := Put64(s.mem, entry, 0));
    }
  }

  lemma ZeroLeaf()
    ensures LeafOk(0)
  {
  }

  lemma LeafEntryOk(s: State, t: nat, i: Index)
    requires Valid(s) && IsLeafTable(s, t)
    ensures LeafOk(Entry(s.mem, t, i))
  {
    hide RegionOk, ChainOk, Partition, KernelFramesOk, Entry, LeafOk;
    assert EntryOk(s.k, s.owner, t, i, Entry(s.mem, t, i));
  }

  lemma SameAt(s: State, s': State, r: nat, p: Path)
    requires SameTranslations(s, s') && IsRoot(s, r)
    ensures Translate(s'.mem, r, p) == Translate(s.mem, r, p)
  {
  }

  // ----- new address spaces -----

  /** The entries of a root with an empty private half. */
  function RootEntry(k: Layout, i: nat): nat {
    if i == 256 then k.linear + 3 else if i == 511 then k.pdt + 7 else 0
  }

  /** `m'` differs from `m` inside frame `f` only. */
  ghost predicate OnlyFrame(m: Mem, m': Mem, f: nat) {
    |m'| == |m| && forall j :: 0 <= j < |m| && !(f <= j < f + FRAME_SIZE) ==> m'[j] == m[j]
  }

  /** Empties a root table and points its kernel half to the shared tables. */
  method InitAddressSpace(ram: array<Byte>, k: Layout, root: nat)
    requires k.Ok() && Aligned(root) && root + FRAME_SIZE <= ram.Length
    modifies ram
    ensures OnlyFrame(old(ram[..]), ram[..], root)
    ensures forall i :: 0 <= i < 512 ==> Entry(ram[..], root, i) == RootEntry(k, i)
  {
    hide Word64, Put64, Aligned;
    ghost var m0 := ram[..];
    var i := 0;
    while i < 512
      invariant 0 <= i <= 512
      invariant OnlyFrame(m0, ram[..], root)
      invariant forall j :: 0 <= j < i ==> Entry(ram[..], root, j) == 0
    {
      ZeroEntry(ram, m0, root, i);
      i := i + 1;
    }
    KernelPointers(k);
    assert k.linear in k.Frames() && k.pdt in k.Frames();
    var linear := PointerToLinearAddress(KERNEL_BASE + k.linear).value;
    WriteTableEntry(ram, m0, root, 256, linear, false);
    var pdt := PointerToLinearAddress(KERNEL_BASE + k.pdt).value;
    WriteTableEntry(ram, m0, root, 511, pdt, true);
  }

  /** Clears entry `i` of the table at `t`. */
  method ZeroEntry(ram: array<Byte>, ghost m0: Mem, t: nat, i: Index)
    requires Aligned(t) && t + FRAME_SIZE <= ram.Length == |m0| && OnlyFrame(m0, ram[..], t)
    modifies ram
    ensures OnlyFrame(m0, ram[..], t)
    ensures forall j :: 0 <= j < 512 ==> Entry(ram[..], t, j) == if j == i then 0 else Entry(old(ram[..]), t, j)
  {
    hide Word64, Put64, Aligned;
    ghost var m := ram[..];
    Klib.Store64(ram, t + 8 * i, 0);
    EntryPut(m0, m, ram[..], t, i, 0);
  }

  /** `WriteEntry` at entry `i` of the table at `t`. The kernel leaves the user flag
      of the linear map as the address left it: clear. */
  method WriteTableEntry(ram: array<Byte>, ghost m0: Mem, t: nat, i: Index, address: nat, usermode: bool)
    requires Aligned(t) && t + FRAME_SIZE <= ram.Length == |m0| && OnlyFrame(m0, ram[..], t)
    requires Aligned(address) && address + FRAME_SIZE <= SIZE_512G
    modifies ram
    ensures OnlyFrame(m0, ram[..], t)
    ensures forall j :: 0 <= j < 512 ==>
              Entry(ram[..], t, j) ==
              if j == i then address + (if usermode then 7 else 3) else Entry(old(ram[..]), t, j)
  {
    hide Word64, Put64, Aligned;
    ghost var m := ram[..];
    ghost var w: Word := address + if usermode then 7 else 3;
    WriteEntry(ram, t + 8 * i, address, usermode);
    EntryPut(m0, m, ram[..], t, i, w);
  }

  lemma KernelPointers(k: Layout)
    requires k.Ok()
    ensures forall a :: a in k.Frames() ==>
              PointerToLinearAddress(KERNEL_BASE + a) == Some(a) && Aligned(a) && a + FRAME_SIZE <= SIZE_512G
  {
    forall a | a in k.Frames() ensures a + FRAME_SIZE <= SIZE_512G { FramesApart(a, SIZE_1G); }
  }

  /** One entry of the table at `root` written. */
  lemma EntryPut(m0: Mem, m: Mem, m': Mem, root: nat, i: Index, w: Word)
    requires Aligned(root) && root + FRAME_SIZE <= |m0| && OnlyFrame(m0, m, root)
    requires m' == Put64(m, root + 8 * i, w)
    ensures OnlyFrame(m0, m', root)
    ensures forall j :: 0 <= j < 512 ==> Entry(m', root, j) == if j == i then w else Entry(m, root, j)
  {
    hide Aligned, Word64, Encode;
    forall j | 0 <= j < 512 ensures Entry(m', root, j) == if j == i then w else Entry(m, root, j) {
      PutEntry(m, root, i, w, root, j);
    }
  }

  /** A data frame filled as a root becomes the root of a new, empty address space. */
  lemma NewRoot(s: State, m': Mem, f: nat)
    requires Valid(s) && f in s.owner && s.owner[f] == Data && f !in s.k.Frames()
    requires OnlyFrame(s.mem, m', f)
    requires forall i :: 0 <= i < 512 ==> Entry(m', f, i) == RootEntry(s.k, i)
    ensures var s' := s.(mem := m', owner := s.owner[f := Root]);
      && Valid(s') && FreeCount(s') == FreeCount(s)
      && (forall t, i :: t in s.owner && t != f && 0 <= i < 512 ==> Entry(m', t, i) == Entry(s.mem, t, i))
  {
    hide RegionOk, ChainOk, Partition, KernelFramesOk, TablesOk, Entry, Aligned;
    OwnedBelow(s, f);
    var bs := m'[f..f + FRAME_SIZE];
    assert m' == Blit(s.mem, f, bs);
    ClientWrite(s, f, f, bs);
    var s1 := s.(mem := m');
    Retag(s1, f, Root);
    assert TablesOk(s.(mem := m', owner := s.owner[f := Root])) by { RootTablesOk(s1, f); }
  }

  lemma RootTablesOk(s: State, f: nat)
    requires TablesOk(s) && f in s.owner && s.owner[f] == Data
    requires forall i :: 0 <= i < 512 ==> Entry(s.mem, f, i) == RootEntry(s.k, i)
    ensures TablesOk(s.(owner := s.owner[f := Root]))
  {
    hide Entry;
    var s' := s.(owner := s.owner[f := Root]);
    forall t, i | t in s'.owner && 0 <= i < 512 ensures EntryOk(s'.k, s'.owner, t, i, Entry(s'.mem, t, i)) {
      assert EntryOk(s.k, s.owner, t, i, Entry(s.mem, t, i));
    }
  }

  predicate UserPath(p: Path) { p.i4 != 256 && p.i4 != 511 }

  lemma EmptyRoot(m: Mem, k: Layout, root: nat, p: Path)
    requires Entry(m, root, p.i4) == RootEntry(k, p.i4) && UserPath(p)
    ensures Translate(m, root, p) == Unmapped && Missing(m, 4, root, p) == 3
  {
    hide Entry;
    EmptyEntry();
  }

  /** From `s` to `s'` the next frame became the root of a new address space, with an
      empty private half and the shared kernel half. */
  ghost predicate NewSpace(s: State, s': State, root: nat) {
    && Valid(s) && HasFrame(s) && root == NextFrame(s)
    && var s1 := AllocZeroed(s);
       && s' == s1.(mem := s'.mem, owner := s1.owner[root := Root]) && OnlyFrame(s1.mem, s'.mem, root)
       && forall i :: 0 <= i < 512 ==> Entry(s'.mem, root, i) == RootEntry(s.k, i)
  }

  /** A new address space: nothing mapped in its private half, the kernel half
      shared, and every other address space as before. */
  method CreateAddressSpace(k: Machine) returns (ok: bool, root: nat)
    requires k.Ready()
    modifies k, k.ram
    ensures k.Ready()
    ensures ok <==> HasFrame(old(k.S()))
    ensures !ok ==> k.S() == old(k.S())
    ensures ok ==> NewSpace(old(k.S()), k.S(), root)
    ensures ok ==> root !in old(k.S()).owner && IsRoot(k.S(), root)
    ensures ok ==> k.S().owner == old(k.S()).owner[root := Root] && FreeCount(k.S()) == FreeCount(old(k.S())) - 1
    ensures ok ==> Extends(old(k.S()), k.S()) && SameTranslations(old(k.S()), k.S())
    ensures ok ==> forall p :: UserPath(p) ==>
              Translate(k.S().mem, root, p) == Unmapped && Missing(k.S().mem, 4, root, p) == 3
  {
    hide RegionOk, ChainOk, Partition, TablesOk, LinkWord, Entry, AllocZeroed, Extends, FreeCount, NextFrame;
    hide HasFrame, Aligned, OnlyFrame, KernelFramesOk, UserPath;
    ghost var s := k.S();
    ok, root := FrameAllocZero(k);
    if ok {
      ghost var s1 := k.S();
      AllocZeroedValid(s);
      AllocExtends(s);
      AllocShape(s);
      OwnedBelow(s1, root);
      LayoutOk(s1);
      InitAddressSpace(k.ram, k.k, root);
      k.owner := k.owner[root := Root];
      NewRootEffect(s, k.S(), root);
    }
  }

  lemma LayoutOk(s: State)
    requires Valid(s)
    ensures s.k.Ok()
  {
    hide RegionOk, ChainOk, Partition, TablesOk;
  }

  lemma NewRootEffect(s: State, s': State, root: nat)
    requires NewSpace(s, s', root)
    ensures Valid(s') && IsRoot(s', root) && root !in s.owner && s'.owner == s.owner[root := Root]
    ensures FreeCount(s') == FreeCount(s) - 1
    ensures Extends(s, s') && SameTranslations(s, s')
    ensures forall p :: UserPath(p) ==> Translate(s'.mem, root, p) == Unmapped && Missing(s'.mem, 4, root, p) == 3
  {
    hide RegionOk, ChainOk, Partition, KernelFramesOk, TablesOk, Entry, AllocZeroed, Extends, FreeCount, NextFrame;
    hide Aligned;
    AllocZeroedValid(s);
    AllocShape(s);
    var s1 := AllocZeroed(s);
    NewRoot(s1, s'.mem, root);
    assert Extends(s, s') by { RootExtends(s, s1, s', root); }
    forall r, p | IsRoot(s, r) ensures Translate(s'.mem, r, p) == Translate(s.mem, r, p) {
      SameEntriesSameWalk(s, s'.mem, 4, r, p, true, true);
    }
    forall p | UserPath(p) ensures Translate(s'.mem, root, p) == Unmapped && Missing(s'.mem, 4, root, p) == 3 {
      EmptyRoot(s'.mem, s.k, root, p);
    }
  }

  lemma RootExtends(s: State, s1: State, s': State, root: nat)
    requires Valid(s) && HasFrame(s) && s1 == AllocZeroed(s) && root == NextFrame(s)
    requires s' == s1.(mem := s'.mem, owner := s1.owner[root := Root])
    requires OnlyFrame(s1.mem, s'.mem, root)
    ensures Extends(s, s')
  {
    hide RegionOk, ChainOk, Partition, KernelFramesOk, TablesOk, Entry, AllocZeroed, Aligned;
    AllocZeroedValid(s);
    AllocExtends(s);
    forall f, j | f in s.owner && Level(s.owner[f]) == 0 && f <= j < f + FRAME_SIZE && j < |s.mem|
      ensures s'.mem[j] == s.mem[j] {
      OwnedBelow(s, f);
      FramesApart(f, root);
    }
  }
}
