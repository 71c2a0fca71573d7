/** The radix tree as values: what linking a table and writing a leaf do to the
    translation of every address of every address space. */
module Radix {
  import opened Bytes
  import opened Paging
  import opened Ownership
  import opened Frame

  // ----- how states relate -----

  ghost predicate IsRoot(s: State, r: nat) {
    r in s.owner && s.owner[r] == Root
  }

  /** Physical memory neither the allocator nor the static tables use. */
  ghost predicate Outside(s: State, a: nat) {
    && !(s.first <= a < s.end)
    && (forall f :: f in s.k.Frames() ==> !(f <= a < f + FRAME_SIZE))
  }

  /** Same machine; owned frames keep their roles; frames that hold no table, and
      memory outside the allocator's region, keep their bytes. */
  ghost predicate Extends(s: State, s': State) {
    && s'.k == s.k && s'.first == s.first && s'.end == s.end && |s'.mem| == |s.mem|
    && (forall f :: f in s.owner ==> f in s'.owner && s'.owner[f] == s.owner[f])
    && (forall f, j :: f in s.owner && Level(s.owner[f]) == 0 && f <= j < f + FRAME_SIZE && j < |s.mem| ==>
          s'.mem[j] == s.mem[j])
    && (forall j :: 0 <= j < |s.mem| && Outside(s, j) ==> s'.mem[j] == s.mem[j])
  }

  ghost predicate SameTranslations(s: State, s': State) {
    forall r, p :: IsRoot(s, r) ==> Translate(s'.mem, r, p) == Translate(s.mem, r, p)
  }

  lemma ExtendsTransitive(s: State, s1: State, s2: State)
    requires Extends(s, s1) && Extends(s1, s2)
    ensures Extends(s, s2)
  {
    forall j | 0 <= j < |s.mem| && Outside(s, j) ensures s2.mem[j] == s.mem[j] {
      assert Outside(s1, j);
    }
  }

  lemma SameTranslationsTransitive(s: State, s1: State, s2: State)
    requires Extends(s, s1) && SameTranslations(s, s1) && SameTranslations(s1, s2)
    ensures SameTranslations(s, s2)
  {
    forall r, p | IsRoot(s, r) ensures Translate(s2.mem, r, p) == Translate(s.mem, r, p) {
      assert IsRoot(s1, r);
    }
  }

  lemma KernelRoot(s: State)
    requires Valid(s)
    ensures IsRoot(s, s.k.pml4)
  {
    hide RegionOk, ChainOk, Partition, TablesOk;
  }

  lemma ExtendsKernel(s: State, s': State)
    requires Extends(s, s')
    ensures s'.k == s.k && s'.first == s.first && s'.end == s.end && |s'.mem| == |s.mem|
  {
  }

  // ----- where a walk ends -----

  /** The table and index of the entry at which `resolve_pageentry` stops: the
      first big entry or the level-1 entry; None if a table is missing. */
  ghost function Stop(m: Mem, level: nat, t: nat, p: Path): Option<(nat, Index)>
    requires 1 <= level <= 4
    decreases level
  {
    var e := Entry(m, t, p.At(level));
    if level == 1 || Big(e) then Some((t, p.At(level)))
    else if !Present(e) then None
    else Stop(m, level - 1, Target(e), p)
  }

  /** How many tables are missing on the way to page `p`. */
  ghost function Missing(m: Mem, level: nat, t: nat, p: Path): nat
    requires 1 <= level <= 4
    decreases level
  {
    var e := Entry(m, t, p.At(level));
    if level == 1 || Big(e) then 0
    else if !Present(e) then level - 1
    else Missing(m, level - 1, Target(e), p)
  }

  /** Pages translated by big entries: the linear map and the kernel image. */
  predicate ThroughBig(p: Path) {
    p.i4 == 256 || (p.i4 == 511 && p.i3 == 510 && p.i2 < 16)
  }

  ghost predicate IsLeafTable(s: State, t: nat) {
    t in s.owner && s.owner[t].Table? && s.owner[t].level == 1
  }

  /** A walk that ends in a private level-1 table, and how rights accumulate. */
  lemma {:induction false} StopAtLeaf(s: State, level: nat, t: nat, p: Path, w: bool, u: bool)
    requires Valid(s) && IsTable(s, level, t)
    requires Stop(s.mem, level, t, p).Some? && IsLeafTable(s, Stop(s.mem, level, t, p).value.0)
    ensures Stop(s.mem, level, t, p).value.1 == p.i1
    ensures Descend(s.mem, level, t, p, w, u)
         == Descend(s.mem, 1, Stop(s.mem, level, t, p).value.0, p, w, u)
    decreases level
  {
    hide RegionOk, ChainOk, Partition, KernelFramesOk, TablesOk, Entry, Present, Big, Writable, Usermode, Target;
    if level > 1 {
      var i := p.At(level);
      var e := Entry(s.mem, t, i);
      Child(s, level, t, i);
      if Big(e) {
        BigIsKernel(s, level, t, i);
      } else if Present(e) {
        if level == 4 && i == 256 { LinearIsBig(s, t, p); }
        ChildRights(s, level, t, i);
        StopAtLeaf(s, level - 1, Target(e), p, w, u);
      }
    }
  }

  lemma BigIsKernel(s: State, level: nat, t: nat, i: Index)
    requires Valid(s) && IsTable(s, level, t) && level >= 2 && Big(Entry(s.mem, t, i))
    ensures !Open(s, t, i) && !(level == 4 || t == s.k.pdt)
    ensures !IsLeafTable(s, t) && (t == s.k.linear || t == s.k.pd)
  {
    hide RegionOk, ChainOk, Partition, TablesOk, Entry, Present, Big, Writable, Usermode, Target;
    if Open(s, t, i) {
      OpenEntry(s, level, t, i);
    } else if level == 4 || t == s.k.pdt {
      SharedEntry(s, level, t, i);
    } else {
      BigEntry(s, level, t, i);
    }
  }

  /** Rights are kept on the way down, except into the linear map. */
  lemma ChildRights(s: State, level: nat, t: nat, i: Index)
    requires Valid(s) && IsTable(s, level, t) && level >= 2
    requires Present(Entry(s.mem, t, i)) && !Big(Entry(s.mem, t, i))
    ensures Writable(Entry(s.mem, t, i))
    ensures Usermode(Entry(s.mem, t, i)) || (level == 4 && i == 256)
  {
    hide RegionOk, ChainOk, Partition, TablesOk, Entry, Present, Big, Writable, Usermode, Target;
    if Open(s, t, i) {
      OpenEntry(s, level, t, i);
    } else if level == 4 || t == s.k.pdt {
      SharedEntry(s, level, t, i);
    } else {
      BigEntry(s, level, t, i);
    }
  }

  lemma Level4IsRoot(s: State, t: nat)
    requires Valid(s) && IsTable(s, 4, t)
    ensures IsRoot(s, t)
  {
    hide RegionOk, ChainOk, Partition, KernelFramesOk, Entry;
    assert EntryOk(s.k, s.owner, t, 0, Entry(s.mem, t, 0));
  }

  /** Walks through entry 256 of a root end at a big entry of the linear map. */
  lemma LinearIsBig(s: State, t: nat, p: Path)
    requires Valid(s) && IsTable(s, 4, t) && p.i4 == 256
    ensures Stop(s.mem, 4, t, p) == Some((s.k.linear, p.i3))
    ensures !IsLeafTable(s, s.k.linear)
  {
    hide RegionOk, ChainOk, Partition, TablesOk, Entry, Present, Big, Writable, Usermode, Target;
    Level4IsRoot(s, t);
    SharedEntry(s, 4, t, p.i4);
    BigEntry(s, 3, s.k.linear, p.i3);
  }

  /** Walks of the kernel image end at a big entry too; */
  lemma ImageIsBig(s: State, r: nat, p: Path)
    requires Valid(s) && IsRoot(s, r) && p.i4 == 511 && p.i3 == 510 && p.i2 < 16
    ensures Stop(s.mem, 4, r, p) == Some((s.k.pd, p.i2)) && !IsLeafTable(s, s.k.pd)
  {
    hide RegionOk, ChainOk, Partition, TablesOk, Entry, Present, Big, Writable, Usermode, Target;
    SharedEntry(s, 4, r, p.i4);
    SharedEntry(s, 3, s.k.pdt, p.i3);
    BigEntry(s, 2, s.k.pd, p.i2);
  }

  // ----- one leaf belongs to one page -----

  /** Two entries that lead to the same table are the same entry, unless both are
      a root's pointer to a shared table. */
  lemma ParentUnique(s: State, level: nat, t: nat, i: Index, t': nat, i': Index)
    requires Valid(s) && IsTable(s, level, t) && IsTable(s, level, t') && level >= 2
    requires Present(Entry(s.mem, t, i)) && !Big(Entry(s.mem, t, i))
    requires Present(Entry(s.mem, t', i')) && !Big(Entry(s.mem, t', i'))
    requires Target(Entry(s.mem, t, i)) == Target(Entry(s.mem, t', i'))
    ensures i == i' && (t == t' || (level == 4 && (i == 511 || i == 256)))
  {
    hide RegionOk, ChainOk, Partition, TablesOk, Entry, Present, Big, Writable, Usermode, Target;
    EntryKind(s, level, t, i);
    EntryKind(s, level, t', i');
  }

  /** What role the child of a present entry plays. */
  lemma EntryKind(s: State, level: nat, t: nat, i: Index)
    requires Valid(s) && IsTable(s, level, t) && level >= 2
    requires Present(Entry(s.mem, t, i)) && !Big(Entry(s.mem, t, i))
    ensures var c := Target(Entry(s.mem, t, i));
            && IsTable(s, level - 1, c)
            && (Open(s, t, i) ==> s.owner[c] == Table(level - 1, t, i))
            && (!Open(s, t, i) ==>
                  if level == 4 then c == (if i == 256 then s.k.linear else s.k.pdt) && (i == 256 || i == 511)
                  else t == s.k.pdt && i == 510 && c == s.k.pd)
  {
    hide RegionOk, ChainOk, Partition, TablesOk, Entry, Present, Big, Writable, Usermode, Target;
    if level == 4 { Level4IsRoot(s, t); }
    if Open(s, t, i) {
      OpenEntry(s, level, t, i);
    } else if level == 4 || t == s.k.pdt {
      SharedEntry(s, level, t, i);
    } else {
      BigEntry(s, level, t, i);
    }
  }

  /** Every leaf entry of a private table is the end of exactly one page of one
      address space, or of one page of the shared kernel half. */
  lemma {:induction false} StopUnique(s: State, level: nat, t: nat, p: Path, t': nat, p': Path)
    requires Valid(s) && IsTable(s, level, t) && IsTable(s, level, t')
    requires Stop(s.mem, level, t, p).Some? && IsLeafTable(s, Stop(s.mem, level, t, p).value.0)
    requires Stop(s.mem, level, t', p') == Stop(s.mem, level, t, p)
    ensures forall l :: 1 <= l <= level ==> p.At(l) == p'.At(l)
    ensures t == t' || (level == 4 && p.i4 == 511)
    decreases level
  {
    hide RegionOk, ChainOk, Partition, KernelFramesOk, TablesOk, Entry, Present, Big, Writable, Usermode, Target;
    if level > 1 {
      var i, i' := p.At(level), p'.At(level);
      var e, e' := Entry(s.mem, t, i), Entry(s.mem, t', i');
      if Big(e) { BigIsKernel(s, level, t, i); }
      if Big(e') { BigIsKernel(s, level, t', i'); }
      EntryKind(s, level, t, i);
      EntryKind(s, level, t', i');
      StopUnique(s, level - 1, Target(e), p, Target(e'), p');
      ParentUnique(s, level, t, i, t', i');
      if level == 4 && i == 256 { LinearIsBig(s, t, p); }
      forall l | 1 <= l <= level ensures p.At(l) == p'.At(l) { }
    }
  }

  // ----- writing a leaf -----

  function LeafPage(e: Word, w: bool, u: bool): Page {
    if Present(e) then Mapped(Target(e), w && Writable(e), u && Usermode(e)) else Unmapped
  }

  /** Changing one leaf entry changes the translation of the pages that end there
      and of no other, and moves no walk. */
  lemma {:induction false} LeafWalk(s: State, m': Mem, leaf: nat, i: Index, level: nat, t: nat, p: Path, w: bool,
      u: bool)
    requires Valid(s) && IsTable(s, level, t) && IsLeafTable(s, leaf)
    requires forall t', i' :: t' in s.owner && 0 <= i' < 512 && !(t' == leaf && i' == i) ==>
               Entry(m', t', i') == Entry(s.mem, t', i')
    ensures Stop(m', level, t, p) == Stop(s.mem, level, t, p)
    ensures Descend(m', level, t, p, w, u) ==
            if Stop(s.mem, level, t, p) == Some((leaf, i)) then LeafPage(Entry(m', leaf, i), w, u)
            else Descend(s.mem, level, t, p, w, u)
    decreases level
  {
    hide RegionOk, ChainOk, Partition, KernelFramesOk, TablesOk, Entry, Present, Big, Writable, Usermode, Target;
    if level > 1 {
      var j := p.At(level);
      var e := Entry(s.mem, t, j);
      assert Entry(m', t, j) == e;
      if Big(e) {
        BigIsKernel(s, level, t, j);
      } else if Present(e) {
        EntryKind(s, level, t, j);
        LeafWalk(s, m', leaf, i, level - 1, Target(e), p, w && Writable(e), u && Usermode(e));
        if Stop(s.mem, level, t, p) == Some((leaf, i)) {
          if level == 4 && j == 256 { LinearIsBig(s, t, p); }
          ChildRights(s, level, t, j);
        }
      }
    }
  }

  /** Writing a well-formed leaf entry keeps everything valid. */
  lemma LeafWrite(s: State, leaf: nat, i: Index, w: Word)
    requires Valid(s) && IsLeafTable(s, leaf) && LeafOk(w)
    ensures leaf + FRAME_SIZE <= |s.mem|
    ensures var s' := s.(mem := Put64(s.mem, leaf + 8 * i, w));
            && Valid(s') && Extends(s, s')
            && (forall t, j :: t in s.owner && 0 <= j < 512 ==>
                  Entry(s'.mem, t, j) == if t == leaf && j == i then w else Entry(s.mem, t, j))
  {
    hide RegionOk, KernelFramesOk, TablesOk, Aligned, Word64, Put64, LeafOk, Encode;
    OwnedBelow(s, leaf);
    TableWrite(s, leaf, i, w);
    var s' := s.(mem := Put64(s.mem, leaf + 8 * i, w));
    assert TablesOk(s') by {
      LeafTablesOk(s, s', leaf, i, w);
    }
    RegionCongruent(s, s');
    assert KernelFramesOk(s') by { hide *; KernelCongruent(s, s'); }
  }

  lemma KernelCongruent(s: State, s': State)
    requires KernelFramesOk(s) && s'.k == s.k && s'.owner == s.owner && s'.first == s.first && s'.end == s.end
    ensures KernelFramesOk(s')
  {
  }

  lemma LeafTablesOk(s: State, s': State, leaf: nat, i: Index, w: Word)
    requires TablesOk(s) && IsLeafTable(s, leaf) && LeafOk(w)
    requires s'.owner == s.owner && s'.k == s.k
    requires forall t, j :: t in s.owner && 0 <= j < 512 ==>
               Entry(s'.mem, t, j) == if t == leaf && j == i then w else Entry(s.mem, t, j)
    ensures TablesOk(s')
  {
    hide Entry, LeafOk;
    forall t, j | t in s'.owner && 0 <= j < 512 ensures EntryOk(s'.k, s'.owner, t, j, Entry(s'.mem, t, j)) {
      assert EntryOk(s.k, s.owner, t, j, Entry(s.mem, t, j));
    }
  }

  /** Writing an entry of a table in use touches neither the free list, nor data
      frames, nor other entries. */
  lemma TableWrite(s: State, t: nat, i: Index, w: Word)
    requires Valid(s) && t in s.owner && Level(s.owner[t]) > 0
    ensures t + FRAME_SIZE <= |s.mem|
    ensures var s' := s.(mem := Put64(s.mem, t + 8 * i, w));
            && ChainOk(s') && Partition(s') && Extends(s, s')
            && (forall t', j :: t' in s.owner && 0 <= j < 512 ==>
                  Entry(s'.mem, t', j) == if t' == t && j == i then w else Entry(s.mem, t', j))
  {
    hide RegionOk, ChainOk, KernelFramesOk, TablesOk, Aligned, Word64, Put64, Entry;
    OwnedBelow(s, t);
    var s' := s.(mem := Put64(s.mem, t + 8 * i, w));
    forall t', j | t' in s.owner && 0 <= j < 512
      ensures Entry(s'.mem, t', j) == if t' == t && j == i then w else Entry(s.mem, t', j) {
      PutEntry(s.mem, t, i, w, t', j);
    }
    TableWriteChain(s, t, i, w);
    TableWriteExtends(s, t, i, w);
  }

  lemma TableWriteChain(s: State, t: nat, i: Index, w: Word)
    requires Valid(s) && t in s.owner && t + FRAME_SIZE <= |s.mem|
    ensures ChainOk(s.(mem := Put64(s.mem, t + 8 * i, w)))
  {
    hide RegionOk, KernelFramesOk, TablesOk, Aligned, Word64, Put64, LinkWord;
    assert Aligned(t);
    forall c | 0 <= c < |s.chain|
      ensures Word64(Put64(s.mem, t + 8 * i, w), s.chain[c]) == Word64(s.mem, s.chain[c]) {
      FramesApart(t, s.chain[c]);
      PutElsewhere(s.mem, t + 8 * i, w, s.chain[c]);
    }
  }

  lemma TableWriteExtends(s: State, t: nat, i: Index, w: Word)
    requires Valid(s) && t in s.owner && t + FRAME_SIZE <= |s.mem| && Level(s.owner[t]) > 0
    ensures Extends(s, s.(mem := Put64(s.mem, t + 8 * i, w)))
  {
    hide ChainOk, KernelFramesOk, TablesOk, Aligned, Encode;
    var m' := Put64(s.mem, t + 8 * i, w);
    forall f, j | f in s.owner && Level(s.owner[f]) == 0 && f <= j < f + FRAME_SIZE && j < |s.mem|
      ensures m'[j] == s.mem[j] {
      FramesApart(t, f);
    }
    forall j | 0 <= j < |s.mem| && Outside(s, j) ensures m'[j] == s.mem[j] {
      if t !in s.k.Frames() {
        FramesApart(t, s.end);
      }
    }
  }

  // ----- linking a new table -----

  /** Entry `i` of table `t` made to point to the zeroed data frame `f`. */
  ghost function LinkTable(s: State, t: nat, i: Index, f: nat): State
    requires t in s.owner && Level(s.owner[t]) >= 2
    requires t + FRAME_SIZE <= |s.mem| && f < SIZE_512G
  {
    s.(mem := Put64(s.mem, t + 8 * i, f + 7), owner := s.owner[f := Table(Level(s.owner[t]) - 1, t, i)])
  }

  ghost predicate Linkable(s: State, t: nat, i: Index, f: nat) {
    && Valid(s) && IsTable(s, TableLevel(s, t), t) && TableLevel(s, t) >= 2
    && Open(s, t, i) && Entry(s.mem, t, i) == 0
    && f in s.owner && s.owner[f] == Data && f !in s.k.Frames()
    && (forall j :: 0 <= j < 512 ==> Entry(s.mem, f, j) == 0)
  }

  ghost function TableLevel(s: State, t: nat): nat {
    if t in s.owner then Level(s.owner[t]) else 0
  }

  lemma LinkFits(s: State, t: nat, i: Index, f: nat)
    requires Linkable(s, t, i, f)
    ensures t + FRAME_SIZE <= |s.mem| && f + FRAME_SIZE <= SIZE_512G && t != f
  {
    hide RegionOk, ChainOk, Partition, KernelFramesOk, TablesOk, Entry;
    OwnedBelow(s, t);
    OwnedBelow(s, f);
  }

  /** Owned frames that hold no table change role without breaking any invariant,
      provided their entries suit the new role. */
  lemma Retag(s: State, f: nat, role: Role)
    requires RegionOk(s) && ChainOk(s) && Partition(s) && KernelFramesOk(s) && f in s.owner
    requires Level(s.owner[f]) == 0 && f !in s.k.Frames()
    requires !(role.KernelLinear? || role.KernelPdt? || role.KernelPd?)
    ensures var s' := s.(owner := s.owner[f := role]);
            RegionOk(s') && ChainOk(s') && Partition(s') && KernelFramesOk(s')
  {
    hide Aligned, Word64, LinkWord, TablesOk;
  }

  lemma DataRetag(s: State, f: nat, role: Role)
    requires TablesOk(s) && f in s.owner && Level(s.owner[f]) == 0 && role.UserPage?
    ensures TablesOk(s.(owner := s.owner[f := role]))
  {
    hide Entry;
    var s' := s.(owner := s.owner[f := role]);
    forall t, i | t in s'.owner && 0 <= i < 512 ensures EntryOk(s'.k, s'.owner, t, i, Entry(s'.mem, t, i)) {
      assert EntryOk(s.k, s.owner, t, i, Entry(s.mem, t, i));
    }
  }

  lemma LinkValid(s: State, t: nat, i: Index, f: nat)
    requires Linkable(s, t, i, f)
    ensures LinkFitsIn(s, t, f)
    ensures Valid(LinkTable(s, t, i, f))
  {
    hide RegionOk, ChainOk, Partition, KernelFramesOk, TablesOk, Entry, Put64;
    LinkFits(s, t, i, f);
    var level := TableLevel(s, t);
    var s1 := s.(mem := Put64(s.mem, t + 8 * i, f + 7));
    var s' := LinkTable(s, t, i, f);
    TableWrite(s, t, i, f + 7);
    RegionCongruent(s, s1);
    KernelCongruent(s, s1);
    Retag(s1, f, Table(level - 1, t, i));
    LinkTablesOk(s, s', t, i, f);
  }

  ghost predicate LinkFitsIn(s: State, t: nat, f: nat) {
    t + FRAME_SIZE <= |s.mem| && f < SIZE_512G
  }

  lemma LinkTablesOk(s: State, s': State, t: nat, i: Index, f: nat)
    requires TablesOk(s) && t in s.owner && 2 <= Level(s.owner[t]) <= 4 && Open(s, t, i) && t != f
    requires f in s.owner && s.owner[f] == Data
    requires s'.k == s.k && s'.owner == s.owner[f := Table(Level(s.owner[t]) - 1, t, i)]
    requires forall j :: 0 <= j < 512 ==> Entry(s.mem, f, j) == 0
    requires forall t', j :: t' in s.owner && 0 <= j < 512 ==>
               Entry(s'.mem, t', j) == if t' == t && j == i then f + 7 else Entry(s.mem, t', j)
    ensures TablesOk(s')
  {
    hide Entry;
    forall t', j | t' in s'.owner && 0 <= j < 512 ensures EntryOk(s'.k, s'.owner, t', j, Entry(s'.mem, t', j)) {
      assert EntryOk(s.k, s.owner, t', j, Entry(s.mem, t', j));
    }
  }

  /** Linking an empty table changes no translation, whatever table the walk
      starts from. */
  lemma {:induction false} LinkWalk(s: State, m': Mem, t: nat, i: Index, f: nat, level: nat, t': nat, p: Path,
      w: bool, u: bool)
    requires Linkable(s, t, i, f) && IsTable(s, level, t')
    requires forall j :: 0 <= j < 512 ==> Entry(m', f, j) == 0
    requires forall t1, j :: t1 in s.owner && Level(s.owner[t1]) > 0 && 0 <= j < 512 ==>
               Entry(m', t1, j) == if t1 == t && j == i then f + 7 else Entry(s.mem, t1, j)
    ensures Descend(m', level, t', p, w, u) == Descend(s.mem, level, t', p, w, u)
    decreases level
  {
    hide RegionOk, ChainOk, Partition, KernelFramesOk, TablesOk, Entry, Present, Big, Writable, Usermode, Base, Target;
    var j := p.At(level);
    var e := Entry(s.mem, t', j);
    EmptyEntry();
    if t' == t && j == i {
      OwnedBelow(s, f);
      LinkFlags(f);
      assert Descend(m', level - 1, f, p, w && Writable(f + 7), u && Usermode(f + 7)) == Unmapped;
    } else if level > 1 && Present(e) && !Big(e) {
      Child(s, level, t', j);
      LinkWalk(s, m', t, i, f, level - 1, Target(e), p, w && Writable(e), u && Usermode(e));
    }
  }

  // ----- what one entry means to every address space -----

  /** A walk that meets no big entry ends in a private level-1 table. */
  lemma {:induction false} ClearStop(s: State, level: nat, t: nat, p: Path)
    requires Valid(s) && IsTable(s, level, t) && Stop(s.mem, level, t, p).Some?
    requires t != s.k.linear && (t == s.k.pdt || level == 4 ==> !ThroughBig(p))
    requires t == s.k.pd ==> p.i2 >= 16
    requires t == s.k.pdt ==> p.i4 == 511
    ensures IsLeafTable(s, Stop(s.mem, level, t, p).value.0) && Stop(s.mem, level, t, p).value.1 == p.i1
    decreases level
  {
    hide RegionOk, ChainOk, Partition, TablesOk, Entry, Present, Big, Writable, Usermode, Target;
    var i := p.At(level);
    var e := Entry(s.mem, t, i);
    if level == 1 {
      assert s.owner[t].Table?;
    } else {
      Child(s, level, t, i);
      if Big(e) {
        BigIsKernel(s, level, t, i);
      }
      EntryKind(s, level, t, i);
      ClearStop(s, level - 1, Target(e), p);
    }
  }

  /** and these are all: where the tables are there, a walk ends in a private level-1 table
      exactly if its page is neither in the linear map nor in the kernel image. */
  lemma ThroughBigIff(s: State, r: nat, p: Path)
    requires Valid(s) && IsRoot(s, r) && Stop(s.mem, 4, r, p).Some?
    ensures ThroughBig(p) <==> !IsLeafTable(s, Stop(s.mem, 4, r, p).value.0)
  {
    hide RegionOk, ChainOk, Partition, KernelFramesOk, TablesOk, Stop, IsLeafTable;
    if p.i4 == 256 {
      LinearIsBig(s, r, p);
    } else if ThroughBig(p) {
      ImageIsBig(s, r, p);
    } else {
      RootIsNoOther(s, r);
      ClearStop(s, 4, r, p);
    }
  }

  lemma RootIsNoOther(s: State, r: nat)
    requires Valid(s) && IsRoot(s, r)
    ensures r != s.k.linear && r != s.k.pdt && r != s.k.pd
  {
    hide RegionOk, ChainOk, Partition, TablesOk;
  }

  /** All address spaces share what lies under entry 511. */
  lemma SharedHalf(s: State, r: nat, r': nat, p: Path)
    requires Valid(s) && IsRoot(s, r) && IsRoot(s, r') && (p.i4 == 511 || p.i4 == 256)
    ensures Stop(s.mem, 4, r, p) == Stop(s.mem, 4, r', p)
    ensures Translate(s.mem, r, p) == Translate(s.mem, r', p)
    ensures Missing(s.mem, 4, r, p) == Missing(s.mem, 4, r', p)
  {
    hide RegionOk, ChainOk, Partition, TablesOk, Entry, Present, Big, Writable, Usermode, Target;
    SharedEntry(s, 4, r, p.i4);
    SharedEntry(s, 4, r', p.i4);
  }

  /** From `s` to `s'` exactly page `p` of `root` now translates to `page`; under
      the shared entry 511, page `p` of every address space. */
  ghost predicate Remapped(s: State, s': State, root: nat, p: Path, page: Page) {
    forall r, q :: IsRoot(s, r) ==>
      Translate(s'.mem, r, q) == if q == p && (r == root || p.i4 == 511) then page else Translate(s.mem, r, q)
  }

  /** The entry at which the walk of a page ends decides that page alone. */
  lemma EntryDecides(s: State, root: nat, p: Path, w: Word)
    requires Valid(s) && IsRoot(s, root) && !ThroughBig(p) && LeafOk(w)
    requires Stop(s.mem, 4, root, p).Some?
    ensures var t := Stop(s.mem, 4, root, p).value.0;
            && t + FRAME_SIZE <= |s.mem| && IsLeafTable(s, t) && Stop(s.mem, 4, root, p).value.1 == p.i1
            && Translate(s.mem, root, p) == LeafPage(Entry(s.mem, t, p.i1), true, true)
            && var s' := s.(mem := Put64(s.mem, t + 8 * p.i1, w));
               Valid(s') && Extends(s, s') && Remapped(s, s', root, p, LeafPage(w, true, true))
  {
    hide RegionOk, ChainOk, Partition, TablesOk, Entry, Present, Big, Writable, Usermode, Target, LeafOk, Put64;
    hide Extends;
    ClearStop(s, 4, root, p);
    StopAtLeaf(s, 4, root, p, true, true);
    var t := Stop(s.mem, 4, root, p).value.0;
    LeafWrite(s, t, p.i1, w);
    var s' := s.(mem := Put64(s.mem, t + 8 * p.i1, w));
    forall r, q | IsRoot(s, r)
      ensures Translate(s'.mem, r, q) ==
              if q == p && (r == root || p.i4 == 511) then LeafPage(w, true, true) else Translate(s.mem, r, q) {
      LeafWalk(s, s'.mem, t, p.i1, 4, r, q, true, true);
      if Stop(s.mem, 4, r, q) == Some((t, p.i1)) {
        StopUnique(s, 4, root, p, r, q);
        assert p.At(4) == q.At(4) && p.At(3) == q.At(3) && p.At(2) == q.At(2) && p.At(1) == q.At(1);
      } else if q == p && p.i4 == 511 {
        SharedHalf(s, r, root, p);
      }
    }
  }

  /** Unmapping a page that was not mapped before it was mapped restores every
      translation of every address space. */
  lemma RemapUndone(s: State, s1: State, s2: State, root: nat, p: Path, page: Page)
    requires Valid(s) && IsRoot(s, root) && Translate(s.mem, root, p) == Unmapped
    requires Extends(s, s1) && Remapped(s, s1, root, p, page) && Remapped(s1, s2, root, p, Unmapped)
    ensures SameTranslations(s, s2)
  {
    hide Valid;
    forall r, q | IsRoot(s, r) ensures Translate(s2.mem, r, q) == Translate(s.mem, r, q) {
      assert IsRoot(s1, r);
      if q == p && p.i4 == 511 {
        SharedHalf(s, r, root, p);
      }
    }
  }
}
