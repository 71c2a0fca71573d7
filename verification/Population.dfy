/** Which tables a walk creates, and so how many frames later walks still need. */
module Population {
  import opened Bytes
  import opened Paging
  import opened Ownership
  import opened Radix

  /** How many of the tables on the way to `q` are not on the way to `p`. */
  function Unshared(p: Path, q: Path): nat {
    if p.i4 != q.i4 then 3 else if p.i3 != q.i3 then 2 else if p.i2 != q.i2 then 1 else 0
  }

  function Min(a: int, b: int): int { if a <= b then a else b }
  function Max(a: int, b: int): int { if a <= b then b else a }

  /** The walk of page `p` from the level-`l` table `x` passes through table `t` at
      `level`. */
  ghost predicate Reach(m: Mem, l: nat, x: nat, p: Path, level: nat, t: nat)
    requires 1 <= level <= l <= 4
    decreases l
  {
    if l == level then x == t
    else
      var e := Entry(m, x, p.At(l));
      Present(e) && !Big(e) && Reach(m, l - 1, Target(e), p, level, t)
  }

  lemma {:induction false} ReachMissing(m: Mem, l: nat, x: nat, p: Path, level: nat, t: nat)
    requires 1 <= level <= l <= 4 && Reach(m, l, x, p, level, t)
    ensures Missing(m, l, x, p) == Missing(m, level, t, p)
    ensures Stop(m, l, x, p) == Stop(m, level, t, p)
    decreases l
  {
    hide Entry, Present, Big, Target;
    if l > level {
      ReachMissing(m, l - 1, Target(Entry(m, x, p.At(l))), p, level, t);
    }
  }

  lemma {:induction false} MissingBound(m: Mem, level: nat, t: nat, p: Path)
    requires 1 <= level <= 4
    ensures Missing(m, level, t, p) <= level - 1
    decreases level
  {
    hide Entry, Present, Big, Target;
    if level > 1 { MissingBound(m, level - 1, Target(Entry(m, t, p.At(level))), p); }
  }

  /** Pages with the same indices from the root down to above `level` reach the same
      table, */
  lemma {:induction false} ReachShared(m: Mem, l: nat, x: nat, p: Path, q: Path, level: nat, t: nat)
    requires 1 <= level <= l <= 4 && Reach(m, l, x, p, level, t)
    requires forall i :: level < i <= l ==> p.At(i) == q.At(i)
    ensures Reach(m, l, x, q, level, t)
    decreases l
  {
    hide Entry, Present, Big, Target;
    if l > level {
      assert p.At(l) == q.At(l);
      ReachShared(m, l - 1, Target(Entry(m, x, p.At(l))), p, q, level, t);
    }
  }

  /** and only they do. */
  lemma {:induction false} ReachUnique(s: State, l: nat, x: nat, p: Path, y: nat, q: Path, level: nat, t: nat)
    requires Valid(s) && IsTable(s, l, x) && IsTable(s, l, y) && 1 <= level <= l
    requires Reach(s.mem, l, x, p, level, t) && Reach(s.mem, l, y, q, level, t)
    ensures forall i :: level < i <= l ==> p.At(i) == q.At(i)
    ensures l < 4 ==> x == y
    decreases l
  {
    hide RegionOk, ChainOk, Partition, KernelFramesOk, TablesOk, Entry, Present, Big, Writable, Usermode, Target;
    if l > level {
      var i, j := p.At(l), q.At(l);
      Child(s, l, x, i);
      Child(s, l, y, j);
      ReachUnique(s, l - 1, Target(Entry(s.mem, x, i)), p, Target(Entry(s.mem, y, j)), q, level, t);
      ParentUnique(s, l, x, i, y, j);
      forall a | level < a <= l ensures p.At(a) == q.At(a) { }
    }
  }

  /** Linking an empty table saves one frame for the walks that come by it, and none
      for the others. */
  lemma {:induction false} LinkMissing(s: State, m': Mem, t: nat, i: Index, f: nat, level: nat, l: nat, x: nat, q: Path)
    requires Linkable(s, t, i, f) && IsTable(s, l, x) && IsTable(s, level, t) && level >= 2
    requires forall j :: 0 <= j < 512 ==> Entry(m', f, j) == 0
    requires forall t1, j :: t1 in s.owner && Level(s.owner[t1]) > 0 && 0 <= j < 512 ==>
               Entry(m', t1, j) == if t1 == t && j == i then f + 7 else Entry(s.mem, t1, j)
    ensures Missing(m', l, x, q) == if l >= level && Reach(s.mem, l, x, q, level, t) && q.At(level) == i
                                    then level - 2 else Missing(s.mem, l, x, q)
    decreases l
  {
    hide RegionOk, ChainOk, Partition, KernelFramesOk, TablesOk, Entry, Present, Big, Writable, Usermode, Base, Target;
    var j := q.At(l);
    var e := Entry(s.mem, x, j);
    EmptyEntry();
    if x == t && j == i {
      OwnedBelow(s, f);
      LinkFlags(f);
      assert l == level;
      assert Missing(m', level - 1, f, q) == level - 2;
    } else if l > 1 {
      assert Entry(m', x, j) == e;
      if Present(e) && !Big(e) {
        Child(s, l, x, j);
        LinkMissing(s, m', t, i, f, level, l - 1, Target(e), q);
      }
    }
  }

  /** Changing data frames and leaves changes no walk's needs. */
  lemma {:induction false} SameMissing(s: State, m': Mem, level: nat, t: nat, p: Path)
    requires Valid(s) && IsTable(s, level, t)
    requires forall t', i :: t' in s.owner && Level(s.owner[t']) > 1 && 0 <= i < 512 ==>
               Entry(m', t', i) == Entry(s.mem, t', i)
    ensures Missing(m', level, t, p) == Missing(s.mem, level, t, p)
    decreases level
  {
    hide RegionOk, ChainOk, Partition, KernelFramesOk, TablesOk, Entry, Present, Big, Target;
    var e := Entry(s.mem, t, p.At(level));
    if level > 1 {
      Child(s, level, t, p.At(level));
      if Present(e) && !Big(e) {
        SameMissing(s, m', level - 1, Target(e), p);
      }
    }
  }

  /** The tables on the way of page `p`, down to `level`, are there; nothing else of
      the private half has grown since `s0`. */
  ghost predicate Populated(s0: State, s: State, root: nat, p: Path, level: nat) {
    forall q :: Missing(s.mem, 4, root, q) == Min(Missing(s0.mem, 4, root, q), Max(Unshared(p, q), level - 1))
  }

  lemma SharedFrom(p: Path, q: Path, level: nat)
    requires 2 <= level <= 4
    ensures Unshared(p, q) <= level - 2 <==> forall i :: level <= i <= 4 ==> p.At(i) == q.At(i)
    ensures (forall i :: level < i <= 4 ==> p.At(i) == q.At(i)) && p.At(level) == q.At(level) ==>
              Unshared(p, q) <= level - 2
  {
    assert p.At(4) == p.i4 && p.At(3) == p.i3 && p.At(2) == p.i2;
    assert q.At(4) == q.i4 && q.At(3) == q.i3 && q.At(2) == q.i2;
  }

  /** One level further: nothing was to be done for a present entry, */
  lemma PopulatedPresent(s0: State, s: State, root: nat, p: Path, level: nat, t: nat)
    requires Valid(s) && IsTable(s, 4, root) && 2 <= level <= 4 && Populated(s0, s, root, p, level)
    requires Reach(s.mem, 4, root, p, level, t) && Present(Entry(s.mem, t, p.At(level)))
    requires !Big(Entry(s.mem, t, p.At(level)))
    ensures Populated(s0, s, root, p, level - 1)
  {
    hide RegionOk, ChainOk, Partition, KernelFramesOk, TablesOk, Entry, Present, Big, Target;
    forall q ensures Missing(s.mem, 4, root, q) == Min(Missing(s0.mem, 4, root, q), Max(Unshared(p, q), level - 2)) {
      SharedFrom(p, q, level);
      if Unshared(p, q) <= level - 2 {
        ReachShared(s.mem, 4, root, p, q, level, t);
        ReachMissing(s.mem, 4, root, q, level, t);
        assert p.At(level) == q.At(level);
        MissingBound(s.mem, level - 1, Target(Entry(s.mem, t, q.At(level))), q);
      }
    }
  }

  /** and an absent one was given a table. */
  lemma PopulatedLinked(s0: State, s: State, m': Mem, root: nat, p: Path, level: nat, t: nat, f: nat)
    requires Valid(s) && IsTable(s, 4, root) && 2 <= level <= 4 && Populated(s0, s, root, p, level)
    requires IsTable(s, level, t) && Reach(s.mem, 4, root, p, level, t) && Linkable(s, t, p.At(level), f)
    requires forall j :: 0 <= j < 512 ==> Entry(m', f, j) == 0
    requires forall t1, j :: t1 in s.owner && Level(s.owner[t1]) > 0 && 0 <= j < 512 ==>
               Entry(m', t1, j) == if t1 == t && j == p.At(level) then f + 7 else Entry(s.mem, t1, j)
    ensures forall q :: Missing(m', 4, root, q) == Min(Missing(s0.mem, 4, root, q), Max(Unshared(p, q), level - 2))
  {
    hide RegionOk, ChainOk, Partition, KernelFramesOk, TablesOk, Entry, Present, Big, Target;
    var i := p.At(level);
    EmptyEntry();
    forall q ensures Missing(m', 4, root, q) == Min(Missing(s0.mem, 4, root, q), Max(Unshared(p, q), level - 2)) {
      LinkMissing(s, m', t, i, f, level, 4, root, q);
      SharedFrom(p, q, level);
      if Unshared(p, q) <= level - 2 {
        ReachShared(s.mem, 4, root, p, q, level, t);
        ReachMissing(s.mem, 4, root, q, level, t);
        assert q.At(level) == i;
      } else if Reach(s.mem, 4, root, q, level, t) && q.At(level) == i {
        ReachUnique(s, 4, root, p, root, q, level, t);
      }
    }
  }

  lemma {:induction false} ReachSame(s: State, m': Mem, l: nat, x: nat, p: Path, level: nat, t: nat)
    requires Valid(s) && IsTable(s, l, x) && 1 <= level <= l && Reach(s.mem, l, x, p, level, t)
    requires forall t', i :: t' in s.owner && Level(s.owner[t']) > 0 && 0 <= i < 512 ==>
               Entry(m', t', i) == Entry(s.mem, t', i)
    ensures Reach(m', l, x, p, level, t)
    decreases l
  {
    hide RegionOk, ChainOk, Partition, KernelFramesOk, TablesOk, Entry, Present, Big, Target;
    if l > level {
      Child(s, l, x, p.At(l));
      ReachSame(s, m', l - 1, Target(Entry(s.mem, x, p.At(l))), p, level, t);
    }
  }

  /** Memory changed outside the tables changes no walk's needs. */
  lemma PopulatedKept(s0: State, s: State, m': Mem, root: nat, p: Path, level: nat)
    requires Valid(s) && IsTable(s, 4, root) && Populated(s0, s, root, p, level)
    requires forall t', i :: t' in s.owner && Level(s.owner[t']) > 1 && 0 <= i < 512 ==>
               Entry(m', t', i) == Entry(s.mem, t', i)
    ensures Populated(s0, s.(mem := m'), root, p, level)
  {
    hide RegionOk, ChainOk, Partition, KernelFramesOk, TablesOk, Entry, Present, Big, Target;
    forall q ensures Missing(m', 4, root, q) == Missing(s.mem, 4, root, q) {
      SameMissing(s, m', 4, root, q);
    }
  }

  lemma StartPopulated(s: State, root: nat, p: Path)
    ensures Populated(s, s, root, p, 4)
  {
    forall q ensures Missing(s.mem, 4, root, q) == Min(Missing(s.mem, 4, root, q), Max(Unshared(p, q), 3)) {
      MissingBound(s.mem, 4, root, q);
    }
  }

  /** `Populated` speaks of the memory only. */
  lemma PopulatedMem(s0: State, s: State, s': State, root: nat, p: Path, level: nat)
    requires Populated(s0, s, root, p, level) && s'.mem == s.mem
    ensures Populated(s0, s', root, p, level)
  {
  }

  /** The needs of a walk compared with an earlier state with the same needs. */
  lemma PopulatedFrom(s0: State, s1: State, s: State, root: nat, p: Path)
    requires forall q :: Missing(s1.mem, 4, root, q) == Missing(s0.mem, 4, root, q)
    requires Populated(s1, s, root, p, 1)
    ensures Populated(s0, s, root, p, 1)
  {
  }
}
