/** Whole runs of the allocator and the address spaces together: frames allocated, freed
    and written, address spaces created, pages mapped and unmapped, in any order. */
module KernelRuns {
  import opened Bytes
  import opened Paging
  import opened Ownership
  import opened Machines
  import opened Frame
  import opened Radix
  import opened AddressSpace
  import opened KernelSpace

  datatype Op =
    | AllocOp | AllocZeroOp | FreeOp(f: nat)
    | StoreOp                                  // bytes written that are nobody's link or table
    | ClaimOp(f: nat, root: nat, p: Path)      // the owner of a frame sets it aside for a page
    | CreateOp(root: nat)
    | MapOp(root: nat, p: Path, frame: nat, user: bool)
    | UnmapOp(root: nat, p: Path)

  /** Memory changed anywhere but in page tables and in the links of freed frames. */
  ghost predicate Harmless(s: State, m': Mem) {
    && |m'| == |s.mem|
    && forall j :: 0 <= j < |m'| && m'[j] != s.mem[j] ==>
         && (forall t :: t in s.owner && Level(s.owner[t]) > 0 ==> !(t <= j < t + FRAME_SIZE))
         && (forall i :: 0 <= i < |s.chain| ==> !(s.chain[i] <= j < s.chain[i] + 8))
  }

  ghost predicate Mappable(s: State, root: nat, p: Path) {
    Valid(s) && IsRoot(s, root) && !ThroughBig(p) && Missing(s.mem, 4, root, p) <= FreeCount(s)
  }

  /** One operation of the kernel. Where it panics there is no step. */
  ghost predicate Step(s: State, op: Op, s': State)
    requires Valid(s)
  {
    match op
    case AllocOp => HasFrame(s) && s' == Alloc(s)
    case AllocZeroOp => HasFrame(s) && s' == AllocZeroed(s)
    case FreeOp(f) => Freeable(s, f) && s' == Dealloc(s, f)
    case StoreOp => Harmless(s, s'.mem) && s' == s.(mem := s'.mem)
    case ClaimOp(f, root, p) =>
      f in s.owner && s.owner[f] == Data && f !in s.k.Frames() && s' == s.(owner := s.owner[f := UserPage(root, p)])
    case CreateOp(root) => NewSpace(s, s', root)
    case MapOp(root, p, frame, user) =>
      && Mappable(s, root, p) && Aligned(frame) && frame + FRAME_SIZE <= PHYSICAL_LIMIT
      && s' == MapPage(s, root, p, frame + if user then 7 else 3)
    case UnmapOp(root, p) => Mappable(s, root, p) && s' == MapPage(s, root, p, 0)
  }

  /** Each state follows from the one before by its operation. */
  ghost predicate IsRun(ss: seq<State>, ops: seq<Op>) {
    && |ss| == |ops| + 1 && Valid(ss[0])
    && forall k :: 0 <= k < |ops| ==> Valid(ss[k]) ==> Step(ss[k], ops[k], ss[k + 1])
  }

  // ----- what one operation keeps -----

  lemma HarmlessKeeps(s: State, m': Mem)
    requires Valid(s) && Harmless(s, m')
    ensures Valid(s.(mem := m'))
    ensures forall t, i :: t in s.owner && Level(s.owner[t]) > 0 && 0 <= i < 512 ==>
              Entry(m', t, i) == Entry(s.mem, t, i)
  {
    hide Aligned, Word64;
    var s' := s.(mem := m');
    forall t, i | t in s.owner && Level(s.owner[t]) > 0 && 0 <= i < 512 ensures Entry(m', t, i) == Entry(s.mem, t, i) {
      SameBytesSameWord(s.mem, m', t + 8 * i);
    }
    assert ChainOk(s') by {
      forall i | 0 <= i < |s.chain| ensures Word64(m', s.chain[i]) == Word64(s.mem, s.chain[i]) {
        SameBytesSameWord(s.mem, m', s.chain[i]);
      }
    }
    assert TablesOk(s') by {
      hide Entry;
      forall t, i | t in s.owner && 0 <= i < 512 ensures EntryOk(s.k, s.owner, t, i, Entry(m', t, i)) {
        assert EntryOk(s.k, s.owner, t, i, Entry(s.mem, t, i));
      }
    }
  }

  /** A write inside a frame that holds no table is one of those. */
  lemma ClientWriteIsStore(s: State, f: nat, a: nat, bs: seq<Byte>)
    requires Valid(s) && f in s.owner && Level(s.owner[f]) == 0
    requires f <= a && a + |bs| <= f + FRAME_SIZE
    ensures a + |bs| <= |s.mem| && Step(s, StoreOp, s.(mem := Blit(s.mem, a, bs)))
  {
    hide Aligned, Word64, TablesOk, KernelFramesOk, RegionOk;
    assert Aligned(f) && f + FRAME_SIZE <= |s.mem|;
    var m' := Blit(s.mem, a, bs);
    forall j | 0 <= j < |m'| && m'[j] != s.mem[j]
      ensures forall t :: t in s.owner && Level(s.owner[t]) > 0 ==> !(t <= j < t + FRAME_SIZE)
      ensures forall i :: 0 <= i < |s.chain| ==> !(s.chain[i] <= j < s.chain[i] + 8) {
      forall t | t in s.owner && Level(s.owner[t]) > 0 ensures !(t <= j < t + FRAME_SIZE) { FramesApart(f, t); }
      forall i | 0 <= i < |s.chain| ensures !(s.chain[i] <= j < s.chain[i] + 8) {
        FramesApart(f, s.chain[i]);
      }
    }
  }

  lemma SameWalks(s: State, m': Mem)
    requires Valid(s)
    requires forall t, i :: t in s.owner && Level(s.owner[t]) > 0 && 0 <= i < 512 ==>
              Entry(m', t, i) == Entry(s.mem, t, i)
    ensures forall r, q :: IsRoot(s, r) ==> Translate(m', r, q) == Translate(s.mem, r, q)
  {
    hide RegionOk, ChainOk, Partition, KernelFramesOk, TablesOk, Entry;
    forall r, q | IsRoot(s, r) ensures Translate(m', r, q) == Translate(s.mem, r, q) {
      SameEntriesSameWalk(s, m', 4, r, q, true, true);
    }
  }

  /** The rights and frame a map or unmap gives its page. */
  function PageSet(op: Op): Page {
    match op
    case MapOp(_, _, frame, user) => Mapped(frame, true, user)
    case _ => Unmapped
  }

  /** The operation sets page `q` as seen through root `r`. */
  predicate Sets(op: Op, r: nat, q: Path) {
    (op.MapOp? || op.UnmapOp?) && q == op.p && (r == op.root || q.i4 == 511)
  }

  /** What page `q` of the root `r`, not created just now, translates to afterwards. */
  ghost predicate Keeps(s: State, op: Op, s': State) {
    forall r, q :: IsRoot(s, r) ==>
      Translate(s'.mem, r, q) == if Sets(op, r, q) then PageSet(op) else Translate(s.mem, r, q)
  }

  /** Same machine, same region; frames are owned until they are freed; roots appear
      only by creation. */
  ghost predicate SameMachine(s: State, op: Op, s': State) {
    && s'.k == s.k && s'.first == s.first && s'.end == s.end && |s'.mem| == |s.mem|
    && (forall f :: f in s.owner && op != FreeOp(f) ==> f in s'.owner)
    && (forall r :: IsRoot(s', r) <==> IsRoot(s, r) || op == CreateOp(r))
  }

  lemma StepAlloc(s: State, s': State)
    requires Valid(s) && HasFrame(s) && s' == Alloc(s)
    ensures Valid(s') && SameMachine(s, AllocOp, s') && Keeps(s, AllocOp, s')
  {
    hide RegionOk, ChainOk, Partition, KernelFramesOk, TablesOk, FreeCount, Translate, Aligned, NextFrame;
    AllocValid(s);
    AllocInRange(s);
  }

  lemma StepStore(s: State, s': State)
    requires Valid(s) && Harmless(s, s'.mem) && s' == s.(mem := s'.mem)
    ensures Valid(s') && SameMachine(s, StoreOp, s') && Keeps(s, StoreOp, s')
  {
    hide RegionOk, ChainOk, Partition, KernelFramesOk, TablesOk, FreeCount, Translate, Entry;
    HarmlessKeeps(s, s'.mem);
    SameWalks(s, s'.mem);
  }

  lemma StepClaim(s: State, f: nat, root: nat, p: Path, s': State)
    requires Valid(s) && f in s.owner && s.owner[f] == Data && f !in s.k.Frames()
    requires s' == s.(owner := s.owner[f := UserPage(root, p)])
    ensures Valid(s') && SameMachine(s, ClaimOp(f, root, p), s') && Keeps(s, ClaimOp(f, root, p), s')
  {
    hide RegionOk, ChainOk, Partition, KernelFramesOk, TablesOk, FreeCount, Translate;
    Retag(s, f, UserPage(root, p));
    DataRetag(s, f, UserPage(root, p));
  }

  lemma StepAllocZero(s: State, s': State)
    requires Valid(s) && HasFrame(s) && s' == AllocZeroed(s)
    ensures Valid(s') && SameMachine(s, AllocZeroOp, s') && Keeps(s, AllocZeroOp, s')
  {
    hide RegionOk, ChainOk, Partition, KernelFramesOk, TablesOk, FreeCount, AllocZeroed, Entry, Translate, Aligned;
    hide Zeros;
    AllocZeroedValid(s);
    AllocShape(s);
    AllocSameTranslations(s);
  }

  lemma StepFree(s: State, f: nat, s': State)
    requires Valid(s) && Freeable(s, f) && s' == Dealloc(s, f)
    ensures Valid(s') && SameMachine(s, FreeOp(f), s') && Keeps(s, FreeOp(f), s')
  {
    hide RegionOk, ChainOk, Partition, KernelFramesOk, TablesOk, FreeCount, Entry, Translate, Aligned, Encode, LinkWord;
    DeallocValid(s, f);
    OwnedBelow(s, f);
    var w := LinkWord(s.chain, 0);
    ClientWrite(s, f, f, Encode(w, 8));
    SameWalks(s, s'.mem);
  }

  lemma StepCreate(s: State, root: nat, s': State)
    requires NewSpace(s, s', root)
    ensures Valid(s') && SameMachine(s, CreateOp(root), s') && Keeps(s, CreateOp(root), s')
  {
    hide RegionOk, ChainOk, Partition, KernelFramesOk, TablesOk, FreeCount, Entry, Translate, Aligned, AllocZeroed;
    NewRootEffect(s, s', root);
    ExtendsKernel(s, s');
  }

  lemma StepSet(s: State, op: Op, s': State, w: Word)
    requires (op.MapOp? || op.UnmapOp?) && Mappable(s, op.root, op.p) && LeafOk(w)
    requires op.MapOp? ==>
               && Aligned(op.frame) && op.frame + FRAME_SIZE <= PHYSICAL_LIMIT
               && w == op.frame + if op.user then 7 else 3
    requires op.UnmapOp? ==> w == 0
    requires s' == MapPage(s, op.root, op.p, w)
    ensures Valid(s') && SameMachine(s, op, s') && Keeps(s, op, s')
  {
    hide RegionOk, ChainOk, Partition, KernelFramesOk, TablesOk, FreeCount, Missing, Translate, Aligned, LeafPage;
    hide LeafOk;
    hide Resolve, Stop, Put64, ThroughBig;
    var root, p := op.root, op.p;
    MapPageEffect(s, root, p, w);
    MapPageFits(s, root, p);
    ExtendsKernel(s, s');
    ResolveTables(s, 4, root, p);
    if op.MapOp? { LeafWord(op.frame, op.user); } else { LeafHolds(0); }
    assert s'.owner == Resolve(s, 4, root, p).owner;
  }

  /** Every operation keeps every invariant and all translations but those it sets. */
  lemma StepKeeps(s: State, op: Op, s': State)
    requires Valid(s) && Step(s, op, s')
    ensures Valid(s') && SameMachine(s, op, s') && Keeps(s, op, s')
  {
    hide Valid, SameMachine, Keeps, FreeCount, Missing, Harmless, Alloc, AllocZeroed, Dealloc, NewSpace, MapPage;
    hide HasFrame, Freeable, ThroughBig, IsRoot, Aligned;
    match op {
      case AllocOp => StepAlloc(s, s');
      case AllocZeroOp => StepAllocZero(s, s');
      case FreeOp(f) => StepFree(s, f, s');
      case StoreOp => StepStore(s, s');
      case ClaimOp(f, root, p) => StepClaim(s, f, root, p, s');
      case CreateOp(root) => StepCreate(s, root, s');
      case MapOp(root, p, frame, user) => LeafWord(frame, user); StepSet(s, op, s', frame + if user then 7 else 3);
      case UnmapOp(root, p) => ZeroLeaf(); StepSet(s, op, s', 0);
    }
  }

  // ----- where the frames are -----

  /** Exactly one of: owned, on the free list, never handed out. */
  ghost predicate OneOfThree(s: State, f: nat) {
    && (f in s.owner || f in s.chain || s.next <= f)
    && !(f in s.owner && f in s.chain) && !(f in s.owner && s.next <= f) && !(f in s.chain && s.next <= f)
  }

  lemma FramePlace(s: State, f: nat)
    requires Valid(s) && Aligned(f) && s.first <= f < s.end
    ensures OneOfThree(s, f)
  {
    hide Aligned, Word64, TablesOk, RegionOk;
    if f in s.chain {
      var i :| 0 <= i < |s.chain| && s.chain[i] == f;
      assert s.first <= s.chain[i] < s.next && s.chain[i] !in s.owner;
    }
  }

  /** How many frames `a..b` holds, and which they are. */
  function FramesIn(a: int, b: int): int { (b - a) / FRAME_SIZE }

  function FrameSet(a: nat, b: nat): set<nat> {
    if b < a + FRAME_SIZE then {} else FrameSet(a, b - FRAME_SIZE) + {b - FRAME_SIZE}
  }

  lemma {:induction false} FrameSetIs(a: nat, b: nat)
    requires Aligned(a) && Aligned(b) && a <= b
    ensures forall f: nat :: f in FrameSet(a, b) <==> Aligned(f) && a <= f < b
    ensures |FrameSet(a, b)| == FramesIn(a, b)
    decreases b
  {
    hide Aligned, FramesIn;
    if a < b {
      FrameBefore(a, b);
      var c, rest := b - FRAME_SIZE, FrameSet(a, b - FRAME_SIZE);
      assert FrameSet(a, b) == rest + {c};
      hide FrameSet;
      FrameSetIs(a, c);
      assert |rest + {c}| == |rest| + 1;
      forall f: nat ensures f in rest + {c} <==> Aligned(f) && a <= f < b {
        if Aligned(f) && f != c { FramesApart(f, c); }
      }
    } else {
      assert FramesIn(a, a) == 0 by { NoFrames(a); }
    }
  }

  lemma NoFrames(a: int)
    ensures FramesIn(a, a) == 0
  {
  }

  lemma FrameBefore(a: nat, b: nat)
    requires Aligned(a) && Aligned(b) && a < b
    ensures a + FRAME_SIZE <= b && Aligned(b - FRAME_SIZE) && FramesIn(a, b - FRAME_SIZE) + 1 == FramesIn(a, b)
  {
    FramesApart(a, b);
  }

  lemma {:induction false} ChainSize(chain: seq<nat>) returns (frames: set<nat>)
    requires forall i, j :: 0 <= i < j < |chain| ==> chain[i] != chain[j]
    ensures |frames| == |chain| && forall f :: f in frames <==> f in chain
  {
    if chain == [] {
      frames := {};
    } else {
      var rest := ChainSize(chain[1..]);
      frames := rest + {chain[0]};
      assert chain == [chain[0]] + chain[1..];
    }
  }

  /** No frame is ever lost: those owned and those that can still be handed out make up
      the region, together with the four static tables. */
  lemma FramesCounted(s: State)
    requires Valid(s)
    ensures |s.owner| + FreeCount(s) == 4 + FramesIn(s.first, s.end)
  {
    hide Valid, FrameSet, RegionOk;
    assert RegionOk(s) && ChainOk(s) && Partition(s) && KernelFramesOk(s) by { ValidParts(s); }
    hide ChainOk, Partition, KernelFramesOk, FramesIn, FreeCount, Aligned;
    RegionLimit(s);
    RegionAligned(s);
    ChainDistinct(s);
    var chain := ChainSize(s.chain);
    var used := FrameSet(s.first, s.next);
    FrameSetIs(s.first, s.next);
    OwnedFrames(s, chain, used);
    SetSizes(s.owner.Keys, s.k.Frames(), used, chain);
    assert |s.owner.Keys| == |s.owner|;
    RegionSplit(s);
  }

  lemma ValidParts(s: State)
    requires Valid(s)
    ensures RegionOk(s) && ChainOk(s) && Partition(s) && KernelFramesOk(s)
  {
  }

  lemma ChainDistinct(s: State)
    requires ChainOk(s)
    ensures forall i, j :: 0 <= i < j < |s.chain| ==> s.chain[i] != s.chain[j]
  {
    hide Aligned, LinkWord, Word64;
  }

  lemma SetSizes(owned: set<nat>, kernel: set<nat>, used: set<nat>, chain: set<nat>)
    requires owned == kernel + (used - chain) && kernel !! used && chain <= used
    ensures |owned| == |kernel| + |used| - |chain|
  {
    assert |used - chain| == |used| - |chain|;
  }

  lemma OwnedFrames(s: State, chain: set<nat>, used: set<nat>)
    requires Valid(s) && (forall f :: f in chain <==> f in s.chain)
    requires forall f: nat :: f in used <==> Aligned(f) && s.first <= f < s.next
    ensures s.owner.Keys == s.k.Frames() + (used - chain) && chain <= used
    ensures s.k.Frames() !! used && |s.k.Frames()| == 4
  {
    hide RegionOk, ChainOk, TablesOk, Word64, LinkWord, Aligned;
    forall f | f in s.chain ensures f !in s.owner && f in used {
      var i :| 0 <= i < |s.chain| && s.chain[i] == f;
      ChainFrame(s, i);
    }
    RegionLimit(s);
  }

  lemma RegionSplit(s: State)
    requires Aligned(s.first) && Aligned(s.next) && Aligned(s.end)
    ensures FramesIn(s.first, s.next) + FramesIn(s.next, s.end) == FramesIn(s.first, s.end)
    ensures FreeCount(s) == |s.chain| + FramesIn(s.next, s.end)
  {
    var a, b, c := s.first / FRAME_SIZE, s.next / FRAME_SIZE, s.end / FRAME_SIZE;
    Quotient(s.first, s.next, a, b);
    Quotient(s.next, s.end, b, c);
    Quotient(s.first, s.end, a, c);
  }

  lemma Quotient(x: int, y: int, a: int, b: int)
    requires x == a * FRAME_SIZE && y == b * FRAME_SIZE
    ensures FramesIn(x, y) == b - a
  {
    assert y - x == (b - a) * FRAME_SIZE;
  }

  /** The allocator panics exactly when every frame of the region is owned. */
  lemma PanicIffExhausted(s: State)
    requires Valid(s)
    ensures !HasFrame(s) <==> forall f: nat :: Aligned(f) && s.first <= f < s.end ==> f in s.owner
  {
    hide RegionOk, ChainOk, Partition, KernelFramesOk, TablesOk, Aligned;
    if HasFrame(s) {
      AllocInRange(s);
      assert NextFrame(s) !in s.owner;
    } else {
      forall f: nat | Aligned(f) && s.first <= f < s.end ensures f in s.owner {
        FramePlace(s, f);
      }
    }
  }

  /** What is freed comes back first, and first of all what was freed last. */
  lemma FreedComesBack(s: State, f: nat, g: nat)
    requires Valid(s) && Freeable(s, f) && Freeable(s, g) && f != g
    ensures Valid(Dealloc(s, f)) && Freeable(Dealloc(s, f), g)
    ensures var s2 := Dealloc(Dealloc(s, f), g);
      && Valid(s2) && NextFrame(s2) == g
      && Valid(Alloc(s2)) && NextFrame(Alloc(s2)) == f
      && Alloc(Alloc(s2)).chain == s.chain
  {
    hide RegionOk, ChainOk, Partition, KernelFramesOk, TablesOk, FreeCount, Put64;
    DeallocValid(s, f);
    DeallocValid(Dealloc(s, f), g);
    AllocValid(Dealloc(Dealloc(s, f), g));
  }

  // ----- every reachable state -----

  lemma StepAt(ss: seq<State>, ops: seq<Op>, k: nat)
    requires IsRun(ss, ops) && k < |ops| && Valid(ss[k])
    ensures Step(ss[k], ops[k], ss[k + 1])
  {
    hide Valid, Step;
  }

  /** One step of a run that has been valid so far. */
  lemma NextState(ss: seq<State>, ops: seq<Op>, k: nat)
    requires IsRun(ss, ops) && k < |ops| && Valid(ss[k])
    ensures Valid(ss[k + 1]) && SameMachine(ss[k], ops[k], ss[k + 1]) && Keeps(ss[k], ops[k], ss[k + 1])
  {
    hide Valid, Step, SameMachine, Keeps;
    StepAt(ss, ops, k);
    StepKeeps(ss[k], ops[k], ss[k + 1]);
  }

  /** In every reachable state every invariant holds, each frame of the region is exactly
      one of owned, on the free list and never handed out, and frames are conserved. */
  lemma {:induction false} EveryStateValid(ss: seq<State>, ops: seq<Op>, k: nat)
    requires IsRun(ss, ops) && k <= |ops|
    ensures Valid(ss[k]) && ss[k].k == ss[0].k && ss[k].first == ss[0].first && ss[k].end == ss[0].end
    ensures |ss[k].owner| + FreeCount(ss[k]) == |ss[0].owner| + FreeCount(ss[0])
    ensures forall f: nat :: Aligned(f) && ss[k].first <= f < ss[k].end ==> OneOfThree(ss[k], f)
  {
    hide Valid, Step, FreeCount, OneOfThree, Aligned, Keeps, FramesIn;
    if k > 0 {
      EveryStateValid(ss, ops, k - 1);
      NextState(ss, ops, k - 1);
    }
    FramesCounted(ss[0]);
    FramesCounted(ss[k]);
    forall f: nat | Aligned(f) && ss[k].first <= f < ss[k].end ensures OneOfThree(ss[k], f) {
      FramePlace(ss[k], f);
    }
  }

  // ----- frames handed out -----

  /** The step takes frame `f` into use. */
  ghost predicate Takes(s: State, s': State, f: nat) {
    f !in s.owner && f in s'.owner
  }

  /** Whatever takes frames takes aligned ones of the region that were free; an
      allocation takes exactly the frame it returns. */
  lemma TakenWasFree(s: State, op: Op, s': State, f: nat)
    requires Valid(s) && Step(s, op, s') && Takes(s, s', f)
    ensures Aligned(f) && s.first <= f && f + FRAME_SIZE <= s.end && (f in s.chain || s.next <= f)
    ensures op.AllocOp? || op.AllocZeroOp? || op.CreateOp? ==> f == NextFrame(s)
  {
    hide Step, ChainOk, TablesOk, RegionOk, Keeps, Aligned;
    StepKeeps(s, op, s');
    KernelOwned(s);
    OwnedBelow(s', f);
    assert s'.first <= f < s'.next;
    assert f < s.end && Aligned(s.end) by { RegionLimit(s'); RegionAligned(s'); }
    FramesApart(f, s.end);
    FramePlace(s, f);
    if op.AllocOp? || op.AllocZeroOp? || op.CreateOp? { TakenIsNext(s, op, s', f); }
  }

  lemma RegionAligned(s: State)
    requires Valid(s)
    ensures Aligned(s.first) && Aligned(s.next) && Aligned(s.end)
  {
    hide ChainOk, Partition, KernelFramesOk, TablesOk;
  }

  lemma TakenIsNext(s: State, op: Op, s': State, f: nat)
    requires Valid(s) && Step(s, op, s') && Takes(s, s', f) && (op.AllocOp? || op.AllocZeroOp? || op.CreateOp?)
    ensures f == NextFrame(s)
  {
    hide RegionOk, ChainOk, Partition, KernelFramesOk, TablesOk, NextFrame, Blit;
    if !op.AllocOp? {
      AllocZeroedValid(s);
    }
  }

  lemma {:induction false} OwnedUntilFreed(ss: seq<State>, ops: seq<Op>, i: nat, j: nat, f: nat)
    requires IsRun(ss, ops) && i <= j <= |ops| && f in ss[i].owner
    requires forall k :: i <= k < j ==> ops[k] != FreeOp(f)
    ensures f in ss[j].owner
    decreases j
  {
    hide Valid, Step, Keeps, FreeCount, OneOfThree, Aligned;
    if i < j {
      OwnedUntilFreed(ss, ops, i, j - 1, f);
      EveryStateValid(ss, ops, j - 1);
      NextState(ss, ops, j - 1);
    }
  }

  /** No frame is taken into use twice, for whatever purpose, without having been freed
      in between. */
  lemma NoDoubleHandout(ss: seq<State>, ops: seq<Op>, i: nat, j: nat, f: nat)
    requires IsRun(ss, ops) && i < j < |ops| && Takes(ss[i], ss[i + 1], f) && Takes(ss[j], ss[j + 1], f)
    ensures exists k :: i < k < j && ops[k] == FreeOp(f)
  {
    hide IsRun;
    if forall k :: i < k < j ==> ops[k] != FreeOp(f) {
      OwnedUntilFreed(ss, ops, i + 1, j, f);
    }
  }

  // ----- the translations are a map -----

  /** The map the run so far has built: what page `q` of root `r` means after the first
      `k` operations. It starts as `s0` translates; a map or unmap sets one page of one
      root, or one page of the half all roots share; a new root starts with nothing in
      its private half. */
  ghost function View(s0: State, ops: seq<Op>, k: nat, r: nat, q: Path): Page
    requires k <= |ops|
  {
    if k == 0 then Translate(s0.mem, r, q)
    else
      var op := ops[k - 1];
      if Sets(op, r, q) then PageSet(op)
      else if op == CreateOp(r) then if UserPath(q) then Unmapped else View(s0, ops, k - 1, s0.k.pml4, q)
      else View(s0, ops, k - 1, r, q)
  }

  lemma NewRootView(s: State, s': State, root: nat, q: Path)
    requires NewSpace(s, s', root)
    ensures Translate(s'.mem, root, q) == if UserPath(q) then Unmapped else Translate(s.mem, s.k.pml4, q)
  {
    hide RegionOk, ChainOk, Partition, KernelFramesOk, TablesOk, FreeCount, Translate, Missing, NewSpace, NextFrame;
    NewRootEffect(s, s', root);
    ExtendsKernel(s, s');
    if !UserPath(q) {
      RootWasValid(s, s', root);
      KernelRoot(s);
      StillRoot(s, s', s.k.pml4);
      SharedHalf(s', root, s.k.pml4, q);
    }
  }

  lemma RootWasValid(s: State, s': State, root: nat)
    requires NewSpace(s, s', root)
    ensures Valid(s)
  {
    hide Valid;
  }

  /** The page tables implement that map: after any run the processor's walk from any
      root gives what the map says, for every page. */
  lemma {:induction false} WalksAreTheMap(ss: seq<State>, ops: seq<Op>, k: nat, r: nat, q: Path)
    requires IsRun(ss, ops) && k <= |ops| && IsRoot(ss[k], r)
    ensures Translate(ss[k].mem, r, q) == View(ss[0], ops, k, r, q)
    decreases k
  {
    hide Valid, Step, FreeCount, OneOfThree, Aligned, Translate, IsRoot;
    if k > 0 {
      var s, op, s' := ss[k - 1], ops[k - 1], ss[k];
      EveryStateValid(ss, ops, k - 1);
      NextState(ss, ops, k - 1);
      if op == CreateOp(r) {
        assert NewSpace(s, s', r) by { StepAt(ss, ops, k - 1); CreateIs(s, op, s'); }
        NewRootView(s, s', r, q);
        KernelRoot(s);
        WalksAreTheMap(ss, ops, k - 1, s.k.pml4, q);
      } else {
        WalksAreTheMap(ss, ops, k - 1, r, q);
      }
    }
  }

  lemma CreateIs(s: State, op: Op, s': State)
    requires Valid(s) && Step(s, op, s') && op.CreateOp?
    ensures NewSpace(s, s', op.root)
  {
    hide Valid, NewSpace;
  }

  // ----- the kernel half -----

  /** Operation `op` sets page `q` of the half all roots share. */
  predicate SetsShared(op: Op, q: Path) { (op.MapOp? || op.UnmapOp?) && q == op.p }

  /** A page of the kernel half means the same through every root, and keeps its meaning
      in every later state, through old roots and new, until it is itself set. */
  lemma {:induction false} KernelPageStays(ss: seq<State>, ops: seq<Op>, a: nat, b: nat, q: Path, r: nat, r': nat)
    requires IsRun(ss, ops) && a <= b <= |ops| && !UserPath(q)
    requires forall k :: a <= k < b ==> !SetsShared(ops[k], q)
    requires IsRoot(ss[a], r) && IsRoot(ss[b], r')
    ensures Translate(ss[b].mem, r', q) == Translate(ss[a].mem, r, q)
    decreases b
  {
    hide Valid, Step, FreeCount, OneOfThree, Aligned, Translate, IsRoot;
    EveryStateValid(ss, ops, b);
    if a == b {
      SharedHalf(ss[b], r', r, q);
    } else {
      EveryStateValid(ss, ops, b - 1);
      NextState(ss, ops, b - 1);
      KernelRoot(ss[b - 1]);
      var root := ss[b - 1].k.pml4;
      KernelPageStays(ss, ops, a, b - 1, q, r, root);
      assert IsRoot(ss[b], root);
      SharedHalf(ss[b], r', root, q);
    }
  }

  /** A page mapped through any root under its entry 511 is there from then on, with the
      same frame and rights, through every root there is or ever will be, until it is
      mapped or unmapped again through some root. */
  lemma KernelPageShared(ss: seq<State>, ops: seq<Op>, a: nat, b: nat, r: nat)
    requires IsRun(ss, ops) && a < b <= |ops| && ops[a].MapOp? && ops[a].p.i4 == 511
    requires forall k :: a < k < b ==> !SetsShared(ops[k], ops[a].p)
    requires IsRoot(ss[b], r)
    ensures Translate(ss[b].mem, r, ops[a].p) == Mapped(ops[a].frame, true, ops[a].user)
  {
    hide Valid, FreeCount, OneOfThree, Aligned, Translate;
    EveryStateValid(ss, ops, a);
    NextState(ss, ops, a);
    StepAt(ss, ops, a);
    assert IsRoot(ss[a + 1], ops[a].root);
    KernelPageStays(ss, ops, a + 1, b, ops[a].p, ops[a].root, r);
  }

  /** As long as only private pages are mapped and unmapped, the kernel half of every
      root, old or new, stays as it was. */
  lemma UserPagesKeepKernel(ss: seq<State>, ops: seq<Op>, a: nat, b: nat, r: nat, r': nat, q: Path)
    requires IsRun(ss, ops) && a <= b <= |ops| && !UserPath(q) && IsRoot(ss[a], r) && IsRoot(ss[b], r')
    requires forall k :: a <= k < b && (ops[k].MapOp? || ops[k].UnmapOp?) ==> UserPath(ops[k].p)
    ensures Translate(ss[b].mem, r', q) == Translate(ss[a].mem, r, q)
  {
    hide IsRun, Translate, IsRoot;
    KernelPageStays(ss, ops, a, b, q, r, r');
  }

  /** And a private page of one root keeps its meaning whatever is done elsewhere. */
  lemma {:induction false} PrivatePageStays(ss: seq<State>, ops: seq<Op>, a: nat, b: nat, r: nat, q: Path)
    requires IsRun(ss, ops) && a <= b <= |ops| && IsRoot(ss[a], r) && UserPath(q)
    requires forall k :: a <= k < b ==> !Sets(ops[k], r, q)
    ensures IsRoot(ss[b], r) && Translate(ss[b].mem, r, q) == Translate(ss[a].mem, r, q)
    decreases b
  {
    hide Valid, Step, FreeCount, OneOfThree, Aligned, Translate, IsRoot;
    if a < b {
      EveryStateValid(ss, ops, b - 1);
      NextState(ss, ops, b - 1);
      PrivatePageStays(ss, ops, a, b - 1, r, q);
    }
  }

  /** In every reachable state, through every root, the linear map gives each address
      below 512G its pointer, and the kernel image is where it belongs. */
  lemma LinearMapAlways(ss: seq<State>, ops: seq<Op>, k: nat, r: nat, a: Word)
    requires IsRun(ss, ops) && k <= |ops| && IsRoot(ss[k], r) && a < SIZE_512G
    ensures Walk(ss[k].mem, r, LinearAddressToPtr(a)) == Some(a)
    ensures !Translate(ss[k].mem, r, PathOf(LinearAddressToPtr(a))).user
    ensures a < 16 * SIZE_2M ==>
              && Walk(ss[k].mem, r, KERNEL_BASE + a) == Some(a)
              && !Translate(ss[k].mem, r, PathOf(KERNEL_BASE + a)).user
  {
    hide Valid, Step, Translate, Walk, IsRoot, PathOf;
    EveryStateValid(ss, ops, k);
    LinearMapAgrees(ss[k], r, a);
    if a < 16 * SIZE_2M {
      KernelImageAgrees(ss[k], r, a);
    }
  }

  // ----- states that a run leads to -----

  ghost predicate Reaches(s: State, s': State) {
    exists ss, ops :: IsRun(ss, ops) && ss[0] == s && ss[|ops|] == s'
  }

  lemma ReachesSelf(s: State)
    requires Valid(s)
    ensures Reaches(s, s)
  {
    hide Valid;
    assert IsRun([s], []);
  }

  lemma ReachesOne(s: State, op: Op, s': State)
    requires Valid(s) && Step(s, op, s')
    ensures Reaches(s, s')
  {
    hide Valid, Step;
    var ss, ops := [s, s'], [op];
    assert IsRun(ss, ops) && ss[|ops|] == s';
  }

  lemma ReachesTransitive(s: State, s1: State, s2: State)
    requires Reaches(s, s1) && Reaches(s1, s2)
    ensures Reaches(s, s2)
  {
    hide Valid, Step;
    var a, xs :| IsRun(a, xs) && a[0] == s && a[|xs|] == s1;
    var b, ys :| IsRun(b, ys) && b[0] == s1 && b[|ys|] == s2;
    var c, zs := a + b[1..], xs + ys;
    forall k | 0 <= k < |zs| && Valid(c[k]) ensures Step(c[k], zs[k], c[k + 1]) {
      if k < |xs| {
        assert c[k] == a[k] && c[k + 1] == a[k + 1] && zs[k] == xs[k];
        assert Step(a[k], xs[k], a[k + 1]);
      } else {
        var l := k - |xs|;
        assert c[k] == b[l] && c[k + 1] == b[l + 1] && zs[k] == ys[l];
        assert Step(b[l], ys[l], b[l + 1]);
      }
    }
    assert IsRun(c, zs) && c[0] == s && c[|zs|] == s2;
  }

  /** A frame in hand is mapped for a page, filled and set aside for it. */
  lemma ReachesFilled(s: State, root: nat, p: Path, f: nat, off: nat, bs: seq<Byte>)
    requires Mappable(s, root, p) && f in s.owner && s.owner[f] == Data && f !in s.k.Frames()
    requires off + |bs| <= FRAME_SIZE && Aligned(f) && f + FRAME_SIZE <= PHYSICAL_LIMIT
    ensures var s' := MapPage(s, root, p, f + 7);
      && f + off + |bs| <= |s'.mem|
      && Reaches(s, s'.(mem := Blit(s'.mem, f + off, bs), owner := s'.owner[f := UserPage(root, p)]))
  {
    hide RegionOk, ChainOk, Partition, KernelFramesOk, TablesOk, MapPage, Blit, Missing, FreeCount, ThroughBig, Reaches;
    hide Harmless, Keeps;
    var s1 := MapPage(s, root, p, f + 7);
    var op := MapOp(root, p, f, true);
    StepKeeps(s, op, s1);
    MapKeepsRole(s, root, p, f + 7, f);
    ClientWriteIsStore(s1, f, f + off, bs);
    var s2 := s1.(mem := Blit(s1.mem, f + off, bs));
    StepKeeps(s1, StoreOp, s2);
    var s3 := s2.(owner := s1.owner[f := UserPage(root, p)]);
    ReachesOne(s, op, s1);
    ReachesOne(s1, StoreOp, s2);
    ReachesOne(s2, ClaimOp(f, root, p), s3);
    ReachesTransitive(s, s1, s2);
    ReachesTransitive(s, s2, s3);
  }

  lemma MapKeepsRole(s: State, root: nat, p: Path, w: Word, f: nat)
    requires Mappable(s, root, p) && LeafOk(w) && f in s.owner
    ensures var s' := MapPage(s, root, p, w); f in s'.owner && s'.owner[f] == s.owner[f] && s'.k == s.k
  {
    hide RegionOk, ChainOk, Partition, KernelFramesOk, TablesOk, MapPage, Missing, FreeCount, ThroughBig;
    MapPageEffect(s, root, p, w);
  }

  // ----- the kernel's functions are such operations -----

  datatype Call =
    | FrameAllocCall | FrameAllocZeroCall | FrameDeallocCall(f: Word) | CreateCall
    | MmapCall(root: nat, pageStart: nat, ptr: Word, user: bool)
    | MunmapCall(root: nat, ptr: Word)

  /** What each function relies on. */
  ghost predicate Permitted(s: State, call: Call) {
    match call
    case FrameDeallocCall(f) => Valid(s) && Freeable(s, f)
    case MmapCall(root, pageStart, ptr, user) =>
      && IsRoot(s, root) && !ThroughBig(PathOf(ptr))
      && Aligned(pageStart) && pageStart + FRAME_SIZE <= PHYSICAL_LIMIT
    case MunmapCall(root, ptr) => IsRoot(s, root) && !ThroughBig(PathOf(ptr))
    case _ => true
  }

  /** The operation a call performs; `result` is what it returns. */
  function OpOf(call: Call, result: nat): Op {
    match call
    case FrameAllocCall => AllocOp
    case FrameAllocZeroCall => AllocZeroOp
    case FrameDeallocCall(f) => FreeOp(f)
    case CreateCall => CreateOp(result)
    case MmapCall(root, pageStart, ptr, user) => MapOp(root, PathOf(ptr), pageStart, user)
    case MunmapCall(root, ptr) => UnmapOp(root, PathOf(ptr))
  }

  /** Every call of the kernel's functions that returns is a step of a run; one that does
      not is a panic for want of a frame. */
  method Perform(k: Machine, call: Call) returns (ok: bool, result: nat)
    requires k.Ready() && Permitted(k.S(), call)
    modifies k, k.ram
    ensures k.Ready() && if ok then Step(old(k.S()), OpOf(call, result), k.S()) else !HasFrame(k.S())
    ensures ok && call.MunmapCall? ==>
              result == FrameOf(Translate(old(k.S()).mem, call.root, PathOf(call.ptr)))
    ensures ok && (call.FrameAllocCall? || call.FrameAllocZeroCall?) ==> Takes(old(k.S()), k.S(), result)
  {
    hide RegionOk, ChainOk, Partition, KernelFramesOk, TablesOk, LinkWord, Alloc, AllocZeroed, Dealloc, NewSpace;
    hide MapPage;
    hide Missing, FreeCount, Remapped, Extends, SameTranslations, ThroughBig, Aligned, PathOf, Translate;
    ok, result := true, 0;
    match call {
      case FrameAllocCall =>
        if HasFrame(k.S()) { TakesNext(k.S()); }
        ok, result := FrameAlloc(k);
      case FrameAllocZeroCall =>
        if HasFrame(k.S()) { TakesNext(k.S()); }
        ok, result := FrameAllocZero(k);
      case FrameDeallocCall(f) => FrameDealloc(k, f);
      case CreateCall => ok, result := CreateAddressSpace(k);
      case MmapCall(root, pageStart, ptr, user) => ok := Mmap(k, root, pageStart, ptr, user);
      case MunmapCall(root, ptr) => ok, result := Munmap(k, root, ptr);
    }
  }

  lemma TakesNext(s: State)
    requires Valid(s) && HasFrame(s)
    ensures Takes(s, Alloc(s), NextFrame(s)) && Takes(s, AllocZeroed(s), NextFrame(s))
  {
    hide RegionOk, ChainOk, Partition, KernelFramesOk, TablesOk, Blit;
    AllocZeroedValid(s);
  }
}
