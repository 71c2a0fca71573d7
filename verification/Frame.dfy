/** src/frame.c: the bump allocator with a free list threaded through the freed
    frames themselves. */
module Frame {
  import opened Bytes
  import opened Paging
  import opened Ownership
  import opened Machines
  import Klib

  // ----- what the operations do to the abstract state -----

  ghost predicate HasFrame(s: State) {
    s.chain != [] || s.next != s.end
  }

  ghost function NextFrame(s: State): nat
    requires Valid(s)
  {
    if s.chain != [] then s.chain[0] else s.next
  }

  ghost function Alloc(s: State): State
    requires Valid(s)
  {
    var s' := if s.chain != [] then s.(chain := s.chain[1..]) else s.(next := s.next + FRAME_SIZE);
    s'.(owner := s.owner[NextFrame(s) := Data])
  }

  ghost function AllocZeroed(s: State): State
    requires Valid(s) && HasFrame(s)
  {
    AllocInRange(s);
    Alloc(s).(mem := Blit(s.mem, NextFrame(s), Zeros(FRAME_SIZE)))
  }

  ghost predicate Freeable(s: State, f: nat) {
    f in s.owner && (s.owner[f].Data? || s.owner[f].UserPage?) && f !in s.k.Frames()
  }

  ghost function Dealloc(s: State, f: nat): State
    requires Valid(s) && Freeable(s, f)
  {
    s.(mem := Put64(s.mem, f, LinkWord(s.chain, 0)), chain := [f] + s.chain, owner := s.owner - {f})
  }

  /** Number of frames that can still be handed out. */
  ghost function FreeCount(s: State): int {
    |s.chain| + (s.end - s.next) / FRAME_SIZE
  }

  lemma SameFreeCount(s: State, s': State)
    requires s'.chain == s.chain && s'.next == s.next && s'.end == s.end
    ensures FreeCount(s') == FreeCount(s)
  {
  }

  // ----- what they keep -----

  lemma AllocInRange(s: State)
    requires Valid(s) && HasFrame(s)
    ensures var f := NextFrame(s);
            Aligned(f) && s.first <= f && f + FRAME_SIZE <= s.end && f !in s.owner && f !in s.k.Frames()
  {
    hide Aligned, TablesOk;
    var f := NextFrame(s);
    assert s.chain != [] ==> Aligned(s.chain[0]) && s.first <= s.chain[0] < s.next && s.chain[0] !in s.owner;
    FramesApart(f, s.end);
    assert f in s.k.Frames() ==> !(s.first <= f < s.end);
  }

  lemma AllocValid(s: State)
    requires Valid(s) && HasFrame(s)
    ensures Valid(Alloc(s))
    ensures FreeCount(Alloc(s)) == FreeCount(s) - 1
  {
    hide RegionOk, ChainOk, Partition, KernelFramesOk, TablesOk, Aligned, FreeCount;
    AllocInRange(s);
    AllocRegion(s);
    AllocChain(s);
    AllocPartition(s);
    OwnerGrows(s, Alloc(s), NextFrame(s));
  }

  lemma AllocRegion(s: State)
    requires Valid(s) && HasFrame(s)
    ensures RegionOk(Alloc(s)) && KernelFramesOk(Alloc(s)) && FreeCount(Alloc(s)) == FreeCount(s) - 1
  {
    hide ChainOk, Partition, TablesOk;
    AllocInRange(s);
    assert KernelFramesOk(Alloc(s)) by { hide Aligned, RegionOk; }
    if s.chain == [] {
      hide KernelFramesOk;
      assert (s.end - s.next - FRAME_SIZE) / FRAME_SIZE == (s.end - s.next) / FRAME_SIZE - 1;
    }
  }

  lemma AllocChain(s: State)
    requires Valid(s) && HasFrame(s)
    ensures ChainOk(Alloc(s))
  {
    hide Aligned, Partition, KernelFramesOk, TablesOk, Word64;
    var s' := Alloc(s);
    if s.chain != [] {
      forall i | 0 <= i < |s'.chain| ensures Word64(s'.mem, s'.chain[i]) == LinkWord(s'.chain, i + 1) {
        assert s'.chain[i] == s.chain[i + 1];
        assert LinkWord(s'.chain, i + 1) == LinkWord(s.chain, i + 2);
      }
    }
  }

  lemma AllocPartition(s: State)
    requires Valid(s) && HasFrame(s)
    ensures Partition(Alloc(s))
  {
    hide Aligned, RegionOk, ChainOk, TablesOk, KernelFramesOk;
    var f, s' := NextFrame(s), Alloc(s);
    AllocInRange(s);
    RegionLimit(s);
    assert s.first <= f < s'.next by {
      if s.chain != [] { ChainFrame(s, 0); }
    }
    forall g: nat | Aligned(g) && s'.first <= g < s'.next && g !in s'.chain ensures g in s'.owner {
      if g != f {
        assert g !in s.chain;
        if g >= s.next { FramesApart(f, g); }
      }
    }
  }

  lemma ChainFrame(s: State, i: nat)
    requires ChainOk(s) && i < |s.chain|
    ensures Aligned(s.chain[i]) && s.first <= s.chain[i] < s.next && s.chain[i] !in s.owner
  {
    hide Aligned;
  }

  /** Tables stay well-formed when a frame nobody owned becomes a data frame. */
  lemma OwnerGrows(s: State, s': State, f: nat)
    requires TablesOk(s) && f !in s.owner
    requires s'.mem == s.mem && s'.k == s.k && s'.owner == s.owner[f := Data]
    ensures TablesOk(s')
  {
    hide Entry;
    forall t, i | t in s'.owner && 0 <= i < 512 ensures EntryOk(s'.k, s'.owner, t, i, Entry(s'.mem, t, i)) {
      if t != f {
        assert EntryOk(s.k, s.owner, t, i, Entry(s.mem, t, i));
      }
    }
  }

  /** Writing inside a frame that holds no table keeps everything valid. */
  lemma ClientWrite(s: State, f: nat, a: nat, bs: seq<Byte>)
    requires Valid(s) && f in s.owner && Level(s.owner[f]) == 0
    requires f <= a && a + |bs| <= f + FRAME_SIZE
    ensures a + |bs| <= |s.mem|
    ensures Valid(s.(mem := Blit(s.mem, a, bs)))
    ensures forall t, i :: t in s.owner && t != f && 0 <= i < 512 ==>
              Entry(Blit(s.mem, a, bs), t, i) == Entry(s.mem, t, i)
  {
    hide Aligned, Word64, Blit;
    assert Aligned(f) && f + FRAME_SIZE <= |s.mem|;
    var s' := s.(mem := Blit(s.mem, a, bs));
    forall t, i | t in s.owner && t != f && 0 <= i < 512 ensures Entry(s'.mem, t, i) == Entry(s.mem, t, i) {
      BlitEntry(s.mem, f, a, bs, t, i);
    }
    assert ChainOk(s') by {
      forall i | 0 <= i < |s.chain| ensures Word64(s'.mem, s.chain[i]) == Word64(s.mem, s.chain[i]) {
        FramesApart(f, s.chain[i]);
        BlitWord(s.mem, a, bs, s.chain[i]);
      }
    }
    assert TablesOk(s') by {
      hide Entry;
      forall t, i | t in s.owner && 0 <= i < 512 ensures EntryOk(s.k, s.owner, t, i, Entry(s'.mem, t, i)) {
        assert EntryOk(s.k, s.owner, t, i, Entry(s.mem, t, i));
      }
    }
  }

  lemma ZeroFrame(m: Mem, f: nat)
    requires f + FRAME_SIZE <= |m|
    ensures forall i :: 0 <= i < 512 ==> Entry(Blit(m, f, Zeros(FRAME_SIZE)), f, i) == 0
  {
    var m' := Blit(m, f, Zeros(FRAME_SIZE));
    assert m'[f..f + FRAME_SIZE] == Zeros(FRAME_SIZE);
    forall i | 0 <= i < 512 ensures Entry(m', f, i) == 0 {
      var w := m'[f..f + FRAME_SIZE][8 * i..8 * i + 8];
      DecodeZeros(w);
      assert m'[f + 8 * i..f + 8 * i + 8] == w;
    }
  }

  /** A zeroed allocation hands out an aligned frame nobody owned, cleared, and
      touches no byte outside it. */
  lemma AllocZeroedValid(s: State)
    requires Valid(s) && HasFrame(s)
    ensures var f, s' := NextFrame(s), AllocZeroed(s);
      && Valid(s') && FreeCount(s') == FreeCount(s) - 1
      && f !in s.owner && f !in s.k.Frames() && s'.owner == s.owner[f := Data]
      && Aligned(f) && s.first <= f && f + FRAME_SIZE <= s.end
      && (forall i :: 0 <= i < 512 ==> Entry(s'.mem, f, i) == 0)
      && (forall t, i :: t in s.owner && 0 <= i < 512 ==> Entry(s'.mem, t, i) == Entry(s.mem, t, i))
      && (forall j :: 0 <= j < |s.mem| && !(f <= j < f + FRAME_SIZE) ==> s'.mem[j] == s.mem[j])
      && s'.mem[f..f + FRAME_SIZE] == Zeros(FRAME_SIZE)
  {
    hide RegionOk, ChainOk, Partition, KernelFramesOk, TablesOk, Entry, Aligned, Blit, Zeros;
    var f := NextFrame(s);
    AllocInRange(s);
    AllocValid(s);
    ClientWrite(Alloc(s), f, f, Zeros(FRAME_SIZE));
    ZeroFrame(s.mem, f);
  }

  lemma DeallocValid(s: State, f: nat)
    requires Valid(s) && Freeable(s, f)
    ensures Valid(Dealloc(s, f))
    ensures FreeCount(Dealloc(s, f)) == FreeCount(s) + 1
    ensures HasFrame(Dealloc(s, f)) && NextFrame(Dealloc(s, f)) == f
  {
    var s' := Dealloc(s, f);
    assert Valid(s') by {
      hide RegionOk, ChainOk, Partition, TablesOk, Aligned, Word64, Blit, Encode, EntryOk;
      var w := LinkWord(s.chain, 0);
      assert f + FRAME_SIZE <= |s.mem| by { OwnedBelow(s, f); }
      assert s'.mem == Blit(s.mem, f, Encode(w, 8));
      ClientWrite(s, f, f, Encode(w, 8));
      DeallocChain(s, f);
      DeallocPartition(s, f);
      OwnerShrinks(s.(mem := s'.mem), s', f);
      assert RegionOk(s') by { assert RegionOk(s.(mem := s'.mem)); RegionCongruent(s.(mem := s'.mem), s'); }
    }
  }

  lemma RegionCongruent(s: State, s': State)
    requires RegionOk(s) && s'.first == s.first && s'.next == s.next && s'.end == s.end && |s'.mem| == |s.mem|
    ensures RegionOk(s')
  {
  }

  lemma DeallocChain(s: State, f: nat)
    requires Valid(s) && Freeable(s, f)
    ensures ChainOk(Dealloc(s, f))
  {
    hide TablesOk, KernelFramesOk, Aligned, Word64, Put64, LinkWord;
    var s' := Dealloc(s, f);
    assert Aligned(f) && s.first <= f < s.next;
    assert forall i :: 0 < i < |s'.chain| ==> s'.chain[i] == s.chain[i - 1];
    forall i | 0 <= i < |s'.chain| ensures Word64(s'.mem, s'.chain[i]) == LinkWord(s'.chain, i + 1) {
      LinkWordShift(f, s.chain, i);
      if i == 0 {
        Put64Same(s.mem, f, LinkWord(s.chain, 0));
      } else {
        var c := s.chain[i - 1];
        FramesApart(f, c);
        PutElsewhere(s.mem, f, LinkWord(s.chain, 0), c);
        assert Word64(s.mem, c) == LinkWord(s.chain, i);
      }
    }
  }

  lemma LinkWordShift(f: nat, chain: seq<nat>, i: nat)
    ensures LinkWord([f] + chain, i + 1) == LinkWord(chain, i)
  {
  }

  lemma PutElsewhere(m: Mem, a: nat, w: Word, b: nat)
    requires a + 8 <= |m| && (b + 8 <= a || a + 8 <= b)
    ensures Word64(Put64(m, a, w), b) == Word64(m, b)
  {
    hide Word64, Encode, Blit;
    BlitWord(m, a, Encode(w, 8), b);
  }

  lemma DeallocPartition(s: State, f: nat)
    requires Valid(s) && Freeable(s, f)
    ensures Partition(Dealloc(s, f))
  {
    hide TablesOk, ChainOk, Aligned, Put64;
    var s' := Dealloc(s, f);
    assert s'.chain[0] == f && s'.chain[1..] == s.chain;
    forall g: nat | Aligned(g) && s'.first <= g < s'.next && g !in s'.chain ensures g in s'.owner {
      assert g !in s.chain && g != f;
    }
  }

  lemma OwnerShrinks(s: State, s': State, f: nat)
    requires TablesOk(s) && f in s.owner && Level(s.owner[f]) == 0
    requires s'.mem == s.mem && s'.k == s.k && s'.owner == s.owner - {f}
    ensures TablesOk(s')
  {
    hide Entry;
    forall t, i | t in s'.owner && 0 <= i < 512 ensures EntryOk(s'.k, s'.owner, t, i, Entry(s'.mem, t, i)) {
      assert EntryOk(s.k, s.owner, t, i, Entry(s.mem, t, i));
    }
  }

  // ----- the kernel's functions -----

  /** Rounds the bounds inwards to whole frames and empties the free list. */
  method InitFrameAllocator(k: Machine, fmStart: Word, fmEnd: Word)
    requires fmStart + 0xfff < 0x1_0000_0000_0000_0000
    modifies k
    ensures k.freelist == 0 && k.chain == []
    ensures k.freememStart == LinearAddressToPtr((fmStart + 0xfff) / 0x1000 * 0x1000)
    ensures k.freememEnd == LinearAddressToPtr(fmEnd / 0x1000 * 0x1000)
    ensures k.first == k.freememStart - LINEAR_START
    ensures k.owner == old(k.owner)
  {
    k.freememStart := LinearAddressToPtr((fmStart + 0xfff) / 0x1000 * 0x1000);
    k.freememEnd := LinearAddressToPtr(fmEnd / 0x1000 * 0x1000);
    k.freelist := 0;
    k.chain := [];
    k.first := k.freememStart - LINEAR_START;
  }

  /** The value of `freelist` and `nextFreePage` for a list of frames. */
  lemma ListHead(s: State)
    requires Valid(s)
    ensures LinkWord(s.chain, 0) == 0 <==> s.chain == []
    ensures s.chain != [] ==>
              && LinkWord(s.chain, 0) == LINEAR_START + s.chain[0] && s.chain[0] + 8 <= |s.mem|
              && Word64(s.mem, s.chain[0]) == LinkWord(s.chain[1..], 0)
  {
    hide Aligned, TablesOk, Partition, KernelFramesOk, Word64, LinearAddressToPtr;
    if s.chain != [] {
      var c := s.chain[0];
      assert Aligned(c) && s.first <= c < s.next;
      FramesApart(c, s.end);
      FramePointer(c);
      assert Word64(s.mem, s.chain[0]) == LinkWord(s.chain, 1);
    }
  }

  lemma FramePointer(f: Word)
    requires 0 < f < SIZE_512G
    ensures LinearAddressToPtr(f) == LINEAR_START + f
    ensures PointerToLinearAddress(LINEAR_START + f) == Some(f)
  {
  }

  /** The list head, if any, points into memory, and the bump pointer into the linear map. */
  ghost predicate Callable(k: Machine)
    reads k
  {
    && (k.freelist != 0 ==> LINEAR_START <= k.freelist && k.freelist - LINEAR_START + 8 <= k.ram.Length)
    && LINEAR_START <= k.freememStart <= LINEAR_END
  }

  lemma ReadyCallable(k: Machine)
    requires k.Ready()
    ensures Callable(k)
  {
    hide RegionOk, ChainOk, Partition, KernelFramesOk, TablesOk, LinkWord, Word64;
    ListHead(k.S());
    RegionLimit(k.S());
  }

  /** Pops the free list, else bumps; ok is false where the kernel panics. Whatever the
      globals are, this is what it does to them; in a valid state it is `Alloc`. */
  method FrameAllocInternal(k: Machine) returns (ok: bool, ptr: Word)
    requires Callable(k)
    modifies k
    ensures ok <==> old(k.freelist) != 0 || old(k.freememStart) != old(k.freememEnd)
    ensures ok ==> ptr == if old(k.freelist) != 0 then old(k.freelist) else old(k.freememStart)
    ensures k.freelist ==
            if old(k.freelist) != 0 then Word64(k.ram[..], old(k.freelist) - LINEAR_START) else old(k.freelist)
    ensures k.freememStart == old(k.freememStart) + (if ok && old(k.freelist) == 0 then FRAME_SIZE else 0)
    ensures k.freememEnd == old(k.freememEnd) && k.first == old(k.first)
    ensures old(k.Ready()) ==>
              && k.Ready() && (ok <==> HasFrame(old(k.S()))) && (!ok ==> k.S() == old(k.S()))
              && (ok ==> k.S() == Alloc(old(k.S())) && ptr == LINEAR_START + NextFrame(old(k.S())))
  {
    hide RegionOk, ChainOk, Partition, KernelFramesOk, TablesOk, LinkWord, Word64;
    ghost var s, ready := k.S(), k.Ready();
    if ready {
      ListHead(s);
      RegionLimit(s);
      if HasFrame(s) {
        AllocInRange(s);
        AllocValid(s);
      }
    }
    if k.freelist != 0 {
      var freePage := k.freelist;
      k.freelist := Klib.Load64(k.ram, freePage - LINEAR_START);
      k.owner := k.owner[freePage - LINEAR_START := Data];
      k.chain := if k.chain == [] then [] else k.chain[1..];
      assert ready ==> k.S() == Alloc(s);
      return true, freePage;
    }
    if k.freememStart == k.freememEnd {
      return false, 0;
    }
    ptr := k.freememStart;
    k.freememStart := k.freememStart + FRAME_SIZE;
    k.owner := k.owner[ptr - LINEAR_START := Data];
    assert ready ==> k.S() == Alloc(s);
    ok := true;
  }

  lemma RegionLimit(s: State)
    requires Valid(s)
    ensures 0 < s.first <= s.next <= s.end <= SIZE_512G && s.end <= |s.mem|
  {
    hide ChainOk, Partition, KernelFramesOk, TablesOk, Aligned;
  }

  method FrameAlloc(k: Machine) returns (ok: bool, frame: nat)
    requires k.Ready()
    modifies k
    ensures k.Ready()
    ensures ok <==> HasFrame(old(k.S()))
    ensures !ok ==> k.S() == old(k.S())
    ensures ok ==> k.S() == Alloc(old(k.S())) && frame == NextFrame(old(k.S()))
  {
    hide RegionOk, ChainOk, Partition, KernelFramesOk, TablesOk, LinkWord;
    ghost var s := k.S();
    var ptr;
    ReadyCallable(k);
    ok, ptr := FrameAllocInternal(k);
    frame := 0;
    if ok {
      AllocInRange(s);
      RegionLimit(s);
      FramePointer(NextFrame(s));
      frame := PointerToLinearAddress(ptr).value;
    }
  }

  method FrameAllocZero(k: Machine) returns (ok: bool, frame: nat)
    requires k.Ready()
    modifies k, k.ram
    ensures k.Ready()
    ensures ok <==> HasFrame(old(k.S()))
    ensures !ok ==> k.S() == old(k.S())
    ensures ok ==> k.S() == AllocZeroed(old(k.S())) && frame == NextFrame(old(k.S()))
  {
    hide RegionOk, ChainOk, Partition, KernelFramesOk, TablesOk, LinkWord;
    ghost var s := k.S();
    var ptr;
    ReadyCallable(k);
    ok, ptr := FrameAllocInternal(k);
    frame := 0;
    if ok {
      hide Blit;
      AllocZeroedValid(s);
      RegionLimit(s);
      FramePointer(NextFrame(s));
      Klib.Memset(k.ram, ptr - LINEAR_START, 0, 0x1000);
      assert seq(0x1000, _ => 0) == Zeros(FRAME_SIZE);
      assert k.S() == AllocZeroed(s);
      frame := PointerToLinearAddress(ptr).value;
    }
  }

  /** Gives back a frame that holds no table. */
  method FrameDealloc(k: Machine, frame: Word)
    requires k.Ready() && Freeable(k.S(), frame)
    modifies k, k.ram
    ensures k.Ready() && k.S() == Dealloc(old(k.S()), frame)
  {
    hide RegionOk, ChainOk, Partition, KernelFramesOk, TablesOk, LinkWord, Put64;
    ghost var s := k.S();
    DeallocValid(s, frame);
    OwnedBelow(s, frame);
    FramePointer(frame);
    var freePage := LinearAddressToPtr(frame);
    Klib.Store64(k.ram, freePage - LINEAR_START, k.freelist);
    k.freelist := freePage;
    k.chain := [frame] + k.chain;
    k.owner := k.owner - {frame};
    assert k.S() == Dealloc(s, frame);
    ListHead(k.S());
  }
}
