/** The machine the kernel runs on: physical memory, the link-time position of the
    static tables, and the globals of the frame allocator. An access the kernel
    makes through a linear-map pointer is an access to the physical address the
    pointer maps to. */
module Machines {
  import opened Bytes
  import opened Paging
  import opened Ownership

  class Machine {
    const ram: array<Byte>
    const k: Layout
    var freememStart: Word  // pointers into the linear map, as in the kernel
    var freememEnd: Word
    var freelist: Word
    ghost var first: int        // where the allocator's region began
    ghost var chain: seq<nat>   // the frames on the free list
    ghost var owner: Owner

    constructor (bytes: array<Byte>, k: Layout)
      ensures ram == bytes && this.k == k
      ensures freememStart == freememEnd == freelist == 0
      ensures chain == [] && owner == map[]
    {
      ram, this.k := bytes, k;
      freememStart, freememEnd, freelist := 0, 0, 0;
      first, chain, owner := 0, [], map[];
    }

    ghost function S(): State
      reads this, ram
    {
      State(ram[..], k, first, freememStart - LINEAR_START, freememEnd - LINEAR_START, chain, owner)
    }

    ghost predicate Ready()
      reads this, ram
    {
      Valid(S()) && freelist == LinkWord(chain, 0)
    }
  }

  /** The kernel converts exactly the pointers under root entry 256, and those of the 1G
      under entries 511 and 510, but for the first byte of each; any other it panics on. */
  lemma PointerIff(ptr: Word)
    requires Canonical(ptr)
    ensures PointerToLinearAddress(ptr).Some? <==>
            (PathOf(ptr).i4 == 256 && ptr != LINEAR_START)
            || (PathOf(ptr).i4 == 511 && PathOf(ptr).i3 == 510 && ptr != KERNEL_BASE)
  {
    AddressOfPath(ptr);
    PathDigits(ptr);
  }

  /** The linear map inverts on exactly the addresses it covers, except 0. */
  lemma LinearRoundTrip(a: Word)
    ensures PointerToLinearAddress(LinearAddressToPtr(a)) == Some(a) <==> 0 < a < SIZE_512G
  {
    if a < SIZE_512G {
      assert LinearAddressToPtr(a) == LINEAR_START + a;
    }
  }
}
