/** Physical memory as a sequence of bytes, and the little-endian words the
    kernel reads and writes in it. */
module Bytes {

  const FRAME_SIZE: nat := 0x1000

  type Byte = b: int | 0 <= b < 0x100
  type Word = w: int | 0 <= w < 0x1_0000_0000_0000_0000
  type Mem = seq<Byte>

  function Pow256(n: nat): (p: nat)
    ensures p > 0
  {
    if n == 0 then 1 else 256 * Pow256(n - 1)
  }

  /** The number whose little-endian bytes are `bs`. */
  function Decode(bs: seq<Byte>): (v: nat)
    ensures v < Pow256(|bs|)
  {
    if bs == [] then 0 else bs[0] + 256 * Decode(bs[1..])
  }

  /** The `n` low little-endian bytes of `v`. */
  function Encode(v: nat, n: nat): (bs: seq<Byte>)
    ensures |bs| == n
  {
    if n == 0 then [] else [v % 256] + Encode(v / 256, n - 1)
  }

  lemma {:induction false} DecodeEncode(v: nat, n: nat)
    requires v < Pow256(n)
    ensures Decode(Encode(v, n)) == v
  {
    if n > 0 {
      DecodeEncode(v / 256, n - 1);
      assert Encode(v, n)[1..] == Encode(v / 256, n - 1);
    }
  }

  /** The lowest byte comes first: what follows `n` bytes counts 256 to the `n` times. */
  lemma {:induction false} LowBytesFirst(low: seq<Byte>, high: seq<Byte>)
    ensures Decode(low + high) == Decode(low) + Pow256(|low|) * Decode(high)
    ensures |low| == 1 ==> Decode(low) == low[0]
  {
    if low == [] {
      assert low + high == high;
    } else {
      assert (low + high)[1..] == low[1..] + high;
      assert Decode(low + high) == low[0] + 256 * Decode(low[1..] + high);
      assert Decode(low) == low[0] + 256 * Decode(low[1..]);
      assert Pow256(|low|) == 256 * Pow256(|low| - 1);
      assert |low| == 1 ==> Decode(low[1..]) == 0;
      hide Decode, Pow256;
      LowBytesFirst(low[1..], high);
      Shifted(Pow256(|low| - 1), Decode(high));
    }
  }

  lemma Shifted(p: nat, d: nat)
    ensures 256 * (p * d) == (256 * p) * d
  {
  }

  lemma Pow256Of8()
    ensures Pow256(8) == 0x1_0000_0000_0000_0000
    ensures Pow256(4) == 0x1_0000_0000
    ensures Pow256(2) == 0x1_0000
  {
    assert Pow256(2) == 0x1_0000;
    assert Pow256(4) == 256 * 256 * Pow256(2);
    assert Pow256(6) == 256 * 256 * Pow256(4);
    assert Pow256(8) == 256 * 256 * Pow256(6);
  }

  function Zeros(n: nat): (bs: seq<Byte>)
    ensures |bs| == n
    ensures forall i :: 0 <= i < n ==> bs[i] == 0
  {
    seq(n, _ => 0)
  }

  lemma {:induction false} DecodeZeros(bs: seq<Byte>)
    requires forall i :: 0 <= i < |bs| ==> bs[i] == 0
    ensures Decode(bs) == 0
  {
    if bs != [] {
      DecodeZeros(bs[1..]);
    }
  }

  /** `m` with `bs` written from address `a` on. */
  function Blit(m: Mem, a: nat, bs: seq<Byte>): (r: Mem)
    requires a + |bs| <= |m|
    ensures |r| == |m|
    ensures forall j :: 0 <= j < a || a + |bs| <= j < |m| ==> r[j] == m[j]
    ensures r[a..a + |bs|] == bs
  {
    m[..a] + bs + m[a + |bs|..]
  }

  lemma BlitElsewhere(m: Mem, a: nat, bs: seq<Byte>, b: nat, n: nat)
    requires a + |bs| <= |m| && b + n <= |m|
    requires b + n <= a || a + |bs| <= b
    ensures Blit(m, a, bs)[b..b + n] == m[b..b + n]
  {
  }

  /** The little-endian number in `n` bytes at `a`. */
  function Number(m: Mem, a: nat, n: nat): (v: nat)
    ensures v < Pow256(n)
  {
    if a + n <= |m| then Decode(m[a..a + n]) else 0
  }

  /** The 64-bit word at address `a`; addresses outside the memory read as 0. */
  function Word64(m: Mem, a: nat): Word {
    Pow256Of8();
    if a + 8 <= |m| then Decode(m[a..a + 8]) else 0
  }

  function Put64(m: Mem, a: nat, w: Word): (r: Mem)
    requires a + 8 <= |m|
    ensures |r| == |m|
  {
    Blit(m, a, Encode(w, 8))
  }

  lemma Put64Same(m: Mem, a: nat, w: Word)
    requires a + 8 <= |m|
    ensures Word64(Put64(m, a, w), a) == w
  {
    Pow256Of8();
    DecodeEncode(w, 8);
  }

  /** A word outside the bytes that changed keeps its value. */
  lemma BlitWord(m: Mem, a: nat, bs: seq<Byte>, b: nat)
    requires a + |bs| <= |m|
    requires b + 8 <= a || a + |bs| <= b
    ensures Word64(Blit(m, a, bs), b) == Word64(m, b)
  {
    if b + 8 <= |m| {
      BlitElsewhere(m, a, bs, b, 8);
    }
  }

  lemma Put64Put64(m: Mem, a: nat, v: Word, w: Word)
    requires a + 8 <= |m|
    ensures Put64(Put64(m, a, v), a, w) == Put64(m, a, w)
  {
  }

  lemma SameBytesSameWord(m: Mem, m': Mem, a: nat)
    requires |m| == |m'|
    requires forall j :: a <= j < a + 8 && j < |m| ==> m[j] == m'[j]
    ensures Word64(m, a) == Word64(m', a)
  {
    if a + 8 <= |m| {
      assert m[a..a + 8] == m'[a..a + 8];
    }
  }
}
