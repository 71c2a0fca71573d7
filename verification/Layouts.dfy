/** Packed structures: numbers of given widths one after another in memory, as the file
    formats and boot tables the kernel reads define them. */
module Layouts {
  import opened Bytes

  /** A number of `width` bytes. */
  datatype Item = Item(value: nat, width: nat) {
    ghost predicate Fits() { value < Pow256(width) }
  }

  function Packed(items: seq<Item>): seq<Byte> {
    if items == [] then []
    else var last := items[|items| - 1]; Packed(items[..|items| - 1]) + Encode(last.value, last.width)
  }

  /** Where item `i` starts. */
  function Offset(items: seq<Item>, i: nat): nat
    requires i <= |items|
  {
    if i == 0 then 0 else Offset(items, i - 1) + items[i - 1].width
  }

  ghost predicate PackedAt(m: Mem, a: nat, items: seq<Item>) {
    && a + |Packed(items)| <= |m| && m[a..a + |Packed(items)|] == Packed(items)
    && forall i :: 0 <= i < |items| ==> items[i].Fits()
  }

  lemma {:induction false} OffsetPrefix(items: seq<Item>, n: nat, i: nat)
    requires i <= n <= |items|
    ensures Offset(items[..n], i) == Offset(items, i)
  {
    if i > 0 {
      OffsetPrefix(items, n, i - 1);
    }
  }

  lemma {:induction false} PackedSize(items: seq<Item>)
    ensures |Packed(items)| == Offset(items, |items|)
  {
    if items != [] {
      var n := |items| - 1;
      PackedSize(items[..n]);
      OffsetPrefix(items, n, n);
    }
  }

  /** Each item is read back where it starts. */
  lemma {:induction false} ReadItem(m: Mem, a: nat, items: seq<Item>, i: nat)
    requires PackedAt(m, a, items) && i < |items|
    ensures Number(m, a + Offset(items, i), items[i].width) == items[i].value
  {
    hide Encode, Decode;
    var n := |items| - 1;
    var front, last := items[..n], items[n];
    PackedSize(front);
    OffsetPrefix(items, n, n);
    var b := a + |Packed(front)|;
    if i == n {
      assert m[b..b + last.width] == m[a..a + |Packed(items)|][|Packed(front)|..];
      DecodeEncode(last.value, last.width);
    } else {
      assert m[a..b] == m[a..a + |Packed(items)|][..|Packed(front)|];
      ReadItem(m, a, front, i);
      OffsetPrefix(items, n, i);
    }
  }
}
