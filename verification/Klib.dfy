/** memset, memcpy, strlen, and word access to physical memory. */
module Klib {
  import opened Bytes

  method Load64(ram: array<Byte>, a: nat) returns (w: Word)
    requires a + 8 <= ram.Length
    ensures w == Word64(ram[..], a)
  {
    Pow256Of8();
    w := Decode(ram[a..a + 8]);
    assert ram[..][a..a + 8] == ram[a..a + 8];
  }

  method Store(ram: array<Byte>, a: nat, bs: seq<Byte>)
    requires a + |bs| <= ram.Length
    modifies ram
    ensures ram[..] == Blit(old(ram[..]), a, bs)
  {
    var i := 0;
    while i < |bs|
      invariant 0 <= i <= |bs|
      invariant ram[..] == Blit(old(ram[..]), a, bs[..i])
    {
      ram[a + i] := bs[i];
      i := i + 1;
      assert bs[..i] == bs[..i - 1] + [bs[i - 1]];
    }
    assert bs[..i] == bs;
  }

  method Store64(ram: array<Byte>, a: nat, w: Word)
    requires a + 8 <= ram.Length
    modifies ram
    ensures ram[..] == Put64(old(ram[..]), a, w)
  {
    Store(ram, a, Encode(w, 8));
  }

  /** Sets one flag of the page-table entry at `a`. */
  method SetFlag(ram: array<Byte>, a: nat, flag: Word)
    requires a + 8 <= ram.Length && (flag == 1 || flag == 2 || flag == 4 || flag == 128)
    modifies ram
    ensures var w := Word64(old(ram[..]), a);
            ram[..] == Put64(old(ram[..]), a, if w / flag % 2 == 1 then w else w + flag)
  {
    var w := Load64(ram, a);
    var v := if w / flag % 2 == 1 then w else w + flag;
    Store64(ram, a, v);
  }

  method ClearFlag(ram: array<Byte>, a: nat, flag: Word)
    requires a + 8 <= ram.Length && (flag == 1 || flag == 2 || flag == 4 || flag == 128)
    modifies ram
    ensures var w := Word64(old(ram[..]), a);
            ram[..] == Put64(old(ram[..]), a, if w / flag % 2 == 1 then w - flag else w)
  {
    var w := Load64(ram, a);
    Store64(ram, a, if w / flag % 2 == 1 then w - flag else w);
  }

  method Memset(ram: array<Byte>, dest: nat, value: Byte, n: nat)
    requires dest + n <= ram.Length
    modifies ram
    ensures ram[..] == Blit(old(ram[..]), dest, seq(n, _ => value))
  {
    var i := 0;
    while i < n
      invariant 0 <= i <= n
      invariant ram[..] == Blit(old(ram[..]), dest, seq(i, _ => value))
    {
      ram[dest + i] := value;
      i := i + 1;
    }
  }

  /** Byte-wise forward copy between ranges that do not overlap. */
  method Memcpy(ram: array<Byte>, dest: nat, src: nat, n: nat)
    requires dest + n <= ram.Length && src + n <= ram.Length
    requires dest + n <= src || src + n <= dest
    modifies ram
    ensures ram[..] == Blit(old(ram[..]), dest, old(ram[..])[src..src + n])
  {
    var i := 0;
    while i < n
      invariant 0 <= i <= n
      invariant forall j :: 0 <= j < ram.Length ==>
                  ram[j] == if dest <= j < dest + i then old(ram[src + (j - dest)]) else old(ram[j])
    {
      ram[dest + i] := ram[src + i];
      i := i + 1;
    }
  }

  /** A NUL-terminated string of length `n` starts at `s`. */
  ghost predicate StringAt(m: Mem, s: nat, n: nat) {
    s + n < |m| && m[s + n] == 0 && forall i :: s <= i < s + n ==> m[i] != 0
  }

  method Strlen(ram: array<Byte>, s: nat) returns (n: nat)
    requires exists e :: s <= e < ram.Length && ram[e] == 0
    ensures StringAt(ram[..], s, n)
  {
    ghost var e :| s <= e < ram.Length && ram[e] == 0;
    var end := s;
    while ram[end] != 0
      invariant s <= end <= e
      invariant forall i :: s <= i < end ==> ram[i] != 0
      decreases e - end
    {
      end := end + 1;
    }
    n := end - s;
  }
}
