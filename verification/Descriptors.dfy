/** src/arch/x86_64/gdt.c `init_gdt`: the segments a task can run on, and what a selector
    and a flags word mean to the processor (Intel SDM volume 3A, sections 2.3 and 3.4). */
module Descriptors {
  import opened Bytes

  /** A descriptor of the table; `kind` is its four type bits. */
  datatype Descriptor =
    | Null
    | Segment(kind: nat, privilege: nat, longMode: bool, operationSize: bool)

  /** src/arch/x86_64/gdt.c `init_segment_descriptor`: code is 64-bit, data is not. */
  function SegmentDescriptor(kind: nat, privilege: nat): Descriptor {
    Segment(kind, privilege, kind / 8 % 2 == 1, kind / 8 % 2 == 0)
  }

  const DATA_RW: nat := 2
  const CODE_XR: nat := 10

  /** The table as `init_gdt` leaves it, before the descriptor of the task state segment. */
  function Table(): seq<Descriptor> {
    [Null,
     SegmentDescriptor(CODE_XR, 0),                                            // CS64
     SegmentDescriptor(DATA_RW, 0),                                            // DS
     SegmentDescriptor(CODE_XR, 0).(longMode := false, operationSize := true), // CS32U
     SegmentDescriptor(DATA_RW, 3),                                            // DSU
     SegmentDescriptor(CODE_XR, 3)]                                            // CS64U
  }

  /** A selector holds an index, the choice of table (0 is the global one) and the
      privilege level asked for. */
  function Index(selector: Word): nat { selector / 8 }
  predicate Global(selector: Word) { selector / 4 % 2 == 0 }
  function Privilege(selector: Word): nat { selector % 4 }

  /** The selector leads to 64-bit executable code that runs at privilege `ring`. */
  predicate SelectsCode(selector: Word, ring: nat) {
    && Global(selector) && Index(selector) < |Table()| && Privilege(selector) == ring
    && var d := Table()[Index(selector)];
       d.Segment? && d.kind / 8 % 2 == 1 && d.longMode && !d.operationSize && d.privilege == ring
  }

  /** The selector leads to writable data a stack at privilege `ring` can use. */
  predicate SelectsStack(selector: Word, ring: nat) {
    && Global(selector) && Index(selector) < |Table()| && Privilege(selector) == ring
    && var d := Table()[Index(selector)];
       d.Segment? && d.kind / 8 % 2 == 0 && d.kind / 2 % 2 == 1 && d.privilege == ring
  }

  /** Of all selectors one each leads to kernel code, kernel data, user code and user data. */
  lemma OnlySelectors(selector: Word)
    ensures SelectsCode(selector, 0) <==> selector == 0x08
    ensures SelectsStack(selector, 0) <==> selector == 0x10
    ensures SelectsCode(selector, 3) <==> selector == 0x2B
    ensures SelectsStack(selector, 3) <==> selector == 0x23
  {
    var i := Index(selector);
    assert selector == 8 * i + 4 * (selector / 4 % 2) + selector % 4;
  }

  predicate InterruptsOn(rflags: Word) { rflags / 0x200 % 2 == 1 }
  function IoPrivilege(rflags: Word): nat { rflags / 0x1000 % 4 }
  predicate Traps(rflags: Word) { rflags / 0x100 % 2 == 1 }

  /** No flag beyond the interrupt flag: string operations go upwards, no nested task, no
      virtual-8086 mode, no alignment checks; and the bit that is always 1. */
  predicate Plain(rflags: Word) { rflags < 0x400 && rflags / 2 % 2 == 1 }

  /** Registers with which the processor runs at privilege `ring`, can be interrupted, does
      not single-step and leaves ports to the kernel. */
  predicate RunsAt(cs: Word, ss: Word, rflags: Word, ring: nat) {
    && SelectsCode(cs, ring) && SelectsStack(ss, ring)
    && InterruptsOn(rflags) && !Traps(rflags) && IoPrivilege(rflags) == 0 && Plain(rflags)
  }
}
