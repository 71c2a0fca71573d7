/** src/scancodes.c and `processScancode` of src/keyboard.c: bytes of PS/2 scan code
    set 2 to USB key events, presses positive and releases negative. */
module Scancodes {
  import opened Bytes
  import opened Keys

  /** Keys announced by one byte. */
  function SingleKey(b: int): int {
    match b
    case 0x01 => KEY_F9
    case 0x03 => KEY_F5
    case 0x04 => KEY_F3
    case 0x05 => KEY_F1
    case 0x06 => KEY_F2
    case 0x07 => KEY_F12
    case 0x09 => KEY_F10
    case 0x0A => KEY_F8
    case 0x0B => KEY_F6
    case 0x0C => KEY_F4
    case 0x0D => KEY_TAB
    case 0x0E => KEY_GRAVE
    case 0x11 => KEY_MOD_LALT
    case 0x12 => KEY_MOD_LSHIFT
    case 0x14 => KEY_MOD_LCTRL
    case 0x15 => KEY_Q
    case 0x16 => KEY_1
    case 0x1A => KEY_Z
    case 0x1B => KEY_S
    case 0x1C => KEY_A
    case 0x1D => KEY_W
    case 0x1E => KEY_2
    case 0x21 => KEY_C
    case 0x22 => KEY_X
    case 0x23 => KEY_D
    case 0x24 => KEY_E
    case 0x25 => KEY_4
    case 0x26 => KEY_3
    case 0x29 => KEY_SPACE
    case 0x2A => KEY_V
    case 0x2B => KEY_F
    case 0x2C => KEY_T
    case 0x2D => KEY_R
    case 0x2E => KEY_5
    case 0x31 => KEY_N
    case 0x32 => KEY_B
    case 0x33 => KEY_H
    case 0x34 => KEY_G
    case 0x35 => KEY_Y
    case 0x36 => KEY_6
    case 0x3A => KEY_M
    case 0x3B => KEY_J
    case 0x3C => KEY_U
    case 0x3D => KEY_7
    case 0x3E => KEY_8
    case 0x41 => KEY_COMMA
    case 0x42 => KEY_K
    case 0x43 => KEY_I
    case 0x44 => KEY_O
    case 0x45 => KEY_0
    case 0x46 => KEY_9
    case 0x49 => KEY_DOT
    case 0x4A => KEY_SLASH
    case 0x4B => KEY_L
    case 0x4C => KEY_SEMICOLON
    case 0x4D => KEY_P
    case 0x4E => KEY_MINUS
    case 0x52 => KEY_APOSTROPHE
    case 0x54 => KEY_LEFTBRACE
    case 0x55 => KEY_EQUAL
    case 0x58 => KEY_CAPSLOCK
    case 0x59 => KEY_RIGHTSHIFT
    case 0x5A => KEY_ENTER
    case 0x5B => KEY_RIGHTBRACE
    case 0x5D => KEY_BACKSLASH
    case 0x66 => KEY_BACKSPACE
    case 0x69 => KEY_KP1
    case 0x6B => KEY_KP4
    case 0x6C => KEY_KP7
    case 0x70 => KEY_KP0
    case 0x71 => KEY_KPDOT
    case 0x72 => KEY_KP2
    case 0x73 => KEY_KP5
    case 0x74 => KEY_KP6
    case 0x75 => KEY_KP8
    case 0x76 => KEY_ESC
    case 0x77 => KEY_NUMLOCK
    case 0x78 => KEY_F11
    case 0x79 => KEY_KPPLUS
    case 0x7A => KEY_KP3
    case 0x7B => KEY_KPMINUS
    case 0x7C => KEY_KPASTERISK
    case 0x7D => KEY_KP9
    case 0x7E => KEY_SCROLLLOCK
    case 0x83 => KEY_F7
    case _ => KEY_NONE
  }

  /** Keys announced by a byte after E0. */
  function ExtendedKey(b: int): int {
    match b
    case 0x10 => KEY_MEDIA_WWW
    case 0x11 => KEY_RIGHTALT
    case 0x14 => KEY_RIGHTCTRL
    case 0x15 => KEY_MEDIA_PREVIOUSSONG
    case 0x1F => KEY_LEFTMETA
    case 0x20 => KEY_MEDIA_REFRESH
    case 0x21 => KEY_MEDIA_VOLUMEDOWN
    case 0x23 => KEY_MEDIA_MUTE
    case 0x27 => KEY_RIGHTMETA
    case 0x28 => KEY_MEDIA_STOP
    case 0x2B => KEY_MEDIA_CALC
    case 0x2F => KEY_COMPOSE
    case 0x30 => KEY_MEDIA_FORWARD
    case 0x32 => KEY_MEDIA_VOLUMEUP
    case 0x34 => KEY_MEDIA_PLAYPAUSE
    case 0x37 => KEY_POWER
    case 0x38 => KEY_MEDIA_BACK
    case 0x3B => KEY_MEDIA_STOPCD
    case 0x3F => KEY_MEDIA_SLEEP
    case 0x4A => KEY_KPSLASH
    case 0x4D => KEY_MEDIA_NEXTSONG
    case 0x5A => KEY_KPENTER
    case 0x5E => KEY_MEDIA_COFFEE
    case 0x69 => KEY_END
    case 0x6B => KEY_LEFT
    case 0x6C => KEY_HOME
    case 0x70 => KEY_INSERT
    case 0x71 => KEY_DELETE
    case 0x72 => KEY_DOWN
    case 0x74 => KEY_RIGHT
    case 0x75 => KEY_UP
    case 0x7A => KEY_PAGEDOWN
    case 0x7D => KEY_PAGEUP
    case _ => KEY_NONE
  }

  // ----- the decoder -----

  datatype Decoded = Decoded(usb: int, buffer: Word)

  /** Prefixes of one byte that wait for more. */
  predicate FirstPrefix(code: int) { code == 0xE0 || code == 0xE1 || code == 0xF0 }

  /** Prefixes after E0 that wait for more. */
  predicate ExtendedPrefix(code: int) { code == 0xE0F0 || code == 0xE07C || code == 0xE012 }

  /** Longer prefixes, of Print Screen and Pause. */
  predicate LongPrefix(code: int) {
    code == 0xE012E0 || code == 0xE07CE0 || code == 0xE07CE0F0 || code == 0xE114 || code == 0xE11477
    || code == 0xE11477E1 || code == 0xE11477E1F0 || code == 0xE11477E1F014 || code == 0xE11477E1F014F0
  }

  /** What `ps2Set2ToUsb` returns and leaves in the buffer for each buffer content. */
  function ToUsb(code: Word): (d: Decoded)
    decreases code
  {
    var high, low := code / 0x100, code % 0x100;
    if high == 0 then Decoded(SingleKey(code), if FirstPrefix(code) then code else 0)
    else if high == 0xE0 then Decoded(ExtendedKey(low), if ExtendedPrefix(code) then code else 0)
    else if high == 0xE0F0 then var d := ToUsb(0xE000 + low); Decoded(-d.usb, d.buffer)
    else if high == 0xF0 then var d := ToUsb(low); Decoded(-d.usb, d.buffer)
    else if code == 0xE012E07C then Decoded(KEY_SYSRQ, 0)
    else if code == 0xE07CE0F012 then Decoded(-KEY_SYSRQ, 0)
    else if code == 0xE11477E1F014F077 then Decoded(KEY_PAUSE, 0)
    else Decoded(KEY_NONE, if LongPrefix(code) then code else 0)
  }

  /** The buffer after one more byte is shifted in; the top byte is lost. */
  function Shift(buffer: Word, b: Byte): Word { (buffer * 0x100 + b) % 0x1_0000_0000_0000_0000 }

  /** Events and buffer after one byte: the drain loop stops at the first 0. */
  function FeedByte(buffer: Word, b: Byte): (seq<int>, Word) {
    var d := ToUsb(Shift(buffer, b));
    (if d.usb == 0 then [] else [d.usb], d.buffer)
  }

  function Feed(buffer: Word, bytes: seq<Byte>): (seq<int>, Word)
    decreases |bytes|
  {
    if bytes == [] then ([], buffer)
    else
      var (events, next) := FeedByte(buffer, bytes[0]);
      var (more, last) := Feed(next, bytes[1..]);
      (events + more, last)
  }

  class Keyboard {
    var codeBuffer: Word
    var events: seq<int>  // what processUsbCode was called with

    constructor ()
      ensures codeBuffer == 0 && events == []
    {
      codeBuffer, events := 0, [];
    }

    /** Clears the buffer, decodes what was in it, and puts an unfinished prefix back;
        a release is the negated decoding of the press. */
    method Ps2Set2ToUsb() returns (usb: int)
      modifies this`codeBuffer
      ensures Decoded(usb, codeBuffer) == ToUsb(old(codeBuffer))
      decreases codeBuffer
    {
      var code := codeBuffer;
      codeBuffer := 0;
      var high := code / 0x100;
      if high == 0 {
        if FirstPrefix(code) {
          codeBuffer := code;
        }
        return SingleKey(code);
      } else if high == 0xE0 {
        if ExtendedPrefix(code) {
          codeBuffer := code;
        }
        return ExtendedKey(code % 0x100);
      } else if high == 0xE0F0 {
        codeBuffer := code % 0x100 + 0xE000;
        usb := Ps2Set2ToUsb();
        return -usb;
      } else if high == 0xF0 {
        codeBuffer := code % 0x100;
        usb := Ps2Set2ToUsb();
        return -usb;
      } else if code == 0xE012E07C {
        return KEY_SYSRQ;
      } else if code == 0xE07CE0F012 {
        return -KEY_SYSRQ;
      } else if code == 0xE11477E1F014F077 {
        return KEY_PAUSE;
      } else if LongPrefix(code) {
        codeBuffer := code;
      }
      return KEY_NONE;
    }

    /** Shifts a byte in and drains the decoder, which takes at most two calls. */
    method ProcessScancode(scanCode: Byte) returns (ghost calls: nat)
      modifies this
      ensures var (new', next) := FeedByte(old(codeBuffer), scanCode);
              events == old(events) + new' && codeBuffer == next
      ensures calls <= 2
    {
      hide ToUsb;
      codeBuffer := (codeBuffer * 0x100) % 0x1_0000_0000_0000_0000;
      codeBuffer := (codeBuffer + scanCode) % 0x1_0000_0000_0000_0000;
      ShiftSum(old(codeBuffer), scanCode);
      ghost var d := ToUsb(codeBuffer);
      NonzeroClears(codeBuffer);
      NonzeroClears(0);
      EmptyDecodes();
      var usbCode := Ps2Set2ToUsb();
      calls := 1;
      while usbCode != 0
        invariant Decoded(usbCode, codeBuffer) == if calls == 1 then d else Decoded(0, 0)
        invariant calls == 1 || (calls == 2 && d.usb != 0)
        invariant events == old(events) + if calls == 1 then [] else [d.usb]
        decreases 2 - calls
      {
        events := events + [usbCode];
        usbCode := Ps2Set2ToUsb();
        calls := calls + 1;
      }
    }

    method ProcessAll(bytes: seq<Byte>)
      modifies this
      ensures var (new', next) := Feed(old(codeBuffer), bytes);
              events == old(events) + new' && codeBuffer == next
    {
      hide FeedByte;
      ghost var buffer := codeBuffer;
      var i := 0;
      while i < |bytes|
        invariant 0 <= i <= |bytes|
        invariant events == old(events) + Feed(buffer, bytes[..i]).0 && codeBuffer == Feed(buffer, bytes[..i]).1
      {
        ghost var calls := ProcessScancode(bytes[i]);
        FeedAppend(buffer, bytes[..i], [bytes[i]]);
        assert bytes[..i + 1] == bytes[..i] + [bytes[i]];
        FeedOne(codeBuffer, bytes[i]);
        FeedOne(Feed(buffer, bytes[..i]).1, bytes[i]);
        i := i + 1;
      }
      assert bytes[..i] == bytes;
    }
  }

  lemma ShiftSum(buffer: Word, b: Byte)
    ensures ((buffer * 0x100) % 0x1_0000_0000_0000_0000 + b) % 0x1_0000_0000_0000_0000 == Shift(buffer, b)
  {
    var m := 0x1_0000_0000_0000_0000;
    var q, r := buffer / 0x100_0000_0000_0000, buffer % 0x100_0000_0000_0000;
    assert buffer * 0x100 == q * m + r * 0x100;
    assert (buffer * 0x100) % m == r * 0x100;
    assert (buffer * 0x100 + b) % m == r * 0x100 + b;
  }

  lemma FeedOne(buffer: Word, b: Byte)
    ensures Feed(buffer, [b]) == FeedByte(buffer, b)
  {
    hide FeedByte;
    var (events, next) := FeedByte(buffer, b);
    assert Feed(next, []) == ([], next);
    assert [b][1..] == [] && events + [] == events;
  }

  lemma {:induction false} FeedAppend(buffer: Word, xs: seq<Byte>, ys: seq<Byte>)
    ensures var (e1, b1) := Feed(buffer, xs); var (e2, b2) := Feed(b1, ys);
            Feed(buffer, xs + ys) == (e1 + e2, b2)
    decreases |xs|
  {
    hide FeedByte;
    if xs == [] {
      assert xs + ys == ys;
      assert [] + Feed(buffer, ys).0 == Feed(buffer, ys).0;
    } else {
      var (events, next) := FeedByte(buffer, xs[0]);
      FeedAppend(next, xs[1..], ys);
      assert (xs + ys)[1..] == xs[1..] + ys;
      var (e1, b1) := Feed(next, xs[1..]);
      assert events + (e1 + Feed(b1, ys).0) == events + e1 + Feed(b1, ys).0;
    }
  }

  lemma EmptyDecodes()
    ensures ToUsb(0) == Decoded(0, 0)
  {
  }

  /** A nonzero result leaves the buffer empty. */
  lemma {:induction false} NonzeroClears(code: Word)
    ensures ToUsb(code).usb != 0 ==> ToUsb(code).buffer == 0
    decreases code
  {
    var high, low := code / 0x100, code % 0x100;
    if high == 0xE0F0 {
      NonzeroClears(0xE000 + low);
    } else if high == 0xF0 {
      NonzeroClears(low);
    }
  }

  // ----- messages -----

  /** What a keyboard sends: make and break codes of plain and extended keys, Print
      Screen's and Pause's sequences. */
  datatype Message =
    | Make(b: Byte) | Break(b: Byte) | ExtendedMake(b: Byte) | ExtendedBreak(b: Byte)
    | PrintMake | PrintBreak | Pause

  /** Key bytes that are not prefixes themselves. */
  ghost predicate WellFormed(m: Message) {
    match m
    case Make(b) => b != 0xE0 && b != 0xE1 && b != 0xF0
    case Break(b) => b != 0xE0 && b != 0xE1 && b != 0xF0
    case ExtendedMake(b) => b != 0xF0 && b != 0x7C && b != 0x12
    case ExtendedBreak(b) => b != 0xF0 && b != 0x7C && b != 0x12
    case _ => true
  }

  function BytesOf(m: Message): seq<Byte> {
    match m
    case Make(b) => [b]
    case Break(b) => [0xF0, b]
    case ExtendedMake(b) => [0xE0, b]
    case ExtendedBreak(b) => [0xE0, 0xF0, b]
    case PrintMake => [0xE0, 0x12, 0xE0, 0x7C]
    case PrintBreak => [0xE0, 0xF0, 0x7C, 0xE0, 0xF0, 0x12]
    case Pause => [0xE1, 0x14, 0x77, 0xE1, 0xF0, 0x14, 0xF0, 0x77]
  }

  /** The signed key a message stands for, 0 for a key without a code. */
  function KeyOf(m: Message): int {
    match m
    case Make(b) => SingleKey(b)
    case Break(b) => -SingleKey(b)
    case ExtendedMake(b) => ExtendedKey(b)
    case ExtendedBreak(b) => -ExtendedKey(b)
    case PrintMake => KEY_SYSRQ
    case PrintBreak => -KEY_SYSRQ
    case Pause => KEY_PAUSE
  }

  function Meaning(m: Message): seq<int> { if KeyOf(m) == 0 then [] else [KeyOf(m)] }

  function AllBytes(ms: seq<Message>): seq<Byte> {
    if ms == [] then [] else BytesOf(ms[0]) + AllBytes(ms[1..])
  }

  function AllMeanings(ms: seq<Message>): seq<int> {
    if ms == [] then [] else Meaning(ms[0]) + AllMeanings(ms[1..])
  }

  // ----- the automaton -----

  /** The buffers at which the decoder can rest between bytes. */
  predicate Resting(buffer: int) {
    buffer == 0 || FirstPrefix(buffer) || ExtendedPrefix(buffer) || LongPrefix(buffer)
  }

  /** From a resting buffer every byte leads to a resting buffer, below 2^56, so that
      the next shift loses nothing. */
  lemma RestingClosed(buffer: Word, b: Byte)
    requires Resting(buffer)
    ensures Resting(FeedByte(buffer, b).1) && buffer < 0x100_0000_0000_0000 && Shift(buffer, b) == buffer * 0x100 + b
  {
    hide SingleKey, ExtendedKey;
    DecodeRests(Shift(buffer, b));
  }

  lemma {:induction false} DecodeRests(code: Word)
    ensures Resting(ToUsb(code).buffer)
    decreases code
  {
    hide SingleKey, ExtendedKey;
    var high, low := code / 0x100, code % 0x100;
    if high == 0xE0F0 {
      DecodeRests(0xE000 + low);
    } else if high == 0xF0 {
      DecodeRests(low);
    }
  }

  predicate Structural(b: Byte) {
    b == 0xE0 || b == 0xE1 || b == 0xF0 || b == 0x12 || b == 0x14 || b == 0x77 || b == 0x7C
  }

  /** Resynchronisation: any byte that occurs in no multi-byte code as a prefix part
      empties the buffer, whatever came before. */
  lemma Resynchronises(buffer: Word, b: Byte)
    requires Resting(buffer) && !Structural(b)
    ensures FeedByte(buffer, b).1 == 0
  {
    hide SingleKey, ExtendedKey;
    RestingClosed(buffer, b);
    var code := Shift(buffer, b);
    assert code / 0x100 == buffer && code % 0x100 == b;
    if buffer == 0xE0F0 {
      assert ToUsb(0xE000 + b).buffer == 0;
    } else if buffer == 0xF0 {
      assert ToUsb(b).buffer == 0;
    }
  }

  /** Those bytes only: each of the seven leaves some resting buffer non-empty. */
  lemma StructuralIff(b: Byte)
    ensures Structural(b) <==> exists buffer: Word :: Resting(buffer) && FeedByte(buffer, b).1 != 0
  {
    hide FeedByte, Resting;
    if Structural(b) {
      var buffer := StructuralLingers(b);
    } else {
      forall buffer: Word | Resting(buffer) ensures FeedByte(buffer, b).1 == 0 {
        Resynchronises(buffer, b);
      }
    }
  }

  lemma StructuralLingers(b: Byte) returns (buffer: Word)
    requires Structural(b)
    ensures Resting(buffer) && FeedByte(buffer, b).1 != 0
  {
    buffer := if FirstPrefix(b) then 0 else if b == 0x12 || b == 0x7C then 0xE0 else if b == 0x14 then 0xE1 else 0xE114;
    hide FeedByte;
    PrefixByte(buffer, b);
  }

  /** Every resting buffer is reached: by feeding its own bytes to an empty one. */
  lemma RestingReached(buffer: Word) returns (bytes: seq<Byte>)
    requires Resting(buffer)
    ensures Feed(0, bytes).1 == buffer
  {
    hide SingleKey, ExtendedKey;
    if buffer == 0 {
      return [];
    }
    var last: Byte := buffer % 0x100;
    var rest: Word := buffer / 0x100;
    assert Resting(rest);
    bytes := RestingReached(rest);
    FeedAppend(0, bytes, [last]);
    FeedOne(rest, last);
    RestingClosed(rest, last);
    assert Shift(rest, last) == buffer;
    if rest == 0xE0 || rest == 0 || rest == 0xF0 || rest == 0xE0F0 {
      assert ToUsb(buffer).buffer == buffer;
    }
    bytes := bytes + [last];
  }

  /** From an empty buffer the decoder only ever rests in the sixteen resting states. */
  lemma {:induction false} AlwaysResting(buffer: Word, bytes: seq<Byte>)
    requires Resting(buffer)
    ensures Resting(Feed(buffer, bytes).1)
    decreases |bytes|
  {
    hide Resting, FeedByte;
    if bytes != [] {
      RestingClosed(buffer, bytes[0]);
      AlwaysResting(FeedByte(buffer, bytes[0]).1, bytes[1..]);
    }
  }

  // ----- streams of messages -----

  /** One byte that only extends the prefix. */
  lemma PrefixByte(buffer: Word, b: Byte)
    requires Resting(buffer) && Resting(buffer * 0x100 + b) && buffer * 0x100 + b != 0
    requires buffer != 0xE0F0 && buffer != 0xF0
    ensures buffer == 0 ==> SingleKey(b) == 0
    ensures buffer == 0xE0 ==> ExtendedKey(b) == 0
    ensures FeedByte(buffer, b) == ([], buffer * 0x100 + b)
  {
    RestingClosed(buffer, b);
  }

  lemma FeedTwo(buffer: Word, b: Byte, rest: seq<Byte>)
    ensures Feed(buffer, [b] + rest) == (FeedByte(buffer, b).0 + Feed(FeedByte(buffer, b).1, rest).0,
              Feed(FeedByte(buffer, b).1, rest).1)
  {
    hide FeedByte;
    FeedAppend(buffer, [b], rest);
    FeedOne(buffer, b);
  }

  /** A prefix byte, then the rest. */
  lemma FeedPrefix(buffer: Word, b: Byte, rest: seq<Byte>)
    requires Resting(buffer) && Resting(buffer * 0x100 + b) && buffer * 0x100 + b != 0
    requires buffer != 0xE0F0 && buffer != 0xF0
    ensures buffer * 0x100 + b < 0x1_0000_0000_0000_0000
    ensures Feed(buffer, [b] + rest) == Feed(buffer * 0x100 + b, rest)
  {
    hide FeedByte, SingleKey, ExtendedKey;
    PrefixByte(buffer, b);
    FeedTwo(buffer, b, rest);
    assert [] + Feed(buffer * 0x100 + b, rest).0 == Feed(buffer * 0x100 + b, rest).0;
  }

  lemma PlainCode(b: Byte)
    requires !FirstPrefix(b)
    ensures ToUsb(b) == Decoded(SingleKey(b), 0)
    ensures ToUsb(0xF000 + b) == Decoded(-SingleKey(b), 0)
  {
    hide SingleKey, ExtendedKey;
  }

  lemma ExtendedCode(b: Byte)
    requires !ExtendedPrefix(0xE000 + b)
    ensures ToUsb(0xE000 + b) == Decoded(ExtendedKey(b), 0)
    ensures ToUsb(0xE0F000 + b) == Decoded(-ExtendedKey(b), 0)
  {
    hide SingleKey, ExtendedKey;
  }

  /** The byte that completes a key's code. */
  lemma LastByte(m: Message)
    requires WellFormed(m)
    ensures m.Make? ==> FeedByte(0, m.b) == (Meaning(m), 0)
    ensures m.Break? ==> FeedByte(0xF0, m.b) == (Meaning(m), 0)
    ensures m.ExtendedMake? ==> FeedByte(0xE0, m.b) == (Meaning(m), 0)
    ensures m.ExtendedBreak? ==> FeedByte(0xE0F0, m.b) == (Meaning(m), 0)
  {
    hide SingleKey, ExtendedKey, ToUsb;
    if m.Make? || m.Break? {
      PlainCode(m.b);
    } else if m.ExtendedMake? || m.ExtendedBreak? {
      ExtendedCode(m.b);
    }
  }

  /** The byte that completes one of the long sequences. */
  lemma LastOfSequence()
    ensures FeedByte(0xE012E0, 0x7C) == ([KEY_SYSRQ], 0)
    ensures FeedByte(0xE07CE0F0, 0x12) == ([-KEY_SYSRQ], 0)
    ensures FeedByte(0xE11477E1F014F0, 0x77) == ([KEY_PAUSE], 0)
  {
    hide SingleKey, ExtendedKey;
  }

  /** One message from an empty buffer: its meaning, and the buffer empty again. */
  lemma MessageDecoded(m: Message)
    requires WellFormed(m)
    ensures Feed(0, BytesOf(m)) == (Meaning(m), 0)
  {
    hide FeedByte, SingleKey, ExtendedKey, Feed;
    LastByte(m);
    LastOfSequence();
    match m {
      case Make(b) =>
        FeedOne(0, b);
      case Break(b) =>
        FeedPrefix(0, 0xF0, [b]);
        assert [0xF0] + [b] == BytesOf(m);
        FeedOne(0xF0, b);
      case ExtendedMake(b) =>
        FeedPrefix(0, 0xE0, [b]);
        assert [0xE0] + [b] == BytesOf(m);
        FeedOne(0xE0, b);
      case ExtendedBreak(b) =>
        FeedPrefix(0, 0xE0, [0xF0, b]);
        FeedPrefix(0xE0, 0xF0, [b]);
        FeedOne(0xE0F0, b);
        assert [0xE0] + [0xF0, b] == BytesOf(m) && [0xF0] + [b] == [0xF0, b];
      case PrintMake =>
        assert [0xE0] + [0x12, 0xE0, 0x7C] == [0xE0, 0x12, 0xE0, 0x7C];
        assert [0x12] + [0xE0, 0x7C] == [0x12, 0xE0, 0x7C];
        assert [0xE0] + [0x7C] == [0xE0, 0x7C];
        FeedPrefix(0, 0xE0, [0x12, 0xE0, 0x7C]);
        FeedPrefix(0xE0, 0x12, [0xE0, 0x7C]);
        FeedPrefix(0xE012, 0xE0, [0x7C]);
        FeedOne(0xE012E0, 0x7C);
      case PrintBreak =>
        assert [0xE0] + [0xF0, 0x7C, 0xE0, 0xF0, 0x12] == [0xE0, 0xF0, 0x7C, 0xE0, 0xF0, 0x12];
        assert [0xF0] + [0x7C, 0xE0, 0xF0, 0x12] == [0xF0, 0x7C, 0xE0, 0xF0, 0x12];
        assert [0x7C] + [0xE0, 0xF0, 0x12] == [0x7C, 0xE0, 0xF0, 0x12];
        assert [0xE0] + [0xF0, 0x12] == [0xE0, 0xF0, 0x12];
        assert [0xF0] + [0x12] == [0xF0, 0x12];
        FeedPrefix(0, 0xE0, [0xF0, 0x7C, 0xE0, 0xF0, 0x12]);
        FeedPrefix(0xE0, 0xF0, [0x7C, 0xE0, 0xF0, 0x12]);
        BreakToPrint();
        FeedTwo(0xE0F0, 0x7C, [0xE0, 0xF0, 0x12]);
        FeedPrefix(0xE07C, 0xE0, [0xF0, 0x12]);
        FeedPrefix(0xE07CE0, 0xF0, [0x12]);
        FeedOne(0xE07CE0F0, 0x12);
        assert [] + Meaning(m) == Meaning(m);
      case Pause =>
        assert [0xE1] + [0x14, 0x77, 0xE1, 0xF0, 0x14, 0xF0, 0x77] == [0xE1, 0x14, 0x77, 0xE1, 0xF0, 0x14, 0xF0, 0x77];
        assert [0x14] + [0x77, 0xE1, 0xF0, 0x14, 0xF0, 0x77] == [0x14, 0x77, 0xE1, 0xF0, 0x14, 0xF0, 0x77];
        assert [0x77] + [0xE1, 0xF0, 0x14, 0xF0, 0x77] == [0x77, 0xE1, 0xF0, 0x14, 0xF0, 0x77];
        assert [0xE1] + [0xF0, 0x14, 0xF0, 0x77] == [0xE1, 0xF0, 0x14, 0xF0, 0x77];
        assert [0xF0] + [0x14, 0xF0, 0x77] == [0xF0, 0x14, 0xF0, 0x77];
        assert [0x14] + [0xF0, 0x77] == [0x14, 0xF0, 0x77];
        assert [0xF0] + [0x77] == [0xF0, 0x77];
        FeedPrefix(0, 0xE1, [0x14, 0x77, 0xE1, 0xF0, 0x14, 0xF0, 0x77]);
        FeedPrefix(0xE1, 0x14, [0x77, 0xE1, 0xF0, 0x14, 0xF0, 0x77]);
        FeedPrefix(0xE114, 0x77, [0xE1, 0xF0, 0x14, 0xF0, 0x77]);
        FeedPrefix(0xE11477, 0xE1, [0xF0, 0x14, 0xF0, 0x77]);
        FeedPrefix(0xE11477E1, 0xF0, [0x14, 0xF0, 0x77]);
        FeedPrefix(0xE11477E1F0, 0x14, [0xF0, 0x77]);
        FeedPrefix(0xE11477E1F014, 0xF0, [0x77]);
        FeedOne(0xE11477E1F014F0, 0x77);
    }
  }

  /** The re-entrant case inside Print Screen's break: E0 F0 7C is kept as E0 7C. */
  lemma BreakToPrint()
    ensures FeedByte(0xE0F0, 0x7C) == ([], 0xE07C)
  {
    assert Shift(0xE0F0, 0x7C) == 0xE0F07C;
    assert ToUsb(0xE07C) == Decoded(0, 0xE07C);
  }

  /** One that is not well formed leaves a prefix behind. */
  lemma MalformedLingers(m: Message)
    requires !WellFormed(m)
    ensures Feed(0, BytesOf(m)).1 != 0
  {
    hide SingleKey, ExtendedKey, Feed, FeedByte, ToUsb;
    match m {
      case Make(b) =>
        FeedOne(0, b);
        PrefixByte(0, b);
      case Break(b) =>
        FeedPrefix(0, 0xF0, [b]);
        assert [0xF0] + [b] == BytesOf(m);
        FeedOne(0xF0, b);
        ReleasedPrefix(0xF0, b, b);
      case ExtendedMake(b) =>
        FeedPrefix(0, 0xE0, [b]);
        assert [0xE0] + [b] == BytesOf(m);
        FeedOne(0xE0, b);
        PrefixByte(0xE0, b);
      case ExtendedBreak(b) =>
        FeedPrefix(0, 0xE0, [0xF0, b]);
        FeedPrefix(0xE0, 0xF0, [b]);
        FeedOne(0xE0F0, b);
        assert [0xE0] + [0xF0, b] == BytesOf(m) && [0xF0] + [b] == [0xF0, b];
        ReleasedPrefix(0xE0F0, b, 0xE000 + b);
    }
  }

  /** A prefix byte after F0 is taken as a prefix again. */
  lemma ReleasedPrefix(buffer: Word, b: Byte, kept: Word)
    requires (buffer == 0xF0 && kept == b && FirstPrefix(b))
             || (buffer == 0xE0F0 && kept == 0xE000 + b && ExtendedPrefix(kept))
    ensures FeedByte(buffer, b).1 == kept
  {
    hide SingleKey, ExtendedKey;
    var code := Shift(buffer, b);
    assert code / 0x100 == buffer && code % 0x100 == b;
    hide Shift;
    PrefixKept(kept);
    assert ToUsb(code).buffer == ToUsb(kept).buffer;
  }

  lemma PrefixKept(code: Word)
    requires FirstPrefix(code) || ExtendedPrefix(code)
    ensures ToUsb(code).buffer == code
  {
    hide SingleKey, ExtendedKey;
  }

  /** So a message means what it should, on its own and for what follows, exactly if its
      key byte is no prefix. */
  lemma DecodedIffWellFormed(m: Message)
    ensures Feed(0, BytesOf(m)) == (Meaning(m), 0) <==> WellFormed(m)
  {
    hide WellFormed, Feed, BytesOf, Meaning;
    if WellFormed(m) {
      MessageDecoded(m);
    } else {
      MalformedLingers(m);
    }
  }

  /** Streaming decode: the bytes of any sequence of messages, fed one at a time, yield
      exactly the messages' meanings in order, and leave the buffer empty. */
  lemma {:induction false} StreamDecoded(ms: seq<Message>)
    requires forall m :: m in ms ==> WellFormed(m)
    ensures Feed(0, AllBytes(ms)) == (AllMeanings(ms), 0)
  {
    hide BytesOf, Meaning, WellFormed;
    if ms != [] {
      StreamDecoded(ms[1..]);
      MessageDecoded(ms[0]);
      FeedAppend(0, BytesOf(ms[0]), AllBytes(ms[1..]));
    }
  }

  // ----- what an event identifies -----

  /** The one-byte code of a key, 0 if it has none; for the value that left Alt and A
      share, A's. */
  function SingleOf(key: int): int {
    match key
    case 0x01 => 0x14
    case 0x02 => 0x12
    case 0x04 => 0x1C
    case 0x05 => 0x32
    case 0x06 => 0x21
    case 0x07 => 0x23
    case 0x08 => 0x24
    case 0x09 => 0x2B
    case 0x0a => 0x34
    case 0x0b => 0x33
    case 0x0c => 0x43
    case 0x0d => 0x3B
    case 0x0e => 0x42
    case 0x0f => 0x4B
    case 0x10 => 0x3A
    case 0x11 => 0x31
    case 0x12 => 0x44
    case 0x13 => 0x4D
    case 0x14 => 0x15
    case 0x15 => 0x2D
    case 0x16 => 0x1B
    case 0x17 => 0x2C
    case 0x18 => 0x3C
    case 0x19 => 0x2A
    case 0x1a => 0x1D
    case 0x1b => 0x22
    case 0x1c => 0x35
    case 0x1d => 0x1A
    case 0x1e => 0x16
    case 0x1f => 0x1E
    case 0x20 => 0x26
    case 0x21 => 0x25
    case 0x22 => 0x2E
    case 0x23 => 0x36
    case 0x24 => 0x3D
    case 0x25 => 0x3E
    case 0x26 => 0x46
    case 0x27 => 0x45
    case 0x28 => 0x5A
    case 0x29 => 0x76
    case 0x2a => 0x66
    case 0x2b => 0x0D
    case 0x2c => 0x29
    case 0x2d => 0x4E
    case 0x2e => 0x55
    case 0x2f => 0x54
    case 0x30 => 0x5B
    case 0x31 => 0x5D
    case 0x33 => 0x4C
    case 0x34 => 0x52
    case 0x35 => 0x0E
    case 0x36 => 0x41
    case 0x37 => 0x49
    case 0x38 => 0x4A
    case 0x39 => 0x58
    case 0x3a => 0x05
    case 0x3b => 0x06
    case 0x3c => 0x04
    case 0x3d => 0x0C
    case 0x3e => 0x03
    case 0x3f => 0x0B
    case 0x40 => 0x83
    case 0x41 => 0x0A
    case 0x42 => 0x01
    case 0x43 => 0x09
    case 0x44 => 0x78
    case 0x45 => 0x07
    case 0x47 => 0x7E
    case 0x53 => 0x77
    case 0x55 => 0x7C
    case 0x56 => 0x7B
    case 0x57 => 0x79
    case 0x59 => 0x69
    case 0x5a => 0x72
    case 0x5b => 0x7A
    case 0x5c => 0x6B
    case 0x5d => 0x73
    case 0x5e => 0x74
    case 0x5f => 0x6C
    case 0x60 => 0x75
    case 0x61 => 0x7D
    case 0x62 => 0x70
    case 0x63 => 0x71
    case 0xe5 => 0x59
    case _ => 0
  }

  /** The byte after E0 for a key, 0 if it has no such code. */
  function ExtendedOf(key: int): int {
    match key
    case 0x49 => 0x70
    case 0x4a => 0x6C
    case 0x4b => 0x7D
    case 0x4c => 0x71
    case 0x4d => 0x69
    case 0x4e => 0x7A
    case 0x4f => 0x74
    case 0x50 => 0x6B
    case 0x51 => 0x72
    case 0x52 => 0x75
    case 0x54 => 0x4A
    case 0x58 => 0x5A
    case 0x65 => 0x2F
    case 0x66 => 0x37
    case 0xe3 => 0x1F
    case 0xe4 => 0x14
    case 0xe6 => 0x11
    case 0xe7 => 0x27
    case 0xe8 => 0x34
    case 0xe9 => 0x3B
    case 0xea => 0x15
    case 0xeb => 0x4D
    case 0xed => 0x32
    case 0xee => 0x21
    case 0xef => 0x23
    case 0xf0 => 0x10
    case 0xf1 => 0x38
    case 0xf2 => 0x30
    case 0xf3 => 0x28
    case 0xf8 => 0x3F
    case 0xf9 => 0x5E
    case 0xfa => 0x20
    case 0xfb => 0x2B
    case _ => 0
  }

  lemma SingleInverse(b: int)
    requires SingleKey(b) != 0 && b != 0x11
    ensures SingleOf(SingleKey(b)) == b && 0 < SingleKey(b) < 0x100 && SingleKey(b) != KEY_SYSRQ
    ensures SingleKey(b) != KEY_PAUSE
  {
  }

  lemma ExtendedInverse(b: int)
    requires ExtendedKey(b) != 0
    ensures ExtendedOf(ExtendedKey(b)) == b
    ensures 0 < ExtendedKey(b) < 0x100 && ExtendedKey(b) != KEY_SYSRQ && ExtendedKey(b) != KEY_PAUSE
  {
  }

  /** The USB codes that have a one-byte scan code. */
  predicate SingleUsage(k: int) {
    k == 0x01 || k == 0x02 || 0x04 <= k <= 0x31 || 0x33 <= k <= 0x45 || k == 0x47 || k == 0x53
    || 0x55 <= k <= 0x57 || 0x59 <= k <= 0x63 || k == 0xe5
  }

  /** The USB codes that have a scan code after E0. */
  predicate ExtendedUsage(k: int) {
    0x49 <= k <= 0x52 || k == 0x54 || k == 0x58 || k == 0x65 || k == 0x66 || k == 0xe3 || k == 0xe4
    || 0xe6 <= k <= 0xeb || 0xed <= k <= 0xf3 || 0xf8 <= k <= 0xfb
  }

  lemma SingleCovers(k: int)
    ensures SingleOf(k) != 0 <==> SingleUsage(k)
    ensures SingleUsage(k) ==> SingleKey(SingleOf(k)) == k && 0 < SingleOf(k) < 0x84
  {
  }

  lemma ExtendedCovers(k: int)
    ensures ExtendedOf(k) != 0 <==> ExtendedUsage(k)
    ensures ExtendedUsage(k) ==>
              && ExtendedKey(ExtendedOf(k)) == k && 0 < ExtendedOf(k) < 0x80
              && ExtendedOf(k) != 0x7C && ExtendedOf(k) != 0x12
  {
  }

  /** Exactly the listed codes are produced by one byte, each by one byte alone, except
      that 0x11 (left Alt) produces the code of A as well. */
  lemma SingleTable(b: int, k: int)
    requires k != 0
    ensures SingleKey(b) == k <==> (SingleUsage(k) && b == SingleOf(k)) || (b == 0x11 && k == 0x04)
    ensures SingleOf(0x04) == 0x1C
  {
    assert SingleKey(0x11) == 0x04 && SingleOf(0x04) == 0x1C;
    hide SingleKey, SingleOf, SingleUsage;
    SingleCovers(k);
    if SingleKey(b) == k && b != 0x11 {
      SingleInverse(b);
      SingleZero();
    }
  }

  lemma SingleZero()
    ensures SingleKey(0) == 0
  {
  }

  lemma ExtendedTable(b: int, k: int)
    requires k != 0
    ensures ExtendedKey(b) == k <==> ExtendedUsage(k) && b == ExtendedOf(k)
  {
    assert ExtendedKey(0) == 0;
    hide ExtendedKey, ExtendedOf, ExtendedUsage;
    ExtendedCovers(k);
    if ExtendedKey(b) == k {
      ExtendedInverse(b);
    }
  }

  lemma TablesDisjoint1(b: int)
    requires ExtendedKey(b) != 0 && b < 0x21
    ensures SingleOf(ExtendedKey(b)) == 0
  {
  }

  lemma TablesDisjoint2(b: int)
    requires ExtendedKey(b) != 0 && 0x21 <= b && b < 0x34
    ensures SingleOf(ExtendedKey(b)) == 0
  {
  }

  lemma TablesDisjoint3(b: int)
    requires ExtendedKey(b) != 0 && 0x34 <= b && b < 0x5E
    ensures SingleOf(ExtendedKey(b)) == 0
  {
  }

  lemma TablesDisjoint4(b: int)
    requires ExtendedKey(b) != 0 && 0x5E <= b
    ensures SingleOf(ExtendedKey(b)) == 0
  {
  }

  /** No key has both a plain and an extended code. */
  lemma TablesDisjoint(b: int)
    requires ExtendedKey(b) != 0
    ensures SingleOf(ExtendedKey(b)) == 0
  {
    hide ExtendedKey, SingleOf;
    if b < 0x21 { TablesDisjoint1(b); }
    else if b < 0x34 { TablesDisjoint2(b); }
    else if b < 0x5E { TablesDisjoint3(b); }
    else { TablesDisjoint4(b); }
  }

  predicate IsPress(m: Message) { m.Make? || m.ExtendedMake? || m.PrintMake? || m.Pause? }

  /** The press an event stands for. */
  function PressOf(key: int): Message {
    if key == KEY_SYSRQ then PrintMake
    else if key == KEY_PAUSE then Pause
    else if 0 < SingleOf(key) < 0x100 then Make(SingleOf(key))
    else if 0 < ExtendedOf(key) < 0x100 then ExtendedMake(ExtendedOf(key))
    else Make(0)
  }

  lemma PressIdentified(m: Message)
    requires IsPress(m) && KeyOf(m) != 0
    ensures PressOf(KeyOf(m)) == if m == Make(0x11) then Make(0x1C) else m
  {
    match m {
      case Make(b) =>
        if b == 0x11 {
          assert SingleOf(SingleKey(0x11)) == 0x1C;
        } else {
          hide SingleKey, SingleOf;
          SingleInverse(b);
          assert b != 0 by { NoKeyZero(); }
        }
      case ExtendedMake(b) =>
        hide ExtendedKey, ExtendedOf, SingleOf;
        ExtendedInverse(b);
        TablesDisjoint(b);
        assert b != 0 by { NoKeyZero(); }
      case _ =>
    }
  }

  lemma NoKeyZero()
    ensures SingleKey(0) == 0 && ExtendedKey(0) == 0
  {
  }

  /** The press of the key that message is about. */
  function PressFor(m: Message): Message {
    match m
    case Break(b) => Make(b)
    case ExtendedBreak(b) => ExtendedMake(b)
    case PrintBreak => PrintMake
    case _ => m
  }

  /** Presses emit positive codes, releases the negated code of the press. */
  lemma ReleaseNegates(m: Message)
    ensures IsPress(PressFor(m)) && KeyOf(PressFor(m)) >= 0
    ensures KeyOf(m) == if IsPress(m) then KeyOf(PressFor(m)) else -KeyOf(PressFor(m))
  {
    var p := PressFor(m);
    match p {
      case Make(b) =>
        assert SingleKey(0x11) > 0;
        hide SingleKey;
        if b != 0x11 && SingleKey(b) != 0 { SingleInverse(b); }
      case ExtendedMake(b) =>
        hide ExtendedKey;
        if ExtendedKey(b) != 0 { ExtendedInverse(b); }
      case _ =>
    }
  }

  /** An event identifies the key, and whether it was pressed or released, with one
      exception in the tables: left Alt (11) is given a modifier mask that is also the
      code of A (1C). */
  lemma EventIdentifiesKey(m: Message, m': Message)
    requires KeyOf(m) != 0
    ensures KeyOf(m) == KeyOf(m') <==>
            m == m' || (IsPress(m) == IsPress(m') && AltOrA(PressFor(m)) && AltOrA(PressFor(m')))
  {
    ReleaseNegates(m);
    ReleaseNegates(m');
    hide KeyOf;
    PressIdentifiesKey(PressFor(m), PressFor(m'));
  }

  lemma PressIdentifiesKey(m: Message, m': Message)
    requires IsPress(m) && IsPress(m') && KeyOf(m) != 0
    ensures KeyOf(m) == KeyOf(m') <==> m == m' || (AltOrA(m) && AltOrA(m'))
  {
    PressIdentified(m);
    if KeyOf(m) == KeyOf(m') {
      hide SingleKey, ExtendedKey;
      PressIdentified(m');
    }
    assert SingleKey(0x11) == SingleKey(0x1C);
  }

  /** Every code a key can have, and the message that announces it pressed. */
  predicate Usage(k: int) { SingleUsage(k) || ExtendedUsage(k) || k == 0x46 || k == 0x48 }

  /** No key is dead: exactly these codes are ever emitted, and for each there is a message
      whose bytes emit it, and nothing else. */
  lemma EveryKeyHasItsMessage(k: int)
    requires k > 0
    ensures Usage(k) <==> exists m :: KeyOf(m) == k
    ensures Usage(k) ==> KeyOf(PressOf(k)) == k && Feed(0, BytesOf(PressOf(k))) == ([k], 0)
  {
    if Usage(k) {
      UsagePressed(k);
    }
    hide SingleKey, ExtendedKey, SingleUsage, ExtendedUsage, SingleOf, ExtendedOf, Feed, BytesOf, PressOf, Meaning;
    if Usage(k) {
      DecodedIffWellFormed(PressOf(k));
      assert Meaning(PressOf(k)) == [k] by { MeaningIs(PressOf(k)); }
    }
    if m :| KeyOf(m) == k {
      KeyHasUsage(m);
    }
  }

  lemma MeaningIs(m: Message)
    ensures KeyOf(m) != 0 ==> Meaning(m) == [KeyOf(m)]
  {
  }

  lemma UsagePressed(k: int)
    requires Usage(k)
    ensures KeyOf(PressOf(k)) == k && WellFormed(PressOf(k))
  {
    hide SingleKey, ExtendedKey, SingleOf, ExtendedOf;
    SingleCovers(k);
    ExtendedCovers(k);
  }

  lemma KeyHasUsage(m: Message)
    requires KeyOf(m) > 0
    ensures Usage(KeyOf(m))
  {
    hide SingleKey, ExtendedKey, SingleOf, ExtendedOf, SingleUsage, ExtendedUsage;
    ReleaseNegates(m);
    match m {
      case Make(b) => SingleTable(b, KeyOf(m)); assert SingleUsage(0x04) by { FirstUsage(); }
      case ExtendedMake(b) => ExtendedTable(b, KeyOf(m));
      case _ =>
    }
  }

  lemma FirstUsage()
    ensures SingleUsage(0x04)
  {
  }

  predicate AltOrA(m: Message) { m == Make(0x11) || m == Make(0x1C) }
}
