/** USB HID usage codes of src/usb_hid_keys.h that the PS/2 decoder can produce. */
module Keys {
  const KEY_NONE: int := 0x00
  const KEY_MOD_LCTRL: int := 0x01
  const KEY_MOD_LSHIFT: int := 0x02
  const KEY_A: int := 0x04
  const KEY_MOD_LALT: int := 0x04
  const KEY_B: int := 0x05
  const KEY_C: int := 0x06
  const KEY_D: int := 0x07
  const KEY_E: int := 0x08
  const KEY_F: int := 0x09
  const KEY_G: int := 0x0a
  const KEY_H: int := 0x0b
  const KEY_I: int := 0x0c
  const KEY_J: int := 0x0d
  const KEY_K: int := 0x0e
  const KEY_L: int := 0x0f
  const KEY_M: int := 0x10
  const KEY_N: int := 0x11
  const KEY_O: int := 0x12
  const KEY_P: int := 0x13
  const KEY_Q: int := 0x14
  const KEY_R: int := 0x15
  const KEY_S: int := 0x16
  const KEY_T: int := 0x17
  const KEY_U: int := 0x18
  const KEY_V: int := 0x19
  const KEY_W: int := 0x1a
  const KEY_X: int := 0x1b
  const KEY_Y: int := 0x1c
  const KEY_Z: int := 0x1d
  const KEY_1: int := 0x1e
  const KEY_2: int := 0x1f
  const KEY_3: int := 0x20
  const KEY_4: int := 0x21
  const KEY_5: int := 0x22
  const KEY_6: int := 0x23
  const KEY_7: int := 0x24
  const KEY_8: int := 0x25
  const KEY_9: int := 0x26
  const KEY_0: int := 0x27
  const KEY_ENTER: int := 0x28
  const KEY_ESC: int := 0x29
  const KEY_BACKSPACE: int := 0x2a
  const KEY_TAB: int := 0x2b
  const KEY_SPACE: int := 0x2c
  const KEY_MINUS: int := 0x2d
  const KEY_EQUAL: int := 0x2e
  const KEY_LEFTBRACE: int := 0x2f
  const KEY_RIGHTBRACE: int := 0x30
  const KEY_BACKSLASH: int := 0x31
  const KEY_SEMICOLON: int := 0x33
  const KEY_APOSTROPHE: int := 0x34
  const KEY_GRAVE: int := 0x35
  const KEY_COMMA: int := 0x36
  const KEY_DOT: int := 0x37
  const KEY_SLASH: int := 0x38
  const KEY_CAPSLOCK: int := 0x39
  const KEY_F1: int := 0x3a
  const KEY_F2: int := 0x3b
  const KEY_F3: int := 0x3c
  const KEY_F4: int := 0x3d
  const KEY_F5: int := 0x3e
  const KEY_F6: int := 0x3f
  const KEY_F7: int := 0x40
  const KEY_F8: int := 0x41
  const KEY_F9: int := 0x42
  const KEY_F10: int := 0x43
  const KEY_F11: int := 0x44
  const KEY_F12: int := 0x45
  const KEY_SYSRQ: int := 0x46
  const KEY_SCROLLLOCK: int := 0x47
  const KEY_PAUSE: int := 0x48
  const KEY_INSERT: int := 0x49
  const KEY_HOME: int := 0x4a
  const KEY_PAGEUP: int := 0x4b
  const KEY_DELETE: int := 0x4c
  const KEY_END: int := 0x4d
  const KEY_PAGEDOWN: int := 0x4e
  const KEY_RIGHT: int := 0x4f
  const KEY_LEFT: int := 0x50
  const KEY_DOWN: int := 0x51
  const KEY_UP: int := 0x52
  const KEY_NUMLOCK: int := 0x53
  const KEY_KPSLASH: int := 0x54
  const KEY_KPASTERISK: int := 0x55
  const KEY_KPMINUS: int := 0x56
  const KEY_KPPLUS: int := 0x57
  const KEY_KPENTER: int := 0x58
  const KEY_KP1: int := 0x59
  const KEY_KP2: int := 0x5a
  const KEY_KP3: int := 0x5b
  const KEY_KP4: int := 0x5c
  const KEY_KP5: int := 0x5d
  const KEY_KP6: int := 0x5e
  const KEY_KP7: int := 0x5f
  const KEY_KP8: int := 0x60
  const KEY_KP9: int := 0x61
  const KEY_KP0: int := 0x62
  const KEY_KPDOT: int := 0x63
  const KEY_COMPOSE: int := 0x65
  const KEY_POWER: int := 0x66
  const KEY_LEFTMETA: int := 0xe3
  const KEY_RIGHTCTRL: int := 0xe4
  const KEY_RIGHTSHIFT: int := 0xe5
  const KEY_RIGHTALT: int := 0xe6
  const KEY_RIGHTMETA: int := 0xe7
  const KEY_MEDIA_PLAYPAUSE: int := 0xe8
  const KEY_MEDIA_STOPCD: int := 0xe9
  const KEY_MEDIA_PREVIOUSSONG: int := 0xea
  const KEY_MEDIA_NEXTSONG: int := 0xeb
  const KEY_MEDIA_VOLUMEUP: int := 0xed
  const KEY_MEDIA_VOLUMEDOWN: int := 0xee
  const KEY_MEDIA_MUTE: int := 0xef
  const KEY_MEDIA_WWW: int := 0xf0
  const KEY_MEDIA_BACK: int := 0xf1
  const KEY_MEDIA_FORWARD: int := 0xf2
  const KEY_MEDIA_STOP: int := 0xf3
  const KEY_MEDIA_SLEEP: int := 0xf8
  const KEY_MEDIA_COFFEE: int := 0xf9
  const KEY_MEDIA_REFRESH: int := 0xfa
  const KEY_MEDIA_CALC: int := 0xfb
}
