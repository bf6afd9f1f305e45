/**
 * Decoding of Win32 raw input (impl/win/win_window.hpp, impl/win/win_window.cpp):
 * the `raw_mouse` accessors over a `RAWMOUSE`, the `raw_keyboard` translation
 * of a `RAWKEYBOARD` into a scancode and a `keycode`, and the unpacking of the
 * `WM_MOUSEMOVE` parameter.
 *
 * The two `MapVirtualKey` lookups are calls into the operating system; they
 * are parameters of the translation here.
 */
module RawInput {
  import opened KeyCodes
  import opened MouseState

  // ---------------------------------------------------------------------------
  // Integer widths
  // ---------------------------------------------------------------------------

  /** `LONG`, a signed 32-bit integer. */
  type Long = x: int | -0x8000_0000 <= x < 0x8000_0000

  /** `static_cast<int16_t>`: keeps the low 16 bits, read as two's complement. */
  function ToInt16(v: int): (r: Coord)
    ensures (r - v) % 0x1_0000 == 0
    ensures -0x8000 <= v < 0x8000 ==> r == v
  {
    (v + 0x8000) % 0x1_0000 - 0x8000
  }

  // ---------------------------------------------------------------------------
  // raw_mouse
  // ---------------------------------------------------------------------------

  /** `RI_MOUSE_WHEEL`: the vertical wheel flag of `usButtonFlags`. */
  const RI_MOUSE_WHEEL: bv32 := 0x0400

  /**
   * The fields of a `RAWMOUSE` that `raw_mouse` reads. `ulButtons` overlays
   * `usButtonFlags` (its low word) and `usButtonData` (its high word).
   */
  datatype RawMouse = RawMouse(ulButtons: bv32, lastX: Long, lastY: Long) {
    function ButtonFlags(): bv16 {
      (ulButtons & 0xFFFF) as bv16
    }

    function ButtonData(): bv16 {
      (ulButtons >> 16) as bv16
    }
  }

  /** `raw_mouse::button_state`. */
  datatype Transition = NoChange | WentDown | WentUp

  /** The two flag bits of button `b`: `(usButtonFlags & 3 << 2b) >> 2b`. */
  function ButtonBits(m: RawMouse, b: nat): (r: bv16)
    requires b < 6
    ensures r < 4
  {
    var mask: bv16 := 3 << (2 * b);
    (m.ButtonFlags() & mask) >> (2 * b)
  }

  /**
   * `raw_mouse::operator[]`: the transition of button `b`. The source asserts
   * `b < 6` and that the two bits are not both set.
   */
  function ButtonTransition(m: RawMouse, b: nat): (r: Transition)
    requires b < 6 && ButtonBits(m, b) < 3
    ensures r == WentDown <==> m.ButtonFlags() & (1 << (2 * b)) != 0
    ensures r == WentUp <==> m.ButtonFlags() & (1 << (2 * b + 1)) != 0
  {
    var bits := ButtonBits(m, b);
    if bits == 0 then NoChange else if bits == 1 then WentDown else WentUp
  }

  /**
   * `has_movement`: either 32-bit delta is non-zero. Without movement both
   * 16-bit deltas are 0; the converse fails (see `MovementCanTruncateToZero`).
   */
  function HasMovement(m: RawMouse): (r: bool)
    ensures !r ==> X(m) == 0 && Y(m) == 0
  {
    m.lastX != 0 || m.lastY != 0
  }

  /** A movement of 2^16 units is reported, with both 16-bit deltas 0. */
  lemma MovementCanTruncateToZero()
    ensures var m := RawMouse(0, 0x1_0000, 0);
            HasMovement(m) && X(m) == 0 && Y(m) == 0
  {
  }

  /** `has_buttons`: some flag below `RI_MOUSE_WHEEL` is set, i.e. one of the five buttons reports a transition bit. */
  function HasButtons(m: RawMouse): (r: bool)
    ensures r <==> exists b | 0 <= b < BUTTON_COUNT :: ButtonBits(m, b) != 0
  {
    var f := m.ButtonFlags();
    assert m.ulButtons & (RI_MOUSE_WHEEL - 1) != 0 <==> f & 0x3FF != 0;
    assert f & 0x3FF == 0 <==>
      ButtonBits(m, 0) == 0 && ButtonBits(m, 1) == 0 && ButtonBits(m, 2) == 0 && ButtonBits(m, 3) == 0 && ButtonBits(m, 4) == 0;
    m.ulButtons & (RI_MOUSE_WHEEL - 1) != 0
  }

  /** `has_wheel`: the `RI_MOUSE_WHEEL` flag is set; it lies in `usButtonFlags`, the low word. */
  function HasWheel(m: RawMouse): (r: bool)
    ensures r <==> m.ButtonFlags() & 0x400 != 0
  {
    m.ulButtons & RI_MOUSE_WHEEL != 0
  }

  /** `wheel_delta`: `usButtonData` read as a signed 16-bit number. */
  function WheelDelta(m: RawMouse): (r: Coord)
    ensures (r - m.ButtonData() as int) % 0x1_0000 == 0
  {
    ToInt16(m.ButtonData() as int)
  }

  /** `x()`: the horizontal delta truncated to 16 bits. */
  function X(m: RawMouse): (r: Coord)
    ensures (r - m.lastX) % 0x1_0000 == 0
    ensures -0x8000 <= m.lastX < 0x8000 ==> r == m.lastX
  {
    ToInt16(m.lastX)
  }

  /** `y()`: the vertical delta truncated to 16 bits. */
  function Y(m: RawMouse): (r: Coord)
    ensures (r - m.lastY) % 0x1_0000 == 0
    ensures -0x8000 <= m.lastY < 0x8000 ==> r == m.lastY
  {
    ToInt16(m.lastY)
  }

  // ---------------------------------------------------------------------------
  // raw_keyboard
  // ---------------------------------------------------------------------------

  const RI_KEY_BREAK: bv16 := 0x01
  const RI_KEY_E0: bv16 := 0x02
  const RI_KEY_E1: bv16 := 0x04

  const VK_CLEAR: int := 0x0C
  const VK_RETURN: int := 0x0D
  const VK_SHIFT: int := 0x10
  const VK_CONTROL: int := 0x11
  const VK_MENU: int := 0x12
  const VK_PAUSE: int := 0x13
  const VK_SPACE: int := 0x20
  const VK_PRIOR: int := 0x21
  const VK_NEXT: int := 0x22
  const VK_END: int := 0x23
  const VK_HOME: int := 0x24
  const VK_LEFT: int := 0x25
  const VK_UP: int := 0x26
  const VK_RIGHT: int := 0x27
  const VK_DOWN: int := 0x28
  const VK_INSERT: int := 0x2D
  const VK_DELETE: int := 0x2E
  const VK_LWIN: int := 0x5B
  const VK_RWIN: int := 0x5C
  const VK_APPS: int := 0x5D
  const VK_NUMPAD0: int := 0x60
  const VK_NUMPAD2: int := 0x62
  const VK_NUMPAD4: int := 0x64
  const VK_NUMPAD6: int := 0x66
  const VK_NUMPAD8: int := 0x68
  const VK_NUMPAD9: int := 0x69
  const VK_F1: int := 0x70
  const VK_F24: int := 0x87
  const VK_NUMLOCK: int := 0x90
  const VK_LSHIFT: int := 0xA0
  const VK_RSHIFT: int := 0xA1
  const VK_LCONTROL: int := 0xA2
  const VK_RCONTROL: int := 0xA3
  const VK_LMENU: int := 0xA4
  const VK_RMENU: int := 0xA5

  /** The fields of a `RAWKEYBOARD` that `raw_keyboard` reads. */
  datatype KeyboardData = KeyboardData(makeCode: bv16, flags: bv16, vKey: bv16)

  /**
   * A decoded `raw_keyboard`. The accessors other than `IsValid` assert that
   * the record is valid.
   */
  datatype RawKeyboard = RawKeyboard(wentDownField: bool, isValidField: bool, keyField: Keycode, scancodeField: bv16) {
    predicate IsValid() {
      isValidField
    }

    function WentDown(): bool
      requires IsValid()
    {
      wentDownField
    }

    function Key(): Keycode
      requires IsValid()
    {
      keyField
    }

    function Scancode(): bv16
      requires IsValid()
    {
      scancodeField
    }
  }

  /** The member initialisers of `raw_keyboard`. */
  const DEFAULT_RAW_KEYBOARD: RawKeyboard := RawKeyboard(false, false, NONE, 0)

  predicate IsE0(kb: KeyboardData) {
    kb.flags & RI_KEY_E0 != 0
  }

  predicate IsE1(kb: KeyboardData) {
    kb.flags & RI_KEY_E1 != 0
  }

  /** The keys whose scancode comes from `MapVirtualKeyW(vkey, MAPVK_VK_TO_VSC) | 0x100`. */
  predicate IsMappedScanKey(vKey: int) {
    vKey == VK_NUMLOCK || vKey == VK_LWIN || vKey == VK_RWIN || vKey == VK_APPS
  }

  /**
   * The scancode lambda: the make code with bit 8 marking the E0 prefix;
   * pause is always 0x45, and numlock and the Windows and menu keys take the
   * looked-up code with bit 8 set, cut to 16 bits.
   */
  function KeyScancode(kb: KeyboardData, vkToScan: bv32 -> bv32): (r: bv16)
    ensures kb.vKey as int == VK_PAUSE ==> r == 0x45
    ensures kb.vKey as int != VK_PAUSE && !IsMappedScanKey(kb.vKey as int) ==>
              r | 0x100 == kb.makeCode | 0x100 && (r & 0x100 != 0 <==> IsE0(kb) || kb.makeCode & 0x100 != 0)
    ensures kb.vKey as int != VK_PAUSE && IsMappedScanKey(kb.vKey as int) ==>
              r as bv32 == (vkToScan(kb.vKey as bv32) | 0x100) & 0xFFFF && r & 0x100 != 0
  {
    var result := if IsE0(kb) then kb.makeCode | 0x100 else kb.makeCode;
    if kb.vKey as int == VK_PAUSE then 0x45
    else if IsMappedScanKey(kb.vKey as int) then ((vkToScan(kb.vKey as bv32) | 0x100) & 0xFFFF) as bv16
    else result
  }

  /** The prefix put above the scancode for the lookup: 0xE0 or 0xE1 in the second byte, E0 winning. */
  function ScanPrefix(kb: KeyboardData): (f: bv32)
    ensures IsE0(kb) ==> f == 0xE000
    ensures !IsE0(kb) && IsE1(kb) ==> f == 0xE100
    ensures !IsE0(kb) && !IsE1(kb) ==> f == 0
  {
    if IsE0(kb) then 0xE0 << 8 else if IsE1(kb) then 0xE1 << 8 else 0
  }

  /**
   * The virtual-key lambda: the code `MapVirtualKeyExW` gives for the
   * scancode with its E0 or E1 prefix, or the message's own `VKey` when the
   * lookup yields 0.
   */
  function VirtualKey(kb: KeyboardData, scancode: bv16, scanToVk: bv32 -> bv32): (r: int)
    ensures var looked := scanToVk(scancode as bv32 | ScanPrefix(kb));
            (looked != 0 ==> r == looked as int) && (looked == 0 ==> r == kb.vKey as int)
    ensures r != 0 || kb.vKey == 0
  {
    var key := scanToVk(scancode as bv32 | ScanPrefix(kb));
    if key != 0 then key as int else kb.vKey as int
  }

  /**
   * The keycode lambda. `VK_CLEAR` is asserted never to carry E0; the asserts
   * on the E0 numpad arrows always hold, because a numpad key without E0 has
   * already been translated by the numpad range.
   */
  function TranslateKey(vkey: int, e0: bool): (r: Keycode)
    requires !(vkey == VK_CLEAR && e0)
    ensures IsEnumerator(r)
  {
    if '0' as int <= vkey <= '9' as int then vkey
    else if 'A' as int <= vkey <= 'Z' as int then vkey
    else if !e0 && VK_NUMPAD0 <= vkey <= VK_NUMPAD9 then NUM_0 + (vkey - VK_NUMPAD0)
    else if VK_F1 <= vkey <= VK_F24 then F1 + (vkey - VK_F1)
    else if vkey == VK_LCONTROL then CTRL_L
    else if vkey == VK_RCONTROL then CTRL_R
    else if vkey == VK_LMENU then ALT_L
    else if vkey == VK_RMENU then ALT_R
    else if vkey == VK_LSHIFT then SHIFT_L
    else if vkey == VK_RSHIFT then SHIFT_R
    else if vkey == VK_CONTROL then (if e0 then CTRL_R else CTRL_L)
    else if vkey == VK_MENU then (if e0 then ALT_R else ALT_L)
    else if vkey == VK_SHIFT then (if e0 then SHIFT_R else SHIFT_L)
    else if vkey == VK_RETURN then (if e0 then NUM_ENTER else ENTER)
    else if vkey == VK_INSERT then (if e0 then INS else NUM_0)
    else if vkey == VK_DELETE then (if e0 then DEL else NUM_DEC)
    else if vkey == VK_HOME then (if e0 then HOME else NUM_7)
    else if vkey == VK_END then (if e0 then END else NUM_1)
    else if vkey == VK_PRIOR then (if e0 then PAGE_UP else NUM_9)
    else if vkey == VK_NEXT then (if e0 then PAGE_DOWN else NUM_3)
    else if vkey == VK_LEFT then (if e0 then LEFT else NUM_4)
    else if vkey == VK_RIGHT then (if e0 then RIGHT else NUM_6)
    else if vkey == VK_UP then (if e0 then UP else NUM_8)
    else if vkey == VK_DOWN then (if e0 then DOWN else NUM_2)
    else if vkey == VK_CLEAR then NUM_5
    else if vkey == VK_NUMPAD2 then assert e0; DOWN
    else if vkey == VK_NUMPAD4 then assert e0; LEFT
    else if vkey == VK_NUMPAD6 then assert e0; RIGHT
    else if vkey == VK_NUMPAD8 then assert e0; UP
    else NONE
  }

  /** Digit and letter keys keep their value, with or without E0. */
  lemma DigitsAndLettersKeepTheirCode(vkey: int, e0: bool)
    requires '0' as int <= vkey <= '9' as int || 'A' as int <= vkey <= 'Z' as int
    ensures TranslateKey(vkey, e0) == vkey
    ensures K0 <= TranslateKey(vkey, e0) <= K9 || A <= TranslateKey(vkey, e0) <= Z
  {
  }

  /** The numpad digits without E0 give `NUM_0 + n`; F1..F24 give `F1 + n`. */
  lemma NumpadAndFunctionKeys(n: nat)
    ensures n < 10 ==> TranslateKey(VK_NUMPAD0 + n, false) == NUM_0 + n
    ensures n < 24 ==> TranslateKey(VK_F1 + n, false) == F1 + n && TranslateKey(VK_F1 + n, true) == F1 + n
  {
  }

  /**
   * The keys the E0 prefix disambiguates, as pairs of virtual key, key with
   * E0 and key without it: the navigation block against the numpad, and the
   * right-hand modifiers against the left-hand ones.
   */
  const E0_VKEYS: seq<int> :=
    [VK_CONTROL, VK_MENU, VK_SHIFT, VK_RETURN, VK_INSERT, VK_DELETE, VK_HOME, VK_END, VK_PRIOR, VK_NEXT,
     VK_LEFT, VK_RIGHT, VK_UP, VK_DOWN]
  const E0_KEYS: seq<Keycode> :=
    [CTRL_R, ALT_R, SHIFT_R, NUM_ENTER, INS, DEL, HOME, END, PAGE_UP, PAGE_DOWN, LEFT, RIGHT, UP, DOWN]
  const PLAIN_KEYS: seq<Keycode> :=
    [CTRL_L, ALT_L, SHIFT_L, ENTER, NUM_0, NUM_DEC, NUM_7, NUM_1, NUM_9, NUM_3, NUM_4, NUM_6, NUM_8, NUM_2]

  /** For each of those keys, E0 selects the first key of its pair and its absence the second. */
  lemma E0Disambiguates(i: nat)
    requires i < |E0_VKEYS|
    ensures TranslateKey(E0_VKEYS[i], true) == E0_KEYS[i]
    ensures TranslateKey(E0_VKEYS[i], false) == PLAIN_KEYS[i]
    ensures E0_KEYS[i] != PLAIN_KEYS[i]
  {
  }

  /** With E0, the numpad 2/4/6/8 codes are the arrows and the other numpad digits name nothing. */
  lemma E0NumpadDigits(n: nat)
    requires n < 10
    ensures n == 2 ==> TranslateKey(VK_NUMPAD0 + n, true) == DOWN
    ensures n == 4 ==> TranslateKey(VK_NUMPAD0 + n, true) == LEFT
    ensures n == 6 ==> TranslateKey(VK_NUMPAD0 + n, true) == RIGHT
    ensures n == 8 ==> TranslateKey(VK_NUMPAD0 + n, true) == UP
    ensures n % 2 == 1 || n == 0 ==> TranslateKey(VK_NUMPAD0 + n, true) == NONE
  {
  }

  /** Keys the switch does not list, the space bar among them, give `NONE`. */
  lemma SpaceIsUnmapped(e0: bool)
    ensures TranslateKey(VK_SPACE, e0) == NONE
  {
  }

  /**
   * `raw_keyboard(RAWKEYBOARD const&)`. A `VKey` of 0xFF leaves the member
   * defaults. Otherwise the record is valid with the translated scancode and
   * key; `went_down_` keeps its default `false`, because the constructor
   * stores the break flag in a local of the same name.
   */
  function DecodeKeyboard(kb: KeyboardData, vkToScan: bv32 -> bv32, scanToVk: bv32 -> bv32): (r: RawKeyboard)
    requires kb.vKey != 0xFF ==>
               !(VirtualKey(kb, KeyScancode(kb, vkToScan), scanToVk) == VK_CLEAR && IsE0(kb))
    ensures r.IsValid() <==> kb.vKey != 0xFF
    ensures !r.IsValid() ==> r == DEFAULT_RAW_KEYBOARD
    ensures r.IsValid() ==> !r.WentDown() && r.Scancode() == KeyScancode(kb, vkToScan)
    ensures r.IsValid() ==>
              r.Key() == TranslateKey(VirtualKey(kb, r.Scancode(), scanToVk), IsE0(kb))
  {
    if kb.vKey == 0xFF then DEFAULT_RAW_KEYBOARD
    else
      var scancode := KeyScancode(kb, vkToScan);
      var vkey := VirtualKey(kb, scancode, scanToVk);
      RawKeyboard(false, true, TranslateKey(vkey, IsE0(kb)), scancode)
  }

  /** The break flag of the message never reaches the record: every decoded key reads as released. */
  lemma DecodedKeysNeverGoDown(kb: KeyboardData, vkToScan: bv32 -> bv32, scanToVk: bv32 -> bv32)
    requires kb.vKey != 0xFF && kb.flags & RI_KEY_BREAK == 0
    requires !(VirtualKey(kb, KeyScancode(kb, vkToScan), scanToVk) == VK_CLEAR && IsE0(kb))
    ensures DecodeKeyboard(kb, vkToScan, scanToVk).IsValid()
    ensures !DecodeKeyboard(kb, vkToScan, scanToVk).WentDown()
  {
  }

  /**
   * `raw_keyboard` as evidently intended: as written, except that
   * `went_down_` is the member and holds whether the break flag is clear.
   */
  function DecodeKeyboardIntended(kb: KeyboardData, vkToScan: bv32 -> bv32, scanToVk: bv32 -> bv32): (r: RawKeyboard)
    requires kb.vKey != 0xFF ==>
               !(VirtualKey(kb, KeyScancode(kb, vkToScan), scanToVk) == VK_CLEAR && IsE0(kb))
    ensures r.IsValid() <==> kb.vKey != 0xFF
    ensures !r.IsValid() ==> r == DEFAULT_RAW_KEYBOARD
    ensures r.IsValid() ==> (r.WentDown() <==> kb.flags & RI_KEY_BREAK == 0)
    ensures r.IsValid() ==>
              r.Key() == DecodeKeyboard(kb, vkToScan, scanToVk).Key() &&
              r.Scancode() == DecodeKeyboard(kb, vkToScan, scanToVk).Scancode()
  {
    var record := DecodeKeyboard(kb, vkToScan, scanToVk);
    if record.IsValid() then record.(wentDownField := kb.flags & RI_KEY_BREAK == 0) else record
  }

  // ---------------------------------------------------------------------------
  // WM_MOUSEMOVE
  // ---------------------------------------------------------------------------

  /**
   * `handle_mouse_move`: x and y are the low and high words of `lParam`,
   * sign-extended. `lParam` is a signed 64-bit integer; masking its two's
   * complement form with 0xFFFF takes it modulo 2^16, and `>> 16` divides it
   * by 2^16 rounding down.
   */
  function DecodeMouseMove(lParam: int): (r: (Coord, Coord))
    ensures (r.0 - lParam) % 0x1_0000 == 0
    ensures (r.1 - lParam / 0x1_0000) % 0x1_0000 == 0
  {
    (ToInt16(lParam % 0x1_0000), ToInt16((lParam / 0x1_0000) % 0x1_0000))
  }

  /** `MAKELPARAM(x, y)`: the two coordinates as the low and high 16-bit words of an unsigned 32-bit value. */
  function PackMouseMove(x: Coord, y: Coord): (r: int)
    ensures 0 <= r < 0x1_0000_0000
  {
    (y % 0x1_0000) * 0x1_0000 + x % 0x1_0000
  }

  /** The quotient and remainder of `q * 2^16 + r` by 2^16, for `0 <= r < 2^16`. */
  lemma DivModOfWord(q: int, r: int)
    requires 0 <= r < 0x1_0000
    ensures (q * 0x1_0000 + r) / 0x1_0000 == q && (q * 0x1_0000 + r) % 0x1_0000 == r
  {
    var n := q * 0x1_0000 + r;
    var d, e := n / 0x1_0000, n % 0x1_0000;
    assert n == d * 0x1_0000 + e && 0 <= e < 0x1_0000;
    assert (q - d) * 0x1_0000 == e - r;
  }

  /** Decoding recovers every packed position, negative coordinates included. */
  lemma MouseMoveRoundTrip(x: Coord, y: Coord)
    ensures DecodeMouseMove(PackMouseMove(x, y)) == (x, y)
  {
    var lx, ly := x % 0x1_0000, y % 0x1_0000;
    DivModOfWord(ly, lx);
    assert ly % 0x1_0000 == ly;
  }
}
