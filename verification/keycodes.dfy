/**
 * The `keycode` enumeration of keyboard.hpp. Its underlying type is `uint8_t`,
 * so a keycode is any value 0..255; the named enumerators are roughly ASCII
 * for space, digits and letters and then run on consecutively after 'Z'.
 */
module KeyCodes {

  type Keycode = k: int | 0 <= k < 256

  /** Number of per-key records a `keyboard` holds (`KEY_COUNT`). */
  const KEY_COUNT: nat := 0xFF

  const NONE: Keycode := 0
  const SPACE: Keycode := 0x20
  const K0: Keycode := 0x30   // '0'; K1..K9 follow
  const K9: Keycode := 0x39
  const A: Keycode := 0x41    // 'A'; B..Z follow
  const C: Keycode := 0x43
  const D: Keycode := 0x44
  const Z: Keycode := 0x5A
  const NUM_0: Keycode := 91  // NUM_1..NUM_9 follow
  const NUM_1: Keycode := 92
  const NUM_2: Keycode := 93
  const NUM_3: Keycode := 94
  const NUM_4: Keycode := 95
  const NUM_5: Keycode := 96
  const NUM_6: Keycode := 97
  const NUM_7: Keycode := 98
  const NUM_8: Keycode := 99
  const NUM_9: Keycode := 100
  const NUM_DIV: Keycode := 101
  const NUM_MUL: Keycode := 102
  const NUM_MIN: Keycode := 103
  const NUM_ADD: Keycode := 104
  const NUM_DEC: Keycode := 105
  const NUM_ENTER: Keycode := 106
  const NUM_LCK: Keycode := 107
  const F1: Keycode := 108    // F2..F24 follow
  const F24: Keycode := 131
  const LEFT: Keycode := 132
  const RIGHT: Keycode := 133
  const UP: Keycode := 134
  const DOWN: Keycode := 135
  const CTRL_L: Keycode := 136
  const CTRL_R: Keycode := 137
  const ALT_L: Keycode := 138
  const ALT_R: Keycode := 139
  const SHIFT_L: Keycode := 140
  const SHIFT_R: Keycode := 141
  const ENTER: Keycode := 142
  const INS: Keycode := 143
  const HOME: Keycode := 144
  const PAGE_UP: Keycode := 145
  const DEL: Keycode := 146
  const END: Keycode := 147
  const PAGE_DOWN: Keycode := 148

  /** The values the enumeration names: NONE, SPACE, K0..K9 and A..PAGE_DOWN. */
  predicate IsEnumerator(k: int) {
    k == NONE || k == SPACE || K0 <= k <= K9 || A <= k <= PAGE_DOWN
  }

  /** Every enumerator indexes the per-key state array: its value is below `KEY_COUNT`. */
  lemma EnumeratorsIndexState(k: int)
    requires IsEnumerator(k)
    ensures 0 <= k < KEY_COUNT
  {
  }
}
