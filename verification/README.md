# bklib input and validation core, in Dafny

This project models the input-handling and JSON-validation core of bklib, a
small C++ game-support library. It covers:

- **util.hpp**: the `utf8string_hash` multiply-33/xor string hash on a
  wrapping 64-bit word, the `bit_flags` enum-to-bitmask helper and `find_or`.
- **key_combo**: a set of keycodes held in a `flat_set` ordered by
  `std::greater`. The model covers its add/remove operations and its
  comparisons.
- **keyboard**: the registered key names and their hashes (`init_maps`,
  `key_name`, `key_code`), and the per-key state array. That array is kept in
  step with the combo of keys that are down (`set_state`, `clear`).
- **mouse**: two 100-sample position histories, newest first, and one record
  per button.
- **raw input decoding** (`raw_mouse`, `raw_keyboard`, the `WM_MOUSEMOVE`
  parameter). This is how a Win32 raw-input record becomes movement deltas,
  button transitions, a wheel delta, a scancode and a `keycode`.
- **window dispatch**:
  - what each window message queues onto the client queue;
  - what `do_events` does to the mouse and keyboard state when it runs each
    queued closure, stated as a fold of one step function over the queue;
  - which registered callbacks it calls, and in what order.
- **JSON rules** (`require_*`, `optional_key`,
  `for_each_element_skip_on_fail`). Each rule either hands back a parsed value
  or raises a typed error that carries what was expected and what was found.

## How the model is built

- **Modules** follow the source: `Util`, `KeyCodes`, `KeyCombos`, `Keyboards`,
  `MouseState`, `RawInput`, `WindowEvents` and `JsonRules`. `Wrappers` holds
  `Option` and `Result`.
- **Classes.** Objects that the source updates in place are Dafny classes:
  - `BitFlags`, `KeyCombo`, `Keyboard` (its state is an `array`), `Mouse`
    and `Window`;
  - each method states its new state, as `old(...)` plus what it changed;
    `Window.Run` and `Window.DoEvents` state it through the ghost `Snap()`
    of the histories, button records, key records and callback log;
  - each class keeps an invariant. For example, `Keyboard`'s combo holds
    exactly the keys whose record is down.
- **Loops.** The source's loops are methods with invariants proved against
  specification functions:
  - the keyboard clear loop, against `DownCodes`;
  - the `init_maps` registration, against `HashKeyMap` and `KeyStringMap`
    (the source repeats the `BK_ADD_KEY_HASH` macro once per entry; the model
    loops over the table of those entries);
  - the raw-mouse button loop, against `ButtonEvents`;
  - `do_events`, against `Drain`, the fold of `Step` over the queue;
  - the JSON array walk, against `FirstEscape` and `Logged`.
- **Integer widths are explicit:**
  - `size_t` is `bv64`, so the string hash wraps exactly as it does on the
    64-bit target;
  - `char` is signed, so bytes of 0x80 and above sign-extend;
  - `int16_t` truncation is two's complement modulo 2^16;
  - the `bit_flags` storage is taken as an unsigned 32-bit word (`bv32`), so
    `1 << 31` is the top bit; the source's `storage_t` is the enum's
    underlying type, `int` by default, where that shift overflows.
- **Callbacks.** A registered callback is a member of `listening`; calling it
  appends an `Event` to the window's `events` log.
- **Queue.** The client queue of closures is a `seq<Item>`; each item holds
  the values its closure captured.
- **Operating-system inputs become parameters:**
  - the clock is passed as `now`/`when` time stamps: a queued item carries
    the time it was captured, and a drain reads the clock once, as `now`;
  - the two `MapVirtualKey` lookups are functions `vkToScan` and `scanToVk`;
  - the client rectangle read by a resize is `width` and `height`.

## Model

| member | source | states |
|---|---|---|
| Util.Promote | util.hpp:58 | A `char` byte widens to `size_t` by sign extension: the low byte is kept, and the upper bits are all ones exactly for bytes of 0x80 and above |
| Util.HashFrom | util.hpp:55-61 | The loop stops at the first zero byte: the hash of a byte sequence equals the hash of its prefix up to any zero byte |
| Util.HashCStr | util.hpp:55-61 | The hash of a buffer read as a C string starting from 5381 equals the hash of the buffer cut at any NUL |
| Util.HashString | util.hpp:63-65 | A `utf8string` without NUL hashes as the loop over all its bytes from 5381; one with a NUL hashes only up to it |
| Util.HashStringRef | util.hpp:67-69 | A `string_ref` hashes its storage up to any NUL, ignoring the view length |
| Util.HashAppend | util.hpp:55-61 | The hash loop is a left fold: hashing `a + b`, where `a` has no NUL, continues from the hash of `a` |
| Util.NulEndsHash | util.hpp:57-59 | The loop stops at the first zero byte; nothing after it changes the hash |
| Util.StringRefHashMatchesString | util.hpp:63-69 | A `string_ref` whose storage holds a text and then a NUL hashes like the `utf8string` of that text, whatever follows the NUL |
| Util.StringRefHashReadsPastLength | util.hpp:67-69 | The `string_ref` hash ignores the view's length: without a NUL, the characters past the view's end are hashed as well |
| Util.FlagBit | util.hpp:91-98 | `get_value` maps enumerator 0 to the empty mask and any other enumerator to a single bit, which fits the storage type |
| Util.FlagBitsDisjoint | util.hpp:91-98 | Different non-zero enumerators own different bits |
| Util.TestFlag | util.hpp:110-112 | `& f` is false for enumerator 0 and otherwise holds iff bit `f - 1` of the mask is set |
| Util.OrFlagSetsOnlyThatFlag | util.hpp:110-120 | After or-ing flag `f`, `& f` holds, and every other flag tests as before |
| Util.OrKeepsOtherFlags | util.hpp:114-120 | Adding one flag leaves the test of every other flag unchanged |
| Util.OrFitsStorage | util.hpp:114-116 | Or-ing two masks that fit the storage type gives a mask that fits it |
| Util.BitFlags.Empty | util.hpp:100-103 | The default mask tests false for every flag |
| Util.BitFlags.Of | util.hpp:105-108 | The mask built from one flag is exactly that flag's bit |
| Util.BitFlags.Test | util.hpp:110-112 | `& f` on the stored mask: false for enumerator 0, otherwise bit `f - 1` of the mask |
| Util.BitFlags.Or | util.hpp:114-116 | The new mask still fits the storage type, has the flag set, and tests every other flag as the old mask does |
| Util.BitFlags.OrAssign | util.hpp:118-120 | The mask gains the flag's bit in place; the flag then tests true |
| Util.BitFlags.Equals | util.hpp:122-124 | When `== f` holds, `f` tests true iff it is non-zero and no other flag tests true |
| Util.BitFlags.Reset | util.hpp:126 | The mask becomes empty |
| Util.BitFlags.ResetTo | util.hpp:127 | The mask becomes exactly the flag, so `==` with that flag holds |
| Util.FindOr | util.hpp:134-141 | The mapped value if the key is present, otherwise the fallback |
| KeyCodes.EnumeratorsIndexState | keyboard.hpp:16-30 | Every enumerator is below `KEY_COUNT`, so it indexes the per-key state array |
| KeyCombos.Insert | impl/keyboard.cpp:25-28 | Inserting keeps the vector strictly descending, adds exactly the key, and grows it by one iff the key was absent |
| KeyCombos.Erase | impl/keyboard.cpp:40-49 | Erasing keeps the vector descending, removes exactly the key, and shrinks it by one iff the key was present |
| KeyCombos.InsertAll | impl/keyboard.cpp:30-38 | Inserting a list yields a descending vector holding the old keys and the listed ones |
| KeyCombos.DescendingCardinality | keyboard.hpp:64 | A descending vector has no duplicates: its size is its number of keys |
| KeyCombos.ListCardinality | impl/keyboard.cpp:30-38 | A list has at most as many distinct keys as entries, and exactly as many iff it has no repeats |
| KeyCombos.DescendingDeterminedByElements | keyboard.hpp:64 | Two descending vectors with the same keys are equal |
| KeyCombos.FromListOrderIrrelevant | impl/keyboard.cpp:19-23 | A combo built from a list depends only on the set of keys listed |
| KeyCombos.ThreeKeyCombo | impl/keyboard.cpp:19-23 | A list holding exactly three distinct keys `x > y > z`, in any order and with any repeats, yields the vector `[x, y, z]` |
| KeyCombos.InsertAllGrowth | impl/keyboard.cpp:30-38 | The size grows by exactly the list's length iff the list has no repeats and none of its keys was present |
| KeyCombos.Equal | impl/keyboard.cpp:61-67 | `operator==` holds iff the left combo equals the right one's prefix of the same length |
| KeyCombos.NotEqual | keyboard.hpp:72-74 | `operator!=` holds iff the left combo differs from that prefix |
| KeyCombos.LexicographicHead | impl/keyboard.cpp:69-74 | In the lexicographic order the left combo's first key is never the larger |
| KeyCombos.Less | impl/keyboard.cpp:69-74 | `operator<` (`std::lexicographical_compare`) holds iff the left vector is a proper prefix of the right one, or the first difference has the smaller key on the left |
| KeyCombos.LexicographicTail | impl/keyboard.cpp:69-74 | Two vectors with the same first key compare as their tails do |
| KeyCombos.GreaterOrEqual | keyboard.hpp:76-78 | `operator>=` holds iff the left combo is not lexicographically below the right one |
| KeyCombos.LessIsStrict | impl/keyboard.cpp:69-74 | `<` is irreflexive and asymmetric |
| KeyCombos.LessIsTotal | impl/keyboard.cpp:69-74 | Of `a < b`, `b < a` and `SameCombo(a, b)` (the two vectors are equal) at least one holds, and when they are equal neither `<` holds. It is stated with the corrected equality, not with the source `==` |
| KeyCombos.EqualAcceptsLongerRight | impl/keyboard.cpp:61-67 | As written, `==` holds between a combo and any longer combo starting with its keys, although their keys differ |
| KeyCombos.EqualComboCounterexample | impl/keyboard.cpp:61-67 | {D} compares equal to {C, D} |
| KeyCombos.SameCombo | impl/keyboard.cpp:61-67 | Corrected equality: holds iff the two combos are the same vector |
| KeyCombos.SameComboIffSameKeys | impl/keyboard.cpp:61-67 | Corrected equality holds iff the combos hold the same keys |
| KeyCombos.ComboComparisonExample | tests/key_combo_test.cpp:96-111 | {CTRL_L, ALT_L, C} and {CTRL_L, ALT_L, D} are stored sorted. Each equals itself, they differ both ways, the first is `>=` itself and orders before the second |
| KeyCombos.KeyCombo.constructor | impl/keyboard.cpp:15-17 | The default combo is empty |
| KeyCombos.KeyCombo.FromList | impl/keyboard.cpp:19-23 | The list constructor holds exactly the listed keys, deduplicated, in descending order |
| KeyCombos.KeyCombo.Empty | keyboard.hpp:51 | `empty()` iff the size is 0 |
| KeyCombos.KeyCombo.Size | keyboard.hpp:50 | `size()` is the number of distinct keys held |
| KeyCombos.KeyCombo.Add | impl/keyboard.cpp:25-28 | Returns true iff the key was absent; the key is present afterwards; the size grows by one iff it returned true |
| KeyCombos.KeyCombo.AddList | impl/keyboard.cpp:30-38 | Returns true iff the listed keys were distinct and all new; the combo gains all of them |
| KeyCombos.KeyCombo.Remove | impl/keyboard.cpp:40-49 | Returns true iff the key was present; afterwards it is absent and the other keys remain |
| KeyCombos.KeyCombo.Clear | keyboard.hpp:53 | The combo becomes empty |
| Keyboards.EntryHash | impl/keyboard.cpp:86-110 | Each registered name is a NUL-free byte string whose hash is the table's entry |
| Keyboards.NumEntryHash | impl/keyboard.cpp:100-104 | The names "KEY::NUM_0" to "KEY::NUM_9" are NUL-free bytes hashing to their table entries |
| Keyboards.NamedEntryHash | impl/keyboard.cpp:107-110 | The arrow and space names are NUL-free bytes hashing to their table entries |
| Keyboards.KeyTableHashes | impl/keyboard.cpp:98-110 | The code, name and hash tables line up; every name hashes to its entry |
| Keyboards.HashesDistinct | impl/keyboard.cpp:91-92 | No two registered names hash alike, so the "collision" assert never fires |
| Keyboards.CodesDistinct | impl/keyboard.cpp:94-95 | No code is registered twice, so the "duplicate" assert never fires |
| Keyboards.HashKeyMap | impl/keyboard.cpp:81 | The hash map after `n` registrations maps exactly the first `n` hashes, each to its code |
| Keyboards.KeyStringMap | impl/keyboard.cpp:82 | The name map after `n` registrations maps exactly the first `n` codes, each to its name's literal |
| Keyboards.NameHash | impl/keyboard.cpp:88 | The hash the macro computes for an entry is the one the table lists |
| Keyboards.RegisterEntry | impl/keyboard.cpp:86-96 | One registration: both maps grow by exactly the entry; neither held its hash or code before |
| Keyboards.Register | impl/keyboard.cpp:98-110 | Registering every entry yields the maps of the whole table |
| Keyboards.InitMaps | impl/keyboard.cpp:98-110 | `init_maps` passes all its asserts and builds the maps of the whole table |
| Keyboards.KeyName | impl/keyboard.cpp:120-123 | A registered key gets its name literal; any other key gets the empty `string_ref` |
| Keyboards.KeyCodeOfHash | impl/keyboard.cpp:133-136 | A hash of a registered name gets its code; any other hash gets `NONE` |
| Keyboards.KeyCodeOfString | impl/keyboard.cpp:125-127 | The name is looked up by its hash alone: a name whose hash is registered gets that entry's code (a colliding unregistered name included); any other name gets `NONE` |
| Keyboards.KeyCodeOfRef | impl/keyboard.cpp:129-131 | As written, for a view with storage: one whose storage hashes like a registered name gets its key; any other hash gets `NONE` |
| Keyboards.UnnamedKeyNameHasNoStorage | impl/keyboard.cpp:120-123 | `key_name` of a key without a name is the empty `string_ref{}`, which has no storage to hash |
| Keyboards.KeyCodeOfView | impl/keyboard.cpp:129-131 | Corrected lookup: the empty view gets `NONE`, like the empty text; a view with storage gets its registered key or `NONE` by its hash |
| Keyboards.KeyNameLookupTotal | impl/keyboard.cpp:120-131 | With the corrected lookup, `key_code(key_name(k))` is `k` for a registered key and `NONE` for any other |
| Keyboards.KeyCodeOfRefReadsToNul | impl/keyboard.cpp:129-131 | A view whose storage holds a registered name and then a NUL gets that name's key, whatever its length says |
| Keyboards.KeyNameOf | impl/keyboard.cpp:120-123 | `key_name` of a registered key is its name followed by a NUL |
| Keyboards.KeyNameRoundTrip | impl/keyboard.cpp:120-131 | `key_code(key_name(k)) == k` for every registered key |
| Keyboards.KeyStringRoundTrip | impl/keyboard.cpp:125-136 | `key_code(name)` inverts the table for every registered name |
| Keyboards.EnterIsUnnamed | impl/keyboard.cpp:98-110 | `ENTER` has no registered name |
| Keyboards.EmptyHashIsUnknown | impl/keyboard.cpp:133-136 | The hash of the empty string names no key |
| Keyboards.SpaceNameExample | tests/keyboard_test.cpp:20-35 | The name of SPACE is "KEY::SPACE"; the hash, string and `string_ref` overloads all map it back |
| Keyboards.DownCodes | impl/keyboard.cpp:165-176 | The codes below `n` whose record is down, each once, in increasing order |
| Keyboards.Keyboard.constructor | impl/keyboard.cpp:138-141 | Every key is up, stamped with the construction time, and the combo is empty |
| Keyboards.Keyboard.At | keyboard.hpp:110-112 | A key's record is down iff the key is in the combo |
| Keyboards.Keyboard.SetState | impl/keyboard.cpp:143-158 | Returns true iff the key already had that state, in which case nothing changes. Otherwise the record takes the state and time, and the combo gains or loses the key. Other keys are untouched |
| Keyboards.Keyboard.Clear | impl/keyboard.cpp:160-177 | The combo empties. Every down key is stamped up at `now`; other records are unchanged. The functor is called for exactly the down keys, in code order |
| Keyboards.Keyboard.ReleaseKey | impl/keyboard.cpp:166-175 | One turn of the loop: a down key is stamped up at `now` and reported when there is a functor; an up key and every other record stay as they were |
| Keyboards.ClearCallsAreCombo | impl/keyboard.cpp:160-177 | The keys `clear` reports are exactly the keys of the combo |
| MouseState.PushFront | mouse.hpp:87-93 | The new sample is the newest and the others move back one; a full history loses its oldest |
| MouseState.PushFrontDropsOldest | mouse.hpp:87-93 | A full history stays full; as a multiset it loses the oldest sample and gains the new one |
| MouseState.Mouse.constructor | mouse.hpp:59-76 | Both histories are full of `{now, 0, 0}` and every button is up at `now` |
| MouseState.Mouse.PushAbsolute | mouse.hpp:87-89 | The new sample is `absolute(0)`; each older sample moves one place back; the relative history is untouched |
| MouseState.Mouse.PushRelative | mouse.hpp:91-93 | The new sample is `relative(0)`; each older sample moves one place back; the absolute history is untouched |
| MouseState.Mouse.SetButton | mouse.hpp:95-102 | `button(b)` afterwards is `{when, down ? is_down : is_up}`, so it is down iff `down`; every other button's `button(b)` is unchanged |
| RawInput.ToInt16 | impl/win/win_window.hpp:57-63 | `static_cast<int16_t>` keeps the value modulo 2^16 and leaves in-range values unchanged |
| RawInput.ButtonBits | impl/win/win_window.hpp:28-39 | A button's two flag bits form a value below 4 |
| RawInput.ButtonTransition | impl/win/win_window.hpp:28-39 | `went_down` iff the button's down bit is set; `went_up` iff its up bit is set |
| RawInput.HasMovement | impl/win/win_window.hpp:41-43 | Without movement both 16-bit deltas are 0 |
| RawInput.MovementCanTruncateToZero | impl/win/win_window.hpp:41-43 | A movement of 2^16 units counts as movement, with both 16-bit deltas 0 |
| RawInput.HasButtons | impl/win/win_window.hpp:45-47 | `has_buttons` iff one of the five buttons has a transition bit |
| RawInput.HasWheel | impl/win/win_window.hpp:49-51 | `has_wheel` iff the wheel flag (0x400) of the button flags is set |
| RawInput.WheelDelta | impl/win/win_window.hpp:53-55 | The wheel delta is `usButtonData` read as a signed 16-bit number |
| RawInput.X | impl/win/win_window.hpp:57-59 | The x delta is `lLastX` modulo 2^16, and equals it when in range |
| RawInput.Y | impl/win/win_window.hpp:61-63 | The y delta is `lLastY` modulo 2^16, and equals it when in range |
| RawInput.KeyScancode | impl/win/win_window.cpp:628-650 | Pause gets 0x45. Numlock, the Windows keys and the menu key get `MapVirtualKey(VKey)` with bit 8 set, cut to 16 bits. Any other key gets the make code, with bit 8 set iff the E0 flag is set or the make code has it |
| RawInput.ScanPrefix | impl/win/win_window.cpp:655-656 | The lookup prefix is 0xE000 with E0, 0xE100 with E1 only, and 0 otherwise |
| RawInput.VirtualKey | impl/win/win_window.cpp:653-662 | A non-zero lookup of the prefixed scancode is the key; a zero lookup gives the message's `VKey`. The result is 0 only when `VKey` is 0 |
| RawInput.TranslateKey | impl/win/win_window.cpp:664-713 | Every virtual key translates to a `keycode` enumerator |
| RawInput.DigitsAndLettersKeepTheirCode | impl/win/win_window.cpp:665-670 | Digit and letter keys keep their value, with or without E0 |
| RawInput.NumpadAndFunctionKeys | impl/win/win_window.cpp:671-679 | Numpad digits without E0 give `NUM_0 + n`; F1..F24 give `F1 + n` |
| RawInput.E0Disambiguates | impl/win/win_window.cpp:689-702 | For each navigation or modifier key, E0 selects one `keycode` and its absence another, different one |
| RawInput.E0NumpadDigits | impl/win/win_window.cpp:704-712 | With E0, numpad 2/4/6/8 are the arrows and the other numpad digits give `NONE` |
| RawInput.SpaceIsUnmapped | impl/win/win_window.cpp:681-712 | The space bar, absent from the switch, gives `NONE` |
| RawInput.DecodeKeyboard | impl/win/win_window.cpp:613-714 | A `VKey` of 0xFF leaves the defaults and is invalid. Otherwise the record is valid, with the translated scancode and key, and it reads as released |
| RawInput.DecodedKeysNeverGoDown | impl/win/win_window.cpp:624 | As written, even a key press (break flag clear) decodes as not gone down |
| RawInput.DecodeKeyboardIntended | impl/win/win_window.cpp:613-714 | Corrected decoder: the same key and scancode, and it went down iff the break flag is clear |
| RawInput.DecodeMouseMove | impl/win/win_window.cpp:424-438 | x and y are the low and high words of `lParam`, each modulo 2^16 |
| RawInput.MouseMoveRoundTrip | impl/win/win_window.cpp:424-438 | Unpacking a position packed as two 16-bit words recovers it, negative coordinates included |
| WindowEvents.KeyEvents | impl/win/win_window.cpp:360-376 | At most one callback: repeat when `set_state` reports no change, otherwise down or up by the transition, each only when registered |
| WindowEvents.ButtonEvent | impl/win/win_window.cpp:336-353 | A button that went down calls `on_mouse_down`, and one that went up calls `on_mouse_up`, each only if registered |
| WindowEvents.ButtonEvents | impl/win/win_window.cpp:336-353 | At most one callback per button; every one is a down or up call at the newest absolute position, for a button below the count (see `ButtonEventsFire` for which ones) |
| WindowEvents.ButtonEventsFire | impl/win/win_window.cpp:336-353 | Button `b` gets `on_mouse_down` iff it went down and that callback is registered, and `on_mouse_up` iff it went up and that one is |
| WindowEvents.MouseEvents | impl/win/win_window.cpp:325-358 | A move callback iff there is movement and a listener; a wheel callback iff there is a wheel delta and a listener; button callbacks only when `has_buttons` holds, at the newest position |
| WindowEvents.MouseEventsOrder | impl/win/win_window.cpp:325-358 | The calls come in the source order: first the move (if any), then exactly `ButtonEvents` when `has_buttons` holds and nothing when not, then the wheel call (if any) |
| WindowEvents.MouseEventsAreMouse | impl/win/win_window.cpp:325-358 | A raw mouse record calls only mouse callbacks |
| WindowEvents.ButtonAfter | impl/win/win_window.cpp:336-353 | A button with a transition is stamped `when` and is down iff it went down; any other button keeps its record |
| WindowEvents.WmInputItems | impl/win/win_window.cpp:378-402 | As written: a mouse record is always queued; a keyboard record only when valid, with the translated key and always reading as released; HID input queues nothing |
| WindowEvents.WmInputItemsIntended | impl/win/win_window.cpp:378-402 | Corrected: the same items, but a keyboard record has gone down iff its break flag is clear |
| WindowEvents.MouseMoveItemOf | impl/win/win_window.cpp:424-438 | The queued position is `lParam`'s low and high words modulo 2^16 |
| WindowEvents.KeyUpEvents | impl/win/win_window.cpp:463-465 | One `on_keyup` call per released key, in order |
| WindowEvents.ButtonEventsNeedListeners | impl/win/win_window.cpp:336-353 | With no callbacks registered, the button loop calls nothing |
| WindowEvents.MouseEventsNeedListeners | impl/win/win_window.cpp:325-358 | With no callbacks registered, a raw mouse record calls nothing |
| WindowEvents.ButtonEventsAscending | impl/win/win_window.cpp:336-353 | Button callbacks come in increasing button order, at most one per button |
| WindowEvents.DecodedKeysNeverFireKeyDown | impl/win/win_window.cpp:360-376 | As written, no decoded keyboard record ever calls `on_keydown`; a press of a key that is up is reported as a repeat |
| WindowEvents.PressAndReleaseFire | impl/win/win_window.cpp:360-376 | With the corrected decoder, pressing an up key calls `on_keydown`, releasing a down key calls `on_keyup`, and pressing a down key calls `on_keyrepeat` |
| WindowEvents.Step | impl/win/win_window.cpp:325-454 | Running a closure keeps the snapshot's shapes and only appends to the callback log |
| WindowEvents.StepFrames | impl/win/win_window.cpp:325-454 | Only a raw mouse record touches the relative history and buttons, only a position the absolute history, a keyboard record only its own key, and paint or resize call at most one callback |
| WindowEvents.Drain | impl/win/win_window.cpp:517-521 | Draining a queue keeps the snapshot's shapes and only appends to the callback log |
| WindowEvents.DrainAppend | impl/win/win_window.cpp:517-521 | Draining `a + b` is draining `a`, then `b` |
| WindowEvents.DrainSilentWithoutListeners | impl/win/win_window.cpp:325-454 | With no callbacks registered, draining any queue calls nothing |
| WindowEvents.StepNeverPressesKeys | impl/win/win_window.cpp:360-376 | A closure whose keyboard record reads as released puts no key down and calls no `on_keydown` |
| WindowEvents.DrainNeverPressesKeys | impl/win/win_window.cpp:360-376 | A queue whose keyboard records all read as released never puts a key down nor calls `on_keydown` |
| WindowEvents.WmInputPressAsWritten | impl/win/win_window.cpp:378-402 | As written, a key press received by `WM_INPUT` and run by `do_events` leaves every up key up and calls no `on_keydown` |
| WindowEvents.WmInputPressIntended | impl/win/win_window.cpp:378-402 | Corrected, a press of an up key run by `do_events` puts the key down at `now`, and the only callback is `on_keydown` if it is registered |
| WindowEvents.ResizeQueueRunsResize | impl/win/win_window.cpp:442-454 | A queued resize with `on_resize` registered calls it once with the client size and changes nothing else |
| WindowEvents.Window.constructor | impl/win/win_window.hpp:171-199 | No callbacks registered and an empty queue; every key is up at `now`, every button is up at `now`, and both mouse histories hold 100 samples `{now, 0, 0}` |
| WindowEvents.Window.Listen | impl/win/win_window.cpp:533-554 | Sets or clears the callback's slot; the enter, exit and horizontal-wheel slots never change; nothing else changes |
| WindowEvents.Window.HandleRawKeyboard | impl/win/win_window.cpp:360-376 | `set_state` on the key's record and combo, stamped with the clock reading `now` when the closure runs, then the callbacks `KeyEvents` selects |
| WindowEvents.Window.HandleRawMouse | impl/win/win_window.cpp:325-358 | A relative sample iff there is movement, then the button records by transition, then `MouseEvents`' callbacks. The absolute history is untouched |
| WindowEvents.Window.HandleMovement | impl/win/win_window.cpp:329-334 | A relative sample and `on_mouse_move` only when there is movement |
| WindowEvents.Window.HandleButtons | impl/win/win_window.cpp:336-353 | Every button record updated by its transition; the callbacks of `ButtonEvents`, in button order |
| WindowEvents.Window.HandleButton | impl/win/win_window.cpp:342-351 | One button: its record is updated by its transition and its callback is made; the other buttons are untouched |
| WindowEvents.Window.HandleMouseMoveTo | impl/win/win_window.cpp:424-438 | The queued closure pushes an absolute sample, then calls `on_mouse_move_to` if registered |
| WindowEvents.Window.HandleWmInput | impl/win/win_window.cpp:378-402 | Queues exactly the as-written items of `WmInputItems`; calls nothing |
| WindowEvents.Window.HandleMouseMove | impl/win/win_window.cpp:424-438 | Queues the unpacked position; calls nothing |
| WindowEvents.Window.HandlePaint | impl/win/win_window.cpp:412-420 | Queues the paint closure |
| WindowEvents.Window.HandleSize | impl/win/win_window.cpp:442-454 | Queues the resize closure |
| WindowEvents.Window.KillFocus | impl/win/win_window.cpp:463-465 | Every key is released, and `on_keyup`, if registered, is called for each key that was down, in code order |
| WindowEvents.Window.Run | impl/win/win_window.cpp:325-454 | The new histories, button records, key records and callback log are exactly `Step` of the old ones; only a keyboard record changes the down keys |
| WindowEvents.Window.RunFront | impl/win/win_window.cpp:517-521 | One turn of the loop: the front closure leaves the queue, is recorded as handled, and the remaining drain reaches the same final state |
| WindowEvents.Window.DoEvents | impl/win/win_window.cpp:517-521 | Runs the whole queue front first and empties it; the new state is exactly `Drain`, the fold of `Step` over the old queue |
| JsonRules.TypeName | impl/json.cpp:36-59 | Each of the eight types prints its own name ("null", "signed", "unsigned", "float", "string", "bool", "array", "object"), and only that type prints it |
| JsonRules.TypeNamesDistinct | impl/json.cpp:36-59 | Different types print differently |
| JsonRules.AddRuleInfo | impl/json.cpp:25-33 | The rule goes at the end of the trace, which starts as `[rule]` when absent; the error kind is unchanged |
| JsonRules.TraceRecordsRules | json.hpp:42 | Rules added one after another form the trace, oldest first |
| JsonRules.RequireSize | impl/json.cpp:62-73 | Fails iff the size is below `min` or, for a non-zero `max`, above it. The failure is bad_size carrying the bounds and the size; on success the value itself is returned |
| JsonRules.ZeroMaxIsUnbounded | impl/json.cpp:65 | A `max` of 0 sets no upper bound |
| JsonRules.RequireArray | impl/json.cpp:75-83 | Succeeds iff the value is an array, returning it; otherwise bad_type (array expected, actual type found) |
| JsonRules.RequireObject | impl/json.cpp:85-93 | Succeeds iff the value is an object, returning it; otherwise bad_type (object expected, actual type found) |
| JsonRules.RequireKeyAt | impl/json.cpp:95-105 | As written: succeeds iff `index <= size`; index `size` gives null; otherwise bad_index with the index |
| JsonRules.RequireKeyAtAcceptsEnd | impl/json.cpp:98-99 | `[]` at 0 and `[7]` at 1 give null instead of bad_index |
| JsonRules.RequireElement | json.hpp:60-65 | Corrected: succeeds iff the index is a position, giving that element; otherwise bad_index with the index |
| JsonRules.RequireKeyAtMatchesBelowSize | impl/json.cpp:95-105 | The written and corrected lookups agree on every index except the size |
| JsonRules.RequireKeyNamed | impl/json.cpp:107-117 | Succeeds iff the object has the member, giving it; otherwise bad_index with the name |
| JsonRules.RequireString | impl/json.cpp:120-128 | Succeeds iff the value is a string, giving its text; otherwise bad_type (string expected) |
| JsonRules.RequireInt | impl/json.cpp:130-138 | An integral value in `int` range gives its number. Any other integral value raises a non-json error. A non-integral value raises bad_type (signed expected) |
| JsonRules.OptionalKey | impl/json.cpp:141-144 | The element when the index is a position, otherwise null |
| JsonRules.OptionalKeyAgreesWithRequire | impl/json.cpp:141-144 | Where the required lookup succeeds the optional one gives the same element; where it fails, null |
| JsonRules.FirstEscape | json.hpp:96-103 | The first position whose action raises a non-json error, or the size; every earlier position succeeds or raises a json error |
| JsonRules.Logged | json.hpp:96-103 | Each log entry is a position whose action failed with exactly that error |
| JsonRules.ForEachElementSkipOnFail | json.hpp:92-104 | A non-array raises bad_type. Otherwise the action runs on positions 0 up to the first escaping error, and the json errors before it are logged. That error escapes, if any |
| JsonRules.NoEscapeVisitsAll | json.hpp:85-104 | An action that raises only json errors is run on every element |
| JsonRules.LoggedExactly | json.hpp:85-104 | A position is logged iff its action raised a json error |

## Left out

- The message-pump thread, `CreateWindow`, `GetRawInputData`, `DefRawInputProc` and `handle_message` are left out: they are calls into Win32. The model starts from the decoded `RAWINPUT` payload (`RawInputData`).
- The two `MapVirtualKey` lookups and `GetClientRect` are parameters. The clock is a time-stamp parameter.
- Logging, the `operator<<` stream output of `key_combo` and of json errors, and `get_key_name` are left out. They only print.
- Callbacks are modelled as an event log. A callback's access to the keyboard or mouse object passed to it is left out: it receives no state snapshot.
- `WindowEvents.Window.KillFocus`: runs `clear` at once, like the unqueued `WM_KILLFOCUS` case. Which thread runs it is not modelled.
- The two threads and their shared static queues are left out. The model has one window-owned client queue and sequential runs.
- `WindowEvents.Window.Run`: requires `ItemOk`. The decodability asserts (`raw_mouse`'s `result < 3`, a valid keyboard record) are checked when an item is queued rather than when it runs.
- The `BK_ASSERT`s of the source are preconditions; a failing assert is not modelled.
- `WindowEvents.Window.DoEvents`: reads the clock once per drain, so every keyboard record run in one drain is stamped with the same `now`. `set_state` reads `clock::now()` afresh for each record.
- `JsonRules.RequireInt`: treats every `Real` value as non-integral, as older jsoncpp does. jsoncpp 0.6 and later count a real with an integral value in range as an int.
- `Util.BitFlags.Equals`: states only what a true result implies (the flag is set and no other flag is). The converse, that these facts force `== f`, is not proved.
- `Util.HashStringRef`: the source reads past the end of the storage when it holds no NUL; the model stops at the end of the storage.
- jsoncpp itself is left out. Floating-point values are opaque, and `asInt` on an out-of-range integer is a non-json error.
- `JsonRules.AddRuleInfo`: returns the updated error instead of updating it in place.
- `move_on_copy` is left out: it is a C++ ownership wrapper with no behaviour.
- `get_enum_value` and `elements_in` are left out: they are compile-time identities. Here an enumerator is its integer value.
- The renderer, Direct2D and the quadtree are not part of this model.
- `Keyboards.KeyCodeOfRef`: requires a view with storage. Hashing `string_ref{}` dereferences its null `data()`, which is undefined (see "## Findings"); `KeyCodeOfView` is the total, corrected lookup.
- `KeyCombos.Equal`: requires the left combo to be no longer than the right one. Otherwise `std::equal` reads past the right combo's end, which is undefined.

## Findings

| source | as written | input that shows it | evidently intended | confidence | as-written member | corrected member |
|---|---|---|---|---|---|---|
| impl/json.cpp:98 | `require_key(json, index)` passes when `size >= index`, so the index equal to the size returns jsoncpp's null value | the empty array at index 0 | bad_index for every index that is not below the size, as the header comment says | high; not executed | JsonRules.RequireKeyAtAcceptsEnd | JsonRules.RequireElement |
| impl/keyboard.cpp:61-67 | `operator==` calls three-argument `std::equal` and compares only the left combo's length | {D} == {C, D} holds | equal iff the two combos hold the same keys | high; not executed | KeyCombos.EqualComboCounterexample | KeyCombos.SameCombo |
| impl/keyboard.cpp:129-131 | `key_code(string_ref)` hashes `str.data()` (util.hpp:67-68, loop at util.hpp:57), and `key_name` returns `string_ref{}` for a key without a name, whose `data()` is null | `key_code(key_name(KEY::ENTER))` dereferences a null pointer | the empty view hashes as the empty text, so a key without a name maps back to `NONE` | high; not executed | Keyboards.UnnamedKeyNameHasNoStorage | Keyboards.KeyNameLookupTotal |
| impl/win/win_window.cpp:624 | `bool const went_down_` declares a local that shadows the member, so the member keeps its default `false` | any key press (break flag clear) decodes as released and never reaches `on_keydown` | the member holds whether the break flag is clear | high; not executed | RawInput.DecodedKeysNeverGoDown | RawInput.DecodeKeyboardIntended |
