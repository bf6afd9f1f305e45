/**
 * The sequential half of `window_impl` (impl/win/win_window.cpp): what a
 * `WM_INPUT`, `WM_MOUSEMOVE`, `WM_PAINT`, `WM_SIZE` or `WM_KILLFOCUS`
 * message queues or does, what each queued item does to the mouse and
 * keyboard state when `do_events` runs it, and which callbacks it calls.
 *
 * A registered callback is a member of `listening`; calling it appends an
 * `Event` to `events`. The client queue of closures is a `seq<Item>`, each
 * item holding the values its closure captured.
 */
module WindowEvents {
  import opened KeyCodes
  import opened KeyCombos
  import opened Keyboards
  import opened MouseState
  import opened RawInput

  /** The callback slots a window has, one per `listen` overload. */
  datatype Listener =
    | OnCreate | OnPaint | OnClose | OnResize
    | OnMouseEnter | OnMouseExit | OnMouseMove | OnMouseMoveTo
    | OnMouseDown | OnMouseUp | OnMouseWheelV | OnMouseWheelH
    | OnKeyDown | OnKeyUp | OnKeyRepeat

  /** The slots whose `listen` overload has an empty body: they are never stored. */
  const IGNORED: set<Listener> := {OnMouseEnter, OnMouseExit, OnMouseWheelH}

  /** One callback invocation with the arguments it receives besides the state object. */
  datatype Event =
    | Paint
    | Resize(width: int, height: int)
    | MouseMove(dx: Coord, dy: Coord)
    | MouseMoveTo(x: Coord, y: Coord)
    | MouseDown(x: Coord, y: Coord, button: nat)
    | MouseUp(x: Coord, y: Coord, button: nat)
    | MouseWheelV(delta: Coord)
    | KeyDown(key: Keycode)
    | KeyUp(key: Keycode)
    | KeyRepeat(key: Keycode)

  /** A closure on the client queue, with what it captured. */
  datatype Item =
    | RawMouseItem(mouse: RawMouse, time: int)
    | RawKeyboardItem(keyboard: RawKeyboard, time: int)
    | MouseMoveItem(x: Coord, y: Coord, time: int)
    | PaintItem
    | ResizeItem

  /** The payload a `WM_INPUT` message carries, by `RAWINPUTHEADER::dwType`. */
  datatype RawInputData =
    | MouseInput(mouse: RawMouse)
    | KeyboardInput(keyboard: KeyboardData)
    | HidInput

  /** `mouse[i]` is only read when some button bit is set, and then must not be 3 for any button. */
  predicate ButtonsDecodable(m: RawMouse) {
    HasButtons(m) ==> forall b | 0 <= b < BUTTON_COUNT :: ButtonBits(m, b) < 3
  }

  /** What running an item asserts of what it captured. */
  predicate ItemOk(item: Item) {
    match item
    case RawMouseItem(m, _) => ButtonsDecodable(m)
    case RawKeyboardItem(k, _) => k.IsValid() && k.Key() < KEY_COUNT
    case _ => true
  }

  // ---------------------------------------------------------------------------
  // Dispatch rules
  // ---------------------------------------------------------------------------

  /**
   * The callback `handle_raw_keyboard_` calls once `set_state` has reported
   * `repeat`: repeat for no transition (a repeated release included), else
   * down or up by `wentDown`, each only when registered.
   */
  function KeyEvents(repeat: bool, wentDown: bool, key: Keycode, listening: set<Listener>): (r: seq<Event>)
    ensures |r| <= 1
    ensures r == [KeyRepeat(key)] <==> repeat && OnKeyRepeat in listening
    ensures r == [KeyDown(key)] <==> !repeat && wentDown && OnKeyDown in listening
    ensures r == [KeyUp(key)] <==> !repeat && !wentDown && OnKeyUp in listening
    ensures r == [] <==> !((repeat && OnKeyRepeat in listening) || (!repeat && wentDown && OnKeyDown in listening) ||
                          (!repeat && !wentDown && OnKeyUp in listening))
  {
    if repeat then (if OnKeyRepeat in listening then [KeyRepeat(key)] else [])
    else if wentDown then (if OnKeyDown in listening then [KeyDown(key)] else [])
    else if OnKeyUp in listening then [KeyUp(key)]
    else []
  }

  /** The callback for button `b` of a raw mouse record, with the cursor at `(x, y)`. */
  function ButtonEvent(m: RawMouse, listening: set<Listener>, x: Coord, y: Coord, b: nat): (r: seq<Event>)
    requires b < BUTTON_COUNT && ButtonBits(m, b) < 3
    ensures |r| <= 1
    ensures r == [MouseDown(x, y, b)] <==> ButtonTransition(m, b) == WentDown && OnMouseDown in listening
    ensures r == [MouseUp(x, y, b)] <==> ButtonTransition(m, b) == WentUp && OnMouseUp in listening
  {
    match ButtonTransition(m, b)
    case WentDown => if OnMouseDown in listening then [MouseDown(x, y, b)] else []
    case WentUp => if OnMouseUp in listening then [MouseUp(x, y, b)] else []
    case NoChange => []
  }

  /**
   * The button callbacks for buttons `0 .. n - 1`, in button order: button
   * `b` gets `on_mouse_down` exactly when it went down and that callback is
   * registered, and `on_mouse_up` exactly when it went up and that one is.
   */
  function ButtonEvents(m: RawMouse, listening: set<Listener>, x: Coord, y: Coord, n: nat): (r: seq<Event>)
    requires n <= BUTTON_COUNT && forall b | 0 <= b < n :: ButtonBits(m, b) < 3
    ensures |r| <= n
    ensures forall e | e in r :: (e.MouseDown? || e.MouseUp?) && e.x == x && e.y == y && e.button < n
  {
    if n == 0 then []
    else ButtonEvents(m, listening, x, y, n - 1) + ButtonEvent(m, listening, x, y, n - 1)
  }

  /** Button `c`'s callback is for button `c`, and is the down or up call by its transition. */
  lemma ButtonEventFires(m: RawMouse, listening: set<Listener>, x: Coord, y: Coord, c: nat, b: nat)
    requires c < BUTTON_COUNT && ButtonBits(m, c) < 3
    ensures MouseDown(x, y, b) in ButtonEvent(m, listening, x, y, c) <==>
              b == c && ButtonTransition(m, c) == WentDown && OnMouseDown in listening
    ensures MouseUp(x, y, b) in ButtonEvent(m, listening, x, y, c) <==>
              b == c && ButtonTransition(m, c) == WentUp && OnMouseUp in listening
  {
  }

  /**
   * Button `b` gets `on_mouse_down` exactly when it went down and that
   * callback is registered, and `on_mouse_up` exactly when it went up and
   * that one is.
   */
  lemma {:induction false} ButtonEventsFire(m: RawMouse, listening: set<Listener>, x: Coord, y: Coord, n: nat, b: nat)
    requires n <= BUTTON_COUNT && forall i | 0 <= i < n :: ButtonBits(m, i) < 3
    requires b < n
    ensures MouseDown(x, y, b) in ButtonEvents(m, listening, x, y, n) <==>
              ButtonTransition(m, b) == WentDown && OnMouseDown in listening
    ensures MouseUp(x, y, b) in ButtonEvents(m, listening, x, y, n) <==>
              ButtonTransition(m, b) == WentUp && OnMouseUp in listening
  {
    var front := ButtonEvents(m, listening, x, y, n - 1);
    var last := ButtonEvent(m, listening, x, y, n - 1);
    assert ButtonEvents(m, listening, x, y, n) == front + last;
    ButtonEventFires(m, listening, x, y, n - 1, b);
    if b < n - 1 {
      ButtonEventsFire(m, listening, x, y, n - 1, b);
    } else {
      assert MouseDown(x, y, b) !in front && MouseUp(x, y, b) !in front;
    }
  }

  /** `ButtonEvents` grows by one button at a time. */
  lemma ButtonEventsStep(m: RawMouse, listening: set<Listener>, x: Coord, y: Coord, i: nat)
    requires i < BUTTON_COUNT && forall b | 0 <= b <= i :: ButtonBits(m, b) < 3
    ensures ButtonEvents(m, listening, x, y, i + 1) == ButtonEvents(m, listening, x, y, i) + ButtonEvent(m, listening, x, y, i)
  {
  }

  /**
   * The callbacks `handle_raw_mouse_` calls, in order: the relative move,
   * the button transitions at the newest absolute position `pos`, then the
   * vertical wheel.
   */
  function MouseEvents(m: RawMouse, listening: set<Listener>, pos: Sample): (r: seq<Event>)
    requires ButtonsDecodable(m)
    ensures |r| <= BUTTON_COUNT + 2
    ensures MouseMove(X(m), Y(m)) in r <==> HasMovement(m) && OnMouseMove in listening
    ensures MouseWheelV(WheelDelta(m)) in r <==> HasWheel(m) && OnMouseWheelV in listening
    ensures forall e | e in r && (e.MouseDown? || e.MouseUp?) :: HasButtons(m) && e.x == pos.x && e.y == pos.y
  {
    (if HasMovement(m) && OnMouseMove in listening then [MouseMove(X(m), Y(m))] else []) +
    (if HasButtons(m) then ButtonEvents(m, listening, pos.x, pos.y, BUTTON_COUNT) else []) +
    (if HasWheel(m) && OnMouseWheelV in listening then [MouseWheelV(WheelDelta(m))] else [])
  }

  /**
   * The mouse callbacks come in order: first the move (if any), then exactly
   * the run of `ButtonEvents` when some button bit is set, then the wheel
   * (if any).
   */
  lemma MouseEventsOrder(m: RawMouse, listening: set<Listener>, pos: Sample)
    requires ButtonsDecodable(m)
    ensures var r := MouseEvents(m, listening, pos);
            var k := if HasMovement(m) && OnMouseMove in listening then 1 else 0;
            var buttons := if HasButtons(m) then ButtonEvents(m, listening, pos.x, pos.y, BUTTON_COUNT) else [];
            k + |buttons| <= |r| &&
            (forall i | 0 <= i < k :: r[i] == MouseMove(X(m), Y(m))) &&
            r[k..k + |buttons|] == buttons &&
            (forall i | k + |buttons| <= i < |r| :: r[i] == MouseWheelV(WheelDelta(m)))
  {
    var move: seq<Event> := if HasMovement(m) && OnMouseMove in listening then [MouseMove(X(m), Y(m))] else [];
    var buttons := if HasButtons(m) then ButtonEvents(m, listening, pos.x, pos.y, BUTTON_COUNT) else [];
    var wheel: seq<Event> := if HasWheel(m) && OnMouseWheelV in listening then [MouseWheelV(WheelDelta(m))] else [];
    Runs(move, buttons, wheel, MouseMove(X(m), Y(m)), MouseWheelV(WheelDelta(m)));
    assert MouseEvents(m, listening, pos) == move + buttons + wheel;
  }

  /** In `a + b + c`, where `a` repeats `x` and `c` repeats `z`, `b` sits between them. */
  lemma Runs<T>(a: seq<T>, b: seq<T>, c: seq<T>, x: T, z: T)
    requires forall i | 0 <= i < |a| :: a[i] == x
    requires forall i | 0 <= i < |c| :: c[i] == z
    ensures var r := a + b + c;
            (forall i | 0 <= i < |a| :: r[i] == x) && r[|a|..|a| + |b|] == b &&
            (forall i | |a| + |b| <= i < |r| :: r[i] == z)
  {
    var r := a + b + c;
    assert forall i | |a| + |b| <= i < |r| :: r[i] == c[i - |a| - |b|];
    assert r[|a|..|a| + |b|] == b;
  }

  /** Button `b`'s record after a raw mouse record arrives at `when`. */
  function ButtonAfter(before: ButtonRecord, m: RawMouse, b: nat, when: int): (r: ButtonRecord)
    requires b < BUTTON_COUNT && ButtonsDecodable(m)
    ensures !HasButtons(m) || ButtonTransition(m, b) == NoChange ==> r == before
    ensures HasButtons(m) && ButtonTransition(m, b) != NoChange ==>
              r.time == when && (r.IsDown() <==> ButtonTransition(m, b) == WentDown)
  {
    if !HasButtons(m) then before
    else match ButtonTransition(m, b)
      case WentDown => ButtonRecord(when, Down)
      case WentUp => ButtonRecord(when, Up)
      case NoChange => before
  }

  /**
   * The items one `WM_INPUT` message queues: a mouse record, or a valid
   * keyboard record. The keyboard record is decoded as written, so it
   * always reads as released.
   */
  function WmInputItems(input: RawInputData, vkToScan: bv32 -> bv32, scanToVk: bv32 -> bv32, time: int): (r: seq<Item>)
    requires input.KeyboardInput? && input.keyboard.vKey != 0xFF ==>
               !(VirtualKey(input.keyboard, KeyScancode(input.keyboard, vkToScan), scanToVk) == VK_CLEAR && IsE0(input.keyboard))
    requires input.MouseInput? ==> ButtonsDecodable(input.mouse)
    ensures |r| <= 1
    ensures forall i | 0 <= i < |r| :: ItemOk(r[i]) && (r[i].RawMouseItem? || r[i].RawKeyboardItem?) && r[i].time == time
    ensures input.MouseInput? ==> r == [RawMouseItem(input.mouse, time)]
    ensures input.KeyboardInput? ==> (r != [] <==> input.keyboard.vKey != 0xFF)
    ensures input.KeyboardInput? && r != [] ==>
              r[0].RawKeyboardItem? && r[0].keyboard.IsValid() && !r[0].keyboard.WentDown() &&
              r[0].keyboard.Key() == TranslateKey(VirtualKey(input.keyboard, KeyScancode(input.keyboard, vkToScan), scanToVk),
                                                  IsE0(input.keyboard))
    ensures input.HidInput? ==> r == []
  {
    match input
    case MouseInput(m) => [RawMouseItem(m, time)]
    case KeyboardInput(kb) =>
      var record := DecodeKeyboard(kb, vkToScan, scanToVk);
      if record.IsValid() then [RawKeyboardItem(record, time)] else []
    case HidInput => []
  }

  /**
   * The items `WM_INPUT` would queue with `raw_keyboard` decoding the break
   * flag: the same items, except that a keyboard record goes down exactly
   * when the break flag is clear.
   */
  function WmInputItemsIntended(input: RawInputData, vkToScan: bv32 -> bv32, scanToVk: bv32 -> bv32, time: int): (r: seq<Item>)
    requires input.KeyboardInput? && input.keyboard.vKey != 0xFF ==>
               !(VirtualKey(input.keyboard, KeyScancode(input.keyboard, vkToScan), scanToVk) == VK_CLEAR && IsE0(input.keyboard))
    requires input.MouseInput? ==> ButtonsDecodable(input.mouse)
    ensures |r| == |WmInputItems(input, vkToScan, scanToVk, time)|
    ensures !input.KeyboardInput? ==> r == WmInputItems(input, vkToScan, scanToVk, time)
    ensures forall i | 0 <= i < |r| :: ItemOk(r[i])
    ensures input.KeyboardInput? && r != [] ==>
              var written := WmInputItems(input, vkToScan, scanToVk, time)[0];
              r[0].RawKeyboardItem? && r[0].keyboard.IsValid() &&
              r[0].keyboard.Key() == written.keyboard.Key() && r[0].time == time &&
              (r[0].keyboard.WentDown() <==> input.keyboard.flags & RI_KEY_BREAK == 0)
  {
    match input
    case KeyboardInput(kb) =>
      var record := DecodeKeyboardIntended(kb, vkToScan, scanToVk);
      if record.IsValid() then [RawKeyboardItem(record, time)] else []
    case _ => WmInputItems(input, vkToScan, scanToVk, time)
  }

  /** The item `WM_MOUSEMOVE` queues: the sign-extended low and high words of `lParam`. */
  function MouseMoveItemOf(lParam: int, time: int): (r: Item)
    ensures r.MouseMoveItem? && r.time == time
    ensures (r.x - lParam) % 0x1_0000 == 0 && (r.y - lParam / 0x1_0000) % 0x1_0000 == 0
  {
    MouseMoveItem(DecodeMouseMove(lParam).0, DecodeMouseMove(lParam).1, time)
  }

  /** The `KeyUp` calls `clear` makes for the keys it releases. */
  function KeyUpEvents(keys: seq<Keycode>): (r: seq<Event>)
    ensures |r| == |keys|
    ensures forall i | 0 <= i < |r| :: r[i] == KeyUp(keys[i])
  {
    if keys == [] then [] else [KeyUp(keys[0])] + KeyUpEvents(keys[1..])
  }

  // ---------------------------------------------------------------------------
  // Properties of the dispatch rules
  // ---------------------------------------------------------------------------

  /** No registered callback, no event: the mouse state is still updated (see `HandleRawMouse`). */
  lemma {:induction false} ButtonEventsNeedListeners(m: RawMouse, x: Coord, y: Coord, n: nat)
    requires n <= BUTTON_COUNT && forall b | 0 <= b < n :: ButtonBits(m, b) < 3
    ensures ButtonEvents(m, {}, x, y, n) == []
  {
    if n > 0 {
      ButtonEventsNeedListeners(m, x, y, n - 1);
    }
  }

  /** A window listening to nothing sees no mouse callback. */
  lemma MouseEventsNeedListeners(m: RawMouse, pos: Sample)
    requires ButtonsDecodable(m)
    ensures MouseEvents(m, {}, pos) == []
  {
    if HasButtons(m) {
      ButtonEventsNeedListeners(m, pos.x, pos.y, BUTTON_COUNT);
    }
  }

  /** Button callbacks come in increasing button order, at most one per button. */
  lemma {:induction false} ButtonEventsAscending(m: RawMouse, listening: set<Listener>, x: Coord, y: Coord, n: nat)
    requires n <= BUTTON_COUNT && forall b | 0 <= b < n :: ButtonBits(m, b) < 3
    ensures forall i, j | 0 <= i < j < |ButtonEvents(m, listening, x, y, n)| ::
              ButtonEvents(m, listening, x, y, n)[i].button < ButtonEvents(m, listening, x, y, n)[j].button
  {
    if n > 0 {
      ButtonEventsAscending(m, listening, x, y, n - 1);
    }
  }

  /**
   * Every keyboard record `WM_INPUT` decodes reads as released, so its
   * dispatch never calls `on_keydown`; for a key that is up it reports a
   * repeat and nothing else.
   */
  lemma DecodedKeysNeverFireKeyDown(kb: KeyboardData, vkToScan: bv32 -> bv32, scanToVk: bv32 -> bv32,
                                    wasDown: bool, listening: set<Listener>)
    requires kb.vKey != 0xFF
    requires !(VirtualKey(kb, KeyScancode(kb, vkToScan), scanToVk) == VK_CLEAR && IsE0(kb))
    ensures var k := DecodeKeyboard(kb, vkToScan, scanToVk);
            var r := KeyEvents(wasDown == k.WentDown(), k.WentDown(), k.Key(), listening);
            (forall e | e in r :: !e.KeyDown?) &&
            (!wasDown ==> r == if OnKeyRepeat in listening then [KeyRepeat(k.Key())] else [])
  {
  }

  /**
   * With the break flag decoded, pressing a key that is up calls
   * `on_keydown` and releasing a key that is down calls `on_keyup`, while a
   * press of a key already down is a repeat.
   */
  lemma PressAndReleaseFire(kb: KeyboardData, vkToScan: bv32 -> bv32, scanToVk: bv32 -> bv32,
                            wasDown: bool, listening: set<Listener>)
    requires kb.vKey != 0xFF
    requires !(VirtualKey(kb, KeyScancode(kb, vkToScan), scanToVk) == VK_CLEAR && IsE0(kb))
    ensures var k := DecodeKeyboardIntended(kb, vkToScan, scanToVk);
            var pressed := kb.flags & RI_KEY_BREAK == 0;
            var r := KeyEvents(wasDown == k.WentDown(), k.WentDown(), k.Key(), listening);
            (!wasDown && pressed && OnKeyDown in listening ==> r == [KeyDown(k.Key())]) &&
            (wasDown && !pressed && OnKeyUp in listening ==> r == [KeyUp(k.Key())]) &&
            (wasDown && pressed && OnKeyRepeat in listening ==> r == [KeyRepeat(k.Key())])
  {
  }

  /** Extending a log twice is extending it once by both parts. */
  lemma Regroup<T>(a: seq<T>, b: seq<T>, c: seq<T>)
    ensures a + b + c == a + (b + c)
  {
  }

  // ---------------------------------------------------------------------------
  // Running the queue, as a function of the state
  // ---------------------------------------------------------------------------

  /**
   * The part of a window that running queued closures changes: the
   * relative and absolute mouse histories, the button records, the key
   * records and the callback log. The combo of down keys is not listed:
   * `Keyboard.Valid` makes it the down keys of the records, in descending
   * order.
   */
  datatype Snapshot = Snapshot(rel: seq<Sample>, abs: seq<Sample>, buttons: seq<ButtonRecord>,
                               keys: seq<Record>, events: seq<Event>)

  predicate SnapshotOk(s: Snapshot) {
    |s.rel| == HISTORY_SIZE && |s.abs| == HISTORY_SIZE && |s.buttons| == BUTTON_COUNT && |s.keys| == KEY_COUNT
  }

  /**
   * One queued closure run: a raw mouse record as `handle_raw_mouse_` does
   * at its captured time; a raw keyboard record as `handle_raw_keyboard_`
   * does, `set_state` stamping the clock reading `now` (the captured time is
   * unused); a position as the `WM_MOUSEMOVE` closure does; paint and resize
   * call their callbacks, a resize with the client size `width` by `height`.
   */
  function Step(s: Snapshot, item: Item, listening: set<Listener>, width: int, height: int, now: int): (r: Snapshot)
    requires SnapshotOk(s) && ItemOk(item)
    ensures SnapshotOk(r) && s.events <= r.events
  {
    match item
    case RawMouseItem(m, time) =>
      s.(rel := if HasMovement(m) then PushFront(s.rel, Sample(time, X(m), Y(m))) else s.rel,
         buttons := seq(BUTTON_COUNT, b requires 0 <= b < BUTTON_COUNT => ButtonAfter(s.buttons[b], m, b, time)),
         events := s.events + MouseEvents(m, listening, s.abs[0]))
    case RawKeyboardItem(k, _) =>
      var key := k.Key();
      var repeat := s.keys[key].isDown == k.WentDown();
      s.(keys := if repeat then s.keys else s.keys[key := Record(now, k.WentDown())],
         events := s.events + KeyEvents(repeat, k.WentDown(), key, listening))
    case MouseMoveItem(x, y, time) =>
      s.(abs := PushFront(s.abs, Sample(time, x, y)),
         events := s.events + if OnMouseMoveTo in listening then [MouseMoveTo(x, y)] else [])
    case PaintItem =>
      s.(events := s.events + if OnPaint in listening then [Paint] else [])
    case ResizeItem =>
      s.(events := s.events + if OnResize in listening then [Resize(width, height)] else [])
  }

  /**
   * What each kind of closure leaves alone: only a raw mouse record touches
   * the relative history and the buttons, only a position the absolute
   * history, and a keyboard record only its own key's record; paint and
   * resize call at most one callback.
   */
  lemma StepFrames(s: Snapshot, item: Item, listening: set<Listener>, width: int, height: int, now: int)
    requires SnapshotOk(s) && ItemOk(item)
    ensures var r := Step(s, item, listening, width, height, now);
            (!item.RawMouseItem? ==> r.rel == s.rel && r.buttons == s.buttons) &&
            (!item.MouseMoveItem? ==> r.abs == s.abs) &&
            (!item.RawKeyboardItem? ==> r.keys == s.keys) &&
            (item.RawKeyboardItem? ==>
               forall k | 0 <= k < KEY_COUNT && k != item.keyboard.Key() :: r.keys[k] == s.keys[k]) &&
            (item.PaintItem? || item.ResizeItem? ==> |r.events| <= |s.events| + 1)
  {
  }

  predicate AllOk(queue: seq<Item>) {
    forall i | 0 <= i < |queue| :: ItemOk(queue[i])
  }

  /** `do_events` on a queue: every closure in turn, front first. */
  function Drain(s: Snapshot, queue: seq<Item>, listening: set<Listener>, width: int, height: int, now: int): (r: Snapshot)
    requires SnapshotOk(s) && AllOk(queue)
    ensures SnapshotOk(r) && s.events <= r.events
    decreases |queue|
  {
    if queue == [] then s
    else Drain(Step(s, queue[0], listening, width, height, now), queue[1..], listening, width, height, now)
  }

  /** Draining two queues one after the other is draining them joined. */
  lemma {:induction false} DrainAppend(s: Snapshot, a: seq<Item>, b: seq<Item>, listening: set<Listener>,
                                       width: int, height: int, now: int)
    requires SnapshotOk(s) && AllOk(a) && AllOk(b)
    ensures AllOk(a + b)
    ensures Drain(s, a + b, listening, width, height, now) ==
            Drain(Drain(s, a, listening, width, height, now), b, listening, width, height, now)
    decreases |a|
  {
    assert forall i | 0 <= i < |a + b| :: (a + b)[i] == if i < |a| then a[i] else b[i - |a|];
    if a == [] {
      assert a + b == b;
    } else {
      assert (a + b)[0] == a[0] && (a + b)[1..] == a[1..] + b;
      assert AllOk(a[1..]);
      var next := Step(s, a[0], listening, width, height, now);
      DrainAppend(next, a[1..], b, listening, width, height, now);
      assert Drain(s, a + b, listening, width, height, now) == Drain(next, a[1..] + b, listening, width, height, now);
      assert Drain(s, a, listening, width, height, now) == Drain(next, a[1..], listening, width, height, now);
    }
  }

  /** A window listening to nothing logs no callback, however long its queue. */
  lemma {:induction false} DrainSilentWithoutListeners(s: Snapshot, queue: seq<Item>, width: int, height: int, now: int)
    requires SnapshotOk(s) && AllOk(queue)
    ensures Drain(s, queue, {}, width, height, now).events == s.events
    decreases |queue|
  {
    if queue != [] {
      var item := queue[0];
      if item.RawMouseItem? {
        MouseEventsNeedListeners(item.mouse, s.abs[0]);
      }
      var next := Step(s, item, {}, width, height, now);
      assert next.events == s.events;
      assert AllOk(queue[1..]);
      DrainSilentWithoutListeners(next, queue[1..], width, height, now);
    }
  }

  /** A raw mouse record calls mouse callbacks only. */
  lemma MouseEventsAreMouse(m: RawMouse, listening: set<Listener>, pos: Sample)
    requires ButtonsDecodable(m)
    ensures forall e | e in MouseEvents(m, listening, pos) :: e.MouseMove? || e.MouseDown? || e.MouseUp? || e.MouseWheelV?
  {
    var buttons := if HasButtons(m) then ButtonEvents(m, listening, pos.x, pos.y, BUTTON_COUNT) else [];
    assert forall e | e in buttons :: e.MouseDown? || e.MouseUp?;
  }

  /** One closure of `DrainNeverPressesKeys`. */
  lemma StepNeverPressesKeys(s: Snapshot, item: Item, listening: set<Listener>, width: int, height: int, now: int)
    requires SnapshotOk(s) && ItemOk(item)
    requires item.RawKeyboardItem? ==> !item.keyboard.WentDown()
    ensures var r := Step(s, item, listening, width, height, now);
            forall k | 0 <= k < KEY_COUNT && r.keys[k].isDown :: s.keys[k].isDown
    ensures var r := Step(s, item, listening, width, height, now);
            forall e | e in r.events[|s.events|..] :: !e.KeyDown?
  {
    var r := Step(s, item, listening, width, height, now);
    match item
    case RawMouseItem(m, _) =>
      assert r.keys == s.keys;
      assert r.events[|s.events|..] == MouseEvents(m, listening, s.abs[0]);
      MouseEventsAreMouse(m, listening, s.abs[0]);
    case RawKeyboardItem(k, _) =>
      var key := k.Key();
      assert r.events[|s.events|..] == KeyEvents(s.keys[key].isDown == k.WentDown(), k.WentDown(), key, listening);
    case _ =>
      assert r.keys == s.keys;
      assert |r.events[|s.events|..]| <= 1;
  }

  /**
   * Keyboard records that read as released, as every record `WM_INPUT`
   * queues does, never put a key down nor call `on_keydown`, whatever else
   * the queue holds.
   */
  lemma {:induction false} DrainNeverPressesKeys(s: Snapshot, queue: seq<Item>, listening: set<Listener>,
                                                 width: int, height: int, now: int)
    requires SnapshotOk(s) && AllOk(queue)
    requires forall i | 0 <= i < |queue| && queue[i].RawKeyboardItem? :: !queue[i].keyboard.WentDown()
    ensures var r := Drain(s, queue, listening, width, height, now);
            forall k | 0 <= k < KEY_COUNT && r.keys[k].isDown :: s.keys[k].isDown
    ensures var r := Drain(s, queue, listening, width, height, now);
            forall e | e in r.events[|s.events|..] :: !e.KeyDown?
    decreases |queue|
  {
    if queue != [] {
      var next := Step(s, queue[0], listening, width, height, now);
      StepNeverPressesKeys(s, queue[0], listening, width, height, now);
      assert AllOk(queue[1..]);
      DrainNeverPressesKeys(next, queue[1..], listening, width, height, now);
      var r := Drain(next, queue[1..], listening, width, height, now);
      assert r.events[|s.events|..] == next.events[|s.events|..] + r.events[|next.events|..];
    }
  }

  /**
   * As written, a key press that arrives through `WM_INPUT` and is then run
   * by `do_events` never puts its key down and never calls `on_keydown`.
   */
  lemma WmInputPressAsWritten(s: Snapshot, kb: KeyboardData, vkToScan: bv32 -> bv32, scanToVk: bv32 -> bv32,
                              time: int, listening: set<Listener>, width: int, height: int, now: int)
    requires SnapshotOk(s) && kb.vKey != 0xFF
    requires !(VirtualKey(kb, KeyScancode(kb, vkToScan), scanToVk) == VK_CLEAR && IsE0(kb))
    ensures AllOk(WmInputItems(KeyboardInput(kb), vkToScan, scanToVk, time))
    ensures var r := Drain(s, WmInputItems(KeyboardInput(kb), vkToScan, scanToVk, time), listening, width, height, now);
            (forall k | 0 <= k < KEY_COUNT && r.keys[k].isDown :: s.keys[k].isDown) &&
            (forall e | e in r.events[|s.events|..] :: !e.KeyDown?)
  {
    DrainNeverPressesKeys(s, WmInputItems(KeyboardInput(kb), vkToScan, scanToVk, time), listening, width, height, now);
  }

  /**
   * With the break flag decoded, a press of a key that is up, run by
   * `do_events`, puts the key down at `now` and calls `on_keydown` once.
   */
  lemma WmInputPressIntended(s: Snapshot, kb: KeyboardData, vkToScan: bv32 -> bv32, scanToVk: bv32 -> bv32,
                             time: int, listening: set<Listener>, width: int, height: int, now: int)
    requires SnapshotOk(s) && kb.vKey != 0xFF && kb.flags & RI_KEY_BREAK == 0
    requires !(VirtualKey(kb, KeyScancode(kb, vkToScan), scanToVk) == VK_CLEAR && IsE0(kb))
    ensures var items := WmInputItemsIntended(KeyboardInput(kb), vkToScan, scanToVk, time);
            AllOk(items) && |items| == 1 && items[0].RawKeyboardItem?
    ensures var items := WmInputItemsIntended(KeyboardInput(kb), vkToScan, scanToVk, time);
            var key := items[0].keyboard.Key();
            var r := Drain(s, items, listening, width, height, now);
            key < KEY_COUNT &&
            (!s.keys[key].isDown ==>
              r.keys[key] == Record(now, true) &&
              r.events == s.events + if OnKeyDown in listening then [KeyDown(key)] else [])
  {
    var items := WmInputItemsIntended(KeyboardInput(kb), vkToScan, scanToVk, time);
    assert |WmInputItems(KeyboardInput(kb), vkToScan, scanToVk, time)| == 1;
    assert items[1..] == [];
  }

  /** A queued resize, with `on_resize` registered, calls it once with the client size and changes nothing else. */
  lemma ResizeQueueRunsResize(s: Snapshot, listening: set<Listener>, width: int, height: int, now: int)
    requires SnapshotOk(s) && OnResize in listening
    ensures AllOk([ResizeItem])
    ensures Drain(s, [ResizeItem], listening, width, height, now) == s.(events := s.events + [Resize(width, height)])
  {
    assert AllOk([ResizeItem]);
    assert [ResizeItem][1..] == [];
  }

  // ---------------------------------------------------------------------------
  // The window
  // ---------------------------------------------------------------------------

  /** `window_impl`: the mouse and keyboard state, the callbacks, and the client queue. */
  class Window {
    const mouseState: Mouse
    const keyboardState: Keyboard
    var listening: set<Listener>
    /** Every callback called so far, oldest first. */
    var events: seq<Event>
    /** `client_queue_`, front first. */
    var queue: seq<Item>
    /** Every item `do_events` has run, in the order it ran them. */
    ghost var handled: seq<Item>

    ghost predicate Valid()
      reads this, mouseState, keyboardState, keyboardState.keys, keyboardState.state
    {
      mouseState.Valid() && keyboardState.Valid() && AllOk(queue)
    }

    /** The part of the window that running closures changes. */
    ghost function Snap(): Snapshot
      reads this, mouseState, mouseState.buttons, keyboardState, keyboardState.state
    {
      Snapshot(mouseState.relHistory, mouseState.absHistory, mouseState.buttons[..], keyboardState.state[..], events)
    }

    /** The members' initial state: a fresh mouse and keyboard, no callbacks, an empty queue. */
    constructor (now: int)
      ensures Valid() && fresh(mouseState) && fresh(mouseState.buttons)
      ensures fresh(keyboardState) && fresh(keyboardState.keys) && fresh(keyboardState.state)
      ensures listening == {} && events == [] && queue == [] && handled == []
      ensures forall k | 0 <= k < KEY_COUNT :: keyboardState.state[k] == Record(now, false)
      ensures forall b | 0 <= b < BUTTON_COUNT :: mouseState.buttons[b] == ButtonRecord(now, Up)
      ensures forall i | 0 <= i < HISTORY_SIZE ::
                mouseState.absHistory[i] == Sample(now, 0, 0) && mouseState.relHistory[i] == Sample(now, 0, 0)
    {
      mouseState := new Mouse(now);
      keyboardState := new Keyboard(now);
      listening, events, queue, handled := {}, [], [], [];
    }

    /**
     * `listen(callback)`: stores the callback in its slot, an empty one
     * clearing it; the enter, exit and horizontal-wheel slots are never set.
     */
    method Listen(slot: Listener, hasCallback: bool)
      modifies this
      ensures slot in IGNORED ==> listening == old(listening)
      ensures slot !in IGNORED ==> (slot in listening <==> hasCallback)
      ensures forall l | l != slot :: l in listening <==> l in old(listening)
      ensures events == old(events) && queue == old(queue) && handled == old(handled)
    {
      if slot !in IGNORED {
        listening := if hasCallback then listening + {slot} else listening - {slot};
      }
    }

    /**
     * `handle_raw_keyboard_`: `set_state` with the record's key and state,
     * stamped with the clock reading `now` taken when the closure runs, then
     * at most one key callback chosen by `KeyEvents`.
     */
    method HandleRawKeyboard(record: RawKeyboard, now: int)
      requires Valid() && record.IsValid() && record.Key() < KEY_COUNT
      modifies keyboardState.keys, keyboardState.state, this
      ensures Valid() && queue == old(queue) && listening == old(listening) && handled == old(handled)
      ensures events == old(events) +
                KeyEvents(old(keyboardState.state[record.Key()].isDown) == record.WentDown(),
                          record.WentDown(), record.Key(), listening)
      ensures keyboardState.state[record.Key()] ==
                if old(keyboardState.state[record.Key()].isDown) == record.WentDown()
                then old(keyboardState.state[record.Key()])
                else Record(now, record.WentDown())
      ensures forall k | 0 <= k < KEY_COUNT && k != record.Key() :: keyboardState.state[k] == old(keyboardState.state[k])
      ensures Elements(keyboardState.keys.keys) ==
                if record.WentDown() then old(Elements(keyboardState.keys.keys)) + {record.Key()}
                else old(Elements(keyboardState.keys.keys)) - {record.Key()}
    {
      var wentDown := record.WentDown();
      var key := record.Key();
      var repeat := keyboardState.SetState(key, wentDown, now);
      events := events + KeyEvents(repeat, wentDown, key, listening);
    }

    /**
     * `handle_raw_mouse_`: a relative sample for a movement, the button
     * records for each transition, then the callbacks of `MouseEvents`;
     * the state changes whether or not a callback is registered, and the
     * wheel changes none.
     */
    method HandleRawMouse(m: RawMouse, when: int)
      requires Valid() && ButtonsDecodable(m)
      modifies mouseState, mouseState.buttons, this
      ensures Valid() && queue == old(queue) && listening == old(listening) && handled == old(handled)
      ensures mouseState.relHistory ==
                if HasMovement(m) then PushFront(old(mouseState.relHistory), Sample(when, X(m), Y(m)))
                else old(mouseState.relHistory)
      ensures mouseState.absHistory == old(mouseState.absHistory)
      ensures forall b | 0 <= b < BUTTON_COUNT :: mouseState.buttons[b] == ButtonAfter(old(mouseState.buttons[b]), m, b, when)
      ensures events == old(events) + MouseEvents(m, listening, old(mouseState.absHistory[0]))
    {
      ghost var pos := mouseState.absHistory[0];
      ghost var moveCalls: seq<Event> := if HasMovement(m) && OnMouseMove in listening then [MouseMove(X(m), Y(m))] else [];
      ghost var buttonCalls := if HasButtons(m) then ButtonEvents(m, listening, pos.x, pos.y, BUTTON_COUNT) else [];
      ghost var wheelCalls: seq<Event> := if HasWheel(m) && OnMouseWheelV in listening then [MouseWheelV(WheelDelta(m))] else [];
      assert MouseEvents(m, listening, pos) == moveCalls + buttonCalls + wheelCalls;

      HandleMovement(m, when);

      if HasButtons(m) {
        HandleButtons(m, when);
      }
      assert events == old(events) + moveCalls + buttonCalls;

      if HasWheel(m) && OnMouseWheelV in listening {
        events := events + [MouseWheelV(WheelDelta(m))];
      }
      assert events == old(events) + moveCalls + buttonCalls + wheelCalls;
      Regroup(old(events), moveCalls, buttonCalls);
      Regroup(old(events), moveCalls + buttonCalls, wheelCalls);
    }

    /** The movement block of `handle_raw_mouse_`: a relative sample, then `on_mouse_move`. */
    method HandleMovement(m: RawMouse, when: int)
      requires Valid()
      modifies mouseState, this
      ensures Valid() && queue == old(queue) && listening == old(listening) && handled == old(handled)
      ensures mouseState.relHistory ==
                if HasMovement(m) then PushFront(old(mouseState.relHistory), Sample(when, X(m), Y(m)))
                else old(mouseState.relHistory)
      ensures mouseState.absHistory == old(mouseState.absHistory)
      ensures events == old(events) + if HasMovement(m) && OnMouseMove in listening then [MouseMove(X(m), Y(m))] else []
    {
      if HasMovement(m) {
        mouseState.PushRelative(X(m), Y(m), when);
        if OnMouseMove in listening {
          events := events + [MouseMove(X(m), Y(m))];
        }
      }
    }

    /**
     * The button half of `handle_raw_mouse_`: each button in order, with
     * the newest absolute position.
     */
    method HandleButtons(m: RawMouse, when: int)
      requires Valid() && HasButtons(m) && ButtonsDecodable(m)
      modifies mouseState.buttons, this
      ensures Valid() && queue == old(queue) && listening == old(listening) && handled == old(handled)
      ensures forall b | 0 <= b < BUTTON_COUNT :: mouseState.buttons[b] == ButtonAfter(old(mouseState.buttons[b]), m, b, when)
      ensures events == old(events) + ButtonEvents(m, listening, mouseState.absHistory[0].x, mouseState.absHistory[0].y, BUTTON_COUNT)
    {
      var ms := mouseState.Absolute(0);
      var x, y := ms.x, ms.y;
      for i := 0 to BUTTON_COUNT
        invariant Valid() && queue == old(queue) && listening == old(listening) && handled == old(handled)
        invariant forall b | 0 <= b < i :: mouseState.buttons[b] == ButtonAfter(old(mouseState.buttons[b]), m, b, when)
        invariant forall b | i <= b < BUTTON_COUNT :: mouseState.buttons[b] == old(mouseState.buttons[b])
        invariant events == old(events) + ButtonEvents(m, listening, x, y, i)
      {
        ButtonEventsStep(m, listening, x, y, i);
        HandleButton(m, i, when, x, y);
        Regroup(old(events), ButtonEvents(m, listening, x, y, i), ButtonEvent(m, listening, x, y, i));
      }
    }

    /**
     * One turn of the button loop: `went_down` or `went_up` stamps the
     * record and calls back; `no_change` does nothing.
     */
    method HandleButton(m: RawMouse, i: nat, when: int, x: Coord, y: Coord)
      requires Valid() && i < BUTTON_COUNT && HasButtons(m) && ButtonsDecodable(m)
      modifies mouseState.buttons, this
      ensures Valid() && queue == old(queue) && listening == old(listening) && handled == old(handled)
      ensures mouseState.buttons[i] == ButtonAfter(old(mouseState.buttons[i]), m, i, when)
      ensures forall b | 0 <= b < BUTTON_COUNT && b != i :: mouseState.buttons[b] == old(mouseState.buttons[b])
      ensures events == old(events) + ButtonEvent(m, listening, x, y, i)
    {
      match ButtonTransition(m, i)
      case WentDown =>
        mouseState.SetButton(i, when, true);
        forall b | 0 <= b < BUTTON_COUNT && b != i
          ensures mouseState.buttons[b] == old(mouseState.buttons[b])
        {
          assert mouseState.Button(b) == old(mouseState.Button(b));
        }
        if OnMouseDown in listening {
          events := events + [MouseDown(x, y, i)];
        }
      case WentUp =>
        mouseState.SetButton(i, when, false);
        forall b | 0 <= b < BUTTON_COUNT && b != i
          ensures mouseState.buttons[b] == old(mouseState.buttons[b])
        {
          assert mouseState.Button(b) == old(mouseState.Button(b));
        }
        if OnMouseUp in listening {
          events := events + [MouseUp(x, y, i)];
        }
      case NoChange =>
    }

    /** The queued `WM_MOUSEMOVE` closure: an absolute sample, then `on_mouse_move_to`. */
    method HandleMouseMoveTo(x: Coord, y: Coord, when: int)
      requires Valid()
      modifies mouseState, this
      ensures Valid() && queue == old(queue) && listening == old(listening) && handled == old(handled)
      ensures mouseState.absHistory == PushFront(old(mouseState.absHistory), Sample(when, x, y))
      ensures mouseState.relHistory == old(mouseState.relHistory)
      ensures events == old(events) + if OnMouseMoveTo in listening then [MouseMoveTo(x, y)] else []
    {
      mouseState.PushAbsolute(x, y, when);
      if OnMouseMoveTo in listening {
        events := events + [MouseMoveTo(x, y)];
      }
    }

    /**
     * `handle_wm_input_`: queues a mouse record, or a keyboard record when
     * it is valid; HID input is ignored. The Win32 scan-code lookups are
     * the parameters `vkToScan` and `scanToVk`.
     */
    method HandleWmInput(input: RawInputData, vkToScan: bv32 -> bv32, scanToVk: bv32 -> bv32, time: int)
      requires Valid()
      requires input.KeyboardInput? && input.keyboard.vKey != 0xFF ==>
                 !(VirtualKey(input.keyboard, KeyScancode(input.keyboard, vkToScan), scanToVk) == VK_CLEAR && IsE0(input.keyboard))
      requires input.MouseInput? ==> ButtonsDecodable(input.mouse)
      modifies this
      ensures Valid() && queue == old(queue) + WmInputItems(input, vkToScan, scanToVk, time)
      ensures events == old(events) && listening == old(listening) && handled == old(handled)
    {
      queue := queue + WmInputItems(input, vkToScan, scanToVk, time);
    }

    /** `WM_MOUSEMOVE`: queues the position unpacked from `lParam`. */
    method HandleMouseMove(lParam: int, time: int)
      requires Valid()
      modifies this
      ensures Valid() && queue == old(queue) + [MouseMoveItemOf(lParam, time)]
      ensures events == old(events) && listening == old(listening) && handled == old(handled)
    {
      queue := queue + [MouseMoveItemOf(lParam, time)];
    }

    /** `WM_PAINT`: queues the paint callback. */
    method HandlePaint()
      requires Valid()
      modifies this
      ensures Valid() && queue == old(queue) + [PaintItem]
      ensures events == old(events) && listening == old(listening) && handled == old(handled)
    {
      queue := queue + [PaintItem];
    }

    /** `WM_SIZE`: queues the resize callback; the client rectangle is read when it runs. */
    method HandleSize()
      requires Valid()
      modifies this
      ensures Valid() && queue == old(queue) + [ResizeItem]
      ensures events == old(events) && listening == old(listening) && handled == old(handled)
    {
      queue := queue + [ResizeItem];
    }

    /**
     * `WM_KILLFOCUS`: `keyboard_state_.clear(on_keyup_)`, run at once rather
     * than queued; `on_keyup_` sees every key that was down, in code order.
     */
    method KillFocus(now: int)
      requires Valid()
      modifies keyboardState.keys, keyboardState.state, this
      ensures Valid() && keyboardState.keys.keys == []
      ensures forall k | 0 <= k < KEY_COUNT :: keyboardState.state[k] ==
                if old(keyboardState.state[k].isDown) then Record(now, false) else old(keyboardState.state[k])
      ensures events == old(events) +
                if OnKeyUp in listening then KeyUpEvents(DownCodes(old(keyboardState.state[..]), KEY_COUNT)) else []
      ensures queue == old(queue) && listening == old(listening) && handled == old(handled)
    {
      var calls := keyboardState.Clear(OnKeyUp in listening, now);
      events := events + KeyUpEvents(calls);
    }

    /**
     * Runs one queued closure, as `Step` says: a raw keyboard record is
     * stamped with the clock reading `now`, and a resize reads the client
     * rectangle, whose size is `width` by `height`. Only a keyboard record
     * changes the down keys.
     */
    method Run(item: Item, width: int, height: int, now: int)
      requires Valid() && ItemOk(item)
      modifies this, mouseState, mouseState.buttons, keyboardState.keys, keyboardState.state
      ensures Valid() && queue == old(queue) && listening == old(listening) && handled == old(handled)
      ensures Snap() == Step(old(Snap()), item, listening, width, height, now)
      ensures !item.RawKeyboardItem? ==> keyboardState.keys.keys == old(keyboardState.keys.keys)
    {
      ghost var before := Snap();
      match item
      case RawMouseItem(m, time) =>
        HandleRawMouse(m, time);
        assert mouseState.buttons[..] == Step(before, item, listening, width, height, now).buttons;
      case RawKeyboardItem(k, _) =>
        HandleRawKeyboard(k, now);
        assert keyboardState.state[..] == Step(before, item, listening, width, height, now).keys;
      case MouseMoveItem(x, y, time) =>
        HandleMouseMoveTo(x, y, time);
      case PaintItem =>
        if OnPaint in listening {
          events := events + [Paint];
        }
      case ResizeItem =>
        if OnResize in listening {
          events := events + [Resize(width, height)];
        }
    }

    /**
     * `do_events`: runs the queued closures front first until the queue is
     * empty; the new state is `Drain` of the old one over the old queue.
     * The clock is read once, as `now`, for the whole drain.
     */
    method DoEvents(width: int, height: int, now: int)
      requires Valid()
      modifies this, mouseState, mouseState.buttons, keyboardState.keys, keyboardState.state
      ensures Valid() && queue == [] && handled == old(handled) + old(queue) && listening == old(listening)
      ensures Snap() == Drain(old(Snap()), old(queue), listening, width, height, now)
    {
      ghost var goal := Drain(Snap(), queue, listening, width, height, now);
      while queue != []
        invariant Valid() && handled + queue == old(handled) + old(queue) && listening == old(listening)
        invariant Drain(Snap(), queue, listening, width, height, now) == goal
        decreases |queue|
      {
        RunFront(width, height, now);
      }
      assert Drain(Snap(), [], listening, width, height, now) == Snap();
    }

    /** One turn of `do_events`: pops the front closure and runs it. */
    method RunFront(width: int, height: int, now: int)
      requires Valid() && queue != []
      modifies this, mouseState, mouseState.buttons, keyboardState.keys, keyboardState.state
      ensures Valid() && queue == old(queue)[1..] && handled == old(handled) + [old(queue)[0]]
      ensures handled + queue == old(handled) + old(queue) && listening == old(listening)
      ensures Drain(Snap(), queue, listening, width, height, now) ==
              Drain(old(Snap()), old(queue), listening, width, height, now)
    {
      var item := queue[0];
      queue := queue[1..];
      Run(item, width, height, now);
      handled := handled + [item];
      assert handled + queue == old(handled) + old(queue);
    }
  }
}
