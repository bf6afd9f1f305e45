/**
 * `mouse` (mouse.hpp): two fixed-capacity histories of position samples,
 * newest first, and one record per button.
 *
 * A `boost::circular_buffer` with capacity `HISTORY_SIZE` is a `seq` whose
 * index 0 is `begin()`; `push_front` on a full buffer drops the back element.
 */
module MouseState {

  const BUTTON_COUNT: nat := 5
  const HISTORY_SIZE: nat := 100

  /** `mouse::coord_t`, i.e. `int16_t`. */
  type Coord = x: int | -0x8000 <= x < 0x8000

  /** `mouse::record`: a time stamp and a position. */
  datatype Sample = Sample(time: int, x: Coord, y: Coord)

  /** `mouse::button_state`. */
  datatype ButtonState = Up | Down

  /** `mouse::button_record`; its `operator bool` is `IsDown`. */
  datatype ButtonRecord = ButtonRecord(time: int, state: ButtonState) {
    predicate IsDown() {
      state == Down
    }
  }

  /**
   * `circular_buffer::push_front` at capacity `HISTORY_SIZE`: the sample
   * becomes the newest, everything else moves one place back, and a full
   * buffer loses its oldest sample.
   */
  function PushFront(h: seq<Sample>, s: Sample): (r: seq<Sample>)
    requires |h| <= HISTORY_SIZE
    ensures |r| == if |h| < HISTORY_SIZE then |h| + 1 else HISTORY_SIZE
    ensures r[0] == s
    ensures forall i | 0 <= i < |r| - 1 :: r[i + 1] == h[i]
  {
    if |h| < HISTORY_SIZE then [s] + h else [s] + h[..HISTORY_SIZE - 1]
  }

  /** A full history stays full, and its oldest sample is gone unless it equals one kept. */
  lemma PushFrontDropsOldest(h: seq<Sample>, s: Sample)
    requires |h| == HISTORY_SIZE
    ensures |PushFront(h, s)| == HISTORY_SIZE
    ensures multiset(PushFront(h, s)) == multiset(h) - multiset{h[HISTORY_SIZE - 1]} + multiset{s}
  {
    assert h == h[..HISTORY_SIZE - 1] + [h[HISTORY_SIZE - 1]];
    assert PushFront(h, s) == [s] + h[..HISTORY_SIZE - 1];
  }

  /** `mouse`: the relative and absolute histories and the button records. */
  class Mouse {
    var relHistory: seq<Sample>
    var absHistory: seq<Sample>
    const buttons: array<ButtonRecord>

    /** Both histories are full and there is one record per button. */
    ghost predicate Valid()
      reads this
    {
      |relHistory| == HISTORY_SIZE && |absHistory| == HISTORY_SIZE && buttons.Length == BUTTON_COUNT
    }

    /**
     * `mouse()`: pushes `{now, 0, 0}` into both histories `HISTORY_SIZE`
     * times and sets every button up at `now`.
     */
    constructor (now: int)
      ensures Valid() && fresh(buttons)
      ensures forall i | 0 <= i < HISTORY_SIZE :: absHistory[i] == Sample(now, 0, 0)
      ensures forall i | 0 <= i < HISTORY_SIZE :: relHistory[i] == Sample(now, 0, 0)
      ensures forall b | 0 <= b < BUTTON_COUNT :: buttons[b] == ButtonRecord(now, Up)
    {
      var rec := Sample(now, 0, 0);
      var rel, abs := [], [];
      for i := 0 to HISTORY_SIZE
        invariant |rel| == i && |abs| == i
        invariant forall j | 0 <= j < i :: rel[j] == rec && abs[j] == rec
      {
        rel := PushFront(rel, rec);
        abs := PushFront(abs, rec);
      }
      var records := new ButtonRecord[BUTTON_COUNT];
      for i := 0 to BUTTON_COUNT
        invariant forall b | 0 <= b < i :: records[b] == ButtonRecord(now, Up)
      {
        records[i] := ButtonRecord(now, Up);
      }
      relHistory, absHistory, buttons := rel, abs, records;
    }

    /** `absolute(i)`: the `i`-th newest absolute sample; the source does not check `i`. */
    function Absolute(i: nat): Sample
      reads this
      requires Valid() && i < HISTORY_SIZE
    {
      absHistory[i]
    }

    /** `relative(i)`: the `i`-th newest relative sample; the source does not check `i`. */
    function Relative(i: nat): Sample
      reads this
      requires Valid() && i < HISTORY_SIZE
    {
      relHistory[i]
    }

    /**
     * `push_absolute`: the new sample is `absolute(0)`, every older one moves
     * one place back, and the relative history and buttons are untouched.
     */
    method PushAbsolute(x: Coord, y: Coord, when: int)
      requires Valid()
      modifies this
      ensures Valid() && absHistory == PushFront(old(absHistory), Sample(when, x, y))
      ensures Absolute(0) == Sample(when, x, y)
      ensures forall i | 0 <= i < HISTORY_SIZE - 1 :: Absolute(i + 1) == old(Absolute(i))
      ensures relHistory == old(relHistory)
    {
      absHistory := PushFront(absHistory, Sample(when, x, y));
    }

    /** `push_relative`: as `push_absolute`, on the relative history. */
    method PushRelative(x: Coord, y: Coord, when: int)
      requires Valid()
      modifies this
      ensures Valid() && relHistory == PushFront(old(relHistory), Sample(when, x, y))
      ensures Relative(0) == Sample(when, x, y)
      ensures forall i | 0 <= i < HISTORY_SIZE - 1 :: Relative(i + 1) == old(Relative(i))
      ensures absHistory == old(absHistory)
    {
      relHistory := PushFront(relHistory, Sample(when, x, y));
    }

    /**
     * `set_button`: overwrites the state (down iff `down`) and the time, even
     * when the state does not change; the other buttons keep their records.
     */
    method SetButton(button: nat, when: int, down: bool)
      requires Valid() && button < BUTTON_COUNT
      modifies buttons
      ensures Button(button) == ButtonRecord(when, if down then Down else Up)
      ensures Button(button).IsDown() <==> down
      ensures forall b | 0 <= b < BUTTON_COUNT && b != button :: Button(b) == old(Button(b))
    {
      buttons[button] := ButtonRecord(when, if down then Down else Up);
    }

    /** `button(b)`: the stored record of button `b`. */
    function Button(button: nat): ButtonRecord
      reads this, buttons
      requires Valid() && button < BUTTON_COUNT
    {
      buttons[button]
    }
  }
}
