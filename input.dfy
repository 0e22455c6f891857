/** The input aggregator: once per poll it rebuilds each player's 3DS
    button mask from the RetroPad, reads both analog sticks through a
    deadzone, and maps player 0's pointer onto the 320x240 touch screen. */
module Input {
  import opened Common

  /** libretro device types. */
  const DEVICE_JOYPAD: nat := 1
  const DEVICE_ANALOG: nat := 5
  const DEVICE_POINTER: nat := 6

  /** libretro RetroPad button ids. */
  const JOYPAD_B: nat := 0
  const JOYPAD_Y: nat := 1
  const JOYPAD_SELECT: nat := 2
  const JOYPAD_START: nat := 3
  const JOYPAD_UP: nat := 4
  const JOYPAD_DOWN: nat := 5
  const JOYPAD_LEFT: nat := 6
  const JOYPAD_RIGHT: nat := 7
  const JOYPAD_A: nat := 8
  const JOYPAD_X: nat := 9
  const JOYPAD_L: nat := 10
  const JOYPAD_R: nat := 11
  const JOYPAD_L2: nat := 12
  const JOYPAD_R2: nat := 13
  const JOYPAD_L3: nat := 14

  /** libretro analog indices and axes, and pointer ids. */
  const ANALOG_AXIS_X: nat := 0
  const ANALOG_AXIS_Y: nat := 1
  const POINTER_X: nat := 0
  const POINTER_Y: nat := 1
  const POINTER_PRESSED: nat := 2

  const PLAYERS: nat := 4
  const STICKS: nat := 2
  /** The 3DS button id of mask bit 0. */
  const BUTTON_BASE: nat := 700

  /** The host's `input_state_cb`: (port, device, index, id) to a value. */
  type InputState = (nat, nat, nat, nat) -> int16

  predicate Pressed(state: InputState, player: nat, retroId: nat)
  {
    state(player, DEVICE_JOYPAD, 0, retroId) != 0
  }

  /** One row of `button_mappings`: a RetroPad id and the 3DS button id
      whose bit `button - 700` it sets. */
  datatype Mapping = Mapping(retroId: nat, button: nat)

  function Shift(m: Mapping): nat
    requires BUTTON_BASE <= m.button
  {
    m.button - BUTTON_BASE
  }

  const MAPPINGS: seq<Mapping> := [
    Mapping(JOYPAD_B, 700),
    Mapping(JOYPAD_A, 701),
    Mapping(JOYPAD_Y, 702),
    Mapping(JOYPAD_X, 703),
    Mapping(JOYPAD_SELECT, 705),
    Mapping(JOYPAD_START, 704),
    Mapping(JOYPAD_L, 707),
    Mapping(JOYPAD_R, 708),
    Mapping(JOYPAD_L2, 773),
    Mapping(JOYPAD_R2, 774),
    Mapping(JOYPAD_UP, 709),
    Mapping(JOYPAD_DOWN, 710),
    Mapping(JOYPAD_LEFT, 711),
    Mapping(JOYPAD_RIGHT, 712),
    Mapping(JOYPAD_L3, 781)
  ]

  /** No row of the table names a button id between 716 and 772. */
  lemma NoRowPastMask()
    ensures forall i | 0 <= i < |MAPPINGS| :: MAPPINGS[i].button < BUTTON_BASE + 16 || 773 <= MAPPINGS[i].button
  {
  }

  /** A mask read back at bit `button - 700`, for a table with no row
      between bit 15 and 772: set exactly when a row for `button` reads
      pressed. */
  lemma PressedFromMask(maps: seq<Mapping>, state: InputState, player: nat, mask: bv16, button: nat)
    requires WellFormed(maps) && mask == Mask(maps, state, player)
    requires BUTTON_BASE <= button < BUTTON_BASE + 32
    requires forall i | 0 <= i < |maps| :: maps[i].button < BUTTON_BASE + 16 || 773 <= maps[i].button
    ensures (button - BUTTON_BASE < 16 && mask & Bit(button - BUTTON_BASE) != 0) <==>
      exists i | 0 <= i < |maps| :: maps[i].button == button && Pressed(state, player, maps[i].retroId)
  {
    if button - BUTTON_BASE < 16 {
      MaskBit(maps, state, player, button - BUTTON_BASE);
    }
  }

  predicate WellFormed(maps: seq<Mapping>)
  {
    forall i | 0 <= i < |maps| :: BUTTON_BASE <= maps[i].button
  }

  function Bit(k: nat): bv16
    requires k < 16
  {
    1 << k
  }

  /** The mask `poll` builds for one player, corrected to skip mappings
      whose bit does not fit the 16-bit mask (see `MaskAsWritten`). */
  function Mask(maps: seq<Mapping>, state: InputState, player: nat): (mask: bv16)
    requires WellFormed(maps)
    ensures (forall i | 0 <= i < |maps| :: !Pressed(state, player, maps[i].retroId)) ==> mask == 0
  {
    if maps == [] then 0
    else
      var m := maps[|maps| - 1];
      var front := maps[..|maps| - 1];
      assert forall i | 0 <= i < |front| :: front[i] == maps[i];
      var rest := Mask(front, state, player);
      if Pressed(state, player, m.retroId) && Shift(m) < 16 then rest | Bit(Shift(m)) else rest
  }

  lemma OrBit(a: bv16, j: nat, k: nat)
    requires j < 16 && k < 16
    ensures (a | Bit(j)) & Bit(k) != 0 <==> a & Bit(k) != 0 || j == k
  {
  }

  /** Bit k of the mask is set exactly when some mapping to button
      `700 + k` reads pressed. */
  lemma {:induction false} MaskBit(maps: seq<Mapping>, state: InputState, player: nat, k: nat)
    requires WellFormed(maps) && k < 16
    ensures Mask(maps, state, player) & Bit(k) != 0 <==>
      exists i | 0 <= i < |maps| :: maps[i].button == BUTTON_BASE + k && Pressed(state, player, maps[i].retroId)
  {
    if maps != [] {
      var n := |maps| - 1;
      var m := maps[n];
      var front := maps[..n];
      MaskBit(front, state, player, k);
      if Pressed(state, player, m.retroId) && Shift(m) < 16 {
        OrBit(Mask(front, state, player), Shift(m), k);
      }
      if exists i | 0 <= i < |maps| :: maps[i].button == BUTTON_BASE + k && Pressed(state, player, maps[i].retroId) {
        var i :| 0 <= i < |maps| && maps[i].button == BUTTON_BASE + k && Pressed(state, player, maps[i].retroId);
        if i < n {
          assert front[i] == maps[i];
        }
      }
      forall i | 0 <= i < n
        ensures front[i] == maps[i]
      {
      }
    }
  }

  /** The RetroPad button the core's table maps onto mask bit k, if any. */
  function RetroFor(k: nat): Option<nat>
  {
    if k == 0 then Some(JOYPAD_B)
    else if k == 1 then Some(JOYPAD_A)
    else if k == 2 then Some(JOYPAD_Y)
    else if k == 3 then Some(JOYPAD_X)
    else if k == 4 then Some(JOYPAD_START)
    else if k == 5 then Some(JOYPAD_SELECT)
    else if k == 7 then Some(JOYPAD_L)
    else if k == 8 then Some(JOYPAD_R)
    else if k == 9 then Some(JOYPAD_UP)
    else if k == 10 then Some(JOYPAD_DOWN)
    else if k == 11 then Some(JOYPAD_LEFT)
    else if k == 12 then Some(JOYPAD_RIGHT)
    else None
  }

  /** The table row that targets button `700 + k`, for the bits that have one. */
  function RowFor(k: nat): nat
    requires RetroFor(k).Some?
  {
    if k == 4 then 5 else if k == 5 then 4
    else if k == 7 || k == 8 then k - 1
    else if 9 <= k then k + 1
    else k
  }

  /** Each 3DS button with a mask bit appears in at most one row of the
      table. */
  lemma TableRows(k: nat)
    requires k < 16
    ensures forall i | 0 <= i < |MAPPINGS| ::
      MAPPINGS[i].button == BUTTON_BASE + k <==> RetroFor(k).Some? && i == RowFor(k)
    ensures RetroFor(k).Some? ==> RowFor(k) < |MAPPINGS| && MAPPINGS[RowFor(k)].retroId == RetroFor(k).value
  {
    forall i | 0 <= i < |MAPPINGS|
      ensures MAPPINGS[i].button == BUTTON_BASE + k <==> RetroFor(k).Some? && i == RowFor(k)
    {
      assert i in {0, 1, 2, 3, 4, 5, 6, 7, 8, 9, 10, 11, 12, 13, 14};
    }
  }

  /** For the core's table: mask bit k follows the RetroPad button mapped
      to 3DS button `700 + k`; bits 6, 13, 14 and 15 have none and are
      never set. */
  lemma TableMask(state: InputState, player: nat, k: nat)
    requires k < 16
    ensures Mask(MAPPINGS, state, player) & Bit(k) != 0 <==>
      RetroFor(k).Some? && Pressed(state, player, RetroFor(k).value)
  {
    MaskBit(MAPPINGS, state, player, k);
    TableRows(k);
    if RetroFor(k).Some? {
      assert MAPPINGS[RowFor(k)].button == BUTTON_BASE + k;
    }
  }

  /** The mask as the loop is written: `1 << (button - 700)` on a 32-bit
      `int`, or'ed into a `uint16_t`. A shift of 32 or more is undefined
      (`None`); a defined shift of 16 or more loses its bit. */
  function MaskAsWritten(maps: seq<Mapping>, state: InputState, player: nat): Option<bv16>
    requires WellFormed(maps)
  {
    if maps == [] then Some(0)
    else
      var m := maps[|maps| - 1];
      var rest := MaskAsWritten(maps[..|maps| - 1], state, player);
      if !Pressed(state, player, m.retroId) then rest
      else if 32 <= Shift(m) then None
      else if rest.None? then None
      else Some(if Shift(m) < 16 then rest.value | Bit(Shift(m)) else rest.value)
  }

  /** The loop as written is defined exactly when no pressed button maps to
      a shift of 32 or more, and then agrees with `Mask`. */
  lemma {:induction false} MaskAsWrittenDefined(maps: seq<Mapping>, state: InputState, player: nat)
    requires WellFormed(maps)
    ensures MaskAsWritten(maps, state, player) ==
      if exists i | 0 <= i < |maps| :: 32 <= Shift(maps[i]) && Pressed(state, player, maps[i].retroId)
      then None else Some(Mask(maps, state, player))
  {
    if maps != [] {
      var n := |maps| - 1;
      var front := maps[..n];
      MaskAsWrittenDefined(front, state, player);
      forall i | 0 <= i < n
        ensures front[i] == maps[i]
      {
      }
      if exists i | 0 <= i < |maps| :: 32 <= Shift(maps[i]) && Pressed(state, player, maps[i].retroId) {
        var i :| 0 <= i < |maps| && 32 <= Shift(maps[i]) && Pressed(state, player, maps[i].retroId);
        if i < n {
          assert 32 <= Shift(front[i]) && Pressed(state, player, front[i].retroId);
        }
      }
    }
  }

  /** A host that reads only L2 as pressed. */
  function OnlyL2(): InputState
  {
    (port: nat, device: nat, index: nat, id: nat) => if device == DEVICE_JOYPAD && id == JOYPAD_L2 then 1 else 0
  }

  /** Pressing L2 drives the table's 773 mapping to `1 << 73`: the poll as
      written has undefined behaviour. */
  lemma L2PressIsUndefined()
    ensures MaskAsWritten(MAPPINGS, OnlyL2(), 0).None?
  {
    MaskAsWrittenDefined(MAPPINGS, OnlyL2(), 0);
    assert 32 <= Shift(MAPPINGS[8]) && Pressed(OnlyL2(), 0, MAPPINGS[8].retroId);
  }

  // ---------------------------------------------------------------------
  // Analog sticks

  /** A stick reading after the deadzone: centred, or deflected from the
      raw axes (the float rescaling outside the deadzone is not modelled). */
  datatype Stick = Centered | Deflected(rawX: int16, rawY: int16)

  /** `sqrtf(x*x + y*y) < 0.15` with `x = ax / 32767` and `y = ay / 32767`,
      squared and scaled to integers. */
  predicate InDeadzone(ax: int16, ay: int16)
  {
    10000 * (Square(ax) + Square(ay)) < 225 * 32767 * 32767
  }

  function Square(a: int): int
  {
    a * a
  }

  function Normalise(ax: int16, ay: int16): Stick
  {
    if InDeadzone(ax, ay) then Centered else Deflected(ax, ay)
  }

  function Abs(a: int): nat
  {
    if a < 0 then -a else a
  }

  lemma SquareMonotone(a: int, b: int)
    requires Abs(a) <= Abs(b)
    ensures Square(a) <= Square(b)
  {
    var a', b' := Abs(a), Abs(b);
    assert a * a == a' * a' && b * b == b' * b';
    assert a' * a' <= a' * b' <= b' * b';
  }

  /** A reading no farther from the centre on either axis than a centred
      one is centred too. */
  lemma DeadzoneInward(ax: int16, ay: int16, cx: int16, cy: int16)
    requires Normalise(cx, cy) == Centered
    requires Abs(ax) <= Abs(cx) && Abs(ay) <= Abs(cy)
    ensures Normalise(ax, ay) == Centered
  {
    assert InDeadzone(cx, cy);
    SquareMonotone(ax, cx);
    SquareMonotone(ay, cy);
    assert Square(ax) + Square(ay) <= Square(cx) + Square(cy);
  }

  /** A stick pushed 4914 to the right is still centred; 4916 is not. */
  lemma DeadzoneEdge()
    ensures Normalise(4914, 0) == Centered
    ensures Normalise(4916, 0) == Deflected(4916, 0)
  {
  }

  /** Stick `s` of `player` as the host reports it, after the deadzone. */
  function Reading(state: InputState, player: nat, s: nat): Stick
  {
    Normalise(state(player, DEVICE_ANALOG, s, ANALOG_AXIS_X), state(player, DEVICE_ANALOG, s, ANALOG_AXIS_Y))
  }

  // ---------------------------------------------------------------------
  // Touch

  datatype Touch = Touch(active: bool, x: real, y: real)

  /** `((pointer + 32767) * extent) / 65534.0f`, over the reals. */
  function PointerToScreen(p: int16, extent: nat): real
  {
    ((p as int + 32767) * extent) as real / 65534.0
  }

  /** Every pointer value but -32768 lands on the screen, the two ends of
      the pointer range on its two edges. */
  lemma PointerRange(p: int16, extent: nat)
    requires 0 < extent
    ensures 0.0 <= PointerToScreen(p, extent) <= extent as real <==> p != -32768
    ensures PointerToScreen(-32767, extent) == 0.0 && PointerToScreen(32767, extent) == extent as real
  {
    if p == -32768 {
      assert (p as int + 32767) * extent == -(extent as int);
    } else {
      assert 0 <= (p as int + 32767) * extent <= 65534 * extent;
    }
  }

  /** A larger pointer value lands farther along the screen. */
  lemma PointerMonotone(p: int16, q: int16, extent: nat)
    requires p <= q
    ensures PointerToScreen(p, extent) <= PointerToScreen(q, extent)
  {
    assert (p as int + 32767) * extent <= (q as int + 32767) * extent;
  }

  /** The touch state after a poll: a pressed pointer sets the position,
      a released one only clears `active`. */
  function TouchAfter(before: Touch, state: InputState): Touch
  {
    if state(0, DEVICE_POINTER, 0, POINTER_PRESSED) != 0 then
      Touch(true, PointerToScreen(state(0, DEVICE_POINTER, 0, POINTER_X), 320),
                  PointerToScreen(state(0, DEVICE_POINTER, 0, POINTER_Y), 240))
    else before.(active := false)
  }

  // ---------------------------------------------------------------------
  // The aggregator

  /** `button_state`, `analog_state` and `touch_state`, with whether the
      host's poll and state callbacks are set; `polls` counts the calls of
      `input_poll_cb`. */
  class Aggregator {
    var buttons: array<bv16>
    var analog: array2<Stick>
    var touch: Touch
    var pollAttached: bool
    var stateAttached: bool
    var polls: nat

    ghost predicate Valid()
      reads this
    {
      buttons.Length == PLAYERS && analog.Length0 == PLAYERS && analog.Length1 == STICKS
    }

    /** The zero-initialised statics. */
    constructor (pollAttached: bool, stateAttached: bool)
      ensures Valid() && fresh(buttons) && fresh(analog)
      ensures forall p | 0 <= p < PLAYERS :: buttons[p] == 0
      ensures forall p, s | 0 <= p < PLAYERS && 0 <= s < STICKS :: analog[p, s] == Centered
      ensures touch == Touch(false, 0.0, 0.0) && polls == 0
      ensures this.pollAttached == pollAttached && this.stateAttached == stateAttached
    {
      buttons := new bv16[PLAYERS](_ => 0);
      analog := new Stick[PLAYERS, STICKS]((_, _) => Centered);
      touch := Touch(false, 0.0, 0.0);
      this.pollAttached := pollAttached;
      this.stateAttached := stateAttached;
      polls := 0;
    }

    /** `cytrus_input_init`: every mask, stick and the touch state cleared. */
    method Init() returns (ok: bool)
      requires Valid()
      modifies this`touch, buttons, analog
      ensures ok && Valid()
      ensures forall p | 0 <= p < PLAYERS :: buttons[p] == 0
      ensures forall p, s | 0 <= p < PLAYERS && 0 <= s < STICKS :: analog[p, s] == Centered
      ensures touch == Touch(false, 0.0, 0.0)
    {
      forall p | 0 <= p < PLAYERS {
        buttons[p] := 0;
      }
      forall p, s | 0 <= p < PLAYERS && 0 <= s < STICKS {
        analog[p, s] := Centered;
      }
      touch := Touch(false, 0.0, 0.0);
      return true;
    }

    /** `cytrus_input_is_initialized`. */
    predicate IsInitialized()
      reads this
    {
      pollAttached && stateAttached
    }

    /** The inner loop of `poll` for one player. */
    method ReadMask(state: InputState, player: nat) returns (mask: bv16)
      ensures mask == Mask(MAPPINGS, state, player)
    {
      mask := 0;
      for i := 0 to |MAPPINGS|
        invariant mask == Mask(MAPPINGS[..i], state, player)
      {
        var m := MAPPINGS[i];
        assert MAPPINGS[..i + 1][..i] == MAPPINGS[..i];
        if Pressed(state, player, m.retroId) && Shift(m) < 16 {
          mask := mask | Bit(Shift(m));
        }
      }
      assert MAPPINGS[..|MAPPINGS|] == MAPPINGS;
    }

    /** `cytrus_input_poll`: nothing happens without a poll callback;
        otherwise the host is polled once, every player's mask is rebuilt
        from scratch, both sticks are re-read, and player 0's pointer
        updates the touch state. */
    method Poll(state: InputState)
      requires Valid()
      requires pollAttached ==> stateAttached
      modifies this`touch, this`polls, buttons, analog
      ensures Valid()
      ensures !pollAttached ==>
        && touch == old(touch) && polls == old(polls)
        && buttons[..] == old(buttons[..]) && unchanged(analog)
      ensures pollAttached ==>
        && polls == old(polls) + 1
        && (forall p | 0 <= p < PLAYERS :: buttons[p] == Mask(MAPPINGS, state, p))
        && (forall p, s | 0 <= p < PLAYERS && 0 <= s < STICKS :: analog[p, s] == Reading(state, p, s))
        && touch == TouchAfter(old(touch), state)
    {
      if !pollAttached {
        return;
      }
      polls := polls + 1;
      for player := 0 to PLAYERS
        invariant forall p | 0 <= p < player :: buttons[p] == Mask(MAPPINGS, state, p)
        invariant forall p, s | 0 <= p < player && 0 <= s < STICKS :: analog[p, s] == Reading(state, p, s)
        invariant polls == old(polls) + 1
        invariant touch == if player == 0 then old(touch) else TouchAfter(old(touch), state)
      {
        var mask := ReadMask(state, player);
        buttons[player] := mask;
        ReadSticks(state, player);
        if player == 0 {
          ReadTouch(state);
        }
      }
    }

    /** The stick loop of `poll` for one player: that player's row of
        `analog_state` is re-read and no other row changes. */
    method ReadSticks(state: InputState, player: nat)
      requires Valid() && player < PLAYERS
      modifies analog
      ensures forall p, s | 0 <= p < PLAYERS && 0 <= s < STICKS ::
        analog[p, s] == if p == player then Reading(state, p, s) else old(analog[p, s])
    {
      for s := 0 to STICKS
        invariant forall p, s' | 0 <= p < PLAYERS && 0 <= s' < STICKS ::
          analog[p, s'] == if p == player && s' < s then Reading(state, p, s') else old(analog[p, s'])
      {
        var x := state(player, DEVICE_ANALOG, s, ANALOG_AXIS_X);
        var y := state(player, DEVICE_ANALOG, s, ANALOG_AXIS_Y);
        analog[player, s] := Normalise(x, y);
      }
    }

    /** The touch part of `poll`, run for player 0. */
    method ReadTouch(state: InputState)
      modifies this`touch
      ensures touch == TouchAfter(old(touch), state)
    {
      if state(0, DEVICE_POINTER, 0, POINTER_PRESSED) != 0 {
        var px := state(0, DEVICE_POINTER, 0, POINTER_X);
        var py := state(0, DEVICE_POINTER, 0, POINTER_Y);
        touch := Touch(true, PointerToScreen(px, 320), PointerToScreen(py, 240));
      } else {
        touch := touch.(active := false);
      }
    }

    /** `cytrus_input_get_buttons`. */
    function GetButtons(player: int): (mask: bv16)
      requires Valid()
      reads this, buttons
      ensures !(0 <= player < PLAYERS) ==> mask == 0
    {
      if player < 0 || player >= PLAYERS then 0 else buttons[player]
    }

    /** `cytrus_input_get_analog`, with the two out-parameters as one
        reading. */
    function GetAnalog(player: int, stick: int): (s: Stick)
      requires Valid()
      reads this, analog
      ensures !(0 <= player < PLAYERS && 0 <= stick < STICKS) ==> s == Centered
    {
      if player < 0 || player >= PLAYERS || stick < 0 || stick >= STICKS then Centered
      else analog[player, stick]
    }

    /** `cytrus_input_get_touch`: each non-null out-parameter receives its
        part of the touch state. */
    method GetTouch(active: Cell?<bool>, x: Cell?<real>, y: Cell?<real>)
      modifies active, x, y
      ensures active != null ==> active.value == touch.active
      ensures x != null && x != y ==> x.value == touch.x
      ensures y != null ==> y.value == touch.y
    {
      if active != null { active.value := touch.active; }
      if x != null { x.value := touch.x; }
      if y != null { y.value := touch.y; }
    }

    /** `cytrus_input_button_pressed`: false for a player out of range,
        otherwise bit `button - 700` of the player's mask. A button past
        715 has no bit in the 16-bit mask. */
    function ButtonPressed(player: int, button: nat): (pressed: bool)
      requires Valid()
      requires 0 <= player < PLAYERS ==> BUTTON_BASE <= button < BUTTON_BASE + 32
      reads this, buttons
      ensures pressed ==> 0 <= player < PLAYERS && button < BUTTON_BASE + 16
    {
      if player < 0 || player >= PLAYERS then false
      else if button - BUTTON_BASE < 16 then buttons[player] & Bit(button - BUTTON_BASE) != 0
      else false
    }

    /** After a poll, `button_pressed` reports exactly the mapped RetroPad
        buttons held at that poll. */
    lemma PressedAfterPoll(state: InputState, player: int, button: nat)
      requires Valid() && 0 <= player < PLAYERS && BUTTON_BASE <= button < BUTTON_BASE + 32
      requires buttons[player] == Mask(MAPPINGS, state, player)
      ensures ButtonPressed(player, button) <==>
        exists i | 0 <= i < |MAPPINGS| :: MAPPINGS[i].button == button && Pressed(state, player, MAPPINGS[i].retroId)
    {
      var mask := buttons[player];
      assert ButtonPressed(player, button) == (button - BUTTON_BASE < 16 && mask & Bit(button - BUTTON_BASE) != 0);
      NoRowPastMask();
      PressedFromMask(MAPPINGS, state, player, mask, button);
    }
  }
}
