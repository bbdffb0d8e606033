/**
 * What the two menus share: the cyclic index update that moves the selection
 * one item up or down, and the order in which one frame's gamepad presses are
 * considered.
 */
module Navigation {
  import opened Wrappers

  function Abs(x: int): nat
  {
    if x < 0 then -x else x
  }

  /**
   * C#'s `%` on `int`. The quotient is truncated toward zero, so the
   * remainder has the sign of the dividend (Dafny's `%` never goes negative).
   * The two agree on a dividend that is not negative.
   */
  function CsRem(a: int, n: int): (r: int)
    requires n != 0
    ensures 0 <= a ==> 0 <= r < Abs(n) && r == a % n
    ensures a < 0 ==> -r < Abs(n) && r <= 0
  {
    if 0 <= a then a % n else -((-a) % n)
  }

  /** A navigation step moves the selection one item up (-1) or down (+1). */
  predicate IsDirection(direction: int)
  {
    direction == -1 || direction == 1
  }

  /**
   * `(index + direction + length) % length`, the index update of both menus:
   * it stays in range and wraps around at both ends.
   */
  function Wrap(index: int, direction: int, length: int): (next: int)
    requires 0 <= index < length && IsDirection(direction)
    ensures 0 <= next < length
    ensures direction == 1 ==> next == (if index == length - 1 then 0 else index + 1)
    ensures direction == -1 ==> next == (if index == 0 then length - 1 else index - 1)
  {
    var a := index + direction + length;
    FoldOnce(a, length);
    CsRem(a, length)
  }

  /** `a % n` for a dividend in `[n - 1, 2n]`. */
  lemma FoldOnce(a: int, n: int)
    requires 0 < n && n - 1 <= a <= 2 * n
    ensures a % n == if a < n then a else if a == 2 * n then 0 else a - n
  {
    var q := a / n;
    assert a == q * n + a % n;
    if a < n {
      assert q * n == a - a % n;
    } else if a == 2 * n {
      assert (q - 2) * n == - (a % n);
    } else {
      assert (q - 1) * n == (a - n) - a % n;
    }
  }

  lemma WrapDownUp(index: int, length: int)
    requires 0 <= index < length
    ensures Wrap(Wrap(index, 1, length), -1, length) == index
  {
  }

  lemma WrapUpDown(index: int, length: int)
    requires 0 <= index < length
    ensures Wrap(Wrap(index, -1, length), 1, length) == index
  {
  }

  /** The selection after `steps` presses of dpad-down, starting at `index`. */
  function StepsDown(index: int, steps: nat, length: int): (r: int)
    requires 0 <= index < length
    ensures 0 <= r < length
  {
    if steps == 0 then index else Wrap(StepsDown(index, steps - 1, length), 1, length)
  }

  /** Up to one full turn, moving down `steps` times lands `steps` items further on, past the end back to the top. */
  lemma {:induction false} StepsDownShift(index: int, steps: nat, length: int)
    requires 0 <= index < length && steps <= length
    ensures StepsDown(index, steps, length) == if index + steps < length then index + steps else index + steps - length
  {
    if steps > 0 {
      StepsDownShift(index, steps - 1, length);
    }
  }

  /** Pressing dpad-down once per item walks the whole menu and returns to the start, and not sooner. */
  lemma FullCycle(index: int, length: int)
    requires 0 <= index < length
    ensures StepsDown(index, length, length) == index
    ensures forall k :: 0 < k < length ==> StepsDown(index, k, length) != index
  {
    StepsDownShift(index, length, length);
    forall k | 0 < k < length
      ensures StepsDown(index, k, length) != index
    {
      StepsDownShift(index, k, length);
    }
  }

  /** The gamepad controls the menus read. */
  datatype Control = DpadUp | DpadDown | ButtonSouth | ButtonEast

  /** Which controls were pressed this frame (`wasPressedThisFrame`). */
  datatype Pad = Pad(up: bool, down: bool, south: bool, east: bool)

  function Pressed(pad: Pad, c: Control): bool
  {
    match c
    case DpadUp => pad.up
    case DpadDown => pad.down
    case ButtonSouth => pad.south
    case ButtonEast => pad.east
  }

  /**
   * The control a menu acts on this frame: the first of `order` that was
   * pressed, or none when no gamepad is connected (`Gamepad.current` is null)
   * or none of them was pressed. Later presses in the same frame are ignored.
   */
  function FirstPressed(pad: Option<Pad>, order: seq<Control>): (c: Option<Control>)
    ensures c.Some? ==> pad.Some? && Pressed(pad.value, c.value) && c.value in order
    ensures c.None? <==> pad.None? || forall k :: 0 <= k < |order| ==> !Pressed(pad.value, order[k])
  {
    if pad.None? || order == [] then None
    else if Pressed(pad.value, order[0]) then Some(order[0])
    else
      assert forall k :: 0 < k < |order| ==> order[k] == order[1..][k - 1];
      FirstPressed(pad, order[1..])
  }

  /** Every control ahead of the chosen one in `order` was not pressed. */
  lemma {:induction false} FirstPressedIsFirst(pad: Option<Pad>, order: seq<Control>)
    requires FirstPressed(pad, order).Some?
    ensures exists j :: 0 <= j < |order| && order[j] == FirstPressed(pad, order).value &&
                        forall k :: 0 <= k < j ==> !Pressed(pad.value, order[k])
  {
    var c := FirstPressed(pad, order);
    if !Pressed(pad.value, order[0]) {
      FirstPressedIsFirst(pad, order[1..]);
      var j :| 0 <= j < |order[1..]| && order[1..][j] == c.value &&
               forall k :: 0 <= k < j ==> !Pressed(pad.value, order[1..][k]);
      forall k | 0 < k < j + 1
        ensures !Pressed(pad.value, order[k])
      {
        assert order[k] == order[1..][k - 1];
      }
      assert order[j + 1] == c.value;
    } else {
      assert order[0] == c.value;
    }
  }

  /** The frame's decision is to act on `control`. */
  predicate Chose(decision: Option<Control>, control: Control)
  {
    decision.Some? && decision.value == control
  }

  /** `MainMenu.HandleGamepadInput`: up, then down, then south. */
  const MAIN_MENU_ORDER: seq<Control> := [DpadUp, DpadDown, ButtonSouth]

  /** `PauseMenu.Update`: the same chain with east (close) appended. */
  const PAUSE_MENU_ORDER: seq<Control> := [DpadUp, DpadDown, ButtonSouth, ButtonEast]

  /** Appending a control to the order only decides frames the shorter order left undecided. */
  lemma {:induction false} FirstPressedAppend(pad: Option<Pad>, order: seq<Control>, last: Control)
    ensures FirstPressed(pad, order + [last]) ==
      if FirstPressed(pad, order).Some? then FirstPressed(pad, order)
      else if pad.Some? && Pressed(pad.value, last) then Some(last)
      else None
  {
    if pad.None? {
    } else if order == [] {
      assert [] + [last] == [last];
      assert [last][1..] == [];
    } else {
      assert (order + [last])[0] == order[0];
      assert (order + [last])[1..] == order[1..] + [last];
      FirstPressedAppend(pad, order[1..], last);
    }
  }

  /** The pause menu acts on exactly the frames the main menu acts on, plus east-only frames. */
  lemma PauseExtendsMain(pad: Option<Pad>)
    ensures FirstPressed(pad, PAUSE_MENU_ORDER) ==
      if FirstPressed(pad, MAIN_MENU_ORDER).Some? then FirstPressed(pad, MAIN_MENU_ORDER)
      else if pad.Some? && pad.value.east then Some(ButtonEast)
      else None
  {
    assert PAUSE_MENU_ORDER == MAIN_MENU_ORDER + [ButtonEast];
    FirstPressedAppend(pad, MAIN_MENU_ORDER, ButtonEast);
  }

  /** Where the selection is after the frame's decision, for `length` items. */
  function IndexAfter(decision: Option<Control>, index: int, length: int): (next: int)
    requires 0 <= index < length || (length == 0 && index == 0)
    ensures length == 0 ==> next == index
    ensures 0 < length ==> 0 <= next < length
  {
    if length == 0 || decision.None? then index
    else if decision.value == DpadUp then Wrap(index, -1, length)
    else if decision.value == DpadDown then Wrap(index, 1, length)
    else index
  }

  /** The main menu's `if`/`else if` chain over one frame's presses decides as `FirstPressed` does. */
  lemma MainMenuChain(pad: Option<Pad>)
    ensures FirstPressed(pad, MAIN_MENU_ORDER) ==
      if pad.None? then None
      else if pad.value.up then Some(DpadUp)
      else if pad.value.down then Some(DpadDown)
      else if pad.value.south then Some(ButtonSouth)
      else None
  {
    if pad.Some? && !pad.value.up {
      var rest := [DpadDown, ButtonSouth];
      assert MAIN_MENU_ORDER[1..] == rest;
      assert FirstPressed(pad, MAIN_MENU_ORDER) == FirstPressed(pad, rest);
      if !pad.value.down {
        assert rest[1..] == [ButtonSouth];
        assert FirstPressed(pad, rest) == FirstPressed(pad, [ButtonSouth]);
        assert [ButtonSouth][1..] == [];
      }
    }
  }

  /** The pause menu's chain decides as `FirstPressed` does over its longer order. */
  lemma PauseMenuChain(pad: Option<Pad>)
    ensures FirstPressed(pad, PAUSE_MENU_ORDER) ==
      if pad.None? then None
      else if pad.value.up then Some(DpadUp)
      else if pad.value.down then Some(DpadDown)
      else if pad.value.south then Some(ButtonSouth)
      else if pad.value.east then Some(ButtonEast)
      else None
  {
    MainMenuChain(pad);
    PauseExtendsMain(pad);
  }
}
