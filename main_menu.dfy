/**
 * The title screen's gamepad handling: the custom buttons found under the
 * buttons holder, the index of the highlighted one, and the dpad/south chain
 * that moves the highlight or clicks the highlighted button.
 */
module MainMenu {
  import opened Wrappers
  import opened Navigation
  import opened Widgets

  /** How a call ended: normally, or with the `IndexOutOfRangeException` of `buttons[i]` on an empty array. */
  datatype Outcome = Completed | IndexOutOfRange

  class MainMenu {
    /** `buttons`, in the order the hierarchy lists them. */
    var buttons: seq<CustomButton>
    var currentButtonIndex: int

    /** The field initialisers; `buttons` is filled in by `Start`. */
    constructor ()
      ensures buttons == [] && currentButtonIndex == 0
    {
      buttons := [];
      currentButtonIndex := 0;
    }

    /** Each component appears once among the children. */
    ghost predicate Distinct()
      reads this
    {
      forall i, j :: 0 <= i < j < |buttons| ==> buttons[i] != buttons[j]
    }

    predicate IndexInRange()
      reads this
    {
      if buttons == [] then currentButtonIndex == 0 else 0 <= currentButtonIndex < |buttons|
    }

    /** The current button is active and every other one is not. */
    predicate OnlyCurrentActive()
      reads this, buttons
    {
      forall i :: 0 <= i < |buttons| ==> (buttons[i].isActive <==> i == currentButtonIndex)
    }

    ghost predicate Valid()
      reads this, buttons
    {
      Distinct() && IndexInRange() && OnlyCurrentActive()
    }

    /** The indices of the active buttons. */
    ghost function ActiveButtons(): set<int>
      reads this, buttons
    {
      set i | 0 <= i < |buttons| && buttons[i].isActive
    }

    /** In a valid menu with buttons, exactly one button is active, the current one. */
    lemma ExactlyOneActive()
      requires Valid() && buttons != []
      ensures ActiveButtons() == {currentButtonIndex}
    {
    }

    /**
     * `Start`: takes the holder's children and highlights the first one. The
     * index keeps its initial value 0; children start inactive, so afterwards
     * exactly the first one is active.
     */
    method Start(children: seq<CustomButton>)
      requires currentButtonIndex == 0
      requires forall i, j :: 0 <= i < j < |children| ==> children[i] != children[j]
      modifies this, children
      ensures buttons == children && currentButtonIndex == 0
      ensures children != [] ==> children[0].isActive
      ensures forall i :: 0 < i < |children| ==> children[i].isActive == old(children[i].isActive)
      ensures forall b :: b in children ==> b.clicks == old(b.clicks)
      ensures (forall b :: b in children ==> !old(b.isActive)) ==> Valid()
    {
      buttons := children;
      if |buttons| > 0 {
        buttons[0].SetAsDefaultActive();
      }
    }

    /**
     * `NavigateButtons`: the highlight moves one button up or down, wrapping
     * at both ends. With no buttons the first array access throws.
     */
    method NavigateButtons(direction: int) returns (outcome: Outcome)
      requires IsDirection(direction) && Valid()
      modifies this, buttons
      ensures buttons == old(buttons) && Valid()
      ensures outcome == (if buttons == [] then IndexOutOfRange else Completed)
      ensures buttons != [] ==> currentButtonIndex == Wrap(old(currentButtonIndex), direction, |buttons|)
      ensures buttons == [] ==> currentButtonIndex == old(currentButtonIndex)
      ensures forall b :: b in buttons ==> b.clicks == old(b.clicks)
    {
      if |buttons| == 0 {
        return IndexOutOfRange;
      }
      var previous := buttons[currentButtonIndex];
      previous.SetAsInactive();
      currentButtonIndex := Wrap(currentButtonIndex, direction, |buttons|);
      var next := buttons[currentButtonIndex];
      next.SetAsDefaultActive();
      forall i | 0 <= i < |buttons|
        ensures buttons[i].isActive <==> i == currentButtonIndex
      {
        if i != currentButtonIndex {
          assert buttons[i] != next;
        }
      }
      outcome := Completed;
    }

    /**
     * `HandleGamepadInput`: at most one action per frame, dpad-up before
     * dpad-down before south. South clicks the highlighted button.
     */
    method HandleGamepadInput(pad: Option<Pad>) returns (outcome: Outcome)
      requires Valid()
      modifies this, buttons
      ensures buttons == old(buttons) && Valid()
      ensures var decision := FirstPressed(pad, MAIN_MENU_ORDER);
        outcome == (if decision.Some? && buttons == [] then IndexOutOfRange else Completed)
      ensures currentButtonIndex == IndexAfter(FirstPressed(pad, MAIN_MENU_ORDER), old(currentButtonIndex), |buttons|)
      ensures forall i :: 0 <= i < |buttons| ==>
        buttons[i].clicks == old(buttons[i].clicks) +
          (if Chose(FirstPressed(pad, MAIN_MENU_ORDER), ButtonSouth) && i == old(currentButtonIndex) then 1 else 0)
    {
      MainMenuChain(pad);
      outcome := Completed;
      if pad.Some? {
        if pad.value.up {
          outcome := NavigateButtons(-1);
        } else if pad.value.down {
          outcome := NavigateButtons(1);
        } else if pad.value.south {
          if |buttons| == 0 {
            return IndexOutOfRange;
          }
          var current := buttons[currentButtonIndex];
          current.OnGamepadButtonClick();
          forall i | 0 <= i < |buttons| && i != currentButtonIndex
            ensures buttons[i] != current
          {
          }
        }
      }
    }

    /** `Update`: the gamepad is read only while the game is in its main-menu state. */
    method Update(inMainMenu: bool, pad: Option<Pad>) returns (outcome: Outcome)
      requires Valid()
      modifies this, buttons
      ensures buttons == old(buttons) && Valid()
      ensures !inMainMenu ==> outcome == Completed && currentButtonIndex == old(currentButtonIndex)
      ensures !inMainMenu ==> forall b :: b in buttons ==> b.clicks == old(b.clicks)
      ensures inMainMenu ==> currentButtonIndex == IndexAfter(FirstPressed(pad, MAIN_MENU_ORDER), old(currentButtonIndex), |buttons|)
      ensures inMainMenu ==> forall i :: 0 <= i < |buttons| ==>
        buttons[i].clicks == old(buttons[i].clicks) +
          (if Chose(FirstPressed(pad, MAIN_MENU_ORDER), ButtonSouth) && i == old(currentButtonIndex) then 1 else 0)
    {
      outcome := Completed;
      if inMainMenu {
        outcome := HandleGamepadInput(pad);
      }
    }
  }
}
