/**
 * The UI components the menus drive. Only the state the menus read or change
 * is kept: the custom button's active flag, how often a button's `onClick`
 * event was invoked, and which component the event system has selected.
 */
module Widgets {

  /** A `CustomButton` of the main menu. */
  class CustomButton {
    /** `IsActive`: the button is the one gamepad navigation highlights. */
    var isActive: bool
    /** How many times `onClick` was invoked. */
    var clicks: nat

    constructor ()
      ensures !isActive && clicks == 0
    {
      isActive := false;
      clicks := 0;
    }

    method SetAsDefaultActive()
      modifies this
      ensures isActive && clicks == old(clicks)
    {
      isActive := true;
    }

    method SetAsInactive()
      modifies this
      ensures !isActive && clicks == old(clicks)
    {
      isActive := false;
    }

    /** Invokes `onClick`, as a mouse click would. */
    method OnGamepadButtonClick()
      modifies this
      ensures clicks == old(clicks) + 1 && isActive == old(isActive)
    {
      clicks := clicks + 1;
    }
  }

  /** The scene's `EventSystem`: at most one component is selected at a time. */
  class EventSystem {
    var selected: Selectable?

    constructor ()
      ensures selected == null
    {
      selected := null;
    }
  }

  /** A `Selectable` of the pause menu; some of them are `Button`s. */
  class Selectable {
    /** The component is a `Button` (the C# `is Button` test). */
    const isButton: bool
    /** How many times `onClick` was invoked; stays 0 for a non-button. */
    var clicks: nat

    constructor (isButton: bool)
      ensures this.isButton == isButton && clicks == 0
    {
      this.isButton := isButton;
      clicks := 0;
    }

    /** `Select()`: makes this component the event system's selection. */
    method Select(events: EventSystem)
      modifies events
      ensures events.selected == this
    {
      events.selected := this;
    }

    /** `button.onClick.Invoke()`. */
    method Click()
      requires isButton
      modifies this
      ensures clicks == old(clicks) + 1
    {
      clicks := clicks + 1;
    }
  }
}
