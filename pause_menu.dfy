/**
 * The in-game pause menu: its selectable items, the index of the selected
 * one, whether the menu is open, and the game's pause flag, which follows the
 * open state. Opening and closing are the menu base class's `OpenMenu` and
 * `CloseMenu`, which set `IsOpen` and then call the menu's own hooks.
 */
module PauseMenu {
  import opened Wrappers
  import opened Navigation
  import opened Widgets

  class PauseMenu {
    const quitButton: Selectable
    const events: EventSystem
    /** `menuItems` as set in the scene; `None` is a null array. */
    var menuItems: Option<seq<Selectable>>
    var currentIndex: int
    /** `IsOpen` of the menu base class. */
    var isOpen: bool
    /** The game controller's pause state. */
    var paused: bool

    /** The scene's values and the field initialisers: closed, not paused, index 0. The quit button is a `Button`. */
    constructor (quitButton: Selectable, items: Option<seq<Selectable>>, events: EventSystem)
      requires quitButton.isButton
      ensures this.quitButton == quitButton && this.events == events && menuItems == items
      ensures currentIndex == 0 && !isOpen && !paused
    {
      this.quitButton := quitButton;
      this.events := events;
      menuItems := items;
      currentIndex := 0;
      isOpen := false;
      paused := false;
    }

    /** There is an item to select, and the index names one. */
    predicate Ready()
      reads this
    {
      menuItems.Some? && |menuItems.value| > 0 && 0 <= currentIndex < |menuItems.value|
    }

    /** The game is paused exactly while the menu is open. */
    predicate PauseFollowsOpen()
      reads this
    {
      paused == isOpen
    }

    /** The items are ready, pause follows the open state, and the fallback item is a `Button`. */
    predicate Valid()
      reads this
    {
      Ready() && PauseFollowsOpen() && quitButton.isButton
    }

    /** `Start`: a missing or empty item list falls back to the quit button alone. */
    method Start()
      requires currentIndex == 0 && PauseFollowsOpen() && quitButton.isButton
      modifies this
      ensures old(menuItems).None? || |old(menuItems).value| == 0 ==> menuItems == Some([quitButton])
      ensures old(menuItems).Some? && |old(menuItems).value| > 0 ==> menuItems == old(menuItems)
      ensures currentIndex == old(currentIndex) && isOpen == old(isOpen) && paused == old(paused)
      ensures Valid()
    {
      if menuItems.None? || |menuItems.value| == 0 {
        menuItems := Some([quitButton]);
      }
    }

    /** `NavigateButtons`: moves the selection one item up or down, wrapping at both ends, and selects it. */
    method NavigateButtons(direction: int)
      requires IsDirection(direction) && Valid()
      modifies this, events
      ensures menuItems == old(menuItems) && isOpen == old(isOpen) && paused == old(paused) && Valid()
      ensures currentIndex == Wrap(old(currentIndex), direction, |menuItems.value|)
      ensures events.selected == menuItems.value[currentIndex]
    {
      currentIndex := Wrap(currentIndex, direction, |menuItems.value|);
      menuItems.value[currentIndex].Select(events);
    }

    /** `OnMenuOpened`: pauses the game and selects the first item, if there is one. */
    method OnMenuOpened()
      requires menuItems.Some?
      modifies this, events
      ensures paused && currentIndex == 0
      ensures menuItems == old(menuItems) && isOpen == old(isOpen)
      ensures |menuItems.value| > 0 ==> events.selected == menuItems.value[0]
      ensures |menuItems.value| == 0 ==> events.selected == old(events.selected)
    {
      paused := true;
      currentIndex := 0;
      if |menuItems.value| > 0 {
        menuItems.value[currentIndex].Select(events);
      }
    }

    /** `OnMenuClosed`: resumes the game. */
    method OnMenuClosed()
      modifies this
      ensures !paused
      ensures menuItems == old(menuItems) && isOpen == old(isOpen) && currentIndex == old(currentIndex)
    {
      paused := false;
    }

    /** The base class's `OpenMenu`. */
    method OpenMenu()
      requires Valid()
      modifies this, events
      ensures isOpen && Valid() && currentIndex == 0
      ensures menuItems == old(menuItems) && events.selected == menuItems.value[0]
    {
      isOpen := true;
      OnMenuOpened();
    }

    /** The base class's `CloseMenu`. */
    method CloseMenu()
      requires Valid()
      modifies this
      ensures !isOpen && Valid()
      ensures menuItems == old(menuItems) && currentIndex == old(currentIndex)
    {
      isOpen := false;
      OnMenuClosed();
    }

    /** `TogglePauseMenu`: an open menu closes, a closed one opens at its first item. */
    method TogglePauseMenu()
      requires Valid()
      modifies this, events
      ensures isOpen == !old(isOpen) && Valid() && menuItems == old(menuItems)
      ensures isOpen ==> currentIndex == 0 && events.selected == menuItems.value[0]
      ensures !isOpen ==> currentIndex == old(currentIndex) && events.selected == old(events.selected)
    {
      if isOpen {
        CloseMenu();
      } else {
        OpenMenu();
      }
    }

    /**
     * `Update`: nothing happens while the menu is closed. Otherwise at most one
     * action per frame, dpad-up before dpad-down before south before east.
     * South clicks the selected item only if it is a button; east closes the menu.
     */
    method Update(pad: Option<Pad>)
      requires Valid()
      modifies this, events, menuItems.value
      ensures menuItems == old(menuItems) && Valid()
      ensures !old(isOpen) ==> !isOpen && currentIndex == old(currentIndex) && events.selected == old(events.selected)
      ensures !old(isOpen) ==> forall s :: s in menuItems.value ==> s.clicks == old(s.clicks)
      ensures old(isOpen) ==> isOpen == !Chose(FirstPressed(pad, PAUSE_MENU_ORDER), ButtonEast)
      ensures old(isOpen) ==>
        currentIndex == IndexAfter(FirstPressed(pad, PAUSE_MENU_ORDER), old(currentIndex), |menuItems.value|)
      ensures old(isOpen) && (Chose(FirstPressed(pad, PAUSE_MENU_ORDER), DpadUp) || Chose(FirstPressed(pad, PAUSE_MENU_ORDER), DpadDown)) ==>
        events.selected == menuItems.value[currentIndex]
      ensures old(isOpen) && !Chose(FirstPressed(pad, PAUSE_MENU_ORDER), DpadUp) && !Chose(FirstPressed(pad, PAUSE_MENU_ORDER), DpadDown) ==>
        events.selected == old(events.selected)
      ensures old(isOpen) ==> forall s :: s in menuItems.value ==>
        s.clicks == old(s.clicks) +
          (if Chose(FirstPressed(pad, PAUSE_MENU_ORDER), ButtonSouth) && s == menuItems.value[old(currentIndex)] && s.isButton then 1 else 0)
    {
      if !isOpen {
        return;
      }
      PauseMenuChain(pad);
      if pad.Some? {
        if pad.value.up {
          NavigateButtons(-1);
        } else if pad.value.down {
          NavigateButtons(1);
        } else if pad.value.south {
          var item := menuItems.value[currentIndex];
          if item.isButton {
            item.Click();
          }
        } else if pad.value.east {
          CloseMenu();
        }
      }
    }
  }
}
