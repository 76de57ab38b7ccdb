/** The mobile navigation menu and the events that close it. */
module MobileMenu {

  /** Widths above this many pixels are the desktop layout. */
  const DesktopWidth: int := 768

  /**
   * `state.mobileMenuOpen`, the `active` class of the toggle button and of
   * the menu, and the body's `overflow` style.
   */
  class Menu {
    var open: bool
    var toggleActive: bool
    var navMenuActive: bool
    var bodyOverflow: string

    /** Both `active` classes follow the open flag, and the page does not scroll under an open menu. */
    ghost predicate Valid()
      reads this
    {
      toggleActive == open && navMenuActive == open && bodyOverflow == (if open then "hidden" else "")
    }

    /** The page as loaded: the menu closed. */
    constructor ()
      ensures Valid() && !open
    {
      open, toggleActive, navMenuActive, bodyOverflow := false, false, false, "";
    }

    /** `toggleMobileMenu`: flips the flag and both classes, and locks or frees the page scroll. */
    method ToggleMobileMenu()
      modifies this
      ensures open == !old(open)
      ensures toggleActive == !old(toggleActive) && navMenuActive == !old(navMenuActive)
      ensures bodyOverflow == if open then "hidden" else ""
      ensures old(Valid()) ==> Valid()
    {
      open := !open;
      toggleActive := !toggleActive;
      navMenuActive := !navMenuActive;
      bodyOverflow := if open then "hidden" else "";
    }

    /** `closeMobileMenu`: the menu is closed afterwards; closing a closed menu changes nothing, so closing twice is closing once. */
    method CloseMobileMenu()
      requires Valid()
      modifies this
      ensures Valid() && !open
      ensures !old(open) ==> unchanged(this)
    {
      if open {
        ToggleMobileMenu();
      }
    }

    /** The Escape part of `handleKeyboardNavigation`. */
    method OnKeyDown(key: string)
      requires Valid()
      modifies this
      ensures Valid()
      ensures key == "Escape" ==> !open
      ensures key != "Escape" ==> unchanged(this)
    {
      if key == "Escape" && open {
        CloseMobileMenu();
      }
    }

    /** The menu part of `handleResize`: growing to a desktop width closes the menu. */
    method OnResize(innerWidth: int)
      requires Valid()
      modifies this
      ensures Valid()
      ensures innerWidth > DesktopWidth ==> !open
      ensures innerWidth <= DesktopWidth ==> unchanged(this)
    {
      if innerWidth > DesktopWidth && open {
        CloseMobileMenu();
      }
    }
  }
}
