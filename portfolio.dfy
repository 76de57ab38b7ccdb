/** The page-level event handlers that drive several of the mechanisms at once. */
module Portfolio {
  import opened Wrappers
  import MobileMenu
  import Navigation
  import Projects

  /**
   * `handleKeyboardNavigation`: Escape closes an open menu; the arrow keys
   * move the focus over the visible project cards (right is forward). The
   * result is the card that receives the focus, if any.
   */
  method HandleKeyboardNavigation(menu: MobileMenu.Menu, gallery: Projects.ProjectGallery, key: string, focused: Option<nat>)
    returns (focus: Option<nat>)
    requires menu.Valid() && gallery.Valid()
    modifies menu
    ensures menu.Valid()
    ensures key == "Escape" ==> !menu.open
    ensures key != "Escape" ==> unchanged(menu)
    ensures key != "ArrowLeft" && key != "ArrowRight" ==> focus.None?
    ensures focus.Some? ==>
              var visible := Projects.VisibleCards(gallery.shown[..]);
              && focus.value < gallery.shown.Length && gallery.shown[focus.value]
              && focus.value == visible[Projects.NextIndex(Projects.IndexOf(visible, focused), |visible|, key == "ArrowRight")]
    ensures (key == "ArrowLeft" || key == "ArrowRight") ==>
              (focus.None? <==> forall i :: 0 <= i < gallery.shown.Length ==> !gallery.shown[i])
  {
    menu.OnKeyDown(key);
    focus := None;
    if key == "ArrowLeft" || key == "ArrowRight" {
      focus := gallery.NavigateProjects(key == "ArrowRight", focused);
    }
  }

  /** `handleResize`: a desktop width closes the menu, then the active link is recomputed. */
  method HandleResize(menu: MobileMenu.Menu, nav: Navigation.NavBar, innerWidth: int, scrollY: int, sections: seq<Navigation.Section>)
    requires menu.Valid() && nav.Valid()
    modifies menu, nav.active
    ensures menu.Valid()
    ensures innerWidth > MobileMenu.DesktopWidth ==> !menu.open
    ensures innerWidth <= MobileMenu.DesktopWidth ==> unchanged(menu)
    ensures Navigation.ActiveFor(nav.active[..], old(nav.active[..]), nav.hrefs, sections,
                                 Navigation.LastContaining(sections, Navigation.Probe(scrollY)))
  {
    menu.OnResize(innerWidth);
    nav.UpdateActiveNavLink(scrollY, sections);
  }

  /**
   * `handleNavClick` on link `link`: when the section it points at exists,
   * that link alone becomes active and the menu closes; otherwise nothing
   * happens.
   */
  method HandleNavClick(menu: MobileMenu.Menu, nav: Navigation.NavBar, link: nat, targetExists: bool)
    requires menu.Valid() && nav.Valid() && link < nav.active.Length
    modifies menu, nav.active
    ensures menu.Valid()
    ensures targetExists ==> !menu.open && forall i :: 0 <= i < nav.active.Length ==> nav.active[i] == (i == link)
    ensures !targetExists ==> unchanged(menu) && nav.active[..] == old(nav.active[..])
  {
    if targetExists {
      nav.MarkOnlyActive(link);
      menu.CloseMobileMenu();
    }
  }
}
