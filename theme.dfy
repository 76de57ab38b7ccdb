/** The light/dark colour theme. */
module Theme {
  import opened Wrappers

  /** The theme `toggleTheme` switches to: "dark" from "light", "light" from anything else. */
  function Toggled(theme: string): (r: string)
    ensures r == "light" || r == "dark"
    ensures r == "dark" <==> theme == "light"
  {
    if theme == "light" then "dark" else "light"
  }

  /** Toggling twice restores "light" or "dark"; any other value ends up "dark". */
  lemma ToggleTwice(theme: string)
    ensures theme == "light" || theme == "dark" ==> Toggled(Toggled(theme)) == theme
    ensures theme != "light" && theme != "dark" ==> Toggled(Toggled(theme)) == "dark"
  {
  }

  /** The toggle button's icon: a moon offers the dark theme from the light one, a sun offers light from any other. */
  function IconClass(theme: string): (icon: string)
    ensures icon == "fas fa-moon" || icon == "fas fa-sun"
    ensures icon == "fas fa-moon" <==> theme == "light"
  {
    if theme == "light" then "fas fa-moon" else "fas fa-sun"
  }

  /** `localStorage.getItem('portfolio-theme') || 'light'`: the saved theme, unless missing or empty. */
  function SavedOrDefault(saved: Option<string>): (theme: string)
    ensures theme != ""
    ensures saved.Some? && saved.value != "" ==> theme == saved.value
    ensures saved.None? || saved.value == "" ==> theme == "light"
  {
    match saved
    case Some(t) => if t == "" then "light" else t
    case None => "light"
  }

  /** `state.currentTheme`, the document's `data-theme` attribute and the toggle icon. */
  class ThemeController {
    var currentTheme: string
    var documentTheme: string
    var icon: string

    /** The attribute and the icon follow the current theme. */
    ghost predicate Valid()
      reads this
    {
      documentTheme == currentTheme && icon == IconClass(currentTheme)
    }

    /** `initializeTheme`, given the saved preference. */
    constructor (saved: Option<string>)
      ensures Valid() && currentTheme == SavedOrDefault(saved)
    {
      var theme := SavedOrDefault(saved);
      currentTheme := theme;
      documentTheme := theme;
      icon := IconClass(theme);
    }

    /** `setTheme`. */
    method SetTheme(theme: string)
      modifies this
      ensures Valid() && currentTheme == theme
    {
      currentTheme := theme;
      documentTheme := theme;
      icon := IconClass(theme);
    }

    /** `toggleTheme`. */
    method ToggleTheme()
      modifies this
      ensures Valid() && currentTheme == Toggled(old(currentTheme))
    {
      SetTheme(Toggled(currentTheme));
    }
  }
}
