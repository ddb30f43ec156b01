/** The light/dark theme: restored from storage when the page loads,
    applied to the root element's `dark` class, saved back to storage and
    shown by the toggle's icon. */
module Theme {
  import opened PageState

  /** The value saved under the storage key "theme". */
  function ThemeName(isDark: bool): (name: string)
    ensures name == "dark" <==> isDark
  {
    if isDark then "dark" else "light"
  }

  /** The class list of the toggle's icon: a sun offers the light theme
      while the page is dark, a moon the dark theme while it is light. */
  function IconClass(isDark: bool): (c: string)
    ensures |IconPrefix| < |c| && c[..|IconPrefix|] == IconPrefix
    ensures c[|IconPrefix|..] == if isDark then "sun" else "moon"
  {
    IconPrefix + (if isDark then "sun" else "moon")
  }

  const IconPrefix := "theme-icon fas fa-"

  /** Whether a page whose storage holds `saved` starts dark. A missing or
      empty value falls back to "dark"; any value other than "dark" means
      light. */
  function StartsDark(saved: Option<string>): (isDark: bool)
    ensures isDark <==> saved == None || saved == Some("") || saved == Some("dark")
  {
    var theme := if saved == None || saved == Some("") then "dark" else saved.value;
    theme == "dark"
  }

  /** A saved theme is the theme the page starts with on the next load. */
  lemma StoredRoundTrip(isDark: bool)
    ensures StartsDark(Some(ThemeName(isDark))) == isDark
  {
  }

  /** The icon tells the two themes apart. */
  lemma IconsDiffer()
    ensures IconClass(true) != IconClass(false)
  {
  }

  class ThemeToggle {
    const state: UiState
    /** Whether the toggle button exists and holds a `.theme-icon`. */
    const hasIcon: bool
    /** The root element's `dark` class. */
    var rootDark: bool
    /** The stored value under the key "theme", if any. */
    var stored: Option<string>
    /** The icon's class list. */
    var iconClass: string

    /** The page shows, saves and records the same theme. */
    predicate Consistent()
      reads this, state
    {
      && rootDark == state.isDark
      && stored == Some(ThemeName(state.isDark))
      && (hasIcon ==> iconClass == IconClass(state.isDark))
    }

    /** Creating the toggle restores the saved theme at once. */
    constructor (state: UiState, hasIcon: bool, stored: Option<string>, rootDark: bool, iconClass: string)
      modifies state
      ensures this.state == state && this.hasIcon == hasIcon
      ensures state.isDark == StartsDark(stored)
      ensures Consistent()
      ensures !hasIcon ==> this.iconClass == iconClass
      ensures state.isMenuOpen == old(state.isMenuOpen) && state.scrollY == old(state.scrollY)
      ensures state.currentSection == old(state.currentSection)
    {
      this.state := state;
      this.hasIcon := hasIcon;
      this.stored := stored;
      this.rootDark := rootDark;
      this.iconClass := iconClass;
      new;
      Init();
    }

    /** Restores the theme saved in storage, dark when there is none. */
    method Init()
      modifies this, state
      ensures state.isDark == StartsDark(old(stored))
      ensures Consistent()
      ensures StartsDark(stored) == state.isDark
      ensures !hasIcon ==> iconClass == old(iconClass)
      ensures state.isMenuOpen == old(state.isMenuOpen) && state.scrollY == old(state.scrollY)
      ensures state.currentSection == old(state.currentSection)
    {
      var savedTheme := if stored == None || stored == Some("") then "dark" else stored.value;
      SetTheme(savedTheme == "dark");
      StoredRoundTrip(state.isDark);
    }

    /** Applies a theme everywhere it shows and saves it. */
    method SetTheme(isDark: bool)
      modifies this, state
      ensures state.isDark == isDark
      ensures Consistent()
      ensures !hasIcon ==> iconClass == old(iconClass)
      ensures state.isMenuOpen == old(state.isMenuOpen) && state.scrollY == old(state.scrollY)
      ensures state.currentSection == old(state.currentSection)
    {
      state.isDark := isDark;
      rootDark := isDark;
      stored := Some(if isDark then "dark" else "light");
      if hasIcon {
        iconClass := IconPrefix + (if isDark then "sun" else "moon");
      }
    }

    /** The toggle's click handler: switches to the other theme. */
    method ToggleTheme()
      modifies this, state
      ensures state.isDark == !old(state.isDark)
      ensures Consistent()
      ensures !hasIcon ==> iconClass == old(iconClass)
      ensures state.isMenuOpen == old(state.isMenuOpen) && state.scrollY == old(state.scrollY)
      ensures state.currentSection == old(state.currentSection)
    {
      SetTheme(!state.isDark);
    }

    /** Two clicks on the toggle bring back the theme, the root class, the
        stored value and the icon the page had. */
    method ToggleTwice()
      requires Consistent()
      modifies this, state
      ensures state.isDark == old(state.isDark) && rootDark == old(rootDark)
      ensures stored == old(stored) && iconClass == old(iconClass)
      ensures Consistent()
      ensures state.isMenuOpen == old(state.isMenuOpen) && state.scrollY == old(state.scrollY)
      ensures state.currentSection == old(state.currentSection)
    {
      ToggleTheme();
      ToggleTheme();
    }
  }
}
