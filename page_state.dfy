/** Values shared by every component of the page: an optional value (for
    DOM lookups and attributes that may be missing) and the one mutable UI
    state record that the event handlers write. */
module PageState {

  datatype Option<+T> = None | Some(value: T)

  /** The page-wide `state` record. Its fields are written directly by the
      theme, menu, scroll and active-section handlers. */
  class UiState {
    var isDark: bool
    var isMenuOpen: bool
    var currentSection: string
    /** `window.scrollY` as last recorded; fractional on zoomed or
        high-density displays. */
    var scrollY: real

    constructor ()
      ensures !isDark && !isMenuOpen
      ensures currentSection == "home" && scrollY == 0.0
    {
      isDark := false;
      isMenuOpen := false;
      currentSection := "home";
      scrollY := 0.0;
    }
  }
}
