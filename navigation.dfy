/** The navigation bar: the scroll flags set once per animation frame, the
    highlighting of the link of the section in view, and the mobile menu
    with its three click handlers. */
module Navigation {
  import opened PageState

  /** A `section[id]` element: its id, its `offsetTop` and its
      `offsetHeight`, read when the active section is computed. */
  datatype Section = Section(id: string, offsetTop: int, height: nat)

  /** A `.nav-item` or `.mobile-nav-item` link: its `href` attribute, which
      may be missing, and its `active` class. */
  datatype NavLink = NavLink(href: Option<string>, active: bool)

  /** Where a click lands, as far as the menu handlers can tell. */
  datatype ClickTarget = OnToggle | OnMenuLink | InMenu | Elsewhere

  /** The band of scroll positions in which a section counts as in view:
      it starts 100 pixels above the section. */
  const HeaderAllowance := 100
  const ScrolledFrom: real := 50.0
  const ScrollTopFrom: real := 300.0

  /** Whether the band of `s` holds the scroll position `y`. The layout
      offsets are whole pixels; the scroll position need not be. */
  predicate Covers(s: Section, y: real): (c: bool)
    ensures c ==> 0 < s.height
    ensures c ==> (s.offsetTop - HeaderAllowance) as real <= y
  {
    (s.offsetTop - HeaderAllowance) as real <= y < (s.offsetTop - HeaderAllowance + s.height) as real
  }

  /** The index of the last section whose band holds `y`, or -1. */
  function LastCovering(ss: seq<Section>, y: real): (k: int)
    ensures -1 <= k < |ss|
    ensures 0 <= k ==> Covers(ss[k], y)
    ensures forall j | k < j < |ss| :: !Covers(ss[j], y)
  {
    if ss == [] then -1
    else if Covers(ss[|ss| - 1], y) then |ss| - 1
    else LastCovering(ss[..|ss| - 1], y)
  }

  /** The id of the section in view at `y`: the last one whose band holds
      it, or "" when there is none. */
  function ActiveSectionId(ss: seq<Section>, y: real): (id: string)
    ensures id != "" ==> exists k | 0 <= k < |ss| :: ss[k].id == id && Covers(ss[k], y)
  {
    var k := LastCovering(ss, y);
    if k < 0 then "" else ss[k].id
  }

  /** When the sections' bands do not overlap, the section in view is the
      one whose band holds `y`. */
  lemma ActiveIsCoveringSection(ss: seq<Section>, y: real, k: nat)
    requires k < |ss| && Covers(ss[k], y)
    requires forall j | 0 <= j < |ss| && j != k :: !Covers(ss[j], y)
    ensures ActiveSectionId(ss, y) == ss[k].id
  {
  }

  /** Above the first band or below the last, no section is in view. */
  lemma NoSectionInView(ss: seq<Section>, y: real)
    requires forall j | 0 <= j < |ss| :: !Covers(ss[j], y)
    ensures ActiveSectionId(ss, y) == ""
  {
  }

  lemma ActiveStep(ss: seq<Section>, y: real, i: nat)
    requires i < |ss|
    ensures ActiveSectionId(ss[..i + 1], y) ==
      if Covers(ss[i], y) then ss[i].id else ActiveSectionId(ss[..i], y)
  {
  }

  /** A link is highlighted exactly when it points at the section `current`. */
  predicate LinksAgree(links: seq<NavLink>, current: string) {
    forall k | 0 <= k < |links| :: links[k].active <==> links[k].href == Some("#" + current)
  }

  /** The links after the highlight moves to `current`. */
  function Highlighted(links: seq<NavLink>, current: string): (r: seq<NavLink>)
    ensures |r| == |links|
    ensures forall k | 0 <= k < |r| :: r[k].href == links[k].href
    ensures LinksAgree(r, current)
  {
    seq(|links|, k requires 0 <= k < |links| => links[k].(active := links[k].href == Some("#" + current)))
  }

  /** Moving the highlight twice to the same section is moving it once. */
  lemma HighlightIdempotent(links: seq<NavLink>, current: string)
    ensures Highlighted(Highlighted(links, current), current) == Highlighted(links, current)
  {
  }

  /** With no section in view, the links that are highlighted are the ones
      whose `href` is the bare "#". */
  lemma BareHashLinksWhenNoneInView(links: seq<NavLink>, k: nat)
    requires k < |links|
    ensures Highlighted(links, "")[k].active <==> links[k].href == Some("#")
  {
    assert "#" + "" == "#";
  }

  class Navigation {
    const state: UiState
    const hasNavbar: bool
    const hasScrollTop: bool
    const hasMobileNav: bool
    const hasToggle: bool
    /** The links of both the desktop and the mobile navigation. */
    var links: seq<NavLink>
    /** The navbar's `scrolled` class. */
    var navbarScrolled: bool
    /** The scroll-to-top button's `show` class. */
    var scrollTopShown: bool
    /** The mobile navigation's `show` class. */
    var mobileNavShown: bool
    /** `document.body.style.overflow`. */
    var bodyOverflow: string

    /** The mobile menu's classes and the page's scroll lock follow the
        menu state. */
    predicate MenuMirrored()
      reads this, state
    {
      && (hasMobileNav ==> mobileNavShown == state.isMenuOpen)
      && bodyOverflow == (if state.isMenuOpen then "hidden" else "")
    }

    /** The component starts from the page as its markup left it: the
        classes and the body's overflow style are given, not written. */
    constructor (state: UiState, hasNavbar: bool, hasScrollTop: bool, hasMobileNav: bool, hasToggle: bool,
                 links: seq<NavLink>, navbarScrolled: bool, scrollTopShown: bool, mobileNavShown: bool,
                 bodyOverflow: string)
      ensures this.state == state && this.links == links
      ensures this.hasNavbar == hasNavbar && this.hasScrollTop == hasScrollTop
      ensures this.hasMobileNav == hasMobileNav && this.hasToggle == hasToggle
      ensures this.navbarScrolled == navbarScrolled && this.scrollTopShown == scrollTopShown
      ensures this.mobileNavShown == mobileNavShown && this.bodyOverflow == bodyOverflow
      ensures !state.isMenuOpen && !mobileNavShown && bodyOverflow == "" ==> MenuMirrored()
    {
      this.state := state;
      this.hasNavbar := hasNavbar;
      this.hasScrollTop := hasScrollTop;
      this.hasMobileNav := hasMobileNav;
      this.hasToggle := hasToggle;
      this.links := links;
      this.navbarScrolled := navbarScrolled;
      this.scrollTopShown := scrollTopShown;
      this.mobileNavShown := mobileNavShown;
      this.bodyOverflow := bodyOverflow;
    }

    /** The once-per-frame scroll update: records the scroll position and
        sets the navbar and scroll-to-top flags, when those elements exist. */
    method RecordScroll(y: real)
      modifies this, state
      ensures state.scrollY == y
      ensures navbarScrolled == if hasNavbar then y > ScrolledFrom else old(navbarScrolled)
      ensures scrollTopShown == if hasScrollTop then y > ScrollTopFrom else old(scrollTopShown)
      ensures state.isDark == old(state.isDark) && state.isMenuOpen == old(state.isMenuOpen)
      ensures state.currentSection == old(state.currentSection)
      ensures links == old(links) && mobileNavShown == old(mobileNavShown) && bodyOverflow == old(bodyOverflow)
    {
      state.scrollY := y;
      if hasNavbar {
        navbarScrolled := y > ScrolledFrom;
      }
      if hasScrollTop {
        scrollTopShown := y > ScrollTopFrom;
      }
    }

    /** Finds the section in view at the recorded scroll position and, when
        it differs from the current one, moves the highlight to its links. */
    method UpdateActiveSection(sections: seq<Section>)
      modifies this, state
      ensures state.currentSection == ActiveSectionId(sections, old(state.scrollY))
      ensures links == if state.currentSection == old(state.currentSection) then old(links)
                       else Highlighted(old(links), state.currentSection)
      ensures old(LinksAgree(links, state.currentSection)) ==> LinksAgree(links, state.currentSection)
      ensures state.scrollY == old(state.scrollY) && state.isDark == old(state.isDark)
      ensures state.isMenuOpen == old(state.isMenuOpen)
      ensures navbarScrolled == old(navbarScrolled) && scrollTopShown == old(scrollTopShown)
      ensures mobileNavShown == old(mobileNavShown) && bodyOverflow == old(bodyOverflow)
    {
      var y := state.scrollY;
      var current := "";
      var i := 0;
      while i < |sections|
        modifies {}
        invariant 0 <= i <= |sections|
        invariant current == ActiveSectionId(sections[..i], y)
      {
        ActiveStep(sections, y, i);
        if Covers(sections[i], y) {
          current := sections[i].id;
        }
        i := i + 1;
      }
      assert sections[..i] == sections;
      if current != state.currentSection {
        state.currentSection := current;
        var j := 0;
        ghost var before := links;
        while j < |links|
          modifies this
          invariant 0 <= j <= |links| == |before|
          invariant forall k | 0 <= k < j :: links[k] == Highlighted(before, current)[k]
          invariant forall k | j <= k < |links| :: links[k] == before[k]
          invariant navbarScrolled == old(navbarScrolled) && scrollTopShown == old(scrollTopShown)
          invariant mobileNavShown == old(mobileNavShown) && bodyOverflow == old(bodyOverflow)
        {
          links := links[j := links[j].(active := links[j].href == Some("#" + current))];
          j := j + 1;
        }
        assert links == Highlighted(before, current);
      }
    }

    /** A click on the menu toggle opens or closes the menu. */
    method ToggleMenu()
      modifies this, state
      ensures state.isMenuOpen == !old(state.isMenuOpen)
      ensures MenuMirrored()
      ensures !hasMobileNav ==> mobileNavShown == old(mobileNavShown)
      ensures state.currentSection == old(state.currentSection) && state.scrollY == old(state.scrollY)
      ensures state.isDark == old(state.isDark)
      ensures links == old(links) && navbarScrolled == old(navbarScrolled) && scrollTopShown == old(scrollTopShown)
    {
      state.isMenuOpen := !state.isMenuOpen;
      if hasMobileNav {
        mobileNavShown := state.isMenuOpen;
      }
      bodyOverflow := if state.isMenuOpen then "hidden" else "";
    }

    /** Closes the menu and unlocks page scrolling. */
    method CloseMenu()
      modifies this, state
      ensures !state.isMenuOpen
      ensures MenuMirrored()
      ensures !hasMobileNav ==> mobileNavShown == old(mobileNavShown)
      ensures state.currentSection == old(state.currentSection) && state.scrollY == old(state.scrollY)
      ensures state.isDark == old(state.isDark)
      ensures links == old(links) && navbarScrolled == old(navbarScrolled) && scrollTopShown == old(scrollTopShown)
    {
      state.isMenuOpen := false;
      if hasMobileNav {
        mobileNavShown := false;
      }
      bodyOverflow := "";
    }

    /** The document's click handler: an open menu closes unless the click
        is inside the mobile navigation or on the toggle. `inMenu` and
        `inToggle` are the `contains` tests, false when the element is
        missing. */
    method OutsideClick(inMenu: bool, inToggle: bool)
      modifies this, state
      ensures state.isMenuOpen == (old(state.isMenuOpen) && (inMenu || inToggle))
      ensures old(state.isMenuOpen) && !inMenu && !inToggle ==> MenuMirrored()
      ensures !(old(state.isMenuOpen) && !inMenu && !inToggle) ==>
        mobileNavShown == old(mobileNavShown) && bodyOverflow == old(bodyOverflow)
      ensures old(MenuMirrored()) ==> MenuMirrored()
      ensures !hasMobileNav ==> mobileNavShown == old(mobileNavShown)
      ensures state.currentSection == old(state.currentSection) && state.scrollY == old(state.scrollY)
      ensures state.isDark == old(state.isDark)
      ensures links == old(links) && navbarScrolled == old(navbarScrolled) && scrollTopShown == old(scrollTopShown)
    {
      if state.isMenuOpen && !inMenu && !inToggle {
        CloseMenu();
      }
    }

    /** One click, dispatched as the page dispatches it: first the handler
        of the element clicked (the toggle or a mobile link), then, as the
        event bubbles up, the document's handler. */
    method Click(target: ClickTarget)
      requires target == OnToggle ==> hasToggle
      requires target == InMenu ==> hasMobileNav
      modifies this, state
      ensures target == OnToggle ==> state.isMenuOpen == !old(state.isMenuOpen)
      ensures target == OnMenuLink || target == Elsewhere ==> !state.isMenuOpen
      ensures target == InMenu ==> state.isMenuOpen == old(state.isMenuOpen)
      ensures target == OnToggle || target == OnMenuLink ==> MenuMirrored()
      ensures target == Elsewhere && old(state.isMenuOpen) ==> MenuMirrored()
      ensures old(MenuMirrored()) ==> MenuMirrored()
      ensures !hasMobileNav ==> mobileNavShown == old(mobileNavShown)
      // a click that closes nothing and toggles nothing writes nothing
      ensures target == InMenu || (target == Elsewhere && !old(state.isMenuOpen)) ==>
        mobileNavShown == old(mobileNavShown) && bodyOverflow == old(bodyOverflow)
      ensures state.currentSection == old(state.currentSection) && state.scrollY == old(state.scrollY)
      ensures state.isDark == old(state.isDark)
      ensures links == old(links) && navbarScrolled == old(navbarScrolled) && scrollTopShown == old(scrollTopShown)
    {
      if target == OnToggle {
        ToggleMenu();
      } else if target == OnMenuLink {
        CloseMenu();
      }
      var inMenu := hasMobileNav && (target == OnMenuLink || target == InMenu);
      var inToggle := hasToggle && target == OnToggle;
      OutsideClick(inMenu, inToggle);
    }
  }
}
