/** The menu controller: the hamburger button (`#mobile-menu`), the inline
    navigation (`#nav-menu`) and the mobile drawer (`#mobile-drawer`). The
    click handler opens or closes the drawer on a mobile viewport and toggles
    the inline menu otherwise; Escape closes an open drawer; closing runs an
    exit animation and a 300 ms timer later removes the drawer's `open` and
    `closing` classes. A click on an in-page link inside the drawer closes it
    after 250 ms; the smooth-scroll handler of every in-page link collapses
    the inline menu at once and removes the drawer's `open` class after
    260 ms. A second, debounced toggle handler is defined but never attached
    to any event. */
module Menu {
  import opened Wrappers

  /** Delay of the drawer's close timer, and the debounce window, in ms. */
  const CloseDelayMs := 300
  const DebounceMs := 300

  /** Which of the three elements the page has. */
  datatype Dom = Dom(hasToggle: bool, hasNav: bool, hasDrawer: bool)

  /** The state the handlers read and write. An attribute is `None` until set. */
  datatype MenuState = MenuState(
    dom: Dom,
    navShow: bool,                 // class `show` on the inline menu
    toggleActive: bool,            // class `active` on the button
    ariaExpanded: Option<bool>,    // `aria-expanded` on the button
    drawerOpen: bool,              // class `open` on the drawer
    drawerClosing: bool,           // class `closing` on the drawer
    ariaHidden: Option<bool>,      // `aria-hidden` on the drawer
    lastToggle: int,               // time of the last accepted debounced toggle
    pendingCloses: nat,            // close timers scheduled and not yet fired
    pendingLinkCloses: nat,        // 250 ms `closeDrawer` timers of drawer-link clicks
    pendingUnopens: nat)           // 260 ms timers of the smooth-scroll handler

  /** The state after start-up: no classes set, no timer pending, and
      `aria-expanded` defaulted to "false" when the button and the inline
      menu both exist and the button does not carry it already. */
  function Initial(dom: Dom, ariaExpanded: Option<bool>, ariaHidden: Option<bool>): MenuState {
    var expanded := if dom.hasToggle && dom.hasNav && ariaExpanded.None? then Some(false) else ariaExpanded;
    MenuState(dom, false, false, expanded, false, false, ariaHidden, 0, 0, 0, 0)
  }

  /** `openDrawer`. */
  function AfterOpen(s: MenuState): MenuState {
    if !s.dom.hasDrawer then s
    else
      s.(drawerOpen := true, ariaHidden := Some(false),
         ariaExpanded := if s.dom.hasToggle then Some(true) else s.ariaExpanded)
  }

  /** `closeDrawer`: start the exit animation and schedule the timer; the
      drawer keeps its `open` class until the timer fires. */
  function AfterClose(s: MenuState): MenuState {
    if !s.dom.hasDrawer then s
    else
      s.(drawerClosing := true, ariaHidden := Some(true),
         ariaExpanded := if s.dom.hasToggle then Some(false) else s.ariaExpanded,
         pendingCloses := s.pendingCloses + 1)
  }

  /** One of the pending close timers fires, `CloseDelayMs` after its
      `closeDrawer`. */
  function AfterCloseTimer(s: MenuState): MenuState
    requires s.pendingCloses > 0
  {
    s.(drawerOpen := false, drawerClosing := false, pendingCloses := s.pendingCloses - 1)
  }

  /** `mobileMenuActivator`, the button's click handler. The desktop branch
      toggles the two classes and leaves `aria-expanded` alone. */
  function AfterActivate(s: MenuState, isMobile: bool): MenuState {
    if isMobile then
      if s.dom.hasDrawer && s.drawerOpen then AfterClose(s) else AfterOpen(s)
    else
      s.(navShow := if s.dom.hasNav then !s.navShow else s.navShow,
         toggleActive := if s.dom.hasToggle then !s.toggleActive else s.toggleActive)
  }

  /** The window's keydown handler. */
  function AfterKeydown(s: MenuState, key: string): MenuState {
    if key == "Escape" && s.dom.hasDrawer && s.drawerOpen then AfterClose(s) else s
  }

  /** `mobileToggleHandler`, which exists only when the button and the inline
      menu both do: ignore a call less than 300 ms after the last accepted
      one, otherwise toggle both classes and mirror the menu in
      `aria-expanded`. */
  function AfterToggle(s: MenuState, now: int): MenuState
    requires s.dom.hasToggle && s.dom.hasNav
  {
    if now - s.lastToggle < DebounceMs then s
    else
      s.(lastToggle := now, navShow := !s.navShow, toggleActive := !s.toggleActive,
         ariaExpanded := Some(!s.navShow))
  }

  /** An in-page link is one whose `href` starts with `#`. */
  predicate IsHashHref(href: string) {
    |href| > 0 && href[0] == '#'
  }

  /** The drawer's click handler, attached only when the drawer exists.
      `href` is the `href` of the closest enclosing link, `None` when there
      is no link or it has no `href`; an in-page link schedules
      `closeDrawer` 250 ms later. */
  function AfterDrawerClick(s: MenuState, href: Option<string>): (r: MenuState)
    requires s.dom.hasDrawer
  {
    if href.Some? && IsHashHref(href.value) then s.(pendingLinkCloses := s.pendingLinkCloses + 1)
    else s
  }

  /** A drawer-link timer fires and runs `closeDrawer`. */
  function AfterLinkCloseTimer(s: MenuState): MenuState
    requires s.pendingLinkCloses > 0
  {
    AfterClose(s.(pendingLinkCloses := s.pendingLinkCloses - 1))
  }

  /** The smooth-scroll click handler of an in-page link whose `href` is
      `href`; `targetExists` says whether an element has the id it names.
      With a target, the handler (besides scrolling) schedules the removal
      of the drawer's `open` class when the drawer is open, and removes
      `show` and `active` at once. */
  function AfterAnchorClick(s: MenuState, href: string, targetExists: bool): MenuState {
    if href == "" || href == "#" || !targetExists then s
    else
      s.(pendingUnopens := if s.dom.hasDrawer && s.drawerOpen then s.pendingUnopens + 1 else s.pendingUnopens,
         navShow := if s.dom.hasNav then false else s.navShow,
         toggleActive := if s.dom.hasToggle then false else s.toggleActive)
  }

  /** A smooth-scroll timer fires: it removes `open` and nothing else. */
  function AfterUnopenTimer(s: MenuState): MenuState
    requires s.pendingUnopens > 0
  {
    s.(drawerOpen := false, pendingUnopens := s.pendingUnopens - 1)
  }

  /** What every handler and timer keeps: a missing drawer is never touched,
      and a drawer in its exit animation has a close timer pending that will
      end it. */
  ghost predicate DrawerInv(s: MenuState) {
    && (!s.dom.hasDrawer ==>
          !s.drawerOpen && !s.drawerClosing && s.pendingCloses == 0
          && s.pendingLinkCloses == 0 && s.pendingUnopens == 0)
    && (s.drawerClosing ==> s.pendingCloses > 0)
  }

  /** The states reachable with the button, Escape, the close timers and the
      debounced toggle alone: besides `DrawerInv`, a closing drawer is still
      open and hidden from assistive technology. The drawer-link and
      smooth-scroll timers do not keep this (`LinkClickLeavesClosingWithoutOpen`). */
  ghost predicate Inv(s: MenuState) {
    && DrawerInv(s)
    && (s.drawerClosing ==> s.drawerOpen && s.ariaHidden == Some(true))
  }

  // ---------------------------------------------------------------------
  // The controller object

  class MenuController {
    const dom: Dom
    var navShow: bool
    var toggleActive: bool
    var ariaExpanded: Option<bool>
    var drawerOpen: bool
    var drawerClosing: bool
    var ariaHidden: Option<bool>
    var lastToggle: int
    var pendingCloses: nat
    var pendingLinkCloses: nat
    var pendingUnopens: nat

    function State(): MenuState
      reads this
    {
      MenuState(dom, navShow, toggleActive, ariaExpanded, drawerOpen, drawerClosing,
                ariaHidden, lastToggle, pendingCloses, pendingLinkCloses, pendingUnopens)
    }

    ghost predicate Valid()
      reads this
    {
      DrawerInv(State())
    }

    constructor (dom: Dom, ariaExpanded: Option<bool>, ariaHidden: Option<bool>)
      ensures State() == Initial(dom, ariaExpanded, ariaHidden)
      ensures Valid() && Inv(State())
    {
      this.dom := dom;
      navShow, toggleActive := false, false;
      drawerOpen, drawerClosing := false, false;
      this.ariaHidden := ariaHidden;
      lastToggle, pendingCloses, pendingLinkCloses, pendingUnopens := 0, 0, 0, 0;
      if dom.hasToggle && dom.hasNav && ariaExpanded.None? {
        this.ariaExpanded := Some(false);
      } else {
        this.ariaExpanded := ariaExpanded;
      }
    }

    method OpenDrawer()
      requires Valid()
      modifies this
      ensures Valid()
      ensures State() == AfterOpen(old(State()))
    {
      if !dom.hasDrawer {
        return;
      }
      drawerOpen := true;
      ariaHidden := Some(false);
      if dom.hasToggle {
        ariaExpanded := Some(true);
      }
    }

    method CloseDrawer()
      requires Valid()
      modifies this
      ensures Valid()
      ensures State() == AfterClose(old(State()))
    {
      if !dom.hasDrawer {
        return;
      }
      drawerClosing := true;
      ariaHidden := Some(true);
      if dom.hasToggle {
        ariaExpanded := Some(false);
      }
      pendingCloses := pendingCloses + 1;
    }

    /** The callback of a close timer scheduled by `CloseDrawer`, which the
      browser runs `CloseDelayMs` later. */
    method FireCloseTimer()
      requires Valid() && pendingCloses > 0
      modifies this
      ensures Valid() && (old(Inv(State())) ==> Inv(State()))
      ensures State() == AfterCloseTimer(old(State()))
    {
      drawerOpen := false;
      drawerClosing := false;
      pendingCloses := pendingCloses - 1;
    }

    /** A click on the button; `isMobile` is the `(max-width: 768px)` query. */
    method MobileMenuActivator(isMobile: bool)
      requires Valid()
      modifies this
      ensures Valid() && (old(Inv(State())) ==> Inv(State()))
      ensures State() == AfterActivate(old(State()), isMobile)
    {
      if isMobile {
        if dom.hasDrawer && drawerOpen {
          CloseDrawer();
        } else {
          OpenDrawer();
        }
      } else {
        if dom.hasNav {
          navShow := !navShow;
        }
        if dom.hasToggle {
          toggleActive := !toggleActive;
        }
      }
    }

    method OnKeydown(key: string)
      requires Valid()
      modifies this
      ensures Valid() && (old(Inv(State())) ==> Inv(State()))
      ensures State() == AfterKeydown(old(State()), key)
    {
      if key == "Escape" && dom.hasDrawer && drawerOpen {
        CloseDrawer();
      }
    }

    /** The debounced toggle; `now` is `Date.now()`. */
    method MobileToggleHandler(now: int)
      requires Valid() && dom.hasToggle && dom.hasNav
      modifies this
      ensures Valid() && (old(Inv(State())) ==> Inv(State()))
      ensures State() == AfterToggle(old(State()), now)
    {
      if now - lastToggle < DebounceMs {
        return;
      }
      lastToggle := now;
      navShow := !navShow;
      toggleActive := !toggleActive;
      ariaExpanded := Some(navShow);
    }

    /** A click inside the drawer; `href` is that of the closest link. */
    method OnDrawerClick(href: Option<string>)
      requires Valid() && dom.hasDrawer
      modifies this
      ensures Valid() && (old(Inv(State())) ==> Inv(State()))
      ensures State() == AfterDrawerClick(old(State()), href)
    {
      if href.Some? && IsHashHref(href.value) {
        pendingLinkCloses := pendingLinkCloses + 1;
      }
    }

    /** The callback of a drawer-link timer. */
    method FireLinkCloseTimer()
      requires Valid() && pendingLinkCloses > 0
      modifies this
      ensures Valid()
      ensures State() == AfterLinkCloseTimer(old(State()))
    {
      pendingLinkCloses := pendingLinkCloses - 1;
      CloseDrawer();
    }

    /** A click on an in-page link, handled by the smooth-scroll listener. */
    method OnAnchorClick(href: string, targetExists: bool)
      requires Valid()
      modifies this
      ensures Valid() && (old(Inv(State())) ==> Inv(State()))
      ensures State() == AfterAnchorClick(old(State()), href, targetExists)
    {
      if href == "" || href == "#" || !targetExists {
        return;
      }
      if dom.hasDrawer && drawerOpen {
        pendingUnopens := pendingUnopens + 1;
      }
      if dom.hasNav && navShow {
        navShow := false;
      }
      if dom.hasToggle && toggleActive {
        toggleActive := false;
      }
    }

    /** The callback of a smooth-scroll timer. */
    method FireUnopenTimer()
      requires Valid() && pendingUnopens > 0
      modifies this
      ensures Valid()
      ensures State() == AfterUnopenTimer(old(State()))
    {
      drawerOpen := false;
      pendingUnopens := pendingUnopens - 1;
    }
  }

  // ---------------------------------------------------------------------
  // Properties of the handlers

  /** `Inv` holds at start-up and the button, Escape, close-timer and
      debounced-toggle handlers keep it. */
  lemma InvPreserved(s: MenuState, isMobile: bool, key: string, now: int,
                     dom: Dom, ariaExpanded: Option<bool>, ariaHidden: Option<bool>)
    ensures Inv(Initial(dom, ariaExpanded, ariaHidden))
    ensures Inv(s) ==> Inv(AfterActivate(s, isMobile)) && Inv(AfterKeydown(s, key))
    ensures Inv(s) && s.pendingCloses > 0 ==> Inv(AfterCloseTimer(s))
    ensures Inv(s) && s.dom.hasToggle && s.dom.hasNav ==> Inv(AfterToggle(s, now))
  {
  }

  /** `DrawerInv` follows from `Inv`, and the button, Escape, close-timer
      and debounced-toggle handlers keep it. */
  lemma DrawerInvPreserved(s: MenuState, isMobile: bool, key: string, now: int)
    ensures Inv(s) ==> DrawerInv(s)
    ensures DrawerInv(s) ==> DrawerInv(AfterActivate(s, isMobile)) && DrawerInv(AfterKeydown(s, key))
    ensures DrawerInv(s) && s.pendingCloses > 0 ==> DrawerInv(AfterCloseTimer(s))
    ensures DrawerInv(s) && s.dom.hasToggle && s.dom.hasNav ==> DrawerInv(AfterToggle(s, now))
  {
  }

  /** The drawer-link and smooth-scroll handlers and their timers keep
      `DrawerInv` too. */
  lemma DrawerInvPreservedByLinks(s: MenuState, href: Option<string>, anchor: string, targetExists: bool)
    ensures DrawerInv(s) ==> DrawerInv(AfterAnchorClick(s, anchor, targetExists))
    ensures DrawerInv(s) && s.dom.hasDrawer ==> DrawerInv(AfterDrawerClick(s, href))
    ensures DrawerInv(s) && s.pendingLinkCloses > 0 ==> DrawerInv(AfterLinkCloseTimer(s))
    ensures DrawerInv(s) && s.pendingUnopens > 0 ==> DrawerInv(AfterUnopenTimer(s))
  {
  }

  /** One click on an in-page link inside the open drawer reaches both the
      smooth-scroll and the drawer listener. After the drawer-link timer has
      run `closeDrawer`, the smooth-scroll timer removes `open` while
      `closing` stays: the drawer is closing without being open, which `Inv`
      excludes, until the close timer clears `closing`. */
  lemma LinkClickLeavesClosingWithoutOpen()
    ensures var s1 := AfterActivate(Initial(Dom(true, true, true), None, None), true);
      var s2 := AfterDrawerClick(AfterAnchorClick(s1, "#about", true), Some("#about"));
      var s3 := AfterLinkCloseTimer(s2);
      var s4 := AfterUnopenTimer(s3);
      var s5 := AfterCloseTimer(s4);
      && Inv(s1) && Inv(s2) && Inv(s3)
      && s4.drawerClosing && !s4.drawerOpen && !Inv(s4) && DrawerInv(s4)
      && !s5.drawerOpen && !s5.drawerClosing && s5.ariaHidden == Some(true) && Inv(s5)
  {
  }

  /** Reopening in the window that `LinkClickLeavesClosingWithoutOpen`
      reaches: a mobile click opens the drawer and marks it visible while
      `closing` stays, and the close timer still pending then shuts it with
      the ARIA values saying open. */
  lemma ReopenWhileClosingWithoutOpen()
    ensures var s1 := AfterActivate(Initial(Dom(true, true, true), None, None), true);
      var s2 := AfterDrawerClick(AfterAnchorClick(s1, "#about", true), Some("#about"));
      var s4 := AfterUnopenTimer(AfterLinkCloseTimer(s2));
      var s5 := AfterActivate(s4, true);
      var s6 := AfterCloseTimer(s5);
      && s5.drawerOpen && s5.drawerClosing && s5.ariaHidden == Some(false) && s5.ariaExpanded == Some(true)
      && s5.pendingCloses == 1
      && !s6.drawerOpen && !s6.drawerClosing && s6.ariaHidden == Some(false) && s6.ariaExpanded == Some(true)
  {
  }

  /** A click on an in-page link with a target collapses the inline menu and
      the button at once and schedules the removal of `open` exactly when
      the drawer is open; a bare `#`, an empty `href` or a missing target
      changes nothing. */
  lemma AnchorClickCollapses(s: MenuState, href: string, targetExists: bool)
    ensures var r := AfterAnchorClick(s, href, targetExists);
      if href == "" || href == "#" || !targetExists then r == s
      else
        && (s.dom.hasNav ==> !r.navShow) && (s.dom.hasToggle ==> !r.toggleActive)
        && r.pendingUnopens == s.pendingUnopens + (if s.dom.hasDrawer && s.drawerOpen then 1 else 0)
        && r == s.(navShow := r.navShow, toggleActive := r.toggleActive, pendingUnopens := r.pendingUnopens)
        && (!s.dom.hasNav ==> r.navShow == s.navShow) && (!s.dom.hasToggle ==> r.toggleActive == s.toggleActive)
  {
  }

  /** Only a click on an in-page link inside the drawer schedules a close,
      and its timer does what `closeDrawer` does. */
  lemma DrawerLinkCloses(s: MenuState, href: Option<string>)
    requires s.dom.hasDrawer
    ensures var r := AfterDrawerClick(s, href);
      && (r.pendingLinkCloses > s.pendingLinkCloses <==> href.Some? && IsHashHref(href.value))
      && r.(pendingLinkCloses := s.pendingLinkCloses) == s
      && (r.pendingLinkCloses > 0 ==>
            AfterLinkCloseTimer(r) == AfterClose(r.(pendingLinkCloses := r.pendingLinkCloses - 1)))
  {
  }

  /** On a desktop viewport a click toggles the inline menu and the button,
      and leaves `aria-expanded`, the drawer and its timers alone; two clicks
      undo each other. */
  lemma DesktopActivate(s: MenuState)
    ensures var r := AfterActivate(s, false);
      && (r.navShow == if s.dom.hasNav then !s.navShow else s.navShow)
      && (r.toggleActive == if s.dom.hasToggle then !s.toggleActive else s.toggleActive)
      && r.ariaExpanded == s.ariaExpanded
      && r.drawerOpen == s.drawerOpen && r.drawerClosing == s.drawerClosing
      && r.ariaHidden == s.ariaHidden && r.pendingCloses == s.pendingCloses
      && r.pendingLinkCloses == s.pendingLinkCloses && r.pendingUnopens == s.pendingUnopens
    ensures AfterActivate(AfterActivate(s, false), false) == s
  {
  }

  /** `n` desktop clicks in a row. */
  function DesktopClicks(s: MenuState, n: nat): MenuState {
    if n == 0 then s else AfterActivate(DesktopClicks(s, n - 1), false)
  }

  /** After `n` desktop clicks the inline menu is shown exactly when it was
      shown before and `n` is even, or was hidden and `n` is odd; nothing
      else but the button's class changes, and the drawer is never opened. */
  lemma {:induction false} DesktopClicksParity(s: MenuState, n: nat)
    ensures var r := DesktopClicks(s, n);
      && r.dom == s.dom
      && (r.navShow == if s.dom.hasNav then s.navShow != (n % 2 == 1) else s.navShow)
      && (r.toggleActive == if s.dom.hasToggle then s.toggleActive != (n % 2 == 1) else s.toggleActive)
      && r.ariaExpanded == s.ariaExpanded && r.drawerOpen == s.drawerOpen
      && r.drawerClosing == s.drawerClosing && r.ariaHidden == s.ariaHidden
      && r.pendingCloses == s.pendingCloses && r.lastToggle == s.lastToggle
      && r.pendingLinkCloses == s.pendingLinkCloses && r.pendingUnopens == s.pendingUnopens
  {
    if n > 0 {
      DesktopClicksParity(s, n - 1);
      assert (n % 2 == 1) == !((n - 1) % 2 == 1);
    }
  }

  /** On a mobile viewport a click on a drawer without `open` opens it and
      marks it visible and the button expanded. It leaves `closing` as it
      was, which under `Inv` means absent. */
  lemma MobileOpens(s: MenuState)
    requires s.dom.hasDrawer && s.dom.hasToggle && !s.drawerOpen
    ensures var r := AfterActivate(s, true);
      r.drawerOpen && r.drawerClosing == s.drawerClosing
      && r.ariaHidden == Some(false) && r.ariaExpanded == Some(true)
      && r.pendingCloses == s.pendingCloses && r.navShow == s.navShow
    ensures Inv(s) ==> !AfterActivate(s, true).drawerClosing
  {
  }

  /** On a mobile viewport a click on an open drawer starts closing it: it
      is marked hidden and the button collapsed at once, but stays open until
      the timer fires, which clears both `open` and `closing`. */
  lemma MobileCloses(s: MenuState)
    requires s.dom.hasDrawer && s.dom.hasToggle && s.drawerOpen
    ensures var r := AfterActivate(s, true);
      && r.drawerOpen && r.drawerClosing && r.ariaHidden == Some(true)
      && r.ariaExpanded == Some(false) && r.pendingCloses == s.pendingCloses + 1
      && var t := AfterCloseTimer(r);
         !t.drawerOpen && !t.drawerClosing && t.ariaHidden == Some(true)
  {
  }

  /** Escape closes an open drawer exactly as a mobile click does; any other
      key, or a closed drawer, changes nothing. */
  lemma EscapeCloses(s: MenuState, key: string)
    ensures AfterKeydown(s, key) ==
      if key == "Escape" && s.dom.hasDrawer && s.drawerOpen then AfterActivate(s, true) else s
  {
  }

  /** A click on a drawer that is closing and still carries `open` does not
      reopen it: it closes it again and schedules a second timer. Under `Inv`
      every closing drawer carries `open`. */
  lemma ClickWhileClosing(s: MenuState)
    requires s.dom.hasDrawer && s.drawerOpen && s.drawerClosing
    ensures var r := AfterActivate(s, true);
      r.drawerOpen && r.drawerClosing && r.pendingCloses == s.pendingCloses + 1 && r.ariaHidden == Some(true)
  {
  }

  /** Timers are never cancelled: closing twice, reopening after the first
      timer, and then letting the second fire leaves the drawer closed while
      it is still marked visible and the button still expanded. */
  lemma StaleTimerClosesReopenedDrawer()
    ensures var s0 := Initial(Dom(true, true, true), None, Some(true));
      var s1 := AfterActivate(s0, true);
      var s2 := AfterActivate(AfterActivate(s1, true), true);
      var s3 := AfterActivate(AfterCloseTimer(s2), true);
      var s4 := AfterCloseTimer(s3);
      && s3.drawerOpen && s3.pendingCloses == 1
      && !s4.drawerOpen && s4.ariaHidden == Some(false) && s4.ariaExpanded == Some(true)
  {
  }

  /** A debounced call within 300 ms of the last accepted one changes
      nothing, not even the time of the last toggle. */
  lemma ToggleIgnoredWithinWindow(s: MenuState, now: int)
    requires s.dom.hasToggle && s.dom.hasNav && now - s.lastToggle < DebounceMs
    ensures AfterToggle(s, now) == s
  {
  }

  /** An accepted debounced call flips both classes, makes `aria-expanded`
      agree with the menu, records the time, and touches nothing else. */
  lemma ToggleAccepted(s: MenuState, now: int)
    requires s.dom.hasToggle && s.dom.hasNav && now - s.lastToggle >= DebounceMs
    ensures var r := AfterToggle(s, now);
      && r.navShow == !s.navShow && r.toggleActive == !s.toggleActive
      && r.ariaExpanded == Some(r.navShow) && r.lastToggle == now
      && r.drawerOpen == s.drawerOpen && r.drawerClosing == s.drawerClosing
      && r.ariaHidden == s.ariaHidden && r.pendingCloses == s.pendingCloses
      && r.pendingLinkCloses == s.pendingLinkCloses && r.pendingUnopens == s.pendingUnopens
  {
  }

  /** Two calls less than 300 ms apart change the menu at most once: after
      an accepted call the second is ignored. */
  lemma TwoQuickTogglesChangeOnce(s: MenuState, t1: int, t2: int)
    requires s.dom.hasToggle && s.dom.hasNav && t1 - s.lastToggle >= DebounceMs && t2 - t1 < DebounceMs
    ensures AfterToggle(AfterToggle(s, t1), t2) == AfterToggle(s, t1)
  {
  }

  /** Two calls at least 300 ms apart both take effect, so the menu and the
      button end as they began. */
  lemma TwoSpacedTogglesUndo(s: MenuState, t1: int, t2: int)
    requires s.dom.hasToggle && s.dom.hasNav && t1 - s.lastToggle >= DebounceMs && t2 - t1 >= DebounceMs
    ensures var r := AfterToggle(AfterToggle(s, t1), t2);
      r.navShow == s.navShow && r.toggleActive == s.toggleActive
      && r.ariaExpanded == Some(s.navShow) && r.lastToggle == t2
  {
  }
}
