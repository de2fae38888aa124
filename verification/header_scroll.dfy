/** The two scroll listeners: the back-to-top control, and the header's
    compact state, its show/hide transform and the logo swap. The header
    listener's closure variable `lastY` is carried in the view. */
module HeaderScroll {

  /** Past this offset the back-to-top control is shown. */
  const BackToTopThreshold := 300
  /** Past this offset the header is compact (class `scrolled`). */
  const CompactThreshold := 80
  /** Past this offset a non-compact header would hide while scrolling down. */
  const HideThreshold := 150

  /** The header's inline `transform`: not set yet, `translateY(0)`, or
      `translateY(-100%)`. */
  datatype Transform = Unset | Resting | Raised

  /** The inline `display` a logo element carries: none set yet, `none`,
      `inline-block` or `inline-flex`. */
  datatype Display = Unstyled | DisplayNone | InlineBlock | InlineFlex

  /** A logo element, or `Absent` when the page does not have it. */
  datatype Logo = Absent | Present(display: Display)

  /** The full logo, the small (compact) logo and the inline placeholder. */
  datatype Logos = Logos(full: Logo, small: Logo, inline: Logo)

  /** Which listeners exist: each is registered only when its element is found. */
  datatype Page = Page(hasBackToTop: bool, hasHeader: bool)

  /** Everything the scroll listeners write, and the header listener's `lastY`. */
  datatype View = View(backToTopShown: bool, scrolled: bool, transform: Transform,
                       logos: Logos, lastY: int)

  /** One scroll event: the page offset, and whether the small logo image has
      loaded (`naturalWidth !== 0`). */
  datatype ScrollEvent = ScrollEvent(scrollY: int, smallLoaded: bool)

  /** Sets the inline display of a logo that is present. */
  function Restyle(logo: Logo, d: Display): Logo {
    match logo
    case Absent => Absent
    case Present(_) => Present(d)
  }

  /** The header transform rule: a non-compact header hides when scrolling
      down past `HideThreshold`, a compact one stays. Since compact means past
      `CompactThreshold` and that is below `HideThreshold`, the hide branch
      can never be taken: the header always rests. */
  function HeaderTransform(scrollY: int, lastY: int): (t: Transform)
    ensures t == Resting
  {
    var isCompact := scrollY > CompactThreshold;
    if !isCompact then
      if scrollY > lastY && scrollY > HideThreshold then Raised else Resting
    else
      Resting
  }

  /** The logo swap: compact shows the small logo (and the inline placeholder
      when the small image failed to load); otherwise only the full logo. */
  function SwapLogos(logos: Logos, isCompact: bool, smallLoaded: bool): Logos {
    if isCompact then
      Logos(Restyle(logos.full, DisplayNone),
            Restyle(logos.small, InlineBlock),
            if logos.inline.Present? && logos.small.Present? && !smallLoaded
            then Restyle(logos.inline, InlineFlex) else logos.inline)
    else
      Logos(Restyle(logos.full, InlineBlock),
            Restyle(logos.small, DisplayNone),
            Restyle(logos.inline, DisplayNone))
  }

  /** Both listeners reacting to one scroll event. They write disjoint
      state, so their order does not matter. */
  function ScrollStep(page: Page, v: View, e: ScrollEvent): View {
    var v1 := if page.hasBackToTop then v.(backToTopShown := e.scrollY > BackToTopThreshold) else v;
    if !page.hasHeader then v1
    else
      var isCompact := e.scrollY > CompactThreshold;
      v1.(scrolled := isCompact,
          transform := HeaderTransform(e.scrollY, v.lastY),
          logos := SwapLogos(v.logos, isCompact, e.smallLoaded),
          lastY := e.scrollY)
  }

  /** A sequence of scroll events, in order. */
  function ScrollRun(page: Page, v: View, events: seq<ScrollEvent>): View
    decreases |events|
  {
    if events == [] then v else ScrollRun(page, ScrollStep(page, v, events[0]), events[1..])
  }

  // ---------------------------------------------------------------------
  // Properties

  /** The back-to-top control is shown exactly when the offset is past 300;
      without the control the listener does not exist. */
  lemma BackToTopRule(page: Page, v: View, e: ScrollEvent)
    ensures ScrollStep(page, v, e).backToTopShown ==
      if page.hasBackToTop then e.scrollY > 300 else v.backToTopShown
  {
  }

  /** The header listener: the header is compact exactly past 80, always
      rests, and `lastY` becomes the new offset; without a header nothing of
      it changes. */
  lemma HeaderRule(page: Page, v: View, e: ScrollEvent)
    ensures var r := ScrollStep(page, v, e);
      && (page.hasHeader ==>
            r.scrolled == (e.scrollY > 80) && r.transform == Resting && r.lastY == e.scrollY)
      && (!page.hasHeader ==>
            r.scrolled == v.scrolled && r.transform == v.transform
            && r.logos == v.logos && r.lastY == v.lastY)
  {
  }

  ghost predicate SamePresence(a: Logo, b: Logo) {
    a.Absent? <==> b.Absent?
  }

  /** The logo rules of the header listener, element by element. */
  lemma LogoRules(logos: Logos, isCompact: bool, smallLoaded: bool)
    ensures var r := SwapLogos(logos, isCompact, smallLoaded);
      && SamePresence(r.full, logos.full) && SamePresence(r.small, logos.small)
      && SamePresence(r.inline, logos.inline)
      && (isCompact ==>
            (r.full.Present? ==> r.full.display == DisplayNone)
            && (r.small.Present? ==> r.small.display == InlineBlock)
            && (if logos.inline.Present? && logos.small.Present? && !smallLoaded
                then r.inline == Present(InlineFlex) else r.inline == logos.inline))
      && (!isCompact ==>
            (r.full.Present? ==> r.full.display == InlineBlock)
            && (r.small.Present? ==> r.small.display == DisplayNone)
            && (r.inline.Present? ==> r.inline.display == DisplayNone))
  {
  }

  /** When both logos exist, after any header update exactly one of them is
      hidden. */
  lemma OneLogoShown(page: Page, v: View, e: ScrollEvent)
    requires page.hasHeader && v.logos.full.Present? && v.logos.small.Present?
    ensures var r := ScrollStep(page, v, e).logos;
      r.full.Present? && r.small.Present?
      && ((r.full.display == DisplayNone) != (r.small.display == DisplayNone))
  {
  }

  /** A second event at the same offset changes nothing. */
  lemma StepIdempotent(page: Page, v: View, e: ScrollEvent)
    ensures ScrollStep(page, ScrollStep(page, v, e), e) == ScrollStep(page, v, e)
  {
  }

  /** After any non-empty run of events, the state the listeners own depends
      only on the last event: whatever the history, the control, the compact
      class, the transform, the two main logos and `lastY` are those that
      event dictates. */
  lemma {:induction false} RunSettles(page: Page, v: View, events: seq<ScrollEvent>)
    requires events != []
    ensures var r := ScrollRun(page, v, events);
      var y := events[|events| - 1].scrollY;
      && (page.hasBackToTop ==> r.backToTopShown == (y > BackToTopThreshold))
      && (page.hasHeader ==>
            r.scrolled == (y > CompactThreshold) && r.transform == Resting && r.lastY == y
            && (r.logos.full.Present? ==>
                  r.logos.full.display == if y > CompactThreshold then DisplayNone else InlineBlock)
            && (r.logos.small.Present? ==>
                  r.logos.small.display == if y > CompactThreshold then InlineBlock else DisplayNone))
    decreases |events|
  {
    if |events| > 1 {
      RunSettles(page, ScrollStep(page, v, events[0]), events[1..]);
    }
  }

  /** The header is never raised: no run of scroll events, from a state
      where it is not raised, ever hides it. */
  lemma {:induction false} NeverRaised(page: Page, v: View, events: seq<ScrollEvent>)
    requires v.transform != Raised
    ensures ScrollRun(page, v, events).transform != Raised
    decreases |events|
  {
    if events != [] {
      NeverRaised(page, ScrollStep(page, v, events[0]), events[1..]);
    }
  }
}
