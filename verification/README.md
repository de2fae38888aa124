# Page interaction controller — Dafny model

This project models the decision rules of the site script `js/script.js`
of a marketing web site: the contact-form validator, the two scroll
listeners (back-to-top control, compact header and logo swap), and the
menu/drawer controller with its Escape handler, close timer, the drawer-link
and smooth-scroll link handlers with their timers, and the debounced toggle. The browser around them (DOM lookups, listener wiring, media
queries, timers, geometry) is replaced by parameters and explicit steps.

Files:

- `wrappers.dfy` — `Option`; `None` stands for an element or attribute that is not there.
- `text.dfy` — module `Text`: the JavaScript white-space class shared by `trim()` and `\s`, ASCII digits, `Trim`, `Count`, `FirstIndex`.
- `contact_form.dfy` — module `ContactForm`: the e-mail regular expression as a language (`MatchesEmailPattern`) and as a decision procedure (`IsEmail`), proved equal; the phone rule (`Digits`, `IsPhone`); `Validate`, the three checks with first failure winning; class `Form` holding the five controls and the status element, whose `Submit` reports the outcome and resets the form only on success.
- `header_scroll.dfy` — module `HeaderScroll`: `ScrollStep` maps one scroll event to the new view (back-to-top class, `scrolled` class, header transform, the three logos' inline display, the listener's `lastY`); `ScrollRun` folds a sequence of events.
- `menu.dfy` — module `Menu`: `MenuState` and one transition function per handler and timer (`AfterOpen`, `AfterClose`, `AfterCloseTimer`, `AfterActivate`, `AfterKeydown`, `AfterToggle`, `AfterDrawerClick`, `AfterLinkCloseTimer`, `AfterAnchorClick`, `AfterUnopenTimer`); class `MenuController` with one field per class/attribute the handlers change and one counter per kind of pending timer. Its methods are proved to perform exactly those transitions and to keep the invariant `DrawerInv`. The event methods for the button, Escape, the close timer and the debounced toggle also keep the stronger `Inv`, which the drawer-link and smooth-scroll timers break.

Inputs from the environment are parameters: `isMobile` is the result of the
`(max-width: 768px)` media query, `now` is `Date.now()`, `scrollY` is the
page offset, `smallLoaded` says whether the small logo's `naturalWidth` is
non-zero, and `key` is the pressed key. A timer's callback is an explicit
step (`FireCloseTimer`, `FireLinkCloseTimer`, `FireUnopenTimer`); the model
counts the timers of each kind scheduled and not yet fired, since they are
never cancelled. `href` and `targetExists` describe the clicked link.

Behaviour of the code that differs from what its names and comments suggest:

- A desktop click on the menu button toggles only the `show` and `active` classes; it never sets `aria-expanded` (`Menu.DesktopActivate`).
- The 300 ms debounce belongs to `mobileToggleHandler`, which is defined but never attached to an event. The attached click handler has no debounce.
- On a mobile viewport, clicks alternate between opening and closing only if the close timer fires in between. A click during the close animation closes the drawer again while it still carries `open` (`Menu.ClickWhileClosing`); only once the smooth-scroll timer has removed `open` does a click reopen it (below).
- The header is never hidden. The hide branch needs an offset above 150 while the header is not compact, i.e. at most 80, so that branch is dead (`HeaderScroll.HeaderTransform`).
- Timers are not cancelled. A close timer left over from an earlier close can shut a drawer reopened since. The drawer then stays marked `aria-hidden="false"` with the button `aria-expanded="true"` (`Menu.StaleTimerClosesReopenedDrawer`).
- A click on an in-page link inside the open drawer reaches two listeners. The drawer's listener runs `closeDrawer` 250 ms later. The smooth-scroll listener removes `open` 260 ms later but leaves `closing`. In between, the drawer carries `closing` without `open` until the close timer clears it (`Menu.LinkClickLeavesClosingWithoutOpen`). A mobile click in that window reopens the drawer, and the pending close timer shuts it again while its ARIA values say open (`Menu.ReopenWhileClosingWithoutOpen`).

## Model

| member | source | states |
|---|---|---|
| Text.Trim | js/script.js:189 | `trim()` yields the empty string exactly when every character is JavaScript white space; otherwise the result neither starts nor ends with white space |
| Text.TrimSlice | js/script.js:189 | `trim()` returns a slice of its input with only white space before and after it, i.e. the input with its leading and trailing white space removed |
| ContactForm.EmailPatternIff | js/script.js:194 | the decision procedure (no white space, exactly one `@`, non-empty local part, a `.` in the domain that is neither its first nor last character) accepts exactly the strings matched by `^[^\s@]+@[^\s@]+\.[^\s@]+$` |
| ContactForm.EmailAccepted | js/script.js:194 | `a@b.co` matches the e-mail pattern |
| ContactForm.EmailRejected | js/script.js:194 | `a@b` (no dot in the domain), `a @b.co` and ` a@b.co` (whitespace; the e-mail is tested untrimmed), the empty string and `a@@b.co` do not match |
| ContactForm.Digits | js/script.js:200 | `replace(/\D/g, '')` leaves only ASCII digits and never lengthens the string |
| ContactForm.DigitsContents | js/script.js:200 | stripping keeps every digit occurrence of the input and drops every other character |
| ContactForm.DigitsAppend | js/script.js:200 | stripping distributes over concatenation, so the digits keep their order |
| ContactForm.DigitsOfDigitString | js/script.js:200 | a string of digits only is left unchanged |
| ContactForm.PhoneIff | js/script.js:199-200 | the phone passes `^\d{10}$` after stripping exactly when it holds ten digits |
| ContactForm.PhoneDigitsAccepted | js/script.js:200 | `1234567890` passes |
| ContactForm.PhonePunctuatedAccepted | js/script.js:200 | `(123) 456-7890` passes |
| ContactForm.PhoneRejected | js/script.js:200 | `12345` and `12345678901` fail |
| ContactForm.ValidateBlankFirst | js/script.js:189-192 | the outcome is the blank-field warning exactly when some field is empty or white space only |
| ContactForm.ValidateEmailSecond | js/script.js:194-197 | with no field blank, the outcome is the e-mail warning exactly when the e-mail does not match the regular expression |
| ContactForm.ValidatePhoneLast | js/script.js:200-206 | with no field blank and a matching e-mail, the submission is accepted exactly when the phone holds ten digits, and otherwise gets the phone warning |
| ContactForm.MissingFieldRejected | js/script.js:183-192 | a control missing from the page reads as "" and yields the blank-field warning before any other check |
| ContactForm.SubmissionIncomplete | js/script.js:189-192 | an empty service yields the blank-field warning whatever the other fields hold |
| ContactForm.JoEmail | js/script.js:194 | `jo@x.com` matches the e-mail pattern |
| ContactForm.JoPhone | js/script.js:200 | `555-123-4567` holds ten digits once stripped |
| ContactForm.JoNotBlank | js/script.js:189 | `Jo`, `jo@x.com`, `555-123-4567`, `Plumbing` and `Hi` are not blank |
| ContactForm.ScenarioAccepted | js/script.js:189-206 | name `Jo`, e-mail `jo@x.com`, phone `555-123-4567`, service `Plumbing`, message `Hi` pass all three checks and are accepted |
| ContactForm.ResubmitAfterAcceptRejected | js/script.js:189-207 | submitting again after a successful submission, with the fields reset, yields the blank-field warning |
| ContactForm.Report | js/script.js:190-206 | the status message is success-styled exactly for an accepted submission, warning-styled otherwise |
| ContactForm.Cleared | js/script.js:207 | `reset()` empties a present control and leaves a missing one missing |
| ContactForm.Form.constructor | js/script.js:178-187 | the form starts with the given controls and an empty status |
| ContactForm.Form.ShowMessage | js/script.js:222-229 | the status text is overwritten when the status element exists, and nothing else changes |
| ContactForm.Form.Conclude | js/script.js:189-207 | the outcome's message is shown; the five fields are reset on success and untouched otherwise |
| ContactForm.Form.Submit | js/script.js:181-207 | the outcome is `Validate` of the values read (missing controls as ""), its message is shown, and only an accepted submission resets the fields |
| HeaderScroll.HeaderTransform | js/script.js:253-264 | the header transform is always `translateY(0)`: the hide branch cannot be reached |
| HeaderScroll.BackToTopRule | js/script.js:159-162 | the back-to-top control is shown exactly when the offset exceeds 300; without the control nothing changes |
| HeaderScroll.HeaderRule | js/script.js:247-281 | the header is `scrolled` exactly when the offset exceeds 80, its transform rests, and `lastY` becomes the offset; without a header nothing changes |
| HeaderScroll.LogoRules | js/script.js:266-278 | compact: full logo hidden, small shown, inline placeholder shown only if both exist and the small image did not load, else left as it was; not compact: full shown, small and inline hidden; no element appears or disappears |
| HeaderScroll.OneLogoShown | js/script.js:270-278 | with both logos present, exactly one of them is hidden after any header update |
| HeaderScroll.StepIdempotent | js/script.js:247-281 | a second scroll event at the same offset changes nothing |
| HeaderScroll.RunSettles | js/script.js:247-281 | after any non-empty run of events, the control, the compact class, the transform, the two main logos and `lastY` are determined by the last event alone |
| HeaderScroll.NeverRaised | js/script.js:253-264 | no run of scroll events ever hides the header |
| Menu.MenuController.constructor | js/script.js:22-26 | start-up state: no classes, no timers, `_lastToggle` 0, and `aria-expanded` defaulted to "false" when the button and inline menu exist and it is unset; both invariants hold |
| Menu.MenuController.OpenDrawer | js/script.js:78-83 | adds `open`, sets `aria-hidden="false"` and, with a button, `aria-expanded="true"`; no-op without a drawer; keeps `DrawerInv` |
| Menu.MenuController.CloseDrawer | js/script.js:84-95 | adds `closing`, sets `aria-hidden="true"` and, with a button, `aria-expanded="false"`, and schedules one close timer; no-op without a drawer; keeps `DrawerInv` |
| Menu.MenuController.FireCloseTimer | js/script.js:91-94 | a pending close timer removes `open` and `closing`; keeps `DrawerInv`, and `Inv` when it held |
| Menu.MenuController.MobileMenuActivator | js/script.js:98-106 | a click performs `AfterActivate` for the given viewport; keeps `DrawerInv`, and `Inv` when it held |
| Menu.MenuController.OnKeydown | js/script.js:125-127 | a key press performs `AfterKeydown`; keeps `DrawerInv`, and `Inv` when it held |
| Menu.MenuController.MobileToggleHandler | js/script.js:31-44 | a debounced toggle performs `AfterToggle`; keeps `DrawerInv`, and `Inv` when it held |
| Menu.MenuController.OnDrawerClick | js/script.js:114-121 | a click inside the drawer performs `AfterDrawerClick`: one more 250 ms close timer for an in-page link; keeps `DrawerInv`, and `Inv` when it held |
| Menu.MenuController.FireLinkCloseTimer | js/script.js:119 | a drawer-link timer runs `closeDrawer`; keeps `DrawerInv` |
| Menu.MenuController.OnAnchorClick | js/script.js:136-155 | a click on an in-page link performs `AfterAnchorClick`; keeps `DrawerInv`, and `Inv` when it held |
| Menu.MenuController.FireUnopenTimer | js/script.js:149 | a smooth-scroll timer removes `open` and nothing else; keeps `DrawerInv` |
| Menu.InvPreserved | js/script.js:78-127 | the start-up state satisfies `Inv`: a missing drawer is never touched; a closing drawer is still open, `aria-hidden`, and has a pending close timer. The button, Escape, close-timer and debounced-toggle handlers keep `Inv` |
| Menu.DrawerInvPreserved | js/script.js:78-127 | `Inv` implies `DrawerInv`, and the button, Escape, close-timer and debounced-toggle handlers keep `DrawerInv`: a missing drawer is never touched and a closing drawer has a close timer pending |
| Menu.DrawerInvPreservedByLinks | js/script.js:114-155 | the drawer-link click, its timer, the smooth-scroll click and its timer keep `DrawerInv` |
| Menu.LinkClickLeavesClosingWithoutOpen | js/script.js:84-155 | one click on an in-page drawer link: after the 250 ms `closeDrawer` and the 260 ms removal of `open`, the drawer is `closing` but not `open`, which breaks `Inv` but keeps `DrawerInv`; the close timer then clears `closing` and `Inv` holds again |
| Menu.ReopenWhileClosingWithoutOpen | js/script.js:78-155 | a mobile click while the drawer is `closing` without `open` reopens it with `closing` kept; the pending close timer then shuts it while `aria-hidden="false"` and `aria-expanded="true"` |
| Menu.AnchorClickCollapses | js/script.js:136-155 | a link with a target removes `show` and `active` at once and schedules a removal of `open` exactly when the drawer is open, and changes nothing else; `#`, an empty `href` or a missing target changes nothing |
| Menu.DrawerLinkCloses | js/script.js:114-121 | only an in-page link inside the drawer schedules a close, nothing else changes, and its timer does what `closeDrawer` does |
| Menu.DesktopActivate | js/script.js:101-105 | a desktop click toggles `show` and `active` and leaves `aria-expanded`, the drawer and its timers alone; two clicks restore the state |
| Menu.DesktopClicksParity | js/script.js:101-105 | after n desktop clicks `show` and `active` are flipped exactly when n is odd, and nothing else has changed |
| Menu.MobileOpens | js/script.js:78-100 | a mobile click on a drawer without `open` opens it with `aria-hidden="false"` and `aria-expanded="true"`, leaving `closing` as it was (absent whenever `Inv` holds) |
| Menu.MobileCloses | js/script.js:84-100 | a mobile click on an open drawer sets `closing`, `aria-hidden="true"`, `aria-expanded="false"` while `open` stays; the timer then clears `open` and `closing` |
| Menu.EscapeCloses | js/script.js:125-127 | Escape on an open drawer does exactly what a mobile click does; otherwise a key changes nothing |
| Menu.ClickWhileClosing | js/script.js:98-100 | a click on a drawer that is closing and still carries `open` closes it again and schedules a second timer instead of reopening |
| Menu.StaleTimerClosesReopenedDrawer | js/script.js:84-100 | close, close, timer, reopen, timer: the drawer ends closed while `aria-hidden="false"` and `aria-expanded="true"` |
| Menu.ToggleIgnoredWithinWindow | js/script.js:33-36 | a debounced call less than 300 ms after the last accepted one changes nothing, including `_lastToggle` |
| Menu.ToggleAccepted | js/script.js:37-42 | an accepted call flips `show` and `active`, sets `aria-expanded` to the new `show`, records `now`, and touches nothing else |
| Menu.TwoQuickTogglesChangeOnce | js/script.js:31-44 | of two calls less than 300 ms apart after an accepted one, the second has no effect |
| Menu.TwoSpacedTogglesUndo | js/script.js:31-44 | two calls at least 300 ms apart both take effect and restore `show` and `active` |

## Left out

- Copying the navigation list into the drawer on start-up and on resize (js/script.js:66-74, 129-130): this copies markup and has no decision in it.
- `scrollIntoView` in the smooth-scroll handler (js/script.js:143): viewport geometry.
- Which links carry the smooth-scroll handler: those present at load, including the drawer's first copy; the copies made on resize do not. The model lets any in-page link click reach `AfterAnchorClick`, and a click that reaches both listeners is the two steps in a row.
- The back-to-top click (js/script.js:163) and the fade-in `IntersectionObserver` (js/script.js:166-175): viewport geometry and animation.
- The `--header-h` custom property (js/script.js:234-246): it is float geometry from `getBoundingClientRect`.
- `showMessage` styling (js/script.js:225-228): only the message text and its kind are modelled.
- Debug logging, the `MutationObserver` and the commented-out EmailJS call (js/script.js:9-11, 49-61, 209-218).
- Timing: delays (250, 260 and 300 ms) are not modelled, and a timer fires when the model takes its step, so the model allows every order of the pending timers, including orders the delays exclude.
- `scrollY` is a whole number here. The browser reports a fractional offset, which does not change any of the comparisons against whole thresholds.
- `Cleared`: `reset()` resets each control to its markup default, which the model takes to be "". An input with a `value` attribute resets to that value, and a `<select>` resets to its preselected option or else its first one. `reset()` also touches only controls inside `#contactForm`, while the five fields are looked up by id anywhere in the page.
- `aria-expanded` and `aria-hidden` are modelled as booleans or unset. A page that starts them with another string is not represented.
- The classes `show`, `active`, `open` and `closing` are taken to be absent at page load.
- Strings are sequences of Unicode scalar values, not UTF-16 code units. Neither the white-space class nor the digit class nor `@` and `.` are affected by the difference.
