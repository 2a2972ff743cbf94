# Skyvex page script, modelled in Dafny

This project models the client-side behaviour of the Skyvex marketing site's
page script (`script.js`): the small state machines behind its testimonial
carousel, its mobile menu, its active navigation link, its cookie-consent banner
and its scroll-dependent floating button and navbar. The DOM is dropped. An
element's class list becomes a `set<string>`, `localStorage` becomes a
`map<string, string>`, and each event handler becomes a method on a class that
holds the state the handler changes. Every method is proved against a pure
transition function. The lemmas state the page's promises about those functions:
the slide index stays in range, exactly one dot is active, the menu icon matches
the menu, the active links are exclusive, and the banner stays hidden once
consent is given.

Modules:

- `ClassList` (`classlist.dfy`): the `classList` operations the script uses (`add`, `remove`,
  `toggle`, `toggle` with a force flag, `replace`).
- `Slider` (`slider.dfy`): JavaScript's truncated `%`, slide-index normalisation,
  next/previous stepping, and the class `TestimonialSlider` (setup, `showSlide`, next,
  previous, dot click).
- `MobileMenu` (`mobile_menu.dfy`): the toggle button and the close-on-link-click handlers.
- `SectionNav` (`section_nav.dfy`): the section observer's callback that moves `nav-active`.
- `CookieConsent` (`cookie_consent.dfy`): the banner's load check and the accept button.
- `ScrollEffects` (`scroll_effects.dfy`): the floating WhatsApp button past 300 pixels and
  the navbar's two looks around 50 pixels.
- `Wrappers` (`wrappers.dfy`): `Option`, used for an `href` attribute that may be absent.

The consent check is `!localStorage.getItem(key)` (script.js:233), a truthiness test. So
the banner also shows when the key is stored with the empty string as its value.
`CookieConsent.ConsentGiven` models this exactly. "The banner shows exactly when the key
is absent" holds only for storage that never holds `""` under the key.

## Model

| member | source | states |
|---|---|---|
| `ClassList.Add` | script.js:49-50 | after `classList.add` every token is present and no other class changed |
| `ClassList.Remove` | script.js:51 | after `classList.remove` no token is present and no other class changed |
| `ClassList.Toggle` | script.js:41 | `toggle` removes a present token or adds an absent one, and returns whether it is now present |
| `ClassList.ToggleForce` | script.js:42-43 | `toggle(token, force)` leaves the token present exactly when `force` holds |
| `ClassList.Replace` | script.js:256-258 | `replace(a, b)` swaps `a` for `b` when `a` is present and changes nothing when it is absent |
| `Slider.JsRem` | script.js:83 | JavaScript's `%` by a positive divisor: the result is within `(-b, b)`, takes the sign of the dividend and differs from it by a multiple of `b` |
| `Slider.Normalize` | script.js:83 | for every index `>= -n`, `(index + n) % n` lies in `[0, n)` and equals the mathematical residue of `index` |
| `Slider.BelowRangeGoesNegative` | script.js:83 | below `-n` the same expression can go negative, which is why every caller stays at or above `-n` |
| `Slider.Next` | script.js:89 | `nextSlide` adds one, and wraps from the last slide `n-1` to 0 |
| `Slider.Prev` | script.js:90 | `prevSlide` subtracts one, and wraps from slide 0 to `n-1` |
| `Slider.NextPrevInverse` | script.js:89-90 | `prevSlide` after `nextSlide` restores the index, and so does the reverse order |
| `Slider.Advance` | script.js:89 | any number of consecutive `nextSlide` steps keeps the index in `[0, n)` |
| `Slider.AdvanceIsModular` | script.js:89 | `k` consecutive `nextSlide` steps from slide `c` land on `(c + k) mod n` |
| `Slider.AdvanceCycles` | script.js:93 | stepping forward, as the autoplay does, returns to the start after `n` steps and reaches every slide |
| `Slider.TestimonialSlider.constructor` | script.js:65-80 | setup creates one dot per slide with the dot classes and then shows slide 0: index 0, offset 0, only dot 0 active |
| `Slider.TestimonialSlider.ShowSlide` | script.js:82-87 | the new index is the normalised index, the offset is `index * 100`, and exactly the dot at the index has `bg-white`; the dots' other classes do not change |
| `Slider.TestimonialSlider.NextSlide` | script.js:89 | the next button and the autoplay tick move to `Next` of the old index and keep one dot active |
| `Slider.TestimonialSlider.PrevSlide` | script.js:90 | the previous button moves to `Prev` of the old index and keeps one dot active |
| `Slider.TestimonialSlider.ClickDot` | script.js:73-76 | clicking dot `i` shows slide `i`, offset `i * 100`, and makes dot `i` the only active one |
| `MobileMenu.OnButtonClick` | script.js:39-44 | a button click flips `hidden`; afterwards the icon has `fa-bars` exactly when hidden and `fa-times` exactly when shown; other classes are unchanged |
| `MobileMenu.OnLinkClick` | script.js:48-52 | a link click leaves the menu hidden with `fa-bars` and without `fa-times`, whatever the prior state |
| `MobileMenu.LinkClickIdempotent` | script.js:48-52 | closing through a link twice gives the same classes as closing once |
| `MobileMenu.ButtonClickTwiceRestores` | script.js:41-43 | when the icon matches the menu, two button clicks restore both class lists exactly |
| `MobileMenu.ButtonClickTwiceRepairsIcon` | script.js:42-43 | for every view whose icon does not match the menu, two clicks do not restore it, because the forced toggles bring the icon in line; so the condition of `ButtonClickTwiceRestores` is exactly the right one |
| `MobileMenu.MenuElements.constructor` | script.js:33-37 | the handlers start from the markup's classes |
| `MobileMenu.MenuElements.ButtonClick` | script.js:39-44 | the button handler performs `OnButtonClick` in place |
| `MobileMenu.MenuElements.LinkClick` | script.js:48-52 | the link handler performs `OnLinkClick` in place, leaving the menu hidden with a matching icon |
| `SectionNav.LinksTo` | script.js:148 | a link matches a section exactly when its `href` is present and is `#` followed by the section id; a missing `href` never matches |
| `SectionNav.MarkLink` | script.js:147-150 | a link has `nav-active` afterwards exactly when its `href` is `#` plus the section id; its other classes are unchanged |
| `SectionNav.Highlight` | script.js:146-151 | over all links, `nav-active` ends up on exactly the links pointing at the section |
| `SectionNav.LastIntersecting` | script.js:143-152 | the section that decides a batch is the last intersecting entry; there is none exactly when no entry intersects |
| `SectionNav.AfterEntries` | script.js:143-152 | after a batch, `nav-active` is on exactly the links to the last intersecting section; with no intersecting entry the links are unchanged; other classes are kept |
| `SectionNav.HighlightOverrides` | script.js:143-151 | a later intersecting entry erases every trace of an earlier one |
| `SectionNav.ActiveLinksExclusive` | script.js:146-151 | any two active links point at the same, intersecting section |
| `SectionNav.NavLinks.constructor` | script.js:131 | the links and their `href`s as the markup gives them |
| `SectionNav.NavLinks.HighlightSection` | script.js:146-151 | the loop over the links performs `Highlight` in place |
| `SectionNav.NavLinks.OnIntersection` | script.js:142-153 | after a batch, `nav-active` is on exactly the links to the last intersecting section; a batch with no intersecting entry changes no link |
| `CookieConsent.ConsentGiven` | script.js:233 | `getItem` is truthy exactly when the key is stored with a non-empty value. A stored empty string counts as no consent, and any non-empty value counts as consent, `'true'` and even `'false'` alike |
| `CookieConsent.OnLoad` | script.js:233-235 | on load `visible` is added exactly when consent is missing (key absent or value empty); with consent the banner is untouched |
| `CookieConsent.OnAccept` | script.js:237-240 | accepting stores `'true'` under the consent key, keeps every other key and removes `visible` |
| `CookieConsent.AcceptedStaysHidden` | script.js:233-240 | after accepting, any later page load leaves the banner hidden |
| `CookieConsent.LoadShowsIffNoConsent` | script.js:233-235 | from hidden markup, the banner shows exactly when the key is absent or holds the empty string |
| `CookieConsent.AcceptIdempotent` | script.js:238-239 | accepting twice gives the same storage and classes as accepting once |
| `CookieConsent.ConsentBanner.constructor` | script.js:231-235 | page load applies `OnLoad` to the stored consent and the markup |
| `CookieConsent.ConsentBanner.Accept` | script.js:237-240 | the accept handler performs `OnAccept` in place: consent given, banner hidden |
| `ScrollEffects.OnFabScroll` | script.js:202-209 | the button has `visible` exactly when `scrollY > 300`; its other classes are unchanged |
| `ScrollEffects.WhatsAppFab.constructor` | script.js:200 | the button starts with the markup's classes |
| `ScrollEffects.WhatsAppFab.OnScroll` | script.js:202-209 | the scroll handler performs `OnFabScroll` in place |
| `ScrollEffects.LinkScrolled` | script.js:260-267 | a desktop link in the scrolled look loses `text-white`/`hover:text-blue-300`; `#home` gets `text-blue-800`, other links get `text-gray-800` and `hover:text-blue-800`; its other classes are kept |
| `ScrollEffects.LinkAtTop` | script.js:275-278 | a desktop link in the top look has `text-white`/`hover:text-blue-300` and none of the scrolled colours; its other classes are kept |
| `ScrollEffects.OnNavScroll` | script.js:252-279 | from coherent markup, the navbar wears the scrolled look exactly when `scrollY > 50`: `bg-white`/`shadow-md`, `py-2`, `h-12` and `text-gray-600`, with `#home` getting `text-blue-800` and the other links `text-gray-800`. Otherwise it wears the top look. Coherence is kept. From any markup, the classes the handler does not manage are unchanged on `nav`, the container, the logo, the menu button and every link |
| `ScrollEffects.LatestScrollWins` | script.js:252-279 | from coherent markup, the navbar after two scroll events equals the navbar after the second alone |
| `ScrollEffects.Navbar.constructor` | script.js:245-250 | the navbar elements and desktop links as the markup gives them |
| `ScrollEffects.Navbar.HandleNavScroll` | script.js:252-280 | the handler, with its loops over the desktop links, performs `OnNavScroll` in place |

## Left out

- `server.js` is not part of this model. It is Express routing, middleware, a PostgreSQL pool and a listen call, and its ordering by `display_order` is done by the SQL query.
- The preloader (script.js:3-13), the smooth scrolling of anchor links (script.js:19-29) and the hero parallax (script.js:216-222, a multiplication of `scrollY` by a float) are not modelled: they are timing, layout or floating-point effects with no state to reason about.
- The scroll-animation observer (script.js:111-126) is not modelled. It only adds or removes `is-visible` on each entry's element, the same single-class pattern as `OnFabScroll`.
- The count-up animation (script.js:161-196) is not modelled: it is floating-point easing driven by `requestAnimationFrame`.
- The autoplay timer (`setInterval`, `resetInterval`, script.js:92-99, 105) is not modelled as time. A timer tick is `NextSlide`, and `resetInterval` only restarts the clock.
- IntersectionObserver geometry (`threshold`, `rootMargin`, script.js:137-140) is not modelled. The callback receives entries that already carry their `isIntersecting` flag.
- DOM querying, event wiring, element creation and `aria-label` text are not modelled. Each class receives the elements' classes from the markup. A handler whose elements are missing (the `if` guards at script.js:36, 59, 68, 133, 201, 231, 246) is never installed, so it has no counterpart here.
- The handlers look up some elements without a guard: the menu icon (script.js:37), and the navbar's container, logo and menu button (script.js:247-250; line 250 looks up `mobile-menu-button` again, outside the guard at line 36). The model assumes these elements exist, because `MenuView` and `NavbarView` always carry their class lists. When one is missing, the page installs the handler anyway and it throws part-way through. A menu click toggles `hidden` (line 41) and then fails at line 42, leaving the icon unsynced. A navbar scroll changes `nav` (line 255) and then fails at line 256, leaving the links unstyled. These partial updates are not modelled.
- The desktop links appear twice: in `SectionNav.NavLinks` (script.js:131) and in `ScrollEffects.Navbar` (script.js:249). In the page they are the same elements, modelled here as two independent arrays. Nothing is lost, because the two handlers touch disjoint classes (`nav-active` and the navbar's link colours) and each handler's frame keeps the other's classes.
- `localStorage.getItem` and `setItem` (script.js:233, 238) can throw, for example when storage is disabled or full. Storage is modelled as a map that always answers. If line 233 throws, the rest of the page setup that follows it, including the navbar handler, never runs; this is not modelled.
- Class lists are sets, so the order of tokens in a `DOMTokenList` is not modelled.
- `scrollY` is a `real`. Only the comparisons with 300 and 50 are modelled.
- Slider.TestimonialSlider.constructor: assumes that the dots container holds no buttons before setup. Otherwise `querySelectorAll('button')` (script.js:80) would also collect those buttons, and dot `i` would no longer be the dot of slide `i`.
- ScrollEffects.OnNavScroll: the look is promised only from coherent markup. Exactly one of `py-4`/`py-2`, `h-16`/`h-12` and `text-white`/`text-gray-600` must be present, and no link may carry another link kind's colour. `replace` does nothing when its token is absent, so other markup can keep a stale class.
