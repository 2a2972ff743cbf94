/**
 * The scroll listeners: the floating WhatsApp button appears past 300 pixels,
 * and the navbar switches between its "top of page" and "scrolled" looks at 50 pixels.
 */
module ScrollEffects {
  import opened ClassList
  import opened Wrappers

  const FAB_THRESHOLD: real := 300.0
  const NAV_THRESHOLD: real := 50.0

  const VISIBLE := "visible"

  // Navbar classes.
  const BG_WHITE := "bg-white"
  const SHADOW := "shadow-md"
  const PAD_TOP := "py-4"
  const PAD_SCROLLED := "py-2"
  const LOGO_TOP := "h-16"
  const LOGO_SCROLLED := "h-12"
  const BUTTON_TOP := "text-white"
  const BUTTON_SCROLLED := "text-gray-600"
  const LINK_TOP := "text-white"
  const LINK_TOP_HOVER := "hover:text-blue-300"
  const LINK_HOME := "text-blue-800"
  const LINK_OTHER := "text-gray-800"
  const LINK_OTHER_HOVER := "hover:text-blue-800"
  const HOME_HREF := "#home"
  /** Every class the handler puts on or takes off a desktop link. */
  const LINK_LOOK: set<string> := {LINK_TOP, LINK_TOP_HOVER, LINK_HOME, LINK_OTHER, LINK_OTHER_HOVER}

  /** The button's classes after a scroll event at offset `scrollY`. */
  function OnFabScroll(fab: ClassSet, scrollY: real): (r: ClassSet)
    ensures VISIBLE in r <==> scrollY > FAB_THRESHOLD
    ensures r - {VISIBLE} == fab - {VISIBLE}
  {
    if scrollY > FAB_THRESHOLD then Add(fab, {VISIBLE}) else Remove(fab, {VISIBLE})
  }

  /** The floating WhatsApp button's class list. */
  class WhatsAppFab {
    var classes: ClassSet

    constructor (markup: ClassSet)
      ensures classes == markup
    {
      classes := markup;
    }

    /** The scroll handler: show the button past the threshold, hide it otherwise. */
    method OnScroll(scrollY: real)
      modifies this
      ensures classes == OnFabScroll(old(classes), scrollY)
      ensures VISIBLE in classes <==> scrollY > FAB_THRESHOLD
    {
      if scrollY > FAB_THRESHOLD {
        classes := Add(classes, {VISIBLE});
      } else {
        classes := Remove(classes, {VISIBLE});
      }
    }
  }

  /** The class lists the navbar handler touches; `links` are the desktop menu's links. */
  datatype NavbarView = NavbarView(
    nav: ClassSet, container: ClassSet, logo: ClassSet, menuButton: ClassSet, links: seq<ClassSet>)

  predicate IsHome(href: Option<string>) {
    href == Some(HOME_HREF)
  }

  /** A desktop link in the scrolled look: dark text, blue for the home link. */
  function LinkScrolled(link: ClassSet, href: Option<string>): (r: ClassSet)
    ensures LINK_TOP !in r && LINK_TOP_HOVER !in r
    ensures IsHome(href) ==> LINK_HOME in r
    ensures !IsHome(href) ==> LINK_OTHER in r && LINK_OTHER_HOVER in r
    ensures IsHome(href) ==>
              r - {LINK_TOP, LINK_TOP_HOVER, LINK_HOME} == link - {LINK_TOP, LINK_TOP_HOVER, LINK_HOME}
    ensures !IsHome(href) ==>
              r - {LINK_TOP, LINK_TOP_HOVER, LINK_OTHER, LINK_OTHER_HOVER}
                == link - {LINK_TOP, LINK_TOP_HOVER, LINK_OTHER, LINK_OTHER_HOVER}
  {
    var cleared := Remove(link, {LINK_TOP, LINK_TOP_HOVER});
    if IsHome(href) then Add(cleared, {LINK_HOME}) else Add(cleared, {LINK_OTHER, LINK_OTHER_HOVER})
  }

  /** A desktop link in the top-of-page look: white text. */
  function LinkAtTop(link: ClassSet): (r: ClassSet)
    ensures LINK_TOP in r && LINK_TOP_HOVER in r
    ensures LINK_HOME !in r && LINK_OTHER !in r && LINK_OTHER_HOVER !in r
    ensures r - LINK_LOOK == link - LINK_LOOK
  {
    Remove(Add(link, {LINK_TOP, LINK_TOP_HOVER}), {LINK_HOME, LINK_OTHER, LINK_OTHER_HOVER})
  }

  /** Exactly one of two alternative classes is present. */
  predicate OneOf(s: ClassSet, a: string, b: string) {
    (a in s) != (b in s)
  }

  /**
   * The markup shape the handler relies on: each `replace` pair has exactly one
   * member present, the home link never carries the other links' colours, and
   * the other links never carry the home colour.
   */
  predicate Coherent(v: NavbarView, hrefs: seq<Option<string>>) {
    |v.links| == |hrefs| &&
    OneOf(v.container, PAD_TOP, PAD_SCROLLED) &&
    OneOf(v.logo, LOGO_TOP, LOGO_SCROLLED) &&
    OneOf(v.menuButton, BUTTON_TOP, BUTTON_SCROLLED) &&
    forall k :: 0 <= k < |v.links| ==>
      if IsHome(hrefs[k]) then LINK_OTHER !in v.links[k] && LINK_OTHER_HOVER !in v.links[k]
      else LINK_HOME !in v.links[k]
  }

  /** The navbar wears the scrolled look (`scrolled`) or the top-of-page look (`!scrolled`), everywhere. */
  predicate Shows(v: NavbarView, hrefs: seq<Option<string>>, scrolled: bool) {
    |v.links| == |hrefs| &&
    (BG_WHITE in v.nav <==> scrolled) && (SHADOW in v.nav <==> scrolled) &&
    (PAD_SCROLLED in v.container <==> scrolled) && (PAD_TOP in v.container <==> !scrolled) &&
    (LOGO_SCROLLED in v.logo <==> scrolled) && (LOGO_TOP in v.logo <==> !scrolled) &&
    (BUTTON_SCROLLED in v.menuButton <==> scrolled) && (BUTTON_TOP in v.menuButton <==> !scrolled) &&
    forall k :: 0 <= k < |v.links| ==>
      (LINK_TOP in v.links[k] <==> !scrolled) && (LINK_TOP_HOVER in v.links[k] <==> !scrolled) &&
      (LINK_HOME in v.links[k] <==> scrolled && IsHome(hrefs[k])) &&
      (LINK_OTHER in v.links[k] <==> scrolled && !IsHome(hrefs[k])) &&
      (LINK_OTHER_HOVER in v.links[k] <==> scrolled && !IsHome(hrefs[k]))
  }

  /** The navbar after a scroll event at offset `scrollY`. */
  function OnNavScroll(v: NavbarView, hrefs: seq<Option<string>>, scrollY: real): (r: NavbarView)
    requires |v.links| == |hrefs|
    ensures |r.links| == |v.links|
    ensures Coherent(v, hrefs) ==> Coherent(r, hrefs) && Shows(r, hrefs, scrollY > NAV_THRESHOLD)
    ensures r.nav - {BG_WHITE, SHADOW} == v.nav - {BG_WHITE, SHADOW}
    ensures r.container - {PAD_TOP, PAD_SCROLLED} == v.container - {PAD_TOP, PAD_SCROLLED}
    ensures r.logo - {LOGO_TOP, LOGO_SCROLLED} == v.logo - {LOGO_TOP, LOGO_SCROLLED}
    ensures r.menuButton - {BUTTON_TOP, BUTTON_SCROLLED} == v.menuButton - {BUTTON_TOP, BUTTON_SCROLLED}
    ensures forall k :: 0 <= k < |r.links| ==>
              r.links[k] - LINK_LOOK == v.links[k] - LINK_LOOK
  {
    if scrollY > NAV_THRESHOLD then
      NavbarView(
        Add(v.nav, {BG_WHITE, SHADOW}),
        Replace(v.container, PAD_TOP, PAD_SCROLLED),
        Replace(v.logo, LOGO_TOP, LOGO_SCROLLED),
        Replace(v.menuButton, BUTTON_TOP, BUTTON_SCROLLED),
        seq(|v.links|, k requires 0 <= k < |v.links| => LinkScrolled(v.links[k], hrefs[k])))
    else
      NavbarView(
        Remove(v.nav, {BG_WHITE, SHADOW}),
        Replace(v.container, PAD_SCROLLED, PAD_TOP),
        Replace(v.logo, LOGO_SCROLLED, LOGO_TOP),
        Replace(v.menuButton, BUTTON_SCROLLED, BUTTON_TOP),
        seq(|v.links|, k requires 0 <= k < |v.links| => LinkAtTop(v.links[k])))
  }

  /** The latest scroll position decides: an earlier scroll event leaves no trace. */
  lemma LatestScrollWins(v: NavbarView, hrefs: seq<Option<string>>, first: real, second: real)
    requires Coherent(v, hrefs)
    ensures OnNavScroll(OnNavScroll(v, hrefs, first), hrefs, second) == OnNavScroll(v, hrefs, second)
  {
    var a := OnNavScroll(OnNavScroll(v, hrefs, first), hrefs, second);
    var b := OnNavScroll(v, hrefs, second);
    assert a.nav == b.nav;
    assert a.container == b.container;
    assert a.logo == b.logo;
    assert a.menuButton == b.menuButton;
    assert a.links == b.links by {
      forall k | 0 <= k < |a.links|
        ensures a.links[k] == b.links[k]
      {
      }
    }
  }

  /** The navbar's class lists: four elements plus the desktop menu's links. */
  class Navbar {
    var nav: ClassSet
    var container: ClassSet
    var logo: ClassSet
    var menuButton: ClassSet
    const hrefs: seq<Option<string>>
    const desktopLinks: array<ClassSet>

    ghost predicate Valid()
      reads this
    {
      desktopLinks.Length == |hrefs|
    }

    function View(): NavbarView
      reads this, desktopLinks
    {
      NavbarView(nav, container, logo, menuButton, desktopLinks[..])
    }

    /** The navbar as the page's markup gives it. */
    constructor (markup: NavbarView, hrefs: seq<Option<string>>)
      requires |markup.links| == |hrefs|
      ensures Valid() && fresh(desktopLinks)
      ensures this.hrefs == hrefs && View() == markup
    {
      nav, container, logo, menuButton := markup.nav, markup.container, markup.logo, markup.menuButton;
      this.hrefs := hrefs;
      desktopLinks := new ClassSet[|markup.links|](k requires 0 <= k < |markup.links| => markup.links[k]);
    }

    /** The scroll handler `handleNavScroll`. */
    method HandleNavScroll(scrollY: real)
      requires Valid()
      modifies this, desktopLinks
      ensures Valid()
      ensures View() == OnNavScroll(old(View()), hrefs, scrollY)
      ensures Coherent(old(View()), hrefs) ==>
                Coherent(View(), hrefs) && Shows(View(), hrefs, scrollY > NAV_THRESHOLD)
    {
      ghost var before := View();
      var i := 0;
      if scrollY > NAV_THRESHOLD {
        nav := Add(nav, {BG_WHITE, SHADOW});
        container := Replace(container, PAD_TOP, PAD_SCROLLED);
        logo := Replace(logo, LOGO_TOP, LOGO_SCROLLED);
        menuButton := Replace(menuButton, BUTTON_TOP, BUTTON_SCROLLED);
        while i < desktopLinks.Length
          invariant 0 <= i <= desktopLinks.Length
          invariant forall k :: 0 <= k < i ==> desktopLinks[k] == LinkScrolled(before.links[k], hrefs[k])
          invariant forall k :: i <= k < desktopLinks.Length ==> desktopLinks[k] == before.links[k]
          invariant nav == Add(before.nav, {BG_WHITE, SHADOW})
          invariant container == Replace(before.container, PAD_TOP, PAD_SCROLLED)
          invariant logo == Replace(before.logo, LOGO_TOP, LOGO_SCROLLED)
          invariant menuButton == Replace(before.menuButton, BUTTON_TOP, BUTTON_SCROLLED)
        {
          desktopLinks[i] := Remove(desktopLinks[i], {LINK_TOP, LINK_TOP_HOVER});
          if hrefs[i] == Some(HOME_HREF) {
            desktopLinks[i] := Add(desktopLinks[i], {LINK_HOME});
          } else {
            desktopLinks[i] := Add(desktopLinks[i], {LINK_OTHER, LINK_OTHER_HOVER});
          }
          i := i + 1;
        }
      } else {
        nav := Remove(nav, {BG_WHITE, SHADOW});
        container := Replace(container, PAD_SCROLLED, PAD_TOP);
        logo := Replace(logo, LOGO_SCROLLED, LOGO_TOP);
        menuButton := Replace(menuButton, BUTTON_SCROLLED, BUTTON_TOP);
        while i < desktopLinks.Length
          invariant 0 <= i <= desktopLinks.Length
          invariant forall k :: 0 <= k < i ==> desktopLinks[k] == LinkAtTop(before.links[k])
          invariant forall k :: i <= k < desktopLinks.Length ==> desktopLinks[k] == before.links[k]
          invariant nav == Remove(before.nav, {BG_WHITE, SHADOW})
          invariant container == Replace(before.container, PAD_SCROLLED, PAD_TOP)
          invariant logo == Replace(before.logo, LOGO_SCROLLED, LOGO_TOP)
          invariant menuButton == Replace(before.menuButton, BUTTON_SCROLLED, BUTTON_TOP)
        {
          desktopLinks[i] := Add(desktopLinks[i], {LINK_TOP, LINK_TOP_HOVER});
          desktopLinks[i] := Remove(desktopLinks[i], {LINK_HOME, LINK_OTHER, LINK_OTHER_HOVER});
          i := i + 1;
        }
      }
    }
  }
}
