/**
 * The mobile navigation menu: the menu element's `hidden` class and the
 * hamburger / close icon (`fa-bars` / `fa-times`) on the toggle button.
 */
module MobileMenu {
  import opened ClassList

  const HIDDEN := "hidden"
  const BARS_ICON := "fa-bars"
  const CLOSE_ICON := "fa-times"

  /** The class lists the menu handlers touch: the menu element and the button's icon. */
  datatype MenuView = MenuView(menu: ClassSet, icon: ClassSet) {
    predicate IsHidden() {
      HIDDEN in menu
    }

    /** The icon shows the hamburger exactly when the menu is closed, the cross exactly when open. */
    predicate IconMatches() {
      (BARS_ICON in icon <==> IsHidden()) && (CLOSE_ICON in icon <==> !IsHidden())
    }
  }

  /** The toggle button's click: flips `hidden` and brings both icon classes in line with it. */
  function OnButtonClick(v: MenuView): (r: MenuView)
    ensures r.IsHidden() <==> !v.IsHidden()
    ensures r.IconMatches()
    ensures r.menu - {HIDDEN} == v.menu - {HIDDEN}
    ensures r.icon - {BARS_ICON, CLOSE_ICON} == v.icon - {BARS_ICON, CLOSE_ICON}
  {
    var (menu, isHidden) := Toggle(v.menu, HIDDEN);
    MenuView(menu, ToggleForce(ToggleForce(v.icon, BARS_ICON, isHidden), CLOSE_ICON, !isHidden))
  }

  /** A click on any link inside the menu: the menu is closed, whatever it was before. */
  function OnLinkClick(v: MenuView): (r: MenuView)
    ensures r.IsHidden() && BARS_ICON in r.icon && CLOSE_ICON !in r.icon
    ensures r.IconMatches()
    ensures r.menu - {HIDDEN} == v.menu - {HIDDEN}
    ensures r.icon - {BARS_ICON, CLOSE_ICON} == v.icon - {BARS_ICON, CLOSE_ICON}
  {
    MenuView(Add(v.menu, {HIDDEN}), Remove(Add(v.icon, {BARS_ICON}), {CLOSE_ICON}))
  }

  /** Closing through a link twice is the same as closing once. */
  lemma LinkClickIdempotent(v: MenuView)
    ensures OnLinkClick(OnLinkClick(v)) == OnLinkClick(v)
  {
    var once := OnLinkClick(v);
    assert Add(once.menu, {HIDDEN}) == once.menu;
    assert Remove(Add(once.icon, {BARS_ICON}), {CLOSE_ICON}) == once.icon;
  }

  /** Two button clicks restore the menu and the icon, once the icon matches the menu. */
  lemma ButtonClickTwiceRestores(v: MenuView)
    requires v.IconMatches()
    ensures OnButtonClick(OnButtonClick(v)) == v
  {
    var w := OnButtonClick(OnButtonClick(v));
    assert w.menu - {HIDDEN} == v.menu - {HIDDEN};
    assert w.menu == v.menu by {
      assert HIDDEN in w.menu <==> HIDDEN in v.menu;
    }
    assert w.icon == v.icon by {
      assert BARS_ICON in w.icon <==> BARS_ICON in v.icon;
      assert CLOSE_ICON in w.icon <==> CLOSE_ICON in v.icon;
    }
  }

  /** Without the icon in line with the menu, two clicks never restore it: the forced toggles bring the icon in line. */
  lemma ButtonClickTwiceRepairsIcon(v: MenuView)
    requires !v.IconMatches()
    ensures OnButtonClick(OnButtonClick(v)) != v
  {
    assert OnButtonClick(OnButtonClick(v)).IconMatches();
  }

  /** The two class lists the menu's click handlers change in place. */
  class MenuElements {
    var menu: ClassSet
    var icon: ClassSet

    function View(): MenuView
      reads this
    {
      MenuView(menu, icon)
    }

    /** The classes the page's markup gives the menu and the icon. */
    constructor (menu: ClassSet, icon: ClassSet)
      ensures View() == MenuView(menu, icon)
    {
      this.menu := menu;
      this.icon := icon;
    }

    /** The click handler on the menu toggle button. */
    method ButtonClick()
      modifies this
      ensures View() == OnButtonClick(old(View()))
      ensures View().IconMatches()
      ensures View().IsHidden() <==> !old(View()).IsHidden()
    {
      var (toggled, isHidden) := Toggle(menu, HIDDEN);
      menu := toggled;
      icon := ToggleForce(icon, BARS_ICON, isHidden);
      icon := ToggleForce(icon, CLOSE_ICON, !isHidden);
    }

    /** The click handler on every link inside the menu. */
    method LinkClick()
      modifies this
      ensures View() == OnLinkClick(old(View()))
      ensures View().IsHidden() && View().IconMatches()
    {
      menu := Add(menu, {HIDDEN});
      icon := Add(icon, {BARS_ICON});
      icon := Remove(icon, {CLOSE_ICON});
    }
  }
}
