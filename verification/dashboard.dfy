/** The dashboard layout: which sidebar link is highlighted for the current path, and the
    mobile sidebar flag. */
module Dashboard {

  import Text

  datatype NavItem = NavItem(name: string, href: string)

  const Navigation: seq<NavItem> := [
    NavItem("Overview", "/dashboard"),
    NavItem("My Listings", "/dashboard/listings"),
    NavItem("Favorites", "/dashboard/favorites"),
    NavItem("Notifications", "/dashboard/notifications"),
    NavItem("Settings", "/dashboard/settings")
  ]

  /** `isActive(href)`: "Overview" only on "/dashboard" itself; any other link on every path
      that starts with it. */
  predicate IsActive(pathname: string, href: string): (r: bool)
    ensures href == "/dashboard" ==> (r <==> pathname == "/dashboard")
    ensures href != "/dashboard" ==> (r <==> exists rest :: pathname == href + rest)
  {
    Text.StartsWithIffExtends(pathname, href);
    if href == "/dashboard" then pathname == "/dashboard" else Text.StartsWith(pathname, href)
  }

  /** On every strict sub-path of the dashboard, "Overview" is not highlighted. */
  lemma OverviewOnlyOnItself(pathname: string)
    requires Text.StartsWith(pathname, "/dashboard/")
    ensures !IsActive(pathname, "/dashboard")
  {
    assert |pathname| > |"/dashboard"|;
  }

  /** A link stays highlighted on the pages below it. */
  lemma ActiveBelowLink(href: string, rest: string)
    requires href != "/dashboard"
    ensures IsActive(href + rest, href)
  {
    assert (href + rest)[..|href|] == href;
  }

  /** Two prefixes of the same path agree wherever both are defined. */
  lemma PrefixesAgree(p: string, a: string, b: string, k: int)
    requires Text.StartsWith(p, a) && Text.StartsWith(p, b)
    requires 0 <= k < |a| && k < |b|
    ensures a[k] == b[k]
  {
    assert a[k] == p[k] == b[k];
  }

  /** Whatever the path, at most one sidebar link is highlighted: "Overview" is exact, and the
      other four links already differ right after "/dashboard/". */
  lemma AtMostOneActive(pathname: string, i: int, j: int)
    requires 0 <= i < |Navigation| && 0 <= j < |Navigation|
    requires IsActive(pathname, Navigation[i].href) && IsActive(pathname, Navigation[j].href)
    ensures i == j
  {
    assert forall k :: 1 <= k < |Navigation| ==>
      |Navigation[k].href| > 11 && Navigation[k].href[11] == "lfns"[k - 1];
    if i != j && i != 0 && j != 0 {
      PrefixesAgree(pathname, Navigation[i].href, Navigation[j].href, 11);
    }
  }

  /** The mobile sidebar flag; it starts closed. */
  class SidebarState {
    var sidebarOpen: bool

    constructor ()
      ensures !sidebarOpen
    {
      sidebarOpen := false;
    }

    /** The menu button. */
    method Toggle()
      modifies this
      ensures sidebarOpen == !old(sidebarOpen)
    {
      sidebarOpen := !sidebarOpen;
    }

    /** A sidebar link or the overlay behind the open sidebar closes it. */
    method Close()
      modifies this
      ensures !sidebarOpen
    {
      sidebarOpen := false;
    }
  }
}
