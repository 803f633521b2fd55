/** The site header: which navigation link is highlighted for the current path, and the
    mobile menu and search flags. */
module Header {

  import Text

  datatype NavItem = NavItem(name: string, href: string)

  /** The marketplace path, shared by the "Marketplace" and "Services" links. */
  const MarketplacePath: string := "/marketplace"

  const Navigation: seq<NavItem> := [
    NavItem("Home", "/"),
    NavItem("Marketplace", MarketplacePath),
    NavItem("Services", MarketplacePath + "?category=services"),
    NavItem("Jobs", "/jobs"),
    NavItem("Community", "/community")
  ]

  /** `href.split("?")[0]`: the path part of a link. */
  function PathOf(href: string): (r: string)
    ensures '?' !in r
    ensures Text.StartsWith(href, r)
    ensures r == href || href[|r|] == '?'
    ensures '?' !in href ==> r == href
  {
    Text.SplitFirstIsPrefix(href, '?');
    Text.Split(href, '?')[0]
  }

  /** `isActive(href)`: the home link only on "/" itself; any other link on every path that
      starts with the link's path part. */
  predicate IsActive(pathname: string, href: string): (r: bool)
    ensures href == "/" ==> (r <==> pathname == "/")
    ensures href != "/" ==> (r <==> exists rest :: pathname == PathOf(href) + rest)
  {
    Text.StartsWithIffExtends(pathname, PathOf(href));
    if href == "/" then pathname == "/" else Text.StartsWith(pathname, PathOf(href))
  }

  /** The first piece of a split is everything before the first separator. */
  lemma {:induction false} SplitFirstPiece(a: string, b: string, sep: char)
    requires sep !in a
    ensures Text.Split(a + [sep] + b, sep)[0] == a
  {
    if a != [] {
      SplitFirstPiece(a[1..], b, sep);
      assert (a + [sep] + b)[1..] == a[1..] + [sep] + b;
    }
  }

  /** A string without the separator splits into itself alone. */
  lemma {:induction false} SplitWithoutSeparator(s: string, sep: char)
    requires sep !in s
    ensures Text.Split(s, sep) == [s]
  {
    if s != [] {
      SplitWithoutSeparator(s[1..], sep);
      assert s[0] != sep;
      assert Text.Split(s, sep) == [[s[0]] + s[1..]];
      assert [s[0]] + s[1..] == s;
    }
  }

  /** For a link other than home with no query string, the link is active exactly on the
      paths that start with it. */
  lemma PlainLinkActiveOnPrefix(pathname: string, href: string)
    requires href != "/" && '?' !in href
    ensures IsActive(pathname, href) <==> Text.StartsWith(pathname, href)
  {
    SplitWithoutSeparator(href, '?');
  }

  /** A query string on a link other than home does not change where it is active. */
  lemma QueryStringIgnored(pathname: string, path: string, query: string)
    requires path != "/" && '?' !in path
    ensures IsActive(pathname, path + ['?'] + query) <==> IsActive(pathname, path)
  {
    SplitWithoutSeparator(path, '?');
    SplitFirstPiece(path, query, '?');
    assert path + ['?'] + query != "/" by {
      assert |path + ['?'] + query| > |path|;
      if path == [] {
        assert (path + ['?'] + query)[0] == '?';
      }
    }
  }

  /** "Marketplace" and "Services" are highlighted on exactly the same paths: the query
      string of the Services link is cut off before matching. */
  lemma MarketplaceAndServicesTogether(pathname: string)
    ensures IsActive(pathname, Navigation[1].href) <==> IsActive(pathname, Navigation[2].href)
  {
    assert Navigation[2].href == MarketplacePath + ['?'] + "category=services";
    QueryStringIgnored(pathname, MarketplacePath, "category=services");
  }

  /** The header's mobile search and menu flags; both start closed. */
  class HeaderState {
    var mobileMenuOpen: bool
    var searchOpen: bool

    constructor ()
      ensures !mobileMenuOpen && !searchOpen
    {
      mobileMenuOpen, searchOpen := false, false;
    }

    /** The search button. */
    method ToggleSearch()
      modifies this
      ensures searchOpen == !old(searchOpen) && mobileMenuOpen == old(mobileMenuOpen)
    {
      searchOpen := !searchOpen;
    }

    /** The menu button. */
    method ToggleMenu()
      modifies this
      ensures mobileMenuOpen == !old(mobileMenuOpen) && searchOpen == old(searchOpen)
    {
      mobileMenuOpen := !mobileMenuOpen;
    }

    /** Following a link in the mobile menu closes it. */
    method FollowMobileLink()
      modifies this
      ensures !mobileMenuOpen && searchOpen == old(searchOpen)
    {
      mobileMenuOpen := false;
    }
  }
}
