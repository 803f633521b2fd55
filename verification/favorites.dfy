/** The saved-items page: each favourite is shown through its joined listing or business,
    linked to that item's page, and can be removed. */
module Favorites {

  import opened Js
  import Seqs
  import Rows
  import Store

  /** A favourite as fetched: the row with its joined listing and joined business. */
  datatype FavoriteView = FavoriteView(fav: Rows.FavoriteRow, listing: Option<Rows.ListingRow>, business: Option<Rows.BusinessRow>)

  /** The object a card shows: a listing or a business. */
  datatype Item = ListingItem(listing: Rows.ListingRow) | BusinessItem(business: Rows.BusinessRow)

  /** `fav.listing || fav.business`: the joined listing when there is one, else the joined
      business, else nothing. */
  function ItemOf(v: FavoriteView): (r: Option<Item>)
    ensures r.None? <==> v.listing.None? && v.business.None?
    ensures r.Some? && r.value.ListingItem? ==> v.listing == Some(r.value.listing)
    ensures r.Some? && r.value.BusinessItem? ==> v.listing.None? && v.business == Some(r.value.business)
  {
    if v.listing.Some? then Some(ListingItem(v.listing.value))
    else if v.business.Some? then Some(BusinessItem(v.business.value))
    else None
  }

  predicate HasItem(v: FavoriteView)
  {
    ItemOf(v).Some?
  }

  function ItemId(item: Item): string
  {
    match item
    case ListingItem(l) => l.id
    case BusinessItem(b) => b.id
  }

  /** `item.title || item.name`: a listing's title; a business has no title and shows its name. */
  function Heading(item: Item): string
  {
    match item
    case ListingItem(l) => l.title
    case BusinessItem(b) => b.name
  }

  function Image(item: Item): string
  {
    match item
    case ListingItem(l) => Rows.Thumbnail(l.images)
    case BusinessItem(b) => Rows.Thumbnail(b.images)
  }

  /** One rendered card: which favourite it removes, its picture, heading and "View" link. */
  datatype Card = Card(favoriteId: string, image: string, heading: string, href: string)

  /** The card for a favourite, if it has an item. The link kind follows `!!fav.listing_id`,
      while the id in it is the shown item's. */
  function CardFor(v: FavoriteView): (r: Option<Card>)
    ensures r.None? <==> !HasItem(v)
    ensures r.Some? ==> r.value.favoriteId == v.fav.id && r.value.image != ""
    ensures r.Some? ==> r.value.heading == Heading(ItemOf(v).value)
  {
    match ItemOf(v)
    case None => None
    case Some(item) =>
      var href := if StrTruthy(v.fav.listingId) then "/listing/" + ItemId(item) else "/business/" + ItemId(item);
      Some(Card(v.fav.id, Image(item), Heading(item), href))
  }

  /** A favourite of a listing, joined to that listing, links to the listing's page and is
      headed by its title. */
  lemma ListingFavoriteLinksToListing(v: FavoriteView, l: Rows.ListingRow)
    requires v.listing == Some(l) && v.fav.listingId == Some(l.id) && l.id != ""
    ensures CardFor(v) == Some(Card(v.fav.id, Rows.Thumbnail(l.images), l.title, "/listing/" + l.id))
  {
  }

  /** A favourite of a business (no listing id, no joined listing) links to the business's
      page and is headed by its name. */
  lemma BusinessFavoriteLinksToBusiness(v: FavoriteView, b: Rows.BusinessRow)
    requires v.listing.None? && v.business == Some(b) && v.fav.listingId.None?
    ensures CardFor(v) == Some(Card(v.fav.id, Rows.Thumbnail(b.images), b.name, "/business/" + b.id))
  {
  }

  /** The grid: one card per favourite that has an item, in order; the others are skipped. */
  function Cards(views: seq<FavoriteView>): (r: seq<Card>)
    ensures |r| == |Seqs.Filter(views, HasItem)|
    ensures forall c :: c in r <==> exists v :: v in views && CardFor(v) == Some(c)
  {
    if views == [] then []
    else
      var rest := Cards(views[1..]);
      assert forall v :: v in views <==> v == views[0] || v in views[1..];
      match CardFor(views[0])
      case None => rest
      case Some(c) => [c] + rest
  }

  /** The cards follow the favourites that have an item, position by position. */
  lemma {:induction false} CardsFollowFavorites(views: seq<FavoriteView>)
    ensures forall i :: 0 <= i < |Cards(views)| ==> Some(Cards(views)[i]) == CardFor(Seqs.Filter(views, HasItem)[i])
  {
    if views != [] {
      CardsFollowFavorites(views[1..]);
      var rest, shown := Cards(views[1..]), Seqs.Filter(views[1..], HasItem);
      match CardFor(views[0])
      case None =>
        assert Cards(views) == rest;
        assert Seqs.Filter(views, HasItem) == shown;
      case Some(c) =>
        assert Cards(views) == [c] + rest;
        assert Seqs.Filter(views, HasItem) == [views[0]] + shown;
    }
  }

  /** With distinct favourite ids, no card of the later favourites removes the first one. */
  lemma LaterCardsKeepOtherIds(views: seq<FavoriteView>)
    requires views != []
    requires forall i, j :: 0 <= i < j < |views| ==> views[i].fav.id != views[j].fav.id
    ensures forall c :: c in Cards(views[1..]) ==> c.favoriteId != views[0].fav.id
  {
    forall c | c in Cards(views[1..]) ensures c.favoriteId != views[0].fav.id {
      var v :| v in views[1..] && CardFor(v) == Some(c);
      var k :| 0 <= k < |views[1..]| && views[1..][k] == v;
      assert views[k + 1] == v;
    }
  }

  /** Every card removes a distinct favourite when the favourite ids are distinct. */
  lemma {:induction false} CardsRemoveDistinctFavorites(views: seq<FavoriteView>)
    requires forall i, j :: 0 <= i < j < |views| ==> views[i].fav.id != views[j].fav.id
    ensures forall i, j :: 0 <= i < j < |Cards(views)| ==> Cards(views)[i].favoriteId != Cards(views)[j].favoriteId
  {
    if views != [] {
      CardsRemoveDistinctFavorites(views[1..]);
      LaterCardsKeepOtherIds(views);
      var rest := Cards(views[1..]);
      match CardFor(views[0])
      case None =>
        assert Cards(views) == rest;
      case Some(c0) =>
        assert Cards(views) == [c0] + rest;
        assert c0.favoriteId == views[0].fav.id;
    }
  }

  function FavoriteIdIs(id: string): Rows.FavoriteRow -> bool
  {
    (f: Rows.FavoriteRow) => f.id == id
  }

  /** `removeFavorite(id)`: an accepted delete removes exactly the favourite rows with that id. */
  method RemoveFavorite(favorites: Store.Table<Rows.FavoriteRow>, id: string, accepted: bool)
    modifies favorites
    ensures accepted ==> favorites.rows == Store.Without(old(favorites.rows), FavoriteIdIs(id))
    ensures accepted ==> forall f :: f in favorites.rows <==> f in old(favorites.rows) && f.id != id
    ensures !accepted ==> favorites.rows == old(favorites.rows)
  {
    if accepted {
      favorites.Delete(FavoriteIdIs(id));
    }
  }
}
