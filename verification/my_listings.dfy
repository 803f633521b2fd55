/** The owner's listings table: the title search and status filter, the thumbnail and
    price cells, and deleting a listing. `toLocaleString` is passed in as `format`. */
module MyListings {

  import opened Js
  import Seqs
  import Text
  import Rows
  import Store

  /** `matchesSearch`: the lower-cased query occurs in the lower-cased title (the empty query
      occurs everywhere); no other column is searched. */
  predicate MatchesSearch(l: Rows.ListingRow, searchQuery: string)
  {
    Text.Contains(Text.Lower(l.title), Text.Lower(searchQuery))
  }

  /** `matchesStatus`: "all", or exactly the listing's status (a `null` status matches only
      "all"). */
  predicate MatchesStatus(l: Rows.ListingRow, statusFilter: string)
  {
    statusFilter == "all" || l.status == Some(statusFilter)
  }

  function ListingTest(searchQuery: string, statusFilter: string): Rows.ListingRow -> bool
  {
    (l: Rows.ListingRow) => MatchesSearch(l, searchQuery) && MatchesStatus(l, statusFilter)
  }

  /** `filteredListings`: the listings passing both tests, in the fetched order. */
  function FilteredListings(listings: seq<Rows.ListingRow>, searchQuery: string, statusFilter: string): (r: seq<Rows.ListingRow>)
    ensures forall l :: l in r <==> l in listings && MatchesSearch(l, searchQuery) && MatchesStatus(l, statusFilter)
    ensures Seqs.IsSubsequence(r, listings)
  {
    Seqs.FilterIsSubsequence(listings, ListingTest(searchQuery, statusFilter));
    Seqs.Filter(listings, ListingTest(searchQuery, statusFilter))
  }

  /** Only the title is searched: a listing's description, category and location never
      decide whether it matches. */
  lemma SearchReadsTitleOnly(l: Rows.ListingRow, searchQuery: string, description: string, category: string, location: string)
    ensures MatchesSearch(l.(description := description, category := category, location := location), searchQuery)
        == MatchesSearch(l, searchQuery)
  {
  }

  /** The page as it opens (empty search, status "all") lists everything in order. */
  lemma {:induction false} InitialFiltersKeepAll(listings: seq<Rows.ListingRow>)
    ensures FilteredListings(listings, "", "all") == listings
  {
    forall l | l in listings ensures ListingTest("", "all")(l) {
      Text.EmptyContained(Text.Lower(l.title));
    }
    Seqs.FilterAll(listings, ListingTest("", "all"));
  }

  /** Narrowing the status from "all" to one value only removes listings. */
  lemma {:induction false} StatusNarrows(listings: seq<Rows.ListingRow>, searchQuery: string, status: string)
    ensures Seqs.IsSubsequence(FilteredListings(listings, searchQuery, status), FilteredListings(listings, searchQuery, "all"))
  {
    Seqs.FilterMonotone(listings, ListingTest(searchQuery, status), ListingTest(searchQuery, "all"));
  }

  /** The price cell: the stored label when it is non-empty, otherwise "₦" and the formatted
      price, with a missing price formatted as 0. */
  function PriceCell(l: Rows.ListingRow, format: int -> string): (r: string)
    ensures StrTruthy(l.priceLabel) ==> r == l.priceLabel.value
    ensures !StrTruthy(l.priceLabel) ==> r == "₦" + format(NumberOf(l.price))
  {
    StrOr(l.priceLabel, "₦" + format(NumberOf(l.price)))
  }

  /** `deleteMutation(id)`: an accepted delete removes exactly the rows with that id and keeps
      the others in order; a refused one changes nothing. */
  method Delete(listings: Store.Table<Rows.ListingRow>, id: string, accepted: bool)
    returns (deleted: bool)
    modifies listings
    ensures deleted == accepted
    ensures accepted ==> listings.rows == Store.Without(old(listings.rows), Rows.ListingIdIs(id))
    ensures accepted ==> forall l :: l in listings.rows <==> l in old(listings.rows) && l.id != id
    ensures !accepted ==> listings.rows == old(listings.rows)
  {
    if !accepted {
      return false;
    }
    listings.Delete(Rows.ListingIdIs(id));
    deleted := true;
  }
}
