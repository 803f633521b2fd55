/** The marketplace browse page: the search / category / price filters over the listings,
    the four reorderings applied to a copied array, the query-parameter state behind the
    filters and the active-filter badge. */
module Marketplace {

  import Seqs
  import Text
  import SearchParams

  /** The upper end of the price slider; the lower end is 0. */
  const PriceCeiling := 50000000

  /** A browse listing, with the fields the filter chain reads. */
  datatype Listing = Listing(
    id: string,
    title: string,
    description: string,
    price: int,
    category: string,
    location: string,
    views: int,
    isFeatured: bool)

  /** The search test for an already lower-cased query. */
  predicate MatchesQuery(l: Listing, query: string)
  {
    Text.Contains(Text.Lower(l.title), query)
    || Text.Contains(Text.Lower(l.description), query)
    || Text.Contains(Text.Lower(l.location), query)
  }

  function SearchTest(query: string): Listing -> bool
  {
    (l: Listing) => MatchesQuery(l, query)
  }

  function CategoryTest(category: string): Listing -> bool
  {
    (l: Listing) => l.category == category
  }

  function PriceTest(lo: int, hi: int): Listing -> bool
  {
    (l: Listing) => l.price >= lo && l.price <= hi
  }

  /** Whether a listing passes all three filters for the given page state. */
  predicate Kept(l: Listing, searchQuery: string, category: string, lo: int, hi: int)
  {
    (searchQuery == "" || MatchesQuery(l, Text.Lower(searchQuery)))
    && (category == "" || category == "all" || l.category == category)
    && lo <= l.price <= hi
  }

  /** The listings left after the search, category and price filters, before any reordering:
      a listing survives exactly when it passes all three tests. */
  function Filtered(all: seq<Listing>, searchQuery: string, category: string, lo: int, hi: int): (r: seq<Listing>)
    ensures forall l :: l in r <==> l in all && Kept(l, searchQuery, category, lo, hi)
    ensures |r| <= |all|
  {
    var bySearch := if searchQuery != "" then Seqs.Filter(all, SearchTest(Text.Lower(searchQuery))) else all;
    var byCategory := if category != "" && category != "all" then Seqs.Filter(bySearch, CategoryTest(category)) else bySearch;
    Seqs.Filter(byCategory, PriceTest(lo, hi))
  }

  /** The filtered list keeps the source order and never duplicates a listing. */
  lemma FilteredIsSubsequence(all: seq<Listing>, searchQuery: string, category: string, lo: int, hi: int)
    ensures Seqs.IsSubsequence(Filtered(all, searchQuery, category, lo, hi), all)
  {
    var bySearch := if searchQuery != "" then Seqs.Filter(all, SearchTest(Text.Lower(searchQuery))) else all;
    if searchQuery != "" {
      Seqs.FilterIsSubsequence(all, SearchTest(Text.Lower(searchQuery)));
    } else {
      Seqs.SubsequenceReflexive(all);
    }
    var byCategory := if category != "" && category != "all" then Seqs.Filter(bySearch, CategoryTest(category)) else bySearch;
    if category != "" && category != "all" {
      Seqs.FilterIsSubsequence(bySearch, CategoryTest(category));
      Seqs.SubsequenceTransitive(byCategory, bySearch, all);
    }
    Seqs.FilterIsSubsequence(byCategory, PriceTest(lo, hi));
    Seqs.SubsequenceTransitive(Filtered(all, searchQuery, category, lo, hi), byCategory, all);
  }

  /** Widening the price range never hides a listing that a narrower range shows. */
  lemma WiderPriceRangeKeepsMore(all: seq<Listing>, searchQuery: string, category: string, lo: int, hi: int, lo': int, hi': int)
    requires lo' <= lo && hi <= hi'
    ensures Seqs.IsSubsequence(Filtered(all, searchQuery, category, lo, hi), Filtered(all, searchQuery, category, lo', hi'))
  {
    var bySearch := if searchQuery != "" then Seqs.Filter(all, SearchTest(Text.Lower(searchQuery))) else all;
    var byCategory := if category != "" && category != "all" then Seqs.Filter(bySearch, CategoryTest(category)) else bySearch;
    Seqs.FilterMonotone(byCategory, PriceTest(lo, hi), PriceTest(lo', hi'));
  }

  /** The sort key whose ascending order each comparator produces:
      `a.price - b.price`, `b.price - a.price` and `b.views - a.views`. */
  function SortKey(sortBy: string): Listing -> int
  {
    if sortBy == "price-low" then (l: Listing) => l.price
    else if sortBy == "price-high" then (l: Listing) => -l.price
    else (l: Listing) => -l.views
  }

  predicate IsComparatorSort(sortBy: string)
  {
    sortBy == "price-low" || sortBy == "price-high" || sortBy == "popular"
  }

  /** `results.reverse()` on the copied array. */
  method ReverseInPlace<T>(a: array<T>)
    modifies a
    ensures a[..] == Seqs.Reverse(old(a[..]))
  {
    var lo, hi := 0, a.Length - 1;
    while lo < hi
      invariant 0 <= lo <= a.Length && hi == a.Length - 1 - lo
      invariant forall k :: 0 <= k < lo ==> a[k] == old(a[a.Length - 1 - k]) && a[a.Length - 1 - k] == old(a[k])
      invariant forall k :: lo <= k < a.Length - lo ==> a[k] == old(a[k])
    {
      a[lo], a[hi] := a[hi], a[lo];
      lo, hi := lo + 1, hi - 1;
    }
  }

  /** Everything in `a[..n]` is in ascending key order, except possibly around position `skip`. */
  ghost predicate SortedExcept<T>(a: seq<T>, n: int, skip: int, key: T -> int)
    requires 0 <= n <= |a|
  {
    forall p, q :: 0 <= p < q < n && p != skip && q != skip ==> key(a[p]) <= key(a[q])
  }

  method Swap<T>(a: array<T>, i: int, j: int)
    requires 0 <= i < a.Length && 0 <= j < a.Length
    modifies a
    ensures a[..] == old(a[..])[i := old(a[j])][j := old(a[i])]
    ensures multiset(a[..]) == multiset(old(a[..]))
  {
    a[i], a[j] := a[j], a[i];
  }

  /** One insertion step: moves `a[i]` left past every larger key, so that `a[..i + 1]`
      becomes sorted when `a[..i]` was. */
  method SinkLast<T>(a: array<T>, i: int, key: T -> int)
    requires 0 <= i < a.Length
    requires Seqs.SortedBy(a[..i], key)
    modifies a
    ensures Seqs.SortedBy(a[..i + 1], key)
    ensures multiset(a[..]) == multiset(old(a[..]))
    ensures a[i + 1..] == old(a[i + 1..])
  {
    var j := i;
    while j > 0 && key(a[j - 1]) > key(a[j])
      invariant 0 <= j <= i
      invariant SortedExcept(a[..], i + 1, j, key)
      invariant forall q :: j < q <= i ==> key(a[j]) < key(a[q])
      invariant multiset(a[..]) == multiset(old(a[..]))
      invariant a[i + 1..] == old(a[i + 1..])
    {
      Swap(a, j - 1, j);
      j := j - 1;
    }
  }

  /** `results.sort(compare)` on the copied array, as a stable insertion sort by `key`. */
  method SortInPlace<T>(a: array<T>, key: T -> int)
    modifies a
    ensures Seqs.SortedBy(a[..], key)
    ensures multiset(a[..]) == multiset(old(a[..]))
  {
    var i := 0;
    while i < a.Length
      invariant 0 <= i <= a.Length
      invariant Seqs.SortedBy(a[..i], key)
      invariant multiset(a[..]) == multiset(old(a[..]))
    {
      SinkLast(a, i, key);
      i := i + 1;
    }
    assert a[..i] == a[..];
  }

  /** The `filteredListings` memo: the three filters applied one after another to a copy of
      the listings, then "oldest" reverses the copy and the three comparator sorts reorder it
      in place; "newest" and every other value leave the filtered order as it is. */
  method FilteredListings(all: seq<Listing>, searchQuery: string, category: string, sortBy: string, lo: int, hi: int)
    returns (results: seq<Listing>)
    ensures sortBy == "oldest" ==> results == Seqs.Reverse(Filtered(all, searchQuery, category, lo, hi))
    ensures IsComparatorSort(sortBy) ==> multiset(results) == multiset(Filtered(all, searchQuery, category, lo, hi))
    ensures sortBy == "price-low" ==> forall i, j :: 0 <= i < j < |results| ==> results[i].price <= results[j].price
    ensures sortBy == "price-high" ==> forall i, j :: 0 <= i < j < |results| ==> results[i].price >= results[j].price
    ensures sortBy == "popular" ==> forall i, j :: 0 <= i < j < |results| ==> results[i].views >= results[j].views
    ensures sortBy != "oldest" && !IsComparatorSort(sortBy) ==> results == Filtered(all, searchQuery, category, lo, hi)
  {
    results := all;
    if searchQuery != "" {
      var query := Text.Lower(searchQuery);
      results := Seqs.Filter(results, SearchTest(query));
    }
    if category != "" && category != "all" {
      results := Seqs.Filter(results, CategoryTest(category));
    }
    results := Seqs.Filter(results, PriceTest(lo, hi));
    if sortBy == "oldest" || IsComparatorSort(sortBy) {
      var filtered := results;
      var a := new Listing[|filtered|](k requires 0 <= k < |filtered| => filtered[k]);
      assert a[..] == filtered;
      if sortBy == "oldest" {
        ReverseInPlace(a);
      } else {
        SortInPlace(a, SortKey(sortBy));
      }
      results := a[..];
    }
  }

  /** `activeFiltersCount`: one for a search, one for a category other than "all", one for a
      price range narrower than the full slider. */
  function ActiveFiltersCount(searchQuery: string, category: string, lo: int, hi: int): (r: nat)
    ensures r <= 3
    ensures r == 0 <==> searchQuery == "" && (category == "all" || category == "") && lo <= 0 && hi >= PriceCeiling
  {
    (if searchQuery != "" then 1 else 0)
    + (if category != "all" && category != "" then 1 else 0)
    + (if lo > 0 || hi < PriceCeiling then 1 else 0)
  }

  /** Each active filter adds exactly one to the badge, independently of the others. */
  lemma EachActiveFilterCountsOne(searchQuery: string, category: string, lo: int, hi: int)
    ensures searchQuery != "" ==>
              ActiveFiltersCount(searchQuery, category, lo, hi) == ActiveFiltersCount("", category, lo, hi) + 1
    ensures category != "all" && category != "" ==>
              ActiveFiltersCount(searchQuery, category, lo, hi) == ActiveFiltersCount(searchQuery, "all", lo, hi) + 1
    ensures lo > 0 || hi < PriceCeiling ==>
              ActiveFiltersCount(searchQuery, category, lo, hi) == ActiveFiltersCount(searchQuery, category, 0, PriceCeiling) + 1
  {
  }

  /** When the badge shows no active filter, nothing priced within the slider is hidden. */
  lemma NoActiveFilterHidesNothing(all: seq<Listing>, searchQuery: string, category: string, lo: int, hi: int)
    requires ActiveFiltersCount(searchQuery, category, lo, hi) == 0
    requires forall l :: l in all ==> 0 <= l.price <= PriceCeiling
    ensures Filtered(all, searchQuery, category, lo, hi) == all
  {
    Seqs.FilterAll(all, PriceTest(lo, hi));
  }

  /** The marketplace's filter state: the URL query parameters and the price slider. */
  class MarketplaceFilters {
    var params: SearchParams.Params
    var priceLo: int
    var priceHi: int

    constructor (initial: SearchParams.Params)
      ensures params == initial && priceLo == 0 && priceHi == PriceCeiling
    {
      params := initial;
      priceLo, priceHi := 0, PriceCeiling;
    }

    function SearchQuery(): string
      reads this
    {
      SearchParams.Get(params, "search", "")
    }

    function Category(): string
      reads this
    {
      SearchParams.Get(params, "category", "all")
    }

    function SortBy(): string
      reads this
    {
      SearchParams.Get(params, "sort", "newest")
    }

    /** `updateSearchParams(key, value)` on a copy of the parameters, then stored back. */
    method UpdateSearchParams(key: string, value: string)
      modifies this
      ensures params == SearchParams.WithParam(old(params), key, value)
      ensures priceLo == old(priceLo) && priceHi == old(priceHi)
    {
      var newParams := params;
      if value != "" && value != "all" {
        newParams := newParams[key := value];
      } else {
        newParams := newParams - {key};
      }
      params := newParams;
    }

    method SetPriceRange(lo: int, hi: int)
      modifies this
      ensures priceLo == lo && priceHi == hi && params == old(params)
    {
      priceLo, priceHi := lo, hi;
    }

    /** `clearFilters`: empty parameters and the full price range, so the badge shows zero. */
    method ClearFilters()
      modifies this
      ensures params == map[] && priceLo == 0 && priceHi == PriceCeiling
      ensures SearchQuery() == "" && Category() == "all" && SortBy() == "newest"
      ensures ActiveFiltersCount(SearchQuery(), Category(), priceLo, priceHi) == 0
    {
      params := map[];
      priceLo, priceHi := 0, PriceCeiling;
    }
  }
}
