/** The owner's business cards: the name search, the thumbnail and badge fallbacks, and
    deleting a business. */
module MyBusinesses {

  import opened Js
  import Seqs
  import Text
  import Rows
  import Store

  /** The name search: the lower-cased query occurs in the lower-cased name. */
  predicate MatchesSearch(b: Rows.BusinessRow, searchQuery: string)
  {
    Text.Contains(Text.Lower(b.name), Text.Lower(searchQuery))
  }

  function BusinessTest(searchQuery: string): Rows.BusinessRow -> bool
  {
    (b: Rows.BusinessRow) => MatchesSearch(b, searchQuery)
  }

  /** `filteredBusinesses`: the businesses whose name matches, in the fetched order. */
  function FilteredBusinesses(businesses: seq<Rows.BusinessRow>, searchQuery: string): (r: seq<Rows.BusinessRow>)
    ensures forall b :: b in r <==> b in businesses && MatchesSearch(b, searchQuery)
    ensures Seqs.IsSubsequence(r, businesses)
  {
    Seqs.FilterIsSubsequence(businesses, BusinessTest(searchQuery));
    Seqs.Filter(businesses, BusinessTest(searchQuery))
  }

  /** An empty search keeps every business, in the original order. */
  lemma {:induction false} EmptySearchKeepsAll(businesses: seq<Rows.BusinessRow>)
    ensures FilteredBusinesses(businesses, "") == businesses
  {
    forall b | b in businesses ensures BusinessTest("")(b) {
      Text.EmptyContained(Text.Lower(b.name));
    }
    Seqs.FilterAll(businesses, BusinessTest(""));
  }

  /** The category badge: the stored category name, or "Business" when it is empty. */
  function CategoryBadge(b: Rows.BusinessRow): (r: string)
    ensures r != ""
    ensures StrTruthy(b.categoryName) ==> r == b.categoryName.value
    ensures !StrTruthy(b.categoryName) ==> r == "Business"
  {
    StrOr(b.categoryName, "Business")
  }

  /** The "Featured" badge is shown exactly when `is_featured` is true. */
  predicate ShowsFeatured(b: Rows.BusinessRow): (r: bool)
    ensures r <==> b.isFeatured == Some(true)
  {
    BoolTruthy(b.isFeatured)
  }

  /** `deleteMutation(id)`: an accepted delete removes exactly the rows with that id. */
  method Delete(businesses: Store.Table<Rows.BusinessRow>, id: string, accepted: bool)
    returns (deleted: bool)
    modifies businesses
    ensures deleted == accepted
    ensures accepted ==> businesses.rows == Store.Without(old(businesses.rows), Rows.BusinessIdIs(id))
    ensures accepted ==> forall b :: b in businesses.rows <==> b in old(businesses.rows) && b.id != id
    ensures !accepted ==> businesses.rows == old(businesses.rows)
  {
    if !accepted {
      return false;
    }
    businesses.Delete(Rows.BusinessIdIs(id));
    deleted := true;
  }
}
