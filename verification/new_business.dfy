/** The "Add Business" form: the comma-separated services parsing, the category lookup
    and the guarded insert of the business row. */
module NewBusiness {

  import opened Js
  import Seqs
  import Text
  import Rows
  import Store

  /** Every piece trimmed, in order (`.map((s) => s.trim())`). */
  function TrimAll(pieces: seq<string>): (r: seq<string>)
    ensures |r| == |pieces|
    ensures forall i :: 0 <= i < |pieces| ==> r[i] == Text.Trim(pieces[i])
  {
    seq(|pieces|, i requires 0 <= i < |pieces| => Text.Trim(pieces[i]))
  }

  predicate NonEmpty(s: string)
  {
    s != []
  }

  /** `services.split(",").map((s) => s.trim()).filter(Boolean)`. */
  function ParseServices(services: string): (r: seq<string>)
    ensures forall x :: x in r ==> x != [] && !Text.IsSpace(x[0]) && !Text.IsSpace(x[|x| - 1])
    ensures |r| <= Text.CountChar(services, ',') + 1
    ensures Seqs.IsSubsequence(r, TrimAll(Text.Split(services, ',')))
    ensures forall k :: 0 <= k < |Text.Split(services, ',')| && Text.Trim(Text.Split(services, ',')[k]) != [] ==>
              Text.Trim(Text.Split(services, ',')[k]) in r
    ensures forall x :: multiset(r)[x] == if x != [] then multiset(TrimAll(Text.Split(services, ',')))[x] else 0
    ensures |r| == |Seqs.Positions(TrimAll(Text.Split(services, ',')), NonEmpty)|
  {
    var trimmed := TrimAll(Text.Split(services, ','));
    Seqs.FilterIsSubsequence(trimmed, NonEmpty);
    Seqs.FilterMultiplicity(trimmed, NonEmpty);
    Seqs.FilterCountsPositions(trimmed, NonEmpty);
    Seqs.Filter(trimmed, NonEmpty)
  }

  /** The pieces of a blank string are blank. */
  lemma {:induction false} SplitBlank(s: string, sep: char)
    requires Text.AllSpace(s) && !Text.IsSpace(sep)
    ensures forall k :: 0 <= k < |Text.Split(s, sep)| ==> Text.AllSpace(Text.Split(s, sep)[k])
  {
    if s != [] {
      SplitBlank(s[1..], sep);
      var rest := Text.Split(s[1..], sep);
      assert s[0] != sep;
      assert Text.Split(s, sep) == [[s[0]] + rest[0]] + rest[1..];
    }
  }

  /** An empty or all-blank services field gives no services. */
  lemma BlankServicesGiveNone(services: string)
    requires Text.AllSpace(services)
    ensures ParseServices(services) == []
  {
    var pieces := Text.Split(services, ',');
    SplitBlank(services, ',');
    var trimmed := TrimAll(pieces);
    forall x | x in trimmed ensures !NonEmpty(x) {
      var k :| 0 <= k < |trimmed| && trimmed[k] == x;
      Text.TrimEmptyIffBlank(pieces[k]);
    }
    Seqs.FilterNone(trimmed, NonEmpty);
  }

  datatype BusinessCategory = BusinessCategory(id: string, name: string)

  /** `categories.find((c) => c.id === categoryId)`: the first category with that id. */
  function FindCategory(categories: seq<BusinessCategory>, categoryId: string): (r: Option<BusinessCategory>)
    ensures r.Some? ==> r.value in categories && r.value.id == categoryId
    ensures r.None? ==> forall c :: c in categories ==> c.id != categoryId
  {
    if categories == [] then None
    else if categories[0].id == categoryId then Some(categories[0])
    else FindCategory(categories[1..], categoryId)
  }

  /** When several categories share the id, the first of them is found. */
  lemma {:induction false} FindCategoryFirst(categories: seq<BusinessCategory>, categoryId: string, i: int)
    requires 0 <= i < |categories| && categories[i].id == categoryId
    requires forall j :: 0 <= j < i ==> categories[j].id != categoryId
    ensures FindCategory(categories, categoryId) == Some(categories[i])
  {
    if i > 0 {
      FindCategoryFirst(categories[1..], categoryId, i - 1);
    }
  }

  /** `selectedCategory?.name || ""`. */
  function CategoryName(categories: seq<BusinessCategory>, categoryId: string): (r: string)
    ensures FindCategory(categories, categoryId).None? ==> r == ""
    ensures FindCategory(categories, categoryId).Some? ==> r == FindCategory(categories, categoryId).value.name
  {
    match FindCategory(categories, categoryId)
    case None => ""
    case Some(c) => c.name
  }

  datatype BusinessForm = BusinessForm(
    name: string, description: string, categoryId: string, subcategory: string,
    location: string, phone: string, whatsapp: string, instagram: string, services: string)

  /** The row inserted into `businesses`: no category id when none is chosen, the chosen
      category's name (or "") as `category_name`, the parsed services and status "active";
      the store assigns `id`, and expiry and images are left `null`. */
  function BusinessRowFor(form: BusinessForm, categories: seq<BusinessCategory>, userId: string, newId: string): (r: Rows.BusinessRow)
    ensures r.id == newId && r.userId == userId && r.status == Some("active")
    ensures r.categoryId.None? <==> form.categoryId == ""
    ensures r.categoryId.Some? ==> r.categoryId.value == form.categoryId
    ensures r.categoryName == Some(CategoryName(categories, form.categoryId))
    ensures r.services == Some(ParseServices(form.services))
    ensures r.name == form.name && r.description == form.description && r.subcategory == form.subcategory
    ensures r.location == form.location && r.phone == form.phone
    ensures r.whatsapp == form.whatsapp && r.instagram == form.instagram
    ensures r.isFeatured.None? && r.featuredUntil.None? && r.images.None?
  {
    Rows.BusinessRow(
      newId, userId, form.name, form.description,
      EmptyToNull(form.categoryId), Some(CategoryName(categories, form.categoryId)), form.subcategory,
      form.location, form.phone, form.whatsapp, form.instagram,
      Some(ParseServices(form.services)), Some("active"), None, None, None)
  }

  /** `handleSubmit`: nothing without a signed-in user; otherwise one insert, whose
      acceptance decides between the error toast and the redirect. */
  method Submit(businesses: Store.Table<Rows.BusinessRow>, user: Option<string>, form: BusinessForm,
                categories: seq<BusinessCategory>, newId: string, accepted: bool)
    returns (outcome: Store.SubmitOutcome)
    modifies businesses
    ensures user.None? ==> outcome == Store.NotSignedIn && businesses.rows == old(businesses.rows)
    ensures user.Some? && !accepted ==> outcome == Store.Failed && businesses.rows == old(businesses.rows)
    ensures user.Some? && accepted ==>
              outcome == Store.Submitted
              && businesses.rows == old(businesses.rows) + [BusinessRowFor(form, categories, user.value, newId)]
  {
    if user.None? {
      return Store.NotSignedIn;
    }
    if !accepted {
      return Store.Failed;
    }
    businesses.Insert(BusinessRowFor(form, categories, user.value, newId));
    outcome := Store.Submitted;
  }
}
