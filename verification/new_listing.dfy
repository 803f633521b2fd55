/** The "Create New Listing" form: the category and subcategory choices, the price label
    built from the price type, and the guarded insert of the listing row. `parseFloat` is
    represented by its outcome (`None` for `NaN`) and `toLocaleString` by `format`. */
module NewListing {

  import opened Js
  import Text
  import Rows
  import Store

  datatype Category = Category(value: string, display: string, subcategories: seq<string>)

  const Categories: seq<Category> := [
    Category("products", "Products", ["Electronics", "Fashion", "Home & Garden", "Sports", "Other"]),
    Category("services", "Services", ["Repairs", "Beauty", "Tutoring", "Catering", "Other"]),
    Category("real-estate", "Real Estate", ["Apartments", "Houses", "Shops", "Land", "Other"]),
    Category("vehicles", "Vehicles", ["Cars", "Motorcycles", "Parts", "Other"]),
    Category("jobs", "Jobs", ["Full-time", "Part-time", "Contract", "Freelance"])
  ]

  /** `categories.find(c => c.value === value)`: the first category with that value. */
  function FindCategory(cats: seq<Category>, value: string): (r: Option<Category>)
    ensures r.Some? ==> r.value in cats && r.value.value == value
    ensures r.None? ==> forall c :: c in cats ==> c.value != value
  {
    if cats == [] then None
    else if cats[0].value == value then Some(cats[0])
    else FindCategory(cats[1..], value)
  }

  /** A `<SelectItem>` of the subcategory list: the submitted value and the shown label. */
  datatype SelectOption = SelectOption(value: string, display: string)

  /** The subcategory options of the selected category (none when no category matches):
      one per subcategory, in order, each submitting its lower-cased display name. */
  function SubcategoryOptions(selected: string): (r: seq<SelectOption>)
    ensures FindCategory(Categories, selected).None? ==> r == []
    ensures FindCategory(Categories, selected).Some? ==>
      |r| == |FindCategory(Categories, selected).value.subcategories|
      && forall i :: 0 <= i < |r| ==>
           r[i].display == FindCategory(Categories, selected).value.subcategories[i]
           && r[i].value == Text.Lower(r[i].display)
  {
    match FindCategory(Categories, selected)
    case None => []
    case Some(c) =>
      seq(|c.subcategories|, i requires 0 <= i < |c.subcategories| =>
        SelectOption(Text.Lower(c.subcategories[i]), c.subcategories[i]))
  }

  const Naira := "₦"

  /** The `priceLabel` expression: "/month" and "/year" suffixes for the periodic types,
      a "From " prefix for "starting", and the bare amount for every other type. */
  function PriceLabel(priceType: string, priceNum: int, format: int -> string): (r: string)
    ensures priceType == "per-month" ==> r == Naira + format(priceNum) + "/month"
    ensures priceType == "per-year" ==> r == Naira + format(priceNum) + "/year"
    ensures priceType == "starting" ==> r == "From " + Naira + format(priceNum)
    ensures priceType !in {"per-month", "per-year", "starting"} ==> r == Naira + format(priceNum)
  {
    var amount := format(priceNum);
    if priceType == "per-month" then Naira + amount + "/month"
    else if priceType == "per-year" then Naira + amount + "/year"
    else if priceType == "starting" then "From " + Naira + amount
    else Naira + amount
  }

  /** Whatever the type, the label shows the formatted amount, and it opens with "From "
      exactly for the "starting" type. */
  lemma PriceLabelShowsAmount(priceType: string, priceNum: int, format: int -> string)
    ensures Text.Contains(PriceLabel(priceType, priceNum, format), format(priceNum))
    ensures Text.StartsWith(PriceLabel(priceType, priceNum, format), "From ") <==> priceType == "starting"
  {
    var shown := PriceLabel(priceType, priceNum, format);
    var at := if priceType == "starting" then |"From " + Naira| else |Naira|;
    assert shown[at..at + |format(priceNum)|] == format(priceNum);
    assert Text.OccursAt(shown, format(priceNum), at);
    Text.ContainsIffOccurs(shown, format(priceNum));
    if priceType != "starting" {
      assert shown[0] == Naira[0];
    }
  }

  /** The form fields `handleSubmit` reads; `price` is what `parseFloat` made of the input. */
  datatype ListingForm = ListingForm(
    title: string, description: string, category: string, subcategory: string,
    price: Option<int>, priceType: string,
    location: string, phone: string, whatsapp: string, instagram: string,
    isFeatured: bool)

  /** The form as the page opens: price type "fixed", not featured, every text field empty. */
  const InitialForm := ListingForm("", "", "", "", None, "fixed", "", "", "", "", false)

  /** The row inserted into `listings`; the store assigns `id`, and the columns the form does
      not send (expiry, boost, images) are left `null`. */
  function ListingRowFor(form: ListingForm, userId: string, newId: string, format: int -> string): (r: Rows.ListingRow)
    ensures r.id == newId && r.userId == userId && r.status == Some("active")
    ensures r.price == Some(IntOr(form.price, 0))
    ensures r.priceLabel == Some(PriceLabel(form.priceType, IntOr(form.price, 0), format))
    ensures r.priceType == Some(form.priceType) && r.isFeatured == Some(form.isFeatured)
    ensures r.title == form.title && r.description == form.description
    ensures r.category == form.category && r.subcategory == form.subcategory
    ensures r.location == form.location && r.phone == form.phone
    ensures r.whatsapp == form.whatsapp && r.instagram == form.instagram
    ensures r.featuredUntil.None? && r.isBoosted.None? && r.boostedUntil.None? && r.images.None?
  {
    var priceNum := IntOr(form.price, 0);
    Rows.ListingRow(
      newId, userId, form.title, form.description, form.category, form.subcategory,
      Some(priceNum), Some(PriceLabel(form.priceType, priceNum, format)), Some(form.priceType),
      form.location, form.phone, form.whatsapp, form.instagram,
      Some(form.isFeatured), None, None, None, Some("active"), None)
  }

  /** An empty or unparseable price is stored as 0. */
  lemma MissingPriceStoredAsZero(form: ListingForm, userId: string, newId: string, format: int -> string)
    requires form.price.None? || form.price == Some(0)
    ensures ListingRowFor(form, userId, newId, format).price == Some(0)
    ensures ListingRowFor(form, userId, newId, format).priceLabel == Some(PriceLabel(form.priceType, 0, format))
  {
  }

  /** `handleSubmit`: nothing without a signed-in user; otherwise one insert, whose
      acceptance by the store decides between the error toast and the redirect. */
  method Submit(listings: Store.Table<Rows.ListingRow>, user: Option<string>, form: ListingForm,
                newId: string, format: int -> string, accepted: bool)
    returns (outcome: Store.SubmitOutcome)
    modifies listings
    ensures user.None? ==> outcome == Store.NotSignedIn && listings.rows == old(listings.rows)
    ensures user.Some? && !accepted ==> outcome == Store.Failed && listings.rows == old(listings.rows)
    ensures user.Some? && accepted ==>
              outcome == Store.Submitted
              && listings.rows == old(listings.rows) + [ListingRowFor(form, user.value, newId, format)]
  {
    if user.None? {
      return Store.NotSignedIn;
    }
    var row := ListingRowFor(form, user.value, newId, format);
    if !accepted {
      return Store.Failed;
    }
    listings.Insert(row);
    outcome := Store.Submitted;
  }
}
