/** The "boost" payment page: the plan catalogue, the expiry computed from the plan, the
    payment record and the featured/boosted update of the paid-for listing or business.
    The wall clock and `Math.random` are parameters: `now` and `refNow` are the two
    `Date.now()` readings, `suffix` the six random base-36 characters. */
module Boost {

  import opened Js
  import Text
  import Rows
  import Store

  const MsPerDay := 24 * 60 * 60 * 1000

  datatype Plan = Plan(id: string, price: int, duration: string)

  const Plans: seq<Plan> := [
    Plan("weekly", 2000, "1 week"),
    Plan("monthly", 5000, "1 month"),
    Plan("premium", 10000, "3 months")
  ]

  /** The plan selected when the page opens. */
  const DefaultPlan := "monthly"

  /** `plans.find(p => p.id === planId)`: the first plan with that id. */
  function FindPlan(plans: seq<Plan>, planId: string): (r: Option<Plan>)
    ensures r.Some? ==> r.value in plans && r.value.id == planId
    ensures r.None? ==> forall p :: p in plans ==> p.id != planId
  {
    if plans == [] then None
    else if plans[0].id == planId then Some(plans[0])
    else FindPlan(plans[1..], planId)
  }

  /** The catalogue prices: 2000 for a week, 5000 for a month, 10000 for the premium plan,
      and no plan for any other id. */
  lemma PlanPrices()
    ensures FindPlan(Plans, "weekly") == Some(Plan("weekly", 2000, "1 week"))
    ensures FindPlan(Plans, "monthly") == Some(Plan("monthly", 5000, "1 month"))
    ensures FindPlan(Plans, "premium") == Some(Plan("premium", 10000, "3 months"))
    ensures forall id :: id !in {"weekly", "monthly", "premium"} ==> FindPlan(Plans, id).None?
  {
  }

  /** `durationDays`: 7 for "weekly", 30 for "monthly", 90 for every other plan id. */
  function DurationDays(planId: string): (r: int)
    ensures planId == "weekly" ==> r == 7
    ensures planId == "monthly" ==> r == 30
    ensures planId != "weekly" && planId != "monthly" ==> r == 90
  {
    if planId == "weekly" then 7 else if planId == "monthly" then 30 else 90
  }

  /** `featuredUntil`: `now` plus the plan's duration in milliseconds. */
  function FeaturedUntil(now: int, planId: string): (r: int)
    ensures r > now
    ensures r - now == DurationDays(planId) * MsPerDay
  {
    now + DurationDays(planId) * MsPerDay
  }

  /** A longer plan always features the target for longer. */
  lemma LongerPlansExpireLater(now: int)
    ensures FeaturedUntil(now, "weekly") < FeaturedUntil(now, "monthly") < FeaturedUntil(now, "premium")
  {
  }

  /** The payment reference: "PAY-", the clock reading in decimal, "-", the random suffix. */
  function Reference(refNow: nat, suffix: string): (r: string)
    ensures |r| == 4 + |Text.DecimalString(refNow)| + 1 + |suffix|
    ensures Text.StartsWith(r, "PAY-")
    ensures r[4..4 + |Text.DecimalString(refNow)|] == Text.DecimalString(refNow)
    ensures r[4 + |Text.DecimalString(refNow)|] == '-'
    ensures r[|r| - |suffix|..] == suffix
  {
    "PAY-" + Text.DecimalString(refNow) + "-" + suffix
  }

  /** The clock part of a reference holds no '-', so the first '-' after "PAY-" ends it and
      two references with different clock readings differ. */
  lemma {:induction false} ReferenceDistinguishesTime(t1: nat, t2: nat, s1: string, s2: string)
    requires Reference(t1, s1) == Reference(t2, s2)
    ensures t1 == t2 && s1 == s2
  {
    var d1, d2 := Text.DecimalString(t1), Text.DecimalString(t2);
    var r := Reference(t1, s1);
    assert |d1| == |d2|;
    assert d1 == r[4..4 + |d1|] == d2;
    DecimalStringInjective(t1, t2);
  }

  /** Distinct numbers have distinct decimal renderings. */
  lemma {:induction false} DecimalStringInjective(a: nat, b: nat)
    requires Text.DecimalString(a) == Text.DecimalString(b)
    ensures a == b
    decreases a
  {
    var da, db := Text.DecimalString(a), Text.DecimalString(b);
    assert da[|da| - 1] == db[|db| - 1];
    assert a % 10 == b % 10;
    if a >= 10 && b >= 10 {
      assert Text.DecimalString(a / 10) == da[..|da| - 1];
      assert Text.DecimalString(b / 10) == db[..|db| - 1];
      DecimalStringInjective(a / 10, b / 10);
    }
  }

  /** The inserted payment record: the target id in the column that matches the page's
      type (neither for a type that is not "listing" or "business"), the plan's price, and
      status "completed". */
  function PaymentRowFor(newId: string, userId: string, targetType: string, targetId: string,
                         plan: Plan, reference: string): (r: Rows.PaymentRow)
    ensures r.listingId == (if targetType == "listing" then Some(targetId) else None)
    ensures r.businessId == (if targetType == "business" then Some(targetId) else None)
    ensures !(r.listingId.Some? && r.businessId.Some?)
    ensures r.paymentType == "featured_listing" <==> targetType == "listing"
    ensures r.paymentType != "featured_listing" ==> r.paymentType == "featured_business"
    ensures r.amount == plan.price && r.status == Some("completed")
    ensures r.userId == userId && r.reference == Some(reference) && r.id == newId
  {
    Rows.PaymentRow(
      newId, userId,
      if targetType == "listing" then Some(targetId) else None,
      if targetType == "business" then Some(targetId) else None,
      if targetType == "listing" then "featured_listing" else "featured_business",
      plan.price, Some("completed"), Some(reference))
  }

  /** The listing update: featured and boosted, both until the same instant. */
  function BoostListingPatch(until: int): Rows.ListingRow -> Rows.ListingRow
  {
    (l: Rows.ListingRow) => l.(isFeatured := Some(true), featuredUntil := Some(until),
                               isBoosted := Some(true), boostedUntil := Some(until))
  }

  /** The business update: featured until the given instant. */
  function FeatureBusinessPatch(until: int): Rows.BusinessRow -> Rows.BusinessRow
  {
    (b: Rows.BusinessRow) => b.(isFeatured := Some(true), featuredUntil := Some(until))
  }

  /** After a listing boost, every listing with the paid-for id is featured and boosted
      with equal expiries, every other listing is as it was, and nothing is added or lost. */
  lemma BoostedListingState(rows: seq<Rows.ListingRow>, id: string, until: int)
    ensures var after := Store.Patched(rows, Rows.ListingIdIs(id), BoostListingPatch(until));
      |after| == |rows|
      && (forall i :: 0 <= i < |rows| && rows[i].id == id ==>
            after[i].isFeatured == Some(true) && after[i].isBoosted == Some(true)
            && after[i].featuredUntil == Some(until) && after[i].boostedUntil == Some(until)
            && after[i].title == rows[i].title && after[i].userId == rows[i].userId)
      && (forall i :: 0 <= i < |rows| && rows[i].id != id ==> after[i] == rows[i])
  {
  }

  /** Paying twice for the same expiry leaves the listings as one payment did. */
  lemma BoostTwiceSameExpiry(rows: seq<Rows.ListingRow>, id: string, until: int)
    ensures Store.Patched(Store.Patched(rows, Rows.ListingIdIs(id), BoostListingPatch(until)), Rows.ListingIdIs(id), BoostListingPatch(until))
         == Store.Patched(rows, Rows.ListingIdIs(id), BoostListingPatch(until))
  {
    Store.PatchedTwice(rows, Rows.ListingIdIs(id), BoostListingPatch(until));
  }

  datatype PaymentOutcome = NotStarted | PlanMissing | PaymentFailed | Featured

  /** `handlePayment`. Without a user or an id nothing happens. A plan id outside the
      catalogue fails before any write. A refused payment insert stops before the update.
      Otherwise the payment is recorded, then the target row is updated; a refused update
      is ignored and the payment stays recorded. */
  method HandlePayment(
    payments: Store.Table<Rows.PaymentRow>,
    listings: Store.Table<Rows.ListingRow>,
    businesses: Store.Table<Rows.BusinessRow>,
    user: Option<string>, targetType: string, id: Option<string>, selectedPlan: string,
    now: int, refNow: nat, suffix: string, newId: string,
    paymentAccepted: bool, updateAccepted: bool)
    returns (outcome: PaymentOutcome)
    modifies payments, listings, businesses
    ensures user.None? || !StrTruthy(id) ==>
              outcome == NotStarted
    ensures user.Some? && StrTruthy(id) && FindPlan(Plans, selectedPlan).None? ==>
              outcome == PlanMissing
    ensures user.Some? && StrTruthy(id) && FindPlan(Plans, selectedPlan).Some? && !paymentAccepted ==>
              outcome == PaymentFailed
    ensures outcome != Featured ==>
              payments.rows == old(payments.rows) && listings.rows == old(listings.rows)
              && businesses.rows == old(businesses.rows)
    ensures outcome == Featured ==>
              user.Some? && StrTruthy(id) && FindPlan(Plans, selectedPlan).Some? && paymentAccepted
              && payments.rows == old(payments.rows) + [PaymentRowFor(newId, user.value, targetType, id.value,
                                                       FindPlan(Plans, selectedPlan).value, Reference(refNow, suffix))]
    ensures outcome == Featured && targetType == "listing" ==>
              businesses.rows == old(businesses.rows)
              && listings.rows == if updateAccepted
                                  then Store.Patched(old(listings.rows), Rows.ListingIdIs(id.value),
                                                     BoostListingPatch(FeaturedUntil(now, selectedPlan)))
                                  else old(listings.rows)
    ensures outcome == Featured && targetType != "listing" ==>
              listings.rows == old(listings.rows)
              && businesses.rows == if updateAccepted
                                    then Store.Patched(old(businesses.rows), Rows.BusinessIdIs(id.value),
                                                       FeatureBusinessPatch(FeaturedUntil(now, selectedPlan)))
                                    else old(businesses.rows)
  {
    if user.None? || !StrTruthy(id) {
      return NotStarted;
    }
    var plan := FindPlan(Plans, selectedPlan);
    var until := FeaturedUntil(now, selectedPlan);
    var reference := Reference(refNow, suffix);
    if plan.None? {
      return PlanMissing;
    }
    if !paymentAccepted {
      return PaymentFailed;
    }
    payments.Insert(PaymentRowFor(newId, user.value, targetType, id.value, plan.value, reference));
    if targetType == "listing" {
      if updateAccepted {
        listings.Update(Rows.ListingIdIs(id.value), BoostListingPatch(until));
      }
    } else {
      if updateAccepted {
        businesses.Update(Rows.BusinessIdIs(id.value), FeatureBusinessPatch(until));
      }
    }
    outcome := Featured;
  }
}
