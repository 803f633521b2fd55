/** The contact links of the business detail page: the WhatsApp enquiry link and the
    Instagram profile link. `encodeURIComponent` is a library call and is passed in as
    `encode`. */
module BusinessDetail {

  import Text

  const WhatsAppBase := "https://wa.me/"
  const TextQuery := "?text="
  const InstagramBase := "https://instagram.com/"

  /** The enquiry text, with the business name between double quotes. */
  function EnquiryMessage(businessName: string): (r: string)
    ensures Text.Contains(r, "\"" + businessName + "\"")
  {
    var opening := "Hello! I found your business ";
    var closing := " on Festac Amuwo Business Connect. I'd like to make an enquiry.";
    var quoted := "\"" + businessName + "\"";
    var r := opening + quoted + closing;
    assert r[|opening|..|opening| + |quoted|] == quoted;
    assert Text.OccursAt(r, quoted, |opening|);
    Text.ContainsIffOccurs(r, quoted);
    r
  }

  /** `handleWhatsAppEnquiry`: the wa.me link for the owner's number, carrying the encoded
      enquiry as its `text` parameter. */
  function WhatsAppEnquiryUrl(whatsapp: string, businessName: string, encode: string -> string): (r: string)
    ensures Text.StartsWith(r, WhatsAppBase + whatsapp + TextQuery)
    ensures r[|WhatsAppBase + whatsapp + TextQuery|..] == encode(EnquiryMessage(businessName))
  {
    WhatsAppBase + whatsapp + TextQuery + encode(EnquiryMessage(businessName))
  }

  /** Two enquiry links for numbers without a `?` agree only when the numbers do: the link
      identifies the owner it is sent to. */
  lemma {:induction false} EnquiryUrlIdentifiesNumber(w1: string, w2: string, businessName: string, encode: string -> string)
    requires '?' !in w1 && '?' !in w2
    requires WhatsAppEnquiryUrl(w1, businessName, encode) == WhatsAppEnquiryUrl(w2, businessName, encode)
    ensures w1 == w2
  {
    var u := WhatsAppEnquiryUrl(w1, businessName, encode);
    var b := |WhatsAppBase|;
    assert u[b + |w1|] == '?';
    assert u[b + |w2|] == '?';
    assert |w1| == |w2|;
    assert w1 == u[b..b + |w1|] == w2;
  }

  /** `handleInstagramVisit`: the profile link for the owner's handle. */
  function InstagramUrl(handle: string): (r: string)
    ensures Text.StartsWith(r, InstagramBase)
    ensures r[|InstagramBase|..] == handle
  {
    InstagramBase + handle
  }

  /** The Instagram button is rendered only for a truthy (non-empty) handle. */
  predicate ShowsInstagram(handle: string): (r: bool)
    ensures r <==> |InstagramUrl(handle)| > |InstagramBase|
  {
    handle != ""
  }

  /** Whenever the button is shown, its link names a profile rather than the site root. */
  lemma ShownInstagramNamesProfile(handle: string)
    requires ShowsInstagram(handle)
    ensures |InstagramUrl(handle)| > |InstagramBase|
  {
  }
}
