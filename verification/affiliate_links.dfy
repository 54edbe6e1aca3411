/**
 * `generate_affiliate_link` of ali_affiliate_forward.py. The AliExpress SDK
 * call `get_affiliate_links` is not modelled; its outcome for a given URL is
 * an input, a function from the URL to what the call returned or that it
 * raised.
 */
module AffiliateLinks {
  import opened Wrappers

  /**
   * One record returned by the API. `promotionLink` is None when the record's
   * `promotion_link` is None or missing (reading a missing attribute raises,
   * which the generator catches).
   */
  datatype AffiliateLink = AffiliateLink(promotionLink: Option<string>)

  /** What `aliexpress.get_affiliate_links(url)` did: raised, or returned a list of records. */
  datatype ApiOutcome = Raised | Returned(links: seq<AffiliateLink>)

  /**
   * The affiliate link for `originalLink`: the first record's promotion link,
   * or None when the call raised or returned no record.
   */
  function GenerateAffiliateLink(originalLink: string, getAffiliateLinks: string -> ApiOutcome): (r: Option<string>)
    ensures getAffiliateLinks(originalLink).Raised? ==> r.None?
    ensures getAffiliateLinks(originalLink) == Returned([]) ==> r.None?
    ensures getAffiliateLinks(originalLink).Returned? && |getAffiliateLinks(originalLink).links| > 0 ==>
              r == getAffiliateLinks(originalLink).links[0].promotionLink
  {
    match getAffiliateLinks(originalLink)
    case Raised => None
    case Returned(links) => if |links| == 0 then None else links[0].promotionLink
  }

  /** Records after the first never influence the result. */
  lemma LaterRecordsIgnored(originalLink: string, api1: string -> ApiOutcome, api2: string -> ApiOutcome,
                            first: AffiliateLink, rest1: seq<AffiliateLink>, rest2: seq<AffiliateLink>)
    requires api1(originalLink) == Returned([first] + rest1)
    requires api2(originalLink) == Returned([first] + rest2)
    ensures GenerateAffiliateLink(originalLink, api1) == GenerateAffiliateLink(originalLink, api2) == first.promotionLink
  {
  }

  /** Only what the API does for the link passed to it matters. */
  lemma OnlyQueriedLinkMatters(originalLink: string, api1: string -> ApiOutcome, api2: string -> ApiOutcome)
    requires api1(originalLink) == api2(originalLink)
    ensures GenerateAffiliateLink(originalLink, api1) == GenerateAffiliateLink(originalLink, api2)
  {
  }
}
