/**
 * `message_handler` of ali_affiliate_forward.py: find the first link, ask the
 * affiliate API for its affiliate link, and when one comes back non-empty,
 * overwrite the message text with every occurrence of the link replaced and
 * send it to the target channel.
 *
 * `Decide` is the handler as a function of the text and the API's
 * behaviour: the text it sends, or None when it sends nothing.
 * `MessageHandler` is the handler as the source runs it, over the message
 * object it updates in place and the client it sends through.
 */
module Forwarder {
  import opened Wrappers
  import opened LinkExtractor
  import opened StrReplace
  import opened AffiliateLinks

  /** Python truthiness of `affiliate_link`: present and not the empty string. */
  predicate Truthy(a: Option<string>)
  {
    a.Some? && a.value != ""
  }

  /** The outbound text for a message, or None when nothing is forwarded. */
  function Decide(messageText: string, getAffiliateLinks: string -> ApiOutcome): (r: Option<string>)
    ensures r.Some? ==> ContainsLink(messageText)
  {
    match FindLink(messageText)
    case None => None
    case Some(originalLink) =>
      var affiliateLink := GenerateAffiliateLink(originalLink, getAffiliateLinks);
      if Truthy(affiliateLink) then Some(ReplaceAll(messageText, originalLink, affiliateLink.value))
      else None
  }

  /**
   * The extracted link first occurs in the message where the match starts:
   * an earlier occurrence would itself be an earlier match.
   */
  lemma FirstOccurrenceAtMatch(messageText: string, m: Span)
    requires Search(messageText) == Some(m)
    ensures OccursAt(messageText, messageText[m.start..m.end], m.start)
    ensures forall k :: 0 <= k < m.start ==> !OccursAt(messageText, messageText[m.start..m.end], k)
  {
    forall k | 0 <= k < m.start ensures !OccursAt(messageText, messageText[m.start..m.end], k) {
      NoOccurrenceBeforeMatch(messageText, m, k);
    }
  }

  /** An occurrence of the link left of the match would itself be a match. */
  lemma NoOccurrenceBeforeMatch(messageText: string, m: Span, k: nat)
    requires Search(messageText) == Some(m) && k < m.start
    ensures !OccursAt(messageText, messageText[m.start..m.end], k)
  {
    var link := messageText[m.start..m.end];
    PatternMatchSlice(messageText, m.start, m.end);
    if k + |link| <= |messageText| {
      PatternMatchSlice(messageText, k, k + |link|);
      NoMatchBeforeSearch(messageText, m, k, k + |link|);
    }
  }

  /** A message in which no span matches `https?://\S+` is not forwarded. */
  lemma NoLinkNotForwarded(messageText: string, getAffiliateLinks: string -> ApiOutcome)
    requires !ContainsLink(messageText)
    ensures Decide(messageText, getAffiliateLinks) == None
  {
  }

  /**
   * When the API raised, returned no record, or returned a first record
   * without a non-empty promotion link, the message is not forwarded.
   */
  lemma NoAffiliateLinkNotForwarded(messageText: string, getAffiliateLinks: string -> ApiOutcome, link: string)
    requires FindLink(messageText) == Some(link)
    requires || getAffiliateLinks(link).Raised?
             || getAffiliateLinks(link) == Returned([])
             || (getAffiliateLinks(link).Returned? && |getAffiliateLinks(link).links| > 0 &&
                 !Truthy(getAffiliateLinks(link).links[0].promotionLink))
    ensures Decide(messageText, getAffiliateLinks) == None
  {
  }

  /**
   * A message whose `re.search` result is s[i..j] is forwarded exactly when
   * the first record the API returns for s[i..j] has a non-empty promotion
   * link.
   */
  lemma ForwardedIff(messageText: string, getAffiliateLinks: string -> ApiOutcome, i: nat, j: nat)
    requires IsSearchResult(messageText, i, j)
    ensures Decide(messageText, getAffiliateLinks).Some? <==>
              && getAffiliateLinks(messageText[i..j]).Returned?
              && |getAffiliateLinks(messageText[i..j]).links| > 0
              && Truthy(getAffiliateLinks(messageText[i..j]).links[0].promotionLink)
  {
    SearchCorrect(messageText);
    var m := Search(messageText).value;
    SearchResultUnique(messageText, i, j, m.start, m.end);
  }

  /**
   * The outbound text keeps everything before the link, puts the affiliate
   * link where the link was, and continues with every later occurrence of
   * the link replaced.
   */
  lemma ForwardedText(messageText: string, getAffiliateLinks: string -> ApiOutcome, m: Span, affiliateLink: string)
    requires Search(messageText) == Some(m)
    requires GenerateAffiliateLink(messageText[m.start..m.end], getAffiliateLinks) == Some(affiliateLink)
    requires affiliateLink != ""
    ensures Decide(messageText, getAffiliateLinks) ==
              Some(messageText[..m.start] + affiliateLink +
                   ReplaceAll(messageText[m.end..], messageText[m.start..m.end], affiliateLink))
  {
    var link := messageText[m.start..m.end];
    FirstOccurrenceAtMatch(messageText, m);
    ReplaceAllFirst(messageText, link, affiliateLink, 0, m.start);
    assert messageText[0..] == messageText;
    assert messageText[0..m.start] == messageText[..m.start];
  }

  /** A link that occurs once is the only part of the message that changes. */
  lemma ForwardedSingleOccurrence(messageText: string, getAffiliateLinks: string -> ApiOutcome, m: Span, affiliateLink: string)
    requires Search(messageText) == Some(m)
    requires GenerateAffiliateLink(messageText[m.start..m.end], getAffiliateLinks) == Some(affiliateLink)
    requires affiliateLink != ""
    requires forall k :: m.end <= k <= |messageText| ==> !OccursAt(messageText, messageText[m.start..m.end], k)
    ensures Decide(messageText, getAffiliateLinks) ==
              Some(messageText[..m.start] + affiliateLink + messageText[m.end..])
  {
    var link := messageText[m.start..m.end];
    ForwardedText(messageText, getAffiliateLinks, m, affiliateLink);
    NoOccurrenceInSuffix(messageText, link, m.end);
    ReplaceAllNoOccurrence(messageText[m.end..], link, affiliateLink);
  }

  /** The message object of an event; the handler overwrites its text in place. */
  class Message {
    var message: string

    constructor (text: string)
      ensures message == text
    {
      message := text;
    }
  }

  /** The messaging client, reduced to the log of what it has sent: (chat id, text) pairs. */
  class Client {
    var sent: seq<(int, string)>

    constructor ()
      ensures sent == []
    {
      sent := [];
    }

    /** `client.send_message(chat, message)`. */
    method SendMessage(chat: int, text: string)
      modifies this
      ensures sent == old(sent) + [(chat, text)]
    {
      sent := sent + [(chat, text)];
    }
  }

  /**
   * The handler: the message's text is rewritten and sent to the target
   * channel exactly when `Decide` says so; otherwise neither the message nor
   * the client changes.
   */
  method MessageHandler(client: Client, targetChannelId: int, msg: Message, getAffiliateLinks: string -> ApiOutcome)
    modifies client, msg
    ensures var out := Decide(old(msg.message), getAffiliateLinks);
            && msg.message == (if out.Some? then out.value else old(msg.message))
            && client.sent == old(client.sent) + (if out.Some? then [(targetChannelId, out.value)] else [])
  {
    var messageText := msg.message;
    var originalLink := FindLinkInMessage(messageText);
    if originalLink.Some? {
      var affiliateLink := GenerateAffiliateLink(originalLink.value, getAffiliateLinks);
      if Truthy(affiliateLink) {
        msg.message := Replace(messageText, originalLink.value, affiliateLink.value);
        client.SendMessage(targetChannelId, msg.message);
      }
    }
  }
}
