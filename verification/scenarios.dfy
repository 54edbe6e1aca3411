/** What the model gives for concrete messages, proved for each. */
module Scenarios {
  import opened Wrappers
  import opened LinkExtractor
  import opened StrReplace
  import opened AffiliateLinks
  import opened Forwarder

  /** A stub of the affiliate API: one known product link with two records; anything else raises. */
  function Stub(url: string): ApiOutcome
  {
    if url == "https://a" then Returned([AffiliateLink(Some("https://b")), AffiliateLink(Some("https://c"))])
    else Raised
  }

  /** No link starts at a character other than `h`. */
  lemma NotSchemeAt(s: string, k: nat)
    requires k < |s| && s[k] != 'h'
    ensures !StartsLink(s, k)
  {
    if k + 7 <= |s| { assert s[k..k + 7][0] == s[k]; }
    if k + 8 <= |s| { assert s[k..k + 8][0] == s[k]; }
  }

  /** One step of the scan: a position holding no `h` is passed over. */
  lemma SkipOne(s: string, k: nat)
    requires k < |s| && s[k] != 'h'
    ensures SearchFrom(s, k) == SearchFrom(s, k + 1)
  {
    NotSchemeAt(s, k);
  }

  /** The link of `LinkInsideWord` is found at position 3. */
  lemma InsideWordLinkAt3(s: string)
    requires s == "foohttps://a"
    ensures SearchFrom(s, 3) == Some(Span(3, 12)) && s[3..12] == "https://a"
  {
    assert s[3..11] == "https://";
    HttpsIsNotHttp(s, 3);
    assert NextSpace(s, 11) == 12;
  }

  /** A link may start inside a word. */
  lemma LinkInsideWord(s: string)
    requires s == "foohttps://a"
    ensures FindLink(s) == Some("https://a")
  {
    InsideWordLinkAt3(s);
    assert s[0] == 'f' && s[1] == 'o' && s[2] == 'o';
    SkipOne(s, 0); SkipOne(s, 1); SkipOne(s, 2);
  }

  /** The link of `BareSchemeSkipped` is found at position 8. */
  lemma SecondSchemeFound(s: string)
    requires s == "http:// http://y"
    ensures SearchFrom(s, 8) == Some(Span(8, 16)) && s[8..16] == "http://y"
  {
    assert s[8..] == "http://y";
    assert s[8..15] == s[8..][..7];
    assert NextSpace(s, 15) == 16;
  }

  /** In `BareSchemeSkipped`, positions 1 to 7 hold no `h`, so the scan passes them over. */
  lemma BareSchemeTailSkipped(s: string)
    requires s == "http:// http://y"
    ensures SearchFrom(s, 1) == SearchFrom(s, 8)
  {
    assert s[1] == 't' && s[2] == 't' && s[3] == 'p' && s[4] == ':' && s[5] == '/' && s[6] == '/' && s[7] == ' ';
    SkipOne(s, 1); SkipOne(s, 2); SkipOne(s, 3); SkipOne(s, 4);
    SkipOne(s, 5); SkipOne(s, 6); SkipOne(s, 7);
  }

  /** In `BareSchemeSkipped`, the scheme at position 0 is followed by a space, so no link starts there. */
  lemma FirstSchemeBare(s: string)
    requires s == "http:// http://y"
    ensures !StartsLink(s, 0)
  {
    assert s[0..7] == "http://" && s[7] == ' ';
  }

  /** A scheme followed by whitespace starts no link; the scan goes on to the next one. */
  lemma BareSchemeSkipped(s: string)
    requires s == "http:// http://y"
    ensures FindLink(s) == Some("http://y")
  {
    SecondSchemeFound(s);
    BareSchemeTailSkipped(s);
    FirstSchemeBare(s);
  }

  /** The link of `EndToEnd` is found at position 4. */
  lemma BuyLinkAt4(s: string)
    requires s == "Buy https://a now"
    ensures SearchFrom(s, 4) == Some(Span(4, 13)) && s[4..13] == "https://a"
  {
    assert s[4..12] == "https://";
    HttpsIsNotHttp(s, 4);
    assert NextSpace(s, 12) == 13;
  }

  /** The search of `EndToEnd`: "Buy " holds no `h`, so the link at position 4 is the result. */
  lemma SearchBuyMessage(s: string)
    requires s == "Buy https://a now"
    ensures Search(s) == Some(Span(4, 13)) && s[4..13] == "https://a"
  {
    BuyLinkAt4(s);
    assert s[0] == 'B' && s[1] == 'u' && s[2] == 'y' && s[3] == ' ';
    SkipOne(s, 0); SkipOne(s, 1); SkipOne(s, 2); SkipOne(s, 3);
  }

  /** The text `EndToEnd` sends, assembled from the pieces `ForwardedSingleOccurrence` gives. */
  lemma BuyMessageRewritten(s: string)
    requires s == "Buy https://a now"
    ensures s[..4] + "https://b" + s[13..] == "Buy https://b now"
  {
    assert s[..4] == "Buy " && s[13..] == " now";
  }

  /** End to end: the link becomes the first record's promotion link; the rest of the message is kept. */
  lemma EndToEnd(s: string)
    requires s == "Buy https://a now"
    ensures Decide(s, Stub) == Some("Buy https://b now")
  {
    SearchBuyMessage(s);
    ForwardedSingleOccurrence(s, Stub, Span(4, 13), "https://b");
    BuyMessageRewritten(s);
  }

  /** The search of `EveryOccurrenceReplaced`: the first link starts at position 0. */
  lemma SearchTwiceMessage(s: string)
    requires s == "https://a https://a"
    ensures Search(s) == Some(Span(0, 9)) && s[0..9] == "https://a"
  {
    assert s[0..8] == "https://";
    HttpsIsNotHttp(s, 0);
    assert NextSpace(s, 8) == 9;
  }

  /** In `EveryOccurrenceReplaced`, the text after the first link has its one occurrence replaced. */
  lemma TailRewritten(t: string)
    requires t == " https://a"
    ensures ReplaceAll(t, "https://a", "https://b") == " https://b"
  {
    assert OccursAt(t, "https://a", 1);
    assert t[0..9][0] == ' ';
    ReplaceAllFirst(t, "https://a", "https://b", 0, 1);
    assert t[0..] == t && t[0..1] == " " && t[10..] == "";
  }

  /** The text `EveryOccurrenceReplaced` sends, assembled from the pieces `ForwardedText` gives. */
  lemma TwiceMessageRewritten(a: string, b: string)
    requires a == "https://b" && b == " https://b"
    ensures [] + a + b == "https://b https://b"
  {
  }

  /** Every occurrence of the link is replaced, not only the first. */
  lemma EveryOccurrenceReplaced(s: string)
    requires s == "https://a https://a"
    ensures Decide(s, Stub) == Some("https://b https://b")
  {
    SearchTwiceMessage(s);
    ForwardedText(s, Stub, Span(0, 9), "https://b");
    assert s[..0] == "" && s[9..] == " https://a";
    TailRewritten(s[9..]);
    TwiceMessageRewritten("https://b", " https://b");
  }

  /** The link of `RejectedLinkNotForwarded` is found at position 4. */
  lemma SeeLinkAt4(s: string)
    requires s == "see http://x"
    ensures SearchFrom(s, 4) == Some(Span(4, 12)) && s[4..12] == "http://x"
  {
    assert s[4..] == "http://x";
    assert s[4..11] == s[4..][..7];
    assert NextSpace(s, 11) == 12;
  }

  /** The search of `RejectedLinkNotForwarded`: "see " holds no `h`, so the link at position 4 is the result. */
  lemma SearchSeeMessage(s: string)
    requires s == "see http://x"
    ensures Search(s) == Some(Span(4, 12)) && s[4..12] == "http://x"
  {
    SeeLinkAt4(s);
    assert s[0] == 's' && s[1] == 'e' && s[2] == 'e' && s[3] == ' ';
    SkipOne(s, 0); SkipOne(s, 1); SkipOne(s, 2); SkipOne(s, 3);
  }

  /** A link the API rejects is not forwarded. */
  lemma RejectedLinkNotForwarded(s: string)
    requires s == "see http://x"
    ensures Decide(s, Stub) == None
  {
    SearchSeeMessage(s);
    assert Stub("http://x") == Raised;
  }
}
