# aliforward: the forwarding decision, in Dafny

This project models the text logic of `ali_affiliate_forward.py`, a bot that
watches a Telegram channel. It reposts a message to a second channel only when
the message carries an `http(s)://` link for which the AliExpress API gives a
non-empty affiliate link. Before reposting, it replaces every occurrence of the
first such link by the affiliate link. A message with no link, or whose API
call raises, returns no records or gives an empty promotion link, is not
reposted. The model covers three parts of that logic:

- **Link extraction** (`find_link_in_message`). This is
  `re.search(r'https?://\S+', message)` followed by `match.group(0)`.
  - `LinkExtractor.PatternMatch` says which spans the regular expression matches.
  - `LinkExtractor.IsSearchResult` says which match `re.search` reports: the leftmost one, and the longest one at that start.
  - `LinkExtractor.Search` is a left-to-right scan, and `SearchCorrect` proves it reports exactly that match.
  - `FindLinkInMessage` runs the same scan as loops and is proved equal to `FindLink`.
  - `IsSpace` is Python's `\s` for `str` patterns: exactly the characters for which `str.isspace()` holds.
- **Affiliate link selection** (`generate_affiliate_link`). The AliExpress SDK call is replaced by an input.
  - That input is a function from the URL to what `get_affiliate_links` did: it raised (`Raised`), or it returned a list of records (`Returned`).
  - The generator returns the first record's `promotion_link`, or None.
- **The handler** (`message_handler`).
  - `Forwarder.Decide` is the handler as a function. It gives the text the handler sends, or None when it sends nothing.
  - `Forwarder.MessageHandler` is the handler as the source runs it. It overwrites the message object's text in place, then sends that text through the client.
  - The rewrite is Python's `str.replace`, modelled by `StrReplace.ReplaceAll` and the loop `StrReplace.Replace`. It replaces every non-overlapping occurrence, scanning left to right, not just the first. The model follows the code here.

`Scenarios` proves what the model gives for concrete messages: a link inside a word, a
bare scheme that is skipped, an end-to-end rewrite, a link that occurs twice,
and a link the API rejects.

## Model

| member | source | states |
|---|---|---|
| `LinkExtractor.IsSpace` | ali_affiliate_forward.py:63 | defines `\s`: exactly the characters for which `str.isspace()` holds |
| `LinkExtractor.PatternMatch` | ali_affiliate_forward.py:63 | defines which spans `https?://\S+` matches: `http://` or `https://` followed by at least one non-whitespace character, and only non-whitespace up to the end of the span |
| `LinkExtractor.IsSearchResult` | ali_affiliate_forward.py:63 | defines the span `re.search` reports: a match with no match starting further left and no longer match at the same start |
| `LinkExtractor.NextSpace` | ali_affiliate_forward.py:63 | `\S+` runs greedily: the result is the first whitespace position at or after the start (or the end of the text), and nothing in between is whitespace |
| `LinkExtractor.SchemeLength` | ali_affiliate_forward.py:63 | the result is 0, 7 or 8; 7 only where `http://` starts, 8 only where `https://` starts |
| `LinkExtractor.SchemeLengthExact` | ali_affiliate_forward.py:63 | a scheme that is present is recognised: the length is 7 exactly when `http://` starts at the position, and 8 exactly when `https://` does |
| `LinkExtractor.HttpsIsNotHttp` | ali_affiliate_forward.py:63 | the two alternatives of `https?` cannot both match at one position |
| `LinkExtractor.StartsLinkIff` | ali_affiliate_forward.py:63 | the scan's test at a position (a scheme followed by a non-whitespace character) holds exactly when some span starting there matches the pattern |
| `LinkExtractor.SearchFrom` | ali_affiliate_forward.py:63 | the scan from k reports a matching span that starts at or after k and ends at whitespace or at the end of the text, and no link starts between k and that span |
| `LinkExtractor.Search` | ali_affiliate_forward.py:63 | a reported span matches `https?://\S+` |
| `LinkExtractor.LongestAt` | ali_affiliate_forward.py:63 | no match starting at a position extends beyond the first whitespace after its scheme |
| `LinkExtractor.SearchCorrect` | ali_affiliate_forward.py:63-68 | the scan reports the leftmost match and the longest one at that start, and reports nothing exactly when no span of the message matches |
| `LinkExtractor.NoMatchBeforeSearch` | ali_affiliate_forward.py:63 | no span starting left of the reported match matches the pattern |
| `LinkExtractor.SearchResultUnique` | ali_affiliate_forward.py:63 | at most one span is the search result |
| `LinkExtractor.PatternMatchSlice` | ali_affiliate_forward.py:63-65 | a span matches inside the message exactly when the substring, taken alone, matches the pattern as a whole |
| `LinkExtractor.FindLink` | ali_affiliate_forward.py:62-68 | a returned link is longer than 7 characters, starts with `http://` or `https://` followed by a non-whitespace character, and contains no whitespace |
| `LinkExtractor.FindLinkCorrect` | ali_affiliate_forward.py:62-68 | `find_link_in_message` returns None exactly when no span of the message matches, and otherwise the text of the leftmost, then longest, match |
| `LinkExtractor.FindLinkInMessage` | ali_affiliate_forward.py:62-68 | the loop scan returns the same result as `FindLink` |
| `StrReplace.ReplaceAll` | ali_affiliate_forward.py:51 | defines `str.replace` with no count: scanning left to right, each occurrence of the pattern is replaced and scanning resumes after it, and every other character is copied |
| `StrReplace.ReplaceAllSkip` | ali_affiliate_forward.py:51 | text before the first occurrence of the pattern is copied unchanged |
| `StrReplace.ReplaceAllFirst` | ali_affiliate_forward.py:51 | the first occurrence is replaced and replacing continues after it, so occurrences do not overlap |
| `StrReplace.ReplaceAllNoOccurrence` | ali_affiliate_forward.py:51 | text in which the pattern does not occur is unchanged |
| `StrReplace.ReplaceAllByItself` | ali_affiliate_forward.py:51 | replacing a pattern by itself changes nothing |
| `StrReplace.Replace` | ali_affiliate_forward.py:51 | the find-copy-resume loop of `str.replace` returns `ReplaceAll` of its inputs |
| `AffiliateLinks.GenerateAffiliateLink` | ali_affiliate_forward.py:71-80 | None when the call raised or returned no record; otherwise the first record's promotion link |
| `AffiliateLinks.LaterRecordsIgnored` | ali_affiliate_forward.py:74-75 | records after the first never change the result |
| `AffiliateLinks.OnlyQueriedLinkMatters` | ali_affiliate_forward.py:73 | only the API's answer for the extracted link matters |
| `Forwarder.Decide` | ali_affiliate_forward.py:45-57 | the handler's decision: None unless a link is found and the first record's promotion link is non-empty, otherwise the message with every occurrence of the link replaced by the affiliate link; text is only ever sent for a message that contains a link |
| `Forwarder.FirstOccurrenceAtMatch` | ali_affiliate_forward.py:48-51 | the extracted link first occurs where the match starts; an earlier occurrence would be an earlier match |
| `Forwarder.NoLinkNotForwarded` | ali_affiliate_forward.py:45-57 | a message in which no span matches is not forwarded |
| `Forwarder.NoAffiliateLinkNotForwarded` | ali_affiliate_forward.py:49-55 | an API failure, an empty list, or a missing or empty promotion link means nothing is sent |
| `Forwarder.ForwardedIff` | ali_affiliate_forward.py:48-55 | once the search finds a link, the message is forwarded exactly when the first record for that link has a non-empty promotion link |
| `Forwarder.ForwardedText` | ali_affiliate_forward.py:51 | the outbound text keeps everything before the link, puts the affiliate link in its place, and replaces every later occurrence of the link |
| `Forwarder.ForwardedSingleOccurrence` | ali_affiliate_forward.py:51 | when the link occurs once, only the link's span changes |
| `Forwarder.Client.SendMessage` | ali_affiliate_forward.py:52 | sending appends (chat, text) to the client's log of sent messages |
| `Forwarder.MessageHandler` | ali_affiliate_forward.py:43-57 | the message text is overwritten and sent to the target channel exactly when `Decide` gives an outbound text; otherwise neither the message nor the client changes |
| `Scenarios.LinkInsideWord` | ali_affiliate_forward.py:63-65 | `"foohttps://a"` yields `"https://a"` |
| `Scenarios.BareSchemeSkipped` | ali_affiliate_forward.py:63-65 | `"http:// http://y"` yields `"http://y"`: a scheme followed by a space starts no link |
| `Scenarios.EndToEnd` | ali_affiliate_forward.py:45-52 | `"Buy https://a now"` goes out as `"Buy https://b now"` when the first record's promotion link is `https://b` |
| `Scenarios.EveryOccurrenceReplaced` | ali_affiliate_forward.py:51 | `"https://a https://a"` goes out with both occurrences replaced |
| `Scenarios.RejectedLinkNotForwarded` | ali_affiliate_forward.py:49-55 | a link for which the API raises is not forwarded |

## Left out

- Telegram client construction, `start_client`, event registration, `run_until_disconnected` and `asyncio.run` (lines 26, 33-39, 42, 83-92). These are network and event-loop plumbing. `send_message` is reduced to a log of (chat id, text) pairs in `Forwarder.Client`.
- The AliExpress SDK client and `get_affiliate_links` (lines 23, 73). This is a foreign library. Its outcome for a URL is an input function.
- Environment loading and the `int(os.getenv(...))` configuration (lines 10-20). The target channel id is a parameter of `MessageHandler`.
- Logging (lines 29-30 and every `logger` call). It does not affect what is sent.
- The top-level `try`/`except` of the handler (lines 44, 58-59). No modelled operation raises. A failing send is I/O and is not modelled. So is a message text that is not a string.
- Telegram message entities and media. The model sends only the text. Formatting offsets are not updated after the rewrite.
- Python strings may hold lone surrogate code points. Dafny's `char` cannot.
- StrReplace.Replace: requires a non-empty pattern. Python's `str.replace` with an empty pattern inserts the replacement between characters. Line 51 never does this, because an extracted link always has more than 7 characters.
