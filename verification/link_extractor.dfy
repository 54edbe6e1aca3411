/**
 * The link extractor of ali_affiliate_forward.py: `re.search(r'https?://\S+', message)`
 * and `match.group(0)`.
 *
 * The declarative meaning of the regular expression is `PatternMatch` (which
 * spans it matches) and `IsSearchResult` (which of them `re.search` reports:
 * the leftmost start, and at that start the longest span, since `\S+` is
 * greedy). `Search` is a left-to-right scan, proved to report exactly that
 * span; `FindLinkInMessage` is the same scan written as loops.
 */
module LinkExtractor {
  import opened Wrappers

  /**
   * `\s` of a `str` pattern in Python's `re`: the characters for which
   * `str.isspace()` holds (ASCII tab to carriage return, the four
   * information separators, space, NEL, no-break space, and the Unicode
   * space separators, line and paragraph separators).
   */
  predicate IsSpace(c: char)
  {
    ('\t' <= c <= '\r') || ('\U{1C}' <= c <= '\U{1F}') || c == ' '
    || c == '\U{85}' || c == '\U{A0}' || c == '\U{1680}'
    || ('\U{2000}' <= c <= '\U{200A}') || c == '\U{2028}' || c == '\U{2029}'
    || c == '\U{202F}' || c == '\U{205F}' || c == '\U{3000}'
  }

  /** No character of s[from..to] is whitespace. */
  predicate NonSpace(s: string, from: nat, to: nat)
    requires from <= to <= |s|
  {
    forall k :: from <= k < to ==> !IsSpace(s[k])
  }

  /** `https?://\S+` matches exactly the span s[i..j]. */
  predicate PatternMatch(s: string, i: nat, j: nat)
  {
    j <= |s| &&
    ((i + 7 < j && s[i..i + 7] == "http://" && NonSpace(s, i + 7, j)) ||
     (i + 8 < j && s[i..i + 8] == "https://" && NonSpace(s, i + 8, j)))
  }

  /** Some span of s matches the pattern. */
  ghost predicate ContainsLink(s: string)
  {
    exists i: nat, j: nat :: PatternMatch(s, i, j)
  }

  /**
   * The span s[i..j] is what `re.search` reports: it matches, no match
   * starts further left, and no longer match starts at i.
   */
  ghost predicate IsSearchResult(s: string, i: nat, j: nat)
  {
    && PatternMatch(s, i, j)
    && (forall i': nat, j': nat :: PatternMatch(s, i', j') ==> i <= i')
    && (forall j': nat :: PatternMatch(s, i, j') ==> j' <= j)
  }

  /** A span reported by `re.search`: `match.start()` and `match.end()`. */
  datatype Span = Span(start: nat, end: nat)

  /** Length of the `https?://` prefix at position i of s, or 0 if there is none. */
  function SchemeLength(s: string, i: nat): (n: nat)
    ensures n == 0 || i + n <= |s|
    ensures n == 7 ==> s[i..i + 7] == "http://"
    ensures n == 8 ==> s[i..i + 8] == "https://"
    ensures n == 0 || n == 7 || n == 8
  {
    if i + 7 <= |s| && s[i..i + 7] == "http://" then 7
    else if i + 8 <= |s| && s[i..i + 8] == "https://" then 8
    else 0
  }

  /** The scan's test at position i: a scheme followed by one non-whitespace character. */
  predicate StartsLink(s: string, i: nat)
  {
    var n := SchemeLength(s, i);
    n != 0 && i + n < |s| && !IsSpace(s[i + n])
  }

  /** The first whitespace position at or after k, or |s|: how far `\S+` extends. */
  function NextSpace(s: string, k: nat): (e: nat)
    requires k <= |s|
    ensures k <= e <= |s|
    ensures NonSpace(s, k, e)
    ensures e == |s| || IsSpace(s[e])
    decreases |s| - k
  {
    if k == |s| || IsSpace(s[k]) then k else NextSpace(s, k + 1)
  }

  /** The scan from position k onwards. */
  function SearchFrom(s: string, k: nat): (m: Option<Span>)
    requires k <= |s|
    ensures m.Some? ==> k <= m.value.start && PatternMatch(s, m.value.start, m.value.end)
    ensures m.Some? ==> m.value.end == |s| || IsSpace(s[m.value.end])
    ensures forall i :: k <= i < (if m.Some? then m.value.start else |s|) ==> !StartsLink(s, i)
    decreases |s| - k
  {
    if k == |s| then None
    else if StartsLink(s, k) then
      var n := SchemeLength(s, k);
      Some(Span(k, NextSpace(s, k + n)))
    else SearchFrom(s, k + 1)
  }

  /** `re.search(r'https?://\S+', s)`: the span of the match, or None. */
  function Search(s: string): (m: Option<Span>)
    ensures m.Some? ==> PatternMatch(s, m.value.start, m.value.end)
  {
    SearchFrom(s, 0)
  }

  /** `find_link_in_message`: the text of the match (`match.group(0)`), or None. */
  function FindLink(message: string): (link: Option<string>)
    ensures link.Some? ==> |link.value| > 7 && PatternMatch(link.value, 0, |link.value|)
  {
    match Search(message)
    case None => None
    case Some(m) =>
      PatternMatchSlice(message, m.start, m.end);
      Some(message[m.start..m.end])
  }

  /** `https://` at position i rules out `http://` there: the fifth characters differ. */
  lemma HttpsIsNotHttp(s: string, i: nat)
    requires i + 8 <= |s| && s[i..i + 8] == "https://"
    ensures s[i..i + 7] != "http://"
  {
    assert s[i..i + 7][4] == s[i..i + 8][4];
  }

  /** A scheme that is present is recognised: 7 exactly for `http://`, 8 exactly for `https://`. */
  lemma SchemeLengthExact(s: string, i: nat)
    ensures (i + 7 <= |s| && s[i..i + 7] == "http://") <==> SchemeLength(s, i) == 7
    ensures (i + 8 <= |s| && s[i..i + 8] == "https://") <==> SchemeLength(s, i) == 8
  {
    if i + 8 <= |s| && s[i..i + 8] == "https://" {
      HttpsIsNotHttp(s, i);
    }
  }

  /** The scan's test agrees with the pattern: a match starts at i exactly when the test holds there. */
  lemma StartsLinkIff(s: string, i: nat)
    ensures StartsLink(s, i) <==> exists j: nat :: PatternMatch(s, i, j)
  {
    if StartsLink(s, i) {
      var n := SchemeLength(s, i);
      assert PatternMatch(s, i, i + n + 1);
    }
    if j: nat :| PatternMatch(s, i, j) {
      if i + 8 < j && s[i..i + 8] == "https://" {
        HttpsIsNotHttp(s, i);
        assert SchemeLength(s, i) == 8;
      } else {
        assert SchemeLength(s, i) == 7;
      }
    }
  }

  /** Shifting a whitespace-free range of s into the slice s[i..j]. */
  lemma NonSpaceSlice(s: string, i: nat, j: nat, p: nat)
    requires i <= j <= |s| && p <= j - i
    ensures NonSpace(s[i..j], p, j - i) <==> NonSpace(s, i + p, j)
  {
    var t := s[i..j];
    if NonSpace(s, i + p, j) {
      forall k | p <= k < j - i ensures !IsSpace(t[k]) { assert t[k] == s[i + k]; }
    }
    if NonSpace(t, p, j - i) {
      forall k | i + p <= k < j ensures !IsSpace(s[k]) { assert s[k] == t[k - i]; }
    }
  }

  /** A matching span of s is a string that matches the pattern as a whole, and conversely. */
  lemma PatternMatchSlice(s: string, i: nat, j: nat)
    requires i <= j <= |s|
    ensures PatternMatch(s, i, j) <==> PatternMatch(s[i..j], 0, j - i)
  {
    var t := s[i..j];
    if j - i >= 7 {
      assert t[..7] == s[i..i + 7];
      NonSpaceSlice(s, i, j, 7);
    }
    if j - i >= 8 {
      assert t[..8] == s[i..i + 8];
      NonSpaceSlice(s, i, j, 8);
    }
  }

  /** Every match starting at i ends no later than the first whitespace after the scheme. */
  lemma LongestAt(s: string, i: nat, j: nat)
    requires StartsLink(s, i) && PatternMatch(s, i, j)
    ensures j <= NextSpace(s, i + SchemeLength(s, i))
  {
  }

  /**
   * The scan reports exactly what `re.search` reports: the leftmost, then
   * longest, match; and it reports nothing exactly when nothing matches.
   */
  lemma {:induction false} SearchCorrect(s: string)
    ensures Search(s).Some? ==> IsSearchResult(s, Search(s).value.start, Search(s).value.end)
    ensures Search(s).None? <==> !ContainsLink(s)
  {
    var m := Search(s);
    if m.Some? {
      var i, j := m.value.start, m.value.end;
      StartsLinkIff(s, i);
      forall i': nat, j': nat | PatternMatch(s, i', j') ensures i <= i' {
        StartsLinkIff(s, i');
      }
      forall j': nat | PatternMatch(s, i, j') ensures j' <= j {
        LongestAt(s, i, j');
      }
    } else {
      forall i: nat, j: nat ensures !PatternMatch(s, i, j) {
        StartsLinkIff(s, i);
      }
    }
  }

  /**
   * `find_link_in_message` returns the text of the leftmost, then longest,
   * match, and None exactly when no span of the message matches.
   */
  lemma FindLinkCorrect(message: string)
    ensures FindLink(message).None? <==> !ContainsLink(message)
    ensures FindLink(message).Some? ==>
              exists i: nat, j: nat :: IsSearchResult(message, i, j) && i <= j <= |message| && FindLink(message).value == message[i..j]
  {
    SearchCorrect(message);
  }

  /** No span starting left of the reported match matches: the search is leftmost. */
  lemma NoMatchBeforeSearch(s: string, m: Span, k: nat, j: nat)
    requires Search(s) == Some(m) && k < m.start
    ensures !PatternMatch(s, k, j)
  {
    StartsLinkIff(s, k);
  }

  /** The report of `re.search` is determined by the text: at most one span is the search result. */
  lemma SearchResultUnique(s: string, i: nat, j: nat, i': nat, j': nat)
    requires IsSearchResult(s, i, j) && IsSearchResult(s, i', j')
    ensures i == i' && j == j'
  {
  }

  /**
   * `find_link_in_message` as the source runs it: a left-to-right scan for the
   * first position where a link starts, then a scan to the next whitespace.
   */
  method FindLinkInMessage(message: string) returns (link: Option<string>)
    ensures link == FindLink(message)
  {
    var i := 0;
    while i < |message| && !StartsLink(message, i)
      invariant 0 <= i <= |message|
      invariant SearchFrom(message, i) == SearchFrom(message, 0)
    {
      i := i + 1;
    }
    if i == |message| {
      return None;
    }
    var j := i + SchemeLength(message, i);
    while j < |message| && !IsSpace(message[j])
      invariant i < j <= |message|
      invariant NextSpace(message, j) == NextSpace(message, i + SchemeLength(message, i))
    {
      j := j + 1;
    }
    link := Some(message[i..j]);
  }
}
