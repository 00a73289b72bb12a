/** The link filter of `getPropertyUrls` in `src/lib/firecrawl.ts`: each link
    the Firecrawl map call returns is cleaned of its query and fragment,
    trimmed, and kept (in its original form) when it ends in `/sv` followed by
    digits and an optional slash. The map call itself is an input. */
module Firecrawl {
  import opened Wrappers
  import opened Seqs
  import opened Text

  // ---------------------------------------------------------------------------
  // Cleaning

  /** `url.split("?")[0].split("#")[0].trim()`. */
  function CleanUrl(url: string): (r: string)
    ensures IsTrimmed(r)
    ensures '?' !in r && '#' !in r
    ensures Contains(url, r)
  {
    var noQuery := Before(url, '?');
    var noFragment := Before(noQuery, '#');
    var r := Trim(noFragment);
    PrefixContained(noFragment, noQuery);
    PrefixContained(noQuery, url);
    ContainsTrans(url, noQuery, noFragment);
    ContainsTrans(url, noFragment, r);
    r
  }

  /** Text up to a character it does not contain is cut back to itself. */
  lemma {:induction false} BeforeFirst(s: string, c: char, rest: string)
    requires c !in s
    ensures Before(s + [c] + rest, c) == s
    ensures Before(s, c) == s
  {
    var t := s + [c] + rest;
    var r := Before(t, c);
    assert t[|s|] == c;
    assert forall j :: 0 <= j < |s| ==> t[j] == s[j];
    if |r| < |s| {
      assert false;
    }
    if |r| > |s| {
      assert false;
    }
    assert r == t[..|s|];
  }
  /** Whatever follows the first `?` does not change the cleaned form. */
  lemma {:induction false} QueryIsIgnored(url: string, query: string)
    requires '?' !in url
    ensures CleanUrl(url + "?" + query) == CleanUrl(url)
  {
    BeforeFirst(url, '?', query);
  }

  /** A link free of queries and fragments is cleaned by trimming alone, so one
      already free of surrounding white space is its own cleaned form. */
  lemma {:induction false} CleanUrlKeepsCleanLinks(url: string)
    requires '?' !in url && '#' !in url
    ensures CleanUrl(url) == Trim(url)
    ensures IsTrimmed(url) ==> CleanUrl(url) == url
  {
    BeforeFirst(url, '?', "");
    BeforeFirst(url, '#', "");
    if IsTrimmed(url) {
      TrimTrimmed(url);
    }
  }

  /** Whatever follows the first `#` does not change the cleaned form, even a
      `?` inside the fragment. */
  lemma {:induction false} FragmentIsIgnored(url: string, fragment: string)
    requires '?' !in url && '#' !in url
    ensures CleanUrl(url + "#" + fragment) == CleanUrl(url)
  {
    var t := url + "#" + fragment;
    var noQuery := Before(t, '?');
    assert t[|url|] == '#';
    assert |noQuery| > |url|;
    var kept := noQuery[|url| + 1..];
    assert noQuery == url + "#" + kept by {
      assert noQuery[..|url| + 1] == t[..|url| + 1] == url + "#";
    }
    BeforeFirst(url, '#', kept);
    CleanUrlKeepsCleanLinks(url);
  }

  // ---------------------------------------------------------------------------
  // The pattern /\/sv\d+\/?$/i

  /** Length of the longest run of digits ending `s`. */
  function TrailingDigits(s: string): (n: nat)
    ensures n <= |s|
    ensures forall j :: |s| - n <= j < |s| ==> IsDigit(s[j])
    ensures n < |s| ==> !IsDigit(s[|s| - n - 1])
  {
    if |s| > 0 && IsDigit(s[|s| - 1]) then
      var n := TrailingDigits(s[..|s| - 1]);
      assert forall j :: |s| - 1 - n <= j < |s| - 1 ==> s[j] == s[..|s| - 1][j];
      n + 1
    else 0
  }

  /** The run of digits ending `s` has exactly the length of any maximal run. */
  lemma {:induction false} TrailingDigitsExact(s: string, m: nat)
    requires m <= |s|
    requires forall j :: |s| - m <= j < |s| ==> IsDigit(s[j])
    requires m < |s| ==> !IsDigit(s[|s| - m - 1])
    ensures TrailingDigits(s) == m
  {
  }

  /** The test as the regular expression reads it: from position `k`, a `/`,
      an `s` and a `v` in either case, one or more digits up to `end`, then
      the end of the text or a final `/`. */
  predicate PatternMatchesAt(c: string, k: nat, end: nat) {
    k + 4 <= end <= |c|
    && (end == |c| || (end == |c| - 1 && c[end] == '/'))
    && c[k] == '/' && LowerChar(c[k + 1]) == 's' && LowerChar(c[k + 2]) == 'v'
    && forall j :: k + 3 <= j < end ==> IsDigit(c[j])
  }

  /** The text without its final slash, if it has one. */
  function Body(c: string): (b: string)
    ensures |b| <= |c| && b == c[..|b|]
  {
    if |c| > 0 && c[|c| - 1] == '/' then c[..|c| - 1] else c
  }

  /** `propertyPattern.test(cleanUrl)`, computed from the end of the text. */
  predicate IsPropertyUrl(c: string) {
    var body := Body(c);
    var n := TrailingDigits(body);
    n >= 1 && |body| >= n + 3
    && body[|body| - n - 3] == '/'
    && LowerChar(body[|body| - n - 2]) == 's'
    && LowerChar(body[|body| - n - 1]) == 'v'
  }

  /** The computed test accepts exactly the texts the pattern matches somewhere. */
  lemma {:induction false} IsPropertyUrlMeansMatch(c: string)
    ensures IsPropertyUrl(c) <==> exists k: nat, end: nat :: PatternMatchesAt(c, k, end)
  {
    if IsPropertyUrl(c) {
      AcceptedHasMatch(c);
    }
    if exists k: nat, end: nat :: PatternMatchesAt(c, k, end) {
      var k: nat, end: nat :| PatternMatchesAt(c, k, end);
      MatchIsAccepted(c, k, end);
    }
  }

  lemma {:induction false} AcceptedHasMatch(c: string)
    requires IsPropertyUrl(c)
    ensures exists k: nat, end: nat :: PatternMatchesAt(c, k, end)
  {
    var body := Body(c);
    var n := TrailingDigits(body);
    var k := |body| - n - 3;
    assert forall j :: k + 3 <= j < |body| ==> c[j] == body[j];
    assert PatternMatchesAt(c, k, |body|);
  }

  lemma {:induction false} MatchIsAccepted(c: string, k: nat, end: nat)
    requires PatternMatchesAt(c, k, end)
    ensures IsPropertyUrl(c)
  {
    var body := Body(c);
    assert |body| == end by {
      if end == |c| {
        assert IsDigit(c[end - 1]);
      }
    }
    assert forall j :: 0 <= j < end ==> body[j] == c[j];
    assert !IsDigit(body[k + 2]);
    TrailingDigitsExact(body, end - k - 3);
  }

  /** A link in the expected shape passes, with or without the final slash. */
  lemma {:induction false} PropertyLinkShape(prefix: string, digits: string)
    requires |digits| > 0 && forall j :: 0 <= j < |digits| ==> IsDigit(digits[j])
    ensures IsPropertyUrl(prefix + "/sv" + digits)
    ensures IsPropertyUrl(prefix + "/SV" + digits + "/")
  {
    var a := prefix + "/sv" + digits;
    var b := prefix + "/SV" + digits + "/";
    assert PatternMatchesAt(a, |prefix|, |a|);
    assert PatternMatchesAt(b, |prefix|, |b| - 1);
    IsPropertyUrlMeansMatch(a);
    IsPropertyUrlMeansMatch(b);
  }

  // ---------------------------------------------------------------------------
  // getPropertyUrls

  /** The per-link test of the loop. */
  predicate KeepLink(url: string) {
    IsPropertyUrl(CleanUrl(url))
  }

  /** The links `getPropertyUrls` keeps: the originals whose cleaned form passes. */
  function PropertyLinks(links: seq<string>): (r: seq<string>)
    ensures IsSubsequence(r, links)
    ensures forall u :: u in r <==> u in links && KeepLink(u)
  {
    Filter(links, KeepLink)
  }

  /** The `for … of` loop of `getPropertyUrls`. */
  method CollectPropertyLinks(links: seq<string>) returns (filtered: seq<string>)
    ensures filtered == PropertyLinks(links)
    ensures multiset(filtered) <= multiset(links)
  {
    filtered := FilterLoop(links, KeepLink);
  }

  /** What the map call did: threw (with an `Error` message when the thrown
      value is an `Error`), or answered. */
  datatype MapOutcome =
    | MapThrew(message: Option<string>)
    | MapAnswered(success: bool, links: Option<seq<string>>)

  datatype UrlResponse = UrlResponse(urls: seq<string>, count: nat)

  const ErrPrefix := "Error processing URL: "
  const ErrMissingKey := "FIRECRAWL_API_KEY environment variable is required"
  const UnknownError := "Unknown error"

  /** `getPropertyUrls`, with the presence of the API key and the map call's
      outcome as inputs; a thrown error is the `Failure` case. */
  function GetPropertyUrls(hasApiKey: bool, outcome: MapOutcome): (r: Result<UrlResponse, string>)
    ensures !hasApiKey ==> r == Failure(ErrPrefix + ErrMissingKey)
    ensures hasApiKey && outcome.MapThrew? ==> r == Failure(ErrPrefix + outcome.message.GetOr(UnknownError))
    ensures hasApiKey && outcome.MapAnswered? ==> r.Success? && r.value.count == |r.value.urls|
    ensures hasApiKey && outcome.MapAnswered? && !(outcome.success && outcome.links.Some?) ==>
              r == Success(UrlResponse([], 0))
    ensures hasApiKey && outcome.MapAnswered? && outcome.success && outcome.links.Some? ==>
              r.value.urls == PropertyLinks(outcome.links.value)
  {
    if !hasApiKey then Failure(ErrPrefix + ErrMissingKey)
    else match outcome
      case MapThrew(message) => Failure(ErrPrefix + message.GetOr(UnknownError))
      case MapAnswered(success, links) =>
        if success && links.Some? then
          var urls := PropertyLinks(links.value);
          Success(UrlResponse(urls, |urls|))
        else Success(UrlResponse([], 0))
  }

  /** Every returned link is one the map returned and passes the pattern. */
  lemma {:induction false} ReturnedLinksPass(outcome: MapOutcome)
    requires GetPropertyUrls(true, outcome).Success?
    ensures forall u :: u in GetPropertyUrls(true, outcome).value.urls ==>
              outcome.MapAnswered? && outcome.links.Some? && u in outcome.links.value
              && KeepLink(u)
  {
  }
}
