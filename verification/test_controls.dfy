/** The test-URL limit input of `src/components/scraping/TestControls.tsx`:
    whatever is typed is clamped before it becomes the page's `urlTestLimit`. */
module TestControls {
  import opened Wrappers
  import opened Arith
  import ScrapingClient

  /** `Math.max(1, Math.min(urlsCount, parseInt(value) || 1))`; `parsed` is
      `None` when `parseInt` gives `NaN`, and `0` counts as missing too. */
  function ClampLimit(urlsCount: int, parsed: Option<int>): (r: int)
    ensures r >= 1
    ensures urlsCount >= 1 ==> r <= urlsCount
    ensures parsed.Some? && 1 <= parsed.value <= urlsCount ==> r == parsed.value
    ensures parsed.None? || parsed.value <= 0 ==> r == 1
    ensures urlsCount <= 1 ==> r == 1
    ensures parsed.Some? && 1 <= urlsCount <= parsed.value ==> r == urlsCount
  {
    var wanted := if parsed.None? || parsed.value == 0 then 1 else parsed.value;
    var capped := if urlsCount < wanted then urlsCount else wanted;
    if capped < 1 then 1 else capped
  }

  /** Clamping a clamped limit changes nothing. */
  lemma {:induction false} ClampIsIdempotent(urlsCount: int, parsed: Option<int>)
    ensures ClampLimit(urlsCount, Some(ClampLimit(urlsCount, parsed))) == ClampLimit(urlsCount, parsed)
  {
  }

  /** Typing a larger number never gives a smaller limit. */
  lemma {:induction false} ClampIsMonotone(urlsCount: int, a: int, b: int)
    requires 1 <= a <= b
    ensures ClampLimit(urlsCount, Some(a)) <= ClampLimit(urlsCount, Some(b))
  {
  }

  /** With a filtered list the limit was clamped against, a test run picks
      exactly `limit` URLs, the first ones. */
  lemma {:induction false} ClampedLimitIsHonoured(filtered: seq<string>, parsed: Option<int>)
    requires |filtered| > 0
    ensures var limit := ClampLimit(|filtered|, parsed);
            ScrapingClient.TestUrls(filtered, limit) == Success(filtered[..limit])
  {
    var limit := ClampLimit(|filtered|, parsed);
    ScrapingClient.TestUrlsArePrefix(filtered, limit);
  }
}
