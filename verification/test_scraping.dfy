/** The `POST` handler of `src/app/api/test-scraping/route.ts`: request
    validation, one result per URL in input order, the server-sent event
    sequence of the streaming path, the plain JSON reply of the other path,
    and the success/error summary. Fetching a page and extracting its data
    are an input (an oracle from the URL's position and text to an outcome);
    processing times and their average are not modelled. */
module TestScraping {
  import opened Wrappers
  import opened Seqs
  import opened Text
  import CustomLlm

  // ---------------------------------------------------------------------------
  // Results

  /** The record the language model extracted from a page (its JSON text). */
  datatype Extracted = Extracted(json: string)

  /** `ScrapingResult` without `processingTime`; `data` is `None` for `null`
      and `error` is `None` for `undefined`. */
  datatype ScrapingResult = ScrapingResult(url: string, data: Option<Extracted>, error: Option<string>)

  /** What processing one URL came to: a thrown error (with its message when
      the thrown value is an `Error`), a page without markdown, or data. */
  datatype FetchOutcome =
    | Threw(message: Option<string>)
    | NoMarkdown
    | Analysed(data: Extracted)

  /** Processing the URL at a position: page fetch followed by extraction. */
  type Fetcher = (nat, string) -> FetchOutcome

  const ErrNoContent := "No content extracted"
  const ErrUnknown := "Unknown error"

  /** The result pushed for one URL. */
  function ResultFor(url: string, outcome: FetchOutcome): (r: ScrapingResult)
    ensures r.url == url
    ensures r.data.None? <==> !outcome.Analysed?
    ensures r.data.None? ==> r.error.Some?
    ensures outcome == NoMarkdown ==> r.error == Some(ErrNoContent)
    ensures outcome.Threw? ==> r.error == Some(outcome.message.GetOr(ErrUnknown))
    ensures outcome.Analysed? ==> r.data == Some(outcome.data) && r.error.None?
  {
    match outcome
    case Threw(message) => ScrapingResult(url, None, Some(message.GetOr(ErrUnknown)))
    case NoMarkdown => ScrapingResult(url, None, Some(ErrNoContent))
    case Analysed(data) => ScrapingResult(url, Some(data), None)
  }

  /** The result list after the first `n` URLs: the loop body run in order. */
  function ResultsUpTo(urls: seq<string>, fetch: Fetcher, n: nat): (rs: seq<ScrapingResult>)
    requires n <= |urls|
    ensures |rs| == n
    ensures forall i :: 0 <= i < n ==> rs[i] == ResultFor(urls[i], fetch(i, urls[i]))
  {
    if n == 0 then [] else ResultsUpTo(urls, fetch, n - 1) + [ResultFor(urls[n - 1], fetch(n - 1, urls[n - 1]))]
  }

  function Results(urls: seq<string>, fetch: Fetcher): seq<ScrapingResult> {
    ResultsUpTo(urls, fetch, |urls|)
  }

  /** Result lists only grow: the list after `m` URLs starts the list after `n`. */
  lemma {:induction false} ResultsPrefix(urls: seq<string>, fetch: Fetcher, m: nat, n: nat)
    requires m <= n <= |urls|
    ensures ResultsUpTo(urls, fetch, m) == ResultsUpTo(urls, fetch, n)[..m]
  {
  }

  predicate Succeeded(r: ScrapingResult) { r.data.Some? }
  predicate Failed(r: ScrapingResult) { r.data.None? }

  /** `summary` without `averageProcessingTime`. */
  datatype Summary = Summary(total: nat, successful: nat, errors: nat)

  function Summarize(total: nat, results: seq<ScrapingResult>): (s: Summary)
    ensures s.total == total
    ensures s.successful + s.errors == |results|
    ensures s.successful == |Filter(results, Succeeded)|
  {
    FilterSplitsLength(results, Succeeded, Failed);
    Summary(total, |Filter(results, Succeeded)|, |Filter(results, Failed)|)
  }

  /** The summary counts every URL once, as a success exactly when data came back. */
  lemma {:induction false} SummaryCountsEveryUrl(urls: seq<string>, fetch: Fetcher)
    ensures var s := Summarize(|urls|, Results(urls, fetch));
            s.successful + s.errors == s.total
            && s.successful == |Filter(Results(urls, fetch), Succeeded)|
            && (forall i :: 0 <= i < |urls| ==>
                  (Succeeded(Results(urls, fetch)[i]) <==> fetch(i, urls[i]).Analysed?))
  {
  }

  // ---------------------------------------------------------------------------
  // The two response paths

  /** The loop of `handleTraditionalRequest`. */
  method TraditionalResults(urls: seq<string>, fetch: Fetcher) returns (results: seq<ScrapingResult>)
    ensures |results| == |urls|
    ensures forall i :: 0 <= i < |urls| ==> results[i].url == urls[i]
    ensures forall i :: 0 <= i < |urls| ==> results[i] == ResultFor(urls[i], fetch(i, urls[i]))
  {
    results := [];
    for i := 0 to |urls|
      invariant |results| == i
      invariant forall j :: 0 <= j < i ==> results[j] == ResultFor(urls[j], fetch(j, urls[j]))
    {
      results := results + [ResultFor(urls[i], fetch(i, urls[i]))];
    }
  }

  /** A server-sent event. A `result` event has no `currentUrl` (shown as "");
      only `complete` carries a summary. The `result` field of a `result`
      event (the newest result alone) is not kept: it is the last entry of
      `results`. */
  datatype Event = Event(kind: string, current: nat, total: nat, currentUrl: string,
                         results: seq<ScrapingResult>, summary: Option<Summary>)

  /** The two events sent for URL `i`: progress before it, its result after. */
  function UrlEvents(urls: seq<string>, fetch: Fetcher, i: nat): seq<Event>
    requires i < |urls|
  {
    [Event("progress", i, |urls|, urls[i], ResultsUpTo(urls, fetch, i), None),
     Event("result", i + 1, |urls|, "", ResultsUpTo(urls, fetch, i + 1), None)]
  }

  /** Events sent by the loop for the first `n` URLs. */
  function LoopEvents(urls: seq<string>, fetch: Fetcher, n: nat): (es: seq<Event>)
    requires n <= |urls|
    ensures |es| == 2 * n
    ensures forall i :: 0 <= i < n ==> es[2 * i] == UrlEvents(urls, fetch, i)[0]
    ensures forall i :: 0 <= i < n ==> es[2 * i + 1] == UrlEvents(urls, fetch, i)[1]
  {
    if n == 0 then []
    else
      var prev := LoopEvents(urls, fetch, n - 1);
      var es := prev + UrlEvents(urls, fetch, n - 1);
      assert es[2 * (n - 1)] == UrlEvents(urls, fetch, n - 1)[0];
      assert es[2 * (n - 1) + 1] == UrlEvents(urls, fetch, n - 1)[1];
      es
  }

  /** The event sent after the loop. */
  function CompleteEvent(urls: seq<string>, fetch: Fetcher): Event {
    var results := Results(urls, fetch);
    Event("complete", |urls|, |urls|, "", results, Some(Summarize(|urls|, results)))
  }

  /** Every event `handleStreamingRequest` writes, in order. */
  function StreamEvents(urls: seq<string>, fetch: Fetcher): (es: seq<Event>)
    ensures |es| == 2 * |urls| + 2
  {
    [Event("progress", 0, |urls|, "", [], None)] + LoopEvents(urls, fetch, |urls|) + [CompleteEvent(urls, fetch)]
  }

  /** The stream opens with an empty progress event at 0. */
  lemma {:induction false} StreamOpens(urls: seq<string>, fetch: Fetcher)
    ensures StreamEvents(urls, fetch)[0] == Event("progress", 0, |urls|, "", [], None)
  {
  }

  /** URL `i` is announced with `current = i`, its text, and the results so far. */
  lemma {:induction false} StreamAnnounces(urls: seq<string>, fetch: Fetcher, i: nat)
    requires i < |urls|
    ensures StreamEvents(urls, fetch)[2 * i + 1]
         == Event("progress", i, |urls|, urls[i], Results(urls, fetch)[..i], None)
  {
    var loop := LoopEvents(urls, fetch, |urls|);
    MiddleIndex(Event("progress", 0, |urls|, "", [], None), loop, CompleteEvent(urls, fetch), 2 * i + 1);
    ResultsPrefix(urls, fetch, i, |urls|);
  }

  /** URL `i`'s result follows with `current = i + 1` and a list ending in it. */
  lemma {:induction false} StreamReports(urls: seq<string>, fetch: Fetcher, i: nat)
    requires i < |urls|
    ensures StreamEvents(urls, fetch)[2 * i + 2]
         == Event("result", i + 1, |urls|, "", Results(urls, fetch)[..i + 1], None)
    ensures Results(urls, fetch)[..i + 1][i].url == urls[i]
  {
    var loop := LoopEvents(urls, fetch, |urls|);
    var results := Results(urls, fetch);
    assert StreamEvents(urls, fetch)[2 * i + 2] == loop[2 * i + 1] by {
      MiddleIndex(Event("progress", 0, |urls|, "", [], None), loop, CompleteEvent(urls, fetch), 2 * i + 2);
    }
    assert loop[2 * i + 1] == UrlEvents(urls, fetch, i)[1];
    assert ResultsUpTo(urls, fetch, i + 1) == results[..i + 1] by {
      ResultsPrefix(urls, fetch, i + 1, |urls|);
    }
    assert results[..i + 1][i] == results[i];
  }

  /** The last event completes with `current = total`, every result, and
      the summary the JSON path reports. */
  lemma {:induction false} StreamCompletes(urls: seq<string>, fetch: Fetcher)
    ensures var es := StreamEvents(urls, fetch);
            es[|es| - 1] == Event("complete", |urls|, |urls|, "", Results(urls, fetch),
                                  Some(Summarize(|urls|, Results(urls, fetch))))
  {
  }

  /** Every event reports the number of URLs as `total`. */
  lemma {:induction false} StreamTotals(urls: seq<string>, fetch: Fetcher)
    ensures forall k :: 0 <= k < |StreamEvents(urls, fetch)| ==> StreamEvents(urls, fetch)[k].total == |urls|
  {
    var first := Event("progress", 0, |urls|, "", [], None);
    var loop := LoopEvents(urls, fetch, |urls|);
    var last := CompleteEvent(urls, fetch);
    assert last.total == |urls|;
    assert StreamEvents(urls, fetch) == [first] + loop + [last];
    LoopTotals(urls, fetch, |urls|);
    AllTotalAppend([first], loop, |urls|);
    AllTotalAppend([first] + loop, [last], |urls|);
  }

  /** Every event of `es` reports `n` as `total`. */
  predicate AllTotal(es: seq<Event>, n: nat) {
    forall k :: 0 <= k < |es| ==> es[k].total == n
  }

  lemma {:induction false} AllTotalAppend(a: seq<Event>, b: seq<Event>, n: nat)
    requires AllTotal(a, n) && AllTotal(b, n)
    ensures AllTotal(a + b, n)
  {
    forall k | 0 <= k < |a + b|
      ensures (a + b)[k].total == n
    {
      if k >= |a| {
        assert (a + b)[k] == b[k - |a|];
      }
    }
  }

  /** Every event of the loop reports the number of URLs as `total`. */
  lemma {:induction false} LoopTotals(urls: seq<string>, fetch: Fetcher, n: nat)
    requires n <= |urls|
    ensures AllTotal(LoopEvents(urls, fetch, n), |urls|)
  {
    if n > 0 {
      LoopTotals(urls, fetch, n - 1);
      var u := UrlEvents(urls, fetch, n - 1);
      assert AllTotal(u, |urls|) by {
        assert u[0].total == |urls| && u[1].total == |urls|;
      }
      AllTotalAppend(LoopEvents(urls, fetch, n - 1), u, |urls|);
    }
  }

  // ---------------------------------------------------------------------------
  // The handler

  /** The `dataFields` value of the request's `config`: falsy (missing,
      `null`, `""`, `0`, ...), an array of fields, or some other truthy value,
      of which only whether its `length` is the number 0 matters. */
  datatype DataFieldsValue =
    | Falsy
    | FieldArray(fields: seq<CustomLlm.DataField>)
    | OtherTruthy(lengthIsZero: bool)

  /** `config` as the request carries it. */
  datatype ConfigBody = ConfigBody(dataFields: DataFieldsValue)

  /** `await request.json()`: unreadable (with the thrown `Error`'s message,
      if any) or a body whose `urls` is `None` when missing or not an array. */
  datatype RequestBody =
    | Unreadable(message: Option<string>)
    | Body(urls: Option<seq<string>>, config: Option<ConfigBody>)

  datatype Reply =
    | BadRequest(error: string)
    | ServerError(error: string)
    | EventStream(events: seq<Event>)
    | JsonReply(results: seq<ScrapingResult>, summary: Summary)

  const ErrUrls := "URLs array is required and must not be empty"
  const ErrConfig := "Valid configuration with data fields is required"
  const ErrFailed := "Failed to process test scraping"
  const EventStreamType := "text/event-stream"

  /** The URLs pass validation. */
  predicate UrlsValid(urls: Option<seq<string>>) {
    urls.Some? && |urls.value| > 0
  }

  /** The config passes validation: `!config || !config.dataFields ||
      config.dataFields.length === 0` is false. A truthy `dataFields` that is
      not an array passes unless its `length` is 0. */
  predicate ConfigValid(config: Option<ConfigBody>) {
    config.Some?
    && match config.value.dataFields
       case Falsy => false
       case FieldArray(fields) => |fields| > 0
       case OtherTruthy(lengthIsZero) => !lengthIsZero
  }

  /** `POST`, given the body, the `Accept` header and the per-URL outcomes. */
  function Post(body: RequestBody, accept: Option<string>, fetch: Fetcher): (r: Reply)
    ensures body.Unreadable? ==> r == ServerError(body.message.GetOr(ErrFailed))
    ensures body.Body? && !UrlsValid(body.urls) ==> r == BadRequest(ErrUrls)
    ensures body.Body? && UrlsValid(body.urls) && !ConfigValid(body.config) ==> r == BadRequest(ErrConfig)
    ensures r.EventStream? || r.JsonReply? <==> body.Body? && UrlsValid(body.urls) && ConfigValid(body.config)
    ensures body.Body? && UrlsValid(body.urls) && ConfigValid(body.config) ==>
              (r.EventStream? <==> accept.Some? && Contains(accept.value, EventStreamType))
    ensures r.JsonReply? ==> |r.results| == |body.urls.value| && r.summary.total == |body.urls.value|
    ensures r.JsonReply? ==>
              (forall i :: 0 <= i < |body.urls.value| ==> r.results[i] == ResultFor(body.urls.value[i], fetch(i, body.urls.value[i])))
              && r.summary == Summarize(|body.urls.value|, r.results)
    ensures r.EventStream? ==> |r.events| == 2 * |body.urls.value| + 2
    ensures r.EventStream? ==> r.events == StreamEvents(body.urls.value, fetch)
  {
    match body
    case Unreadable(message) => ServerError(message.GetOr(ErrFailed))
    case Body(urls, config) =>
      if !UrlsValid(urls) then BadRequest(ErrUrls)
      else if !ConfigValid(config) then BadRequest(ErrConfig)
      else if accept.Some? && Contains(accept.value, EventStreamType) then
        EventStream(StreamEvents(urls.value, fetch))
      else
        var results := Results(urls.value, fetch);
        JsonReply(results, Summarize(|urls.value|, results))
  }

  /** Both paths report the same results and the same summary. */
  lemma {:induction false} PathsAgree(urls: seq<string>, config: ConfigBody, fetch: Fetcher, accept: string)
    requires |urls| > 0 && ConfigValid(Some(config))
    requires Contains(accept, EventStreamType)
    ensures var stream := Post(Body(Some(urls), Some(config)), Some(accept), fetch);
            var json := Post(Body(Some(urls), Some(config)), None, fetch);
            stream.EventStream? && json.JsonReply?
            && stream.events[|stream.events| - 1].results == json.results
            && stream.events[|stream.events| - 1].summary == Some(json.summary)
  {
    StreamCompletes(urls, fetch);
  }
}
