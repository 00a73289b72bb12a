/** The test run of `handleTestDataRetrieval` in `src/app/scraping/page.tsx`:
    picking the test URLs, reading the server-sent event stream chunk by
    chunk, splitting it into `"\n\n"`-terminated frames, decoding the
    `data: ` frames and folding them into the `TestProgress` state. The
    server's reply is an input; the decoded chunks stand for the bytes the
    `TextDecoder` returns, and `JSON.parse` is an oracle. */
module ScrapingClient {
  import opened Wrappers
  import opened Seqs
  import opened Text
  import opened Arith
  import TestScraping

  type Event = TestScraping.Event
  type ScrapingResult = TestScraping.ScrapingResult

  // ---------------------------------------------------------------------------
  // Test URLs

  /** Where `slice(0, end)` stops on an array of length `len`: a negative
      end counts from the back. */
  function SliceEnd(len: nat, end: int): (r: nat)
    ensures r <= len
    ensures end >= 0 ==> r == Min(end, len)
    ensures end < 0 ==> r == if len + end > 0 then len + end else 0
  {
    if end >= 0 then Min(end, len) else if len + end > 0 then len + end else 0
  }

  const ErrNoTestUrls := "No URLs found to test - please go back and select different URL categories"

  /** `filterResult.filteredUrls.slice(0, urlTestLimit)`, or the error thrown
      when that is empty. */
  function TestUrls(filtered: seq<string>, limit: int): (r: Result<seq<string>, string>)
    ensures r.Failure? <==> SliceEnd(|filtered|, limit) == 0
    ensures r.Failure? ==> r.error == ErrNoTestUrls
    ensures r.Success? ==> r.value <= filtered && 0 < |r.value|
    ensures r.Success? && limit >= 0 ==> |r.value| == Min(limit, |filtered|)
  {
    var urls := filtered[..SliceEnd(|filtered|, limit)];
    if |urls| == 0 then Failure(ErrNoTestUrls) else Success(urls)
  }

  /** A positive limit picks the first URLs, at most the limit. */
  lemma {:induction false} TestUrlsArePrefix(filtered: seq<string>, limit: int)
    requires limit >= 1 && |filtered| > 0
    ensures TestUrls(filtered, limit) == Success(filtered[..Min(limit, |filtered|)])
  {
  }

  // ---------------------------------------------------------------------------
  // Frames

  const FrameSep := "\n\n"
  const DataPrefix := "data: "

  /** `lines = buffer.split("\n\n")`, `buffer = lines.pop() || ""`: the
      complete frames and the text kept for the next chunk. */
  function SplitFrames(buffer: string): (r: (seq<string>, string))
    ensures Join(FrameSep, r.0 + [r.1]) == buffer
    ensures !Contains(r.1, FrameSep)
    ensures forall i :: 0 <= i < |r.0| ==> !Contains(r.0[i], FrameSep)
  {
    var lines := SplitOn(buffer, FrameSep);
    JoinSplit(buffer, FrameSep);
    assert lines == Init(lines) + [lines[|lines| - 1]];
    (Init(lines), lines[|lines| - 1])
  }

  /** The test progress shown while the run is going. */
  datatype TestProgress = TestProgress(
    current: int,
    total: int,
    currentUrl: string,
    results: seq<ScrapingResult>,
    isComplete: bool,
    error: Option<string>)

  /** The page state the run updates: `testProgress` (`None` for `null`)
      and `isTesting`. */
  datatype ClientState = ClientState(progress: Option<TestProgress>, isTesting: bool)

  /** `JSON.parse` of a frame's payload: `None` when it throws. */
  type EventParser = string -> Option<Event>

  /** The `switch (data.type)` reducer. */
  function Reduce(s: ClientState, e: Event): (r: ClientState)
    ensures s.progress.None? ==> r.progress.None?
    ensures e.kind != "progress" && e.kind != "result" && e.kind != "complete" ==> r == s
    ensures r.isTesting == (s.isTesting && e.kind != "complete")
    ensures s.progress.Some? ==> r.progress.Some? && r.progress.value.error == s.progress.value.error
    ensures s.progress.Some? && e.kind in {"progress", "result", "complete"} ==>
              var p := s.progress.value;
              var q := r.progress.value;
              q.current == e.current && q.total == e.total && q.results == e.results
              && q.currentUrl == (if e.kind == "progress" then e.currentUrl else "")
              && q.isComplete == (p.isComplete || e.kind == "complete")
              && q.error == p.error
  {
    match e.kind
    case "progress" =>
      ClientState(if s.progress.Some? then
                    Some(s.progress.value.(current := e.current, total := e.total,
                                           currentUrl := e.currentUrl, results := e.results))
                  else None, s.isTesting)
    case "result" =>
      ClientState(if s.progress.Some? then
                    Some(s.progress.value.(current := e.current, total := e.total,
                                           currentUrl := "", results := e.results))
                  else None, s.isTesting)
    case "complete" =>
      ClientState(if s.progress.Some? then
                    Some(s.progress.value.(current := e.current, total := e.total,
                                           currentUrl := "", results := e.results, isComplete := true))
                  else None, false)
    case _ => s
  }

  /** One frame: only `data: ` frames are decoded, from character 6 on, and a
      payload that does not parse is skipped. */
  function HandleFrame(s: ClientState, frame: string, parse: EventParser): (r: ClientState)
    ensures !(DataPrefix <= frame) ==> r == s
    ensures DataPrefix <= frame && parse(frame[|DataPrefix|..]).None? ==> r == s
    ensures DataPrefix <= frame && parse(frame[|DataPrefix|..]).Some? ==>
              r == Reduce(s, parse(frame[|DataPrefix|..]).value)
  {
    if DataPrefix <= frame then
      match parse(frame[6..])
      case None => s
      case Some(e) => Reduce(s, e)
    else s
  }

  /** The frames of one chunk, in order. */
  function HandleFrames(s: ClientState, frames: seq<string>, parse: EventParser): (r: ClientState)
    ensures s.progress.Some? ==> r.progress.Some? && r.progress.value.error == s.progress.value.error
    decreases |frames|
  {
    if |frames| == 0 then s
    else HandleFrame(HandleFrames(s, frames[..|frames| - 1], parse), frames[|frames| - 1], parse)
  }

  lemma {:induction false} HandleFramesAppend(s: ClientState, a: seq<string>, b: seq<string>, parse: EventParser)
    ensures HandleFrames(s, a + b, parse) == HandleFrames(HandleFrames(s, a, parse), b, parse)
    decreases |b|
  {
    if |b| == 0 {
      assert a + b == a;
    } else {
      assert (a + b)[..|a + b| - 1] == a + b[..|b| - 1];
      HandleFramesAppend(s, a, b[..|b| - 1], parse);
    }
  }

  /** The `while (true)` loop after `n` chunks: the state and the buffer. */
  function ReadChunks(s: ClientState, chunks: seq<string>, parse: EventParser): (r: (ClientState, string))
    ensures s.progress.Some? ==> r.0.progress.Some? && r.0.progress.value.error == s.progress.value.error
    ensures !Contains(r.1, FrameSep)
    decreases |chunks|
  {
    if |chunks| == 0 then (s, "")
    else
      var (before, buffer) := ReadChunks(s, chunks[..|chunks| - 1], parse);
      var (frames, rest) := SplitFrames(buffer + chunks[|chunks| - 1]);
      (HandleFrames(before, frames, parse), rest)
  }

  /** The text received after the given chunks. */
  function Concat(chunks: seq<string>): string
    decreases |chunks|
  {
    if |chunks| == 0 then "" else Concat(chunks[..|chunks| - 1]) + chunks[|chunks| - 1]
  }

  /** How the stream is cut into chunks does not matter: the frames handled
      are all pieces but the last of the whole text split on `"\n\n"`, and
      the last piece is left in the buffer (never handled). */
  lemma {:induction false} ChunkingIsIrrelevant(s: ClientState, chunks: seq<string>, parse: EventParser)
    ensures var pieces := SplitOn(Concat(chunks), FrameSep);
            ReadChunks(s, chunks, parse) == (HandleFrames(s, Init(pieces), parse), pieces[|pieces| - 1])
    decreases |chunks|
  {
    if |chunks| == 0 {
      SplitOnEmpty(FrameSep);
    } else {
      var init := chunks[..|chunks| - 1];
      var last := chunks[|chunks| - 1];
      ChunkingIsIrrelevant(s, init, parse);
      var pieces := SplitOn(Concat(init), FrameSep);
      var buffer := pieces[|pieces| - 1];
      SplitOnAppend(Concat(init), last, FrameSep);
      var split := SplitOn(buffer + last, FrameSep);
      assert SplitFrames(buffer + last) == (Init(split), split[|split| - 1]);
      var all := Init(pieces) + split;
      assert SplitOn(Concat(chunks), FrameSep) == all;
      assert Init(all) == Init(pieces) + Init(split);
      HandleFramesAppend(s, Init(pieces), Init(split), parse);
    }
  }

  // ---------------------------------------------------------------------------
  // The whole run

  /** The `fetch` reply: an HTTP error (with the status as text), a reply
      without a body, or a body read as these chunks. */
  datatype Reply =
    | HttpError(status: string)
    | NoBody
    | Stream(chunks: seq<string>)

  const ErrHttpPrefix := "HTTP error! status: "
  const ErrNoBody := "No response body"

  /** The `catch` block: record the message and stop. */
  function Fail(s: ClientState, message: string): (r: ClientState)
    ensures !r.isTesting
    ensures s.progress.Some? ==> r.progress == Some(s.progress.value.(error := Some(message), isComplete := true))
    ensures s.progress.None? ==> r.progress.None?
  {
    ClientState(if s.progress.Some? then Some(s.progress.value.(error := Some(message), isComplete := true)) else None,
                false)
  }

  /** The state the run starts from. */
  function Started(limit: int): ClientState {
    ClientState(Some(TestProgress(0, limit, "", [], false, None)), true)
  }

  /** `handleTestDataRetrieval`: `server` answers the request for the test URLs. */
  function HandleTestDataRetrieval(hasConfig: bool, filtered: Option<seq<string>>, limit: int,
                                   server: seq<string> -> Reply, parse: EventParser, prior: ClientState)
    : (r: ClientState)
    ensures !hasConfig || filtered.None? ==> r == prior
    ensures hasConfig && filtered.Some? && TestUrls(filtered.value, limit).Failure? ==>
              r == Fail(Started(limit), ErrNoTestUrls)
    ensures hasConfig && filtered.Some? ==> r.progress.Some?
  {
    if !hasConfig || filtered.None? then prior
    else
      var start := Started(limit);
      match TestUrls(filtered.value, limit)
      case Failure(message) => Fail(start, message)
      case Success(urls) =>
        match server(urls)
        case HttpError(status) => Fail(start, ErrHttpPrefix + status)
        case NoBody => Fail(start, ErrNoBody)
        case Stream(chunks) => ReadChunks(start, chunks, parse).0
  }

  // ---------------------------------------------------------------------------
  // Client and server together

  /** The text the streaming route writes for its events. */
  function ServerText(encode: Event -> string, events: seq<Event>): string
    decreases |events|
  {
    if |events| == 0 then "" else DataPrefix + encode(events[0]) + FrameSep + ServerText(encode, events[1..])
  }

  /** The frame the route writes for one event. */
  function EventFrame(encode: Event -> string, e: Event): string {
    DataPrefix + encode(e)
  }

  /** Frames without line breaks split back out of the stream text exactly. */
  lemma {:induction false} ServerTextSplits(encode: Event -> string, events: seq<Event>)
    requires forall e :: '\n' !in encode(e)
    ensures SplitOn(ServerText(encode, events), FrameSep) == Map((e: Event) => EventFrame(encode, e), events) + [""]
    decreases |events|
  {
    var frame := (e: Event) => EventFrame(encode, e);
    if |events| == 0 {
      SplitOnEmpty(FrameSep);
    } else {
      var f := EventFrame(encode, events[0]);
      var rest := ServerText(encode, events[1..]);
      var frames := Map(frame, events[1..]);
      assert SplitOn(ServerText(encode, events), FrameSep) == [f] + SplitOn(rest, FrameSep) by {
        assert '\n' !in f;
        assert ServerText(encode, events) == f + FrameSep + rest;
        SplitOnLeadingPiece(f, FrameSep, rest);
      }
      ServerTextSplits(encode, events[1..]);
      MapCons(frame, events);
      AppendRegroup([f], frames, [""]);
    }
  }

  /** The events, reduced in order. */
  function ReduceAll(s: ClientState, events: seq<Event>): ClientState
    decreases |events|
  {
    if |events| == 0 then s else Reduce(ReduceAll(s, events[..|events| - 1]), events[|events| - 1])
  }

  /** When parsing undoes encoding, handling the frames is reducing the events. */
  lemma {:induction false} FramesAreEvents(s: ClientState, encode: Event -> string, parse: EventParser,
                                           events: seq<Event>)
    requires forall e :: parse(encode(e)) == Some(e)
    ensures HandleFrames(s, Map((e: Event) => EventFrame(encode, e), events), parse) == ReduceAll(s, events)
    decreases |events|
  {
    var frame := (e: Event) => EventFrame(encode, e);
    if |events| > 0 {
      var init := events[..|events| - 1];
      var last := events[|events| - 1];
      FramesAreEvents(s, encode, parse, init);
      var frames := Map(frame, events);
      assert frames[..|frames| - 1] == Map(frame, init);
      var f := EventFrame(encode, last);
      assert f[|DataPrefix|..] == encode(last);
    }
  }

  /** A state with progress keeps it, with its error, through any events. */
  lemma {:induction false} ReduceAllKeepsProgress(s: ClientState, events: seq<Event>)
    requires s.progress.Some?
    ensures ReduceAll(s, events).progress.Some?
    ensures ReduceAll(s, events).progress.value.error == s.progress.value.error
    decreases |events|
  {
    if |events| > 0 {
      ReduceAllKeepsProgress(s, events[..|events| - 1]);
    }
  }

  /** Testing stops exactly when a `complete` event arrives; a stream cut
      short before it leaves the page testing. */
  lemma {:induction false} TestingStopsOnComplete(s: ClientState, events: seq<Event>)
    requires s.isTesting
    ensures !ReduceAll(s, events).isTesting <==> exists i :: 0 <= i < |events| && events[i].kind == "complete"
    decreases |events|
  {
    if |events| > 0 {
      var init := events[..|events| - 1];
      TestingStopsOnComplete(s, init);
      assert forall i :: 0 <= i < |init| ==> init[i] == events[i];
      if exists i :: 0 <= i < |init| && init[i].kind == "complete" {
        var i :| 0 <= i < |init| && init[i].kind == "complete";
        assert events[i].kind == "complete";
      }
    }
  }

  /** Once the progress shows the run complete it stays complete. */
  lemma {:induction false} CompletionIsSticky(s: ClientState, events: seq<Event>)
    requires s.progress.Some? && s.progress.value.isComplete
    ensures ReduceAll(s, events).progress.Some? && ReduceAll(s, events).progress.value.isComplete
    decreases |events|
  {
    if |events| > 0 {
      CompletionIsSticky(s, events[..|events| - 1]);
    }
  }

  /** End to end: whatever the chunking, once the route's stream has been read
      the page shows the run complete, with `current = total = |urls|`, the
      route's results, no error, and testing stopped. */
  lemma {:induction false} ClientShowsServerResults(urls: seq<string>, fetch: TestScraping.Fetcher, limit: int,
                                 encode: Event -> string, parse: EventParser, chunks: seq<string>)
    requires forall e :: parse(encode(e)) == Some(e) && '\n' !in encode(e)
    requires Concat(chunks) == ServerText(encode, TestScraping.StreamEvents(urls, fetch))
    ensures ReadChunks(Started(limit), chunks, parse).0
         == ClientState(Some(TestProgress(|urls|, |urls|, "", TestScraping.Results(urls, fetch), true, None)), false)
    ensures ReadChunks(Started(limit), chunks, parse).1 == ""
  {
    var events := TestScraping.StreamEvents(urls, fetch);
    var frame := (e: Event) => EventFrame(encode, e);
    ChunkingIsIrrelevant(Started(limit), chunks, parse);
    ServerTextSplits(encode, events);
    var pieces := Map(frame, events) + [""];
    assert Init(pieces) == Map(frame, events);
    FramesAreEvents(Started(limit), encode, parse, events);
    StreamEndsComplete(urls, fetch, limit);
  }

  /** Reducing the route's whole stream ends on its `complete` event. */
  lemma {:induction false} StreamEndsComplete(urls: seq<string>, fetch: TestScraping.Fetcher, limit: int)
    ensures ReduceAll(Started(limit), TestScraping.StreamEvents(urls, fetch))
         == ClientState(Some(TestProgress(|urls|, |urls|, "", TestScraping.Results(urls, fetch), true, None)), false)
  {
    var events := TestScraping.StreamEvents(urls, fetch);
    ReduceAllKeepsProgress(Started(limit), events[..|events| - 1]);
    TestScraping.StreamCompletes(urls, fetch);
  }
}
