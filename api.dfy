/**
 The analysis client `DeepfakeDetectionAPI`: `analyzeVideo` uploads the file and
 hands the response to the streaming or the regular handler; `mockAnalyzeVideo`
 plays the simulated schedule and returns a canned result.

 The network is an input: `fetch` either fails or yields a status and a body,
 and the body is either a stream of decoded text chunks or one JSON value.
 */
module Api {
  import opened Types
  import opened Lines
  import opened Streaming
  import opened Schedule

  /** Used when `VITE_API_URL` is unset or empty. */
  const DefaultBaseUrl := "http://localhost:8000/api"

  /** `import.meta.env.VITE_API_URL || default`; an unset variable reads as "". */
  function BaseUrl(configured: string): (url: string)
    ensures url != ""
    ensures configured != "" ==> url == configured
    ensures configured == "" ==> url == DefaultBaseUrl
  {
    if configured != "" then configured else DefaultBaseUrl
  }

  /** The one message the `catch` of `analyzeVideo` rethrows. */
  const FailedMessage := "Failed to analyze video. Please try again."

  /**
   What the response exposes: `response.body` as the decoded chunks read
   before the stream ended, with the error of a `reader.read()` that rejected
   instead of ending it, if one did; or no body stream.
   */
  datatype Body =
    | Streamed(chunks: seq<string>, readFailure: Option<string>)
    | Whole(json: Result<AnalysisResult, string>)   // what `response.json()` settles with

  /** What `fetch` settles with. */
  datatype HttpOutcome =
    | FetchFailed
    | Responded(status: int, body: Body)

  /** `response.ok`: the status is in the range 200 to 299. */
  predicate IsOkStatus(status: int) {
    200 <= status <= 299
  }

  /** The observer calls of one call and what it settles with. */
  datatype Settled = Settled(events: seq<Event>, outcome: Result<AnalysisResult, string>)

  /** The three canned results of `mockAnalyzeVideo`. */
  const MockResults: seq<AnalysisResult> := [
    AnalysisResult(
      AIGenerated, 87,
      "Multiple frames showed unnatural facial movements, inconsistent lighting patterns, and warped edges around the subject's face, indicating AI generation.",
      Some(FrameAnalysis(10, 7, [
        "Unnatural eye blinking patterns",
        "Inconsistent skin texture",
        "Warped facial edges",
        "Background inconsistencies"]))),
    AnalysisResult(
      Real, 92,
      "Analysis shows consistent lighting, natural facial movements, and authentic skin texture throughout all frames with no detectable AI artifacts.",
      Some(FrameAnalysis(10, 0, []))),
    AnalysisResult(
      Uncertain, 64,
      "Video quality was insufficient for reliable detection. Some frames showed potential artifacts, but results are inconclusive.",
      Some(FrameAnalysis(8, 2, ["Low video quality affecting analysis"])))
  ]

  /**
   Every canned result is well formed, reports its frames, and lists artifacts
   exactly when some frame is suspicious.
   */
  lemma MockResultsSound(k: int)
    requires 0 <= k < |MockResults|
    ensures WellFormed(MockResults[k])
    ensures MockResults[k].frameAnalysis.Some?
    ensures var fa := MockResults[k].frameAnalysis.value;
      fa.artifacts == [] <==> fa.suspiciousFrames == 0
  {
    var r := MockResults[k];
    var fa := r.frameAnalysis.value;
    forall j | 0 <= j < |fa.artifacts| ensures fa.artifacts[j] != "" {
      assert |fa.artifacts[j]| > 0;
    }
  }

  /**
   `mockAnalyzeVideo`: the schedule, `('complete', 100)`, then one table entry.
   `pick` is `Math.floor(Math.random() * 3)`.
   */
  method MockAnalyzeVideo(pick: nat) returns (events: seq<Event>, result: AnalysisResult)
    requires pick < |MockResults|
    ensures events == SimulatedSchedule() + [CompleteEvent]
    ensures result == MockResults[pick]
    ensures WellFormed(result)
  {
    events := PlaySchedule();
    events := events + [CompleteEvent];
    result := MockResults[pick];
    MockResultsSound(pick);
  }

  /**
   `handleRegularResponse`: the schedule runs beside `response.json()`; once both
   are done, `('complete', 100)` and the JSON value. If `response.json()` rejects,
   the handler rejects with that error and no `complete` call follows; the
   schedule, already started, still plays to its end.
   */
  method HandleRegularResponse(json: Result<AnalysisResult, string>)
    returns (events: seq<Event>, outcome: Result<AnalysisResult, string>)
    ensures events == SimulatedSchedule() + (if json.Ok? then [CompleteEvent] else [])
    ensures outcome == json
  {
    events := PlaySchedule();
    outcome := json;
    if json.Ok? {
      events := events + [CompleteEvent];
    }
  }

  /** The reference for `analyzeVideo`: calls and outcome for each network outcome. */
  function AnalyzeRun(http: HttpOutcome, parse: string -> Parsed): (r: Settled)
    ensures |r.events| >= 1 && r.events[0] == Event(Uploading, 0)
    ensures http.FetchFailed? || !IsOkStatus(http.status) ==> r == Settled([Event(Uploading, 0)], Err(FailedMessage))
  {
    var first := [Event(Uploading, 0)];
    match http
    case FetchFailed => Settled(first, Err(FailedMessage))
    case Responded(status, body) =>
      if !IsOkStatus(status) then Settled(first, Err(FailedMessage))
      else
        match body
        case Streamed(chunks, readFailure) =>
          var run := StreamRun(parse, Concat(chunks));
          Settled(first + run.events, StreamOutcome(run, readFailure))
        case Whole(json) =>
          Settled(first + SimulatedSchedule() + (if json.Ok? then [CompleteEvent] else []), json)
  }

  /**
   `analyzeVideo`. `('uploading', 0)` comes first. A failed `fetch` and a
   status outside 200..299 reject with the fixed message; the handler promises
   are returned without `await`, so what they reject with reaches the caller
   unchanged.
   */
  method AnalyzeVideo(http: HttpOutcome, parse: string -> Parsed)
    returns (events: seq<Event>, outcome: Result<AnalysisResult, string>)
    ensures Settled(events, outcome) == AnalyzeRun(http, parse)
  {
    events := [Event(Uploading, 0)];
    // `fetch` rejecting, or the `HTTP error! status: ...` thrown on a non-ok status
    var threw := http.FetchFailed? || !IsOkStatus(http.status);
    if threw {
      // the catch block: whatever was thrown, the caller sees one message
      outcome := Err(FailedMessage);
      return;
    }
    var body := http.body;
    match body {
      case Streamed(chunks, readFailure) =>
        var more, settled := HandleStreamingResponse(chunks, readFailure, parse);
        events, outcome := events + more, settled;
      case Whole(json) =>
        var more, settled := HandleRegularResponse(json);
        events, outcome := events + more, settled;
    }
  }

  /**
   Every rejection of `analyzeVideo` is the fixed message of the catch, the
   error of a failed `reader.read()`, the streaming handler's 'No result
   received from analysis', or the error of `response.json()`; only the first
   comes from the catch.
   */
  lemma RejectionSources(http: HttpOutcome, parse: string -> Parsed)
    requires AnalyzeRun(http, parse).outcome.Err?
    ensures var m := AnalyzeRun(http, parse).outcome.error;
      || (m == FailedMessage && (http.FetchFailed? || !IsOkStatus(http.status)))
      || (http.Responded? && IsOkStatus(http.status) && http.body.Streamed? && http.body.readFailure == Some(m))
      || (m == NoResultMessage && http.Responded? && IsOkStatus(http.status)
          && http.body.Streamed? && http.body.readFailure.None?)
      || (http.Responded? && IsOkStatus(http.status) && http.body.Whole? && http.body.json == Err(m))
  {
  }

  /**
   A `reader.read()` that rejects mid-stream: the lines already handled have
   reached the observer, and the reader's error reaches the caller unchanged,
   whatever result line came before it.
   */
  lemma ReadFailureEscapesCatch(chunks: seq<string>, err: string, parse: string -> Parsed, status: int)
    requires IsOkStatus(status)
    ensures AnalyzeRun(Responded(status, Streamed(chunks, Some(err))), parse)
         == Settled([Event(Uploading, 0)] + StreamRun(parse, Concat(chunks)).events, Err(err))
    ensures AnalyzeRun(Responded(status, Streamed(chunks, Some(err))), parse).events
         == AnalyzeRun(Responded(status, Streamed(chunks, None)), parse).events
  {
  }

  /** A stream without a result rejects with its own message, not the catch's. */
  lemma StreamRejectionEscapesCatch(chunks: seq<string>, parse: string -> Parsed, status: int)
    requires IsOkStatus(status)
    requires forall k :: 0 <= k < |CompleteLines(Concat(chunks))| ==>
               !IsResultLine(parse, CompleteLines(Concat(chunks))[k])
    ensures AnalyzeRun(Responded(status, Streamed(chunks, None)), parse).outcome == Err(NoResultMessage)
    ensures NoResultMessage != FailedMessage
  {
    NoResultRejects(parse, Concat(chunks));
    assert NoResultMessage[0] != FailedMessage[0];
  }

  /**
   A successful call without a stream: 65 observer calls, non-decreasing in
   (stage, progress), the last `('complete', 100)`.
   */
  lemma RegularRunOrdered(status: int, r: AnalysisResult, parse: string -> Parsed)
    requires IsOkStatus(status)
    ensures var run := AnalyzeRun(Responded(status, Whole(Ok(r))), parse);
      && run.outcome == Ok(r)
      && |run.events| == 65
      && Nondecreasing(run.events)
      && Last(run.events) == CompleteEvent
  {
    var tail := SimulatedSchedule() + [CompleteEvent];
    SimulatedRunOrdered();
    var first := [Event(Uploading, 0)];
    ScheduleAt(0);
    assert Nondecreasing(first);
    forall j | 0 <= j < |tail| ensures EventLe(first[0], tail[j]) {
      if j < 63 {
        ScheduleAt(j);
      }
    }
    NondecreasingAppend(first, tail);
    assert first + tail == first + SimulatedSchedule() + [CompleteEvent];
  }

  /**
   In streaming mode `('complete', 100)` need not be the last call: a progress
   line after the result line is forwarded after it, and the call still resolves.
   */
  lemma StreamCompleteNotLast(parse: string -> Parsed, result: string, progress: string, r: AnalysisResult, status: int)
    requires Newline !in result && Newline !in progress
    requires !IsBlank(result) && !IsBlank(progress)
    requires parse(result) == ResultLine(Some(r))
    requires parse(progress) == ProgressLine(Analyzing, 40)
    requires IsOkStatus(status)
    ensures var run := AnalyzeRun(Responded(status, Streamed([result + [Newline] + progress + [Newline]], None)), parse);
      && run.outcome == Ok(r)
      && run.events == [Event(Uploading, 0), CompleteEvent, Event(Analyzing, 40)]
      && !Nondecreasing(run.events)
  {
    var text := result + [Newline] + progress + [Newline];
    assert Concat([text]) == text by {
      assert AllButLast([text]) == [];
    }
    StreamTwoLines(parse, result, progress);
    var events := AnalyzeRun(Responded(status, Streamed([text], None)), parse).events;
    assert !EventLe(events[1], events[2]);
  }
}
