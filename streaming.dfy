/**
 Streaming mode of the analysis client: the response body arrives as text
 chunks, is cut into newline-terminated lines, and each line is one event,
 `{"type":"progress",...}` or `{"type":"result",...}`.
 */
module Streaming {
  import opened Types
  import opened Lines

  /**
   What `JSON.parse(line)` and the `data.type` test make of one line. The JSON
   parser itself is not modelled: a caller supplies it as a function from the
   line to one of these.
   - ProgressLine: `type` is "progress"; its `stage` and `progress` fields.
   - ResultLine: `type` is "result"; `payload` is None when `data.result` is
     missing, null or otherwise falsy.
   - OtherType: valid JSON whose `type` is neither.
   - Malformed: `JSON.parse` threw, or reading `data.type` threw (the line `null`).
   */
  datatype Parsed =
    | ProgressLine(stage: Stage, progress: int)
    | ResultLine(payload: Option<AnalysisResult>)
    | OtherType
    | Malformed

  const NoResultMessage := "No result received from analysis"

  /** A character that JavaScript's `String.prototype.trim` removes. */
  predicate IsTrimmed(c: char) {
    c in {'\t', '\n', '\U{B}', '\U{C}', '\r', ' ', '\U{A0}', '\U{1680}',
          '\U{2000}', '\U{2001}', '\U{2002}', '\U{2003}', '\U{2004}', '\U{2005}',
          '\U{2006}', '\U{2007}', '\U{2008}', '\U{2009}', '\U{200A}',
          '\U{2028}', '\U{2029}', '\U{202F}', '\U{205F}', '\U{3000}', '\U{FEFF}'}
  }

  /** `line.trim()` is the empty string: every character is one `trim` removes. */
  function IsBlank(line: string): (b: bool)
    ensures line == "" ==> b
    ensures b && line != "" ==> IsTrimmed(line[0]) && IsBlank(line[1..])
    ensures !b ==> exists k :: 0 <= k < |line| && !IsTrimmed(line[k])
  {
    forall k :: 0 <= k < |line| ==> IsTrimmed(line[k])
  }

  /** A line the handler acts on as a result event. */
  predicate IsResultLine(parse: string -> Parsed, line: string) {
    !IsBlank(line) && parse(line).ResultLine?
  }

  /** The handler's state between lines: the observer calls so far and `result`. */
  datatype Run = Run(events: seq<Event>, result: Option<AnalysisResult>)

  const Start := Run([], None)

  /**
   The body of the inner `for (const line of lines)` for one line: it adds at
   most one observer call after those made so far, and only a result line
   touches `result`.
   */
  function Step(parse: string -> Parsed, run: Run, line: string): (r: Run)
    ensures |run.events| <= |r.events| <= |run.events| + 1
    ensures r.events[..|run.events|] == run.events
    ensures !IsResultLine(parse, line) ==> r.result == run.result
  {
    if IsBlank(line) then run
    else
      match parse(line)
      case ProgressLine(stage, progress) => Run(run.events + [Event(stage, progress)], run.result)
      case ResultLine(payload) => Run(run.events + [CompleteEvent], payload)
      case OtherType => run
      case Malformed => run
  }

  /**
   The state after handling `lines` in order, starting from `run`: the calls
   made before are kept, and each line adds at most one call.
   */
  function ProcessFrom(parse: string -> Parsed, run: Run, lines: seq<string>): (r: Run)
    ensures |run.events| <= |r.events| <= |run.events| + |lines|
    ensures r.events[..|run.events|] == run.events
    decreases |lines|
  {
    if lines == [] then run
    else Step(parse, ProcessFrom(parse, run, AllButLast(lines)), Last(lines))
  }

  /** What the handler settles with once the stream has ended. */
  function Settle(run: Run): (r: Result<AnalysisResult, string>)
    ensures r.Err? <==> run.result.None?
    ensures r.Err? ==> r.error == NoResultMessage
    ensures r.Ok? ==> r.value == run.result.value
  {
    match run.result
    case None => Err(NoResultMessage)
    case Some(res) => Ok(res)
  }

  /** All chunks read from the body, in order. */
  function Concat(chunks: seq<string>): string
    decreases |chunks|
  {
    if chunks == [] then "" else Concat(AllButLast(chunks)) + Last(chunks)
  }

  /**
   The handler's state after the stream `text` has been read to its end: at
   most one observer call per complete line.
   */
  function StreamRun(parse: string -> Parsed, text: string): (r: Run)
    ensures |r.events| <= |CompleteLines(text)|
  {
    ProcessFrom(parse, Start, CompleteLines(text))
  }

  /**
   How the handler settles once reading stops: with the reader's error when
   `reader.read()` rejected (`readFailure`), which the `finally` lets through,
   otherwise as `Settle` says.
   */
  function StreamOutcome(run: Run, readFailure: Option<string>): (r: Result<AnalysisResult, string>)
    ensures readFailure.Some? ==> r == Err(readFailure.value)
    ensures readFailure.None? ==> r == Settle(run)
  {
    if readFailure.Some? then Err(readFailure.value) else Settle(run)
  }

  /**
   `handleStreamingResponse`. The reader's chunks arrive already decoded, and
   `readFailure` is the error of a `reader.read()` that rejected after them, if
   one did; `events` is the sequence of observer calls. Both results depend only
   on the concatenated text, so they are the same however the text is cut into
   chunks, and the text after the final newline is never handled.
   */
  method HandleStreamingResponse(chunks: seq<string>, readFailure: Option<string>, parse: string -> Parsed)
    returns (events: seq<Event>, outcome: Result<AnalysisResult, string>)
    ensures events == StreamRun(parse, Concat(chunks)).events
    ensures outcome == StreamOutcome(StreamRun(parse, Concat(chunks)), readFailure)
  {
    var result;
    events, result := ReadAll(chunks, parse);
    if readFailure.Some? {
      outcome := Err(readFailure.value);
    } else if result.None? {
      outcome := Err(NoResultMessage);
    } else {
      outcome := Ok(result.value);
    }
  }

  /**
   The `while (true)` read loop of `handleStreamingResponse`: each chunk is
   handled by `ReadChunk`, until the chunks run out.
   */
  method ReadAll(chunks: seq<string>, parse: string -> Parsed)
    returns (events: seq<Event>, result: Option<AnalysisResult>)
    ensures Run(events, result) == StreamRun(parse, Concat(chunks))
  {
    var buffer := "";
    result := None;
    events := [];
    ghost var handled: seq<string> := [];
    var k := 0;
    while k < |chunks|
      invariant 0 <= k <= |chunks|
      invariant handled + [buffer] == Split(Concat(chunks[..k]))
      invariant Run(events, result) == ProcessFrom(parse, Start, handled)
    {
      assert chunks[..k + 1][..k] == chunks[..k];
      assert Concat(chunks[..k + 1]) == Concat(chunks[..k]) + chunks[k];
      buffer, events, result, handled := ReadChunk(parse, Concat(chunks[..k]), chunks[k], buffer, events, result, handled);
      k := k + 1;
    }
    assert chunks[..k] == chunks;
  }

  /**
   One pass of the read loop: the chunk is appended to the buffer, the
   buffer's complete lines are handled, and the text after its last newline
   is kept. `text` is all text read before; `handled` its lines handled so far.
   */
  method ReadChunk(parse: string -> Parsed, ghost text: string, chunk: string, buffer0: string,
                   events0: seq<Event>, result0: Option<AnalysisResult>, ghost handled0: seq<string>)
    returns (buffer: string, events: seq<Event>, result: Option<AnalysisResult>, ghost handled: seq<string>)
    requires handled0 + [buffer0] == Split(text)
    requires Run(events0, result0) == ProcessFrom(parse, Start, handled0)
    ensures buffer == Tail(buffer0 + chunk)
    ensures Run(events, result) == ProcessFrom(parse, Run(events0, result0), CompleteLines(buffer0 + chunk))
    ensures handled + [buffer] == Split(text + chunk)
    ensures Run(events, result) == ProcessFrom(parse, Start, handled)
  {
    BufferStep(text, chunk, handled0, buffer0);
    var lines := Split(buffer0 + chunk);
    buffer := lines[|lines| - 1];
    var complete := lines[..|lines| - 1];
    assert lines == complete + [buffer];
    events, result := HandleLines(parse, complete, events0, result0);
    ProcessAppend(parse, Start, handled0, complete);
    handled := handled0 + complete;
  }

  /** The split of the text read so far continues with the split of the buffer and the new chunk. */
  lemma BufferStep(text: string, chunk: string, handled0: seq<string>, buffer0: string)
    requires handled0 + [buffer0] == Split(text)
    ensures Split(text + chunk) == handled0 + Split(buffer0 + chunk)
  {
    SplitAppend(text, chunk);
    assert CompleteLines(text) == handled0 && Tail(text) == buffer0;
  }

  /** The inner `for (const line of lines)` loop over the complete lines of one read. */
  method HandleLines(parse: string -> Parsed, lines: seq<string>, events0: seq<Event>, result0: Option<AnalysisResult>)
    returns (events: seq<Event>, result: Option<AnalysisResult>)
    ensures Run(events, result) == ProcessFrom(parse, Run(events0, result0), lines)
  {
    events, result := events0, result0;
    var j := 0;
    while j < |lines|
      invariant 0 <= j <= |lines|
      invariant Run(events, result) == ProcessFrom(parse, Run(events0, result0), lines[..j])
    {
      var line := lines[j];
      assert AllButLast(lines[..j + 1]) == lines[..j];
      if !IsBlank(line) {
        match parse(line) {
          case ProgressLine(stage, progress) =>
            events := events + [Event(stage, progress)];
          case ResultLine(payload) =>
            result := payload;
            events := events + [CompleteEvent];
          case OtherType =>
          case Malformed =>
        }
      }
      j := j + 1;
    }
    assert lines[..j] == lines;
  }

  /** Handling `a` then `b` is handling `a + b`. */
  lemma {:induction false} ProcessAppend(parse: string -> Parsed, run: Run, a: seq<string>, b: seq<string>)
    ensures ProcessFrom(parse, run, a + b) == ProcessFrom(parse, ProcessFrom(parse, run, a), b)
    decreases |b|
  {
    if b == [] {
      assert a + b == a;
    } else {
      assert AllButLast(a + b) == a + AllButLast(b);
      assert Last(a + b) == Last(b);
      ProcessAppend(parse, run, a, AllButLast(b));
    }
  }

  /**
   A blank line, a line that fails to parse and a line of another type are
   skipped: removing one changes nothing, and the lines after it are still handled.
   */
  lemma SkippedLineChangesNothing(parse: string -> Parsed, before: seq<string>, line: string, after: seq<string>)
    requires IsBlank(line) || parse(line).Malformed? || parse(line).OtherType?
    ensures ProcessFrom(parse, Start, before + [line] + after) == ProcessFrom(parse, Start, before + after)
  {
    ProcessAppend(parse, Start, before + [line], after);
    ProcessAppend(parse, Start, before, after);
    assert AllButLast(before + [line]) == before;
  }

  /** A progress line reaches the observer as sent, as exactly one call, and leaves `result` alone. */
  lemma ProgressLineForwarded(parse: string -> Parsed, before: seq<string>, line: string, stage: Stage, progress: int)
    requires !IsBlank(line) && parse(line) == ProgressLine(stage, progress)
    ensures ProcessFrom(parse, Start, before + [line]).events
         == ProcessFrom(parse, Start, before).events + [Event(stage, progress)]
    ensures ProcessFrom(parse, Start, before + [line]).result == ProcessFrom(parse, Start, before).result
  {
    assert AllButLast(before + [line]) == before;
  }

  /** A result line is followed at once by the observer call `('complete', 100)`. */
  lemma ResultLineEmitsComplete(parse: string -> Parsed, before: seq<string>, line: string)
    requires IsResultLine(parse, line)
    ensures ProcessFrom(parse, Start, before + [line]).events
         == ProcessFrom(parse, Start, before).events + [CompleteEvent]
    ensures ProcessFrom(parse, Start, before + [line]).result == parse(line).payload
  {
    assert AllButLast(before + [line]) == before;
  }

  /** With several result lines the last one wins: lines without a result after it leave it in place. */
  lemma {:induction false} LastResultWins(parse: string -> Parsed, before: seq<string>, line: string, after: seq<string>)
    requires IsResultLine(parse, line)
    requires forall k :: 0 <= k < |after| ==> !IsResultLine(parse, after[k])
    ensures ProcessFrom(parse, Start, before + [line] + after).result == parse(line).payload
    decreases |after|
  {
    if after == [] {
      assert before + [line] + after == before + [line];
      ResultLineEmitsComplete(parse, before, line);
    } else {
      assert AllButLast(before + [line] + after) == before + [line] + AllButLast(after);
      assert Last(before + [line] + after) == Last(after);
      assert !IsResultLine(parse, Last(after));
      LastResultWins(parse, before, line, AllButLast(after));
    }
  }

  /** Without any result line the state holds no result. */
  lemma {:induction false} NoResultLineNoResult(parse: string -> Parsed, lines: seq<string>)
    requires forall k :: 0 <= k < |lines| ==> !IsResultLine(parse, lines[k])
    ensures ProcessFrom(parse, Start, lines).result == None
    decreases |lines|
  {
    if lines != [] {
      assert !IsResultLine(parse, Last(lines));
      NoResultLineNoResult(parse, AllButLast(lines));
    }
  }

  /** A stream without a result line rejects with 'No result received from analysis'. */
  lemma NoResultRejects(parse: string -> Parsed, text: string)
    requires forall k :: 0 <= k < |CompleteLines(text)| ==> !IsResultLine(parse, CompleteLines(text)[k])
    ensures Settle(StreamRun(parse, text)) == Err(NoResultMessage)
  {
    NoResultLineNoResult(parse, CompleteLines(text));
  }

  /**
   A stream whose result line is not newline-terminated at stream end rejects:
   the text after the final newline is dropped with the buffer.
   */
  lemma UnterminatedTailDropped(parse: string -> Parsed, text: string, tail: string)
    requires text == [] || text[|text| - 1] == Newline
    requires Newline !in tail
    ensures StreamRun(parse, text + tail) == StreamRun(parse, text)
  {
    TrailingTextAddsNoLine(text, tail);
  }

  /** A text of two newline-terminated lines is handled as those two lines in order. */
  lemma StreamTwoLines(parse: string -> Parsed, x: string, y: string)
    requires Newline !in x && Newline !in y
    ensures StreamRun(parse, x + [Newline] + y + [Newline]) == Step(parse, Step(parse, Start, x), y)
  {
    TwoLines(x, y);
    assert AllButLast([x, y]) == [x];
    assert AllButLast([x]) == [];
    assert ProcessFrom(parse, Start, [x]) == Step(parse, Start, x);
  }

  /**
   Progress lines are forwarded verbatim; nothing makes the forwarded sequence
   non-decreasing: a stage that goes backwards reaches the observer as it is.
   */
  lemma ProgressForwardedVerbatim(parse: string -> Parsed, first: string, second: string)
    requires Newline !in first && Newline !in second
    requires !IsBlank(first) && !IsBlank(second)
    requires parse(first) == ProgressLine(Analyzing, 50)
    requires parse(second) == ProgressLine(Uploading, 10)
    ensures StreamRun(parse, first + [Newline] + second + [Newline]).events
         == [Event(Analyzing, 50), Event(Uploading, 10)]
    ensures !Nondecreasing(StreamRun(parse, first + [Newline] + second + [Newline]).events)
  {
    var text := first + [Newline] + second + [Newline];
    StreamTwoLines(parse, first, second);
    var events := StreamRun(parse, text).events;
    assert !EventLe(events[0], events[1]);
  }

  /**
   A progress line at 'analyzing' 50 followed by a result line: the observer's
   last call is `('complete', 100)` and the handler resolves with the result.
   */
  lemma ProgressThenResult(parse: string -> Parsed, progress: string, result: string, r: AnalysisResult)
    requires Newline !in progress && Newline !in result
    requires !IsBlank(progress) && !IsBlank(result)
    requires parse(progress) == ProgressLine(Analyzing, 50)
    requires parse(result) == ResultLine(Some(r))
    ensures StreamRun(parse, progress + [Newline] + result + [Newline]).events
         == [Event(Analyzing, 50), CompleteEvent]
    ensures Settle(StreamRun(parse, progress + [Newline] + result + [Newline])) == Ok(r)
  {
    StreamTwoLines(parse, progress, result);
  }
}
