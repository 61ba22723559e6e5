# Deepfake detector client: a Dafny model

This project models the client side of the "AI or real" video checker. It covers:

- the analysis client `DeepfakeDetectionAPI`:
  - the upload call `analyzeVideo`;
  - the streaming handler, which cuts the response text into lines and dispatches `progress` and `result` events;
  - the simulated progress schedule used without a stream;
  - the mock client and its table of canned results.
- the decision rules of the example Flask backend: the extension check, frame-index selection, the placeholder verdict and the route's request checks;
- the upload component's file check and its drag and error state;
- the page's state machine over its six pieces of state.

The network, the JSON parser and the random draws are inputs:
- `fetch` becomes a `HttpOutcome` value: a failure, or a status and a body. `response.ok` is the status lying in 200..299.
- The response body becomes already-decoded text chunks, with the error of a `reader.read()` that rejected instead of ending the stream. Without a body stream it becomes one settled JSON value.
- `JSON.parse` of a line becomes a caller-supplied function into `Parsed`.
- `Math.random` and `np.random.randint` become an index and an oracle function with the documented range.

Modules, one per source file or concern:

| file | module | models |
|---|---|---|
| types.dfy | `Types` | `AnalysisResult`, the four stages, observer events and their order |
| lines.dfy | `Lines` | `split('\n')` and `join('\n')`, with the lemmas the line buffer needs |
| streaming.dfy | `Streaming` | `handleStreamingResponse`, as imperative nested loops |
| schedule.dfy | `Schedule` | the nested `for` loops that play the simulated progress |
| api.dfy | `Api` | `analyzeVideo`, `handleRegularResponse`, `mockAnalyzeVideo`, the base URL |
| backend.dfy | `Backend` | `allowed_file`, frame indices, the verdict, the `/api/analyze` checks |
| video_upload.dfy | `VideoUpload` | `validateFile` and the class `Upload` (`dragActive`, `error`) |
| app.dfy | `AppPage` | the class `App` with the page's six state fields and its handlers |

Specification functions are proved equal to, or about, the imperative methods:
- `HandleStreamingResponse` is proved equal to `StreamRun` over the concatenated chunks. So chunk boundaries cannot matter. A read failure changes only the outcome.
- `PlaySchedule` is proved equal to `SimulatedSchedule`. Its event-by-event form and its ordering are proved as lemmas.
- `AnalyzeVideo` is proved equal to `AnalyzeRun`. The lemmas classify every rejection and order the events.

### Behaviour a caller may not expect

- **Complete event in streaming mode.** The streaming handler emits `('complete', 100)` at every result line. Nothing is emitted at stream end. Progress lines that follow a result are still forwarded, so `complete` need not be the last call (`Api.StreamCompleteNotLast`).
- **Streamed progress is not reordered.** Each progress line reaches the observer as sent (`Streaming.ProgressLineForwarded`). Nothing keeps the stage or the percentage from going backwards (`Streaming.ProgressForwardedVerbatim`). Only the simulated path is proved ordered.
- **Rejections carry only a message.**
  - The `catch` of `analyzeVideo` replaces a failed `fetch` or a status outside 200..299 with one fixed message, which carries no status code.
  - The handler promises are returned without `await`, so their rejections skip that `catch`. Three reach the caller unchanged: the error of a failed `reader.read()`, `'No result received from analysis'` and the error of `response.json()` (`Api.RejectionSources`).
- **A read failure discards a result already received.** When `reader.read()` rejects after a result line, the call rejects with the reader's error (`Api.ReadFailureEscapesCatch`).
- **Results are not checked.** Nothing checks the shape or the ranges of a streamed or fetched result. A `null` is treated differently by the two handlers. Without a body stream, `response.json()` resolving with `null` makes the call resolve with `null` after `('complete', 100)`. A streamed `null` result rejects with 'No result received from analysis'. The model does not express either `null` value (see `Api.Body` under "Left out").
- **The page uses the mock.** The page calls `mockAnalyzeVideo`, which never rejects, so its `catch` branch is dead as wired. `AppPage.App.RunAnalysis` models the handler for any client outcome.
- **Unreachable verdict.** The backend's `AI-generated` branch is unreachable: the drawn suspicious count is below `n // 2`, which is never over 60 per cent of `n` (`Backend.AIGeneratedUnreachable`).

## Model

| member | source | states |
|---|---|---|
| `Types.Ordinal` | src/components/AnalysisProgress.tsx:10-15 | each stage's position in the fixed list; only `complete` is last |
| `Lines.Split` | src/services/api.ts:68 | the split has at least one piece and no piece holds a newline |
| `Lines.JoinSplit` | src/services/api.ts:67-69 | joining the pieces of a split with newlines gives back the buffered text |
| `Lines.SplitJoin` | src/services/api.ts:68 | splitting a join of newline-free pieces gives back the pieces |
| `Lines.SplitAppend` | src/services/api.ts:67-69 | the split of old text plus a chunk is the old complete lines followed by the split of the old tail plus the chunk |
| `Lines.JoinAppend` | src/services/api.ts:67-69 | joining two non-empty runs of pieces puts one newline between their joins |
| `Lines.TwoLines` | src/services/api.ts:68-69 | two newline-terminated lines are exactly two complete lines |
| `Lines.CompleteLines` | src/services/api.ts:68-69 | the `lines` array after `pop()`: newline-free pieces, none at all for text without a newline |
| `Lines.Tail` | src/services/api.ts:69 | the kept buffer: newline-free, and the whole text when the text has no newline |
| `Lines.TailAfterLastNewline` | src/services/api.ts:69 | the kept buffer is exactly the text after the last newline: newline-free, a suffix, preceded by a newline unless it is everything |
| `Lines.TrailingTextAddsNoLine` | src/services/api.ts:62-69 | newline-free text after a newline-terminated prefix adds no complete line and becomes the tail |
| `Streaming.IsBlank` | src/services/api.ts:72 | `line.trim()` is empty: the empty line is blank; a blank line starts with a trimmed character and its rest is blank; a non-blank line holds a character `trim` keeps |
| `Streaming.Step` | src/services/api.ts:72-85 | one line adds at most one observer call after the earlier ones, and only a result line changes `result` |
| `Streaming.ProcessFrom` | src/services/api.ts:71-86 | handling lines keeps the earlier calls and adds at most one call per line |
| `Streaming.StreamRun` | src/services/api.ts:62-86 | reading a whole stream makes at most one call per complete line |
| `Streaming.StreamOutcome` | src/services/api.ts:88-96 | a failed read rejects with the reader's error, which wins over the result check; otherwise the handler settles as `Settle` says |
| `Streaming.Settle` | src/services/api.ts:92-96 | rejects with 'No result received from analysis' exactly when no result is held, else resolves with it |
| `Streaming.HandleStreamingResponse` | src/services/api.ts:55-97 | the observer calls and the outcome are those of handling the complete lines of the concatenated chunks, so they do not depend on chunk boundaries and ignore the unterminated tail; a read failure rejects with its error after the calls of the lines handled |
| `Streaming.HandleLines` | src/services/api.ts:71-86 | the inner loop leaves the state its lines produce in order |
| `Streaming.ReadAll` | src/services/api.ts:62-87 | the read loop leaves the state of handling the complete lines of all chunks read |
| `Streaming.ReadChunk` | src/services/api.ts:63-86 | one pass keeps as buffer the text after the last newline of buffer plus chunk and handles exactly the complete lines before it; the lines handled plus the buffer stay the split of all text read |
| `Streaming.BufferStep` | src/services/api.ts:67-69 | after one more read, the lines handled plus the split of buffer and chunk are the split of all text read |
| `Streaming.ProcessAppend` | src/services/api.ts:71-86 | handling two runs of lines one after the other is handling their concatenation |
| `Streaming.SkippedLineChangesNothing` | src/services/api.ts:72-85 | a blank, unparsable or other-typed line can be removed without changing anything, and later lines are still handled |
| `Streaming.ResultLineEmitsComplete` | src/services/api.ts:78-81 | a result line captures its payload and adds exactly the call `('complete', 100)` |
| `Streaming.LastResultWins` | src/services/api.ts:78-79 | with no result line after it, a result line's payload is the one held |
| `Streaming.NoResultLineNoResult` | src/services/api.ts:59 | without any result line no result is held |
| `Streaming.NoResultRejects` | src/services/api.ts:92-94 | a stream with no result line rejects with 'No result received from analysis' |
| `Streaming.UnterminatedTailDropped` | src/services/api.ts:62-69 | text after the final newline at stream end changes neither the calls nor the outcome |
| `Streaming.StreamTwoLines` | src/services/api.ts:62-86 | a text of two newline-terminated lines is handled as those lines in order |
| `Streaming.ProgressLineForwarded` | src/services/api.ts:76-77 | every non-blank progress line adds exactly its own (stage, progress) call and leaves `result` unchanged |
| `Streaming.ProgressForwardedVerbatim` | src/services/api.ts:76-77 | a counterexample to ordering: (analyzing, 50) then (uploading, 10) are forwarded as they are, out of order |
| `Streaming.ProgressThenResult` | src/services/api.ts:71-96 | an 'analyzing' 50 line then a result line give the calls `('analyzing', 50)`, `('complete', 100)` and resolve with the result |
| `Schedule.Ramp` | src/services/api.ts:109-114 | one stage gives 21 events |
| `Schedule.SimulatedSchedule` | src/services/api.ts:102-117 | 63 events, starting at ('uploading', 0) and ending at ('analyzing', 100) |
| `Schedule.Playback` | src/services/api.ts:108-117 | each stage played adds 21 events |
| `Schedule.PlaySchedule` | src/services/api.ts:101-118 | the nested loops produce exactly the simulated schedule |
| `Schedule.ScheduleIsThreeRamps` | src/services/api.ts:102-117 | the schedule is uploading, extracting, analyzing, 21 steps each |
| `Schedule.ScheduleAt` | src/services/api.ts:143-152 | 63 events; event `k` is stage `k / 21` at progress `5 * (k % 21)`, so each stage runs 0, 5, ..., 100 |
| `Schedule.RampNondecreasing` | src/services/api.ts:112-114 | within a stage progress rises from 0 to 100 |
| `Schedule.NondecreasingAppend` | src/services/api.ts:108-117 | stage after stage keeps the events non-decreasing |
| `Schedule.SimulatedRunOrdered` | src/services/api.ts:143-154 | schedule plus `('complete', 100)`: 64 events, non-decreasing in (stage, progress), last is complete |
| `Api.BaseUrl` | src/services/api.ts:21 | the configured URL when non-empty, else the local default; never empty |
| `Api.MockResultsSound` | src/services/api.ts:157-195 | every canned result is well formed (confidence 0..100, suspicious at most total) and lists artifacts exactly when some frame is suspicious |
| `Api.MockAnalyzeVideo` | src/services/api.ts:135-198 | the schedule then `('complete', 100)`, resolving with the picked, well-formed table entry |
| `Api.HandleRegularResponse` | src/services/api.ts:99-132 | the full schedule, then `('complete', 100)` only if `response.json()` resolved; settles as it did |
| `Api.AnalyzeRun` | src/services/api.ts:24-53 | the first call is `('uploading', 0)`; a failed fetch or a status outside 200..299 gives just that call and the fixed message |
| `Api.AnalyzeVideo` | src/services/api.ts:24-53 | the method's calls and outcome are those of `AnalyzeRun` for every network outcome |
| `Api.RejectionSources` | src/services/api.ts:38-52 | a rejection is the catch's fixed message (fetch or status failure), the reader's error, the stream's no-result message, or the JSON error, each only on its path |
| `Api.ReadFailureEscapesCatch` | src/services/api.ts:43-44 | a failed `reader.read()` keeps the calls of the lines already handled and rejects with the reader's error, not the catch's message |
| `Api.StreamRejectionEscapesCatch` | src/services/api.ts:43-44 | a stream without a result rejects with its own message, which the catch does not rewrite |
| `Api.RegularRunOrdered` | src/services/api.ts:31-47 | a successful non-streaming call makes 65 calls, non-decreasing, the last `('complete', 100)` |
| `Api.StreamCompleteNotLast` | src/services/api.ts:76-81 | a progress line after a result line is forwarded after `complete`; the call still resolves |
| `Backend.LastIndexOf` | backend-example.py:25 | the last occurrence: the character there, none after it, -1 exactly when absent |
| `Backend.NoDotRefused` | backend-example.py:25 | a name without a dot is refused |
| `Backend.Lower` | backend-example.py:25 | same length; each ASCII capital becomes its own small letter, every other character is kept, so no capital is left |
| `Backend.AllowedFile` | backend-example.py:24-25 | an accepted name holds a dot followed by three or four characters; `AllowedFileByExtension` gives the exact rule |
| `Backend.AllowedFileByExtension` | backend-example.py:22-25 | `stem.ext` is accepted iff the lower-cased text after the last dot is mp4, avi, mov or webm |
| `Backend.AllowedFileIgnoresCase` | backend-example.py:25 | the check gives the same answer for an extension and its lower-case form |
| `Backend.UpperCaseMp4Accepted` | backend-example.py:25 | `X.MP4` is accepted |
| `Backend.FrameIndices` | backend-example.py:36-41 | `min(n, max)` indices (none for an empty window), never more than `max`, the first being frame 0 |
| `Backend.FrameIndicesSound` | backend-example.py:36-41 | `0..n-1` for a short window and `k * step` otherwise; `min(n, max)` indices, strictly increasing, all inside the window |
| `Backend.FrameIndicesUnreadTail` | backend-example.py:39-41 | after the last sampled index remain `step - 1 + n % max` frames that are never read |
| `Backend.NineteenFrameWindow` | backend-example.py:39-41 | a 19-frame window sampled 10 times reads frames 0 to 9 only; the 9 frames 10 to 18 are never read |
| `Backend.DecimalString` | backend-example.py:88 | `str(n)`: non-empty decimal digits with no leading zero whose value is `n` |
| `Backend.AIGeneratedExplanation` | backend-example.py:88 | the explanation starts 'Multiple suspicious artifacts detected in ' and ends ' frames, indicating likely AI generation.' |
| `Backend.SuspiciousCount` | backend-example.py:67-72 | 0 for at most 5 frames, otherwise in `[0, n // 2)` |
| `Backend.Classify` | backend-example.py:80-103 | 0 suspicious gives Real 85..94; over 60 per cent gives AI-generated 80..94; otherwise Uncertain 50..69; frame counts reported as given |
| `Backend.AnalyzeFrames` | backend-example.py:53-103 | `totalFrames = n`, suspicious at most total, none for at most 5 frames, artifacts listed iff some frame is suspicious, result well formed |
| `Backend.AIGeneratedUnreachable` | backend-example.py:71-92 | the AI-generated verdict never comes out; any suspicious frame gives Uncertain |
| `Backend.ValidateUpload` | backend-example.py:108-117 | missing `video` field, then empty file name, then bad extension, each a 400 with its message; passes iff the field is there with an allowed name |
| `Backend.AnalyzeVideoRoute` | backend-example.py:105-135 | a result iff the checks pass and some frame was read; no frame is a 400; a result reports the frames read and is well formed |
| `VideoUpload.ValidateFile` | src/components/VideoUpload.tsx:20-33 | passes iff the type is one of the four and the size is at most 100 MiB; a bad type always gives the format message |
| `VideoUpload.SizeLimitInclusive` | src/components/VideoUpload.tsx:21-30 | 104857600 bytes pass, 104857601 get the size message |
| `VideoUpload.TypeCheckedFirst` | src/components/VideoUpload.tsx:24-30 | an oversized file of a bad type gets the format message |
| `VideoUpload.Upload.constructor` | src/components/VideoUpload.tsx:17-18 | no drag active, no error |
| `VideoUpload.Upload.HandleFile` | src/components/VideoUpload.tsx:35-44 | a valid file is handed on and clears the error; an invalid one sets the message and is not handed on |
| `VideoUpload.Upload.HandleDrag` | src/components/VideoUpload.tsx:46-54 | enter and over set the flag, leave clears it, other events leave it |
| `VideoUpload.Upload.HandleDrop` | src/components/VideoUpload.tsx:56-64 | the flag is cleared; the first dropped file, if any, is handled |
| `VideoUpload.Upload.HandleChange` | src/components/VideoUpload.tsx:66-71 | the input's first file, if any, is handled |
| `AppPage.ErrorText` | src/App.tsx:47 | an `Error`'s message, otherwise 'An unexpected error occurred' |
| `AppPage.App.ShowsResults` | src/App.tsx:159 | the results card needs a result; under the invariant `Valid` (the results view holds a result) the results view always renders it |
| `AppPage.App.constructor` | src/App.tsx:12-17 | the six initial values |
| `AppPage.App.HandleVideoSelect` | src/App.tsx:19-22 | selects the file and clears the error; view, stage, progress and result unchanged |
| `AppPage.App.HandleClearVideo` | src/App.tsx:24-29 | nothing selected, no result, upload view, no error; stage and progress untouched |
| `AppPage.App.OnProgress` | src/App.tsx:39-42 | copies stage and progress, nothing else |
| `AppPage.App.RunAnalysis` | src/App.tsx:34-49 | analyzing view, error cleared, progress reset to 0 and then the last call's values; success shows the result, failure returns to upload with the error text and the old result |
| `AppPage.App.HandleAnalyze` | src/App.tsx:31-50 | no selected video changes nothing; otherwise the results view shows a well-formed table result at 'complete' 100, with the invariant that the results view always has a result (src/App.tsx:159) |
| `AppPage.App.HandleNewAnalysis` | src/App.tsx:52-58 | nothing selected, no result, no error, upload view, progress 0 |

Proof helpers and predicates used in contracts have no row: `Lines.Join`, `Lines.Last`, `Lines.AllButLast`, `Lines.NewlineFreeSplit`, `Lines.SplitNewlineFreePrefix`, `Lines.JoinSnoc`, `Lines.JoinFrontBack`, `Lines.NewlineFreeConcat`, `Streaming.Concat`, `Streaming.IsTrimmed`, `Streaming.IsResultLine`, `Backend.LowerChar`, `Backend.IsRandint`, `Api.IsOkStatus` (`response.ok`), `Backend.MulStrictlyMonotone`, `Backend.DigitChar`, `Backend.DigitsValue`, `Types.EventLe`, `Types.Nondecreasing`, `Types.WellFormed` and `AppPage.App.Valid` (described in the `AppPage.App.ShowsResults` row).

## Left out

- An error thrown by the observer inside the inner `try` is caught and logged as a parse failure by the source. The model's observer never throws.
- Network and browser I/O is left out: `fetch`, `FormData`, `getReader`, `releaseLock` and the 'API Error' and parse-warning logs. `fetch` is the `HttpOutcome` input and the body is decoded text chunks.
- The `TextDecoder` is left out. It is never flushed at stream end, so a multi-byte character cut by the last chunk is lost; the model receives whole characters.
- `Api.Body`: a JSON value that is not a result record cannot be expressed. Such values are `null`, `false`, a number, a string such as `"ok"`, or an object of another shape. The source passes them through unchecked. Without a body stream, `response.json()` resolving with `null` (or any non-record) resolves `analyzeVideo` with that value after the full schedule and `('complete', 100)`, since `handleRegularResponse` has no `!result` check. In streaming mode a falsy `data.result` (modelled as `ResultLine(None)`) ends in the rejection 'No result received from analysis'; a truthy non-record resolves as it is. `Api.RegularRunOrdered` and `Api.AnalyzeRun` are therefore stated only for record results.
- `JSON.parse` is a supplied function into `Parsed`. A progress line whose `stage` is not one of the four names, or whose `progress` is not an integer, is forwarded verbatim by the source; the model cannot express such a value.
- The optional observer (`onProgress?.`) is always present in the model. The event log is what it would receive.
- Timing is left out: the `setTimeout` pauses, the per-stage durations (1000/2000/3000 ms and 1500/2000/3000 ms) and the concurrent join in `handleRegularResponse`.
- `Api.HandleRegularResponse`: when `response.json()` rejects, the model lists the whole schedule as the observer calls. In the source the rejection can come back while the schedule is still playing.
- Floating-point progress `(i / steps) * 100` is modelled as the exact `5 * i`; the float value can differ in its last bits for some `i`.
- `Backend.Classify`: `suspicious_count > len(frames) * 0.6` is compared in floating point by the source and as `5 * s > 3 * n` here. For the counts the route can draw the two agree, because that branch is never taken.
- `Backend.Lower`: Python's `str.lower()` is modelled on ASCII letters only. The only non-ASCII characters that lower-case into ASCII are KELVIN SIGN (to `k`) and the dotted capital I (to `i` plus a combining dot). Neither can complete one of the four extensions, so `allowed_file` gives the same answer.
- `Backend.IsRandint`: `np.random.randint` is an oracle function of its bounds. The same bounds would give the same draw, but the placeholder never draws twice with the same bounds.
- `Backend.FrameIndices` takes `max_frame_count` as an integer. Video decoding with `cv2` (`VideoCapture`, `get`, `set`, `read`, `release`) and `int(30 * fps)` are left out.
- `Backend.AnalyzeVideoRoute` takes the number of frames read as an input. The read loop of `extract_frames` is left out.
- The Flask app is left out: CORS, `jsonify`, the `MAX_CONTENT_LENGTH` limit (enforced when `request.files` is first read inside the `try`, so as written it ends in the 500 reply, not a 413), the 500 reply for exceptions, `secure_filename`, the temporary file and its clean-up, `time.sleep` and the health route.
- A missing (None) file name from the framework is left out; file names are strings.
- Rendering is left out: all JSX, `AnalysisResults.tsx`, `AnalysisProgress.tsx` (only its stage order is used), `preventDefault` and `stopPropagation`.
- User actions during an analysis are not interleaved with it. The page hides the controls that could start them while a run is in flight.
- Browsers commonly report AVI and MOV files as `video/x-msvideo` and `video/quicktime`, not as the `video/avi` and `video/mov` that `validateFile` lists. The model takes the MIME type as given.
