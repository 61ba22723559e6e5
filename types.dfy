/**
 The data contract shared by the client and the backend: the analysis result,
 the four progress stages and the progress events an observer receives.
 */
module Types {

  datatype Option<+T> = None | Some(value: T)

  /** A settled promise: resolved with a value or rejected with an error. */
  datatype Result<+T, +E> = Ok(value: T) | Err(error: E)

  /** The stages an observer can be told about, in the order the progress view lists them. */
  datatype Stage = Uploading | Extracting | Analyzing | Complete

  /** Position of a stage in the progress view's fixed stage list. */
  function Ordinal(s: Stage): (n: nat)
    ensures n < 4
    ensures n == 3 <==> s == Complete
  {
    match s
    case Uploading => 0
    case Extracting => 1
    case Analyzing => 2
    case Complete => 3
  }

  /** One call of the observer: `onProgress(stage, progress)`. */
  datatype Event = Event(stage: Stage, progress: int)

  const CompleteEvent := Event(Complete, 100)

  /** Lexicographic order on (stage ordinal, progress). */
  predicate EventLe(a: Event, b: Event) {
    Ordinal(a.stage) < Ordinal(b.stage)
    || (Ordinal(a.stage) == Ordinal(b.stage) && a.progress <= b.progress)
  }

  /** Every event is at or after each event before it. */
  predicate Nondecreasing(events: seq<Event>) {
    forall i, j :: 0 <= i < j < |events| ==> EventLe(events[i], events[j])
  }

  datatype Prediction = AIGenerated | Real | Uncertain

  datatype FrameAnalysis = FrameAnalysis(totalFrames: int, suspiciousFrames: int, artifacts: seq<string>)

  datatype AnalysisResult = AnalysisResult(
    prediction: Prediction,
    confidence: int,
    explanation: string,
    frameAnalysis: Option<FrameAnalysis>)

  /** The invariants the data model demands of every result shown to a user. */
  predicate WellFormed(r: AnalysisResult) {
    && 0 <= r.confidence <= 100
    && r.explanation != ""
    && (r.frameAnalysis.Some? ==>
          var fa := r.frameAnalysis.value;
          && 0 <= fa.suspiciousFrames <= fa.totalFrames
          && forall k :: 0 <= k < |fa.artifacts| ==> fa.artifacts[k] != "")
  }
}
