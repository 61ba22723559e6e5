/**
 The page's state machine: six pieces of component state and the handlers
 that assign them. The analysis is run through the mock client, as the page does.
 */
module AppPage {
  import opened Types
  import Api
  import opened VideoUpload

  /** Which of the three views the page shows. */
  datatype AppState = UploadView | AnalyzingView | ResultsView

  /** What a rejected analysis promise carries: an `Error` with its message, or any other value. */
  datatype Thrown = ErrorObject(message: string) | OtherValue

  const UnexpectedMessage := "An unexpected error occurred"

  /** `err instanceof Error ? err.message : 'An unexpected error occurred'`. */
  function ErrorText(err: Thrown): (text: string)
    ensures err.ErrorObject? ==> text == err.message
    ensures err.OtherValue? ==> text == UnexpectedMessage
  {
    match err
    case ErrorObject(message) => message
    case OtherValue => UnexpectedMessage
  }

  class App {
    var state: AppState
    var selectedVideo: Option<VideoFile>
    var analysisStage: Stage
    var progress: int
    var result: Option<AnalysisResult>
    var error: Option<string>

    /** The results view is only ever entered with a result to show. */
    ghost predicate Valid()
      reads this
    {
      state == ResultsView ==> result.Some?
    }

    /**
     `state === 'results' && result`: the results card is rendered. Under the
     invariant, the results view is never left without its card.
     */
    predicate ShowsResults()
      reads this
      ensures Valid() && state == ResultsView ==> ShowsResults()
      ensures ShowsResults() ==> result.Some?
    {
      state == ResultsView && result.Some?
    }

    constructor ()
      ensures Valid()
      ensures state == UploadView && selectedVideo == None && analysisStage == Uploading
      ensures progress == 0 && result == None && error == None
    {
      state := UploadView;
      selectedVideo := None;
      analysisStage := Uploading;
      progress := 0;
      result := None;
      error := None;
    }

    /** `handleVideoSelect`: records the file and clears the error; nothing else changes. */
    method HandleVideoSelect(file: VideoFile)
      requires Valid()
      modifies this
      ensures Valid()
      ensures selectedVideo == Some(file) && error == None
      ensures state == old(state) && analysisStage == old(analysisStage)
      ensures progress == old(progress) && result == old(result)
    {
      selectedVideo := Some(file);
      error := None;
    }

    /** `handleClearVideo`: back to the upload view with nothing selected; progress is kept. */
    method HandleClearVideo()
      requires Valid()
      modifies this
      ensures Valid() && !ShowsResults()
      ensures selectedVideo == None && state == UploadView && result == None && error == None
      ensures analysisStage == old(analysisStage) && progress == old(progress)
    {
      selectedVideo := None;
      state := UploadView;
      result := None;
      error := None;
    }

    /** The progress callback passed to the client: copies the stage and the percentage. */
    method OnProgress(stage: Stage, percent: int)
      requires Valid()
      modifies this
      ensures Valid()
      ensures analysisStage == stage && progress == percent
      ensures state == old(state) && selectedVideo == old(selectedVideo)
      ensures result == old(result) && error == old(error)
    {
      analysisStage := stage;
      progress := percent;
    }

    /**
     The body of `handleAnalyze` once a video is selected, for a client call
     whose observer calls are `events` and which settles with `outcome`: enter
     the analyzing view, follow every progress call, then show the result, or
     return to the upload view with the error text and the old result.
     */
    method RunAnalysis(events: seq<Event>, outcome: Result<AnalysisResult, Thrown>)
      requires Valid() && selectedVideo.Some?
      modifies this
      ensures Valid()
      ensures selectedVideo == old(selectedVideo)
      ensures events == [] ==> analysisStage == old(analysisStage) && progress == 0
      ensures events != [] ==>
                analysisStage == events[|events| - 1].stage && progress == events[|events| - 1].progress
      ensures outcome.Ok? ==> state == ResultsView && result == Some(outcome.value) && error == None
      ensures outcome.Err? ==>
                state == UploadView && result == old(result) && error == Some(ErrorText(outcome.error))
    {
      state := AnalyzingView;
      error := None;
      progress := 0;
      for k := 0 to |events|
        invariant Valid() && state == AnalyzingView && error == None
        invariant selectedVideo == old(selectedVideo) && result == old(result)
        invariant k == 0 ==> analysisStage == old(analysisStage) && progress == 0
        invariant k > 0 ==> analysisStage == events[k - 1].stage && progress == events[k - 1].progress
      {
        OnProgress(events[k].stage, events[k].progress);
      }
      match outcome {
        case Ok(r) =>
          result := Some(r);
          state := ResultsView;
        case Err(err) =>
          error := Some(ErrorText(err));
          state := UploadView;
      }
    }

    /**
     `handleAnalyze`: nothing happens without a selected video; otherwise the
     mock client runs (`pick` is its random table index) and the page ends in
     the results view with the 'complete' stage at 100.
     */
    method HandleAnalyze(pick: nat)
      requires Valid()
      requires pick < |Api.MockResults|
      modifies this
      ensures Valid()
      ensures old(selectedVideo) == None ==>
                state == old(state) && selectedVideo == None && analysisStage == old(analysisStage)
                && progress == old(progress) && result == old(result) && error == old(error)
      ensures old(selectedVideo).Some? ==>
                && state == ResultsView && ShowsResults()
                && result == Some(Api.MockResults[pick]) && WellFormed(result.value)
                && error == None && selectedVideo == old(selectedVideo)
                && analysisStage == Complete && progress == 100
    {
      if selectedVideo == None {
        return;
      }
      var events, r := Api.MockAnalyzeVideo(pick);
      RunAnalysis(events, Ok(r));
    }

    /** `handleNewAnalysis`: a fresh upload view with progress 0. */
    method HandleNewAnalysis()
      requires Valid()
      modifies this
      ensures Valid() && !ShowsResults()
      ensures selectedVideo == None && state == UploadView && result == None
      ensures error == None && progress == 0
      ensures analysisStage == old(analysisStage)
    {
      selectedVideo := None;
      state := UploadView;
      result := None;
      error := None;
      progress := 0;
    }
  }
}
