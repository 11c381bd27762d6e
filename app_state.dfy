/** The state controller of `App.tsx`: five state fields updated by `handleImageSelect`
    (split into its synchronous part and the completion of its `await`) and by
    `handleReset`, plus the three render conditions. Object URLs are abstract handles
    drawn from a counter; a ghost set records the handles not yet revoked. */
module AppState {
  import opened Wrappers
  import opened Types
  import GeminiService
  import ImageUploader

  /** An object URL, as the browser hands it out. */
  type Handle = nat

  const UnknownErrorMessage := "An unknown error occurred. Please try again."

  /** The five state fields at one moment. */
  datatype UiState = UiState(
    imageFile: Option<File>,
    imageUrl: Option<Handle>,
    analysisResult: Option<AnalysisResult>,
    isLoading: bool,
    error: Option<string>)

  /** The state the component starts in. */
  const Initial := UiState(None, None, None, false, None)

  /** The message stored for a rejection: an `Error`'s message, or the unknown-error text. */
  function ErrorText(thrown: GeminiService.Thrown): (message: string)
    ensures thrown.ErrorValue? ==> message == thrown.message
    ensures thrown.NonErrorValue? ==> message == UnknownErrorMessage
  {
    match thrown
    case ErrorValue(m) => m
    case NonErrorValue => UnknownErrorMessage
  }

  // ---------------------------------------------------------------------------
  // Render conditions (lines 52, 55, 56, 68)
  // ---------------------------------------------------------------------------

  /** `!analysisResult && !isLoading`: the uploader is mounted. */
  predicate ShowUploader(s: UiState)
    ensures ShowUploader(s) ==> !s.isLoading && s.analysisResult.None?
  {
    s.analysisResult.None? && !s.isLoading
  }

  /** `isLoading`: the progress indicator is mounted. */
  predicate ShowLoader(s: UiState)
    ensures ShowLoader(s) ==> !ShowUploader(s) && !ShowErrorPanel(s)
  {
    s.isLoading
  }

  /** `error && !isLoading`: the error panel, with its Try Again button, is mounted.
      An empty message is falsy and hides the panel. */
  predicate ShowErrorPanel(s: UiState)
    ensures ShowErrorPanel(s) ==> !s.isLoading && s.error.Some?
  {
    s.error.Some? && s.error.value != "" && !s.isLoading
  }

  /** `analysisResult && !isLoading && imageUrl`: the result view, with its reset
      button, is mounted; never together with the uploader or the progress indicator. */
  predicate ShowResult(s: UiState)
    ensures ShowResult(s) ==> !ShowUploader(s) && !ShowLoader(s)
    ensures ShowResult(s) ==> s.imageUrl.Some? && s.analysisResult.Some?
  {
    s.analysisResult.Some? && !s.isLoading && s.imageUrl.Some?
  }

  /** Both places that call `handleReset` are mounted only when not loading, so a
      reset is never offered while an analysis is in flight. */
  predicate ResetOffered(s: UiState)
    ensures ResetOffered(s) ==> !s.isLoading
  {
    ShowErrorPanel(s) || ShowResult(s)
  }

  /** The uploader receives `isLoading` as a prop, but it is only mounted when that
      prop is false; and when it is mounted the result view is not. */
  lemma UploaderSeesNotLoading(s: UiState)
    requires ShowUploader(s)
    ensures !s.isLoading && !ShowResult(s) && !ShowLoader(s)
  {
  }

  /** Nothing at all is rendered exactly when, not loading, a result is stored but no image URL is. */
  lemma BlankScreenIff(s: UiState)
    ensures (!ShowUploader(s) && !ShowLoader(s) && !ShowErrorPanel(s) && !ShowResult(s))
            <==> (!s.isLoading && s.analysisResult.Some? && s.imageUrl.None?
                  && (s.error.None? || s.error.value == ""))
  {
  }

  // ---------------------------------------------------------------------------
  // The component
  // ---------------------------------------------------------------------------

  class App {
    var imageFile: Option<File>
    var imageUrl: Option<Handle>
    var analysisResult: Option<AnalysisResult>
    var isLoading: bool
    var error: Option<string>
    /** The next object URL `URL.createObjectURL` will hand out. */
    var nextHandle: Handle
    /** Object URLs created and not yet revoked. */
    ghost var live: set<Handle>
    /** Analyses started whose `await` has not yet resumed. */
    ghost var pending: nat

    ghost predicate Valid()
      reads this
    {
      && (imageUrl.Some? ==> imageUrl.value in live)
      && (forall h :: h in live ==> h < nextHandle)
      && (isLoading ==> pending > 0)
    }

    function State(): UiState
      reads this
    {
      UiState(imageFile, imageUrl, analysisResult, isLoading, error)
    }

    /** Every live handle is the displayed one: the property a session without leaks keeps. */
    ghost predicate NoLeak()
      reads this
    {
      live <= if imageUrl.Some? then {imageUrl.value} else {}
    }

    constructor ()
      ensures Valid() && NoLeak()
      ensures State() == Initial
      ensures live == {} && pending == 0
    {
      imageFile, imageUrl, analysisResult, isLoading, error := None, None, None, false, None;
      nextHandle := 0;
      live := {};
      pending := 0;
    }

    /** Lines 16-23: the part of `handleImageSelect` that runs before the `await`.
        Ignored while loading; otherwise stores the file and a fresh object URL,
        clears the result and the error, and starts loading. The previous URL is
        overwritten without being revoked. */
    method HandleImageSelect(file: File) returns (started: bool)
      requires Valid()
      modifies this
      ensures Valid()
      ensures started == !old(isLoading)
      ensures !started ==> State() == old(State()) && live == old(live)
                           && pending == old(pending) && nextHandle == old(nextHandle)
      ensures started ==>
        && State() == UiState(Some(file), Some(old(nextHandle)), None, true, None)
        && old(nextHandle) !in old(live)
        && live == old(live) + {old(nextHandle)}
        && nextHandle == old(nextHandle) + 1
        && pending == old(pending) + 1
    {
      if isLoading {
        return false;
      }
      imageFile := Some(file);
      imageUrl := Some(nextHandle);
      live := live + {nextHandle};
      nextHandle := nextHandle + 1;
      analysisResult := None;
      error := None;
      isLoading := true;
      pending := pending + 1;
      started := true;
    }

    /** Lines 25-32: the `await` resumes. A result is stored on success, the error
        text on failure, and loading ends either way. Nothing checks that the
        request is still the current one. */
    method Complete(outcome: Result<AnalysisResult, GeminiService.Thrown>)
      requires Valid() && pending > 0
      modifies this
      ensures Valid()
      ensures !isLoading && pending == old(pending) - 1
      ensures imageFile == old(imageFile) && imageUrl == old(imageUrl)
      ensures live == old(live) && nextHandle == old(nextHandle)
      ensures outcome.Success? ==> analysisResult == Some(outcome.value) && error == old(error)
      ensures outcome.Failure? ==> error == Some(ErrorText(outcome.error)) && analysisResult == old(analysisResult)
    {
      if outcome.Success? {
        analysisResult := Some(outcome.value);
      } else {
        error := Some(if outcome.error.ErrorValue? then outcome.error.message else UnknownErrorMessage);
      }
      isLoading := false;
      pending := pending - 1;
    }

    /** Lines 36-45: `handleReset` clears all five fields and revokes the previous
        object URL iff there was one. An in-flight analysis is not cancelled. */
    method HandleReset() returns (revoked: Option<Handle>)
      requires Valid()
      modifies this
      ensures Valid()
      ensures State() == Initial
      ensures revoked == old(imageUrl)
      ensures live == if revoked.Some? then old(live) - {revoked.value} else old(live)
      ensures nextHandle == old(nextHandle) && pending == old(pending)
    {
      revoked := imageUrl;
      imageFile := None;
      imageUrl := None;
      analysisResult := None;
      error := None;
      isLoading := false;
      if revoked.Some? {
        live := live - {revoked.value};
      }
    }

    /** `handleImageSelect` with the previous object URL revoked before the new one is
        stored: the release on replacement that the reset handler already performs. */
    method HandleImageSelectReleasing(file: File) returns (started: bool, revoked: Option<Handle>)
      requires Valid()
      modifies this
      ensures Valid()
      ensures started == !old(isLoading)
      ensures !started ==> State() == old(State()) && live == old(live) && revoked.None?
      ensures started ==>
        && State() == UiState(Some(file), Some(old(nextHandle)), None, true, None)
        && revoked == old(imageUrl)
        && live == (if revoked.Some? then old(live) - {revoked.value} else old(live)) + {old(nextHandle)}
      ensures nextHandle == old(nextHandle) + (if started then 1 else 0)
      ensures pending == old(pending) + (if started then 1 else 0)
      ensures old(NoLeak()) ==> NoLeak()
    {
      revoked := None;
      if isLoading {
        return false, None;
      }
      if imageUrl.Some? {
        revoked := imageUrl;
        live := live - {imageUrl.value};
      }
      imageFile := Some(file);
      imageUrl := Some(nextHandle);
      live := live + {nextHandle};
      nextHandle := nextHandle + 1;
      analysisResult := None;
      error := None;
      isLoading := true;
      pending := pending + 1;
      started := true;
    }
  }

  // ---------------------------------------------------------------------------
  // Sequences of events
  // ---------------------------------------------------------------------------

  /** A select followed by its own completion leaves at most one of result and error set. */
  method SelectThenComplete(app: App, file: File, outcome: Result<AnalysisResult, GeminiService.Thrown>)
    requires app.Valid() && !app.isLoading
    modifies app
    ensures app.Valid() && !app.isLoading
    ensures !(app.analysisResult.Some? && app.error.Some?)
    ensures outcome.Success? <==> app.analysisResult.Some?
    ensures outcome.Failure? <==> app.error.Some?
  {
    var started := app.HandleImageSelect(file);
    app.Complete(outcome);
  }

  /** End to end: what the error panel can show after analysing the selected file
      is one of three fixed texts, never the empty-result message. */
  method SelectThenAnalyse(app: App, file: File, read: GeminiService.ReadOutcome,
                           service: GeminiService.ImagePart -> GeminiService.CallOutcome)
    requires app.Valid() && !app.isLoading
    modifies app
    ensures app.Valid() && !app.isLoading
    ensures app.error.Some? ==>
      app.error.value in {GeminiService.InvalidFormatMessage, GeminiService.AnalysisFailedMessage, UnknownErrorMessage}
    ensures app.error != Some(GeminiService.EmptyResultMessage)
    ensures app.error.Some? ==> ShowErrorPanel(app.State())
    ensures app.analysisResult.Some? ==> ShowResult(app.State())
  {
    var started := app.HandleImageSelect(file);
    var outcome := GeminiService.AnalyzeImageForLocation(file, read, service);
    GeminiService.FailuresAreOneOfTwoMessages(file, read, service);
    app.Complete(outcome);
  }

  /** A second select while loading changes nothing and starts no second analysis. */
  method SelectWhileLoading(app: App, first: File, second: File)
    requires app.Valid() && !app.isLoading
    modifies app
    ensures app.Valid()
    ensures app.State() == UiState(Some(first), Some(old(app.nextHandle)), None, true, None)
    ensures app.pending == old(app.pending) + 1
  {
    var started := app.HandleImageSelect(first);
    var again := app.HandleImageSelect(second);
    assert !again;
  }

  /** No guard against a late completion: after a reset during loading, the earlier
      analysis still stores its result, and the page then renders nothing. */
  method ResetThenLateSuccess(app: App, file: File, result: AnalysisResult)
    requires app.Valid() && !app.isLoading
    modifies app
    ensures app.Valid()
    ensures app.analysisResult == Some(result) && app.imageUrl.None? && app.error.None?
    ensures !ShowUploader(app.State()) && !ShowLoader(app.State())
    ensures !ShowErrorPanel(app.State()) && !ShowResult(app.State())
  {
    var started := app.HandleImageSelect(file);
    var revoked := app.HandleReset();
    app.Complete(Success(result));
  }

  /** A late failure after a reset stores its message: the error panel comes back. */
  method ResetThenLateFailure(app: App, file: File, thrown: GeminiService.Thrown)
    requires app.Valid() && !app.isLoading
    modifies app
    ensures app.Valid()
    ensures app.error == Some(ErrorText(thrown)) && app.analysisResult.None? && app.imageUrl.None?
  {
    var started := app.HandleImageSelect(file);
    var revoked := app.HandleReset();
    app.Complete(Failure(thrown));
  }

  /** With a reset during loading, a second select can start while the first analysis
      is still in flight; when both complete (a success, then a failure), the result
      and the error are both stored. */
  method ResetReselectThenBothComplete(app: App, first: File, second: File,
                                       result: AnalysisResult, thrown: GeminiService.Thrown)
    requires app.Valid() && !app.isLoading
    modifies app
    ensures app.Valid() && !app.isLoading
    ensures app.analysisResult == Some(result) && app.error == Some(ErrorText(thrown))
    ensures app.imageFile == Some(second)
  {
    var s1 := app.HandleImageSelect(first);
    var revoked := app.HandleReset();
    var s2 := app.HandleImageSelect(second);
    app.Complete(Success(result));
    app.Complete(Failure(thrown));
  }

  /** Reset from any state returns to the initial state and leaves no handle displayed. */
  method ResetFromAnyState(app: App)
    requires app.Valid()
    modifies app
    ensures app.State() == Initial && !ShowResult(app.State()) && ShowUploader(app.State())
    ensures old(app.imageUrl).Some? ==> old(app.imageUrl).value !in app.live
  {
    var revoked := app.HandleReset();
  }

  /** After a failure the uploader is shown again; a new select then overwrites the
      object URL without revoking it, so the first handle stays live although nothing
      refers to it, and a later reset revokes only the second. */
  method FailureThenReselectLeaks(app: App, first: File, second: File, thrown: GeminiService.Thrown)
    requires app.Valid() && !app.isLoading && app.NoLeak()
    modifies app
    ensures app.Valid()
    ensures !app.NoLeak()
    ensures old(app.nextHandle) in app.live && app.imageUrl == Some(old(app.nextHandle) + 1)
  {
    var s1 := app.HandleImageSelect(first);
    app.Complete(Failure(thrown));
    assert ShowUploader(app.State());
    var s2 := app.HandleImageSelect(second);
    assert old(app.nextHandle) in app.live;
  }

  /** The same sequence with the releasing select keeps every live handle displayed. */
  method FailureThenReselectReleasing(app: App, first: File, second: File, thrown: GeminiService.Thrown)
    requires app.Valid() && !app.isLoading && app.NoLeak()
    modifies app
    ensures app.Valid() && app.NoLeak()
    ensures old(app.nextHandle) !in app.live && app.imageUrl == Some(old(app.nextHandle) + 1)
  {
    var s1, r1 := app.HandleImageSelectReleasing(first);
    app.Complete(Failure(thrown));
    var s2, r2 := app.HandleImageSelectReleasing(second);
  }
  /** A drop on the mounted uploader: the dropped file list goes through the gate and,
      if a file comes out, into `handleImageSelect`. A non-image or an empty drop leaves
      the state unchanged; an accepted one always starts an analysis, since the
      uploader is only mounted while not loading. */
  method DropOnUploader(app: App, uploader: ImageUploader.Uploader, files: Option<seq<File>>)
    requires app.Valid() && ShowUploader(app.State())
    modifies app, uploader
    ensures app.Valid() && !uploader.isDragging
    ensures ImageUploader.Accepted(false, files).None? ==> app.State() == old(app.State()) && app.live == old(app.live)
    ensures ImageUploader.Accepted(false, files).Some? ==>
      app.isLoading && app.imageFile == ImageUploader.Accepted(false, files) && app.pending == old(app.pending) + 1
  {
    var selected := uploader.HandleDrop(files, app.isLoading);
    if selected.Some? {
      var started := app.HandleImageSelect(selected.value);
    }
  }
}
