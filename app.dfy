/**
 * The image analyzer of App.tsx: a selected file, its preview URL, a loading
 * flag and either a result or an error. `handleAnalyze` is asynchronous; it
 * is split into the synchronous part before the first `await`
 * (`StartAnalyze`) and the continuation once the file read and the remote
 * call have settled (`FinishAnalyze`), whose outcomes are parameters.
 */
module App {

  import opened Outcomes
  import opened ImageUtils
  import opened GeminiService

  const UnknownErrorMessage := "An unknown error occurred."

  /**
   * The `try` block of `handleAnalyze`: read the file, then ask the model.
   * A failed read throws before the request is made, so the reply is not consulted.
   */
  function AnalyzeFile(file: File, read: ReadOutcome, reply: Reply): (r: Result<string, Thrown>)
    ensures r.Ok? <==> FileToGenerativePart(file, read).Ok? && reply.Responded? && Truthy(reply.text)
    ensures r.Ok? ==> reply.text == Some(r.value) && r.value != ""
    ensures FileToGenerativePart(file, read).Err? ==> r == Err(FileToGenerativePart(file, read).error)
    ensures r.Err? && r.error.ErrorObject? ==> r.error.message != ""
  {
    match FileToGenerativePart(file, read)
    case Err(e) => Err(e)
    case Ok(_) => AnalyzeImage(reply)
  }

  class ImageAnalyzer {
    var imageFile: Option<File>
    var previewUrl: Option<string>
    var isLoading: bool
    var result: Option<string>
    var error: Option<string>

    /**
     * The invariant every handler keeps: a result and an error are never shown
     * together, neither is an empty string, and while a request is in flight
     * neither is set.
     */
    ghost predicate Valid()
      reads this
    {
      && !(result.Some? && error.Some?)
      && (result.Some? ==> result.value != "")
      && (error.Some? ==> error.value != "")
      && (isLoading ==> result.None? && error.None?)
    }

    /** The placeholder text is rendered when nothing is loading and neither message is truthy. */
    predicate ShowsPlaceholder()
      reads this
    {
      !isLoading && !Truthy(result) && !Truthy(error)
    }

    constructor ()
      ensures Valid()
      ensures imageFile.None? && previewUrl.None? && !isLoading && result.None? && error.None?
    {
      imageFile, previewUrl, isLoading, result, error := None, None, false, None, None;
    }

    /** `handleImageSelect`: take the new file and discard any earlier result and error. */
    method SelectImage(file: File)
      requires Valid()
      modifies this
      ensures Valid()
      ensures imageFile == Some(file) && result.None? && error.None?
      ensures previewUrl == old(previewUrl) && isLoading == old(isLoading)
    {
      imageFile := Some(file);
      result := None;
      error := None;
    }

    /** `handleClearImage`: everything but the loading flag back to null. */
    method ClearImage()
      requires Valid()
      modifies this
      ensures Valid()
      ensures imageFile.None? && previewUrl.None? && result.None? && error.None?
      ensures isLoading == old(isLoading)
    {
      imageFile := None;
      previewUrl := None;
      result := None;
      error := None;
    }

    /**
     * The preview effect, run after `imageFile` changes: no file clears the
     * preview, otherwise the preview becomes the object URL the browser created
     * for the file (a parameter).
     */
    method SyncPreview(objectUrl: string)
      requires Valid()
      modifies this
      ensures Valid()
      ensures previewUrl == if imageFile.Some? then Some(objectUrl) else None
      ensures imageFile == old(imageFile) && isLoading == old(isLoading)
      ensures result == old(result) && error == old(error)
    {
      if imageFile.None? {
        previewUrl := None;
        return;
      }
      previewUrl := Some(objectUrl);
    }

    /**
     * `handleAnalyze` up to its first `await`: nothing happens without a file
     * or while a request is in flight; otherwise loading starts and the
     * previous result and error are cleared. `started` returns the file the
     * request reads.
     */
    method StartAnalyze() returns (started: Option<File>)
      requires Valid()
      modifies this
      ensures Valid()
      ensures started.Some? <==> old(imageFile).Some? && !old(isLoading)
      ensures started.None? ==> unchanged(this)
      ensures started.Some? ==> started == imageFile
      ensures started.Some? ==> isLoading && result.None? && error.None?
      ensures imageFile == old(imageFile) && previewUrl == old(previewUrl)
    {
      if imageFile.None? || isLoading {
        return None;
      }
      started := imageFile;
      isLoading := true;
      result := None;
      error := None;
    }

    /**
     * The continuation of a started `handleAnalyze`: the text becomes the
     * result, or the thrown value becomes the error (its message, or the
     * fallback for a non-Error), and loading ends either way.
     */
    method FinishAnalyze(file: File, read: ReadOutcome, reply: Reply)
      requires Valid() && isLoading
      modifies this
      ensures Valid()
      ensures !isLoading
      ensures AnalyzeFile(file, read, reply).Ok? ==>
                result == Some(AnalyzeFile(file, read, reply).value) && error.None?
      ensures AnalyzeFile(file, read, reply).Err? ==>
                error == Some(MessageOr(AnalyzeFile(file, read, reply).error, UnknownErrorMessage)) && result.None?
      ensures imageFile == old(imageFile) && previewUrl == old(previewUrl)
    {
      var outcome := AnalyzeFile(file, read, reply);
      match outcome {
        case Ok(text) =>
          result := Some(text);
        case Err(e) =>
          error := Some(MessageOr(e, UnknownErrorMessage));
      }
      isLoading := false;
    }
  }

  /** Under the invariant the placeholder shows exactly when not loading and both messages are null. */
  lemma PlaceholderIffIdle(a: ImageAnalyzer)
    requires a.Valid()
    ensures a.ShowsPlaceholder() <==> !a.isLoading && a.result.None? && a.error.None?
  {
  }

  /**
   * A full run: select, start, and a reply with text. The text is shown and
   * the error is not; a second start while loading is refused.
   */
  method AnalyzeSession(file: File, data: string, text: string) returns (a: ImageAnalyzer)
    requires data != "" && ',' !in data && text != ""
    ensures a.result == Some(text) && a.error.None? && !a.isLoading
  {
    a := new ImageAnalyzer();
    a.SelectImage(file);
    var started := a.StartAnalyze();
    var again := a.StartAnalyze();
    assert again.None?;
    FileSegmentIsData(file, "data:;base64," + data, "data:;base64", data, "");
    assert "data:;base64," + data == "data:;base64" + [','] + data + "";
    a.FinishAnalyze(file, LoadedText("data:;base64," + data), Responded(Some(text)));
  }
}
