/**
 * The grocery-list uploader of components/GroceryList.tsx: a held audio or
 * video file, a processing flag and an error. The items a run produces go to
 * the parent through `onAddItems`; the model records those calls, in order,
 * in `addedBatches`. `handleProcessAudio` is split into `StartProcess` and
 * `FinishProcess`, and the outcome of the audio request is a parameter.
 */
module GroceryList {

  import opened Outcomes
  import opened Strings
  import opened ImageUtils

  const InvalidTypeMessage :=
    "Invalid file type. Please upload a supported audio or video file (e.g., MP3, WAV, MP4, MOV)."
  const AudioFailedFallback := "An unknown error occurred while processing the audio."

  /** The MIME check of `handleFileSelect`. */
  predicate IsAcceptedType(mimeType: string)
  {
    StartsWith(mimeType, "audio/") || StartsWith(mimeType, "video/")
  }

  /**
   * The `try` block of `handleProcessAudio`: read the file, then send it. A
   * failed read throws before the request, so the request's outcome is not
   * consulted; `audio` is how the request settled (its items or what it threw).
   */
  function ProcessAudio(file: File, read: ReadOutcome, audio: Result<seq<string>, Thrown>): (r: Result<seq<string>, Thrown>)
    ensures FileToGenerativePart(file, read).Err? ==> r == Err(FileToGenerativePart(file, read).error)
    ensures FileToGenerativePart(file, read).Ok? ==> r == audio
    ensures read.ReadFailed? ==> r == Err(NonError)
    ensures read.LoadedOther? ==> r == Err(NewError(ReadFailedMessage))
    ensures r.Ok? ==> read.LoadedText? && audio.Ok?
  {
    match FileToGenerativePart(file, read)
    case Err(e) => Err(e)
    case Ok(_) => audio
  }

  class Uploader {
    var audioFile: Option<File>
    var isProcessing: bool
    var error: Option<string>
    /** The arguments of every `onAddItems` call so far, oldest first. */
    var addedBatches: seq<seq<string>>

    constructor ()
      ensures audioFile.None? && !isProcessing && error.None? && addedBatches == []
    {
      audioFile, isProcessing, error, addedBatches := None, false, None, [];
    }

    /**
     * `handleFileSelect`: an audio or video file replaces the held one and
     * clears the error; any other file only sets the invalid-type error.
     */
    method SelectFile(file: File)
      modifies this
      ensures IsAcceptedType(file.mimeType) ==> audioFile == Some(file) && error.None?
      ensures !IsAcceptedType(file.mimeType) ==> audioFile == old(audioFile) && error == Some(InvalidTypeMessage)
      ensures isProcessing == old(isProcessing) && addedBatches == old(addedBatches)
    {
      if StartsWith(file.mimeType, "audio/") || StartsWith(file.mimeType, "video/") {
        audioFile := Some(file);
        error := None;
      } else {
        error := Some(InvalidTypeMessage);
      }
    }

    /** `handleClearFile`: forget the file and nothing else. */
    method ClearFile()
      modifies this
      ensures audioFile.None?
      ensures isProcessing == old(isProcessing) && error == old(error) && addedBatches == old(addedBatches)
    {
      audioFile := None;
    }

    /**
     * `handleProcessAudio` up to its first `await`: nothing happens without a
     * file; otherwise processing starts and the error is cleared. There is no
     * guard against a run already in progress. `started` is the file the run reads.
     */
    method StartProcess() returns (started: Option<File>)
      modifies this
      ensures started == old(audioFile)
      ensures started.None? ==> unchanged(this)
      ensures started.Some? ==> isProcessing && error.None?
      ensures audioFile == old(audioFile) && addedBatches == old(addedBatches)
    {
      if audioFile.None? {
        return None;
      }
      started := audioFile;
      isProcessing := true;
      error := None;
    }

    /**
     * The continuation of a started run: on success the items are handed to
     * `onAddItems` once and the file is dropped; on failure the error shows
     * the thrown message (or the fallback) and the file is kept. Processing
     * ends either way.
     */
    method FinishProcess(file: File, read: ReadOutcome, audio: Result<seq<string>, Thrown>)
      modifies this
      ensures !isProcessing
      ensures ProcessAudio(file, read, audio).Ok? ==>
                && addedBatches == old(addedBatches) + [ProcessAudio(file, read, audio).value]
                && audioFile.None? && error == old(error)
      ensures ProcessAudio(file, read, audio).Err? ==>
                && error == Some(MessageOr(ProcessAudio(file, read, audio).error, AudioFailedFallback))
                && audioFile == old(audioFile) && addedBatches == old(addedBatches)
    {
      var outcome := ProcessAudio(file, read, audio);
      match outcome {
        case Ok(items) =>
          addedBatches := addedBatches + [items];
          audioFile := None;
        case Err(e) =>
          error := Some(MessageOr(e, AudioFailedFallback));
      }
      isProcessing := false;
    }
  }

  /** Exactly the `audio/` and `video/` types are accepted; an image is not. */
  lemma AcceptedTypeExamples()
    ensures IsAcceptedType("audio/mpeg") && IsAcceptedType("video/quicktime")
    ensures !IsAcceptedType("image/png") && !IsAcceptedType("audio")
  {
    assert "audio/mpeg"[..6] == "audio/";
    assert "video/quicktime"[..6] == "video/";
    assert "image/png"[..6] != "audio/" by { assert "image/png"[0] != 'a'; }
    assert "image/png"[..6] != "video/" by { assert "image/png"[0] != 'v'; }
  }

  /**
   * A rejected file during a held file's run keeps that file, and the run's
   * success still adds its items once and then drops the held file.
   */
  method RejectedFileKeepsHeldFile(held: File, rejected: File, items: seq<string>) returns (u: Uploader)
    requires IsAcceptedType(held.mimeType) && !IsAcceptedType(rejected.mimeType)
    ensures u.addedBatches == [items] && u.audioFile.None? && u.error == Some(InvalidTypeMessage)
    ensures !u.isProcessing
  {
    u := new Uploader();
    u.SelectFile(held);
    var started := u.StartProcess();
    u.SelectFile(rejected);
    assert u.audioFile == Some(held);
    FileSegmentIsData(held, "x,QQ==", "x", "QQ==", "");
    assert "x,QQ==" == "x" + [','] + "QQ==" + "";
    u.FinishProcess(held, LoadedText("x,QQ=="), Ok(items));
  }
}
