/**
 * The video analyzer of components/VideoAnalyzer.tsx: a loading flag, a
 * result, an error and the last captured frame. `handleAnalyzeFrame` is split
 * at its one `await`: `StartAnalyzeFrame` covers the capture, the state
 * updates and the synchronous parse of the frame (whose failure is caught and
 * settled before the handler returns), and `FinishAnalyzeFrame` is the
 * continuation once the remote call has settled. What the capture handle
 * returned and how the call settled are parameters.
 */
module VideoAnalyzer {

  import opened Outcomes
  import opened ImageUtils
  import opened GeminiService

  const NoFrameMessage := "Could not capture frame from video."
  const AnalysisFallback := "An unknown error occurred during analysis."

  /** What the capture step saw: no mounted capture component, or what `captureFrame()` returned. */
  datatype CaptureAttempt = NoHandle | Captured(frame: Option<string>)

  /**
   * The outcome of the whole `try` block of `handleAnalyzeFrame`: parse the
   * frame, then ask the model. A parse failure is thrown inside the `try`
   * before any request, so the reply is not consulted.
   */
  function AnalyzeFrame(frame: string, reply: Reply): (r: Result<string, Thrown>)
    ensures r.Ok? <==> DataUrlToGenerativePart(frame).Ok? && reply.Responded? && Truthy(reply.text)
    ensures r.Ok? ==> reply.text == Some(r.value) && r.value != ""
    ensures DataUrlToGenerativePart(frame).Err? ==> r == Err(DataUrlToGenerativePart(frame).error)
    ensures r.Err? ==> r.error.ErrorObject?
  {
    match DataUrlToGenerativePart(frame)
    case Err(e) => Err(e)
    case Ok(_) => AnalyzeImage(reply)
  }

  class Analyzer {
    var isLoading: bool
    var result: Option<string>
    var error: Option<string>
    var capturedFrame: Option<string>

    constructor ()
      ensures !isLoading && result.None? && error.None? && capturedFrame.None?
    {
      isLoading, result, error, capturedFrame := false, None, None, None;
    }

    /**
     * `handleAnalyzeFrame` up to its `await`. Without a capture handle nothing
     * changes; a falsy frame only sets the capture error; otherwise the frame
     * is stored, loading starts and the result and error are cleared, and the
     * frame is parsed. A parse failure is caught at once: its message becomes
     * the error and loading ends, with no request. No guard checks
     * `isLoading`. `request` is the inline data sent to the model.
     */
    method StartAnalyzeFrame(attempt: CaptureAttempt) returns (request: Option<InlineData>)
      modifies this
      ensures request.Some? <==>
                attempt.Captured? && Truthy(attempt.frame) && DataUrlToGenerativePart(attempt.frame.value).Ok?
      ensures attempt.NoHandle? ==> unchanged(this)
      ensures attempt.Captured? && !Truthy(attempt.frame) ==>
                && error == Some(NoFrameMessage)
                && isLoading == old(isLoading) && result == old(result) && capturedFrame == old(capturedFrame)
      ensures attempt.Captured? && Truthy(attempt.frame) ==> capturedFrame == attempt.frame && result.None?
      ensures request.Some? ==>
                && request.value == DataUrlToGenerativePart(attempt.frame.value).value
                && isLoading && error.None?
      ensures attempt.Captured? && Truthy(attempt.frame) && DataUrlToGenerativePart(attempt.frame.value).Err? ==>
                && !isLoading
                && error == Some(MessageOr(DataUrlToGenerativePart(attempt.frame.value).error, AnalysisFallback))
    {
      if attempt.NoHandle? {
        return None;
      }
      var frameDataUrl := attempt.frame;
      if frameDataUrl.None? || frameDataUrl.value == "" {
        error := Some(NoFrameMessage);
        return None;
      }
      capturedFrame := frameDataUrl;
      isLoading := true;
      result := None;
      error := None;
      var part := DataUrlToGenerativePart(frameDataUrl.value);
      match part {
        case Ok(imagePart) =>
          request := Some(imagePart);
        case Err(e) =>
          error := Some(MessageOr(e, AnalysisFallback));
          isLoading := false;
          request := None;
      }
    }

    /**
     * The continuation once the request has settled: the text becomes the
     * result, or the failure becomes the error (its message, or the fallback
     * for a non-Error), and loading ends. The other field is left as it was.
     */
    method FinishAnalyzeFrame(reply: Reply)
      modifies this
      ensures !isLoading
      ensures AnalyzeImage(reply).Ok? ==> result == Some(AnalyzeImage(reply).value) && error == old(error)
      ensures AnalyzeImage(reply).Err? ==>
                error == Some(MessageOr(AnalyzeImage(reply).error, AnalysisFallback)) && result == old(result)
      ensures capturedFrame == old(capturedFrame)
    {
      var outcome := AnalyzeImage(reply);
      match outcome {
        case Ok(text) =>
          result := Some(text);
        case Err(e) =>
          error := Some(MessageOr(e, AnalysisFallback));
      }
      isLoading := false;
    }

    /** The Analyze Frame button is enabled exactly when nothing is loading; the handler itself does not check. */
    predicate ButtonEnabled()
      reads this
    {
      !isLoading
    }
  }

  /**
   * One handler run for a captured frame: the start step and, when a request
   * was sent, the finish step together show exactly the outcome of the
   * handler's `try` block, and loading has ended.
   */
  method FrameRunMatchesTryBlock(frame: string, reply: Reply) returns (v: Analyzer)
    requires frame != ""
    ensures !v.isLoading && v.capturedFrame == Some(frame)
    ensures AnalyzeFrame(frame, reply).Ok? ==> v.result == Some(AnalyzeFrame(frame, reply).value) && v.error.None?
    ensures AnalyzeFrame(frame, reply).Err? ==>
              v.error == Some(MessageOr(AnalyzeFrame(frame, reply).error, AnalysisFallback)) && v.result.None?
  {
    v := new Analyzer();
    var request := v.StartAnalyzeFrame(Captured(Some(frame)));
    if request.Some? {
      v.FinishAnalyzeFrame(reply);
    }
  }

  /** A frame the pattern refuses never reaches the model: the run ends at once with the parse error. */
  method MalformedFrameIsError(frame: string) returns (v: Analyzer)
    requires frame != "" && MatchDataUrl(frame).None?
    ensures !v.isLoading && v.error == Some(InvalidFormatMessage) && v.result.None?
  {
    v := new Analyzer();
    var request := v.StartAnalyzeFrame(Captured(Some(frame)));
    assert request.None?;
  }

  /**
   * A successful analysis followed by a failed capture: the old result stays
   * on screen together with the capture error.
   */
  method ResultAndErrorCoexist() returns (v: Analyzer)
    ensures v.result == Some("a can") && v.error == Some(NoFrameMessage)
  {
    v := new Analyzer();
    DataUrlJpegExample();
    var request := v.StartAnalyzeFrame(Captured(Some("data:image/jpeg;base64,QQ==")));
    v.FinishAnalyzeFrame(Responded(Some("a can")));
    var again := v.StartAnalyzeFrame(Captured(None));
  }

  /**
   * Two starts in a row both go ahead, and the first request to settle ends
   * loading while the second is still in flight.
   */
  method NoInFlightGuard() returns (v: Analyzer)
    ensures !v.isLoading && v.capturedFrame == Some("data:image/jpeg;base64,QQ==")
  {
    v := new Analyzer();
    DataUrlJpegExample();
    var first := v.StartAnalyzeFrame(Captured(Some("data:image/jpeg;base64,QQ==")));
    assert !v.ButtonEnabled();
    var second := v.StartAnalyzeFrame(Captured(Some("data:image/jpeg;base64,QQ==")));
    assert second.Some?;
    v.FinishAnalyzeFrame(Rejected(NonError));
  }
}
