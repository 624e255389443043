/**
 * The camera component of components/VideoFrameCapture.tsx: the permission
 * state (idle, requesting, granted, denied), the error text, the stream the
 * mount effect holds, and the canvas a frame is drawn on. `startCamera` is
 * split at its `await` into `StartCamera` and `CameraRequestSettled`; the
 * camera request's outcome, the presence of the DOM elements and the
 * browser's JPEG encoder are parameters.
 */
module VideoFrameCapture {

  import opened Outcomes

  datatype PermissionState = Idle | Requesting | Granted | Denied

  const UnsupportedMessage := "Your browser does not support camera access."
  const PermissionDeniedMessage :=
    "Camera access denied. Please enable camera permissions for this site in your browser settings."
  const CameraUnavailableMessage :=
    "Could not access the camera. Please ensure it is not in use by another application."

  /** One track of a media stream; `Stop` releases it. */
  class MediaTrack {
    var stopped: bool

    constructor ()
      ensures !stopped
    {
      stopped := false;
    }

    method Stop()
      modifies this
      ensures stopped
    {
      stopped := true;
    }
  }

  /**
   * How the camera request ended: `getUserMedia` is not available, it
   * resolved with a stream (its tracks), or it threw.
   */
  datatype CameraRequest = Unsupported | Acquired(tracks: seq<MediaTrack>) | Refused(thrown: Thrown)

  /**
   * The catch block of `startCamera`: an `Error` named `NotAllowedError` or
   * `PermissionDeniedError` is a refused permission; anything else means the
   * camera could not be opened.
   */
  function CameraErrorMessage(thrown: Thrown): (msg: string)
    ensures msg == PermissionDeniedMessage || msg == CameraUnavailableMessage
    ensures msg == PermissionDeniedMessage <==>
              thrown.ErrorObject? && (thrown.name == "NotAllowedError" || thrown.name == "PermissionDeniedError")
  {
    if thrown.ErrorObject? && (thrown.name == "NotAllowedError" || thrown.name == "PermissionDeniedError")
    then PermissionDeniedMessage
    else CameraUnavailableMessage
  }

  class Camera {
    var permissionState: PermissionState
    var error: Option<string>
    /** The effect's `stream` variable: the tracks once the request resolved. */
    var stream: Option<seq<MediaTrack>>
    /** Whether the video element received the stream and its `loadedmetadata` handler. */
    var metadataHandlerSet: bool
    var canvasWidth: nat
    var canvasHeight: nat

    /** A granted camera always has a stream attached to the video element. */
    ghost predicate Valid()
      reads this
    {
      && (metadataHandlerSet ==> stream.Some?)
      && (permissionState == Granted ==> metadataHandlerSet)
    }

    /** The tracks the cleanup releases. */
    ghost function Tracks(): set<MediaTrack>
      reads this
    {
      if stream.Some? then set t | t in stream.value else {}
    }

    constructor ()
      ensures Valid()
      ensures permissionState == Idle && error.None? && stream.None? && !metadataHandlerSet
    {
      permissionState, error, stream, metadataHandlerSet := Idle, None, None, false;
      canvasWidth, canvasHeight := 0, 0;
    }

    /** `startCamera` before the request: move to requesting and clear the error. */
    method StartCamera()
      requires Valid()
      modifies this
      ensures permissionState == Requesting && error.None?
      ensures stream == old(stream) && metadataHandlerSet == old(metadataHandlerSet)
      ensures canvasWidth == old(canvasWidth) && canvasHeight == old(canvasHeight)
      ensures Valid()
    {
      permissionState := Requesting;
      error := None;
    }

    /**
     * `startCamera` once the request is decided. A missing API and a thrown
     * request both end in denied with their message; an obtained stream is
     * kept and, when a video element exists, attached with its metadata
     * handler, while the state stays where it was.
     */
    method CameraRequestSettled(request: CameraRequest, hasVideoElement: bool)
      requires Valid()
      modifies this
      ensures Valid()
      ensures request.Unsupported? ==>
                permissionState == Denied && error == Some(UnsupportedMessage)
                && stream == old(stream) && metadataHandlerSet == old(metadataHandlerSet)
      ensures request.Refused? ==>
                permissionState == Denied && error == Some(CameraErrorMessage(request.thrown))
                && stream == old(stream) && metadataHandlerSet == old(metadataHandlerSet)
      ensures request.Acquired? ==>
                permissionState == old(permissionState) && error == old(error)
                && stream == Some(request.tracks)
                && metadataHandlerSet == (old(metadataHandlerSet) || hasVideoElement)
      ensures canvasWidth == old(canvasWidth) && canvasHeight == old(canvasHeight)
    {
      match request {
        case Unsupported =>
          error := Some(UnsupportedMessage);
          permissionState := Denied;
        case Refused(thrown) =>
          error := Some(CameraErrorMessage(thrown));
          permissionState := Denied;
        case Acquired(tracks) =>
          stream := Some(tracks);
          if hasVideoElement {
            metadataHandlerSet := true;
          }
      }
    }

    /** The video element's `loadedmetadata` event: granted, if the handler was installed. */
    method MetadataLoaded()
      requires Valid()
      modifies this
      ensures Valid()
      ensures permissionState == if metadataHandlerSet then Granted else old(permissionState)
      ensures error == old(error) && stream == old(stream) && metadataHandlerSet == old(metadataHandlerSet)
      ensures canvasWidth == old(canvasWidth) && canvasHeight == old(canvasHeight)
    {
      if metadataHandlerSet {
        permissionState := Granted;
      }
    }

    /**
     * `captureFrame`: with the video and canvas elements present, the camera
     * granted and a 2D context, size the canvas to the video and return its
     * JPEG encoding (`encodeJpeg` is the browser's encoder for a canvas of the
     * given size); otherwise return null and leave the canvas alone.
     */
    method CaptureFrame(hasVideo: bool, hasCanvas: bool, hasContext: bool,
                        videoWidth: nat, videoHeight: nat, encodeJpeg: (nat, nat) -> string)
      returns (frame: Option<string>)
      modifies this
      ensures frame.Some? <==> hasVideo && hasCanvas && permissionState == Granted && hasContext
      ensures frame.Some? ==>
                canvasWidth == videoWidth && canvasHeight == videoHeight
                && frame.value == encodeJpeg(canvasWidth, canvasHeight)
      ensures frame.None? ==> canvasWidth == old(canvasWidth) && canvasHeight == old(canvasHeight)
      ensures permissionState == old(permissionState) && error == old(error)
      ensures stream == old(stream) && metadataHandlerSet == old(metadataHandlerSet)
    {
      if hasVideo && hasCanvas && permissionState == Granted {
        if hasContext {
          canvasWidth := videoWidth;
          canvasHeight := videoHeight;
          return Some(encodeJpeg(canvasWidth, canvasHeight));
        }
      }
      return None;
    }

    /** The effect's cleanup: stop every track of the stream, if one was obtained. */
    method Cleanup()
      modifies Tracks()
      ensures stream.Some? ==> forall k :: 0 <= k < |stream.value| ==> stream.value[k].stopped
    {
      if stream.None? {
        return;
      }
      var tracks := stream.value;
      var i := 0;
      while i < |tracks|
        invariant 0 <= i <= |tracks|
        invariant forall k :: 0 <= k < i ==> tracks[k].stopped
      {
        tracks[i].Stop();
        i := i + 1;
      }
    }
  }

  /**
   * Granted is reached only from an obtained stream and a video element:
   * without a video element the camera stays requesting even after metadata loads.
   */
  method NoVideoElementStaysRequesting(tracks: seq<MediaTrack>) returns (c: Camera)
    ensures c.permissionState == Requesting && c.stream == Some(tracks)
  {
    c := new Camera();
    c.StartCamera();
    c.CameraRequestSettled(Acquired(tracks), false);
    c.MetadataLoaded();
  }

  /**
   * Unmounting before the request resolves finds no stream, so nothing is
   * stopped, and the stream that arrives afterwards is kept open.
   */
  method UnmountBeforeStream(track: MediaTrack) returns (c: Camera)
    requires !track.stopped
    ensures c.stream == Some([track]) && !track.stopped
  {
    c := new Camera();
    c.StartCamera();
    c.Cleanup();
    c.CameraRequestSettled(Acquired([track]), true);
  }
}
