# Anne Eye: a verified model of the client logic

Anne Eye is a browser shopping assistant. It sends a photo, a camera frame or an
audio clip to a remote multimodal model. It shows the returned description, can
read that description aloud, and turns a spoken grocery list into items. This
Dafny project models the client logic that sits around the remote call:

- **Media payloads (`ImageUtils`).** `dataUrlToGenerativePart` matches
  `^data:(.*);base64,(.*)$`. `fileToGenerativePart` takes the base64 segment of a
  FileReader result.
- **Reply handling (`GeminiService`).** `analyzeImage` checks the reply and maps
  failures to user messages in a fixed order. `cleanGroceryList` skips blank input,
  then splits the reply on commas, trims the pieces and filters out blanks.
- **The three analyzers (`App`, `GroceryList`, `VideoAnalyzer`).** Each is a class
  whose fields are the component's state hooks. Each asynchronous handler is split
  into a `Start` method and a `Finish` method. `Start` covers everything before the
  first `await`. In the video analyzer that includes the synchronous parse of the
  frame, whose failure is caught and settled at once. `Finish` is the continuation
  once the awaited work has settled.
- **The camera (`VideoFrameCapture`).** This covers the permission state machine,
  the mapping from error names to messages, frame capture gated on a granted
  camera, and stopping the tracks on cleanup.
- **The result panel (`ResultDisplay`).** This covers the seven-tier voice cascade,
  the speak, toggle and autoplay guards, and the voice-list update rule.

Two helper modules hold what the rest shares:

- `Outcomes` holds `Option`, `Result` and `Thrown`. A thrown value is either an
  `Error` with a name and message, or something else.
- `Strings` holds the JavaScript string operations the code uses:
  - `startsWith` and `includes`;
  - `LastIndexOf`, which the model uses to compute the greedy regex group (the
    code itself only runs the regex);
  - `split` on one character;
  - `trim`, over the ECMAScript white-space and line-terminator set;
  - `toLowerCase` for ASCII letters.

Effects the code cannot see are parameters:

- how the remote call settled: a `Reply`, or the grocery audio request's outcome;
- what the FileReader reported (`ReadOutcome`);
- what the capture handle returned (`CaptureAttempt`);
- how `getUserMedia` ended (`CameraRequest`);
- the browser's JPEG encoder, the voice list, and whether the engine is speaking.

Calls made on the speech engine are recorded in order in `Display.calls`. Calls
to the `onAddItems` callback are recorded in order in `Uploader.addedBatches`.

## Model

| member | source | states |
|---|---|---|
| Outcomes.MessageOr | App.tsx:59-64 | a caught `Error` shows its own message; any other thrown value shows the handler's fallback |
| Strings.LastIndexOf | utils/imageUtils.ts:32 | the result is an occurrence with no later occurrence; it is absent exactly when the pattern does not occur |
| Strings.Split | utils/imageUtils.ts:11 | at least one segment; no segment holds the separator; the segments joined with the separator give back the input |
| Strings.SplitJoin | services/geminiService.ts:65 | splitting undoes joining, for separator-free parts |
| Strings.SplitAppend | services/geminiService.ts:65 | splitting `a,b` gives the segments of `a` followed by those of `b` |
| Strings.Trim | services/geminiService.ts:65 | the trimmed text is no longer than the input and neither starts nor ends with whitespace |
| Strings.TrimSlice | services/geminiService.ts:65 | the trimmed text is a slice of the input with only whitespace before and after it |
| Strings.TrimEmptyIffBlank | services/geminiService.ts:49 | trimming gives the empty string exactly when the input is whitespace only |
| Strings.TrimKeepsAbsent | services/geminiService.ts:65 | a character absent from the input is absent from its trim |
| ImageUtils.MatchDataUrl | utils/imageUtils.ts:32 | a match splits the URL as `data:` + group 1 + `;base64,` + group 2, neither group holds a line terminator, and group 2 holds no `;base64,` |
| ImageUtils.MatchDataUrlComplete | utils/imageUtils.ts:32 | every URL of that shape matches, and group 1 is at least as long as any split of it (greediness) |
| ImageUtils.MatchDataUrlExact | utils/imageUtils.ts:32 | when the data part holds no `;base64,`, the groups are exactly the MIME type and the data |
| ImageUtils.DataUrlToGenerativePart | utils/imageUtils.ts:31-49 | "Invalid data URL format." exactly when the pattern fails; "Failed to parse data URL." exactly when a group is empty; otherwise two non-empty fields that rebuild the URL |
| ImageUtils.DataUrlRoundTrip | utils/imageUtils.ts:32-48 | `data:`+M+`;base64,`+D parses to (M, D) for non-empty, single-line M and D with no marker in D |
| ImageUtils.DataUrlShapeIsNotInvalid | utils/imageUtils.ts:32-35 | a URL of the pattern's shape never gets the invalid-format error |
| ImageUtils.DataUrlEmptyMime | utils/imageUtils.ts:39-41 | an empty MIME group fails with "Failed to parse data URL." |
| ImageUtils.DataUrlJpegExample | utils/imageUtils.ts:32-48 | `data:image/jpeg;base64,QQ==` gives (`image/jpeg`, `QQ==`) |
| ImageUtils.DataUrlNotAUrlExample | utils/imageUtils.ts:32-35 | `not-a-data-url` fails with "Invalid data URL format." |
| ImageUtils.DataUrlEmptyMimeExample | utils/imageUtils.ts:39-41 | `data:;base64,QQ==` fails with "Failed to parse data URL." |
| ImageUtils.DataUrlGreedyExample | utils/imageUtils.ts:32-41 | `data:a;base64,b;base64,` has a split with non-empty parts, yet the greedy match leaves group 2 empty and parsing fails |
| ImageUtils.FileToGenerativePart | utils/imageUtils.ts:6-25 | a reader failure rejects with a non-Error; a non-string result gives "Failed to read file."; a string result either gives a non-empty, comma-free data part with the file's own type, or "Failed to parse base64 data from file." |
| ImageUtils.FileSegmentIsData | utils/imageUtils.ts:11-22 | for a reader result `a,d` or `a,d,…`, the data is the segment `d` between the first and second comma, and an empty `d` is the parse error |
| ImageUtils.FileWithoutComma | utils/imageUtils.ts:11-22 | a reader result with no comma is the parse error |
| GeminiService.AnalysisErrorMessage | services/geminiService.ts:35-44 | one of three messages: malformed-request exactly for an Error mentioning 400; unavailable exactly for an Error mentioning 503 but not 400; otherwise the generic failure |
| GeminiService.BadRequestTakesPrecedence | services/geminiService.ts:38-43 | a message mentioning both 400 and 503 is reported as malformed |
| GeminiService.EmptyResponseLacksBadRequest | services/geminiService.ts:33-38 | the empty-response text does not contain 400 |
| GeminiService.EmptyResponseLacksUnavailable | services/geminiService.ts:33-42 | the empty-response text does not contain 503 |
| GeminiService.AnalyzeImage | services/geminiService.ts:19-46 | success exactly for a response with non-empty text, returned unchanged; every failure is an Error carrying one of the three mapped messages, and a rejection gets the mapping of what it threw |
| GeminiService.EmptyResponseIsGenericFailure | services/geminiService.ts:29-44 | an empty or absent reply text reaches the caller as the generic failure, never as the empty-response text |
| GeminiService.CleanItems | services/geminiService.ts:65 | every item is non-empty, comma-free and has no surrounding whitespace |
| GeminiService.CleanSegmentsAreItems | services/geminiService.ts:65 | cleaning comma-free segments yields only such items |
| GeminiService.CleanSegmentsAppend | services/geminiService.ts:65 | cleaning a concatenation of segment lists cleans each list in turn |
| GeminiService.CleanItemsAppend | services/geminiService.ts:65 | the items of `a,b` are those of `a` followed by those of `b`, so the reply's order is kept |
| GeminiService.CleanItemsSegment | services/geminiService.ts:65 | a single segment yields its trim, and is dropped exactly when it is blank |
| GeminiService.CleanItemsJoin | services/geminiService.ts:65 | items joined with commas clean back to the same items |
| GeminiService.CleanItemsExample | services/geminiService.ts:65 | the reply `milk, eggs` gives `milk` and `eggs` |
| GeminiService.CleanGroceryList | services/geminiService.ts:48-72 | a blank transcript gives no items; an error occurs exactly for a non-blank transcript whose call is rejected, and it is the fixed grocery message; an empty reply gives no items; every item is clean |
| GeminiService.BlankTranscriptIgnoresReply | services/geminiService.ts:49-51 | for a blank transcript the model is not asked, and the reply makes no difference |
| GeminiService.GroceryReplyIsCleaned | services/geminiService.ts:63-65 | a non-blank transcript with a non-empty reply gives the cleaned reply |
| App.AnalyzeFile | App.tsx:53-57 | success exactly when the read succeeds and the reply has text, and the value is that text; a read failure is passed on without consulting the reply; every Error message is non-empty |
| App.ImageAnalyzer.constructor | App.tsx:16-20 | every field starts null or false, and the invariant holds |
| App.ImageAnalyzer.SelectImage | App.tsx:33-37 | the new file is held, and result and error are cleared; the invariant is kept |
| App.ImageAnalyzer.ClearImage | App.tsx:39-44 | file, preview, result and error all become null; the invariant is kept |
| App.ImageAnalyzer.SyncPreview | App.tsx:22-31 | the preview is the object URL when a file is held, and null otherwise |
| App.ImageAnalyzer.StartAnalyze | App.tsx:46-51 | nothing changes without a file or while loading; otherwise loading starts, and result and error are cleared |
| App.ImageAnalyzer.FinishAnalyze | App.tsx:53-67 | result holds the text, or error holds the thrown message or "An unknown error occurred."; loading ends; result and error are never both set |
| App.PlaceholderIffIdle | App.tsx:103 | under the invariant, the placeholder shows exactly when not loading and both result and error are null |
| App.AnalyzeSession | App.tsx:46-66 | select, start and a reply with text leave the text shown and no error; a second start while loading is refused |
| GroceryList.ProcessAudio | components/GroceryList.tsx:57-59 | a reader failure gives a non-Error, so the fallback message is shown; a non-string read gives "Failed to read file."; a run succeeds only from a text read and a successful audio request, whose outcome is then the run's |
| GroceryList.Uploader.constructor | components/GroceryList.tsx:19-21 | no file, not processing, no error, nothing added |
| GroceryList.Uploader.SelectFile | components/GroceryList.tsx:24-31 | an `audio/` or `video/` type is held and clears the error; any other type sets the invalid-type message and keeps the held file |
| GroceryList.Uploader.ClearFile | components/GroceryList.tsx:48-50 | only the file changes |
| GroceryList.Uploader.StartProcess | components/GroceryList.tsx:52-56 | nothing changes without a file; otherwise processing starts and the error is cleared, and there is no in-flight guard |
| GroceryList.Uploader.FinishProcess | components/GroceryList.tsx:57-67 | success adds the items to `onAddItems` exactly once and drops the file; failure shows the message or the audio fallback and keeps the file; processing ends |
| GroceryList.AcceptedTypeExamples | components/GroceryList.tsx:25 | `audio/mpeg` and `video/quicktime` are accepted; `image/png` and `audio` are not |
| GroceryList.RejectedFileKeepsHeldFile | components/GroceryList.tsx:24-67 | a rejected file keeps the held one, and the run still adds its items once |
| VideoAnalyzer.AnalyzeFrame | components/VideoAnalyzer.tsx:32-36 | success exactly when the frame parses and the reply has text; a parse failure is passed on without consulting the reply; failures are Errors |
| VideoAnalyzer.Analyzer.constructor | components/VideoAnalyzer.tsx:12-15 | not loading, with no result, error or frame |
| VideoAnalyzer.Analyzer.StartAnalyzeFrame | components/VideoAnalyzer.tsx:18-47 | no handle changes nothing; a falsy frame sets only the capture error; a frame is stored and the result cleared; a request is sent exactly when the frame parses, with loading on and no error; a parse failure ends loading at once with its message as the error; starting does not check `isLoading` |
| VideoAnalyzer.Analyzer.FinishAnalyzeFrame | components/VideoAnalyzer.tsx:36-47 | result holds the text, or error holds the message or "An unknown error occurred during analysis."; loading ends; the captured frame is kept |
| VideoAnalyzer.FrameRunMatchesTryBlock | components/VideoAnalyzer.tsx:18-47 | a run on a captured frame ends with loading off, the frame stored, and the result or the error that the `try` block's outcome gives |
| VideoAnalyzer.MalformedFrameIsError | components/VideoAnalyzer.tsx:32-44 | a frame the pattern refuses ends the run at once with the invalid-format error and no result, before any request |
| VideoAnalyzer.ResultAndErrorCoexist | components/VideoAnalyzer.tsx:21-25 | after a successful analysis, a failed capture shows the capture error next to the old result |
| VideoAnalyzer.NoInFlightGuard | components/VideoAnalyzer.tsx:18-47 | a second start while loading goes ahead; the first request to settle ends loading |
| VideoFrameCapture.CameraErrorMessage | components/VideoFrameCapture.tsx:38-41 | the denied message exactly for an Error named `NotAllowedError` or `PermissionDeniedError`; otherwise the camera-unavailable message |
| VideoFrameCapture.Camera.constructor | components/VideoFrameCapture.tsx:14-15 | idle, no error, no stream |
| VideoFrameCapture.Camera.StartCamera | components/VideoFrameCapture.tsx:21-22 | requesting, error cleared |
| VideoFrameCapture.Camera.CameraRequestSettled | components/VideoFrameCapture.tsx:23-44 | a missing API or a thrown request ends in denied with its message; a stream is kept and, when there is a video element, gets its metadata handler; with a stream the state does not change |
| VideoFrameCapture.Camera.MetadataLoaded | components/VideoFrameCapture.tsx:28-30 | granted if the handler was installed, unchanged otherwise; granted always has a stream (invariant) |
| VideoFrameCapture.Camera.CaptureFrame | components/VideoFrameCapture.tsx:57-70 | a frame exactly when video, canvas, context and a granted camera are all present; the canvas first takes the video's size and the frame is the encoding at that size; otherwise the canvas is left alone |
| VideoFrameCapture.Camera.Cleanup | components/VideoFrameCapture.tsx:49-53 | every track of an obtained stream is stopped; with no stream, nothing is touched |
| VideoFrameCapture.NoVideoElementStaysRequesting | components/VideoFrameCapture.tsx:25-30 | without a video element the camera stays requesting even after metadata loads |
| VideoFrameCapture.UnmountBeforeStream | components/VideoFrameCapture.tsx:18-53 | a cleanup run before the request resolves stops nothing, and the stream that arrives later stays open |
| ResultDisplay.TierIsEnglish | components/ResultDisplay.tsx:48-55 | every tier's predicate implies a `lang` starting with `en` |
| ResultDisplay.FindFrom | components/ResultDisplay.tsx:49 | `find`: the first matching voice, or no voice matches |
| ResultDisplay.Cascade | components/ResultDisplay.tsx:48-55 | the earliest tier with a match, and its first match; every earlier tier is empty |
| ResultDisplay.ChooseVoice | components/ResultDisplay.tsx:48-55 | the chosen voice is in the list and English; a voice is chosen exactly when some voice is English |
| ResultDisplay.ChooseVoiceIsEarliestTier | components/ResultDisplay.tsx:48-55 | the chosen voice is the first voice, in list order, of the earliest tier any voice satisfies |
| ResultDisplay.GoogleFemaleFirst | components/ResultDisplay.tsx:49-55 | a Google female voice later in the list wins over an earlier default en-US voice |
| ResultDisplay.NewUtterance | components/ResultDisplay.tsx:47-61 | the utterance gets the cascade's voice; pitch 1 and rate 0.95 are set exactly when a voice was chosen |
| ResultDisplay.SpeakCalls | components/ResultDisplay.tsx:42-71 | nothing without speech support or for empty text; otherwise a cancel, then the new utterance |
| ResultDisplay.Display.constructor | components/ResultDisplay.tsx:10-13 | not speaking, not copied, no voices, no engine calls |
| ResultDisplay.Display.LoadVoices | components/ResultDisplay.tsx:17-22 | the voices are replaced only by a non-empty list |
| ResultDisplay.Display.Mount | components/ResultDisplay.tsx:16-25 | the mount throws exactly when speech is unsupported, and then changes nothing; otherwise the voices are loaded and the `voiceschanged` handler is set |
| ResultDisplay.MountWithoutSpeech | components/ResultDisplay.tsx:18 | without speech support a mount loads no voices and sets no handler |
| ResultDisplay.Display.Unmount | components/ResultDisplay.tsx:27-32 | the handler is removed, and a cancel is issued exactly when the engine is speaking |
| ResultDisplay.Display.Speak | components/ResultDisplay.tsx:42-72 | the engine receives the calls `SpeakCalls` describes, and nothing else changes |
| ResultDisplay.Display.ToggleSpeak | components/ResultDisplay.tsx:74-81 | while speaking: cancel and stop; otherwise speak the result |
| ResultDisplay.Display.AutoPlay | components/ResultDisplay.tsx:84-89 | speaks the result only when autoplay is on, the result is non-empty and voices are loaded |
| ResultDisplay.Display.UtteranceStarted | components/ResultDisplay.tsx:63 | speaking becomes true |
| ResultDisplay.Display.UtteranceStopped | components/ResultDisplay.tsx:64-68 | speaking becomes false |
| ResultDisplay.Display.CopyConfirmed | components/ResultDisplay.tsx:35-37 | copied becomes true once the clipboard write resolves |
| ResultDisplay.Display.CopyReset | components/ResultDisplay.tsx:38 | copied becomes false when the timer fires |
| ResultDisplay.AutoPlayWaitsForVoices | components/ResultDisplay.tsx:84-89 | with no voices autoplay is silent; once a voice loads it cancels and speaks |

## Left out

- **The remote model.** This covers the `generateContent` calls, the model name, the prompts and the API-key check at load time. Each call is represented only by how it settled (`Reply`).
- **`processGroceryAudio`.** It is imported by components/GroceryList.tsx but defined in no file of this model. Its outcome, items or a thrown value, is a parameter of `FinishProcess`.
- **Browser APIs.** FileReader, `getUserMedia`, canvas drawing and encoding, `speechSynthesis`, the clipboard, and object URLs are foreign. Their results are parameters, or they are represented by the calls made on them.
- **Asynchrony and React scheduling.** Each handler is a start step and a finish step over the component's state. Not modelled:
  - state batching;
  - re-rendering;
  - stale closures;
  - whether an unmounted component still receives updates.
- **Presentation.** This covers the tab switcher, JSX markup, drag-and-drop styling (`isDragging`) and the components that only render (ImageUploader, Notepad, ErrorAlert). The file-input and drop handlers only pass the first file on to `handleFileSelect`. The grocery list's own store is not part of this model.
- **Logging.** `console.error` has no effect on state.
- Strings are sequences of Unicode scalar values, not UTF-16 code units. This matters only for characters outside the Basic Multilingual Plane.
- `Strings.ToLowerAscii`: it lower-cases ASCII letters only. That is exact for the test against the ASCII word `female`, but it is weaker than `toLowerCase` in general, because `toLowerCase` can change other letters as well.
- `VideoFrameCapture.Camera.CaptureFrame`: it does not model the pixels drawn onto the canvas or the JPEG quality of 0.9. The encoder is a parameter applied to the canvas size.
- `ResultDisplay.Display.CopyReset`: the 2-second delay is not modelled. The timer firing is an event.
- `ResultDisplay.Display.Mount`: without speech support, the unchecked read of `window.speechSynthesis` (components/ResultDisplay.tsx:18) throws a TypeError inside the effect, and React then tears the component down. The model records only that the mount threw and changed nothing. It does not model the crash.
- `ResultDisplay.Display.LoadVoices`: it requires speech support, because it runs only from a mount that got past the same unchecked read, or from the handler such a mount installed.
- `ResultDisplay.Display.Unmount`: it requires speech support, because React registers the cleanup only when the mount effect completed.
- `ResultDisplay.SpeakCalls`: its unsupported branch (components/ResultDisplay.tsx:43) cannot be reached in a mounted component, because the mount already threw. It is modelled as written.

## Behaviour worth knowing

- **Only the image analyzer guards against a second run.** Its handler returns early while loading (App.tsx:46, `StartAnalyze`). The video analyzer's and the grocery uploader's handlers have no such check (components/VideoAnalyzer.tsx:18-19, components/GroceryList.tsx:52-53). Only the buttons' `disabled` attribute stops a second run (components/VideoAnalyzer.tsx:64, components/GroceryList.tsx:117) (`NoInFlightGuard`, `StartProcess`, `ButtonEnabled`).
- **The grocery uploader's clear keeps the error.** `handleClearFile` resets only the file (components/GroceryList.tsx:48-50) (`ClearFile`).
- **A failed capture keeps the old result.** The capture-failure branch sets only the error (components/VideoAnalyzer.tsx:21-25), so the previous result stays on screen next to it (`ResultAndErrorCoexist`).
- **An early cleanup leaks the camera stream.** The cleanup stops the tracks of `stream` only if it is already set (components/VideoFrameCapture.tsx:49-53). `stream` is set only once `getUserMedia` resolves (components/VideoFrameCapture.tsx:18, 25). A cleanup that runs before then stops nothing, and the stream obtained afterwards is never stopped (`UnmountBeforeStream`).
- **The MIME type of a file is not checked.** `fileToGenerativePart` copies `file.type` as it is, even when it is empty (utils/imageUtils.ts:17) (`FileToGenerativePart`).
- **Autoplay runs again when the voice list changes.** The autoplay effect depends on `voices` as well as on `result` (components/ResultDisplay.tsx:84-89). It speaks whenever its condition holds (`AutoPlay`, `AutoPlayWaitsForVoices`).
