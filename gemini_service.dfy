/**
 * The client side of the remote model (services/geminiService.ts): what
 * `analyzeImage` makes of a reply, how it maps failures to user-facing
 * messages, and how `cleanGroceryList` turns a comma-separated reply into
 * grocery items. The call itself is a parameter: the reply it settled with.
 */
module GeminiService {

  import opened Outcomes
  import opened Strings

  /** How a call to the remote model settles: a response whose `text` may be absent, or a rejection. */
  datatype Reply = Responded(text: Option<string>) | Rejected(thrown: Thrown)

  // The empty-response text is written in three pieces so that its characters can be reasoned about.
  const EmptyResponseMessage :=
    "The API returned an empty" + " response. The image might" + " be unclear or unsupported."
  const MalformedRequestMessage := "The request was malformed. Please check the image format and try again."
  const UnavailableMessage := "The service is temporarily unavailable. Please try again later."
  const AnalysisFailedMessage :=
    "Failed to analyze the image. Please ensure you have a valid API key and internet connection."
  const GroceryFailedMessage := "Failed to process the grocery list. Please try again."

  /** The status codes whose presence in an error message selects a specific user message. */
  const BadRequestCode := "400"
  const UnavailableCode := "503"

  /**
   * The catch block of `analyzeImage`, tested in order: an `Error` whose message
   * mentions 400 is a malformed request, otherwise one mentioning 503 is an
   * outage, and everything else is the generic failure.
   */
  function AnalysisErrorMessage(caught: Thrown): (msg: string)
    ensures msg == MalformedRequestMessage || msg == UnavailableMessage || msg == AnalysisFailedMessage
    ensures msg == MalformedRequestMessage <==> caught.ErrorObject? && Contains(caught.message, BadRequestCode)
    ensures msg == UnavailableMessage <==>
              caught.ErrorObject? && !Contains(caught.message, BadRequestCode) && Contains(caught.message, UnavailableCode)
  {
    if caught.ErrorObject? && Contains(caught.message, BadRequestCode) then MalformedRequestMessage
    else if caught.ErrorObject? && Contains(caught.message, UnavailableCode) then UnavailableMessage
    else AnalysisFailedMessage
  }

  /** A message mentioning both 400 and 503 is reported as a malformed request. */
  lemma BadRequestTakesPrecedence(message: string)
    requires Contains(message, BadRequestCode) && Contains(message, UnavailableCode)
    ensures AnalysisErrorMessage(ErrorObject("Error", message)) == MalformedRequestMessage
  {
  }

  /** The empty-response text does not mention 400. */
  lemma EmptyResponseLacksBadRequest()
    ensures !Contains(EmptyResponseMessage, BadRequestCode)
  {
    AbsentFirstChar(EmptyResponseMessage, BadRequestCode);
  }

  /** The empty-response text does not mention 503. */
  lemma EmptyResponseLacksUnavailable()
    ensures !Contains(EmptyResponseMessage, UnavailableCode)
  {
    AbsentFirstChar(EmptyResponseMessage, UnavailableCode);
  }

  /**
   * `analyzeImage`: a response with non-empty text yields that text unchanged.
   * An empty or absent text throws the empty-response error inside the same
   * `try`, so it reaches the catch block like a transport failure; every
   * failure leaves as an `Error` carrying one of the three mapped messages.
   */
  function AnalyzeImage(reply: Reply): (r: Result<string, Thrown>)
    ensures r.Ok? <==> reply.Responded? && Truthy(reply.text)
    ensures r.Ok? ==> r.value == reply.text.value && r.value != ""
    ensures r.Err? ==> r.error.ErrorObject?
    ensures r.Err? ==> r.error.message in {MalformedRequestMessage, UnavailableMessage, AnalysisFailedMessage}
    ensures reply.Rejected? ==> r == Err(NewError(AnalysisErrorMessage(reply.thrown)))
  {
    var caught :=
      match reply
      case Rejected(thrown) => thrown
      case Responded(text) =>
        if Truthy(text) then NonError // not thrown: the text is returned below
        else NewError(EmptyResponseMessage);
    if reply.Responded? && Truthy(reply.text) then Ok(reply.text.value)
    else Err(NewError(AnalysisErrorMessage(caught)))
  }

  /** Callers never see the empty-response text: an empty reply becomes the generic failure. */
  lemma EmptyResponseIsGenericFailure(text: Option<string>)
    requires !Truthy(text)
    ensures AnalyzeImage(Responded(text)) == Err(NewError(AnalysisFailedMessage))
    ensures AnalyzeImage(Responded(text)).error.message != EmptyResponseMessage
  {
    EmptyResponseLacksBadRequest();
    EmptyResponseLacksUnavailable();
  }

  /** A grocery item as the cleaner emits it: non-empty, comma-free, with no surrounding whitespace. */
  predicate IsItem(s: string)
  {
    s != [] && ',' !in s && !IsJsWhitespace(s[0]) && !IsJsWhitespace(s[|s| - 1])
  }

  /** What one comma-free segment contributes: its trimmed text, unless that is empty. */
  function Kept(segment: string): seq<string>
  {
    var t := Trim(segment);
    if t == [] then [] else [t]
  }

  /** The trimmed segments that are not blank, in the order of the segments. */
  function CleanSegments(segments: seq<string>): seq<string>
  {
    if segments == [] then [] else Kept(segments[0]) + CleanSegments(segments[1..])
  }

  /** Cleaning comma-free segments yields only items. */
  lemma {:induction false} CleanSegmentsAreItems(segments: seq<string>)
    requires forall k :: 0 <= k < |segments| ==> ',' !in segments[k]
    ensures forall k :: 0 <= k < |CleanSegments(segments)| ==> IsItem(CleanSegments(segments)[k])
  {
    if segments != [] {
      TrimKeepsAbsent(segments[0], ',');
      CleanSegmentsAreItems(segments[1..]);
      var kept, rest := Kept(segments[0]), CleanSegments(segments[1..]);
      forall k | 0 <= k < |kept + rest| ensures IsItem((kept + rest)[k]) {
        if k >= |kept| { assert (kept + rest)[k] == rest[k - |kept|]; }
      }
    }
  }

  /**
   * `text.split(',').map(item => item.trim()).filter(item => item.length > 0)`:
   * every item is non-empty, comma-free and has no surrounding whitespace.
   */
  function CleanItems(text: string): (items: seq<string>)
    ensures forall k :: 0 <= k < |items| ==> IsItem(items[k])
  {
    CleanSegmentsAreItems(Split(text, ','));
    CleanSegments(Split(text, ','))
  }

  lemma {:induction false} CleanSegmentsAppend(xs: seq<string>, ys: seq<string>)
    ensures CleanSegments(xs + ys) == CleanSegments(xs) + CleanSegments(ys)
    decreases |xs|
  {
    if xs == [] {
      assert xs + ys == ys;
    } else {
      var zs := xs + ys;
      assert zs[0] == xs[0];
      assert zs[1..] == xs[1..] + ys;
      CleanSegmentsAppend(xs[1..], ys);
      assert CleanSegments(zs) == Kept(xs[0]) + CleanSegments(xs[1..] + ys);
    }
  }

  /**
   * The items of `a,b` are the items of `a` followed by the items of `b`: the
   * cleaner keeps the left-to-right order of the reply and treats each
   * segment on its own.
   */
  lemma CleanItemsAppend(a: string, b: string)
    ensures CleanItems(a + [','] + b) == CleanItems(a) + CleanItems(b)
  {
    SplitAppend(a, b, ',');
    CleanSegmentsAppend(Split(a, ','), Split(b, ','));
    assert CleanItems(a + [','] + b) == CleanSegments(Split(a, ',') + Split(b, ','));
  }

  /** A single segment yields its trimmed text, and is dropped exactly when it is blank. */
  lemma CleanItemsSegment(segment: string)
    requires ',' !in segment
    ensures CleanItems(segment) == if AllWhitespace(segment) then [] else [Trim(segment)]
  {
    SplitJoin([segment], ',');
    TrimEmptyIffBlank(segment);
    assert [segment][1..] == [];
    assert CleanSegments([segment]) == Kept(segment) + CleanSegments([]);
  }

  /** Items joined with commas come back unchanged: the cleaner inverts comma-joining of items. */
  lemma {:induction false} CleanItemsJoin(items: seq<string>)
    requires |items| >= 1
    requires forall k :: 0 <= k < |items| ==> IsItem(items[k])
    ensures CleanItems(Join(items, ',')) == items
    decreases |items|
  {
    ItemCleansToItself(items[0]);
    if |items| > 1 {
      var tail := items[1..];
      assert forall k :: 0 <= k < |tail| ==> IsItem(tail[k]) by {
        forall k | 0 <= k < |tail| ensures IsItem(tail[k]) { assert tail[k] == items[k + 1]; }
      }
      CleanItemsJoin(tail);
      JoinCons(items);
      CleanItemsAppend(items[0], Join(tail, ','));
      HeadTail(items);
    }
  }

  /** A single item cleans to itself. */
  lemma ItemCleansToItself(s: string)
    requires IsItem(s)
    ensures CleanItems(s) == [s]
  {
    TrimIdentity(s);
    CleanItemsSegment(s);
  }

  lemma HeadTail<T>(s: seq<T>)
    requires |s| > 0
    ensures [s[0]] + s[1..] == s
  {
  }

  lemma JoinCons(parts: seq<string>)
    requires |parts| > 1
    ensures Join(parts, ',') == parts[0] + [','] + Join(parts[1..], ',')
  {
  }

  /** An item is its own trim, and not blank. */
  lemma TrimIdentity(s: string)
    requires IsItem(s)
    ensures Trim(s) == s && !AllWhitespace(s)
  {
  }

  /** The reply `milk, eggs` gives the items `milk` and `eggs`. */
  lemma CleanItemsExample()
    ensures CleanItems("milk, eggs") == ["milk", "eggs"]
  {
    assert "milk, eggs" == "milk" + [','] + " eggs";
    CleanItemsAppend("milk", " eggs");
    MilkIsItem();
    ItemCleansToItself("milk");
    EggsIsItem();
    SpacedItemCleansToItself("eggs");
    assert " eggs" == [' '] + "eggs";
  }

  lemma MilkIsItem()
    ensures IsItem("milk")
  {
  }

  lemma EggsIsItem()
    ensures IsItem("eggs")
  {
  }

  /** An item after a space, as in a reply written `a, b`, cleans to the item. */
  lemma SpacedItemCleansToItself(s: string)
    requires IsItem(s)
    ensures CleanItems([' '] + s) == [s]
  {
    var spaced := [' '] + s;
    assert spaced[1..] == s;
    assert TrimStart(spaced) == s;
    assert !AllWhitespace(spaced) by { assert spaced[1] == s[0]; }
    CleanItemsSegment(spaced);
  }

  /** `cleanGroceryList` asks the model only when the transcript has a non-whitespace character. */
  predicate CallsModel(transcript: string)
  {
    Trim(transcript) != ""
  }

  /**
   * `cleanGroceryList`: a blank transcript gives no items; otherwise the
   * reply's text is cleaned, an empty or absent text gives no items, and any
   * failure of the call becomes the fixed grocery-list error.
   */
  function CleanGroceryList(transcript: string, reply: Reply): (r: Result<seq<string>, Thrown>)
    ensures AllWhitespace(transcript) ==> r == Ok([])
    ensures r.Ok? ==> forall k :: 0 <= k < |r.value| ==> IsItem(r.value[k])
    ensures r.Err? <==> !AllWhitespace(transcript) && reply.Rejected?
    ensures r.Err? ==> r.error == NewError(GroceryFailedMessage)
    ensures r.Ok? && reply.Responded? && !Truthy(reply.text) ==> r.value == []
  {
    TrimEmptyIffBlank(transcript);
    if !CallsModel(transcript) then Ok([])
    else
      match reply
      case Rejected(_) => Err(NewError(GroceryFailedMessage))
      case Responded(text) =>
        if Truthy(text) then Ok(CleanItems(text.value)) else Ok([])
  }

  /** For a blank transcript the reply does not matter: the model is never asked. */
  lemma BlankTranscriptIgnoresReply(transcript: string, one: Reply, other: Reply)
    requires AllWhitespace(transcript)
    ensures !CallsModel(transcript)
    ensures CleanGroceryList(transcript, one) == CleanGroceryList(transcript, other)
  {
    TrimEmptyIffBlank(transcript);
  }

  /** For a non-blank transcript and a non-empty reply, the result is the cleaned reply. */
  lemma GroceryReplyIsCleaned(transcript: string, text: string)
    requires !AllWhitespace(transcript) && text != ""
    ensures CleanGroceryList(transcript, Responded(Some(text))) == Ok(CleanItems(text))
  {
    TrimEmptyIffBlank(transcript);
  }
}
