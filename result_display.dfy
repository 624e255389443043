/**
 * The result panel of components/ResultDisplay.tsx: how it picks a voice for
 * reading the result aloud (seven preference tiers tried in order), when it
 * speaks, and the state its handlers keep. The speech engine is represented
 * by the calls made on it, recorded in order; the voice list it offers and
 * its `speaking` flag are parameters.
 */
module ResultDisplay {

  import opened Outcomes
  import opened Strings

  /** A `SpeechSynthesisVoice`, with the fields the cascade reads. */
  datatype Voice = Voice(name: string, lang: string, localService: bool, isDefault: bool)

  /** The number of preference tiers; tier 0 is the most preferred. */
  const TierCount := 7

  predicate IsEnglish(v: Voice)
  {
    StartsWith(v.lang, "en")
  }

  /** One of the four voice names the third tier looks for. */
  predicate HasPreferredName(name: string)
  {
    Contains(name, "Zira") || Contains(name, "Samantha") || Contains(name, "Victoria") || Contains(name, "Susan")
  }

  /** The predicate of each `voices.find(...)` in the cascade, in order. */
  predicate InTier(tier: nat, v: Voice)
  {
    if tier == 0 then IsEnglish(v) && Contains(v.name, "Google") && Contains(v.name, "Female")
    else if tier == 1 then IsEnglish(v) && Contains(ToLowerAscii(v.name), "female") && !v.localService
    else if tier == 2 then IsEnglish(v) && HasPreferredName(v.name)
    else if tier == 3 then IsEnglish(v) && Contains(v.name, "Google")
    else if tier == 4 then IsEnglish(v) && !v.localService
    else if tier == 5 then v.lang == "en-US" && v.isDefault
    else IsEnglish(v)
  }

  /** No voice of the list satisfies the tier. */
  ghost predicate TierEmpty(voices: seq<Voice>, tier: nat)
  {
    forall j :: 0 <= j < |voices| ==> !InTier(tier, voices[j])
  }

  /** `voices[i]` is the first voice, in list order, that satisfies the tier. */
  ghost predicate FirstOfTier(voices: seq<Voice>, tier: nat, i: nat)
  {
    i < |voices| && InTier(tier, voices[i]) && forall j :: 0 <= j < i ==> !InTier(tier, voices[j])
  }

  /** Every tier asks for an English voice: "en-US" starts with "en" too. */
  lemma TierIsEnglish(tier: nat, v: Voice)
    requires InTier(tier, v)
    ensures IsEnglish(v)
  {
    if tier == 5 {
      assert v.lang[..2] == "en-US"[..2] == "en";
    }
  }

  /** `voices.find(...)` for one tier, from index `from` on: the index of the first match. */
  function FindFrom(voices: seq<Voice>, tier: nat, from: nat): (r: Option<nat>)
    requires from <= |voices|
    ensures r.Some? ==> from <= r.value < |voices| && InTier(tier, voices[r.value])
    ensures r.Some? ==> forall j :: from <= j < r.value ==> !InTier(tier, voices[j])
    ensures r.None? ==> forall j :: from <= j < |voices| ==> !InTier(tier, voices[j])
    decreases |voices| - from
  {
    if from == |voices| then None
    else if InTier(tier, voices[from]) then Some(from)
    else FindFrom(voices, tier, from + 1)
  }

  /**
   * The `||` chain from tier `tier` on: the first tier with a matching voice,
   * and the index of its first match.
   */
  function Cascade(voices: seq<Voice>, tier: nat): (r: Option<(nat, nat)>)
    requires tier <= TierCount
    ensures r.Some? ==> tier <= r.value.0 < TierCount && FirstOfTier(voices, r.value.0, r.value.1)
    ensures r.Some? ==> forall t :: tier <= t < r.value.0 ==> TierEmpty(voices, t)
    ensures r.None? ==> forall t :: tier <= t < TierCount ==> TierEmpty(voices, t)
    decreases TierCount - tier
  {
    if tier == TierCount then None
    else
      match FindFrom(voices, tier, 0)
      case Some(i) => Some((tier, i))
      case None => Cascade(voices, tier + 1)
  }

  /**
   * The voice `speak` picks: an English voice, present exactly when the list
   * has an English voice, and the first voice of the earliest tier that any
   * voice satisfies.
   */
  function ChooseVoice(voices: seq<Voice>): (r: Option<Voice>)
    ensures r.Some? ==> r.value in voices && IsEnglish(r.value)
    ensures r.Some? <==> exists j :: 0 <= j < |voices| && IsEnglish(voices[j])
    ensures r.None? ==> forall t :: 0 <= t < TierCount ==> TierEmpty(voices, t)
  {
    match Cascade(voices, 0)
    case Some((tier, i)) =>
      TierIsEnglish(tier, voices[i]);
      Some(voices[i])
    case None =>
      assert TierEmpty(voices, 6);
      None
  }

  /** The chosen voice is the first match of the earliest tier that has one. */
  lemma ChooseVoiceIsEarliestTier(voices: seq<Voice>, tier: nat, i: nat)
    requires tier < TierCount && FirstOfTier(voices, tier, i)
    requires forall t :: 0 <= t < tier ==> TierEmpty(voices, t)
    ensures ChooseVoice(voices) == Some(voices[i])
  {
    assert !TierEmpty(voices, tier) by { assert InTier(tier, voices[i]); }
    var c := Cascade(voices, 0);
    var (t, k) := c.value;
    assert !TierEmpty(voices, t) by { assert InTier(t, voices[k]); }
    assert t == tier;
    assert k == i;
  }

  /**
   * An example list: a Google female en-GB voice placed after a default en-US
   * voice is still the one chosen, because it satisfies the first tier.
   */
  lemma GoogleFemaleFirst()
    ensures ChooseVoice([Voice("Samantha", "en-US", true, true), Voice("Google UK English Female", "en-GB", false, false)])
         == Some(Voice("Google UK English Female", "en-GB", false, false))
  {
    var voices := [Voice("Samantha", "en-US", true, true), Voice("Google UK English Female", "en-GB", false, false)];
    var g := voices[1];
    assert "en-GB"[..2] == "en";
    assert OccursAt(g.name, "Google", 0);
    assert OccursAt(g.name, "Female", 18);
    assert !InTier(0, voices[0]) by {
      AbsentFirstChar(voices[0].name, "Google");
    }
    ChooseVoiceIsEarliestTier(voices, 0, 1);
  }

  /** An utterance as `speak` configures it; an unset pitch or rate is the engine's default. */
  datatype Utterance = Utterance(text: string, voice: Option<Voice>, pitch: Option<real>, rate: Option<real>)

  /** `new SpeechSynthesisUtterance(text)`, with voice, pitch 1 and rate 0.95 set only when a voice was chosen. */
  function NewUtterance(text: string, voices: seq<Voice>): (u: Utterance)
    ensures u.text == text && u.voice == ChooseVoice(voices)
    ensures u.pitch.Some? <==> u.voice.Some?
    ensures u.rate.Some? <==> u.voice.Some?
    ensures u.voice.Some? ==> u.pitch == Some(1.0) && u.rate == Some(0.95)
  {
    var voice := ChooseVoice(voices);
    if voice.Some? then Utterance(text, voice, Some(1.0), Some(0.95))
    else Utterance(text, None, None, None)
  }

  /** A call made on `window.speechSynthesis`. */
  datatype SynthCall = Cancel | Speak(utterance: Utterance)

  /**
   * The calls `speak(text)` makes: none without speech support or for empty
   * text, otherwise a cancel of whatever is playing and then the new utterance.
   */
  function SpeakCalls(supported: bool, voices: seq<Voice>, text: string): (calls: seq<SynthCall>)
    ensures calls == [] <==> !supported || text == ""
    ensures calls != [] ==> |calls| == 2 && calls[0] == Cancel && calls[1].Speak?
    ensures calls != [] ==> calls[1].utterance == NewUtterance(text, voices)
  {
    if !supported || text == "" then [] else [Cancel, Speak(NewUtterance(text, voices))]
  }

  /** The autoplay effect's condition. */
  predicate AutoPlayFires(autoPlay: bool, result: string, voices: seq<Voice>)
  {
    autoPlay && result != "" && |voices| > 0
  }

  class Display {
    /** Whether `speechSynthesis` exists on `window`. */
    const speechSupported: bool
    /** The component's props. */
    const result: string
    const autoPlay: bool
    var isSpeaking: bool
    var isCopied: bool
    var voices: seq<Voice>
    /** Whether the engine's `onvoiceschanged` points at this component's loader. */
    var voicesHandlerSet: bool
    /** Every call made on the speech engine, oldest first. */
    var calls: seq<SynthCall>

    constructor (result: string, autoPlay: bool, speechSupported: bool)
      ensures this.result == result && this.autoPlay == autoPlay && this.speechSupported == speechSupported
      ensures !isSpeaking && !isCopied && voices == [] && !voicesHandlerSet && calls == []
    {
      this.result, this.autoPlay, this.speechSupported := result, autoPlay, speechSupported;
      isSpeaking, isCopied, voices, voicesHandlerSet, calls := false, false, [], false, [];
    }

    /**
     * `loadVoices`: take the engine's list only when it is non-empty. It reads
     * `window.speechSynthesis` without a check; it runs only from a mount
     * that got past that read, so speech is supported.
     */
    method LoadVoices(available: seq<Voice>)
      requires speechSupported
      modifies this
      ensures voices == if |available| > 0 then available else old(voices)
      ensures isSpeaking == old(isSpeaking) && isCopied == old(isCopied)
      ensures voicesHandlerSet == old(voicesHandlerSet) && calls == old(calls)
    {
      if |available| > 0 {
        voices := available;
      }
    }

    /**
     * The mount effect: load the voices now and again on every `voiceschanged`
     * event. Without speech support its first read of `window.speechSynthesis`
     * throws, and nothing changes.
     */
    method Mount(available: seq<Voice>) returns (threw: bool)
      modifies this
      ensures threw <==> !speechSupported
      ensures threw ==> unchanged(this)
      ensures !threw ==> voices == (if |available| > 0 then available else old(voices)) && voicesHandlerSet
      ensures isSpeaking == old(isSpeaking) && isCopied == old(isCopied) && calls == old(calls)
    {
      if !speechSupported {
        return true;
      }
      LoadVoices(available);
      voicesHandlerSet := true;
      threw := false;
    }

    /**
     * The mount effect's cleanup: unsubscribe, and cancel when the engine is
     * still speaking. React registers it only when the mount effect completed,
     * so speech is supported.
     */
    method Unmount(engineSpeaking: bool)
      requires speechSupported
      modifies this
      ensures !voicesHandlerSet
      ensures calls == old(calls) + (if engineSpeaking then [Cancel] else [])
      ensures isSpeaking == old(isSpeaking) && isCopied == old(isCopied) && voices == old(voices)
    {
      voicesHandlerSet := false;
      if engineSpeaking {
        calls := calls + [Cancel];
      }
    }

    /** `speak(text)`: its engine calls, and no state change of its own. */
    method Speak(text: string)
      modifies this
      ensures calls == old(calls) + SpeakCalls(speechSupported, voices, text)
      ensures isSpeaking == old(isSpeaking) && isCopied == old(isCopied)
      ensures voices == old(voices) && voicesHandlerSet == old(voicesHandlerSet)
    {
      if !speechSupported || text == "" {
        return;
      }
      var utterance := NewUtterance(text, voices);
      calls := calls + [Cancel];
      calls := calls + [SynthCall.Speak(utterance)];
    }

    /** `handleToggleSpeak`: stop while speaking, otherwise speak the result. */
    method ToggleSpeak()
      modifies this
      ensures old(isSpeaking) ==> !isSpeaking && calls == old(calls) + [Cancel]
      ensures !old(isSpeaking) ==>
                !isSpeaking && calls == old(calls) + SpeakCalls(speechSupported, voices, result)
      ensures isCopied == old(isCopied) && voices == old(voices) && voicesHandlerSet == old(voicesHandlerSet)
    {
      if isSpeaking {
        calls := calls + [Cancel];
        isSpeaking := false;
      } else {
        Speak(result);
      }
    }

    /** The autoplay effect: speak the result when autoplay is on, the result is non-empty and voices are loaded. */
    method AutoPlay()
      modifies this
      ensures calls == old(calls) + if AutoPlayFires(autoPlay, result, voices) then SpeakCalls(speechSupported, voices, result) else []
      ensures isSpeaking == old(isSpeaking) && isCopied == old(isCopied)
      ensures voices == old(voices) && voicesHandlerSet == old(voicesHandlerSet)
    {
      if autoPlay && result != "" && |voices| > 0 {
        Speak(result);
      }
    }

    /** The utterance's `onstart` handler. */
    method UtteranceStarted()
      modifies this
      ensures isSpeaking
      ensures isCopied == old(isCopied) && voices == old(voices)
      ensures voicesHandlerSet == old(voicesHandlerSet) && calls == old(calls)
    {
      isSpeaking := true;
    }

    /** The utterance's `onend` and `onerror` handlers. */
    method UtteranceStopped()
      modifies this
      ensures !isSpeaking
      ensures isCopied == old(isCopied) && voices == old(voices)
      ensures voicesHandlerSet == old(voicesHandlerSet) && calls == old(calls)
    {
      isSpeaking := false;
    }

    /** `handleCopy` once the clipboard write has resolved. */
    method CopyConfirmed()
      modifies this
      ensures isCopied
      ensures isSpeaking == old(isSpeaking) && voices == old(voices)
      ensures voicesHandlerSet == old(voicesHandlerSet) && calls == old(calls)
    {
      isCopied := true;
    }

    /** The copy confirmation's timer firing. */
    method CopyReset()
      modifies this
      ensures !isCopied
      ensures isSpeaking == old(isSpeaking) && voices == old(voices)
      ensures voicesHandlerSet == old(voicesHandlerSet) && calls == old(calls)
    {
      isCopied := false;
    }
  }

  /** With no voices loaded yet the autoplay effect does nothing; once some load, it speaks. */
  /** Without speech support the mount throws: no voices are loaded and no handler is set. */
  method MountWithoutSpeech(voice: Voice) returns (d: Display)
    ensures d.voices == [] && !d.voicesHandlerSet && d.calls == []
  {
    d := new Display("milk", true, false);
    var threw := d.Mount([voice]);
    assert threw;
  }

  method AutoPlayWaitsForVoices(voice: Voice) returns (d: Display)
    ensures d.calls == SpeakCalls(true, [voice], "milk")
    ensures |d.calls| == 2
  {
    d := new Display("milk", true, true);
    d.AutoPlay();
    assert d.calls == [];
    var threw := d.Mount([voice]);
    d.AutoPlay();
  }
}
