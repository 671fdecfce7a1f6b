/**
 * Voice control mode: the fixed command table, the interpreter that maps a
 * normalised utterance to feedback and at most one command, and the listening
 * state the recognizer's callbacks and the start/stop buttons update.
 */
module VoiceMode {
  import opened Options
  import opened Text

  /** What a recognised command does; each stands for a browser call. */
  datatype Action =
    | Push(route: string)    // router.push(route)
    | Back                   // router.back()
    | ScrollBy(dy: int)      // window.scrollBy(0, dy)
    | StopListening          // stopListening()

  type Command = (string, Action)

  /** The command table, in declaration order: the order in which phrases are tried. */
  const Commands: seq<Command> := [
    ("go home", Push("/")),
    ("go back", Back),
    ("scroll down", ScrollBy(300)),
    ("scroll up", ScrollBy(-300)),
    ("change mode", Push("/gesture-mode")),
    ("open settings", Push("/settings")),
    ("stop listening", StopListening)
  ]

  const HelpWord := "help"
  const HelpList := "go home, " + ("go back, " + ("scroll down, " + ("scroll up, " + ("change mode, " + ("open settings, " + "stop listening")))))
  const HelpFeedback := "Available commands: " + HelpList
  const HelpSpeech := "Here are some available commands: " + HelpList
  const NotRecognizedFeedback := "Command not recognized. " + "Say 'help' for available commands."
  const NotRecognizedSpeech := "I didn't understand that command. " + "Say 'help' for available commands."
  const ExecutingPrefix := "Executing: "

  /** The phrases of `table` in order, separated by ", ". */
  function JoinPhrases(table: seq<Command>): string
  {
    if |table| == 0 then ""
    else if |table| == 1 then table[0].0
    else table[0].0 + ", " + JoinPhrases(table[1..])
  }

  /** The help text lists exactly the table's phrases, in table order. */
  lemma HelpListsTable()
    ensures HelpList == JoinPhrases(Commands)
  {
    var c := Commands;
    assert c[6..] == [c[6]];
    assert c[5..][1..] == c[6..];
    assert c[4..][1..] == c[5..];
    assert c[3..][1..] == c[4..];
    assert c[2..][1..] == c[3..];
    assert c[1..][1..] == c[2..];
  }

  /** What processing one utterance produces: the feedback shown, the text
      spoken, and the command run, if any. */
  datatype Response = Response(feedback: string, speech: string, action: Option<Action>)

  /** The index of the first entry of `table`, at `from` or later, whose phrase
      is included in `utterance`. */
  function FirstMatch(table: seq<Command>, utterance: string, from: nat): (r: Option<nat>)
    requires from <= |table|
    ensures r.Some? ==> from <= r.value < |table| && Includes(utterance, table[r.value].0)
    ensures r.Some? ==> forall j :: from <= j < r.value ==> !Includes(utterance, table[j].0)
    ensures r.None? ==> forall j :: from <= j < |table| ==> !Includes(utterance, table[j].0)
    decreases |table| - from
  {
    if from == |table| then None
    else if Includes(utterance, table[from].0) then Some(from)
    else FirstMatch(table, utterance, from + 1)
  }

  /** The response to a matched phrase. */
  function Executing(phrase: string, action: Action): Response
  {
    Response(ExecutingPrefix + phrase, ExecutingPrefix + phrase, Some(action))
  }

  /** The meaning of `processCommand`: help first, then the first matching
      command, otherwise the "not recognized" response. */
  function Respond(utterance: string): Response
  {
    if Includes(utterance, HelpWord) then Response(HelpFeedback, HelpSpeech, None)
    else match FirstMatch(Commands, utterance, 0)
      case Some(i) => Executing(Commands[i].0, Commands[i].1)
      case None => Response(NotRecognizedFeedback, NotRecognizedSpeech, None)
  }

  /** `processCommand`'s decision: test for "help", then scan the table in order
      and stop at the first phrase the utterance includes. */
  method Interpret(utterance: string) returns (r: Response)
    ensures r == Respond(utterance)
  {
    if Includes(utterance, HelpWord) {
      return Response(HelpFeedback, HelpSpeech, None);
    }
    for i := 0 to |Commands|
      invariant forall j :: 0 <= j < i ==> !Includes(utterance, Commands[j].0)
    {
      var (phrase, action) := Commands[i];
      if Includes(utterance, phrase) {
        return Executing(phrase, action);
      }
    }
    return Response(NotRecognizedFeedback, NotRecognizedSpeech, None);
  }

  // ---------------------------------------------------------------------
  // Properties of the interpreter
  // ---------------------------------------------------------------------

  /** An utterance that includes "help" gets the help text and runs nothing,
      whatever command phrases it also includes. */
  lemma HelpTakesPrecedence(utterance: string)
    requires Includes(utterance, HelpWord)
    ensures Respond(utterance) == Response(HelpFeedback, HelpSpeech, None)
  {
  }

  /** Without "help", the entry that runs is the first whose phrase is
      included; later entries that also match are ignored. */
  lemma FirstMatchWins(utterance: string, i: nat)
    requires !Includes(utterance, HelpWord)
    requires i < |Commands| && Includes(utterance, Commands[i].0)
    requires forall j :: 0 <= j < i ==> !Includes(utterance, Commands[j].0)
    ensures Respond(utterance).action == Some(Commands[i].1)
    ensures Respond(utterance).feedback == ExecutingPrefix + Commands[i].0
    ensures Respond(utterance).speech == ExecutingPrefix + Commands[i].0
  {
  }

  /** `FirstMatchWins` with the conditions stated as occurrences, the form in
      which facts about particular utterances are proved. */
  lemma FirstOccurrenceWins(utterance: string, i: nat)
    requires !Occurs(utterance, HelpWord)
    requires i < |Commands| && Occurs(utterance, Commands[i].0)
    requires forall j :: 0 <= j < i ==> !Occurs(utterance, Commands[j].0)
    ensures Respond(utterance) == Executing(Commands[i].0, Commands[i].1)
  {
    IncludesIffOccurs(utterance, HelpWord);
    IncludesIffOccurs(utterance, Commands[i].0);
    forall j | 0 <= j < i ensures !Includes(utterance, Commands[j].0) {
      IncludesIffOccurs(utterance, Commands[j].0);
    }
    FirstMatchWins(utterance, i);
  }

  /** A command runs exactly when there is no "help" and some phrase is included. */
  lemma ActionIff(utterance: string)
    ensures Respond(utterance).action.Some? <==>
      !Includes(utterance, HelpWord) && exists i :: 0 <= i < |Commands| && Includes(utterance, Commands[i].0)
  {
    if !Includes(utterance, HelpWord) && exists i :: 0 <= i < |Commands| && Includes(utterance, Commands[i].0) {
      var i :| 0 <= i < |Commands| && Includes(utterance, Commands[i].0);
      assert FirstMatch(Commands, utterance, 0).Some?;
    }
  }

  /** With no "help" and no included phrase, the "not recognized" response
      comes back and nothing runs. */
  lemma NotRecognized(utterance: string)
    requires !Includes(utterance, HelpWord)
    requires forall i :: 0 <= i < |Commands| ==> !Includes(utterance, Commands[i].0)
    ensures Respond(utterance) == Response(NotRecognizedFeedback, NotRecognizedSpeech, None)
  {
  }

  /** The three kinds of feedback never coincide, so the feedback line tells
      which branch was taken. */
  lemma FeedbackTellsBranch(utterance: string)
    ensures var r := Respond(utterance);
      (r.feedback == HelpFeedback <==> Includes(utterance, HelpWord))
      && (r.feedback == NotRecognizedFeedback <==> !Includes(utterance, HelpWord) && r.action.None?)
      && (r.action.Some? <==> r.feedback[..|ExecutingPrefix|] == ExecutingPrefix)
  {
    assert HelpFeedback[..|ExecutingPrefix|][0] != ExecutingPrefix[0];
    assert NotRecognizedFeedback[..|ExecutingPrefix|][0] != ExecutingPrefix[0];
    var m := FirstMatch(Commands, utterance, 0);
    if !Includes(utterance, HelpWord) && m.Some? {
      var phrase := Commands[m.value].0;
      assert (ExecutingPrefix + phrase)[..|ExecutingPrefix|] == ExecutingPrefix;
      assert |ExecutingPrefix + phrase| != |HelpFeedback|;
      assert |ExecutingPrefix + phrase| != |NotRecognizedFeedback|;
    }
  }

  // ---------------------------------------------------------------------
  // Worked utterances
  // ---------------------------------------------------------------------

  /** "scroll up then scroll down" includes both scroll phrases; "scroll down"
      is declared first, so it is the one that runs. */
  lemma ExampleEarlierEntryWins(u: string)
    requires u == "scroll up then scroll down"
    ensures Includes(u, "scroll up")
    ensures Respond(u) == Executing("scroll down", ScrollBy(300))
  {
    IncludesAt(u, "scroll up", 0);
    assert OccursAt(u, "scroll down", 15);
    NotOccursMissingChar(u, "go home", 0);
    NotOccursMissingChar(u, "go back", 0);
    // Each "e" in the sentence is followed by "n", never by the "l" of "help".
    NotOccursMissingPair(u, HelpWord, 1);
    CommandEntries();
    FirstOccurrenceWins(u, 2);
  }

  /** "please scroll down now" scrolls down by 300. */
  lemma ExampleScrollDown(u: string)
    requires u == "please scroll down now"
    ensures Respond(u) == Executing("scroll down", ScrollBy(300))
  {
    assert OccursAt(u, "scroll down", 7);
    NotOccursMissingChar(u, "go home", 0);
    NotOccursMissingChar(u, "go back", 0);
    NotOccursMissingChar(u, HelpWord, 0);
    CommandEntries();
    FirstOccurrenceWins(u, 2);
  }

  /** "asdkfj" includes no phrase and no "help". */
  lemma ExampleGibberish(u: string)
    requires u == "asdkfj"
    ensures Respond(u) == Response(NotRecognizedFeedback, NotRecognizedSpeech, None)
  {
    NotIncludesMissingChar(u, HelpWord, 0);
    NotIncludesMissingChar(u, "go home", 0);
    NotIncludesMissingChar(u, "go back", 0);
    NotIncludesMissingChar(u, "scroll down", 1);
    NotIncludesMissingChar(u, "scroll up", 1);
    NotIncludesMissingChar(u, "change mode", 0);
    NotIncludesMissingChar(u, "open settings", 0);
    NotIncludesMissingChar(u, "stop listening", 1);
    NotRecognized(u);
  }

  /** "help me go home" answers with the help text and does not go home. */
  lemma ExampleHelpOverridesCommand(u: string)
    requires u == "help me go home"
    ensures Includes(u, "go home")
    ensures Respond(u) == Response(HelpFeedback, HelpSpeech, None)
  {
    IncludesAt(u, "go home", 8);
    IncludesAt(u, HelpWord, 0);
  }

  // ---------------------------------------------------------------------
  // Every entry of the table can be reached
  // ---------------------------------------------------------------------

  /** The table, entry by entry. */
  lemma CommandEntries()
    ensures Commands[0] == ("go home", Push("/")) && Commands[1] == ("go back", Back)
    ensures Commands[2] == ("scroll down", ScrollBy(300)) && Commands[3] == ("scroll up", ScrollBy(-300))
    ensures Commands[4] == ("change mode", Push("/gesture-mode"))
    ensures Commands[5] == ("open settings", Push("/settings"))
    ensures Commands[6] == ("stop listening", Action.StopListening)
  {
  }

  /** For each phrase, the letters (or the adjacent pair) that keep it from
      including "help" or any phrase declared before it. */
  lemma NoEarlierMatchInGoHome(u: string)
    requires u == "go home"
    ensures !Occurs(u, HelpWord)
  {
    NotOccursMissingChar(u, HelpWord, 2);
  }

  lemma NoEarlierMatchInGoBack(u: string)
    requires u == "go back"
    ensures !Occurs(u, HelpWord) && !Occurs(u, "go home")
  {
    NotOccursMissingChar(u, HelpWord, 0);
    NotOccursMissingChar(u, "go home", 3);
  }

  lemma NoEarlierMatchInScrollDown(u: string)
    requires u == "scroll down"
    ensures !Occurs(u, HelpWord) && !Occurs(u, "go home") && !Occurs(u, "go back")
  {
    NotOccursMissingChar(u, HelpWord, 0);
    NotOccursMissingChar(u, "go home", 0);
    NotOccursMissingChar(u, "go back", 0);
  }

  lemma NoEarlierMatchInScrollUp(u: string)
    requires u == "scroll up"
    ensures !Occurs(u, HelpWord) && !Occurs(u, "go home") && !Occurs(u, "go back") && !Occurs(u, "scroll down")
  {
    NotOccursMissingChar(u, HelpWord, 0);
    NotOccursMissingChar(u, "go home", 0);
    NotOccursMissingChar(u, "go back", 0);
    NotOccursMissingChar(u, "scroll down", 7);
  }

  /** "change mode" holds every letter of "go home", but never "g" before "o". */
  lemma NoEarlierMatchInChangeMode(u: string)
    requires u == "change mode"
    ensures !Occurs(u, HelpWord) && !Occurs(u, "go home") && !Occurs(u, "go back") && !Occurs(u, "scroll down") && !Occurs(u, "scroll up")
  {
    NotOccursMissingChar(u, HelpWord, 2);
    NotOccursMissingPair(u, "go home", 0);
    NotOccursMissingChar(u, "go back", 3);
    NotOccursMissingChar(u, "scroll down", 0);
    NotOccursMissingChar(u, "scroll up", 0);
  }

  lemma NoEarlierMatchInOpenSettings(u: string)
    requires u == "open settings"
    ensures !Occurs(u, HelpWord) && !Occurs(u, "go home") && !Occurs(u, "go back") && !Occurs(u, "scroll down") && !Occurs(u, "scroll up") && !Occurs(u, "change mode")
  {
    NotOccursMissingChar(u, HelpWord, 0);
    NotOccursMissingChar(u, "go home", 3);
    NotOccursMissingChar(u, "go back", 3);
    NotOccursMissingChar(u, "scroll down", 1);
    NotOccursMissingChar(u, "scroll up", 1);
    NotOccursMissingChar(u, "change mode", 0);
  }

  /** "stop listening" holds every letter of "open settings", but never "p" before "e". */
  lemma NoEarlierMatchInStopListening(u: string)
    requires u == "stop listening"
    ensures !Occurs(u, HelpWord) && !Occurs(u, "go home") && !Occurs(u, "go back") && !Occurs(u, "scroll down")
    ensures !Occurs(u, "scroll up") && !Occurs(u, "change mode") && !Occurs(u, "open settings")
  {
    NotOccursMissingChar(u, HelpWord, 0);
    NotOccursMissingChar(u, "go home", 3);
    NotOccursMissingChar(u, "go back", 3);
    NotOccursMissingChar(u, "scroll down", 1);
    NotOccursMissingChar(u, "scroll up", 1);
    NotOccursMissingChar(u, "change mode", 0);
    NotOccursMissingPair(u, "open settings", 1);
  }

  /** No phrase of the table includes "help" or a phrase declared before it. */
  lemma PhrasesUnshadowed()
    ensures forall i :: 0 <= i < |Commands| ==> !Occurs(Commands[i].0, HelpWord)
    ensures forall i, j :: 0 <= j < i < |Commands| ==> !Occurs(Commands[i].0, Commands[j].0)
  {
    CommandEntries();
    NoEarlierMatchInGoHome(Commands[0].0);
    NoEarlierMatchInGoBack(Commands[1].0);
    NoEarlierMatchInScrollDown(Commands[2].0);
    NoEarlierMatchInScrollUp(Commands[3].0);
    NoEarlierMatchInChangeMode(Commands[4].0);
    NoEarlierMatchInOpenSettings(Commands[5].0);
    NoEarlierMatchInStopListening(Commands[6].0);
  }

  /** No entry is shadowed: saying exactly an entry's phrase runs that entry. */
  lemma EveryCommandReachable()
    ensures forall i :: 0 <= i < |Commands| ==> Respond(Commands[i].0) == Executing(Commands[i].0, Commands[i].1)
  {
    PhrasesUnshadowed();
    forall i | 0 <= i < |Commands|
      ensures Respond(Commands[i].0) == Executing(Commands[i].0, Commands[i].1)
    {
      var u := Commands[i].0;
      assert OccursAt(u, u, 0);
      FirstOccurrenceWins(u, i);
    }
  }

  /** An utterance that includes "stop listening" and no other phrase, and no
      "help", stops listening. */
  lemma OnlyStopPhraseStops(u: string)
    requires !Includes(u, HelpWord) && Includes(u, "stop listening")
    requires !Includes(u, "go home") && !Includes(u, "go back")
    requires !Includes(u, "scroll down") && !Includes(u, "scroll up")
    requires !Includes(u, "change mode") && !Includes(u, "open settings")
    ensures Respond(u) == Executing("stop listening", Action.StopListening)
  {
    CommandEntries();
    FirstMatchWins(u, 6);
  }

  // ---------------------------------------------------------------------
  // Listening state
  // ---------------------------------------------------------------------

  /** A foreign call the page makes, recorded in the order it is made. */
  datatype Effect =
    | Speak(text: string)      // speechSynthesis.speak
    | Perform(action: Action)  // router.push, router.back or window.scrollBy
    | StartRecognizer          // recognition.start()
    | StopRecognizer           // recognition.stop()

  const WelcomeSpeech := "Voice control mode activated. " + "Say 'help' for available commands."
  const ListeningSpeech := "Listening for commands."
  const PausedSpeech := "Voice recognition paused."
  const NoSpeechError := "no-speech"

  /** The voice-feedback switch as the recognizer's handlers see it. They are
      installed once, when the page mounts, so they and the commands they run
      keep the value the switch had then. */
  const HandlerTts := true

  /** The voice page's state: the three displayed fields, the voice-feedback
      switch, and the log of foreign calls made so far. */
  class VoiceSession {
    var isListening: bool
    var transcript: string
    var feedback: string
    var ttsEnabled: bool
    var effects: seq<Effect>
    /** A speech-recognition object was created (the browser offers one). */
    const hasRecognizer: bool
    /** `window.speechSynthesis` exists. */
    const hasSynthesis: bool

    /** What `speakFeedback(text)` adds to the log when the caller sees the
        switch as `tts`. */
    function Spoken(tts: bool, text: string): seq<Effect>
      reads this
    {
      if tts && hasSynthesis then [Speak(text)] else []
    }

    /** What `stopListening()` adds to the log when the caller sees the switch as `tts`. */
    function StopEffects(tts: bool): seq<Effect>
      reads this
    {
      (if hasRecognizer then [StopRecognizer] else []) + Spoken(tts, PausedSpeech)
    }

    /** What running a matched command adds to the log. */
    function ActionEffects(a: Option<Action>): seq<Effect>
      reads this
    {
      match a
      case None => []
      case Some(c) => if c.StopListening? then StopEffects(HandlerTts) else [Perform(c)]
    }

    /** Mounting the page: nothing displayed, not listening, voice feedback on;
        the welcome message is spoken only when recognition is supported. */
    constructor (hasRecognizer: bool, hasSynthesis: bool)
      ensures this.hasRecognizer == hasRecognizer && this.hasSynthesis == hasSynthesis
      ensures !isListening && transcript == "" && feedback == "" && ttsEnabled
      ensures effects == if hasRecognizer && hasSynthesis then [Speak(WelcomeSpeech)] else []
    {
      this.hasRecognizer := hasRecognizer;
      this.hasSynthesis := hasSynthesis;
      isListening := false;
      transcript := "";
      feedback := "";
      ttsEnabled := true;
      effects := if hasRecognizer && hasSynthesis then [Speak(WelcomeSpeech)] else [];
    }

    /** `startListening`: `start()` throws when there is no recognizer or when
        the platform refuses (`startFails`); then the state is unchanged.
        Otherwise the session is listening. */
    method StartListening(startFails: bool)
      modifies this
      ensures transcript == old(transcript) && feedback == old(feedback) && ttsEnabled == old(ttsEnabled)
      ensures hasRecognizer && !startFails ==>
        isListening && effects == old(effects) + [StartRecognizer] + Spoken(ttsEnabled, ListeningSpeech)
      ensures !(hasRecognizer && !startFails) ==>
        isListening == old(isListening) && effects == old(effects)
    {
      if hasRecognizer && !startFails {
        effects := effects + [StartRecognizer];
        isListening := true;
        effects := effects + Spoken(ttsEnabled, ListeningSpeech);
      }
    }

    /** `stopListening`, called by a closure that sees the switch as `tts`
        (the button passes `ttsEnabled`, the command `HandlerTts`): stops the
        recognizer if there is one; never listening afterwards. */
    method StopListening(tts: bool)
      modifies this
      ensures !isListening
      ensures transcript == old(transcript) && feedback == old(feedback) && ttsEnabled == old(ttsEnabled)
      ensures effects == old(effects) + StopEffects(tts)
    {
      if hasRecognizer {
        effects := effects + [StopRecognizer];
      }
      isListening := false;
      effects := effects + Spoken(tts, PausedSpeech);
    }

    /** `processCommand`, as the recognizer's handler calls it: show and
        speak the response, then run its command; the "stop listening"
        command ends listening. Speaking follows `HandlerTts`, not the
        current switch. */
    method ProcessCommand(utterance: string)
      modifies this
      ensures feedback == Respond(utterance).feedback
      ensures transcript == old(transcript) && ttsEnabled == old(ttsEnabled)
      ensures effects == old(effects) + Spoken(HandlerTts, Respond(utterance).speech) + ActionEffects(Respond(utterance).action)
      ensures isListening == (old(isListening) && Respond(utterance).action != Some(Action.StopListening))
    {
      var r := Interpret(utterance);
      feedback := r.feedback;
      effects := effects + Spoken(HandlerTts, r.speech);
      match r.action {
        case None =>
        case Some(c) =>
          if c.StopListening? {
            StopListening(HandlerTts);
          } else {
            effects := effects + [Perform(c)];
          }
      }
    }

    /** `onresult`: every result updates the transcript to the normalised text;
        only a final result is interpreted. */
    method OnResult(text: string, isFinal: bool)
      modifies this
      ensures transcript == Normalize(text) && ttsEnabled == old(ttsEnabled)
      ensures isFinal ==> feedback == Respond(Normalize(text)).feedback
      ensures isFinal ==> effects == old(effects) + Spoken(HandlerTts, Respond(Normalize(text)).speech)
                                     + ActionEffects(Respond(Normalize(text)).action)
      ensures isFinal ==> isListening == (old(isListening) && Respond(Normalize(text)).action != Some(Action.StopListening))
      ensures !isFinal ==> feedback == old(feedback) && isListening == old(isListening) && effects == old(effects)
    {
      transcript := Normalize(text);
      if isFinal {
        ProcessCommand(transcript);
      }
    }

    /** `onerror`: "no-speech" is ignored; any other error stops listening. */
    method OnError(error: string)
      modifies this
      ensures isListening == (old(isListening) && error == NoSpeechError)
      ensures transcript == old(transcript) && feedback == old(feedback)
      ensures ttsEnabled == old(ttsEnabled) && effects == old(effects)
    {
      if error == NoSpeechError {
        return;
      }
      isListening := false;
    }

    /** `toggleTts`: flips the voice-feedback switch and nothing else. */
    method ToggleTts()
      modifies this
      ensures ttsEnabled == !old(ttsEnabled)
      ensures isListening == old(isListening) && transcript == old(transcript)
      ensures feedback == old(feedback) && effects == old(effects)
    {
      ttsEnabled := !ttsEnabled;
    }
  }

  /** Turning voice feedback off silences the buttons but not the recognized
      commands: a final result still speaks its response. */
  method MutedSessionStillSpeaks(s: VoiceSession, text: string)
    requires s.ttsEnabled && s.hasSynthesis
    modifies s
    ensures !s.ttsEnabled
    ensures |old(s.effects)| < |s.effects| && s.effects[|old(s.effects)|] == Speak(Respond(Normalize(text)).speech)
  {
    s.ToggleTts();
    s.OnResult(text, true);
  }
}
