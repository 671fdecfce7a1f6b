# Assist+ accessibility assistant — a verified model of its core

Assist+ is a Next.js web application that lets a user drive a page by voice
or by (simulated) hand gestures, and keeps a small set of accessibility
preferences. This project models in Dafny the three parts of it that hold
logic, and proves properties of the model:

- **Voice control mode** (`voice.dfy`, module `VoiceMode`). It contains the
  fixed command table and the interpreter behind `processCommand`, which
  works on a lower-cased, trimmed utterance:
  - an utterance that contains "help" gets the help text and runs nothing;
  - otherwise the first table phrase the utterance contains wins, with
    feedback "Executing: " plus the phrase;
  - otherwise the "not recognized" text comes back.

  The interpreter is the pure function `Respond` together with the loop
  method `Interpret`, which is proved equal to it. The listening state is the
  class `VoiceSession`. Its methods correspond to the recognizer's
  `onresult`/`onerror` handlers, `startListening`, `stopListening` and the
  voice-feedback switch. Browser calls are recorded as a log of `Effect`
  values.
- **Gesture mode** (`gesture.dfy`, module `GestureMode`). It contains:
  - the four canned gestures;
  - the no-repeat retry loop that picks the next one (`ChooseIndex`, a
    `while` loop over a supplied sequence of random draws);
  - the 21-point skeleton generator (`GenerateHandLandmarks`, nested `for`
    loops) and the fixed connection table;
  - the page state as the class `GestureSession`, covering camera on/off,
    the permission outcome, the start-up timeout and the interval ticks.
- **Accessibility settings** (`settings.dfy`, module
  `AccessibilitySettings`). It contains:
  - the eight-field `Settings` record and its defaults;
  - `window.localStorage` as the class `LocalStorage` over a
    `map<string, Settings>`;
  - the document's root element as the class `RootElement`, with
    `applySettings` specified by the function `Applied`;
  - the page as the class `SettingsPage`, with its mount-time load, save and
    reset.

Two shared modules support these. `Text` models JavaScript's
`String.prototype.includes`, `toLowerCase`, `trim` and the plain decimal
rendering that template literals give an integer-valued number below 10^21
in magnitude, with their lemmas. `Options` provides an `Option` datatype.

Four points where the model follows the code rather than the intended design:

- The skeleton generator makes five fingers of four joints (21 points), not four fingers.
- The voice recognizer's handlers are installed once, when the page mounts
  (the effect's dependencies are only `toast` and `router`, taken to keep
  their identity across renders; `useToast` and `useRouter` are not part of
  this model). So the responses to recognized commands, including the "paused" message of the
  "stop listening" command, follow the voice-feedback switch as it was at
  mount, which is on. Turning voice feedback off silences only the start and
  stop buttons (`MutedSessionStillSpeaks`). The gesture page's camera
  effect depends on `cameraActive` and `toast` and rests on the same
  assumption: a new `toast` would re-run it and request the camera again.
- In the same way, a gesture interval's guard reads a `cameraActive` captured
  while it was `true`, and the clean-up returned for the interval is
  dropped. So turning the camera off does not stop the ticks
  (`TickAfterCameraOff`). Each timer also keeps the voice-feedback switch of
  the render that turned the camera on.
- Attaching a granted stream to the video element does not stop the stream
  it replaces, and only the attached stream is ever stopped. So when two
  requests are outstanding and both are granted, the first stream keeps
  running after the camera is turned off (`ReplacedStreamKeepsRunning`).
  Streams are numbered in the order they are granted, and the session
  records which of them are still live.

## Model

| member | source | states |
|---|---|---|
| VoiceMode.HelpListsTable | app/voice-mode/page.tsx:121-122 | the help text lists exactly the command table's phrases, in table order, separated by ", " |
| VoiceMode.FirstMatch | app/voice-mode/page.tsx:127-134 | the index returned is the first entry at or after `from` whose phrase the utterance includes; none is returned only when no entry from there on matches |
| VoiceMode.Interpret | app/voice-mode/page.tsx:118-139 | the help test and then the in-order table scan with early return compute exactly the response `Respond` defines |
| VoiceMode.HelpTakesPrecedence | app/voice-mode/page.tsx:120-124 | an utterance that includes "help" gets the help feedback and help speech, and runs no command, whatever phrases it also includes |
| VoiceMode.FirstMatchWins | app/voice-mode/page.tsx:126-133 | without "help", the command run is that of the first entry whose phrase is included, and feedback and speech are "Executing: " followed by that phrase; later matching entries are ignored |
| VoiceMode.ActionIff | app/voice-mode/page.tsx:118-139 | a command runs if and only if the utterance has no "help" and includes some table phrase; at most one runs, since the response carries one optional action |
| VoiceMode.NotRecognized | app/voice-mode/page.tsx:136-138 | with no "help" and no included phrase, the "not recognized" feedback and speech come back and nothing runs |
| VoiceMode.FeedbackTellsBranch | app/voice-mode/page.tsx:118-139 | the feedback is the help text exactly when "help" is included, the "not recognized" text exactly when neither help nor a command applies, and starts with "Executing: " exactly when a command runs |
| VoiceMode.ExampleEarlierEntryWins | app/voice-mode/page.tsx:24-32 | "scroll up then scroll down" includes both scroll phrases and runs "scroll down" (scroll by 300), because it is declared first |
| VoiceMode.ExampleScrollDown | app/voice-mode/page.tsx:127-133 | "please scroll down now" runs the scroll-down command |
| VoiceMode.ExampleGibberish | app/voice-mode/page.tsx:136-138 | "asdkfj" is not recognized |
| VoiceMode.ExampleHelpOverridesCommand | app/voice-mode/page.tsx:120-124 | "help me go home" includes "go home" but gets the help text and does not navigate |
| VoiceMode.PhrasesUnshadowed | app/voice-mode/page.tsx:24-32 | no table phrase contains "help", and none contains a phrase declared before it |
| VoiceMode.EveryCommandReachable | app/voice-mode/page.tsx:118-134 | saying exactly a table phrase runs that phrase's own command with feedback "Executing: " plus the phrase, so no entry of the table is dead |
| VoiceMode.OnlyStopPhraseStops | app/voice-mode/page.tsx:31 | an utterance whose only included phrase is "stop listening", and which has no "help", runs the stop command |
| VoiceMode.VoiceSession.constructor | app/voice-mode/page.tsx:15-18 | the page starts not listening, with empty transcript and feedback and voice feedback on; the welcome message is spoken only when recognition is supported |
| VoiceMode.VoiceSession.StartListening | app/voice-mode/page.tsx:90-108 | when `start()` succeeds the session is listening and "Listening for commands." is spoken if the current voice-feedback switch is on and speech synthesis exists; when it throws, nothing changes |
| VoiceMode.VoiceSession.StopListening | app/voice-mode/page.tsx:110-116 | afterwards the session is not listening; the recognizer, if any, is stopped and the pause is announced if the caller's view of the voice-feedback switch is on (the current switch for the button, the switch at mount, which is on, for the voice command) and speech synthesis exists |
| VoiceMode.VoiceSession.ProcessCommand | app/voice-mode/page.tsx:118-139 | feedback becomes the interpreter's feedback, its speech is spoken if the switch as it was at mount (on) is on and speech synthesis exists, its command is performed, and listening ends exactly when that command is "stop listening" |
| VoiceMode.VoiceSession.OnResult | app/voice-mode/page.tsx:51-62 | every result sets the transcript to the lower-cased, trimmed text; only a final one is interpreted; an interim one leaves feedback, listening and effects unchanged |
| VoiceMode.VoiceSession.OnError | app/voice-mode/page.tsx:64-78 | after an error the session is listening exactly when it was before and the error is "no-speech" |
| VoiceMode.VoiceSession.ToggleTts | app/voice-mode/page.tsx:150-156 | the voice-feedback switch flips and nothing else changes |
| VoiceMode.MutedSessionStillSpeaks | app/voice-mode/page.tsx:34-88 | after voice feedback is turned off, a final result still speaks its response, because the handler was installed at mount |
| Text.IncludesIffOccurs | app/voice-mode/page.tsx:128 | `includes` holds exactly when the phrase occurs at some position of the utterance |
| Text.IncludesAcrossSeparator | app/voice-mode/page.tsx:120 | a phrase without the separator character is in `a + sep + b` exactly when it is in `a` or in `b` |
| Text.NotIncludesMissingChar | app/voice-mode/page.tsx:128 | a phrase containing a character the utterance lacks is not included |
| Text.ToLower | app/voice-mode/page.tsx:54 | same length, no upper-case letter left, every upper-case letter mapped to its lower-case form and every other character kept |
| Text.Trim | app/voice-mode/page.tsx:54 | the result is a contiguous window of the input, everything cut off is whitespace or a line terminator, and it neither starts nor ends with one |
| Text.NormalizeIdempotent | app/voice-mode/page.tsx:54 | lower-casing and trimming a transcript a second time changes nothing |
| Text.NatRoundTrip | app/settings/page.tsx:66 | reading back the decimal digits a natural number renders to gives the number |
| Text.IntRoundTrip | app/settings/page.tsx:66 | an integer's rendering is a well-formed numeral that parses back to the integer |
| Text.IntToStringInjective | app/settings/page.tsx:66 | distinct integers render as distinct strings |
| GestureMode.GestureEntriesDistinct | app/gesture-mode/page.tsx:137-142 | distinct table entries have distinct names and distinct feedback |
| GestureMode.ChooseIndex | app/gesture-mode/page.tsx:152-155 | the index chosen lies in [0, 4), differs from `lastIndex`, and is the first draw that differs; every earlier draw equalled `lastIndex` |
| GestureMode.FirstDrawAccepted | app/gesture-mode/page.tsx:144-155 | with `lastIndex` at its initial -1, any of the four indices is accepted on the first draw |
| GestureMode.GenerateHandLandmarks | app/gesture-mode/page.tsx:111-131 | exactly 21 points, the wrist then 5 fingers of 4 joints; each joint is drawn from the previous joint of its finger, the first one from the wrist |
| GestureMode.ConnectionsInBounds | app/gesture-mode/page.tsx:15-22 | every endpoint in the connection table is below 21, so the landmark lookups at the draw site are in bounds |
| GestureMode.ConnectionsFollowSkeleton | app/gesture-mode/page.tsx:15-22 | the first 20 connections join each joint to the point it was drawn from; the 4 palm connections join the wrist and first joints |
| GestureMode.Segments | app/gesture-mode/page.tsx:176-178 | one drawn segment per connection |
| GestureMode.GestureSession.constructor | app/gesture-mode/page.tsx:25-29 | camera off, not loading, empty gesture and feedback, voice feedback on, no timers |
| GestureMode.GestureSession.ToggleCamera | app/gesture-mode/page.tsx:78-92 | turning off stops the attached stream's tracks and detaches it, clears gesture and feedback to "" and announces it if the current voice-feedback switch is on and speech synthesis exists; turning on first runs the camera effect's clean-up, which stops a stream attached late but leaves it attached, then shows the loader and requests the camera; no other stream is stopped |
| GestureMode.GestureSession.CameraGranted | app/gesture-mode/page.tsx:40-44 | a newly numbered stream is attached and becomes live, and a start-up timeout is scheduled; the stream it replaces is not stopped and stays live |
| GestureMode.GestureSession.CameraDenied | app/gesture-mode/page.tsx:57-60 | a refused camera request sets `cameraActive` and `loading` to false; when that turns an active camera off, React runs the camera effect's clean-up because `cameraActive` changed, and it stops the tracks of the attached stream, if any, leaving it attached |
| GestureMode.GestureSession.CameraReady | app/gesture-mode/page.tsx:44-54 | the loader is hidden, activation is announced if the switch captured when the camera was turned on is on and speech synthesis exists, and a new interval starts with `lastIndex` -1 |
| GestureMode.GestureSession.Tick | app/gesture-mode/page.tsx:146-201 | the index chosen is the first draw that differs from the interval's previous index, so it is in [0, 4) and not that index; it becomes the interval's new `lastIndex`, and `gesture` and `feedback` are the name and action of that same entry; the action is spoken if the switch captured when the camera was turned on is on and speech synthesis exists; the hand drawn is the segments of the full 21-point skeleton |
| GestureMode.GestureSession.ToggleTts | app/gesture-mode/page.tsx:94-100 | the voice-feedback switch flips and nothing else changes |
| GestureMode.TwoTicks | app/gesture-mode/page.tsx:152-161 | two successive ticks of one interval show different gesture names |
| GestureMode.ReplacedStreamKeepsRunning | app/gesture-mode/page.tsx:39-42 | after on, off, on, two granted requests and off, the camera is off and nothing is attached, yet the first stream is still live and was never stopped; only the second was |
| GestureMode.TickAfterCameraOff | app/gesture-mode/page.tsx:134-150 | once the camera is turned off, a tick of an interval started earlier shows a gesture again |
| AccessibilitySettings.LocalStorage.GetItem | app/settings/page.tsx:47-48 | a record comes back exactly when the key is stored, and it is the stored one |
| AccessibilitySettings.LocalStorage.SetItem | app/settings/page.tsx:92 | the key holds the new record and every other key is unchanged |
| AccessibilitySettings.LocalStorage.RemoveItem | app/settings/page.tsx:290 | the key is gone and every other key is unchanged |
| AccessibilitySettings.SaveThenLoadRestores | app/settings/page.tsx:79-92 | a record saved under the key is exactly what the next load restores, whatever the fields held |
| AccessibilitySettings.RemoveThenLoadKeeps | app/settings/page.tsx:290 | once the key is removed, a load leaves the fields as they are |
| AccessibilitySettings.FontSizeStyle | app/settings/page.tsx:66 | the font-size string is a decimal numeral followed by "%", and the numeral reads back as the percentage |
| AccessibilitySettings.FontSizeStyleInjective | app/settings/page.tsx:66 | distinct percentages give distinct font-size strings |
| AccessibilitySettings.Applied | app/settings/page.tsx:64-77 | the font size is set; `high-contrast` is among the classes if and only if the setting is on, and every other class is unchanged; `data-theme` becomes the theme and every other attribute is unchanged; a negative font size is not valid CSS, so it leaves the inline size as it was; a root state without `class` or `style` entries among its attributes (those two are the class list and the font size) keeps that form |
| AccessibilitySettings.ApplyIdempotent | app/settings/page.tsx:64-77 | applying the same settings twice gives the same root state as applying them once |
| AccessibilitySettings.LastApplyWins | app/settings/page.tsx:64-77 | applying two settings in turn gives the same root state as applying only the second when its font size is not negative; in every case it equals applying only the second to the root with the first call's font size |
| AccessibilitySettings.NegativeFontSizeIgnored | app/settings/page.tsx:47-66 | a loaded record with font size -10, applied after one with 150, leaves "150%" in place |
| AccessibilitySettings.RootElement.ApplySettings | app/settings/page.tsx:64-77 | the root element's new state is `Applied` of its old state, and it stays well formed |
| AccessibilitySettings.SettingsPage.constructor | app/settings/page.tsx:35-42 | the fields start at the defaults: no high contrast, text-to-speech, speech and gesture recognition on, font size and speech rate 100, theme "system", language "en-US" |
| AccessibilitySettings.SettingsPage.Load | app/settings/page.tsx:45-62 | with the key present, all eight fields take the stored values and the record is applied; with it absent, nothing changes; storage is not written |
| AccessibilitySettings.SettingsPage.SetFields | app/settings/page.tsx:49-56 | the eight state setters leave the page's fields equal to the given record, field for field |
| AccessibilitySettings.SettingsPage.Save | app/settings/page.tsx:79-107 | the current record is stored under "assistPlusSettings" and every other key is unchanged; the record is applied; the confirmation is spoken only when text-to-speech is on and the browser has speech synthesis |
| AccessibilitySettings.SettingsPage.Reset | app/settings/page.tsx:290 | "assistPlusSettings" is removed and every other key is unchanged |
| AccessibilitySettings.SaveThenReload | app/settings/page.tsx:79-92 | saving and then loading a fresh page on the same storage restores all eight fields exactly |
| AccessibilitySettings.ResetThenReload | app/settings/page.tsx:289-292 | after reset and reload the page holds the defaults, and other storage keys are untouched |

## Left out

- Rendering, animation and toasts are presentation only and are not modelled.
- Browser facilities are modelled only as `Effect` values in a log, or as `Action` values. These are speech recognition and synthesis, `getUserMedia`, stopping tracks, `router.push`/`back`, `window.scrollBy` and canvas drawing. Whether `start()` throws is the parameter `startFails`.
- Timers are not modelled as time. A timeout firing is one `CameraReady` call and an interval firing is one `Tick` call. The caller chooses which pending request, timeout or interval to fire.
- `Math.random` becomes a supplied sequence of draws. `ChooseIndex` requires that some draw differs from `lastIndex`, which is what makes the retry loop end.
- GenerateHandLandmarks: does not compute the floating-point coordinates (random wrist, `Math.cos`/`Math.sin`, random jitter). It keeps each point's finger, joint, the point it is drawn from and the fixed part of its angle, in tenths of a radian.
- Tick: the canvas is assumed present, so a tick always redraws. The `canvasRef`/`getContext` null checks are not modelled.
- Text.ToLower: lower-cases ASCII letters only. The Unicode case mappings of `toLowerCase` are not modelled.
- The JSON encoding in storage is abstracted away: a stored value is the record itself. As a result, a stored empty string (which the load's truthiness test would skip) and malformed JSON (which would throw) cannot be expressed.
- Loaded values are not range-checked, and neither is the model. The slider bounds are widget configuration.
- FontSizeStyle: writes every integer as plain decimal digits. In JavaScript the percentage is a double, so from 10^21 in magnitude the template literal gives exponent notation ("1e+21%"), integers above 2^53 are not exact, and fractional values are not modelled. Since a loaded record is not range-checked, such values can reach `applySettings`.
- IntRoundTrip: holds for the model's rendering of every integer, which matches JavaScript's `${n}` only below 10^21 in magnitude.
- Text.IntToString: the plain decimal rendering of an unbounded integer; JavaScript's exponent notation from 10^21 and double rounding above 2^53 are not modelled.
- `console.error` logging (app/voice-mode/page.tsx:65 and 101, app/gesture-mode/page.tsx:58) is diagnostic output only and is not modelled.
- The reload after "Reset to Defaults" is modelled as a fresh page on the same storage and root element. The reload's reset of the document itself is not modelled.
- The settings page's individual widget setters (`setHighContrast`, the sliders and so on) are plain field assignments and are not modelled as methods.
- Unmount clean-up is not modelled. This covers the recognizer's `abort()` and the camera effect's clean-up on unmount.
