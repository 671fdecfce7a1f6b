/**
 * Gesture mode: the simulated detector. While the camera is on, an interval
 * timer picks one of four canned gestures, never the one it picked last, shows
 * its name and feedback, and draws a synthetic 21-point hand skeleton.
 */
module GestureMode {
  import opened Options

  datatype Gesture = Gesture(name: string, action: string)

  /** The `lastIndex` an interval starts with: no gesture shown yet. */
  const NoGesture: int := -1

  /** The four canned gestures, in table order. */
  const Gestures: seq<Gesture> := [
    Gesture("Open palm", "Scroll down command detected"),
    Gesture("Thumb up", "Confirmation gesture detected"),
    Gesture("Pointing", "Selection gesture detected"),
    Gesture("Wave", "Navigation gesture detected")
  ]

  /** Distinct indices of the table give distinct names and distinct
      feedback, so a name identifies its table entry. */
  lemma GestureEntriesDistinct(i: nat, j: nat)
    requires i < |Gestures| && j < |Gestures| && i != j
    ensures Gestures[i].name != Gestures[j].name
    ensures Gestures[i].action != Gestures[j].action
  {
    GestureKeys();
    var gi, gj := Gestures[i], Gestures[j];
    assert gi.name[0] != gj.name[0];
    assert gi.action[..2] != gj.action[..2];
  }

  /** The first letter of each name and the first two of each feedback text. */
  lemma GestureKeys()
    ensures |Gestures| == 4
    ensures Gestures[0].name[0] == 'O' && Gestures[1].name[0] == 'T'
    ensures Gestures[2].name[0] == 'P' && Gestures[3].name[0] == 'W'
    ensures Gestures[0].action[..2] == "Sc" && Gestures[1].action[..2] == "Co"
    ensures Gestures[2].action[..2] == "Se" && Gestures[3].action[..2] == "Na"
  {
  }

  // ---------------------------------------------------------------------
  // Choosing the next gesture
  // ---------------------------------------------------------------------

  /** The do-while loop of a tick: draw indices until one differs from
      `lastIndex`. `draws` is what `Math.floor(Math.random() * 4)` returns,
      draw by draw; some draw differs, so the loop ends. The index chosen is
      the first draw that differs, and `used` is its position. */
  method ChooseIndex(draws: seq<nat>, lastIndex: int) returns (index: nat, used: nat)
    requires forall j :: 0 <= j < |draws| ==> draws[j] < |Gestures|
    requires exists j :: 0 <= j < |draws| && draws[j] != lastIndex
    ensures index < |Gestures| && index != lastIndex
    ensures used < |draws| && index == draws[used]
    ensures forall j :: 0 <= j < used ==> draws[j] == lastIndex
  {
    used := 0;
    index := draws[0];
    while index == lastIndex
      invariant used < |draws| && index == draws[used]
      invariant forall j :: 0 <= j < used ==> draws[j] == lastIndex
      invariant exists j :: used <= j < |draws| && draws[j] != lastIndex
      decreases |draws| - used
    {
      used := used + 1;
      index := draws[used];
    }
  }

  /** An interval's first tick compares with -1, so every gesture can be
      chosen: whatever index is drawn first is taken. */
  method FirstDrawAccepted(i: nat) returns (index: nat)
    requires i < |Gestures|
    ensures index == i
  {
    assert [i][0] != NoGesture;
    var used;
    index, used := ChooseIndex([i], NoGesture);
  }

  // ---------------------------------------------------------------------
  // The synthetic hand skeleton
  // ---------------------------------------------------------------------

  const Fingers: nat := 5
  const JointsPerFinger: nat := 4
  const LandmarkCount: nat := 1 + Fingers * JointsPerFinger

  /** One landmark. The coordinates are random floats; the model keeps the
      structure: which point a joint is drawn from (`from`, an index into the
      landmark list) and the fixed part of its angle, in tenths of a radian
      (the random jitter of up to 0.1 is left out). */
  datatype Landmark =
    | Wrist
    | Joint(finger: nat, joint: nat, from: nat, angleTenths: int)

  /** Where `generateHandLandmarks` puts point `k`: the wrist first, then the
      four joints of each of the five fingers, each joint drawn from the
      previous joint of its finger, the first from the wrist. */
  function SkeletonPoint(k: nat): Landmark
    requires k < LandmarkCount
  {
    if k == 0 then Wrist
    else
      var finger, joint := (k - 1) / JointsPerFinger, (k - 1) % JointsPerFinger;
      Joint(finger, joint, if joint == 0 then 0 else k - 1, 2 * (finger - 2) + 2 * joint)
  }

  /** `generateHandLandmarks`: the nested loops push the wrist and then
      5 x 4 joints, exactly 21 points laid out as `SkeletonPoint` says. */
  /** The whole skeleton, point by point. */
  function Skeleton(): (r: seq<Landmark>)
    ensures |r| == LandmarkCount
  {
    seq(LandmarkCount, k requires 0 <= k < LandmarkCount => SkeletonPoint(k))
  }

  method GenerateHandLandmarks() returns (landmarks: seq<Landmark>)
    ensures |landmarks| == LandmarkCount
    ensures forall k :: 0 <= k < LandmarkCount ==> landmarks[k] == SkeletonPoint(k)
  {
    landmarks := [Wrist];
    for finger := 0 to Fingers
      invariant |landmarks| == 1 + finger * JointsPerFinger
      invariant forall k :: 0 <= k < |landmarks| ==> landmarks[k] == SkeletonPoint(k)
    {
      var baseTenths := 2 * (finger - 2);
      var prevPoint := 0;
      for joint := 0 to JointsPerFinger
        invariant |landmarks| == 1 + finger * JointsPerFinger + joint
        invariant prevPoint == if joint == 0 then 0 else |landmarks| - 1
        invariant forall k :: 0 <= k < |landmarks| ==> landmarks[k] == SkeletonPoint(k)
      {
        landmarks := landmarks + [Joint(finger, joint, prevPoint, baseTenths + 2 * joint)];
        prevPoint := |landmarks| - 1;
      }
    }
  }

  /** The fixed connection table: four segments per finger, then the palm. */
  const HandConnections: seq<(nat, nat)> := [
    (0, 1), (1, 2), (2, 3), (3, 4),
    (0, 5), (5, 6), (6, 7), (7, 8),
    (0, 9), (9, 10), (10, 11), (11, 12),
    (0, 13), (13, 14), (14, 15), (15, 16),
    (0, 17), (17, 18), (18, 19), (19, 20),
    (0, 5), (5, 9), (9, 13), (13, 17)
  ]

  /** Every endpoint in the connection table names one of the 21 landmarks,
      so the lookups at the draw site are in bounds. */
  lemma ConnectionsInBounds()
    ensures forall i :: 0 <= i < |HandConnections| ==>
      HandConnections[i].0 < LandmarkCount && HandConnections[i].1 < LandmarkCount
  {
  }

  /** The 20 finger segments of the table are exactly the generator's chain:
      each joins a joint to the point it was drawn from. The 4 palm segments
      join the wrist and the first joints of the fingers. */
  lemma ConnectionsFollowSkeleton()
    ensures forall i :: 0 <= i < Fingers * JointsPerFinger ==>
      HandConnections[i] == (SkeletonPoint(i + 1).from, i + 1)
    ensures forall i :: Fingers * JointsPerFinger <= i < |HandConnections| ==>
      var s, e := SkeletonPoint(HandConnections[i].0), SkeletonPoint(HandConnections[i].1);
      (s.Wrist? || s.joint == 0) && e.Joint? && e.joint == 0
  {
  }

  /** The segments the tick draws, one pair of landmarks per connection. */
  function Segments(landmarks: seq<Landmark>): (r: seq<(Landmark, Landmark)>)
    requires |landmarks| == LandmarkCount
    ensures |r| == |HandConnections|
  {
    ConnectionsInBounds();
    seq(|HandConnections|, i requires 0 <= i < |HandConnections| =>
      (landmarks[HandConnections[i].0], landmarks[HandConnections[i].1]))
  }

  // ---------------------------------------------------------------------
  // Page state
  // ---------------------------------------------------------------------

  /** A foreign call the page makes, recorded in the order it is made. */
  datatype Effect =
    | Speak(text: string)                           // speechSynthesis.speak
    | RequestCamera                                 // getUserMedia({ video: true })
    | StopTracks(stream: nat)                       // every track of that stream stopped
    | DrawHand(segments: seq<(Landmark, Landmark)>)  // the canvas redrawn

  const ActivatedSpeech := "Gesture recognition activated. " + "Try making some gestures."
  const DeactivatedSpeech := "Gesture recognition deactivated."

  /** A running interval timer: the `lastIndex` its callback keeps, and the
      voice-feedback switch as the render that started the camera saw it. */
  datatype Interval = Interval(lastIndex: int, tts: bool)

  /** The stop the clean-up records when the video element holds `attached`. */
  function StopAttached(attached: Option<nat>): seq<Effect>
  {
    if attached.Some? then [StopTracks(attached.value)] else []
  }

  /** The live streams once the one the video element holds, if any, is stopped. */
  function WithoutAttached(live: set<nat>, attached: Option<nat>): set<nat>
  {
    if attached.Some? then live - {attached.value} else live
  }

  /** What removing the `k`th element of `s` leaves. */
  function RemoveAt<T>(s: seq<T>, k: nat): (r: seq<T>)
    requires k < |s|
    ensures |r| == |s| - 1
    ensures forall j :: 0 <= j < k ==> r[j] == s[j]
    ensures forall j :: k <= j < |r| ==> r[j] == s[j + 1]
  {
    s[..k] + s[k + 1..]
  }

  /** The gesture page's state. A camera request, a start-up timeout and an
      interval each keep the voice-feedback switch of the render that turned
      the camera on, since their callbacks were created then. No interval is
      ever cleared: the callback's guard reads a `cameraActive` captured while
      it was `true`, and the clean-up function returned for it is dropped. */
  class GestureSession {
    var cameraActive: bool
    var loading: bool
    var gesture: string
    var feedback: string
    var ttsEnabled: bool
    /** The stream the video element holds (`srcObject`), if any. Streams are
        numbered in the order they are granted. */
    var attached: Option<nat>
    /** The granted streams whose tracks have not been stopped: the camera
        stays in use while this is not empty. */
    var live: set<nat>
    /** The number the next granted stream gets. */
    var nextStream: nat
    /** Camera requests not yet answered, and 2-second start-up timeouts not yet fired. */
    var pendingRequests: seq<bool>
    var pendingTimeouts: seq<bool>
    var intervals: seq<Interval>
    var effects: seq<Effect>
    /** `window.speechSynthesis` exists. */
    const hasSynthesis: bool

    /** What `speakFeedback(text)` adds to the log when the caller sees the
        switch as `tts`. */
    function Spoken(tts: bool, text: string): seq<Effect>
      reads this
    {
      if tts && hasSynthesis then [Speak(text)] else []
    }

    constructor (hasSynthesis: bool)
      ensures this.hasSynthesis == hasSynthesis
      ensures !cameraActive && !loading && gesture == "" && feedback == "" && ttsEnabled
      ensures attached == None && live == {} && nextStream == 0
      ensures pendingRequests == [] && pendingTimeouts == []
      ensures intervals == [] && effects == []
    {
      this.hasSynthesis := hasSynthesis;
      cameraActive, loading, gesture, feedback, ttsEnabled := false, false, "", "", true;
      attached, live, nextStream := None, {}, 0;
      pendingRequests, pendingTimeouts := [], [];
      intervals, effects := [], [];
    }

    /** `toggleCamera`. Turning off stops the stream's tracks, detaches it and
        clears the gesture and feedback. Turning on is followed by the camera
        effect: the clean-up of its previous run, then the loader shown and
        the camera requested. */
    method ToggleCamera()
      modifies this
      ensures cameraActive == !old(cameraActive)
      ensures ttsEnabled == old(ttsEnabled) && intervals == old(intervals) && pendingTimeouts == old(pendingTimeouts)
      ensures live == WithoutAttached(old(live), old(attached)) && nextStream == old(nextStream)
      ensures old(cameraActive) ==>
        && gesture == "" && feedback == "" && attached == None
        && loading == old(loading) && pendingRequests == old(pendingRequests)
        && effects == old(effects) + StopAttached(old(attached)) + Spoken(ttsEnabled, DeactivatedSpeech)
      ensures !old(cameraActive) ==>
        && gesture == old(gesture) && feedback == old(feedback) && attached == old(attached)
        && loading && pendingRequests == old(pendingRequests) + [ttsEnabled]
        && effects == old(effects) + StopAttached(old(attached)) + [RequestCamera]
    {
      if cameraActive {
        cameraActive := false;
        if attached.Some? {
          effects := effects + [StopTracks(attached.value)];
          live := live - {attached.value};
          attached := None;
        }
        gesture := "";
        feedback := "";
        effects := effects + Spoken(ttsEnabled, DeactivatedSpeech);
      } else {
        cameraActive := true;
        if attached.Some? {
          // The previous run of the camera effect is cleaned up first; it
          // stops the tracks of a stream that arrived after the camera was
          // turned off, but leaves it attached.
          effects := effects + [StopTracks(attached.value)];
          live := live - {attached.value};
        }
        loading := true;
        pendingRequests := pendingRequests + [ttsEnabled];
        effects := effects + [RequestCamera];
      }
    }

    /** Camera request `k` succeeds: a new stream is attached and the start-up
        timeout is scheduled. Attaching it does not stop the stream it
        replaces, which stays live. */
    method CameraGranted(k: nat)
      requires k < |pendingRequests|
      modifies this
      ensures attached == Some(old(nextStream)) && nextStream == old(nextStream) + 1
      ensures live == old(live) + {old(nextStream)}
      ensures pendingRequests == RemoveAt(old(pendingRequests), k)
      ensures pendingTimeouts == old(pendingTimeouts) + [old(pendingRequests[k])]
      ensures cameraActive == old(cameraActive) && loading == old(loading)
      ensures gesture == old(gesture) && feedback == old(feedback) && ttsEnabled == old(ttsEnabled)
      ensures intervals == old(intervals) && effects == old(effects)
    {
      var tts := pendingRequests[k];
      pendingRequests := RemoveAt(pendingRequests, k);
      attached := Some(nextStream);
      live := live + {nextStream};
      nextStream := nextStream + 1;
      pendingTimeouts := pendingTimeouts + [tts];
    }

    /** Camera request `k` is refused: the camera is marked off and the loader
        hidden. When that turns the camera off, the camera effect's clean-up runs. */
    method CameraDenied(k: nat)
      requires k < |pendingRequests|
      modifies this
      ensures !cameraActive && !loading
      ensures pendingRequests == RemoveAt(old(pendingRequests), k) && pendingTimeouts == old(pendingTimeouts)
      ensures attached == old(attached) && nextStream == old(nextStream)
      ensures live == (if old(cameraActive) then WithoutAttached(old(live), old(attached)) else old(live))
      ensures gesture == old(gesture) && feedback == old(feedback) && ttsEnabled == old(ttsEnabled)
      ensures intervals == old(intervals)
      ensures effects == old(effects) + (if old(cameraActive) then StopAttached(old(attached)) else [])
    {
      pendingRequests := RemoveAt(pendingRequests, k);
      if cameraActive && attached.Some? {
        // `cameraActive` changes, so the clean-up of the camera effect's
        // last run stops the tracks of a stream attached after an earlier
        // request, leaving it attached.
        effects := effects + [StopTracks(attached.value)];
        live := live - {attached.value};
      }
      cameraActive := false;
      loading := false;
    }

    /** Start-up timeout `k` fires: the loader is hidden, the activation is
        announced and `simulateGestureDetection` starts a new interval whose
        `lastIndex` is -1. */
    method CameraReady(k: nat)
      requires k < |pendingTimeouts|
      modifies this
      ensures !loading
      ensures intervals == old(intervals) + [Interval(NoGesture, old(pendingTimeouts[k]))]
      ensures pendingTimeouts == RemoveAt(old(pendingTimeouts), k) && pendingRequests == old(pendingRequests)
      ensures cameraActive == old(cameraActive)
      ensures attached == old(attached) && live == old(live) && nextStream == old(nextStream)
      ensures gesture == old(gesture) && feedback == old(feedback) && ttsEnabled == old(ttsEnabled)
      ensures effects == old(effects) + Spoken(old(pendingTimeouts[k]), ActivatedSpeech)
    {
      var tts := pendingTimeouts[k];
      pendingTimeouts := RemoveAt(pendingTimeouts, k);
      loading := false;
      effects := effects + Spoken(tts, ActivatedSpeech);
      intervals := intervals + [Interval(NoGesture, tts)];
    }

    /** One firing of interval `k`: choose a gesture other than the one this
        interval showed last, remember it, show its name and feedback, speak
        the feedback and redraw the skeleton. */
    method Tick(k: nat, draws: seq<nat>) returns (index: nat)
      requires k < |intervals|
      requires forall j :: 0 <= j < |draws| ==> draws[j] < |Gestures|
      requires exists j :: 0 <= j < |draws| && draws[j] != intervals[k].lastIndex
      modifies this
      ensures index < |Gestures| && index != old(intervals[k].lastIndex)
      ensures exists u ::
        0 <= u < |draws| && index == draws[u] && forall j :: 0 <= j < u ==> draws[j] == old(intervals[k].lastIndex)
      ensures intervals == old(intervals)[k := Interval(index, old(intervals[k].tts))]
      ensures gesture == Gestures[index].name && feedback == Gestures[index].action
      ensures cameraActive == old(cameraActive) && loading == old(loading)
      ensures attached == old(attached) && live == old(live) && nextStream == old(nextStream)
      ensures pendingRequests == old(pendingRequests) && pendingTimeouts == old(pendingTimeouts)
      ensures ttsEnabled == old(ttsEnabled)
      ensures |effects| == |old(effects)| + |Spoken(intervals[k].tts, feedback)| + 1
      ensures effects[..|old(effects)|] == old(effects)
      ensures effects[|old(effects)|..|effects| - 1] == Spoken(intervals[k].tts, feedback)
      ensures effects[|effects| - 1] == DrawHand(Segments(Skeleton()))
    {
      var used;
      index, used := ChooseIndex(draws, intervals[k].lastIndex);
      var tts := intervals[k].tts;
      intervals := intervals[k := Interval(index, tts)];
      var detected := Gestures[index];
      gesture := detected.name;
      feedback := detected.action;
      effects := effects + Spoken(tts, detected.action);
      var landmarks := GenerateHandLandmarks();
      assert landmarks == Skeleton();
      effects := effects + [DrawHand(Segments(landmarks))];
    }

    /** `toggleTts`: flips the voice-feedback switch and nothing else; timers
        already running keep the value they captured. */
    method ToggleTts()
      modifies this
      ensures ttsEnabled == !old(ttsEnabled)
      ensures cameraActive == old(cameraActive) && loading == old(loading)
      ensures attached == old(attached) && live == old(live) && nextStream == old(nextStream)
      ensures gesture == old(gesture) && feedback == old(feedback)
      ensures pendingRequests == old(pendingRequests) && pendingTimeouts == old(pendingTimeouts)
      ensures intervals == old(intervals) && effects == old(effects)
    {
      ttsEnabled := !ttsEnabled;
    }
  }

  /** Two successive ticks of one interval never show the same gesture name. */
  method TwoTicks(s: GestureSession, k: nat, first: seq<nat>, second: seq<nat>)
    returns (firstShown: string, secondShown: string)
    requires k < |s.intervals|
    requires forall j :: 0 <= j < |first| ==> first[j] < |Gestures|
    requires forall j :: 0 <= j < |second| ==> second[j] < |Gestures|
    requires exists j :: 0 <= j < |first| && first[j] != s.intervals[k].lastIndex
    requires exists i, j :: 0 <= i < |second| && 0 <= j < |second| && second[i] != second[j]
    modifies s
    ensures secondShown == s.gesture
    ensures firstShown != secondShown
  {
    var a := s.Tick(k, first);
    firstShown := s.gesture;
    var b := s.Tick(k, second);
    secondShown := s.gesture;
    GestureEntriesDistinct(a, b);
  }

  /** A stream replaced by a later one is never stopped. With two requests
      outstanding (the camera turned on, off and on again), both are granted;
      the second stream replaces the first, and turning the camera off stops
      only the second. The first stream's tracks keep running with the
      camera off. */
  method ReplacedStreamKeepsRunning(hasSynthesis: bool) returns (s: GestureSession)
    ensures !s.cameraActive && s.attached == None
    ensures s.live == {0}
    ensures StopTracks(0) !in s.effects && StopTracks(1) in s.effects
  {
    s := new GestureSession(hasSynthesis);
    s.ToggleCamera();
    s.ToggleCamera();
    s.ToggleCamera();
    assert s.attached == None && s.live == {} && s.nextStream == 0 && |s.pendingRequests| == 2;
    ghost var requested := s.effects;
    assert forall e | e in requested :: !e.StopTracks?;
    s.CameraGranted(0);
    s.CameraGranted(0);
    assert s.attached == Some(1) && s.live == {0, 1} && s.effects == requested;
    s.ToggleCamera();
    assert s.effects == requested + [StopTracks(1)] + s.Spoken(s.ttsEnabled, DeactivatedSpeech);
  }

  /** The camera does not stop the ticks: after it is turned off, a tick of an
      interval started earlier shows a gesture again. */
  method TickAfterCameraOff(s: GestureSession, draws: seq<nat>)
    requires s.cameraActive && 0 < |s.intervals|
    requires forall j :: 0 <= j < |draws| ==> draws[j] < |Gestures|
    requires exists j :: 0 <= j < |draws| && draws[j] != s.intervals[0].lastIndex
    modifies s
    ensures !s.cameraActive && s.gesture != ""
  {
    s.ToggleCamera();
    assert s.gesture == "" && s.feedback == "";
    var i := s.Tick(0, draws);
    assert Gestures[i].name != "";
  }
}
