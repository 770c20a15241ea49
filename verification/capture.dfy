/** The capture controller (`CameraManager`) as an event-driven state
    machine. Camera set-up outcomes, the recorder's Start and Finalize
    events and the firing of the 1000 ms stop timer are explicit events;
    the callbacks the controller invokes and the commands it gives the
    recorder are its effects. Clock readings arrive as event arguments. */
module Capture {
  import opened Wrappers
  import opened Decimal
  import opened Models

  /** The error reported when no capture use case has been created. */
  const NotInitialized := "カメラが初期化されていません"

  /** The prefix of the error reported when a recording finalizes with an
      error code. */
  const RecordingErrorPrefix := "録画エラー: "

  /** The delay, in milliseconds, between a recording's Start event and the
      stop request. */
  const StopDelayMillis := 1000

  /** `VideoRecordEvent.Finalize.ERROR_NONE`. */
  const ErrorNone := 0

  /** One recording started by `recordOneSecond`, known by the file name its
      listener captured. */
  datatype Recording = Recording(filename: string)

  /** The controller's fields: whether `videoCapture` has been assigned,
      `isSetupComplete`, `activeRecording`, and the number of stop timers
      posted but not yet fired. */
  datatype Camera = Camera(
    videoCapture: bool,
    isSetupComplete: bool,
    activeRecording: Option<Recording>,
    armedStops: nat)

  const Initial := Camera(false, false, None, 0)

  /** Where the set-up listener ends: an exception before the capture use
      case is assigned (provider, preview or recorder), an exception while
      binding to the lifecycle (after the assignment), or success. */
  datatype SetupResult = ProviderFailed | BindFailed | Bound

  /** What the controller does towards the outside. */
  datatype Effect =
    | SetupCompleted              // the `onComplete` of `setupCamera`
    | Error(message: string)      // `onError` of `recordOneSecond`
    | Completed(segment: VideoSegment)  // `onComplete` of `recordOneSecond`
    | StartDevice(recording: Recording)
    | StopDevice(recording: Recording)
    | StopArmed(delayMillis: nat)

  /** The file a recording started at clock reading `ts` writes:
      "segment_", the reading in decimal, then ".mp4". */
  function SegmentFilename(ts: nat): (r: string)
    ensures |r| > 12 && r[..8] == "segment_" && r[|r| - 4..] == ".mp4"
    ensures r[8..|r| - 4] == NatToString(ts)
  {
    "segment_" + NatToString(ts) + ".mp4"
  }

  /** Recordings started at different clock readings write different files. */
  lemma SegmentFilenameInjective(a: nat, b: nat)
    ensures SegmentFilename(a) == SegmentFilename(b) ==> a == b
  {
    if SegmentFilename(a) == SegmentFilename(b) {
      NatToStringInjective(a, b);
    }
  }

  /** `setupCamera`'s listener. Only a successful bind marks set-up complete
      and calls back; a failed bind still leaves the capture use case set. */
  function SetupCamera(c: Camera, result: SetupResult): (r: (Camera, seq<Effect>))
    ensures r.0.isSetupComplete <==> c.isSetupComplete || result == Bound
    ensures r.0.videoCapture <==> c.videoCapture || result != ProviderFailed
    ensures r.0.activeRecording == c.activeRecording && r.0.armedStops == c.armedStops
    ensures r.1 == if result == Bound then [SetupCompleted] else []
  {
    match result
    case ProviderFailed => (c, [])
    case BindFailed => (c.(videoCapture := true), [])
    case Bound => (c.(videoCapture := true, isSetupComplete := true), [SetupCompleted])
  }

  /** `recordOneSecond`: without a capture use case, report the error and
      change nothing; otherwise start recording into `segment_<ts>.mp4`,
      replacing whatever recording was active. */
  function RecordOneSecond(c: Camera, ts: nat): (r: (Camera, seq<Effect>))
    ensures !c.videoCapture ==> r == (c, [Error(NotInitialized)])
    ensures c.videoCapture ==>
              && r.0.activeRecording == Some(Recording(SegmentFilename(ts)))
              && r.0.videoCapture == c.videoCapture && r.0.isSetupComplete == c.isSetupComplete
              && r.0.armedStops == c.armedStops
              && r.1 == [StartDevice(Recording(SegmentFilename(ts)))]
  {
    if !c.videoCapture then (c, [Error(NotInitialized)])
    else
      var rec := Recording(SegmentFilename(ts));
      (c.(activeRecording := Some(rec)), [StartDevice(rec)])
  }

  /** A recording's Start event: post exactly one stop, 1000 ms later. */
  function OnStart(c: Camera): (r: (Camera, seq<Effect>))
    ensures r.0.armedStops == c.armedStops + 1
    ensures r.0.activeRecording == c.activeRecording
    ensures r.0.videoCapture == c.videoCapture && r.0.isSetupComplete == c.isSetupComplete
    ensures r.1 == [StopArmed(StopDelayMillis)]
  {
    (c.(armedStops := c.armedStops + 1), [StopArmed(StopDelayMillis)])
  }

  /** `stopRecording`: stop the active recording if there is one, and clear it. */
  function StopRecording(c: Camera): (r: (Camera, seq<Effect>))
    ensures r.0.activeRecording.None?
    ensures r.0.videoCapture == c.videoCapture && r.0.isSetupComplete == c.isSetupComplete
    ensures r.0.armedStops == c.armedStops
    ensures c.activeRecording.None? ==> r.1 == []
    ensures c.activeRecording.Some? ==> r.1 == [StopDevice(c.activeRecording.value)]
  {
    match c.activeRecording
    case None => (c, [])
    case Some(rec) => (c.(activeRecording := None), [StopDevice(rec)])
  }

  /** A posted stop fires and runs `stopRecording`. With no stop posted there
      is no timer to fire, and nothing happens. */
  function TimerFired(c: Camera): (r: (Camera, seq<Effect>))
    ensures c.armedStops == 0 ==> r == (c, [])
    ensures c.armedStops > 0 ==> r.0.armedStops == c.armedStops - 1 && r.0.activeRecording.None?
    ensures c.armedStops > 0 ==> r.0.videoCapture == c.videoCapture && r.0.isSetupComplete == c.isSetupComplete
    ensures c.armedStops > 0 && c.activeRecording.None? ==> r.1 == []
    ensures c.armedStops > 0 && c.activeRecording.Some? ==> r.1 == [StopDevice(c.activeRecording.value)]
  {
    if c.armedStops == 0 then (c, [])
    else StopRecording(c.(armedStops := c.armedStops - 1))
  }

  /** What a Finalize event delivers. `project` is the project's value when
      the event arrives (the listener reads its clip count then); `id` and
      `timestamp` are the clock readings `VideoSegment.create` takes by
      default. A non-zero error code is a failure with that code in the
      message; otherwise a back-camera clip for the recording's file, placed
      right after the project's current clips. */
  function FinalizeOutcome(rec: Recording, project: Project, errorCode: nat, id: int, timestamp: int)
    : (r: Result<VideoSegment, string>)
    ensures r.Failure? <==> errorCode != ErrorNone
    ensures r.Failure? ==> r.error == RecordingErrorPrefix + NatToString(errorCode)
    ensures r.Success? ==>
              && r.value.uri == rec.filename
              && r.value.facing == Back
              && r.value.order == SegmentCount(project) + 1
              && r.value.id == id && r.value.timestamp == timestamp
  {
    if errorCode != ErrorNone then Failure(RecordingErrorPrefix + NatToString(errorCode))
    else Success(CreateSegment(rec.filename, Back, SegmentCount(project) + 1, id, timestamp))
  }

  /** A recording's Finalize event: report the error or the new clip, never
      both, then clear `activeRecording`. */
  function OnFinalize(c: Camera, rec: Recording, project: Project, errorCode: nat, id: int, timestamp: int)
    : (r: (Camera, seq<Effect>))
    ensures r.0 == c.(activeRecording := None)
    ensures |r.1| == 1
    ensures errorCode != ErrorNone ==> r.1[0].Error? && forall e :: e in r.1 ==> !e.Completed?
    ensures errorCode == ErrorNone ==> r.1[0].Completed? && r.1[0].segment.order == SegmentCount(project) + 1
  {
    var effect :=
      match FinalizeOutcome(rec, project, errorCode, id, timestamp)
      case Failure(message) => Error(message)
      case Success(segment) => Completed(segment);
    (c.(activeRecording := None), [effect])
  }

  /** Everything that can happen to the controller. */
  datatype Event =
    | Setup(result: SetupResult)
    | Record(ts: nat)
    | Start
    | Timer
    | Finalize(recording: Recording, project: Project, errorCode: nat, id: int, timestamp: int)

  /** One event, dispatched as the listeners do. The capture use case and
      the set-up flag are never withdrawn, an event has at most one effect,
      and a clip is delivered only by a Finalize without error. */
  function Step(c: Camera, e: Event): (r: (Camera, seq<Effect>))
    ensures c.videoCapture ==> r.0.videoCapture
    ensures c.isSetupComplete ==> r.0.isSetupComplete
    ensures |r.1| <= 1
    ensures forall k :: 0 <= k < |r.1| && r.1[k].Completed? ==> e.Finalize? && e.errorCode == ErrorNone
  {
    match e
    case Setup(result) => SetupCamera(c, result)
    case Record(ts) => RecordOneSecond(c, ts)
    case Start => OnStart(c)
    case Timer => TimerFired(c)
    case Finalize(rec, project, code, id, timestamp) => OnFinalize(c, rec, project, code, id, timestamp)
  }

  /** The state after a sequence of events, and every effect in order. Over
      any run the capture use case and the set-up flag stay once set, and
      there are never more effects than events. */
  function Run(c: Camera, events: seq<Event>): (r: (Camera, seq<Effect>))
    ensures c.videoCapture ==> r.0.videoCapture
    ensures c.isSetupComplete ==> r.0.isSetupComplete
    ensures |r.1| <= |events|
    decreases |events|
  {
    if |events| == 0 then (c, [])
    else
      var (c1, effects1) := Step(c, events[0]);
      var (c2, effects2) := Run(c1, events[1..]);
      (c2, effects1 + effects2)
  }

  /** A camera that can record and has nothing in flight. */
  predicate Ready(c: Camera) {
    c.videoCapture && c.activeRecording.None? && c.armedStops == 0
  }

  /** Running one event is taking one step. */
  lemma RunSingle(c: Camera, e: Event)
    ensures Run(c, [e]) == Step(c, e)
  {
    assert [e][1..] == [];
    var (c1, effects1) := Step(c, e);
    assert Run(c1, []) == (c1, []);
    assert effects1 + [] == effects1;
  }

  /** Running a non-empty sequence is a step followed by the rest. */
  lemma RunCons(c: Camera, e: Event, rest: seq<Event>)
    ensures Run(c, [e] + rest) == (Run(Step(c, e).0, rest).0, Step(c, e).1 + Run(Step(c, e).0, rest).1)
  {
    assert ([e] + rest)[1..] == rest;
  }

  /** The four events of one recording, as its listener and timer deliver them. */
  function Cycle(ts: nat, project: Project, errorCode: nat, id: int, timestamp: int): seq<Event> {
    [Record(ts), Start, Timer, Finalize(Recording(SegmentFilename(ts)), project, errorCode, id, timestamp)]
  }

  /** One recording on a ready camera: the recorder is started and stopped on
      the same file, exactly one stop is posted, the outcome is delivered
      last, and the controller is back where it began. */
  lemma CycleEffects(c: Camera, ts: nat, project: Project, errorCode: nat, id: int, timestamp: int)
    requires Ready(c)
    ensures var rec := Recording(SegmentFilename(ts));
            var (c', effects) := Run(c, Cycle(ts, project, errorCode, id, timestamp));
            && c' == c
            && effects == [StartDevice(rec), StopArmed(StopDelayMillis), StopDevice(rec)]
                          + OnFinalize(c, rec, project, errorCode, id, timestamp).1
  {
    var rec := Recording(SegmentFilename(ts));
    var fin := Finalize(rec, project, errorCode, id, timestamp);
    var c1 := c.(activeRecording := Some(rec));
    var c2 := c1.(armedStops := 1);
    var (c4, last) := OnFinalize(c, rec, project, errorCode, id, timestamp);
    RunSingle(c, fin);
    RunCons(c, Timer, [fin]);
    assert Step(c2, Timer) == (c, [StopDevice(rec)]);
    RunCons(c2, Timer, [fin]);
    RunCons(c1, Start, [Timer, fin]);
    assert [Start] + [Timer, fin] == [Start, Timer, fin];
    assert [Timer] + [fin] == [Timer, fin];
    RunCons(c, Record(ts), [Start, Timer, fin]);
    assert [Record(ts)] + [Start, Timer, fin] == Cycle(ts, project, errorCode, id, timestamp);
  }

  /** One successful second hands the success callback a back-camera clip
      for the recorded file, placed after the project's clips. */
  lemma SuccessfulCycle(c: Camera, ts: nat, project: Project, id: int, timestamp: int)
    requires Ready(c)
    ensures var (c', effects) := Run(c, Cycle(ts, project, ErrorNone, id, timestamp));
            && c' == c
            && effects == [StartDevice(Recording(SegmentFilename(ts))), StopArmed(StopDelayMillis),
                           StopDevice(Recording(SegmentFilename(ts))),
                           Completed(VideoSegment(id, SegmentFilename(ts), timestamp, Back, SegmentCount(project) + 1))]
  {
    CycleEffects(c, ts, project, ErrorNone, id, timestamp);
  }

  /** One failed second: the error callback runs with the code in its
      message, the success callback never runs, and the camera is ready to
      record again. */
  lemma FailedCycle(c: Camera, ts: nat, project: Project, errorCode: nat, id: int, timestamp: int)
    requires Ready(c)
    requires errorCode != ErrorNone
    ensures var (c', effects) := Run(c, Cycle(ts, project, errorCode, id, timestamp));
            && c' == c
            && effects[|effects| - 1] == Error(RecordingErrorPrefix + NatToString(errorCode))
            && forall e :: e in effects ==> !e.Completed?
  {
    CycleEffects(c, ts, project, errorCode, id, timestamp);
  }

  /** The guard looks at the capture use case, not at `isSetupComplete`: after
      a bind that threw, set-up is incomplete and yet recording starts. */
  lemma FailedBindPassesGuard(ts: nat)
    ensures var (c, effects) := Run(Initial, [Setup(BindFailed), Record(ts)]);
            && !c.isSetupComplete
            && c.activeRecording == Some(Recording(SegmentFilename(ts)))
            && effects == [StartDevice(Recording(SegmentFilename(ts)))]
  {
    var c1 := Initial.(videoCapture := true);
    RunSingle(c1, Record(ts));
    RunCons(Initial, Setup(BindFailed), [Record(ts)]);
    assert [Setup(BindFailed)] + [Record(ts)] == [Setup(BindFailed), Record(ts)];
  }

  /** Number of elements of `s` satisfying `p`. */
  function CountWhere<T>(s: seq<T>, p: T -> bool): nat
    decreases |s|
  {
    if |s| == 0 then 0
    else (if p(s[0]) then 1 else 0) + CountWhere(s[1..], p)
  }

  lemma {:induction false} CountWhereAppend<T>(a: seq<T>, b: seq<T>, p: T -> bool)
    ensures CountWhere(a + b, p) == CountWhere(a, p) + CountWhere(b, p)
    decreases |a|
  {
    if |a| == 0 {
      assert a + b == b;
    } else {
      assert (a + b)[1..] == a[1..] + b;
      CountWhereAppend(a[1..], b, p);
    }
  }

  predicate IsStart(e: Event) { e.Start? }
  predicate IsStopArmed(e: Effect) { e.StopArmed? }
  predicate IsStopDevice(e: Effect) { e.StopDevice? }

  /** Over any run, every Start event posts exactly one stop, and the
      recorder is told to stop at most once per posted stop: the stops
      issued plus the stops still pending never exceed the stops posted. */
  lemma {:induction false} StopsFollowStarts(c: Camera, events: seq<Event>)
    ensures var (c', effects) := Run(c, events);
            && CountWhere(effects, IsStopArmed) == CountWhere(events, IsStart)
            && CountWhere(effects, IsStopDevice) + c'.armedStops <= c.armedStops + CountWhere(events, IsStart)
    decreases |events|
  {
    if |events| > 0 {
      var (c1, effects1) := Step(c, events[0]);
      var (c2, effects2) := Run(c1, events[1..]);
      StopsFollowStarts(c1, events[1..]);
      CountWhereAppend(effects1, effects2, IsStopArmed);
      CountWhereAppend(effects1, effects2, IsStopDevice);
      assert CountWhere(effects1, IsStopArmed) == (if IsStart(events[0]) then 1 else 0);
      assert CountWhere(effects1, IsStopDevice) + c1.armedStops <= c.armedStops + (if IsStart(events[0]) then 1 else 0);
    }
  }
}
