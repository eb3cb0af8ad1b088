/** The processing loop of `src/utils/poseDetectionLoader.ts`. The module's
    globals `tracker`, `isRunning`, `animationFrameId` and `currentKnee`
    become the fields of one object; `pending` is the host's queue of
    animation-frame callbacks (the abstract scheduler): `requestAnimationFrame`
    adds a handle, `cancelAnimationFrame` removes it, and a callback that
    fires leaves it. Every call is one atomic step. */
module PoseDetectionLoading {
  import opened JsValues
  import opened Constants
  import opened KneeAngleTracking

  /** What the pose detector reports for a frame, or that it threw. */
  datatype Detection = Poses(poses: seq<Pose>) | DetectorFailed

  /** A video element: its `readyState` and what the detector sees in it. */
  datatype VideoFrame = VideoFrame(readyState: nat, detection: Detection)

  /** `HTMLMediaElement.HAVE_CURRENT_DATA`. */
  const HaveCurrentData: nat := 2

  datatype FrameError = TrackerNotInitialized | PoseDetectionError

  /** The outcome of `processFrame`: null, a result, or a thrown error. */
  datatype FrameOutcome = NoResult | Metrics(dual: DualKneeMetrics) | Failed(error: FrameError)

  class PoseDetectionLoader {
    var tracker: KneeAngleTracker?
    var isRunning: bool
    var animationFrameId: Option<nat>
    var currentKnee: KneeSide
    var pending: set<nat>

    ghost function TrackerRepr(): set<object>
      reads this
    {
      if tracker == null then {} else tracker.Repr()
    }

    ghost predicate TrackerValid()
      reads this, TrackerRepr()
    {
      tracker != null ==> tracker.Valid() && this !in tracker.Repr()
    }

    /** At most one callback is ever pending, and only while running. */
    ghost predicate Valid()
      reads this, TrackerRepr()
    {
      TrackerValid() &&
      (isRunning ==> animationFrameId.Some? && pending == {animationFrameId.value}) &&
      (!isRunning ==> animationFrameId.None? && pending == {})
    }

    /** The module's initial state. */
    constructor ()
      ensures Valid()
      ensures tracker == null && !isRunning && animationFrameId == None && currentKnee == NoSide
      ensures pending == {}
    {
      tracker := null;
      isRunning := false;
      animationFrameId := None;
      currentKnee := NoSide;
      pending := {};
    }

    /** `initPoseDetection`: creates the tracker only the first time; later
        calls return the same tracker and ignore their thresholds. */
    method InitPoseDetection(minimumConfidence: real, minimumDistanceRatio: real) returns (t: KneeAngleTracker)
      requires Valid()
      modifies this
      ensures Valid() && tracker == t
      ensures old(tracker) != null ==> t == old(tracker)
      ensures old(tracker) == null ==>
                fresh(t.Repr()) && t.minimumConfidence == minimumConfidence &&
                t.minimumDistanceRatio == minimumDistanceRatio &&
                t.leftAverager.History == [] && t.rightAverager.History == []
      ensures isRunning == old(isRunning) && animationFrameId == old(animationFrameId)
      ensures pending == old(pending) && currentKnee == old(currentKnee)
    {
      if tracker == null {
        tracker := new KneeAngleTracker(minimumConfidence, minimumDistanceRatio);
      }
      t := tracker;
    }

    /** `processFrame`: not ready, then no tracker, then the detector, then
        the first pose. Only a delivered result touches the averagers. */
    method ProcessFrame(video: Option<VideoFrame>, math: MathLib) returns (r: FrameOutcome)
      requires TrackerValid()
      modifies TrackerRepr()
      ensures TrackerValid()
      ensures video.None? || video.value.readyState < HaveCurrentData ==> r == NoResult
      ensures video.Some? && video.value.readyState >= HaveCurrentData && tracker == null ==>
                r == Failed(TrackerNotInitialized)
      ensures video.Some? && video.value.readyState >= HaveCurrentData && tracker != null ==>
                match video.value.detection
                case DetectorFailed => r == Failed(PoseDetectionError)
                case Poses(poses) => if poses == [] then r == NoResult else r.Metrics?
      ensures !r.Metrics? && tracker != null ==> unchanged(tracker.Repr())
      ensures r.Metrics? ==>
                tracker != null && video.Some? && video.value.detection.Poses? &&
                video.value.detection.poses != [] &&
                var pose := video.value.detection.poses[0];
                KneeStep(pose, Left, tracker.minimumConfidence, tracker.minimumDistanceRatio, math,
                         old(tracker.leftAverager.History)) == SideUpdate(r.dual.left, tracker.leftAverager.History) &&
                KneeStep(pose, Right, tracker.minimumConfidence, tracker.minimumDistanceRatio, math,
                         old(tracker.rightAverager.History)) == SideUpdate(r.dual.right, tracker.rightAverager.History)
    {
      if video.None? || video.value.readyState < HaveCurrentData {
        return NoResult;
      }
      if tracker == null {
        return Failed(TrackerNotInitialized);
      }
      match video.value.detection {
        case DetectorFailed =>
          r := Failed(PoseDetectionError);
        case Poses(poses) =>
          if |poses| > 0 {
            var dual := tracker.CalculateDualMetrics(poses[0], math);
            r := Metrics(dual);
          } else {
            r := NoResult;
          }
      }
    }

    /** `stopProcessing`: clears the flag and cancels the pending callback. */
    method StopProcessing()
      requires Valid()
      modifies this
      ensures Valid()
      ensures !isRunning && animationFrameId == None && pending == {}
      ensures tracker == old(tracker) && currentKnee == old(currentKnee)
    {
      isRunning := false;
      if animationFrameId.Some? {
        pending := pending - {animationFrameId.value};
        animationFrameId := None;
      }
    }

    /** `startProcessing`: stops any loop first, then schedules exactly one
        frame; `handle` is the id `requestAnimationFrame` hands out. */
    method StartProcessing(handle: nat)
      requires Valid()
      modifies this
      ensures Valid()
      ensures isRunning && animationFrameId == Some(handle) && pending == {handle}
      ensures tracker == old(tracker) && currentKnee == old(currentKnee)
    {
      StopProcessing();
      isRunning := true;
      animationFrameId := Some(handle);
      pending := pending + {handle};
    }

    /** One run of `processFrameLoop`, fired by the host for the pending
        callback. Not running: nothing happens. Running: the frame is
        processed (an error is caught), the result, if any, is what
        `onResult` receives, and the loop reschedules with `nextHandle`. */
    method Tick(video: Option<VideoFrame>, math: MathLib, nextHandle: nat) returns (delivered: Option<DualKneeMetrics>)
      requires Valid()
      modifies this, TrackerRepr()
      ensures Valid()
      ensures tracker == old(tracker) && currentKnee == old(currentKnee)
      ensures !old(isRunning) ==>
                delivered.None? && !isRunning && animationFrameId == None && pending == {} &&
                (tracker != null ==> unchanged(tracker.Repr()))
      ensures old(isRunning) ==> isRunning && animationFrameId == Some(nextHandle) && pending == {nextHandle}
      ensures delivered.Some? ==>
                old(isRunning) && tracker != null && video.Some? &&
                video.value.readyState >= HaveCurrentData && video.value.detection.Poses? &&
                video.value.detection.poses != [] &&
                var pose := video.value.detection.poses[0];
                KneeStep(pose, Left, tracker.minimumConfidence, tracker.minimumDistanceRatio, math,
                         old(tracker.leftAverager.History)) == SideUpdate(delivered.value.left, tracker.leftAverager.History) &&
                KneeStep(pose, Right, tracker.minimumConfidence, tracker.minimumDistanceRatio, math,
                         old(tracker.rightAverager.History)) == SideUpdate(delivered.value.right, tracker.rightAverager.History)
      ensures (old(isRunning) && tracker != null && video.Some? && video.value.readyState >= HaveCurrentData &&
               video.value.detection.Poses? && video.value.detection.poses != []) ==> delivered.Some?
      ensures delivered.None? && tracker != null ==> unchanged(tracker.Repr())
    {
      delivered := None;
      if !isRunning {
        return;
      }
      // the callback that fired is no longer pending
      pending := pending - {animationFrameId.value};
      if video.Some? {
        var outcome := ProcessFrame(video, math);
        if outcome.Metrics? {
          delivered := Some(outcome.dual);
        }
      }
      if isRunning {
        animationFrameId := Some(nextHandle);
        pending := pending + {nextHandle};
      }
    }

    /** `updateKneeSide`. */
    method UpdateKneeSide(kneeSide: KneeSide)
      requires Valid()
      modifies this
      ensures Valid() && currentKnee == kneeSide
      ensures tracker == old(tracker) && isRunning == old(isRunning)
      ensures animationFrameId == old(animationFrameId) && pending == old(pending)
    {
      currentKnee := kneeSide;
    }

    /** `disposeTracker`: stops the loop and drops the tracker. */
    method DisposeTracker()
      requires Valid()
      modifies this
      ensures Valid()
      ensures !isRunning && animationFrameId == None && pending == {} && tracker == null
      ensures currentKnee == old(currentKnee)
    {
      StopProcessing();
      tracker := null;
    }
  }
}
