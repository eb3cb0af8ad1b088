/** The result handling of `src/hooks/usePoseDetection.ts`: automatic side
    selection, side-change notification and the publish throttle. The three
    refs and the published state form a record; one call of the result
    callback is one step over it, with the clock reading as an input. */
module PoseDetectionHook {
  import opened JsValues
  import opened Constants
  import opened KneeAngleTracking

  /** `confidence || 0`. */
  function ConfidenceOrZero(m: KneeMetrics): real {
    if m.confidence.Some? then m.confidence.value else 0.0
  }

  /** `selectBestKnee`: left only when strictly more confident. */
  function SelectBestKnee(left: KneeMetrics, right: KneeMetrics): (side: KneeSide)
    ensures side != NoSide
    ensures side == Left <==> ConfidenceOrZero(left) > ConfidenceOrZero(right)
    ensures side == Right <==> ConfidenceOrZero(left) <= ConfidenceOrZero(right)
  {
    if ConfidenceOrZero(left) > ConfidenceOrZero(right) then Left else Right
  }

  /** Equal confidence goes to the right knee. */
  lemma TieGoesRight(left: KneeMetrics, right: KneeMetrics)
    requires ConfidenceOrZero(left) == ConfidenceOrZero(right)
    ensures SelectBestKnee(left, right) == Right
  {
  }

  /** `newResult[side]`; there is no entry for `'none'` (undefined). */
  function ResultFor(result: DualKneeMetrics, side: KneeSide): Option<KneeMetrics> {
    match side
    case Left => Some(result.left)
    case Right => Some(result.right)
    case NoSide => None
  }

  /** The refs `currentKneeRef`, `lastAutoKneeRef`, `latestResultRef`,
      `lastUpdateTimeRef` and the state `result`; None stands for the
      `undefined` read for side `'none'`. */
  datatype HookState = HookState(currentKnee: KneeSide, lastAutoKnee: KneeSide,
                                 latestResult: Option<KneeMetrics>, lastUpdateTime: int,
                                 result: Option<KneeMetrics>)

  /** The state when the hook is first rendered with `currentKnee`. */
  function InitialHookState(currentKnee: KneeSide): (s: HookState)
    ensures s.result == Some(DefaultKneeMetrics) && s.latestResult == Some(DefaultKneeMetrics)
    ensures s.lastAutoKnee == currentKnee && s.currentKnee == currentKnee
    ensures s.lastUpdateTime == 0
  {
    HookState(currentKnee, currentKnee, Some(DefaultKneeMetrics), 0, Some(DefaultKneeMetrics))
  }

  /** The effect that copies a new `currentKnee` prop into its ref. */
  function SyncCurrentKnee(s: HookState, currentKnee: KneeSide): (s': HookState)
    ensures s'.currentKnee == currentKnee
    ensures s'.lastAutoKnee == s.lastAutoKnee && s'.latestResult == s.latestResult
    ensures s'.lastUpdateTime == s.lastUpdateTime && s'.result == s.result
  {
    s.(currentKnee := currentKnee)
  }

  /** `now - lastUpdateTime > FRAME_UPDATE_INTERVAL`, in milliseconds. */
  predicate Due(lastUpdateTime: int, now: int) {
    (now - lastUpdateTime) as real > FrameUpdateInterval
  }

  /** For whole milliseconds the throttle is `60 * elapsed > 1000`, that is,
      at least 17 ms must have passed. */
  lemma DueInWholeMilliseconds(lastUpdateTime: int, now: int)
    ensures Due(lastUpdateTime, now) <==> 60 * (now - lastUpdateTime) > 1000
    ensures Due(lastUpdateTime, now) <==> now - lastUpdateTime >= 17
  {
  }

  /** What one call of the result callback does: the new refs and state,
      the side passed to `handleKneeChange` (if it is called) and whether
      `setResult` was called. */
  datatype Step = Step(state: HookState, kneeChange: Option<KneeSide>, published: bool)

  function OnResult(s: HookState, newResult: DualKneeMetrics, isAutoKneeEnabled: bool, now: int): (o: Step)
    // handleKneeChange exactly when the automatic choice changes
    ensures o.kneeChange.Some? <==>
              isAutoKneeEnabled && SelectBestKnee(newResult.left, newResult.right) != s.lastAutoKnee
    ensures o.kneeChange.Some? ==> o.kneeChange.value == o.state.lastAutoKnee
    ensures o.state.lastAutoKnee ==
              if isAutoKneeEnabled then SelectBestKnee(newResult.left, newResult.right) else s.lastAutoKnee
    // the latest result always follows the selected side
    ensures o.state.latestResult ==
              ResultFor(newResult, if isAutoKneeEnabled then o.state.lastAutoKnee else s.currentKnee)
    // publishing is throttled by elapsed time
    ensures o.published <==> Due(s.lastUpdateTime, now)
    ensures o.published ==> o.state.lastUpdateTime == now && o.state.result == o.state.latestResult
    ensures !o.published ==> o.state.lastUpdateTime == s.lastUpdateTime && o.state.result == s.result
    ensures o.state.currentKnee == s.currentKnee
  {
    var best := SelectBestKnee(newResult.left, newResult.right);
    var changed := isAutoKneeEnabled && best != s.lastAutoKnee;
    var lastAutoKnee := if changed then best else s.lastAutoKnee;
    var selectedKnee := if isAutoKneeEnabled then lastAutoKnee else s.currentKnee;
    var latest := ResultFor(newResult, selectedKnee);
    var publish := Due(s.lastUpdateTime, now);
    Step(HookState(s.currentKnee, lastAutoKnee, latest,
                   if publish then now else s.lastUpdateTime,
                   if publish then latest else s.result),
         if changed then Some(best) else None,
         publish)
  }

  /** In automatic mode the selected side is never `'none'`, so the latest
      result is always defined after a frame. */
  lemma AutoModeAlwaysHasResult(s: HookState, newResult: DualKneeMetrics, now: int)
    ensures OnResult(s, newResult, true, now).state.latestResult.Some?
  {
  }

  /** One delivered frame: the dual metrics and the clock when it arrived. */
  datatype Frame = Frame(result: DualKneeMetrics, now: int)

  /** Feeds the frames in order; returns the final state and the clock
      readings at which `setResult` was called. */
  function Run(s: HookState, frames: seq<Frame>, isAutoKneeEnabled: bool): (HookState, seq<int>)
    decreases |frames|
  {
    if frames == [] then (s, [])
    else
      var o := OnResult(s, frames[0].result, isAutoKneeEnabled, frames[0].now);
      var (final, rest) := Run(o.state, frames[1..], isAutoKneeEnabled);
      (final, if o.published then [frames[0].now] + rest else rest)
  }

  /** Publishing is spaced: the first publish comes more than one interval
      after the last one before the run, each later one more than one
      interval after its predecessor, and the final state remembers the last. */
  lemma {:induction false} PublishesAreSpaced(s: HookState, frames: seq<Frame>, isAutoKneeEnabled: bool)
    ensures var (final, times) := Run(s, frames, isAutoKneeEnabled);
            (|times| > 0 ==> Due(s.lastUpdateTime, times[0])) &&
            (forall i :: 0 < i < |times| ==> Due(times[i - 1], times[i])) &&
            final.lastUpdateTime == (if |times| > 0 then times[|times| - 1] else s.lastUpdateTime)
    decreases |frames|
  {
    if frames != [] {
      var o := OnResult(s, frames[0].result, isAutoKneeEnabled, frames[0].now);
      PublishesAreSpaced(o.state, frames[1..], isAutoKneeEnabled);
      var (final, rest) := Run(o.state, frames[1..], isAutoKneeEnabled);
      if o.published {
        var times := [frames[0].now] + rest;
        forall i | 0 < i < |times| ensures Due(times[i - 1], times[i]) {
          if i > 1 {
            assert times[i - 1] == rest[i - 2] && times[i] == rest[i - 1];
          }
        }
      }
    }
  }

  /** Over any run, `k` publishes span at least `17 * (k - 1)` ms. */
  lemma {:induction false} PublishRateBound(times: seq<int>)
    requires forall i :: 0 < i < |times| ==> Due(times[i - 1], times[i])
    ensures |times| > 0 ==> times[|times| - 1] - times[0] >= 17 * (|times| - 1)
  {
    if |times| > 1 {
      var prefix := times[..|times| - 1];
      PublishRateBound(prefix);
      DueInWholeMilliseconds(times[|times| - 2], times[|times| - 1]);
    }
  }
}
