# snap-flex knee-angle pipeline in Dafny

snap-flex measures how far a knee is bent from a webcam feed. Each video
frame goes through the following steps:

- A pose detector gives named, scored keypoints.
- A `KneeAngleTracker` keeps the confident hip, knee and ankle of each leg.
- The tracker computes a gated flexion angle.
- It pushes that angle into the side's `RunningAverager`, a 200-slot
  circular buffer.
- It reads back a 30-frame moving average.

A processing loop runs one step per animation frame. A React hook picks
the leg to show, either automatically (the more confident one) or the
user's choice, and publishes at most one result per 1000/60 ms. A few
small decision tables drive the screens: the application status, the
start button and user-agent sniffing.

The project has these modules:

- `JsValues` (`js_values.dfy`): JavaScript values the core relies on.
  - `Option`.
  - `Num` is a number that may be `NaN`.
  - `JsRem` is the truncating `%` operator.
- `Constants` (`js_values.dfy`): the enumerations and configuration
  constants of `src/utils/constants.ts`.
- `Averaging` (`running_averager.dfy`): the running averager.
  - It is a class over `array<Option<Num>>` with a write cursor.
  - A ghost `History` records every sample written.
  - The invariant `Valid` ties each slot to the last write that landed
    there.
  - The backward walk of `getMovingAverage` is a `while` loop. Its result
    is proved equal to the average of the last `windowSize` writes.
- `KneeAngleTracking` (`knee_angle_tracker.dfy`): the tracker.
  - Pure functions model keypoint filtering, selection, `sumScores` and
    the gated angle.
  - `KneeStep` states one side's effect of one frame, as a function of
    that side's write history.
  - The class `KneeAngleTracker` owns the two averagers. Its methods are
    proved against `KneeStep`.
  - The class keeps the invariant that every stored reading passed the
    170° gate.
- `PoseDetectionHook` (`pose_detection_hook.dfy`): the hook's result
  callback, as a step function over its refs and state. It also has a
  run of many frames, with a bound on the publish rate over that run.
- `PoseDetectionLoading` (`pose_detection_loader.dfy`): the module
  globals of the loader, as one object.
  - `pending` is the host's set of scheduled animation-frame callbacks.
  - At most one callback is pending, and only while running.
- `App` (`app_status.dfy`): the derived status and the camera flip of
  `src/main.tsx`.
- `StartScreen` (`start_screen.dfy`): the button label and enable rule.
- `Browser` (`browser.dfy`): `detectBrowser` and `isMobile`, with the
  user-agent string as a parameter.

Modelling choices:

- JavaScript numbers are reals, plus `NaN` where the code can produce or
  test it.
- `null` is `None`.
- `Math.sqrt`, `Math.acos` and `180 / Math.PI` are an abstract `MathLib`
  value. The only facts the proofs use about `sqrt` are `sqrt(0) = 0` and
  that `sqrt` is positive on positive arguments.
- The clock (`Date.now`), the animation-frame handles and the detector's
  output are inputs.

Where the model covers more inputs than the code's normal use:

- `getMovingAverage` is modelled for every `windowSize`, not only for
  windows up to the buffer length.
  - A larger window walks to negative indices, because JavaScript's `%`
    keeps the sign of the dividend.
  - Those indices read `undefined`, which the validity test drops like
    `null`.
  - An index of `-0` reads slot 0.
- `minValidCount = 0` with no valid sample gives `0 / 0 = NaN`. The model
  returns `NaN` there.
- The buffer size is fixed at 200 by the constructor. The averager never
  takes it as a parameter.

## Model

| member | source | states |
|---|---|---|
| JsValues.JsRem | src/utils/runningAverager.ts:24 | the truncating remainder: strictly between -n and n, equal to the Euclidean one for a non-negative dividend, and the negated Euclidean remainder of the negated dividend otherwise |
| Averaging.RunningAverager.constructor | src/utils/runningAverager.ts:7-9 | a fresh buffer of 200 slots, all null, cursor 0, nothing written yet |
| Averaging.RunningAverager.AddData | src/utils/runningAverager.ts:11-14 | the sample lands at the old cursor, every other slot is unchanged, the cursor becomes (old + 1) mod length, the write is appended to the history, and the buffer invariant is kept |
| Averaging.RunningAverager.GetMovingAverage | src/utils/runningAverager.ts:16-37 | changes nothing. `totalCount` is `windowSize`. `validCount` is the number of non-null, non-NaN samples in the backward walk, never more than `windowSize`. `average` is null exactly when `validCount < minValidCount`, and otherwise the mean of the valid samples in chronological order. For windows up to the buffer length, it is the average of the last `windowSize` writes |
| Averaging.WindowIsLastWritten | src/utils/runningAverager.ts:21-29 | for a buffer that satisfies the invariant, the walk of `count <= length` slots visits exactly the last `count` writes, oldest first, padded with null before the first write; older writes have been overwritten |
| Averaging.AverageBetween | src/utils/runningAverager.ts:34 | if every reading in the window lies in [lo, hi] and at least one valid sample is required, a reported average is finite and lies in [lo, hi] |
| Averaging.SteadyReadingAverage | src/utils/runningAverager.ts:31-34 | a history of one repeated reading, with at least `minValidCount` writes, averages to exactly that reading |
| Averaging.NoWritesNoAverage | src/utils/runningAverager.ts:7-9 | before any write, no window reports an average |
| KneeAngleTracking.EligibleKeypoints | src/utils/kneeAngleTracker.ts:71-73 | a keypoint is kept if and only if `(score or 0) > minimumConfidence` |
| KneeAngleTracking.FindByName | src/utils/kneeAngleTracker.ts:78-81 | `find` is null exactly when no keypoint has the name, and otherwise returns the first keypoint that does |
| KneeAngleTracking.FindAfterFilter | src/utils/kneeAngleTracker.ts:71-81 | filtering then finding equals one walk that takes the first keypoint both over the threshold and with the name |
| KneeAngleTracking.SelectKneePoints | src/utils/kneeAngleTracker.ts:75-90 | each found point is an eligible keypoint with that side's `left_`/`right_` name (the nose is shared); hip, knee and ankle are missing exactly when no eligible keypoint has their name |
| KneeAngleTracking.SumScores | src/utils/kneeAngleTracker.ts:39-43 | the sum of the three scores when all three landmarks have one; 0 when none is present |
| KneeAngleTracking.DefaultKneeMetricsIsNeverComputed | src/utils/kneeAngleTracker.ts:29-35 | `DEFAULT_KNEE_METRICS` has side `none`, null angle, average and confidence, and no points; no frame ever produces it, because a computed result always carries a confidence |
| KneeAngleTracking.EligibleHaveScores | src/utils/kneeAngleTracker.ts:93-97 | with a non-negative threshold, a found limb's confidence is exactly the sum of its three scores |
| KneeAngleTracking.CalculateKneeAngle | src/utils/kneeAngleTracker.ts:106-140 | an angle is returned only when all three landmarks are present and both segments are non-zero, and it is then `180 - acos(...) * RAD_TO_DEG`; a finite angle is at most 170; past those two gates, an angle is returned exactly when min/max of the distances is at least the ratio threshold |
| KneeAngleTracking.DistancesAreMagnitudes | src/utils/kneeAngleTracker.ts:116-136 | the two segment distances equal the two vector magnitudes |
| KneeAngleTracking.CalculateDistance | src/utils/kneeAngleTracker.ts:143-147 | with a square root that is 0 at 0 and positive on positive arguments, the distance is never negative and is 0 exactly for coincident points |
| KneeAngleTracking.ZeroRatioNeverRejects | src/utils/kneeAngleTracker.ts:134-139 | with a ratio threshold at most 0, the ratio check never rejects: only the zero-length and 170° checks decide |
| KneeAngleTracking.CoincidentHipKneeIsNull | src/utils/kneeAngleTracker.ts:125 | a hip on top of the knee makes a zero-length thigh, and the angle is null |
| KneeAngleTracking.ConfiguredThresholds | src/hooks/usePoseDetection.ts:28 | for the configured thresholds (score above 0.25, ratio 0), a found limb's confidence is its three-score sum, and the angle is decided by the zero-length and 170° checks alone |
| KneeAngleTracking.KneeStep | src/utils/kneeAngleTracker.ts:65-103 | one side, one frame: the side is echoed; the history is either unchanged or gains exactly the frame's angle; points are reported only with a complete limb; a reported average is the window average of the updated history |
| KneeAngleTracking.KneeStepWritesAtMostOnce | src/utils/kneeAngleTracker.ts:65-103 | an invalid side or a missing landmark gives the empty metrics (side kept, confidence 0) and writes nothing; otherwise exactly one sample, the frame's angle (possibly null), is appended, and the confidence is the score sum of the found points |
| KneeAngleTracking.KneeStepStaysPlausible | src/utils/kneeAngleTracker.ts:97-102 | if every stored reading is at most 170, that still holds after the step, and a reported average is finite and at most 170 |
| KneeAngleTracking.KneeAngleTracker.constructor | src/utils/kneeAngleTracker.ts:51-56 | the thresholds are stored, and there are two distinct, empty averagers |
| KneeAngleTracking.KneeAngleTracker.CalculateKneeMetrics | src/utils/kneeAngleTracker.ts:65-103 | the metrics and the side's new history are what `KneeStep` gives for that side's old history; the other side's averager is untouched; `none` yields the empty metrics; a smoothed angle is finite and at most 170 |
| KneeAngleTracking.KneeAngleTracker.CalculateDualMetrics | src/utils/kneeAngleTracker.ts:58-63 | the left and right metrics are each side's `KneeStep` on its own averager |
| PoseDetectionHook.SelectBestKnee | src/hooks/usePoseDetection.ts:88-101 | never `none`; left exactly when its confidence (or 0) is strictly greater, right otherwise |
| PoseDetectionHook.TieGoesRight | src/hooks/usePoseDetection.ts:97-100 | equal confidences select the right knee |
| PoseDetectionHook.InitialHookState | src/hooks/usePoseDetection.ts:20-24 | the published and latest results start as the default metrics, the last automatic side starts as the initial knee, and the last update time is 0 |
| PoseDetectionHook.SyncCurrentKnee | src/hooks/usePoseDetection.ts:36-39 | only the current-knee ref changes |
| PoseDetectionHook.DueInWholeMilliseconds | src/hooks/usePoseDetection.ts:73 | for integer milliseconds, `elapsed > 1000/60` is `60 * elapsed > 1000`, that is, `elapsed >= 17` |
| PoseDetectionHook.OnResult | src/hooks/usePoseDetection.ts:57-77 | the side-change callback fires exactly when auto mode's best knee differs from the last automatic one, and with that knee; the latest result is always the selected side's metrics; the result is published and the time recorded exactly when the strict interval test passes, and nothing else changes otherwise |
| PoseDetectionHook.AutoModeAlwaysHasResult | src/hooks/usePoseDetection.ts:68-70 | in auto mode the selected side is never `none`, so the latest result is always defined |
| PoseDetectionHook.PublishesAreSpaced | src/hooks/usePoseDetection.ts:72-76 | over any sequence of frames, every publish is more than one interval after the previous one (or after the last update before the run), and the final state remembers the last publish |
| PoseDetectionHook.PublishRateBound | src/hooks/usePoseDetection.ts:72-76 | k spaced publishes span at least 17·(k−1) ms |
| PoseDetectionLoading.PoseDetectionLoader.constructor | src/utils/poseDetectionLoader.ts:8-11 | no tracker, not running, no frame handle, side `none`, nothing scheduled |
| PoseDetectionLoading.PoseDetectionLoader.InitPoseDetection | src/utils/poseDetectionLoader.ts:14-22 | creates a tracker with the given thresholds and empty averagers only when none exists; otherwise returns the existing tracker; nothing else changes |
| PoseDetectionLoading.PoseDetectionLoader.ProcessFrame | src/utils/poseDetectionLoader.ts:25-50 | checks in order: no video or not ready gives null; no tracker gives the not-initialised error; a detector failure gives the pose-detection error; zero poses gives null; otherwise both sides' `KneeStep` on the first pose. Only that last case touches the averagers |
| PoseDetectionLoading.PoseDetectionLoader.StopProcessing | src/utils/poseDetectionLoader.ts:93-103 | not running, no frame handle, nothing scheduled; tracker and side kept |
| PoseDetectionLoading.PoseDetectionLoader.StartProcessing | src/utils/poseDetectionLoader.ts:56-90 | any earlier loop is cancelled first; then running, with exactly the new handle scheduled |
| PoseDetectionLoading.PoseDetectionLoader.Tick | src/utils/poseDetectionLoader.ts:66-84 | when not running, nothing changes. Otherwise the frame is processed, and a delivered result is both sides' `KneeStep`. An error or a null result delivers nothing and leaves the averagers alone. The loop then reschedules with exactly the next handle pending |
| PoseDetectionLoading.PoseDetectionLoader.UpdateKneeSide | src/utils/poseDetectionLoader.ts:106-108 | only the side changes |
| PoseDetectionLoading.PoseDetectionLoader.DisposeTracker | src/utils/poseDetectionLoader.ts:121-124 | not running, nothing scheduled, no tracker; side kept |
| App.DeriveStatus | src/main.tsx:39-46 | capturing wins; otherwise TF initializing gives initializing, TF error gives error, TF ready gives start with the camera off and ready with it on; `loading` never results |
| App.InitializingOnlyWhileModelLoads | src/main.tsx:39-46 | the fallback on line 45 is unreachable: the status is initializing exactly when nothing is captured and TF is initializing |
| App.StartMeansReadyAndIdle | src/main.tsx:43 | the status is start exactly when nothing is captured, TF is ready and the camera is off |
| App.Flip | src/main.tsx:134 | the flip target is the other facing mode |
| App.FlipTwiceIsIdentity | src/main.tsx:134 | flipping twice returns the original mode |
| StartScreen.ButtonLabel | src/components/StartScreen.tsx:11-28 | the label is one of four strings: `Initializing...` exactly when TF or the status is initializing; `Loading...` and `Error` exactly for those statuses once TF is not initializing; `Start` otherwise (including ready and capturing) |
| StartScreen.IsButtonEnabled | src/components/StartScreen.tsx:32 | an enabled button always reads `Start`; a status other than start, or a model that is not ready, disables it |
| StartScreen.EnabledIffStart | src/components/StartScreen.tsx:32 | for any derived status, the button is enabled exactly when the status is start |
| StartScreen.LabelsOfDerivedStatus | src/components/StartScreen.tsx:11-28 | on the derived status the label is never `Loading...`, and is `Error` exactly when nothing is captured and TF failed |
| Browser.ToLower | src/utils/browser.ts:2 | same length, each character lower-cased (ASCII) |
| Browser.ToLowerIdempotent | src/utils/browser.ts:2 | lower-casing twice equals lower-casing once |
| Browser.Contains | src/utils/browser.ts:6 | `includes` holds exactly when the needle occurs at some position |
| Browser.DetectBrowser | src/utils/browser.ts:1-16 | chrome exactly when the lower-cased agent has `chrome` and not `edg`; firefox exactly when it has `firefox` and the chrome rule did not fire; safari exactly when it has `safari` and neither `chrome` nor `firefox`; other in every remaining case |
| Browser.EdgeIsOther | src/utils/browser.ts:6-15 | an agent with `chrome` and `edg` but no `firefox` is other |
| Browser.DetectBrowserIgnoresCase | src/utils/browser.ts:2 | the classification does not depend on letter case |
| Browser.ContainsAny | src/utils/browser.ts:19 | the alternation matches exactly when some alternative occurs |
| Browser.LowerMobileTokensAreLowered | src/utils/browser.ts:19 | the lower-cased alternatives are the pattern's alternatives lower-cased |
| Browser.IsMobile | src/utils/browser.ts:18-20 | mobile exactly when some lower-cased alternative occurs in the lower-cased agent |
| Browser.IsMobileMatchesIgnoringCase | src/utils/browser.ts:19 | mobile exactly when some pattern alternative occurs in the agent, ignoring case |
| Browser.IsMobileIgnoresCase | src/utils/browser.ts:19 | the mobile test does not depend on letter case |

## Left out

- TensorFlow and model loading (`src/utils/tensorFlow.ts`, `src/utils/tensorFlowLoader.ts`, `src/hooks/useTensorFlow.ts`) are foreign calls and I/O. The model-loading status is an input.
- `detector.estimatePoses` is a black box. Its outcome, poses or a thrown error, is part of the `VideoFrame` input.
- IEEE `Math.sqrt`, `Math.acos` and `180 / Math.PI` are abstract. Rounding, infinities, and numeric facts such as "a right angle gives 90°" are not modelled.
- CalculateKneeAngle: a zero maximum segment length in the ratio is modelled as `NaN`, not as an infinity. Both fail the `>=` test against a finite threshold, so the outcome is the same.
- Async interleaving across `await` in `processFrameLoop` is concurrency; each call is one atomic step.
  - A `startProcessing` that runs while an old tick is suspended can make that tick schedule a second loop. The model cannot show this.
- `currentProcessingPromise` is not modelled. It is only ever `Promise.resolve()` or `null`, and nothing reads it.
- `getTracker` and `isProcessingRunning` are plain reads of the `tracker` and `isRunning` fields.
- `console` logging is output only.
- The React lifecycle is not modelled: `useEffect` dependencies, `setState` batching, `requestAnimationFrame` and `Date.now`. The hook's init and stop effects are the loader's `InitPoseDetection` and `StopProcessing`.
- Rendering and UI are not modelled: canvas drawing, `AngleDisplay` rounding, and the control components.
- Camera and media APIs in `src/main.tsx` are not modelled: `getUserMedia`, device enumeration and track handling. Only the flip target at line 134 is modelled.
- Tooling is not modelled: certificate generation, the Vite config and the service worker.
- ToLower: only ASCII `A`–`Z` are mapped. `toLowerCase` and the `/i` flag also fold non-ASCII letters.
- Averaging.WindowIsLastWritten: stated only for windows up to the buffer length. Longer windows still average the valid samples of the walk, as `GetMovingAverage` states.
