/** The per-side knee metrics of `src/utils/kneeAngleTracker.ts`: keypoint
    filtering and selection, the gated angle computation, and the tracker
    object that feeds one running averager per side. */
module KneeAngleTracking {
  import opened JsValues
  import opened Constants
  import opened Averaging

  /** A detected landmark; the detector may omit `score` and `name`. */
  datatype Keypoint = Keypoint(x: real, y: real, score: Option<real>, name: Option<string>)

  datatype Pose = Pose(keypoints: seq<Keypoint>)

  datatype KneePoints = KneePoints(hip: Option<Keypoint>, knee: Option<Keypoint>,
                                   ankle: Option<Keypoint>, nose: Option<Keypoint>)

  /** The empty object `{}`. */
  const NoKneePoints := KneePoints(None, None, None, None)

  datatype KneeMetrics = KneeMetrics(side: KneeSide, angle: Option<Num>, averageAngle: Option<Num>,
                                     confidence: Option<real>, kneePoints: KneePoints)

  datatype DualKneeMetrics = DualKneeMetrics(left: KneeMetrics, right: KneeMetrics)

  /** `DEFAULT_KNEE_METRICS`: no side, every numeric field null, no points. */
  const DefaultKneeMetrics := KneeMetrics(NoSide, None, None, None, NoKneePoints)

  /** The default metrics are not the output of any frame: a computed
      result always carries a confidence, the default none. */
  lemma DefaultKneeMetricsIsNeverComputed(pose: Pose, side: KneeSide, minimumConfidence: real,
                                          minimumDistanceRatio: real, math: MathLib, history: seq<Sample>)
    ensures DefaultKneeMetrics.side == NoSide && DefaultKneeMetrics.angle.None? &&
            DefaultKneeMetrics.averageAngle.None? && DefaultKneeMetrics.confidence.None? &&
            DefaultKneeMetrics.kneePoints == NoKneePoints
    ensures KneeStep(pose, side, minimumConfidence, minimumDistanceRatio, math, history).metrics != DefaultKneeMetrics
  {
  }

  /** The result for an invalid side or a missing landmark. */
  function EmptyMetrics(side: KneeSide): KneeMetrics {
    KneeMetrics(side, None, None, Some(0.0), NoKneePoints)
  }

  /** The floating-point primitives the angle computation calls, left
      abstract: `Math.sqrt`, `Math.acos` (NaN outside [-1, 1]) and the
      constant `180 / Math.PI`. */
  datatype MathLib = MathLib(sqrt: real -> real, acos: real -> Num, radToDeg: real)

  /** The two facts about `Math.sqrt` that the gating relies on. */
  ghost predicate SqrtLaws(sqrt: real -> real) {
    sqrt(0.0) == 0.0 && forall t :: t > 0.0 ==> sqrt(t) > 0.0
  }

  // ---------------------------------------------------------------------
  // Keypoint filtering and selection

  /** `k.score || 0`. */
  function ScoreOrZero(k: Keypoint): real {
    if k.score.Some? then k.score.value else 0.0
  }

  /** `pose.keypoints.filter(k => (k.score || 0) > minimumConfidence)`. */
  function EligibleKeypoints(keypoints: seq<Keypoint>, minimumConfidence: real): (r: seq<Keypoint>)
    ensures forall k :: k in r ==> k in keypoints && ScoreOrZero(k) > minimumConfidence
    ensures forall k :: k in keypoints && ScoreOrZero(k) > minimumConfidence ==> k in r
  {
    if keypoints == [] then []
    else (if ScoreOrZero(keypoints[0]) > minimumConfidence then [keypoints[0]] else [])
         + EligibleKeypoints(keypoints[1..], minimumConfidence)
  }

  /** `keypoints.find(point => point.name === name)`. */
  function FindByName(keypoints: seq<Keypoint>, name: string): (r: Option<Keypoint>)
    ensures r.None? <==> forall j :: 0 <= j < |keypoints| ==> keypoints[j].name != Some(name)
    ensures forall i :: 0 <= i < |keypoints| && keypoints[i].name == Some(name) &&
                        (forall j :: 0 <= j < i ==> keypoints[j].name != Some(name))
                        ==> r == Some(keypoints[i])
  {
    if keypoints == [] then None
    else if keypoints[0].name == Some(name) then Some(keypoints[0])
    else
      var r := FindByName(keypoints[1..], name);
      assert forall i :: 1 <= i < |keypoints| ==> keypoints[1..][i - 1] == keypoints[i];
      r
  }

  /** An independent statement of "the first eligible keypoint with this
      name", walking the unfiltered list once. */
  function FirstEligibleNamed(keypoints: seq<Keypoint>, minimumConfidence: real, name: string): Option<Keypoint> {
    if keypoints == [] then None
    else if ScoreOrZero(keypoints[0]) > minimumConfidence && keypoints[0].name == Some(name)
    then Some(keypoints[0])
    else FirstEligibleNamed(keypoints[1..], minimumConfidence, name)
  }

  /** Filtering and then finding picks the first keypoint, in detector
      order, that both clears the score threshold and has the name. */
  lemma {:induction false} FindAfterFilter(keypoints: seq<Keypoint>, minimumConfidence: real, name: string)
    ensures FindByName(EligibleKeypoints(keypoints, minimumConfidence), name)
         == FirstEligibleNamed(keypoints, minimumConfidence, name)
  {
    if keypoints != [] {
      FindAfterFilter(keypoints[1..], minimumConfidence, name);
      var rest := EligibleKeypoints(keypoints[1..], minimumConfidence);
      if ScoreOrZero(keypoints[0]) > minimumConfidence {
        assert EligibleKeypoints(keypoints, minimumConfidence) == [keypoints[0]] + rest;
        assert ([keypoints[0]] + rest)[1..] == rest;
      } else {
        assert EligibleKeypoints(keypoints, minimumConfidence) == rest;
      }
    }
  }

  /** The landmark name for a side: `left_hip`, `right_ankle`, ... */
  function LandmarkName(side: KneeSide, joint: string): string
    requires side != NoSide
  {
    (if side == Left then "left_" else "right_") + joint
  }

  /** The side's hip, knee and ankle plus the shared nose, each the first
      match among the eligible keypoints. */
  function SelectKneePoints(eligible: seq<Keypoint>, side: KneeSide): (points: KneePoints)
    requires side != NoSide
    ensures points.hip.Some? ==> points.hip.value in eligible && points.hip.value.name == Some(LandmarkName(side, "hip"))
    ensures points.knee.Some? ==> points.knee.value in eligible && points.knee.value.name == Some(LandmarkName(side, "knee"))
    ensures points.ankle.Some? ==> points.ankle.value in eligible && points.ankle.value.name == Some(LandmarkName(side, "ankle"))
    ensures points.nose.Some? ==> points.nose.value in eligible && points.nose.value.name == Some("nose")
    ensures points.hip.None? <==> forall j :: 0 <= j < |eligible| ==> eligible[j].name != Some(LandmarkName(side, "hip"))
    ensures points.knee.None? <==> forall j :: 0 <= j < |eligible| ==> eligible[j].name != Some(LandmarkName(side, "knee"))
    ensures points.ankle.None? <==> forall j :: 0 <= j < |eligible| ==> eligible[j].name != Some(LandmarkName(side, "ankle"))
  {
    var hip := FindByName(eligible, LandmarkName(side, "hip"));
    var knee := FindByName(eligible, LandmarkName(side, "knee"));
    var ankle := FindByName(eligible, LandmarkName(side, "ankle"));
    var nose := FindByName(eligible, "nose");
    FindGivesNamed(eligible, LandmarkName(side, "hip"));
    FindGivesNamed(eligible, LandmarkName(side, "knee"));
    FindGivesNamed(eligible, LandmarkName(side, "ankle"));
    FindGivesNamed(eligible, "nose");
    KneePoints(hip, knee, ankle, nose)
  }

  /** What `find` returns is in the list and carries the name. */
  lemma {:induction false} FindGivesNamed(keypoints: seq<Keypoint>, name: string)
    ensures var r := FindByName(keypoints, name);
            r.Some? ==> r.value in keypoints && r.value.name == Some(name)
  {
    if keypoints != [] && keypoints[0].name != Some(name) {
      FindGivesNamed(keypoints[1..], name);
    }
  }

  /** Hip, knee and ankle were all found. */
  predicate HasLimb(points: KneePoints) {
    points.hip.Some? && points.knee.Some? && points.ankle.Some?
  }

  function ScoreOf(point: Option<Keypoint>): real {
    if point.Some? && point.value.score.Some? then point.value.score.value else 0.0
  }

  /** `sumScores`: the numeric scores of hip, knee and ankle, summed; the
      nose and any score-less landmark contribute nothing. */
  function SumScores(points: KneePoints): (total: real)
    ensures HasLimb(points) && points.hip.value.score.Some? && points.knee.value.score.Some? &&
            points.ankle.value.score.Some? ==>
            total == points.hip.value.score.value + points.knee.value.score.value + points.ankle.value.score.value
    ensures points.hip.None? && points.knee.None? && points.ankle.None? ==> total == 0.0
  {
    ScoreOf(points.hip) + ScoreOf(points.knee) + ScoreOf(points.ankle)
  }

  /** With a non-negative threshold every eligible keypoint has a score,
      so the confidence of a found limb is exactly the sum of its three scores. */
  lemma EligibleHaveScores(keypoints: seq<Keypoint>, minimumConfidence: real, side: KneeSide)
    requires minimumConfidence >= 0.0 && side != NoSide
    ensures var points := SelectKneePoints(EligibleKeypoints(keypoints, minimumConfidence), side);
            HasLimb(points) ==>
              SumScores(points) == points.hip.value.score.value + points.knee.value.score.value
                                   + points.ankle.value.score.value
  {
  }

  // ---------------------------------------------------------------------
  // The gated angle

  function Magnitude(dx: real, dy: real, math: MathLib): real {
    math.sqrt(dx * dx + dy * dy)
  }

  /** `calculateDistance`: with a well-behaved square root, never negative
      and zero exactly for coincident points. */
  function CalculateDistance(x1: real, y1: real, x2: real, y2: real, math: MathLib): (d: real)
    ensures SqrtLaws(math.sqrt) ==> d >= 0.0 && (d == 0.0 <==> x1 == x2 && y1 == y2)
  {
    var dx, dy := x2 - x1, y2 - y1;
    SquareSign(dx);
    SquareSign(dy);
    Magnitude(dx, dy, math)
  }

  /** A square is non-negative, and positive for a non-zero number. */
  lemma SquareSign(x: real)
    ensures x * x >= 0.0
    ensures x != 0.0 ==> x * x > 0.0
  {
    if x > 0.0 {
      assert x * x > 0.0 * x;
    } else if x < 0.0 {
      var y := -x;
      assert y * y > 0.0 * y;
      assert x * x == y * y;
    }
  }

  /** `|knee - hip|`. */
  function ThighLength(points: KneePoints, math: MathLib): real
    requires HasLimb(points)
  {
    Magnitude(points.knee.value.x - points.hip.value.x, points.knee.value.y - points.hip.value.y, math)
  }

  /** `|knee - ankle|`. */
  function ShinLength(points: KneePoints, math: MathLib): real
    requires HasLimb(points)
  {
    Magnitude(points.knee.value.x - points.ankle.value.x, points.knee.value.y - points.ankle.value.y, math)
  }

  /** `180 - acos(v1 . v2 / (|v1| |v2|)) * RAD_TO_DEG`: 0 for a straight
      leg, growing with flexion; NaN when `acos` is. */
  function FlexionAngle(points: KneePoints, math: MathLib): Num
    requires HasLimb(points) && ThighLength(points, math) != 0.0 && ShinLength(points, math) != 0.0
  {
    var hip, knee, ankle := points.hip.value, points.knee.value, points.ankle.value;
    var dot := (knee.x - hip.x) * (knee.x - ankle.x) + (knee.y - hip.y) * (knee.y - ankle.y);
    var rad := math.acos(dot / (ThighLength(points, math) * ShinLength(points, math)));
    if rad.NaN? then NaN else Finite(180.0 - rad.value * math.radToDeg)
  }

  /** `Math.min(d1, d2) / Math.max(d1, d2)`. Division by a zero maximum
      gives NaN (0 / 0) or an infinity (negative / 0, impossible for square
      roots); neither passes a `>=` test against a finite threshold, so both
      are modelled as NaN. */
  function SegmentRatio(d1: real, d2: real): Num {
    var lo := if d1 < d2 then d1 else d2;
    var hi := if d1 < d2 then d2 else d1;
    if hi == 0.0 then NaN else Finite(lo / hi)
  }

  /** `calculateKneeAngle`: null for a missing landmark, a zero-length
      segment, an angle above 170 degrees or a too-short segment; the angle
      otherwise (possibly NaN, which none of the `>`/`>=` tests rejects). */
  function CalculateKneeAngle(points: KneePoints, minimumDistanceRatio: real, math: MathLib): (angle: Option<Num>)
    ensures angle.Some? ==> HasLimb(points) && ThighLength(points, math) != 0.0 && ShinLength(points, math) != 0.0 &&
                            angle.value == FlexionAngle(points, math)
    ensures angle.Some? && angle.value.Finite? ==> angle.value.value <= 170.0
    ensures HasLimb(points) && ThighLength(points, math) != 0.0 && ShinLength(points, math) != 0.0 &&
            !(FlexionAngle(points, math).Finite? && FlexionAngle(points, math).value > 170.0) ==>
              (angle.Some? <==>
                 var ratio := SegmentRatio(CalculateDistance(points.hip.value.x, points.hip.value.y,
                                                             points.knee.value.x, points.knee.value.y, math),
                                           CalculateDistance(points.knee.value.x, points.knee.value.y,
                                                             points.ankle.value.x, points.ankle.value.y, math));
                 ratio.Finite? && ratio.value >= minimumDistanceRatio)
  {
    if !HasLimb(points) then None
    else
      var hip, knee, ankle := points.hip.value, points.knee.value, points.ankle.value;
      var mag1 := ThighLength(points, math);
      var mag2 := ShinLength(points, math);
      if mag1 == 0.0 || mag2 == 0.0 then None
      else
        var angleDeg := FlexionAngle(points, math);
        if angleDeg.Finite? && angleDeg.value > 170.0 then None
        else
          var d1 := CalculateDistance(hip.x, hip.y, knee.x, knee.y, math);
          var d2 := CalculateDistance(knee.x, knee.y, ankle.x, ankle.y, math);
          var ratio := SegmentRatio(d1, d2);
          if ratio.Finite? && ratio.value >= minimumDistanceRatio then Some(angleDeg) else None
  }

  /** The two segment distances are the two vector magnitudes. */
  lemma DistancesAreMagnitudes(points: KneePoints, math: MathLib)
    requires HasLimb(points)
    ensures CalculateDistance(points.hip.value.x, points.hip.value.y, points.knee.value.x, points.knee.value.y, math)
         == ThighLength(points, math)
    ensures CalculateDistance(points.knee.value.x, points.knee.value.y, points.ankle.value.x, points.ankle.value.y, math)
         == ShinLength(points, math)
  {
    var knee, ankle := points.knee.value, points.ankle.value;
    assert Magnitude(ankle.x - knee.x, ankle.y - knee.y, math) == Magnitude(knee.x - ankle.x, knee.y - ankle.y, math) by {
      assert (ankle.x - knee.x) * (ankle.x - knee.x) + (ankle.y - knee.y) * (ankle.y - knee.y)
          == (knee.x - ankle.x) * (knee.x - ankle.x) + (knee.y - ankle.y) * (knee.y - ankle.y);
    }
  }

  /** A non-zero magnitude is positive. */
  lemma MagnitudeSign(dx: real, dy: real, math: MathLib)
    requires SqrtLaws(math.sqrt)
    ensures Magnitude(dx, dy, math) != 0.0 ==> Magnitude(dx, dy, math) > 0.0
  {
    var t := dx * dx + dy * dy;
    assert dx * dx >= 0.0 && dy * dy >= 0.0;
    if t == 0.0 {
      assert Magnitude(dx, dy, math) == math.sqrt(0.0);
    }
  }

  /** With a ratio threshold of at most 0 (the configured value is 0) the
      segment check never rejects: only the zero-length and the 170-degree
      checks decide. */
  lemma ZeroRatioNeverRejects(points: KneePoints, minimumDistanceRatio: real, math: MathLib)
    requires SqrtLaws(math.sqrt) && minimumDistanceRatio <= 0.0 && HasLimb(points)
    requires ThighLength(points, math) != 0.0 && ShinLength(points, math) != 0.0
    ensures CalculateKneeAngle(points, minimumDistanceRatio, math)
         == var a := FlexionAngle(points, math);
            if a.Finite? && a.value > 170.0 then None else Some(a)
  {
    DistancesAreMagnitudes(points, math);
    var knee, hip, ankle := points.knee.value, points.hip.value, points.ankle.value;
    MagnitudeSign(knee.x - hip.x, knee.y - hip.y, math);
    MagnitudeSign(knee.x - ankle.x, knee.y - ankle.y, math);
    var d1, d2 := ThighLength(points, math), ShinLength(points, math);
    assert d1 > 0.0 && d2 > 0.0;
    var lo, hi := if d1 < d2 then d1 else d2, if d1 < d2 then d2 else d1;
    assert lo / hi > 0.0;
  }

  /** A hip placed on the knee is degenerate geometry: the angle is null. */
  lemma CoincidentHipKneeIsNull(points: KneePoints, minimumDistanceRatio: real, math: MathLib)
    requires SqrtLaws(math.sqrt) && HasLimb(points)
    requires points.hip.value.x == points.knee.value.x && points.hip.value.y == points.knee.value.y
    ensures CalculateKneeAngle(points, minimumDistanceRatio, math).None?
  {
    var dx := points.knee.value.x - points.hip.value.x;
    var dy := points.knee.value.y - points.hip.value.y;
    assert dx == 0.0 && dy == 0.0;
    assert dx * dx + dy * dy == 0.0;
    assert ThighLength(points, math) == Magnitude(dx, dy, math) == math.sqrt(0.0);
  }

  /** The thresholds the application configures (a point score above 0.25,
      a ratio of 0): a found limb's confidence is its three-score sum, and
      the angle is decided by the zero-length and 170-degree checks alone. */
  lemma ConfiguredThresholds(pose: Pose, side: KneeSide, math: MathLib)
    requires SqrtLaws(math.sqrt) && side != NoSide
    ensures var points := SelectKneePoints(EligibleKeypoints(pose.keypoints, MinimumPointScore), side);
            HasLimb(points) ==>
              SumScores(points) == points.hip.value.score.value + points.knee.value.score.value
                                   + points.ankle.value.score.value &&
              (ThighLength(points, math) != 0.0 && ShinLength(points, math) != 0.0 ==>
                 CalculateKneeAngle(points, MinimumDistanceRatio, math)
                   == var a := FlexionAngle(points, math);
                      if a.Finite? && a.value > 170.0 then None else Some(a))
  {
    EligibleHaveScores(pose.keypoints, MinimumPointScore, side);
    var points := SelectKneePoints(EligibleKeypoints(pose.keypoints, MinimumPointScore), side);
    if HasLimb(points) && ThighLength(points, math) != 0.0 && ShinLength(points, math) != 0.0 {
      ZeroRatioNeverRejects(points, MinimumDistanceRatio, math);
    }
  }

  // ---------------------------------------------------------------------
  // One side, one frame, as a function of the side's write history

  datatype SideUpdate = SideUpdate(metrics: KneeMetrics, history: seq<Sample>)

  /** Every reading in a history passed the 170-degree gate. */
  ghost predicate Plausible(history: seq<Sample>) {
    forall j :: 0 <= j < |history| && IsReading(history[j]) ==> history[j].value.value <= 170.0
  }

  /** The specification of `calculateKneeMetrics` for one side: the metrics
      it returns and the side's history afterwards. */
  function KneeStep(pose: Pose, side: KneeSide, minimumConfidence: real, minimumDistanceRatio: real,
                    math: MathLib, history: seq<Sample>): (u: SideUpdate)
    // the side is echoed, and the history only ever grows, by at most one sample
    ensures u.metrics.side == side
    ensures u.history == history || u.history == history + [u.metrics.angle]
    // points are reported only together with a complete limb
    ensures u.metrics.kneePoints == NoKneePoints || HasLimb(u.metrics.kneePoints)
    // a reported average comes from the window of the updated history
    ensures u.metrics.averageAngle.Some? ==>
              u.history != history &&
              u.metrics.averageAngle == AverageOf(LastWritten(u.history, MovingAverageWindowSize), MovingAverageMinValidCount)
  {
    if side == NoSide then SideUpdate(EmptyMetrics(side), history)
    else
      var points := SelectKneePoints(EligibleKeypoints(pose.keypoints, minimumConfidence), side);
      if !HasLimb(points) then SideUpdate(EmptyMetrics(side), history)
      else
        var angle := CalculateKneeAngle(points, minimumDistanceRatio, math);
        var h := history + [angle];
        var average := AverageOf(LastWritten(h, MovingAverageWindowSize), MovingAverageMinValidCount);
        SideUpdate(KneeMetrics(side, angle, average, Some(SumScores(points)), points), h)
  }

  /** A frame either leaves the side's history alone and reports the empty
      metrics (invalid side or missing landmark), or appends exactly one
      sample, the frame's angle, possibly null; which one happens depends
      only on whether hip, knee and ankle were found. */
  lemma KneeStepWritesAtMostOnce(pose: Pose, side: KneeSide, minimumConfidence: real,
                                 minimumDistanceRatio: real, math: MathLib, history: seq<Sample>)
    ensures var u := KneeStep(pose, side, minimumConfidence, minimumDistanceRatio, math, history);
            var found := side != NoSide &&
                         HasLimb(SelectKneePoints(EligibleKeypoints(pose.keypoints, minimumConfidence), side));
            u.metrics.side == side &&
            (!found ==> u.history == history && u.metrics == EmptyMetrics(side)) &&
            (found ==> u.history == history + [u.metrics.angle] &&
                       u.metrics.confidence == Some(SumScores(u.metrics.kneePoints)) &&
                       HasLimb(u.metrics.kneePoints))
  {
  }

  /** Smoothing never produces an implausible value: if the history only
      holds gated readings, so does the new one, and a finite average is at
      most 170 degrees. */
  lemma KneeStepStaysPlausible(pose: Pose, side: KneeSide, minimumConfidence: real,
                               minimumDistanceRatio: real, math: MathLib, history: seq<Sample>)
    requires Plausible(history)
    ensures var u := KneeStep(pose, side, minimumConfidence, minimumDistanceRatio, math, history);
            Plausible(u.history) &&
            (u.metrics.averageAngle.Some? ==>
               u.metrics.averageAngle.value.Finite? && u.metrics.averageAngle.value.value <= 170.0)
  {
    var u := KneeStep(pose, side, minimumConfidence, minimumDistanceRatio, math, history);
    if u.history != history {
      SmoothedIsPlausible(u.history);
    }
  }

  /** The smoothed value of a plausible history is finite and at most 170. */
  lemma SmoothedIsPlausible(h: seq<Sample>)
    requires Plausible(h)
    ensures var a := AverageOf(LastWritten(h, MovingAverageWindowSize), MovingAverageMinValidCount);
            a.Some? ==> a.value.Finite? && a.value.value <= 170.0
  {
    var w := LastWritten(h, MovingAverageWindowSize);
    var lo := LowestReading(w);
    forall j | 0 <= j < |w| && IsReading(w[j]) ensures lo <= w[j].value.value <= 170.0 {
      LowestReadingIsLow(w, j);
    }
    AverageBetween(w, MovingAverageMinValidCount, lo, 170.0);
  }

  /** A lower bound for the readings of a window. */
  function LowestReading(s: seq<Sample>): real {
    if s == [] then 0.0
    else
      var rest := LowestReading(s[1..]);
      if IsReading(s[0]) && s[0].value.value < rest then s[0].value.value else rest
  }

  lemma {:induction false} LowestReadingIsLow(s: seq<Sample>, j: int)
    requires 0 <= j < |s| && IsReading(s[j])
    ensures LowestReading(s) <= s[j].value.value
  {
    if j > 0 {
      LowestReadingIsLow(s[1..], j - 1);
    }
  }

  // ---------------------------------------------------------------------
  // The tracker object

  class KneeAngleTracker {
    const minimumConfidence: real
    const minimumDistanceRatio: real
    const leftAverager: RunningAverager
    const rightAverager: RunningAverager

    ghost function Repr(): set<object> {
      {this, leftAverager, leftAverager.buffer, rightAverager, rightAverager.buffer}
    }

    ghost predicate Valid()
      reads Repr()
    {
      leftAverager != rightAverager && leftAverager.buffer != rightAverager.buffer &&
      leftAverager.Valid() && rightAverager.Valid() &&
      Plausible(leftAverager.History) && Plausible(rightAverager.History)
    }

    constructor (minimumConfidence: real, minimumDistanceRatio: real)
      ensures Valid() && fresh(Repr())
      ensures this.minimumConfidence == minimumConfidence
      ensures this.minimumDistanceRatio == minimumDistanceRatio
      ensures leftAverager.History == [] && rightAverager.History == []
    {
      this.minimumConfidence := minimumConfidence;
      this.minimumDistanceRatio := minimumDistanceRatio;
      leftAverager := new RunningAverager();
      rightAverager := new RunningAverager();
    }

    /** `calculateKneeMetrics`: the side's step, applied to that side's
        averager; the other averager is not touched. */
    method CalculateKneeMetrics(pose: Pose, side: KneeSide, math: MathLib) returns (m: KneeMetrics)
      requires Valid()
      modifies leftAverager, leftAverager.buffer, rightAverager, rightAverager.buffer
      ensures Valid()
      ensures side != Left ==> unchanged(leftAverager, leftAverager.buffer)
      ensures side != Right ==> unchanged(rightAverager, rightAverager.buffer)
      ensures side == Left ==>
        KneeStep(pose, side, minimumConfidence, minimumDistanceRatio, math, old(leftAverager.History))
          == SideUpdate(m, leftAverager.History)
      ensures side == Right ==>
        KneeStep(pose, side, minimumConfidence, minimumDistanceRatio, math, old(rightAverager.History))
          == SideUpdate(m, rightAverager.History)
      ensures side == NoSide ==> m == EmptyMetrics(side)
      ensures m.averageAngle.Some? ==> m.averageAngle.value.Finite? && m.averageAngle.value.value <= 170.0
    {
      if side != Left && side != Right {
        return EmptyMetrics(side);
      }
      var keyPoints := EligibleKeypoints(pose.keypoints, minimumConfidence);
      var kneePoints := SelectKneePoints(keyPoints, side);
      if !HasLimb(kneePoints) {
        return EmptyMetrics(side);
      }
      var score := SumScores(kneePoints);
      var angle := CalculateKneeAngle(kneePoints, minimumDistanceRatio, math);
      var averager := if side == Left then leftAverager else rightAverager;
      KneeStepStaysPlausible(pose, side, minimumConfidence, minimumDistanceRatio, math, averager.History);
      averager.AddData(angle);
      var averageAngle := averager.GetMovingAverage(MovingAverageWindowSize, MovingAverageMinValidCount);
      m := KneeMetrics(side, angle, averageAngle.average, Some(score), kneePoints);
    }

    /** `calculateDualMetrics`: left, then right, each on its own averager. */
    method CalculateDualMetrics(pose: Pose, math: MathLib) returns (d: DualKneeMetrics)
      requires Valid()
      modifies leftAverager, leftAverager.buffer, rightAverager, rightAverager.buffer
      ensures Valid()
      ensures KneeStep(pose, Left, minimumConfidence, minimumDistanceRatio, math, old(leftAverager.History))
           == SideUpdate(d.left, leftAverager.History)
      ensures KneeStep(pose, Right, minimumConfidence, minimumDistanceRatio, math, old(rightAverager.History))
           == SideUpdate(d.right, rightAverager.History)
    {
      var left := CalculateKneeMetrics(pose, Left, math);
      var right := CalculateKneeMetrics(pose, Right, math);
      d := DualKneeMetrics(left, right);
    }
  }
}
