/** Speed estimation: pixels-per-metre calibration from a class's reference size, the speed
    formula with its guard errors, unit conversion, the blend of frame and average speeds, the
    rolling mean, the over-limit test, and the per-frame loop that writes these into the
    tracked detections. The formulas are over exact reals. */
module Speed {
  import opened Wrappers
  import opened PySeq
  import opened Numeric
  import opened BboxUtils
  import opened Records

  /** The exceptions the estimator can raise. */
  datatype SpeedError = ZeroDivisionError | ValueError | KeyError | TypeError

  const MphFactor: real := 2.23
  const KmhFactor: real := 3.6

  /** The default weight of the frame speed in `speed_weighted_average`. */
  const FrameSpeedWeight: real := 0.7

  /** The default window of `detection_rolling_average`. */
  const RollingWindowLength: nat := 5

  function Abs(r: real): (a: real)
    ensures a >= 0.0 && (a == r || a == -r)
  {
    if r < 0.0 then -r else r
  }

  /** `unit_conversion`: metres per second to 'mph' or 'kmh'; any other unit raises. */
  function UnitConversion(speed: real, measurement: string): (r: Result<real, SpeedError>)
    ensures r.Ok? <==> measurement == "mph" || measurement == "kmh"
    ensures measurement == "mph" ==> r == Ok(speed * MphFactor)
    ensures measurement == "kmh" ==> r == Ok(speed * KmhFactor)
    ensures r.Err? ==> r.error == ValueError
  {
    if measurement == "mph" then Ok(speed * MphFactor)
    else if measurement == "kmh" then Ok(speed * KmhFactor)
    else Err(ValueError)
  }

  /** `calculate_speed`: the elapsed frames are divided by the frame rate (a zero rate divides by
      zero), a non-positive time or scale raises, and otherwise the distance in metres over the
      time is converted to mph. */
  function CalculateSpeed(pixelDistance: real, ppm: real, elapsedTime: real, frameRate: real): Result<real, SpeedError>
  {
    if frameRate == 0.0 then Err(ZeroDivisionError)
    else
      var elapsed := elapsedTime / frameRate;
      if elapsed <= 0.0 || ppm <= 0.0 then Err(ValueError)
      else UnitConversion(pixelDistance / ppm / elapsed, "mph")
  }

  lemma QuotientSigns(a: real, b: real)
    requires b > 0.0
    ensures a >= 0.0 ==> a / b >= 0.0
    ensures a > 0.0 ==> a / b > 0.0
    ensures a < 0.0 ==> a / b < 0.0
  {
  }

  /** The speed formula fails exactly on a zero frame rate, a non-positive time per frame rate or
      a non-positive scale; otherwise it is the mph value of distance/ppm over time/rate, which is
      non-negative for a non-negative distance. */
  lemma CalculateSpeedCases(pixelDistance: real, ppm: real, elapsedTime: real, frameRate: real)
    ensures var r := CalculateSpeed(pixelDistance, ppm, elapsedTime, frameRate);
      && (frameRate == 0.0 <==> r == Err(ZeroDivisionError))
      && (frameRate != 0.0 ==>
            && (r.Err? <==> elapsedTime / frameRate <= 0.0 || ppm <= 0.0)
            && (r.Ok? ==> r.value == pixelDistance / ppm / (elapsedTime / frameRate) * MphFactor)
            && (r.Ok? && pixelDistance >= 0.0 ==> r.value >= 0.0))
  {
    if frameRate != 0.0 {
      var elapsed := elapsedTime / frameRate;
      if elapsed > 0.0 && ppm > 0.0 {
        QuotientSigns(pixelDistance, ppm);
        QuotientSigns(pixelDistance / ppm, elapsed);
      }
    }
  }

  /** A positive frame rate with a positive elapsed time and scale never raises. */
  lemma CalculateSpeedDefined(pixelDistance: real, ppm: real, elapsedTime: real, frameRate: real)
    requires frameRate > 0.0 && elapsedTime > 0.0 && ppm > 0.0
    ensures CalculateSpeed(pixelDistance, ppm, elapsedTime, frameRate).Ok?
  {
    QuotientSigns(elapsedTime, frameRate);
  }

  /** The speed grows linearly with the distance it is given; and since that distance is the
      squared pixel distance, moving a point k times as far multiplies the speed by k squared. */
  lemma SpeedIsQuadraticInDisplacement(p: Point, dx: real, dy: real, k: real, ppm: real, elapsedTime: real, frameRate: real)
    requires CalculateSpeed(MeasureEuclideanDistance(p, Point(p.x + dx, p.y + dy)), ppm, elapsedTime, frameRate).Ok?
    ensures var base := CalculateSpeed(MeasureEuclideanDistance(p, Point(p.x + dx, p.y + dy)), ppm, elapsedTime, frameRate);
      var scaled := CalculateSpeed(MeasureEuclideanDistance(p, Point(p.x + k * dx, p.y + k * dy)), ppm, elapsedTime, frameRate);
      scaled.Ok? && scaled.value == k * k * base.value
  {
    var d1 := MeasureEuclideanDistance(p, Point(p.x + dx, p.y + dy));
    var dk := MeasureEuclideanDistance(p, Point(p.x + k * dx, p.y + k * dy));
    DistanceScales(p, dx, dy, k);
    SpeedIsLinear(d1, dk, k * k, ppm, elapsedTime, frameRate);
  }

  lemma DistanceScales(p: Point, dx: real, dy: real, k: real)
    ensures MeasureEuclideanDistance(p, Point(p.x + k * dx, p.y + k * dy)) ==
            k * k * MeasureEuclideanDistance(p, Point(p.x + dx, p.y + dy))
  {
    assert MeasureEuclideanDistance(p, Point(p.x + dx, p.y + dy)) == dx * dx + dy * dy;
    assert MeasureEuclideanDistance(p, Point(p.x + k * dx, p.y + k * dy)) == (k * dx) * (k * dx) + (k * dy) * (k * dy);
  }

  /** The speed is linear in the distance it is given. */
  lemma SpeedIsLinear(d: real, scaled: real, m: real, ppm: real, elapsedTime: real, frameRate: real)
    requires CalculateSpeed(d, ppm, elapsedTime, frameRate).Ok?
    requires scaled == m * d
    ensures var r := CalculateSpeed(scaled, ppm, elapsedTime, frameRate);
      r.Ok? && r.value == m * CalculateSpeed(d, ppm, elapsedTime, frameRate).value
  {
    assert frameRate != 0.0;
    var elapsed := elapsedTime / frameRate;
    assert elapsed > 0.0 && ppm > 0.0;
    var x := d / ppm / elapsed;
    var y := scaled / ppm / elapsed;
    ScaleQuotient(m, d, ppm);
    ScaleQuotient(m, d / ppm, elapsed);
    assert CalculateSpeed(d, ppm, elapsedTime, frameRate).value == x * MphFactor;
    assert CalculateSpeed(scaled, ppm, elapsedTime, frameRate).value == y * MphFactor;
  }

  lemma ScaleQuotient(m: real, d: real, a: real)
    requires a != 0.0
    ensures (m * d) / a == m * (d / a)
  {
  }

  /** `calibrate_ppm`: the mean of the box's width and height in pixels per metre of the class's
      reference size. */
  function CalibratePpm(b: Box, dims: Dims): (ppm: real)
    ensures ppm >= 0.0
    ensures ppm > 0.0 <==> b.x1 != b.x2 || b.y1 != b.y2
  {
    var ppmWidth := Abs(b.x2 - b.x1) / dims.width;
    var ppmHeight := Abs(b.y2 - b.y1) / dims.height;
    QuotientSigns(Abs(b.x2 - b.x1), dims.width);
    QuotientSigns(Abs(b.y2 - b.y1), dims.height);
    (ppmWidth + ppmHeight) / 2.0
  }

  /** `speed_weighted_average`. */
  function SpeedWeightedAverage(rawSpeed: real, avgSpeed: real, alpha: real := FrameSpeedWeight): (s: real)
    ensures 0.0 <= alpha <= 1.0 ==> Between(s, rawSpeed, avgSpeed)
    ensures alpha == 1.0 ==> s == rawSpeed
    ensures alpha == 0.0 ==> s == avgSpeed
  {
    BlendBetween(alpha, rawSpeed, avgSpeed);
    Blend(alpha, rawSpeed, avgSpeed)
  }

  /** `detection_rolling_average`: the mean of the last `window_length` speeds. An empty list or a
      zero window divides by zero (`speeds[-0:]` is the whole list, but `min(len, 0)` is 0). */
  function DetectionRollingAverage(speeds: seq<real>, windowLength: nat := RollingWindowLength): (r: Result<real, SpeedError>)
    ensures r.Ok? <==> |speeds| > 0 && windowLength > 0
    ensures r.Err? ==> r.error == ZeroDivisionError
  {
    var count := Min(|speeds|, windowLength);
    if count == 0 then Err(ZeroDivisionError)
    else Ok(Sum(TakeLast(speeds, windowLength)) / count as real)
  }

  /** The rolling mean averages exactly the last min(len, window) speeds, so it lies within any
      bounds those speeds respect, and a one-element history averages to its element. */
  lemma RollingAverageBounds(speeds: seq<real>, windowLength: nat, lo: real, hi: real)
    requires |speeds| > 0 && windowLength > 0
    requires forall i :: 0 <= i < |speeds| ==> lo <= speeds[i] <= hi
    ensures var r := DetectionRollingAverage(speeds, windowLength);
      r.Ok? && lo <= r.value <= hi
  {
    var window := TakeLast(speeds, windowLength);
    var n := Min(|speeds|, windowLength);
    assert |window| == n;
    forall i | 0 <= i < |window| ensures lo <= window[i] <= hi {
      assert window[i] == speeds[|speeds| - |window| + i];
    }
    MeanBounds(window, lo, hi);
    assert DetectionRollingAverage(speeds, windowLength).value == Sum(window) / n as real;
  }

  lemma RollingAverageOfOne(s: real, windowLength: nat)
    requires windowLength > 0
    ensures DetectionRollingAverage([s], windowLength) == Ok(s)
  {
    RollingAverageBounds([s], windowLength, s, s);
  }

  /** `SpeedEstimation.capture_offense` against the constructor's `speed_limit`, whose default
      None makes the comparison raise. */
  function CaptureOffense(speed: real, speedLimit: Option<real>): (r: Result<bool, SpeedError>)
    ensures speedLimit.None? <==> r == Err(TypeError)
    ensures speedLimit.Some? ==> r == Ok(speed > speedLimit.value)
  {
    match speedLimit
    case None => Err(TypeError)
    case Some(limit) => Ok(speed > limit)
  }

  /** The smoothed speed of one tracked detection, `None` when either elapsed time is not
      positive. */
  function SmoothedSpeed(t: TrackInfo, ppm: real, frameRate: real): Result<Option<real>, SpeedError>
  {
    var frameElapsed := t.currentTimestamp - t.previousTimestamp;
    var avgElapsed := t.currentTimestamp - t.firstTimestamp;
    if frameElapsed > 0.0 && avgElapsed > 0.0 then
      var frameSpeed := CalculateSpeed(MeasureEuclideanDistance(t.previousCenter, t.currentCenter), ppm, frameElapsed, frameRate);
      var avgSpeed := CalculateSpeed(MeasureEuclideanDistance(t.firstCenter, t.currentCenter), ppm, avgElapsed, frameRate);
      if frameSpeed.Err? then Err(frameSpeed.error)
      else if avgSpeed.Err? then Err(avgSpeed.error)
      else Ok(Some(SpeedWeightedAverage(frameSpeed.value, avgSpeed.value)))
    else Ok(None)
  }

  /** One iteration of `apply_estimations`. A detection without tracking keys fails on the final
      `previous_center_point` assignment. */
  function Estimate(d: Detection, frameRate: real): Result<Detection, SpeedError>
  {
    var ppm := if d.ppm.Some? then d.ppm.value else CalibratePpm(d.base.box, d.base.dims);
    if d.tracking.None? then Err(KeyError)
    else
      var t := d.tracking.value;
      var withPpm := d.(ppm := Some(ppm), tracking := Some(t.(previousCenter := t.currentCenter)));
      match SmoothedSpeed(t, ppm, frameRate)
      case Err(e) => Err(e)
      case Ok(None) => Ok(withPpm)
      case Ok(Some(s)) =>
        RollingAverageOfOne(s, RollingWindowLength);
        Ok(withPpm.(speedHistory := Some([s]), speed := Some(DetectionRollingAverage([s]).value)))
  }

  /** `apply_estimations` over a list: the first error aborts. */
  function EstimateAll(dets: seq<Detection>, frameRate: real): Result<seq<Detection>, SpeedError>
  {
    if |dets| == 0 then Ok([])
    else
      match EstimateAll(dets[..|dets| - 1], frameRate)
      case Err(e) => Err(e)
      case Ok(done) =>
        match Estimate(dets[|dets| - 1], frameRate)
        case Err(e) => Err(e)
        case Ok(d) => Ok(done + [d])
  }

  /** What one iteration promises: the ppm is kept when present and calibrated otherwise; the
      previous center becomes the current one; the speed is written, as the one-element history's
      mean of a blend lying between the frame and average speeds, exactly when both elapsed times
      are positive; nothing else changes. */
  lemma {:induction false} EstimateEffect(d: Detection, frameRate: real)
    requires Estimate(d, frameRate).Ok?
    ensures var e := Estimate(d, frameRate).value;
      var t := d.tracking.value;
      && d.tracking.Some?
      && e.base == d.base && e.plate == d.plate && e.offender == d.offender
      && e.ppm == Some(if d.ppm.Some? then d.ppm.value else CalibratePpm(d.base.box, d.base.dims))
      && e.tracking == Some(t.(previousCenter := t.currentCenter))
      && (!(t.currentTimestamp - t.previousTimestamp > 0.0 && t.currentTimestamp - t.firstTimestamp > 0.0) ==>
            e.speedHistory == d.speedHistory && e.speed == d.speed)
      && (t.currentTimestamp - t.previousTimestamp > 0.0 && t.currentTimestamp - t.firstTimestamp > 0.0 ==>
            && e.speed.Some?
            && e.speedHistory == Some([e.speed.value])
            && exists frameSpeed: real, avgSpeed: real ::
                 && CalculateSpeed(MeasureEuclideanDistance(t.previousCenter, t.currentCenter), e.ppm.value, t.currentTimestamp - t.previousTimestamp, frameRate) == Ok(frameSpeed)
                 && CalculateSpeed(MeasureEuclideanDistance(t.firstCenter, t.currentCenter), e.ppm.value, t.currentTimestamp - t.firstTimestamp, frameRate) == Ok(avgSpeed)
                 && Between(e.speed.value, frameSpeed, avgSpeed))
  {
    var t := d.tracking.value;
    var ppm := if d.ppm.Some? then d.ppm.value else CalibratePpm(d.base.box, d.base.dims);
    match SmoothedSpeed(t, ppm, frameRate)
    case Ok(None) =>
    case Ok(Some(s)) =>
      RollingAverageOfOne(s, RollingWindowLength);
      var frameSpeed := CalculateSpeed(MeasureEuclideanDistance(t.previousCenter, t.currentCenter), ppm, t.currentTimestamp - t.previousTimestamp, frameRate).value;
      var avgSpeed := CalculateSpeed(MeasureEuclideanDistance(t.firstCenter, t.currentCenter), ppm, t.currentTimestamp - t.firstTimestamp, frameRate).value;
      assert Between(s, frameSpeed, avgSpeed);
  }

  /** A tracked detection with a positive scale never fails at a positive frame rate: the guard on
      the elapsed times keeps the speed formula's own guard from firing. */
  lemma EstimateDefined(d: Detection, frameRate: real)
    requires frameRate > 0.0 && d.tracking.Some?
    requires (if d.ppm.Some? then d.ppm.value else CalibratePpm(d.base.box, d.base.dims)) > 0.0
    ensures Estimate(d, frameRate).Ok?
  {
    var t := d.tracking.value;
    var ppm := if d.ppm.Some? then d.ppm.value else CalibratePpm(d.base.box, d.base.dims);
    if t.currentTimestamp - t.previousTimestamp > 0.0 && t.currentTimestamp - t.firstTimestamp > 0.0 {
      CalculateSpeedDefined(MeasureEuclideanDistance(t.previousCenter, t.currentCenter), ppm, t.currentTimestamp - t.previousTimestamp, frameRate);
      CalculateSpeedDefined(MeasureEuclideanDistance(t.firstCenter, t.currentCenter), ppm, t.currentTimestamp - t.firstTimestamp, frameRate);
    }
  }

  /** The list keeps its length and order: the i-th output is the i-th input estimated; it fails
      exactly when some detection fails. */
  lemma {:induction false} EstimateAllPointwise(dets: seq<Detection>, frameRate: real)
    ensures var r := EstimateAll(dets, frameRate);
      && (r.Ok? <==> forall i :: 0 <= i < |dets| ==> Estimate(dets[i], frameRate).Ok?)
      && (r.Ok? ==> |r.value| == |dets| && forall i :: 0 <= i < |dets| ==> Estimate(dets[i], frameRate) == Ok(r.value[i]))
  {
    if |dets| > 0 {
      var init := dets[..|dets| - 1];
      EstimateAllPointwise(init, frameRate);
      assert forall i :: 0 <= i < |init| ==> init[i] == dets[i];
      var r := EstimateAll(dets, frameRate);
      if r.Ok? {
        var done := EstimateAll(init, frameRate).value;
        assert r.value == done + [Estimate(dets[|dets| - 1], frameRate).value];
      }
    }
  }

  /** Once a prefix of the list fails, the whole list fails with the same error. */
  lemma {:induction false} ErrorPersists(dets: seq<Detection>, k: nat, frameRate: real)
    requires k <= |dets| && EstimateAll(dets[..k], frameRate).Err?
    ensures EstimateAll(dets, frameRate) == EstimateAll(dets[..k], frameRate)
    decreases |dets|
  {
    if k < |dets| {
      var init := dets[..|dets| - 1];
      assert init[..k] == dets[..k];
      ErrorPersists(init, k, frameRate);
    } else {
      assert dets[..k] == dets;
    }
  }

  /** One more detection estimated without error extends the list's successful result by it. */
  lemma EstimateAllSnoc(dets: seq<Detection>, i: nat, frameRate: real, updated: seq<Detection>, d: Detection)
    requires i < |dets| && EstimateAll(dets[..i], frameRate) == Ok(updated)
    requires Estimate(dets[i], frameRate) == Ok(d)
    ensures EstimateAll(dets[..i + 1], frameRate) == Ok(updated + [d])
  {
    assert dets[..i + 1][..i] == dets[..i];
  }

  /** A detection that fails after a successful prefix makes the whole list fail with its error. */
  lemma EstimateAllFailsAt(dets: seq<Detection>, i: nat, frameRate: real, e: SpeedError)
    requires i < |dets| && EstimateAll(dets[..i], frameRate).Ok?
    requires Estimate(dets[i], frameRate) == Err(e)
    ensures EstimateAll(dets, frameRate) == Err(e)
  {
    assert dets[..i + 1][..i] == dets[..i];
    ErrorPersists(dets, i + 1, frameRate);
  }

  /** `apply_estimations`. The detections are records here, so the loop builds the updated list
      that the source produces by updating each dictionary in place. */
  method ApplyEstimations(detections: seq<Detection>, frameRate: real) returns (r: Result<seq<Detection>, SpeedError>)
    ensures r == EstimateAll(detections, frameRate)
  {
    var updated: seq<Detection> := [];
    var i := 0;
    while i < |detections|
      invariant 0 <= i <= |detections|
      invariant EstimateAll(detections[..i], frameRate) == Ok(updated)
    {
      var detection := detections[i];
      if detection.ppm.None? {
        detection := detection.(ppm := Some(CalibratePpm(detection.base.box, detection.base.dims)));
      }
      if detection.tracking.None? {
        EstimateAllFailsAt(detections, i, frameRate, KeyError);
        return Err(KeyError);
      }
      var t := detection.tracking.value;
      var frameElapsedTime := t.currentTimestamp - t.previousTimestamp;
      var avgElapsedTime := t.currentTimestamp - t.firstTimestamp;
      if frameElapsedTime > 0.0 && avgElapsedTime > 0.0 {
        var frameDistance := MeasureEuclideanDistance(t.previousCenter, t.currentCenter);
        var avgDistance := MeasureEuclideanDistance(t.firstCenter, t.currentCenter);
        var frameSpeed := CalculateSpeed(frameDistance, detection.ppm.value, frameElapsedTime, frameRate);
        if frameSpeed.Err? {
          EstimateAllFailsAt(detections, i, frameRate, frameSpeed.error);
          return Err(frameSpeed.error);
        }
        var avgSpeed := CalculateSpeed(avgDistance, detection.ppm.value, avgElapsedTime, frameRate);
        if avgSpeed.Err? {
          EstimateAllFailsAt(detections, i, frameRate, avgSpeed.error);
          return Err(avgSpeed.error);
        }
        var smoothedSpeed := SpeedWeightedAverage(frameSpeed.value, avgSpeed.value);
        var history := [smoothedSpeed];
        var average := DetectionRollingAverage(history);
        detection := detection.(speedHistory := Some(history), speed := Some(average.value));
      }
      detection := detection.(tracking := Some(t.(previousCenter := t.currentCenter)));
      EstimateAllSnoc(detections, i, frameRate, updated, detection);
      updated := updated + [detection];
      i := i + 1;
    }
    assert detections[..i] == detections;
    return Ok(updated);
  }
}
