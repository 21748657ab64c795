# Vehicle speed pipeline: a Dafny model

This project models the per-frame core of a traffic-camera application. The application detects vehicles in a video frame, gives each one a persistent identity, estimates its speed, reads its number plate and captures speeding vehicles. The model covers six stages:

- **Detection filter** (`Detection`, `object_detection.dfy`). Raw detector rows are kept only for the four vehicle classes of interest at a confidence of at least 0.70, in input order. Each kept row carries its class's reference size.
- **Geometry** (`BboxUtils`, `bbox_utils.dfy`). A box's integer center point is computed with Python's truncating `int()`. The distance helper returns the *squared* Euclidean distance.
- **Tracker** (`Tracking`, `object_tracking.dfy`). The class `ObjectTracking` holds:
  - the ID-to-record table;
  - its insertion order;
  - the ID counter.

  Its methods are proved against a pure specification: the `Registry` value and the functions `Step`, `Frame`, `Prune`, `Drift` and `UpdateTrackerOutcome`. The tracker does these things:
  - It matches detections greedily, taking the first track in insertion order with the same class and a close smoothed center.
  - It updates or registers tracks, and registration takes the counter as the ID.
  - It keeps bounded center and velocity histories.
  - It evicts tracks unseen for too long.
  - It drifts the stored centers along their velocity.
- **Speed estimation** (`Speed`, `speed_estimation.dfy`). This covers:
  - pixels-per-metre calibration;
  - the speed formula and its raised errors (modelled as a `Result`);
  - unit conversion, the blend of frame and average speeds, the rolling mean and the over-limit test;
  - the `apply_estimations` loop.
- **Plate reading** (`Plates`, `anpr.dfy`). This covers:
  - `str.upper`, `str.strip` and `''.join`;
  - the UK plate regex, including Python's `$` quirk;
  - the confusable-character tables and `correct_plate_text`;
  - the plate-box coordinate transform and the plate-in-vehicle test;
  - the selection loop of `process_detection_plates`.

  The plate detector and the OCR reader are function parameters.
- **Violation capture** (`Offenses`, `captures.dfy`). The class `Captures` holds the table of captured identities. `compare_speed` captures at most one vehicle per frame, never captures an identity twice while its entry lasts, and prunes entries unseen for longer than the deregistration time.

Shared helpers:
- `Wrappers` holds `Option` and `Result`.
- `PySeq` holds Python's `s[-n:]` and `sum`.
- `Numeric` holds the weighted blend and its bounds.
- `Records` holds the detection record. It is a dictionary in Python and a fixed-field value with one optional field per stage here.

Clock readings are parameters:
- `update_tracker` reads the clock three times, so it takes `now`, `pruneTime` and `driftTime`.
- `compare_speed` takes `detectedAt`.

Exceptions become `Err` values.

Some behaviours of the code are easy to miss:
- Plate correction applies only to a text of exactly 7 characters whose upper case already matches the regex. The confusable-character tables then map each group to itself.
- A failed OCR read raises `TypeError` in `''.join(None)`, and the exception leaves the whole frame's plate stage.
- The speed is fed the squared pixel distance.
- The tracker's deregistration time defaults to 5 seconds and the capture table's to 12 seconds.
- The frame rate is a real number: the video player passes the stream's frames per second, which need not be whole.

## Model

| member | source | states |
|---|---|---|
| BboxUtils.Trunc | app/utils/BboxUtils.py:292 | Python `int()` truncates toward zero: the result is the integer between 0 and the value, less than one away from it |
| BboxUtils.CalculateCenterPoint | app/utils/BboxUtils.py:274-296 | the center has integral coordinates; for a box with x1 <= x2 and y1 <= y2 it lies between the truncated corners, bounds included |
| BboxUtils.MeasureEuclideanDistance | app/utils/BboxUtils.py:299-315 | the squared distance is never negative and is zero for equal points |
| BboxUtils.DistanceSymmetric | app/utils/BboxUtils.py:315 | the distance does not depend on the order of the two points |
| Detection.ClassesOfInterestTable | app/utils/ObjectDetection.py:22-35 | the table holds exactly car, motorcycle, bus and truck, and "Unknown" is not among them |
| Detection.FetchClassName | app/utils/ObjectDetection.py:93-108 | a name other than "Unknown" comes from an integral class ID the model knows; a known integral ID gives its name |
| Detection.Filtrated | app/utils/ObjectDetection.py:57-90 | every output is of a class of interest, carries that class's reference size and a confidence of at least 0.70, and has no annotations yet; there are no more outputs than rows |
| Detection.FiltratedIsOrderedSubsequence | app/utils/ObjectDetection.py:63-87 | the output is exactly the kept rows, in input order: the k-th output comes from the k-th kept position, positions increase, and every qualifying row is among them |
| Detection.UnknownClassDropped | app/utils/ObjectDetection.py:108 | a class ID the model does not name maps to "Unknown", and that row is dropped |
| Detection.RunInference | app/utils/ObjectDetection.py:56-90 | the filtering loop returns exactly the specified filtered list |
| PySeq.TakeLast | app/utils/ObjectTracking.py:145 | `s[-n:]` is the whole list for `n == 0` or `n >= len(s)`, and otherwise is the last `n` elements; it is always a suffix of `s` |
| PySeq.SumBounds | app/utils/SpeedEstimation.py:210 | the sum of a list lies between its length times a lower bound and its length times an upper bound of its elements |
| PySeq.MeanBounds | app/utils/SpeedEstimation.py:210 | the mean of a non-empty list lies within any bounds its elements respect |
| Numeric.BlendBetween | app/utils/ObjectTracking.py:299-302 | `alpha*a + (1-alpha)*b` lies between `a` and `b` for `alpha` in [0, 1]; weight 0 gives `b` and weight 1 gives `a` |
| Tracking.EmptyValid | app/utils/ObjectTracking.py:12-27 | the empty table with counter 0 satisfies the tracker invariant |
| Tracking.SmoothCenterPoints | app/utils/ObjectTracking.py:281-302 | each axis of the smoothed point lies between the two inputs for a weight in [0, 1]; weight 0 gives the previous point and weight 1 the current point |
| Tracking.MatchDistanceIsSixteenth | app/utils/ObjectTracking.py:109-127 | with weight 0.5 the compared squared distance between the two smoothed points is one sixteenth of the raw squared distance |
| Tracking.MatchIndex | app/utils/ObjectTracking.py:104-127 | the scan stops at the first track in insertion order with the same class within the squared threshold; every track before it fails to match |
| Tracking.MatchedIdIsFirstFit | app/utils/ObjectTracking.py:104-127 | a returned ID names a track of the same class within threshold²·16 of raw squared distance, and every lower ID fails to match; None means no track matches |
| Tracking.AppendBounded | app/utils/ObjectTracking.py:140-145 | the new history is non-empty, ends with the new center, grows by at most one, and stays within the maximum when the old one did |
| Tracking.AppendBoundedIsSuffix | app/utils/ObjectTracking.py:140-145 | the new history is the old history plus the center, less some of its oldest entries |
| Tracking.PushVelocity | app/utils/ObjectTracking.py:236-244 | the velocity history grows by at most one, ends with the new displacement for a window of at least 1, and stays within the rolling window when it already was |
| Tracking.PushVelocityIsSuffix | app/utils/ObjectTracking.py:236-244 | the velocity history is the old history plus the displacement, less at most its oldest entry |
| Tracking.MeanOfConstant | app/utils/ObjectTracking.py:247 | the mean of a history of one repeated velocity is that velocity |
| Tracking.MeanWithinBounds | app/utils/ObjectTracking.py:247 | the mean velocity lies within any per-axis bounds its samples respect |
| Tracking.UpdatedTrackProperties | app/utils/ObjectTracking.py:130-169 | an updated record stays well formed; its history ends with the new center; its newest velocity sample is the displacement from the last observed center; its velocity is the mean of its samples; center, previous center and last-seen are renewed; first sighting, first center and class are unchanged |
| Tracking.RegisterValid | app/utils/ObjectTracking.py:87-101 | registering under the counter keeps the invariant; this holds because the counter lies above every key, so the new ID is new and extends the order at its top |
| Tracking.Step | app/utils/ObjectTracking.py:54-75 | one detection of the loop keeps the invariant (IDs in increasing insertion order, all below the counter, every record well formed) |
| Tracking.StepEffect | app/utils/ObjectTracking.py:56-75 | one detection is either returned with the ID of an existing non-zero track, the old last-seen as its previous time and now as its current time, with counter and order kept; or it is registered as a fresh record under the counter, which grows by one; no track is removed |
| Tracking.MatchOnZeroRegisters | app/utils/ObjectTracking.py:58 | a first match on ID 0 is treated as no match: a new track is registered, nothing is returned, and track 0 is untouched |
| Tracking.Frame | app/utils/ObjectTracking.py:54-75 | the frame's loop keeps the invariant |
| Tracking.FrameRegistrations | app/utils/ObjectTracking.py:54-75 | over a frame the counter grows by the number of detections not returned, and the insertion order grows by exactly the consecutive IDs from the old to the new counter |
| Tracking.FrameReturnsTracked | app/utils/ObjectTracking.py:54-84 | no track disappears during the loop, and every returned detection carries a non-zero ID present in the table and this frame's time |
| Tracking.PruneEffect | app/utils/ObjectTracking.py:172-207 | pruning deletes exactly the records unseen for longer than the deregistration time, leaves every other record unchanged, keeps the counter and keeps the invariant |
| Tracking.DriftEffect | app/utils/ObjectTracking.py:253-278 | drift moves only the stored center, by velocity times elapsed time, and only when the elapsed time is within the deregistration time; keys, order, counter and invariant stay |
| Tracking.UpdateTrackerOutcome | app/utils/ObjectTracking.py:30-84 | a whole `update_tracker` call keeps the invariant |
| Tracking.FrameNeverReusesIds | app/utils/ObjectTracking.py:54-75 | over the detection loop the counter never decreases, and every ID in the table was there before or lies between the old and the new counter |
| Tracking.UpdateTrackerNeverReusesIds | app/utils/ObjectTracking.py:70-75 | the counter never decreases, and every ID in the table afterwards was either there before or was handed out during this call |
| Tracking.ObjectTracking.constructor | app/utils/ObjectTracking.py:12-27 | starts with an empty table and counter 0, with defaults 65, 5 seconds and 25 |
| Tracking.ObjectTracking.MatchDetectionCenterPoints | app/utils/ObjectTracking.py:104-127 | the scanning loop returns exactly the first-fit ID of the specification |
| Tracking.ObjectTracking.RegisterDetection | app/utils/ObjectTracking.py:87-101 | stores the fresh record (first and last seen now, zero velocity, first, previous and current center equal, history of one center) under the counter and appends it to the insertion order |
| Tracking.ObjectTracking.EstimateVelocity | app/utils/ObjectTracking.py:210-250 | pushes the displacement from the previous center into the record's velocity history, windowed, and returns the history's mean; nothing else changes |
| Tracking.ObjectTracking.UpdateTrackedObjects | app/utils/ObjectTracking.py:130-169 | the record becomes the specified updated record, and the detection is returned with the tracking keys written, its history being the old history plus the new center |
| Tracking.ObjectTracking.CollectStaleDetections | app/utils/ObjectTracking.py:191-201 | collects exactly the IDs unseen for longer than the deregistration time |
| Tracking.ObjectTracking.PruneOutdatedDetections | app/utils/ObjectTracking.py:172-207 | the table and its order become the specified pruned state, and the invariant is kept |
| Tracking.ObjectTracking.ApplyVelocityEstimations | app/utils/ObjectTracking.py:253-278 | the table becomes the specified drifted table, and the invariant is kept |
| Tracking.ObjectTracking.TrackDetection | app/utils/ObjectTracking.py:56-75 | one loop iteration changes the state as the specification step does and returns what it returns |
| Tracking.ObjectTracking.UpdateTracker | app/utils/ObjectTracking.py:30-84 | the tracker's new state and the returned list equal the specified outcome of the loop, pruning at the second clock reading and drift at the third, with the invariant kept |
| Speed.UnitConversion | app/utils/SpeedEstimation.py:141-166 | 'mph' multiplies by 2.23, 'kmh' by 3.6, and any other unit raises ValueError |
| Speed.CalculateSpeedCases | app/utils/SpeedEstimation.py:108-138 | a zero frame rate raises ZeroDivisionError; otherwise it raises (ValueError) exactly when time per frame rate or ppm is not positive; else the result is distance/ppm/(time/rate)·2.23, which is non-negative for a non-negative distance |
| Speed.CalculateSpeedDefined | app/utils/SpeedEstimation.py:125-129 | a positive rate, time and ppm never raise |
| Speed.SpeedIsQuadraticInDisplacement | app/utils/SpeedEstimation.py:47-56 | since the speed is fed the squared pixel distance, scaling a displacement by k scales the speed by k² |
| Speed.CalibratePpm | app/utils/SpeedEstimation.py:169-194 | ppm is never negative, and it is positive exactly when the box is not a single point |
| Speed.SpeedWeightedAverage | app/utils/SpeedEstimation.py:87-105 | for a weight in [0, 1] the blend lies between the frame and average speeds; weight 1 gives the frame speed and weight 0 the average |
| Speed.DetectionRollingAverage | app/utils/SpeedEstimation.py:197-210 | the mean exists exactly when the list is non-empty and the window positive; otherwise it raises ZeroDivisionError |
| Speed.RollingAverageBounds | app/utils/SpeedEstimation.py:197-210 | the rolling mean lies within any bounds the speeds respect |
| Speed.RollingAverageOfOne | app/utils/SpeedEstimation.py:210 | a one-element history averages to its element |
| Speed.CaptureOffense | app/utils/SpeedEstimation.py:71-84 | true exactly when the speed is over the limit; the default limit None raises TypeError |
| Speed.EstimateEffect | app/utils/SpeedEstimation.py:29-66 | ppm is kept when present and calibrated otherwise; the previous center becomes the current one; when both elapsed times are positive, the speed history becomes one element equal to the speed, which lies between the frame and average speeds; otherwise speed and history are kept; box, plate and offender flag are unchanged |
| Speed.EstimateDefined | app/utils/SpeedEstimation.py:45-56 | a tracked detection with positive ppm never raises at a positive frame rate |
| Speed.EstimateAllPointwise | app/utils/SpeedEstimation.py:29-68 | the loop succeeds exactly when every detection does, and then its i-th output is the i-th detection estimated |
| Speed.ErrorPersists | app/utils/SpeedEstimation.py:29-68 | an error on a prefix is the error of the whole list |
| Speed.ApplyEstimations | app/utils/SpeedEstimation.py:23-68 | the loop returns exactly the specified list or error |
| Plates.UpperIsFixed | app/utils/ANPR.py:88 | upper-casing is idempotent |
| Plates.UpperConcat | app/utils/ANPR.py:88 | upper-casing works character by character over a concatenation |
| Plates.Strip | app/utils/ANPR.py:88 | the result is the input without its leading and trailing whitespace; it neither begins nor ends with whitespace |
| Plates.StripRemovesOnlyPadding | app/utils/ANPR.py:88 | stripping whitespace padding gives back the text inside it |
| Plates.TrailingNewlineAccepted | app/utils/ANPR.py:100-101 | the format check also accepts a valid plate followed by one newline |
| Plates.ConversionTablesInverse | app/utils/ANPR.py:112-113 | the letter-to-digit and digit-to-letter tables are each other's inverse |
| Plates.ConvertOutsideKeys | app/utils/ANPR.py:125-127 | a group holding none of a table's keys converts to itself |
| Plates.ConvertChangesConfusables | app/utils/ANPR.py:125-127 | the tables do change confusable characters they are given |
| Plates.CorrectPlateTextCases | app/utils/ANPR.py:104-136 | the answer exists exactly when the text has 7 characters and its upper case passes the format check; it is then a grammatical plate, the first 7 characters of the upper case, and the upper case itself when that has 7 characters |
| Plates.CorrectPlateTextIdempotent | app/utils/ANPR.py:104-136 | a grammatical plate is returned unchanged, and correcting a result again returns it |
| Plates.LowerCaseCorrected | app/utils/ANPR.py:115-120 | lower-case input is accepted in upper case |
| Plates.ConfusableRejected | app/utils/ANPR.py:117-120 | a digit in a letter position is rejected, not corrected |
| Plates.WideningWithNewline | app/utils/ANPR.py:108-120 | a 7-character text whose upper case widens to a plate plus a newline is accepted as that plate |
| Plates.AbsoluteCoordsTranslate | app/utils/ANPR.py:77-82 | the crop box has the truncated plate box's size, and moving the vehicle by whole pixels moves it by the same amount |
| Plates.MatchPlateToCarRelative | app/utils/ANPR.py:178-190 | the test holds exactly when the plate's own center lies within the vehicle's width and height, bounds included |
| Plates.PlateInsideCropMatches | app/utils/ANPR.py:178-190 | a plate box lying inside the vehicle crop always matches |
| Plates.FixedCorrection | app/utils/ANPR.py:104-136 | a text already in upper case is corrected to itself exactly when it is a grammatical plate, and rejected otherwise |
| Plates.ExtractLicensePlateCases | app/utils/ANPR.py:73-90 | a failed OCR read raises TypeError; otherwise the answer is the joined, upper-cased, stripped reading, exactly when that is a grammatical plate |
| Plates.FragmentedReadingAccepted | app/utils/ANPR.py:87-90 | fragments " ab12" and "CDE " read as the plate AB12CDE |
| Plates.FirstAcceptedPlateSpec | app/utils/ANPR.py:51-65 | the scan picks the first plate inside the vehicle that reads as a non-empty text, all before it passed over; no pick means all were passed over; an error comes from a failed read of a plate inside the vehicle |
| Plates.ProcessPlateEffect | app/utils/ANPR.py:35-68 | each vehicle leaves with a plate record, and only the plate entry changes; the text is a grammatical plate read from the first matching plate that gave one, whose fields the record takes, or else "OCCLUDED" with the existing region kept; "OCCLUDED" is written exactly when every plate was passed over (none at all, outside the vehicle, or read without text); an error comes from a failed read of a matching plate, every plate before it passed over |
| Plates.ProcessPlatesPointwise | app/utils/ANPR.py:30-70 | a successful frame keeps the list's length and order and annotates each vehicle as specified |
| Plates.ProcessPlatesErrorPersists | app/utils/ANPR.py:35-70 | a read failure on one vehicle fails the whole call |
| Plates.ProcessDetectionPlates | app/utils/ANPR.py:30-70 | the nested loop with its flag and break returns exactly the specified frame result |
| Offenses.CaptureOffense | app/utils/Captures.py:19-21 | the detection is flagged as an offender and nothing else of it changes |
| Offenses.CompareFrameCaptures | app/utils/Captures.py:40-61 | the frame's capture is the first qualifying detection whose identity was not already captured; none is taken when there is no such detection; only the captured detection is changed |
| Offenses.CompareFrameNoCapture | app/utils/Captures.py:40-61 | a frame without a capture holds no qualifying detection whose identity was not already captured |
| Offenses.CompareFrameFirstCapture | app/utils/Captures.py:40-61 | the captured detection qualifies and is not already captured, and no detection before it is both |
| Offenses.CompareFrameOutputs | app/utils/Captures.py:58-61 | the captured detection is returned flagged as an offender and every other detection is returned unchanged |
| Offenses.CompareFrameKeys | app/utils/Captures.py:53-54 | the loop adds entries for exactly the identities of qualifying detections up to the capture, and removes none |
| Offenses.CompareFrameTimes | app/utils/Captures.py:56 | every entry of a qualifying detection up to the capture was last detected now; every other entry is unchanged |
| Offenses.CompareFrameFlags | app/utils/Captures.py:53-61 | an entry is captured exactly when it was before the frame or it belongs to the captured detection: new entries start uncaptured |
| Offenses.AtMostOneCapturePerFrame | app/utils/Captures.py:40-61 | of any two detections of a frame, at least one is handed on unchanged |
| Offenses.NoRecapture | app/utils/Captures.py:58-60 | the captured identity was not already captured, and afterwards its entry is captured and last detected now |
| Offenses.PruneOffenders | app/utils/Captures.py:69-87 | keeps exactly the entries last detected no longer ago than the deregistration time, unchanged |
| Offenses.PruneIdempotent | app/utils/Captures.py:81-87 | pruning twice at one time prunes once, and with a non-negative deregistration time an entry detected now survives |
| Offenses.CapturedIdentityRemembered | app/utils/Captures.py:35-87 | after `compare_speed`, the identity captured in the frame is in the table, marked captured |
| Offenses.PrunedIdentityCapturedAgain | app/utils/Captures.py:53-61 | an identity without an entry (new or pruned) whose detection is the frame's first qualifying one is captured and gets a fresh, captured entry |
| Offenses.Captures.constructor | app/utils/Captures.py:12-16 | starts with an empty table, limit 0 and deregistration time 12 seconds by default |
| Offenses.Captures.CompareSpeed | app/utils/Captures.py:35-66 | the loop with its flag, then pruning at the same clock reading, gives exactly the specified table and detections |
| Offenses.Captures.PruneOutdatedObjects | app/utils/Captures.py:69-87 | collecting the stale identities and deleting them leaves exactly the specified pruned table |

## Left out

- The detector and OCR models, `preprocess_plate`, frame cropping and image writing (`cv2.imwrite`, the filename timestamp) are outside the core. Detector output, class names, plate detections and OCR readings are inputs.
- Clocks (`perf_counter`, `time.time`) are parameters.
- `print` calls are omitted.
- Rendering, the video player, the application's glue module and its settings file are not part of this model. The settings file does not define `BASE_YOLO_CONFIDENCE_THRESHOLD`, so it is the `confidenceThreshold` parameter.
- Speed.Estimate: the speed is not rounded to two decimals. `round` is a floating-point operation, and the model computes over exact reals.
- Floating point is not modelled at all. There is no rounding, no overflow to infinity and no NaN, and `np.mean` is exact.
- Tracking.ObjectTracking.UpdateTracker: the `isinstance` check that raises ValueError for a non-list input is left out. The argument's type makes such an input impossible.
- Tracking.StaleIds: the `ID not in parsed_detections` test is left out. It compares an integer with a list of dictionaries, so it always holds.
- Tracking.Annotated: the returned history is a value. In the source it is the record's own list until that list is truncated, so later appends to the record also show up in earlier returned detections. That aliasing is not modelled.
- Tracking.ObjectTracking.EstimateVelocity: requires a window of at least 1. With window 0 the source pops the only sample and takes the mean of an empty list (NaN).
- Tracking.Config: the history bound and the rolling windows are natural numbers. A negative Python value would slice differently.
- Tracking.ObjectTracking.TrackDetection, Tracking.ObjectTracking.CollectStaleDetections and Tracking.ObjectTracking.RemoveDetections are the source's loop bodies written as methods. They are not separate source functions. RemoveDetections is the deleting loop of `prune_outdated_detections`.
- BboxUtils.MeasureEuclideanDistance: the converse, that zero means the two points are equal, is not stated. The solver used for this project does not close that nonlinear step.
- BboxUtils.CalculateCenterPoint: coordinates are exact reals, not floats.
- Plates.UpperChar: some characters are modelled as unchanged. These are the characters whose Python upper case contains a character other than A-Z or 0-9. Their true upper case can never pass the plate format, so no plate result depends on them.
- Plates.MatchPlateToCar: compares exact real sums, not float sums.
- Speed.ApplyEstimations: on an error the source has already updated the earlier dictionaries in place and the failing one partly. The model returns only the error.
- Plates.ProcessDetectionPlates: on a failed OCR read the source has already annotated the earlier detections in place, and has given the failing one a `license_plate` entry with the text "OCCLUDED" unless it had one. The model returns only the error.
- Speed.Estimate: a tracked detection always has all the tracking keys, so the source's test for `previous_center_point` and `current_center_point` always passes. A detection without tracking raises KeyError at the final assignment.
- Offenses.Captures: the speed limit and deregistration time are fixed at construction. The source's attributes could be reassigned between frames, but no core method does so.
- Offenses.Captures.PruneOutdatedObjects: the stale identities are collected as a set. The order of deletion does not affect the result.
- With ppm 0, which a zero-size box calibrates to, `calculate_speed` raises ValueError even at a positive frame rate. Speed.EstimateDefined therefore requires a positive ppm.
