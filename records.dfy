/** The detection record that flows downstream through the per-frame pipeline. In the source it
    is a dictionary that each stage enriches in place; here it is a fixed-field value whose
    stage-specific annotations are optional fields. */
module Records {
  import opened Wrappers
  import opened BboxUtils

  type Positive = r: real | r > 0.0 witness 1.0

  /** Average real-world width and height (metres) of a class of vehicle. */
  datatype Dims = Dims(width: Positive, height: Positive)

  /** What the detection filter produces for one detector box. */
  datatype Inference = Inference(box: Box, classname: string, dims: Dims, confidence: real)

  /** The keys the tracker writes into a matched detection. */
  datatype TrackInfo = TrackInfo(
    id: int,
    velocity: Point,
    firstTimestamp: real,
    previousTimestamp: real,
    currentTimestamp: real,
    firstCenter: Point,
    previousCenter: Point,
    currentCenter: Point,
    centerHistory: seq<Point>)

  /** The `license_plate` entry: the plate detection's fields (absent until a plate is read)
      and the plate text. */
  datatype PlateRecord = PlateRecord(region: Option<Inference>, text: string)

  datatype Detection = Detection(
    base: Inference,
    tracking: Option<TrackInfo>,
    ppm: Option<real>,
    speedHistory: Option<seq<real>>,
    speed: Option<real>,
    plate: Option<PlateRecord>,
    offender: bool)

  /** A detection as the detector stage hands it on: no annotations yet. */
  function FreshDetection(i: Inference): Detection
  {
    Detection(i, None, None, None, None, None, false)
  }

  /** `detection.get('ID')`. */
  function IdOf(d: Detection): Option<int>
  {
    if d.tracking.Some? then Some(d.tracking.value.id) else None
  }
}
