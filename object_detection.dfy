/** The filtering loop of the detector stage: raw detector rows are kept only for the four
    vehicle classes of interest at a confidence of at least 0.70, in their original order, and
    each kept row becomes a detection carrying its class's reference dimensions. The detector
    model itself is not modelled; its output rows and its class-name table are inputs. */
module Detection {
  import opened BboxUtils
  import opened Records

  /** One row of the detector's output, `(x1, y1, x2, y2, confidence_score, class_ID)`.
      The class ID arrives as a float, as `tolist()` produces it. */
  datatype RawDetection = RawDetection(x1: real, y1: real, x2: real, y2: real, confidence: real, classId: real)

  /** Average real-world vehicle sizes in metres, by class name. */
  const ClassesOfInterest: map<string, Dims> := map[
    "car" := Dims(1.821, 1.534),
    "motorcycle" := Dims(0.995, 2.190),
    "bus" := Dims(2.560, 4.200),
    "truck" := Dims(2.400, 2.590)]

  const ConfidenceThreshold: real := 0.70

  const UnknownClass: string := "Unknown"

  lemma ClassesOfInterestTable()
    ensures ClassesOfInterest.Keys == {"car", "motorcycle", "bus", "truck"}
    ensures UnknownClass !in ClassesOfInterest
  {
  }

  /** `names.get(class_ID, 'Unknown')`: a float key finds the integer key of equal value. */
  function FetchClassName(names: map<int, string>, classId: real): (name: string)
    ensures name != UnknownClass ==> IsIntegral(classId) && classId.Floor in names
    ensures IsIntegral(classId) && classId.Floor in names ==> name == names[classId.Floor]
  {
    if IsIntegral(classId) && classId.Floor in names then names[classId.Floor] else UnknownClass
  }

  predicate Kept(names: map<int, string>, r: RawDetection)
  {
    FetchClassName(names, r.classId) in ClassesOfInterest && r.confidence >= ConfidenceThreshold
  }

  function ToDetection(names: map<int, string>, r: RawDetection): Detection
    requires Kept(names, r)
  {
    var classname := FetchClassName(names, r.classId);
    FreshDetection(Inference(Box(r.x1, r.y1, r.x2, r.y2), classname, ClassesOfInterest[classname], r.confidence))
  }

  /** The detections `run_inference` returns for the rows `raw`. */
  function Filtrated(names: map<int, string>, raw: seq<RawDetection>): (out: seq<Detection>)
    ensures |out| <= |raw|
    ensures forall k :: 0 <= k < |out| ==>
      && out[k].base.classname in ClassesOfInterest
      && out[k].base.dims == ClassesOfInterest[out[k].base.classname]
      && out[k].base.confidence >= ConfidenceThreshold
      && out[k] == FreshDetection(out[k].base)
  {
    if |raw| == 0 then []
    else
      var rest := Filtrated(names, raw[..|raw| - 1]);
      var r := raw[|raw| - 1];
      if Kept(names, r) then rest + [ToDetection(names, r)] else rest
  }

  /** The positions in `raw` of the rows that are kept, in increasing order. */
  function KeptIndices(names: map<int, string>, raw: seq<RawDetection>): seq<nat>
  {
    if |raw| == 0 then []
    else
      var rest := KeptIndices(names, raw[..|raw| - 1]);
      if Kept(names, raw[|raw| - 1]) then rest + [|raw| - 1] else rest
  }

  /** The output is exactly the subsequence of kept rows: the k-th output comes from the k-th
      kept position, positions increase, and a position is kept iff its row qualifies. */
  lemma {:induction false} FiltratedIsOrderedSubsequence(names: map<int, string>, raw: seq<RawDetection>)
    ensures var out, idx := Filtrated(names, raw), KeptIndices(names, raw);
      && |out| == |idx|
      && (forall k :: 0 <= k < |idx| ==> idx[k] < |raw| && Kept(names, raw[idx[k]]) && out[k] == ToDetection(names, raw[idx[k]]))
      && (forall k, l :: 0 <= k < l < |idx| ==> idx[k] < idx[l])
      && (forall i :: 0 <= i < |raw| && Kept(names, raw[i]) ==> i in idx)
  {
    if |raw| > 0 {
      var init := raw[..|raw| - 1];
      FiltratedIsOrderedSubsequence(names, init);
      assert forall i :: 0 <= i < |init| ==> init[i] == raw[i];
    }
  }

  /** A row whose class ID the model does not name is labelled "Unknown" and dropped. */
  lemma UnknownClassDropped(names: map<int, string>, r: RawDetection)
    requires !(IsIntegral(r.classId) && r.classId.Floor in names)
    ensures !Kept(names, r)
  {
    ClassesOfInterestTable();
  }

  /** The filtering loop of `run_inference`. */
  method RunInference(names: map<int, string>, raw: seq<RawDetection>) returns (filtrated: seq<Detection>)
    ensures filtrated == Filtrated(names, raw)
  {
    filtrated := [];
    var i := 0;
    while i < |raw|
      invariant 0 <= i <= |raw|
      invariant filtrated == Filtrated(names, raw[..i])
    {
      var r := raw[i];
      var classname := FetchClassName(names, r.classId);
      if classname in ClassesOfInterest && r.confidence >= ConfidenceThreshold {
        var detection := FreshDetection(Inference(Box(r.x1, r.y1, r.x2, r.y2), classname, ClassesOfInterest[classname], r.confidence));
        filtrated := filtrated + [detection];
      }
      assert raw[..i + 1][..i] == raw[..i];
      i := i + 1;
    }
    assert raw[..i] == raw;
  }
}
