/** Violation capture: per frame, the first qualifying detection whose identity has not been
    captured yet is marked as an offender (and, in the running system, photographed), at most
    one per frame; captured identities are remembered until they have not been seen for the
    deregistration time. The clock reading and the detector's base confidence threshold are
    parameters; writing the image is not modelled. */
module Offenses {
  import opened Wrappers
  import opened Records

  /** A `captured_offenders` entry. */
  datatype Offender = Offender(lastDetected: real, alreadyCaptured: bool)

  /** `captured_offenders`, keyed by `detection.get('ID')`, which is `None` for an untracked
      detection. */
  type Offenders = map<Option<int>, Offender>

  /** The speed test of `compare_speed`: a speed is known, it is over the limit, and the
      detector was confident enough. */
  predicate Qualifies(d: Detection, speedLimit: real, confidenceThreshold: real)
  {
    d.speed.Some? && d.speed.value > speedLimit && d.base.confidence > confidenceThreshold
  }

  /** The part of `capture_offense` that changes the detection: it is flagged as an offender. */
  function CaptureOffense(d: Detection): (r: Detection)
    ensures r.offender
    ensures r.(offender := d.offender) == d
  {
    d.(offender := true)
  }

  /** The state of the loop of `compare_speed` after a prefix of the detections: the entries, the
      detections handed on, and the position of the capture taken in this frame, if any (the
      source keeps only whether there was one, `already_captured`). */
  datatype Pass = Pass(offenders: Offenders, detections: seq<Detection>, capturedAt: Option<nat>)

  /** One detection of the loop. */
  function CompareStep(p: Pass, d: Detection, detectedAt: real, speedLimit: real, confidenceThreshold: real): Pass
  {
    if Qualifies(d, speedLimit, confidenceThreshold) && p.capturedAt.None? then
      var id := IdOf(d);
      var entry := (if id in p.offenders then p.offenders[id] else Offender(detectedAt, p.capturedAt.Some?))
        .(lastDetected := detectedAt);
      if !entry.alreadyCaptured then
        Pass(p.offenders[id := entry.(alreadyCaptured := true)], p.detections + [CaptureOffense(d)], Some(|p.detections|))
      else
        Pass(p.offenders[id := entry], p.detections + [d], None)
    else
      Pass(p.offenders, p.detections + [d], p.capturedAt)
  }

  /** The loop of `compare_speed` over a whole frame. */
  function CompareFrame(offenders: Offenders, detections: seq<Detection>, detectedAt: real, speedLimit: real, confidenceThreshold: real)
    : (p: Pass)
    decreases |detections|
    ensures |p.detections| == |detections|
    ensures p.capturedAt.Some? ==> p.capturedAt.value < |detections|
  {
    if |detections| == 0 then Pass(offenders, [], None)
    else
      CompareStep(CompareFrame(offenders, detections[..|detections| - 1], detectedAt, speedLimit, confidenceThreshold),
                  detections[|detections| - 1], detectedAt, speedLimit, confidenceThreshold)
  }

  /** A detection is captured when it qualifies and its identity has no entry yet or one not yet
      captured. */
  predicate Capturable(offenders: Offenders, d: Detection, speedLimit: real, confidenceThreshold: real)
  {
    Qualifies(d, speedLimit, confidenceThreshold) &&
    !(IdOf(d) in offenders && offenders[IdOf(d)].alreadyCaptured)
  }

  /** How far the loop acts: up to and including the capture, or the whole frame. */
  function Cut(p: Pass, n: nat): nat
  {
    if p.capturedAt.Some? then p.capturedAt.value + 1 else n
  }

  /** The capture is the first capturable detection of the frame (judged against the entries
      the frame started with), none is taken when there is no capturable detection, and only the
      captured detection is changed, by flagging it. */
  lemma CompareFrameCaptures(offenders: Offenders, detections: seq<Detection>, detectedAt: real, speedLimit: real, confidenceThreshold: real)
    ensures var p := CompareFrame(offenders, detections, detectedAt, speedLimit, confidenceThreshold);
      p.capturedAt.Some? ==>
        Capturable(offenders, detections[p.capturedAt.value], speedLimit, confidenceThreshold) &&
        forall i :: 0 <= i < p.capturedAt.value ==> !Capturable(offenders, detections[i], speedLimit, confidenceThreshold)
    ensures var p := CompareFrame(offenders, detections, detectedAt, speedLimit, confidenceThreshold);
      p.capturedAt.None? ==>
        forall i :: 0 <= i < |detections| ==> !Capturable(offenders, detections[i], speedLimit, confidenceThreshold)
    ensures var p := CompareFrame(offenders, detections, detectedAt, speedLimit, confidenceThreshold);
      forall i :: 0 <= i < |detections| ==>
        p.detections[i] == if p.capturedAt == Some(i) then CaptureOffense(detections[i]) else detections[i]
  {
    CompareFrameFirstCapture(offenders, detections, detectedAt, speedLimit, confidenceThreshold);
    CompareFrameNoCapture(offenders, detections, detectedAt, speedLimit, confidenceThreshold);
    CompareFrameOutputs(offenders, detections, detectedAt, speedLimit, confidenceThreshold);
  }

  /** With no capture taken yet, an identity counts as captured exactly when it did when the
      frame started. */
  lemma CapturedBeforeFrame(offenders: Offenders, detections: seq<Detection>, detectedAt: real, speedLimit: real, confidenceThreshold: real)
    requires |detections| > 0
    ensures var n := |detections| - 1;
      var q := CompareFrame(offenders, detections[..n], detectedAt, speedLimit, confidenceThreshold);
      var id := IdOf(detections[n]);
      q.capturedAt.None? ==>
        (id in q.offenders && q.offenders[id].alreadyCaptured <==> id in offenders && offenders[id].alreadyCaptured)
  {
    var n := |detections| - 1;
    CompareFrameFlags(offenders, detections[..n], detectedAt, speedLimit, confidenceThreshold);
    CompareFrameKeys(offenders, detections[..n], detectedAt, speedLimit, confidenceThreshold);
  }

  lemma {:induction false} CompareFrameNoCapture(offenders: Offenders, detections: seq<Detection>, detectedAt: real, speedLimit: real, confidenceThreshold: real)
    decreases |detections|
    ensures var p := CompareFrame(offenders, detections, detectedAt, speedLimit, confidenceThreshold);
      p.capturedAt.None? ==>
        forall i :: 0 <= i < |detections| ==> !Capturable(offenders, detections[i], speedLimit, confidenceThreshold)
  {
    if |detections| > 0 {
      var n := |detections| - 1;
      var prefix := detections[..n];
      CompareFrameNoCapture(offenders, prefix, detectedAt, speedLimit, confidenceThreshold);
      CapturedBeforeFrame(offenders, detections, detectedAt, speedLimit, confidenceThreshold);
      forall i | 0 <= i < n ensures detections[i] == prefix[i] {
      }
    }
  }

  lemma {:induction false} CompareFrameFirstCapture(offenders: Offenders, detections: seq<Detection>, detectedAt: real, speedLimit: real, confidenceThreshold: real)
    decreases |detections|
    ensures var p := CompareFrame(offenders, detections, detectedAt, speedLimit, confidenceThreshold);
      p.capturedAt.Some? ==>
        Capturable(offenders, detections[p.capturedAt.value], speedLimit, confidenceThreshold) &&
        forall i :: 0 <= i < p.capturedAt.value ==> !Capturable(offenders, detections[i], speedLimit, confidenceThreshold)
  {
    if |detections| > 0 {
      var n := |detections| - 1;
      var prefix := detections[..n];
      CompareFrameFirstCapture(offenders, prefix, detectedAt, speedLimit, confidenceThreshold);
      CompareFrameNoCapture(offenders, prefix, detectedAt, speedLimit, confidenceThreshold);
      CapturedBeforeFrame(offenders, detections, detectedAt, speedLimit, confidenceThreshold);
      forall i | 0 <= i < n ensures detections[i] == prefix[i] {
      }
    }
  }

  lemma {:induction false} CompareFrameOutputs(offenders: Offenders, detections: seq<Detection>, detectedAt: real, speedLimit: real, confidenceThreshold: real)
    decreases |detections|
    ensures var p := CompareFrame(offenders, detections, detectedAt, speedLimit, confidenceThreshold);
      forall i :: 0 <= i < |detections| ==>
        p.detections[i] == if p.capturedAt == Some(i) then CaptureOffense(detections[i]) else detections[i]
  {
    if |detections| > 0 {
      var n := |detections| - 1;
      var prefix := detections[..n];
      CompareFrameOutputs(offenders, prefix, detectedAt, speedLimit, confidenceThreshold);
      var q := CompareFrame(offenders, prefix, detectedAt, speedLimit, confidenceThreshold);
      var p := CompareFrame(offenders, detections, detectedAt, speedLimit, confidenceThreshold);
      assert p == CompareStep(q, detections[n], detectedAt, speedLimit, confidenceThreshold);
      forall i | 0 <= i < n ensures detections[i] == prefix[i] && p.detections[i] == q.detections[i] {
      }
    }
  }

  /** The entries after the loop: the identities of the qualifying detections up to the cut are
      added, and no entry is removed. */
  lemma {:induction false} CompareFrameKeys(offenders: Offenders, detections: seq<Detection>, detectedAt: real, speedLimit: real, confidenceThreshold: real)
    decreases |detections|
    ensures var p := CompareFrame(offenders, detections, detectedAt, speedLimit, confidenceThreshold);
      p.offenders.Keys == offenders.Keys + Touched(detections, Cut(p, |detections|), speedLimit, confidenceThreshold)
  {
    if |detections| == 0 {
      assert Touched(detections, 0, speedLimit, confidenceThreshold) == {};
    } else {
      var n := |detections| - 1;
      CompareFrameKeys(offenders, detections[..n], detectedAt, speedLimit, confidenceThreshold);
      StepCut(offenders, detections, detectedAt, speedLimit, confidenceThreshold);
    }
  }

  /** Relates the cut after the last detection to the cut before it. */
  lemma StepCut(offenders: Offenders, detections: seq<Detection>, detectedAt: real, speedLimit: real, confidenceThreshold: real)
    requires |detections| > 0
    ensures var n := |detections| - 1;
      var q := CompareFrame(offenders, detections[..n], detectedAt, speedLimit, confidenceThreshold);
      var p := CompareFrame(offenders, detections, detectedAt, speedLimit, confidenceThreshold);
      p == CompareStep(q, detections[n], detectedAt, speedLimit, confidenceThreshold) &&
      Touched(detections[..n], Cut(q, n), speedLimit, confidenceThreshold) ==
        Touched(detections, Cut(q, n), speedLimit, confidenceThreshold) &&
      (q.capturedAt.Some? ==>
        (Cut(p, n + 1) == Cut(q, n) &&
         detections[q.capturedAt.value] == detections[..n][q.capturedAt.value])) &&
      (q.capturedAt.None? ==>
        (Cut(q, n) == n && Cut(p, n + 1) == n + 1 &&
         Touched(detections, n + 1, speedLimit, confidenceThreshold) ==
           Touched(detections, n, speedLimit, confidenceThreshold) +
           (if Qualifies(detections[n], speedLimit, confidenceThreshold) then {IdOf(detections[n])} else {})))
  {
    var n := |detections| - 1;
    var q := CompareFrame(offenders, detections[..n], detectedAt, speedLimit, confidenceThreshold);
    TouchedPrefix(detections, Cut(q, n), speedLimit, confidenceThreshold);
    TouchedSnoc(detections, n, speedLimit, confidenceThreshold);
  }

  /** Every entry the loop touched was last detected now; every other entry is as it was. */
  lemma {:induction false} CompareFrameTimes(offenders: Offenders, detections: seq<Detection>, detectedAt: real, speedLimit: real, confidenceThreshold: real)
    decreases |detections|
    ensures var p := CompareFrame(offenders, detections, detectedAt, speedLimit, confidenceThreshold);
      forall id :: id in p.offenders ==>
        (if id in Touched(detections, Cut(p, |detections|), speedLimit, confidenceThreshold)
         then p.offenders[id].lastDetected == detectedAt
         else id in offenders && p.offenders[id] == offenders[id])
  {
    CompareFrameKeys(offenders, detections, detectedAt, speedLimit, confidenceThreshold);
    if |detections| == 0 {
      assert Touched(detections, 0, speedLimit, confidenceThreshold) == {};
    } else {
      var n := |detections| - 1;
      CompareFrameTimes(offenders, detections[..n], detectedAt, speedLimit, confidenceThreshold);
      StepCut(offenders, detections, detectedAt, speedLimit, confidenceThreshold);
    }
  }

  /** An entry is captured exactly when it was before the frame or it belongs to the captured
      detection. */
  lemma {:induction false} CompareFrameFlags(offenders: Offenders, detections: seq<Detection>, detectedAt: real, speedLimit: real, confidenceThreshold: real)
    decreases |detections|
    ensures var p := CompareFrame(offenders, detections, detectedAt, speedLimit, confidenceThreshold);
      forall id :: id in p.offenders ==>
        (p.offenders[id].alreadyCaptured <==>
          (id in offenders && offenders[id].alreadyCaptured) ||
          (p.capturedAt.Some? && id == IdOf(detections[p.capturedAt.value])))
  {
    if |detections| > 0 {
      var n := |detections| - 1;
      CompareFrameFlags(offenders, detections[..n], detectedAt, speedLimit, confidenceThreshold);
      CompareFrameKeys(offenders, detections[..n], detectedAt, speedLimit, confidenceThreshold);
      StepCut(offenders, detections, detectedAt, speedLimit, confidenceThreshold);
    }
  }

  /** The identities of the qualifying detections among the first `cut`. */
  function Touched(detections: seq<Detection>, cut: nat, speedLimit: real, confidenceThreshold: real): set<Option<int>>
  {
    set i | 0 <= i < |detections| && i < cut && Qualifies(detections[i], speedLimit, confidenceThreshold) :: IdOf(detections[i])
  }

  lemma TouchedPrefix(detections: seq<Detection>, cut: nat, speedLimit: real, confidenceThreshold: real)
    requires 0 < |detections| && cut < |detections|
    ensures Touched(detections[..|detections| - 1], cut, speedLimit, confidenceThreshold) ==
            Touched(detections, cut, speedLimit, confidenceThreshold)
  {
    var prefix := detections[..|detections| - 1];
    forall i | 0 <= i < |prefix| ensures prefix[i] == detections[i] {}
  }

  lemma TouchedSnoc(detections: seq<Detection>, n: nat, speedLimit: real, confidenceThreshold: real)
    requires n < |detections|
    ensures Touched(detections, n + 1, speedLimit, confidenceThreshold) ==
            Touched(detections, n, speedLimit, confidenceThreshold) +
            (if Qualifies(detections[n], speedLimit, confidenceThreshold) then {IdOf(detections[n])} else {})
  {
  }

  /** At most one detection per frame is captured: every other one is handed on unchanged. */
  lemma AtMostOneCapturePerFrame(offenders: Offenders, detections: seq<Detection>, detectedAt: real, speedLimit: real, confidenceThreshold: real, i: nat, j: nat)
    requires i < j < |detections|
    ensures var p := CompareFrame(offenders, detections, detectedAt, speedLimit, confidenceThreshold);
      p.detections[i] == detections[i] || p.detections[j] == detections[j]
  {
    CompareFrameCaptures(offenders, detections, detectedAt, speedLimit, confidenceThreshold);
  }

  /** An identity already captured is never captured again while its entry lasts. */
  lemma NoRecapture(offenders: Offenders, detections: seq<Detection>, detectedAt: real, speedLimit: real, confidenceThreshold: real)
    ensures var p := CompareFrame(offenders, detections, detectedAt, speedLimit, confidenceThreshold);
      p.capturedAt.Some? ==>
        var id := IdOf(detections[p.capturedAt.value]);
        !(id in offenders && offenders[id].alreadyCaptured) &&
        id in p.offenders && p.offenders[id] == Offender(detectedAt, true)
  {
    CompareFrameCaptures(offenders, detections, detectedAt, speedLimit, confidenceThreshold);
    CompareFrameKeys(offenders, detections, detectedAt, speedLimit, confidenceThreshold);
    CompareFrameTimes(offenders, detections, detectedAt, speedLimit, confidenceThreshold);
    CompareFrameFlags(offenders, detections, detectedAt, speedLimit, confidenceThreshold);
    var p := CompareFrame(offenders, detections, detectedAt, speedLimit, confidenceThreshold);
    if p.capturedAt.Some? {
      var k := p.capturedAt.value;
      assert k < Cut(p, |detections|);
      assert IdOf(detections[k]) in Touched(detections, Cut(p, |detections|), speedLimit, confidenceThreshold);
    }
  }

  /** An entry is stale when it was last detected more than the deregistration time ago. */
  predicate Stale(entry: Offender, updatedAt: real, deregistrationTime: real)
  {
    updatedAt - entry.lastDetected > deregistrationTime
  }

  /** `prune_outdated_objects` as a value. */
  function PruneOffenders(offenders: Offenders, updatedAt: real, deregistrationTime: real): (r: Offenders)
    ensures forall id :: id in r <==> id in offenders && !Stale(offenders[id], updatedAt, deregistrationTime)
    ensures forall id :: id in r ==> r[id] == offenders[id]
  {
    map id | id in offenders && !Stale(offenders[id], updatedAt, deregistrationTime) :: offenders[id]
  }

  /** Pruning twice at the same time prunes once, and an entry just detected survives whenever
      the deregistration time is not negative. */
  lemma PruneIdempotent(offenders: Offenders, updatedAt: real, deregistrationTime: real)
    ensures var once := PruneOffenders(offenders, updatedAt, deregistrationTime);
      PruneOffenders(once, updatedAt, deregistrationTime) == once
    ensures deregistrationTime >= 0.0 ==>
      forall id :: id in offenders && offenders[id].lastDetected == updatedAt ==>
        id in PruneOffenders(offenders, updatedAt, deregistrationTime)
  {
    var once := PruneOffenders(offenders, updatedAt, deregistrationTime);
    assert PruneOffenders(once, updatedAt, deregistrationTime).Keys == once.Keys;
  }

  /** `compare_speed` as a value: the frame's loop, then pruning at the same time. */
  function CompareSpeedOutcome(offenders: Offenders, detections: seq<Detection>, detectedAt: real,
                               speedLimit: real, deregistrationTime: real, confidenceThreshold: real): (Offenders, seq<Detection>)
  {
    var p := CompareFrame(offenders, detections, detectedAt, speedLimit, confidenceThreshold);
    (PruneOffenders(p.offenders, detectedAt, deregistrationTime), p.detections)
  }

  /** Across frames: once an identity is captured, a later frame captures it again only after
      its entry was pruned, that is, after it went unseen for longer than the deregistration
      time. */
  lemma CapturedIdentityRemembered(offenders: Offenders, detections: seq<Detection>, detectedAt: real,
                                   speedLimit: real, deregistrationTime: real, confidenceThreshold: real)
    requires deregistrationTime >= 0.0
    ensures var p := CompareFrame(offenders, detections, detectedAt, speedLimit, confidenceThreshold);
      var after := CompareSpeedOutcome(offenders, detections, detectedAt, speedLimit, deregistrationTime, confidenceThreshold).0;
      p.capturedAt.Some? ==>
        var id := IdOf(detections[p.capturedAt.value]);
        id in after && after[id].alreadyCaptured
  {
    NoRecapture(offenders, detections, detectedAt, speedLimit, confidenceThreshold);
  }

  /** An identity without an entry (never seen, or pruned) is captured again: a frame whose
      first qualifying detection carries it captures that detection and gives the identity a
      fresh, captured entry. */
  lemma PrunedIdentityCapturedAgain(offenders: Offenders, detections: seq<Detection>, detectedAt: real,
                                    speedLimit: real, confidenceThreshold: real, k: nat)
    requires k < |detections| && Qualifies(detections[k], speedLimit, confidenceThreshold)
    requires IdOf(detections[k]) !in offenders
    requires forall i :: 0 <= i < k ==> !Qualifies(detections[i], speedLimit, confidenceThreshold)
    ensures var p := CompareFrame(offenders, detections, detectedAt, speedLimit, confidenceThreshold);
      p.capturedAt == Some(k) && p.detections[k] == CaptureOffense(detections[k]) &&
      IdOf(detections[k]) in p.offenders && p.offenders[IdOf(detections[k])] == Offender(detectedAt, true)
  {
    CompareFrameCaptures(offenders, detections, detectedAt, speedLimit, confidenceThreshold);
    NoRecapture(offenders, detections, detectedAt, speedLimit, confidenceThreshold);
    var p := CompareFrame(offenders, detections, detectedAt, speedLimit, confidenceThreshold);
    assert Capturable(offenders, detections[k], speedLimit, confidenceThreshold);
    if p.capturedAt.Some? {
      var c := p.capturedAt.value;
      assert !(c < k);
      assert !(k < c);
    }
  }

  /** The `Captures` object: the speed limit, the deregistration time and the table of captured
      identities. */
  class Captures {
    const speedLimit: real
    const deregistrationTime: real
    var capturedOffenders: Offenders

    /** `__init__`, with the source's defaults: limit 0, entries kept for 12 seconds. */
    constructor(speedLimit: real := 0.0, deregistrationTime: real := 12.0)
      ensures this.speedLimit == speedLimit && this.deregistrationTime == deregistrationTime
      ensures capturedOffenders == map[]
    {
      this.speedLimit := speedLimit;
      this.deregistrationTime := deregistrationTime;
      capturedOffenders := map[];
    }

    /** `compare_speed` at clock reading `detectedAt`; the detector threshold the source imports
        from its settings is `confidenceThreshold`. */
    method CompareSpeed(detections: seq<Detection>, detectedAt: real, confidenceThreshold: real) returns (out: seq<Detection>)
      modifies this
      ensures (capturedOffenders, out) ==
        CompareSpeedOutcome(old(capturedOffenders), detections, detectedAt, speedLimit, deregistrationTime, confidenceThreshold)
    {
      var alreadyCaptured := false;
      out := [];
      var i := 0;
      while i < |detections|
        invariant 0 <= i <= |detections|
        invariant var p := CompareFrame(old(capturedOffenders), detections[..i], detectedAt, speedLimit, confidenceThreshold);
          capturedOffenders == p.offenders && out == p.detections && alreadyCaptured == p.capturedAt.Some?
      {
        var detection := detections[i];
        var id := IdOf(detection);
        var speed := detection.speed;
        var confidenceScore := detection.base.confidence;
        assert detections[..i + 1][..i] == detections[..i];
        if speed.Some? && speed.value > speedLimit && confidenceScore > confidenceThreshold && !alreadyCaptured {
          if id !in capturedOffenders {
            capturedOffenders := capturedOffenders[id := Offender(detectedAt, alreadyCaptured)];
          }
          capturedOffenders := capturedOffenders[id := capturedOffenders[id].(lastDetected := detectedAt)];
          if !capturedOffenders[id].alreadyCaptured {
            detection := CaptureOffense(detection);
            capturedOffenders := capturedOffenders[id := capturedOffenders[id].(alreadyCaptured := true)];
            alreadyCaptured := true;
          }
        }
        out := out + [detection];
        i := i + 1;
      }
      assert detections[..i] == detections;
      PruneOutdatedObjects(detectedAt);
    }

    /** `prune_outdated_objects`: collect the stale identities, then delete them. */
    method PruneOutdatedObjects(updatedAt: real)
      modifies this
      ensures capturedOffenders == PruneOffenders(old(capturedOffenders), updatedAt, deregistrationTime)
    {
      var staleDetections: set<Option<int>> := {};
      var pending := capturedOffenders.Keys;
      while pending != {}
        invariant pending <= capturedOffenders.Keys
        invariant capturedOffenders == old(capturedOffenders)
        invariant forall id :: id in staleDetections <==>
          id in capturedOffenders && id !in pending && Stale(capturedOffenders[id], updatedAt, deregistrationTime)
        decreases pending
      {
        var id :| id in pending;
        if updatedAt - capturedOffenders[id].lastDetected > deregistrationTime {
          staleDetections := staleDetections + {id};
        }
        pending := pending - {id};
      }
      var remaining := staleDetections;
      while remaining != {}
        invariant remaining <= staleDetections
        invariant capturedOffenders == old(capturedOffenders) - (staleDetections - remaining)
        decreases remaining
      {
        var id :| id in remaining;
        capturedOffenders := capturedOffenders - {id};
        remaining := remaining - {id};
      }
      assert capturedOffenders == old(capturedOffenders) - staleDetections;
    }
  }
}
