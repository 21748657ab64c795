/** The centroid tracker. It keeps a table of tracks keyed by integer ID, in insertion order, with
    a counter that hands out the next ID. Each frame it matches the frame's detections greedily
    against the table (first track in insertion order with the same class and a close smoothed
    center), updates or registers tracks, evicts stale tracks and drifts the stored centers along
    their velocity.

    The pure part (the `Registry` value and the functions over it) is the specification; the
    class `ObjectTracking` is the stateful tracker, whose methods are proved against it. */
module Tracking {
  import opened Wrappers
  import opened PySeq
  import opened Numeric
  import opened BboxUtils
  import opened Records

  /** One entry of `tracked_objects`. `velocityHistory` is empty until the first update creates it. */
  datatype Track = Track(
    center: Point,
    firstSeen: real,
    lastSeen: real,
    firstCenter: Point,
    prevCenter: Point,
    velocity: Point,
    classname: string,
    history: seq<Point>,
    velocityHistory: seq<Point>)

  /** The tracker's state: the table, the table's insertion order, and the ID counter. */
  datatype Registry = Registry(tracked: map<int, Track>, order: seq<int>, counter: nat)

  /** The constructor's parameters. */
  datatype Config = Config(threshold: real, deregistrationTime: real, maxHistory: nat)

  /** The velocity rolling window of `estimate_velocity`. */
  const RollingWindow: nat := 10

  /** The smoothing weight `update_tracker` uses when matching. */
  const MatchAlpha: real := 0.5

  predicate TrackValid(t: Track, cfg: Config)
  {
    && 1 <= |t.history|
    && (cfg.maxHistory >= 1 ==> |t.history| <= cfg.maxHistory)
    && |t.velocityHistory| <= RollingWindow
  }

  predicate StrictlyIncreasing(s: seq<int>)
  {
    forall i, j :: 0 <= i < j < |s| ==> s[i] < s[j]
  }

  /** The invariant the tracker keeps: the order lists each key once, in increasing (so
      registration) order; every key lies below the counter; every track is well formed. */
  predicate Valid(R: Registry, cfg: Config)
  {
    && StrictlyIncreasing(R.order)
    && (forall id :: id in R.tracked ==> id in R.order)
    && (forall j :: 0 <= j < |R.order| ==> R.order[j] in R.tracked)
    && (forall id :: id in R.tracked ==> 0 <= id < R.counter && TrackValid(R.tracked[id], cfg))
  }

  function Empty(): Registry { Registry(map[], [], 0) }

  lemma EmptyValid(cfg: Config)
    ensures Valid(Empty(), cfg)
  {
  }

  // ---------------------------------------------------------------- matching

  /** `smooth_center_points`: the per-axis blend `alpha * current + (1 - alpha) * previous`. */
  function SmoothCenterPoints(previous: Point, current: Point, alpha: real): (s: Point)
    ensures 0.0 <= alpha <= 1.0 ==> Between(s.x, current.x, previous.x) && Between(s.y, current.y, previous.y)
    ensures alpha == 0.0 ==> s == previous
    ensures alpha == 1.0 ==> s == current
  {
    BlendBetween(alpha, current.x, previous.x);
    BlendBetween(alpha, current.y, previous.y);
    Point(Blend(alpha, current.x, previous.x), Blend(alpha, current.y, previous.y))
  }

  /** The squared distance `match_detection_center_points` compares with the threshold. */
  function MatchDistance(stored: Point, c: Point): real
  {
    var previousSmoothed := SmoothCenterPoints(stored, c, MatchAlpha);
    var currentSmoothed := SmoothCenterPoints(previousSmoothed, c, MatchAlpha);
    MeasureEuclideanDistance(currentSmoothed, previousSmoothed)
  }

  /** With the weight 0.5 the two smoothed points lie a quarter of the way apart, so the compared
      squared distance is a sixteenth of the raw one. */
  lemma MatchDistanceIsSixteenth(stored: Point, c: Point)
    ensures MatchDistance(stored, c) == MeasureEuclideanDistance(c, stored) / 16.0
  {
    var dx, dy := c.x - stored.x, c.y - stored.y;
    var ps := SmoothCenterPoints(stored, c, MatchAlpha);
    var cs := SmoothCenterPoints(ps, c, MatchAlpha);
    assert cs.x - ps.x == 0.25 * dx;
    assert cs.y - ps.y == 0.25 * dy;
    assert (0.25 * dx) * (0.25 * dx) == (dx * dx) / 16.0;
    assert (0.25 * dy) * (0.25 * dy) == (dy * dy) / 16.0;
  }

  predicate IsMatch(t: Track, classname: string, c: Point, threshold: real)
  {
    classname == t.classname && MatchDistance(t.center, c) <= threshold * threshold
  }

  /** The position in `order` of the first track that matches, or `|order|` when none does. */
  function MatchIndex(tracked: map<int, Track>, order: seq<int>, classname: string, c: Point, threshold: real): (k: nat)
    requires forall j :: 0 <= j < |order| ==> order[j] in tracked
    ensures k <= |order|
    ensures forall j :: 0 <= j < k ==> !IsMatch(tracked[order[j]], classname, c, threshold)
    ensures k < |order| ==> IsMatch(tracked[order[k]], classname, c, threshold)
    decreases |order|
  {
    if |order| == 0 then 0
    else if IsMatch(tracked[order[0]], classname, c, threshold) then 0
    else 1 + MatchIndex(tracked, order[1..], classname, c, threshold)
  }

  /** The ID `match_detection_center_points` returns for a detection of class `classname`
      centred at `c`. */
  function MatchedId(R: Registry, cfg: Config, classname: string, c: Point): Option<int>
    requires Valid(R, cfg)
  {
    var k := MatchIndex(R.tracked, R.order, classname, c, cfg.threshold);
    if k < |R.order| then Some(R.order[k]) else None
  }

  /** The returned ID is a track of the same class within the threshold, every track registered
      before it fails to match, and None means that no track matches. */
  lemma MatchedIdIsFirstFit(R: Registry, cfg: Config, classname: string, c: Point)
    requires Valid(R, cfg)
    ensures var m := MatchedId(R, cfg, classname, c);
      && (m.Some? ==>
            && m.value in R.tracked
            && R.tracked[m.value].classname == classname
            && MeasureEuclideanDistance(c, R.tracked[m.value].center) / 16.0 <= cfg.threshold * cfg.threshold
            && forall id :: id in R.tracked && id < m.value ==> !IsMatch(R.tracked[id], classname, c, cfg.threshold))
      && (m.None? ==> forall id :: id in R.tracked ==> !IsMatch(R.tracked[id], classname, c, cfg.threshold))
  {
    var k := MatchIndex(R.tracked, R.order, classname, c, cfg.threshold);
    if k < |R.order| {
      MatchDistanceIsSixteenth(R.tracked[R.order[k]].center, c);
      forall id | id in R.tracked && id < R.order[k]
        ensures !IsMatch(R.tracked[id], classname, c, cfg.threshold)
      {
        var j :| 0 <= j < |R.order| && R.order[j] == id;
        assert j < k;
      }
    } else {
      forall id | id in R.tracked
        ensures !IsMatch(R.tracked[id], classname, c, cfg.threshold)
      {
        var j :| 0 <= j < |R.order| && R.order[j] == id;
      }
    }
  }

  // ---------------------------------------------------------------- registration and update

  /** The record `register_detection` stores. */
  function FreshTrack(c: Point, now: real, classname: string): Track
  {
    Track(c, now, now, c, c, Point(0.0, 0.0), classname, [c], [])
  }

  /** `register_detection` followed by the counter increment of `update_tracker`. */
  function Register(R: Registry, d: Detection, now: real): Registry
  {
    var c := CalculateCenterPoint(d.base.box);
    Registry(R.tracked[R.counter := FreshTrack(c, now, d.base.classname)], R.order + [R.counter], R.counter + 1)
  }

  /** Append a point and keep the last `max` entries once there are more than `max`
      (`[-0:]` keeps them all). */
  function AppendBounded(history: seq<Point>, c: Point, max: nat): (h: seq<Point>)
    ensures 1 <= |h| <= |history| + 1 && h[|h| - 1] == c
    ensures max >= 1 && |history| <= max ==> |h| <= max
  {
    var appended := history + [c];
    if |appended| > max then TakeLast(appended, max) else appended
  }

  /** `velocity_history.append(v)` followed by one `pop(0)` when the list is longer than `window`. */
  function PushVelocity(history: seq<Point>, v: Point, window: nat): (h: seq<Point>)
    ensures |h| <= |history| + 1
    ensures window >= 1 ==> |h| >= 1 && h[|h| - 1] == v
    ensures |history| <= window ==> |h| <= window
  {
    var appended := history + [v];
    if |appended| > window then appended[1..] else appended
  }

  /** The bounded history is what the append gives, less some of its oldest entries. */
  lemma AppendBoundedIsSuffix(history: seq<Point>, c: Point, max: nat)
    ensures var h := AppendBounded(history, c, max);
      h == (history + [c])[|history| + 1 - |h|..]
  {
  }

  /** The windowed velocity history is what the append gives, less at most its oldest entry. */
  lemma PushVelocityIsSuffix(history: seq<Point>, v: Point, window: nat)
    ensures var h := PushVelocity(history, v, window);
      |h| >= |history| && h == (history + [v])[|history| + 1 - |h|..]
  {
  }

  function Xs(s: seq<Point>): seq<real> { seq(|s|, i requires 0 <= i < |s| => s[i].x) }
  function Ys(s: seq<Point>): seq<real> { seq(|s|, i requires 0 <= i < |s| => s[i].y) }

  /** `np.mean(history, axis=0)`. */
  function MeanPoint(s: seq<Point>): Point
    requires |s| > 0
  {
    Point(Sum(Xs(s)) / |s| as real, Sum(Ys(s)) / |s| as real)
  }

  /** A list of one repeated value averages to that value. */
  lemma MeanOfConstantAxis(xs: seq<real>, x: real)
    requires |xs| > 0
    requires forall i :: 0 <= i < |xs| ==> xs[i] == x
    ensures Sum(xs) / |xs| as real == x
  {
    var n := |xs| as real;
    SumConstant(xs, x);
    assert Sum(xs) == n * x;
    DivideBack(n, x);
  }

  lemma DivideBack(n: real, x: real)
    requires n > 0.0
    ensures (n * x) / n == x
  {
  }

  /** A history of one repeated velocity averages to that velocity. */
  lemma MeanOfConstant(s: seq<Point>, v: Point)
    requires |s| > 0
    requires forall i :: 0 <= i < |s| ==> s[i] == v
    ensures MeanPoint(s) == v
  {
    var xs, ys := Xs(s), Ys(s);
    assert forall i :: 0 <= i < |xs| ==> xs[i] == s[i].x;
    assert forall i :: 0 <= i < |ys| ==> ys[i] == s[i].y;
    MeanOfConstantAxis(xs, v.x);
    MeanOfConstantAxis(ys, v.y);
  }

  /** The mean velocity lies within the per-axis range of the history. */
  lemma MeanWithinBounds(s: seq<Point>, lo: Point, hi: Point)
    requires |s| > 0
    requires forall i :: 0 <= i < |s| ==> lo.x <= s[i].x <= hi.x && lo.y <= s[i].y <= hi.y
    ensures lo.x <= MeanPoint(s).x <= hi.x && lo.y <= MeanPoint(s).y <= hi.y
  {
    var xs, ys := Xs(s), Ys(s);
    assert forall i :: 0 <= i < |xs| ==> xs[i] == s[i].x;
    assert forall i :: 0 <= i < |ys| ==> ys[i] == s[i].y;
    MeanBounds(xs, lo.x, hi.x);
    MeanBounds(ys, lo.y, hi.y);
  }

  /** The record after `update_tracked_objects`: history appended and bounded, velocity
      history pushed, the velocity its mean, and center, previous center and last-seen renewed. */
  function UpdatedTrack(cfg: Config, t: Track, c: Point, now: real): Track
  {
    var vh := PushVelocity(t.velocityHistory, Point(c.x - t.prevCenter.x, c.y - t.prevCenter.y), RollingWindow);
    t.(center := c, lastSeen := now, velocity := MeanPoint(vh), prevCenter := c,
       history := AppendBounded(t.history, c, cfg.maxHistory), velocityHistory := vh)
  }

  /** What an update promises about the record: it stays well formed, its history ends with the
      new center, its newest velocity sample is the displacement from the last observed (not
      drifted) center, its velocity is the mean of its samples, and its first sighting and
      class are untouched. */
  lemma UpdatedTrackProperties(cfg: Config, t: Track, c: Point, now: real)
    requires TrackValid(t, cfg)
    ensures var u := UpdatedTrack(cfg, t, c, now);
      && TrackValid(u, cfg)
      && u.history[|u.history| - 1] == c
      && u.velocityHistory[|u.velocityHistory| - 1] == Point(c.x - t.prevCenter.x, c.y - t.prevCenter.y)
      && u.velocity == MeanPoint(u.velocityHistory)
      && u.center == u.prevCenter == c && u.lastSeen == now
      && u.firstSeen == t.firstSeen && u.firstCenter == t.firstCenter && u.classname == t.classname
  {
    var vh := PushVelocity(t.velocityHistory, Point(c.x - t.prevCenter.x, c.y - t.prevCenter.y), RollingWindow);
    var h := AppendBounded(t.history, c, cfg.maxHistory);
    UpdatedTrackHistories(cfg, t, c, now, vh, h);
  }

  lemma UpdatedTrackHistories(cfg: Config, t: Track, c: Point, now: real, vh: seq<Point>, h: seq<Point>)
    requires TrackValid(t, cfg)
    requires vh == PushVelocity(t.velocityHistory, Point(c.x - t.prevCenter.x, c.y - t.prevCenter.y), RollingWindow)
    requires h == AppendBounded(t.history, c, cfg.maxHistory)
    ensures 1 <= |h| && (cfg.maxHistory >= 1 ==> |h| <= cfg.maxHistory) && h[|h| - 1] == c
    ensures 1 <= |vh| <= RollingWindow && vh[|vh| - 1] == Point(c.x - t.prevCenter.x, c.y - t.prevCenter.y)
  {
    UpdatedTrackShape(cfg, t, c, now, vh, h);
  }

  lemma UpdatedTrackShape(cfg: Config, t: Track, c: Point, now: real, vh: seq<Point>, h: seq<Point>)
    requires vh == PushVelocity(t.velocityHistory, Point(c.x - t.prevCenter.x, c.y - t.prevCenter.y), RollingWindow)
    requires h == AppendBounded(t.history, c, cfg.maxHistory)
    ensures UpdatedTrack(cfg, t, c, now) == t.(center := c, lastSeen := now, velocity := MeanPoint(vh), prevCenter := c,
                                               history := h, velocityHistory := vh)
  {
  }

  /** The keys `update_tracked_objects` writes into the matched detection. The history is the
      record's pre-update list, which the append reaches through aliasing and the truncation
      leaves behind, so it is the old history plus the new center. */
  function Annotated(d: Detection, id: int, t: Track, u: Track, c: Point, now: real): Detection
  {
    d.(tracking := Some(TrackInfo(id, u.velocity, t.firstSeen, t.lastSeen, now, t.firstCenter, t.prevCenter, c, t.history + [c])))
  }

  datatype StepResult = StepResult(registry: Registry, emitted: Option<Detection>)

  /** One iteration of the detection loop of `update_tracker`. A match on ID 0 is falsy in
      Python, so it registers a new track exactly as no match does. */
  function Step(cfg: Config, R: Registry, d: Detection, now: real): (s: StepResult)
    requires Valid(R, cfg)
    ensures Valid(s.registry, cfg)
  {
    var c := CalculateCenterPoint(d.base.box);
    var m := MatchedId(R, cfg, d.base.classname, c);
    if m.Some? && m.value != 0 then
      var t := R.tracked[m.value];
      var u := UpdatedTrack(cfg, t, c, now);
      UpdatedTrackProperties(cfg, t, c, now);
      ReplaceValid(cfg, R, m.value, u);
      StepResult(R.(tracked := R.tracked[m.value := u]), Some(Annotated(d, m.value, t, u, c, now)))
    else
      RegisterValid(cfg, R, d, now);
      StepResult(Register(R, d, now), None)
  }

  lemma ReplaceValid(cfg: Config, R: Registry, id: int, u: Track)
    requires Valid(R, cfg) && id in R.tracked && TrackValid(u, cfg)
    ensures Valid(R.(tracked := R.tracked[id := u]), cfg)
  {
  }

  /** Registration keeps the invariant: the counter is above every key, so the new key is new
      and extends the order at its top. */
  lemma RegisterValid(cfg: Config, R: Registry, d: Detection, now: real)
    requires Valid(R, cfg)
    ensures Valid(Register(R, d, now), cfg)
  {
    var N := Register(R, d, now);
    forall j | 0 <= j < |R.order| ensures R.order[j] < R.counter {
      assert R.order[j] in R.tracked;
    }
    SnocIncreasing(R.order, R.counter);
    forall j | 0 <= j < |N.order| ensures N.order[j] in N.tracked {
      if j < |R.order| { assert N.order[j] == R.order[j]; }
    }
    assert TrackValid(N.tracked[R.counter], cfg);
  }

  lemma SnocIncreasing(s: seq<int>, x: int)
    requires StrictlyIncreasing(s)
    requires forall j :: 0 <= j < |s| ==> s[j] < x
    ensures StrictlyIncreasing(s + [x])
  {
    forall i, j | 0 <= i < j < |s + [x]| ensures (s + [x])[i] < (s + [x])[j] {
      assert (s + [x])[i] == s[i];
    }
  }

  datatype Outcome = Outcome(registry: Registry, parsed: seq<Detection>)

  /** The detection loop of `update_tracker` over a whole frame. */
  function Frame(cfg: Config, R: Registry, dets: seq<Detection>, now: real): (o: Outcome)
    requires Valid(R, cfg)
    ensures Valid(o.registry, cfg)
    decreases |dets|
  {
    if |dets| == 0 then Outcome(R, [])
    else
      var o := Frame(cfg, R, dets[..|dets| - 1], now);
      var s := Step(cfg, o.registry, dets[|dets| - 1], now);
      Outcome(s.registry, o.parsed + if s.emitted.Some? then [s.emitted.value] else [])
  }

  /** What one step promises: either the detection is returned with the ID of an existing, non-zero
      track and the ID counter stays, or it is registered under the counter value, the counter
      grows by one and nothing is returned. No track is ever removed. */
  lemma {:induction false} StepEffect(cfg: Config, R: Registry, d: Detection, now: real)
    requires Valid(R, cfg)
    ensures var s := Step(cfg, R, d, now);
      && R.tracked.Keys <= s.registry.tracked.Keys
      && (s.emitted.Some? ==>
            && s.registry.counter == R.counter && s.registry.order == R.order
            && s.emitted.value.tracking.Some?
            && s.emitted.value.tracking.value.id != 0
            && s.emitted.value.tracking.value.id in R.tracked
            && s.emitted.value.tracking.value.currentTimestamp == now
            && s.emitted.value.tracking.value.previousTimestamp == R.tracked[s.emitted.value.tracking.value.id].lastSeen)
      && (s.emitted.None? ==>
            && s.registry.counter == R.counter + 1 && s.registry.order == R.order + [R.counter]
            && s.registry.tracked == R.tracked[R.counter := FreshTrack(CalculateCenterPoint(d.base.box), now, d.base.classname)])
  {
    var c := CalculateCenterPoint(d.base.box);
    MatchedIdIsFirstFit(R, cfg, d.base.classname, c);
  }

  /** A detection whose first match is the track with ID 0 is registered as a new track and not
      returned, and track 0 keeps its record. */
  lemma MatchOnZeroRegisters(cfg: Config, R: Registry, d: Detection, now: real)
    requires Valid(R, cfg)
    requires MatchedId(R, cfg, d.base.classname, CalculateCenterPoint(d.base.box)) == Some(0)
    ensures var s := Step(cfg, R, d, now);
      && s.emitted.None?
      && s.registry.counter == R.counter + 1
      && 0 in s.registry.tracked && s.registry.tracked[0] == R.tracked[0]
  {
    var c := CalculateCenterPoint(d.base.box);
    MatchedIdIsFirstFit(R, cfg, d.base.classname, c);
  }

  /** The consecutive IDs `lo, lo + 1, ..., hi - 1`. */
  function Interval(lo: nat, hi: nat): (r: seq<int>)
    requires lo <= hi
  {
    seq(hi - lo, i requires 0 <= i < hi - lo => lo + i)
  }

  /** Over a frame, every detection is either returned or registered: the counter grows by the
      number not returned, and the order grows by exactly the IDs from the old to the new
      counter. */
  lemma {:induction false} FrameRegistrations(cfg: Config, R: Registry, dets: seq<Detection>, now: real)
    requires Valid(R, cfg)
    ensures var o := Frame(cfg, R, dets, now);
      && |o.parsed| <= |dets|
      && o.registry.counter == R.counter + |dets| - |o.parsed|
      && o.registry.order == R.order + Interval(R.counter, o.registry.counter)
    decreases |dets|
  {
    if |dets| == 0 {
      assert Interval(R.counter, R.counter) == [];
      assert R.order + [] == R.order;
    } else {
      var init := dets[..|dets| - 1];
      FrameRegistrations(cfg, R, init, now);
      var o := Frame(cfg, R, init, now);
      var s := Step(cfg, o.registry, dets[|dets| - 1], now);
      StepEffect(cfg, o.registry, dets[|dets| - 1], now);
      var F := Frame(cfg, R, dets, now);
      assert F.registry == s.registry;
      assert |F.parsed| == |o.parsed| + if s.emitted.Some? then 1 else 0;
      RegistrationsStep(R.order, R.counter, |init|, o.registry.order, o.registry.counter, |o.parsed|,
                        s.emitted.Some?, F.registry.order, F.registry.counter, |F.parsed|);
    }
  }

  /** The counting behind one more detection: returned, nothing is registered; registered, the
      order gains the counter value and the counter grows by one. */
  lemma RegistrationsStep(order: seq<int>, counter: nat, n: nat, order0: seq<int>, counter0: nat, parsed0: nat,
                          returned: bool, order1: seq<int>, counter1: nat, parsed1: nat)
    requires parsed0 <= n && counter <= counter0 && counter0 == counter + n - parsed0
    requires order0 == order + Interval(counter, counter0)
    requires returned ==> order1 == order0 && counter1 == counter0 && parsed1 == parsed0 + 1
    requires !returned ==> order1 == order0 + [counter0] && counter1 == counter0 + 1 && parsed1 == parsed0
    ensures parsed1 <= n + 1 && counter1 == counter + (n + 1) - parsed1
    ensures order1 == order + Interval(counter, counter1)
  {
    if !returned {
      assert Interval(counter, counter0) + [counter0] == Interval(counter, counter1);
      assert order1 == order + (Interval(counter, counter0) + [counter0]);
    }
  }

  /** No track goes away during a frame, and every returned detection carries the ID of a
      non-zero track that still exists, stamped with this frame's time. */
  lemma {:induction false} FrameReturnsTracked(cfg: Config, R: Registry, dets: seq<Detection>, now: real)
    requires Valid(R, cfg)
    ensures var o := Frame(cfg, R, dets, now);
      && R.tracked.Keys <= o.registry.tracked.Keys
      && (forall i :: 0 <= i < |o.parsed| ==> Stamped(o.parsed[i], o.registry, now))
    decreases |dets|
  {
    if |dets| > 0 {
      var init := dets[..|dets| - 1];
      FrameReturnsTracked(cfg, R, init, now);
      var o := Frame(cfg, R, init, now);
      var s := Step(cfg, o.registry, dets[|dets| - 1], now);
      StepEffect(cfg, o.registry, dets[|dets| - 1], now);
      var emitted := if s.emitted.Some? then [s.emitted.value] else [];
      forall i | 0 <= i < |o.parsed + emitted|
        ensures Stamped((o.parsed + emitted)[i], s.registry, now)
      {
        if i < |o.parsed| {
          assert (o.parsed + emitted)[i] == o.parsed[i];
        }
      }
    }
  }

  /** A returned detection carries a non-zero ID present in the table and this frame's time. */
  predicate Stamped(d: Detection, R: Registry, now: real)
  {
    && d.tracking.Some?
    && d.tracking.value.id != 0
    && d.tracking.value.id in R.tracked
    && d.tracking.value.currentTimestamp == now
  }

  // ---------------------------------------------------------------- eviction and drift

  /** The IDs `prune_outdated_detections` deletes at time `now`. Its `ID not in parsed_detections`
      test compares an integer with a list of dictionaries, so it always holds and drops out. */
  function StaleIds(cfg: Config, R: Registry, now: real): set<int>
  {
    set id | id in R.tracked && now - R.tracked[id].lastSeen > cfg.deregistrationTime
  }

  /** The sequence without the elements of `removed`, in the same order. */
  function Keep(s: seq<int>, removed: set<int>): (r: seq<int>)
    ensures forall x :: x in r <==> x in s && x !in removed
    ensures |r| <= |s|
  {
    if |s| == 0 then []
    else if s[0] in removed then Keep(s[1..], removed)
    else [s[0]] + Keep(s[1..], removed)
  }

  lemma {:induction false} KeepIncreasing(s: seq<int>, removed: set<int>)
    requires StrictlyIncreasing(s)
    ensures StrictlyIncreasing(Keep(s, removed))
  {
    if |s| > 0 {
      KeepIncreasing(s[1..], removed);
      var rest := Keep(s[1..], removed);
      forall x | x in rest ensures s[0] < x {
        var j :| 0 <= j < |s[1..]| && s[1..][j] == x;
        assert s[j + 1] == x;
      }
      if s[0] !in removed {
        var r := [s[0]] + rest;
        forall i, j | 0 <= i < j < |r| ensures r[i] < r[j] {
          assert r[j] == rest[j - 1];
          if i > 0 {
            assert r[i] == rest[i - 1];
          } else {
            assert rest[j - 1] in rest;
          }
        }
      }
    }
  }

  lemma {:induction false} KeepNothing(s: seq<int>)
    ensures Keep(s, {}) == s
  {
    if |s| > 0 {
      KeepNothing(s[1..]);
    }
  }

  lemma {:induction false} KeepTwice(s: seq<int>, removed: set<int>, x: int)
    ensures Keep(Keep(s, removed), {x}) == Keep(s, removed + {x})
  {
    if |s| > 0 {
      KeepTwice(s[1..], removed, x);
      if s[0] !in removed {
        assert Keep(s, removed)[1..] == Keep(s[1..], removed);
      }
    }
  }

  /** `prune_outdated_detections`. */
  function Prune(cfg: Config, R: Registry, now: real): Registry
  {
    var stale := StaleIds(cfg, R, now);
    R.(tracked := R.tracked - stale, order := Keep(R.order, stale))
  }

  /** Pruning deletes exactly the tracks unseen for longer than the deregistration time, leaves
      every other record as it was, and keeps the invariant. */
  lemma PruneEffect(cfg: Config, R: Registry, now: real)
    requires Valid(R, cfg)
    ensures var P := Prune(cfg, R, now);
      && Valid(P, cfg)
      && P.counter == R.counter
      && (forall id :: id in P.tracked <==> id in R.tracked && now - R.tracked[id].lastSeen <= cfg.deregistrationTime)
      && (forall id :: id in P.tracked ==> P.tracked[id] == R.tracked[id])
  {
    var stale := StaleIds(cfg, R, now);
    KeepIncreasing(R.order, stale);
    var kept := Keep(R.order, stale);
    forall j | 0 <= j < |kept| ensures kept[j] in R.tracked - stale {
      assert kept[j] in kept;
    }
  }

  /** `apply_velocity_estimations` on one record. */
  /** A point moved along a velocity for a time. */
  function Displaced(p: Point, v: Point, elapsed: real): Point
  {
    Point(p.x + v.x * elapsed, p.y + v.y * elapsed)
  }

  function DriftTrack(cfg: Config, t: Track, now: real): Track
  {
    var elapsed := now - t.lastSeen;
    if elapsed <= cfg.deregistrationTime then t.(center := Displaced(t.center, t.velocity, elapsed)) else t
  }

  function Drift(cfg: Config, R: Registry, now: real): Registry
  {
    R.(tracked := map id | id in R.tracked :: DriftTrack(cfg, R.tracked[id], now))
  }

  /** Drift moves only a record's stored center, by velocity times elapsed time, and only when
      the elapsed time is within the deregistration time; the table, its order, the counter and
      the invariant stay. */
  lemma DriftEffect(cfg: Config, R: Registry, now: real)
    requires Valid(R, cfg)
    ensures var D := Drift(cfg, R, now);
      && Valid(D, cfg)
      && D.tracked.Keys == R.tracked.Keys && D.order == R.order && D.counter == R.counter
      && (forall id :: id in D.tracked ==>
            var t, e := R.tracked[id], now - R.tracked[id].lastSeen;
            && D.tracked[id] == t.(center := D.tracked[id].center)
            && (e <= cfg.deregistrationTime ==> D.tracked[id].center == Point(t.center.x + t.velocity.x * e, t.center.y + t.velocity.y * e))
            && (e > cfg.deregistrationTime ==> D.tracked[id].center == t.center))
  {
  }

  /** `update_tracker`: the frame's loop, then pruning at the second clock reading, then drift at
      the third. */
  function UpdateTrackerOutcome(cfg: Config, R: Registry, dets: seq<Detection>, now: real, pruneTime: real, driftTime: real): (o: Outcome)
    requires Valid(R, cfg)
    ensures Valid(o.registry, cfg)
  {
    var f := Frame(cfg, R, dets, now);
    PruneEffect(cfg, f.registry, pruneTime);
    DriftEffect(cfg, Prune(cfg, f.registry, pruneTime), driftTime);
    Outcome(Drift(cfg, Prune(cfg, f.registry, pruneTime), driftTime), f.parsed)
  }

  /** IDs are never reused: after any frame, every ID ever handed out lies below the counter,
      and the counter never goes down, so a later registration gets an ID no earlier track had. */
  lemma UpdateTrackerNeverReusesIds(cfg: Config, R: Registry, dets: seq<Detection>, now: real, pruneTime: real, driftTime: real)
    requires Valid(R, cfg)
    ensures var o := UpdateTrackerOutcome(cfg, R, dets, now, pruneTime, driftTime);
      && o.registry.counter >= R.counter
      && (forall id :: id in o.registry.tracked ==> id in R.tracked || R.counter <= id < o.registry.counter)
  {
    var f := Frame(cfg, R, dets, now);
    FrameNeverReusesIds(cfg, R, dets, now);
    PruneEffect(cfg, f.registry, pruneTime);
    DriftEffect(cfg, Prune(cfg, f.registry, pruneTime), driftTime);
  }

  /** The frame loop on its own: the counter never goes down and every track it holds is an
      old one or was registered under an ID between the old and the new counter. */
  lemma FrameNeverReusesIds(cfg: Config, R: Registry, dets: seq<Detection>, now: real)
    requires Valid(R, cfg)
    ensures var f := Frame(cfg, R, dets, now);
      && f.registry.counter >= R.counter
      && (forall id :: id in f.registry.tracked ==> id in R.tracked || R.counter <= id < f.registry.counter)
  {
    FrameRegistrations(cfg, R, dets, now);
    var f := Frame(cfg, R, dets, now);
    forall id | id in f.registry.tracked
      ensures id in R.tracked || R.counter <= id < f.registry.counter
    {
      var k :| 0 <= k < |f.registry.order| && f.registry.order[k] == id;
      if k < |R.order| {
        assert f.registry.order[..|R.order|][k] == id;
      }
    }
  }

  /** The table part-way through `apply_velocity_estimations`: the records of `done` drifted,
      every other record as it was. */
  predicate DriftedPrefix(cfg: Config, before: map<int, Track>, m: map<int, Track>, done: seq<int>, now: real)
  {
    && m.Keys == before.Keys
    && forall id :: id in m ==> m[id] == if id in done then DriftTrack(cfg, before[id], now) else before[id]
  }

  lemma DriftedPrefixStep(cfg: Config, before: map<int, Track>, m: map<int, Track>, m': map<int, Track>,
                          done: seq<int>, id: int, now: real)
    requires DriftedPrefix(cfg, before, m, done, now) && id in m && id !in done
    requires m'.Keys == m.Keys && m'[id] == DriftTrack(cfg, before[id], now)
    requires forall k :: k in m && k != id ==> m'[k] == m[k]
    ensures DriftedPrefix(cfg, before, m', done + [id], now)
  {
  }

  /** The IDs a list holds. */
  function Elems(s: seq<int>): set<int>
  {
    set x | x in s
  }

  lemma ElemsSnoc(s: seq<int>, x: int)
    ensures Elems(s + [x]) == Elems(s) + {x}
  {
  }

  lemma NotInPrefix(s: seq<int>, i: nat)
    requires StrictlyIncreasing(s) && i < |s|
    ensures s[i] !in s[..i]
  {
  }

  lemma UpdateTwice<K, V>(m: map<K, V>, k: K, a: V, b: V)
    ensures m[k := a][k := b] == m[k := b]
  {
  }

  // ---------------------------------------------------------------- the stateful tracker

  class ObjectTracking {
    var trackedObjects: map<int, Track>
    var order: seq<int>
    var idCounter: nat
    const euclideanDistanceThreshold: real
    const deregistrationTime: real
    const maxCenterPointHistoryLength: nat

    function Abs(): Registry
      reads this
    {
      Registry(trackedObjects, order, idCounter)
    }

    function Cfg(): Config
    {
      Config(euclideanDistanceThreshold, deregistrationTime, maxCenterPointHistoryLength)
    }

    ghost predicate Inv()
      reads this
    {
      Valid(Abs(), Cfg())
    }

    constructor (euclideanDistanceThreshold: real := 65.0, deregistrationTime: real := 5.0, maxCenterPointHistoryLength: nat := 25)
      ensures Inv() && Abs() == Empty()
      ensures Cfg() == Config(euclideanDistanceThreshold, deregistrationTime, maxCenterPointHistoryLength)
    {
      trackedObjects := map[];
      order := [];
      idCounter := 0;
      this.euclideanDistanceThreshold := euclideanDistanceThreshold;
      this.deregistrationTime := deregistrationTime;
      this.maxCenterPointHistoryLength := maxCenterPointHistoryLength;
    }

    /** `match_detection_center_points`: scan the table in insertion order and return the
        first matching ID. */
    method MatchDetectionCenterPoints(d: Detection) returns (id: Option<int>)
      requires Inv()
      ensures id == MatchedId(Abs(), Cfg(), d.base.classname, CalculateCenterPoint(d.base.box))
    {
      var c := CalculateCenterPoint(d.base.box);
      var i := 0;
      while i < |order|
        invariant 0 <= i <= |order|
        invariant forall j :: 0 <= j < i ==> !IsMatch(trackedObjects[order[j]], d.base.classname, c, euclideanDistanceThreshold)
      {
        var previous := trackedObjects[order[i]];
        var previousSmoothed := SmoothCenterPoints(previous.center, c, MatchAlpha);
        var currentSmoothed := SmoothCenterPoints(previousSmoothed, c, MatchAlpha);
        var distanceSquared := MeasureEuclideanDistance(currentSmoothed, previousSmoothed);
        if d.base.classname == previous.classname && distanceSquared <= euclideanDistanceThreshold * euclideanDistanceThreshold {
          return Some(order[i]);
        }
        i := i + 1;
      }
      return None;
    }

    /** `register_detection`: store a fresh record under the current counter value. */
    method RegisterDetection(d: Detection, now: real)
      requires Inv()
      modifies this
      ensures trackedObjects == old(trackedObjects)[old(idCounter) := FreshTrack(CalculateCenterPoint(d.base.box), now, d.base.classname)]
      ensures order == old(order) + [old(idCounter)] && idCounter == old(idCounter)
    {
      var c := CalculateCenterPoint(d.base.box);
      trackedObjects := trackedObjects[idCounter := Track(c, now, now, c, c, Point(0.0, 0.0), d.base.classname, [c], [])];
      order := order + [idCounter];
    }

    /** `estimate_velocity`: push the displacement from the last observed center into the
        record's velocity history and return the history's mean. */
    method EstimateVelocity(c: Point, id: int, rollingWindow: nat := 10) returns (v: Point)
      requires id in trackedObjects && rollingWindow >= 1
      modifies this
      ensures var t := old(trackedObjects[id]);
        var vh := PushVelocity(t.velocityHistory, Point(c.x - t.prevCenter.x, c.y - t.prevCenter.y), rollingWindow);
        && trackedObjects == old(trackedObjects)[id := t.(velocityHistory := vh)]
        && v == MeanPoint(vh)
      ensures order == old(order) && idCounter == old(idCounter)
    {
      var record := trackedObjects[id];
      var previousCenter := record.prevCenter;
      var delta := Point(c.x - previousCenter.x, c.y - previousCenter.y);
      var history := record.velocityHistory + [delta];
      if |history| > rollingWindow {
        history := history[1..];
      }
      trackedObjects := trackedObjects[id := record.(velocityHistory := history)];
      v := MeanPoint(history);
    }

    /** `update_tracked_objects`: renew the matched record and return the detection with the
        tracking keys written into it. */
    method UpdateTrackedObjects(id: int, d: Detection, now: real) returns (annotated: Detection)
      requires id in trackedObjects
      modifies this
      ensures var c := CalculateCenterPoint(d.base.box);
        var t := old(trackedObjects[id]);
        var u := UpdatedTrack(Cfg(), t, c, now);
        && trackedObjects == old(trackedObjects)[id := u]
        && annotated == Annotated(d, id, t, u, c, now)
      ensures order == old(order) && idCounter == old(idCounter)
    {
      var c := CalculateCenterPoint(d.base.box);
      var record := trackedObjects[id];
      ghost var vh := PushVelocity(record.velocityHistory, Point(c.x - record.prevCenter.x, c.y - record.prevCenter.y), RollingWindow);
      var previousTime, firstSeen, firstCenter, previousCenter := record.lastSeen, record.firstSeen, record.firstCenter, record.prevCenter;
      // The caller's view of the history: the list that the append below extends in place.
      var pointsHistory := record.history + [c];
      var history := pointsHistory;
      if |history| > maxCenterPointHistoryLength {
        history := TakeLast(history, maxCenterPointHistoryLength);
      }
      assert history == AppendBounded(record.history, c, maxCenterPointHistoryLength);
      trackedObjects := trackedObjects[id := record.(history := history)];
      ghost var written := trackedObjects;
      var velocity := EstimateVelocity(c, id);
      assert written[id] == record.(history := history);
      assert trackedObjects == written[id := record.(history := history, velocityHistory := vh)];
      ghost var pushed := record.(history := history, velocityHistory := vh);
      UpdateTwice(old(trackedObjects), id, record.(history := history), pushed);
      UpdatedTrackShape(Cfg(), record, c, now, vh, history);
      ghost var u := UpdatedTrack(Cfg(), record, c, now);
      var updated := trackedObjects[id];
      assert updated.(center := c, lastSeen := now, velocity := velocity, prevCenter := c) == u;
      trackedObjects := trackedObjects[id := updated.(center := c, lastSeen := now, velocity := velocity, prevCenter := c)];
      UpdateTwice(old(trackedObjects), id, pushed, u);
      annotated := d.(tracking := Some(TrackInfo(id, velocity, firstSeen, previousTime, now, firstCenter, previousCenter, c, pointsHistory)));
    }

    /** The first loop of `prune_outdated_detections`: the stale IDs, in table order. */
    method CollectStaleDetections(now: real) returns (stale: seq<int>)
      requires Inv()
      ensures Elems(stale) == StaleIds(Cfg(), Abs(), now)
    {
      stale := [];
      var i := 0;
      while i < |order|
        invariant 0 <= i <= |order|
        invariant forall x :: x in stale <==> x in order[..i] && x in StaleIds(Cfg(), Abs(), now)
      {
        var id := order[i];
        var elapsed := now - trackedObjects[id].lastSeen;
        // `id not in parsed_detections` compares an integer with dictionaries: always true.
        if elapsed > deregistrationTime {
          stale := stale + [id];
        }
        assert order[..i + 1] == order[..i] + [id];
        i := i + 1;
      }
      assert order[..i] == order;
      assert forall x :: x in StaleIds(Cfg(), Abs(), now) ==> x in order;
      assert forall x :: x in stale <==> x in StaleIds(Cfg(), Abs(), now);
    }

    /** `prune_outdated_detections`: collect the stale IDs, then delete them one by one. The
        detections list is only used in a membership test that always passes. */
    method PruneOutdatedDetections(parsedDetections: seq<Detection>, now: real)
      requires Inv()
      modifies this
      ensures Inv()
      ensures Abs() == Prune(Cfg(), old(Abs()), now)
    {
      ghost var before := Abs();
      var stale := CollectStaleDetections(now);
      RemoveDetections(stale);
      PruneEffect(Cfg(), before, now);
    }

    /** The second loop of `prune_outdated_detections`: delete the collected IDs one by one. */
    method RemoveDetections(stale: seq<int>)
      modifies this
      ensures trackedObjects == old(trackedObjects) - Elems(stale)
      ensures order == Keep(old(order), Elems(stale))
      ensures idCounter == old(idCounter)
    {
      KeepNothing(order);
      assert Elems(stale[..0]) == {};
      var j := 0;
      while j < |stale|
        invariant 0 <= j <= |stale|
        invariant trackedObjects == old(trackedObjects) - Elems(stale[..j])
        invariant order == Keep(old(order), Elems(stale[..j]))
        invariant idCounter == old(idCounter)
      {
        var id := stale[j];
        assert stale[..j + 1] == stale[..j] + [id];
        ElemsSnoc(stale[..j], id);
        KeepTwice(old(order), Elems(stale[..j]), id);
        trackedObjects := trackedObjects - {id};
        order := Keep(order, {id});
        j := j + 1;
      }
      assert stale[..j] == stale;
    }

    /** `apply_velocity_estimations`: drift the stored center of every recently seen record. */
    method ApplyVelocityEstimations(now: real)
      requires Inv()
      modifies this
      ensures Inv()
      ensures Abs() == Drift(Cfg(), old(Abs()), now)
    {
      ghost var before := Abs();
      var i := 0;
      while i < |order|
        invariant 0 <= i <= |order|
        invariant Valid(before, Cfg())
        invariant order == before.order && idCounter == before.counter
        invariant DriftedPrefix(Cfg(), before.tracked, trackedObjects, order[..i], now)
      {
        var id := order[i];
        assert order[..i + 1] == order[..i] + [id];
        NotInPrefix(order, i);
        ghost var previous := trackedObjects;
        var detection := trackedObjects[id];
        var elapsed := now - detection.lastSeen;
        if elapsed <= deregistrationTime {
          var velocity := detection.velocity;
          trackedObjects := trackedObjects[id := detection.(center := Displaced(detection.center, velocity, elapsed))];
        }
        DriftedPrefixStep(Cfg(), before.tracked, previous, trackedObjects, order[..i], id, now);
        i := i + 1;
      }
      assert order[..i] == order;
      assert forall id :: id in trackedObjects ==> trackedObjects[id] == DriftTrack(Cfg(), before.tracked[id], now);
      assert trackedObjects == Drift(Cfg(), before, now).tracked;
      DriftEffect(Cfg(), before, now);
    }

    /** The body of the detection loop of `update_tracker`: update the matched track and return
        the annotated detection, or register a new track (also on a match with ID 0) and count
        it. */
    method TrackDetection(current: Detection, now: real) returns (emitted: Option<Detection>)
      requires Inv()
      modifies this
      ensures Inv()
      ensures var step := Step(Cfg(), old(Abs()), current, now);
        Abs() == step.registry && emitted == step.emitted
    {
      ghost var pre := Abs();
      ghost var step := Step(Cfg(), pre, current, now);
      var matched := MatchDetectionCenterPoints(current);
      if matched.Some? && matched.value != 0 {
        MatchedIdIsFirstFit(pre, Cfg(), current.base.classname, CalculateCenterPoint(current.base.box));
        var annotated := UpdateTrackedObjects(matched.value, current, now);
        emitted := Some(annotated);
      } else {
        RegisterDetection(current, now);
        idCounter := idCounter + 1;
        emitted := None;
      }
      assert Abs() == step.registry;
    }

    /** `update_tracker`, with the three clock readings as parameters. */
    method UpdateTracker(detections: seq<Detection>, now: real, pruneTime: real, driftTime: real) returns (parsedDetections: seq<Detection>)
      requires Inv()
      modifies this
      ensures Inv()
      ensures var o := UpdateTrackerOutcome(Cfg(), old(Abs()), detections, now, pruneTime, driftTime);
        Abs() == o.registry && parsedDetections == o.parsed
    {
      parsedDetections := [];
      ghost var before := Abs();
      var i := 0;
      while i < |detections|
        invariant 0 <= i <= |detections|
        invariant Inv()
        invariant Outcome(Abs(), parsedDetections) == Frame(Cfg(), before, detections[..i], now)
      {
        var current := detections[i];
        assert detections[..i + 1][..i] == detections[..i];
        assert detections[..i + 1][i] == current;
        var emitted := TrackDetection(current, now);
        if emitted.Some? {
          parsedDetections := parsedDetections + [emitted.value];
        }
        i := i + 1;
      }
      assert detections[..i] == detections;
      PruneEffect(Cfg(), Abs(), pruneTime);
      PruneOutdatedDetections(parsedDetections, pruneTime);
      ApplyVelocityEstimations(driftTime);
    }
  }
}
