/** Track profile builder: segmentation of a GPS track, the power-balance
    speed search, per-segment length/slope/speed/duration, the cumulative
    distance/time threading and the whole-track aggregates. All arithmetic is
    exact (`real`/`int`); the great-circle distance is an abstract metric. */
module Geo {

  /** A parsed track sample: elevation, latitude, longitude. */
  datatype Point = Point(ele: real, lat: real, lon: real)

  /** The great-circle distance between two samples, in metres. Its formula
      belongs to a foreign package; the model only knows it is non-negative. */
  type Metric = d: (Point, Point) -> real | forall a: Point, b: Point :: d(a, b) >= 0.0
    witness (a: Point, b: Point) => 0.0

  /** A sample placed on the profile: cumulative time (hours) and distance (m). */
  datatype TrackPoint = TrackPoint(point: Point, time: real, distance: real)

  datatype Segment = Segment(
    length: real,    // metres
    pente: real,     // slope, percent
    speed: real,     // km/h, already limited to the maximum speed
    duration: real,  // hours
    start: TrackPoint,
    end: TrackPoint)

  /** The user-supplied physical parameters and thresholds. */
  datatype Config = Config(
    power: real,
    friction: real,
    airPenetration: real,
    weight: real,
    minDistance: real,
    maxSpeed: real)

  /** Power > 0 and maxSpeed > 0. A power at or below zero gives a speed of
      0, and a maximum speed of 0 caps every speed at 0; the source then
      divides each length by a zero speed. A negative maximum speed caps
      every speed at that maximum, so every duration is negative or zero and
      the profile is empty. */
  predicate ValidConfig(cfg: Config)
  {
    cfg.power > 0.0 && cfg.maxSpeed > 0.0
  }

  function Last<T>(s: seq<T>): T
    requires |s| > 0
  {
    s[|s| - 1]
  }

  // ---------------------------------------------------------------------
  // calcDistance

  /** Sum of the distances between consecutive points, folded left to right. */
  function PathLength(pts: seq<Point>, dist: Metric): (r: real)
    ensures r >= 0.0
    ensures |pts| <= 1 ==> r == 0.0
    decreases |pts|
  {
    if |pts| <= 1 then 0.0
    else PathLength(pts[..|pts| - 1], dist) + dist(pts[|pts| - 2], pts[|pts| - 1])
  }

  lemma PathLengthSnoc(pts: seq<Point>, p: Point, dist: Metric)
    requires |pts| > 0
    ensures PathLength(pts + [p], dist) == PathLength(pts, dist) + dist(Last(pts), p)
  {
    assert (pts + [p])[..|pts|] == pts;
  }

  /** Two paths glued at a shared point: the length of the glued path is the
      sum of the two lengths. */
  lemma {:induction false} PathLengthGlue(a: seq<Point>, b: seq<Point>, dist: Metric)
    requires |a| > 0 && |b| > 0 && Last(a) == b[0]
    ensures PathLength(a + b[1..], dist) == PathLength(a, dist) + PathLength(b, dist)
    decreases |b|
  {
    if |b| == 1 {
      assert a + b[1..] == a;
    } else {
      var b' := b[..|b| - 1];
      PathLengthGlue(a, b', dist);
      assert a + b[1..] == (a + b'[1..]) + [Last(b)];
      PathLengthSnoc(a + b'[1..], Last(b), dist);
      assert Last(a + b'[1..]) == b[|b| - 2];
    }
  }

  // ---------------------------------------------------------------------
  // createSegments

  predicate NonEmptyGroups(groups: seq<seq<Point>>)
  {
    forall k :: 0 <= k < |groups| ==> |groups[k]| > 0
  }

  /** The input reassembled from its groups: the first group whole, every
      later group without its first (shared) point. */
  function Flatten(groups: seq<seq<Point>>): seq<Point>
  {
    if |groups| == 0 then []
    else if |groups| == 1 then groups[0]
    else Flatten(groups[..|groups| - 1]) + Rest(Last(groups))
  }

  /** A group without its first point. */
  function Rest(g: seq<Point>): seq<Point>
  {
    if |g| == 0 then [] else g[1..]
  }

  /** Every group is non-empty and the last point of each group is the first
      point of the next. */
  ghost predicate Chained(groups: seq<seq<Point>>)
  {
    NonEmptyGroups(groups) &&
    (forall k :: 0 <= k < |groups| - 1 ==> Last(groups[k]) == groups[k + 1][0])
  }
  /** A closed group: it has crossed the threshold, and its last point is the
      first one at which it did. */
  ghost predicate ClosedAtFirstCrossing(g: seq<Point>, minDistance: real, dist: Metric)
  {
    |g| >= 2 &&
    PathLength(g, dist) > minDistance &&
    (|g| == 2 || PathLength(g[..|g| - 1], dist) <= minDistance)
  }

  /** The group still being filled: either just opened on a boundary point,
      or not yet over the threshold. */
  ghost predicate StillOpen(g: seq<Point>, minDistance: real, dist: Metric)
  {
    |g| == 1 || PathLength(g, dist) <= minDistance
  }

  ghost predicate IsSegmentation(groups: seq<seq<Point>>, points: seq<Point>, minDistance: real, dist: Metric)
  {
    if |points| == 0 then groups == []
    else
      |groups| > 0 && Chained(groups) && Flatten(groups) == points &&
      (forall k :: 0 <= k < |groups| - 1 ==> ClosedAtFirstCrossing(groups[k], minDistance, dist)) &&
      StillOpen(Last(groups), minDistance, dist)
  }

  /** The state of the fold after the non-empty prefix `pts`. */
  ghost predicate FoldState(groups: seq<seq<Point>>, tempDistance: real, pts: seq<Point>, minDistance: real, dist: Metric)
  {
    |pts| > 0 && IsSegmentation(groups, pts, minDistance, dist) &&
    tempDistance == PathLength(Last(groups), dist) &&
    groups[0][0] == pts[0]
  }

  /** Partition the ordered points into distance-bounded groups: each point is
      appended to the current group; once the running distance of that group
      exceeds `minDistance`, a new group is opened on the same point. */
  method CreateSegments(points: seq<Point>, minDistance: real, dist: Metric)
    returns (groups: seq<seq<Point>>)
    ensures IsSegmentation(groups, points, minDistance, dist)
    ensures |points| > 0 ==> groups[0][0] == points[0]
  {
    groups := [];
    var tempDistance := 0.0;
    var i := 0;
    while i < |points|
      invariant 0 <= i <= |points|
      invariant i == 0 ==> groups == []
      invariant i > 0 ==> FoldState(groups, tempDistance, points[..i], minDistance, dist)
    {
      var cur := points[i];
      if i == 0 {
        groups := [[cur]];
        tempDistance := 0.0;
      } else {
        var prev := points[i - 1];
        assert prev == Last(points[..i]);
        assert points[..i + 1] == points[..i] + [cur];
        FoldStep(groups, tempDistance, points[..i], cur, minDistance, dist);
        tempDistance := tempDistance + PathLength([prev, cur], dist);
        groups := groups[..|groups| - 1] + [Last(groups) + [cur]];
        if tempDistance > minDistance && |Last(groups)| > 1 {
          groups := groups + [[cur]];
          tempDistance := 0.0;
        }
      }
      i := i + 1;
    }
    assert i > 0 ==> points[..i] == points;
  }

  /** One step of the fold preserves its state: the point is appended to the
      open group, and a new group is opened on it when the threshold is
      crossed. */
  lemma FoldStep(groups: seq<seq<Point>>, temp: real, pts: seq<Point>, cur: Point, minDistance: real, dist: Metric)
    requires FoldState(groups, temp, pts, minDistance, dist)
    ensures
      var g1 := groups[..|groups| - 1] + [Last(groups) + [cur]];
      var t1 := temp + dist(Last(pts), cur);
      |Last(g1)| > 1 &&
      (t1 <= minDistance ==> FoldState(g1, t1, pts + [cur], minDistance, dist)) &&
      (t1 > minDistance ==> FoldState(g1 + [[cur]], 0.0, pts + [cur], minDistance, dist))
  {
    var last := Last(groups);
    var g1 := groups[..|groups| - 1] + [last + [cur]];
    var t1 := temp + dist(Last(pts), cur);
    FlattenLast(groups);
    PathLengthSnoc(last, cur, dist);
    FlattenExtendLast(groups, cur);
    assert (last + [cur])[..|last|] == last;
    assert Chained(g1) by {
      forall k | 0 <= k < |g1| - 1 ensures Last(g1[k]) == g1[k + 1][0] {
        if k < |g1| - 2 {
          assert g1[k] == groups[k] && g1[k + 1] == groups[k + 1];
        } else {
          assert g1[k] == groups[k] && g1[k + 1][0] == groups[k + 1][0];
        }
      }
    }
    assert forall k :: 0 <= k < |g1| - 1 ==> g1[k] == groups[k];
    assert t1 == PathLength(Last(g1), dist);
    assert g1[0][0] == pts[0];
    if t1 > minDistance {
      assert ClosedAtFirstCrossing(Last(g1), minDistance, dist);
      OpenGroup(g1, cur, pts + [cur], minDistance, dist);
    }
  }

  /** Closing a group that has just crossed the threshold at `cur` and
      opening the next one on `cur` gives a fold state with a zero running
      distance. */
  lemma OpenGroup(groups: seq<seq<Point>>, cur: Point, pts: seq<Point>, minDistance: real, dist: Metric)
    requires |groups| > 0 && Chained(groups) && Flatten(groups) == pts && |pts| > 0
    requires forall k :: 0 <= k < |groups| - 1 ==> ClosedAtFirstCrossing(groups[k], minDistance, dist)
    requires ClosedAtFirstCrossing(Last(groups), minDistance, dist) && Last(Last(groups)) == cur
    requires groups[0][0] == pts[0]
    ensures FoldState(groups + [[cur]], 0.0, pts, minDistance, dist)
  {
    var g2 := groups + [[cur]];
    FlattenOpen(groups, cur);
    assert Last(g2) == [cur] && PathLength([cur], dist) == 0.0;
    assert NonEmptyGroups(g2);
    forall k | 0 <= k < |g2| - 1
      ensures Last(g2[k]) == g2[k + 1][0] && ClosedAtFirstCrossing(g2[k], minDistance, dist)
    {
      assert g2[k] == groups[k];
      if k + 1 < |groups| {
        assert g2[k + 1] == groups[k + 1];
      }
    }
    assert Chained(g2);
  }
  lemma {:induction false} FlattenLast(groups: seq<seq<Point>>)
    requires |groups| > 0 && Chained(groups)
    ensures |Flatten(groups)| > 0 && Last(Flatten(groups)) == Last(Last(groups))
    decreases |groups|
  {
    if |groups| > 1 {
      var init := groups[..|groups| - 1];
      assert Chained(init);
      FlattenLast(init);
      if |Last(groups)| == 1 {
        assert Flatten(groups) == Flatten(init);
        assert Last(groups[|groups| - 2]) == Last(groups)[0];
      }
    }
  }

  lemma FlattenExtendLast(groups: seq<seq<Point>>, p: Point)
    requires |groups| > 0 && NonEmptyGroups(groups)
    ensures NonEmptyGroups(groups[..|groups| - 1] + [Last(groups) + [p]])
    ensures Flatten(groups[..|groups| - 1] + [Last(groups) + [p]]) == Flatten(groups) + [p]
  {
    var init := groups[..|groups| - 1];
    var last := Last(groups);
    ExtendLastNonEmpty(groups, p);
    if |groups| > 1 {
      assert Flatten(groups) == Flatten(init) + Rest(last);
      FlattenSnoc(init, last + [p]);
      assert |last| > 0;
      RestSnoc(last, p);
      AppendSnoc(Flatten(init), Rest(last), p);
    } else {
      assert init + [last + [p]] == [last + [p]];
    }
  }

  lemma RestSnoc(g: seq<Point>, p: Point)
    requires |g| > 0
    ensures Rest(g + [p]) == Rest(g) + [p]
  {
    assert (g + [p])[1..] == g[1..] + [p];
  }

  /** Appending a group appends its points after the shared one. */
  lemma FlattenSnoc(init: seq<seq<Point>>, g: seq<Point>)
    requires |init| > 0
    ensures Flatten(init + [g]) == Flatten(init) + Rest(g)
  {
    assert (init + [g])[..|init|] == init;
  }

  lemma ExtendLastNonEmpty(groups: seq<seq<Point>>, p: Point)
    requires |groups| > 0 && NonEmptyGroups(groups)
    ensures NonEmptyGroups(groups[..|groups| - 1] + [Last(groups) + [p]])
  {
    var g' := groups[..|groups| - 1] + [Last(groups) + [p]];
    forall k | 0 <= k < |g'| ensures |g'[k]| > 0 {
      if k < |groups| - 1 {
        assert g'[k] == groups[k];
      }
    }
  }

  lemma AppendSnoc<T>(a: seq<T>, b: seq<T>, x: T)
    ensures a + (b + [x]) == (a + b) + [x]
  {
  }

  lemma FlattenOpen(groups: seq<seq<Point>>, p: Point)
    requires |groups| > 0 && NonEmptyGroups(groups)
    ensures Flatten(groups + [[p]]) == Flatten(groups)
  {
    assert (groups + [[p]])[..|groups|] == groups;
  }

  /** The groups' lengths, summed. */
  function SumGroupLengths(groups: seq<seq<Point>>, dist: Metric): real
  {
    if |groups| == 0 then 0.0
    else SumGroupLengths(groups[..|groups| - 1], dist) + PathLength(Last(groups), dist)
  }

  /** Because consecutive groups share their boundary point, no stretch of
      the track is lost or counted twice: the groups' lengths add up to the
      length of the whole track. */
  lemma {:induction false} FlattenPathLength(groups: seq<seq<Point>>, dist: Metric)
    requires |groups| > 0 && Chained(groups)
    ensures PathLength(Flatten(groups), dist) == SumGroupLengths(groups, dist)
    decreases |groups|
  {
    if |groups| > 1 {
      var init := groups[..|groups| - 1];
      assert Chained(init);
      FlattenPathLength(init, dist);
      FlattenLast(init);
      PathLengthGlue(Flatten(init), Last(groups), dist);
      assert Rest(Last(groups)) == Last(groups)[1..];
      assert SumGroupLengths(init, dist) == SumGroupLengths(init[..|init| - 1], dist) + PathLength(Last(init), dist);
    } else {
      assert SumGroupLengths(groups[..0], dist) == 0.0;
    }
  }

  /** The first group opens the reassembled track. */
  lemma {:induction false} FlattenHead(groups: seq<seq<Point>>)
    requires |groups| > 0 && NonEmptyGroups(groups)
    ensures |groups[0]| <= |Flatten(groups)| && Flatten(groups)[..|groups[0]|] == groups[0]
    decreases |groups|
  {
    if |groups| > 1 {
      var init := groups[..|groups| - 1];
      FlattenHead(init);
      assert Flatten(groups)[..|groups[0]|] == Flatten(init)[..|groups[0]|];
    }
  }

  /** The second group adds all but its shared first point. */
  lemma {:induction false} FlattenTwo(groups: seq<seq<Point>>)
    requires |groups| >= 2 && NonEmptyGroups(groups)
    ensures |Flatten(groups)| >= |groups[0]| + |groups[1]| - 1
    decreases |groups|
  {
    if |groups| > 2 {
      var init := groups[..|groups| - 1];
      FlattenTwo(init);
    }
  }

  /** Samples 400 m apart. */
  const Spaced400: Metric := (a: Point, b: Point) => 400.0

  lemma {:induction false} PathLengthSpaced(pts: seq<Point>)
    requires |pts| > 0
    ensures PathLength(pts, Spaced400) == 400.0 * (|pts| - 1) as real
    decreases |pts|
  {
    if |pts| > 1 {
      PathLengthSpaced(pts[..|pts| - 1]);
    }
  }

  /** Four samples 400 m apart, with elevations 0, 10, 10 and 0, and a
      minimum distance of 1000 m: the only grouping is the whole track
      followed by a group holding just the last sample, whose segment has
      length zero and is dropped, so one segment remains. */
  lemma FourSamplesOneSegment(pts: seq<Point>, groups: seq<seq<Point>>, cfg: Config)
    requires |pts| == 4 && pts[0].ele == 0.0 && pts[1].ele == 10.0 && pts[2].ele == 10.0 && pts[3].ele == 0.0
    requires ValidConfig(cfg) && IsSegmentation(groups, pts, 1000.0, Spaced400)
    ensures groups == [pts, [pts[3]]]
    ensures Retained(Provisional(groups, cfg, Spaced400)) == [MakeSegment(pts, cfg, Spaced400)]
    ensures MakeSegment(pts, cfg, Spaced400).length == 1200.0
  {
    var g0 := groups[0];
    FlattenHead(groups);
    PathLengthSpaced(pts);
    PathLengthSpaced(g0);
    assert g0 == pts[..|g0|];
    assert |groups| >= 2;
    assert ClosedAtFirstCrossing(g0, 1000.0, Spaced400);
    assert |g0| == 4 && g0 == pts;
    FlattenTwo(groups);
    var g1 := groups[1];
    assert |g1| == 1;
    assert |groups| == 2;
    assert g1 == [pts[3]];
    assert groups == [g0, g1];
    var r := Provisional(groups, cfg, Spaced400);
    PathLengthSpaced(g1);
    assert r[1].duration == 0.0;
    assert r[..1] == [r[0]];
    assert Retained(r) == Retained(r[..1]);
    assert r[..1][..0] == [];
  }

  // ---------------------------------------------------------------------
  // calcPower and findSpeed

  /** Power (W) needed to hold speed `v` (km/h) on slope `p` (%), with rolling
      friction `f`, weight `w` (kg) and air penetration `cx`. */
  function Power(f: real, p: real, w: real, cx: real, v: real): (r: real)
    ensures v == 0.0 ==> r == 0.0
    ensures f + p >= 0.0 && w >= 0.0 && cx >= 0.0 && v >= 0.0 ==> r >= 0.0
  {
    NonNegativeTerms(f + p, w, cx, v);
    ((f + p) * w * v) / 36.0 + (250.0 / 11664.0) * cx * (v * v * v)
  }

  lemma NonNegativeTerms(a: real, w: real, cx: real, v: real)
    ensures a >= 0.0 && w >= 0.0 && cx >= 0.0 && v >= 0.0 ==> a * w * v >= 0.0 && cx * (v * v * v) >= 0.0
  {
    if a >= 0.0 && w >= 0.0 && cx >= 0.0 && v >= 0.0 {
      assert a * w >= 0.0;
      assert v * v >= 0.0;
      assert v * v * v >= 0.0;
    }
  }

  /** The speed reached after `n` steps of 0.5 km/h from a standstill. */
  function SpeedAt(n: nat): real
  {
    n as real * 0.5
  }

  /** The speed search, counted in half-km/h steps from `n`: step up while the
      power needed is below the target `target`. The source recurses without
      bound; here at most `fuel` more steps are taken. */
  function FindSpeed(target: real, f: real, p: real, w: real, cx: real, n: nat, fuel: nat): (r: nat)
    ensures n <= r <= n + fuel
    decreases fuel
  {
    if Power(f, p, w, cx, SpeedAt(n)) < target && fuel > 0 then FindSpeed(target, f, p, w, cx, n + 1, fuel - 1)
    else n
  }

  /** The search stops at the first step whose power reaches the target, or
      when its fuel runs out: every step it passed falls short. */
  lemma {:induction false} FindSpeedStops(target: real, f: real, p: real, w: real, cx: real, n: nat, fuel: nat)
    ensures var r := FindSpeed(target, f, p, w, cx, n, fuel);
      (forall j :: n <= j < r ==> Power(f, p, w, cx, SpeedAt(j)) < target) &&
      (r < n + fuel ==> Power(f, p, w, cx, SpeedAt(r)) >= target)
    decreases fuel
  {
    if Power(f, p, w, cx, SpeedAt(n)) < target && fuel > 0 {
      FindSpeedStops(target, f, p, w, cx, n + 1, fuel - 1);
    }
  }

  /** `n` is what the unbounded recursion of the source returns when it
      terminates: the first step at which the power balance is reached. */
  ghost predicate IsBalanceStep(n: nat, target: real, f: real, p: real, w: real, cx: real)
  {
    Power(f, p, w, cx, SpeedAt(n)) >= target &&
    forall j :: 0 <= j < n ==> Power(f, p, w, cx, SpeedAt(j)) < target
  }

  lemma PowerAtRest(f: real, p: real, w: real, cx: real)
    ensures Power(f, p, w, cx, 0.0) == 0.0
  {
  }

  /** A non-positive target is met at a standstill. */
  lemma FindSpeedNonPositiveTarget(target: real, f: real, p: real, w: real, cx: real, fuel: nat)
    requires target <= 0.0
    ensures FindSpeed(target, f, p, w, cx, 0, fuel) == 0
  {
    PowerAtRest(f, p, w, cx);
  }

  /** Within its fuel the bounded search returns exactly the step of the
      unbounded one. */
  lemma FindSpeedWithinFuel(n: nat, fuel: nat, target: real, f: real, p: real, w: real, cx: real)
    requires IsBalanceStep(n, target, f, p, w, cx) && n <= fuel
    ensures FindSpeed(target, f, p, w, cx, 0, fuel) == n
  {
    FindSpeedStops(target, f, p, w, cx, 0, fuel);
  }

  /** The smaller of the speed found and the maximum speed. */
  function LimitSpeed(speed: real, maxSpeed: real): (r: real)
    ensures r <= maxSpeed && r <= speed && (r == speed || r == maxSpeed)
  {
    if speed > maxSpeed then maxSpeed else speed
  }

  /** Steps allowed to the search: enough to pass `maxSpeed`. */
  function SpeedFuel(maxSpeed: real): (fuel: nat)
    requires maxSpeed >= 0.0
    ensures SpeedAt(fuel) > maxSpeed
  {
    (2.0 * maxSpeed).Floor + 1
  }

  /** The bound on the search is invisible once the result is limited to
      `maxSpeed`: if the unbounded search terminates at step `n`, the limited
      speeds agree. */
  lemma {:induction false} BoundedSearchAgrees(n: nat, target: real, f: real, p: real, w: real, cx: real, maxSpeed: real)
    requires maxSpeed >= 0.0 && IsBalanceStep(n, target, f, p, w, cx)
    ensures LimitSpeed(SpeedAt(FindSpeed(target, f, p, w, cx, 0, SpeedFuel(maxSpeed))), maxSpeed)
         == LimitSpeed(SpeedAt(n), maxSpeed)
  {
    var fuel := SpeedFuel(maxSpeed);
    FindSpeedStops(target, f, p, w, cx, 0, fuel);
    if n <= fuel {
      FindSpeedWithinFuel(n, fuel, target, f, p, w, cx);
    } else {
      assert SpeedAt(n) > SpeedAt(fuel);
    }
  }

  // ---------------------------------------------------------------------
  // The segments pipeline: per-group values, filter, cumulative threading

  /** Length, slope, limited speed and duration of one group; its start and
      end carry the group's first and last points at cumulative zero. */
  function MakeSegment(g: seq<Point>, cfg: Config, dist: Metric): (s: Segment)
    requires |g| > 0 && ValidConfig(cfg)
    ensures s.length == PathLength(g, dist)
    ensures s.pente == Slope(g, s.length)
    ensures 0.0 < s.speed <= cfg.maxSpeed
    ensures s.speed == cfg.maxSpeed || exists j: nat :: s.speed == SpeedAt(j)
    ensures s.duration >= 0.0 && (s.duration > 0.0 <==> s.length > 0.0)
    ensures s.start == TrackPoint(g[0], 0.0, 0.0) && s.end == TrackPoint(Last(g), 0.0, 0.0)
  {
    var length := PathLength(g, dist);
    var pente := Slope(g, length);
    var speed := LimitSpeed(SpeedAt(BalanceStep(cfg, pente)), cfg.maxSpeed);
    Segment(length, pente, speed, length / 1000.0 / speed, TrackPoint(g[0], 0.0, 0.0), TrackPoint(Last(g), 0.0, 0.0))
  }

  /** Slope in percent over the group; zero on a group of length zero. */
  function Slope(g: seq<Point>, length: real): (pente: real)
    requires |g| > 0
    ensures length == 0.0 ==> pente == 0.0
    ensures length != 0.0 ==> pente * length == 100.0 * (Last(g).ele - g[0].ele)
  {
    if length == 0.0 then 0.0 else (100.0 * (Last(g).ele - g[0].ele)) / length
  }

  /** The step at which the search for the configured power stops on slope
      `pente`; never zero, because a positive power is not met at rest. */
  function BalanceStep(cfg: Config, pente: real): (n: nat)
    requires ValidConfig(cfg)
    ensures 1 <= n <= SpeedFuel(cfg.maxSpeed)
  {
    PowerAtRest(cfg.friction, pente, cfg.weight, cfg.airPenetration);
    FindSpeed(cfg.power, cfg.friction, pente, cfg.weight, cfg.airPenetration, 0, SpeedFuel(cfg.maxSpeed))
  }

  /** Below the limit, the balance step reaches the configured power and the
      step before it does not. */
  lemma BalanceStepMeets(cfg: Config, pente: real)
    requires ValidConfig(cfg)
    ensures var n := BalanceStep(cfg, pente);
      (SpeedAt(n) <= cfg.maxSpeed ==> Power(cfg.friction, pente, cfg.weight, cfg.airPenetration, SpeedAt(n)) >= cfg.power) &&
      Power(cfg.friction, pente, cfg.weight, cfg.airPenetration, SpeedAt(n - 1)) < cfg.power
  {
    FindSpeedStops(cfg.power, cfg.friction, pente, cfg.weight, cfg.airPenetration, 0, SpeedFuel(cfg.maxSpeed));
  }

  /** Every half-step speed below the limited balance speed falls short of
      the configured power. */
  lemma BelowBalanceFallsShort(cfg: Config, pente: real)
    requires ValidConfig(cfg)
    ensures var speed := LimitSpeed(SpeedAt(BalanceStep(cfg, pente)), cfg.maxSpeed);
      forall j: nat :: SpeedAt(j) < speed ==>
        Power(cfg.friction, pente, cfg.weight, cfg.airPenetration, SpeedAt(j)) < cfg.power
  {
    var n := BalanceStep(cfg, pente);
    FindSpeedStops(cfg.power, cfg.friction, pente, cfg.weight, cfg.airPenetration, 0, SpeedFuel(cfg.maxSpeed));
    forall j: nat | SpeedAt(j) < LimitSpeed(SpeedAt(n), cfg.maxSpeed)
      ensures Power(cfg.friction, pente, cfg.weight, cfg.airPenetration, SpeedAt(j)) < cfg.power
    {
      assert j < n;
    }
  }

  /** Covering a length at a positive speed: duration times speed gives the
      length back. */
  lemma DurationAtSpeed(length: real, speed: real)
    requires speed > 0.0
    ensures length / 1000.0 / speed * speed * 1000.0 == length
  {
  }

  /** The physics of one segment: every half-step speed below its speed
      falls short of the configured power, below the limit its speed meets
      that power (so it is the first half-step speed that does), and its
      duration is its length covered at its speed. */
  lemma SegmentPhysics(g: seq<Point>, cfg: Config, dist: Metric)
    requires |g| > 0 && ValidConfig(cfg)
    ensures var s := MakeSegment(g, cfg, dist);
      s.duration * s.speed * 1000.0 == s.length &&
      (forall j: nat :: SpeedAt(j) < s.speed ==>
         Power(cfg.friction, s.pente, cfg.weight, cfg.airPenetration, SpeedAt(j)) < cfg.power) &&
      (s.speed < cfg.maxSpeed ==>
         Power(cfg.friction, s.pente, cfg.weight, cfg.airPenetration, s.speed) >= cfg.power)
  {
    var s := MakeSegment(g, cfg, dist);
    BalanceStepMeets(cfg, s.pente);
    BelowBalanceFallsShort(cfg, s.pente);
    DurationAtSpeed(s.length, s.speed);
  }

  /** The provisional segments, one per group, in order. */
  function Provisional(groups: seq<seq<Point>>, cfg: Config, dist: Metric): (r: seq<Segment>)
    requires NonEmptyGroups(groups) && ValidConfig(cfg)
    ensures |r| == |groups|
    ensures forall k :: 0 <= k < |groups| ==> r[k] == MakeSegment(groups[k], cfg, dist)
  {
    if |groups| == 0 then []
    else Provisional(groups[..|groups| - 1], cfg, dist) + [MakeSegment(Last(groups), cfg, dist)]
  }

  /** Filtering a concatenation filters each part, so the kept segments stay
      in their order. */
  lemma {:induction false} RetainedAppend(a: seq<Segment>, b: seq<Segment>)
    ensures Retained(a + b) == Retained(a) + Retained(b)
    decreases |b|
  {
    if |b| == 0 {
      assert a + b == a;
    } else {
      var b', x := b[..|b| - 1], b[|b| - 1];
      assert b == b' + [x];
      RetainedAppend(a, b');
      ConcatAssoc(a, b', [x]);
      RetainedSnoc(a + b', x);
      RetainedSnoc(b', x);
      ConcatAssoc(Retained(a), Retained(b'), [x]);
    }
  }

  /** Appending one segment to a profile appends it to the kept ones when
      its duration is positive, and leaves them alone otherwise. */
  lemma RetainedSnoc(s: seq<Segment>, x: Segment)
    ensures Retained(s + [x]) == if x.duration > 0.0 then Retained(s) + [x] else Retained(s)
  {
    var t := s + [x];
    assert t[..|t| - 1] == s;
  }

  lemma ConcatAssoc<T>(x: seq<T>, y: seq<T>, z: seq<T>)
    ensures (x + y) + z == x + (y + z)
  {
  }

  /** A single segment is kept exactly when its duration is positive. */
  lemma RetainedSingle(s: Segment)
    ensures Retained([s]) == if s.duration > 0.0 then [s] else []
  {
    assert [s][..0] == [];
  }

  /** Keep the segments of positive duration, in order. */
  function Retained(segs: seq<Segment>): (r: seq<Segment>)
    ensures forall s :: s in r <==> s in segs && s.duration > 0.0
    ensures |r| <= |segs|
  {
    if |segs| == 0 then []
    else if Last(segs).duration > 0.0 then Retained(segs[..|segs| - 1]) + [Last(segs)]
    else Retained(segs[..|segs| - 1])
  }

  function SumLength(segs: seq<Segment>): real
  {
    if |segs| == 0 then 0.0 else SumLength(segs[..|segs| - 1]) + Last(segs).length
  }

  function SumDuration(segs: seq<Segment>): real
  {
    if |segs| == 0 then 0.0 else SumDuration(segs[..|segs| - 1]) + Last(segs).duration
  }

  /** Dropping segments of length zero does not change the summed length. */
  lemma {:induction false} RetainedSumLength(segs: seq<Segment>)
    requires forall i :: 0 <= i < |segs| ==> segs[i].duration > 0.0 || segs[i].length == 0.0
    ensures SumLength(Retained(segs)) == SumLength(segs)
    decreases |segs|
  {
    if |segs| > 0 {
      var init := segs[..|segs| - 1];
      RetainedSumLength(init);
      if Last(segs).duration > 0.0 {
        var r := Retained(init) + [Last(segs)];
        assert r[..|r| - 1] == Retained(init);
      }
    }
  }

  lemma {:induction false} ProvisionalSumLength(groups: seq<seq<Point>>, cfg: Config, dist: Metric)
    requires NonEmptyGroups(groups) && ValidConfig(cfg)
    ensures SumLength(Provisional(groups, cfg, dist)) == SumGroupLengths(groups, dist)
    decreases |groups|
  {
    if |groups| > 0 {
      var init := groups[..|groups| - 1];
      ProvisionalSumLength(init, cfg, dist);
      var r := Provisional(groups, cfg, dist);
      assert r[..|r| - 1] == Provisional(init, cfg, dist);
    }
  }

  /** `s` with its start placed at cumulative `distance`/`time` and its end
      one segment further on. */
  function Placed(s: Segment, distance: real, time: real): Segment
  {
    s.(start := s.start.(distance := distance, time := time),
       end := s.end.(distance := distance + s.length, time := time + s.duration))
  }

  /** `out` is `provisional` with the cumulative fields threaded: the first
      segment keeps its start, every later one starts where the previous one
      ended, and every end lies one length/duration after its start. */
  ghost predicate Threaded(out: seq<Segment>, provisional: seq<Segment>)
  {
    |out| == |provisional| &&
    (|out| > 0 ==> out[0] == Placed(provisional[0], provisional[0].start.distance, provisional[0].start.time)) &&
    forall i :: 0 < i < |out| ==> out[i] == Placed(provisional[i], out[i - 1].end.distance, out[i - 1].end.time)
  }

  /** The accumulation pass, in place: each segment's start is set from the
      previous segment's end, then its end from its own start. */
  method Accumulate(a: array<Segment>)
    modifies a
    ensures Threaded(a[..], old(a[..]))
  {
    var i := 0;
    while i < a.Length
      invariant 0 <= i <= a.Length
      invariant forall k :: i <= k < a.Length ==> a[k] == old(a[k])
      invariant Threaded(a[..i], old(a[..])[..i])
    {
      var cur := a[i];
      if i > 0 {
        cur := cur.(start := cur.start.(distance := a[i - 1].end.distance, time := a[i - 1].end.time));
      }
      cur := cur.(end := cur.end.(distance := cur.start.distance + cur.length, time := cur.start.time + cur.duration));
      a[i] := cur;
      i := i + 1;
    }
    assert a[..i] == a[..] && old(a[..])[..i] == old(a[..]);
  }

  /** What the threading guarantees when the first segment starts at zero:
      continuity of distance and time, ends one length/duration after starts,
      and a final end equal to the summed lengths and durations. */
  lemma {:induction false} ThreadedTotals(out: seq<Segment>, provisional: seq<Segment>)
    requires Threaded(out, provisional) && |out| > 0
    requires provisional[0].start.distance == 0.0 && provisional[0].start.time == 0.0
    ensures Last(out).end.distance == SumLength(provisional)
    ensures Last(out).end.time == SumDuration(provisional)
    decreases |out|
  {
    if |out| > 1 {
      var n := |out| - 1;
      assert Threaded(out[..n], provisional[..n]);
      ThreadedTotals(out[..n], provisional[..n]);
      assert out[..n][n - 1] == out[n - 1];
    } else {
      assert provisional[..0] == [];
    }
  }

  /** With positive durations, segment start times strictly increase. */
  lemma {:induction false} ThreadedStartsIncrease(out: seq<Segment>, provisional: seq<Segment>, i: nat, j: nat)
    requires Threaded(out, provisional)
    requires forall k :: 0 <= k < |provisional| ==> provisional[k].duration > 0.0
    requires i < j < |out|
    ensures out[i].start.time < out[j].start.time
    decreases j - i
  {
    assert out[j].start.time == out[j - 1].end.time;
    if j - 1 == 0 {
      assert out[0] == Placed(provisional[0], provisional[0].start.distance, provisional[0].start.time);
    } else {
      assert out[j - 1] == Placed(provisional[j - 1], out[j - 2].end.distance, out[j - 2].end.time);
    }
    if i < j - 1 {
      ThreadedStartsIncrease(out, provisional, i, j - 1);
    }
  }

  /** The profile as the source exposes it: positive durations, speeds within
      the limit, segment 0 at the origin, continuity of distance and time. */
  ghost predicate IsProfile(segs: seq<Segment>, maxSpeed: real)
  {
    (forall i :: 0 <= i < |segs| ==> segs[i].duration > 0.0 && segs[i].length > 0.0 && 0.0 < segs[i].speed <= maxSpeed) &&
    (|segs| > 0 ==> segs[0].start.distance == 0.0 && segs[0].start.time == 0.0) &&
    (forall i :: 0 < i < |segs| ==>
       segs[i].start.distance == segs[i - 1].end.distance && segs[i].start.time == segs[i - 1].end.time) &&
    (forall i :: 0 <= i < |segs| ==>
       segs[i].end.distance == segs[i].start.distance + segs[i].length &&
       segs[i].end.time == segs[i].start.time + segs[i].duration)
  }

  /** Threading segments that are all positive, limited and placed at zero
      yields a profile whose start times strictly increase. */
  lemma ThreadedProfile(out: seq<Segment>, kept: seq<Segment>, maxSpeed: real)
    requires Threaded(out, kept)
    requires forall s :: s in kept ==> Kept(s, maxSpeed)
    ensures IsProfile(out, maxSpeed)
    ensures forall i, j :: 0 <= i < j < |out| ==> out[i].start.time < out[j].start.time
  {
    assert forall k :: 0 <= k < |kept| ==> Kept(kept[k], maxSpeed) by {
      forall k | 0 <= k < |kept| ensures Kept(kept[k], maxSpeed) {
        assert kept[k] in kept;
      }
    }
    forall i | 0 <= i < |out|
      ensures out[i].duration == kept[i].duration && out[i].length == kept[i].length && out[i].speed == kept[i].speed
      ensures out[i].end.distance == out[i].start.distance + out[i].length
      ensures out[i].end.time == out[i].start.time + out[i].duration
    {
      if i == 0 {
        assert out[0] == Placed(kept[0], kept[0].start.distance, kept[0].start.time);
      } else {
        assert out[i] == Placed(kept[i], out[i - 1].end.distance, out[i - 1].end.time);
      }
    }
    forall i, j | 0 <= i < j < |out| ensures out[i].start.time < out[j].start.time {
      ThreadedStartsIncrease(out, kept, i, j);
    }
  }

  /** A provisional segment that survives the filter. */
  ghost predicate Kept(s: Segment, maxSpeed: real)
  {
    s.duration > 0.0 && s.length > 0.0 && 0.0 < s.speed <= maxSpeed &&
    s.start.distance == 0.0 && s.start.time == 0.0
  }

  /** The segments that survive the filter are positive, limited and placed at
      zero. */
  lemma KeptSegments(groups: seq<seq<Point>>, cfg: Config, dist: Metric)
    requires ValidConfig(cfg) && NonEmptyGroups(groups)
    ensures forall s :: s in Retained(Provisional(groups, cfg, dist)) ==> Kept(s, cfg.maxSpeed)
  {
    var provisional := Provisional(groups, cfg, dist);
    forall s | s in Retained(provisional) ensures Kept(s, cfg.maxSpeed) {
      var k :| 0 <= k < |provisional| && provisional[k] == s;
      var seg := MakeSegment(groups[k], cfg, dist);
      assert s == seg;
    }
  }

  /** The kept segments carry the whole length of the grouped track. */
  lemma KeptLength(groups: seq<seq<Point>>, cfg: Config, dist: Metric)
    requires ValidConfig(cfg) && |groups| > 0 && Chained(groups)
    ensures SumLength(Retained(Provisional(groups, cfg, dist))) == PathLength(Flatten(groups), dist)
  {
    var provisional := Provisional(groups, cfg, dist);
    forall i | 0 <= i < |provisional| ensures provisional[i].duration > 0.0 || provisional[i].length == 0.0 {
      var seg := MakeSegment(groups[i], cfg, dist);
    }
    ProvisionalSumLength(groups, cfg, dist);
    RetainedSumLength(provisional);
    FlattenPathLength(groups, dist);
  }

  /** The chain after the grouping: compute each group's values, drop the
      groups of zero duration, thread the cumulative fields in place. */
  method ProfileOfGroups(groups: seq<seq<Point>>, cfg: Config, dist: Metric) returns (segs: seq<Segment>)
    requires ValidConfig(cfg) && NonEmptyGroups(groups)
    ensures Threaded(segs, Retained(Provisional(groups, cfg, dist)))
    ensures IsProfile(segs, cfg.maxSpeed)
    ensures forall i, j :: 0 <= i < j < |segs| ==> segs[i].start.time < segs[j].start.time
  {
    var kept := Retained(Provisional(groups, cfg, dist));
    segs := ThreadCopy(kept);
    KeptProfile(groups, cfg, dist, segs);
  }

  /** The kept segments copied into a fresh array and threaded there. */
  method ThreadCopy(kept: seq<Segment>) returns (segs: seq<Segment>)
    ensures Threaded(segs, kept)
  {
    var a := new Segment[|kept|](i requires 0 <= i < |kept| => kept[i]);
    assert a[..] == kept;
    Accumulate(a);
    segs := a[..];
  }

  /** Threading the kept segments yields a profile. */
  lemma KeptProfile(groups: seq<seq<Point>>, cfg: Config, dist: Metric, segs: seq<Segment>)
    requires ValidConfig(cfg) && NonEmptyGroups(groups)
    requires Threaded(segs, Retained(Provisional(groups, cfg, dist)))
    ensures IsProfile(segs, cfg.maxSpeed)
    ensures forall i, j :: 0 <= i < j < |segs| ==> segs[i].start.time < segs[j].start.time
  {
    KeptSegments(groups, cfg, dist);
    ThreadedProfile(segs, Retained(Provisional(groups, cfg, dist)), cfg.maxSpeed);
  }

  /** The profile ends at the length of the whole track. */
  lemma ProfileLength(points: seq<Point>, groups: seq<seq<Point>>, cfg: Config, dist: Metric, segs: seq<Segment>)
    requires ValidConfig(cfg) && IsSegmentation(groups, points, cfg.minDistance, dist) && NonEmptyGroups(groups)
    requires Threaded(segs, Retained(Provisional(groups, cfg, dist)))
    ensures |segs| > 0 ==> Last(segs).end.distance == PathLength(points, dist)
    ensures |segs| == 0 ==> PathLength(points, dist) == 0.0
  {
    var kept := Retained(Provisional(groups, cfg, dist));
    KeptSegments(groups, cfg, dist);
    if |points| > 0 {
      KeptLength(groups, cfg, dist);
      if |segs| > 0 {
        ThreadedTotals(segs, kept);
      } else {
        assert kept == [];
      }
    }
  }

  /** The `segments` computation: group the points, then build the profile of
      the groups. `groups` is the grouping the profile was built from. */
  method BuildSegments(points: seq<Point>, cfg: Config, dist: Metric) returns (segs: seq<Segment>, ghost groups: seq<seq<Point>>)
    requires ValidConfig(cfg)
    ensures IsSegmentation(groups, points, cfg.minDistance, dist)
    ensures NonEmptyGroups(groups) && Threaded(segs, Retained(Provisional(groups, cfg, dist)))
    ensures IsProfile(segs, cfg.maxSpeed)
    ensures forall i, j :: 0 <= i < j < |segs| ==> segs[i].start.time < segs[j].start.time
    ensures |segs| > 0 ==> Last(segs).end.distance == PathLength(points, dist)
    ensures |segs| == 0 ==> PathLength(points, dist) == 0.0
  {
    var grouped := CreateSegments(points, cfg.minDistance, dist);
    assert NonEmptyGroups(grouped);
    segs := ProfileOfGroups(grouped, cfg, dist);
    ProfileLength(points, grouped, cfg, dist, segs);
    groups := grouped;
  }

  /** In a profile the last end time is the summed durations. */
  lemma {:induction false} ProfileEndTime(segs: seq<Segment>, maxSpeed: real)
    requires IsProfile(segs, maxSpeed) && |segs| > 0
    ensures Last(segs).end.time == SumDuration(segs)
    decreases |segs|
  {
    if |segs| > 1 {
      var init := segs[..|segs| - 1];
      assert IsProfile(init, maxSpeed);
      ProfileEndTime(init, maxSpeed);
    } else {
      assert segs[..0] == [];
    }
  }

  // ---------------------------------------------------------------------
  // Aggregates: denivPositive, toHoursAndMinutes, totalTime

  /** `Math.round`: the nearest integer, halves rounded up. */
  function Round(x: real): (r: int)
    ensures x - 0.5 < r as real <= x + 0.5
  {
    (x + 0.5).Floor
  }

  /** Truncation toward zero (`Math.trunc`). */
  function Trunc(x: real): (r: int)
    ensures 0.0 <= x ==> r as real <= x < r as real + 1.0
    ensures x < 0.0 ==> r as real - 1.0 < x <= r as real
  {
    if x >= 0.0 then x.Floor else -((-x).Floor)
  }

  /** The `%` operator of the source: the remainder takes the sign of the
      dividend. */
  function Rem(x: real, y: real): real
    requires y != 0.0
  {
    x - y * Trunc(x / y) as real
  }

  /** The positive elevation gain, folded left to right: every positive step
      is added and the running total rounded. */
  function ElevationGain(pts: seq<Point>): (g: int)
    ensures g >= 0
    decreases |pts|
  {
    if |pts| <= 1 then 0
    else
      var acc := ElevationGain(pts[..|pts| - 1]);
      var diff := Last(pts).ele - pts[|pts| - 2].ele;
      if diff > 0.0 then Round(acc as real + diff) else acc
  }

  /** The exact sum of the positive elevation steps. */
  function Climb(pts: seq<Point>): real
    decreases |pts|
  {
    if |pts| <= 1 then 0.0
    else
      var diff := Last(pts).ele - pts[|pts| - 2].ele;
      Climb(pts[..|pts| - 1]) + (if diff > 0.0 then diff else 0.0)
  }

  /** The gain never decreases along the fold. */
  lemma {:induction false} ElevationGainGrows(pts: seq<Point>, i: nat, j: nat)
    requires i <= j <= |pts|
    ensures ElevationGain(pts[..i]) <= ElevationGain(pts[..j])
    decreases j - i
  {
    if i < j {
      ElevationGainGrows(pts, i, j - 1);
      assert pts[..j][..j - 1] == pts[..j - 1];
    }
  }

  /** Rounding at each step keeps the gain within half a metre per step of the
      exact climb. */
  lemma {:induction false} ElevationGainNearClimb(pts: seq<Point>)
    requires |pts| > 0
    ensures -0.5 * (|pts| - 1) as real <= ElevationGain(pts) as real - Climb(pts) <= 0.5 * (|pts| - 1) as real
    decreases |pts|
  {
    if |pts| > 1 {
      ElevationGainNearClimb(pts[..|pts| - 1]);
    }
  }

  /** Hours and minutes of a duration given in minutes. */
  datatype HoursMinutes = HoursMinutes(hours: int, minutes: int)

  /** `toHoursAndMinutes` as written: whole hours by floor, minutes by
      rounding the remainder. */
  function ToHoursAndMinutes(totalMinutes: real): (hm: HoursMinutes)
    ensures totalMinutes >= 0.0 ==> 0 <= hm.hours && 0 <= hm.minutes <= 60
    ensures hm.hours as real <= totalMinutes / 60.0 < hm.hours as real + 1.0
  {
    HoursMinutes(Floor(totalMinutes / 60.0), Round(Rem(totalMinutes, 60.0)))
  }

  function Floor(x: real): int
  {
    x.Floor
  }

  /** For a non-negative duration the two fields add up to the rounded total,
      but the minutes may reach 60. */
  lemma ToHoursAndMinutesTotal(totalMinutes: real)
    requires totalMinutes >= 0.0
    ensures var hm := ToHoursAndMinutes(totalMinutes);
      hm.hours * 60 + hm.minutes == Round(totalMinutes) && 0 <= hm.minutes <= 60
  {
    var h := Floor(totalMinutes / 60.0);
    assert Trunc(totalMinutes / 60.0) == h;
    var rem := totalMinutes - 60.0 * h as real;
    assert 0.0 <= rem < 60.0;
    assert Round(rem) == Round(totalMinutes) - 60 * h by {
      assert rem + 0.5 == (totalMinutes + 0.5) - (60 * h) as real;
    }
  }

  /** On a whole number of minutes the as-written split is exact. */
  lemma ToHoursAndMinutesWhole(totalMinutes: nat)
    ensures var hm := ToHoursAndMinutes(totalMinutes as real);
      hm.hours * 60 + hm.minutes == totalMinutes && 0 <= hm.minutes < 60
  {
    ToHoursAndMinutesTotal(totalMinutes as real);
    var hm := ToHoursAndMinutes(totalMinutes as real);
    assert Round(totalMinutes as real) == totalMinutes;
    assert hm.hours == totalMinutes / 60 by {
      assert (totalMinutes / 60) as real <= totalMinutes as real / 60.0 < (totalMinutes / 60) as real + 1.0;
    }
  }

  /** The discrepancy: 119.6 minutes is shown as 1 h 60 min. */
  lemma ToHoursAndMinutesSixty()
    ensures ToHoursAndMinutes(119.6) == HoursMinutes(1, 60)
  {
    assert Floor(119.6 / 60.0) == 1;
    assert Trunc(119.6 / 60.0) == 1;
    assert Rem(119.6, 60.0) == 59.6;
    assert Round(59.6) == 60;
  }

  /** The split as evidently intended: round the total first, then split, so
      that the minutes stay below 60. */
  function ToHoursAndMinutesRounded(totalMinutes: real): (hm: HoursMinutes)
    ensures hm.hours * 60 + hm.minutes == Round(totalMinutes)
    ensures 0 <= hm.minutes < 60
  {
    var total := Round(totalMinutes);
    HoursMinutes(total / 60, total % 60)
  }

  /** Wherever the as-written split already gives minutes below 60, the two
      agree. */
  lemma RoundedAgreesBelowSixty(totalMinutes: real)
    requires totalMinutes >= 0.0 && ToHoursAndMinutes(totalMinutes).minutes < 60
    ensures ToHoursAndMinutesRounded(totalMinutes) == ToHoursAndMinutes(totalMinutes)
  {
    ToHoursAndMinutesTotal(totalMinutes);
    var hm := ToHoursAndMinutes(totalMinutes);
    var total := Round(totalMinutes);
    assert total == hm.hours * 60 + hm.minutes;
    assert total / 60 == hm.hours && total % 60 == hm.minutes;
  }

  /** `totalTime` as written: the summed durations (hours) in minutes, split
      by `toHoursAndMinutes`. */
  function TotalTimeAsWritten(segs: seq<Segment>): (hm: HoursMinutes)
    ensures SumDuration(segs) >= 0.0 ==>
      hm.hours * 60 + hm.minutes == Round(SumDuration(segs) * 60.0) && 0 <= hm.minutes <= 60
  {
    var total := SumDuration(segs) * 60.0;
    if total >= 0.0 then ToHoursAndMinutesTotal(total); ToHoursAndMinutes(total)
    else ToHoursAndMinutes(total)
  }

  /** `totalTime` with the corrected split, which the model uses. */
  function TotalTime(segs: seq<Segment>): (hm: HoursMinutes)
    ensures hm.hours * 60 + hm.minutes == Round(SumDuration(segs) * 60.0) && 0 <= hm.minutes < 60
  {
    ToHoursAndMinutesRounded(SumDuration(segs) * 60.0)
  }

  /** The total time is the end time of the profile, rounded to the minute. */
  lemma TotalTimeIsProfileEnd(segs: seq<Segment>, maxSpeed: real)
    requires IsProfile(segs, maxSpeed) && |segs| > 0
    ensures TotalTime(segs).hours * 60 + TotalTime(segs).minutes == Round(Last(segs).end.time * 60.0)
    ensures 0 <= TotalTime(segs).minutes < 60
  {
    ProfileEndTime(segs, maxSpeed);
  }

  /** The total time as written is the end time of the profile, rounded to
      the minute, but its minutes may reach 60; below 60 it agrees with the
      corrected total. */
  lemma TotalTimeAsWrittenIsProfileEnd(segs: seq<Segment>, maxSpeed: real)
    requires IsProfile(segs, maxSpeed) && |segs| > 0
    ensures var hm := TotalTimeAsWritten(segs);
      && hm.hours * 60 + hm.minutes == Round(Last(segs).end.time * 60.0)
      && 0 <= hm.minutes <= 60
      && (hm.minutes < 60 ==> hm == TotalTime(segs))
  {
    ProfileEndTime(segs, maxSpeed);
    SumDurationPositive(segs, maxSpeed);
    var total := SumDuration(segs) * 60.0;
    if ToHoursAndMinutes(total).minutes < 60 {
      RoundedAgreesBelowSixty(total);
    }
  }

  /** A profile takes a positive time. */
  lemma {:induction false} SumDurationPositive(segs: seq<Segment>, maxSpeed: real)
    requires IsProfile(segs, maxSpeed) && |segs| > 0
    ensures SumDuration(segs) > 0.0
    decreases |segs|
  {
    if |segs| > 1 {
      var init := segs[..|segs| - 1];
      assert IsProfile(init, maxSpeed);
      SumDurationPositive(init, maxSpeed);
    } else {
      assert SumDuration(segs[..0]) == 0.0;
    }
  }
}
