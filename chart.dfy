/** The elevation chart's time axis and its cursor: the profile's track
    points, the time domain in milliseconds, the inverse of the time scale,
    the leftmost bisection over segment start times and the handler that
    copies the hovered segment into the current point. */
module Chart {
  import opened Geo

  /** Horizontal margins of the chart, in pixels. */
  const MarginLeft: real := 40.0
  const MarginRight: real := 20.0

  const MsPerHourReal: real := 3600000.0

  /** Hours to milliseconds. */
  function ConvertHoursToMilli(hours: real): (ms: real)
    ensures ms / MsPerHourReal == hours
    ensures ms >= 0.0 <==> hours >= 0.0
  {
    hours * 60.0 * 60.0 * 1000.0
  }

  // ---------------------------------------------------------------------
  // Derived chart data

  /** The first segment's start followed by every segment's end. */
  function Points(segs: seq<Segment>): (pts: seq<TrackPoint>)
    ensures segs == [] ==> pts == []
    ensures segs != [] ==> |pts| == |segs| + 1 && pts[0] == segs[0].start
    ensures forall k :: 0 <= k < |segs| ==> pts[k + 1] == segs[k].end
  {
    if segs == [] then []
    else [segs[0].start] + seq(|segs|, k requires 0 <= k < |segs| => segs[k].end)
  }

  /** On a profile the chart's points sit at the segments' boundaries: each
      point has the time and distance at which the next segment starts, and
      both strictly increase from one point to the next. */
  lemma PointsOfProfile(segs: seq<Segment>, maxSpeed: real)
    requires IsProfile(segs, maxSpeed)
    ensures var pts := Points(segs);
      && (forall k :: 0 <= k < |segs| ==>
            pts[k].time == segs[k].start.time && pts[k].distance == segs[k].start.distance)
      && (forall k :: 0 <= k < |pts| - 1 ==> pts[k].time < pts[k + 1].time && pts[k].distance < pts[k + 1].distance)
  {
    var pts := Points(segs);
    forall k | 0 <= k < |segs|
      ensures pts[k].time == segs[k].start.time && pts[k].distance == segs[k].start.distance
    {
      if k > 0 {
        assert pts[k] == segs[k - 1].end;
      }
    }
    forall k | 0 <= k < |pts| - 1
      ensures pts[k].time < pts[k + 1].time && pts[k].distance < pts[k + 1].distance
    {
      assert pts[k + 1] == segs[k].end;
    }
  }

  /** The time domain of the chart: from zero to the last point's time, in
      milliseconds, or empty when there are no points. */
  function XTimeExtent(pts: seq<TrackPoint>): (e: (real, real))
    ensures e.0 == 0.0
    ensures pts == [] ==> e.1 == 0.0
    ensures pts != [] ==> e.1 / MsPerHourReal == pts[|pts| - 1].time
  {
    if |pts| == 0 then (0.0, 0.0) else (0.0, ConvertHoursToMilli(pts[|pts| - 1].time))
  }

  /** The key the cursor is compared with: a segment's start time in
      milliseconds. */
  function StartKey(s: Segment): real
  {
    ConvertHoursToMilli(s.start.time)
  }

  /** On a profile the time domain holds every segment's key, and it ends
      where the last segment ends. */
  lemma XTimeExtentCoversProfile(segs: seq<Segment>, maxSpeed: real)
    requires IsProfile(segs, maxSpeed) && segs != []
    ensures var e := XTimeExtent(Points(segs));
      && e.1 == ConvertHoursToMilli(segs[|segs| - 1].end.time)
      && forall k :: 0 <= k < |segs| ==> 0.0 <= StartKey(segs[k]) < e.1
  {
    var n := |segs|;
    forall k | 0 <= k < n ensures 0.0 <= segs[k].start.time < segs[n - 1].end.time {
      StartTimesBounded(segs, maxSpeed, k);
    }
  }

  lemma {:induction false} StartTimesBounded(segs: seq<Segment>, maxSpeed: real, k: int)
    requires IsProfile(segs, maxSpeed) && 0 <= k < |segs|
    ensures 0.0 <= segs[k].start.time < segs[|segs| - 1].end.time
    decreases |segs| - k
  {
    if k < |segs| - 1 {
      StartTimesBounded(segs, maxSpeed, k + 1);
      assert segs[k + 1].start.time == segs[k].end.time;
    }
    if k > 0 {
      StartTimeNonNegative(segs, maxSpeed, k);
    }
  }

  lemma {:induction false} StartTimeNonNegative(segs: seq<Segment>, maxSpeed: real, k: int)
    requires IsProfile(segs, maxSpeed) && 0 <= k < |segs|
    ensures 0.0 <= segs[k].start.time
    decreases k
  {
    if k > 0 {
      StartTimeNonNegative(segs, maxSpeed, k - 1);
      assert segs[k].start.time == segs[k - 1].end.time;
    }
  }

  // ---------------------------------------------------------------------
  // The time scale

  /** The time scale: the domain mapped linearly onto the horizontal range
      between the margins. */
  function TimeScale(t: real, width: real, e: (real, real)): (px: real)
    requires e.1 != e.0
    ensures t == e.0 ==> px == MarginLeft
    ensures t == e.1 ==> px == width - MarginRight
  {
    MarginLeft + (t - e.0) / (e.1 - e.0) * (width - MarginLeft - MarginRight)
  }

  /** The inverse of the time scale at a horizontal position between the
      margins. */
  function InvertTime(px: real, width: real, e: (real, real)): (t: real)
    requires MarginLeft < px < width - MarginRight
    ensures e.0 <= e.1 ==> e.0 <= t <= e.1
  {
    var w := width - MarginLeft - MarginRight;
    var frac := (px - MarginLeft) / w;
    assert w > 0.0 && 0.0 < px - MarginLeft < w;
    assert frac * w == px - MarginLeft;
    ScaleBySign(frac, w);
    assert frac >= 1.0 ==> frac * w >= w;
    assert frac >= 1.0 ==> px - MarginLeft >= w;
    assert 0.0 < frac;
    assert frac < 1.0;
    e.0 * (1.0 - frac) + e.1 * frac
  }

  lemma ScaleBySign(f: real, w: real)
    requires w > 0.0
    ensures f <= 0.0 ==> f * w <= 0.0
    ensures f >= 1.0 ==> f * w >= w
  {
  }

  /** Inverting and then scaling returns the position. */
  lemma ScaleInvertRoundTrip(px: real, width: real, e: (real, real))
    requires MarginLeft < px < width - MarginRight && e.1 != e.0
    ensures TimeScale(InvertTime(px, width, e), width, e) == px
  {
    var w := width - MarginLeft - MarginRight;
    var frac := (px - MarginLeft) / w;
    var t := InvertTime(px, width, e);
    assert t - e.0 == (e.1 - e.0) * frac;
    assert (t - e.0) / (e.1 - e.0) == frac;
    assert frac * w == px - MarginLeft;
  }

  /** The cursor's time as a whole number of milliseconds: the inverted
      position turned into a date, which truncates it. */
  function MouseTime(px: real, width: real, e: (real, real)): (t: int)
    requires MarginLeft < px < width - MarginRight
    ensures 0.0 <= e.0 <= e.1 ==> 0 <= t && t as real <= InvertTime(px, width, e) < t as real + 1.0
  {
    Trunc(InvertTime(px, width, e))
  }

  // ---------------------------------------------------------------------
  // Leftmost bisection on the segments' start times

  predicate StartsIncrease(segs: seq<Segment>)
  {
    forall i, j :: 0 <= i < j < |segs| ==> segs[i].start.time < segs[j].start.time
  }

  /** The reference the bisection is checked against: the first index in
      `[lo, hi)` whose key is at least `x`, found by scanning, or `hi`. */
  function FirstAtLeast(segs: seq<Segment>, x: real, lo: int, hi: int): (r: int)
    requires 0 <= lo <= hi <= |segs|
    ensures lo <= r <= hi
    ensures forall k :: lo <= k < r ==> StartKey(segs[k]) < x
    ensures r < hi ==> StartKey(segs[r]) >= x
    decreases hi - lo
  {
    if lo == hi then hi
    else if StartKey(segs[lo]) >= x then lo
    else FirstAtLeast(segs, x, lo + 1, hi)
  }

  /** Leftmost insertion point of `x` among the keys of `segs[lo..hi]`. On
      any input it stops at a boundary: every key just left of it is below
      `x` and the key at it is not. On increasing start times that boundary
      is the first key not below `x`. */
  method BisectLeft(segs: seq<Segment>, x: real, lo: int, hi: int) returns (i: int)
    requires 0 <= lo && hi <= |segs|
    ensures lo >= hi ==> i == lo
    ensures lo < hi ==> lo <= i <= hi
    ensures lo < hi ==> (i == lo || StartKey(segs[i - 1]) < x) && (i == hi || StartKey(segs[i]) >= x)
    ensures lo < hi && StartsIncrease(segs) ==> i == FirstAtLeast(segs, x, lo, hi)
  {
    var l, h := lo, hi;
    if l < h {
      while l < h
        invariant lo <= l <= h <= hi
        invariant l == lo || StartKey(segs[l - 1]) < x
        invariant h == hi || StartKey(segs[h]) >= x
        decreases h - l
      {
        var mid := (l + h) / 2;
        if StartKey(segs[mid]) < x {
          l := mid + 1;
        } else {
          h := mid;
        }
      }
      if StartsIncrease(segs) {
        BoundaryIsFirst(segs, x, lo, hi, l);
      }
    }
    i := l;
  }

  /** On increasing keys there is one boundary, the scan's. */
  lemma BoundaryIsFirst(segs: seq<Segment>, x: real, lo: int, hi: int, i: int)
    requires 0 <= lo <= i <= hi <= |segs| && StartsIncrease(segs)
    requires i == lo || StartKey(segs[i - 1]) < x
    requires i == hi || StartKey(segs[i]) >= x
    ensures i == FirstAtLeast(segs, x, lo, hi)
  {
  }

  // ---------------------------------------------------------------------
  // The hovered segment

  /** What the mouse handler does: nothing outside the margins, a failed
      read of the segment before index 0, or shows the segment at `index`. */
  datatype Outcome = Ignored | Failed | Shown(index: nat)

  /** What the handler selects on increasing start times for the cursor's
      time `mouse`: the segment before the leftmost insertion point, with the
      last segment left out of the search range. */
  function Selection(segs: seq<Segment>, mouse: real): (r: Outcome)
    ensures r == Failed <==> |segs| <= 1 || StartKey(segs[0]) >= mouse
    ensures r.Shown? ==> r.index + 2 <= |segs| && StartKey(segs[r.index]) < mouse
  {
    if |segs| <= 1 then Failed
    else
      var i := FirstAtLeast(segs, mouse, 0, |segs| - 1);
      if i == 0 then Failed else Shown(i - 1)
  }

  /** The selection is the segment whose start precedes the cursor and whose
      successor's start does not, except that the last segment is never
      chosen; it fails exactly when there is at most one segment or the
      cursor is not past the first start. */
  lemma SelectionBounds(segs: seq<Segment>, mouse: real)
    requires StartsIncrease(segs)
    ensures Selection(segs, mouse) == Failed <==> |segs| <= 1 || StartKey(segs[0]) >= mouse
    ensures Selection(segs, mouse).Shown? ==>
      var k := Selection(segs, mouse).index;
      && k + 2 <= |segs|
      && StartKey(segs[k]) < mouse
      && (k + 2 == |segs| || mouse <= StartKey(segs[k + 1]))
  {
  }

  /** On a profile of two or more segments, a cursor inside the last segment
      shows the one before it. */
  lemma LastSegmentNeverShown(segs: seq<Segment>, maxSpeed: real, mouse: real)
    requires IsProfile(segs, maxSpeed) && StartsIncrease(segs) && |segs| >= 2
    requires StartKey(segs[|segs| - 1]) < mouse
    ensures Selection(segs, mouse) == Shown(|segs| - 2)
  {
  }

  /** Two segments of one hour each: a cursor at ninety minutes shows the
      first. */
  lemma LastSegmentExample()
    ensures var p := Point(0.0, 0.0, 0.0);
      var a := Segment(1.0, 0.0, 1.0, 1.0, TrackPoint(p, 0.0, 0.0), TrackPoint(p, 1.0, 1.0));
      var b := Segment(1.0, 0.0, 1.0, 1.0, TrackPoint(p, 1.0, 1.0), TrackPoint(p, 2.0, 2.0));
      Selection([a, b], 5400000.0) == Shown(0)
  {
  }

  /** The segment under the cursor when the whole array is searched: the
      segment whose time span holds the cursor's time, the last one
      included. */
  function HoveredSegment(segs: seq<Segment>, mouse: real): (r: Outcome)
    ensures r == Failed <==> |segs| == 0 || StartKey(segs[0]) >= mouse
    ensures r.Shown? ==>
      && r.index < |segs| && StartKey(segs[r.index]) < mouse
      && (r.index + 1 == |segs| || StartKey(segs[r.index + 1]) >= mouse)
  {
    var i := FirstAtLeast(segs, mouse, 0, |segs|);
    if i == 0 then Failed else Shown(i - 1)
  }

  /** On a profile, a cursor time after the start and up to the end of the
      ride lies in the time span of the segment shown. */
  lemma HoveredSegmentContains(segs: seq<Segment>, maxSpeed: real, mouse: real)
    requires IsProfile(segs, maxSpeed) && StartsIncrease(segs) && segs != []
    requires 0.0 < mouse <= ConvertHoursToMilli(segs[|segs| - 1].end.time)
    ensures HoveredSegment(segs, mouse).Shown?
    ensures var k := HoveredSegment(segs, mouse).index;
      k < |segs| && StartKey(segs[k]) < mouse <= ConvertHoursToMilli(segs[k].end.time)
  {
    var n := |segs|;
    var i := FirstAtLeast(segs, mouse, 0, n);
    assert StartKey(segs[0]) == 0.0;
    assert i > 0;
    if i < n {
      assert segs[i].start.time == segs[i - 1].end.time;
    }
  }

  /** The point under the chart's cursor: the speed of the hovered segment
      and the coordinates of its start. */
  class CurrentPoint {
    var speed: real
    var lat: real
    var lon: real

    constructor ()
      ensures speed == 0.0 && lat == 0.0 && lon == 0.0
    {
      speed := 0.0;
      lat := 0.0;
      lon := 0.0;
    }

    /** The mouse handler at horizontal position `px` on a chart `width`
        pixels wide. Outside the margins, or when the bisection lands on 0 and
        the segment before it does not exist, nothing changes; otherwise the
        current point takes the selected segment's speed and start. */
    method OnMouseMove(px: real, width: real, segs: seq<Segment>) returns (outcome: Outcome)
      modifies this
      ensures px <= MarginLeft || px >= width - MarginRight ==> outcome == Ignored
      ensures outcome.Ignored? || outcome.Failed? ==> unchanged(this)
      ensures outcome.Shown? ==>
        var k := outcome.index;
        && k + 2 <= |segs|
        && speed == segs[k].speed && lat == segs[k].start.point.lat && lon == segs[k].start.point.lon
      ensures MarginLeft < px < width - MarginRight ==>
        var mouse := MouseTime(px, width, XTimeExtent(Points(segs))) as real;
        && outcome != Ignored
        && (outcome.Shown? ==> StartKey(segs[outcome.index]) < mouse)
        && (outcome == Failed ==> |segs| <= 1 || StartKey(segs[0]) >= mouse)
        && (StartsIncrease(segs) ==> outcome == Selection(segs, mouse))
    {
      if px <= MarginLeft || px >= width - MarginRight {
        return Ignored;
      }
      var mouse := MouseTime(px, width, XTimeExtent(Points(segs)));
      var i := BisectLeft(segs, mouse as real, 0, |segs| - 1);
      if i == 0 {
        return Failed;
      }
      speed := segs[i - 1].speed;
      lat := segs[i - 1].start.point.lat;
      lon := segs[i - 1].start.point.lon;
      outcome := Shown(i - 1);
    }
  }
}
