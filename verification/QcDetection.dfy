/** Frame times, short shots and luma runs, and what the interval merge makes of them. */
module QcDetection {
  import opened QcIntervals
  import opened SortedSets
  import opened Wrappers

  type Positive = x: nat | x > 0 witness 1

  /** A frame rate of `num / den` frames a second. */
  datatype Rate = Rate(num: Positive, den: Positive)

  const SHORT_SHOT: Reason := 3  // "short_shot" among the six codes in string order
  const CONTINUOUS_LUMA_MIN_MS := 1000

  /** The time of a frame in ms, rounded to the nearest. */
  function FrameTime(frame: nat, rate: Rate): nat {
    (frame * 1000 * rate.den + rate.num / 2) / rate.num
  }

  lemma DivBounds(n: nat, d: Positive)
    ensures d * (n / d) <= n < d * (n / d) + d
  {
  }

  /** The time in ms differs from the exact rational by at most half a millisecond. */
  lemma FrameTimeNearest(frame: nat, rate: Rate)
    ensures
      var exact := frame * 1000 * rate.den;  // exact time times rate.num
      var rounded := rate.num * FrameTime(frame, rate);
      2 * (rounded - exact) <= rate.num && 2 * (exact - rounded) <= rate.num
  {
    DivBounds(frame * 1000 * rate.den + rate.num / 2, rate.num);
  }

  /** `_frame_time_ms`, with the arguments it refuses. */
  function FrameTimeMs(frame: int, num: int, den: int): (r: Result<nat>)
    ensures r.Stopped? <==> frame < 0 || num <= 0 || den <= 0
    ensures r.Ok? ==> 2 * (num * r.value - frame * 1000 * den) <= num && 2 * (frame * 1000 * den - num * r.value) <= num
  {
    if frame < 0 || num <= 0 || den <= 0 then Stopped(Raised)
    else
      FrameTimeNearest(frame, Rate(num, den));
      Ok(FrameTime(frame, Rate(num, den)))
  }

  lemma FrameTimeMonotone(f: nat, g: nat, rate: Rate)
    requires f <= g
    ensures FrameTime(f, rate) <= FrameTime(g, rate)
  {
    var a, b := f * 1000 * rate.den + rate.num / 2, g * 1000 * rate.den + rate.num / 2;
    MulMonotone(f * 1000, g * 1000, rate.den);
    DivMonotone(a, b, rate.num);
  }

  lemma MulMonotone(x: nat, y: nat, z: nat)
    requires x <= y
    ensures x * z <= y * z
  {
  }

  lemma DivMonotone(a: nat, b: nat, d: Positive)
    requires a <= b
    ensures a / d <= b / d
  {
    DivBounds(a, d);
    DivBounds(b, d);
    assert d * (b / d) + d == d * (b / d + 1);
    MulCancel(a / d, b / d + 1, d);
  }

  lemma MulCancel(x: nat, y: nat, d: Positive)
    requires d * x < d * y
    ensures x < y
  {
    if y <= x {
      MulMonotone(y, x, d);
    }
  }

  // ----- short shots

  function Shot(a: nat, b: nat, rate: Rate): QcInterval
    requires a < b
  {
    Interval(a, b - 1, FrameTime(a, rate), FrameTime(b, rate), [SHORT_SHOT], map["frame_count" := b - a])
  }

  /** The shot boundaries: both ends and every cut inside. */
  ghost predicate IsBoundary(cuts: seq<int>, total: nat, b: int) {
    b == 0 || b == total || (b in cuts && 0 <= b <= total)
  }

  /** Two neighbouring boundaries. */
  ghost predicate IsShot(cuts: seq<int>, total: nat, a: nat, b: nat) {
    && IsBoundary(cuts, total, a) && IsBoundary(cuts, total, b) && a < b
    && forall c :: a < c < b ==> !IsBoundary(cuts, total, c)
  }

  /** `sorted({0, total, ...})` */
  method Boundaries(cuts: seq<int>, total: nat) returns (boundaries: seq<nat>)
    ensures Ascending(boundaries) && boundaries != []
    ensures forall b: nat :: b in boundaries <==> IsBoundary(cuts, total, b)
  {
    boundaries := Add(Add([], 0), total);
    for i := 0 to |cuts|
      invariant Ascending(boundaries)
      invariant forall b: nat :: b in boundaries <==> IsBoundary(cuts[..i], total, b)
    {
      assert cuts[..i + 1] == cuts[..i] + [cuts[i]];
      if 0 <= cuts[i] <= total {
        boundaries := Add(boundaries, cuts[i]);
      }
    }
    assert cuts[..|cuts|] == cuts;
    assert 0 in boundaries;
  }

  /** `x` is the shot of one of the first `n` gaps, a short one. */
  ghost predicate FromGap(boundaries: seq<nat>, n: int, rate: Rate, x: QcInterval)
    requires Ascending(boundaries) && n < |boundaries|
  {
    exists k ::
      0 <= k < n && boundaries[k + 1] - boundaries[k] <= 3 && x == Shot(boundaries[k], boundaries[k + 1], rate)
  }

  /** The gaps of one to three frames between neighbouring boundaries, in order. */
  method GapIntervals(boundaries: seq<nat>, rate: Rate) returns (intervals: seq<QcInterval>)
    requires Ascending(boundaries) && boundaries != []
    ensures Apart(intervals)
    ensures forall x :: x in intervals ==> FromGap(boundaries, |boundaries| - 1, rate, x)
    ensures forall k :: 0 <= k < |boundaries| - 1 && boundaries[k + 1] - boundaries[k] <= 3 ==>
      Shot(boundaries[k], boundaries[k + 1], rate) in intervals
  {
    intervals := [];
    for i := 0 to |boundaries| - 1
      invariant Apart(intervals)
      invariant intervals != [] ==>
        intervals[|intervals| - 1].endFrame < boundaries[i] && intervals[|intervals| - 1].endMs <= FrameTime(boundaries[i], rate)
      invariant forall x :: x in intervals ==> FromGap(boundaries, i, rate, x)
      invariant forall k :: 0 <= k < i && boundaries[k + 1] - boundaries[k] <= 3 ==>
        Shot(boundaries[k], boundaries[k + 1], rate) in intervals
    {
      var start, end := boundaries[i], boundaries[i + 1];
      FrameTimeMonotone(start, end, rate);
      if end - start in {1, 2, 3} {
        var shot := Shot(start, end, rate);
        ApartSnoc(intervals, shot);
        intervals := intervals + [shot];
      }
    }
  }

  lemma ApartSnoc(xs: seq<QcInterval>, x: QcInterval)
    requires Apart(xs) && WellFormed(x)
    requires xs != [] ==> xs[|xs| - 1].endFrame < x.startFrame && xs[|xs| - 1].endMs <= x.startMs
    ensures Apart(xs + [x])
  {
  }

  /** Exactly the shots of one to three frames, in order; merging them changes nothing. */
  method ShortShotsAtRate(cuts: seq<int>, total: nat, rate: Rate) returns (intervals: seq<QcInterval>)
    ensures forall x :: x in intervals <==>
      exists a: nat, b: nat :: IsShot(cuts, total, a, b) && b - a <= 3 && x == Shot(a, b, rate)
    ensures Apart(intervals) && MergeAll(intervals) == intervals
  {
    var boundaries := Boundaries(cuts, total);
    intervals := GapIntervals(boundaries, rate);
    ApartIsFixedPoint(intervals);
    NeighboursAreShots(cuts, total, boundaries);
    forall x | x in intervals
      ensures exists a: nat, b: nat :: IsShot(cuts, total, a, b) && b - a <= 3 && x == Shot(a, b, rate)
    {
      var k :| 0 <= k < |boundaries| - 1 && boundaries[k + 1] - boundaries[k] <= 3 && x == Shot(boundaries[k], boundaries[k + 1], rate);
      assert IsShot(cuts, total, boundaries[k], boundaries[k + 1]);
    }
    forall x, a: nat, b: nat | IsShot(cuts, total, a, b) && b - a <= 3 && x == Shot(a, b, rate)
      ensures x in intervals
    {
      var k :| 0 <= k < |boundaries| - 1 && a == boundaries[k] && b == boundaries[k + 1];
    }
  }

  /** Some shot is of one to three frames. */
  ghost predicate HasShortShot(cuts: seq<int>, total: nat) {
    exists a: nat, b: nat :: IsShot(cuts, total, a, b) && b - a <= 3
  }

  /** `short_shot_intervals`. A frame rate that is not positive is refused only when there
      is a short shot whose times are asked for. */
  method ShortShotIntervals(cuts: seq<int>, total: int, num: int, den: int) returns (r: Result<seq<QcInterval>>)
    ensures r.Stopped? <==> total < 0 || ((num <= 0 || den <= 0) && HasShortShot(cuts, total))
    ensures r.Ok? ==> Apart(r.value) && MergeAll(r.value) == r.value
    ensures r.Ok? && num > 0 && den > 0 ==>
      forall x :: x in r.value <==> exists a: nat, b: nat :: IsShot(cuts, total, a, b) && b - a <= 3 && x == Shot(a, b, Rate(num, den))
    ensures r.Ok? && num > 0 && den > 0 ==> forall i :: 0 <= i < |r.value| ==> ShortShotAt(r.value[i], cuts, total, num, den)
    ensures r.Ok? && !(num > 0 && den > 0) ==> r.value == []
  {
    hide Shot, ShortShotAt;
    if total < 0 {
      return Stopped(Raised);
    }
    var rateOk := num > 0 && den > 0;
    var rate := if rateOk then Rate(num, den) else Rate(1, 1);
    var intervals := ShortShotsAtRate(cuts, total, rate);
    if !rateOk && intervals != [] {
      assert intervals[0] in intervals;
      return Stopped(Raised);
    }
    if HasShortShot(cuts, total) {
      var a: nat, b: nat :| IsShot(cuts, total, a, b) && b - a <= 3;
      ShotIsGap(cuts, total, a, b);
      assert Shot(a, b, rate) in intervals;
    }
    if rateOk {
      forall i | 0 <= i < |intervals| ensures ShortShotAt(intervals[i], cuts, total, num, den) {
        assert intervals[i] in intervals;
        var a: nat, b: nat :| IsShot(cuts, total, a, b) && b - a <= 3 && intervals[i] == Shot(a, b, rate);
        ShotFields(cuts, total, a, b, rate);
      }
    }
    return Ok(intervals);
  }

  /** A short-shot interval, field by field: one to three frames between two neighbouring
      boundaries, from the time of its first frame to that of the frame after its last. */
  ghost predicate ShortShotAt(x: QcInterval, cuts: seq<int>, total: nat, num: int, den: int) {
    && IsBoundary(cuts, total, x.startFrame) && IsBoundary(cuts, total, x.endFrame + 1)
    && (forall c :: x.startFrame < c <= x.endFrame ==> !IsBoundary(cuts, total, c))
    && 1 <= x.endFrame + 1 - x.startFrame <= 3
    && FrameTimeMs(x.startFrame, num, den) == Ok(x.startMs) && FrameTimeMs(x.endFrame + 1, num, den) == Ok(x.endMs)
    && x.reasons == [SHORT_SHOT] && x.values == map["frame_count" := x.endFrame + 1 - x.startFrame]
  }

  lemma ShotFields(cuts: seq<int>, total: nat, a: nat, b: nat, rate: Rate)
    requires IsShot(cuts, total, a, b) && b - a <= 3
    ensures a < b && ShortShotAt(Shot(a, b, rate), cuts, total, rate.num, rate.den)
  {
    hide FrameTime;
  }

  lemma ShotIsGap(cuts: seq<int>, total: nat, a: nat, b: nat)
    requires IsShot(cuts, total, a, b)
    ensures a < b
  {
  }

  /** The neighbours in the ascending sequence of boundaries are exactly the shots. */
  lemma NeighboursAreShots(cuts: seq<int>, total: nat, boundaries: seq<nat>)
    requires Ascending(boundaries) && forall b: nat :: b in boundaries <==> IsBoundary(cuts, total, b)
    ensures forall k :: 0 <= k < |boundaries| - 1 ==> IsShot(cuts, total, boundaries[k], boundaries[k + 1])
    ensures forall a: nat, b: nat :: IsShot(cuts, total, a, b) ==>
      exists k :: 0 <= k < |boundaries| - 1 && a == boundaries[k] && b == boundaries[k + 1]
  {
    forall k | 0 <= k < |boundaries| - 1 ensures IsShot(cuts, total, boundaries[k], boundaries[k + 1]) {
      assert forall j :: 0 <= j < |boundaries| ==> boundaries[j] <= boundaries[k] || boundaries[k + 1] <= boundaries[j];
      assert boundaries[k] in boundaries && boundaries[k + 1] in boundaries;
    }
    forall a: nat, b: nat | IsShot(cuts, total, a, b)
      ensures exists k :: 0 <= k < |boundaries| - 1 && a == boundaries[k] && b == boundaries[k + 1]
    {
      var k :| 0 <= k < |boundaries| && boundaries[k] == a;
      var j :| 0 <= j < |boundaries| && boundaries[j] == b;
      assert k + 1 < |boundaries| && boundaries[k + 1] in boundaries;
    }
  }
}
