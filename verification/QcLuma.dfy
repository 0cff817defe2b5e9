/** `_continuous_luma_intervals` and its composition with the interval merge. */
module QcLuma {
  import opened Wrappers
  import opened QcIntervals
  import opened SortedSets
  import opened QcDetection

  /** The reasons of a single frame and of a continuous run, and the frame clock. */
  datatype Luma = Luma(single: Reason, continuous: Reason, clock: nat -> nat)

  predicate Before(f: nat, g: nat) {
    f <= g
  }

  ghost predicate Monotone(l: Luma) {
    forall f: nat, g: nat {:trigger Before(f, g)} :: Before(f, g) ==> l.clock(f) <= l.clock(g)
  }

  function AtRate(single: Reason, continuous: Reason, rate: Rate): Luma {
    Luma(single, continuous, (f: nat) => FrameTime(f, rate))
  }

  lemma AtRateIsMonotone(single: Reason, continuous: Reason, rate: Rate)
    ensures Monotone(AtRate(single, continuous, rate))
  {
    forall f: nat, g: nat | Before(f, g)
      ensures AtRate(single, continuous, rate).clock(f) <= AtRate(single, continuous, rate).clock(g)
    {
      FrameTimeMonotone(f, g, rate);
    }
  }

  /** A maximal run of consecutive frames, both ends included. */
  datatype Run = Run(first: nat, last: nat)

  function FrameMark(l: Luma, f: nat, values: map<string, int>): QcInterval {
    Interval(f, f, l.clock(f), l.clock(f + 1), [l.single], values)
  }

  function RunMark(l: Luma, r: Run, values: map<string, int>): QcInterval {
    Interval(r.first, r.last, l.clock(r.first), l.clock(r.last + 1), [l.continuous], values)
  }

  /** `duration_rule_hit` for a run of rounded duration. */
  predicate Hit(l: Luma, r: Run) {
    l.clock(r.last + 1) - l.clock(r.first) > CONTINUOUS_LUMA_MIN_MS
  }

  /** The runs are in order, apart, and each is a maximal run of consecutive frames of
      the set; together they are the whole set. */
  ghost predicate MaximalRuns(frames: set<nat>, runs: seq<Run>) {
    && (forall k :: 0 <= k < |runs| ==> runs[k].first <= runs[k].last)
    && (forall k :: 0 <= k < |runs| - 1 ==> runs[k].last + 1 < runs[k + 1].first)
    && (forall f: nat :: f in frames <==> InRuns(runs, f))
  }

  ghost predicate InRuns(runs: seq<Run>, f: nat) {
    exists k :: 0 <= k < |runs| && runs[k].first <= f <= runs[k].last
  }

  lemma InRunsSnoc(runs: seq<Run>, r: Run, f: nat)
    ensures InRuns(runs + [r], f) <==> InRuns(runs, f) || r.first <= f <= r.last
  {
    var all := runs + [r];
    assert all[|runs|] == r;
    if InRuns(runs, f) {
      var k :| 0 <= k < |runs| && runs[k].first <= f <= runs[k].last;
      assert all[k] == runs[k];
    }
    if InRuns(all, f) {
      var k :| 0 <= k < |all| && all[k].first <= f <= all[k].last;
      assert k < |runs| ==> all[k] == runs[k];
    }
  }

  ghost function Members(s: seq<nat>): (r: set<nat>)
    ensures forall f: nat :: f in r <==> f in s
  {
    set f: nat | f in s
  }

  // ----- the intervals without their values

  function Frames(l: Luma, a: nat, b: nat): seq<QcInterval>
    decreases b + 1 - a
  {
    if b < a then [] else [FrameMark(l, a, map[])] + Frames(l, a + 1, b)
  }

  function AllFrames(l: Luma, runs: seq<Run>): seq<QcInterval> {
    if runs == [] then [] else Frames(l, runs[0].first, runs[0].last) + AllFrames(l, runs[1..])
  }

  function RunMarks(l: Luma, runs: seq<Run>): seq<QcInterval> {
    if runs == [] then []
    else OwnMark(l, runs[0]) + RunMarks(l, runs[1..])
  }

  /** A whole run as one interval with both reasons. */
  function Whole(l: Luma, r: Run): QcInterval {
    Interval(r.first, r.last, l.clock(r.first), l.clock(r.last + 1),
             JoinReasons([l.single], [l.continuous]), map[])
  }

  /** What merging must give: one interval with both reasons for each run that lasts
      longer than a second, one interval per frame for every other run. */
  function Expected(l: Luma, runs: seq<Run>): seq<QcInterval> {
    if runs == [] then [] else ExpectedRun(l, runs[0]) + Expected(l, runs[1..])
  }

  function ExpectedRun(l: Luma, r: Run): seq<QcInterval> {
    if Hit(l, r) then [Whole(l, r)] else Frames(l, r.first, r.last)
  }

  /** One interval for the whole of a run that lasts longer than a second. */
  ghost predicate LongRunMark(l: Luma, r: Run, x: QcInterval) {
    && l.clock(r.last + 1) - l.clock(r.first) > 1000
    && x.startFrame == r.first && x.endFrame == r.last && x.startMs == l.clock(r.first) && x.endMs == l.clock(r.last + 1)
    && forall reason :: reason in x.reasons <==> reason == l.single || reason == l.continuous
  }

  /** One frame of a run that does not. */
  ghost predicate ShortRunMark(l: Luma, r: Run, x: QcInterval) {
    && l.clock(r.last + 1) - l.clock(r.first) <= 1000
    && r.first <= x.startFrame == x.endFrame <= r.last && x.startMs == l.clock(x.startFrame) && x.endMs == l.clock(x.startFrame + 1)
    && x.reasons == [l.single]
  }

  lemma {:induction false} FramesMean(l: Luma, a: nat, b: nat)
    ensures |Frames(l, a, b)| == if a <= b then b + 1 - a else 0
    ensures forall i :: 0 <= i < |Frames(l, a, b)| ==>
      var x := Frames(l, a, b)[i];
      x == Interval(a + i, a + i, l.clock(a + i), l.clock(a + i + 1), [l.single], map[])
    decreases b + 1 - a
  {
    if a <= b {
      FramesMean(l, a + 1, b);
      forall i | 0 <= i < |Frames(l, a, b)|
        ensures Frames(l, a, b)[i] == Interval(a + i, a + i, l.clock(a + i), l.clock(a + i + 1), [l.single], map[])
      {
        assert i > 0 ==> Frames(l, a, b)[i] == Frames(l, a + 1, b)[i - 1];
      }
    }
  }

  /** What is expected of one run, field by field: a single interval if it lasts longer than a
      second, else one for each of its frames. */
  lemma ExpectedRunMeans(l: Luma, r: Run)
    requires r.first <= r.last
    ensures
      var xs := ExpectedRun(l, r);
      if l.clock(r.last + 1) - l.clock(r.first) > 1000 then |xs| == 1 && LongRunMark(l, r, xs[0])
      else |xs| == r.last + 1 - r.first && forall i :: 0 <= i < |xs| ==> ShortRunMark(l, r, xs[i]) && xs[i].startFrame == r.first + i
  {
    FramesMean(l, r.first, r.last);
  }

  // ----- the detector

  function Range(a: nat, b: nat): seq<nat>
    decreases b + 1 - a
  {
    if b < a then [] else [a] + Range(a + 1, b)
  }

  /** The frames of the runs, in order. */
  function Numbers(runs: seq<Run>): seq<nat> {
    if runs == [] then [] else Range(runs[0].first, runs[0].last) + Numbers(runs[1..])
  }

  lemma {:induction false} RangeSnoc(a: nat, b: nat)
    requires a <= b + 1
    ensures Range(a, b + 1) == Range(a, b) + [b + 1]
    decreases b + 1 - a
  {
    if a <= b {
      RangeSnoc(a + 1, b);
    }
  }

  lemma {:induction false} NumbersSnoc(runs: seq<Run>, r: Run)
    ensures Numbers(runs + [r]) == Numbers(runs) + Range(r.first, r.last)
  {
    if runs == [] {
      assert [r][1..] == [];
    } else {
      var head, tail, own := Range(runs[0].first, runs[0].last), Numbers(runs[1..]), Range(r.first, r.last);
      assert (runs + [r])[1..] == runs[1..] + [r];
      assert head + (tail + own) == (head + tail) + own;
      NumbersSnoc(runs[1..], r);
    }
  }

  /** `runs` are the maximal runs of the frames of `ordered`. */
  ghost predicate RunsOf(ordered: seq<nat>, runs: seq<Run>) {
    MaximalRuns(Members(ordered), runs) && Numbers(runs) == ordered
  }

  lemma RunsExtend(ordered: seq<nat>, runs: seq<Run>, start: nat, previous: nat)
    requires start <= previous && RunsOf(ordered, runs + [Run(start, previous)])
    ensures RunsOf(ordered + [previous + 1], runs + [Run(start, previous + 1)])
  {
    ExtendRun(Members(ordered), runs, start, previous);
    assert Members(ordered + [previous + 1]) == Members(ordered) + {previous + 1};
    NumbersSnoc(runs, Run(start, previous));
    NumbersSnoc(runs, Run(start, previous + 1));
    RangeSnoc(start, previous);
  }

  lemma RunsNext(ordered: seq<nat>, runs: seq<Run>, f: nat)
    requires RunsOf(ordered, runs) && (runs != [] ==> runs[|runs| - 1].last + 1 < f)
    ensures RunsOf(ordered + [f], runs + [Run(f, f)])
  {
    NextRun(Members(ordered), runs, f);
    assert Members(ordered + [f]) == Members(ordered) + {f};
    NumbersSnoc(runs, Run(f, f));
    assert Range(f, f) == [f] + Range(f + 1, f) == [f];
  }

  lemma NoRuns()
    ensures RunsOf([], [])
  {
  }

  /** The run-length pass over the ordered frames. */
  method FindRuns(ordered: seq<nat>) returns (runs: seq<Run>)
    requires Ascending(ordered)
    ensures RunsOf(ordered, runs)
  {
    hide MaximalRuns, Numbers;
    NoRuns();
    if ordered == [] {
      return [];
    }
    runs := [];
    var start, previous := ordered[0], ordered[0];
    RunsNext([], [], start);
    assert ordered[..1] == [] + [start];
    for i := 1 to |ordered|
      invariant start <= previous == ordered[i - 1]
      invariant RunsOf(ordered[..i], runs + [Run(start, previous)])
    {
      var frame := ordered[i];
      assert ordered[..i + 1] == ordered[..i] + [frame];
      if frame == previous + 1 {
        RunsExtend(ordered[..i], runs, start, previous);
        previous := frame;
      } else {
        RunsNext(ordered[..i], runs + [Run(start, previous)], frame);
        runs := runs + [Run(start, previous)];
        start, previous := frame, frame;
      }
    }
    assert ordered[..|ordered|] == ordered;
    runs := runs + [Run(start, previous)];
  }

  lemma ExtendRun(frames: set<nat>, runs: seq<Run>, start: nat, previous: nat)
    requires MaximalRuns(frames, runs + [Run(start, previous)])
    ensures MaximalRuns(frames + {previous + 1}, runs + [Run(start, previous + 1)])
  {
    var before, after := runs + [Run(start, previous)], runs + [Run(start, previous + 1)];
    assert before[|runs|] == Run(start, previous) && after[|runs|] == Run(start, previous + 1);
    assert forall k :: 0 <= k < |runs| ==> after[k] == before[k];
    forall f: nat ensures f in frames + {previous + 1} <==> InRuns(after, f) {
      InRunsSnoc(runs, Run(start, previous), f);
      InRunsSnoc(runs, Run(start, previous + 1), f);
    }
  }

  lemma NextRun(frames: set<nat>, runs: seq<Run>, f: nat)
    requires MaximalRuns(frames, runs) && (runs != [] ==> runs[|runs| - 1].last + 1 < f)
    ensures MaximalRuns(frames + {f}, runs + [Run(f, f)])
  {
    forall g: nat ensures g in frames + {f} <==> InRuns(runs + [Run(f, f)], g) {
      InRunsSnoc(runs, Run(f, f), g);
    }
  }

  function Marks(l: Luma, fs: seq<nat>): seq<QcInterval> {
    if fs == [] then [] else [FrameMark(l, fs[0], map[])] + Marks(l, fs[1..])
  }

  lemma {:induction false} MarksConcat(l: Luma, a: seq<nat>, b: seq<nat>)
    ensures Marks(l, a + b) == Marks(l, a) + Marks(l, b)
  {
    if a == [] {
      assert a + b == b;
    } else {
      assert (a + b)[1..] == a[1..] + b;
      MarksConcat(l, a[1..], b);
    }
  }

  lemma {:induction false} FramesAreMarks(l: Luma, a: nat, b: nat)
    ensures Marks(l, Range(a, b)) == Frames(l, a, b)
    decreases b + 1 - a
  {
    if a <= b {
      FramesAreMarks(l, a + 1, b);
    }
  }

  lemma {:induction false} AllFramesAreMarks(l: Luma, runs: seq<Run>)
    ensures Marks(l, Numbers(runs)) == AllFrames(l, runs)
  {
    if runs != [] {
      FramesAreMarks(l, runs[0].first, runs[0].last);
      AllFramesAreMarks(l, runs[1..]);
      MarksConcat(l, Range(runs[0].first, runs[0].last), Numbers(runs[1..]));
    }
  }

  lemma SameSnoc(xs: seq<QcInterval>, ys: seq<QcInterval>, x: QcInterval, y: QcInterval)
    requires SameButValues(xs, ys) && Bare(x) == Bare(y)
    ensures SameButValues(xs + [x], ys + [y])
  {
  }

  /** The per-frame intervals, with the measured value of each frame. */
  method FrameIntervals(frames: map<nat, int>, ordered: seq<nat>, l: Luma, valueName: string)
    returns (intervals: seq<QcInterval>)
    requires forall f :: f in ordered ==> f in frames
    ensures SameButValues(intervals, Marks(l, ordered)) && OwnValues(frames, valueName, intervals)
  {
    hide OwnValues;
    intervals := [];
    NoValues(frames, valueName);
    for i := 0 to |ordered|
      invariant SameButValues(intervals, Marks(l, ordered[..i])) && OwnValues(frames, valueName, intervals)
    {
      var f := ordered[i];
      assert ordered[..i + 1] == ordered[..i] + [f];
      MarksConcat(l, ordered[..i], [f]);
      assert Marks(l, [f]) == [FrameMark(l, f, map[])];
      SameSnoc(intervals, Marks(l, ordered[..i]), FrameMark(l, f, map[valueName := frames[f]]), FrameMark(l, f, map[]));
      OwnValuesFrame(frames, valueName, intervals, l, f);
      intervals := intervals + [FrameMark(l, f, map[valueName := frames[f]])];
    }
    assert ordered[..|ordered|] == ordered;
  }

  /** Each interval carries the measured value of its frame, or the length of its run. */
  ghost predicate OwnValues(frames: map<nat, int>, valueName: string, xs: seq<QcInterval>) {
    forall i :: 0 <= i < |xs| ==>
      var x := xs[i];
      || (x.startFrame == x.endFrame && x.startFrame in frames && x.values == map[valueName := frames[x.startFrame]])
      || x.values == map["frame_count" := x.endFrame - x.startFrame + 1]
  }

  lemma NoValues(frames: map<nat, int>, valueName: string)
    ensures OwnValues(frames, valueName, [])
  {
  }

  lemma OwnValuesRun(frames: map<nat, int>, valueName: string, xs: seq<QcInterval>, l: Luma, r: Run)
    requires OwnValues(frames, valueName, xs)
    ensures OwnValues(frames, valueName, xs + [RunMark(l, r, map["frame_count" := r.last - r.first + 1])])
  {
  }

  lemma OwnValuesFrame(frames: map<nat, int>, valueName: string, xs: seq<QcInterval>, l: Luma, f: nat)
    requires OwnValues(frames, valueName, xs) && f in frames
    ensures OwnValues(frames, valueName, xs + [FrameMark(l, f, map[valueName := frames[f]])])
  {
  }

  /** The intervals at a frame rate that is positive. The second promise is about what is left
      of them after `merge_overlapping_intervals`. */
  method LumaIntervalsAtRate(frames: map<nat, int>, single: Reason, continuous: Reason, valueName: string, rate: Rate)
    returns (intervals: seq<QcInterval>, runs: seq<Run>)
    ensures MaximalRuns(frames.Keys, runs)
    ensures
      var l := AtRate(single, continuous, rate);
      && SameButValues(intervals, AllFrames(l, runs) + RunMarks(l, runs))
      && SameButValues(MergeAll(intervals), Expected(l, runs))
    ensures OwnValues(frames, valueName, intervals)
  {
    hide OwnValues, SameButValues, RunMarks, AllFrames, Marks, MaximalRuns, Expected, MergeAll, FrameTime;
    var l := AtRate(single, continuous, rate);
    var ordered := AscendingKeys(frames.Keys);
    runs := FindRuns(ordered);
    assert Members(ordered) == frames.Keys;
    AllFramesAreMarks(l, runs);
    intervals := FrameIntervals(frames, ordered, l, valueName);
    intervals := AddRunMarks(frames, valueName, l, intervals, Marks(l, ordered), runs);
    AtRateIsMonotone(single, continuous, rate);
    LumaMerge(l, frames.Keys, runs, intervals);
  }

  /** One more interval for every run that lasts long enough. */
  method AddRunMarks(frames: map<nat, int>, valueName: string, l: Luma, before: seq<QcInterval>, ghost marks: seq<QcInterval>, runs: seq<Run>)
    returns (intervals: seq<QcInterval>)
    requires SameButValues(before, marks) && OwnValues(frames, valueName, before)
    ensures SameButValues(intervals, marks + RunMarks(l, runs)) && OwnValues(frames, valueName, intervals)
  {
    hide OwnValues, SameButValues;
    intervals := before;
    assert marks + RunMarks(l, []) == marks;
    for i := 0 to |runs|
      invariant SameButValues(intervals, marks + RunMarks(l, runs[..i])) && OwnValues(frames, valueName, intervals)
    {
      var run := runs[i];
      assert runs[..i + 1] == runs[..i] + [run];
      RunMarksSnoc(l, runs[..i], run);
      if Hit(l, run) {
        var mark := RunMark(l, run, map["frame_count" := run.last - run.first + 1]);
        SameSnoc(intervals, marks + RunMarks(l, runs[..i]), mark, RunMark(l, run, map[]));
        assert marks + RunMarks(l, runs[..i]) + [RunMark(l, run, map[])] == marks + RunMarks(l, runs[..i + 1]);
        OwnValuesRun(frames, valueName, intervals, l, run);
        intervals := intervals + [mark];
      } else {
        assert RunMarks(l, runs[..i + 1]) == RunMarks(l, runs[..i]);
      }
    }
    assert runs[..|runs|] == runs;
  }

  /** `_continuous_luma_intervals`. A frame rate that is not positive is refused only when
      there is a frame whose time is asked for. */
  method ContinuousLumaIntervals(frames: map<nat, int>, single: Reason, continuous: Reason, valueName: string, num: int, den: int)
    returns (r: Result<seq<QcInterval>>, runs: seq<Run>)
    ensures r.Stopped? <==> frames != map[] && (num <= 0 || den <= 0)
    ensures r.Ok? && frames == map[] ==> r.value == []
    ensures r.Ok? && frames != map[] ==>
      var l := AtRate(single, continuous, Rate(num, den));
      && MaximalRuns(frames.Keys, runs) && OwnValues(frames, valueName, r.value)
      && SameButValues(r.value, AllFrames(l, runs) + RunMarks(l, runs))
      && SameButValues(MergeAll(r.value), Expected(l, runs))
  {
    hide MaximalRuns, OwnValues, SameButValues, AllFrames, RunMarks, Expected, MergeAll;
    if frames == map[] {
      return Ok([]), [];
    }
    if num <= 0 || den <= 0 {
      return Stopped(Raised), [];
    }
    var intervals;
    intervals, runs := LumaIntervalsAtRate(frames, single, continuous, valueName, Rate(num, den));
    r := Ok(intervals);
  }

  lemma {:induction false} RunMarksSnoc(l: Luma, runs: seq<Run>, r: Run)
    ensures RunMarks(l, runs + [r]) == RunMarks(l, runs) + OwnMark(l, r)
  {
    if runs == [] {
      assert [r][1..] == [];
    } else {
      RunMarksSnoc(l, runs[1..], r);
      assert (runs + [r])[1..] == runs[1..] + [r];
    }
  }

  // ----- the same intervals, arranged run by run in sort order

  function FirstTwo(l: Luma, r: Run): seq<QcInterval> {
    var f, w := FrameMark(l, r.first, map[]), RunMark(l, r, map[]);
    if Le(f, w) then [f, w] else [w, f]
  }

  function ArrangedRun(l: Luma, r: Run): seq<QcInterval> {
    if Hit(l, r) then FirstTwo(l, r) + Frames(l, r.first + 1, r.last) else Frames(l, r.first, r.last)
  }

  function Arranged(l: Luma, runs: seq<Run>): seq<QcInterval> {
    if runs == [] then [] else ArrangedRun(l, runs[0]) + Arranged(l, runs[1..])
  }

  lemma BagOfOne(x: QcInterval, rest: seq<QcInterval>)
    ensures Bag([x] + rest) == multiset{Bare(x)} + Bag(rest)
  {
    assert ([x] + rest)[1..] == rest;
  }

  lemma BagOfTwo(x: QcInterval, y: QcInterval, rest: seq<QcInterval>)
    ensures Bag([x, y] + rest) == multiset{Bare(x)} + multiset{Bare(y)} + Bag(rest)
  {
    assert [x, y] + rest == [x] + ([y] + rest);
    BagOfOne(x, [y] + rest);
    BagOfOne(y, rest);
  }

  /** The mark of a run, if it has one. */
  function OwnMark(l: Luma, r: Run): seq<QcInterval> {
    if Hit(l, r) then [RunMark(l, r, map[])] else []
  }

  lemma ArrangedRunBag(l: Luma, r: Run)
    requires r.first <= r.last
    ensures Bag(ArrangedRun(l, r)) == Bag(Frames(l, r.first, r.last)) + Bag(OwnMark(l, r))
  {
    if Hit(l, r) {
      var f, w, rest := FrameMark(l, r.first, map[]), RunMark(l, r, map[]), Frames(l, r.first + 1, r.last);
      assert Frames(l, r.first, r.last) == [f] + rest;
      assert OwnMark(l, r) == [w] + [];
      BagOfOne(f, rest);
      BagOfOne(w, []);
      if Le(f, w) {
        assert ArrangedRun(l, r) == [f, w] + rest;
        BagOfTwo(f, w, rest);
      } else {
        assert ArrangedRun(l, r) == [w, f] + rest;
        BagOfTwo(w, f, rest);
      }
    }
  }

  lemma BagRegroup(a: seq<QcInterval>, as': seq<QcInterval>, f: seq<QcInterval>, fs: seq<QcInterval>,
                   m: seq<QcInterval>, ms: seq<QcInterval>)
    requires Bag(a) == Bag(f) + Bag(m) && Bag(as') == Bag(fs) + Bag(ms)
    ensures Bag(a + as') == Bag(f + fs) + Bag(m + ms)
  {
    BagConcat(a, as');
    BagConcat(f, fs);
    BagConcat(m, ms);
    Regroup(Bag(f), Bag(m), Bag(fs), Bag(ms));
  }

  lemma Regroup<T>(a: multiset<T>, b: multiset<T>, c: multiset<T>, d: multiset<T>)
    ensures (a + b) + (c + d) == (a + c) + (b + d)
  {
  }

  lemma {:induction false} ArrangedBag(l: Luma, runs: seq<Run>)
    requires forall k :: 0 <= k < |runs| ==> runs[k].first <= runs[k].last
    ensures Bag(Arranged(l, runs)) == Bag(AllFrames(l, runs)) + Bag(RunMarks(l, runs))
  {
    if runs != [] {
      var r, rest := runs[0], runs[1..];
      ArrangedBag(l, rest);
      ArrangedRunBag(l, r);
      BagRegroup(ArrangedRun(l, r), Arranged(l, rest), Frames(l, r.first, r.last), AllFrames(l, rest),
                 OwnMark(l, r), RunMarks(l, rest));
    }
  }

  /** All intervals of `xs` start in frames `lo` to `hi`. */
  ghost predicate StartWithin(xs: seq<QcInterval>, lo: nat, hi: nat) {
    forall x :: x in xs ==> lo <= x.startFrame <= hi
  }

  lemma {:induction false} FramesSorted(l: Luma, a: nat, b: nat)
    ensures Sorted(Frames(l, a, b)) && StartWithin(Frames(l, a, b), a, b)
    decreases b + 1 - a
  {
    if a <= b {
      FramesSorted(l, a + 1, b);
      SortedConcat([FrameMark(l, a, map[])], Frames(l, a + 1, b), a);
    }
  }

  lemma SortedConcat(xs: seq<QcInterval>, ys: seq<QcInterval>, m: nat)
    requires Sorted(xs) && Sorted(ys)
    requires forall x :: x in xs ==> x.startFrame <= m
    requires forall y :: y in ys ==> m < y.startFrame
    ensures Sorted(xs + ys)
  {
  }

  lemma ArrangedRunSorted(l: Luma, r: Run)
    requires r.first <= r.last
    ensures Sorted(ArrangedRun(l, r)) && StartWithin(ArrangedRun(l, r), r.first, r.last)
  {
    FramesSorted(l, r.first, r.last);
    if Hit(l, r) {
      FramesSorted(l, r.first + 1, r.last);
      LeTotal(FrameMark(l, r.first, map[]), RunMark(l, r, map[]));
      SortedConcat(FirstTwo(l, r), Frames(l, r.first + 1, r.last), r.first);
    }
  }

  ghost predicate RunsApart(runs: seq<Run>) {
    && (forall k :: 0 <= k < |runs| ==> runs[k].first <= runs[k].last)
    && (forall k :: 0 <= k < |runs| - 1 ==> runs[k].last + 1 < runs[k + 1].first)
  }

  lemma {:induction false} ArrangedSorted(l: Luma, runs: seq<Run>)
    requires RunsApart(runs)
    ensures Sorted(Arranged(l, runs))
    ensures forall x :: x in Arranged(l, runs) ==> runs != [] && runs[0].first <= x.startFrame
  {
    if runs != [] {
      var r, rest := runs[0], runs[1..];
      assert RunsApart(rest);
      ArrangedSorted(l, rest);
      ArrangedRunSorted(l, r);
      assert rest != [] ==> rest[0] == runs[0 + 1];
      SortedConcat(ArrangedRun(l, r), Arranged(l, rest), r.last);
    }
  }

  // ----- merging the arrangement

  lemma HasMember(xs: seq<nat>)
    requires xs != []
    ensures exists x: nat :: x in xs
  {
    assert xs[0] in xs;
  }

  lemma {:induction false} AscendingUnique(xs: seq<nat>, ys: seq<nat>)
    requires Ascending(xs) && Ascending(ys) && forall x: nat :: x in xs <==> x in ys
    ensures xs == ys
    decreases |xs|
  {
    if xs == [] {
      if ys != [] {
        HasMember(ys);
        assert false;
      }
    } else {
      assert xs[0] in ys && ys[0] in xs;
      var i :| 0 <= i < |ys| && ys[i] == xs[0];
      var j :| 0 <= j < |xs| && xs[j] == ys[0];
      assert xs[0] == ys[0];
      forall x: nat ensures x in xs[1..] <==> x in ys[1..] {
        assert x in xs[1..] <==> x in xs && x != xs[0];
        assert x in ys[1..] <==> x in ys && x != ys[0];
      }
      AscendingUnique(xs[1..], ys[1..]);
    }
  }

  lemma JoinReasonFacts(s: Reason, c: Reason)
    ensures JoinReasons([c], [s]) == JoinReasons([s], [c])
    ensures JoinReasons(JoinReasons([s], [c]), [s]) == JoinReasons([s], [c])
  {
    var both := JoinReasons([s], [c]);
    AscendingUnique(JoinReasons([c], [s]), both);
    AscendingUnique(JoinReasons(both, [s]), both);
  }

  /** Nothing merged so far reaches frame `a`. */
  ghost predicate Clear(l: Luma, merged: seq<QcInterval>, a: nat) {
    merged != [] ==> merged[|merged| - 1].endFrame < a && merged[|merged| - 1].endMs <= l.clock(a)
  }

  lemma MergeClear(l: Luma, merged: seq<QcInterval>, x: QcInterval, rest: seq<QcInterval>)
    requires Clear(l, merged, x.startFrame) && x.startMs == l.clock(x.startFrame)
    ensures MergeInto(merged, [x] + rest) == MergeInto(merged + [x], rest)
  {
    MergeStep(merged, x, rest);
  }

  lemma MergeFrame(l: Luma, merged: seq<QcInterval>, a: nat, rest: seq<QcInterval>)
    requires Clear(l, merged, a)
    ensures MergeInto(merged, [FrameMark(l, a, map[])] + rest) == MergeInto(merged + [FrameMark(l, a, map[])], rest)
    ensures Clear(l, merged + [FrameMark(l, a, map[])], a + 1)
  {
    hide MergeInto;
    MergeClear(l, merged, FrameMark(l, a, map[]), rest);
  }

  lemma {:induction false} MergeFrames(l: Luma, merged: seq<QcInterval>, a: nat, b: nat)
    requires Clear(l, merged, a)
    ensures MergeInto(merged, Frames(l, a, b)) == merged + Frames(l, a, b)
    decreases b + 1 - a
  {
    hide Clear, FrameMark, Absorb;
    if a <= b {
      var f, rest := FrameMark(l, a, map[]), Frames(l, a + 1, b);
      assert Frames(l, a, b) == [f] + rest;
      assert merged + [f] + rest == merged + ([f] + rest);
      MergeFrame(l, merged, a, rest);
      hide MergeInto;
      MergeFrames(l, merged + [f], a + 1, b);
    }
  }

  /** `w` already covers frames `a` to `b`, in frames, time and reason. */
  ghost predicate Covers(l: Luma, w: QcInterval, a: nat, b: nat) {
    && w.startFrame <= a && b <= w.endFrame && w.startMs <= l.clock(a) && l.clock(b + 1) <= w.endMs
    && w.values == map[] && JoinReasons(w.reasons, [l.single]) == w.reasons
  }

  lemma MergeCovered(l: Luma, merged: seq<QcInterval>, w: QcInterval, a: nat, b: nat, rest: seq<QcInterval>)
    requires Monotone(l) && Covers(l, w, a, b) && a <= b
    ensures MergeInto(merged + [w], [FrameMark(l, a, map[])] + rest) == MergeInto(merged + [w], rest)
  {
    var f := FrameMark(l, a, map[]);
    assert Before(a + 1, b + 1);
    assert Join(w, f) == w;
    assert Absorb(merged + [w], f) == merged + [w];
    MergeStep(merged + [w], f, rest);
  }

  /** Frames that are covered disappear. */
  lemma {:induction false} Swallow(l: Luma, merged: seq<QcInterval>, w: QcInterval, a: nat, b: nat)
    requires Monotone(l) && Covers(l, w, a, b)
    ensures MergeInto(merged + [w], Frames(l, a, b)) == merged + [w]
    decreases b + 1 - a
  {
    if a <= b {
      MergeCovered(l, merged, w, a, b, Frames(l, a + 1, b));
      assert Before(a, a + 1);
      Swallow(l, merged, w, a + 1, b);
    }
  }

  lemma JoinIsWhole(l: Luma, r: Run)
    requires Monotone(l) && r.first <= r.last
    ensures Join(FrameMark(l, r.first, map[]), RunMark(l, r, map[])) == Whole(l, r)
    ensures Join(RunMark(l, r, map[]), FrameMark(l, r.first, map[])) == Whole(l, r)
  {
    assert Before(r.first + 1, r.last + 1);
    JoinReasonFacts(l.single, l.continuous);
  }

  lemma MergeTwo(l: Luma, merged: seq<QcInterval>, x: QcInterval, y: QcInterval, rest: seq<QcInterval>)
    requires Clear(l, merged, x.startFrame) && x.startMs == l.clock(x.startFrame) && Overlaps(x, y)
    ensures MergeInto(merged, [x, y] + rest) == MergeInto(merged + [Join(x, y)], rest)
  {
    assert [x, y] + rest == [x] + ([y] + rest);
    MergeClear(l, merged, x, [y] + rest);
    assert Absorb(merged + [x], y) == merged + [Join(x, y)];
    MergeStep(merged + [x], y, rest);
  }

  lemma MergeHitRun(l: Luma, merged: seq<QcInterval>, r: Run)
    requires Monotone(l) && r.first <= r.last && Clear(l, merged, r.first) && Hit(l, r)
    ensures MergeInto(merged, ArrangedRun(l, r)) == merged + [Whole(l, r)]
  {
    hide MergeInto, Join, JoinReasons, Absorb;
    var f, w, rest := FrameMark(l, r.first, map[]), RunMark(l, r, map[]), Frames(l, r.first + 1, r.last);
    MergeTwo(l, merged, f, w, rest);
    MergeTwo(l, merged, w, f, rest);
    JoinIsWhole(l, r);
    WholeCovers(l, r);
    Swallow(l, merged, Whole(l, r), r.first + 1, r.last);
  }

  lemma WholeCovers(l: Luma, r: Run)
    requires Monotone(l)
    ensures Covers(l, Whole(l, r), r.first + 1, r.last)
  {
    assert Before(r.first, r.first + 1);
    JoinReasonFacts(l.single, l.continuous);
  }

  lemma {:induction false} FramesClear(l: Luma, merged: seq<QcInterval>, a: nat, b: nat, next: nat)
    requires Monotone(l) && a <= b < next
    ensures Clear(l, merged + Frames(l, a, b), next)
    decreases b - a
  {
    var f, rest := FrameMark(l, a, map[]), Frames(l, a + 1, b);
    assert Frames(l, a, b) == [f] + rest;
    assert merged + [f] + rest == merged + ([f] + rest);
    if a < b {
      FramesClear(l, merged + [f], a + 1, b, next);
    } else {
      assert Before(b + 1, next);
    }
  }

  /** One run: its outputs are appended, and they end where the run ends. */
  lemma MergeRun(l: Luma, merged: seq<QcInterval>, r: Run, next: nat)
    requires Monotone(l) && r.first <= r.last && Clear(l, merged, r.first) && r.last < next
    ensures MergeInto(merged, ArrangedRun(l, r)) == merged + ExpectedRun(l, r)
    ensures Clear(l, merged + ExpectedRun(l, r), next)
  {
    if Hit(l, r) {
      MergeHitRun(l, merged, r);
      assert Before(r.last + 1, next);
    } else {
      MergeFrames(l, merged, r.first, r.last);
      FramesClear(l, merged, r.first, r.last, next);
    }
  }

  lemma {:induction false} MergeArranged(l: Luma, merged: seq<QcInterval>, runs: seq<Run>)
    requires Monotone(l) && RunsApart(runs) && (runs != [] ==> Clear(l, merged, runs[0].first))
    ensures MergeInto(merged, Arranged(l, runs)) == merged + Expected(l, runs)
    decreases |runs|
  {
    hide Clear, ExpectedRun, ArrangedRun, Monotone, Hit;
    if runs == [] {
      assert MergeInto(merged, []) == merged;
    } else {
      var r, rest := runs[0], runs[1..];
      var next := if rest == [] then r.last + 1 else rest[0].first;
      assert r.last < next by {
        assert rest != [] ==> rest[0] == runs[0 + 1];
      }
      assert merged + ExpectedRun(l, r) + Expected(l, rest) == merged + Expected(l, runs);
      MergeRun(l, merged, r, next);
      MergeConcat(merged, ArrangedRun(l, r), Arranged(l, rest));
      MergeArranged(l, merged + ExpectedRun(l, r), rest);
    }
  }

  lemma {:induction false} SameBag(xs: seq<QcInterval>, ys: seq<QcInterval>)
    requires SameButValues(xs, ys)
    ensures Bag(xs) == Bag(ys)
  {
    if xs != [] {
      SameBag(xs[1..], ys[1..]);
    }
  }

  /** Merging the detected intervals gives one interval with both reasons per run that
      lasts longer than a second, and one per frame otherwise. */
  lemma LumaMerge(l: Luma, frames: set<nat>, runs: seq<Run>, intervals: seq<QcInterval>)
    requires Monotone(l) && MaximalRuns(frames, runs)
    requires SameButValues(intervals, AllFrames(l, runs) + RunMarks(l, runs))
    ensures SameButValues(MergeAll(intervals), Expected(l, runs))
  {
    hide Bag, MergeInto, Sort, Sorted, Arranged, AllFrames, RunMarks, Expected, Bare, InRuns;
    SameBag(intervals, AllFrames(l, runs) + RunMarks(l, runs));
    BagConcat(AllFrames(l, runs), RunMarks(l, runs));
    ArrangedBag(l, runs);
    MergeDependsOnBag(intervals, Arranged(l, runs));
    ArrangedSorted(l, runs);
    SortOfSorted(Arranged(l, runs));
    MergeArranged(l, [], runs);
  }
}
