/** `QcInterval`, `merge_overlapping_intervals` and the rational frame clock. */
module QcIntervals {
  import opened Basics
  import opened Lexicographic
  import opened SortedSets

  /** A reason code, as its place in the string order of the codes. */
  type Reason = nat

  datatype QcInterval = Interval(startFrame: nat, endFrame: nat, startMs: nat, endMs: nat,
                                 reasons: seq<Reason>, values: map<string, int>)

  /** What `QcInterval.__post_init__` admits. */
  predicate WellFormed(x: QcInterval) {
    x.startFrame <= x.endFrame && x.startMs <= x.endMs && x.reasons != []
  }

  // ----- order

  /** The order of the sort key: four numbers, then the reason tuple. */
  predicate Le(x: QcInterval, y: QcInterval) {
    if x.startFrame != y.startFrame then x.startFrame < y.startFrame
    else if x.startMs != y.startMs then x.startMs < y.startMs
    else if x.endFrame != y.endFrame then x.endFrame < y.endFrame
    else if x.endMs != y.endMs then x.endMs < y.endMs
    else LexLe(x.reasons, y.reasons)
  }

  /** An interval without its `values`, which the order does not look at. */
  function Bare(x: QcInterval): QcInterval {
    x.(values := map[])
  }

  lemma LeTotal(x: QcInterval, y: QcInterval)
    ensures Le(x, x)
    ensures Le(x, y) || Le(y, x)
    ensures Le(x, y) && Le(y, x) ==> Bare(x) == Bare(y)
  {
    LexTotal(x.reasons, y.reasons);
  }

  /** It is the order of the tuples of the sort key. */
  lemma LeIsTupleOrder(x: QcInterval, y: QcInterval)
    ensures Le(x, y) <==>
      LexLe([x.startFrame, x.startMs, x.endFrame, x.endMs] + x.reasons, [y.startFrame, y.startMs, y.endFrame, y.endMs] + y.reasons)
  {
    hide LexLe;
    var a, b := [x.endMs] + x.reasons, [y.endMs] + y.reasons;
    LexCons(x.endMs, x.reasons, y.endMs, y.reasons);
    LexCons(x.endFrame, a, y.endFrame, b);
    LexCons(x.startMs, [x.endFrame] + a, y.startMs, [y.endFrame] + b);
    LexCons(x.startFrame, [x.startMs] + ([x.endFrame] + a), y.startFrame, [y.startMs] + ([y.endFrame] + b));
    assert [x.startFrame, x.startMs, x.endFrame, x.endMs] + x.reasons == [x.startFrame] + ([x.startMs] + ([x.endFrame] + a));
    assert [y.startFrame, y.startMs, y.endFrame, y.endMs] + y.reasons == [y.startFrame] + ([y.startMs] + ([y.endFrame] + b));
  }

  lemma LeTransitive(x: QcInterval, y: QcInterval, z: QcInterval)
    requires Le(x, y) && Le(y, z)
    ensures Le(x, z)
  {
    if LexLe(x.reasons, y.reasons) && LexLe(y.reasons, z.reasons) {
      LexTransitive(x.reasons, y.reasons, z.reasons);
    }
  }

  // ----- sorting

  ghost predicate Sorted(xs: seq<QcInterval>) {
    forall i, j :: 0 <= i < j < |xs| ==> Le(xs[i], xs[j])
  }

  function Insert(x: QcInterval, ys: seq<QcInterval>): seq<QcInterval> {
    if ys == [] || Le(x, ys[0]) then [x] + ys else [ys[0]] + Insert(x, ys[1..])
  }

  /** The stable sort by key. */
  function Sort(xs: seq<QcInterval>): seq<QcInterval> {
    if xs == [] then [] else Insert(xs[0], Sort(xs[1..]))
  }

  /** The intervals of a sequence without their values, with multiplicity. */
  function Bag(xs: seq<QcInterval>): multiset<QcInterval> {
    if xs == [] then multiset{} else multiset{Bare(xs[0])} + Bag(xs[1..])
  }

  lemma {:induction false} BagConcat(a: seq<QcInterval>, b: seq<QcInterval>)
    ensures Bag(a + b) == Bag(a) + Bag(b)
  {
    if a == [] {
      assert a + b == b;
    } else {
      assert (a + b)[1..] == a[1..] + b;
      BagConcat(a[1..], b);
    }
  }

  lemma {:induction false} BagMembers(xs: seq<QcInterval>, y: QcInterval) returns (k: nat)
    requires y in Bag(xs)
    ensures k < |xs| && Bare(xs[k]) == y
  {
    if y == Bare(xs[0]) {
      k := 0;
    } else {
      k := BagMembers(xs[1..], y);
      k := k + 1;
    }
  }

  lemma BagHead(x: QcInterval, ys: seq<QcInterval>)
    ensures Bag([x] + ys) == multiset{Bare(x)} + Bag(ys)
  {
    assert ([x] + ys)[1..] == ys;
  }

  lemma BagRemove(ys: seq<QcInterval>, k: nat)
    requires k < |ys|
    ensures Bag(ys) == multiset{Bare(ys[k])} + Bag(ys[..k] + ys[k + 1..])
  {
    hide Bag, Bare;
    var a, x, b := ys[..k], ys[k], ys[k + 1..];
    assert ys == a + ([x] + b);
    BagConcat(a, b);
    BagConcat(a, [x] + b);
    BagHead(x, b);
    Swap(Bag(a), multiset{Bare(x)}, Bag(b));
  }

  lemma Swap<T>(a: multiset<T>, x: multiset<T>, b: multiset<T>)
    ensures a + (x + b) == x + (a + b)
  {
  }

  lemma MultisetRemove<T>(ys: seq<T>, k: nat)
    requires k < |ys|
    ensures multiset(ys[..k] + ys[k + 1..]) + multiset{ys[k]} == multiset(ys)
  {
    assert ys == ys[..k] + ([ys[k]] + ys[k + 1..]);
  }

  lemma MultisetTail<T>(xs: seq<T>)
    requires xs != []
    ensures multiset(xs[1..]) + multiset{xs[0]} == multiset(xs)
  {
    assert xs == [xs[0]] + xs[1..];
  }

  lemma Cancel<T>(a: multiset<T>, b: multiset<T>, x: multiset<T>)
    requires a + x == b + x
    ensures a == b
  {
    assert a == (a + x) - x && b == (b + x) - x;
  }

  lemma PermutationTail<T>(xs: seq<T>, ys: seq<T>) returns (k: nat)
    requires multiset(xs) == multiset(ys) && xs != []
    ensures k < |ys| && ys[k] == xs[0]
    ensures multiset(xs[1..]) == multiset(ys[..k] + ys[k + 1..])
  {
    MultisetTail(xs);
    assert xs[0] in multiset(ys);
    k :| 0 <= k < |ys| && ys[k] == xs[0];
    MultisetRemove(ys, k);
    Cancel(multiset(xs[1..]), multiset(ys[..k] + ys[k + 1..]), multiset{xs[0]});
  }

  /** Rearranging a sequence does not change its bag. */
  lemma {:induction false} BagOfPermutation(xs: seq<QcInterval>, ys: seq<QcInterval>)
    requires multiset(xs) == multiset(ys)
    ensures Bag(xs) == Bag(ys)
    decreases |xs|
  {
    if xs == [] {
      assert |multiset(ys)| == 0;
    } else {
      var k := PermutationTail(xs, ys);
      BagOfPermutation(xs[1..], ys[..k] + ys[k + 1..]);
      BagRemove(ys, k);
    }
  }

  lemma {:induction false} InsertSorts(x: QcInterval, ys: seq<QcInterval>)
    requires Sorted(ys)
    ensures Sorted(Insert(x, ys)) && |Insert(x, ys)| == |ys| + 1
    ensures forall z :: z in Insert(x, ys) <==> z == x || z in ys
  {
    if ys == [] || Le(x, ys[0]) {
      forall j | 0 <= j < |ys| ensures Le(x, ys[j]) {
        if j > 0 { LeTransitive(x, ys[0], ys[j]); }
      }
    } else {
      InsertSorts(x, ys[1..]);
      LeTotal(x, ys[0]);
      var rest := Insert(x, ys[1..]);
      forall j | 0 <= j < |rest| ensures Le(ys[0], rest[j]) {
        assert rest[j] in rest;
      }
    }
  }

  lemma {:induction false} InsertBag(x: QcInterval, ys: seq<QcInterval>)
    ensures Bag(Insert(x, ys)) == multiset{Bare(x)} + Bag(ys)
  {
    if ys == [] || Le(x, ys[0]) {
      assert ([x] + ys)[1..] == ys;
    } else {
      InsertBag(x, ys[1..]);
      assert ([ys[0]] + Insert(x, ys[1..]))[1..] == Insert(x, ys[1..]);
    }
  }

  lemma {:induction false} SortSorts(xs: seq<QcInterval>)
    ensures Sorted(Sort(xs)) && Bag(Sort(xs)) == Bag(xs) && |Sort(xs)| == |xs|
    ensures forall z :: z in Sort(xs) <==> z in xs
  {
    if xs != [] {
      SortSorts(xs[1..]);
      InsertSorts(xs[0], Sort(xs[1..]));
      InsertBag(xs[0], Sort(xs[1..]));
    }
  }

  function Bares(xs: seq<QcInterval>): seq<QcInterval> {
    if xs == [] then [] else [Bare(xs[0])] + Bares(xs[1..])
  }

  lemma HeadIsLeast(xs: seq<QcInterval>, ys: seq<QcInterval>)
    requires Sorted(xs) && xs != [] && ys != [] && Bag(xs) == Bag(ys)
    ensures Le(xs[0], ys[0])
  {
    assert Bare(ys[0]) in Bag(xs);
    var k := BagMembers(xs, Bare(ys[0]));
    LeTotal(xs[k], ys[0]);
    if k > 0 {
      assert Le(xs[0], xs[k]);
    }
  }

  /** A sorted arrangement is unique, but for the values. */
  lemma {:induction false} SortedUnique(xs: seq<QcInterval>, ys: seq<QcInterval>)
    requires Sorted(xs) && Sorted(ys) && Bag(xs) == Bag(ys)
    ensures Bares(xs) == Bares(ys)
    decreases |xs|
  {
    if xs == [] {
      assert |Bag(ys)| == 0;
    } else {
      assert Bare(xs[0]) in Bag(xs);
      HeadIsLeast(xs, ys);
      HeadIsLeast(ys, xs);
      LeTotal(xs[0], ys[0]);
      assert Bag(xs[1..]) == Bag(xs) - multiset{Bare(xs[0])} == Bag(ys[1..]);
      SortedUnique(xs[1..], ys[1..]);
    }
  }

  // ----- merging

  predicate Overlaps(previous: QcInterval, x: QcInterval) {
    x.startFrame <= previous.endFrame || x.startMs < previous.endMs
  }

  /** `sorted(set(a) | set(b))` */
  function JoinReasons(a: seq<Reason>, b: seq<Reason>): seq<Reason> {
    AddAll(AddAll([], a), b)
  }

  function Join(p: QcInterval, x: QcInterval): QcInterval {
    Interval(Min(p.startFrame, x.startFrame), Max(p.endFrame, x.endFrame),
             Min(p.startMs, x.startMs), Max(p.endMs, x.endMs),
             JoinReasons(p.reasons, x.reasons), p.values + x.values)
  }

  /** One turn of the merge loop. */
  function Absorb(merged: seq<QcInterval>, x: QcInterval): (r: seq<QcInterval>)
    ensures r != []
  {
    if merged == [] || !Overlaps(merged[|merged| - 1], x) then merged + [x]
    else merged[..|merged| - 1] + [Join(merged[|merged| - 1], x)]
  }

  /** The merge loop, from an intermediate result. */
  function MergeInto(merged: seq<QcInterval>, ys: seq<QcInterval>): seq<QcInterval>
    decreases |ys|
  {
    if ys == [] then merged else MergeInto(Absorb(merged, ys[0]), ys[1..])
  }

  function MergeAll(xs: seq<QcInterval>): seq<QcInterval> {
    MergeInto([], Sort(xs))
  }

  /** `merge_overlapping_intervals` */
  method MergeOverlappingIntervals(intervals: seq<QcInterval>) returns (merged: seq<QcInterval>)
    ensures merged == MergeAll(intervals)
  {
    var ordered := Sort(intervals);
    merged := [];
    for i := 0 to |ordered|
      invariant MergeInto(merged, ordered[i..]) == MergeAll(intervals)
    {
      var x := ordered[i];
      assert ordered[i..][1..] == ordered[i + 1..];
      if merged == [] {
        merged := merged + [x];
      } else {
        var previous := merged[|merged| - 1];
        if !Overlaps(previous, x) {
          merged := merged + [x];
        } else {
          merged := merged[..|merged| - 1] + [Join(previous, x)];
        }
      }
    }
  }

  lemma MergeStep(merged: seq<QcInterval>, x: QcInterval, rest: seq<QcInterval>)
    ensures MergeInto(merged, [x] + rest) == MergeInto(Absorb(merged, x), rest)
  {
    assert ([x] + rest)[1..] == rest;
  }

  lemma {:induction false} MergeConcat(merged: seq<QcInterval>, xs: seq<QcInterval>, ys: seq<QcInterval>)
    ensures MergeInto(merged, xs + ys) == MergeInto(MergeInto(merged, xs), ys)
    decreases |xs|
  {
    if xs == [] {
      assert xs + ys == ys;
    } else {
      assert (xs + ys)[1..] == xs[1..] + ys;
      MergeConcat(Absorb(merged, xs[0]), xs[1..], ys);
    }
  }

  /** Of two intervals that are joined, the later one's values win. */
  lemma LaterValuesWin(p: QcInterval, x: QcInterval, key: string)
    ensures key in Join(p, x).values <==> key in p.values || key in x.values
    ensures key in Join(p, x).values ==> Join(p, x).values[key] == if key in x.values then x.values[key] else p.values[key]
  {
  }

  // ----- the outputs are the hulls of consecutive blocks of the sorted input

  /** `lo` and `hi` are the least and the greatest of the given bounds. */
  ghost predicate Spans(lo: nat, hi: nat, los: seq<nat>, his: seq<nat>) {
    && lo in los && (forall v :: v in los ==> lo <= v)
    && hi in his && (forall v :: v in his ==> v <= hi)
  }

  ghost function StartFrame(x: QcInterval): nat { x.startFrame }
  ghost function EndFrame(x: QcInterval): nat { x.endFrame }
  ghost function StartMs(x: QcInterval): nat { x.startMs }
  ghost function EndMs(x: QcInterval): nat { x.endMs }

  ghost function Column(b: seq<QcInterval>, f: QcInterval -> nat): (r: seq<nat>)
    ensures |r| == |b| && forall i :: 0 <= i < |b| ==> r[i] == f(b[i])
  {
    seq(|b|, i requires 0 <= i < |b| => f(b[i]))
  }

  /** Declaratively: `h` spans exactly what `b` spans and carries exactly its reasons. */
  ghost predicate IsHull(h: QcInterval, b: seq<QcInterval>) {
    && Spans(h.startFrame, h.endFrame, Column(b, StartFrame), Column(b, EndFrame))
    && Spans(h.startMs, h.endMs, Column(b, StartMs), Column(b, EndMs))
    && (forall r: Reason :: r in h.reasons <==> exists i :: 0 <= i < |b| && r in b[i].reasons)
  }

  lemma JoinSpans(lo: nat, hi: nat, los: seq<nat>, his: seq<nat>, lo': nat, hi': nat)
    requires Spans(lo, hi, los, his)
    ensures Spans(Min(lo, lo'), Max(hi, hi'), los + [lo'], his + [hi'])
  {
  }

  lemma ColumnSnoc(b: seq<QcInterval>, x: QcInterval, f: QcInterval -> nat)
    ensures Column(b + [x], f) == Column(b, f) + [f(x)]
  {
  }

  lemma JoinIsHull(h: QcInterval, b: seq<QcInterval>, x: QcInterval)
    requires IsHull(h, b)
    ensures IsHull(Join(h, x), b + [x])
  {
    JoinCollectsReasons(h, b, x);
    JoinSpans(h.startFrame, h.endFrame, Column(b, StartFrame), Column(b, EndFrame), x.startFrame, x.endFrame);
    JoinSpans(h.startMs, h.endMs, Column(b, StartMs), Column(b, EndMs), x.startMs, x.endMs);
    ColumnSnoc(b, x, StartFrame);
    ColumnSnoc(b, x, EndFrame);
    ColumnSnoc(b, x, StartMs);
    ColumnSnoc(b, x, EndMs);
  }

  lemma JoinCollectsReasons(h: QcInterval, b: seq<QcInterval>, x: QcInterval)
    requires forall r: Reason :: r in h.reasons <==> exists i :: 0 <= i < |b| && r in b[i].reasons
    ensures forall r: Reason :: r in Join(h, x).reasons <==> exists i :: 0 <= i < |b + [x]| && r in (b + [x])[i].reasons
  {
    var c := b + [x];
    forall r: Reason ensures r in Join(h, x).reasons <==> exists i :: 0 <= i < |c| && r in c[i].reasons {
      if r in h.reasons {
        var i :| 0 <= i < |b| && r in b[i].reasons;
        assert r in c[i].reasons;
      }
      if r in x.reasons {
        assert r in c[|b|].reasons;
      }
    }
  }

  lemma SingletonIsHull(x: QcInterval)
    ensures IsHull(x, [x])
  {
    assert Column([x], StartFrame)[0] == x.startFrame && Column([x], EndFrame)[0] == x.endFrame;
    assert Column([x], StartMs)[0] == x.startMs && Column([x], EndMs)[0] == x.endMs;
    assert [x][0].reasons == x.reasons;
  }

  /** `hs` are the successive hulls of the members of `b`, each further member
      overlapping the hull of those before it. */
  ghost predicate IsChain(hs: seq<QcInterval>, b: seq<QcInterval>) {
    && |hs| == |b| && b != [] && hs[0] == b[0]
    && (forall j :: 1 <= j < |b| ==> Overlaps(hs[j - 1], b[j]) && hs[j] == Join(hs[j - 1], b[j]))
  }

  lemma {:induction false} ChainIsHull(hs: seq<QcInterval>, b: seq<QcInterval>, n: nat)
    requires IsChain(hs, b) && 1 <= n <= |b|
    ensures IsHull(hs[n - 1], b[..n])
  {
    if n == 1 {
      SingletonIsHull(b[0]);
      assert b[..1] == [b[0]];
    } else {
      assert b[..n] == b[..n - 1] + [b[n - 1]];
      assert hs[n - 1] == Join(hs[n - 1 - 1], b[n - 1]);
      ChainIsHull(hs, b, n - 1);
      JoinIsHull(hs[n - 2], b[..n - 1], b[n - 1]);
    }
  }

  /** A block that the merge collapsed to `h`. */
  ghost predicate IsBlock(h: QcInterval, b: seq<QcInterval>) {
    exists hs :: IsChain(hs, b) && hs[|b| - 1] == h
  }

  lemma GrowBlock(h: QcInterval, b: seq<QcInterval>, x: QcInterval)
    requires IsBlock(h, b) && Overlaps(h, x)
    ensures IsBlock(Join(h, x), b + [x])
  {
    hide Join;
    var hs :| IsChain(hs, b) && hs[|b| - 1] == h;
    assert IsChain(hs + [Join(h, x)], b + [x]);
  }

  lemma BlockIsHull(h: QcInterval, b: seq<QcInterval>)
    requires IsBlock(h, b)
    ensures b != [] && IsHull(h, b)
  {
    var hs :| IsChain(hs, b) && hs[|b| - 1] == h;
    ChainIsHull(hs, b, |b|);
    assert b[..|b|] == b;
  }

  ghost function Flatten(bs: seq<seq<QcInterval>>): seq<QcInterval> {
    if bs == [] then [] else Flatten(bs[..|bs| - 1]) + bs[|bs| - 1]
  }

  lemma FlattenSnoc(bs: seq<seq<QcInterval>>, b: seq<QcInterval>)
    ensures Flatten(bs + [b]) == Flatten(bs) + b
  {
    assert (bs + [b])[..|bs|] == bs;
  }

  /** `out` are the hulls of the blocks `bs`, which follow each other in `ys`, and no
      hull overlaps the first member of the next block. */
  ghost predicate IsBlocking(ys: seq<QcInterval>, bs: seq<seq<QcInterval>>, out: seq<QcInterval>) {
    && Flatten(bs) == ys && |bs| == |out|
    && (forall i :: 0 <= i < |bs| ==> bs[i] != [] && IsBlock(out[i], bs[i]))
    && (forall i :: 0 <= i < |bs| - 1 ==> !Overlaps(out[i], bs[i + 1][0]))
  }

  lemma AbsorbBlocks(ys: seq<QcInterval>, bs: seq<seq<QcInterval>>, out: seq<QcInterval>, x: QcInterval)
    returns (bs': seq<seq<QcInterval>>)
    requires IsBlocking(ys, bs, out)
    ensures IsBlocking(ys + [x], bs', Absorb(out, x))
  {
    hide Join;
    var n := |bs| - 1;
    if out == [] || !Overlaps(out[n], x) {
      bs' := bs + [[x]];
      FlattenSnoc(bs, [x]);
      assert IsChain([x], [x]);
    } else {
      bs' := bs[..n] + [bs[n] + [x]];
      assert bs == bs[..n] + [bs[n]];
      FlattenSnoc(bs[..n], bs[n]);
      FlattenSnoc(bs[..n], bs[n] + [x]);
      assert Flatten(bs[..n]) + (bs[n] + [x]) == (Flatten(bs[..n]) + bs[n]) + [x];
      GrowBlock(out[n], bs[n], x);
    }
  }

  lemma {:induction false} MergeBlocks(done: seq<QcInterval>, bs: seq<seq<QcInterval>>, out: seq<QcInterval>, ys: seq<QcInterval>)
    returns (bs': seq<seq<QcInterval>>)
    requires IsBlocking(done, bs, out)
    ensures IsBlocking(done + ys, bs', MergeInto(out, ys))
    decreases |ys|
  {
    if ys == [] {
      bs' := bs;
      assert done + ys == done;
    } else {
      assert done + [ys[0]] + ys[1..] == done + ys;
      var bs1 := AbsorbBlocks(done, bs, out, ys[0]);
      bs' := MergeBlocks(done + [ys[0]], bs1, Absorb(out, ys[0]), ys[1..]);
    }
  }

  // ----- separation

  /** Each interval of `out` ends before the next starts, in frames. */
  ghost predicate FramesApart(out: seq<QcInterval>) {
    forall i :: 0 <= i < |out| - 1 ==> out[i].endFrame < out[i + 1].startFrame
  }

  ghost predicate TimesApart(out: seq<QcInterval>) {
    forall i :: 0 <= i < |out| - 1 ==> out[i].endMs <= out[i + 1].startMs
  }

  lemma {:induction false} MergedFramesApart(out: seq<QcInterval>, ys: seq<QcInterval>)
    requires Sorted(ys) && FramesApart(out)
    requires out != [] && ys != [] ==> out[|out| - 1].startFrame <= ys[0].startFrame
    ensures FramesApart(MergeInto(out, ys))
    decreases |ys|
  {
    if ys != [] {
      var out' := Absorb(out, ys[0]);
      assert out'[|out'| - 1].startFrame <= ys[0].startFrame;
      assert |ys| > 1 ==> Le(ys[0], ys[1]);
      MergedFramesApart(out', ys[1..]);
    }
  }

  /** Start times do not go back along the sort order. */
  ghost predicate TimeFollowsFrames(ys: seq<QcInterval>) {
    forall i, j :: 0 <= i < j < |ys| ==> ys[i].startMs <= ys[j].startMs
  }

  lemma {:induction false} MergedTimesApart(out: seq<QcInterval>, ys: seq<QcInterval>)
    requires TimeFollowsFrames(ys) && TimesApart(out)
    requires out != [] && ys != [] ==> out[|out| - 1].startMs <= ys[0].startMs
    ensures TimesApart(MergeInto(out, ys))
    decreases |ys|
  {
    if ys != [] {
      var out' := Absorb(out, ys[0]);
      assert out'[|out'| - 1].startMs <= ys[0].startMs;
      MergedTimesApart(out', ys[1..]);
    }
  }

  lemma {:induction false} MergedWellFormed(out: seq<QcInterval>, ys: seq<QcInterval>)
    requires forall x :: x in out || x in ys ==> WellFormed(x)
    ensures forall x :: x in MergeInto(out, ys) ==> WellFormed(x)
    decreases |ys|
  {
    if ys != [] {
      if out != [] {
        var p := out[|out| - 1];
        assert WellFormed(p) && p.reasons[0] in Join(p, ys[0]).reasons;
      }
      MergedWellFormed(Absorb(out, ys[0]), ys[1..]);
    }
  }

  // ----- merging again

  lemma {:induction false} SortOfSorted(xs: seq<QcInterval>)
    requires Sorted(xs)
    ensures Sort(xs) == xs
  {
    if xs != [] {
      SortOfSorted(xs[1..]);
      assert |xs| > 1 ==> Le(xs[0], xs[1]);
    }
  }

  /** Well-formed intervals in order, apart in frames and in time. */
  ghost predicate Apart(out: seq<QcInterval>) {
    (forall x :: x in out ==> WellFormed(x)) && FramesApart(out) && TimesApart(out)
  }

  lemma {:induction false} ApartIsSorted(out: seq<QcInterval>)
    requires FramesApart(out) && forall x :: x in out ==> WellFormed(x)
    ensures Sorted(out)
    ensures forall j :: 0 < j < |out| ==> out[0].startFrame < out[j].startFrame
  {
    if |out| > 1 {
      assert WellFormed(out[0]) && out[0].endFrame < out[0 + 1].startFrame;
      assert FramesApart(out[1..]);
      ApartIsSorted(out[1..]);
    }
  }

  lemma {:induction false} MergeOfApart(done: seq<QcInterval>, rest: seq<QcInterval>)
    requires Apart(done + rest)
    ensures MergeInto(done, rest) == done + rest
    decreases |rest|
  {
    if rest != [] {
      if done != [] {
        var i := |done| - 1;
        assert (done + rest)[i].endFrame < (done + rest)[i + 1].startFrame;
        assert (done + rest)[i].endMs <= (done + rest)[i + 1].startMs;
        assert !Overlaps(done[i], rest[0]);
      }
      assert done + [rest[0]] + rest[1..] == done + rest;
      MergeOfApart(done + [rest[0]], rest[1..]);
    }
  }

  /** Intervals that are apart are a fixed point of the merge. */
  lemma ApartIsFixedPoint(out: seq<QcInterval>)
    requires Apart(out)
    ensures MergeAll(out) == out
  {
    ApartIsSorted(out);
    SortOfSorted(out);
    assert [] + out == out;
    MergeOfApart([], out);
  }

  lemma {:induction false} MergeShrinks(merged: seq<QcInterval>, ys: seq<QcInterval>)
    ensures |MergeInto(merged, ys)| <= |merged| + |ys|
    decreases |ys|
  {
    if ys != [] {
      MergeShrinks(Absorb(merged, ys[0]), ys[1..]);
    }
  }

  lemma MergeAt(merged: seq<QcInterval>, ys: seq<QcInterval>, k: nat)
    requires k < |ys|
    ensures MergeInto(merged, ys[k..]) == MergeInto(Absorb(merged, ys[k]), ys[k + 1..])
  {
    assert ys[k..] == [ys[k]] + ys[k + 1..];
    MergeStep(merged, ys[k], ys[k + 1..]);
  }

  /** A merge that gives its input back never joined two neighbours. */
  lemma {:induction false} NothingJoined(out: seq<QcInterval>, k: nat, i: nat)
    requires k <= |out| && MergeInto(out[..k], out[k..]) == out && k <= i + 1 < |out|
    ensures !Overlaps(out[i], out[i + 1])
    decreases |out| - k
  {
    hide Overlaps, Join, MergeInto;
    var next := Absorb(out[..k], out[k]);
    MergeAt(out[..k], out, k);
    MergeShrinks(next, out[k + 1..]);
    assert |next| == k + 1;
    if k <= i {
      assert next == out[..k + 1];
      NothingJoined(out, k + 1, i);
    }
  }

  /** For outputs of a merge, which are apart in frames: a second merge changes nothing if
      and only if they are disjoint in time too. */
  lemma FixedPointIffTimesApart(out: seq<QcInterval>)
    requires FramesApart(out) && forall x :: x in out ==> WellFormed(x)
    ensures MergeAll(out) == out <==> TimesApart(out)
  {
    ApartIsSorted(out);
    SortOfSorted(out);
    if TimesApart(out) {
      ApartIsFixedPoint(out);
    }
    if MergeAll(out) == out {
      assert out[..0] == [] && out[0..] == out;
      forall i | 0 <= i < |out| - 1 ensures out[i].endMs <= out[i + 1].startMs {
        NothingJoined(out, 0, i);
      }
    }
  }

  /** What `merge_overlapping_intervals` promises, for every input it can be given: its
      outputs are the hulls of consecutive connected blocks of the sorted input, in
      order and strictly apart in frames; merging them again changes nothing if and only
      if they are also disjoint in time, and they are when start times follow the sort
      order. */
  lemma MergeTheorem(xs: seq<QcInterval>) returns (blocks: seq<seq<QcInterval>>)
    requires forall x :: x in xs ==> WellFormed(x)
    ensures Sorted(Sort(xs)) && Bag(Sort(xs)) == Bag(xs)
    ensures IsBlocking(Sort(xs), blocks, MergeAll(xs))
    ensures forall i :: 0 <= i < |blocks| ==> IsHull(MergeAll(xs)[i], blocks[i])
    ensures forall x :: x in MergeAll(xs) ==> WellFormed(x)
    ensures FramesApart(MergeAll(xs))
    ensures MergeAll(MergeAll(xs)) == MergeAll(xs) <==> TimesApart(MergeAll(xs))
    ensures TimeFollowsFrames(Sort(xs)) ==> TimesApart(MergeAll(xs))
  {
    var ys := Sort(xs);
    SortSorts(xs);
    blocks := MergeBlocks([], [], [], ys);
    assert [] + ys == ys;
    forall i | 0 <= i < |blocks| ensures IsHull(MergeAll(xs)[i], blocks[i]) {
      BlockIsHull(MergeAll(xs)[i], blocks[i]);
    }
    MergedFramesApart([], ys);
    MergedWellFormed([], ys);
    if TimeFollowsFrames(ys) {
      MergedTimesApart([], ys);
    }
    FixedPointIffTimesApart(MergeAll(xs));
  }

  lemma MergeOfPair(x: QcInterval, y: QcInterval)
    requires x.startFrame < y.startFrame
    ensures MergeAll([x, y]) == if Overlaps(x, y) then [Join(x, y)] else [x, y]
  {
    SortOfSorted([x, y]);
    assert [x, y] == [x] + [y] && [y] == [y] + [];
    MergeStep([], x, [y]);
    MergeStep([x], y, []);
  }

  /** Without that condition the outputs may overlap in time, and then a second merge
      does change them: here `c` joins `b` in frames and drags it back in time. */
  lemma TimeOrderIsNeeded(a: QcInterval, b: QcInterval, c: QcInterval)
    requires a == Interval(0, 0, 10, 20, [0], map[])
    requires b == Interval(5, 6, 20, 30, [0], map[])
    requires c == Interval(6, 6, 0, 5, [0], map[])
    ensures WellFormed(a) && WellFormed(b) && WellFormed(c)
    ensures |MergeAll([a, b, c])| == 2
    ensures |MergeAll(MergeAll([a, b, c]))| == 1
  {
    SortOfSorted([a, b, c]);
    assert [a, b, c] == [a, b] + [c];
    MergeConcat([], [a, b], [c]);
    SortOfSorted([a, b]);
    MergeOfPair(a, b);
    assert [c] == [c] + [];
    MergeStep([a, b], c, []);
    assert Absorb([a, b], c) == [a, Join(b, c)];
    MergeOfPair(a, Join(b, c));
  }

  // ----- input order does not matter

  ghost predicate SameButValues(xs: seq<QcInterval>, ys: seq<QcInterval>) {
    |xs| == |ys| && forall i :: 0 <= i < |xs| ==> Bare(xs[i]) == Bare(ys[i])
  }

  lemma {:induction false} BaresAgree(xs: seq<QcInterval>, ys: seq<QcInterval>)
    requires Bares(xs) == Bares(ys)
    ensures SameButValues(xs, ys)
  {
    if xs != [] {
      assert Bares(xs)[0] == Bares(ys)[0] && Bares(xs)[1..] == Bares(ys)[1..];
      BaresAgree(xs[1..], ys[1..]);
      assert forall i :: 0 < i < |xs| ==> xs[i] == xs[1..][i - 1] && ys[i] == ys[1..][i - 1];
    }
  }

  lemma AbsorbIgnoresValues(m: seq<QcInterval>, n: seq<QcInterval>, x: QcInterval, y: QcInterval)
    requires SameButValues(m, n) && Bare(x) == Bare(y)
    ensures SameButValues(Absorb(m, x), Absorb(n, y))
  {
    if m != [] {
      var p, q := m[|m| - 1], n[|n| - 1];
      assert Bare(p) == Bare(q);
      assert Bare(Join(p, x)) == Bare(Join(q, y));
    }
  }

  lemma {:induction false} MergeIgnoresValues(m: seq<QcInterval>, n: seq<QcInterval>, xs: seq<QcInterval>, ys: seq<QcInterval>)
    requires SameButValues(m, n) && SameButValues(xs, ys)
    ensures SameButValues(MergeInto(m, xs), MergeInto(n, ys))
    decreases |xs|
  {
    if xs != [] {
      AbsorbIgnoresValues(m, n, xs[0], ys[0]);
      MergeIgnoresValues(Absorb(m, xs[0]), Absorb(n, ys[0]), xs[1..], ys[1..]);
    }
  }

  /** Inputs with the same bag, whatever their order, are merged alike. */
  lemma MergeDependsOnBag(xs: seq<QcInterval>, ys: seq<QcInterval>)
    requires Bag(xs) == Bag(ys)
    ensures SameButValues(MergeAll(xs), MergeAll(ys))
  {
    SortSorts(xs);
    SortSorts(ys);
    SortedUnique(Sort(xs), Sort(ys));
    BaresAgree(Sort(xs), Sort(ys));
    MergeIgnoresValues([], [], Sort(xs), Sort(ys));
  }

  /** The merge of any rearrangement of the input is the same, apart from `values`. */
  lemma MergeIsOrderIndependent(xs: seq<QcInterval>, ys: seq<QcInterval>)
    requires multiset(xs) == multiset(ys)
    ensures SameButValues(MergeAll(xs), MergeAll(ys))
  {
    BagOfPermutation(xs, ys);
    MergeDependsOnBag(xs, ys);
  }
}
