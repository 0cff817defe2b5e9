/** When merging QC intervals a second time changes nothing, told from the input. */
module QcMergeTwice {
  import opened QcIntervals

  /** No interval of `xs` ends after the time `b`. */
  ghost predicate EndBy(xs: seq<QcInterval>, b: nat) {
    forall i :: 0 <= i < |xs| ==> xs[i].endMs <= b
  }

  ghost predicate EndBeforeFrame(xs: seq<QcInterval>, f: nat) {
    forall i :: 0 <= i < |xs| ==> xs[i].endFrame < f
  }

  /** Everything before position `k` has ended, in frames and in time, when `ys[k]` starts. */
  ghost predicate Gap(ys: seq<QcInterval>, k: nat)
    requires k < |ys|
  {
    EndBeforeFrame(ys[..k], ys[k].startFrame) && EndBy(ys[..k], ys[k].startMs)
  }

  /** Nothing that comes after a gap starts before what came before the gap has ended. */
  ghost predicate NeverReachesBack(ys: seq<QcInterval>) {
    forall k, j :: 0 <= k <= j < |ys| && Gap(ys, k) ==> EndBy(ys[..k], ys[j].startMs)
  }

  // ----- the merged intervals reach as far as their members

  lemma AbsorbReach(out: seq<QcInterval>, x: QcInterval, b: nat, f: nat)
    ensures EndBy(Absorb(out, x), b) <==> EndBy(out, b) && x.endMs <= b
    ensures EndBeforeFrame(Absorb(out, x), f) <==> EndBeforeFrame(out, f) && x.endFrame < f
  {
    hide JoinReasons, EndBy, EndBeforeFrame;
    SnocReach(out, x, b, f);
    if out != [] {
      var n := |out| - 1;
      assert out == out[..n] + [out[n]];
      SnocReach(out[..n], out[n], b, f);
      SnocReach(out[..n], Join(out[n], x), b, f);
    }
  }

  lemma SnocReach(xs: seq<QcInterval>, x: QcInterval, b: nat, f: nat)
    ensures EndBy(xs + [x], b) <==> EndBy(xs, b) && x.endMs <= b
    ensures EndBeforeFrame(xs + [x], f) <==> EndBeforeFrame(xs, f) && x.endFrame < f
  {
    assert (xs + [x])[|xs|] == x && forall i :: 0 <= i < |xs| ==> (xs + [x])[i] == xs[i];
  }

  lemma {:induction false} MergeReach(out: seq<QcInterval>, ys: seq<QcInterval>, b: nat, f: nat)
    ensures EndBy(MergeInto(out, ys), b) <==> EndBy(out, b) && EndBy(ys, b)
    ensures EndBeforeFrame(MergeInto(out, ys), f) <==> EndBeforeFrame(out, f) && EndBeforeFrame(ys, f)
    decreases |ys|
  {
    hide Absorb;
    if ys != [] {
      AbsorbReach(out, ys[0], b, f);
      MergeReach(Absorb(out, ys[0]), ys[1..], b, f);
      assert ys == [ys[0]] + ys[1..];
    }
  }

  /** What the loop has built from the first `k` intervals. */
  ghost function Built(ys: seq<QcInterval>, k: nat): seq<QcInterval>
    requires k <= |ys|
  {
    MergeInto([], ys[..k])
  }

  lemma BuiltNext(ys: seq<QcInterval>, k: nat)
    requires k < |ys|
    ensures Built(ys, k + 1) == Absorb(Built(ys, k), ys[k])
  {
    hide Absorb;
    assert ys[..k + 1] == ys[..k] + [ys[k]] && [ys[k]] == [ys[k]] + [];
    MergeConcat([], ys[..k], [ys[k]]);
    MergeStep(Built(ys, k), ys[k], []);
  }

  lemma BuiltRest(ys: seq<QcInterval>, k: nat)
    requires k <= |ys|
    ensures MergeInto(Built(ys, k), ys[k..]) == MergeInto([], ys)
  {
    assert ys == ys[..k] + ys[k..];
    MergeConcat([], ys[..k], ys[k..]);
  }

  ghost predicate AllWellFormed(xs: seq<QcInterval>) {
    forall x :: x in xs ==> WellFormed(x)
  }

  lemma BuiltShape(ys: seq<QcInterval>, k: nat)
    requires Sorted(ys) && AllWellFormed(ys) && k <= |ys|
    ensures AllWellFormed(Built(ys, k)) && FramesApart(Built(ys, k))
  {
    assert Sorted(ys[..k]);
    MergedWellFormed([], ys[..k]);
    MergedFramesApart([], ys[..k]);
  }

  // ----- chains

  /** Apart from neighbour to neighbour is apart altogether. */
  lemma {:induction false} TimesChain(out: seq<QcInterval>, c: nat)
    requires AllWellFormed(out) && TimesApart(out) && c < |out|
    ensures EndBy(out[..c], out[c].startMs)
  {
    if c > 0 {
      TimesChain(out, c - 1);
      assert WellFormed(out[c - 1]) && out[c - 1].endMs <= out[c - 1 + 1].startMs;
      assert out[..c] == out[..c - 1] + [out[c - 1]];
    }
  }

  lemma {:induction false} FramesChain(out: seq<QcInterval>, c: nat)
    requires AllWellFormed(out) && FramesApart(out) && c < |out|
    ensures EndBeforeFrame(out[..c], out[c].startFrame)
  {
    if c > 0 {
      FramesChain(out, c - 1);
      assert WellFormed(out[c - 1]) && out[c - 1].endFrame < out[c - 1 + 1].startFrame;
      assert out[..c] == out[..c - 1] + [out[c - 1]];
    }
  }

  // ----- if nothing reaches back, the outputs are apart in time

  /** The intervals from `k` on start after all finished outputs have ended. */
  ghost predicate Behind(out: seq<QcInterval>, ys: seq<QcInterval>, k: nat) {
    forall j :: k <= j < |ys| && out != [] ==> EndBy(out[..|out| - 1], ys[j].startMs)
  }

  lemma BreakIsGap(ys: seq<QcInterval>, k: nat)
    requires Sorted(ys) && AllWellFormed(ys) && k < |ys| && Behind(Built(ys, k), ys, k)
    requires Built(ys, k) != [] && !Overlaps(Built(ys, k)[|Built(ys, k)| - 1], ys[k])
    ensures Gap(ys, k)
  {
    hide Built, Sorted;
    var out := Built(ys, k);
    var n := |out| - 1;
    BuiltShape(ys, k);
    FramesChain(out, n);
    assert out == out[..n] + [out[n]] && WellFormed(out[n]);
    BuiltReach(ys, k, ys[k].startMs, ys[k].startFrame);
  }

  lemma BuiltReach(ys: seq<QcInterval>, k: nat, b: nat, f: nat)
    requires k <= |ys|
    ensures EndBy(Built(ys, k), b) <==> EndBy(ys[..k], b)
    ensures EndBeforeFrame(Built(ys, k), f) <==> EndBeforeFrame(ys[..k], f)
  {
    MergeReach([], ys[..k], b, f);
  }

  lemma StaysBehind(ys: seq<QcInterval>, k: nat)
    requires Sorted(ys) && AllWellFormed(ys) && NeverReachesBack(ys) && k < |ys|
    requires Behind(Built(ys, k), ys, k) && TimesApart(Built(ys, k))
    ensures Behind(Built(ys, k + 1), ys, k + 1) && TimesApart(Built(ys, k + 1))
  {
    hide Built, Sorted, Gap, Behind, TimesApart, NeverReachesBack, Overlaps, EndBy;
    BuiltNext(ys, k);
    var out, x := Built(ys, k), ys[k];
    if out == [] {
      assert out + [x] == [x];
      FirstBehind(ys, k);
    } else if !Overlaps(out[|out| - 1], x) {
      BreakIsGap(ys, k);
      forall j | k <= j < |ys| ensures EndBy(out, ys[j].startMs) {
        GapEnds(ys, k, j);
        BuiltReach(ys, k, ys[j].startMs, 0);
      }
      BreakBehind(out, ys, k);
    } else {
      JoinBehind(out, ys, k);
    }
  }

  lemma GapEnds(ys: seq<QcInterval>, k: nat, j: nat)
    requires NeverReachesBack(ys) && k <= j < |ys| && Gap(ys, k)
    ensures EndBy(ys[..k], ys[j].startMs)
  {
    hide Gap, EndBy;
  }

  lemma FirstBehind(ys: seq<QcInterval>, k: nat)
    requires k < |ys|
    ensures Behind([ys[k]], ys, k + 1) && TimesApart([ys[k]])
  {
  }

  lemma BreakBehind(out: seq<QcInterval>, ys: seq<QcInterval>, k: nat)
    requires out != [] && k < |ys| && TimesApart(out) && forall j :: k <= j < |ys| ==> EndBy(out, ys[j].startMs)
    ensures Behind(out + [ys[k]], ys, k + 1) && TimesApart(out + [ys[k]])
  {
    assert (out + [ys[k]])[..|out|] == out;
    assert EndBy(out, ys[k].startMs);
  }

  lemma JoinBehind(out: seq<QcInterval>, ys: seq<QcInterval>, k: nat)
    requires out != [] && k < |ys| && Behind(out, ys, k) && TimesApart(out)
    ensures
      var joined := out[..|out| - 1] + [Join(out[|out| - 1], ys[k])];
      Behind(joined, ys, k + 1) && TimesApart(joined)
  {
    hide JoinReasons;
    var n := |out| - 1;
    var joined := out[..n] + [Join(out[n], ys[k])];
    assert joined[..n] == out[..n];
    assert EndBy(out[..n], ys[k].startMs);
    if n > 0 {
      assert out[..n][n - 1] == out[n - 1] && out[n - 1].endMs <= out[n - 1 + 1].startMs;
    }
  }

  lemma {:induction false} StayBehind(ys: seq<QcInterval>, k: nat)
    requires Sorted(ys) && AllWellFormed(ys) && NeverReachesBack(ys) && k <= |ys|
    ensures Behind(Built(ys, k), ys, k) && TimesApart(Built(ys, k))
  {
    hide Sorted, NeverReachesBack, Behind, TimesApart;
    if k == 0 {
      assert Built(ys, 0) == [];
      NothingBehind(ys);
    } else {
      StayBehind(ys, k - 1);
      StaysBehind(ys, k - 1);
    }
  }

  lemma NothingBehind(ys: seq<QcInterval>)
    ensures Behind([], ys, 0) && TimesApart([])
  {
  }

  // ----- if the outputs are apart in time, nothing reaches back

  /** Finished outputs stay; the last one only grows. */
  lemma {:induction false} FinishedStay(out: seq<QcInterval>, ys: seq<QcInterval>)
    requires out != []
    ensures |MergeInto(out, ys)| >= |out| && MergeInto(out, ys)[..|out| - 1] == out[..|out| - 1]
    decreases |ys|
  {
    hide Overlaps, Join;
    if ys != [] {
      var out' := Absorb(out, ys[0]);
      FinishedStay(out', ys[1..]);
      var f := MergeInto(out, ys);
      assert f[..|out| - 1] == f[..|out'| - 1][..|out| - 1];
    }
  }

  /** Each member lies in an output no earlier than the one that was last when it came. */
  lemma {:induction false} CoveredLater(out: seq<QcInterval>, ys: seq<QcInterval>, j: int) returns (c: nat)
    requires out != [] && -1 <= j < |ys|
    ensures
      var f := MergeInto(out, ys);
      |out| - 1 <= c < |f| && f[c].startMs <= (if j < 0 then out[|out| - 1] else ys[j]).startMs
    decreases |ys|
  {
    if ys == [] {
      c := |out| - 1;
    } else {
      var out' := Absorb(out, ys[0]);
      FinishedStay(out', ys[1..]);
      if j < 0 && |out'| > |out| {
        c := |out| - 1;
        assert MergeInto(out, ys)[c] == MergeInto(out, ys)[..|out'| - 1][c] == out'[..|out'| - 1][c];
      } else {
        c := CoveredLater(out', ys[1..], if j < 0 then -1 else j - 1);
      }
    }
  }

  lemma GapIsBreak(ys: seq<QcInterval>, k: nat)
    requires k < |ys| && Gap(ys, k)
    ensures Built(ys, k + 1) == Built(ys, k) + [ys[k]]
  {
    hide Built;
    BuiltNext(ys, k);
    BuiltReach(ys, k, ys[k].startMs, ys[k].startFrame);
  }

  lemma ApartNeverReachesBack(ys: seq<QcInterval>, k: nat, j: nat)
    requires AllWellFormed(ys) && k <= j < |ys| && Gap(ys, k)
    requires TimesApart(MergeInto([], ys)) && AllWellFormed(MergeInto([], ys))
    ensures EndBy(ys[..k], ys[j].startMs)
  {
    hide Built, TimesApart, Gap, AllWellFormed, MergeInto;
    GapIsBreak(ys, k);
    BuiltRest(ys, k + 1);
    var f, out := MergeInto([], ys), Built(ys, k);
    FinishedStay(out + [ys[k]], ys[k + 1..]);
    var c := CoveredLater(out + [ys[k]], ys[k + 1..], j - k - 1);
    TimesChain(f, c);
    assert (out + [ys[k]])[..|out|] == out;
    forall i | 0 <= i < |out| ensures out[i].endMs <= ys[j].startMs {
      assert f[..|out|][i] == out[i] && f[..c][i] == f[i];
    }
    BuiltReach(ys, k, ys[j].startMs, 0);
  }

  /** Merging twice is merging once if and only if, along the sorted input, nothing after a
      gap starts before what came before the gap has ended. */
  lemma MergeTwiceIff(xs: seq<QcInterval>)
    requires AllWellFormed(xs)
    ensures MergeAll(MergeAll(xs)) == MergeAll(xs) <==> NeverReachesBack(Sort(xs))
    ensures NeverReachesBack(Sort(xs)) <==> TimesApart(MergeAll(xs))
  {
    hide Gap, TimesApart;
    var ys := Sort(xs);
    var _ := MergeTheorem(xs);
    SortedWellFormed(xs);
    if NeverReachesBack(ys) {
      StayBehind(ys, |ys|);
      assert ys[..|ys|] == ys;
    }
    if TimesApart(MergeAll(xs)) {
      forall k, j | 0 <= k <= j < |ys| && Gap(ys, k) ensures EndBy(ys[..k], ys[j].startMs) {
        ApartNeverReachesBack(ys, k, j);
      }
    }
  }

  lemma {:induction false} SortedWellFormed(xs: seq<QcInterval>)
    requires AllWellFormed(xs)
    ensures AllWellFormed(Sort(xs))
  {
    if xs != [] {
      SortedWellFormed(xs[1..]);
      InsertMembers(xs[0], Sort(xs[1..]));
      assert WellFormed(xs[0]);
    }
  }

  lemma {:induction false} InsertMembers(x: QcInterval, ys: seq<QcInterval>)
    ensures forall y :: y in Insert(x, ys) ==> y == x || y in ys
  {
    if ys != [] {
      InsertMembers(x, ys[1..]);
    }
  }
}
