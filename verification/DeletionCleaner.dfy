/** The cleanup loop of one worker, with everybody else's steps in between: every execution
    of the loop is a run of the step machine of DeletionIntents. */
module DeletionCleaner {
  import opened Wrappers
  import opened DeletionIntents

  /** The step is not one of worker `k`. */
  predicate Foreign(step: Step, k: ClaimId) {
    step.Work? ==> step.claim != k
  }

  predicate AllForeign(steps: seq<Step>, k: ClaimId) {
    forall i :: 0 <= i < |steps| ==> Foreign(steps[i], k)
  }

  lemma ForeignStep(s: State, step: Step, k: ClaimId)
    requires k in s.workers && k < s.next && Foreign(step, k)
    ensures k in Apply(s, step).workers && Apply(s, step).workers[k] == s.workers[k] && k < Apply(s, step).next
  {
    hide Remaining;
  }

  lemma {:induction false} ForeignKeepsWorker(s: State, steps: seq<Step>, k: ClaimId)
    requires k in s.workers && k < s.next && AllForeign(steps, k)
    ensures k in Run(s, steps).workers && Run(s, steps).workers[k] == s.workers[k] && k < Run(s, steps).next
  {
    hide Apply, Foreign;
    if steps != [] {
      var n := |steps| - 1;
      ForeignKeepsWorker(s, steps[..n], k);
      ForeignStep(Run(s, steps[..n]), steps[n], k);
    }
  }

  lemma {:induction false} RunConcat(s: State, xs: seq<Step>, ys: seq<Step>)
    ensures Run(s, xs + ys) == Run(Run(s, xs), ys)
    decreases |ys|
  {
    hide Apply;
    if ys == [] {
      assert xs + ys == xs;
    } else {
      var n := |ys| - 1;
      assert (xs + ys)[..|xs + ys| - 1] == xs + ys[..n];
      RunConcat(s, xs, ys[..n]);
    }
  }

  lemma EmptyRun(s: State)
    ensures Run(s, []) == s
  {
  }

  lemma RunSnoc(s: State, xs: seq<Step>, y: Step)
    ensures Run(s, xs + [y]) == Apply(Run(s, xs), y)
  {
    hide Apply;
    assert (xs + [y])[..|xs + [y]| - 1] == xs;
  }

  const MAX_BATCH := 100

  datatype CleanupResult = LostClaim | Completed | Unfinished

  // ----- a worker left alone with its claim

  /** The step neither takes the intent over nor strands a file in quarantine. */
  predicate CalmStep(step: Step, i: IntentId) {
    && (step.Take? ==> step.intent != i)
    && (step.Work? ==> step.outcome != Strands)
  }

  predicate AllCalm(steps: seq<Step>, i: IntentId) {
    forall n :: 0 <= n < |steps| ==> CalmStep(steps[n], i)
  }

  /** No ordinary file of the intent is stuck in quarantine. */
  ghost predicate NothingStuck(s: State, i: IntentId) {
    forall a :: a in s.artifacts && a in s.places && s.artifacts[a].intent == i && s.places[a] == Quarantined ==> s.artifacts[a].isPackage
  }

  lemma CalmStepKeeps(s: State, step: Step, k: ClaimId, i: IntentId)
    requires Holds(s, i, k) && NothingStuck(s, i) && Foreign(step, k) && CalmStep(step, i)
    ensures Holds(Apply(s, step), i, k) && NothingStuck(Apply(s, step), i)
  {
    hide Remaining;
  }

  lemma {:induction false} CalmRunKeeps(s: State, steps: seq<Step>, k: ClaimId, i: IntentId)
    requires Holds(s, i, k) && NothingStuck(s, i) && AllForeign(steps, k) && AllCalm(steps, i)
    ensures Holds(Run(s, steps), i, k) && NothingStuck(Run(s, steps), i)
  {
    hide Apply, Foreign, CalmStep, Holds, NothingStuck;
    if steps != [] {
      var n := |steps| - 1;
      CalmRunKeeps(s, steps[..n], k, i);
      CalmStepKeeps(Run(s, steps[..n]), steps[n], k, i);
    }
  }

  class Cleaner {
    var intents: map<IntentId, Intent>
    var artifacts: map<ArtifactId, Artifact>
    var places: map<ArtifactId, Place>
    var workers: map<ClaimId, Worker>
    var next: ClaimId
    var script: seq<seq<Step>>   // what the other workers do, one burst before each step of ours
    ghost var trace: seq<Step>   // all steps so far

    constructor (s: State, script: seq<seq<Step>>)
      ensures Now() == s && this.script == script && trace == []
    {
      intents, artifacts, places, workers, next := s.intents, s.artifacts, s.places, s.workers, s.next;
      this.script, trace := script, [];
    }

    function Now(): State
      reads this
    {
      State(intents, artifacts, places, workers, next)
    }

    /** The state is the outcome of the steps traced since `s0`, `k` is a worker in state
        `w`, and the others' remaining steps are not its own. */
    ghost predicate Tracks(s0: State, k: ClaimId, w: Worker)
      reads this
    {
      && Now() == Run(s0, trace) && k < next && k in workers && workers[k] == w
      && forall i :: 0 <= i < |script| ==> AllForeign(script[i], k)
    }

    /** The worker holds its claim, nothing is stuck, and it will stay so for all that the
        others do. */
    ghost predicate Calm(k: ClaimId, i: IntentId)
      reads this
    {
      Holds(Now(), i, k) && NothingStuck(Now(), i) && forall n :: 0 <= n < |script| ==> AllCalm(script[n], i)
    }

    method Become(s: State)
      modifies this
      ensures Now() == s && script == old(script) && trace == old(trace)
    {
      intents, artifacts, places, workers, next := s.intents, s.artifacts, s.places, s.workers, s.next;
    }

    /** Let the others take their next burst of steps. */
    method Others(ghost s0: State, k: ClaimId, ghost w: Worker)
      requires Tracks(s0, k, w)
      modifies this
      ensures Tracks(s0, k, w)
      ensures old(Calm(k, w.intent)) ==> Calm(k, w.intent)
    {
      hide Run, Apply, Holds, NothingStuck;
      if script != [] {
        var burst := script[0];
        ghost var before := Now();
        script := script[1..];
        var n := 0;
        EmptyRun(before);
        while n < |burst|
          invariant 0 <= n <= |burst| && Now() == Run(before, burst[..n]) && script == old(script)[1..] && trace == old(trace)
        {
          RunSnoc(before, burst[..n], burst[n]);
          assert burst[..n + 1] == burst[..n] + [burst[n]];
          Become(Apply(Now(), burst[n]));
          n := n + 1;
        }
        assert burst[..n] == burst;
        ForeignKeepsWorker(before, burst, k);
        RunConcat(s0, trace, burst);
        trace := trace + burst;
        if old(Calm(k, w.intent)) {
          CalmRunKeeps(before, burst, k, w.intent);
        }
      }
    }

    /** Note the step of worker `k` that has just been made. */
    ghost method Trace(s0: State, before: State, step: Step)
      requires before == Run(s0, trace) && Now() == Apply(before, step)
      modifies this`trace
      ensures trace == old(trace) + [step] && Now() == Run(s0, trace)
    {
      hide Run, Apply;
      RunSnoc(s0, trace, step);
      trace := trace + [step];
    }

    /** The first transaction: lock the claimed intent and list its undeleted artifacts. */
    method BeginCleanup(ghost s0: State, k: ClaimId, ghost w: Worker) returns (ids: Option<set<ArtifactId>>)
      requires Tracks(s0, k, w) && w.phase == Begin
      modifies this
      ensures trace == old(trace) + [Work(k, 0, Succeeds)] && script == old(script)
      ensures ids == if Holds(old(Now()), w.intent, k) then Some(Remaining(old(Now()), w.intent)) else None
      ensures ids.None? ==> Tracks(s0, k, w.(phase := Done)) && !Holds(Now(), w.intent, k)
      ensures ids.Some? ==> Tracks(s0, k, w.(phase := Next, todo := ids.value))
      ensures old(Calm(k, w.intent)) ==> Calm(k, w.intent)
    {
      hide Run, AllForeign, Remaining, AllCalm;
      ghost var before := Now();
      var i := workers[k].intent;
      if Holds(Now(), i, k) {
        var todo := Remaining(Now(), i);
        ids := Some(todo);
        workers := workers[k := workers[k].(phase := Next, todo := todo)];
      } else {
        ids := None;
        workers := workers[k := workers[k].(phase := Done)];
      }
      Trace(s0, before, Work(k, 0, Succeeds));
    }

    /** The transaction before an attempt: the artifact must still be undeleted and the
        claim still held. */
    method CheckArtifact(ghost s0: State, k: ClaimId, ghost w: Worker, a: ArtifactId) returns (found: bool)
      requires Tracks(s0, k, w) && w.phase == Next && a in w.todo
      modifies this
      ensures trace == old(trace) + [Work(k, a, Succeeds)] && script == old(script)
      ensures found <==> Holds(old(Now()), w.intent, k) && a in Remaining(old(Now()), w.intent)
      ensures Tracks(s0, k, w.(todo := w.todo - {a}, phase := if found then Checked(a) else Next))
      ensures old(Calm(k, w.intent)) ==> Calm(k, w.intent)
    {
      hide Run, AllForeign, Remaining, AllCalm;
      ghost var before := Now();
      var i := workers[k].intent;
      found := Holds(Now(), i, k) && a in Remaining(Now(), i);
      workers := workers[k := workers[k].(todo := workers[k].todo - {a}, phase := if found then Checked(a) else Next)];
      Trace(s0, before, Work(k, a, Succeeds));
    }

    /** `_delete_review_deletion_artifact`: false stands for an exception. The file moves as
        the attempt says, nothing else does, and a normal return means that it is gone. */
    method DeleteArtifact(ghost s0: State, k: ClaimId, ghost w: Worker, a: ArtifactId, outcome: Outcome) returns (ok: bool)
      requires Inv(s0) && Tracks(s0, k, w) && w.phase == Checked(a)
      modifies this
      ensures trace == old(trace) + [Work(k, a, outcome)] && script == old(script)
      ensures a in old(artifacts) && a in old(places) && a in places
      ensures (places[a], ok) == Attempt(old(artifacts)[a].isPackage, old(places)[a], outcome) && places == old(places)[a := places[a]]
      ensures ok ==> places[a] == Gone
      ensures intents == old(intents) && artifacts == old(artifacts)
      ensures Tracks(s0, k, w.(phase := Tried(a, ok)))
      ensures old(Calm(k, w.intent)) && outcome == Succeeds ==> Calm(k, w.intent) && ok
    {
      hide Run, AllForeign, Remaining, IntentOk, AllCalm;
      ghost var before := Now();
      RunKeeps(s0, trace);
      assert WorkerOk(before, k, w) && a in InHand(w.phase);
      var (place, returned) := Attempt(artifacts[a].isPackage, places[a], outcome);
      ok := returned;
      places := places[a := place];
      workers := workers[k := workers[k].(phase := Tried(a, ok))];
      Trace(s0, before, Work(k, a, outcome));
    }

    /** The transaction after an attempt, under the same fence. */
    method RecordOutcome(ghost s0: State, k: ClaimId, ghost w: Worker, a: ArtifactId, ok: bool) returns (recorded: bool)
      requires Inv(s0) && Tracks(s0, k, w) && w.phase == Tried(a, ok)
      modifies this
      ensures trace == old(trace) + [Work(k, a, Succeeds)] && script == old(script)
      ensures recorded <==> Holds(old(Now()), w.intent, k)
      ensures a in old(artifacts) && artifacts ==
        if recorded then old(artifacts)[a := old(artifacts)[a].(status := if ok then Deleted else Unsuccessful, attempts := old(artifacts)[a].attempts + 1)]
        else old(artifacts)
      ensures intents == old(intents) && places == old(places)
      ensures Tracks(s0, k, w.(phase := Next, hadFailure := w.hadFailure || (recorded && !ok)))
      ensures old(Calm(k, w.intent)) ==> Calm(k, w.intent)
    {
      hide Run, AllForeign, Remaining, IntentOk, AllCalm;
      ghost var before := Now();
      RunKeeps(s0, trace);
      assert WorkerOk(before, k, w) && a in InHand(w.phase);
      recorded := Holds(Now(), workers[k].intent, k);
      if recorded {
        artifacts := artifacts[a := artifacts[a].(status := if ok then Deleted else Unsuccessful, attempts := artifacts[a].attempts + 1)];
        workers := workers[k := workers[k].(phase := Next, hadFailure := workers[k].hadFailure || !ok)];
      } else {
        workers := workers[k := workers[k].(phase := Next)];
      }
      Trace(s0, before, Work(k, a, Succeeds));
    }

    /** The last transaction: close the intent, exactly if the claim is still held; it is
        complete exactly if nothing remains, and otherwise a failure has been recorded. */
    method FinishIntent(ghost s0: State, k: ClaimId, ghost w: Worker) returns (result: CleanupResult)
      requires Inv(s0) && Tracks(s0, k, w) && w.phase == Next && w.todo == {}
      modifies this
      ensures trace == old(trace) + [Work(k, 0, Succeeds)]
      ensures Tracks(s0, k, w.(phase := Done))
      ensures result == LostClaim <==> !Holds(old(Now()), w.intent, k)
      ensures result == LostClaim ==> intents == old(intents) && !Holds(Now(), w.intent, k)
      ensures result != LostClaim ==> (result == Completed <==> Remaining(old(Now()), w.intent) == {})
      ensures result != LostClaim ==> w.intent in intents && intents[w.intent].status == (if result == Completed then Complete else Failed)
      ensures result == Unfinished ==> w.hadFailure
    {
      hide Run, AllForeign, Remaining;
      ghost var before := Now();
      RunKeeps(s0, trace);
      var i := workers[k].intent;
      result := LostClaim;
      if Holds(Now(), i, k) {
        assert IntentOk(before, i);
        var intent := intents[i].(claim := None, leaseUntil := None);
        if Remaining(Now(), i) == {} {
          result := Completed;
          intents := intents[i := intent.(status := Complete, error := None)];
        } else {
          result := Unfinished;
          intents := intents[i := intent.(status := Failed, error := Some(if workers[k].hadFailure then RetryPending else Incomplete))];
        }
      }
      workers := workers[k := workers[k].(phase := Done)];
      Trace(s0, before, Work(k, 0, Succeeds));
    }

    /** `_cleanup_claimed_review_deletions` for one claim. Its execution, with the steps of
        all others in between, is a run of the machine that takes its worker to the end. If
        the worker still holds its claim there, the intent is complete unless an attempt
        was recorded as a failure. And if the claim is held at the start and not taken over,
        nobody strands a file, no ordinary file is stuck in quarantine and every attempt
        succeeds, then the intent is completed. */
    method Cleanup(k: ClaimId, outcomes: map<ArtifactId, Outcome>) returns (result: CleanupResult, hadFailure: bool)
      requires Inv(Now()) && k in workers && workers[k] == Worker(workers[k].intent, Begin, {}, false) && k < next && trace == []
      requires forall i :: 0 <= i < |script| ==> AllForeign(script[i], k)
      modifies this
      ensures Now() == Run(old(Now()), trace) && Inv(Now())
      ensures k in workers && workers[k].phase == Done && workers[k].intent == old(workers[k].intent)
      ensures result != LostClaim ==> workers[k].intent in intents && intents[workers[k].intent].status == (if result == Completed then Complete else Failed)
      ensures result == LostClaim ==> !Holds(Now(), workers[k].intent, k)
      ensures result == Unfinished ==> hadFailure
      ensures old(Calm(k, workers[k].intent)) && (forall a :: a in outcomes ==> outcomes[a] == Succeeds) ==> result == Completed
    {
      hide Run, AllForeign, Inv, Apply, Holds, NothingStuck, AllCalm, Remaining;
      ghost var s0 := Now();
      ghost var i := workers[k].intent;
      ghost var calm := Calm(k, i) && forall a :: a in outcomes ==> outcomes[a] == Succeeds;
      EmptyRun(s0);
      hadFailure := false;
      Others(s0, k, workers[k]);
      var ids := BeginCleanup(s0, k, workers[k]);
      if ids.None? {
        RunKeeps(s0, trace);
        return LostClaim, false;
      }
      var todo := ids.value;
      while todo != {}
        invariant Tracks(s0, k, Worker(i, Next, todo, hadFailure))
        invariant calm ==> Calm(k, i) && !hadFailure
        decreases todo
      {
        var a :| a in todo;
        Others(s0, k, workers[k]);
        var found := CheckArtifact(s0, k, workers[k], a);
        todo := todo - {a};
        if found {
          Others(s0, k, workers[k]);
          var ok := DeleteArtifact(s0, k, workers[k], a, if a in outcomes then outcomes[a] else Succeeds);
          Others(s0, k, workers[k]);
          var recorded := RecordOutcome(s0, k, workers[k], a, ok);
          hadFailure := hadFailure || (recorded && !ok);
        }
      }
      Others(s0, k, workers[k]);
      result := FinishIntent(s0, k, workers[k]);
      RunKeeps(s0, trace);
    }

    /** `_claim_review_deletion_intents` on the rows found: it takes every eligible intent
        among them, in order, up to `batchSize`, each under a fresh claim with its own
        worker, and does nothing else. */
    method ClaimIntents(found: seq<IntentId>, batchSize: int, leaseSeconds: int, now: Time) returns (claims: Option<seq<(IntentId, ClaimId)>>)
      requires Inv(Now()) && trace == []
      modifies this
      ensures claims.None? <==> !(1 <= batchSize <= MAX_BATCH && leaseSeconds >= 1)
      ensures Now() == Run(old(Now()), trace) && Inv(Now()) && (claims.None? ==> Now() == old(Now()))
      ensures claims.Some? ==> |claims.value| <= batchSize && Issued(claims.value, old(next)) && trace == Takes(claims.value, leaseSeconds, now)
      ensures claims.Some? ==> forall n :: 0 <= n < |claims.value| ==>
        claims.value[n].0 in old(intents) && Eligible(old(intents)[claims.value[n].0], now)
      ensures claims.Some? && |claims.value| < batchSize ==>
        forall i :: i in found && i in old(intents) && Eligible(old(intents)[i], now) ==> ClaimedIn(claims.value, i)
    {
      hide Run, Inv, Eligible, Claiming, Takes, ClaimedIn;
      ghost var s0 := Now();
      EmptyRun(s0);
      if !(1 <= batchSize <= MAX_BATCH) || leaseSeconds < 1 {
        return None;
      }
      var made := [];
      NothingClaimed(s0, leaseSeconds, now);
      for n := 0 to |found|
        invariant Now() == Run(s0, trace) && |made| <= batchSize && trace == Takes(made, leaseSeconds, now)
        invariant Claiming(s0, Now(), made, found[..n], |made| < batchSize, now)
      {
        var i := found[n];
        ClaimingNext(s0, Now(), made, found, n, batchSize, leaseSeconds, now);
        if |made| < batchSize && i in intents && Eligible(intents[i], now) {
          ghost var before := Now();
          TakesSnoc(made, i, next, leaseSeconds, now);
          made := made + [(i, next)];
          intents := intents[i := Intent(Cleaning, intents[i].attempts + 1, Some(next), Some(now + leaseSeconds), None)];
          workers := workers[next := Worker(i, Begin, {}, false)];
          next := next + 1;
          Trace(s0, before, Take(i, leaseSeconds, now));
        }
      }
      AllSeen(s0, Now(), made, found, |made| < batchSize, now);
      RunKeeps(s0, trace);
      claims := Some(made);
    }

    /** Each claim has a worker of its own that is about to begin. */
    ghost predicate Issued(claims: seq<(IntentId, ClaimId)>, from: ClaimId)
      reads this
    {
      IssuedIn(Now(), claims, from)
    }
  }

  ghost predicate IssuedIn(s: State, claims: seq<(IntentId, ClaimId)>, from: ClaimId) {
    forall n :: 0 <= n < |claims| ==>
      from <= claims[n].1 < s.next && claims[n].1 in s.workers && s.workers[claims[n].1] == Worker(claims[n].0, Begin, {}, false)
  }

  /** A claiming loop in progress: the claimed intents were eligible and are so no more, the
      others are as they were, and while there is room every eligible one seen is claimed. */
  ghost predicate Claiming(s0: State, s: State, made: seq<(IntentId, ClaimId)>, seen: seq<IntentId>, room: bool, now: Time) {
    && s.intents.Keys == s0.intents.Keys && s0.next <= s.next && IssuedIn(s, made, s0.next)
    && (forall m :: 0 <= m < |made| ==> made[m].0 in s0.intents && Eligible(s0.intents[made[m].0], now))
    && (forall i :: i in s0.intents ==> if ClaimedIn(made, i) then !Eligible(s.intents[i], now) else s.intents[i] == s0.intents[i])
    && (room ==> forall m :: 0 <= m < |seen| && seen[m] in s0.intents && Eligible(s0.intents[seen[m]], now) ==> ClaimedIn(made, seen[m]))
  }

  lemma NothingClaimed(s: State, leaseSeconds: nat, now: Time)
    ensures Claiming(s, s, [], [], true, now) && Takes([], leaseSeconds, now) == []
  {
  }

  lemma ClaimingNext(s0: State, s: State, made: seq<(IntentId, ClaimId)>, found: seq<IntentId>, n: nat, batchSize: nat, leaseSeconds: nat, now: Time)
    requires n < |found| && leaseSeconds >= 1 && |made| <= batchSize && Claiming(s0, s, made, found[..n], |made| < batchSize, now)
    ensures
      var i := found[n];
      if |made| < batchSize && i in s.intents && Eligible(s.intents[i], now) then
        Claiming(s0, Taken(s, i, leaseSeconds, now), made + [(i, s.next)], found[..n + 1], |made| + 1 < batchSize, now)
      else Claiming(s0, s, made, found[..n + 1], |made| < batchSize, now)
  {
    var i := found[n];
    assert found[..n + 1] == found[..n] + [i];
    ClaimedSnoc(made, i, s.next);
    hide ClaimedIn;
  }

  lemma AllSeen(s0: State, s: State, made: seq<(IntentId, ClaimId)>, found: seq<IntentId>, room: bool, now: Time)
    requires Claiming(s0, s, made, found[..|found|], room, now)
    ensures IssuedIn(s, made, s0.next)
    ensures forall m :: 0 <= m < |made| ==> made[m].0 in s0.intents && Eligible(s0.intents[made[m].0], now)
    ensures room ==> forall i :: i in found && i in s0.intents && Eligible(s0.intents[i], now) ==> ClaimedIn(made, i)
  {
    hide Eligible;
    assert found[..|found|] == found;
  }

  ghost predicate ClaimedIn(claims: seq<(IntentId, ClaimId)>, i: IntentId) {
    exists n :: 0 <= n < |claims| && claims[n].0 == i
  }

  lemma ClaimedSnoc(claims: seq<(IntentId, ClaimId)>, i: IntentId, k: ClaimId)
    ensures forall j :: ClaimedIn(claims + [(i, k)], j) <==> ClaimedIn(claims, j) || j == i
  {
    var all := claims + [(i, k)];
    assert all[|claims|].0 == i;
    forall j | ClaimedIn(claims, j) ensures ClaimedIn(all, j) {
      var n :| 0 <= n < |claims| && claims[n].0 == j;
      assert all[n].0 == j;
    }
  }

  /** The steps that hand out these claims. */
  ghost function Takes(claims: seq<(IntentId, ClaimId)>, leaseSeconds: nat, now: Time): (steps: seq<Step>)
    ensures |steps| == |claims|
  {
    seq(|claims|, n requires 0 <= n < |claims| => Take(claims[n].0, leaseSeconds, now))
  }

  lemma TakesSnoc(claims: seq<(IntentId, ClaimId)>, i: IntentId, k: ClaimId, leaseSeconds: nat, now: Time)
    ensures Takes(claims + [(i, k)], leaseSeconds, now) == Takes(claims, leaseSeconds, now) + [Take(i, leaseSeconds, now)]
  {
  }
}
