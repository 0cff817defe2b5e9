/** Review-deletion intents: workers claim an intent under a lease, try to delete the files of
    its artifacts and record each outcome. A claim can be taken over at any time after its
    lease ran out, also while its worker is deleting a file. Every transaction and every
    attempt on a file is one atomic step of one worker. */
module DeletionIntents {
  import opened Wrappers

  type IntentId = nat
  type ArtifactId = nat
  type ClaimId = nat
  type Time = int

  datatype IntentStatus = Pending | Cleaning | Complete | Failed

  datatype ErrorCode = RetryPending | Incomplete

  datatype Intent = Intent(status: IntentStatus, attempts: nat, claim: Option<ClaimId>, leaseUntil: Option<Time>, error: Option<ErrorCode>)

  datatype ArtifactStatus = Waiting | Deleted | Unsuccessful

  datatype Artifact = Artifact(intent: IntentId, isPackage: bool, status: ArtifactStatus, attempts: nat)

  /** Where the captured file of an artifact is. */
  datatype Place = AtName | Quarantined | Gone

  datatype Outcome = Succeeds | Leaves | Strands

  // ----- the attempt on one file

  /** One attempt: the file's new place, and whether the call returned normally. A file
      missing from its name but still in quarantine is an error, except that the package
      journal finishes the deletion it finds there. */
  function Attempt(isPackage: bool, place: Place, outcome: Outcome): (Place, bool) {
    match place
    case AtName => (match outcome case Succeeds => (Gone, true) case Leaves => (AtName, false) case Strands => (Quarantined, false))
    case Quarantined => if isPackage && outcome == Succeeds then (Gone, true) else (Quarantined, false)
    case Gone => (Gone, outcome == Succeeds)
  }

  // ----- workers

  /** What a worker does next. `Checked` is before the attempt on a file, `Tried` after. */
  datatype Phase = Begin | Next | Checked(artifact: ArtifactId) | Tried(artifact: ArtifactId, ok: bool) | Done

  datatype Worker = Worker(intent: IntentId, phase: Phase, todo: set<ArtifactId>, hadFailure: bool)

  datatype State = State(intents: map<IntentId, Intent>, artifacts: map<ArtifactId, Artifact>,
                         places: map<ArtifactId, Place>, workers: map<ClaimId, Worker>, next: ClaimId)

  datatype Step =
    | Take(intent: IntentId, leaseSeconds: nat, now: Time)
    | Work(claim: ClaimId, artifact: ArtifactId, outcome: Outcome)
    | RecoverQuarantine(file: ArtifactId)

  predicate Eligible(i: Intent, now: Time) {
    i.status == Pending || i.status == Failed || (i.status == Cleaning && i.leaseUntil.Some? && i.leaseUntil.value <= now)
  }

  /** The fence of every write: the intent is being cleaned under this claim. */
  predicate Holds(s: State, i: IntentId, k: ClaimId) {
    i in s.intents && s.intents[i].status == Cleaning && s.intents[i].claim == Some(k)
  }

  function Remaining(s: State, i: IntentId): set<ArtifactId> {
    set a | a in s.artifacts && s.artifacts[a].intent == i && s.artifacts[a].status != Deleted
  }

  function Moved(s: State, k: ClaimId, phase: Phase): State
    requires k in s.workers
  {
    s.(workers := s.workers[k := s.workers[k].(phase := phase)])
  }

  function Taken(s: State, i: IntentId, leaseSeconds: nat, now: Time): State
    requires i in s.intents
  {
    var intent := s.intents[i];
    s.(intents := s.intents[i := Intent(Cleaning, intent.attempts + 1, Some(s.next), Some(now + leaseSeconds), None)],
       workers := s.workers[s.next := Worker(i, Begin, {}, false)],
       next := s.next + 1)
  }

  function Begun(s: State, k: ClaimId): State
    requires k in s.workers
  {
    var w := s.workers[k];
    if Holds(s, w.intent, k) then s.(workers := s.workers[k := w.(phase := Next, todo := Remaining(s, w.intent))])
    else Moved(s, k, Done)
  }

  function CheckedOne(s: State, k: ClaimId, a: ArtifactId): State
    requires k in s.workers
  {
    var w := s.workers[k];
    var w' := w.(todo := w.todo - {a});
    if Holds(s, w.intent, k) && a in Remaining(s, w.intent) then s.(workers := s.workers[k := w'.(phase := Checked(a))])
    else s.(workers := s.workers[k := w'])
  }

  function TriedOne(s: State, k: ClaimId, a: ArtifactId, outcome: Outcome): State
    requires k in s.workers && a in s.artifacts && a in s.places
  {
    var (place, ok) := Attempt(s.artifacts[a].isPackage, s.places[a], outcome);
    Moved(s.(places := s.places[a := place]), k, Tried(a, ok))
  }

  function RecordedOne(s: State, k: ClaimId, a: ArtifactId, ok: bool): State
    requires k in s.workers && a in s.artifacts
  {
    var w := s.workers[k];
    if Holds(s, w.intent, k) then
      s.(artifacts := s.artifacts[a := s.artifacts[a].(status := if ok then Deleted else Unsuccessful, attempts := s.artifacts[a].attempts + 1)],
         workers := s.workers[k := w.(phase := Next, hadFailure := w.hadFailure || !ok)])
    else Moved(s, k, Next)
  }

  function Finished(s: State, k: ClaimId): State
    requires k in s.workers
  {
    var w := s.workers[k];
    if Holds(s, w.intent, k) then
      var intent := s.intents[w.intent].(claim := None, leaseUntil := None);
      var closed :=
        if Remaining(s, w.intent) == {} then intent.(status := Complete, error := None)
        else intent.(status := Failed, error := Some(if w.hadFailure then RetryPending else Incomplete));
      Moved(s.(intents := s.intents[w.intent := closed]), k, Done)
    else Moved(s, k, Done)
  }

  function Worked(s: State, k: ClaimId, a: ArtifactId, outcome: Outcome): State
    requires k in s.workers
  {
    match s.workers[k].phase
    case Begin => Begun(s, k)
    case Next =>
      if s.workers[k].todo == {} then Finished(s, k)
      else if a in s.workers[k].todo then CheckedOne(s, k, a)
      else s
    case Checked(b) => if b in s.artifacts && b in s.places then TriedOne(s, k, b, outcome) else s
    case Tried(b, ok) => if b in s.artifacts then RecordedOne(s, k, b, ok) else s
    case Done => s
  }

  function Apply(s: State, step: Step): State {
    match step
    case Take(i, leaseSeconds, now) =>
      if i in s.intents && Eligible(s.intents[i], now) then Taken(s, i, leaseSeconds, now) else s
    case Work(k, a, outcome) => if k in s.workers then Worked(s, k, a, outcome) else s
    case RecoverQuarantine(a) =>
      if a in s.places && s.places[a] == Quarantined then s.(places := s.places[a := Gone]) else s
  }

  ghost function Run(s: State, steps: seq<Step>): State {
    if steps == [] then s else Apply(Run(s, steps[..|steps| - 1]), steps[|steps| - 1])
  }

  // ----- the invariant

  ghost predicate ArtifactsOk(s: State) {
    && s.places.Keys == s.artifacts.Keys
    && forall a :: a in s.artifacts ==>
         s.artifacts[a].intent in s.intents && (s.artifacts[a].status == Deleted ==> s.places[a] == Gone)
  }

  /** The artifact a worker has in hand. */
  function InHand(phase: Phase): set<ArtifactId> {
    if phase.Checked? || phase.Tried? then {phase.artifact} else {}
  }

  /** A worker only ever handles artifacts of its intent, and believes a file deleted only
      if it is gone. */
  ghost predicate WorkerOk(s: State, k: ClaimId, w: Worker) {
    && k < s.next && w.intent in s.intents
    && (forall a :: a in w.todo || a in InHand(w.phase) ==> a in s.artifacts && s.artifacts[a].intent == w.intent)
    && (w.phase.Tried? && w.phase.ok && w.phase.artifact in s.places ==> s.places[w.phase.artifact] == Gone)
  }

  /** The worker holding the claim has an undeleted artifact in hand, and every undeleted
      artifact is still ahead of it, in its hand or recorded as a failure. */
  ghost predicate HolderOk(s: State, i: IntentId, w: Worker) {
    && w.intent == i && w.phase != Done
    && InHand(w.phase) <= Remaining(s, i)
    && (w.phase != Begin && !w.hadFailure ==> Remaining(s, i) <= w.todo + InHand(w.phase))
  }

  ghost predicate IntentOk(s: State, i: IntentId)
    requires i in s.intents
  {
    var intent := s.intents[i];
    && (intent.status == Cleaning <==> intent.claim.Some?) && (intent.status == Cleaning <==> intent.leaseUntil.Some?)
    && (intent.claim.Some? ==> intent.claim.value in s.workers && HolderOk(s, i, s.workers[intent.claim.value]))
    && (intent.status == Complete ==> Remaining(s, i) == {})
    && intent.error != Some(Incomplete)
  }

  ghost predicate Inv(s: State) {
    && ArtifactsOk(s)
    && (forall k :: k in s.workers ==> WorkerOk(s, k, s.workers[k]))
    && (forall i :: i in s.intents ==> IntentOk(s, i))
  }

  lemma SameRemaining(s: State, s': State, i: IntentId)
    requires s'.artifacts == s.artifacts
    ensures Remaining(s', i) == Remaining(s, i)
  {
  }

  /** A worker may move freely within what its own state allows. */
  lemma WorkerMoves(s: State, k: ClaimId, w: Worker)
    requires Inv(s) && k in s.workers && w.intent == s.workers[k].intent && WorkerOk(s, k, w)
    requires Holds(s, w.intent, k) ==> HolderOk(s, w.intent, w)
    ensures Inv(s.(workers := s.workers[k := w]))
  {
    hide Remaining, InHand;
    var s' := s.(workers := s.workers[k := w]);
    forall i | i in s'.intents ensures IntentOk(s', i) {
      assert IntentOk(s, i);
      SameRemaining(s, s', i);
    }
  }

  lemma FileMoves(s: State, a: ArtifactId, place: Place)
    requires Inv(s) && a in s.places && (s.places[a] == Gone ==> place == Gone)
    ensures Inv(s.(places := s.places[a := place]))
  {
    hide Remaining;
    var s' := s.(places := s.places[a := place]);
    forall i | i in s'.intents ensures IntentOk(s', i) {
      assert IntentOk(s, i);
      SameRemaining(s, s', i);
    }
  }

  lemma TakenKeeps(s: State, i: IntentId, leaseSeconds: nat, now: Time)
    requires Inv(s) && i in s.intents && Eligible(s.intents[i], now)
    ensures Inv(Taken(s, i, leaseSeconds, now))
  {
    hide Remaining;
    var s' := Taken(s, i, leaseSeconds, now);
    forall j | j in s'.intents ensures IntentOk(s', j) {
      assert IntentOk(s, j);
      SameRemaining(s, s', j);
    }
  }

  lemma BegunKeeps(s: State, k: ClaimId)
    requires Inv(s) && k in s.workers && s.workers[k].phase == Begin
    ensures Inv(Begun(s, k))
  {
    var w := s.workers[k];
    assert IntentOk(s, w.intent);
    WorkerMoves(s, k, Begun(s, k).workers[k]);
  }

  lemma CheckedKeeps(s: State, k: ClaimId, a: ArtifactId)
    requires Inv(s) && k in s.workers && s.workers[k].phase == Next && a in s.workers[k].todo
    ensures Inv(CheckedOne(s, k, a))
  {
    hide Remaining;
    assert IntentOk(s, s.workers[k].intent);
    WorkerMoves(s, k, CheckedOne(s, k, a).workers[k]);
  }

  lemma TriedKeeps(s: State, k: ClaimId, outcome: Outcome)
    requires Inv(s) && k in s.workers && s.workers[k].phase.Checked?
    ensures s.workers[k].phase.artifact in s.artifacts && s.workers[k].phase.artifact in s.places
    ensures Inv(TriedOne(s, k, s.workers[k].phase.artifact, outcome))
  {
    hide Remaining;
    var w := s.workers[k];
    var a := w.phase.artifact;
    assert WorkerOk(s, k, w) && a in InHand(w.phase);
    var (place, ok) := Attempt(s.artifacts[a].isPackage, s.places[a], outcome);
    var s1 := s.(places := s.places[a := place]);
    FileMoves(s, a, place);
    assert IntentOk(s1, w.intent);
    WorkerMoves(s1, k, w.(phase := Tried(a, ok)));
  }

  lemma RecordedKeeps(s: State, k: ClaimId)
    requires Inv(s) && k in s.workers && s.workers[k].phase.Tried?
    ensures s.workers[k].phase.artifact in s.artifacts
    ensures Inv(RecordedOne(s, k, s.workers[k].phase.artifact, s.workers[k].phase.ok))
  {
    var w := s.workers[k];
    var a := w.phase.artifact;
    assert WorkerOk(s, k, w) && a in InHand(w.phase);
    hide Remaining, IntentOk, HolderOk;
    var s' := RecordedOne(s, k, a, w.phase.ok);
    if Holds(s, w.intent, k) {
      forall i | i in s'.intents ensures IntentOk(s', i) {
        RecordedIntent(s, k, i);
      }
      RecordedWorkers(s, k);
    } else {
      WorkerMoves(s, k, w.(phase := Next));
    }
  }

  lemma RecordedWorkers(s: State, k: ClaimId)
    requires Inv(s) && k in s.workers && s.workers[k].phase.Tried? && Holds(s, s.workers[k].intent, k)
    requires s.workers[k].phase.artifact in s.artifacts
    ensures
      var s' := RecordedOne(s, k, s.workers[k].phase.artifact, s.workers[k].phase.ok);
      ArtifactsOk(s') && forall j :: j in s'.workers ==> WorkerOk(s', j, s'.workers[j])
  {
    hide Remaining, IntentOk;
    var s' := RecordedOne(s, k, s.workers[k].phase.artifact, s.workers[k].phase.ok);
    forall j | j in s'.workers ensures WorkerOk(s', j, s'.workers[j]) {
      assert WorkerOk(s, j, s.workers[j]);
    }
  }

  lemma RecordedIntent(s: State, k: ClaimId, i: IntentId)
    requires Inv(s) && k in s.workers && s.workers[k].phase.Tried? && i in s.intents && Holds(s, s.workers[k].intent, k)
    requires s.workers[k].phase.artifact in s.artifacts && s.artifacts[s.workers[k].phase.artifact].intent == s.workers[k].intent
    ensures IntentOk(RecordedOne(s, k, s.workers[k].phase.artifact, s.workers[k].phase.ok), i)
  {
    hide WorkerOk;
    var w := s.workers[k];
    var s' := RecordedOne(s, k, w.phase.artifact, w.phase.ok);
    assert IntentOk(s, i) && IntentOk(s, w.intent);
    assert Remaining(s', i) == if i == w.intent && w.phase.ok then Remaining(s, i) - {w.phase.artifact} else Remaining(s, i);
    hide Remaining;
  }

  lemma FinishedKeeps(s: State, k: ClaimId)
    requires Inv(s) && k in s.workers && s.workers[k].phase == Next && s.workers[k].todo == {}
    ensures Inv(Finished(s, k))
  {
    var s' := Finished(s, k);
    forall i | i in s'.intents ensures IntentOk(s', i) {
      FinishedIntent(s, k, i);
    }
    hide IntentOk, Remaining;
  }

  lemma FinishedIntent(s: State, k: ClaimId, i: IntentId)
    requires Inv(s) && k in s.workers && s.workers[k].phase == Next && s.workers[k].todo == {} && i in s.intents
    ensures IntentOk(Finished(s, k), i)
  {
    hide WorkerOk, Remaining;
    assert IntentOk(s, i);
    SameRemaining(s, Finished(s, k), i);
  }

  lemma ApplyKeeps(s: State, step: Step)
    requires Inv(s)
    ensures Inv(Apply(s, step))
  {
    hide Taken, Begun, CheckedOne, TriedOne, RecordedOne, Finished, IntentOk, WorkerOk;
    match step
    case Take(i, leaseSeconds, now) =>
      if i in s.intents && Eligible(s.intents[i], now) {
        TakenKeeps(s, i, leaseSeconds, now);
      }
    case Work(k, a, outcome) =>
      if k in s.workers {
        match s.workers[k].phase
        case Begin => BegunKeeps(s, k);
        case Next =>
          if s.workers[k].todo == {} {
            FinishedKeeps(s, k);
          } else if a in s.workers[k].todo {
            CheckedKeeps(s, k, a);
          }
        case Checked(b) => TriedKeeps(s, k, outcome);
        case Tried(b, ok) => RecordedKeeps(s, k);
        case Done =>
      }
    case RecoverQuarantine(a) =>
      if a in s.places {
        FileMoves(s, a, Gone);
      }
  }

  // ----- runs

  /** Fresh intents, before any worker has seen them. */
  ghost predicate Start(s: State) {
    && s.workers == map[] && s.places.Keys == s.artifacts.Keys
    && (forall i :: i in s.intents ==> s.intents[i] == Intent(Pending, 0, None, None, None))
    && (forall a :: a in s.artifacts ==> s.artifacts[a].intent in s.intents && s.artifacts[a].status == Waiting)
  }

  lemma {:induction false} RunKeeps(s: State, steps: seq<Step>)
    requires Inv(s)
    ensures Inv(Run(s, steps))
  {
    hide Inv, Apply;
    if steps != [] {
      var n := |steps| - 1;
      RunKeeps(s, steps[..n]);
      ApplyKeeps(Run(s, steps[..n]), steps[n]);
    }
  }

  /** In every state of every run: an artifact recorded as deleted has its file neither at
      its name nor in quarantine, a complete intent has only such artifacts, an intent has
      a claim exactly while it is being cleaned, and no intent is ever left incomplete
      without a recorded failure. */
  lemma RunsAreSafe(s: State, steps: seq<Step>)
    requires Start(s)
    ensures
      var s' := Run(s, steps);
      && (forall a :: a in s'.artifacts && s'.artifacts[a].status == Deleted ==> a in s'.places && s'.places[a] == Gone)
      && (forall a :: a in s'.artifacts && s'.artifacts[a].intent in s'.intents && s'.intents[s'.artifacts[a].intent].status == Complete ==>
            s'.artifacts[a].status == Deleted && a in s'.places && s'.places[a] == Gone)
      && (forall i :: i in s'.intents ==> (s'.intents[i].status == Cleaning <==> s'.intents[i].claim.Some?) && s'.intents[i].error != Some(Incomplete))
  {
    hide Apply, Run;
    StartOk(s);
    RunKeeps(s, steps);
    var s' := Run(s, steps);
    forall a | a in s'.artifacts && s'.intents[s'.artifacts[a].intent].status == Complete ensures s'.artifacts[a].status == Deleted {
      assert IntentOk(s', s'.artifacts[a].intent);
      assert a !in Remaining(s', s'.artifacts[a].intent);
    }
    forall i | i in s'.intents
      ensures (s'.intents[i].status == Cleaning <==> s'.intents[i].claim.Some?) && s'.intents[i].error != Some(Incomplete)
    {
      assert IntentOk(s', i);
    }
  }

  lemma StartOk(s: State)
    requires Start(s)
    ensures Inv(s)
  {
  }

  // ----- what is final

  /** A step leaves the row of a deleted artifact alone, and its file gone. */
  lemma DeletedStays(s: State, step: Step, a: ArtifactId)
    requires Inv(s) && a in s.artifacts && s.artifacts[a].status == Deleted
    ensures a in Apply(s, step).artifacts && Apply(s, step).artifacts[a] == s.artifacts[a]
  {
    if step.Work? && step.claim in s.workers {
      var w := s.workers[step.claim];
      assert WorkerOk(s, step.claim, w) && IntentOk(s, w.intent);
    }
    hide WorkerOk;
  }

  /** A complete intent is never claimed or written again. */
  lemma CompleteStays(s: State, step: Step, i: IntentId)
    requires i in s.intents && s.intents[i].status == Complete
    ensures i in Apply(s, step).intents && Apply(s, step).intents[i] == s.intents[i]
  {
    hide Remaining;
  }

  /** Once complete, always complete: neither the intent nor any of its artifacts changes
      in any continuation. */
  lemma {:induction false} CompleteForever(s: State, steps: seq<Step>, i: IntentId)
    requires Inv(s) && i in s.intents && s.intents[i].status == Complete
    ensures i in Run(s, steps).intents && Run(s, steps).intents[i] == s.intents[i]
    ensures forall a :: a in s.artifacts && s.artifacts[a].intent == i ==> a in Run(s, steps).artifacts && Run(s, steps).artifacts[a] == s.artifacts[a]
    ensures forall a :: a in s.artifacts && s.artifacts[a].intent == i ==> s.artifacts[a].status == Deleted
  {
    hide Apply;
    assert IntentOk(s, i);
    forall a | a in s.artifacts && s.artifacts[a].intent == i ensures s.artifacts[a].status == Deleted {
      assert a !in Remaining(s, i);
    }
    hide Inv, IntentOk;
    if steps != [] {
      var n := |steps| - 1;
      var s1 := Run(s, steps[..n]);
      CompleteForever(s, steps[..n], i);
      RunKeeps(s, steps[..n]);
      CompleteStays(s1, steps[n], i);
      forall a | a in s.artifacts && s.artifacts[a].intent == i ensures a in Run(s, steps).artifacts && Run(s, steps).artifacts[a] == s.artifacts[a] {
        DeletedStays(s1, steps[n], a);
      }
    }
  }

  // ----- what a claim and an attempt do

  /** An intent is taken if and only if it is pending, failed, or being cleaned under a lease
      that is over; it is then being cleaned under a fresh claim, whose lease ends exactly after
      the given time, and a new worker is about to begin. */
  lemma TakenIff(s: State, i: IntentId, leaseSeconds: nat, now: Time)
    requires i in s.intents
    ensures
      var intent := s.intents[i];
      var s' := Apply(s, Take(i, leaseSeconds, now));
      if intent.status == Pending || intent.status == Failed
         || (intent.status == Cleaning && intent.leaseUntil.Some? && intent.leaseUntil.value <= now) then
        && s'.intents == s.intents[i := Intent(Cleaning, intent.attempts + 1, Some(s.next), Some(now + leaseSeconds), None)]
        && s'.workers == s.workers[s.next := Worker(i, Begin, {}, false)] && s'.next == s.next + 1
        && s'.artifacts == s.artifacts && s'.places == s.places
      else s' == s
  {
  }

  /** An attempt returns normally if and only if it succeeds and is not on an ordinary file that
      is in quarantine; the file is then gone. Otherwise it is where it was, or stranded in
      quarantine if it was at its name. */
  lemma AttemptMeans(isPackage: bool, place: Place, outcome: Outcome)
    ensures
      var (place', ok) := Attempt(isPackage, place, outcome);
      && (ok <==> outcome == Succeeds && (place == Quarantined ==> isPackage))
      && (ok ==> place' == Gone)
      && (!ok ==> place' == if place == AtName && outcome == Strands then Quarantined else place)
  {
  }

  /** Over every run, an intent is completed by a step if and only if that step is the last one
      of the worker holding its claim and none of its artifacts is left undeleted. */
  lemma CompletesIff(s: State, step: Step, i: IntentId)
    requires Inv(s) && i in s.intents && s.intents[i].status != Complete
    ensures i in Apply(s, step).intents
    ensures Apply(s, step).intents[i].status == Complete <==>
      && step.Work? && s.intents[i].claim == Some(step.claim) && step.claim in s.workers
      && s.workers[step.claim].phase == Next && s.workers[step.claim].todo == {}
      && forall a :: a in s.artifacts && s.artifacts[a].intent == i ==> s.artifacts[a].status == Deleted
  {
    assert IntentOk(s, i);
    NothingRemains(s, i);
    hide Remaining, WorkerOk, ArtifactsOk, HolderOk;
    if step.Work? && step.claim in s.workers {
      hide Inv, IntentOk;
      match s.workers[step.claim].phase
      case Begin =>
      case Next =>
      case Checked(_) =>
      case Tried(_, _) =>
      case Done =>
    }
  }

  lemma NothingRemains(s: State, i: IntentId)
    ensures Remaining(s, i) == {} <==> forall a :: a in s.artifacts && s.artifacts[a].intent == i ==> s.artifacts[a].status == Deleted
  {
    if Remaining(s, i) == {} {
      forall a | a in s.artifacts && s.artifacts[a].intent == i ensures s.artifacts[a].status == Deleted {
        assert a !in Remaining(s, i);
      }
    }
  }

  // ----- superseded claims

  ghost predicate Superseded(s: State, k: ClaimId) {
    k < s.next && forall i :: i in s.intents ==> s.intents[i].claim != Some(k)
  }

  lemma StaysSuperseded(s: State, step: Step, k: ClaimId)
    requires Superseded(s, k)
    ensures Superseded(Apply(s, step), k)
  {
    hide Remaining;
  }

  lemma SupersededStep(s: State, k: ClaimId, a: ArtifactId, outcome: Outcome)
    requires Superseded(s, k)
    ensures Apply(s, Work(k, a, outcome)).intents == s.intents && Apply(s, Work(k, a, outcome)).artifacts == s.artifacts
  {
    hide Remaining;
  }

  /** A claim that was taken over or closed writes nothing ever again: whatever happens in
      between, a step of its worker changes no intent and no artifact. */
  lemma {:induction false} SupersededForever(s: State, steps: seq<Step>, k: ClaimId, a: ArtifactId, outcome: Outcome)
    requires Superseded(s, k)
    ensures Superseded(Run(s, steps), k)
    ensures
      var s1 := Run(s, steps);
      var s2 := Apply(s1, Work(k, a, outcome));
      s2.intents == s1.intents && s2.artifacts == s1.artifacts
  {
    hide Apply, Superseded;
    if steps != [] {
      var n := |steps| - 1;
      SupersededForever(s, steps[..n], k, a, outcome);
      StaysSuperseded(Run(s, steps[..n]), steps[n], k);
    }
    SupersededStep(Run(s, steps), k, a, outcome);
  }

  /** Taking an intent over supersedes the claim it had. */
  lemma TakeoverSupersedes(s: State, step: Step, k: ClaimId)
    requires Inv(s) && step.Take? && step.intent in s.intents && s.intents[step.intent].claim == Some(k)
    requires Eligible(s.intents[step.intent], step.now)
    ensures Superseded(Apply(s, step), k)
  {
    hide Remaining;
    forall i | i in s.intents ensures i != step.intent ==> s.intents[i].claim != Some(k) {
      assert IntentOk(s, i) && IntentOk(s, step.intent);
    }
    assert IntentOk(s, step.intent);
  }
}
