/** The technical-QC task rows and the lease protocol on them: expired-lease
    reconciliation, claiming, and the claim-fenced steps of a worker. Every database
    transaction is one atomic step; any number of workers may take steps in any order. */
module QcTasks {
  import opened Basics
  import opened Wrappers

  type TaskId = nat
  type ClaimId = nat
  type Time = nat

  datatype Status = Queued | Running | Complete | Failed

  /** What a completion compares with its claim: the version, input file and rules. */
  datatype Identity = Identity(version: nat, inputFile: nat, rules: nat)

  datatype Row = Row(project: nat, item: nat, createdAt: Time, episode: Option<nat>,
                     status: Status, claim: Option<ClaimId>, lease: Option<Time>,
                     attempts: nat, nextAttempt: Option<Time>, processedMs: nat, totalMs: nat,
                     identity: Identity)

  type Rows = map<TaskId, Row>

  // ----- what each transaction does to one row

  /** `eligible` of `_claim_candidates`, with its bound on attempts. */
  predicate Claimable(r: Row, now: Time, maxAttempts: nat) {
    && r.attempts < maxAttempts
    && (r.status == Queued || (r.status == Failed && r.nextAttempt.Some? && r.nextAttempt.value <= now))
  }

  predicate Expired(r: Row, now: Time) {
    r.status == Running && r.lease.Some? && r.lease.value <= now
  }

  /** The row part of `_lock_active_technical_qc_claim`. */
  predicate Active(r: Row, c: ClaimId, now: Time) {
    r.status == Running && r.claim == Some(c) && r.lease.Some? && now < r.lease.value
  }

  function Reconciled(r: Row, maxAttempts: nat): Row {
    r.(claim := None, lease := None, nextAttempt := None,
       status := if r.attempts >= maxAttempts then Failed else Queued)
  }

  function Claimed(r: Row, c: ClaimId, leaseUntil: Time): Row {
    r.(status := Running, claim := Some(c), lease := Some(leaseUntil), attempts := r.attempts + 1, nextAttempt := None)
  }

  /** What a worker asks for under its claim. */
  datatype Request =
    | Progress(processedMs: int)
    | Renew(leaseSeconds: int)
    | Probe(totalMs: nat)
    | Finish(project: nat, item: nat, identity: Identity)
    | GiveUp(retryable: bool, retryDelay: int)

  /** The arguments each step admits; others raise a ValueError. */
  predicate Admissible(q: Request, maxAttempts: nat) {
    && (q.Progress? ==> q.processedMs >= 0)
    && (q.Renew? ==> q.leaseSeconds >= 1)
    && (q.GiveUp? ==> q.retryDelay >= 1 && maxAttempts >= 1)
  }

  /** A completion must name the row's own project, item, version, input and rules. */
  predicate Concerns(q: Request, r: Row) {
    q.Finish? ==> q.project == r.project && q.item == r.item && q.identity == r.identity
  }

  function Served(r: Row, q: Request, now: Time, maxAttempts: nat): Row
    requires Admissible(q, maxAttempts)
  {
    match q
    case Progress(ms) => r.(processedMs := Min(r.totalMs, Max(r.processedMs, ms)))
    case Renew(seconds) => r.(lease := Some(now + seconds))
    case Probe(total) => r.(totalMs := total, processedMs := Min(r.processedMs, total))
    case Finish(_, _, _) => r.(status := Complete, processedMs := r.totalMs, claim := None, lease := None)
    case GiveUp(retryable, delay) =>
      r.(status := Failed, claim := None, lease := None,
         nextAttempt := if retryable && r.attempts < maxAttempts then Some(now + delay) else None)
  }

  // ----- the table

  /** Another row of the same item is running: the unique index refuses a claim. */
  predicate ItemBusy(rows: Rows, t: TaskId)
    requires t in rows
  {
    exists u :: u in rows && u != t && rows[u].status == Running && rows[u].item == rows[t].item
  }

  function ReconcileAll(rows: Rows, batch: seq<TaskId>, now: Time, maxAttempts: nat): Rows {
    if batch == [] then rows
    else
      var rest := ReconcileAll(rows, batch[..|batch| - 1], now, maxAttempts);
      var t := batch[|batch| - 1];
      if t in rest && Expired(rest[t], now) then rest[t := Reconciled(rest[t], maxAttempts)] else rest
  }

  /** The table as an object whose rows the transactions update in place. `issued` records
      every claim ever handed out for a task, oldest first. */
  class TaskTable {
    const maxAttempts: nat
    var rows: Rows
    ghost var issued: map<TaskId, seq<ClaimId>>

    constructor (rows: Rows, maxAttempts: nat)
      ensures this.rows == rows && this.maxAttempts == maxAttempts && issued == map t | t in rows :: []
    {
      this.rows, this.maxAttempts := rows, maxAttempts;
      issued := map t | t in rows :: [];
    }

    ghost function Db(): Database
      reads this
    {
      Database(rows, issued)
    }

    /** `reconcile_expired_technical_qc_tasks`, on the batch the query returned. */
    method Reconcile(batch: seq<TaskId>, now: Time)
      modifies this
      ensures Db() == Apply(old(Db()), Sweep(batch), now, maxAttempts)
    {
      for i := 0 to |batch|
        invariant rows == ReconcileAll(old(rows), batch[..i], now, maxAttempts) && issued == old(issued)
      {
        var t := batch[i];
        assert batch[..i + 1][..i] == batch[..i];
        if t in rows && Expired(rows[t], now) {
          var r := rows[t].(claim := None, lease := None, nextAttempt := None);
          rows := rows[t := r.(status := if r.attempts >= maxAttempts then Failed else Queued)];
        }
      }
      assert batch[..|batch|] == batch;
    }

    /** The transition of one selected row in `claim_technical_qc_tasks`; `conflict` is a
        uniqueness conflict with a transaction this one cannot see. */
    method Claim(t: TaskId, c: ClaimId, leaseSeconds: nat, now: Time, conflict: bool) returns (ok: bool)
      modifies this
      ensures Db() == Apply(old(Db()), Take(t, c, leaseSeconds, conflict), now, maxAttempts)
      ensures ok <==> t in old(rows) && Claimable(old(rows[t]), now, maxAttempts) && !ItemBusy(old(rows), t) && !conflict
    {
      ok := t in rows && Claimable(rows[t], now, maxAttempts) && !ItemBusy(rows, t) && !conflict;
      if ok {
        var r := rows[t].(status := Running, claim := Some(c), lease := Some(now + leaseSeconds));
        rows := rows[t := r.(attempts := r.attempts + 1, nextAttempt := None)];
        issued := issued[t := IssuedTo(issued, t) + [c]];
      }
    }

    /** A worker's step under claim `c`: progress, renewal, probe, completion or failure.
        `authorised` is the rest of the fence: the project is active, the version is
        current and its playback file is still the input. */
    method Serve(t: TaskId, c: ClaimId, q: Request, now: Time, authorised: bool) returns (ok: Result<bool>)
      modifies this
      ensures Db() == Apply(old(Db()), Work(t, c, q, authorised), now, maxAttempts)
      ensures ok.Stopped? <==> !Admissible(q, maxAttempts)
      ensures ok == Ok(true) <==> Admissible(q, maxAttempts) && authorised && t in old(rows) && Active(old(rows[t]), c, now) && Concerns(q, old(rows[t]))
    {
      if !Admissible(q, maxAttempts) {
        return Stopped(Raised);
      }
      ok := Ok(authorised && t in rows && Active(rows[t], c, now) && Concerns(q, rows[t]));
      if !ok.value {
        return;
      }
      var r := rows[t];
      match q {
        case Progress(ms) =>
          r := r.(processedMs := Min(r.totalMs, Max(r.processedMs, ms)));
        case Renew(seconds) =>
          r := r.(lease := Some(now + seconds));
        case Probe(total) =>
          r := r.(totalMs := total);
          r := r.(processedMs := Min(r.processedMs, r.totalMs));
        case Finish(_, _, _) =>
          r := r.(status := Complete, processedMs := r.totalMs, claim := None, lease := None);
        case GiveUp(retryable, delay) =>
          r := r.(status := Failed, claim := None, lease := None);
          r := r.(nextAttempt := if retryable && r.attempts < maxAttempts then Some(now + delay) else None);
      }
      rows := rows[t := r];
    }
  }

  // ----- the protocol

  datatype Database = Database(rows: Rows, issued: map<TaskId, seq<ClaimId>>)

  datatype Op =
    | Sweep(batch: seq<TaskId>)
    | Take(task: TaskId, claim: ClaimId, leaseSeconds: nat, conflict: bool)
    | Work(task: TaskId, claim: ClaimId, request: Request, authorised: bool)

  function IssuedTo(issued: map<TaskId, seq<ClaimId>>, t: TaskId): seq<ClaimId> {
    if t in issued then issued[t] else []
  }

  ghost function Apply(db: Database, op: Op, now: Time, maxAttempts: nat): Database {
    match op
    case Sweep(batch) => db.(rows := ReconcileAll(db.rows, batch, now, maxAttempts))
    case Take(t, c, seconds, conflict) =>
      if t in db.rows && Claimable(db.rows[t], now, maxAttempts) && !ItemBusy(db.rows, t) && !conflict then
        Database(db.rows[t := Claimed(db.rows[t], c, now + seconds)], db.issued[t := IssuedTo(db.issued, t) + [c]])
      else db
    case Work(t, c, q, authorised) =>
      if Admissible(q, maxAttempts) && authorised && t in db.rows && Active(db.rows[t], c, now) && Concerns(q, db.rows[t]) then
        db.(rows := db.rows[t := Served(db.rows[t], q, now, maxAttempts)])
      else db
  }

  /** One step of a run: an operation at a time. */
  datatype Step = Step(op: Op, now: Time)

  ghost function Run(db: Database, steps: seq<Step>, maxAttempts: nat): Database {
    if steps == [] then db
    else
      var last := steps[|steps| - 1];
      Apply(Run(db, steps[..|steps| - 1], maxAttempts), last.op, last.now, maxAttempts)
  }

  /** Claim ids are UUIDs: no two claims of a run get the same one. */
  ghost predicate FreshClaims(steps: seq<Step>) {
    forall i, j :: 0 <= i < j < |steps| && steps[i].op.Take? && steps[j].op.Take? ==> steps[i].op.claim != steps[j].op.claim
  }

  /** A table as discovery creates it. */
  ghost predicate Fresh(db: Database) {
    && db.issued.Keys == db.rows.Keys
    && forall t :: t in db.rows ==>
         && db.issued[t] == []
         && db.rows[t].status == Queued && db.rows[t].claim.None? && db.rows[t].lease.None?
         && db.rows[t].attempts == 0 && db.rows[t].nextAttempt.None? && db.rows[t].processedMs == 0
  }

  /** What one row always satisfies. */
  ghost predicate RowOk(r: Row, issued: seq<ClaimId>, maxAttempts: nat) {
    && (r.status == Running <==> r.claim.Some?) && (r.status == Running <==> r.lease.Some?)
    && r.processedMs <= r.totalMs
    && (r.status == Complete ==> r.processedMs == r.totalMs)
    && (r.nextAttempt.Some? ==> r.status == Failed && r.attempts < maxAttempts)
    && r.attempts == |issued| <= maxAttempts
    && (r.status == Running ==> issued != [] && r.claim == Some(issued[|issued| - 1]))
  }

  ghost predicate OnePerItem(rows: Rows) {
    forall t, u ::
      t in rows && u in rows && rows[t].status == Running && rows[u].status == Running && t != u ==>
        rows[t].item != rows[u].item
  }

  ghost predicate Inv(db: Database, maxAttempts: nat) {
    && db.issued.Keys == db.rows.Keys
    && (forall t :: t in db.rows ==> RowOk(db.rows[t], db.issued[t], maxAttempts))
    && OnePerItem(db.rows)
  }

  lemma {:induction false} SweepKeeps(db: Database, batch: seq<TaskId>, now: Time, maxAttempts: nat)
    requires Inv(db, maxAttempts)
    ensures Inv(Apply(db, Sweep(batch), now, maxAttempts), maxAttempts)
  {
    if batch != [] {
      SweepKeeps(db, batch[..|batch| - 1], now, maxAttempts);
    }
  }

  lemma TakeKeeps(db: Database, op: Op, now: Time, maxAttempts: nat)
    requires Inv(db, maxAttempts) && op.Take?
    ensures Inv(Apply(db, op, now, maxAttempts), maxAttempts)
  {
  }

  lemma WorkKeeps(db: Database, op: Op, now: Time, maxAttempts: nat)
    requires Inv(db, maxAttempts) && op.Work?
    ensures Inv(Apply(db, op, now, maxAttempts), maxAttempts)
  {
    hide Min, Max, ItemBusy;
    if op.task in db.rows && Active(db.rows[op.task], op.claim, now) && Admissible(op.request, maxAttempts) {
      ServedOk(db.rows[op.task], db.issued[op.task], op.request, op.claim, now, maxAttempts);
    }
  }

  lemma ServedOk(r: Row, issued: seq<ClaimId>, q: Request, c: ClaimId, now: Time, maxAttempts: nat)
    requires RowOk(r, issued, maxAttempts) && Active(r, c, now) && Admissible(q, maxAttempts)
    ensures RowOk(Served(r, q, now, maxAttempts), issued, maxAttempts)
    ensures Served(r, q, now, maxAttempts).item == r.item
  {
  }

  lemma ApplyKeeps(db: Database, op: Op, now: Time, maxAttempts: nat)
    requires Inv(db, maxAttempts)
    ensures Inv(Apply(db, op, now, maxAttempts), maxAttempts)
  {
    hide Inv;
    match op
    case Sweep(batch) => SweepKeeps(db, batch, now, maxAttempts);
    case Take(_, _, _, _) => TakeKeeps(db, op, now, maxAttempts);
    case Work(_, _, _, _) => WorkKeeps(db, op, now, maxAttempts);
  }

  /** In every state of every interleaving: claim and lease are set exactly when running,
      progress stays within the total, an attempt is counted for every claim handed out
      and there are never more than the maximum, and an item has one running task. */
  lemma {:induction false} RunsKeepInvariant(db: Database, steps: seq<Step>, maxAttempts: nat)
    requires Fresh(db)
    ensures Inv(Run(db, steps, maxAttempts), maxAttempts)
  {
    if steps != [] {
      var init, last := steps[..|steps| - 1], steps[|steps| - 1];
      RunsKeepInvariant(db, init, maxAttempts);
      ApplyKeeps(Run(db, init, maxAttempts), last.op, last.now, maxAttempts);
    }
  }

  // ----- who may change a running task

  lemma {:induction false} SweepOnlyExpired(rows: Rows, batch: seq<TaskId>, now: Time, maxAttempts: nat, t: TaskId)
    requires t in rows
    ensures
      var rows' := ReconcileAll(rows, batch, now, maxAttempts);
      && t in rows'
      && (rows'[t] == rows[t] || (Expired(rows[t], now) && rows'[t] == Reconciled(rows[t], maxAttempts)))
  {
    if batch != [] {
      SweepOnlyExpired(rows, batch[..|batch| - 1], now, maxAttempts, t);
    }
  }

  /** Over every interleaving, a running task changes only under its latest claim while
      that claim's lease lasts, or by a sweep once the lease has run out. */
  lemma OnlyLatestClaimWrites(db0: Database, steps: seq<Step>, op: Op, now: Time, maxAttempts: nat, t: TaskId)
    requires Fresh(db0) && t in Run(db0, steps, maxAttempts).rows
    requires Run(db0, steps, maxAttempts).rows[t].status == Running
    ensures
      var db := Run(db0, steps, maxAttempts);
      var db' := Apply(db, op, now, maxAttempts);
      && t in db'.rows && t in db.issued && db.issued[t] != [] && db.rows[t].lease.Some?
      && (db'.rows[t] != db.rows[t] ==>
            || (op.Work? && op.task == t && op.claim == db.issued[t][|db.issued[t]| - 1] && now < db.rows[t].lease.value)
            || (op.Sweep? && db.rows[t].lease.value <= now))
  {
    RunsKeepInvariant(db0, steps, maxAttempts);
    var db := Run(db0, steps, maxAttempts);
    assert RowOk(db.rows[t], db.issued[t], maxAttempts);
    if op.Sweep? {
      SweepOnlyExpired(db.rows, op.batch, now, maxAttempts, t);
    }
  }

  /** When a task can be claimed again after its worker gave up or its lease ran out, and
      how far its progress may move meanwhile: reported progress never falls, and a new
      attempt is offered exactly while attempts are left. */
  lemma NextAttempt(db0: Database, steps: seq<Step>, t: TaskId, c: ClaimId, q: Request, now: Time, later: Time, maxAttempts: nat)
    requires Fresh(db0) && t in Run(db0, steps, maxAttempts).rows && Active(Run(db0, steps, maxAttempts).rows[t], c, now)
    requires Admissible(q, maxAttempts)
    ensures
      var db := Run(db0, steps, maxAttempts);
      var r, r' := db.rows[t], Served(db.rows[t], q, now, maxAttempts);
      && (q.Progress? ==> r.processedMs <= r'.processedMs && (q.processedMs <= r.totalMs ==> q.processedMs <= r'.processedMs))
      && (q.GiveUp? ==> (Claimable(r', later, maxAttempts) <==> q.retryable && |IssuedTo(db.issued, t)| < maxAttempts && now + q.retryDelay <= later))
      && (Claimable(Reconciled(r, maxAttempts), later, maxAttempts) <==> |IssuedTo(db.issued, t)| < maxAttempts)
      && (q.Renew? ==> !Expired(r', later) || now + q.leaseSeconds <= later)
  {
    RunsKeepInvariant(db0, steps, maxAttempts);
    var db := Run(db0, steps, maxAttempts);
    assert RowOk(db.rows[t], db.issued[t], maxAttempts);
    hide Run, OnePerItem;
  }

  ghost function ClaimsOf(steps: seq<Step>): set<ClaimId> {
    set i | 0 <= i < |steps| && steps[i].op.Take? :: steps[i].op.claim
  }

  lemma {:induction false} IssuedDistinct(db0: Database, steps: seq<Step>, maxAttempts: nat, t: TaskId)
    requires Fresh(db0) && FreshClaims(steps) && t in Run(db0, steps, maxAttempts).issued
    ensures Distinct(Run(db0, steps, maxAttempts).issued[t])
    ensures forall c :: c in Run(db0, steps, maxAttempts).issued[t] ==> c in ClaimsOf(steps)
  {
    hide RowOk, ReconcileAll, Served, OnePerItem, Active, Claimable;
    if steps != [] {
      var n := |steps| - 1;
      var init := steps[..n];
      RunsKeepInvariant(db0, init, maxAttempts);
      RunsKeepInvariant(db0, steps, maxAttempts);
      RunKeepsTasks(db0, init, maxAttempts);
      RunKeepsTasks(db0, steps, maxAttempts);
      IssuedDistinct(db0, init, maxAttempts, t);
      assert forall c :: c in ClaimsOf(init) ==> c in ClaimsOf(steps);
      if steps[n].op.Take? {
        assert steps[n].op.claim in ClaimsOf(steps) && steps[n].op.claim !in ClaimsOf(init);
      }
    }
  }

  lemma {:induction false} RunKeepsTasks(db0: Database, steps: seq<Step>, maxAttempts: nat)
    requires Fresh(db0)
    ensures Run(db0, steps, maxAttempts).rows.Keys == db0.rows.Keys
  {
    if steps != [] {
      var n := |steps| - 1;
      RunKeepsTasks(db0, steps[..n], maxAttempts);
      if steps[n].op.Sweep? {
        SweepKeepsTasks(Run(db0, steps[..n], maxAttempts).rows, steps[n].op.batch, steps[n].now, maxAttempts);
      }
    }
  }

  lemma {:induction false} SweepKeepsTasks(rows: Rows, batch: seq<TaskId>, now: Time, maxAttempts: nat)
    ensures ReconcileAll(rows, batch, now, maxAttempts).Keys == rows.Keys
  {
    if batch != [] {
      SweepKeepsTasks(rows, batch[..|batch| - 1], now, maxAttempts);
    }
  }

  /** A worker whose claim has been superseded by a later one writes nothing, whatever it
      asks for and whenever. */
  lemma SupersededClaimWritesNothing(db0: Database, steps: seq<Step>, t: TaskId, i: nat, q: Request,
                                     authorised: bool, now: Time, maxAttempts: nat)
    requires Fresh(db0) && FreshClaims(steps) && t in Run(db0, steps, maxAttempts).issued
    requires i < |Run(db0, steps, maxAttempts).issued[t]| - 1
    ensures
      var db := Run(db0, steps, maxAttempts);
      Apply(db, Work(t, db.issued[t][i], q, authorised), now, maxAttempts) == db
  {
    RunsKeepInvariant(db0, steps, maxAttempts);
    IssuedDistinct(db0, steps, maxAttempts, t);
    var db := Run(db0, steps, maxAttempts);
    assert t in db.rows ==> RowOk(db.rows[t], db.issued[t], maxAttempts);
  }

  // ----- terminal rows

  predicate Terminal(r: Row) {
    r.status == Complete || (r.status == Failed && r.nextAttempt.None?)
  }

  /** `complete`, and `failed` without a next attempt, are never left: no continuation of
      any run changes such a row at all. */
  lemma {:induction false} TerminalForever(db0: Database, steps: seq<Step>, more: seq<Step>, t: TaskId, maxAttempts: nat)
    requires Fresh(db0) && t in Run(db0, steps, maxAttempts).rows && Terminal(Run(db0, steps, maxAttempts).rows[t])
    ensures t in Run(db0, steps + more, maxAttempts).rows
    ensures Run(db0, steps + more, maxAttempts).rows[t] == Run(db0, steps, maxAttempts).rows[t]
    decreases |more|
  {
    if more == [] {
      assert steps + more == steps;
    } else {
      var n := |more| - 1;
      TerminalForever(db0, steps, more[..n], t, maxAttempts);
      assert (steps + more)[..|steps + more| - 1] == steps + more[..n];
      var db := Run(db0, steps + more[..n], maxAttempts);
      if more[n].op.Sweep? {
        SweepOnlyExpired(db.rows, more[n].op.batch, more[n].now, maxAttempts, t);
      }
    }
  }
}
