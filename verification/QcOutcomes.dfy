/** What the steps of the QC lease protocol do to a task, told from the rows alone. */
module QcOutcomes {
  import opened Basics
  import opened Wrappers
  import opened QcTasks

  /** The row runs under claim `c` and its lease is not over. */
  predicate RunsUnder(r: Row, c: ClaimId, now: Time) {
    r.status == Running && r.claim == Some(c) && r.lease.Some? && now < r.lease.value
  }

  /** A sweep resets every row of its batch whose lease is over, and no other row. */
  lemma {:induction false} SweepResets(rows: Rows, batch: seq<TaskId>, now: Time, maxAttempts: nat, t: TaskId)
    requires t in rows
    ensures
      var rows' := ReconcileAll(rows, batch, now, maxAttempts);
      && t in rows'
      && rows'[t] ==
         if t in batch && rows[t].status == Running && rows[t].lease.Some? && rows[t].lease.value <= now then
           rows[t].(status := if rows[t].attempts < maxAttempts then Queued else Failed, claim := None, lease := None, nextAttempt := None)
         else rows[t]
  {
    if batch != [] {
      var n := |batch| - 1;
      SweepResets(rows, batch[..n], now, maxAttempts, t);
      assert batch == batch[..n] + [batch[n]];
    }
  }

  /** Over every run: a task becomes complete in a step if and only if that step is an
      authorised completion under its active claim that names its own project, item, version,
      input and rules; and it is then done in full. */
  lemma CompletesIff(db0: Database, steps: seq<Step>, op: Op, now: Time, maxAttempts: nat, t: TaskId)
    requires Fresh(db0) && t in Run(db0, steps, maxAttempts).rows
    ensures
      var db := Run(db0, steps, maxAttempts);
      var db' := Apply(db, op, now, maxAttempts);
      && t in db'.rows
      && (db.rows[t].status != Complete ==>
            (db'.rows[t].status == Complete <==>
              && op.Work? && op.task == t && op.authorised && op.request.Finish? && RunsUnder(db.rows[t], op.claim, now)
              && op.request.project == db.rows[t].project && op.request.item == db.rows[t].item && op.request.identity == db.rows[t].identity))
      && (db.rows[t].status != Complete && db'.rows[t].status == Complete ==>
            db'.rows[t].processedMs == db'.rows[t].totalMs == db.rows[t].totalMs && db'.rows[t].claim.None? && db'.rows[t].lease.None?)
  {
    var db := Run(db0, steps, maxAttempts);
    if op.Sweep? {
      SweepResets(db.rows, op.batch, now, maxAttempts, t);
    }
    hide Run, ReconcileAll, ItemBusy;
  }

  /** What each request does under an active claim, to that row and to no other. */
  lemma RequestsMean(db: Database, t: TaskId, c: ClaimId, q: Request, now: Time, maxAttempts: nat)
    requires t in db.rows && RunsUnder(db.rows[t], c, now)
    ensures
      var db' := Apply(db, Work(t, c, q, true), now, maxAttempts);
      var r := db.rows[t];
      && db'.issued == db.issued && db'.rows.Keys == db.rows.Keys
      && (forall u :: u in db.rows && u != t ==> db'.rows[u] == db.rows[u])
      && var r' := db'.rows[t];
      && r'.(status := r.status, claim := r.claim, lease := r.lease, nextAttempt := r.nextAttempt, processedMs := r.processedMs, totalMs := r.totalMs) == r
      && match q
         case Progress(ms) =>
           if ms < 0 then r' == r
           else r'.processedMs == (if ms <= r.processedMs && r.processedMs <= r.totalMs then r.processedMs else if ms <= r.totalMs && r.processedMs <= r.totalMs then ms else r.totalMs)
                && r'.(processedMs := r.processedMs) == r
         case Renew(seconds) => r' == if seconds < 1 then r else r.(lease := Some(now + seconds))
         case Probe(total) =>
           r'.totalMs == total && r'.processedMs == (if r.processedMs <= total then r.processedMs else total) && r'.status == Running && r'.claim == r.claim && r'.lease == r.lease
         case Finish(_, _, _) => r' == r || r'.status == Complete
         case GiveUp(retryable, delay) =>
           if delay < 1 || maxAttempts < 1 then r' == r
           else r'.status == Failed && r'.claim.None? && r'.lease.None?
                && r'.nextAttempt == if retryable && r.attempts < maxAttempts then Some(now + delay) else None
  {
  }

  /** A claim is given exactly to a task that is queued, or failed with its retry due, that has
      attempts left and whose item has no other running task; its lease then ends exactly
      after the given time. */
  lemma TakesIff(db: Database, t: TaskId, c: ClaimId, seconds: nat, conflict: bool, now: Time, maxAttempts: nat)
    requires t in db.rows
    ensures
      var r := db.rows[t];
      var db' := Apply(db, Take(t, c, seconds, conflict), now, maxAttempts);
      var free := forall u :: u in db.rows && u != t && db.rows[u].status == Running ==> db.rows[u].item != r.item;
      if !conflict && free && r.attempts < maxAttempts && (r.status == Queued || (r.status == Failed && r.nextAttempt.Some? && r.nextAttempt.value <= now)) then
        && db'.rows == db.rows[t := r.(status := Running, claim := Some(c), lease := Some(now + seconds), attempts := r.attempts + 1, nextAttempt := None)]
        && db'.issued == db.issued[t := IssuedTo(db.issued, t) + [c]]
      else db' == db
  {
  }
}
