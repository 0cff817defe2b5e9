/** What the steps on thumbnail tasks do, told from the rows alone: when a claim is given, when
    a failed or broken task comes back, and which frames are published. */
module ThumbnailOutcomes {
  import opened Wrappers
  import opened DHash
  import opened UnionFind
  import opened ThumbnailGroups
  import opened ThumbnailTasks
  import opened ThumbnailAuthority

  /** The task waits and its next attempt is due, or it runs and its lease is over. */
  ghost predicate MayStart(r: Row, now: Time) {
    || (r.status == Queued && (r.nextAttempt.None? || r.nextAttempt.value <= now))
    || (r.status == Running && r.leaseUntil.Some? && r.leaseUntil.value <= now)
  }

  /** A claim is given if and only if the task may start, its project is not deleted, attempts
      are left, its source is good and its version is current; the claim is for the frame and
      with the signature the task has, and its lease ends exactly after the lease time. A task
      that may start but is refused fails for good; any other one is left alone. */
  lemma ClaimGivenIff(s: State, t: Id, source: Source, now: Time, cfg: Config)
    requires t in s.rows
    ensures
      var r := s.rows[t];
      var s' := Apply(s, Take(t, source), now, cfg);
      if !MayStart(r, now) then s' == s
      else if !s.deleted && r.attempts < cfg.maxAttempts && source == Good && r.current then
        && s'.rows == s.rows[t := r.(status := Running, attempts := r.attempts + 1, nextAttempt := None, lease := Some(s.next),
                                     leaseUntil := Some(now + cfg.leaseSeconds), failure := None, updatedAt := now)]
        && s'.claims == s.claims[s.next := Claim(t, DesiredFrame(r.details), SignatureOf(r))] && s'.next == s.next + 1
      else
        && s'.claims == s.claims && s'.rows.Keys == s.rows.Keys && (forall u :: u in s.rows && u != t ==> s'.rows[u] == s.rows[u])
        && s'.rows[t].status == Failed && s'.rows[t].lease.None? && s'.rows[t].leaseUntil.None? && s'.rows[t].failure.Some?
        && s'.rows[t].attempts == r.attempts && s'.rows[t].details == r.details && s'.rows[t].output == r.output && s'.rows[t].pointer == r.pointer
  {
    hide DesiredFrame, SignatureOf;
  }

  /** Why a claim is refused: the first reason that applies. */
  lemma RefusalReason(s: State, t: Id, source: Source, now: Time, cfg: Config)
    requires t in s.rows && MayStart(s.rows[t], now) && Apply(s, Take(t, source), now, cfg).claims == s.claims
    requires s.next !in s.claims
    ensures
      var r := s.rows[t];
      t in Apply(s, Take(t, source), now, cfg).rows &&
      Apply(s, Take(t, source), now, cfg).rows[t].failure == Some(
        if s.deleted then ProjectDeleted
        else if r.attempts >= cfg.maxAttempts then AttemptsExhausted
        else if source == Gone then SourceMissing
        else if source == Mismatched then SourceMismatch
        else VersionNotCurrent)
  {
    hide DesiredFrame, SignatureOf;
    assert s.next in s.claims[s.next := ClaimOf(t, s.rows[t])];
  }

  /** After a failure reported under a live lease: if it was retryable and attempts are left
      the task is queued, and it can be started again exactly from the end of the delay on;
      otherwise it has failed and no claim, whenever made, takes it. */
  lemma RetryIff(s: State, lease: Lease, code: string, retryable: bool, now: Time, cfg: Config, later: Time)
    requires MayWrite(s, lease, now)
    ensures
      var t := s.claims[lease].task;
      var r := s.rows[t];
      var s' := Apply(s, Report(lease, code, retryable), now, cfg);
      && t in s'.rows && s'.rows.Keys == s.rows.Keys && (forall u :: u in s.rows && u != t ==> s'.rows[u] == s.rows[u])
      && (MayStart(s'.rows[t], later) <==> retryable && r.attempts < cfg.maxAttempts && now + cfg.retryDelay <= later)
      && s'.rows[t].status == (if retryable && r.attempts < cfg.maxAttempts then Queued else Failed)
      && s'.rows[t].failure == Some(Reported(code)) && s'.rows[t].attempts == r.attempts
      && s'.rows[t].details == r.details && s'.rows[t].output == r.output && s'.rows[t].pointer == r.pointer
      && (!(retryable && r.attempts < cfg.maxAttempts) ==> forall source :: Apply(s', Take(t, source), later, cfg) == s')
  {
    var t := s.claims[lease].task;
    var s' := Apply(s, Report(lease, code, retryable), now, cfg);
    if !(retryable && s.rows[t].attempts < cfg.maxAttempts) {
      forall source ensures Apply(s', Take(t, source), later, cfg) == s' {
        ClaimGivenIff(s', t, source, later, cfg);
      }
    }
    hide ApplyTake, Regrouped;
  }

  /** A worker's step has an effect only while its task runs under that very lease and the
      lease is not over, and a renewal or publication also only in a live project and for a
      current version; without a conflict a publication or a report then always ends the
      lease. */
  lemma WritesIff(s: State, op: Op, now: Time, cfg: Config, k: Lease)
    requires UnderLease(op, k)
    ensures
      var mayWrite := k in s.claims && s.claims[k].task in s.rows &&
        var r := s.rows[s.claims[k].task];
        && r.status == Running && r.lease == Some(k) && r.leaseUntil.Some? && now < r.leaseUntil.value
        && (!op.Report? ==> !s.deleted && r.current) && (op.Publish? ==> !op.conflict);
      && (!mayWrite ==> Apply(s, op, now, cfg) == s)
      && (mayWrite && !op.Renew? ==>
            var t := s.claims[k].task;
            t in Apply(s, op, now, cfg).rows && Apply(s, op, now, cfg).rows[t].lease.None?)
  {
    if op.Publish? && MayPublish(s, k, now) {
      PublishedIsReleased(s, k, op.captured, now);
    }
    hide Regrouped, PublishedRow;
  }

  lemma PublishedIsReleased(s: State, k: Lease, captured: string, now: Time)
    requires MayPublish(s, k, now)
    ensures s.claims[k].task in ApplyPublish(s, k, captured, now).rows && ApplyPublish(s, k, captured, now).rows[s.claims[k].task].lease.None?
  {
    hide Normalized, Regrouped, SignatureOf, DesiredFrame;
    var c := s.claims[k];
    var rows := s.rows[c.task := PublishedRow(s.rows[c.task], c, captured, now)];
    RegroupedKeys(rows, true, Some(c.task), now);
    RegroupedAttempts(rows, true, Some(c.task), now, c.task);
  }

  /** A renewal moves the end of the lease to exactly the lease time from now, and does
      nothing else to the task but its timestamp. */
  lemma RenewalMeans(s: State, lease: Lease, now: Time, cfg: Config)
    requires MayPublish(s, lease, now)
    ensures
      var t := s.claims[lease].task;
      Apply(s, Renew(lease), now, cfg) == s.(rows := s.rows[t := s.rows[t].(leaseUntil := Some(now + cfg.leaseSeconds), updatedAt := now)])
  {
  }

  /** A repaired task can be started at once, with all its attempts, its cached variants and
      its pointer as they were; nothing else is ever repaired. */
  lemma RepairIff(s: State, t: Id, missing: bool, now: Time, cfg: Config)
    requires t in s.rows
    ensures
      var r := s.rows[t];
      var s' := Apply(s, Repair(t, missing), now, cfg);
      if r.status == Ready && r.pointer.Some? && r.output == r.pointer && missing then
        && s'.rows.Keys == s.rows.Keys && (forall u :: u in s.rows && u != t ==> s'.rows[u] == s.rows[u])
        && MayStart(s'.rows[t], now) && s'.rows[t].attempts == 0 && s'.rows[t].failure == Some(ArtifactMissing)
        && s'.rows[t].details == r.details && s'.rows[t].pointer == r.pointer && s'.rows[t].output == r.output && s'.rows[t].current == r.current
      else s' == s
  {
  }

  /** A regrouping with discovery puts a ready task that has no signature but its first frame
      back to work, for that frame; without discovery it is left ready. */
  lemma DiscoveryIff(r: Row, frame: nat, discover: bool, now: Time)
    requires SignatureOf(r).None? && r.status == Ready && r.output.Some? && r.output == r.pointer && r.details.variants == map[]
    ensures
      var r' := RegroupRow(r, frame, discover, now);
      if discover then MayStart(r', now) && r'.attempts == 0 && DesiredFrame(r'.details) == FRAME_ZERO && r'.output == r.output && r'.pointer == r.pointer
      else r' == r.(details := r'.details)
    ensures
      var r' := RegroupRow(r, frame, discover, now);
      FRAME_ZERO in r'.details.variants && r'.details.variants[FRAME_ZERO] == r.output.value
  {
    hide NormalSignature;
  }

  lemma RegroupedCurrent(rows: Rows, discover: bool, changed: Option<Id>, now: Time, t: Id)
    requires t in rows
    ensures t in Regrouped(rows, discover, changed, now) && Regrouped(rows, discover, changed, now)[t].current == rows[t].current
  {
    hide Wanted, Sim, CurrentSignatures, RegroupDetails, DesiredFrame;
  }

  /** After an upload into a live project the retired versions are no longer current, all others
      are as they were, and the new one is current, with a task that can be started at once. */
  lemma UploadMeans(s: State, retired: set<Id>, added: Id, now: Time, cfg: Config)
    requires !s.deleted && added !in s.rows
    ensures
      var rows := Apply(s, Upload(retired, added), now, cfg).rows;
      && rows.Keys == s.rows.Keys + {added}
      && (forall t :: t in s.rows ==> rows[t].current == (s.rows[t].current && t !in retired))
      && rows[added].current && rows[added].pointer.None? && rows[added].attempts == 0 && MayStart(rows[added], now)
  {
    hide Regrouped;
    var switched := map t | t in s.rows :: if t in retired then s.rows[t].(current := false) else s.rows[t];
    var before := switched[added := NewRow(now)];
    RegroupedKeys(before, false, None, now);
    forall t | t in s.rows ensures Apply(s, Upload(retired, added), now, cfg).rows[t].current == (s.rows[t].current && t !in retired) {
      RegroupedCurrent(before, false, None, now, t);
    }
    NewRowRegrouped(before, added, now);
  }

  lemma NewRowRegrouped(rows: Rows, added: Id, now: Time)
    requires added in rows && rows[added] == NewRow(now)
    ensures
      var r := Regrouped(rows, false, None, now)[added];
      r.current && r.pointer.None? && r.attempts == 0 && MayStart(r, now)
  {
    hide Wanted, Sim, CurrentSignatures;
  }

  /** A backfill or a new item adds a current task that can be started at once, and changes
      nothing else. */
  lemma EnqueueMeans(s: State, added: Id, now: Time, cfg: Config)
    requires !s.deleted && added !in s.rows
    ensures
      var s' := Apply(s, Enqueue(added), now, cfg);
      && s' == s.(rows := s'.rows) && s'.rows.Keys == s.rows.Keys + {added} && (forall t :: t in s.rows ==> s'.rows[t] == s.rows[t])
      && s'.rows[added].current && s'.rows[added].attempts == 0 && s'.rows[added].pointer.None? && MayStart(s'.rows[added], now)
  {
  }

  /** Removing tasks from a live project leaves exactly the others, as current as they were. */
  lemma RemoveMeans(s: State, gone: set<Id>, now: Time, cfg: Config)
    requires !s.deleted
    ensures
      var rows := Apply(s, Remove(gone), now, cfg).rows;
      rows.Keys == s.rows.Keys - gone && forall t :: t in rows ==> rows[t].current == s.rows[t].current
  {
    hide Regrouped;
    RegroupedKeys(s.rows - gone, false, None, now);
    forall t | t in s.rows && t !in gone ensures Apply(s, Remove(gone), now, cfg).rows[t].current == s.rows[t].current {
      RegroupedCurrent(s.rows - gone, false, None, now, t);
    }
  }

  /** In a deleted project no claim is given, nothing is renewed or published, and nothing is
      uploaded or removed, ever again. */
  lemma {:induction false} DeletedForever(s: State, steps: seq<Step>, cfg: Config, purge: bool, now: Time)
    ensures
      var s' := Run(Apply(s, DeleteProject(purge), now, cfg), steps, cfg);
      && s'.deleted && s'.claims == s.claims
      && (forall op: Op, later: Time :: op.Renew? || op.Publish? || op.Upload? || op.Remove? || op.Enqueue? ==> Apply(s', op, later, cfg) == s')
  {
    hide Regrouped, PublishedRow, FailureRow, RepairedRow;
    if steps != [] {
      DeletedForever(s, steps[..|steps| - 1], cfg, purge, now);
    }
  }

  /** What a regrouping does to a task that has a signature and should show `frame`: a running
      one goes on; one that shows something else, or wanted something else, shows the frame's
      file if it is cached and is queued afresh if it is not; any other one stays as it is. */
  lemma RegroupMeans(r: Row, frame: nat, discover: bool, now: Time)
    requires SignatureOf(r).Some? && IsFrame(frame)
    ensures
      var r' := RegroupRow(r, frame, discover, now);
      var variants := RegroupDetails(r).variants;
      && DesiredFrame(r'.details) == frame && r'.details.variants == variants && r'.current == r.current
      && (if r.status == Running || (r.status != Ready && frame == DesiredFrame(r.details)) then r' == r.(details := r'.details)
          else if frame in variants then
            && r'.status == Ready && r'.output == r'.pointer == Some(variants[frame]) && r'.attempts == r.attempts
            && r'.failure.None? && r'.nextAttempt.None? && r'.lease.None? && r'.leaseUntil.None?
          else if frame != DesiredFrame(r.details) then MayStart(r', now) && r'.attempts == 0 && r'.output == r.output && r'.pointer == r.pointer
          else r' == r.(details := r'.details))
  {
    hide RegroupDetails, SignatureOf;
  }

  /** What normalizing keeps of stored details: a signature of 16 hexadecimal digits in lower
      case, the variants of the two frames, and the desired frame if it is one of them. */
  lemma NormalizedMeans(d: Details, existing: Option<FileId>)
    ensures
      var n := Normalized(d, existing);
      && (n.signature.Some? <==> d.signature.Some? && |d.signature.value| == 16 && ParseHex(d.signature.value).Some?)
      && (n.signature.Some? ==> ParseHex(n.signature.value) == ParseHex(d.signature.value) && |n.signature.value| == 16)
      && (n.signature.Some? ==> forall i :: 0 <= i < 16 ==> !('A' <= n.signature.value[i] <= 'Z'))
      && n.desired == Some(if d.desired == Some(3000) then 3000 else 0)
      && (forall f :: f in n.variants && f in d.variants ==> n.variants[f] == d.variants[f])
      && (0 in d.variants || 3000 in d.variants ==> forall f :: f in n.variants <==> f in d.variants && (f == 0 || f == 3000))
      && (0 !in d.variants && 3000 !in d.variants ==> n.variants == if existing.Some? then map[0 := existing.value] else map[])
  {
    if d.signature.Some? {
      LowerParses(d.signature.value);
    }
    var cached := map f | f in d.variants && IsFrame(f) :: d.variants[f];
    if 0 in d.variants {
      assert 0 in cached;
    }
    if 3000 in d.variants {
      assert 3000 in cached;
    }
  }
}
