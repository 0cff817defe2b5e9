/** What holds in every state of every interleaving of workers, uploads and deletions: a
    ready thumbnail shows the cached file of the frame its task wants, and a task wants the
    fallback frame exactly when some other current thumbnail is similar to its own. */
module ThumbnailAuthority {
  import opened Wrappers
  import opened DHash
  import opened UnionFind
  import opened ThumbnailGroups
  import opened ThumbnailTasks

  // ----- the invariant of one row

  /** A ready row shows the cached variant of its desired frame. */
  ghost predicate Authoritative(t: Id, r: Row) {
    r.status == Ready ==>
      var frame := DesiredFrame(r.details);
      && r.output == r.pointer == Some(OutputId(t, frame))
      && frame in Cached(r.details, r.output) && Cached(r.details, r.output)[frame] == OutputId(t, frame)
  }

  /** Cached files belong to the task and frame they are filed under; before anything is
      cached the output can only be the first frame. */
  ghost predicate OwnFiles(t: Id, r: Row) {
    && (forall f :: f in r.details.variants && IsFrame(f) ==> r.details.variants[f] == OutputId(t, f))
    && (Cached(r.details, None) == map[] && r.output.Some? ==> r.output == Some(OutputId(t, FRAME_ZERO)))
  }

  /** Running, holding a lease and having a deadline are the same, and the lease's claim
      carries the row's own signature. */
  ghost predicate Leased(t: Id, r: Row, claims: map<Lease, Claim>) {
    && (r.status == Running <==> r.lease.Some?) && (r.status == Running <==> r.leaseUntil.Some?)
    && (r.lease.Some? ==> r.lease.value in claims && claims[r.lease.value].task == t && claims[r.lease.value].signature == SignatureOf(r))
  }

  ghost predicate RowOk(t: Id, r: Row, claims: map<Lease, Claim>, cfg: Config) {
    && Authoritative(t, r) && OwnFiles(t, r) && Leased(t, r, claims)
    && r.attempts <= cfg.maxAttempts
    && (DesiredFrame(r.details) == FALLBACK_FRAME ==> SignatureOf(r).Some?)
  }

  lemma CachedIsOwn(t: Id, r: Row, existing: Option<FileId>, f: nat)
    requires OwnFiles(t, r) && (existing.None? || existing == r.output) && f in Cached(r.details, existing)
    ensures IsFrame(f) && Cached(r.details, existing)[f] == OutputId(t, f)
  {
  }

  lemma CacheStored(d: Details, existing: Option<FileId>, d': Details, later: Option<FileId>)
    requires d'.variants == Cached(d, existing)
    ensures (later.None? || Cached(d, existing) != map[]) ==> Cached(d', later) == Cached(d, existing)
    ensures Cached(d, existing) == map[] ==> Cached(d, None) == map[]
  {
    assert (map f | f in d'.variants && IsFrame(f) :: d'.variants[f]) == d'.variants;
  }

  /** Writing the regrouping details, with any frame, keeps files own and authority for
      the rows that are not ready. */
  lemma RegroupDetailsOwn(t: Id, r: Row, frame: nat)
    requires OwnFiles(t, r)
    ensures
      var r' := r.(details := RegroupDetails(r).(desired := Some(frame)));
      OwnFiles(t, r') && SignatureOf(r') == SignatureOf(r)
    ensures forall f :: f in RegroupDetails(r).variants ==> IsFrame(f) && RegroupDetails(r).variants[f] == OutputId(t, f)
  {
    hide ValidSignature, Lower;
    var existing := if r.output.Some? && r.output == r.pointer then r.output else None;
    NormalSignatureTwice(r.details.signature);
    CacheStored(r.details, existing, RegroupDetails(r), None);
    forall f | f in Cached(r.details, existing) ensures IsFrame(f) && Cached(r.details, existing)[f] == OutputId(t, f) {
      CachedIsOwn(t, r, existing, f);
    }
    var d' := RegroupDetails(r).(desired := Some(frame));
    CacheStored(r.details, existing, d', None);
  }

  lemma RegroupRowOk(t: Id, r: Row, frame: nat, discover: bool, now: Time, claims: map<Lease, Claim>, cfg: Config)
    requires RowOk(t, r, claims, cfg) && IsFrame(frame)
    ensures RowOk(t, RegroupRow(r, frame, discover, now), claims, cfg)
    ensures RegroupRow(r, frame, discover, now).current == r.current
    ensures SignatureOf(RegroupRow(r, frame, discover, now)) == SignatureOf(r)
    ensures SignatureOf(r).Some? ==> DesiredFrame(RegroupRow(r, frame, discover, now).details) == frame
  {
    var r' := RegroupRow(r, frame, discover, now);
    var n := RegroupDetails(r);
    RegroupDetailsOwn(t, r, DesiredFrame(r'.details));
    var existing := if r.output.Some? && r.output == r.pointer then r.output else None;
    CacheStored(r.details, existing, r'.details, r'.output);
    CacheStored(r.details, existing, r'.details, None);
    hide NormalSignature, Cached;
  }

  lemma PublishedRowOk(t: Id, r: Row, c: Claim, captured: string, now: Time, claims: map<Lease, Claim>, cfg: Config)
    requires RowOk(t, r, claims, cfg) && c.task == t && IsFrame(c.frame) && c.signature == SignatureOf(r)
    ensures RowOk(t, PublishedRow(r, c, captured, now), claims, cfg)
    ensures PublishedRow(r, c, captured, now).current == r.current
    ensures DesiredFrame(PublishedRow(r, c, captured, now).details) == DesiredFrame(r.details)
    ensures c.signature.Some? ==> SignatureOf(PublishedRow(r, c, captured, now)) == c.signature
  {
    var r' := PublishedRow(r, c, captured, now);
    PublishedCache(t, r, c, captured, now);
    NormalSignatureTwice(r.details.signature);
    hide NormalSignature, Cached, OwnFiles;
  }

  lemma PublishedCache(t: Id, r: Row, c: Claim, captured: string, now: Time)
    requires OwnFiles(t, r) && c.task == t && IsFrame(c.frame)
    ensures
      var r' := PublishedRow(r, c, captured, now);
      && OwnFiles(t, r') && Cached(r'.details, r'.output) == r'.details.variants
      && (forall f :: f in r'.details.variants ==> r'.details.variants[f] == OutputId(t, f))
  {
    hide NormalSignature;
    var r' := PublishedRow(r, c, captured, now);
    forall f | f in Cached(r.details, r.output) ensures IsFrame(f) && Cached(r.details, r.output)[f] == OutputId(t, f) {
      CachedIsOwn(t, r, r.output, f);
    }
    assert (map f | f in r'.details.variants && IsFrame(f) :: r'.details.variants[f]) == r'.details.variants;
    assert c.frame in r'.details.variants;
  }

  // ----- the invariant of the project

  ghost predicate ClaimsOk(s: State) {
    forall k :: k in s.claims ==> k < s.next && IsFrame(s.claims[k].frame) && (s.claims[k].frame == FALLBACK_FRAME ==> s.claims[k].signature.Some?)
  }

  ghost predicate RowsOk(rows: Rows, claims: map<Lease, Claim>, cfg: Config) {
    forall t :: t in rows ==> RowOk(t, rows[t], claims, cfg)
  }

  /** Every signed current task wants what the similarity graph says. */
  ghost predicate Grouped(rows: Rows) {
    forall t :: t in CurrentSignatures(rows) ==> t in rows && DesiredFrame(rows[t].details) == Wanted(CurrentSignatures(rows), t)
  }

  ghost predicate Inv(s: State, cfg: Config) {
    ClaimsOk(s) && RowsOk(s.rows, s.claims, cfg) && Grouped(s.rows)
  }

  /** The incremental choices are those of the graph if the choices stored before were
      right in the graph without the changed task. */
  lemma ChoiceIsWanted(rows: Rows, changed: Option<Id>)
    requires
      changed.Some? && changed.value in CurrentSignatures(rows) ==>
        forall t :: t in CurrentSignatures(rows) && t != changed.value && !Sim(CurrentSignatures(rows), changed.value, t) ==>
          t in rows && DesiredFrame(rows[t].details) == Wanted(CurrentSignatures(rows) - {changed.value}, t)
    ensures forall t :: t in CurrentSignatures(rows) ==> t in rows && Choice(rows, changed, t) == Wanted(CurrentSignatures(rows), t)
  {
    hide Wanted, Sim, DesiredFrame, SignatureOf;
    var sigs := CurrentSignatures(rows);
    if changed.Some? && changed.value in sigs {
      var stored := map t | t in rows && rows[t].current :: DesiredFrame(rows[t].details);
      var desired := map t | t in stored :: Choice(rows, changed, t);
      IncrementalAgreesIff(stored, sigs, changed.value, desired);
    }
  }

  lemma WantedIsFrame(sigs: Signatures, t: Id)
    ensures IsFrame(Wanted(sigs, t))
  {
  }

  lemma RegroupedRows(rows: Rows, discover: bool, changed: Option<Id>, now: Time, claims: map<Lease, Claim>, cfg: Config)
    requires RowsOk(rows, claims, cfg)
    ensures RowsOk(Regrouped(rows, discover, changed, now), claims, cfg)
    ensures CurrentSignatures(Regrouped(rows, discover, changed, now)) == CurrentSignatures(rows)
    ensures forall t :: t in CurrentSignatures(rows) ==> t in rows && t in Regrouped(rows, discover, changed, now) && DesiredFrame(Regrouped(rows, discover, changed, now)[t].details) == Choice(rows, changed, t)
  {
    hide RowOk, RegroupRow, Wanted, Sim, SignatureOf, DesiredFrame;
    var rows' := Regrouped(rows, discover, changed, now);
    forall t | t in rows && rows[t].current
      ensures RowOk(t, rows'[t], claims, cfg) && rows'[t].current && SignatureOf(rows'[t]) == SignatureOf(rows[t])
      ensures SignatureOf(rows[t]).Some? ==> DesiredFrame(rows'[t].details) == Choice(rows, changed, t)
    {
      WantedIsFrame(CurrentSignatures(rows), t);
      RegroupRowOk(t, rows[t], Choice(rows, changed, t), discover, now, claims, cfg);
    }
  }

  /** A regrouping keeps every row in order and leaves the project grouped. */
  lemma RegroupKeeps(rows: Rows, discover: bool, changed: Option<Id>, now: Time, claims: map<Lease, Claim>, cfg: Config)
    requires RowsOk(rows, claims, cfg)
    requires
      changed.Some? && changed.value in CurrentSignatures(rows) ==>
        forall t :: t in CurrentSignatures(rows) && t != changed.value && !Sim(CurrentSignatures(rows), changed.value, t) ==>
          t in rows && DesiredFrame(rows[t].details) == Wanted(CurrentSignatures(rows) - {changed.value}, t)
    ensures RowsOk(Regrouped(rows, discover, changed, now), claims, cfg) && Grouped(Regrouped(rows, discover, changed, now))
  {
    hide RowsOk, Regrouped, CurrentSignatures, Wanted, Choice, DesiredFrame, Sim;
    RegroupedRows(rows, discover, changed, now, claims, cfg);
    ChoiceIsWanted(rows, changed);
  }

  // ----- every step keeps it

  lemma WantedWithout(sigs: Signatures, t: Id, u: Id)
    requires u != t && !Sim(sigs, t, u)
    ensures Wanted(sigs - {t}, u) == Wanted(sigs, u)
  {
    hide SignaturesAreSimilar;
    SimSymmetric(sigs, t, u);
    forall y: Id ensures Sim(sigs - {t}, u, y) <==> Sim(sigs, u, y) {
    }
  }

  /** Whether a publication adds a signature or repeats one, the choices stored for the
      tasks it does not match stay right in the graph without it. */
  lemma PublishedNeighbours(rows: Rows, t: Id, r': Row, u: Id)
    requires Grouped(rows) && t in rows && rows[t].current && r'.current
    requires SignatureOf(rows[t]).Some? ==> SignatureOf(r') == SignatureOf(rows[t])
    requires u in CurrentSignatures(rows[t := r']) && u != t && !Sim(CurrentSignatures(rows[t := r']), t, u)
    ensures u in rows && DesiredFrame(rows[u].details) == Wanted(CurrentSignatures(rows[t := r']) - {t}, u)
  {
    hide Wanted, SignatureOf, DesiredFrame, SignaturesAreSimilar;
    var sigs, sigs' := CurrentSignatures(rows), CurrentSignatures(rows[t := r']);
    assert sigs' - {t} == sigs - {t};
    WantedWithout(sigs, t, u);
  }

  /** A row may change freely as long as its part in the graph stays the same. */
  lemma GroupedSame(rows: Rows, t: Id, r': Row)
    requires Grouped(rows) && t in rows && r'.current == rows[t].current
    requires SignatureOf(r') == SignatureOf(rows[t]) && DesiredFrame(r'.details) == DesiredFrame(rows[t].details)
    ensures Grouped(rows[t := r'])
  {
    hide Wanted, SignatureOf, DesiredFrame;
    assert CurrentSignatures(rows[t := r']) == CurrentSignatures(rows);
  }

  lemma ClaimsGrow(s: State, c: Claim, cfg: Config)
    requires ClaimsOk(s) && RowsOk(s.rows, s.claims, cfg)
    ensures RowsOk(s.rows, s.claims[s.next := c], cfg)
  {
    hide OwnFiles, Authoritative, SignatureOf, DesiredFrame;
    forall t | t in s.rows ensures RowOk(t, s.rows[t], s.claims[s.next := c], cfg) {
      assert RowOk(t, s.rows[t], s.claims, cfg);
    }
  }

  lemma TakeKeeps(s: State, t: Id, source: Source, now: Time, cfg: Config)
    requires Inv(s, cfg)
    ensures Inv(ApplyTake(s, t, source, now, cfg), cfg)
  {
    hide NormalSignature, DesiredFrame, Grouped, RowOk;
    if t in s.rows && Eligible(s.rows[t], now) {
      var s' := ApplyTake(s, t, source, now, cfg);
      GroupedSame(s.rows, t, s'.rows[t]);
      TakenRowOk(s, t, source, now, cfg);
      ClaimsGrow(s, ClaimOf(t, s.rows[t]), cfg);
      NewClaimOk(s, t, cfg);
    }
  }

  lemma NewClaimOk(s: State, t: Id, cfg: Config)
    requires t in s.rows && RowOk(t, s.rows[t], s.claims, cfg)
    ensures
      var c := ClaimOf(t, s.rows[t]);
      IsFrame(c.frame) && (c.frame == FALLBACK_FRAME ==> c.signature.Some?)
  {
  }

  lemma TakenRowOk(s: State, t: Id, source: Source, now: Time, cfg: Config)
    requires t in s.rows && Eligible(s.rows[t], now) && RowOk(t, s.rows[t], s.claims, cfg)
    ensures
      var s' := ApplyTake(s, t, source, now, cfg);
      t in s'.rows && RowOk(t, s'.rows[t], s'.claims, cfg)
  {
    hide NormalSignature, Cached;
  }

  lemma PublishKeeps(s: State, lease: Lease, captured: string, now: Time, cfg: Config)
    requires Inv(s, cfg) && MayPublish(s, lease, now)
    ensures Inv(ApplyPublish(s, lease, captured, now), cfg)
  {
    hide Grouped, Wanted, Sim, SignatureOf, DesiredFrame, RegroupRow, PublishedRow, Authoritative, OwnFiles, CurrentSignatures, Regrouped;
    var c := s.claims[lease];
    var r := s.rows[c.task];
    var r' := PublishedRow(r, c, captured, now);
    assert RowOk(c.task, r, s.claims, cfg);
    PublishedRowOk(c.task, r, c, captured, now, s.claims, cfg);
    var rows := s.rows[c.task := r'];
    if c.frame == FRAME_ZERO {
      forall u | u in CurrentSignatures(rows) && u != c.task && !Sim(CurrentSignatures(rows), c.task, u)
        ensures u in rows && DesiredFrame(rows[u].details) == Wanted(CurrentSignatures(rows) - {c.task}, u)
      {
        PublishedNeighbours(s.rows, c.task, r', u);
      }
      RegroupKeeps(rows, true, Some(c.task), now, s.claims, cfg);
    } else {
      GroupedSame(s.rows, c.task, r');
    }
  }

  lemma NewRowOk(rows: Rows, t: Id, now: Time, claims: map<Lease, Claim>, cfg: Config)
    ensures RowOk(t, NewRow(now), claims, cfg) && SignatureOf(NewRow(now)).None?
    ensures t !in rows ==> CurrentSignatures(rows[t := NewRow(now)]) == CurrentSignatures(rows)
  {
  }

  lemma RetiredRowOk(t: Id, r: Row, claims: map<Lease, Claim>, cfg: Config)
    requires RowOk(t, r, claims, cfg)
    ensures RowOk(t, r.(current := false), claims, cfg)
  {
  }

  lemma ReportKeeps(s: State, op: Op, now: Time, cfg: Config)
    requires Inv(s, cfg) && (op.Report? || op.Renew?)
    ensures Inv(Apply(s, op, now, cfg), cfg)
  {
    hide NormalSignature, DesiredFrame, Grouped, RowOk;
    if MayWrite(s, op.lease, now) {
      var t := s.claims[op.lease].task;
      GroupedSame(s.rows, t, Apply(s, op, now, cfg).rows[t]);
      WorkedRowOk(t, s.rows[t], op, now, s.claims, cfg);
    }
  }

  lemma WorkedRowOk(t: Id, r: Row, op: Op, now: Time, claims: map<Lease, Claim>, cfg: Config)
    requires RowOk(t, r, claims, cfg) && r.status == Running
    ensures RowOk(t, r.(leaseUntil := Some(now + cfg.leaseSeconds), updatedAt := now), claims, cfg)
    ensures op.Report? ==> RowOk(t, FailureRow(r, op.code, op.retryable, now, cfg), claims, cfg)
  {
    hide NormalSignature, Cached;
  }

  lemma UploadKeeps(s: State, retired: set<Id>, added: Id, now: Time, cfg: Config)
    requires Inv(s, cfg)
    ensures Inv(Apply(s, Upload(retired, added), now, cfg), cfg)
  {
    hide RowOk, Grouped, Regrouped, NewRow;
    var switched := map t | t in s.rows :: if t in retired then s.rows[t].(current := false) else s.rows[t];
    forall t | t in s.rows ensures RowOk(t, switched[t], s.claims, cfg) {
      RetiredRowOk(t, s.rows[t], s.claims, cfg);
    }
    NewRowOk(s.rows, added, now, s.claims, cfg);
    RegroupKeeps(switched[added := NewRow(now)], false, None, now, s.claims, cfg);
  }

  lemma EnqueueKeeps(s: State, added: Id, now: Time, cfg: Config)
    requires Inv(s, cfg)
    ensures Inv(Apply(s, Enqueue(added), now, cfg), cfg)
  {
    hide RowOk, Wanted, NewRow, SignatureOf, DesiredFrame;
    NewRowOk(s.rows, added, now, s.claims, cfg);
  }

  lemma RepairKeeps(s: State, op: Op, now: Time, cfg: Config)
    requires Inv(s, cfg) && op.Repair?
    ensures Inv(Apply(s, op, now, cfg), cfg)
  {
    hide NormalSignature, DesiredFrame, Grouped, RowOk;
    if op.task in s.rows && Broken(s.rows[op.task], op.missing) {
      GroupedSame(s.rows, op.task, RepairedRow(s.rows[op.task], now));
      RepairedRowOk(op.task, s.rows[op.task], now, s.claims, cfg);
    }
  }

  lemma RepairedRowOk(t: Id, r: Row, now: Time, claims: map<Lease, Claim>, cfg: Config)
    requires RowOk(t, r, claims, cfg)
    ensures RowOk(t, RepairedRow(r, now), claims, cfg)
  {
    hide NormalSignature, Cached;
  }

  lemma ApplyKeeps(s: State, op: Op, now: Time, cfg: Config)
    requires Inv(s, cfg)
    ensures Inv(Apply(s, op, now, cfg), cfg)
  {
    hide RowOk, ApplyTake, ApplyPublish, Regrouped, Wanted, SignatureOf;
    match op
    case Take(t, source) => TakeKeeps(s, t, source, now, cfg);
    case Renew(_) => ReportKeeps(s, op, now, cfg);
    case Publish(lease, captured, _) =>
      if MayPublish(s, lease, now) {
        PublishKeeps(s, lease, captured, now, cfg);
      }
    case Report(_, _, _) => ReportKeeps(s, op, now, cfg);
    case Upload(retired, added) => UploadKeeps(s, retired, added, now, cfg);
    case Remove(gone) =>
      RegroupKeeps(s.rows - gone, false, None, now, s.claims, cfg);
    case Enqueue(added) => EnqueueKeeps(s, added, now, cfg);
    case DeleteProject(_) =>
    case Repair(_, _) => RepairKeeps(s, op, now, cfg);
  }

  // ----- runs

  datatype Step = Step(op: Op, now: Time)

  ghost function Run(s: State, steps: seq<Step>, cfg: Config): State {
    if steps == [] then s
    else
      var last := steps[|steps| - 1];
      Apply(Run(s, steps[..|steps| - 1], cfg), last.op, last.now, cfg)
  }

  /** A row from before the similarity feature: the first frame, ready and shown. */
  ghost predicate LegacyRow(t: Id, r: Row) {
    && r.status == Ready && r.lease.None? && r.leaseUntil.None?
    && r.details == Details(None, map[], None) && r.output == r.pointer == Some(OutputId(t, FRAME_ZERO))
  }

  /** A project with queued tasks and tasks from before the similarity feature. */
  ghost predicate Start(s: State, cfg: Config) {
    && s.claims == map[]
    && forall t :: t in s.rows ==> (exists now :: s.rows[t] == NewRow(now)) || (LegacyRow(t, s.rows[t]) && s.rows[t].attempts <= cfg.maxAttempts)
  }

  lemma StartOk(s: State, cfg: Config)
    requires Start(s, cfg)
    ensures Inv(s, cfg)
  {
    forall t | t in s.rows ensures RowOk(t, s.rows[t], s.claims, cfg) && SignatureOf(s.rows[t]).None? {
      if now :| s.rows[t] == NewRow(now) {
        NewRowOk(s.rows, t, now, s.claims, cfg);
      }
    }
  }

  lemma {:induction false} RunsKeepInvariant(s: State, steps: seq<Step>, cfg: Config)
    requires Inv(s, cfg)
    ensures Inv(Run(s, steps, cfg), cfg)
  {
    hide Inv;
    if steps != [] {
      var n := |steps| - 1;
      RunsKeepInvariant(s, steps[..n], cfg);
      ApplyKeeps(Run(s, steps[..n], cfg), steps[n].op, steps[n].now, cfg);
    }
  }

  /** The thumbnail shown: in every state of every run, a ready current task's output and
      its version's pointer are the file of one frame, the fallback frame exactly when some
      other current thumbnail is similar to its own. */
  lemma ShownFrame(s: State, steps: seq<Step>, cfg: Config, t: Id)
    requires Start(s, cfg) && t in Run(s, steps, cfg).rows
    requires Run(s, steps, cfg).rows[t].status == Ready && Run(s, steps, cfg).rows[t].current
    ensures
      var rows := Run(s, steps, cfg).rows;
      var frame := if exists u: Id :: Sim(CurrentSignatures(rows), t, u) then FALLBACK_FRAME else FRAME_ZERO;
      rows[t].output == rows[t].pointer == Some(OutputId(t, frame))
  {
    hide Apply, SignatureOf, Cached;
    StartOk(s, cfg);
    RunsKeepInvariant(s, steps, cfg);
    var rows := Run(s, steps, cfg).rows;
    assert RowOk(t, rows[t], Run(s, steps, cfg).claims, cfg);
    assert t in CurrentSignatures(rows) <==> SignatureOf(rows[t]).Some?;
  }

  /** The cached files of a row are those recorded in its details. */
  ghost predicate Keeps(r: Row, t: Id, frame: nat) {
    frame in r.details.variants && r.details.variants[frame] == OutputId(t, frame)
  }

  /** After its file is published the row is released, and it is ready exactly when the
      frame it wants is cached, else queued afresh and due at once. */
  ghost predicate Settled(r: Row) {
    && r.lease.None? && r.failure.None? && r.nextAttempt.None?
    && r.status == (if DesiredFrame(r.details) in r.details.variants then Ready else Queued)
    && (r.status == Queued ==> r.attempts == 0)
  }

  lemma PublishedSettled(t: Id, r: Row, c: Claim, captured: string, now: Time)
    requires OwnFiles(t, r) && c.task == t && IsFrame(c.frame)
    ensures
      var r' := PublishedRow(r, c, captured, now);
      Settled(r') && Keeps(r', t, c.frame) && Cached(r'.details, None) == r'.details.variants
  {
    hide NormalSignature;
    var r' := PublishedRow(r, c, captured, now);
    PublishedCache(t, r, c, captured, now);
    assert (map f | f in r'.details.variants && IsFrame(f) :: r'.details.variants[f]) == r'.details.variants;
  }

  lemma RegroupedSettled(r: Row, t: Id, kept: nat, frame: nat, now: Time)
    requires Settled(r) && Keeps(r, t, kept) && Cached(r.details, None) == r.details.variants && IsFrame(frame) && SignatureOf(r).Some?
    ensures Settled(RegroupRow(r, frame, true, now)) && Keeps(RegroupRow(r, frame, true, now), t, kept)
  {
    hide NormalSignature;
    assert RegroupDetails(r).variants == r.details.variants;
    hide Cached, RegroupDetails;
  }

  /** A publication under a live claim is never lost, also when a regrouping has changed the
      wanted frame since the claim: its file stays cached, the lease is given back, and the
      task is ready exactly when the frame it now wants is cached, else queued for it. */
  lemma PublicationIsKept(s: State, lease: Lease, captured: string, now: Time, cfg: Config)
    requires Inv(s, cfg) && MayPublish(s, lease, now) && ValidSignature(captured)
    ensures
      var t := s.claims[lease].task;
      var rows := ApplyPublish(s, lease, captured, now).rows;
      t in rows && Settled(rows[t]) && Keeps(rows[t], t, s.claims[lease].frame)
  {
    hide Wanted, Sim, ValidSignature, Settled, Keeps, RegroupRow, PublishedRow, Cached, Authoritative;
    var c := s.claims[lease];
    var r := s.rows[c.task];
    assert RowOk(c.task, r, s.claims, cfg);
    var r' := PublishedRow(r, c, captured, now);
    PublishedSettled(c.task, r, c, captured, now);
    PublishedSigned(r, c, captured, now);
    var rows := s.rows[c.task := r'];
    WantedIsFrame(CurrentSignatures(rows), c.task);
    RegroupedSettled(r', c.task, c.frame, Choice(rows, Some(c.task), c.task), now);
  }

  lemma PublishedSigned(r: Row, c: Claim, captured: string, now: Time)
    requires c.signature == SignatureOf(r) && ValidSignature(captured)
    ensures SignatureOf(PublishedRow(r, c, captured, now)).Some? && PublishedRow(r, c, captured, now).current == r.current
  {
    NormalSignatureTwice(r.details.signature);
  }

  // ----- leases are fenced

  ghost predicate Unleased(rows: Rows, k: Lease) {
    forall t :: t in rows ==> rows[t].lease != Some(k)
  }

  lemma RegroupedUnleased(rows: Rows, discover: bool, changed: Option<Id>, now: Time, k: Lease)
    requires Unleased(rows, k)
    ensures Unleased(Regrouped(rows, discover, changed, now), k)
  {
    hide Wanted, Sim, CurrentSignatures, RegroupDetails, DesiredFrame;
  }

  lemma StaysUnleased(s: State, op: Op, now: Time, cfg: Config, k: Lease)
    requires k < s.next && Unleased(s.rows, k)
    ensures k < Apply(s, op, now, cfg).next && Unleased(Apply(s, op, now, cfg).rows, k)
  {
    hide Regrouped, NormalSignature, DesiredFrame, Cached;
    match op
    case Publish(lease, captured, conflict) =>
      if MayPublish(s, lease, now) {
        var c := s.claims[lease];
        RegroupedUnleased(s.rows[c.task := PublishedRow(s.rows[c.task], c, captured, now)], true, Some(c.task), now, k);
      }
    case Upload(retired, added) =>
      var switched := map t | t in s.rows :: if t in retired then s.rows[t].(current := false) else s.rows[t];
      RegroupedUnleased(switched[added := NewRow(now)], false, None, now, k);
    case Remove(gone) => RegroupedUnleased(s.rows - gone, false, None, now, k);
    case _ =>
  }

  lemma {:induction false} RunStaysUnleased(s: State, steps: seq<Step>, cfg: Config, k: Lease)
    requires k < s.next && Unleased(s.rows, k)
    ensures k < Run(s, steps, cfg).next && Unleased(Run(s, steps, cfg).rows, k)
  {
    hide Apply;
    if steps != [] {
      var n := |steps| - 1;
      RunStaysUnleased(s, steps[..n], cfg, k);
      StaysUnleased(Run(s, steps[..n], cfg), steps[n].op, steps[n].now, cfg, k);
    }
  }

  ghost predicate UnderLease(op: Op, k: Lease) {
    (op.Renew? || op.Publish? || op.Report?) && op.lease == k
  }

  /** Once a worker's task no longer runs under its lease, nothing that worker ever asks
      for has an effect, whatever happens in between. */
  lemma SupersededForever(s: State, steps: seq<Step>, op: Op, now: Time, cfg: Config, k: Lease)
    requires Inv(s, cfg) && k in s.claims && UnderLease(op, k)
    requires s.claims[k].task in s.rows ==> s.rows[s.claims[k].task].lease != Some(k)
    ensures Apply(Run(s, steps, cfg), op, now, cfg) == Run(s, steps, cfg)
  {
    hide Regrouped, Authoritative, OwnFiles, SignatureOf, Run;
    forall t | t in s.rows ensures s.rows[t].lease != Some(k) {
      assert RowOk(t, s.rows[t], s.claims, cfg);
    }
    RunStaysUnleased(s, steps, cfg, k);
  }

  // ----- attempts

  /** The attempts of a row did not change, or it starts afresh, queued or already ready. */
  ghost predicate SameOrReset(r: Row, r': Row) {
    r'.attempts == r.attempts || (r'.attempts == 0 && (r'.status == Queued || r'.status == Ready))
  }

  lemma RegroupedAttempts(rows: Rows, discover: bool, changed: Option<Id>, now: Time, t: Id)
    requires t in rows
    ensures SameOrReset(rows[t], Regrouped(rows, discover, changed, now)[t])
    ensures Regrouped(rows, discover, changed, now)[t].lease in {None, rows[t].lease}
    ensures Regrouped(rows, discover, changed, now)[t].status in {rows[t].status, Queued, Ready}
  {
    hide Wanted, Sim, CurrentSignatures, RegroupDetails, DesiredFrame;
  }

  lemma PublishedAttempts(s: State, lease: Lease, captured: string, now: Time, t: Id)
    requires MayPublish(s, lease, now) && t in s.rows
    ensures t in ApplyPublish(s, lease, captured, now).rows
    ensures SameOrReset(s.rows[t], ApplyPublish(s, lease, captured, now).rows[t])
    ensures ApplyPublish(s, lease, captured, now).rows[t].lease in {None, s.rows[t].lease}
  {
    hide Regrouped, Normalized, SignatureOf;
    var c := s.claims[lease];
    RegroupedKeys(s.rows[c.task := PublishedRow(s.rows[c.task], c, captured, now)], true, Some(c.task), now);
    RegroupedAttempts(s.rows[c.task := PublishedRow(s.rows[c.task], c, captured, now)], true, Some(c.task), now, t);
  }

  lemma NextLeaseIsNew(s: State, cfg: Config, t: Id)
    requires Inv(s, cfg) && t in s.rows
    ensures s.rows[t].lease != Some(s.next)
  {
    assert RowOk(t, s.rows[t], s.claims, cfg);
  }

  /** A new lease costs an attempt, and the counter only ever goes back to zero when the
      wanted frame changed, a publication ended the work or the shown file went missing: so
      between two such resets a task is claimed at most as often as the maximum allows. */
  lemma LeaseCostsAnAttempt(s: State, op: Op, now: Time, cfg: Config, t: Id)
    requires Inv(s, cfg) && t in s.rows
    ensures t in Apply(s, op, now, cfg).rows ==>
      var r, r' := s.rows[t], Apply(s, op, now, cfg).rows[t];
      if r'.lease.Some? && r'.lease != r.lease then
        op.Take? && op.task == t && r'.attempts == r.attempts + 1 <= cfg.maxAttempts && r'.leaseUntil == Some(now + cfg.leaseSeconds)
      else SameOrReset(r, r')
  {
    hide Inv, Regrouped, SignatureOf, DesiredFrame, ApplyPublish;
    NextLeaseIsNew(s, cfg, t);
    match op
    case Publish(lease, captured, conflict) =>
      if MayPublish(s, lease, now) {
        PublishedAttempts(s, lease, captured, now, t);
      }
    case Upload(retired, added) =>
      var switched := map u | u in s.rows :: if u in retired then s.rows[u].(current := false) else s.rows[u];
      RegroupedAttempts(switched[added := NewRow(now)], false, None, now, t);
    case Remove(gone) =>
      RegroupedKeys(s.rows - gone, false, None, now);
      if t !in gone {
        RegroupedAttempts(s.rows - gone, false, None, now, t);
      }
    case _ =>
  }

  // ----- signatures are written once

  lemma RegroupedKeys(rows: Rows, discover: bool, changed: Option<Id>, now: Time)
    ensures Regrouped(rows, discover, changed, now).Keys == rows.Keys
  {
    hide RegroupRow, Choice;
  }

  lemma RegroupedSignature(rows: Rows, discover: bool, changed: Option<Id>, now: Time, t: Id)
    requires t in rows
    ensures SignatureOf(Regrouped(rows, discover, changed, now)[t]) == SignatureOf(rows[t])
  {
    hide Wanted, Sim, CurrentSignatures, Choice, ValidSignature, Lower;
    NormalSignatureTwice(rows[t].details.signature);
  }

  /** A task that has a signature keeps it for as long as it exists: a later worker repeats
      the one its claim carries. */
  lemma SignatureIsKept(s: State, op: Op, now: Time, cfg: Config, t: Id)
    requires Inv(s, cfg) && t in s.rows && SignatureOf(s.rows[t]).Some? && t in Apply(s, op, now, cfg).rows
    ensures SignatureOf(Apply(s, op, now, cfg).rows[t]) == SignatureOf(s.rows[t])
  {
    hide Regrouped, NormalSignature, Authoritative, OwnFiles, DesiredFrame, Cached;
    match op
    case Publish(lease, captured, conflict) =>
      if MayPublish(s, lease, now) {
        var c := s.claims[lease];
        var rows := s.rows[c.task := PublishedRow(s.rows[c.task], c, captured, now)];
        assert RowOk(c.task, s.rows[c.task], s.claims, cfg);
        PublishedRowOk(c.task, s.rows[c.task], c, captured, now, s.claims, cfg);
        RegroupedSignature(rows, true, Some(c.task), now, t);
      }
    case Upload(retired, added) =>
      var switched := map t | t in s.rows :: if t in retired then s.rows[t].(current := false) else s.rows[t];
      RegroupedSignature(switched[added := NewRow(now)], false, None, now, t);
    case Remove(gone) =>
      RegroupedKeys(s.rows - gone, false, None, now);
      if t !in gone {
        RegroupedSignature(s.rows - gone, false, None, now, t);
      }
    case _ =>
  }

  // ----- regrouping twice

  /** The details a regrouping writes are the ones the next would start from. */
  lemma RegroupDetailsTwice(r: Row, frame: nat, discover: bool, now: Time)
    requires IsFrame(frame)
    ensures
      var r' := RegroupRow(r, frame, discover, now);
      RegroupDetails(r') == r'.details && SignatureOf(r') == SignatureOf(r)
  {
    hide NormalSignature;
    var r' := RegroupRow(r, frame, discover, now);
    var existing := if r.output.Some? && r.output == r.pointer then r.output else None;
    var existing' := if r'.output.Some? && r'.output == r'.pointer then r'.output else None;
    NormalSignatureTwice(r.details.signature);
    assert r'.details.signature == NormalSignature(r.details.signature) && r'.details.variants == Cached(r.details, existing);
    CacheStored(r.details, existing, r'.details, existing');
    hide Cached;
  }

  lemma RegroupRowTwice(r: Row, frame: nat, discover: bool, now: Time, later: Time)
    requires IsFrame(frame)
    ensures
      var r' := RegroupRow(r, frame, discover, now);
      && RegroupRow(r', frame, discover, later) == r'
      && r'.current == r.current && SignatureOf(r') == SignatureOf(r)
  {
    hide RegroupDetails;
    RegroupDetailsTwice(r, frame, discover, now);
  }

  /** A full regrouping done twice is the same as done once: the second writes nothing, not
      even a timestamp. */
  lemma RegroupTwice(rows: Rows, discover: bool, now: Time, later: Time)
    ensures
      var once := Regrouped(rows, discover, None, now);
      Regrouped(once, discover, None, later) == once
  {
    hide RegroupRow, Wanted, SignatureOf;
    var once := Regrouped(rows, discover, None, now);
    var sigs := CurrentSignatures(rows);
    forall t | t in rows && rows[t].current
      ensures once[t].current && SignatureOf(once[t]) == SignatureOf(rows[t])
      ensures RegroupRow(once[t], Wanted(sigs, t), discover, later) == once[t]
    {
      WantedIsFrame(sigs, t);
      RegroupRowTwice(rows[t], Wanted(sigs, t), discover, now, later);
    }
    assert CurrentSignatures(once) == sigs;
  }
}
