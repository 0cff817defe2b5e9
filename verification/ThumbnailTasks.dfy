/** Thumbnail task rows with their version pointers, and the transactions on them: claim,
    renewal, publication, failure and regrouping. */
module ThumbnailTasks {
  import opened Wrappers
  import opened DHash
  import opened UnionFind
  import opened ThumbnailGroups

  type Time = int
  type Lease = nat

  datatype Status = Queued | Running | Ready | Failed

  /** The id of the file made for a frame of a task: a hash of both, taken to be injective. */
  datatype FileId = OutputId(task: Id, frame: nat)

  datatype Failure = ProjectDeleted | AttemptsExhausted | SourceMissing | SourceMismatch | VersionNotCurrent | ArtifactMissing | Reported(code: string)

  // ----- result details

  /** The `result_details` object; `None` and the empty map stand for missing keys. */
  datatype Details = Details(signature: Option<string>, variants: map<nat, FileId>, desired: Option<nat>)

  function LowerChar(c: char): char {
    if 'A' <= c <= 'Z' then (c as int + 32) as char else c
  }

  function Lower(s: string): (l: string)
    ensures |l| == |s|
  {
    seq(|s|, i requires 0 <= i < |s| => LowerChar(s[i]))
  }

  lemma {:induction false} LowerParses(s: string)
    ensures ParseHex(Lower(s)) == ParseHex(s) && Lower(Lower(s)) == Lower(s)
  {
    if s != "" {
      var n := |s| - 1;
      LowerParses(s[..n]);
      assert Lower(s)[..n] == Lower(s[..n]);
      assert DigitValue(LowerChar(s[n])) == DigitValue(s[n]);
    }
  }

  function NormalSignature(s: Option<string>): Option<string> {
    if s.Some? && ValidSignature(s.value) then Some(Lower(s.value)) else None
  }

  lemma NormalSignatureTwice(s: Option<string>)
    ensures NormalSignature(NormalSignature(s)) == NormalSignature(s)
  {
    if s.Some? {
      LowerParses(s.value);
    }
  }

  predicate IsFrame(f: nat) { f == FRAME_ZERO || f == FALLBACK_FRAME }

  function DesiredFrame(d: Details): (f: nat)
    ensures IsFrame(f)
  {
    if d.desired.Some? && IsFrame(d.desired.value) then d.desired.value else FRAME_ZERO
  }

  function Cached(d: Details, existing: Option<FileId>): map<nat, FileId> {
    var cached := map f | f in d.variants && IsFrame(f) :: d.variants[f];
    if cached == map[] && existing.Some? then map[FRAME_ZERO := existing.value] else cached
  }

  /** `normalize_thumbnail_result_details` */
  function Normalized(d: Details, existing: Option<FileId>): Details {
    Details(NormalSignature(d.signature), Cached(d, existing), Some(DesiredFrame(d)))
  }

  /** Normalizing again changes nothing, as long as no new output can be adopted. */
  lemma NormalizedTwice(d: Details, existing: Option<FileId>, later: Option<FileId>)
    requires later.None? || Cached(d, existing) != map[]
    ensures Normalized(Normalized(d, existing), later) == Normalized(d, existing)
  {
    NormalSignatureTwice(d.signature);
    var n := Normalized(d, existing);
    assert (map f | f in n.variants && IsFrame(f) :: n.variants[f]) == n.variants;
  }

  // ----- rows

  /** A thumbnail task joined with its version: `pointer` is the version's thumbnail, and
      `current` says that the version is its item's current one. */
  datatype Row = Row(status: Status, attempts: nat, nextAttempt: Option<Time>, lease: Option<Lease>, leaseUntil: Option<Time>,
                     output: Option<FileId>, failure: Option<Failure>, updatedAt: Time, details: Details,
                     current: bool, pointer: Option<FileId>)

  type Rows = map<Id, Row>

  datatype Config = Config(maxAttempts: nat, leaseSeconds: nat, retryDelay: nat)

  /** What a worker carries from its claim to its publication. */
  datatype Claim = Claim(task: Id, frame: nat, signature: Option<string>)

  function NewRow(now: Time): Row {
    Row(Queued, 0, None, None, None, None, None, now, Details(None, map[], None), true, None)
  }

  function SignatureOf(r: Row): Option<string> { NormalSignature(r.details.signature) }

  /** The signatures of the current versions. */
  function CurrentSignatures(rows: Rows): Signatures {
    map t | t in rows && rows[t].current && SignatureOf(rows[t]).Some? :: SignatureOf(rows[t]).value
  }

  function Requeued(r: Row, now: Time): Row {
    r.(status := Queued, attempts := 0, nextAttempt := None, lease := None, leaseUntil := None, failure := None, updatedAt := now)
  }

  function Showing(r: Row, f: FileId): Row {
    r.(status := Ready, output := Some(f), nextAttempt := None, lease := None, leaseUntil := None, failure := None)
  }

  /** The details a regrouping starts from: an output is adopted only if it is shown. */
  function RegroupDetails(r: Row): (d: Details)
    ensures d.signature == SignatureOf(r)
  {
    Normalized(r.details, if r.output.Some? && r.output == r.pointer then r.output else None)
  }

  /** What a regrouping makes of one current row that should show `frame`. */
  function RegroupRow(r: Row, frame: nat, discover: bool, now: Time): Row {
    var n := RegroupDetails(r);
    if n.signature.None? then
      if discover && r.status == Ready && FRAME_ZERO in n.variants then
        Requeued(r, now).(details := n.(desired := Some(FRAME_ZERO)))
      else r.(details := n)
    else
      var n' := n.(desired := Some(frame));
      var moved := frame != DesiredFrame(r.details);
      if r.status == Running || (r.status != Ready && !moved) then r.(details := n')
      else if frame in n.variants then
        var shown := Showing(r, n.variants[frame]).(details := n', pointer := Some(n.variants[frame]));
        shown.(updatedAt := if Showing(r, n.variants[frame]) == r then r.updatedAt else now)
      else if moved then Requeued(r, now).(details := n')
      else r.(details := n')
  }

  /** The frame chosen for a signed current task: by the graph, or incrementally after a
      publication. */
  ghost function Choice(rows: Rows, changed: Option<Id>, t: Id): nat
    requires t in rows
  {
    var sigs := CurrentSignatures(rows);
    if changed.Some? && changed.value in sigs && t != changed.value then
      if Sim(sigs, changed.value, t) then FALLBACK_FRAME else DesiredFrame(rows[t].details)
    else Wanted(sigs, t)
  }

  ghost function Regrouped(rows: Rows, discover: bool, changed: Option<Id>, now: Time): Rows {
    map t | t in rows :: if rows[t].current then RegroupRow(rows[t], Choice(rows, changed, t), discover, now) else rows[t]
  }

  // ----- the transactions

  datatype Source = Good | Gone | Mismatched

  predicate Due(at: Option<Time>, now: Time) { at.None? || at.value <= now }

  predicate Eligible(r: Row, now: Time) {
    (r.status == Queued && Due(r.nextAttempt, now)) || (r.status == Running && r.leaseUntil.Some? && r.leaseUntil.value <= now)
  }

  function FailedRow(r: Row, why: Failure, now: Time): Row {
    r.(status := Failed, lease := None, leaseUntil := None, failure := Some(why), updatedAt := now)
  }

  function ClaimRefusal(r: Row, deleted: bool, source: Source, cfg: Config): Option<Failure> {
    if deleted then Some(ProjectDeleted)
    else if r.attempts >= cfg.maxAttempts then Some(AttemptsExhausted)
    else if source == Gone then Some(SourceMissing)
    else if source == Mismatched then Some(SourceMismatch)
    else if !r.current then Some(VersionNotCurrent)
    else None
  }

  function ClaimedRow(r: Row, lease: Lease, now: Time, cfg: Config): Row {
    r.(status := Running, attempts := r.attempts + 1, nextAttempt := None, lease := Some(lease),
       leaseUntil := Some(now + cfg.leaseSeconds), failure := None, updatedAt := now)
  }

  function ClaimOf(t: Id, r: Row): Claim {
    Claim(t, DesiredFrame(r.details), SignatureOf(r))
  }

  predicate Holds(r: Row, lease: Lease, now: Time) {
    r.status == Running && r.lease == Some(lease) && r.leaseUntil.Some? && now < r.leaseUntil.value
  }

  /** The row after publishing the file of a claim, before any regrouping. A worker repeats
      the signature its claim carries and captures one only if there was none. */
  function PublishedRow(r: Row, c: Claim, captured: string, now: Time): Row {
    var n := Normalized(r.details, r.output);
    var variants := n.variants[c.frame := OutputId(c.task, c.frame)];
    var signature := if c.signature.Some? then c.signature else Some(captured);
    var n' := Details(signature, variants, n.desired);
    if n.desired.value in variants then
      var f := variants[n.desired.value];
      Showing(r, f).(details := n', pointer := Some(f), updatedAt := now)
    else Requeued(r, now).(details := n')
  }

  function FailureRow(r: Row, code: string, retryable: bool, now: Time, cfg: Config): Row {
    var retry := retryable && r.attempts < cfg.maxAttempts;
    r.(status := if retry then Queued else Failed, nextAttempt := if retry then Some(now + cfg.retryDelay) else None,
       lease := None, leaseUntil := None, failure := Some(Reported(code)), updatedAt := now)
  }

  /** A ready row whose shown file is found missing. */
  predicate Broken(r: Row, missing: bool) {
    r.status == Ready && r.pointer.Some? && r.output == r.pointer && missing
  }

  function RepairedRow(r: Row, now: Time): Row {
    r.(status := Queued, attempts := 0, nextAttempt := Some(now), lease := None, leaseUntil := None,
       failure := Some(ArtifactMissing), updatedAt := now)
  }

  // ----- steps

  datatype State = State(rows: Rows, deleted: bool, claims: map<Lease, Claim>, next: Lease)

  datatype Op =
    | Take(task: Id, source: Source)
    | Renew(lease: Lease)
    | Publish(lease: Lease, captured: string, conflict: bool)
    | Report(lease: Lease, code: string, retryable: bool)
    | Upload(retired: set<Id>, added: Id)
    | Remove(gone: set<Id>)
    | Enqueue(added: Id)
    | DeleteProject(purge: bool)
    | Repair(task: Id, missing: bool)

  ghost function ApplyTake(s: State, t: Id, source: Source, now: Time, cfg: Config): State {
    if t !in s.rows || !Eligible(s.rows[t], now) then s
    else
      var r := s.rows[t];
      var refusal := ClaimRefusal(r, s.deleted, source, cfg);
      if refusal == Some(ProjectDeleted) then s.(rows := s.rows[t := FailedRow(r, ProjectDeleted, now).(nextAttempt := None)])
      else if refusal.Some? then s.(rows := s.rows[t := FailedRow(r, refusal.value, now)])
      else s.(rows := s.rows[t := ClaimedRow(r, s.next, now, cfg)], claims := s.claims[s.next := ClaimOf(t, r)], next := s.next + 1)
  }

  /** The worker of `lease` may write: its task still runs under that unexpired lease. */
  predicate MayWrite(s: State, lease: Lease, now: Time) {
    lease in s.claims && s.claims[lease].task in s.rows && Holds(s.rows[s.claims[lease].task], lease, now)
  }

  predicate MayPublish(s: State, lease: Lease, now: Time) {
    MayWrite(s, lease, now) && !s.deleted && s.rows[s.claims[lease].task].current
  }

  /** The file of the claim is shown already. */
  predicate AlreadyShown(s: State, lease: Lease) {
    && lease in s.claims && s.claims[lease].task in s.rows && !s.deleted
    && s.rows[s.claims[lease].task].status == Ready
    && s.rows[s.claims[lease].task].output == Some(OutputId(s.claims[lease].task, s.claims[lease].frame))
  }

  ghost function ApplyPublish(s: State, lease: Lease, captured: string, now: Time): State
    requires MayPublish(s, lease, now)
  {
    var c := s.claims[lease];
    var rows := s.rows[c.task := PublishedRow(s.rows[c.task], c, captured, now)];
    s.(rows := if c.frame == FRAME_ZERO then Regrouped(rows, true, Some(c.task), now) else rows)
  }

  ghost function Apply(s: State, op: Op, now: Time, cfg: Config): State {
    match op
    case Take(t, source) => ApplyTake(s, t, source, now, cfg)
    case Renew(lease) =>
      if MayPublish(s, lease, now) then
        var t := s.claims[lease].task;
        s.(rows := s.rows[t := s.rows[t].(leaseUntil := Some(now + cfg.leaseSeconds), updatedAt := now)])
      else s
    case Publish(lease, captured, conflict) =>
      if MayPublish(s, lease, now) && !conflict then ApplyPublish(s, lease, captured, now) else s
    case Report(lease, code, retryable) =>
      if MayWrite(s, lease, now) then
        var t := s.claims[lease].task;
        s.(rows := s.rows[t := FailureRow(s.rows[t], code, retryable, now, cfg)])
      else s
    case Upload(retired, added) =>
      if s.deleted || added in s.rows then s
      else
        var switched := map t | t in s.rows :: if t in retired then s.rows[t].(current := false) else s.rows[t];
        s.(rows := Regrouped(switched[added := NewRow(now)], false, None, now))
    case Remove(gone) =>
      if s.deleted then s else s.(rows := Regrouped(s.rows - gone, false, None, now))
    case Enqueue(added) =>
      if s.deleted || added in s.rows then s else s.(rows := s.rows[added := NewRow(now)])
    case DeleteProject(purge) => s.(deleted := true, rows := if purge then map[] else s.rows)
    case Repair(t, missing) =>
      if t in s.rows && Broken(s.rows[t], missing) then s.(rows := s.rows[t := RepairedRow(s.rows[t], now)]) else s
  }

  // ----- the same, as updates of an object

  class Project {
    const cfg: Config
    var rows: Rows
    var deleted: bool
    var claims: map<Lease, Claim>
    var next: Lease

    constructor (cfg: Config, rows: Rows)
      ensures this.cfg == cfg && Now() == State(rows, false, map[], 0)
    {
      this.cfg, this.rows, deleted, claims, next := cfg, rows, false, map[], 0;
    }

    ghost function Now(): State
      reads this
    {
      State(rows, deleted, claims, next)
    }

    /** `_claim_task` on one candidate. */
    method ClaimTask(t: Id, source: Source, now: Time) returns (claim: Option<Claim>)
      modifies this
      ensures Now() == Apply(old(Now()), Take(t, source), now, cfg)
      ensures claim.Some? ==> t in rows && rows[t].status == Running && rows[t].lease == Some(old(next)) && claims == old(claims)[old(next) := claim.value]
      ensures claim.None? ==> claims == old(claims)
      ensures claim.Some? <==> t in old(rows) && Eligible(old(rows)[t], now) && ClaimRefusal(old(rows)[t], old(deleted), source, cfg).None?
    {
      claim := None;
      if t !in rows || !Eligible(rows[t], now) {
        return;
      }
      var r := rows[t];
      var refusal := ClaimRefusal(r, deleted, source, cfg);
      if refusal.Some? {
        r := r.(status := Failed, lease := None, leaseUntil := None, failure := refusal, updatedAt := now);
        if refusal.value == ProjectDeleted {
          r := r.(nextAttempt := None);
        }
        rows := rows[t := r];
        return;
      }
      claim := Some(Claim(t, DesiredFrame(r.details), NormalSignature(r.details.signature)));
      r := r.(status := Running, attempts := r.attempts + 1, nextAttempt := None, lease := Some(next));
      r := r.(leaseUntil := Some(now + cfg.leaseSeconds), failure := None, updatedAt := now);
      rows := rows[t := r];
      claims := claims[next := claim.value];
      next := next + 1;
    }

    /** `_renew_lease` */
    method RenewLease(lease: Lease, now: Time) returns (ok: bool)
      modifies this
      ensures Now() == Apply(old(Now()), Renew(lease), now, cfg)
      ensures ok <==> MayPublish(old(Now()), lease, now)
    {
      ok := MayPublish(State(rows, deleted, claims, next), lease, now);
      if ok {
        var t := claims[lease].task;
        rows := rows[t := rows[t].(leaseUntil := Some(now + cfg.leaseSeconds), updatedAt := now)];
      }
    }

    /** `_publish_database`; `conflict` is a file row that disagrees with the new file. */
    method PublishDatabase(lease: Lease, captured: string, conflict: bool, now: Time) returns (status: Option<Status>)
      modifies this
      ensures Now() == Apply(old(Now()), Publish(lease, captured, conflict), now, cfg)
      ensures status.Some? <==> AlreadyShown(old(Now()), lease) || (MayPublish(old(Now()), lease, now) && !conflict)
      ensures status.Some? ==> lease in claims && claims[lease].task in rows && rows[claims[lease].task].status == status.value
    {
      status := None;
      if lease !in claims || claims[lease].task !in rows || deleted {
        return;
      }
      var c := claims[lease];
      var r := rows[c.task];
      if r.status == Ready && r.output == Some(OutputId(c.task, c.frame)) {
        return Some(Ready);
      }
      if !Holds(r, lease, now) || !r.current || conflict {
        return;
      }
      var details := Normalized(r.details, r.output);
      var variants := details.variants[c.frame := OutputId(c.task, c.frame)];
      details := details.(variants := variants, signature := if c.signature.Some? then c.signature else Some(captured));
      if details.desired.value in variants {
        var file := variants[details.desired.value];
        r := r.(status := Ready, output := Some(file), nextAttempt := None, pointer := Some(file));
      } else {
        r := r.(status := Queued, attempts := 0, nextAttempt := None);
      }
      r := r.(details := details, lease := None, leaseUntil := None, failure := None, updatedAt := now);
      rows := rows[c.task := r];
      if c.frame == FRAME_ZERO {
        Regroup(true, Some(c.task), now);
      }
      status := Some(rows[c.task].status);
    }

    /** `_record_failure` */
    method RecordFailure(lease: Lease, code: string, retryable: bool, now: Time)
      modifies this
      ensures Now() == Apply(old(Now()), Report(lease, code, retryable), now, cfg)
    {
      if lease in claims && claims[lease].task in rows && Holds(rows[claims[lease].task], lease, now) {
        var t := claims[lease].task;
        var r := rows[t];
        var retry := retryable && r.attempts < cfg.maxAttempts;
        r := r.(status := if retry then Queued else Failed, nextAttempt := if retry then Some(now + cfg.retryDelay) else None);
        r := r.(lease := None, leaseUntil := None, failure := Some(Reported(code)), updatedAt := now);
        rows := rows[t := r];
      }
    }

    /** The version switch of `upload_review_version`, with its regrouping. */
    method UploadVersion(retired: set<Id>, added: Id, now: Time) returns (ok: bool)
      requires added !in rows
      modifies this
      ensures Now() == Apply(old(Now()), Upload(retired, added), now, cfg) && ok == !old(deleted)
    {
      ok := !deleted;
      if deleted {
        return;
      }
      var switched := map t | t in rows :: if t in retired then rows[t].(current := false) else rows[t];
      rows := switched[added := NewRow(now)];
      Regroup(false, None, now);
    }

    /** `requeue_missing_ready_derivative`; `missing` says that the shown file is not there. */
    method RequeueMissing(t: Id, missing: bool, now: Time) returns (requeued: bool)
      modifies this
      ensures Now() == Apply(old(Now()), Repair(t, missing), now, cfg)
      ensures requeued <==> t in old(rows) && Broken(old(rows)[t], missing)
    {
      requeued := false;
      if t !in rows || rows[t].status != Ready || rows[t].pointer.None? || rows[t].output != rows[t].pointer || !missing {
        return;
      }
      var r := rows[t].(status := Queued, attempts := 0, nextAttempt := Some(now), lease := None, leaseUntil := None);
      rows := rows[t := r.(failure := Some(ArtifactMissing), updatedAt := now)];
      requeued := true;
    }

    /** The end of `delete_review_item`: the item's rows go and the rest is regrouped. */
    method DeleteItem(gone: set<Id>, now: Time) returns (ok: bool)
      modifies this
      ensures Now() == Apply(old(Now()), Remove(gone), now, cfg) && ok == !old(deleted)
    {
      ok := !deleted;
      if ok {
        rows := rows - gone;
        Regroup(false, None, now);
      }
    }

    /** `reconcile_project_thumbnail_groups` */
    method Regroup(discover: bool, changed: Option<Id>, now: Time)
      modifies this`rows
      ensures rows == Regrouped(old(rows), discover, changed, now)
    {
      hide Applied, RegroupDetails, NormalSignature, Regrouped, Choice, RegroupRow;
      var details := map t | t in rows && rows[t].current :: RegroupDetails(rows[t]);
      var desired := DesiredFrames(rows, changed);
      var updates: map<Id, FileId> := map[];
      var todo := details.Keys;
      ghost var goal := Regrouped(rows, discover, changed, now);
      NothingApplied(rows, discover, changed, now);
      while todo != {}
        invariant todo <= details.Keys && Applied(rows, updates, old(rows), goal, todo)
        decreases todo
      {
        var t :| t in todo;
        Untouched(rows, updates, old(rows), discover, changed, now, todo, t);
        var r, update := ApplyChoice(rows[t], details[t], if t in desired then Some(desired[t]) else None, Choice(old(rows), changed, t), discover, now);
        ApplyNext(rows, updates, old(rows), goal, todo, t, r, update);
        rows := rows[t := r];
        if update.Some? {
          updates := updates[t := update.value];
        }
        todo := todo - {t};
      }
      AllApplied(rows, updates, old(rows), goal);
      rows := map t | t in rows :: WithUpdate(rows[t], updates, t);
    }
  }

  /** The apply loop in progress: the tasks in `todo` are as before, the others have reached
      their goal but for the pending pointer updates. */
  ghost predicate Applied(rows: Rows, updates: map<Id, FileId>, before: Rows, goal: Rows, todo: set<Id>) {
    && rows.Keys == before.Keys == goal.Keys && todo <= rows.Keys
    && (forall t :: t in todo ==> rows[t] == before[t] && t !in updates)
    && (forall t :: t in rows && t !in todo ==> WithUpdate(rows[t], updates, t) == goal[t])
  }

  lemma NothingApplied(rows: Rows, discover: bool, changed: Option<Id>, now: Time)
    ensures Applied(rows, map[], rows, Regrouped(rows, discover, changed, now), set t | t in rows && rows[t].current)
  {
    hide RegroupRow, Choice;
  }

  lemma Untouched(rows: Rows, updates: map<Id, FileId>, before: Rows, discover: bool, changed: Option<Id>, now: Time, todo: set<Id>, t: Id)
    requires t in before && before[t].current && t in todo && Applied(rows, updates, before, Regrouped(before, discover, changed, now), todo)
    ensures t in rows && rows[t] == before[t] && t in Regrouped(before, discover, changed, now)
    ensures Regrouped(before, discover, changed, now)[t] == RegroupRow(before[t], Choice(before, changed, t), discover, now)
    ensures t in CurrentSignatures(before) <==> SignatureOf(before[t]).Some?
  {
    hide RegroupRow, Choice, SignatureOf;
  }

  lemma ApplyNext(rows: Rows, updates: map<Id, FileId>, before: Rows, goal: Rows, todo: set<Id>, t: Id, r: Row, update: Option<FileId>)
    requires t in todo && Applied(rows, updates, before, goal, todo)
    requires t in goal && goal[t] == if update.Some? then r.(pointer := update) else r
    ensures Applied(rows[t := r], if update.Some? then updates[t := update.value] else updates, before, goal, todo - {t})
  {
  }

  lemma AllApplied(rows: Rows, updates: map<Id, FileId>, before: Rows, goal: Rows)
    requires Applied(rows, updates, before, goal, {})
    ensures (map t | t in rows :: WithUpdate(rows[t], updates, t)) == goal
  {
  }

  function WithUpdate(r: Row, updates: map<Id, FileId>, t: Id): Row {
    if t in updates then r.(pointer := Some(updates[t])) else r
  }

  /** The frame of every signed current task, incrementally or by a full rebuild. */
  method DesiredFrames(rows: Rows, changed: Option<Id>) returns (desired: map<Id, nat>)
    ensures forall t :: t in CurrentSignatures(rows) ==> t in rows && t in desired && desired[t] == Choice(rows, changed, t)
  {
    hide Wanted, Sim, NormalSignature, DesiredFrame;
    var sigs := CurrentSignatures(rows);
    if changed.Some? && changed.value in sigs {
      var stored := map t | t in rows && rows[t].current :: DesiredFrame(rows[t].details);
      desired := Incremental(stored, sigs, changed.value);
    } else {
      desired := FullRebuild(sigs);
    }
  }

  /** The body of the apply loop, for one task; `update` is its entry in `version_updates`. */
  method ApplyChoice(task: Row, normal: Details, desired: Option<nat>, ghost frame: nat, discover: bool, now: Time)
    returns (r: Row, update: Option<FileId>)
    requires normal == RegroupDetails(task) && (normal.signature.Some? ==> desired == Some(frame))
    ensures (if update.Some? then r.(pointer := update) else r) == RegroupRow(task, frame, discover, now)
  {
    r, update := task, None;
    if normal.signature.None? {
      r := r.(details := normal);
      if discover && task.status == Ready && FRAME_ZERO in normal.variants {
        r := Requeued(r, now).(details := normal.(desired := Some(FRAME_ZERO)));
      }
      return;
    }
    var moved := desired.value != normal.desired.value;
    r := r.(details := normal.(desired := desired));
    if desired.value in normal.variants && r.status != Running && (r.status == Ready || moved) {
      var file := normal.variants[desired.value];
      if r.status != Ready || r.output != Some(file) || r.nextAttempt.Some? || r.lease.Some? || r.leaseUntil.Some? || r.failure.Some? {
        r := Showing(r, file).(updatedAt := now);
      }
      if task.pointer != Some(file) {
        update := Some(file);
      }
    } else if desired.value !in normal.variants && moved && r.status != Running {
      r := Requeued(r, now);
    }
  }
}
