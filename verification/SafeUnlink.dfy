/** `PinnedRegularFile.unlink`, its link-back rollback, and the recovery of one
    quarantine entry by `recover_delete_quarantines`.

    A `Store` holds the original name, the quarantine entry and the change times of the
    inodes. Before each of its steps a call consults `script`: another process may
    meanwhile have put a new file at the original name (taking it over if it was in
    use), and the step may go ahead, fail with an error or not happen because the
    process is killed. A script may be anything, so what is proved holds for every crash
    point, every failing step and every such interference. The quarantine directory is
    private: nobody else changes it, and the bytes of an inode do not change. */
module SafeUnlink {
  import opened Wrappers

  /** An inode: its number and everything about it that stays the same. */
  datatype Inode = Inode(number: nat, mtime: nat, size: nat, content: nat)

  /** `_delete_identity_fingerprint`: an injective digest of size and bytes. */
  datatype Fingerprint = Fingerprint(size: nat, content: nat)

  function FingerprintOf(i: Inode): Fingerprint {
    Fingerprint(i.size, i.content)
  }

  datatype State = Prepared | Moved

  datatype Manifest = Manifest(schema: nat, state: State, number: nat, ctime: nat, mtime: nat, size: nat,
                               fingerprint: Fingerprint)

  /** A manifest file: created empty, then written. */
  datatype Document = Torn | Whole(manifest: Manifest)

  datatype Entry = Entry(manifest: Option<Document>, next: Option<Document>, target: Option<Inode>)

  const EMPTY_ENTRY := Entry(None, None, None)

  datatype View = View(original: Option<Inode>, entry: Option<Entry>, ctime: map<Inode, nat>)

  datatype Verdict = Proceed | Fail | Die

  datatype Fate = Fate(arrival: Option<(Inode, nat)>, verdict: Verdict, ctime: nat)

  /** What `pin_regular_file` recorded. */
  datatype Pinned = Pinned(number: nat, ctime: nat, mtime: nat, size: nat)

  /** Everything the pin recorded is true of the file. */
  predicate Describes(pinned: Pinned, file: Inode) {
    pinned.number == file.number && pinned.mtime == file.mtime && pinned.size == file.size
  }

  /** A transition of the store: a step of the code, or the arrival of another file. */
  datatype Transition = Transition(pre: View, post: View, own: bool)

  predicate Known(v: View, i: Option<Inode>) {
    i.Some? ==> i.value in v.ctime
  }

  function Target(v: View): Option<Inode> {
    if v.entry.Some? then v.entry.value.target else None
  }

  predicate HasName(v: View, i: Inode) {
    v.original == Some(i) || Target(v) == Some(i)
  }

  /** The identity test of recovery, by schema and state. */
  predicate MatchesIdentity(m: Manifest, i: Inode, ctime: nat) {
    && m.number == i.number && m.size == i.size
    && (m.schema != 1 ==> m.mtime == i.mtime && (m.state == Prepared || m.ctime == ctime))
    && (m.schema == 1 ==> m.ctime == ctime)
    && (m.schema == 3 ==> m.fingerprint == FingerprintOf(i))
  }

  /** The state of a manifest: schema 1 knew only `moved`. */
  function StateOf(m: Manifest): State {
    if m.schema == 1 then Moved else m.state
  }

  /** A whole `moved` manifest is in place and it describes inode `i` as it is. */
  predicate DeletionJournaled(v: View, i: Inode) {
    && v.entry.Some? && v.entry.value.manifest.Some? && v.entry.value.manifest.value.Whole?
    && StateOf(v.entry.value.manifest.value.manifest) == Moved
    && i in v.ctime && MatchesIdentity(v.entry.value.manifest.value.manifest, i, v.ctime[i])
  }

  /** A step of the code takes the last name of a file only by unlinking the target
      under a `moved` manifest that describes that file, or when the file had been given
      its own name back before and someone else has taken that name since. */
  ghost predicate LegalStep(pre: View, post: View, restored: set<Inode>) {
    forall i :: HasName(pre, i) && !HasName(post, i) ==>
      Target(pre) == Some(i) && (DeletionJournaled(pre, i) || i in restored)
  }

  /** A step that drops the target does so under a manifest that describes it. */
  ghost predicate JournaledUnlink(pre: View, post: View) {
    Target(pre).Some? && Target(post) != Target(pre) ==> DeletionJournaled(pre, Target(pre).value)
  }

  /** An entry that recovery, undisturbed, resolves: its manifest is whole, of a schema
      it knows, matches the target if there is one, and, if it must first be promoted,
      no `manifest.next` is in the way. */
  predicate Recoverable(v: View) {
    && v.entry.Some? && v.entry.value.manifest.Some? && v.entry.value.manifest.value.Whole?
    && var m := v.entry.value.manifest.value.manifest;
    && 1 <= m.schema <= 3 && (StateOf(m) == Prepared ==> m.schema == 3)
    && (Target(v).Some? ==>
          && Target(v).value in v.ctime && MatchesIdentity(m, Target(v).value, v.ctime[Target(v).value])
          && (StateOf(m) == Prepared ==> v.entry.value.next.None?))
  }

  /** The target is in quarantine under a `prepared` manifest. */
  predicate AwaitsPromotion(v: View) {
    && v.entry.Some? && v.entry.value.manifest.Some? && v.entry.value.manifest.value.Whole?
    && StateOf(v.entry.value.manifest.value.manifest) == Prepared && Target(v).Some?
  }

  /** ... and a `manifest.next` is in the way of recovery's exclusive create. */
  predicate Wedged(v: View) {
    AwaitsPromotion(v) && v.entry.value.next.Some?
  }

  /** A whole schema-3 manifest is in place and it describes inode `i` as it is. */
  predicate Journaled(v: View, i: Inode) {
    && v.entry.Some? && v.entry.value.manifest.Some? && v.entry.value.manifest.value.Whole?
    && var m := v.entry.value.manifest.value.manifest;
    m.schema == 3 && i in v.ctime && MatchesIdentity(m, i, v.ctime[i])
  }

  /** A file that is only in quarantine is journaled there. */
  predicate Sound(v: View, i: Inode) {
    v.original.None? && Target(v) == Some(i) ==> Journaled(v, i)
  }

  // ----- scripts

  ghost predicate AllProceed(script: seq<Fate>) {
    forall i :: 0 <= i < |script| ==> script[i].verdict == Proceed
  }

  ghost predicate ProceedsFor(script: seq<Fate>, n: nat) {
    n <= |script| && forall i :: 0 <= i < n ==> script[i].verdict == Proceed
  }

  /** No crash, and at most one step fails. */
  ghost predicate OneFailure(script: seq<Fate>) {
    && (forall i :: 0 <= i < |script| ==> script[i].verdict != Die)
    && (forall i, j :: 0 <= i < j < |script| && script[i].verdict == Fail ==> script[j].verdict == Proceed)
  }

  ghost predicate NoArrivals(script: seq<Fate>) {
    forall i :: 0 <= i < |script| ==> script[i].arrival.None?
  }

  /** What becomes of the next step; an exhausted script lets everything proceed. */
  function Verdict0(script: seq<Fate>): Verdict {
    if script == [] then Proceed else script[0].verdict
  }

  function Rest(script: seq<Fate>): seq<Fate> {
    if script == [] then [] else script[1..]
  }

  // ----- the history of a store

  /** The log leads from `start` to `end` without a hole. */
  ghost predicate Contiguous(start: View, log: seq<Transition>, end: View) {
    if log == [] then end == start
    else
      && log[0].pre == start && log[|log| - 1].post == end
      && forall k :: 0 <= k < |log| - 1 ==> log[k].post == log[k + 1].pre
  }

  ghost predicate TransitionOk(t: Transition, restored: set<Inode>, quiet: bool) {
    if t.own then LegalStep(t.pre, t.post, restored) && (quiet ==> LegalStep(t.pre, t.post, {}))
    else !quiet && t.post.entry == t.pre.entry
  }

  /** A history: without a hole, every step of the code legal, and in a quiet one also
      without the excuse of a name that was given back and taken over. */
  ghost predicate LogOk(start: View, log: seq<Transition>, end: View, restored: set<Inode>, quiet: bool) {
    Contiguous(start, log, end) && forall k :: 0 <= k < |log| ==> TransitionOk(log[k], restored, quiet)
  }

  lemma NoHistory(start: View, end: View, restored: set<Inode>, quiet: bool)
    requires LogOk(start, [], end, restored, quiet)
    ensures end == start
  {
  }

  lemma LogSnoc(start: View, log: seq<Transition>, end: View, restored: set<Inode>, quiet: bool, t: Transition)
    requires LogOk(start, log, end, restored, quiet) && t.pre == end && TransitionOk(t, restored, quiet)
    ensures LogOk(start, log + [t], t.post, restored, quiet)
  {
    hide LegalStep;
  }

  lemma LogRestore(start: View, log: seq<Transition>, end: View, restored: set<Inode>, quiet: bool, i: Inode)
    requires LogOk(start, log, end, restored, quiet)
    ensures LogOk(start, log, end, restored + {i}, quiet)
  {
    forall k | 0 <= k < |log| ensures TransitionOk(log[k], restored + {i}, quiet) {
      assert TransitionOk(log[k], restored, quiet);
    }
  }

  /** The file's last name was its target, and it went under a `moved` manifest for it. */
  ghost predicate DroppedBy(t: Transition, i: Inode) {
    t.own && Target(t.pre) == Some(i) && DeletionJournaled(t.pre, i) && !HasName(t.post, i)
  }

  ghost predicate ProperlyDeleted(log: seq<Transition>, i: Inode) {
    exists k :: 0 <= k < |log| && DroppedBy(log[k], i)
  }

  /** The only file a step may delete is `victim`. */
  ghost predicate Spares(t: Transition, victim: Option<Inode>) {
    Target(t.pre).Some? && DroppedBy(t, Target(t.pre).value) ==> Target(t.pre) == victim
  }

  ghost predicate SparesOthers(log: seq<Transition>, victim: Option<Inode>) {
    forall k :: 0 <= k < |log| ==> Spares(log[k], victim)
  }

  lemma OnlyVictimDeleted(log: seq<Transition>, victim: Option<Inode>, i: Inode)
    requires SparesOthers(log, victim) && ProperlyDeleted(log, i)
    ensures victim == Some(i)
  {
    var k :| 0 <= k < |log| && DroppedBy(log[k], i);
    assert Spares(log[k], victim);
  }

  /** A file in quarantine under a `moved` manifest is the victim. */
  predicate Aimed(v: View, victim: Option<Inode>) {
    && v.entry.Some? && v.entry.value.manifest.Some? && v.entry.value.manifest.value.Whole?
    && StateOf(v.entry.value.manifest.value.manifest) == Moved && Target(v).Some? ==>
      Target(v) == victim
  }

  /** Through a quiet history a file keeps a name, until it is properly deleted. */
  lemma {:induction false} NameKept(start: View, log: seq<Transition>, end: View, restored: set<Inode>, i: Inode)
    requires LogOk(start, log, end, restored, true) && HasName(start, i)
    ensures HasName(end, i) || ProperlyDeleted(log, i)
  {
    if log != [] {
      var n := |log| - 1;
      assert LogOk(start, log[..n], log[n].pre, restored, true) by { LogInit(start, log, end, restored, true); }
      NameKept(start, log[..n], log[n].pre, restored, i);
      assert TransitionOk(log[n], restored, true);
      if ProperlyDeleted(log[..n], i) {
        var k :| 0 <= k < n && DroppedBy(log[..n][k], i);
        assert DroppedBy(log[k], i);
      } else if !HasName(end, i) {
        assert DroppedBy(log[n], i);
      }
    }
  }

  lemma LogInit(start: View, log: seq<Transition>, end: View, restored: set<Inode>, quiet: bool)
    requires LogOk(start, log, end, restored, quiet) && log != []
    ensures LogOk(start, log[..|log| - 1], log[|log| - 1].pre, restored, quiet)
  {
    hide TransitionOk;
    var n := |log| - 1;
    if n > 0 {
      assert log[n - 1].post == log[n - 1 + 1].pre;
    }
  }

  class Store {
    var v: View
    var script: seq<Fate>
    var moved: bool  // the `moved` flag of `unlink`
    var open: bool   // `quarantine_fd` is open

    ghost const start: View
    ghost const quiet: bool  // nobody else uses the original name
    ghost var restored: set<Inode>
    ghost var victim: Option<Inode>  // the file this call is to delete, once that is known
    ghost var steps: seq<Transition>

    /** The steps are the whole history from `start` to the present, and each is legal. */
    ghost predicate Valid()
      reads this
    {
      && Known(v, v.original) && Known(v, Target(v))
      && LogOk(start, steps, v, restored, quiet) && SparesOthers(steps, victim)
      && (quiet ==> NoArrivals(script))
    }

    constructor (v: View, script: seq<Fate>)
      requires Known(v, v.original) && Known(v, Target(v))
      ensures Valid() && this.v == v && this.script == script && steps == [] && restored == {} && victim == None && !moved && !open
      ensures start == v && quiet == NoArrivals(script)
    {
      this.v, this.script, moved, open := v, script, false, false;
      start, restored, victim, steps := v, {}, None, [];
      quiet := NoArrivals(script);
    }

    /** How the script bears on where a piece of the code stopped. */
    twostate predicate Fated<T>(new r: Result<T>)
      reads this
    {
      && (AllProceed(old(script)) ==> r.Ok? && AllProceed(script))
      && (OneFailure(old(script)) ==>
            OneFailure(script) && !(r.Stopped? && r.why.Crashed?) && (r.Stopped? ==> AllProceed(script)))
    }

    /** What the rest of the world, and fate, do before the next step. Only the original
        name can change hands, and only to a file that did not exist before. */
    method Tick() returns (r: Result<nat>)
      requires Valid()
      modifies this`v, this`script, this`steps
      ensures Valid() && Fated(r) && script == Rest(old(script)) && old(steps) <= steps
      ensures r.Ok? <==> Verdict0(old(script)) == Proceed
      ensures r == Stopped(Crashed) <==> Verdict0(old(script)) == Die
      ensures v.entry == old(v.entry)
      ensures forall i :: i in old(v.ctime) ==> i in v.ctime && v.ctime[i] == old(v.ctime)[i]
      ensures forall k :: |old(steps)| <= k < |steps| ==> !steps[k].own
      ensures quiet ==> v == old(v) && steps == old(steps)
    {
      hide LogOk;
      if script == [] {
        return Ok(0);
      }
      var fate := script[0];
      script := script[1..];
      if fate.arrival.Some? && fate.arrival.value.0 !in v.ctime {
        var (i, ctime) := fate.arrival.value;
        ghost var t := Transition(v, v.(original := Some(i), ctime := v.ctime[i := ctime]), false);
        LogSnoc(start, steps, v, restored, quiet, t);
        v := v.(original := Some(i), ctime := v.ctime[i := ctime]);
        steps := steps + [t];
      }
      match fate.verdict
      case Proceed => return Ok(fate.ctime);
      case Fail => return Stopped(Raised);
      case Die => return Stopped(Crashed);
    }

    /** One atomic step of the code. */
    method Do(next: View)
      requires Valid() && TransitionOk(Transition(v, next, true), restored, quiet) && Spares(Transition(v, next, true), victim)
      requires Known(next, next.original) && Known(next, Target(next))
      modifies this`v, this`steps
      ensures Valid() && v == next && steps == old(steps) + [Transition(old(v), next, true)]
    {
      hide LogOk, TransitionOk, Spares;
      LogSnoc(start, steps, v, restored, quiet, Transition(v, next, true));
      steps := steps + [Transition(v, next, true)];
      v := next;
    }

    /** The code's own steps left the original name and all change times as they were. */
    twostate predicate OnlyQuarantine()
      reads this
    {
      && old(steps) <= steps
      && (forall i :: i in old(v.ctime) ==> i in v.ctime && v.ctime[i] == old(v.ctime)[i])
      && (quiet ==> v.original == old(v.original) && v.ctime == old(v.ctime))
      && (forall k :: |old(steps)| <= k < |steps| && steps[k].own ==> steps[k].pre.original == steps[k].post.original)
    }

    /** Every step since dropped a target only under a manifest that describes it. */
    twostate predicate Careful()
      reads this
    {
      forall k :: |old(steps)| <= k < |steps| && steps[k].own ==> JournaledUnlink(steps[k].pre, steps[k].post)
    }

    /** The store has been in a state with this entry since. */
    twostate predicate Passed(e: Entry)
      reads this
    {
      exists k :: |old(steps)| <= k < |steps| && steps[k].post.entry == Some(e)
    }

    /** The target stays in the next entry `e`, or it may be dropped: a deletion is
        journaled, or the file has its own name back. */
    ghost predicate MayBecome(e: Option<Entry>)
      reads this
    {
      var target := if e.Some? then e.value.target else None;
      target == Target(v) ||
      (target.None? && (DeletionJournaled(v, Target(v).value) ==> Target(v) == victim) &&
       (DeletionJournaled(v, Target(v).value) || (Target(v).value in restored && (quiet ==> v.original == Target(v)))))
    }

    /** A step that changes nothing but the quarantine entry. */
    method Set(e: Option<Entry>) returns (r: Result<()>)
      requires Valid() && MayBecome(e)
      modifies this`v, this`script, this`steps
      ensures Valid() && OnlyQuarantine() && Fated(r) && script == Rest(old(script))
      ensures r.Ok? <==> Verdict0(old(script)) == Proceed
      ensures r == Stopped(Crashed) <==> Verdict0(old(script)) == Die
      ensures v.entry == if r.Ok? then e else old(v.entry)
      ensures r.Ok? ==> |steps| > |old(steps)| && steps[|steps| - 1].post == v
      ensures old(Target(v).Some? ==> (e.Some? && e.value.target == Target(v)) || DeletionJournaled(v, Target(v).value)) ==>
                Careful()
    {
      hide LogOk, AllProceed, OneFailure;
      var _ :- Tick();
      Do(v.(entry := e));
      return Ok(());
    }

    /** The promotion of the manifest to `moved`, through `manifest.next`. */
    method Promote(m: Manifest) returns (r: Result<()>)
      requires Valid() && v.entry.Some?
      modifies this`v, this`script, this`steps
      ensures Valid() && OnlyQuarantine() && Careful()
      ensures old(v.entry.value.next.Some?) ==> r == Stopped(Raised) && v == old(v) && script == old(script)
      ensures old(v.entry.value.next.None?) ==> Fated(r)
      ensures v.entry.Some? && Target(v) == old(Target(v))
      ensures r.Ok? ==> v.entry == Some(old(v.entry.value).(manifest := Some(Whole(m)), next := None))
      ensures r.Stopped? ==> v.entry.value.manifest == old(v.entry.value.manifest)
      ensures r.Ok? ==> Passed(old(v.entry.value).(next := Some(Torn)))
      ensures old(v.entry.value.next.None?) && Verdict0(old(script)) == Proceed && Verdict0(Rest(old(script))) == Die ==>
                r == Stopped(Crashed) && v.entry == Some(old(v.entry.value).(next := Some(Torn)))
    {
      hide LogOk, AllProceed, OneFailure;
      if v.entry.value.next.Some? {
        return Stopped(Raised);
      }
      var _ :- Set(Some(v.entry.value.(next := Some(Torn))));
      ghost var k := |steps| - 1;
      var _ :- Set(Some(v.entry.value.(next := Some(Whole(m)))));
      r := Set(Some(v.entry.value.(manifest := Some(Whole(m)), next := None)));
      assert steps[k].post.entry == Some(old(v.entry.value).(next := Some(Torn)));
    }

    /** The pinned file is at its name and looks as it did when it was pinned. */
    predicate IsPinned(pinned: Pinned)
      reads this
      requires Known(v, v.original)
    {
      && v.original.Some?
      && v.original.value.number == pinned.number && v.original.value.size == pinned.size
      && v.ctime[v.original.value] == pinned.ctime
    }

    /** Make the entry and write the `prepared` manifest. */
    method JournalIntent(prepared: Manifest) returns (r: Result<()>)
      requires Valid() && v.entry.None? && !open
      modifies this`v, this`script, this`steps, this`open
      ensures Valid() && OnlyQuarantine() && Fated(r)
      ensures Target(v).None? && (open ==> v.entry.Some?)
      ensures r.Ok? ==> open && v.entry == Some(Entry(Some(Whole(prepared)), None, None))
      ensures ProceedsFor(old(script), 4) ==> r.Ok? && script == old(script)[4..]
    {
      hide LogOk, AllProceed, OneFailure;
      var _ :- Set(Some(EMPTY_ENTRY));
      var _ :- Tick();
      open := true;
      var _ :- Set(Some(EMPTY_ENTRY.(manifest := Some(Torn))));
      r := Set(Some(EMPTY_ENTRY.(manifest := Some(Whole(prepared)))));
    }

    /** The first part of `unlink`: journal the intent, then move whatever is at the
        original name by then. */
    method Quarantine(pinned: Pinned, file: Inode) returns (r: Result<()>)
      requires Valid() && v.entry.None? && !moved && !open && file in v.ctime
      modifies this`v, this`script, this`steps, this`open, this`moved
      ensures Valid() && old(steps) <= steps
      ensures quiet && old(v.original.Some?) ==> Fated(r)
      ensures moved <==> r.Ok?
      ensures r.Ok? ==> v.original.None? && open && AwaitsPromotion(v) && v.entry.value.next.None?
      ensures r.Ok? && quiet ==> old(v.original) == Target(v)
      ensures r.Ok? && quiet && Target(v) == Some(file) && Describes(pinned, file) ==> Journaled(v, file)
      ensures r.Stopped? ==> Target(v).None? && (open ==> v.entry.Some?)
      ensures r.Stopped? && quiet ==> v.original == old(v.original)
      ensures quiet && old(v.original.Some?) && ProceedsFor(old(script), 5) ==> r.Ok? && script == old(script)[5..]
    {
      hide LogOk, AllProceed, OneFailure;
      var _ :- JournalIntent(Manifest(3, Prepared, pinned.number, pinned.ctime, pinned.mtime, pinned.size, FingerprintOf(file)));
      var ctime :- Tick();
      if v.original.None? {
        return Stopped(Raised);
      }
      var i := v.original.value;
      Do(View(None, Some(v.entry.value.(target := Some(i))), v.ctime[i := ctime]));
      moved := true;
      return Ok(());
    }

    /** The second part: check that the moved file is the pinned one, promote the
        manifest, unlink. */
    method Finish(file: Inode) returns (r: Result<bool>)
      requires Valid() && moved && open && v.entry.Some? && v.entry.value.next.None? && v.entry.value.target.Some?
      requires victim == Some(file) && Aimed(v, victim)
      modifies this`v, this`script, this`steps, this`open, this`moved
      ensures Valid() && old(steps) <= steps
      ensures old(Target(v)) == Some(file) ==> Fated(r)
      ensures r.Ok? ==> Passed(old(v.entry.value).(next := Some(Torn)))
      ensures r.Ok? ==> r.value && v.entry.None?
      ensures moved ==> open && v.entry.Some? && Target(v) == old(Target(v)) && r.Stopped? && Aimed(v, victim)
      ensures !moved ==> Target(v).None?
      ensures open ==> v.entry.Some?
      ensures quiet ==> v.original == old(v.original)
      ensures quiet && old(Journaled(v, file)) && moved && Target(v) == Some(file) ==> Journaled(v, file)
      ensures old(Target(v)) == Some(file) && Verdict0(old(script)) == Proceed && Verdict0(Rest(old(script))) == Die ==>
                r == Stopped(Crashed) && v.entry == Some(old(v.entry.value).(next := Some(Torn)))
    {
      hide LogOk, AllProceed, OneFailure;
      var i := v.entry.value.target.value;
      if i != file || FingerprintOf(i) != FingerprintOf(file) {
        return Stopped(Raised);
      }
      var _ :- Promote(Manifest(3, Moved, i.number, v.ctime[i], i.mtime, i.size, FingerprintOf(file)));
      var _ :- Set(Some(v.entry.value.(target := None)));
      moved := false;
      r := CloseEntry();
    }

    /** The end of a successful `unlink`: the manifest, then the entry. */
    method CloseEntry() returns (r: Result<bool>)
      requires Valid() && v.entry.Some? && Target(v).None?
      modifies this`v, this`script, this`steps, this`open
      ensures Valid() && OnlyQuarantine() && Fated(r)
      ensures r.Ok? ==> r.value && v.entry.None?
      ensures Target(v).None? && (open ==> v.entry.Some?)
    {
      hide LogOk, AllProceed, OneFailure;
      var _ :- Set(Some(v.entry.value.(manifest := None)));
      open := false;
      var _ :- Set(None);
      return Ok(true);
    }

    /** Link the target back to the original name and unlink it in quarantine, unless
        that name is taken or the link fails: at every moment the file has a name. */
    method LinkBack() returns (r: Result<()>)
      requires Valid() && moved && open && Target(v).Some? && Aimed(v, victim)
      modifies this`v, this`script, this`steps, this`moved, this`restored
      ensures Valid() && old(steps) <= steps
      ensures v.entry.Some? && (moved <==> Target(v).Some?)
      ensures AllProceed(old(script)) ==> r.Ok? && AllProceed(script)
      ensures quiet && old(v.original.None?) && AllProceed(old(script)) ==> !moved && v.original == old(Target(v))
      ensures quiet ==> HasName(v, old(Target(v)).value) && (v.original == old(v.original) || v.original == old(Target(v)))
      ensures quiet && old(v.original.None?) && v.original.None? ==> v == old(v)
    {
      hide LogOk, AllProceed, OneFailure;
      var ctime := Tick();
      if ctime.Stopped? {
        return if ctime.why.Crashed? then Stopped(Crashed) else Ok(());
      }
      if v.original.Some? {
        return Ok(());
      }
      var i := Target(v).value;
      Do(v.(original := Some(i), ctime := v.ctime[i := ctime.value]));
      LogRestore(start, steps, v, restored, quiet, i);
      restored := restored + {i};
      r := Set(Some(v.entry.value.(target := None)));
      moved := r.Stopped?;
    }

    /** Remove what is left of the entry; a failing `rmdir` is ignored. */
    method ClearEntry() returns (r: Result<()>)
      requires Valid() && v.entry.Some? && Target(v).None?
      modifies this`v, this`script, this`steps
      ensures Valid() && OnlyQuarantine() && Target(v).None?
      ensures AllProceed(old(script)) ==> r.Ok? && v.entry.None?
    {
      hide LogOk, AllProceed, OneFailure;
      if v.entry.value.manifest.Some? {
        var _ :- Set(Some(v.entry.value.(manifest := None)));
      }
      if v.entry.value.next.Some? {
        var _ :- Set(Some(v.entry.value.(next := None)));
      }
      r := Set(None);
      if r == Stopped(Raised) {
        r := Ok(());
      }
    }

    /** The error path of `unlink`. */
    method Rollback() returns (r: Result<()>)
      requires Valid() && (open ==> v.entry.Some?) && (if moved then open && Target(v).Some? && Aimed(v, victim) else Target(v).None?)
      modifies this`v, this`script, this`steps, this`moved, this`restored
      ensures Valid() && old(steps) <= steps
      ensures quiet && old(v.original.None?) && AllProceed(old(script)) && old(moved) ==>
                v.original == old(Target(v)) && v.entry.None?
      ensures quiet && !old(moved) ==> v.original == old(v.original) && Target(v).None?
      ensures quiet && old(moved) ==> v.original == old(v.original) || v.original == old(Target(v))
      ensures AllProceed(old(script)) ==> r.Ok? && (!old(moved) ==> v.entry == if old(open) then None else old(v.entry))
      ensures quiet && old(moved) && old(v.original.None?) && v.original.None? ==> v == old(v)
    {
      hide LogOk, AllProceed, OneFailure;
      if moved {
        var _ :- LinkBack();
        if !moved {
          var _ :- Set(Some(v.entry.value.(manifest := None)));
        }
      }
      if !moved && open {
        var _ :- ClearEntry();
      }
      return Ok(());
    }

    /** `PinnedRegularFile.unlink` on a file that was pinned as `pinned`. At every point
        where it can stop, if nobody else uses the name, the file has a name or was
        unlinked under a `moved` manifest for it; and if it is only in quarantine, a
        manifest there describes it. With at most one failing step the file is deleted or
        back at its name. Every success passes through a wedged state, and a process
        killed there stays in it. */
    method Unlink(pinned: Pinned) returns (r: Result<bool>)
      requires Valid() && v.entry.None? && !moved && !open && steps == [] && victim == None
      modifies this
      ensures Valid()
      ensures forall i :: ProperlyDeleted(steps, i) ==> i.number == pinned.number && i.size == pinned.size
      ensures quiet ==> forall f :: HasName(old(v), f) ==> HasName(v, f) || ProperlyDeleted(steps, f)
      ensures quiet && old(v.original).Some? && Describes(pinned, old(v.original).value) ==> Sound(v, old(v.original).value)
      ensures quiet ==> v.original == old(v.original) || v.original.None?
      ensures quiet && old(v.original).Some? ==>
                var f := old(v.original).value;
                var agrees := f.number == pinned.number && f.size == pinned.size && old(v).ctime[f] == pinned.ctime;
                && (!agrees ==> r.Stopped? && v == old(v) && steps == [])
                && (AllProceed(old(script)) && agrees ==> r == Ok(true))
      ensures quiet && AllProceed(old(script)) ==> (r == Ok(false) <==> old(v.original).None?)
      ensures r == Ok(true) ==> v.entry.None? && (quiet ==> v.original.None?)
      ensures quiet && OneFailure(old(script)) ==> v.original == old(v.original) || (v.original.None? && Target(v).None?)
      ensures quiet && OneFailure(old(script)) && v.original == old(v.original) ==> Target(v).None?
      ensures r == Ok(true) ==> exists k :: 0 <= k < |steps| && Wedged(steps[k].post)
      ensures quiet && old(IsPinned(pinned)) && ProceedsFor(old(script), 7) && |old(script)| > 7 && old(script)[7].verdict == Die ==>
                r == Stopped(Crashed) && Wedged(v) && Target(v) == old(v.original)
    {
      hide LogOk, AllProceed, OneFailure;
      r := Attempt(pinned);
      forall i | ProperlyDeleted(steps, i) ensures i.number == pinned.number && i.size == pinned.size {
        OnlyVictimDeleted(steps, victim, i);
      }
      if quiet {
        forall f | HasName(old(v), f) ensures HasName(v, f) || ProperlyDeleted(steps, f) {
          NameKept(start, steps, v, restored, f);
        }
      }
    }

    /** The body of `unlink`, with its error path. */
    method Attempt(pinned: Pinned) returns (r: Result<bool>)
      requires Valid() && v.entry.None? && !moved && !open && steps == [] && victim == None
      modifies this
      ensures Valid() && old(v) == start
      ensures victim.Some? ==> victim.value.number == pinned.number && victim.value.size == pinned.size
      ensures quiet && old(v.original).Some? && Describes(pinned, old(v.original).value) ==> Sound(v, old(v.original).value)
      ensures quiet ==> v.original == old(v.original) || v.original.None?
      ensures quiet && old(v.original).Some? ==>
                var f := old(v.original).value;
                var agrees := f.number == pinned.number && f.size == pinned.size && old(v).ctime[f] == pinned.ctime;
                && (!agrees ==> r.Stopped? && v == old(v) && steps == [])
                && (AllProceed(old(script)) && agrees ==> r == Ok(true))
      ensures quiet && AllProceed(old(script)) ==> (r == Ok(false) <==> old(v.original).None?)
      ensures r == Ok(true) ==> v.entry.None? && (quiet ==> v.original.None?)
      ensures quiet && OneFailure(old(script)) ==> v.original == old(v.original) || (v.original.None? && Target(v).None?)
      ensures quiet && OneFailure(old(script)) && v.original == old(v.original) ==> Target(v).None?
      ensures r == Ok(true) ==> exists k :: 0 <= k < |steps| && Wedged(steps[k].post)
      ensures quiet && old(IsPinned(pinned)) && ProceedsFor(old(script), 7) && |old(script)| > 7 && old(script)[7].verdict == Die ==>
                r == Stopped(Crashed) && Wedged(v) && Target(v) == old(v.original)
    {
      NoHistory(start, v, restored, quiet);
      hide LogOk, AllProceed, OneFailure, Journaled, Wedged;
      var _ :- Tick();
      if v.original.None? {
        return Ok(false);
      }
      if !IsPinned(pinned) {
        return Stopped(Raised);
      }
      victim := v.original;
      r := MoveAndDelete(pinned, v.original.value);
      if r == Stopped(Raised) {
        var _ :- Rollback();
        return Stopped(Raised);
      }
    }

    /** The body of `unlink` up to its error path. */
    method MoveAndDelete(pinned: Pinned, file: Inode) returns (r: Result<bool>)
      requires Valid() && v.entry.None? && !moved && !open && v.original == Some(file) && victim == Some(file)
      modifies this`v, this`script, this`steps, this`open, this`moved
      ensures Valid() && (open ==> v.entry.Some?)
      ensures if moved then open && Target(v).Some? && r.Stopped? && Aimed(v, victim) else Target(v).None?
      ensures quiet ==> Fated(r) && if moved then v.original.None? && Target(v) == Some(file) else v.original in {Some(file), None}
      ensures quiet && moved && Describes(pinned, file) ==> Journaled(v, file)
      ensures r.Ok? ==> r.value && v.entry.None? && (quiet ==> v.original.None?)
      ensures r.Ok? ==> exists k :: 0 <= k < |steps| && Wedged(steps[k].post)
      ensures quiet && ProceedsFor(old(script), 6) && |old(script)| > 6 && old(script)[6].verdict == Die ==>
                r == Stopped(Crashed) && Wedged(v) && Target(v) == Some(file)
    {
      hide LogOk, AllProceed, OneFailure;
      var q := Quarantine(pinned, file);
      if q.Stopped? {
        return Stopped(q.why);
      }
      ghost var wedged := v.entry.value.(next := Some(Torn));
      r := Finish(file);
      if r.Ok? {
        ghost var k :| 0 <= k < |steps| && steps[k].post.entry == Some(wedged);
        assert Wedged(steps[k].post);
      }
    }

    /** Recovery's treatment of a target that matches: promote if needed, unlink. */
    method DropTarget(m: Manifest) returns (r: Result<()>)
      requires Valid() && Recoverable(v) && v.entry.value.manifest.value.manifest == m && Target(v).Some? && victim == Target(v)
      modifies this`v, this`script, this`steps
      ensures Valid() && OnlyQuarantine() && Careful() && Fated(r)
      ensures r.Ok? ==> v.entry.Some? && v.entry.value.manifest.Some? && Target(v).None?
    {
      hide LogOk, AllProceed, OneFailure;
      var i := Target(v).value;
      if StateOf(m) == Prepared {
        var _ :- Promote(Manifest(3, Moved, i.number, v.ctime[i], i.mtime, i.size, m.fingerprint));
      }
      r := Set(Some(v.entry.value.(target := None)));
    }

    /** The tail of a recovery: `manifest.next`, the manifest, the entry. */
    method DropEntry() returns (r: Result<()>)
      requires Valid() && v.entry.Some? && Target(v).None?
      modifies this`v, this`script, this`steps
      ensures Valid() && OnlyQuarantine() && Careful() && Fated(r)
      ensures r.Ok? ==> v.entry.None?
    {
      hide LogOk, AllProceed, OneFailure;
      if v.entry.value.next.Some? {
        var _ :- Set(Some(v.entry.value.(next := None)));
      }
      var _ :- Set(Some(v.entry.value.(manifest := None)));
      r := Set(None);
    }

    /** Recovery of the entry; `Ok(false)` passes over an empty one. It never touches the
        original name, drops a target only under a `moved` manifest that describes it,
        and, when none of its steps fails, resolves exactly the recoverable entries. */
    method Recover() returns (r: Result<bool>)
      requires Valid() && v.entry.Some? && steps == []
      modifies this`v, this`script, this`steps, this`victim
      ensures Valid() && OnlyQuarantine() && Careful()
      ensures r == Ok(true) ==> Recoverable(old(v)) && v.entry.None?
      ensures AllProceed(old(script)) && Recoverable(old(v)) ==> r == Ok(true)
      ensures r == Ok(false) ==> old(v).entry == Some(EMPTY_ENTRY)
      ensures AllProceed(old(script)) && old(v).entry == Some(EMPTY_ENTRY) ==> r == Ok(false)
      ensures !Recoverable(old(v)) ==> v.entry == old(v.entry)
    {
      hide LogOk, AllProceed, OneFailure;
      var _ :- Tick();
      var e := v.entry.value;
      if e.manifest.None? {
        return if e == EMPTY_ENTRY then Ok(false) else Stopped(Raised);
      }
      if e.manifest.value.Torn? {
        return Stopped(Raised);
      }
      var m := e.manifest.value.manifest;
      if !(1 <= m.schema <= 3) || (StateOf(m) == Prepared && m.schema != 3) {
        return Stopped(Raised);
      }
      if e.target.Some? {
        if !MatchesIdentity(m, e.target.value, v.ctime[e.target.value]) {
          return Stopped(Raised);
        }
        if StateOf(m) == Prepared && e.next.Some? {
          return Stopped(Raised);  // the exclusive create of `manifest.next` fails
        }
        victim := e.target;
        var _ :- DropTarget(m);
      }
      var _ :- DropEntry();
      return Ok(true);
    }
  }
}
