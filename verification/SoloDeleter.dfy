/** What a process of the concurrent model achieves: alone it ends with the very slice of the
    serial model, and a poisoned package defeats any number of processes. */
module SoloDeleter {
  import opened Wrappers
  import opened PackageJournal
  import opened ConcurrentDeleters

  // ----- a poisoned package

  /** The process has renamed the archive itself and is on its way to unlink it. */
  predicate PastItsRename(pc: Pc) {
    pc.Edit? && (pc.at.CheckMoved? || (pc.at.Journalling? && pc.at.manifest.state == Moved))
  }

  ghost predicate NobodyPastRename(w: World) {
    forall p :: p in w.procs ==> !PastItsRename(w.procs[p])
  }

  /** An edit of a poisoned entry by a process that is not past its own rename does nothing. */
  lemma PoisonedEdit(w: World, e: Entry, at: Point, call: Call)
    requires Journal(w.archive, w.sha, w.rootDevice, Slice(w.canonical, Some(e))) && Knows(w, at, e)
    requires IsPoisoned(w.archive, w.sha, Slice(w.canonical, Some(e))) && !(at.CheckMoved? || (at.Journalling? && at.manifest.state == Moved))
    ensures !at.Rmdir?
    ensures
      var effect := EditEffect(w, e, at, call);
      effect.Some? ==>
        effect.value.canonical == w.canonical && effect.value.entry == e && !(effect.value.next.CheckMoved? || effect.value.next.Journalling?)
  {
  }

  lemma PoisonedEvent(w: World, ev: Event)
    requires Inv(w) && IsPoisoned(w.archive, w.sha, Visible(w)) && NobodyPastRename(w)
    ensures Visible(Apply(w, ev)) == Visible(w) && NobodyPastRename(Apply(w, ev))
  {
    if ev.Run? && ev.pid in w.procs && w.procs[ev.pid].Edit? {
      var fd, at := w.procs[ev.pid].fd, w.procs[ev.pid].at;
      assert ProcOk(w, ev.pid);
      hide Journal, Knows, Inspect;
      PoisonedEdit(w, w.contents[fd], at, ev.call);
      hide EditEffect;
    } else {
      hide Journal, Knows, Inspect, EditEffect;
    }
  }

  /** While a target of unexpected content lies under a `prepared` manifest, and the process
      that put it there is gone, no events of any number of processes ever change the
      package. */
  lemma {:induction false} PoisonedForever(w: World, events: seq<Event>)
    requires Inv(w) && IsPoisoned(w.archive, w.sha, Visible(w)) && NobodyPastRename(w)
    ensures Visible(Runs(w, events)) == Visible(w) && NobodyPastRename(Runs(w, events)) && Inv(Runs(w, events))
  {
    hide Inv, NobodyPastRename, Apply, Visible, IsPoisoned;
    if events != [] {
      var n := |events| - 1;
      PoisonedForever(w, events[..n]);
      PoisonedEvent(Runs(w, events[..n]), events[n]);
      EventKeeps(Runs(w, events[..n]), events[n]);
    }
  }

  // ----- one process, seen without generations and locks

  /** What is fixed: the archive, its expected digest, the device, and the call. */
  datatype Job = Job(archive: File, sha: Digest, rootDevice: nat, call: Call)

  datatype Solo = Solo(slice: Slice, pc: Pc)

  function Bare(j: Job, canonical: Option<File>): World {
    World(j.archive, j.sha, j.rootDevice, canonical, None, map[], map[], 0, map[])
  }

  function SoloEdit(j: Job, s: Slice, at: Point): Solo {
    if s.entry.None? then Solo(s, Done)
    else if at.Rmdir? then
      if s.entry.value == EMPTY_ENTRY then Solo(s.(entry := None), Unnamed(0, at.rec)) else Solo(s, Done)
    else
      var effect := EditEffect(Bare(j, s.canonical), s.entry.value, at, j.call);
      if effect.None? then Solo(s, Done)
      else Solo(Slice(effect.value.canonical, Some(effect.value.entry)), Edit(0, effect.value.next))
  }

  function SoloStep(j: Job, c: Solo): Solo {
    var made := Solo(c.slice.(entry := Some(EMPTY_ENTRY)), Opening(false));
    match c.pc
    case Start => if c.slice.entry.None? then made else c.(pc := Opening(true))
    case Opening(pre) => c.(pc := if c.slice.entry.None? then Done else Opened(pre, 0))
    case Opened(pre, _) => c.(pc := Locked(pre, 0))
    case Locked(pre, _) => c.(pc := Edit(0, if pre then ReadEntry else StatCanonical))
    case Edit(_, at) => SoloEdit(j, c.slice, at)
    case Unnamed(_, rec) => c.(pc := if rec then Remaking else Done)
    case Remaking => if c.slice.entry.None? then made else c.(pc := Done)
    case Done => c
  }

  function Forget(pc: Pc): Pc {
    match pc
    case Opened(pre, _) => Opened(pre, 0)
    case Locked(pre, _) => Locked(pre, 0)
    case Edit(_, at) => Edit(0, at)
    case Unnamed(_, rec) => Unnamed(0, rec)
    case _ => pc
  }

  /** All other processes have ended, and what `p` has opened is what the name stands for. */
  ghost predicate Alone(w: World, p: Pid) {
    && Inv(w) && p in w.procs
    && (forall q :: q in w.procs && q != p ==> w.procs[q] == Done)
    && (w.procs[p].Opened? || w.procs[p].Locked? ==> w.named == Some(w.procs[p].fd))
  }

  ghost predicate For(j: Job, w: World) {
    w.archive == j.archive && w.sha == j.sha && w.rootDevice == j.rootDevice
  }

  function Abstract(w: World, p: Pid): Solo
    requires p in w.procs
  {
    Solo(Visible(w), Forget(w.procs[p]))
  }

  lemma SameEffect(j: Job, w: World, e: Entry, at: Point)
    requires For(j, w)
    ensures EditEffect(w, e, at, j.call) == EditEffect(Bare(j, w.canonical), e, at, j.call)
  {
    hide Inspect;
  }

  /** Nobody else holds a lock. */
  lemma OthersHoldNothing(w: World, p: Pid, g: Gen)
    requires Alone(w, p) && g in w.lock
    ensures w.lock[g] == p && Holds(w.procs[p]) == Some(g)
  {
    hide Journal, Knows;
    assert ProcOk(w, w.lock[g]);
  }

  /** One step of the concurrent machine is one step of the solo machine. */
  lemma StepIsSolo(j: Job, w: World, p: Pid)
    requires Alone(w, p) && For(j, w)
    ensures
      var w' := Apply(w, Run(p, j.call));
      Alone(w', p) && For(j, w') && Abstract(w', p) == SoloStep(j, Abstract(w, p))
  {
    hide Inv, Apply;
    if w.procs[p].Edit? {
      EditIsSolo(j, w, p);
    } else {
      WalkIsSolo(j, w, p);
    }
  }

  lemma WalkIsSolo(j: Job, w: World, p: Pid)
    requires Alone(w, p) && For(j, w) && !w.procs[p].Edit?
    ensures
      var w' := Apply(w, Run(p, j.call));
      Alone(w', p) && For(j, w') && Abstract(w', p) == SoloStep(j, Abstract(w, p))
  {
    if w.procs[p].Opened? && w.procs[p].fd in w.lock {
      OthersHoldNothing(w, p, w.procs[p].fd);
    }
    NamedExists(w);
    KeepsInv(w, p, j.call);
    hide Inv;
    WalkStep(j, w, p);
    hide Apply, SoloStep, Abstract;
  }

  lemma KeepsInv(w: World, p: Pid, call: Call)
    requires Inv(w)
    ensures Inv(Apply(w, Run(p, call)))
  {
    hide Inv, Apply, LegalStep;
    EventKeeps(w, Run(p, call));
  }

  lemma NamedExists(w: World)
    requires Inv(w)
    ensures w.named.Some? ==> w.named.value in w.contents
  {
    hide ProcOk, Journal;
  }

  /** A step outside the editing section, apart from the invariant. */
  lemma WalkStep(j: Job, w: World, p: Pid)
    requires p in w.procs && !w.procs[p].Edit? && For(j, w) && (w.named.Some? ==> w.named.value in w.contents)
    requires w.procs[p].Opened? || w.procs[p].Locked? ==> w.named == Some(w.procs[p].fd)
    requires w.procs[p].Opened? ==> w.procs[p].fd !in w.lock
    ensures
      var w' := Apply(w, Run(p, j.call));
      && For(j, w') && p in w'.procs && w'.procs.Keys == w.procs.Keys
      && (forall q :: q in w.procs && q != p ==> w'.procs[q] == w.procs[q])
      && (w'.procs[p].Opened? || w'.procs[p].Locked? ==> w'.named == Some(w'.procs[p].fd))
      && Abstract(w', p) == SoloStep(j, Abstract(w, p))
  {
    hide EditStep, SoloEdit;
  }

  lemma EditIsSolo(j: Job, w: World, p: Pid)
    requires Alone(w, p) && For(j, w) && w.procs[p].Edit?
    ensures
      var w' := Apply(w, Run(p, j.call));
      Alone(w', p) && For(j, w') && Abstract(w', p) == SoloStep(j, Abstract(w, p))
  {
    var fd, at := w.procs[p].fd, w.procs[p].at;
    EventKeeps(w, Run(p, j.call));
    assert ProcOk(w, p);
    SameEffect(j, w, w.contents[fd], at);
    hide Inv, LegalStep, EditEffect, Journal;
  }

  // ----- where the solo machine goes

  ghost function SoloRun(j: Job, c: Solo, n: nat): Solo
    decreases n
  {
    if n == 0 then c else SoloRun(j, SoloStep(j, c), n - 1)
  }

  ghost predicate Reaches(j: Job, c: Solo, d: Solo) {
    exists n: nat :: SoloRun(j, c, n) == d
  }

  lemma Arrived(j: Job, c: Solo)
    ensures Reaches(j, c, c)
  {
    assert SoloRun(j, c, 0) == c;
  }

  lemma Via(j: Job, c: Solo, d: Solo)
    requires Reaches(j, SoloStep(j, c), d)
    ensures Reaches(j, c, d)
  {
    var n: nat :| SoloRun(j, SoloStep(j, c), n) == d;
    assert SoloRun(j, c, n + 1) == d;
  }

  lemma {:induction false} ReachesOn(j: Job, c: Solo, d: Solo, e: Solo)
    requires Reaches(j, c, d) && Reaches(j, d, e)
    ensures Reaches(j, c, e)
  {
    var n: nat :| SoloRun(j, c, n) == d;
    RunOn(j, c, d, e, n);
  }

  lemma {:induction false} RunOn(j: Job, c: Solo, d: Solo, e: Solo, n: nat)
    requires SoloRun(j, c, n) == d && Reaches(j, d, e)
    ensures Reaches(j, c, e)
    decreases n
  {
    if n > 0 {
      RunOn(j, SoloStep(j, c), d, e, n - 1);
      Via(j, c, e);
    }
  }

  function At(canonical: Option<File>, e: Entry, at: Point): Solo {
    Solo(Slice(canonical, Some(e)), Edit(0, at))
  }

  /** Removing an empty entry. */
  lemma Closing(j: Job, canonical: Option<File>, rec: bool)
    ensures Reaches(j, At(canonical, EMPTY_ENTRY, CheckEmpty(rec)), Solo(Slice(canonical, None), if rec then Remaking else Done))
  {
    hide Reaches;
    var end := Solo(Slice(canonical, None), if rec then Remaking else Done);
    Arrived(j, end);
    Via(j, Solo(Slice(canonical, None), Unnamed(0, rec)), end);
    Via(j, At(canonical, EMPTY_ENTRY, Rmdir(rec)), end);
    Via(j, At(canonical, EMPTY_ENTRY, CheckEmpty(rec)), end);
  }

  /** From the directory operations to the editing section. */
  lemma Entering(j: Job, s: Slice, pre: bool)
    requires s.entry.Some?
    ensures Reaches(j, Solo(s, Opening(pre)), Solo(s, Edit(0, if pre then ReadEntry else StatCanonical)))
  {
    hide Reaches;
    var end := Solo(s, Edit(0, if pre then ReadEntry else StatCanonical));
    Arrived(j, end);
    Via(j, Solo(s, Locked(pre, 0)), end);
    Via(j, Solo(s, Opened(pre, 0)), end);
    Via(j, Solo(s, Opening(pre)), end);
  }

  /** Writing a manifest, from the exclusive create on. */
  lemma Writing(j: Job, canonical: Option<File>, e: Entry, m: Manifest, rec: bool, d: Solo)
    requires e.next.None?
    requires Reaches(j, At(canonical, e.(manifest := Some(m)), if m.state == Prepared then Rename else UnlinkTarget(rec)), d)
    ensures Reaches(j, At(canonical, e, Journalling(CreateNext, m, rec)), d)
  {
    hide Reaches;
    Via(j, At(canonical, e.(next := Some(Complete(m))), Journalling(Swap, m, rec)), d);
    Via(j, At(canonical, e.(next := Some(Partial)), Journalling(WriteNext, m, rec)), d);
    Via(j, At(canonical, e, Journalling(CreateNext, m, rec)), d);
  }

  lemma Rewriting(j: Job, canonical: Option<File>, e: Entry, m: Manifest, rec: bool, d: Solo)
    requires m.state == Moved && Reaches(j, At(canonical, e.(manifest := Some(m), next := None), UnlinkTarget(rec)), d)
    ensures Reaches(j, At(canonical, e, Journalling(ClearNext, m, rec)), d)
  {
    hide Reaches;
    Writing(j, canonical, e.(next := None), m, rec, d);
    Via(j, At(canonical, e, Journalling(ClearNext, m, rec)), d);
  }

  /** A process past its own rename, left alone, deletes the archive whatever its content. */
  lemma PastRenameFinishes(j: Job, e: Entry)
    requires e.target.Some? && SingleLink(e.target.value.stat, j.rootDevice)
    ensures Reaches(j, At(None, e, CheckMoved), Solo(GONE, Done))
  {
    hide Reaches;
    var end := Solo(GONE, Done);
    var m := Manifest(Moved, j.call.claim, j.sha, e.target.value.stat);
    var moved := e.(manifest := Some(m), next := None);
    Closing(j, None, false);
    Via(j, At(None, moved.(target := None), DropManifest(false)), end);
    Via(j, At(None, moved.(target := None), CheckCanonical), end);
    Via(j, At(None, moved, UnlinkTarget(false)), end);
    Rewriting(j, None, e, m, false, end);
    Via(j, At(None, e, CheckMoved), end);
  }

  /** The delete proper, from an empty entry. */
  lemma Deleting(j: Job, canonical: Option<File>)
    requires canonical.None? || canonical == Some(j.archive)
    ensures Reaches(j, At(canonical, EMPTY_ENTRY, StatCanonical),
                    Solo(Final(j.archive, j.sha, j.rootDevice, Slice(canonical, None), j.call), Done))
  {
    hide Reaches;
    var end := Solo(Final(j.archive, j.sha, j.rootDevice, Slice(canonical, None), j.call), Done);
    var start := At(canonical, EMPTY_ENTRY, StatCanonical);
    if canonical.None? {
      Closing(j, None, false);
    } else if SingleLink(j.archive.stat, j.rootDevice) && MatchesCaptured(j.archive.stat, j.call.captured) {
      var m := Manifest(Prepared, j.call.claim, j.sha, j.archive.stat);
      var prepared := EMPTY_ENTRY.(manifest := Some(m));
      PastRenameFinishes(j, prepared.(target := Some(Renamed(j.archive, j.call.renameCtime))));
      Via(j, At(canonical, prepared, Rename), end);
      Writing(j, canonical, EMPTY_ENTRY, m, false, end);
    } else {
      Arrived(j, end);
    }
    Via(j, start, end);
  }

  lemma Remade(j: Job, canonical: Option<File>)
    requires canonical.None? || canonical == Some(j.archive)
    ensures Reaches(j, Solo(Slice(canonical, None), Remaking),
                    Solo(Final(j.archive, j.sha, j.rootDevice, Slice(canonical, None), j.call), Done))
  {
    hide Reaches, Final;
    var s := Slice(canonical, Some(EMPTY_ENTRY));
    var end := Solo(Final(j.archive, j.sha, j.rootDevice, Slice(canonical, None), j.call), Done);
    Deleting(j, canonical);
    Entering(j, s, false);
    ReachesOn(j, Solo(s, Opening(false)), At(canonical, EMPTY_ENTRY, StatCanonical), end);
    Via(j, Solo(Slice(canonical, None), Remaking), end);
  }

  /** Dropping a journal without a target. */
  lemma Dropping(j: Job, canonical: Option<File>, e: Entry)
    requires e.target.None?
    ensures Reaches(j, At(canonical, e, DropNext), Solo(Slice(canonical, None), Remaking))
  {
    hide Reaches;
    var end := Solo(Slice(canonical, None), Remaking);
    Closing(j, canonical, true);
    Via(j, At(canonical, e.(next := None), DropManifest(true)), end);
    Via(j, At(canonical, e, DropNext), end);
  }

  lemma Unlinking(j: Job, canonical: Option<File>, e: Entry)
    ensures Reaches(j, At(canonical, e, UnlinkTarget(true)), Solo(Slice(canonical, None), Remaking))
  {
    hide Reaches;
    Dropping(j, canonical, e.(target := None));
    Via(j, At(canonical, e, UnlinkTarget(true)), Solo(Slice(canonical, None), Remaking));
  }

  /** Recovery: a poisoned entry stops the process, any other one is cleared away. */
  lemma Recovering(j: Job, s: Slice)
    requires Journal(j.archive, j.sha, j.rootDevice, s) && s.entry.Some?
    ensures Reaches(j, Solo(s, Edit(0, ReadEntry)),
                    if IsPoisoned(j.archive, j.sha, s) then Solo(s, Done) else Solo(Slice(s.canonical, None), Remaking))
  {
    hide Reaches;
    var e := s.entry.value;
    var end := Solo(Slice(s.canonical, None), Remaking);
    var start := Solo(s, Edit(0, ReadEntry));
    match Inspect(s.canonical, e, j.sha, j.rootDevice) {
      case Unrecoverable =>
        assert IsPoisoned(j.archive, j.sha, s);
        Arrived(j, Solo(s, Done));
      case StrayNext =>
        Closing(j, s.canonical, true);
        Via(j, At(s.canonical, e, ClearStray), end);
      case EmptyDirectory =>
        Closing(j, s.canonical, true);
      case NoTarget(_) =>
        Dropping(j, s.canonical, e);
      case HasTarget(promote) =>
        if promote {
          var m := Manifest(Moved, j.call.claim, j.sha, e.target.value.stat);
          Unlinking(j, s.canonical, e.(manifest := Some(m), next := None));
          Rewriting(j, s.canonical, e, m, true, end);
        } else {
          Unlinking(j, s.canonical, e);
        }
    }
    Via(j, start, if IsPoisoned(j.archive, j.sha, s) then Solo(s, Done) else end);
  }

  /** From any journaled slice the solo machine ends with the slice of the serial model. */
  lemma SoloEnds(j: Job, s: Slice)
    requires Journal(j.archive, j.sha, j.rootDevice, s)
    ensures Reaches(j, Solo(s, Start), Solo(Final(j.archive, j.sha, j.rootDevice, s, j.call), Done))
  {
    hide Reaches;
    var end := Solo(Final(j.archive, j.sha, j.rootDevice, s, j.call), Done);
    if s.entry.None? {
      var made := Slice(s.canonical, Some(EMPTY_ENTRY));
      Deleting(j, s.canonical);
      Entering(j, made, false);
      ReachesOn(j, Solo(made, Opening(false)), At(s.canonical, EMPTY_ENTRY, StatCanonical), end);
    } else {
      var cleared := Solo(Slice(s.canonical, None), Remaking);
      Recovering(j, s);
      if !IsPoisoned(j.archive, j.sha, s) {
        Remade(j, s.canonical);
        ReachesOn(j, Solo(s, Edit(0, ReadEntry)), cleared, end);
      }
      Entering(j, s, true);
      ReachesOn(j, Solo(s, Opening(true)), Solo(s, Edit(0, ReadEntry)), end);
    }
    Via(j, Solo(s, Start), end);
  }

  // ----- back to the concurrent machine

  function Repeat(p: Pid, call: Call, n: nat): seq<Event> {
    seq(n, _ => Run(p, call))
  }

  lemma {:induction false} RunsFrom(w: World, ev: Event, events: seq<Event>)
    ensures Runs(w, [ev] + events) == Runs(Apply(w, ev), events)
    decreases |events|
  {
    hide Apply;
    var all := [ev] + events;
    if events == [] {
      assert all[..0] == [] && Runs(w, all[..0]) == w;
    } else {
      var n := |events| - 1;
      assert all[..|all| - 1] == [ev] + events[..n];
      RunsFrom(w, ev, events[..n]);
    }
  }

  lemma {:induction false} RunsAreSolo(j: Job, w: World, p: Pid, n: nat)
    requires Alone(w, p) && For(j, w)
    ensures
      var w' := Runs(w, Repeat(p, j.call, n));
      Alone(w', p) && Abstract(w', p) == SoloRun(j, Abstract(w, p), n)
    decreases n
  {
    hide Alone, Apply, SoloStep, Abstract;
    AloneHas(w, p);
    if n == 0 {
      assert Repeat(p, j.call, 0) == [];
    } else {
      var w1 := Apply(w, Run(p, j.call));
      StepIsSolo(j, w, p);
      RunsAreSolo(j, w1, p, n - 1);
      assert Repeat(p, j.call, n) == [Run(p, j.call)] + Repeat(p, j.call, n - 1);
      RunsFrom(w, Run(p, j.call), Repeat(p, j.call, n - 1));
    }
  }

  lemma AloneHas(w: World, p: Pid)
    requires Alone(w, p)
    ensures p in w.procs
  {
  }

  /** Whatever any number of processes have left, one process spawned alone and run long
      enough ends, and the package is then the very slice that the serial delete leaves. */
  lemma AloneItEnds(w: World, p: Pid, call: Call) returns (n: nat)
    requires Inv(w) && p !in w.procs && forall q :: q in w.procs ==> w.procs[q] == Done
    ensures
      var w' := Runs(w, [Spawn(p)] + Repeat(p, call, n));
      && p in w'.procs && w'.procs[p] == Done
      && Visible(w') == Final(w.archive, w.sha, w.rootDevice, Visible(w), call)
  {
    var j := Job(w.archive, w.sha, w.rootDevice, call);
    var w1 := Apply(w, Spawn(p));
    EventKeeps(w, Spawn(p));
    hide Inv, Final, Journal, LegalStep, SoloRun;
    assert Abstract(w1, p) == Solo(Visible(w), Start);
    JournalOf(w);
    SoloEnds(j, Visible(w));
    n :| SoloRun(j, Solo(Visible(w), Start), n) == Solo(Final(j.archive, j.sha, j.rootDevice, Visible(w), call), Done);
    RunsAreSolo(j, w1, p, n);
    RunsFrom(w, Spawn(p), Repeat(p, call, n));
    ForgetDone(Runs(w1, Repeat(p, call, n)), p);
  }

  /** The one process that is not stopped by unexpected content is the one that renamed the
      archive: if it is still there and left alone, it deletes it. So a poisoned package stays
      as it is exactly when that process is gone. */
  lemma ItsMakerFinishes(w: World, p: Pid, call: Call) returns (n: nat)
    requires Alone(w, p) && w.procs[p].Edit? && w.procs[p].at == CheckMoved
    ensures Visible(Runs(w, Repeat(p, call, n))) == GONE
  {
    var j := Job(w.archive, w.sha, w.rootDevice, call);
    assert ProcOk(w, p);
    var e := w.contents[w.procs[p].fd];
    JournalOf(w);
    assert Abstract(w, p) == At(None, e, CheckMoved) && e.target.Some?;
    assert SingleLink(e.target.value.stat, w.rootDevice);
    hide Inv, Journal, SoloRun, SoloStep;
    PastRenameFinishes(j, e);
    n :| SoloRun(j, At(None, e, CheckMoved), n) == Solo(GONE, Done);
    RunsAreSolo(j, w, p, n);
  }

  lemma JournalOf(w: World)
    requires Inv(w)
    ensures Journal(w.archive, w.sha, w.rootDevice, Visible(w))
  {
    hide Journal, ProcOk;
  }

  lemma ForgetDone(w: World, p: Pid)
    requires Alone(w, p) && Abstract(w, p).pc == Done
    ensures w.procs[p] == Done
  {
  }
}
