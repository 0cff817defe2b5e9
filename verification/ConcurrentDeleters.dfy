/** Any number of processes running `delete_claimed_package_artifact` for one package
    at the same time, each of which may be killed between any two steps.

    A quarantine entry is a directory; each `mkdir` makes a new generation of it. A
    process opens the name, takes the non-blocking exclusive `flock` of what it opened
    and then checks that its descriptor is still the generation the name stands for.
    From there on it edits that directory and the canonical name, one step at a time. */
module ConcurrentDeleters {
  import opened Wrappers
  import opened PackageJournal

  type Pid = nat
  type Gen = nat

  /** How far a manifest has been written. */
  datatype Stage = ClearNext | CreateNext | WriteNext | Swap

  /** A process's place in the section that edits the journal. `rec` tells the edits of
      `_recover_existing_entry` from those of the delete itself. */
  datatype Point =
    | ReadEntry
    | ClearStray
    | StatCanonical
    | Journalling(stage: Stage, manifest: Manifest, rec: bool)
    | Rename
    | CheckMoved
    | UnlinkTarget(rec: bool)
    | CheckCanonical
    | DropNext
    | DropManifest(rec: bool)
    | CheckEmpty(rec: bool)
    | Rmdir(rec: bool)

  datatype Pc =
    | Start
    | Opening(preexisted: bool)
    | Opened(preexisted: bool, fd: Gen)
    | Locked(preexisted: bool, fd: Gen)
    | Edit(fd: Gen, at: Point)
    | Unnamed(fd: Gen, rec: bool)  // its entry is gone, the descriptor is still open
    | Remaking
    | Done

  datatype World = World(
    archive: File, sha: Digest, rootDevice: nat,
    canonical: Option<File>,
    named: Option<Gen>,           // the generation the entry's name stands for
    contents: map<Gen, Entry>,
    lock: map<Gen, Pid>,
    nextGen: Gen,
    procs: map<Pid, Pc>)

  datatype Event =
    | Spawn(pid: Pid)
    | Kill(pid: Pid)
    | Run(pid: Pid, call: Call)  // one step of `pid`

  function Initial(archive: File, sha: Digest, rootDevice: nat): World {
    World(archive, sha, rootDevice, Some(archive), None, map[], map[], 0, map[])
  }

  /** Steps are about one package: its archive, digest and device are fixed. */
  predicate SamePackage(w: World, w': World) {
    w'.archive == w.archive && w'.sha == w.sha && w'.rootDevice == w.rootDevice
  }

  /** What the package looks like by name. */
  function Visible(w: World): Slice {
    Slice(w.canonical, if w.named.Some? && w.named.value in w.contents then Some(w.contents[w.named.value]) else None)
  }

  /** Closing a descriptor drops its lock. */
  function Close(w: World, pid: Pid, pc: Pc): World {
    w.(lock := map g | g in w.lock && w.lock[g] != pid :: w.lock[g], procs := w.procs[pid := pc])
  }

  function Mkdir(w: World, pid: Pid): World {
    w.(named := Some(w.nextGen), contents := w.contents[w.nextGen := EMPTY_ENTRY],
       nextGen := w.nextGen + 1, procs := w.procs[pid := Opening(false)])
  }

  function AfterRead(w: World, e: Entry, call: Call): Option<Point> {
    match Inspect(w.canonical, e, w.sha, w.rootDevice)
    case Unrecoverable => None
    case StrayNext => Some(ClearStray)
    case EmptyDirectory => Some(CheckEmpty(true))
    case NoTarget(_) => Some(DropNext)
    case HasTarget(promote) =>
      if promote then Some(Journalling(ClearNext, Manifest(Moved, call.claim, w.sha, e.target.value.stat), true))
      else Some(UnlinkTarget(true))
  }

  function AfterStat(w: World, call: Call): Option<Point> {
    if w.canonical.None? then Some(CheckEmpty(false))
    else
      var stat := w.canonical.value.stat;
      if !SingleLink(stat, w.rootDevice) || !MatchesCaptured(stat, call.captured) then None
      else Some(Journalling(CreateNext, Manifest(Prepared, call.claim, w.sha, stat), false))
  }

  /** What one step of the editing section does: the canonical name, the contents of
      the directory behind the descriptor, and where the process goes next. */
  datatype Effect = Effect(canonical: Option<File>, entry: Entry, next: Point)

  function Stay(w: World, e: Entry, at: Option<Point>): Option<Effect> {
    if at.None? then None else Some(Effect(w.canonical, e, at.value))
  }

  /** One step of the editing section on the directory contents `e`; `None` raises. The
      final `rmdir`, which goes through the name instead, is in `EditStep`. */
  function EditEffect(w: World, e: Entry, at: Point, call: Call): Option<Effect> {
    match at
    case ReadEntry => Stay(w, e, AfterRead(w, e, call))
    case ClearStray => Stay(w, e.(next := None), Some(CheckEmpty(true)))
    case StatCanonical => Stay(w, e, AfterStat(w, call))
    case Journalling(ClearNext, m, rec) => Stay(w, e.(next := None), Some(Journalling(CreateNext, m, rec)))
    case Journalling(CreateNext, m, rec) =>
      if e.next.Some? then None
      else Stay(w, e.(next := Some(Partial)), Some(Journalling(WriteNext, m, rec)))
    case Journalling(WriteNext, m, rec) => Stay(w, e.(next := Some(Complete(m))), Some(Journalling(Swap, m, rec)))
    case Journalling(Swap, m, rec) =>
      Stay(w, e.(manifest := Some(m), next := None), Some(if m.state == Prepared then Rename else UnlinkTarget(rec)))
    case Rename =>
      if w.canonical.None? then None
      else Some(Effect(None, e.(target := Some(Renamed(w.canonical.value, call.renameCtime))), CheckMoved))
    case CheckMoved =>
      if e.target.None? || !SingleLink(e.target.value.stat, w.rootDevice) then None
      else Stay(w, e, Some(Journalling(ClearNext, Manifest(Moved, call.claim, w.sha, e.target.value.stat), false)))
    case UnlinkTarget(rec) => Stay(w, e.(target := None), Some(if rec then DropNext else CheckCanonical))
    case CheckCanonical => if w.canonical.Some? then None else Stay(w, e, Some(DropManifest(false)))
    case DropNext => Stay(w, e.(next := None), Some(DropManifest(true)))
    case DropManifest(rec) => Stay(w, e.(manifest := None), Some(CheckEmpty(rec)))
    case CheckEmpty(rec) => if e != EMPTY_ENTRY then None else Stay(w, e, Some(Rmdir(rec)))
    case Rmdir(rec) => None
  }

  function EditStep(w: World, pid: Pid, fd: Gen, at: Point, call: Call): (w': World)
    requires fd in w.contents
    ensures SamePackage(w, w')
  {
    if at.Rmdir? then
      if w.named.None? || w.named.value !in w.contents || w.contents[w.named.value] != EMPTY_ENTRY then Close(w, pid, Done)
      else w.(named := None, procs := w.procs[pid := Unnamed(fd, at.rec)])
    else if at.CheckEmpty? && w.named != Some(fd) then Close(w, pid, Done)
    else
      var effect := EditEffect(w, w.contents[fd], at, call);
      if effect.None? then Close(w, pid, Done) else Edited(w, pid, fd, effect.value)
  }

  function Edited(w: World, pid: Pid, fd: Gen, effect: Effect): World {
    w.(canonical := effect.canonical, contents := w.contents[fd := effect.entry],
       procs := w.procs[pid := Edit(fd, effect.next)])
  }

  function RunStep(w: World, pid: Pid, call: Call): (w': World)
    requires pid in w.procs
    ensures SamePackage(w, w')
  {
    match w.procs[pid]
    case Start =>
      if w.named.None? then Mkdir(w, pid) else w.(procs := w.procs[pid := Opening(true)])
    case Opening(pre) =>
      if w.named.None? then Close(w, pid, Done) else w.(procs := w.procs[pid := Opened(pre, w.named.value)])
    case Opened(pre, fd) =>
      if fd in w.lock then Close(w, pid, Done)
      else w.(lock := w.lock[fd := pid], procs := w.procs[pid := Locked(pre, fd)])
    case Locked(pre, fd) =>
      if w.named != Some(fd) then Close(w, pid, Done)
      else w.(procs := w.procs[pid := Edit(fd, if pre then ReadEntry else StatCanonical)])
    case Edit(fd, at) => if fd in w.contents then EditStep(w, pid, fd, at, call) else Close(w, pid, Done)
    case Unnamed(fd, rec) => Close(w, pid, if rec then Remaking else Done)
    case Remaking => if w.named.None? then Mkdir(w, pid) else Close(w, pid, Done)
    case Done => w
  }

  function Apply(w: World, ev: Event): (w': World)
    ensures SamePackage(w, w')
  {
    match ev
    case Spawn(pid) => if pid in w.procs then w else w.(procs := w.procs[pid := Start])
    case Kill(pid) => if pid in w.procs then Close(w, pid, Done) else w
    case Run(pid, call) => if pid in w.procs then RunStep(w, pid, call) else w
  }

  function Runs(w: World, events: seq<Event>): (w': World)
    ensures SamePackage(w, w')
  {
    if events == [] then w else Apply(Runs(w, events[..|events| - 1]), events[|events| - 1])
  }

  // ----- the invariant

  /** The generation whose lock a process at `pc` holds. */
  function Holds(pc: Pc): Option<Gen> {
    match pc
    case Locked(_, fd) => Some(fd)
    case Edit(fd, _) => Some(fd)
    case Unnamed(fd, _) => Some(fd)
    case _ => None
  }

  /** What the editing process knows about the package at each point. */
  ghost predicate Knows(w: World, at: Point, e: Entry) {
    match at
    case ReadEntry => true
    case StatCanonical => true
    case ClearStray => e.manifest.None?
    case Journalling(stage, m, rec) =>
      && SingleLink(w.archive.stat, w.rootDevice) && m.sha == w.sha && m.identity.nlink == 1
      && (m.state == Prepared ==> !rec && w.canonical == Some(w.archive) && m.identity == w.archive.stat)
      && (m.state == Moved ==> e.manifest.Some? && e.target.Some? && m.identity == e.target.value.stat)
      && (m.state == Moved && rec ==> w.archive.digest == w.sha)
      && (stage == Swap ==> e.next == Some(Complete(m)))
    case Rename => w.canonical == Some(w.archive) && e.manifest.Some?
    case CheckMoved => e.target.Some?
    case UnlinkTarget(rec) => e.target.Some? && e.manifest.Some? && e.manifest.value.state == Moved
    case CheckCanonical => w.canonical.None? && e.manifest.Some? && e.target.None?
    case DropNext => e.manifest.Some? && e.target.None?
    case DropManifest(rec) => e.manifest.Some? && e.target.None?
    case CheckEmpty(rec) => true
    case Rmdir(rec) => e == EMPTY_ENTRY
  }

  ghost predicate ProcOk(w: World, pid: Pid)
    requires pid in w.procs
  {
    var pc := w.procs[pid];
    && (forall g :: g in w.lock && w.lock[g] == pid ==> Holds(pc) == Some(g))
    && (Holds(pc).Some? ==> Holds(pc).value in w.lock && w.lock[Holds(pc).value] == pid)
    && (pc.Opened? || pc.Locked? || pc.Unnamed? ==> pc.fd < w.nextGen)
    && (pc.Unnamed? ==> w.named != Some(pc.fd))
    && (pc.Edit? ==> w.named == Some(pc.fd) && pc.fd in w.contents && Knows(w, pc.at, w.contents[pc.fd]))
  }

  ghost predicate Inv(w: World) {
    && (w.named.Some? ==> w.named.value in w.contents && w.named.value < w.nextGen)
    && (forall g :: g in w.lock ==> w.lock[g] in w.procs)
    && (forall pid :: pid in w.procs ==> ProcOk(w, pid))
    && Journal(w.archive, w.sha, w.rootDevice, Visible(w))
  }

  lemma EditorAlone(w: World, p: Pid, q: Pid)
    requires Inv(w) && p in w.procs && q in w.procs && w.procs[p].Edit? && w.procs[q].Edit?
    ensures p == q
  {
    assert ProcOk(w, p) && ProcOk(w, q);
  }

  lemma CloseKeeps(w: World, pid: Pid, pc: Pc)
    requires Inv(w) && pid in w.procs
    requires pc == Done || pc == Remaking
    ensures Inv(Close(w, pid, pc))
  {
    var w' := Close(w, pid, pc);
    forall q | q in w'.procs ensures ProcOk(w', q) {
      assert q != pid ==> ProcOk(w, q);
    }
  }

  /** The journal argument, free of processes: one edit by a process that knows what its
      place tells it keeps the journal, is legal, and leaves it knowing what it needs. */
  lemma EffectKeepsJournal(w: World, e: Entry, at: Point, call: Call)
    requires Journal(w.archive, w.sha, w.rootDevice, Slice(w.canonical, Some(e)))
    requires Knows(w, at, e)
    ensures
      var effect := EditEffect(w, e, at, call);
      effect.Some? ==>
        var Effect(canonical, e', at') := effect.value;
        && Journal(w.archive, w.sha, w.rootDevice, Slice(canonical, Some(e')))
        && Knows(w.(canonical := canonical), at', e')
        && LegalStep(Slice(w.canonical, Some(e)), Slice(canonical, Some(e')))
  {
  }

  lemma EditedKeeps(w: World, pid: Pid, fd: Gen, effect: Effect)
    requires Inv(w) && pid in w.procs && w.procs[pid].Edit? && w.procs[pid].fd == fd
    requires Journal(w.archive, w.sha, w.rootDevice, Slice(effect.canonical, Some(effect.entry)))
    requires Knows(w.(canonical := effect.canonical), effect.next, effect.entry)
    ensures Inv(Edited(w, pid, fd, effect))
    ensures Visible(Edited(w, pid, fd, effect)) == Slice(effect.canonical, Some(effect.entry))
  {
    var w' := Edited(w, pid, fd, effect);
    assert ProcOk(w, pid);
    forall q | q in w'.procs ensures ProcOk(w', q) {
      assert ProcOk(w, q);
      if q != pid && w.procs[q].Edit? {
        EditorAlone(w, pid, q);
      }
    }
  }

  lemma RmdirKeeps(w: World, pid: Pid, fd: Gen, rec: bool)
    requires Inv(w) && pid in w.procs && w.procs[pid] == Edit(fd, Rmdir(rec))
    ensures Inv(w.(named := None, procs := w.procs[pid := Unnamed(fd, rec)]))
  {
    var w' := w.(named := None, procs := w.procs[pid := Unnamed(fd, rec)]);
    assert ProcOk(w, pid);
    forall q | q in w'.procs ensures ProcOk(w', q) {
      assert ProcOk(w, q);
      if q != pid && w.procs[q].Edit? {
        EditorAlone(w, pid, q);
      }
    }
  }

  lemma EditKeeps(w: World, pid: Pid, fd: Gen, at: Point, call: Call)
    requires Inv(w) && pid in w.procs && w.procs[pid] == Edit(fd, at)
    ensures fd in w.contents
    ensures Inv(EditStep(w, pid, fd, at, call))
    ensures LegalStep(Visible(w), Visible(EditStep(w, pid, fd, at, call)))
  {
    assert ProcOk(w, pid);
    CloseKeeps(w, pid, Done);
    EffectKeepsJournal(w, w.contents[fd], at, call);
    if at.Rmdir? {
      RmdirKeeps(w, pid, fd, at.rec);
    } else if EditEffect(w, w.contents[fd], at, call).Some? {
      EditedKeeps(w, pid, fd, EditEffect(w, w.contents[fd], at, call).value);
    }
  }

  lemma MkdirKeeps(w: World, pid: Pid)
    requires Inv(w) && pid in w.procs && w.named.None? && Holds(w.procs[pid]).None?
    ensures Inv(Mkdir(w, pid))
  {
    var w' := Mkdir(w, pid);
    assert ProcOk(w, pid);
    forall q | q in w'.procs ensures ProcOk(w', q) {
      assert ProcOk(w, q);
    }
  }

  /** A process takes a place outside the editing section without touching the lock. */
  lemma WalkKeeps(w: World, pid: Pid, pc: Pc)
    requires Inv(w) && (pid in w.procs ==> Holds(w.procs[pid]).None?)
    requires pc == Start || pc.Opening? || (pc.Opened? && pc.fd < w.nextGen)
    ensures Inv(w.(procs := w.procs[pid := pc]))
  {
    var w' := w.(procs := w.procs[pid := pc]);
    forall q | q in w'.procs ensures ProcOk(w', q) {
      assert q in w.procs ==> ProcOk(w, q);
    }
  }

  lemma LockKeeps(w: World, pid: Pid, pre: bool, fd: Gen)
    requires Inv(w) && pid in w.procs && w.procs[pid] == Opened(pre, fd) && fd !in w.lock
    ensures Inv(w.(lock := w.lock[fd := pid], procs := w.procs[pid := Locked(pre, fd)]))
  {
    var w' := w.(lock := w.lock[fd := pid], procs := w.procs[pid := Locked(pre, fd)]);
    forall q | q in w'.procs ensures ProcOk(w', q) {
      assert ProcOk(w, q);
    }
  }

  lemma EnterKeeps(w: World, pid: Pid, pre: bool, fd: Gen, at: Point)
    requires Inv(w) && pid in w.procs && w.procs[pid] == Locked(pre, fd) && w.named == Some(fd)
    requires at == ReadEntry || at == StatCanonical
    ensures Inv(w.(procs := w.procs[pid := Edit(fd, at)]))
  {
    var w' := w.(procs := w.procs[pid := Edit(fd, at)]);
    forall q | q in w'.procs ensures ProcOk(w', q) {
      assert ProcOk(w, q);
    }
  }

  lemma RunStepKeeps(w: World, pid: Pid, call: Call)
    requires Inv(w) && pid in w.procs
    ensures Inv(RunStep(w, pid, call)) && LegalStep(Visible(w), Visible(RunStep(w, pid, call)))
  {
    assert ProcOk(w, pid);
    CloseKeeps(w, pid, Done);
    match w.procs[pid]
    case Start => if w.named.None? { MkdirKeeps(w, pid); } else { WalkKeeps(w, pid, Opening(true)); }
    case Opening(pre) => if w.named.Some? { WalkKeeps(w, pid, Opened(pre, w.named.value)); }
    case Opened(pre, fd) => if fd !in w.lock { LockKeeps(w, pid, pre, fd); }
    case Locked(pre, fd) => if w.named == Some(fd) { EnterKeeps(w, pid, pre, fd, if pre then ReadEntry else StatCanonical); }
    case Edit(fd, at) => EditKeeps(w, pid, fd, at, call);
    case Unnamed(fd, rec) => CloseKeeps(w, pid, Remaking);
    case Remaking => if w.named.None? { MkdirKeeps(w, pid); }
    case Done =>
  }

  /** Every event, by any process, keeps the invariant and is a legal step of the
      journal. */
  lemma EventKeeps(w: World, ev: Event)
    requires Inv(w)
    ensures Inv(Apply(w, ev)) && LegalStep(Visible(w), Visible(Apply(w, ev)))
  {
    match ev
    case Spawn(pid) => if pid !in w.procs { WalkKeeps(w, pid, Start); }
    case Kill(pid) => if pid in w.procs { CloseKeeps(w, pid, Done); }
    case Run(pid, call) => if pid in w.procs { RunStepKeeps(w, pid, call); }
  }

  /** The invariant holds after every run, whatever the interleaving and the crashes. */
  lemma {:induction false} RunsKeepInvariant(archive: File, sha: Digest, rootDevice: nat, events: seq<Event>)
    ensures Inv(Runs(Initial(archive, sha, rootDevice), events))
  {
    if events != [] {
      RunsKeepInvariant(archive, sha, rootDevice, events[..|events| - 1]);
      EventKeeps(Runs(Initial(archive, sha, rootDevice), events[..|events| - 1]), events[|events| - 1]);
    }
  }

  // ----- what the invariant means

  /** While the entry has a name, an event of a process outside the editing section changes
      neither the name nor what it stands for, nor any other process. */
  lemma OutsiderKeepsDirectory(w: World, ev: Event)
    requires w.named.Some? && (ev.pid in w.procs ==> !w.procs[ev.pid].Edit? || !ev.Run?)
    ensures Apply(w, ev).(lock := w.lock, procs := w.procs) == w
    ensures forall q :: q in w.procs && q != ev.pid ==> q in Apply(w, ev).procs && Apply(w, ev).procs[q] == w.procs[q]
  {
  }

  /** Wherever a run of any number of processes leads, a process past the lock and
      generation checks works on the directory its name currently stands for and is the
      only such process; whatever any other process does next, the name keeps that
      generation and neither the directory nor the canonical name changes. */
  lemma EditorIsUndisturbed(archive: File, sha: Digest, rootDevice: nat, events: seq<Event>, p: Pid, ev: Event)
    requires
      var w := Runs(Initial(archive, sha, rootDevice), events);
      p in w.procs && w.procs[p].Edit?
    ensures
      var w := Runs(Initial(archive, sha, rootDevice), events);
      var w' := Apply(w, ev);
      var fd := w.procs[p].fd;
      && w.named == Some(fd) && fd in w.contents
      && (forall q :: q in w.procs && w.procs[q].Edit? ==> q == p)
      && (ev.pid != p ==>
            && w'.named == Some(fd) && fd in w'.contents && w'.contents[fd] == w.contents[fd]
            && w'.canonical == w.canonical
            && p in w'.procs && w'.procs[p] == w.procs[p])
  {
    var w := Runs(Initial(archive, sha, rootDevice), events);
    RunsKeepInvariant(archive, sha, rootDevice, events);
    assert ProcOk(w, p);
    forall q | q in w.procs && w.procs[q].Edit? ensures q == p {
      EditorAlone(w, p, q);
    }
    if ev.pid != p {
      OutsiderKeepsDirectory(w, ev);
    }
  }

  /** A step that takes the entry's name away is the `rmdir` of the one process that
      holds the lock of that very generation, and the directory was empty. */
  lemma RmdirOnlyOwnEntry(archive: File, sha: Digest, rootDevice: nat, events: seq<Event>, ev: Event)
    requires
      var w := Runs(Initial(archive, sha, rootDevice), events);
      w.named.Some? && Apply(w, ev).named != w.named
    ensures
      var w := Runs(Initial(archive, sha, rootDevice), events);
      var g := w.named.value;
      && ev.Run? && ev.pid in w.procs
      && w.procs[ev.pid].Edit? && w.procs[ev.pid].fd == g && w.procs[ev.pid].at.Rmdir?
      && g in w.lock && w.lock[g] == ev.pid
      && g in w.contents && w.contents[g] == EMPTY_ENTRY
      && Apply(w, ev).named.None?
  {
    var w := Runs(Initial(archive, sha, rootDevice), events);
    RunsKeepInvariant(archive, sha, rootDevice, events);
    assert ProcOk(w, ev.pid);
  }

  /** A killed process is gone: it holds no lock, and nothing it is asked to do ever has an
      effect. */
  lemma KilledIsGone(archive: File, sha: Digest, rootDevice: nat, events: seq<Event>, p: Pid, call: Call)
    requires p in Runs(Initial(archive, sha, rootDevice), events).procs
    ensures
      var w := Runs(Initial(archive, sha, rootDevice), events);
      var w' := Apply(w, Kill(p));
      && p in w'.procs && w'.procs[p] == Done && (forall g :: g in w'.lock ==> w'.lock[g] != p)
      && (forall g :: g in w.lock && w.lock[g] != p ==> g in w'.lock && w'.lock[g] == w.lock[g])
      && Visible(w') == Visible(w) && (forall q :: q in w.procs && q != p ==> q in w'.procs && w'.procs[q] == w.procs[q])
      && Apply(w', Run(p, call)) == w'
  {
    hide Runs;
  }

  /** The journal invariant of the serial model, for any number of processes: in every
      state of every run the archive is at its name or in quarantine under a matching
      manifest, never both, and its last name goes only under a `moved` manifest for it. */
  lemma ConcurrentJournal(archive: File, sha: Digest, rootDevice: nat, events: seq<Event>, ev: Event)
    ensures
      var w := Runs(Initial(archive, sha, rootDevice), events);
      && Journal(archive, sha, rootDevice, Visible(w))
      && LegalStep(Visible(w), Visible(Apply(w, ev)))
  {
    var w := Runs(Initial(archive, sha, rootDevice), events);
    RunsKeepInvariant(archive, sha, rootDevice, events);
    EventKeeps(w, ev);
  }

  /** Completeness after concurrency: whatever any number of processes, killed anywhere,
      have left of a package, one call that is then neither disturbed nor killed finishes
      the delete and leaves nothing. */
  method FinishedAfterConcurrency(archive: File, sha: Digest, rootDevice: nat, events: seq<Event>, call: Call)
    returns (r: Result<Outcome>, end: Slice)
    requires Deletable(archive, sha, rootDevice) && MatchesCaptured(archive.stat, call.captured)
    ensures r.Ok? && end == GONE
    ensures
      var left := Visible(Runs(Initial(archive, sha, rootDevice), events));
      r.value == Removed <==> HasFile(left) || JournalSaysMoved(left)
  {
    hide Journal, Runs, Visible;
    JournalAfter(archive, sha, rootDevice, events);
    var w := Runs(Initial(archive, sha, rootDevice), events);
    var disk := new PackageDisk.Resume(archive, sha, rootDevice, Visible(w));
    disk.fuel := 21;
    r := disk.Delete(call);
    end := disk.slice;
  }

  lemma JournalAfter(archive: File, sha: Digest, rootDevice: nat, events: seq<Event>)
    ensures Journal(archive, sha, rootDevice, Visible(Runs(Initial(archive, sha, rootDevice), events)))
  {
    hide Journal, Visible;
    RunsKeepInvariant(archive, sha, rootDevice, events);
  }
}
