/** The journaled delete of one package archive, `delete_claimed_package_artifact`
    and `_recover_existing_entry`, when no other process touches the package.

    The slice of the filesystem a call can reach is a value of type `Slice`; the class
    `PackageDisk` holds it and every filesystem mutation replaces it in one atomic
    step. `fuel` is the number of mutations the process survives: the step after the
    last one kills it. `trace` records every slice the disk has been in, so what
    holds of the trace holds at every point where a crash can cut a call. */
module PackageJournal {
  import opened Wrappers

  type Digest = nat
  type ClaimId = nat

  /** The fields of `os.stat_result` that the code reads. */
  datatype Stat = Stat(regular: bool, mode: nat, device: nat, inode: nat,
                       ctime: nat, mtime: nat, size: nat, nlink: nat)

  /** A file: its metadata and the SHA-256 of its bytes. */
  datatype File = File(stat: Stat, digest: Digest)

  datatype State = Prepared | Moved

  datatype Manifest = Manifest(state: State, claim: ClaimId, sha: Digest, identity: Stat)

  /** `manifest.next`: created empty, then holding a whole manifest. */
  datatype NextFile = Partial | Complete(manifest: Manifest)

  datatype Entry = Entry(manifest: Option<Manifest>, next: Option<NextFile>, target: Option<File>)

  datatype Slice = Slice(canonical: Option<File>, entry: Option<Entry>)

  const EMPTY_ENTRY := Entry(None, None, None)

  /** Nothing of the package is left: no archive, no quarantine entry, so no target
      and no manifest of either name. */
  const GONE := Slice(None, None)

  datatype Outcome = Removed | AbsentNoJournal

  /** The identity the database captured for the archive. */
  datatype Captured = Captured(device: nat, inode: nat, ctime: nat, size: nat)

  /** The arguments of one call. The filesystem stamps the archive with
      `renameCtime` when it is renamed. */
  datatype Call = Call(claim: ClaimId, captured: Option<Captured>, renameCtime: nat)

  /** `_same_identity` with `allow_ctime_change`. */
  predicate SameIdentity(metadata: Stat, expected: Stat, allowCtimeChange: bool) {
    && metadata.mode == expected.mode
    && metadata.device == expected.device
    && metadata.inode == expected.inode
    && metadata.mtime == expected.mtime
    && metadata.size == expected.size
    && metadata.nlink == expected.nlink == 1
    && (allowCtimeChange || metadata.ctime == expected.ctime)
  }

  /** `_regular_single_link` passes. */
  predicate SingleLink(metadata: Stat, rootDevice: nat) {
    metadata.regular && metadata.device == rootDevice && metadata.nlink == 1
  }

  predicate MatchesCaptured(metadata: Stat, captured: Option<Captured>) {
    captured.Some? ==>
      && metadata.device == captured.value.device
      && metadata.inode == captured.value.inode
      && metadata.ctime == captured.value.ctime
      && metadata.size == captured.value.size
  }

  /** The archive after a rename stamped it. */
  function Renamed(f: File, ctime: nat): File {
    f.(stat := f.stat.(ctime := ctime))
  }

  /** The archive has a name: its own, or the target in quarantine. */
  predicate HasFile(s: Slice) {
    s.canonical.Some? || (s.entry.Some? && s.entry.value.target.Some?)
  }

  /** A `moved` manifest recording exactly the inode metadata `stat` is in place. */
  predicate MovedManifestFor(s: Slice, stat: Stat) {
    && s.entry.Some?
    && s.entry.value.manifest.Some?
    && s.entry.value.manifest.value.state == Moved
    && s.entry.value.manifest.value.identity == stat
  }

  predicate JournalSaysMoved(s: Slice) {
    s.entry.Some? && s.entry.value.manifest.Some? && s.entry.value.manifest.value.state == Moved
  }

  /** What one mutation may do to the archive: leave it with exactly one name, or drop
      its last name, and then only the target, under a `moved` manifest for it. */
  ghost predicate LegalStep(pre: Slice, post: Slice) {
    && (HasFile(post) ==> HasFile(pre))
    && (HasFile(pre) && !HasFile(post) ==>
          && pre.canonical.None?
          && MovedManifestFor(pre, pre.entry.value.target.value.stat)
          && post == pre.(entry := Some(pre.entry.value.(target := None))))
  }

  /** The journal invariant of one slice, for an archive that looked like `archive`
      before the first call: which names exist under which manifest. In particular
      the archive is never both at its own name and in quarantine, the target is the
      archive but for the change time a rename gave it, and a target without a
      manifest does not exist. */
  ghost predicate Journal(archive: File, sha: Digest, rootDevice: nat, s: Slice) {
    && (s.canonical.Some? ==> s.canonical.value == archive)
    && (s.entry.Some? ==>
          var e := s.entry.value;
          && (e.manifest.None? ==> e.target.None?)
          && (e.manifest.Some? ==>
                var m := e.manifest.value;
                && SingleLink(archive.stat, rootDevice)
                && m.sha == sha && m.identity.nlink == 1
                && (m.state == Prepared ==> m.identity == archive.stat && (s.canonical.Some? <==> e.target.None?))
                && (m.state == Moved ==> s.canonical.None?))
          && (e.target.Some? ==>
                && e.target.value == Renamed(archive, e.target.value.stat.ctime)
                && s.canonical.None?
                && (e.manifest.value.state == Moved ==> e.manifest.value.identity == e.target.value.stat)))
  }

  /** Every state of a history satisfies the journal invariant and every step is legal. */
  ghost predicate JournaledHistory(archive: File, sha: Digest, rootDevice: nat, trace: seq<Slice>) {
    && (forall i :: 0 <= i < |trace| ==> Journal(archive, sha, rootDevice, trace[i]))
    && (forall i :: 0 <= i < |trace| - 1 ==> LegalStep(trace[i], trace[i + 1]))
  }

  /** What recovery makes of an entry it finds. */
  datatype Plan =
    | Unrecoverable
    | StrayNext                  // nothing but a `manifest.next`
    | EmptyDirectory
    | NoTarget(observed: bool)   // only a journal is left; whether a delete got past its unlink
    | HasTarget(promote: bool)   // finish the delete, promoting the manifest first if it is `prepared`

  /** The checks of `_recover_existing_entry`. */
  function Inspect(canonical: Option<File>, e: Entry, sha: Digest, rootDevice: nat): Plan {
    if e.manifest.None? then
      if e.next.Some? && e.target.None? then StrayNext
      else if e == EMPTY_ENTRY then EmptyDirectory
      else Unrecoverable
    else
      var m := e.manifest.value;
      if m.sha != sha || m.identity.nlink != 1 then Unrecoverable
      else if e.target.None? then
        if m.state == Moved then NoTarget(true)
        else if canonical.Some? && SingleLink(canonical.value.stat, rootDevice)
             && SameIdentity(canonical.value.stat, m.identity, false) then NoTarget(false)
        else Unrecoverable
      else
        var target := e.target.value;
        if !SingleLink(target.stat, rootDevice) || !SameIdentity(target.stat, m.identity, m.state == Prepared) then Unrecoverable
        else if m.state == Moved then HasTarget(false)
        else if target.digest != sha then Unrecoverable
        else HasTarget(true)
  }

  /** The two files are the same single-link regular file of this device, as far as metadata
      other than the change time can tell. */
  ghost predicate SameFile(a: Stat, b: Stat, rootDevice: nat) {
    && a.regular && a.device == b.device == rootDevice && a.nlink == b.nlink == 1
    && a.inode == b.inode && a.mode == b.mode && a.mtime == b.mtime && a.size == b.size
  }

  /** Field by field, for any entry whatever: a target is deleted exactly if the manifest is for
      the expected digest and names this very file, with its change time if `moved` and with
      the expected content if `prepared`; and a journal without a target is dropped exactly
      if it is `moved`, or `prepared` with the file it names still at the canonical name. */
  lemma InspectMeans(canonical: Option<File>, e: Entry, sha: Digest, rootDevice: nat)
    ensures e.manifest.Some? && e.target.Some? ==>
      var m, t := e.manifest.value, e.target.value;
      && (Inspect(canonical, e, sha, rootDevice) == HasTarget(false) <==>
            m.state == Moved && m.sha == sha && SameFile(t.stat, m.identity, rootDevice) && t.stat.ctime == m.identity.ctime)
      && (Inspect(canonical, e, sha, rootDevice) == HasTarget(true) <==>
            m.state == Prepared && m.sha == sha && SameFile(t.stat, m.identity, rootDevice) && t.digest == sha)
    ensures e.manifest.Some? && e.target.None? ==>
      var m := e.manifest.value;
      && (Inspect(canonical, e, sha, rootDevice) == NoTarget(true) <==> m.state == Moved && m.sha == sha && m.identity.nlink == 1)
      && (Inspect(canonical, e, sha, rootDevice) == NoTarget(false) <==>
            && m.state == Prepared && m.sha == sha && canonical.Some?
            && SameFile(canonical.value.stat, m.identity, rootDevice) && canonical.value.stat.ctime == m.identity.ctime)
    ensures e.manifest.None? ==>
      && (Inspect(canonical, e, sha, rootDevice) == StrayNext <==> e.next.Some? && e.target.None?)
      && (Inspect(canonical, e, sha, rootDevice) == EmptyDirectory <==> e.next.None? && e.target.None?)
      && Inspect(canonical, e, sha, rootDevice) in {StrayNext, EmptyDirectory, Unrecoverable}
  {
  }

  /** The slice an uncut call leaves: the poisoned one as it was, a refused archive beside an
      empty entry, and otherwise nothing. */
  ghost function Final(archive: File, sha: Digest, rootDevice: nat, s: Slice, call: Call): Slice {
    if IsPoisoned(archive, sha, s) then s
    else if s.canonical.None? || (SingleLink(archive.stat, rootDevice) && MatchesCaptured(archive.stat, call.captured)) then GONE
    else Slice(s.canonical, Some(EMPTY_ENTRY))
  }

  /** The quarantined target has content the database did not expect, and the manifest was
      never promoted. */
  ghost predicate IsPoisoned(archive: File, sha: Digest, s: Slice) {
    && archive.digest != sha
    && s.entry.Some? && s.entry.value.manifest.Some? && s.entry.value.target.Some?
    && s.entry.value.manifest.value.state == Prepared
  }

  class PackageDisk {
    const rootDevice: nat
    const sha: Digest          // the expected SHA-256, from the database row
    ghost const archive: File  // the archive as it was before the first call

    var slice: Slice
    var fuel: nat
    ghost var trace: seq<Slice>

    /** The trace ends in the current slice and is journaled throughout. */
    ghost predicate Valid()
      reads this
    {
      && trace != [] && trace[|trace| - 1] == slice
      && JournaledHistory(archive, sha, rootDevice, trace)
    }

    constructor (archive: File, sha: Digest, rootDevice: nat)
      ensures Valid() && slice == Slice(Some(archive), None) && trace == [slice]
      ensures this.archive == archive && this.sha == sha && this.rootDevice == rootDevice
    {
      this.archive, this.sha, this.rootDevice := archive, sha, rootDevice;
      fuel := 0;
      slice := Slice(Some(archive), None);
      trace := [Slice(Some(archive), None)];
    }

    /** A disk in any state that satisfies the journal invariant. */
    constructor Resume(archive: File, sha: Digest, rootDevice: nat, slice: Slice)
      requires Journal(archive, sha, rootDevice, slice)
      ensures Valid() && this.slice == slice && trace == [slice]
      ensures this.archive == archive && this.sha == sha && this.rootDevice == rootDevice
    {
      this.archive, this.sha, this.rootDevice := archive, sha, rootDevice;
      fuel := 0;
      this.slice := slice;
      trace := [slice];
    }

    /** Everything a call leaves alone: history is only extended. */
    twostate predicate Extends()
      reads this
    {
      old(trace) <= trace && fuel <= old(fuel)
    }

    /** One atomic filesystem mutation: it happens, or the process dies before it. */
    method Commit(next: Slice) returns (r: Result<()>)
      requires Valid() && Journal(archive, sha, rootDevice, next) && LegalStep(slice, next)
      modifies this
      ensures Valid() && Extends()
      ensures r.Stopped? ==> r.why.Crashed? && old(fuel) == 0 && slice == old(slice)
      ensures r.Ok? ==> slice == next && fuel == old(fuel) - 1
    {
      if fuel == 0 {
        return Stopped(Crashed);
      }
      fuel := fuel - 1;
      slice := next;
      trace := trace + [next];
      return Ok(());
    }

    /** `_write_new_manifest`: exclusive create, write, replace. */
    method WriteNewManifest(m: Manifest) returns (r: Result<()>)
      requires Valid() && slice.entry.Some?
      requires Journal(archive, sha, rootDevice, slice.(entry := Some(slice.entry.value.(manifest := Some(m)))))
      modifies this
      ensures Valid() && Extends()
      ensures r.Stopped? ==> if old(slice.entry.value.next.Some?) then r.why.Raised? else r.why.Crashed? && old(fuel) < 3
      ensures old(fuel) == 0 ==> slice == old(slice)
      ensures r.Ok? ==> old(slice.entry.value.next.None?) && fuel == old(fuel) - 3
      ensures r.Ok? ==> slice == old(slice.(entry := Some(slice.entry.value.(manifest := Some(m), next := None))))
    {
      var e := slice.entry.value;
      if e.next.Some? {
        return Stopped(Raised);
      }
      var _ :- Commit(slice.(entry := Some(e.(next := Some(Partial)))));
      var _ :- Commit(slice.(entry := Some(e.(next := Some(Complete(m))))));
      r := Commit(slice.(entry := Some(e.(manifest := Some(m), next := None))));
    }

    /** `_replace_manifest`: a left-over `manifest.next` is cleared first. */
    method ReplaceManifest(m: Manifest) returns (r: Result<()>)
      requires Valid() && slice.entry.Some?
      requires Journal(archive, sha, rootDevice, slice.(entry := Some(slice.entry.value.(manifest := Some(m)))))
      modifies this
      ensures Valid() && Extends()
      ensures r.Stopped? ==> r.why.Crashed? && old(fuel) < 4
      ensures old(fuel) == 0 ==> slice == old(slice)
      ensures r.Ok? ==> fuel >= old(fuel) - 4
      ensures r.Ok? ==> slice == old(slice.(entry := Some(slice.entry.value.(manifest := Some(m), next := None))))
    {
      if slice.entry.value.next.Some? {
        var _ :- Commit(slice.(entry := Some(slice.entry.value.(next := None))));
      }
      r := WriteNewManifest(m);
    }

    /** `_remove_empty_entry` */
    method RemoveEmptyEntry() returns (r: Result<()>)
      requires Valid() && slice.entry.Some?
      modifies this
      ensures Valid() && Extends()
      ensures r.Stopped? && r.why.Raised? ==> old(slice.entry.value) != EMPTY_ENTRY
      ensures r.Stopped? && r.why.Crashed? ==> old(fuel) == 0
      ensures r.Ok? ==> old(slice.entry.value) == EMPTY_ENTRY && slice == old(slice.(entry := None)) && fuel == old(fuel) - 1
    {
      if slice.entry.value != EMPTY_ENTRY {
        return Stopped(Raised);
      }
      r := Commit(slice.(entry := None));
    }

    /** The tail of every recovery: unlink `manifest.next` if it is there, unlink the
        manifest, remove the entry. */
    method DropJournal() returns (r: Result<()>)
      requires Valid() && slice.entry.Some? && slice.entry.value.manifest.Some? && slice.entry.value.target.None?
      modifies this
      ensures Valid() && Extends()
      ensures r.Stopped? ==> r.why.Crashed? && old(fuel) < 3
      ensures r.Ok? ==> slice == old(slice.(entry := None)) && fuel >= old(fuel) - 3
    {
      if slice.entry.value.next.Some? {
        var _ :- Commit(slice.(entry := Some(slice.entry.value.(next := None))));
      }
      var _ :- Commit(slice.(entry := Some(slice.entry.value.(manifest := None))));
      r := RemoveEmptyEntry();
    }

    /** Recovery will not unlink the target. */
    ghost predicate Poisoned(s: Slice) {
      IsPoisoned(archive, sha, s)
    }

    /** `_recover_existing_entry`: finish or undo what a crashed call left. It returns
        whether it saw a completed delete, and leaves the canonical name alone. */
    method RecoverExistingEntry(call: Call) returns (r: Result<bool>)
      requires Valid() && slice.entry.Some?
      modifies this
      ensures Valid() && Extends()
      ensures Poisoned(old(slice)) ==> r == Stopped(Raised) && slice == old(slice)
      ensures r.Stopped? && r.why.Raised? ==> Poisoned(old(slice))
      ensures r.Stopped? && r.why.Crashed? ==> old(fuel) < 9
      ensures r.Ok? ==> fuel >= old(fuel) - 9
      ensures r.Ok? ==> slice == old(slice.(entry := None))
      ensures r.Ok? ==> (r.value <==> JournalSaysMoved(old(slice)) || old(slice.entry.value.target.Some?))
    {
      var e := slice.entry.value;
      match Inspect(slice.canonical, e, sha, rootDevice) {
        case Unrecoverable =>
          return Stopped(Raised);
        case StrayNext =>
          var _ :- Commit(slice.(entry := Some(e.(next := None))));
          var _ :- RemoveEmptyEntry();
          return Ok(false);
        case EmptyDirectory =>
          var _ :- RemoveEmptyEntry();
          return Ok(false);
        case NoTarget(observed) =>
          var _ :- DropJournal();
          return Ok(observed);
        case HasTarget(promote) =>
          if promote {
            var _ :- ReplaceManifest(Manifest(Moved, call.claim, sha, e.target.value.stat));
          }
          var _ :- Commit(slice.(entry := Some(slice.entry.value.(target := None))));
          var _ :- DropJournal();
          return Ok(true);
      }
    }

    /** The call refuses the package: recovery finds a poisoned target, or the archive
        itself is not a single-link regular file of the captured identity. */
    ghost predicate Refuses(s: Slice, call: Call) {
      || Poisoned(s)
      || (s.canonical.Some? && !(SingleLink(archive.stat, rootDevice) && MatchesCaptured(archive.stat, call.captured)))
    }

    /** The slice right after the rename of a first delete. */
    ghost function JustRenamed(call: Call): Slice {
      Slice(None, Some(Entry(Some(Manifest(Prepared, call.claim, sha, archive.stat)), None,
                             Some(Renamed(archive, call.renameCtime)))))
    }

    /** The ordinary path of a delete, from an empty entry that this call created. */
    method DeleteCanonical(call: Call) returns (r: Result<Outcome>)
      requires Valid() && slice.entry == Some(EMPTY_ENTRY) && slice.canonical.Some?
      modifies this
      ensures Valid() && Extends()
      ensures r.Stopped? && r.why.Raised? ==> Refuses(old(slice), call) && slice == old(slice)
      ensures r.Stopped? && r.why.Crashed? ==> old(fuel) < 11
      ensures r.Ok? ==> !Refuses(old(slice), call) && slice == GONE && r.value == Removed
      ensures old(fuel) == 4 && !Refuses(old(slice), call) ==> r == Stopped(Crashed) && slice == JustRenamed(call)
    {
      var file := slice.canonical.value;
      if !SingleLink(file.stat, rootDevice) || !MatchesCaptured(file.stat, call.captured) {
        return Stopped(Raised);
      }
      var _ :- WriteNewManifest(Manifest(Prepared, call.claim, sha, file.stat));
      var moved := Renamed(file, call.renameCtime);
      var _ :- Commit(Slice(None, Some(slice.entry.value.(target := Some(moved)))));
      if !SingleLink(moved.stat, rootDevice) {
        return Stopped(Raised);
      }
      var _ :- ReplaceManifest(Manifest(Moved, call.claim, sha, moved.stat));
      var _ :- Commit(slice.(entry := Some(slice.entry.value.(target := None))));
      if slice.canonical.Some? {
        return Stopped(Raised);
      }
      var _ :- Commit(slice.(entry := Some(slice.entry.value.(manifest := None))));
      var _ :- RemoveEmptyEntry();
      if slice.canonical.Some? {
        return Stopped(Raised);
      }
      return Ok(Removed);
    }

    /** `delete_claimed_package_artifact` */
    method Delete(call: Call) returns (r: Result<Outcome>)
      requires Valid()
      modifies this
      ensures Valid() && Extends()
      ensures r.Stopped? && r.why.Raised? ==> Refuses(old(slice), call) && HasFile(slice)
      ensures r != Stopped(Crashed) ==> slice == Final(archive, sha, rootDevice, old(slice), call)
      ensures r.Stopped? && r.why.Crashed? ==> old(fuel) < 21
      ensures Poisoned(old(slice)) ==> r == Stopped(Raised) && slice == old(slice)
      ensures old(fuel) == 5 && old(slice) == Slice(Some(archive), None) && !Refuses(old(slice), call) ==>
                r == Stopped(Crashed) && slice == JustRenamed(call)
      ensures r.Ok? ==> !Refuses(old(slice), call) && slice == GONE
      ensures r.Ok? ==> (r.value == Removed <==> HasFile(old(slice)) || JournalSaysMoved(old(slice)))
    {
      var removedExisting := false;
      if slice.entry.None? {
        var _ :- Commit(slice.(entry := Some(EMPTY_ENTRY)));
      } else {
        removedExisting :- RecoverExistingEntry(call);
        var _ :- Commit(slice.(entry := Some(EMPTY_ENTRY)));
      }
      if slice.canonical.None? {
        var _ :- RemoveEmptyEntry();
        return Ok(if removedExisting then Removed else AbsentNoJournal);
      }
      r := DeleteCanonical(call);
    }
  }

  /** Nothing stands between the archive and its deletion: it is the single-link
      regular file the database captured, with the digest the database expects. */
  ghost predicate Deletable(archive: File, sha: Digest, rootDevice: nat) {
    archive.digest == sha && SingleLink(archive.stat, rootDevice)
  }

  /** Crash-recovery completeness. Any number of calls, each killed after any number of
      mutations (also inside recovery), then one call that is not killed. No call
      raises, the last one finishes and nothing of the package is left; and through
      the whole history the journal invariant holds and every step is legal. */
  method CrashedThenFinished(archive: File, sha: Digest, rootDevice: nat, cuts: seq<(Call, nat)>, last: Call)
    returns (results: seq<Result<Outcome>>, final: Result<Outcome>, end: Slice, ghost history: seq<Slice>)
    requires forall i :: 0 <= i < |cuts| ==> MatchesCaptured(archive.stat, cuts[i].0.captured)
    requires MatchesCaptured(archive.stat, last.captured)
    ensures |results| == |cuts|
    ensures Deletable(archive, sha, rootDevice) ==>
              && (forall i :: 0 <= i < |results| ==> results[i] != Stopped(Raised))
              && final.Ok? && end == GONE
    ensures final == Stopped(Raised) ==> HasFile(end)
    ensures history != [] && history[0] == Slice(Some(archive), None) && history[|history| - 1] == end
    ensures JournaledHistory(archive, sha, rootDevice, history)
  {
    var disk := new PackageDisk(archive, sha, rootDevice);
    results := [];
    for i := 0 to |cuts|
      invariant disk.Valid() && disk.trace[0] == Slice(Some(archive), None)
      invariant disk.archive == archive && disk.sha == sha && disk.rootDevice == rootDevice
      invariant |results| == i
      invariant Deletable(archive, sha, rootDevice) ==> forall j :: 0 <= j < i ==> results[j] != Stopped(Raised)
    {
      disk.fuel := cuts[i].1;
      var r := disk.Delete(cuts[i].0);
      results := results + [r];
    }
    disk.fuel := 21;
    final := disk.Delete(last);
    end := disk.slice;
    history := disk.trace;
  }

  /** The digest is exactly what completeness hangs on: for every archive the ordinary
      delete would accept but whose digest is not the expected one, a call killed right
      after its rename leaves the package refused by every later call, for good. */
  method PoisonedByCrash(archive: File, sha: Digest, rootDevice: nat, first: Call, later: seq<Call>)
    returns (cut: Result<Outcome>, results: seq<Result<Outcome>>)
    requires SingleLink(archive.stat, rootDevice) && MatchesCaptured(archive.stat, first.captured)
    requires archive.digest != sha
    ensures cut == Stopped(Crashed)
    ensures |results| == |later| && forall i :: 0 <= i < |results| ==> results[i] == Stopped(Raised)
  {
    var disk := new PackageDisk(archive, sha, rootDevice);
    disk.fuel := 5;
    cut := disk.Delete(first);
    results := [];
    for i := 0 to |later|
      invariant disk.Valid() && disk.Poisoned(disk.slice)
      invariant |results| == i && forall j :: 0 <= j < i ==> results[j] == Stopped(Raised)
    {
      disk.fuel := 21;
      var r := disk.Delete(later[i]);
      results := results + [r];
    }
  }

  /** What a call accepts, field by field: it refuses exactly an archive that is not a
      single-link regular file of the root's device, or differs in device, inode, change time
      or size from what the database captured; a refused archive stays where it is, an
      accepted one goes. */
  method RefusalIsExact(archive: File, sha: Digest, rootDevice: nat, call: Call) returns (r: Result<Outcome>, end: Slice)
    ensures r == Stopped(Raised) <==>
      || !archive.stat.regular || archive.stat.device != rootDevice || archive.stat.nlink != 1
      || (call.captured.Some? &&
          var c := call.captured.value;
          archive.stat.device != c.device || archive.stat.inode != c.inode || archive.stat.ctime != c.ctime || archive.stat.size != c.size)
    ensures r == Stopped(Raised) ==> end.canonical == Some(archive)
    ensures r != Stopped(Raised) ==> r == Ok(Removed) && end == GONE
  {
    var disk := new PackageDisk(archive, sha, rootDevice);
    disk.fuel := 21;
    r := disk.Delete(call);
    end := disk.slice;
  }
}
