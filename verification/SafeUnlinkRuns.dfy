/** Whole runs of `unlink` and recovery: what survives a crash anywhere, what recovery then
    achieves, and what it never resolves. */
module SafeUnlinkRuns {
  import opened Wrappers
  import opened SafeUnlink

  /** Whatever one `unlink` went through, killed or failing anywhere, if nobody else uses
      the name then the file still has a name or was unlinked under a `moved` manifest for
      it; and any number of recoveries afterwards, each killed or failing anywhere, leave
      the original name as it is: a file that the rollback put back survives them. If at
      most one step of the `unlink` failed, the file was put back or properly deleted. */
  method RestoredFileSurvives(v: View, pinned: Pinned, script: seq<Fate>, recoveries: seq<seq<Fate>>)
    returns (r: Result<bool>, after: View, end: View, ghost log: seq<Transition>)
    requires v.original.Some? && v.original.value in v.ctime && v.entry.None?
    requires NoArrivals(script) && forall i :: 0 <= i < |recoveries| ==> NoArrivals(recoveries[i])
    ensures Contiguous(v, log, after)
    ensures HasName(after, v.original.value) || ProperlyDeleted(log, v.original.value)
    ensures OneFailure(script) ==> after.original == v.original || (after.original.None? && Target(after).None?)
    ensures r == Ok(true) ==> after.original.None? && after.entry.None?
    ensures end.original == after.original
  {
    hide AllProceed, OneFailure;
    var store := new Store(v, script);
    r := store.Unlink(pinned);
    after, log := store.v, store.steps;
    end := after;
    for i := 0 to |recoveries|
      invariant Known(end, end.original) && Known(end, Target(end))
      invariant end.original == after.original
    {
      if end.entry.Some? {
        var s := new Store(end, recoveries[i]);
        var _ := s.Recover();
        end := s.v;
      }
    }
  }

  /** Whoever else uses the name, and whatever becomes of the steps: a file that `unlink`
      deletes has the pinned number and size. */
  method StrangersAreSpared(v: View, pinned: Pinned, script: seq<Fate>) returns (r: Result<bool>, after: View, ghost log: seq<Transition>)
    requires Known(v, v.original) && v.entry.None?
    ensures Contiguous(v, log, after) && (r == Ok(true) ==> after.entry.None?)
    ensures forall i :: ProperlyDeleted(log, i) ==> i.number == pinned.number && i.size == pinned.size
  {
    var store := new Store(v, script);
    r := store.Unlink(pinned);
    after, log := store.v, store.steps;
  }

  /** `unlink` deletes the pinned file and no other. If the file at the name differs from the
      pin in number, size or change time, whatever becomes of the steps, the call raises or
      dies and has changed nothing; and when no step fails it returns true exactly when they
      agree, and false exactly when there is no file. */
  method OnlyThePinnedFile(v: View, pinned: Pinned, script: seq<Fate>) returns (r: Result<bool>, after: View)
    requires Known(v, v.original) && v.entry.None? && NoArrivals(script)
    ensures v.original.Some? ==>
      var f := v.original.value;
      (f.number != pinned.number || f.size != pinned.size || v.ctime[f] != pinned.ctime) ==> r.Stopped? && after == v
    ensures AllProceed(script) ==>
      && (r == Ok(true) <==>
            && v.original.Some? && v.original.value.number == pinned.number
            && v.original.value.size == pinned.size && v.ctime[v.original.value] == pinned.ctime)
      && (r == Ok(false) <==> v.original.None?)
      && (r == Ok(true) ==> after.original.None? && after.entry.None?)
  {
    hide AllProceed;
    var store := new Store(v, script);
    r := store.Unlink(pinned);
    after := store.v;
  }

  /** A recovery none of whose steps fails resolves an entry if and only if it is
      recoverable, and leaves every other one as it is. In particular it resolves one with a
      target only if the manifest names that inode and its size, from schema 2 on its
      modification time, under a `moved` manifest its change time, and for schema 3 its
      content. */
  method RecoveryIsExact(v: View, script: seq<Fate>) returns (r: Result<bool>, end: View)
    requires Known(v, v.original) && Known(v, Target(v)) && v.entry.Some? && AllProceed(script)
    ensures r == Ok(true) <==> Recoverable(v)
    ensures r == Ok(false) <==> v.entry.value == EMPTY_ENTRY
    ensures v.entry.value.target.Some? && v.entry.value.manifest.Some? && v.entry.value.manifest.value.Whole? ==>
      var i, m := v.entry.value.target.value, v.entry.value.manifest.value.manifest;
      var described :=
        && i.number == m.number && i.size == m.size && (m.schema > 1 ==> i.mtime == m.mtime)
        && (m.schema == 1 || m.state == Moved ==> v.ctime[i] == m.ctime)
        && (m.schema == 3 ==> m.fingerprint == Fingerprint(i.size, i.content));
      r == Ok(true) <==>
        && described && m.schema in {1, 2, 3}
        && (m.schema > 1 && m.state == Prepared ==> m.schema == 3 && v.entry.value.next.None?)
    ensures end.entry == if Recoverable(v) then None else v.entry
    ensures NoArrivals(script) ==> end.original == v.original
  {
    hide AllProceed;
    var s := new Store(v, script);
    r := s.Recover();
    end := s.v;
  }

  lemma QuarantinedIsRecoverableOrWedged(v: View, file: Inode)
    requires Sound(v, file) && v.original.None? && Target(v) == Some(file)
    ensures Recoverable(v) <==> !Wedged(v)
  {
  }

  /** The exact reach of crash recovery. Let an undisturbed `unlink` of a file be killed, or
      fail, anywhere at all, and let a recovery follow that runs to its end. If the file was
      left only in quarantine, the recovery finishes its deletion if and only if the state
      is not wedged. */
  method CrashedThenRecovered(v: View, pinned: Pinned, script: seq<Fate>)
    returns (r: Result<bool>, after: View, recovered: Result<bool>, end: View)
    requires v.original.Some? && v.original.value in v.ctime && v.entry.None?
    requires NoArrivals(script) && Describes(pinned, v.original.value)
    ensures after.original == v.original || after.original.None?
    ensures after.original.None? && Target(after) == v.original ==>
      && (recovered == Ok(true) <==> !Wedged(after))
      && (if Wedged(after) then end.entry == after.entry else end.entry.None? && end.original.None?)
  {
    hide AllProceed;
    var store := new Store(v, script);
    r := store.Unlink(pinned);
    after := store.v;
    recovered, end := Ok(false), after;
    if after.entry.Some? {
      NothingFails();
      recovered, end := RecoveryIsExact(after, []);
      if after.original.None? && Target(after) == v.original {
        QuarantinedIsRecoverableOrWedged(after, v.original.value);
      }
    }
  }

  lemma NothingFails()
    ensures AllProceed([]) && NoArrivals([])
  {
  }

  /** A wedged entry is never resolved: every recovery of it fails and changes nothing. */
  method WedgedForever(v: View, recoveries: seq<seq<Fate>>) returns (results: seq<Result<bool>>, end: View)
    requires Known(v, v.original) && Known(v, Target(v)) && Wedged(v)
    ensures |results| == |recoveries| && forall i :: 0 <= i < |results| ==> results[i] != Ok(true)
    ensures end.entry == v.entry
  {
    results, end := [], v;
    for i := 0 to |recoveries|
      invariant Known(end, end.original) && Known(end, Target(end)) && end.entry == v.entry
      invariant |results| == i && forall j :: 0 <= j < i ==> results[j] != Ok(true)
    {
      var s := new Store(end, recoveries[i]);
      var r := s.Recover();
      results := results + [r];
      end := s.v;
    }
  }

  /** Recovery does not always complete. For every file, an undisturbed `unlink` that is
      killed right after it created `manifest.next` leaves the file in quarantine, and no
      number of recoveries, whatever becomes of them, ever resolves the entry. */
  method WedgedByCrash(v: View, pinned: Pinned, ctime: nat, recoveries: seq<seq<Fate>>)
    returns (r: Result<bool>, after: View, results: seq<Result<bool>>, end: View)
    requires v.original.Some? && v.original.value in v.ctime && v.entry.None?
    requires pinned.number == v.original.value.number && pinned.size == v.original.value.size && pinned.ctime == v.ctime[v.original.value]
    ensures r == Stopped(Crashed) && Wedged(after) && Target(after) == v.original
    ensures |results| == |recoveries| && forall i :: 0 <= i < |results| ==> results[i] != Ok(true)
    ensures end.entry == after.entry
  {
    hide AllProceed, OneFailure, Wedged;
    var script := seq(8, i => Fate(None, if i < 7 then Proceed else Die, ctime));
    var store := new Store(v, script);
    r := store.Unlink(pinned);
    after := store.v;
    results, end := WedgedForever(after, recoveries);
  }
}
