# Verified models of the final-cut review backend

This project models the stateful cores of the final-cut review backend in Dafny and proves
what they are for, over every input, every interleaving and every crash point of the model.

- **Journaled deletion.** `PackageJournal` is the delete of one package archive with its
  crash recovery: a class whose filesystem slice is replaced one atomic step at a time, with
  a budget of steps after which the process dies. `ConcurrentDeleters` is the same delete run
  by any number of processes under `flock` and the generation check, and `SoloDeleter` ties
  it to the serial one. `SafeUnlink` is the
  delete with rollback of the ordinary storage root; a script decides before every step
  whether it happens, fails or is cut off, and whether somebody else takes over the name.
  `SafeUnlinkRuns` puts calls and recoveries together.
- **Technical QC.** `QcTasks` and `QcOutcomes` are the lease protocol on task rows, `QcWindow`,
  `QcCandidates`, `QcScheduler` and `QcClaims` are one claim call from the candidate query
  to the claimed rows. `QcIntervals`, `QcMergeTwice`, `QcDetection` and `QcLuma` are the
  interval algebra: frame clock, short shots, luma runs and the merge.
- **Thumbnails.** `DHash` is the signature and its similarity test, `UnionFind` and
  `ThumbnailGroups` the similarity graph, `ThumbnailTasks` the task rows, version pointers
  and the transactions on them, `ThumbnailAuthority` what holds in every run,
  `ThumbnailOutcomes` what each step does, told from the rows.
- **Smaller cores.** `DeletionIntents` and `DeletionCleaner` (review deletion intents),
  `AdmissionLimiter` (upload admission), `Faststart` (MP4 top-level boxes), `StorageLocks`
  (ordered storage locks).
- **Shared.** `Basics`, `Wrappers`, `Lexicographic`, `SortedSets`, `Sums`.

Database rows are values in maps and a transaction is one atomic step. UUIDs are fresh
tokens, time is a number passed in, SHA-256 based ids and fingerprints are injective.
`Result` carries a crash or a raised exception. Where the original changes objects, the
model is a class; each method that changes it is tied by its contract to a function of the
old state, and the properties are proved of that function over all runs.

Some properties one might expect do not hold of the code; these are stated exactly:

- Package recovery completes whenever the archive's digest is the expected one
  (`CrashedThenFinished`). The ordinary delete never compares the digest, so with any other
  digest a call that dies right after its rename leaves a package that every later call
  refuses (`PoisonedByCrash`). With any number of processes such a package never changes
  once the process that renamed the archive is gone (`PoisonedForever`); that process itself
  does go on to delete it (`ItsMakerFinishes`).
- Recovery of the ordinary storage root resolves exactly the entries that satisfy
  `Recoverable` (`RecoveryIsExact`). After an `unlink` that died anywhere and left the file
  only in quarantine, recovery finishes if and only if the state is not wedged
  (`CrashedThenRecovered`); for every file, dying right after `manifest.next` is created
  wedges it for good (`WedgedByCrash`).
- Merging QC intervals twice is the same as once if and only if nothing in the sorted input
  reaches back over a gap (`MergeTwiceIff`); `TimeOrderIsNeeded` is an input that does.
- The incremental regrouping of thumbnails agrees with the full rebuild if and only if the
  stored choices of the unmatched tasks were right without the changed task
  (`IncrementalAgreesIff`). In every run of the protocol they are (`ThumbnailAuthority.RunsKeepInvariant`),
  because a claim carries the task's signature and its worker repeats it.

## Model

| member | source | states |
|---|---|---|
| `PackageJournal.PackageDisk.WriteNewManifest` | backend/app/package_cleanup_files.py:126-145 | a left-over next file raises; otherwise the manifest is in place after create, write and replace, or the process died |
| `PackageJournal.PackageDisk.ReplaceManifest` | backend/app/package_cleanup_files.py:148-179 | a left-over next file is cleared, so only a crash can stop the replacement |
| `PackageJournal.PackageDisk.RemoveEmptyEntry` | backend/app/package_cleanup_files.py:384-397 | succeeds exactly on an empty entry, and only its name goes |
| `PackageJournal.PackageDisk.RecoverExistingEntry` | backend/app/package_cleanup_files.py:634-750 | raises exactly on a quarantined target of unexpected content under a prepared manifest; otherwise the entry is gone, the canonical name untouched, and it reports exactly whether a delete had got past the rename |
| `PackageJournal.InspectMeans` | backend/app/package_cleanup_files.py:634-718 | field by field, for any entry whatever: a target is deleted exactly if the manifest is for the expected digest and names this very file, with its change time if moved and the expected content if prepared; a journal without target is dropped exactly if moved, or prepared with its file still in place |
| `PackageJournal.PackageDisk.DeleteCanonical` | backend/app/package_cleanup_files.py:858-974 | from an empty entry: removes the archive, refuses a foreign one without touching it, or dies; every intermediate slice keeps the journal |
| `PackageJournal.PackageDisk.Delete` | backend/app/package_cleanup_files.py:753-974 | an uncut call leaves exactly the specified slice: nothing, a poisoned package as it was, or a refused archive beside an empty entry; it raises only when it refuses the package, and says REMOVED exactly when there was a file or a completed delete |
| `PackageJournal.CrashedThenFinished` | backend/app/package_cleanup_files.py:634-974 | crash-recovery completeness: after any number of calls cut anywhere, one uncut call never raises and leaves no archive, target, manifest or entry; the whole history keeps the journal invariant and only legal steps |
| `PackageJournal.PoisonedByCrash` | backend/app/package_cleanup_files.py:716-718 | with an unexpected digest, for every archive and every sequence of later calls, a crash after the rename is never recovered |
| `PackageJournal.RefusalIsExact` | backend/app/package_cleanup_files.py:881-900 | a call refuses exactly an archive that is not a single-link regular file of the root's device or differs from the captured device, inode, change time or size, and leaves it in place |
| `ConcurrentDeleters.EffectKeepsJournal` | backend/app/package_cleanup_files.py:634-750 | each edit by a process that knows what its place tells it keeps the journal invariant, is a legal step and establishes what the next place must know, in particular that a recovery promotes a manifest only over the expected content |
| `ConcurrentDeleters.EventKeeps` | backend/app/package_cleanup_files.py:753-974 | every event of every process, a kill included, keeps the invariant of the whole world and is a legal journal step |
| `ConcurrentDeleters.RunsKeepInvariant` | backend/app/package_cleanup_files.py:753-974 | the invariant holds after every interleaving of any number of processes and crashes |
| `ConcurrentDeleters.EditorIsUndisturbed` | backend/app/package_cleanup_files.py:232-254 | a process past lock and generation check works on the directory currently named, is the only one, and no other process changes the name, the directory or the canonical file under it |
| `ConcurrentDeleters.RmdirOnlyOwnEntry` | backend/app/package_cleanup_files.py:384-397 | the entry's name disappears only by the rmdir of the process holding that very generation's lock, and the directory is empty |
| `ConcurrentDeleters.ConcurrentJournal` | backend/app/package_cleanup_files.py:810-966 | the journal invariant and the legality of each step hold for any number of processes |
| `ConcurrentDeleters.KilledIsGone` | backend/app/package_cleanup_files.py:817-856 | a killed process holds no lock and nothing it is asked to do has an effect |
| `ConcurrentDeleters.FinishedAfterConcurrency` | backend/app/package_cleanup_files.py:753-974 | whatever any number of processes, killed anywhere, have left, one undisturbed uncut call finishes the delete when the digest is the expected one |
| `SoloDeleter.PoisonedForever` | backend/app/package_cleanup_files.py:716-718 | while a target of unexpected content lies under a prepared manifest and the process that renamed it is gone, no events of any number of processes ever change the package |
| `SoloDeleter.ItsMakerFinishes` | backend/app/package_cleanup_files.py:902-966 | the process that renamed it, if still there and left alone, deletes it whatever its content |
| `SoloDeleter.StepIsSolo` | backend/app/package_cleanup_files.py:810-974 | a step of a process that is alone in the concurrent machine is a step of a machine on slices |
| `SoloDeleter.AloneItEnds` | backend/app/package_cleanup_files.py:753-974 | whatever others left, one process spawned alone ends, with the very slice that the serial delete leaves |
| `SafeUnlink.Store.Unlink` | backend/app/safe_files.py:186-395 | at every point where it can be killed or fail, undisturbed, the file has a name or was unlinked under a moved manifest describing it, and if it is only in quarantine a manifest there describes it; a file that differs from the pin is never touched, under interference nothing with another number or size is deleted; with at most one failing step the file is deleted or back at its name; killed right after creating the next manifest it is wedged |
| `SafeUnlink.NameKept` | backend/app/safe_files.py:186-395 | through every undisturbed history of legal steps, without a hole, a file keeps a name until a step drops its target under a moved manifest for it |
| `SafeUnlink.Store.LinkBack` | backend/app/safe_files.py:352-372 | at every moment of the rollback the file has a name, and the name it is linked to was free; without a further failure it is back at its own name |
| `SafeUnlink.Store.Rollback` | backend/app/safe_files.py:351-387 | after one failing step the moved file is back at its name and no entry is left |
| `SafeUnlink.Store.Recover` | backend/app/safe_files.py:487-711 | never touches the original name, drops a target only under a manifest that matches its identity (and fingerprint for schema 3), and when none of its steps fails resolves exactly the recoverable entries |
| `SafeUnlinkRuns.RestoredFileSurvives` | backend/app/safe_files.py:186-395 | whatever the unlink went through, the file has a name or was properly deleted, and a file that rollback put back survives any number of later recoveries, each cut or failing anywhere |
| `SafeUnlinkRuns.OnlyThePinnedFile` | backend/app/safe_files.py:156-209 | if the file differs from the pin in number, size or change time nothing changes; when no step fails it returns true exactly when they agree and false exactly when there is no file |
| `SafeUnlinkRuns.StrangersAreSpared` | backend/app/safe_files.py:246-283 | whoever else uses the name, a file that is deleted has the pinned number and size |
| `SafeUnlinkRuns.RecoveryIsExact` | backend/app/safe_files.py:487-711 | a recovery none of whose steps fails resolves an entry if and only if it is recoverable, told field by field for each schema, passes over exactly the empty ones and leaves every other one as it is |
| `SafeUnlinkRuns.CrashedThenRecovered` | backend/app/safe_files.py:186-711 | after an unlink killed or failing anywhere that left the file only in quarantine, recovery finishes the deletion if and only if the state is not wedged |
| `SafeUnlinkRuns.WedgedForever` | backend/app/safe_files.py:654-659 | an entry with a prepared manifest, a target and a next file is never resolved and never changed by recovery |
| `SafeUnlinkRuns.WedgedByCrash` | backend/app/safe_files.py:305-316 | for every file, an unlink killed right after creating the next manifest leaves an entry that no number of recoveries resolves |
| `QcTasks.TaskTable.Reconcile` | backend/app/technical_qc.py:442-478 | the sweep of expired leases is the specified function of the old rows |
| `QcTasks.TaskTable.Claim` | backend/app/technical_qc.py:614-636 | a claim succeeds exactly on a claimable row of a free item without conflict, and is the specified step |
| `QcTasks.TaskTable.Serve` | backend/app/technical_qc.py:640-818 | raises exactly on inadmissible arguments; otherwise a worker's step has an effect exactly under its active claim, and a completion only if it names the row's own version, input and rules |
| `QcTasks.RunsKeepInvariant` | backend/app/technical_qc.py:442-818 | over every interleaving: claim and lease are set exactly when running, progress stays within the total, attempts count the claims handed out and never pass the maximum, one running task per item |
| `QcTasks.OnlyLatestClaimWrites` | backend/app/technical_qc.py:640-709 | a running task changes only under its latest unexpired claim or by the sweep after expiry |
| `QcTasks.SupersededClaimWritesNothing` | backend/app/technical_qc.py:640-709 | an earlier claim of a task has no effect, whatever it asks for and whenever |
| `QcTasks.NextAttempt` | backend/app/technical_qc.py:2007-2040 | after failure or expiry a task is claimable exactly when it was retryable, attempts are left and the delay has passed; reported progress never falls |
| `QcTasks.TerminalForever` | backend/app/technical_qc.py:442-818 | complete, and failed without a next attempt, are never left in any continuation |
| `QcOutcomes.CompletesIff` | backend/app/technical_qc.py:763-790 | over every run, a task becomes complete in a step if and only if that step is an authorised completion under its active claim that names its own project, item, version, input and rules |
| `QcOutcomes.RequestsMean` | backend/app/technical_qc.py:711-818 | field by field, what progress, renewal, probe and failure do to the row and that they touch no other |
| `QcOutcomes.TakesIff` | backend/app/technical_qc.py:614-636 | a claim is given exactly to a queued or due task with attempts left whose item has no other running task, and its lease ends exactly after the given time |
| `QcOutcomes.SweepResets` | backend/app/technical_qc.py:442-478 | a sweep resets exactly the rows of its batch whose lease is over, to queued while attempts are left and else to failed |
| `QcScheduler.Visit` | backend/app/technical_qc.py:594-608 | takes the first candidate of a free item in the project's queue, unless the project is at its cap or has none |
| `QcScheduler.FirstFreeIsFirst` | backend/app/technical_qc.py:600-604 | the row a visit takes has a free item and every row before it a taken one |
| `QcScheduler.SelectRoundRobin` | backend/app/technical_qc.py:589-610 | a pass selects candidates of distinct free items within caps and room, each project's in the order of its queue, leaves room only when every project is blocked, and is fair within one pick |
| `QcWindow.FullWindowShape` | backend/app/technical_qc.py:389-434 | a project's candidates are in episode order without repetition |
| `QcWindow.EpisodeOrder` | backend/app/technical_qc.py:426-432 | rows without an episode come last, then the smaller episode, the older row and the smaller id |
| `QcWindow.FirstIsOldest` | backend/app/technical_qc.py:392-398 | the row considered for an item is its oldest eligible one, by id when equally old |
| `QcWindow.WindowLosesNothing` | backend/app/technical_qc.py:384-439 | the window of max(8, 2 cap) rows holds enough free items for the remaining capacity, or every eligible item |
| `QcCandidates.ClaimCandidates` | backend/app/technical_qc.py:342-439 | exactly the first rows, up to the scan limit, of the windows of all eligible projects, oldest project first; and exactly when the limit cuts anything off |
| `QcCandidates.ProjectsByAge` | backend/app/technical_qc.py:360-383 | the eligible projects are ordered by their oldest eligible row, without repetition |
| `QcCandidates.OldestIsLeast` | backend/app/technical_qc.py:380-380 | a project's age is that of an eligible row of it, and no eligible row is older |
| `QcCandidates.OlderFirst` | backend/app/technical_qc.py:360-383 | told from the rows: the earlier project has an eligible row older than all of the later one's, or as old as the oldest of them and then the smaller id |
| `QcCandidates.CandidatesShape` | backend/app/technical_qc.py:384-439 | the candidates are first rows of distinct items, in episode order within each project, and include every window |
| `QcCandidates.CandidatesBounded` | backend/app/technical_qc.py:342-439 | there are at most as many candidates as items with an eligible row |
| `QcClaims.GroupFree` | backend/app/technical_qc.py:559-571 | exactly the candidates of free items, each under its own project, every queue in episode order |
| `QcClaims.OrderProjects` | backend/app/technical_qc.py:581-588 | every project once, by running count, age of its first candidate and id |
| `QcClaims.VisitOrder` | backend/app/technical_qc.py:581-588 | projects are visited fewest running first, then by the age of their first candidate, then by id |
| `QcClaims.SelectPass` | backend/app/technical_qc.py:544-612 | what a pass selects is eligible, within caps and in episode order within each project; without a cut-off, selecting nothing means nothing more could run |
| `QcClaims.ClaimSelected` | backend/app/technical_qc.py:614-636 | claims the selection in order within both limits, changes exactly the claimed rows, reports exactly the items that conflicted and keeps the lease invariant |
| `QcClaims.ClaimTasks` | backend/app/technical_qc.py:521-637 | refuses non-positive bounds untouched; otherwise at most limit claims, with distinct ids, of ready and claimable tasks, exactly those rows changed after the sweep, each project at most max(previous, cap), no item tried twice; and without conflicts and with no more items having an eligible row than the scan limit, limit claims are made or nothing more could run |
| `QcClaims.BlockedProjectIsSaturated` | backend/app/technical_qc.py:559-612 | a project below its cap from which nothing was selected has all its eligible items running |
| `QcIntervals.MergeOverlappingIntervals` | backend/app/technical_qc.py:219-253 | the loop computes the merge of the sorted input |
| `QcIntervals.LeIsTupleOrder` | backend/app/technical_qc.py:220-229 | the sort order is that of the tuples of the sort key |
| `QcIntervals.LaterValuesWin` | backend/app/technical_qc.py:243-244 | of two joined intervals the later one's values win |
| `QcIntervals.MergeTheorem` | backend/app/technical_qc.py:219-253 | outputs are the hulls, with the union of reasons, of consecutive blocks of the sorted input, strictly apart in frames; merging again changes nothing if and only if they are disjoint in time, which holds when start times follow the sort order |
| `QcIntervals.FixedPointIffTimesApart` | backend/app/technical_qc.py:219-253 | intervals apart in frames are a fixed point of the merge if and only if they are apart in time |
| `QcMergeTwice.MergeTwiceIff` | backend/app/technical_qc.py:219-253 | told from the input: merging twice is merging once if and only if, along the sort order, nothing after a gap starts before what came before the gap has ended |
| `QcIntervals.TimeOrderIsNeeded` | backend/app/technical_qc.py:235-242 | three well-formed intervals whose merge is not a fixed point |
| `QcIntervals.MergeIsOrderIndependent` | backend/app/technical_qc.py:219-253 | every rearrangement of the input merges to the same intervals, apart from values |
| `QcDetection.FrameTimeMs` | backend/app/technical_qc.py:173-176 | raises exactly on a negative frame or a rate that is not positive; otherwise within half a millisecond of the exact rational |
| `QcDetection.FrameTimeMonotone` | backend/app/technical_qc.py:173-176 | frame times never go back |
| `QcDetection.ShortShotIntervals` | backend/app/technical_qc.py:179-206 | exactly the boundary gaps of one to three frames, field by field, in order, apart, a fixed point of the merge; and exactly when it raises |
| `QcLuma.FindRuns` | backend/app/technical_qc.py:1128-1137 | the maximal runs of consecutive frames, in order |
| `QcLuma.ContinuousLumaIntervals` | backend/app/technical_qc.py:1118-1163 | raises exactly on frames with a rate that is not positive; otherwise one interval per frame and one per run longer than a second, each with its own value; merged, one interval with both reasons per such run and one per frame otherwise |
| `QcLuma.LumaMerge` | backend/app/technical_qc.py:219-253 | for any monotone clock and maximal runs, merging the detected intervals gives exactly that |
| `QcLuma.ExpectedRunMeans` | backend/app/technical_qc.py:1149-1162 | field by field: a run longer than a second is one interval with both reasons, any other one interval per frame |
| `DHash.ThumbnailDhash` | backend/app/media_derivatives.py:579-587 | raises unless the frame has 72 bytes; otherwise the 16 hexadecimal digits of the 64 packed comparisons |
| `DHash.HexRoundTrip` | backend/app/media_derivatives.py:587-587 | parsing the printed digits gives the number back |
| `DHash.XorCountsDifferences` | backend/app/thumbnail_similarity.py:26-32 | the popcount of the xor of two packed bit strings is the number of positions where they differ |
| `DHash.SimilarIsSymmetric` | backend/app/thumbnail_similarity.py:26-32 | similarity is symmetric |
| `DHash.DhashSimilarity` | backend/app/thumbnail_similarity.py:26-32 | end to end, two frames are similar exactly when at least 55 of their 64 comparisons agree |
| `DHash.SimilarByPixels` | backend/app/thumbnail_similarity.py:26-32 | two frames are similar exactly when at least 55 of the 64 positions agree on whether the pixel is brighter than its right neighbour |
| `DHash.SignatureBits` | backend/app/media_derivatives.py:579-587 | the signature's number has the comparison at position k as its bit 63 - k |
| `UnionFind.Forest.Find` | backend/app/thumbnail_similarity.py:188-192 | returns the element's root; path halving changes no element's root |
| `UnionFind.Forest.Union` | backend/app/thumbnail_similarity.py:194-198 | moves exactly the right element's tree under the left root |
| `ThumbnailGroups.Unite` | backend/app/thumbnail_similarity.py:200-204 | after the double loop the roots are exactly the components of the similarity graph |
| `ThumbnailGroups.SameRootIffJoined` | backend/app/thumbnail_similarity.py:186-204 | two tasks have the same root exactly when a similarity path joins them |
| `ThumbnailGroups.CompanionIffSimilar` | backend/app/thumbnail_similarity.py:206-218 | a task shares its root with another exactly when some other task is similar to it |
| `ThumbnailGroups.FullRebuild` | backend/app/thumbnail_similarity.py:185-218 | a task wants the fallback frame exactly when some other task is similar to it |
| `ThumbnailGroups.Incremental` | backend/app/thumbnail_similarity.py:164-184 | the changed task by the graph, its matches the fallback frame, all others as stored |
| `ThumbnailGroups.IncrementalAgreesIff` | backend/app/thumbnail_similarity.py:164-218 | the incremental map equals the full rebuild if and only if every unmatched stored choice was right in the graph without the changed task |
| `ThumbnailTasks.NormalizedTwice` | backend/app/thumbnail_similarity.py:48-109 | normalizing stored details again changes nothing once no new output can be adopted |
| `ThumbnailTasks.ApplyChoice` | backend/app/thumbnail_similarity.py:222-284 | the body of the apply loop, with its guards against idle writes, is the specified row transition with a deferred pointer update |
| `ThumbnailTasks.DesiredFrames` | backend/app/thumbnail_similarity.py:163-218 | the frames chosen for signed current tasks, incrementally or by rebuild |
| `ThumbnailTasks.Project.Regroup` | backend/app/thumbnail_similarity.py:112-290 | the whole regrouping, tasks first and pointers after, is the specified function of the rows and the similarity graph |
| `ThumbnailTasks.Project.ClaimTask` | backend/app/media_derivatives.py:1106-1300 | a claim is given exactly to an eligible task that nothing refuses, with a fresh lease, the wanted frame and the stored signature; a refused one fails |
| `ThumbnailTasks.Project.RenewLease` | backend/app/media_derivatives.py:1303-1357 | renews exactly for the current unexpired lease of a current version in a live project |
| `ThumbnailTasks.Project.PublishDatabase` | backend/app/media_derivatives.py:1988-2143 | publishes under the same fence, regroups after a first-frame publication, and reports the task's status exactly when it published or the file is shown already |
| `ThumbnailTasks.Project.RecordFailure` | backend/app/media_derivatives.py:2248-2279 | has an effect exactly under the current unexpired lease and is the specified step |
| `ThumbnailTasks.Project.UploadVersion` | backend/app/modules/final_cut_review/infra/repositories.py:2045-2076 | retires the old version, adds a queued task for the new one and regroups, unless the project is deleted |
| `ThumbnailTasks.Project.DeleteItem` | backend/app/modules/final_cut_review/infra/deletion.py:236-248 | removes the item's rows and regroups the rest, unless the project is deleted |
| `ThumbnailTasks.Project.RequeueMissing` | backend/app/modules/final_cut_review/infra/repositories.py:4743-4789 | requeues exactly a ready task whose shown file is missing, keeping its cached variants |
| `ThumbnailAuthority.RunsKeepInvariant` | backend/app/media_derivatives.py:1106-2279 | across every interleaving: a ready task's output is the cached variant of its desired frame and its version's pointer, also after a regrouping superseded a running transform; running means leased and the lease's claim carries the row's signature; attempts never pass the maximum; every signed current task wants what the similarity graph says |
| `ThumbnailAuthority.ShownFrame` | backend/app/thumbnail_similarity.py:220-290 | in every state of every run, a ready current task shows the fallback frame exactly when some other current thumbnail is similar to its own |
| `ThumbnailAuthority.PublicationIsKept` | backend/app/media_derivatives.py:2077-2125 | a publication under a live lease is never lost: its file stays cached, the lease is given back, and the task is ready exactly when the frame it now wants is cached, else queued |
| `ThumbnailAuthority.SupersededForever` | backend/app/media_derivatives.py:2029-2035 | a worker whose task no longer runs under its lease never has an effect again |
| `ThumbnailAuthority.SignatureIsKept` | backend/app/media_derivatives.py:1262-1298 | a task's signature, once written, never changes |
| `ThumbnailAuthority.LeaseCostsAnAttempt` | backend/app/media_derivatives.py:1249-1257 | a new lease is given only by a claim and costs exactly one attempt within the maximum; the counter otherwise stays or restarts at zero on a queued or ready task |
| `ThumbnailAuthority.RegroupTwice` | backend/app/thumbnail_similarity.py:112-290 | a full regrouping repeated writes nothing, not even a timestamp |
| `ThumbnailOutcomes.ClaimGivenIff` | backend/app/media_derivatives.py:1174-1300 | a claim is given if and only if the task may start, its project is live, attempts are left, its source is good and its version current; a refused task fails, any other is left alone |
| `ThumbnailOutcomes.RefusalReason` | backend/app/media_derivatives.py:1184-1247 | a refused claim records the first reason that applies |
| `ThumbnailOutcomes.RetryIff` | backend/app/media_derivatives.py:2266-2279 | after a reported failure the task can start again if and only if it was retryable, attempts were left and the delay has passed; otherwise it has failed and no claim takes it |
| `ThumbnailOutcomes.WritesIff` | backend/app/media_derivatives.py:2023-2042 | a worker's step has an effect only while its task runs under that very unexpired lease, and then a publication or report always ends the lease |
| `ThumbnailOutcomes.RenewalMeans` | backend/app/media_derivatives.py:1354-1357 | a renewal moves the end of the lease to exactly the lease time from now and nothing else |
| `ThumbnailOutcomes.RepairIff` | backend/app/modules/final_cut_review/infra/repositories.py:4777-4789 | exactly a ready task whose shown file is missing comes back, startable at once with its variants and pointer kept |
| `ThumbnailOutcomes.RegroupMeans` | backend/app/thumbnail_similarity.py:246-284 | field by field, what a regrouping does to a task with a signature |
| `ThumbnailOutcomes.DiscoveryIff` | backend/app/thumbnail_similarity.py:226-243 | discovery puts a ready task without a signature back to work for its first frame |
| `ThumbnailOutcomes.NormalizedMeans` | backend/app/thumbnail_similarity.py:48-109 | exactly what normalizing keeps of signature, variants and desired frame |
| `ThumbnailOutcomes.UploadMeans` | backend/app/modules/final_cut_review/infra/repositories.py:2045-2076 | retired versions are no longer current, others as before, and the new task can start at once |
| `ThumbnailOutcomes.RemoveMeans` | backend/app/modules/final_cut_review/infra/deletion.py:236-248 | exactly the other tasks stay, as current as they were |
| `ThumbnailOutcomes.DeletedForever` | backend/app/media_derivatives.py:1184-1192 | in a deleted project no claim is given and nothing is renewed, published, uploaded or removed, ever again |
| `DeletionIntents.RunsAreSafe` | backend/app/maintenance_cleanup.py:594-743 | over any workers and takeovers: a deleted artifact's file is neither at its name nor in quarantine, a complete intent has only such artifacts, a claim is set exactly while cleaning, and the incomplete-without-failure code is never recorded |
| `DeletionIntents.DeletedStays` | backend/app/maintenance_cleanup.py:627-708 | the row of a deleted artifact is never written again |
| `DeletionIntents.CompleteForever` | backend/app/maintenance_cleanup.py:357-363 | a complete intent is never reclaimed, and neither it nor its artifacts ever change |
| `DeletionIntents.TakenIff` | backend/app/maintenance_cleanup.py:357-390 | an intent is taken if and only if it is pending, failed, or being cleaned under a lease that is over |
| `DeletionIntents.AttemptMeans` | backend/app/maintenance_cleanup.py:503-591 | an attempt returns normally if and only if it succeeds and is not on an ordinary file in quarantine, and the file is then gone |
| `DeletionIntents.CompletesIff` | backend/app/maintenance_cleanup.py:709-742 | an intent is completed by a step if and only if that is the last step of the worker holding its claim and every artifact is deleted |
| `DeletionIntents.TakeoverSupersedes` | backend/app/maintenance_cleanup.py:357-390 | claiming an expired intent supersedes the claim it had |
| `DeletionIntents.SupersededForever` | backend/app/maintenance_cleanup.py:601-743 | a superseded claim never writes an intent or an artifact again |
| `DeletionCleaner.Cleaner.ClaimIntents` | backend/app/maintenance_cleanup.py:344-390 | refuses bad bounds untouched; otherwise takes every eligible intent among those found, in order up to the batch size, each under a fresh claim with its own worker, and does nothing else |
| `DeletionCleaner.Cleaner.DeleteArtifact` | backend/app/maintenance_cleanup.py:503-591 | one attempt moves exactly that file as specified and returns normally only if it is gone |
| `DeletionCleaner.Cleaner.RecordOutcome` | backend/app/maintenance_cleanup.py:653-708 | the outcome is written to that artifact exactly while the claim is held |
| `DeletionCleaner.Cleaner.FinishIntent` | backend/app/maintenance_cleanup.py:709-742 | closes the intent exactly while the claim is held, complete exactly if nothing remains; unfinished only after a recorded failure |
| `DeletionCleaner.Cleaner.Cleanup` | backend/app/maintenance_cleanup.py:594-743 | the loop, with everybody else's steps in between, is a run of the machine that takes its worker to the end; it loses its claim only if it no longer holds it, and if it is not taken over, nobody strands a file, none is stuck and every attempt succeeds, the intent is completed |
| `AdmissionLimiter.Limiter.TryAcquire` | backend/app/upload_parts.py:53-78 | raises exactly on invalid arguments, refuses exactly at a limit or under exclusive use, else hands out a fresh unreleased lease |
| `AdmissionLimiter.Limiter.TryAcquireExclusive` | backend/app/upload_parts.py:80-87 | raises exactly on an empty id, refuses exactly when the upload is exclusive or active, else a fresh lease |
| `AdmissionLimiter.Limiter.ReleaseTicket` | backend/app/upload_parts.py:89-101 | both counters are present and go down by one, dropping a key at one |
| `AdmissionLimiter.PartLease.Return` | backend/app/upload_parts.py:23-27 | the first release gives the lease back, any later one changes nothing |
| `AdmissionLimiter.ExclusiveLease.Return` | backend/app/upload_parts.py:36-40 | the same for exclusive use |
| `AdmissionLimiter.RunsRefine` | backend/app/upload_parts.py:43-105 | after any operations, each acquisition under its own limits, the total is the sum over principals, the sum over uploads and the number of held leases, each counter counts its key's leases, and no upload is both exclusive and active |
| `AdmissionLimiter.RunsStayWithin` | backend/app/upload_parts.py:53-78 | limits that no acquisition of a run goes beyond are never exceeded |
| `AdmissionLimiter.AdmittedIff` | backend/app/upload_parts.py:53-78 | a lease is granted if and only if the arguments are valid, nobody holds the upload exclusively and the held leases in all, of the principal and for the upload are each fewer than their limit |
| `AdmissionLimiter.ExclusiveIff` | backend/app/upload_parts.py:80-87 | exclusive use is granted if and only if the upload has an id, nobody has it exclusively and no part of it is held |
| `AdmissionLimiter.AllReturned` | backend/app/upload_parts.py:89-105 | when every lease is released the limiter is as new |
| `Faststart.AssertFaststart` | backend/app/media_derivatives.py:217-230 | for every byte string it terminates, and accepts if and only if the bytes are the serialization of a box list with a moov before the first mdat |
| `Faststart.ParseWritten` | backend/app/media_derivatives.py:194-214 | parsing the serialization of any well-formed box list gives the list back |
| `Faststart.WrittenParse` | backend/app/media_derivatives.py:194-214 | whatever parses is a well-formed box list that serializes to the same bytes |
| `Faststart.AnswerOnSerialized` | backend/app/media_derivatives.py:217-230 | on a serialized box list the answer is the one read off the list |
| `StorageLocks.CanonicalTwice` | backend/app/storage_mutation_locks.py:25-34 | a canonical target is a namespace and a plain name, and its own canonical form |
| `StorageLocks.CanonicalIff` | backend/app/storage_mutation_locks.py:25-34 | of a namespace and a plain name: canonical if and only if the namespace is one of the two and the name proper, and then its own canonical form |
| `StorageLocks.AbsoluteIsRefused` | backend/app/storage_mutation_locks.py:27-28 | no absolute path is canonical |
| `StorageLocks.SortedTargets` | backend/app/storage_mutation_locks.py:148-157 | exactly the canonical targets, ascending without repetition; raises exactly if one is not canonical |
| `StorageLocks.StepsMean` | backend/app/storage_mutation_locks.py:158-172 | taking a free lock gives exactly that one, and ending gives back exactly those held |
| `StorageLocks.HolderIsAhead` | backend/app/storage_mutation_locks.py:158-172 | whoever holds a lock another waits for waits, if at all, for a later one |
| `StorageLocks.NoDeadlock` | backend/app/storage_mutation_locks.py:148-178 | in every state of every run of any number of transactions, if one is unfinished then some unfinished one can step |
| `StorageLocks.ProductiveRunsAreBounded` | backend/app/storage_mutation_locks.py:148-178 | a run in which each step takes a free lock or ends a transaction that has all its locks uses up one unit of work per step, so it is no longer than the work there was |
| `StorageLocks.EveryoneEnds` | backend/app/storage_mutation_locks.py:148-178 | wherever such a run stands it can be continued the same way, without any abort, until every transaction has had all its locks and ended |

## Left out

- SQL text, sessions, HTTP, ffmpeg and ffprobe control, metrics, migrations, contract generation and the front end: plumbing around the modelled logic.
- Parsing of ffmpeg logs: the QC models start from frame numbers and cuts.
- The legacy package quarantine (backend/app/package_cleanup_files.py:257-381, 400-631): the same journal pattern a second time; the package models start with that quarantine empty.
- Lost or reordered writes between fsyncs: a crash leaves a prefix of the steps. A manifest file is created, then partly written, then whole; how its bytes are split into writes is not modelled.
- Creation of the quarantine roots and the directory scans of recovery, which only choose the entry that is recovered.
- ThumbnailTasks.Project.ClaimTask: playback tasks are not modelled, and kinds other than the two are excluded by a table constraint; the candidate is given, and checked again as the code does after locking.
- ThumbnailTasks.Project.PublishDatabase: the file row's own fields are reduced to whether they conflict; codec class and decode acceleration are not kept; whether the published file is still on disk after a stalled worker discards it is not claimed.
- DHash.ThumbnailDhash: bytes are numbers, their bound of 255 is not used; signatures are 16 hexadecimal digits, without the blanks, signs and underscores Python's `int` also admits.
- QcTasks.TaskTable.Serve: the attempt limit is the same in every call; the rest of the fence, an active project and a current version whose playback file is the input, is one flag.
- QcClaims.ClaimTasks: serial claim transactions; caps under concurrent claimers are not claimed. Rows locked by others appear as conflicts.
- QcClaims.GroupFree: the re-sorting of each project's rows is left out, they are in that order already (`FullWindowShape`).
- QcLuma.ContinuousLumaIntervals: measured values are integers; what becomes of values in a merge depends on the order and is not stated.
- QcIntervals.MergeIsOrderIndependent: apart from `values`, for which the order does matter.
- DeletionCleaner.Cleaner.DeleteArtifact: the physical attempt is one step that removes, leaves or strands the file; the checks of path, namespace and captured identity appear as an attempt that leaves it.
- AdmissionLimiter.PartLease.Return: a lease's `released` flag is tested outside the limiter's lock (backend/app/upload_parts.py:23-27), so two threads releasing the same lease at the same moment are not covered; calls are serial.
- StorageLocks.NoDeadlock: one acquisition call per transaction, and lock keys taken to be distinct for distinct targets.
- The upload part path and name validators, the orphan and staging sweeps, package building, review commands and upload finalization.
