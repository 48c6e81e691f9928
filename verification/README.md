# PSMatrix release machinery, modelled in Dafny

PSMatrix ships its 2.0.0 release through scripts under `scripts/ga/` that change a live repository and
decide, receipt by receipt, how far the release may go. This project models the scripts whose
correctness is hardest to see by reading them and proves what they promise.

| part | modules |
|---|---|
| stale-branch cleanup: two audit files reserved by inode, branch deletion, verification, commit, rollback | `AuditFiles`, `StaleBranches`, `RefTransaction`, `StaleCleanup` |
| publishing one immutable release: draft, upload, verify, publish, reconcile or roll back | `PublicationAssets`, `ReleasePublication` |
| chunked search for private-key markers | `MarkerScan` |
| paged listings, and choosing one run per evidence gate in two implementations | `Paging`, `RunDiscovery` |
| readiness: assemble a summary, review it, plan from it, bind it to a stage | `Readiness`, `ReadinessReview`, `EvidencePreflight` |
| canonical forms: material map, content closure, ZIP order, tree manifest | `MaterialMap`, `ContentClosure`, `DeterministicZip`, `TreeManifest` |

`Collections` and `Sorting` hold general facts; `CleanupRecords` the cleanup's records. Verify all of
it with `dafny verify dfyconfig.toml`.

## How failure is modelled

GitHub, the file system and the release remote are classes whose methods choose their outcome freely,
so a postcondition of a method holds over every run, whichever calls fail. An exception is a result
value.

- Branch refs (`GitHub`): any request may raise. A mutating call that raised may or may not have taken
  effect; one that returned did. The sequence of calls is kept, and `Replay` gives its effect.
- Files (`FileSystem`): a name is bound to an inode identity. Any operation may fail, and before
  any lookup, creation, write or read other processes may have rebound or removed names (`Interfere`).
- The release remote (`Hub`): a mutating call may raise or return, with or without effect, and may
  leave an arbitrary release and tag; only what is read back is trusted.
- What went wrong is recorded: `faulted` for GitHub, a log of raised calls and interference for the
  disk, the phases with a failed request for the release remote. The contracts use these records to
  say also when an operation must succeed, and that each failure is followed up: a cleanup, rollback
  or reconciliation may fall short only because of something that went wrong in it.

What a filtering or counting loop yields is stated without the loop: `Lists` says by positions that a
result shows exactly the kept elements, each once and in order, `OnlyAt` that one position qualifies, and
`Kept` and `Cells` count positions. Tests that the source makes field by field are spelled out again,
field by field, in the lemmas whose names end in `Means` or `Iff`.

Assumed: nobody else changes branch refs or the release remote during a run; queries that return are
truthful, and looking a release up by tag reports drafts; other processes neither write a reserved
file nor give it a second name; comparing an identity and unlinking it is one step; identities are not
reused. Case folding, stripping, hashing and path resolution are arbitrary functions; a collision-free hash is
assumed only where a row says so. Page counts use the exact integer ceiling.

## What the proofs found

- A branch deletion that takes effect and then raises, as a client timeout does, is neither restored
  nor named in the rollback errors, because `deleted.append` is reached only on a normal return
  (`HiddenDeletionIsLostSilently`). `RollbackIsAtomicIff` gives the exact condition under which the
  heads come back, `LossesAreNamedIff` and `NamedExactlyIff` those under which every loss is named and
  only losses are.
- A reservation that raises after creating its file can leave the file behind with no cleanup error
  reported (`ReservationMayLeaveItsFile`): `fstat` is called outside the guarded block, and the handler
  swallows an OSError of its own `lstat` or `unlink`. `LeftBehindIff` gives the exact condition on the
  calls that raised: `fstat`, or an `lstat` and then another `lstat` or an `unlink`. Nothing else is
  left behind unreported (`RunCommand`).
- `_paged_listing` does not test ids for repeats, so a server that reorders rows between pages can
  hide one (`ListingMayMissARow`); the listing is complete exactly when it has no repeats
  (`ReorderedListing`). `_collect_workflow_runs` has the test and is complete.
- A path variable that is not also a required variable is never checked
  (`UnlistedPathVariableIsUnchecked`); `StageConfirmsPathsIff` says when the stage confirms them all.
- Without a readiness receipt, the two lock flags of the binding say only that a receipt was supplied
  (`LockFlagsMayBeUnverified`). They are backed by their checks exactly when one is supplied
  (`FlagsBackedIff`), so the end-to-end theorems are about the stage.

## Model

| member | source | states |
|---|---|---|
| `StaleCleanup.RunCommand` | scripts/ga/cleanup_stale_release_work.py:696-820 | Every run of the command. Committed: executing left exactly the non-stale initial heads, no stale open pull request, and the output path holds the operation receipt (PASS, mutating exactly if something was deleted) and the verification path the verification receipt, each under its reserved inode (or another process took the name away); a dry run changed no head and wrote an unexecuted DRY_RUN plan. Both receipts name the repository, the listed counts, every stale head once at its commit in code-point order and every stale pull request once by number. Not committed: the heads follow a rollback run over stale branches only, and a file of the run still in place is one whose own cleanup reported an lstat or unlink that did raise, or the file of the one reservation that raised, on whose path fstat raised, or an lstat and then another lstat or an unlink. When nothing went wrong on the disk, a committed run's paths are bound and were free before, and an uncommitted one leaves no file and reports no cleanup error; when nothing went wrong on GitHub either, it commits exactly when receipts, listings, commits and paths allow. Only own inodes under own paths are ever unlinked. The exit code is 0 exactly when the run committed and printing did not fail. |
| `StaleCleanup.UncommittedRunIsAtomic` | scripts/ga/cleanup_stale_release_work.py:645-656 | A run that did not commit splits the initial heads into the final heads and exactly the branches named in its errors if and only if no call that raised took effect; then, with no error named, nothing changed. A head that remains is never altered. |
| `StaleCleanup.SparedHeadsStay` | scripts/ga/cleanup_stale_release_work.py:539-658 | In every run, committed or not, the four anchor heads and every head without a stale prefix keep their commits. |
| `StaleCleanup.CommittedHeads` | scripts/ga/cleanup_stale_release_work.py:616-644 | After a committed execution a head exists exactly if it existed and is an anchor or has none of the six stale prefixes, at its old commit. |
| `StaleCleanup.ExecutePlan` | scripts/ga/cleanup_stale_release_work.py:539-658 | Executed: the calls are exactly one deletion per planned row, the heads are the non-stale initial ones and both audit files hold their documents, bound unless another process interfered. Rejected: no call was made; otherwise the plan was an unexecuted one of this repository with every row a stale head at its current exact commit. Rolled back: heads, calls and named errors are those of a rollback run of the plan. Without faults it executes whenever plan, listings and reservations are good; an undisturbed failure leaves every owned audit file removable or removed. |
| `StaleCleanup.CheckPlan` | scripts/ga/cleanup_stale_release_work.py:548-602 | Accepts only an unexecuted plan without stale pull requests whose rows are all stale branches at their current commit; raises only on such a plan being bad or a request failing; mutates nothing. |
| `StaleCleanup.DeleteAndCommit` | scripts/ga/cleanup_stale_release_work.py:605-644 | The try block: the deletions made are a recorded prefix of the plan and at most one raising call; a normal return means all were made, no stale work is left and both audit files are written; without faults it raises only when the plan, the listings or the reservations forbid it. |
| `StaleCleanup.DeletePlanned` | scripts/ga/cleanup_stale_release_work.py:606-614 | What it recorded is a duplicate-free prefix of the plan pinned to the initial heads, plus at most one raising deletion that was not recorded; it stops early only for a fault, a moved or repeated row. |
| `StaleCleanup.VerifyAndCommit` | scripts/ga/cleanup_stale_release_work.py:616-644 | Returns only when no stale head and no stale open head is left and both audit files hold their documents, bound unless another process interfered; raises only for ineligible receipts, bad listings, stale work left, unready reservations or a fault. |
| `StaleCleanup.RestoreDeleted` | scripts/ga/cleanup_stale_release_work.py:645-650 | One restore per deleted row, last deleted first, carrying on past failures; the errors are exactly the raised ones in order. |
| `StaleCleanup.Rollback` | scripts/ga/cleanup_stale_release_work.py:645-656 | Whatever the deletions did, the run as a whole is a rollback run: its calls, its effect on the heads and its named errors. |
| `StaleCleanup.BuildPlan` | scripts/ga/cleanup_stale_release_work.py:497-531 | A plan exists exactly when the targets name the stale branches and no others; it lists the stale branches in their order, and each row is one of the targets. |
| `StaleCleanup.PlanOfSurvey` | scripts/ga/cleanup_stale_release_work.py:495-531 | A plan built from a survey and its resolved targets lists exactly the stale heads, each once and at its commit, exactly the stale open pull requests, and the listed counts. |
| `StaleCleanup.ResolveTargets` | scripts/ga/cleanup_stale_release_work.py:677 | One target per stale branch in order, each the exact current commit; raises only on a fault or an unresolvable branch. |
| `StaleCleanup.SurveyRepository` | scripts/ga/cleanup_stale_release_work.py:674-676 | The stale names found are exactly the stale heads, without repeats, and the stale pull requests exactly those with a stale head. |
| `StaleCleanup.PlanOperation` | scripts/ga/cleanup_stale_release_work.py:672-680 | A plan covers exactly the stale heads and stale pull requests; planning raises only on a fault or when receipts, listings or commits are unfit. |
| `StaleCleanup.PlannedCommits` | scripts/ga/cleanup_stale_release_work.py:672-691 | The plan just made passes the pre-flight and commits, provided no open pull request is stale. |
| `StaleCleanup.ExecuteOperation` | scripts/ga/cleanup_stale_release_work.py:683-691 | Executing the plan just made commits as recorded or undoes itself; without faults it commits unless the listings, an open stale head or the reservations forbid it. |
| `StaleCleanup.Operate` | scripts/ga/cleanup_stale_release_work.py:661-693 | Both modes of one operation: committed and recorded, or undone; with the converse when nothing fails. |
| `StaleCleanup.Attempt` | scripts/ga/cleanup_stale_release_work.py:711-786 | Including reservation: a committed run had two different paths and, undisturbed, neither existed before, in a dry run too; an undisturbed run leaves every reserved path either owned or free; without faults it commits whenever the inputs are committable. |
| `StaleCleanup.Reserve` | scripts/ga/cleanup_stale_release_work.py:712-733 | The path checks and reservations of main: undisturbed they succeed exactly on two different free paths, in a dry run too, and every path reserved is owned. |
| `StaleCleanup.NothingLeftBehind` | scripts/ga/cleanup_stale_release_work.py:804-812 | After cleanup, a name bound to a file of this run is accounted for by a raised lstat or unlink of its own path that its cleanup reported, or belongs to the one reservation that raised, on whose path fstat raised, or an lstat and then another lstat or an unlink. |
| `StaleCleanup.NothingToAccount` | scripts/ga/cleanup_stale_release_work.py:804-812 | When nothing went wrong on the disk, the cleanup reports no error, no reservation left a file, and no name is bound to a file of this run. |
| `RefTransaction.RollbackEffect` | scripts/ga/cleanup_stale_release_work.py:604-656 | The effect of every rollback run is the initial heads minus the lost branches: raising deletions that took effect and restores that did not. |
| `RefTransaction.RollbackIsAtomicIff` | scripts/ga/cleanup_stale_release_work.py:604-656 | The heads come back exactly when no raising deletion had taken effect and every restore did. |
| `RefTransaction.RollbackNamesEveryLoss` | scripts/ga/cleanup_stale_release_work.py:645-656 | The initial heads are the disjoint union of the final heads and exactly the branches named in the rollback errors if and only if no call that raised took effect. |
| `RefTransaction.LossesAreNamedIff` | scripts/ga/cleanup_stale_release_work.py:606-656 | Every lost branch is named exactly when no raising deletion had taken effect. |
| `RefTransaction.NamedExactlyIff` | scripts/ga/cleanup_stale_release_work.py:606-656 | The branches named are exactly those lost if and only if no call that raised took effect. |
| `RefTransaction.ErrorsInOrder` | scripts/ga/cleanup_stale_release_work.py:645-656 | The errors name the branches of the raised restores, one each, in the order they were tried. |
| `RefTransaction.HiddenDeletionIsLostSilently` | scripts/ga/cleanup_stale_release_work.py:606-614 | A deletion that took effect and then raised is neither restored nor named (concrete run). |
| `RefTransaction.ProtectedAtEveryStep` | scripts/ga/cleanup_stale_release_work.py:575-656 | Allowed and non-stale branches keep their heads after every prefix of the calls of a rollback run. |
| `RefTransaction.ProtectedWhileDeleting` | scripts/ga/cleanup_stale_release_work.py:606-614 | Allowed and non-stale branches keep their heads after every prefix of the deletions of a committed run. |
| `RefTransaction.CallsAreOfPlanned` | scripts/ga/cleanup_stale_release_work.py:604-656 | Every call of a rollback run names a planned branch. |
| `RefTransaction.OnlyStaleRemoved` | scripts/ga/cleanup_stale_release_work.py:606-619 | Removing stale rows until no stale head is left leaves exactly the non-stale initial heads. |
| `RefTransaction.ReplayDeletes` | scripts/ga/cleanup_stale_release_work.py:606-614 | Deleting a list of rows removes exactly their branches. |
| `RefTransaction.ReplayRestores` | scripts/ga/cleanup_stale_release_work.py:645-650 | Restoring recorded commits in any order re-adds exactly the branches whose restore applied. |
| `RefTransaction.GitHub.BranchRef` | scripts/ga/cleanup_stale_release_work.py:470-484 | Returns the branch's exact commit; raises only when it is missing, not an exact commit, or on a fault. |
| `RefTransaction.GitHub.ListBranches` | scripts/ga/cleanup_stale_release_work.py:381-402 | A listing names exactly the heads, each once; raises only above the page limit or on a fault. |
| `StaleBranches.Verify` | scripts/ga/verify_stale_release_work_cleanup.py:28-116 | Accepts exactly eligible receipts with distinct branches and pull requests, well-formed rows, and no stale branch or stale open head; reports the counts. |
| `StaleBranches.StaleIff` | scripts/ga/verify_stale_release_work_cleanup.py:14-29 | A name is stale exactly when it is none of the four anchors and starts with one of the six prefixes, spelled out. |
| `StaleBranches.GoodPullIff` | scripts/ga/verify_stale_release_work_cleanup.py:72-83 | A pull request row is good exactly when its number is positive, it is open and its head is named. |
| `StaleBranches.ShaIff` | scripts/ga/verify_stale_release_work_cleanup.py:21 | An exact commit is forty characters of 0-9 and a-f. |
| `StaleBranches.CollectStale` | scripts/ga/cleanup_stale_release_work.py:418-467 | Raises exactly on a malformed or repeated row; otherwise exactly the stale branches in code-point order and exactly the stale pull requests in order of number. |
| `Sorting.LexLeIff` | scripts/ga/cleanup_stale_release_work.py:465 | The order of branch names: the first code point that differs decides, and a proper prefix comes first. |
| `StaleBranches.CollectStalePulls` | scripts/ga/cleanup_stale_release_work.py:443-463 | Raises exactly on a malformed or repeated pull request; otherwise exactly those with a stale head, each once. |
| `AuditFiles.ReserveOutput` | scripts/ga/cleanup_stale_release_work.py:137-197 | Success means the name check saw the path bound, as the only name, to the fresh own inode; undisturbed it succeeds exactly on an absent path; a failure after creation leaves the file bound exactly when, since creation, fstat raised, or the name check's lstat and then the handler's lstat or unlink, and nobody else took the name away. |
| `AuditFiles.AbandonReservation` | scripts/ga/cleanup_stale_release_work.py:175-188 | The handler leaves the file only if its own lstat or unlink raised or the name is no longer its own; otherwise it is gone, and no other inode is unlinked. |
| `AuditFiles.LeftBehindIff` | scripts/ga/cleanup_stale_release_work.py:164-188 | A reservation abandoned after creating its file leaves it in place if and only if nobody else took the name away and the calls raised since creation include fstat, or an lstat followed by another lstat or an unlink. |
| `AuditFiles.ReservationMayLeaveItsFile` | scripts/ga/cleanup_stale_release_work.py:164-188 | The three concrete ways to leave the file behind (fstat; lstat twice; lstat and unlink), and that a single raised lstat is not one: there the file is gone. |
| `AuditFiles.RemoveOwned` | scripts/ga/cleanup_stale_release_work.py:210-228 | The unlinking half of cleanup: at most the reservation's own name is removed, every error names a call that raised on this path, and undisturbed the name is gone exactly if it was owned. |
| `AuditFiles.CleanupReservedOutput` | scripts/ga/cleanup_stale_release_work.py:200-234 | Unlinks only the reserved inode; if it is still in place its lstat or unlink raised and is reported; no error means the path is free; undisturbed the result is exactly that of removing the name if owned, with an error only for a foreign file. |
| `AuditFiles.CleanupTwice` | scripts/ga/cleanup_stale_release_work.py:200-234 | After an error-free cleanup a second one never removes anything more; undisturbed, the second raises what the first did and the disk is that of a single cleanup. |
| `AuditFiles.FinalizeReservedOutput` | scripts/ga/cleanup_stale_release_work.py:237-284 | Success means the path still names the reserved inode with exactly the document; a path that lost its inode is never written; undisturbed it succeeds exactly on an open, owned reservation. |
| `AuditFiles.WriteChecked` | scripts/ga/cleanup_stale_release_work.py:248-276 | Check, write, read back, check: a normal return means the path names the reserved inode with exactly the document; a path that lost its inode is never written. |
| `AuditFiles.WriteAndRead` | scripts/ga/cleanup_stale_release_work.py:259-267 | Success means the reserved inode holds exactly the document, whatever happened to the name; undisturbed it succeeds and moves no name. |
| `AuditFiles.FinalizeEach` | scripts/ga/cleanup_stale_release_work.py:290-292 | Finalizing a list in order: success means every output holds its own document, bound unless another process interfered; undisturbed it succeeds exactly when every reservation is open and owned, and moves no name. |
| `AuditFiles.FinalizeReservedOutputs` | scripts/ga/cleanup_stale_release_work.py:287-309 | All or nothing for any number of outputs: every path names its inode with its document (unless another process interfered), or every entry was cleaned up, and one still in place had its own lstat or unlink raise. Undisturbed it commits exactly when all are open and owned, and otherwise removes every owned one without error. |
| `AuditFiles.CleanupAll` | scripts/ga/cleanup_stale_release_work.py:804-812 | Every reservation is closed; one still in place had its own lstat or unlink raise and reports it; reported calls did raise; undisturbed, every owned or already free path ends free without error. |
| `AuditFiles.ReserveOutputs` | scripts/ga/cleanup_stale_release_work.py:723-735 | Reserves a list of paths in order, keeping account of every file created; at most one file is left, that of the reservation that raised, and only after fstat raised on its path, or an lstat and then another lstat or an unlink; undisturbed it succeeds exactly on distinct free paths. |
| `ReleasePublication.ExecutePlan` | scripts/ga/_publish_final_immutable_release_nine_asset.py:170-250 | Over every run: rolled back means release, tag and setting equal their initial values, whatever earlier mutating calls did; PASS means published, immutable, the id of the verified draft, tag at the target commit and exactly the planned assets, field by field, reconciliation included; the receipt says reconciled exactly when the second verification decided, always so after a raised publish; publish is issued at most once, last, and only on a verified exact draft; a release is deleted only after this run's create returned and it re-verified as a draft; the setting is disabled only with release and tag absent; the missing-release-id failures after publish do not exist as outcomes. Every failure is followed up whatever failed before: a rollback is incomplete only if one of its own requests failed or what exists is not this plan's draft, so a run that reached its uploads rolls back whenever the rollback's requests work; a publication is unresolved only if a reconciling request failed or the release is not published exactly. Without faults it passes exactly when the plan is executable, the remote clear and the names casefold-distinct. |
| `ReleasePublication.Prepare` | scripts/ga/_publish_final_immutable_release_nine_asset.py:194-203 | Reaches publish only with a verified exact draft and the setting enabled; issues at most one create; once uploads began the remote holds this plan's draft; without faults it is ready exactly when the asset names are casefold-distinct. |
| `ReleasePublication.UploadAndVerify` | scripts/ga/_publish_final_immutable_release_nine_asset.py:201-203 | Uploads keep the remote this plan's draft whatever fails; ready means the draft holds exactly the planned assets; without faults an empty draft becomes ready exactly when the names are casefold-distinct. |
| `ReleasePublication.PublishAndVerify` | scripts/ga/_publish_final_immutable_release_nine_asset.py:204-227 | From the publish attempt on: PASS only on a verified publication; reconciled exactly when the reconciling verification decided, always so after a raised publish, and only after a failed request; unresolved only if a reconciling request failed or the release is not published exactly. |
| `ReleasePublication.VerifyPublishedRemote` | scripts/ga/_publish_final_immutable_release_nine_asset.py:161-167 | With the setting enabled it accepts exactly the published plan, up to failed queries. |
| `ReleasePublication.PublishedMeans` | scripts/ga/_publish_final_immutable_release_impl.py:632-666 | Published exactly means, field by field: setting enabled, tag at the target, not a draft, not a prerelease, immutable, published, of the plan's name, tag, commit and id, with exactly the planned assets. |
| `ReleasePublication.SafeMeans` | scripts/ga/_publish_final_immutable_release_nine_asset.py:194-227 | Call by call: publishing and deleting meet only an unpublished mutable draft of this plan's name, tag and commit, publishing only with exactly the planned assets, deleting only after a create that returned; disabling meets neither release nor tag. |
| `ReleasePublication.ExecutableMeans` | scripts/ga/_publish_final_immutable_release_nine_asset.py:170-182 | Which plans may be executed, field by field. |
| `ReleasePublication.RollbackPrePublish` | scripts/ga/_publish_final_immutable_release_impl.py:679-707 | A normal return leaves no release and no tag, and the setting disabled if the run enabled it; it fails only if one of its own requests does, or, touching nothing, if the release is not this plan's draft or creation is in doubt and something exists. |
| `ReleasePublication.RollbackDraft` | scripts/ga/_publish_final_immutable_release_impl.py:669-676 | Deletes only what re-verifies as this plan's draft; a normal return leaves no release and no tag; it fails only on a failed request or, touching nothing, on a release that is not this plan's draft. |
| `ReleasePublication.RemoteClear` | scripts/ga/_publish_final_immutable_release_impl.py:515-522 | Answers true exactly when neither release nor tag exists. |
| `ReleasePublication.EnableImmutable` | scripts/ga/_publish_final_immutable_release_impl.py:542-545 | A normal return means the setting is on; nothing else changes. |
| `ReleasePublication.DisableImmutable` | scripts/ga/_publish_final_immutable_release_impl.py:548-551 | A normal return means the setting is off; nothing else changes. |
| `PublicationAssets.VerifyRemoteAssets` | scripts/ga/_publish_final_immutable_release_nine_asset.py:143-158 | For nine planned assets, accepts exactly when the remote rows are a permutation of the planned names, sizes and digests in state uploaded, and no two planned names fold alike. |
| `PublicationAssets.PassesIff` | scripts/ga/_publish_final_immutable_release_nine_asset.py:146-158 | The source's tests are equivalent to that permutation. |
| `PublicationAssets.PassesIsExact` | scripts/ga/_publish_final_immutable_release_nine_asset.py:146-158 | Passing the name-set and per-name tests makes the remote rows a permutation of the planned ones. |
| `PublicationAssets.ExactPasses` | scripts/ga/_publish_final_immutable_release_nine_asset.py:146-158 | A permutation of the planned rows passes every test. |
| `PublicationAssets.ContainedIsPermutation` | scripts/ga/_publish_final_immutable_release_nine_asset.py:146-150 | Distinct rows contained in equally many others are a permutation of them. |
| `MarkerScan.ScanFile` | scripts/ga/assemble_final_ga_evidence.py:156-172 | For every split into chunks and every set of nonempty markers, the carry-window scan hits exactly when some marker is a substring of the whole file; otherwise it reports the file's size. |
| `MarkerScan.ScanTree` | scripts/ga/assemble_final_ga_evidence.py:156-172 | Raises exactly when some file contains a private marker; otherwise returns the number of files and one for every byte of every file. |
| `MarkerScan.JoinConcat` | scripts/ga/assemble_final_ga_evidence.py:165-171 | A file is the concatenation of its chunks: one chunk is itself, and a split anywhere joins back. |
| `MarkerScan.WindowSuffices` | scripts/ga/assemble_final_ga_evidence.py:168-171 | A marker occurs in the text so far plus a chunk exactly when it occurs in the carried window plus the chunk, provided the text had none. |
| `MarkerScan.WindowSufficesForAll` | scripts/ga/assemble_final_ga_evidence.py:23-31 | The window of the longest marker less one serves every marker. |
| `MarkerScan.EvidenceScanCoversPackageScan` | scripts/ga/build_windows_authority_operation_package.py:100-102 | A text clean under the evidence scan is clean under the package scan. |
| `Paging.PagedList` | scripts/ga/cleanup_stale_release_work.py:381-402 | Returns the whole listing below 10,000 rows and raises otherwise, in at most 100 requests. |
| `Paging.PagedListing` | scripts/ga/complete_verified_final_evidence_run_ledger.py:200-228 | Returns exactly what the page and count tests accept; raises only when they accept nothing. |
| `Paging.FixedServer` | scripts/ga/complete_verified_final_evidence_run_ledger.py:200-228 | Against a fixed server the accepted listing is exactly the server's rows, for every length. |
| `Paging.ReorderedListing` | scripts/ga/complete_verified_final_evidence_run_ledger.py:208-228 | Against a server that reorders a fixed set between pages, an accepted listing is the whole set exactly when it has no repeats. |
| `Paging.ListingMayMissARow` | scripts/ga/complete_verified_final_evidence_run_ledger.py:218-228 | A concrete reordering server whose accepted listing misses a row. |
| `Paging.CollectWorkflowRuns` | scripts/ga/collect_final_validation_control_plane.py:101-142 | Accepts exactly the listings that pass the page tests with positive ids, no two alike. |
| `Paging.CollectedRunsAreTheSet` | scripts/ga/collect_final_validation_control_plane.py:125-142 | Under reordering of a fixed set, the accepted runs are exactly that set. |
| `RunDiscovery.Discover` | scripts/ga/discover_final_evidence_run_ledger.py:19-60 | Returns a ledger at the lower-cased head exactly when every gate has one position in the run listing holding a successful completed dispatch of its workflow at that head with exactly one unexpired artifact of its name and a positive id, and no run serves two gates; raises only when no such ledger exists. |
| `RunDiscovery.CollectCandidates` | scripts/ga/discover_final_evidence_run_ledger.py:31-43 | The inner loop lists, once each and in listing order, the ids of exactly those runs. |
| `RunDiscovery.SelectAll` | scripts/ga/discover_final_evidence_run_ledger.py:27-50 | The loop over the gates: the selection of each gate's only candidate, without reuse, exactly when there is one. |
| `RunDiscovery.EligibleIff` | scripts/ga/discover_final_evidence_run_ledger.py:35-43 | A run is eligible exactly when it is a successful completed dispatch of the workflow at the head, with a positive id and exactly one unexpired artifact of the name. |
| `RunDiscovery.SoleRunIff` | scripts/ga/discover_final_evidence_run_ledger.py:31-46 | A gate's candidates are one id exactly when that id belongs to the only listed run that qualifies. |
| `RunDiscovery.LowerLaws` | scripts/ga/discover_final_evidence_run_ledger.py:20-35 | Lower-casing keeps length and every character that is not an upper-case letter, and folds the alphabet. |
| `RunDiscovery.HeadIff` | scripts/ga/discover_final_evidence_run_ledger.py:12-22 | A head is forty characters of 0-9 and a-f. |
| `RunDiscovery.DiscoveryIgnoresOrder` | scripts/ga/discover_final_evidence_run_ledger.py:29-50 | Any permutation of the listed runs selects the same ledger. |
| `RunDiscovery.DiscoveryIgnoresIneligibleRuns` | scripts/ga/discover_final_evidence_run_ledger.py:32-43 | Removing any runs that no gate finds eligible leaves the selection unchanged. |
| `RunDiscovery.CandidatesPermutation` | scripts/ga/discover_final_evidence_run_ledger.py:31-43 | Permuting the runs permutes the candidates. |
| `RunDiscovery.Complete` | scripts/ga/complete_verified_final_evidence_run_ledger.py:112-163 | Returns a ledger that keeps the seed, gives every other gate the only listed run that qualifies for it at the frozen head and reuses no run; raises only when none exists. |
| `RunDiscovery.SelectRemaining` | scripts/ga/complete_verified_final_evidence_run_ledger.py:127-147 | The selection loop: gives every unseeded gate its only candidate and reuses no run; raises only when no completion exists. |
| `RunDiscovery.SelectionSeeds` | scripts/ga/complete_verified_final_evidence_run_ledger.py:59-67 | The two seeded gates of a discovered ledger make an acceptable seed. |
| `RunDiscovery.EligibleCandidates` | scripts/ga/complete_verified_final_evidence_run_ledger.py:74-109 | The same candidates as discovery, each with the id of the one unexpired artifact of the source's name. |
| `RunDiscovery.ValidateSeed` | scripts/ga/complete_verified_final_evidence_run_ledger.py:34-71 | Accepts exactly a genuine seed whose only run ids are those of the two seeded gates, in their order, positive and distinct, over eleven distinct gates. |
| `RunDiscovery.GoodSeedMeans` | scripts/ga/complete_verified_final_evidence_run_ledger.py:40-71 | An accepted seed has exactly two run ids, for the two seeded gates in order, positive and different, over eleven distinct gates. |
| `RunDiscovery.DiscoverAgreesWithComplete` | scripts/ga/complete_verified_final_evidence_run_ledger.py:127-147 | A ledger is discovered at the frozen head exactly when completing its own two seeded gates yields it and those two are unambiguous. |
| `RunDiscovery.ElevenDistinctRuns` | scripts/ga/discover_final_evidence_run_ledger.py:47-50 | A selection over eleven gates uses eleven distinct runs. |
| `Readiness.Assemble` | scripts/ga/assemble_final_production_readiness.py:66-149 | Returns the summary the contract and receipts determine, with each row as its receipt says, the number of passing rows, and the failed environments in order; it passes exactly when none failed. Raises only when no summary exists. |
| `Readiness.AssembleRow` | scripts/ga/assemble_final_production_readiness.py:88-123 | One environment's row: the missing secrets and then the missing variables of the contract, labelled, each once and in contract order; the required variables whose path is due and unconfirmed; and the verdict that follows, which must be the receipt's. Raises only when the receipt fits no row. |
| `Readiness.RowDescribes` | scripts/ga/assemble_final_production_readiness.py:101-123 | Every assembled row lists exactly what its receipt does not answer, by position in the contract's lists. |
| `Readiness.CoversIff` | scripts/ga/assemble_final_production_readiness.py:92-111 | A receipt covers an environment exactly when its checks are the required secrets and variables, each once, with a path answer only for path variables. |
| `Readiness.AssembleRows` | scripts/ga/assemble_final_production_readiness.py:86-123 | One described row per contract environment in order, and the failed names are those of the rows that do not pass, in row order. |
| `Readiness.ReadReceipts` | scripts/ga/assemble_final_production_readiness.py:71-80 | Indexes the receipts by environment; raises only on a bad or repeated receipt. |
| `Readiness.CheckNames` | scripts/ga/assemble_final_production_readiness.py:21-31 | Accepts exactly twelve nonempty distinct environment names. |
| `Readiness.LabelInjective` | scripts/ga/assemble_final_production_readiness.py:106 | Kind and name are recoverable from a label, so labels never collide. |
| `ReadinessReview.ValidateSummary` | scripts/ga/build_final_validation_evidence_chain_plan.py:221-303 | Accepts exactly the summaries consistent with the contract; the passed count is the number of passing rows and the two totals count one for every entry of every row. |
| `ReadinessReview.AcceptedSummaryMeans` | scripts/ga/build_final_validation_evidence_chain_plan.py:221-303 | An accepted summary has one row per environment, with distinct entries that name the environment's own secrets, variables and path variables, and verdicts, count and failed list that follow from them. |
| `ReadinessReview.AssembledSummaryIsAccepted` | scripts/ga/build_final_validation_evidence_chain_plan.py:221-303 | Every summary that assembly produces under an acceptable contract is accepted. |
| `ReadinessReview.ValidateContract` | scripts/ga/build_final_validation_evidence_chain_plan.py:89-121 | Accepts exactly the expected release commit with twelve distinct well-formed environments, forty-one checks and the expected number of producers, and tables the environments by name. |
| `ReadinessReview.AcceptedContractMeans` | scripts/ga/build_final_validation_evidence_chain_plan.py:89-121 | An accepted contract has the expected commit, twelve distinct named environments from eleven producers, and forty-one secrets and variables in all, distinct and nonempty in each environment. |
| `ReadinessReview.CheckRequired` | scripts/ga/build_final_validation_evidence_chain_plan.py:80-86 | Accepts exactly nonempty, distinct required identities. |
| `ReadinessReview.ValidateRow` | scripts/ga/build_final_validation_evidence_chain_plan.py:259-278 | Accepts exactly a row whose missing entries are distinct identities of its environment and whose verdict agrees with them. |
| `ReadinessReview.CountRows` | scripts/ga/build_final_validation_evidence_chain_plan.py:252-291 | Accepts exactly rows of distinct known environments, each good, with their exact totals. |
| `ReadinessReview.RowIsGood` | scripts/ga/build_final_validation_evidence_chain_plan.py:259-278 | An assembled row is one the review accepts. |
| `ReadinessReview.AssemblesIff` | scripts/ga/assemble_final_production_readiness.py:66-124 | A summary exists exactly for twelve distinct named environments with one receipt each that covers its environment and states the right verdict. |
| `ReadinessReview.RowExistsIff` | scripts/ga/assemble_final_production_readiness.py:92-114 | A receipt yields a row exactly when it covers its environment and its verdict is what was provided. |
| `ReadinessReview.RowPassesIff` | scripts/ga/assemble_final_production_readiness.py:103-126 | A row passes exactly when every required secret and variable is present in the receipt and the path of every required path variable is confirmed. |
| `ReadinessReview.ReadyIffProvided` | scripts/ga/assemble_final_production_readiness.py:88-126 | All twelve environments pass exactly when everything required of every environment was provided. |
| `ReadinessReview.PathsConfirmedIff` | scripts/ga/assemble_final_production_readiness.py:100-111 | PASS confirms every path variable exactly when the contract lists them all as required variables. |
| `ReadinessReview.UnlistedPathVariableIsUnchecked` | scripts/ga/assemble_final_production_readiness.py:100-111 | A path variable outside the required ones passes without any answer (concrete row). |
| `EvidencePreflight.BuildPlan` | scripts/ga/build_final_validation_evidence_chain_plan.py:306-374 | Succeeds exactly when the stripped, lower-cased head is the expected anchor and the summary is reviewable; the plan carries the number of passing rows and both missing totals, is ready exactly when all twelve environments pass, and binding admits it. |
| `EvidencePreflight.StageIff` | scripts/ga/bind_final_validation_evidence_chain_preflight.py:186-255 | For every binding that returns, each of the seven stages and each of the three flags as an if-and-only-if on the inputs: an unready plan takes the anchor's stage; a ready one is placed by which of the three receipts are supplied. |
| `EvidencePreflight.BindRaisesIff` | scripts/ga/bind_final_validation_evidence_chain_preflight.py:156-234 | Binding raises exactly on an unadmitted document, on an unready plan with a success receipt or an anchor at no readiness stage, and on a ready plan with a receipt that does not verify or content without API. |
| `EvidencePreflight.BoundMeans` | scripts/ga/bind_final_validation_evidence_chain_preflight.py:43-192 | What every returned binding has seen of the plan and the two control receipts, field by field. |
| `EvidencePreflight.AssembledSummaryIsReviewable` | scripts/ga/build_final_validation_evidence_chain_plan.py:324-333 | An assembled summary under an acceptable contract never stops the plan. |
| `EvidencePreflight.StageReflectsReadiness` | scripts/ga/bind_final_validation_evidence_chain_preflight.py:186-234 | Through assemble, plan and bind, the stage leaves the three readiness-blocked ones exactly when every required check of every environment was provided. |
| `EvidencePreflight.StageConfirmsPathsIff` | scripts/ga/bind_final_validation_evidence_chain_preflight.py:186-234 | Outside the blocked stages everything required was provided, and every path variable of every environment was confirmed exactly when each environment also lists its path variables as required. |
| `EvidencePreflight.SigningStageIsFullyEvidenced` | scripts/ga/bind_final_validation_evidence_chain_preflight.py:213-234 | The signing stage implies that and that readiness, lock-run and lock-content receipts were each present and verified, the content receipt for the lower-cased commit of the lock-run receipt; their heads, counts, run ids and flags are spelled out. |
| `EvidencePreflight.LockFlagsMayBeUnverified` | scripts/ga/bind_final_validation_evidence_chain_preflight.py:253-255 | A concrete binding with a ready plan, no readiness receipt and empty lock receipts that reports both lock flags as verified. |
| `EvidencePreflight.FlagsBackedIff` | scripts/ga/bind_final_validation_evidence_chain_preflight.py:213-255 | Every flag set in every binding that returns is backed by its check if and only if a readiness receipt is supplied (or the plan is not ready or not admitted). |
| `MaterialMap.Compose` | scripts/ga/compose_partial_production_ga_material_map.py:126-184 | Succeeds exactly on composable fragments and returns their composition. |
| `MaterialMap.CompositionIsDisjointUnion` | scripts/ga/compose_partial_production_ga_material_map.py:145-162 | No two fragments share an identity, every entry is recorded with its own resolved path, and nothing else is. |
| `MaterialMap.ComposableMeans` | scripts/ga/compose_partial_production_ga_material_map.py:134-166 | Every fragment that composes is genuine, named, of known environments, counts its entries right, and each entry is declared under its kind and resolves. |
| `MaterialMap.CompositionIgnoresOrder` | scripts/ga/compose_partial_production_ga_material_map.py:126-184 | Any permutation of the fragments composes, to the same map. |
| `MaterialMap.CompositionIsPartial` | scripts/ga/compose_partial_production_ga_material_map.py:163-184 | Declared counts sum to the result's, which is a nonempty strict part of the forty-one contract identities. |
| `MaterialMap.Requirements` | scripts/ga/compose_partial_production_ga_material_map.py:104-123 | Accepts exactly twelve distinct environments declaring forty-one identities in all and returns that set. |
| `MaterialMap.DeclaredIff` | scripts/ga/compose_partial_production_ga_material_map.py:104-123 | An identity is declared exactly when an environment of that name lists it under that kind. |
| `MaterialMap.AddFragment` | scripts/ga/compose_partial_production_ga_material_map.py:134-164 | Adds a fragment exactly when it is well shaped and its entries are declared, resolvable and new. |
| `MaterialMap.AddEntries` | scripts/ga/compose_partial_production_ga_material_map.py:148-162 | Adds entries exactly when all are declared, resolvable and new. |
| `ContentClosure.Build` | scripts/ga/build_final_evidence_content_closure.py:56-125 | Succeeds exactly on a closable set of bindings and gives the rows in contract order with their API ids. |
| `ContentClosure.ClosureMeans` | scripts/ga/build_final_evidence_content_closure.py:56-123 | Row i of a closure: the contract's gate, the run and artifact of that gate's verified API row, and the tree, receipt kind and receipt digest of that gate's own genuine binding or of the shared public one. |
| `ContentClosure.ClosureIdsDiffer` | scripts/ga/build_final_evidence_content_closure.py:124-125 | No run and no artifact serves two rows of a closure. |
| `ContentClosure.ClosureIgnoresOrder` | scripts/ga/build_final_evidence_content_closure.py:106-125 | Every permutation of bindings and of API rows closes to the same rows. |
| `ContentClosure.ApiRows` | scripts/ga/build_final_evidence_content_closure.py:27-53 | Accepts exactly one good row per required gate and tables them by gate. |
| `ContentClosure.CollectSingles` | scripts/ga/build_final_evidence_content_closure.py:108-119 | Accepts exactly one good binding per single gate and yields one row for each. |
| `ContentClosure.RowGates` | scripts/ga/build_final_evidence_content_closure.py:72-123 | Row i of a closure is that of gate i of the contract with that gate's API ids. |
| `ContentClosure.SortIsContractOrder` | scripts/ga/build_final_evidence_content_closure.py:123 | Sorting by contract position turns any arrangement of the rows into the contract order. |
| `DeterministicZip.WriteDeterministicZip` | scripts/ga/build_windows_authority_operation_package.py:116-146 | Succeeds exactly on casefold-distinct names and writes a permutation of the entries, strictly increasing by folded name. |
| `DeterministicZip.ArchiveIsCanonical` | scripts/ga/build_windows_authority_operation_package.py:116-146 | Permutations of the same entries give the same archive. |
| `TreeManifest.ManifestRoundTrip` | scripts/ga/bind_verified_evidence_content.py:46-58 | The manifest text of every list of NUL-free paths with their sizes and digests parses back to exactly that list. |
| `TreeManifest.ManifestInjective` | scripts/ga/bind_verified_evidence_content.py:46-58 | Different file lists have different manifests. |
| `TreeManifest.ManifestText` | scripts/ga/bind_verified_evidence_content.py:55-57 | The text of a record: path, NUL, decimal size, NUL, digest, newline. |
| `TreeManifest.EqualDigestsMeanEqualTrees` | scripts/ga/bind_verified_evidence_content.py:115-118 | Under a collision-free hash, tree digests are equal exactly when the file lists are. |
| `TreeManifest.DigestTree` | scripts/ga/bind_verified_evidence_content.py:41-58 | Refuses exactly an empty tree; otherwise hashes the manifest of the listed files. |
| `TreeManifest.DecimalRoundTrip` | scripts/ga/bind_verified_evidence_content.py:52-56 | A size is recoverable from its decimal text. |

## Left out

- Subprocess calls, HTTP, JSON parsing, argument parsing, printing, symbolic-link and reparse-point tests: input and output around the modelled logic.
- Schema, kind, version and status tests of receipts are one `genuine` (or `eligible`) flag per record, and flags that must be true are sets of flag names; each is settled by reading one conjunction.
- Receipt fields that are constants or copies, and the plan's listing of missing rows.
- `_validate_output_boundaries`: only that the two output paths differ; outputs that alias input files or each other through links are not modelled.
- `execute_plan` of the cleanup without an audit finalizer; `main` always supplies one.
- The branch of `_collect_stale` for an allowed branch classified stale cannot be reached, since the classifier excludes allowed branches.
- `list.sort` in place is a sort function on sequences.
- The publication's `build_plan`, its eight-asset `execute_plan` and its own output reservation.
- EvidencePreflight.BuildPlan: takes the evaluator, bootstrap and lock contract checks of the chain plan as accepted, because each is a list of field equalities.
- RunDiscovery.ValidateSeed: the seed's identity, head, provenance block and entry fields are one `genuine` flag, and so is the order of the contract's source table.
- The final re-validation in `complete`; it follows from what the row states.
- The nested environment objects of a material fragment are a flat list of entries plus the set of environment names.
- The receipt checks of the evidence-content binder and the verifier process it starts; only its tree manifest is modelled.
- File enumeration of a tree is the file list itself.
- Dashboards, provisioning profiles, release-closure verification, OTLP and public-authentication reports, Windows package metadata: long lists of field equalities.
