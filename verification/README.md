# Grom: what may be deleted, what is recorded, and when storage may be touched

Grom is a control plane over an OCI registry. This project models the parts of its backend that decide
which manifests may be deleted, keep an inventory that has to agree with the registry, make sure that
nothing else is going on while storage is touched, and back an installation up and restore it. It proves
what these parts promise, and where the code falls short of a promise it proves exactly when.
`dafny verify dfyconfig.toml` checks everything.

## Modules

- `Foundation`: digests, tags, results and facts about sequences and sets.
- `ManifestGraph`, `ReferrerPages`, `Registry`: the client of the Distribution registry. Reading a manifest
  is the bounded unfolding of an index; listing referrers walks linked pages. A `Distribution` object holds
  the present manifests and tags; any request may fail, and a deletion may take effect although its reply is lost.
- `Inventory`, `DeletionPlan`, `DeletionTree`, `ArtifactDeletion`: which children go with an index, the
  engine that deletes them one by one with a new review before each, and the deletion a person has reviewed.
- `Policies`, `LifecycleEvaluation`, `LifecycleProtocol`, `LifecycleExecution`: retention decisions, the
  preview, run and lock rows with stale-lock stealing, and the execution of a whole preview.
- `RetentionLaws`: what retention comes to, in terms of the fields of rows and policies only.
- `InventoryStore`, `Reconciliation`: the store transactions with their joint invariant, and the worklist
  that brings the tables into agreement with the registry.
- `Maintenance`, `Quiescence`, `Supervisor`, `PullThrough`: protocols under concurrency. Each is a system of
  atomic steps, one per critical section, over any number of threads; the theorems are about every state of
  every interleaving. The objects that carry the shared fields are classes whose methods are shown to be such steps.
- `Pagination`, `Archive`, `ChecksumFile`, `BackupSet`, `Restore`: recovery points page by page, and a backup
  set from its sources to restored targets, with the undo log of a failed promotion.

## What the theorems assume

The registry changes only through the modelled calls while an operation runs. Content addressing
(`Acyclic`) is a hypothesis only where closure of references is stated. `Covers` says that each present
manifest has a live inventory row that lists its entries; `Settled` adds that the inventory is exact, every
manifest can be fetched and nothing lists the target. A reconciliation that finds everything present
yields such an inventory (`ReconciledIsExact`). Times are integers. A backup relies on a `Codec` that
decodes what it encoded, hashes to 64 lower-case hexadecimal digits, and gives each file its own name. Restore
targets are separate directories, each with its own file system in the model.

## What the code does differently than one may expect

- Retention does not look at the entries of other manifests. The untagged child of a live, tagged and retained
  index becomes eligible when its grace period is over (`ChildOfRetainedIndexIsEligible`), and a run deletes it and leaves
  the index incomplete (`DeleteChildOfRetainedIndex`). `ClosureExactly`, `OnlyApprovedAreMissed` and
  `ClosedAfterRunExactly` say when references stay complete, in terms of what is known before the run.
  docs/architecture.md:171-173 restricts only the children that go along with an index.
- The same holds for a deletion on request: no review asks whether an index lists the artifact (`ClosureAfterDeletion`).
- Breadth-first order can list a shared child before an index that still holds it. The engine then deletes the target
  and the plan up to the first such child and stops; nothing is lost that should stay, but the run fails
  (`SharedChildTooEarly`, `DeleteShared`, and `DeleteSettled` for exactly when and with what effect).
- A manifest that is marked deleted and pushed again without a tag gets a fresh untagged time only if it had none
  (`PushedAgainIsUntaggedSinceBefore`): one that was untagged or missing keeps the old time, so its grace period may be
  over at once.
- A reconciliation keeps the invariant of the tables exactly when each seen tag points at a seen digest
  (`CompleteKeepsConsistentExactly`); the service always calls it that way.
- A run in progress can lose its lock in two ways, and in no other (`RunningRunOwnsItsLock`). A process that lingers for
  more than thirty minutes between taking its lock and creating its run can be taken over and end up running under
  another run's lock (`LateProcessRunsUnlocked`). And a process whose completion write fails, as when the request is
  cancelled, still releases its lock; its run then stays running for ever, because no later take-over meets it
  (`UncompletedRunRunsUnlocked`, `ReleasedRunRunsForever`). A run that merely works longer than thirty minutes is ended by
  whoever takes its lock.
- A backup operation reports its end before it gives maintenance back, so a successor that was already accepted can be
  refused maintenance (`EarlySuccessorIsRefused`; `SuccessorIsRefusedExactly` for exactly when).
- The guard against deleting a project can miss an import whose existing repository was removed between the import's
  lookup and its mark (`GuardMissesRepositoryRemovedAfterLookup`).
- A PostgreSQL backup that is not quiesced always fails, after all its components were written (`ManifestIsValidExactly`).
- When a staging directory of a restore cannot be created, the ones created before it are left behind, because their
  removal is registered later (outcome `NotStaged` of `Host.Restore`); the targets are then no longer empty for the next attempt.
- A failed restore undoes its renames, but not the permissions it gave the targets; "empty" speaks of their entries.

## Model

| member | source | states |
|---|---|---|
| `ManifestGraph.FetchManifest` | backend/internal/registry/infrastructure/distribution/client.go:334-352 | a fetch succeeds if and only if the reference has an unfolding of depth at most 32 and at most 512 nodes, and returns that unfolding; it terminates on every graph, cyclic ones included |
| `ManifestGraph.FetchManifestTree` | backend/internal/registry/infrastructure/distribution/client.go:354-465 | the recursive traversal restores `visiting` and `depth` on success and on error, counts exactly the nodes of the tree it returns, and refuses only what does not fit or runs into a reference being visited |
| `ManifestGraph.FetchVisited` | backend/internal/registry/infrastructure/distribution/client.go:364-465 | the same contract for the part of the traversal that runs while the reference is marked |
| `ManifestGraph.FetchChildren` | backend/internal/registry/infrastructure/distribution/client.go:411-434 | the loop over the entries of an index reads every child one level down, with its platform row, or shows that no unfolding fits |
| `ManifestGraph.FetchChild` | backend/internal/registry/infrastructure/distribution/client.go:413-421 | reading one entry changes the depth for its duration only |
| `ManifestGraph.ChildRow` | backend/internal/registry/infrastructure/distribution/client.go:422-431 | an unnamed entry inherits the platform of a child that has exactly one; its size is the logical size of the child |
| `ManifestGraph.CompressedContentSize` | backend/internal/registry/infrastructure/distribution/client.go:496-504 | config plus the positive layer sizes |
| `ManifestGraph.LogicalCompressedSize` | backend/internal/registry/infrastructure/distribution/client.go:506-512 | the sum over the platform rows |
| `ManifestGraph.UnfoldingUnique` | backend/internal/registry/infrastructure/distribution/client.go:354-465 | a reference has at most one unfolding, so the result does not depend on the traversal |
| `ManifestGraph.NoCycle` | backend/internal/registry/infrastructure/distribution/client.go:354-465 | below a node with a finite unfolding its own reference never comes up again: the cycle check refuses nothing that has a tree |
| `ManifestGraph.RefusedChild` | backend/internal/registry/infrastructure/distribution/client.go:413-421 | when a child is refused, no unfolding of the index above it fits either |
| `ManifestGraph.SizeIsLeafContent` | backend/internal/registry/infrastructure/distribution/client.go:496-512 | the logical size of a tree is the content of all its leaves, counted once for every occurrence |
| `ManifestGraph.LeafRow` | backend/internal/registry/infrastructure/distribution/client.go:436-452 | a manifest without entries has one platform row, with its digest, the platform of its image configuration, and without layers the size of the configuration |
| `ManifestGraph.LayerAddsItsSize` | backend/internal/registry/infrastructure/distribution/client.go:496-504 | one more layer adds its size, if that is positive |
| `ManifestGraph.IndexRows` | backend/internal/registry/infrastructure/distribution/client.go:411-434 | an index has one row for each entry, with the digest of the entry, its platform or else that of its child, and the size of the child |
| `ManifestGraph.CyclicIsRefused` | backend/internal/registry/infrastructure/distribution/client.go:354-366 | a reference on a cycle has no answer at all |
| `ReferrerPages.ListReferrers` | backend/internal/registry/infrastructure/distribution/client.go:519-595 | the page walk returns the descriptors of all pages if and only if the links from the first page come to an end; a missing first page is an empty list; links that leave, repeat or fail are errors |
| `ReferrerPages.CompleteIsDistinct` | backend/internal/registry/infrastructure/distribution/client.go:519-566 | an index that ends never links back to one of its own pages, so the visited check refuses no complete index |
| `ReferrerPages.WalksAgree` | backend/internal/registry/infrastructure/distribution/client.go:519-566 | of two walks from one page the shorter is the beginning of the longer: the answer is unique |
| `Registry.Distribution.DeleteManifest` | backend/internal/registry/infrastructure/distribution/client.go:679-701 | one that succeeds leaves the digest absent, whether or not it was there; a refused request changes nothing, one whose reply is lost has taken effect; every request is recorded with what was present at the time |
| `Registry.Distribution.ListRepositoryTags` | backend/internal/registry/infrastructure/distribution/client.go:276-333 | exactly the tags that resolve to a present manifest |
| `Registry.Distribution.ResolveManifest` | backend/internal/registry/infrastructure/distribution/client.go:630-677 | what a tag or digest resolves to, or an error |
| `Registry.Distribution.FetchManifest` | backend/internal/registry/infrastructure/distribution/client.go:334-352 | the unfolding of a present manifest; when no request fails, an error means there is none within the limits |
| `Registry.FetchableByReference` | backend/internal/registry/infrastructure/distribution/client.go:334-352 | what can be fetched by digest can be fetched under any reference that resolves to it |
| `Registry.Distribution.ListReferrers` | backend/internal/registry/infrastructure/distribution/client.go:519-566 | exactly the present manifests whose subject is the digest |
| `Inventory.IndexByDigest` | backend/internal/registry/application/manifest_deletion.go:12-15 | the map from digests to rows holds the last row of each digest |
| `DeletionPlan.DeletionChildDigests` | backend/internal/registry/application/manifest_deletion.go:11-61 | for every order in which the map is iterated, the result is the one plan: the greatest self-contained set of descendants, nearest first |
| `DeletionPlan.PlanIsGreatest` | backend/internal/registry/application/manifest_deletion.go:11-85 | the members are live, untagged descendants that are no referrers, no subjects of live rows, and listed only by the target or each other; every other set with that property is contained in the plan |
| `DeletionPlan.LargestIsGreatest` | backend/internal/registry/application/manifest_deletion.go:35-52 | the union of all self-contained sets is self-contained |
| `DeletionPlan.BfsIsReachability` | backend/internal/registry/application/manifest_deletion.go:16-33 | the growing loop lists every reachable digest exactly once, the target first |
| `DeletionPlan.Descendants` | backend/internal/registry/application/manifest_deletion.go:16-33 | the loop ends and yields the breadth-first order as a list and as a set |
| `DeletionPlan.AppendPlatforms` | backend/internal/registry/application/manifest_deletion.go:23-32 | one row appends its entries that are new, named and not the row itself |
| `DeletionPlan.Prune` | backend/internal/registry/application/manifest_deletion.go:35-52 | pruning to a fixpoint ends and leaves exactly the greatest self-contained set, whatever the iteration order |
| `DeletionPlan.UnneededGrows` | backend/internal/registry/application/manifest_deletion.go:63-85 | deleting more never makes a manifest needed |
| `DeletionTree.DeleteManifestTree` | backend/internal/registry/application/manifest_deletion.go:87-131 | wherever the run stops: the target goes first, only planned digests go, nothing is requested unless the first review cleared the whole plan, and each request is for something present on a registry that only shrinks; other tags still resolve, and every tag whose tree does not contain the target keeps that tree whole, with or without inventory rows; covered indexes and surviving referrers lose at most the target; what is reported deleted is gone. Without failing requests it succeeds if and only if every review along the way passes, and otherwise stops exactly at the first one that does not |
| `DeletionTree.DeleteAll` | backend/internal/registry/application/manifest_deletion.go:101-131 | the loop of the engine: deletes a beginning of the list and nothing else, keeping all of that, and without failing requests stops exactly at the first digest whose review does not pass |
| `DeletionTree.DeleteOne` | backend/internal/registry/application/manifest_deletion.go:103-129 | one round: review again, resolve, delete; at most this one digest is requested, and without failing requests it is deleted if and only if its review passes |
| `DeletionTree.RequestedOnce` | backend/internal/registry/application/manifest_deletion.go:103-131 | no digest is deleted twice: as long as no deletion is refused, no digest is requested twice |
| `DeletionTree.ResolveLiveTagDigests` | backend/internal/registry/application/manifest_deletion.go:133-153 | the tags that resolve, with their digests |
| `DeletionTree.RevalidateDeletionChildren` | backend/internal/registry/application/manifest_deletion.go:155-223 | with reliable requests it passes if and only if there are no children, or no live tag names a child, every child can be fetched and has no subject or referrer, and every manifest consulted (present, with a live tag or a live row listing a child, neither target nor child) can be fetched and has no child in its tree; with failing requests it passes only then |
| `DeletionTree.PassedIsCleared` | backend/internal/registry/application/manifest_deletion.go:155-223 | a passed review clears the children: no live tag leads to one, and no present manifest outside that an inventory row covers lists one |
| `DeletionTree.Review` | backend/internal/registry/application/manifest_deletion.go:94-100 | the same for reading the live tags and revalidating as one step, and that a passed review clears the children |
| `DeletionTree.ExternalTagRoots` | backend/internal/registry/application/manifest_deletion.go:170-178 | succeeds if and only if no live tag is at a child, and then the roots are exactly the tagged digests other than the target |
| `DeletionTree.ExternalRowRoots` | backend/internal/registry/application/manifest_deletion.go:179-189 | adds exactly the live rows outside that list a child |
| `DeletionTree.CheckExternalRoots` | backend/internal/registry/application/manifest_deletion.go:190-205 | passes only if each present root can be fetched and holds no child in its tree, however deep; with reliable requests exactly then |
| `DeletionTree.CheckChildren` | backend/internal/registry/application/manifest_deletion.go:206-221 | every child can be fetched and has no subject and no referrers; with reliable requests it passes exactly then |
| `DeletionTree.SearchIsComplete` | backend/internal/registry/application/manifest_deletion.go:234-248 | the recursive search in fetched metadata finds every mention of a child below the root |
| `DeletionTree.TreeSurvives` | backend/internal/registry/application/manifest_deletion.go:190-205 | a fetched tree is unaffected by the removal of digests it does not mention |
| `DeletionTree.TreesWithoutChild` | backend/internal/registry/application/manifest_deletion.go:170-205 | removing a cleared child leaves every tagged tree without the target whole |
| `DeletionTree.RemoveChild` | backend/internal/registry/application/manifest_deletion.go:103-129 | deleting one child that was just cleared keeps everything kept so far |
| `DeletionTree.ClosureExactly` | backend/internal/registry/application/manifest_deletion.go:87-223 | reference closure, exactly: if every index was complete before, then after any run, successful or not, every index is complete if and only if the target is still there or no other manifest listed it |
| `DeletionTree.SucceedsExactly` | backend/internal/registry/application/manifest_deletion.go:87-223 | in a settled registry every review along the way passes if and only if the plan lists no child before an index that still holds it |
| `DeletionTree.StopsOutOfOrder` | backend/internal/registry/application/manifest_deletion.go:87-131 | in a settled registry a run can stop only after the target is gone, and at a child that something left still lists |
| `DeletionTree.DeleteSettled` | backend/internal/registry/application/manifest_deletion.go:11-131 | planning and deleting without failing requests succeeds if and only if the plan is in such an order; otherwise exactly the target and the plan before the first child out of order are gone |
| `DeletionTree.SharedChildTooEarly` | backend/internal/registry/application/manifest_deletion.go:16-61 | breadth-first order is not always such an order: for an index that lists 2 and 3, where 3 lists 2, the plan is 2, 3, which is out of order at once, while 3, 2 would be in order |
| `DeletionTree.DeleteShared` | backend/internal/registry/application/manifest_deletion.go:87-131 | in that registry the run deletes the target, stops with a failure and leaves both children |
| `DeletionTree.DirectReferenceFound` | backend/internal/registry/application/manifest_deletion.go:234-248 | a direct entry of an index is found in its fetched metadata |
| `ArtifactDeletion.MakePreview` | backend/internal/registry/application/artifact_deletion_service.go:38-121 | the preview names the digest, exactly the tags that resolve to it, the plan for it, and whether subject or referrers block it; it is refused when some tag of the digest is matched by an enabled tag-protection policy that prevents deletion, or a reason is asked for and missing; without failing requests it is made if and only if the reference resolves, its manifest can be fetched, no tag of it is so protected and no reason is missing |
| `ArtifactDeletion.AffectedTags` | backend/internal/registry/application/artifact_deletion_service.go:71-85 | exactly the tags that resolve to the digest |
| `ArtifactDeletion.ReviewMatches` | backend/internal/registry/application/artifact_deletion_service.go:130-149 | comparing the request with a fresh preview passes if and only if the request is what the registry shows, for requests that name no tag twice |
| `ArtifactDeletion.Execute` | backend/internal/registry/application/artifact_deletion_service.go:123-232 | nothing is requested unless the reviewed digest, tags and children are those of a fresh preview; tags that were not reviewed keep resolving, tagged trees without the artifact stay whole and no surviving referrer loses its subject; success removes exactly what was reviewed; only rows of what is gone are marked deleted, and all of them when writes succeed and no reply is lost; when nothing fails it succeeds if and only if the request matches a preview that can be made, names no tag twice, and every review along the way passes; the record ends in the state the caller is told; an artifact one of whose tags is protected, in terms of the fields of the policies, is refused with nothing requested, recorded or marked; after a deletion that stopped half-way every row of what went is tried, after a complete one marking stops at the first failing write |
| `ArtifactDeletion.HarmlessPolicyChangesNothing` | backend/internal/registry/application/repository_service.go:505-536 | a policy that is disabled, prevents no deletion and asks for no reason, or is of another type can be added without changing which previews can be made and which deletions are reviewed |
| `ArtifactDeletion.DeletionStore.MarkAll` | backend/internal/registry/application/artifact_deletion_service.go:191-213 | marks the rows of what was deleted and no other, in order; a failing write stops this or is ignored, as the caller says |
| `ArtifactDeletion.ClosureAfterDeletion` | backend/internal/registry/application/artifact_deletion_service.go:97-114 | the preview looks at no other manifest's entries: after a successful deletion every index is complete if and only if none listed the artifact |
| `Policies.AcceptedPolicyIsSafe` | backend/internal/registry/application/repository_service.go:537-593 | an accepted retention policy has every limit it needs, an enabled one has a criterion, and its durations fit 64 bits |
| `Policies.EvaluateDeletion` | backend/internal/registry/application/repository_service.go:505-536 | deletion is allowed if and only if no enabled tag-protection policy that prevents deletion matches one of the tags, and a reason is there when an enabled manual-deletion policy asks for one |
| `LifecycleEvaluation.EvaluateLifecycle` | backend/internal/registry/application/lifecycle_service.go:99-232 | fails exactly when no retention policy is enabled, and otherwise gives every live row exactly the decision of the declarative specification, sorted by digest; `RetentionLaws` says what these decisions are in terms of the fields of rows and policies |
| `LifecycleEvaluation.ProtectedDigests` | backend/internal/registry/application/lifecycle_service.go:114-128 | the digests that carry a protected tag |
| `LifecycleEvaluation.ReferrerSubjects` | backend/internal/registry/application/lifecycle_service.go:130-135 | the subjects of rows that are not deleted |
| `LifecycleEvaluation.MatchingRows` | backend/internal/registry/application/lifecycle_service.go:140-151 | the live tagged rows a policy's patterns match |
| `LifecycleEvaluation.SortLatestFirst` | backend/internal/registry/application/lifecycle_service.go:152-154 | a stable sort by lifecycle time, latest first |
| `LifecycleEvaluation.DistinctRows` | backend/internal/registry/application/lifecycle_service.go:155-163 | with one row per digest the sorted list keeps every row |
| `LifecycleEvaluation.Judge` | backend/internal/registry/application/lifecycle_service.go:137-196 | the digests all retention policies select and keep |
| `LifecycleEvaluation.VerdictAt` | backend/internal/registry/application/lifecycle_service.go:166-181 | what a policy says about the row at one position of the sorted list |
| `LifecycleEvaluation.JudgeTagged` | backend/internal/registry/application/lifecycle_service.go:139-181 | the digests one policy selects and keeps among tagged rows |
| `LifecycleEvaluation.JudgeUntagged` | backend/internal/registry/application/lifecycle_service.go:182-195 | the digests one policy selects and keeps among untagged rows |
| `LifecycleEvaluation.RankIsPosition` | backend/internal/registry/application/lifecycle_service.go:152-170 | a row's position in the sorted list is the number of matching rows ahead of it |
| `LifecycleEvaluation.PolicyOrderIsIrrelevant` | backend/internal/registry/application/lifecycle_service.go:99-232 | reordering the policies changes no decision |
| `LifecycleEvaluation.InventoryOrderIsIrrelevant` | backend/internal/registry/application/lifecycle_service.go:99-232 | reordering the rows changes no decision when lifecycle times are distinct |
| `LifecycleEvaluation.EligibilityIsMonotone` | backend/internal/registry/application/lifecycle_service.go:99-232 | what is eligible stays eligible as time passes |
| `LifecycleEvaluation.OtherPoliciesOnlyProtect` | backend/internal/registry/application/lifecycle_service.go:99-232 | a policy that is no enabled retention policy never adds eligibility |
| `LifecycleEvaluation.KeepsLatest` | backend/internal/registry/application/lifecycle_service.go:139-232 | keep-last-k keeps exactly min(k, matching) rows, none of them eligible |
| `RetentionLaws.BlockedExactly` | backend/internal/registry/application/lifecycle_service.go:114-135 | a row is blocked if and only if an enabled policy that excludes from lifecycle, or prevents deletion by tag, matches one of its tags, it has a subject, or a row that is not deleted has it as subject |
| `RetentionLaws.EligibleForAReason` | backend/internal/registry/application/lifecycle_service.go:137-196 | an eligible row is too old for an enabled retention policy that covers it, or competes with others under one that keeps the last ones, or has been untagged for its grace period |
| `RetentionLaws.RecentPushIsNotEligible` | backend/internal/registry/application/lifecycle_service.go:166-181 | a covered row pushed within the expiry period is not eligible, whenever it was first seen; one without a push counts from when it was first seen |
| `RetentionLaws.ExpiryIsExact` | backend/internal/registry/application/lifecycle_service.go:137-181 | with one policy that only expires, an unprotected covered row is eligible if and only if its push, or first sight without one, is at least so many days ago |
| `RetentionLaws.GraceIsExact` | backend/internal/registry/application/lifecycle_service.go:182-195 | with a policy that has a grace period, an unprotected untagged row is eligible if and only if it is over |
| `RetentionLaws.LatestPushIsNotEligible` | backend/internal/registry/application/lifecycle_service.go:152-181 | the row pushed last among those a keep-last policy covers is not eligible |
| `RetentionLaws.KeepOneKeepsTheLaterPush` | backend/internal/registry/application/lifecycle_service.go:152-239 | of two rows with different pushes, keeping the last one keeps the later and makes the earlier eligible |
| `RetentionLaws.PushingAgainNeverHurts` | backend/internal/registry/application/lifecycle_service.go:99-239 | pushing a row again never makes it eligible |
| `RetentionLaws.LostTagIsKept` | backend/internal/registry/application/inventory_service.go:141-305 | a manifest that lost its last tag, or was found for the first time without one, in a reconciliation is not eligible before a grace period has passed since that reconciliation |
| `LifecycleProtocol.StealingStopsTheRun` | backend/internal/registry/infrastructure/persistence/bun/lifecycle.go:576-620 | taking over a stale lock fails its running run, ends its executing preview, and touches no other run or lock |
| `LifecycleProtocol.ReleaseNeedsTheHolder` | backend/internal/registry/infrastructure/persistence/bun/lifecycle.go:622-627 | a release has an effect if and only if it comes from the holder |
| `LifecycleProtocol.ExecutionKeepsInvariants` | backend/internal/registry/infrastructure/persistence/bun/lifecycle.go:570-678 | runs, previews, locks and processes fit together in every state of every interleaving, crashes, failing writes and lost replies included |
| `LifecycleProtocol.PreviewIsUsedOnce` | backend/internal/registry/infrastructure/persistence/bun/lifecycle.go:629-664 | a preview that stopped being ready never is again and has at most one run |
| `LifecycleProtocol.RunningRunOwnsItsLock` | backend/internal/registry/infrastructure/persistence/bun/lifecycle.go:576-664 | in every execution, a run in progress owns its repository's lock if and only if it lost it in neither of two ways: a take-over hit it between taking the lock and creating the run, or a write of its own process failed and the process released the lock while the run was in progress; of two runs in progress in one repository one lost its lock |
| `LifecycleProtocol.TakeOverLeavesNothingRunning` | backend/internal/registry/infrastructure/persistence/bun/lifecycle.go:576-620 | after a take-over no run of the repository is in progress, by its row or its preview, except runs that had lost their lock before |
| `LifecycleProtocol.TimelyCreationIsNotRobbed` | backend/internal/registry/infrastructure/persistence/bun/lifecycle.go:576-664 | nobody is hit that way while every process creates its run within thirty minutes of its start |
| `LifecycleProtocol.NothingReleasedEarly` | backend/internal/registry/application/lifecycle_service.go:296-450 | while no write fails, no process releases the lock of a run in progress |
| `LifecycleProtocol.OneRunInProgress` | backend/internal/registry/infrastructure/persistence/bun/lifecycle.go:576-664 | when no write fails and every process creates its run in time, a repository has at most one run in progress, and it owns the lock |
| `LifecycleProtocol.ReleasedRunRunsForever` | backend/internal/registry/infrastructure/persistence/bun/lifecycle.go:576-627 | a run whose lock was released while it was running stays running in every later state: no take-over ever ends it |
| `LifecycleProtocol.LateProcessRunsUnlocked` | backend/internal/registry/infrastructure/persistence/bun/lifecycle.go:576-664 | an execution in which it happens: a process that lingers between lock and run ends up running under somebody else's lock |
| `LifecycleProtocol.UncompletedRunRunsUnlocked` | backend/internal/registry/application/lifecycle_service.go:296-303 | an execution in which that happens: the completion of the run fails, and the deferred release removes the lock |
| `LifecycleExecution.Execute` | backend/internal/registry/application/lifecycle_service.go:252-450 | for every exit: each request is for an approved digest or for one planned with an approved target, untagged and listed by nothing else that is present; it is for something present, so nothing is deleted twice; nothing surviving refers to a subject that went, other tags keep resolving, tagged trees without approved digests stay whole, covered indexes miss only approved digests; a run is created if and only if the request, its preview and the lock allow it, when writes succeed, and a ready but overdue preview expires; a created run ends terminal with its preview executed, no lock held on any exit, and everything gone is marked in the tables and the local view, and nothing else in the tables; no other run, preview or lock changes, except those of a lock that is taken over. A finished run reports each listed digest once, with counts that add up: an item is skipped unless it is approved, still current and in the view, and otherwise only if a request failed; it is deleted only if every review of its plan passes, and without failing requests and writes exactly then; everything a deleted item took is marked; every item is written back and audited, and an abandoned run has audited no end |
| `LifecycleExecution.ExecuteStarted` | backend/internal/registry/application/lifecycle_service.go:304-450 | the same from the creation of the run to the release of the lock |
| `LifecycleExecution.Admit` | backend/internal/registry/application/lifecycle_service.go:252-299 | the checks before anything is locked: the digests the preview lists as eligible, or none when the request is refused; a ready but overdue preview expires |
| `LifecycleExecution.Finish` | backend/internal/registry/application/lifecycle_service.go:424-450 | the end of a run whose items are all done: its report, its status, its consumed preview, and an audit record of the end if that was written |
| `LifecycleExecution.ExecuteItems` | backend/internal/registry/application/lifecycle_service.go:348-422 | the loop keeps the invariant of the run, records what went, counts every item once in the order of the list, says for every item what it found, writes back and audits each item, and stops at the first write or audit record that fails |
| `LifecycleExecution.ExecuteItem` | backend/internal/registry/application/lifecycle_service.go:349-421 | an item is skipped unless it is eligible in the stored preview and in the fresh evaluation with the same tags, still resolves with these tags, has no referrers and has a row; if all this holds it is skipped only because a request failed, and only then can it be reported failed; it is deleted only if every review of its plan passes, without failing requests and writes exactly then, and then its rows and those of its plan are marked |
| `LifecycleExecution.TakenAlongIsSkipped` | backend/internal/registry/application/lifecycle_service.go:349-376 | an item whose manifest an earlier item of the run deleted, or took along with its plan, is reported skipped, whatever requests fail |
| `LifecycleExecution.GoneIsSkipped` | backend/internal/registry/application/lifecycle_service.go:370-376 | so is every item whose manifest is absent when it is reached |
| `LifecycleExecution.RecordItem` | backend/internal/registry/application/lifecycle_service.go:405-421 | an item is written back and then audited; it goes on exactly if both succeed |
| `LifecycleExecution.DeleteApproved` | backend/internal/registry/application/lifecycle_service.go:377-404 | deletes an approved digest without referrers with its plan from the local view, without failing requests exactly when every review passes, and records everything that went when writes succeed and no reply is lost; it reports success only if every row is marked |
| `LifecycleExecution.RecordDeletions` | backend/internal/registry/application/lifecycle_service.go:382-403 | marks what was deleted in the tables and in the local view: all of it, or exactly the part before the write that stopped it |
| `LifecycleExecution.MarkInventoryDeleted` | backend/internal/registry/application/lifecycle_service.go:452-460 | marks the row of a digest deleted and untagged in the local view |
| `LifecycleExecution.RevalidateLifecycleCandidate` | backend/internal/registry/application/lifecycle_service.go:462-482 | without failing requests true if and only if the candidate is present, all its tags still resolve to it, and it has no referrers; with failing ones true only then |
| `LifecycleExecution.FailRun` | backend/internal/registry/application/lifecycle_service.go:484-500 | the failure path fails the run and consumes its preview, as far as writes go through |
| `LifecycleExecution.FailUnaudited` | backend/internal/registry/application/lifecycle_service.go:306-316 | when the start cannot be audited, the run is failed and its preview consumed, each as far as its own write goes through |
| `LifecycleExecution.FreshDecisions` | backend/internal/registry/application/lifecycle_service.go:319-346 | the decisions of a fresh evaluation whenever everything it needs is there, and none otherwise |
| `LifecycleExecution.EligibleDigests` | backend/internal/registry/application/lifecycle_service.go:287-299 | the digests the preview lists as eligible, each once |
| `LifecycleExecution.CountsAddUp` | backend/internal/registry/application/lifecycle_service.go:324-429 | deleted, failed and skipped add up to the number of items; `Reports`, which `Execute` ensures, ties it to the items of the run |
| `LifecycleExecution.TaggedRowsAreNotPermitted` | backend/internal/registry/application/lifecycle_service.go:319-422 | a tagged row that was not approved is never among the digests a run may delete |
| `LifecycleExecution.ReferencedRowsAreNotPermitted` | backend/internal/registry/application/lifecycle_service.go:319-422 | a digest that a present, tagged index outside the approval lists, or that a present manifest has as its subject, is never requested unless approved itself |
| `LifecycleExecution.PlannedRowIsUntagged` | backend/internal/registry/application/lifecycle_service.go:377-404 | whatever is requested along with an approved digest has a live, untagged row without a subject, and among what is present nothing lists it but the target and the plan, and nothing refers to it |
| `LifecycleExecution.LatestSurvive` | backend/internal/registry/application/lifecycle_service.go:319-422 | for each enabled keep-last-k policy the min(k, matching) latest rows are never requested, and those present stay present |
| `LifecycleExecution.OnlyApprovedAreMissed` | backend/internal/registry/application/lifecycle_service.go:319-422 | an index that is incomplete after a run misses only approved digests; if nothing present lists an approved digest beforehand, all indexes stay complete however the run ends; if each lister is approved too, they do when everything approved goes |
| `LifecycleExecution.RetainedListerIsIncomplete` | backend/internal/registry/application/lifecycle_service.go:319-422 | a tagged index that was not approved survives the run, and is incomplete as soon as an entry of it is gone |
| `LifecycleExecution.ClosedAfterRunExactly` | backend/internal/registry/application/lifecycle_service.go:319-422 | when everything approved goes and no untagged index lists something approved, all indexes stay complete if and only if no index outside the approval listed an approved digest before the run |
| `LifecycleExecution.ChildOfRetainedIndexIsEligible` | backend/internal/registry/application/lifecycle_service.go:99-232 | the evaluator does not look at the entries of other manifests: the untagged child of a retained index becomes eligible after its grace period |
| `LifecycleExecution.DeleteChildOfRetainedIndex` | backend/internal/registry/application/lifecycle_service.go:99-450 | a whole run in which it happens: nothing fails, the child of a retained index is deleted, and the tagged index is left without its entry |
| `InventoryStore.Store.UpsertManifestObservation` | backend/internal/registry/infrastructure/persistence/bun/lifecycle.go:73-177 | the observation transaction as one atomic change of rows and tags |
| `InventoryStore.Store.CompleteInventoryReconciliation` | backend/internal/registry/infrastructure/persistence/bun/lifecycle.go:200-268 | detaches tags that vanished, then sets every state, as one atomic change |
| `InventoryStore.Store.ReconcileManifestObservations` | backend/internal/registry/infrastructure/persistence/bun/lifecycle.go:53-71 | observations and completion in one transaction |
| `InventoryStore.Store.MarkManifestDeleted` | backend/internal/registry/infrastructure/persistence/bun/lifecycle.go:365-399 | marks a row deleted and detaches its tags |
| `InventoryStore.Store.RefreshManifestState` | backend/internal/registry/infrastructure/persistence/bun/lifecycle.go:179-198 | active with an attached tag, untagged otherwise, keeping the time since which it is |
| `InventoryStore.UpsertKeepsConsistent` | backend/internal/registry/infrastructure/persistence/bun/lifecycle.go:73-177 | active if and only if an attached tag points at the row, deleted if and only if a deletion time is set, untagged times exactly where they belong |
| `InventoryStore.CompleteKeepsConsistentExactly` | backend/internal/registry/infrastructure/persistence/bun/lifecycle.go:214-268 | completion keeps that invariant if and only if no seen tag points at an unseen digest |
| `InventoryStore.MarkDeletedKeepsConsistent` | backend/internal/registry/infrastructure/persistence/bun/lifecycle.go:365-399 | marking a row deleted keeps it |
| `InventoryStore.MarkDeletedMarks` | backend/internal/registry/infrastructure/persistence/bun/lifecycle.go:365-399 | a deletion marks its own row and detaches its tags, changes no other row or tag, and leaves marked rows marked |
| `InventoryStore.HistoryIsConsistent` | backend/internal/registry/infrastructure/persistence/bun/lifecycle.go:53-399 | every sequence of transactions from the empty tables keeps it |
| `InventoryStore.ReconciliationAgrees` | backend/internal/registry/infrastructure/persistence/bun/lifecycle.go:53-71 | after a reconciliation a row that is not deleted is active, untagged or missing exactly as the registry says |
| `InventoryStore.AfterAgreeingObservations` | backend/internal/registry/infrastructure/persistence/bun/lifecycle.go:53-71 | observations that agree with the registry leave rows that describe it |
| `InventoryStore.UntaggedTimeNeverMoves` | backend/internal/registry/infrastructure/persistence/bun/lifecycle.go:73-268 | while a row stays without a tag its untagged time never moves |
| `InventoryStore.ObservationAges` | backend/internal/registry/infrastructure/persistence/bun/lifecycle.go:73-177 | an observation keeps the first-seen time of a known row, takes over its push if there is one and otherwise keeps the last, and gives a new row the present time |
| `InventoryStore.ReconciliationAges` | backend/internal/registry/infrastructure/persistence/bun/lifecycle.go:53-268 | a reconciliation changes no first-seen and no last-pushed time of a known row, and new rows are first seen now |
| `InventoryStore.LostTagBeginsNow` | backend/internal/registry/infrastructure/persistence/bun/lifecycle.go:199-268 | a row that had a tag, or is new, and is untagged after a reconciliation is untagged since then |
| `InventoryStore.PushedAgainIsUntaggedSinceBefore` | backend/internal/registry/infrastructure/persistence/bun/lifecycle.go:73-198 | a manifest that is deleted and pushed again without a tag gets a fresh untagged time if and only if it had none: one that was active does, one that was untagged or missing keeps its old time |
| `Reconciliation.Reconcile` | backend/internal/registry/application/inventory_service.go:141-305 | on success the seen digests are exactly the closure of live tags and probed known digests under entries and referrers, each once, with observations that agree with the manifests and one for every live tag; missing rows that were asked about and are still absent are noted; without failing requests it succeeds when everything in the closure can be fetched |
| `Reconciliation.ReconcileRepository` | backend/internal/registry/application/inventory_service.go:141-305 | afterwards every row that is not deleted is active, untagged or missing as the registry says, where found means reachable from a live tag or from a present row of the old tables that is not deleted and, if missing, due for a probe; rows of what was found describe its entries and subject; when everything present was found, the inventory it returns is exact; it succeeds when no request fails and everything found can be fetched; a failure changes no table; every row it returns has the state, entries, subject, tags and the first-seen, last-pushed and untagged times of its table row, every table row is returned, and the times changed only as `InventoryStore.ReconciliationAges` and `InventoryStore.LostTagBeginsNow` say |
| `Reconciliation.SeedsOfTables` | backend/internal/registry/application/inventory_service.go:202-214 | the seeds in terms of the rows the service reads are those in terms of the tables |
| `Reconciliation.WhatIsRecorded` | backend/internal/registry/infrastructure/persistence/bun/lifecycle.go:53-71 | what one transaction makes of the observations of a reconciliation: rows that agree with the registry, describe what was found, and keep their times |
| `Reconciliation.ReconciledIsExact` | backend/internal/registry/application/inventory_service.go:141-305 | tables that agree with the registry and describe all of it list an inventory that meets the assumptions of the deletion engine |
| `Reconciliation.ObserveTags` | backend/internal/registry/application/inventory_service.go:176-201 | the tags of the registry with their trees; no digest of them is counted as missing any more |
| `Reconciliation.ObserveTag` | backend/internal/registry/application/inventory_service.go:176-201 | one live tag: its tree is added, with its tag, and its digests are no longer counted as missing |
| `Reconciliation.ObserveKnown` | backend/internal/registry/application/inventory_service.go:202-244 | known digests that were not seen are asked about, missing ones only when their probe is due, and those that stay missing are noted with the time |
| `Reconciliation.ObserveRow` | backend/internal/registry/application/inventory_service.go:206-243 | one known digest: whether it is seen, and exactly what becomes of its probe |
| `Reconciliation.ObserveReferrers` | backend/internal/registry/application/inventory_service.go:245-280 | the referrers of everything seen, including what this adds |
| `Reconciliation.TreeIsCovered` | backend/internal/registry/application/inventory_service.go:349-376 | the observations of a tree are its root and everything below, closed under entries, only the root tagged |
| `Reconciliation.StoredTreeIsCollected` | backend/internal/registry/application/inventory_service.go:349-376 | an unfolding that can be fetched is collected in full |
| `Reconciliation.InventoryService.ShouldProbeMissing` | backend/internal/registry/application/inventory_service.go:307-316 | a missing digest is asked about again only after the interval |
| `Reconciliation.InventoryService.ClearMissingProbe` | backend/internal/registry/application/inventory_service.go:318-322 | a digest that was seen is forgotten |
| `Reconciliation.FoundIsLeast` | backend/internal/registry/application/inventory_service.go:141-305 | the closure is the least set that contains the seeds and follows every step |
| `Maintenance.Controller.Enter` | backend/internal/platform/maintenance/controller.go:24-45 | counts a request in, unless maintenance is active; the first one opens a new channel |
| `Maintenance.Controller.Leave` | backend/internal/platform/maintenance/controller.go:35-44 | the last request closes the channel, which is open |
| `Maintenance.Controller.TryActivate` | backend/internal/platform/maintenance/controller.go:47-55 | takes maintenance and remembers the channel to wait for |
| `Maintenance.Controller.Deactivate` | backend/internal/platform/maintenance/controller.go:57-73 | gives maintenance back, after it or instead of it |
| `Quiescence.ExecutionKeepsInvariant` | backend/internal/platform/maintenance/controller.go:24-73 | in every interleaving counters, holders, operations and the manager's record fit together |
| `Quiescence.MaintenanceIsExclusive` | backend/internal/platform/maintenance/controller.go:24-73 | at most one caller waits for or holds maintenance, and while one holds it nobody is in or gets in |
| `Quiescence.QuietThroughout` | backend/internal/platform/maintenance/controller.go:47-73 | from a successful begin to its end no request is in flight |
| `Quiescence.ChannelIsClosedOnce` | backend/internal/platform/maintenance/controller.go:24-45 | the channel is closed if and only if nothing is in flight, and is never closed twice |
| `Quiescence.CreateRunsAlone` | backend/internal/platform/backup/manager.go:126-214 | the agent creates a backup only while maintenance is held for it, nothing is in flight and no other create or delete runs |
| `Quiescence.DeleteRunsAlone` | backend/internal/platform/backup/manager.go:160-181 | deletions exclude each other and creations |
| `Quiescence.SuccessorIsRefusedExactly` | backend/internal/platform/backup/manager.go:183-214 | an operation that asks for maintenance is refused if and only if an earlier one has reported but not ended, or another caller waits for or holds maintenance |
| `Quiescence.EarlySuccessorIsRefused` | backend/internal/platform/backup/manager.go:183-214 | an execution in which it happens: the first operation has reported its backup as complete, the second is accepted, is refused maintenance and fails |
| `Quiescence.Manager.CheckIdle` | backend/internal/platform/backup/manager.go:126-133 | the first check of a start is a step of the system |
| `Quiescence.Manager.CommitStart` | backend/internal/platform/backup/manager.go:142-153 | the second check and the new record are one step |
| `Quiescence.Manager.Record` | backend/internal/platform/backup/manager.go:220-232 | only the latest operation's record is updated |
| `Quiescence.Manager.BeginDelete` | backend/internal/platform/backup/manager.go:160-168 | a deletion begins unless something is in progress |
| `Quiescence.Manager.EndDelete` | backend/internal/platform/backup/manager.go:169-173 | a deletion ends |
| `Supervisor.OneChildAtMost` | backend/internal/platform/registrymaintenance/agent.go:229-313 | at most one Distribution process is alive, however starts, stops and exits interleave |
| `Supervisor.StoppedChildIsNeverReused` | backend/internal/platform/registrymaintenance/agent.go:229-313 | a start after a completed stop never takes the exited child for a running one |
| `Supervisor.CollectionRunsAlone` | backend/internal/platform/registrymaintenance/agent.go:176-227 | garbage collection runs only while no child is alive and none can appear |
| `Supervisor.CollectionCompletes` | backend/internal/platform/registrymaintenance/agent.go:176-313 | an execution in which a collection stops the child, runs while nothing is alive, and brings up another child |
| `Supervisor.StartOutlastsStop` | backend/internal/platform/registrymaintenance/agent.go:229-303 | an execution in which a start meets a child on its way out, waits for its end, and brings up a new one |
| `Supervisor.FailedStartIsUndone` | backend/internal/platform/registrymaintenance/agent.go:229-288 | an execution in which a child that does not become ready is stopped again and the start fails |
| `Supervisor.CommandRuntime.StartRound` | backend/internal/platform/registrymaintenance/agent.go:229-265 | one round of a start is a step of the system |
| `Supervisor.CommandRuntime.StopBegin` | backend/internal/platform/registrymaintenance/agent.go:268-276 | the beginning of a stop is a step of the system |
| `Supervisor.CommandRuntime.Reap` | backend/internal/platform/registrymaintenance/agent.go:290-303 | clearing the slot is a step of the system; an exit is expected exactly when the slot still holds that child and it is stopping |
| `PullThrough.ExecutionKeepsCounts` | backend/internal/registry/application/pull_through_service.go:207-228 | a project's count is the number of imports between mark and release, its key is absent if and only if that is zero, and slots in use never exceed the capacity |
| `PullThrough.GuardSeesImport` | backend/internal/registry/application/pull_through_service.go:77-87 | if an import that goes on to succeed is marked when the guard is entered, and its repository is not removed while the import counts on it (from the lookup if it was there, otherwise from its settlement), the guard answers that there are repositories |
| `PullThrough.GuardMissesRepositoryRemovedAfterLookup` | backend/internal/registry/application/pull_through_service.go:143-203 | excluding removals only while the guard runs is not enough |
| `PullThrough.ImportGate.MarkImport` | backend/internal/registry/application/pull_through_service.go:207-210 | marking is a step of the system |
| `PullThrough.ImportGate.TryTakeSlot` | backend/internal/registry/application/pull_through_service.go:218-219 | taking a slot is a step of the system, possible exactly while one is free |
| `PullThrough.ImportGate.GiveSlotBack` | backend/internal/registry/application/pull_through_service.go:220-223 | giving a slot back is a step of the system |
| `PullThrough.ImportGate.UnmarkImport` | backend/internal/registry/application/pull_through_service.go:211-226 | clearing a mark is a step of the system, for a finished import and for one that timed out |
| `PullThrough.ImportGate.HasActive` | backend/internal/registry/application/pull_through_service.go:79-85 | whether the project is marked |
| `Pagination.Paginate` | backend/internal/platform/backup/catalog.go:101-146 | fails if and only if the cursor is unreadable; otherwise the page holds the next five summaries behind the cursor and a link exactly when there are more |
| `Pagination.FixedListIsReadThrough` | backend/internal/platform/backup/catalog.go:87-146 | following the links over a fixed list yields it exactly once, in order, and ends |
| `Pagination.NothingRepeats` | backend/internal/platform/backup/catalog.go:87-146 | no summary is shown twice, however the list changes between pages |
| `Pagination.StablePointsAreShownOnce` | backend/internal/platform/backup/catalog.go:87-146 | every summary present throughout is shown exactly once |
| `Archive.Writer.Walk` | backend/internal/platform/backup/archive.go:29-79 | appends exactly the entries of the tree, counting entries and content bytes, or refuses what cannot be archived |
| `Archive.WriteArchive` | backend/internal/platform/backup/archive.go:21-103 | succeeds if and only if the tree holds only regular files and directories under valid paths |
| `Archive.ExtractArchive` | backend/internal/platform/backup/archive.go:125-198 | the loop rebuilds what the entries say, and fails on measurements that do not match; what it rebuilds has plain names only, lies in directories, gives others no permissions, and holds every entry as it was written |
| `Archive.ExtractionIsSafe` | backend/internal/platform/backup/archive.go:125-198 | extracting any list of entries leaves a tree of plain names with masked modes, overwrites no file, and each entry has its content and its owner and group permissions |
| `Archive.ExtractsNothingElse` | backend/internal/platform/backup/archive.go:125-198 | no path is extracted twice, and no file appears that is no entry |
| `Archive.AcceptedPaths` | backend/internal/platform/backup/archive.go:200-209 | a path is accepted if and only if its text has at most 4096 characters and no name in it leads elsewhere |
| `Archive.RoundTrip` | backend/internal/platform/backup/archive.go:21-198 | extracting what was written rebuilds the same files and directories with their modes masked, and counts that match |
| `Archive.WriteAndExtract` | backend/internal/platform/backup/archive.go:21-198 | the same through the two methods |
| `ChecksumFile.PrintChecksums` | backend/internal/platform/backup/create.go:160-168 | one line for every payload, each name once |
| `ChecksumFile.ReadChecksumFile` | backend/internal/platform/backup/inspect.go:78-104 | reads lines up to the size limit and refuses malformed and repeated entries |
| `ChecksumFile.PrintedIsReadBack` | backend/internal/platform/backup/inspect.go:78-104 | reading what was printed returns the map, in whatever order the lines are, for all payload names and 64-digit lower-case hashes |
| `ChecksumFile.LinesAreRead` | backend/internal/platform/backup/inspect.go:78-104 | a line is read if and only if it is shorter than the buffer |
| `ChecksumFile.ReturnsAreIgnored` | backend/internal/platform/backup/inspect.go:78-104 | a carriage return before the end of a line is ignored |
| `ChecksumFile.OnlyBeginningIsRead` | backend/internal/platform/backup/inspect.go:78-104 | nothing behind the size limit is looked at |
| `BackupSet.Inspect` | backend/internal/platform/backup/inspect.go:19-76 | succeeds if and only if the set is complete, unchanged and declares exactly what it holds |
| `BackupSet.ValidateManifest` | backend/internal/platform/backup/manifest.go:70-119 | a manifest is accepted if and only if its format, consistency and database fit each other, version and profile are valid, and it declares exactly the components of its database, in order, with valid hashes and bounded plain files |
| `BackupSet.TamperingIsFound` | backend/internal/platform/backup/inspect.go:19-76 | after one file other than the checksums of an intact set was removed, added or given a content with another hash, no manifest makes the set intact again |
| `BackupSet.StoreComponent` | backend/internal/platform/backup/create.go:192-225 | archives a directory or copies a regular file of limited size, with its measurements |
| `BackupSet.PlaceComponents` | backend/internal/platform/backup/create.go:94-143 | fills the component slots in the order of the database kind; every component ends in its own slot and file |
| `BackupSet.ManifestIsValidExactly` | backend/internal/platform/backup/manifest.go:70-132 | the manifest is accepted if and only if the options are acceptable: a PostgreSQL backup has to be quiesced |
| `BackupSet.PayloadHashes` | backend/internal/platform/backup/create.go:156-159 | the hashes of the manifest and of every component |
| `BackupSet.SumsReadBack` | backend/internal/platform/backup/create.go:156-174 | the checksum file of a new set reads back as those hashes |
| `BackupSet.Finish` | backend/internal/platform/backup/create.go:148-178 | adds manifest, checksums and completion marker, and inspects the result |
| `BackupSet.Describe` | backend/internal/platform/backup/create.go:76-98 | the manifest for components that are in their places, or an error when it is invalid |
| `BackupSet.InspectionDecides` | backend/internal/platform/backup/create.go:145-178 | the inspection inside a creation accepts the set unless its manifest is too large |
| `BackupSet.Create` | backend/internal/platform/backup/create.go:31-190 | succeeds if and only if options, sources and manifest size are acceptable, and then the set is intact and holds every source |
| `Restore.StagedIsSource` | backend/internal/platform/backup/restore.go:80-91 | each target's component, with the shift for PostgreSQL, extracts to exactly the tree that was backed up for it |
| `Restore.Host.MayBegin` | backend/internal/platform/backup/restore.go:36-65 | the checks before anything is touched |
| `Restore.Host.CreateStaging` | backend/internal/platform/backup/restore.go:66-73 | creates the staging directories; what was made before a refused one stays |
| `Restore.Host.ExtractComponents` | backend/internal/platform/backup/restore.go:81-91 | every target's staging directory holds its extracted component |
| `Restore.Host.WriteMarker` | backend/internal/platform/backup/restore.go:92-105 | the marker is written unless a restored entry has its name |
| `Restore.Host.StageConfig` | backend/internal/platform/backup/restore.go:106-124 | the configuration is written beside its target, where nothing may be |
| `Restore.Host.CheckContents` | backend/internal/platform/backup/restore.go:125-134 | passes if and only if the files an installation cannot do without are there as regular files |
| `Restore.Host.ApplyMetadata` | backend/internal/platform/backup/restore.go:135-139 | the targets get the permissions of their staging directories |
| `Restore.Host.Stage` | backend/internal/platform/backup/restore.go:80-139 | the preparation as a whole |
| `Restore.Host.CleanUp` | backend/internal/platform/backup/restore.go:74-124 | removes what staging left, as far as it can |
| `Restore.Host.MoveOut` | backend/internal/platform/backup/restore.go:169-182 | one promoted entry moves from staging to its target and nothing else changes |
| `Restore.Host.MoveBack` | backend/internal/platform/backup/restore.go:153-162 | one entry moves back to where it was staged, recreating the staging directory if needed |
| `Restore.Host.PromoteTarget` | backend/internal/platform/backup/restore.go:169-182 | every entry of one target is promoted and logged |
| `Restore.Host.PromoteTargets` | backend/internal/platform/backup/restore.go:169-182 | all targets in turn |
| `Restore.Host.LoadDump` | backend/internal/platform/backup/restore.go:187-190 | runs the database restore with what is in place at that time |
| `Restore.Host.RemoveStaging` | backend/internal/platform/backup/restore.go:192-196 | the empty staging directories are removed |
| `Restore.Host.RollBack` | backend/internal/platform/backup/restore.go:144-168 | undoes the log backwards; every entry stays at exactly one of its two paths whatever fails, and all are staged again if nothing fails |
| `Restore.Host.Promote` | backend/internal/platform/backup/restore.go:140-199 | everything is promoted, or everything is back in staging, or some of the undoing failed and no entry is lost; a dump is loaded once, after the configuration is in place, and promotion succeeds only if that did |
| `Restore.Host.StageAndPromote` | backend/internal/platform/backup/restore.go:74-199 | the restore from the moment its staging directories are there |
| `Restore.Host.Restore` | backend/internal/platform/backup/restore.go:35-199 | a failed restore leaves every target empty and no configuration; one whose undoing failed has every entry at exactly one of its staged and target paths; a successful one holds the set's contents, has met no failing operation, and, for PostgreSQL, has loaded the set's dump exactly once, with the set's configuration in place; a SQLite set loads nothing; without failing operations it succeeds if and only if the set is restorable and its dump, if it has one, can be loaded |
| `Restore.CreatedIsRestorable` | backend/internal/platform/backup/create.go:94-143 | a created set is restorable if and only if its sources hold the required files and no reserved names, to exactly their contents, and its dump and configuration are those of the sources |
| `Restore.BackUpAndRestore` | backend/internal/platform/backup/restore.go:35-199 | creating and restoring is the identity on contents for both database kinds, and the database, if there is one, is loaded once from the dump that was backed up |

## Left out

- HTTP, JSON, base64 cursors, credentials, the gateway, configuration and the frontend: plumbing around the modelled logic.
- Digests and tags are numbers with equality and order; the text form, and its validation, is not modelled.
- Sizes are unbounded integers: a sum of sizes that overflows 64 bits is not modelled.
- The sort routines of the Go library: `SortLatestFirst` and `InsertByDigest` are insertion sorts with the contract of a stable sort; lists whose order carries no meaning (tags, referrers, map keys, directory entries) are visited in any order.
- Messages, reasons and counters that only describe a decision, the total size an inspection reports, and the audit payloads; which records are written, and whether writing them fails, is modelled for a run.
- Storage accounting, blob descriptors and the inferred repository profile.
- Glob matching of tag patterns is an arbitrary predicate on pattern and tag.
- SQL, migrations and isolation levels: each transaction is one atomic step on maps.
- LifecycleProtocol.ExecutionKeepsInvariants: speaks of transactions as steps of a system; the same transactions as methods of a store object are in `LifecycleExecution`, and both use the same functions for their effect.
- Quiescence.ExecutionKeepsInvariant: the goroutine of a backup operation is a sequence of phases, not a method; timeouts are steps that may happen at any time, and calling an end function a second time, which `sync.Once` ignores, is no step.
- Supervisor.OneChildAtMost: the body of `Start`, `Stop` and `collect` between critical sections is a sequence of phases; signals, readiness polling and the size measurements of a collection are left out, and a failed measurement before the collection begins changes nothing.
- Supervisor.CollectionRunsAlone: is about a system in which children are started only by the boot sequence and by collections, as in the agent.
- PullThrough.GuardSeesImport: singleflight sharing, upstream requests and observation are left out; an import that settles without a copy is one whose settlement follows directly.
- Reconciliation.Reconcile: the size in a referrer descriptor, which is compared with the fetched manifest, is not modelled.
- LifecycleExecution.Execute: reading the inventory and the repository again after the run exists are parameters (`reconciled`, `policies`), so that they may yield anything or fail; a write that fails changes nothing; writes whose reply is lost are steps of `LifecycleProtocol`.
- ArtifactDeletion.Execute: the reconciliation inside the preview, the rows read afterwards and the first audit record are parameters; the later audit records cannot change the outcome and are left out.
- ReferrerPages.ListReferrers: links are page names; parsing the header that carries them is left out.
- Pagination.Paginate: the text of a cursor is the pair it encodes or unreadable, and summaries have valid times, as those read from manifests do.
- Archive.RoundTrip: tar layout, ownership and hard links are left out; a path is its list of names, and contents are characters that stand for bytes.
- BackupSet.Create: the identifier, creation time and storage kind in the manifest, write errors and the final rename of the directory are left out; a version made of Unicode white space beyond ASCII counts as a version.
- Restore.Host.Restore: a failing write creates nothing and a failing removal removes nothing, and what a failed extraction leaves in its staging directory is not tracked; a PostgreSQL database that was loaded stays loaded when a later step fails, as in the source, and a failing load changes nothing.
- `List`, `Delete`, bundles and size estimates of recovery points (`catalog.go`, `unbundle.go`, `estimate.go`): they would only add easy members.
