# Verified models of Minco's publication, planning and validation code

This project models, in Dafny, the parts of Minco that must not go wrong half-way: the three transactional
publishers of `minco-cli`, the projection planner that drives the first of them, the source authority and the
feedback tasks that rest on the second, and the graph and lexer algorithms of the validation scripts. Every
property is proved for all inputs, all failure points and, where it says so, all interleavings with other
processes.

**The disk.** `Disks` is a state machine over a map from (directory inode, name) to inode and a map from inode to
node. `FileSystems.FileSystem` is a class whose methods are the system calls. A call may fail for reasons of its own
(the ghost field `faults` counts these failures, `statFaults` those of them that were an `fstat`). If `shared` is
set, other processes may rebind every name and rewrite every file before each call. The class logs every step of a
run and checks each against a licence: which inodes the run made itself, which it may discard, and between which
names it may move files. The theorems of `Histories` and `Interleavings` follow from this licence alone.

**The agent publisher** (`AgentStaging`, `AgentReadiness`, `AgentTracking`, `AgentPublication`) stages files beside
their targets, installs them with renames that do not replace or that exchange, tracks the state of each entry, rolls
back and cleans up by inode identity. Under interference no inode of anybody else is ever lost, and a file that raced
in ends, as long as others leave its names alone, at its own name, at the target, or under a staging name of that
target; if no request expects it and the run moved it there, the entry is marked `RestoreBlocked`. Without interference a publication is all or nothing at every
failure point: success binds every target to its new bytes whatever becomes of the cleanup, and a failure is undone
unless a call fails that was to undo something. On a list with nothing in its way it succeeds if no call fails, and one
failing call is made good. Two single failures leave something behind, both stated exactly: an `fstat` of a new staging
file leaves that file, and a failing unlink behind a commit leaves an old file under its staging name although the
publication reports success. On a list that does have something in its way, one failing unlink behind the refusal is
enough to leave a staging file.

**The planner** (`AgentPlan`, `AgentPlanFacts`, `AgentSync`, `AgentRuns`, `AgentRaces`) reconciles the wanted files with
the ownership manifest and the tree. Proved: exactly when a plan is safe, that a sync is a fixpoint, that the two
clients can be synced in any order, that a crash short of the manifest makes the next plan unsafe with exactly one
exception, and that over any run of edits and syncs no file of the user is touched, also when users edit between two
installs of one publication and when publications are taken back or crash half-way. `ManifestEncodings` shows that the
assumptions on a bundle can be met and that fresh projects have safe plans. `AgentOnDisk`, `AgentInspections` and
`AgentCrashes` compose planner and publisher: `Sync` walks to each path that the plan looks at, and does to the files of
a disk what the planner's model does to its tree, and a crash leaves what the model of a crash says.

**The create-only publisher** (`DeliveryOverlays`, `DeliveryOutputs`, `DeliveryReadiness`, `DeliveryPublication`) and
the **generator** (`GeneratorEdits`, `GeneratorReadiness`, `GeneratorApply`) are proved in the same way; their undo works
by name and inode, and by content.

**Source authority** (`SourceRules`, `SourceWalk`, `SourceManifests`, `SourceOnDisk`): the pruned Rust walk yields the
flat Python filter, in the same order, exactly if it leaves out no directory with source below it and no source file
has a backslash that makes its path read like an excluded one; a guard on directory names suffices for the first, and
`x.zip/a` shows what is lost without it. **Feedback tasks** (`TaskSearches`, `FeedbackTasks`) build on both: a plan trips
neither over the source authority that it was made for nor over its own task file, an approved plan is applied unless a
call fails, planning again gives the same digest, and applying again changes nothing. `FeedbackExamples` shows that the
assumptions on the tool can be met.

**Validators**: the Rust delimiter scanner (`RustScanner`) accepts exactly the sources whose tokens (`RustTokens`, a
grammar without modes) leave a word of the three-bracket Dyck language (`Brackets`), and pieces that end with a
newline can be checked one by one (`RustPieces`). Cycle detection and feature closure (`Graphs`), publication order
(`PublishOrder`) and name mangling (`OperationNames`) are exact.

Five things differ from what one may expect; the model follows the code, and each has its exact condition and an
example. An early `?` in the create-only publisher returns without cleanup when an invalid path follows a staged output
(`DeliveryPublication.Publisher.Publish`, `InvalidPathLeavesStaging`). The receipt verifier wants the task under `tasks/`
whatever task directory the project names (`ReceiptVerifies`, `ReceiptIsRefused`). The search for a task identifier never
sees a task file that is not Markdown, so that its identifier stays free (`TaskIdIsTaken`, `TaskIsOverlooked`). The two
source filters part on names with a backslash (`FiltersAgree`, `BackslashSplitsTheFilters`). The scanner misses newlines
that a backslash in a string literal escapes: a reported line is too low by exactly their number (`LineIsRight`,
`EscapedNewlineIsMissed`).

## Model

| member | source | states |
|---|---|---|
| Histories.Conservation | crates/minco-cli/src/agent_cmd.rs:1875-2144 | an inode linked at any point of a run, not made by the run and not doomed by its licence, is linked at the end if others keep it linked |
| Histories.Confinement | crates/minco-cli/src/agent_cmd.rs:1993-2120 | as long as others keep the names of a file that the run may not discard, it ends at its own name or at the other name of a licensed pair, whatever they do to other files |
| Histories.StillThere | crates/minco-cli/src/agent_cmd.rs:1993-2120 | a name that the run does not touch, and others keep, keeps its file |
| Histories.BytesKept | crates/minco-cli/src/agent_cmd.rs:1875-2144 | the run rewrites no bytes of a file that is not its own |
| Interleavings.AgentLosesNothing | crates/minco-cli/src/agent_cmd.rs:1875-2144 | inode conservation of the agent publisher under any interference: only replaced old files after success, and files of the run, can lose their last name |
| Interleavings.UserFileStaysHome | crates/minco-cli/src/agent_cmd.rs:2062-2144 | a file that raced in at any time and whose names others keep ends where it was, at the target, or under a staging name for the same target; in the last case, if the run itself moved it there and no entry expects it, the entry is marked as blocked from restoring |
| Interleavings.StartingFileStaysHome | crates/minco-cli/src/agent_cmd.rs:2062-2144 | the same for a file that was there from the start and that no request expects |
| Interleavings.OthersBytesKept | crates/minco-cli/src/agent_cmd.rs:1875-2144 | a publisher that never replaces by name, as these two, rewrites no bytes of others |
| Interleavings.DeliveryLosesNothing | crates/minco-cli/src/delivery_evidence.rs:632-903 | the create-only publisher never takes the last name of an inode that is not its own, whatever the interleaving |
| DirectoryWalks.OpenParent | crates/minco-cli/src/agent_cmd.rs:2187-2202 | finds exactly the directory that the path leads to, and changes nothing |
| DirectoryWalks.OpenOrCreateParent | crates/minco-cli/src/agent_cmd.rs:2146-2185 | adds directories only, all of them on the way even if it fails, never succeeds where something blocks the way, and without faults succeeds exactly where nothing does |
| StagingFiles.WriteNewFile | crates/minco-cli/src/agent_cmd.rs:1921-1971 | every outcome of creating, writing and taking back a staging file; one is left behind only by a failing `fstat` or by two failures |
| AgentPublication.Publisher.InspectAt | crates/minco-cli/src/agent_cmd.rs:1807-1857 | what is reported of a name is what the name is bound to, by identity and bytes |
| AgentPublication.Publisher.VerifyExpected | crates/minco-cli/src/agent_cmd.rs:2204-2232 | succeeds only if the target is what the plan expected, by identity and digest |
| AgentPublication.Publisher.Stage | crates/minco-cli/src/agent_cmd.rs:1907-1971 | stages one request over an otherwise unchanged disk, or says why it was refused |
| AgentPublication.Publisher.InstallAll | crates/minco-cli/src/agent_cmd.rs:1993-2060 | the installs that happened form a history of single renames, and only a failing call stops ready entries |
| AgentPublication.Publisher.RollBack | crates/minco-cli/src/agent_cmd.rs:2062-2120 | undoes such a history, last install first, from every failure point |
| AgentPublication.Publisher.CleanUp | crates/minco-cli/src/agent_cmd.rs:2122-2144 | empties staging names and nothing else whatever fails; without a failing call exactly those of the own leftovers, and of the replaced files after a commit |
| AgentPublication.Publisher.Publish | crates/minco-cli/src/agent_cmd.rs:1875-1905 | success binds every target to its new bytes, whatever calls fail, and leaves no staging name unless a call of the cleanup fails; a failure is undone unless an undoing call fails; with nothing in the way it succeeds without failing calls, and behind a failure with one failing call nothing stays but the file of a failing `fstat`; every entry is accounted for |
| AgentStaging.PublishedAfterCleanup | crates/minco-cli/src/agent_cmd.rs:2122-2144 | after a commit every target holds its new file and every other name is as before |
| AgentStaging.RestoredAfterCleanup | crates/minco-cli/src/agent_cmd.rs:2062-2144 | after a rollback and cleanup every name is bound as at the start |
| AgentStaging.SweptByCleanup | crates/minco-cli/src/agent_cmd.rs:2122-2144 | however much of the cleanup behind a commit came through, apart from staging names the disk is the same |
| AgentPlan.BuildPlan | crates/minco-cli/src/agent_cmd.rs:1150-1420 | the loops compute the plan of the specification |
| AgentPlan.DesiredByPath | crates/minco-cli/src/agent_cmd.rs:1430-1461 | a projection path belongs to one client and has one content |
| AgentPlanFacts.NextManifestLoads | crates/minco-cli/src/agent_cmd.rs:1325-1388 | the manifest that any plan would write passes every check of the loader |
| AgentPlanFacts.LoadedRecords | crates/minco-cli/src/agent_cmd.rs:1463-1510 | a manifest that loads records distinct fixed paths, each with its own client |
| AgentPlanFacts.SafePlans | crates/minco-cli/src/agent_cmd.rs:1181-1306 | a plan is safe exactly if manifest, bridge and every considered file are free of conflicts |
| AgentPlanFacts.ConflictsAreUnsafe | crates/minco-cli/src/agent_cmd.rs:1219-1356 | a plan with a conflict action is never safe, so it is never published |
| ManifestEncodings.FreshProjectsAreSafe | crates/minco-cli/src/agent_cmd.rs:1181-1306 | where nothing was installed and nothing is in the way the plan is safe for every client |
| ManifestEncodings.BundlesExist | crates/minco-cli/src/agent_cmd.rs:1333-1341 | what is assumed of writing and reading manifests can be had for any assets |
| AgentSync.SyncFixpoint | crates/minco-cli/src/agent_cmd.rs:1539-1583 | after the sync of a safe plan the next plan is safe, all unchanged with the manifest, and a further sync changes nothing |
| AgentSync.HealthyMeansNothingToDo | crates/minco-cli/src/agent_cmd.rs:1586-1598 | `doctor` says healthy exactly if the plan is safe and a sync would write nothing |
| AgentSync.TargetConfluence | crates/minco-cli/src/agent_cmd.rs:71-77 | from a tree where the plan for all clients is safe, Codex then Claude, Claude then Codex, and both at once all succeed with the same contents everywhere |
| AgentRuns.FileWritesIncludeManifest | crates/minco-cli/src/agent_cmd.rs:1325-1388 | every safe plan that writes a file also writes the manifest |
| AgentRuns.ManifestInstallsLast | crates/minco-cli/src/agent_cmd.rs:1893-1897 | the manifest is the last file to be installed |
| AgentRuns.CrashedPlans | crates/minco-cli/src/agent_cmd.rs:1219-1306 | after a crash short of the manifest, a plan for any target that was safe before is safe exactly if every installed file of its clients is a created bridge |
| AgentRuns.CrashFailsClosed | crates/minco-cli/src/agent_cmd.rs:1893-1897 | for the synced target that happens exactly if the one installed file is the created bridge, and then only the manifest was to follow |
| AgentRuns.SyncRespectsUsers | crates/minco-cli/src/agent_cmd.rs:1219-1306 | no sync that is published as a whole, racing or not, changes an existing destination that the manifest does not record or records with another digest |
| AgentRuns.UserFileSurvives | crates/minco-cli/src/agent_cmd.rs:1539-1583 | over any run of edits and syncs, a file that the user put there stays the user's |
| AgentRaces.InstallRespectsUsers | crates/minco-cli/src/agent_cmd.rs:1993-2060 | no single install changes a file that the planned manifest does not record with its digest, whatever users did since the plan was made |
| AgentRaces.RacedFileSurvives | crates/minco-cli/src/agent_cmd.rs:1539-1583 | over any run of edits, installs, undoings and crashes in any order, a file that the user put there and the manifest does not record stays the same, unrecorded file |
| AgentRuns.ApprovedPlanIsExact | crates/minco-cli/src/agent_cmd.rs:1512-1516 | approving a digest approves the exact files, contents and replaced inodes |
| AgentOnDisk.SyncOnDisk | crates/minco-cli/src/agent_cmd.rs:1539-1583 | a publication of a safe plan refines the planner's model of a sync, path by path |
| AgentOnDisk.SafePlanIsPublishable | crates/minco-cli/src/agent_cmd.rs:1150-1420 | a safe plan has nothing in its way on the disk that it was made on |
| AgentOnDisk.PublishPlan | crates/minco-cli/src/agent_cmd.rs:1557-1583 | a safe plan for the tree of the disk makes the files those of the model whatever becomes of the cleanup, or leaves them as they were if the failure was undone; without a failing call it succeeds |
| AgentInspections.InspectPath | crates/minco-cli/src/agent_cmd.rs:1765-1857 | the walk reports what is at the path, blocked ways and odd entries as unsafe; a failing call reads as unsafe or as an error |
| AgentInspections.PlanOfSeen | crates/minco-cli/src/agent_cmd.rs:1150-1356 | a plan depends on nothing but the paths that it looks at |
| AgentInspections.TreeOnIsSeen | crates/minco-cli/src/agent_cmd.rs:1765-1857 | every tree-shaped disk has a tree of the planner that shows it truly |
| AgentInspections.Sync | crates/minco-cli/src/agent_cmd.rs:1539-1583 | on any tree-shaped disk and without failing calls: stale digests and unsafe plans are refused with nothing changed, and everything else succeeds; with failing calls success still means the files of the model, and a failed sync is undone unless two calls fail or an `fstat` does |
| AgentCrashes.CrashOnDisk | crates/minco-cli/src/agent_cmd.rs:1993-2060 | after any number of installs the disk has, apart from staging names, the files of the planner's crashed tree |
| DeliveryPublication.Publisher.VerifyInputs | crates/minco-cli/src/delivery_evidence.rs:712-737 | succeeds only if every guarded input holds its recorded bytes |
| DeliveryPublication.Publisher.Prepare | crates/minco-cli/src/delivery_evidence.rs:739-805 | finds an output that is there already with the same bytes, or stages it, over an otherwise unchanged disk |
| DeliveryPublication.Publisher.InstallOne | crates/minco-cli/src/delivery_evidence.rs:807-867 | installs at most this output; an existing output passes only if it is still the same file, in its place and with the same bytes; with a free target only a failing call stops it |
| DeliveryPublication.Publisher.RollBack | crates/minco-cli/src/delivery_evidence.rs:869-888 | whatever fails, every created output is either still in place and named in the result, or its name is free; without failing calls all are taken back |
| DeliveryPublication.Publisher.Publish | crates/minco-cli/src/delivery_evidence.rs:632-710 | success means exact bytes at every output, flags true exactly for outputs absent at the start, inputs and check holding, nothing else changed; a failure leaves all files as they were, with the two leaks stated exactly; what can be delivered is delivered unless a call or the check fails, and nothing else ever is; publishing again changes nothing and flags nothing |
| DeliveryReadiness.DeliveredWasDeliverable | crates/minco-cli/src/delivery_evidence.rs:632-867 | only lists are delivered whose outputs are absent or there already, can be reached and do not lie on the way to each other |
| DeliveryReadiness.InvalidPathLeavesStaging | crates/minco-cli/src/delivery_evidence.rs:648-650 | on any disk, an output with a free name followed by one without a path is such a list that ends in the invalid path with its staging file left |
| GeneratorApply.Generator.Preflight | crates/minco-cli/src/generator_cmd.rs:1232-1274 | passes only if every target is still as the edit was planned for |
| GeneratorApply.Generator.InstallCreate | crates/minco-cli/src/generator_cmd.rs:1211-1230 | moves a file to a free name without ever replacing one, or leaves the disk as it was unless two calls fail |
| GeneratorApply.Generator.ApplyEdits | crates/minco-cli/src/generator_cmd.rs:1140-1209 | success means exactly the new bytes at every target and no temporary left; a failure restores all contents unless two calls fail, or one in the cleanup behind the last preflight, or the failing `open` of a later temporary file, which leaves the earlier ones; what no longer fits is refused untouched; edits with nothing in their way are applied unless a call fails |
| GeneratorEdits.ReapplyPasses | crates/minco-cli/src/generator_cmd.rs:1232-1274 | applying a list again passes the preflight exactly if it holds no create and no change of bytes |
| GeneratorReadiness.TemporariesDiffer | crates/minco-cli/src/generator_cmd.rs:1155-1163 | the temporary files of two edits never share a name |
| SourceRules.RustFilter | crates/minco-cli/src/delivery_evidence.rs:200-220 | the Rust filter includes exactly what the Python filter includes and does not read like an excluded path |
| SourceRules.FiltersAgree | scripts/source_manifest.py:89-99 | the two filters differ on a path exactly if Python includes it and it reads like an excluded one; never on plain paths |
| SourceRules.BackslashSplitsTheFilters | crates/minco-cli/src/delivery_evidence.rs:200-220 | a name with a backslash that reads like an exact exclusion is included by one filter and excluded by the other |
| SourceWalk.CollectDirectory | crates/minco-cli/src/delivery_evidence.rs:454-532 | gathers exactly the reached files in strictly increasing component order, or names a refused object that it reached |
| SourceWalk.Walked | crates/minco-cli/src/delivery_evidence.rs:454-532 | the walk has a result exactly if it reaches nothing that it refuses |
| SourceManifests.PrunedWalkIsFlatFilter | crates/minco-cli/src/delivery_evidence.rs:454-532 | the pruned walk equals the flat filter of the sorted files exactly if no directory with source below it is left out |
| SourceManifests.GuardSuffices | crates/minco-cli/src/delivery_evidence.rs:200-220 | nothing is lost if no directory itself is named by a rule |
| SourceManifests.WalkAgreesWithReport | scripts/source_manifest.py:115-142 | the Rust walk gathers what the Python report lists exactly if no left-out directory has source below it and no source file reads like an excluded path |
| SourceManifests.ProjectWalkAgreesWithReport | scripts/source_manifest.py:12-142 | with the rules that the project ships and no directory named by a rule alone, exactly the second; so always on plain paths |
| SourceManifests.EntriesAgree | scripts/source_manifest.py:115-142 | of the same files both tools write the same entries exactly if every path is plain |
| SourceRules.ProjectRulesAreWellFormed | crates/minco-cli/src/delivery_evidence.rs:35-101 | no shipped rule holds a separator inside a component or an empty suffix |
| SourceManifests.PruningLosesFiles | crates/minco-cli/src/delivery_evidence.rs:454-532 | a directory with the name of an archive hides its files from the walk and not from the filter |
| SourceManifests.CurrentSourceEntries | crates/minco-cli/src/delivery_evidence.rs:264-285 | the final sort finds the entries of plain paths sorted already |
| SourceManifests.EntriesDetermineFiles | crates/minco-cli/src/delivery_evidence.rs:287-299 | what the aggregate digest sees determines every file of the source |
| SourceOnDisk.SourceIsThere | crates/minco-cli/src/delivery_evidence.rs:264-285 | on a tree-shaped disk the source has entries exactly if the walk meets no obstacle |
| SourceOnDisk.SameSourceSameEntries | crates/minco-cli/src/delivery_evidence.rs:301-306 | two tree-shaped disks with the same source files and obstacles have the same entries, and so the same digest |
| SourceOnDisk.SourceUnchanged | crates/minco-cli/src/feedback_cmd.rs:726-755 | publishing files that the walk leaves out does not change the source |
| TaskSearches.Search | crates/minco-cli/src/feedback_cmd.rs:1014-1067 | finds a task file with the identifier that is not the exempted one, and finds none exactly if the identifier is available and nothing bars the search |
| FeedbackTasks.Plan | crates/minco-cli/src/feedback_cmd.rs:477-699 | plans exactly what the specification plans, and refuses exactly what it refuses |
| FeedbackTasks.PlanSurvivesItsOutputs | crates/minco-cli/src/feedback_cmd.rs:718-755 | delivering the outputs of a plan leaves the source digest, taken of the walk, that the plan was made for |
| FeedbackTasks.StillAvailable | crates/minco-cli/src/feedback_cmd.rs:1038-1066 | after a delivery the identifier is still available to its own task: a plan does not trip over the file that it wrote |
| FeedbackTasks.TaskIdIsTaken | crates/minco-cli/src/feedback_cmd.rs:1038-1066 | for every other path it is taken then, exactly if the task is a Markdown file |
| FeedbackTasks.ReplanIsIdempotent | crates/minco-cli/src/feedback_cmd.rs:477-698 | planning again after apply gives the same plan and digest, now idempotent, if the checks on feedback, release, deployment and roadmap do not look at the two outputs |
| FeedbackTasks.ReceiptVerifies | crates/minco-cli/src/feedback_cmd.rs:391-446 | the written receipt is accepted exactly if the task lies under `tasks` |
| FeedbackTasks.Apply | crates/minco-cli/src/feedback_cmd.rs:701-775 | only the approved digest is applied; a plan never fails its own source checks; it is applied unless a call fails or one output lies on the way to the other; a second apply succeeds and changes nothing |
| FeedbackExamples.EnvironmentsExist | crates/minco-cli/src/feedback_cmd.rs:477-698 | what is assumed of the tool can be had with the shipped rules and any digest and checks |
| FeedbackExamples.WillingEnvironmentsExist | crates/minco-cli/src/feedback_cmd.rs:477-698 | and so that nothing but the project decides whether there is a plan |
| FeedbackExamples.ReceiptIsRefused | crates/minco-cli/src/feedback_cmd.rs:408-412 | a project with another task directory whose delivered receipt is refused |
| FeedbackExamples.TaskIsOverlooked | crates/minco-cli/src/feedback_cmd.rs:1056-1062 | a delivered task in no Markdown file whose identifier stays free |
| RustScanner.StartsRaw | scripts/validate_static.py:2025-2040 | finds the quote and the hash count of a raw string of any hash count |
| RustScanner.StartsChar | scripts/validate_static.py:2042-2058 | tells a character literal from a lifetime |
| RustScanner.BalancedRust | scripts/validate_static.py:2010-2177 | nothing is reported exactly for accepted sources; a report names a bracket that is there and read as code, its line less the newlines missed before it, and what is wrong with the brackets, or the kind of literal or comment that the source ends in; an unterminated character literal is never reported |
| RustScanner.LineIsRight | scripts/validate_static.py:2060-2164 | a reported line is right exactly if no escaped newline was missed before it |
| RustTokens.EscapedNewlineIsMissed | scripts/validate_static.py:2087-2097 | a source whose unclosed bracket on line 2 is reported for line 1 |
| RustTokens.CommentEscapesNothing | scripts/validate_static.py:2064-2069 | a backslash at the end of a line comment misses nothing |
| RustTokens.ScanIsTokenization | scripts/validate_static.py:2060-2164 | the scan ends well exactly if the source splits into tokens, and it sees the brackets among their plain characters |
| RustTokens.AcceptedSources | scripts/validate_static.py:2010-2177 | accepted sources are those whose tokens leave a word of the three-bracket Dyck language |
| Brackets.StackDecidesDyck | scripts/validate_static.py:2158-2177 | the stack check decides the Dyck language |
| RustPieces.AcceptedPieces | scripts/validate_static.py:2025-2177 | behind an accepted source that ends with a newline, the verdict on a longer source is that on the rest |
| RustPieces.NewlineNeeded | scripts/validate_static.py:2064-2069 | without the newline that fails |
| Graphs.CycleChecker.Check | scripts/validate_static.py:1453-1470 | records an error exactly if the graph has a cycle, each error names a node on one, and nothing is left being visited |
| Graphs.CycleChecker.Visit | scripts/validate_static.py:1457-1467 | restores the nodes being visited, and without errors has visited its node and all it leads to |
| Graphs.FeatureClosureTokens | scripts/validate_static.py:1743-1759 | computes the least closed set that holds the roots |
| Graphs.ClosureIsReachable | scripts/validate_static.py:1743-1759 | that set is exactly what can be reached from the roots |
| Graphs.ClosureIsIdempotent | scripts/validate_static.py:1743-1759 | the closure of a closure is that closure |
| Graphs.ClosureDistributes | scripts/validate_static.py:1743-1759 | the closure of two lists of roots is the union of their closures |
| PublishOrder.InternalDependencies | scripts/validate_publish.py:280-294 | yields exactly the publishable packages that the package depends on, renamed ones under their real names |
| PublishOrder.ValidatePublishOrder | scripts/validate_publish.py:296-322 | each finding is made exactly if its rule is broken, and none exactly if the order is a duplicate-free listing with dependencies strictly earlier |
| PublishOrder.GoodOrderHasNoCycle | scripts/validate_publish.py:296-322 | packages with a good order depend on each other without a cycle |
| PublishOrder.PrefixesAreClosed | scripts/validate_publish.py:296-322 | every prefix of a good order is closed under dependencies |
| PublishOrder.SelectPackages | scripts/release/publish.py:313-319 | refuses exactly unknown names; selects exactly what is named, or everything, each once and in the declared order, so behind its dependencies |
| PublishOrder.SelectionRespectsDependencies | scripts/release/publish.py:313-319 | a selection from a good order still has dependencies before dependents |
| OperationNames.LowerCamelToSnake | crates/minco-cli/src/generator_cmd.rs:1336-1348 | refuses exactly invalid operationIds and otherwise computes the snake-case name |
| OperationNames.CamelOfSnake | crates/minco-cli/src/generator_cmd.rs:1336-1365 | snake case has a left inverse on valid operationIds |
| OperationNames.SnakeInjective | crates/minco-cli/src/generator_cmd.rs:1336-1365 | distinct operationIds have distinct snake-case names |
| OperationNames.UnvalidatedNamesCollide | crates/minco-cli/src/generator_cmd.rs:1357-1365 | without the validation two names collide |
| OperationNames.UpperSnakeIsScreamingSnake | scripts/validate_static.py:2007-2008 | upper-cased, the name is that of the other tool |
| OperationNames.ResourceTargetsDistinct | crates/minco-cli/src/generator_cmd.rs:394-433 | the resource plan, which checks for no duplicates, plans pairwise distinct targets for distinct operationIds |

## Left out

- DeliveryPublication.Publisher.Publish: that one failing call is made good is proved for lists that can be delivered, apart from a check that fails on what was delivered; for other lists a failure is undone if no undoing call fails.
- AgentPublication.Publisher.Publish: that a single failing call leaves nothing is proved for lists with nothing in their way; for others a single failing unlink behind the refusal leaves a staging file, as in the code.
- SourceWalk.CollectDirectory: walks a tree that stands still; the identity checks that detect a tree changing under the walk are left out.
- FeedbackTasks.Apply: the checks of a plan on feedback, release, deployment, operation and roadmap are one parameter that may depend on the disk; rendering, front matter and the texts of tasks are parameters.
- TaskSearches.Search: a special file that is no symbolic link counts as one, at which the search gives up.
- AgentRaces.RacedFileSurvives: one sync runs at a time, others count as users; checking an expectation and the rename behind it are one step; a sync has seen the manifest at some moment of the run.
- Inode numbers are never used again, and an identity check and the unlink behind it are one step, as are `rename` calls.
- The names of staging files: never a planned name in the model, random in the code; that one exists already counts as a failing call in the create-only publisher and does not happen in the agent publisher.
- Symbolic links count as special nodes, which every publisher and walk refuses; resolving and canonicalising paths is left out.
- File modes, size limits, durability of `fsync`, and the test hooks between the steps.
- SHA-256 and the rendering of JSON are injective functions; parsing is the inverse of rendering.
- The details of conflict messages, the manual actions of a plan, and the wording of errors.
- Recursion limits of Python: graphs of any depth are visited.
- The fallbacks for platforms without these system calls.
- The code in other crates, the database, configuration and architecture commands, the evidence field validators and all rendering.
