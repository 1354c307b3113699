# CoHarness build and CI scripts: verified models

Dafny 4.11 models of the logic in the repository's `scripts/` directory, with proofs of what that logic
guarantees. `dafny verify dfyconfig.toml` checks the whole project. One module per file:

- **Scheduling, GrahamTight, HeapScheduler, PartitionPlan** — the coverage scheduler. Files are sorted by recorded duration and
  placed, heaviest first, into the bucket at the root of an index min-heap. `Scheduling` says what such runs
  guarantee, independently of any heap, `GrahamTight` that its constant is best possible; `HeapScheduler` is the in-place heap loop on arrays, proved to make such a run;
  `PartitionPlan` carries the result from the Vitest inventory to the include lists that each partition's generated
  config gives to each project.
- **TimingStore** — the persisted durations that weight the next run, over any sequence of writes.
- **ScopePolicy, ConsumerRelations, WebVerification, LaneScope, ScopeReport, ShadowPlan** — the pull-request lane
  selector: path predicates, consumer rules, browser tier, lanes, the report of added and removed validation, and the
  shadow union with a frozen baseline.
- **PrProofs** — additional pre-merge proofs.
- **PathShapes** — what the path tests of these selectors match, string by string: each of the source's regular
  expressions as a set of concatenations, proved equal to the test that the selectors use.
- **CommandTimeout, StageSupervisor, WorkerPool** — three asynchronous protocols as state machines whose steps
  interleave freely: a command with timeout and process-group termination, the shutdown of the development stages,
  and the bounded concurrent map.
- **GitBatch, ArtifactDigest, ArchiveManifest, CandidateSearch** — the `git cat-file --batch` reader, the
  length-prefixed artifact digest and its build record, the sealed archive manifest, and the worklist search over the
  package graph.
- **Sorting, Collections, Optional, Decimal, PathText, ObjectMembers** — shared helpers; the last one has the names that
  every plain object inherits.

Durations are `real` (rounding is not the point here), clocks are integers or reals in milliseconds, bytes are the
integers 0 to 255; a call reads the clock once. A sorted duplicate-free list whose order nothing reads (browser groups and scenarios) is a set.
Locale collation, code-unit order, glob matching, hashing and the content stamp of a bundle are parameters; a
collision-free hash is assumed only where a statement says so. File-system content, process exits, the clock and
the caller's abort are inputs or steps of the outside world.

Places where the code does not do what its documentation, or the obvious reading, says; the model follows the code and
states the exact condition:

- `assignWeightedPartitions` promises that every partition is non-empty. It is, exactly when there are at least as
  many files as partitions (`PartitionPlan.EmptyListIffScarce`); the coordinator refuses the rest.
- A partition runs each of its files once, except that a file name with a backslash, which POSIX permits, is normalised
  away: such a file is never run, and a file to which another one is normalised is listed twice. Exactly the other
  files are listed once (`PartitionPlan.ExactlyOnceIff`, with an instance in `PartitionPlan.BackslashExample`).
- Growing a diff can lower the coverage lane: a diff that consists of inert prose only, some of it a shared browser
  input outside the Admin tree, selects full coverage, and adding one ordinary source file selects scoped coverage.
  This is the only such diff (`LaneScope.CoverageCanDropIff`, with an instance in `LaneScope.CoverageDropsExample`).
- A changed scenario file runs that scenario, unless the policy declares the file a shared input of other scenarios
  only; then those run instead (`WebVerification.ChangedScenarioRunsIff` has the exact condition).
- A scenario is looked up in a plain object without an own-property test. A changed path such as
  `apps/web/tests/constructor` finds the inherited member, which then counts as a group, so the selector throws or names
  a group that does not exist. `WebVerification.StrangeDiffIff` says for which diffs this happens: no path needs the full
  inventory and some path below the web tests spells an inherited member. For every other diff, and only for those, the
  selection can be executed (`LaneScope.SelectionShape`). The loader tests smoke scenarios in the same way, so a policy
  with the smoke scenario `constructor` loads; under it every exact selection is in the same position.
- The resolver promises full validation when the baseline is unusable. It checks the baseline's selection of the whole
  diff, but its report also evaluates the selection of the prose-free diff: when the diff holds inert prose and that
  selection names a group that the current policy has retired, the resolver throws under either execution policy.
  It fails exactly for such baselines, for the diffs of the previous item and for an unknown policy name
  (`ShadowPlan.ResolveCiPrScopePlans`, with instances in `ShadowPlan.RetiredGroupExample` and
  `ShadowPlan.InheritedMemberExample`).
- A build record is to bind the artifacts. The digest replaces backslashes in the listed paths before it reads them, so on
  POSIX a file with a backslash in its path is never read: another file is read in its place, or the file is overlooked
  when its replaced path is a directory. Among the trees without overlooked files a record binds its artifacts exactly
  when no file has a backslash in its path and no directory with one is taken for a file (`ArtifactDigest.BindsIff`, with
  an instance in `ArtifactDigest.TwinExample`; `ArtifactDigest.OverlookedIsFree` is why those trees are set apart).
- The archive manifest is a plain object too. An artifact whose path spells an inherited member is never sealed, a missing
  entry of such a name is reported as changed, and parsing drops an entry named `__proto__`
  (`ArchiveManifest.ExtendArchiveManifest`, `ArchiveManifest.ParseInvertsRender`).
- `StageSupervisor.stop` promises to resolve once all stages have exited. It waits for those that joined before it last
  looked at its live set; one that joins during the last wait survives (`StageSupervisor.StopWaitsForAll`, with an
  instance in `StageSupervisor.LateStageExample`). The entry point adds no stage after it began to stop.
- A worker of `mapConcurrent` that meets an undefined value returns and is lost to the pool, so values behind as many
  undefined ones as there are workers are never processed (`WorkerPool.PoolResult` states exactly which are, and
  `WorkerPool.LostValueExample` is an instance). The only caller, scripts/benchmark-next-package-dependency.ts:229,
  passes package names, which are all defined; for it every value is processed (`WorkerPool.EveryValueProcessed`).

## Model

| member | source | states |
|---|---|---|
| HeapScheduler.SortedJobsFaithful | scripts/coverage-partitions.ts:380-382 | the job list is a permutation of the files, each with its recorded weight or 1, in descending weight |
| HeapScheduler.TiesByName | scripts/coverage-partitions.ts:382-382 | files of equal weight are placed in the locale's order |
| HeapScheduler.SmallestOf | scripts/coverage-partitions.ts:407-420 | returns an entry's least child that is less than it, or the entry itself when no child is less |
| HeapScheduler.SwapKeepsHeap | scripts/coverage-partitions.ts:421-426 | swapping the smallest child up leaves heap order in question only below that child |
| HeapScheduler.SiftDown | scripts/coverage-partitions.ts:400-428 | restores heap order by (weight, file count) after the entry at an index changed, permuting the heap and leaving the buckets alone |
| HeapScheduler.RootIsLightest | scripts/coverage-partitions.ts:384-391 | the root of a heap that permutes the bucket indices is a bucket that a full scan would call lexicographically least |
| HeapScheduler.PlaceNext | scripts/coverage-partitions.ts:387-395 | one placement goes to a lightest bucket and keeps: bucket contents are those of the run, the heap is a permutation in heap order |
| HeapScheduler.AssignWeightedPartitions | scripts/coverage-partitions.ts:374-397 | the heap loop makes a run in which every file goes to a lightest bucket of its moment; the out-of-bounds throw happens exactly for zero partitions and some file |
| Scheduling.LoadsSumToTotal | scripts/coverage-partitions.ts:387-395 | bucket weights add up to the weight of the files placed |
| Scheduling.BigJobFits | scripts/coverage-partitions.ts:380-395 | a file heavier than a third of what some assignment needs still fits the lightest bucket within that amount |
| Scheduling.GrahamBound | scripts/coverage-partitions.ts:374-397 | every bucket b of a run satisfies 3m·weight(b) ≤ (4m − 1)·t for any assignment of the same files whose buckets stay within t |
| GrahamTight.BoundIsTight | scripts/coverage-partitions.ts:380-395 | the constant is best possible: for every number m of buckets there are weights and a run whose heaviest bucket weighs 4m − 1 while the best assignment needs 3m |
| Scheduling.Balanced | scripts/coverage-partitions.ts:380-395 | taking any one file out of a bucket leaves it no heavier than every other bucket |
| Scheduling.ListSchedulingBound | scripts/coverage-partitions.ts:380-395 | m·weight(b) ≤ total + (m − 1)·largest weight |
| Scheduling.AllUsedIffEnoughJobs | scripts/coverage-partitions.ts:384-395 | every bucket gets a file exactly when there are at least as many files as buckets, zero weights included |
| Scheduling.RunsAgree | scripts/coverage-partitions.ts:384-395 | any two runs over the same files end with the same multiset of (weight, file count) pairs, however ties are broken |
| Scheduling.AgreesWithScan | scripts/coverage-partitions.ts:366-371 | those pairs are the ones of longest-processing-time scheduling by plain scan |
| PartitionPlan.BucketSumIsWeight | scripts/coverage-partitions.ts:392-393 | the running sum of a bucket is the partition weight of its file list |
| PartitionPlan.NearOptimal | scripts/coverage-partitions.ts:374-397 | Graham's bound on the produced file lists against any split of the same files into equally many lists |
| PartitionPlan.NoListTowers | scripts/coverage-partitions.ts:380-397 | a produced list without any one of its files, its lightest included, is no heavier than any other list |
| PartitionPlan.ParseFileInventory | scripts/coverage-partitions.ts:220-246 | succeeds exactly on well-formed entries without repeated file, and otherwise rejects the first offending entry, saying whether it is malformed or which file it repeats; the result holds exactly the listed non-exempt files, once each and sorted, with their projects |
| PartitionPlan.RunKeepsFiles | scripts/coverage-partitions.ts:383-397 | the partitions together hold exactly the scheduled files |
| PartitionPlan.IncludesConserve | scripts/coverage-partitions.ts:465-470 | per project, the include lists of all partitions together are the inventory's include list |
| PartitionPlan.NamedAsOftenAsSpelled | scripts/coverage-partitions.ts:469-470 | a name occurs in the include lists as often as inventoried files are spelled that way after backslash normalisation |
| PartitionPlan.SpelledOnceIff | scripts/coverage-partitions.ts:469-470 | a file of a duplicate-free inventory is spelled once after normalisation exactly when its name holds no backslash and no other file is normalised to it |
| PartitionPlan.ExactlyOnceIff | scripts/coverage-partitions.ts:465-488 | an inventoried file is in the include list of exactly one partition, once, and only under the project that the inventory gives it (thread-safe if it gives none), exactly when its name holds no backslash and no other file is normalised to it |
| PartitionPlan.RunsAsListed | scripts/coverage-partitions.ts:220-488 | from Vitest's entry to the configs: a listed, non-exempt, unambiguous file is included once, under the project its entry names |
| PartitionPlan.BackslashExample | scripts/coverage-partitions.ts:469-470 | two file names that differ only by a backslash: however they are split, one is never listed and the other is listed twice |
| PartitionPlan.EmptyListIffScarce | scripts/coverage-partitions.ts:565-573 | some partition is empty exactly when there are fewer files than partitions |
| PartitionPlan.AssertNonEmptyAssignments | scripts/coverage-partitions.ts:565-573 | rejects exactly the assignments with an empty partition and names the first one |
| PartitionPlan.Coordinator.Create | scripts/coverage-partitions.ts:504-515 | refuses fewer than two partitions, otherwise keeps the given inventory, weights and projects |
| PartitionPlan.Coordinator.AssignFiles | scripts/coverage-partitions.ts:592-611 | schedules the injected inventory or the listed one with the persisted durations, heaviest partition first, losing no file; reassigns the projects only when it collected them |
| TimingStore.ReadPersistedDurations | scripts/coverage-partitions.ts:291-310 | returns the durations of a store of the right version, identity and age, or nothing when a single entry is invalid |
| TimingStore.ReadableIff | scripts/coverage-partitions.ts:298-308 | an entry is readable exactly from a version 1 record of the same identity, not from the future and at most fourteen days old, all of whose entries are finite non-negative durations of spec files |
| PathShapes.TimingPathIff | scripts/coverage-partitions.ts:194-198 | a timing path is a normalised relative path of a spec file: no backslash, no colon, no empty, current or parent segment |
| TimingStore.Overlay | scripts/coverage-partitions.ts:325-328 | valid new measurements override the old entries, invalid ones are ignored |
| TimingStore.DropAbsent | scripts/coverage-partitions.ts:329-334 | keeps exactly the entries of current files |
| TimingStore.TimingFile.WriteFileDurations | scripts/coverage-partitions.ts:319-341 | the store after a write is the merged, restricted history under the writer's identity and time; an empty write changes nothing |
| TimingStore.WriteThenRead | scripts/coverage-partitions.ts:300-303 | a non-empty write is readable by its own identity for fourteen days as the merged history, and as nothing by anyone else |
| TimingStore.EmptyWritesVanish | scripts/coverage-partitions.ts:324-324 | a sequence of writes has the effect of its non-empty ones |
| TimingStore.EntriesHaveOrigins | scripts/coverage-partitions.ts:291-341 | after any writes an entry is readable exactly when some write validly set it (or the initial store had it) and no later write re-measured or dropped it, changed identity, or left a gap of over fourteen days |
| ScopePolicy.ScopedPathsAreSource | scripts/ci-pr-scope.ts:82-106 | a scoped source path is not inert, not under the Python or Admin trees, and belongs to a package |
| ScopePolicy.CheckedInIsSeparated | scripts/ci-scope-policy.json:8-14 | the checked-in policy keeps its inert and Admin trees apart from the package tree |
| PathShapes.ScopedPackageIff | scripts/ci-pr-scope.ts:82-85 | a path has a package key exactly when it is packages/group/name/src or tests, a slash and a rest, with non-empty slash-free group and name |
| PathShapes.ScopedPathIff | scripts/ci-pr-scope.ts:87-89 | and it is a scoped source exactly when that rest is non-empty glob-free text before .ts or .tsx |
| PathShapes.KnownGroupIff | scripts/ci-pr-scope.ts:121-125 | a known package path is packages, a listed group and a rest |
| PathShapes.DependencyPathIff | scripts/ci-pr-scope.ts:92-92 | a dependency path is, at the root or after a slash, one of four file names or tsconfig…json |
| PathShapes.GoldenIff | scripts/ci-pr-scope.ts:101-101 | a golden lies below a snapshots directory or ends as an expected output |
| PathShapes.DocumentationIff | scripts/ci-pr-scope.ts:100-136 | inert, model-input and inert-prose paths by prefix, suffix and golden shape |
| PathShapes.WebIrrelevantIff | scripts/ci-pr-scope.ts:161-181 | outside the browser lane lie exactly documentation, the seven host trees and the root's tooling files |
| ConsumerRelations.PushAll | scripts/ci-consumer-relations.ts:27-27 | a relation's rule is appended to every lane it names and to no other |
| ConsumerRelations.ConsumerReasons | scripts/ci-consumer-relations.ts:14-36 | the nested loops list, lane by lane and in policy order, the rules of the relations that claim a changed path |
| ConsumerRelations.RuleIsJustified | scripts/ci-consumer-relations.ts:20-28 | a rule is listed for a lane exactly when a relation with that rule names the lane and claims some changed path |
| ConsumerRelations.StandaloneOwnTree | scripts/ci-consumer-relations.ts:18-24 | a path inside a standalone tree is claimed only by prefixes rooted in that tree |
| ConsumerRelations.ClaimsIff | scripts/ci-consumer-relations.ts:18-24 | outside the standalone trees a prefix claims its own tree; inside the first matching one, exactly if it is rooted there as well |
| ConsumerRelations.ReasonsIff | scripts/ci-consumer-relations.ts:14-36 | a lane's list holds exactly the rules of relations that name the lane and claim a path, and the dynamic-composition rule when some path composes dynamically |
| PathShapes.DynamicCompositionIff | scripts/ci-consumer-relations.ts:31-32 | such a path is, outside the Android shell, a cordis YAML file or a worker or subprocess module below the root |
| ConsumerRelations.ReasonsGrow | scripts/ci-consumer-relations.ts:14-36 | a larger diff keeps every rule of the smaller one |
| WebVerification.ClassifyWebVerification | scripts/ci-pr-scope.ts:226-281 | the early-returning loop equals the order-free, duplicate-free join of per-path verdicts; it throws exactly when the first deciding path is a shared input with an unknown owner, naming that path and its first unknown owner, which no valid policy has, or when an exact selection names an inherited object member |
| WebVerification.ExactIsKnown | scripts/ci-pr-scope.ts:277-279 | an exact selection is non-empty, and is accepted exactly when no inherited member is in it |
| WebVerification.JoinIsWellShaped | scripts/ci-pr-scope.ts:277-280 | a focused plan fills exactly one of groups and scenarios, skip and full fill neither; everything it names is registered exactly when the verdicts are not strange |
| WebVerification.JoinIsMonotone | scripts/ci-pr-scope.ts:232-280 | more verdicts never lower the browser tier and, unless they are strange, never drop a scenario |
| WebVerification.JoinRunsDemands | scripts/ci-pr-scope.ts:236-280 | a plan that can be executed runs whatever any single path's verdict asks for |
| WebVerification.JoinRunsOnly | scripts/ci-pr-scope.ts:277-280 | without a path that needs everything, it runs only smokes and scenarios of groups that some path touches |
| WebVerification.ChangedScenarioRunsIff | scripts/ci-pr-scope.ts:189-191 | with registered smoke scenarios, every diff that touches a scenario file and is not strange runs that scenario, exactly unless the file is a shared input of other scenarios only, no smoke scenario, and its path does not need the full inventory |
| WebVerification.PlanIsMonotone | scripts/ci-pr-scope.ts:226-281 | growing a non-empty diff never lowers the tier and, unless the larger diff is strange, never drops a scenario; equal path sets have equal outcomes |
| WebVerification.StrangeDiffIff | scripts/ci-pr-scope.ts:189-205 | a diff is strange exactly when no path needs the full inventory and some path is stray, or the selection is exact beside an unregistered smoke scenario |
| WebVerification.StrayPathIff | scripts/ci-pr-scope.ts:189-205 | a path is stray exactly when, below the web tests root and outside the shared inputs, it spells an inherited object member that is no registered scenario |
| WebVerification.FullPlanIff | scripts/ci-pr-scope.ts:232-276 | the full inventory runs exactly for an empty diff or one with a path that needs everything: a full prefix, a dependency file, lane infrastructure (an Admin path that is a shared input apart), an orphan web test file, an unmapped browser package, or a path that no rule places |
| WebVerification.SkipPlanIff | scripts/ci-pr-scope.ts:232-277 | the lane is skipped exactly for a non-empty diff of unshared prose, sources of packages that are neither mapped nor rendered, and irrelevant paths |
| WebVerification.DemandsIff | scripts/ci-pr-scope.ts:184-275 | unless it needs everything, a path asks for exactly the owners of a shared input, the scenario or golden owners of a web test file, or the scenarios of a mapped package's groups |
| WebVerification.PlanRunsWhatIsAsked | scripts/ci-pr-scope.ts:226-281 | whatever some path asks for is run by every diff that holds the path and can be executed |
| WebVerification.FocusedRunsIff | scripts/ci-pr-scope.ts:277-280 | a focused lane runs exactly the smokes and what some path asks for, and, unless all paths are shared inputs or web test files, the scenarios of the same groups |
| LaneScope.SelectionShape | scripts/ci-pr-scope.ts:413-445 | groups or scenarios are named exactly under a focused snapshot lane, never both; the selector returns and its selection can be executed exactly for a diff that is not strange |
| LaneScope.LanesGrow | scripts/ci-pr-scope.ts:332-446 | growing a non-empty diff never lowers the runtime, snapshot, compatibility, Python, Windows, Gateway or Admin lane and, unless the larger diff is strange, never drops a browser scenario |
| LaneScope.CoverageGrows | scripts/ci-pr-scope.ts:407-434 | nor does it lower coverage, unless the smaller diff is shared prose alone |
| LaneScope.CoverageDrops | scripts/ci-pr-scope.ts:407-434 | for shared prose alone coverage is full, and adding any narrow source path makes it scoped |
| LaneScope.CoverageCanDropIff | scripts/ci-pr-scope.ts:407-434 | some larger diff covers less exactly when the diff is shared prose alone |
| LaneScope.CoverageDropsExample | scripts/ci-pr-scope.ts:407-434 | a concrete diff and addition for which coverage drops |
| LaneScope.RuntimeLanesIff | scripts/ci-pr-scope.ts:363-444 | the runtime, coverage, compatibility and Windows lanes run exactly when the diff is empty or some path is a model input, a browser input shared outside the Admin tree, or neither documentation nor Python nor Admin |
| LaneScope.ScopedIff | scripts/ci-pr-scope.ts:407-412 | coverage is scoped exactly when every path but prose is a TypeScript source of a known package group outside the full-runtime prefixes, no path is a model input, and one to four packages are touched |
| LaneScope.FullRuntimeIsCovered | scripts/ci-pr-scope.ts:344-408 | a non-prose path under a full-runtime prefix that reaches the Node lanes selects full coverage |
| LaneScope.ConsumerLanesIff | scripts/ci-pr-scope.ts:347-433 | the Python, Gateway and Admin lanes run exactly for an empty diff, a live path of their own (for Python also a dependency path, unless all is documentation) or a consumer rule |
| LaneScope.ReasonsIff | scripts/ci-pr-scope.ts:346-346 | a consumer rule fires exactly for a path that is no mere documentation and that composes dynamically or is claimed by a relation naming the lane |
| LaneScope.BrowserLaneIff | scripts/ci-pr-scope.ts:422-440 | the snapshot lane and its groups and scenarios are those of the browser plan, exactly if the runtime lanes run or an Admin path is a shared input, and are dropped otherwise |
| LaneScope.ReasonIff | scripts/ci-pr-scope.ts:394-431 | the printed reason is tied to documentation, coverage and Python paths in both directions |
| LaneScope.DocumentationRunsNothing | scripts/ci-pr-scope.ts:394-405 | documentation alone skips every lane, the consumer lanes included |
| LaneScope.SkippedOnlyOutside | scripts/ci-pr-scope.ts:318-324 | a lane is skipped only when every changed path is outside that lane's input domain; for the Python, Gateway and Admin lanes that includes the inputs which consumer rules claim |
| LaneScope.UnplacedRunsEverything | scripts/ci-pr-scope.ts:321-323 | a path that is neither outside the Node lanes nor a known scoped source selects all runtime lanes in full |
| ShadowPlan.UnionDominates | scripts/ci-pr-scope.ts:530-561 | the union dominates the frozen and the candidate selection in every lane and runs every still-existing scenario either would run |
| ShadowPlan.UnionIsTight | scripts/ci-pr-scope.ts:530-560 | every lane of the union is the higher one of the two selections |
| ShadowPlan.UnionRunsOnlyEither | scripts/ci-pr-scope.ts:534-554 | short of the full inventory, the union's scenarios are exactly those of either selection |
| ShadowPlan.UnionRestoresRemoved | scripts/ci-pr-scope.ts:530-560 | the union runs a lane at the baseline's level exactly when the report lists it as removed, otherwise at the candidate's, and still runs every removed scenario that exists |
| ShadowPlan.UnionShape | scripts/ci-pr-scope.ts:544-560 | the union names groups or exact scenarios, never both and only when focused; its reason differs from the candidate's exactly when only the baseline covers in full |
| ShadowPlan.BaselineUsableIff | scripts/ci-pr-scope.ts:597-603 | a baseline is usable exactly when it is not focused, or its groups exist in both policies and the scenarios it would run still exist |
| ShadowPlan.ResolveCiPrScopePlans | scripts/ci-pr-scope.ts:572-622 | fails exactly on an unknown execution policy, on a strange diff, or when the baseline is usable, the diff holds inert prose and the baseline's prose-free selection is focused on a group the current policy lacks; otherwise the baseline is the frozen selection under its frozen policy, or the full one when that is unusable, and the report accounts for all differences from it and excuses removals by the frozen prose-free selection; the candidate policy executes the candidate, the shadow policy every lane in full when the baseline is unusable, and with registered smoke scenarios the union, which dominates the frozen selection and runs its still-existing scenarios |
| ShadowPlan.RetiredGroupExample | scripts/ci-pr-scope.ts:595-620 | a concrete baseline, whose policy loads, and diff with a retired group for which the resolver throws |
| ShadowPlan.InheritedMemberExample | scripts/ci-pr-scope.ts:189-279 | the diff apps/web/tests/constructor makes the selector, and with it the resolver, throw under a valid policy and any baseline |
| ScopeReport.ScopeChanges | scripts/ci-pr-scope.ts:489-528 | succeeds exactly when the scenarios of all selections it evaluates are known; each lane is listed as added or removed exactly when the candidate runs more or less of it, once, with both levels, the scenarios gained and lost exactly, and every removal with its explanation |
| ScopeReport.NothingRemovedIff | scripts/ci-pr-scope.ts:493-527 | nothing is reported as removed exactly when the candidate runs every lane and scenario of the baseline |
| ScopeReport.ReportReplays | scripts/ci-pr-scope.ts:493-527 | applying the report to the baseline gives the candidate's lanes and scenarios |
| ScopeReport.CoverageDropIsExplained | scripts/ci-pr-scope.ts:498-502 | a drop from full to scoped coverage is explained by prose exactly when the diff holds some, and without the prose the candidate selects scoped coverage too |
| ScopeReport.ConsumerDropExcuses | scripts/ci-pr-scope.ts:515-521 | of the switched lanes only a dropped Gateway or Admin lane can be excused, exactly when the diff touches its tree with prose and nothing else |
| ScopeReport.CoverageExcuse | scripts/ci-pr-scope.ts:498-502 | for any two selections, prose excuses exactly a drop from full to scoped coverage of a diff with prose whose other paths are all narrow sources |
| PrProofs.SelectedSnoc | scripts/ci-pr-proofs.ts:92-94 | one more pattern decides when it matches and changes nothing otherwise |
| PrProofs.PatternParts | scripts/ci-pr-proofs.ts:93-93 | a leading exclamation mark excludes, and what follows it is matched |
| PrProofs.MatchesWorkflow | scripts/ci-pr-proofs.ts:90-96 | a path matches exactly when some inclusive pattern matches it and no later matching pattern excludes it |
| PrProofs.AddSpecial | scripts/ci-pr-proofs.ts:134-151 | pushes the native, confinement, provider, protocol and proof-owner reasons, and says whether one of these rules recognises the path |
| PrProofs.AddReasons | scripts/ci-pr-proofs.ts:117-152 | appends to every proof exactly the reasons that one path gives it, the unknown-impact reason included |
| PrProofs.CollectReasons | scripts/ci-pr-proofs.ts:110-154 | collects the reasons of all changed runtime inputs in order, or the empty-diff reason for every proof |
| PrProofs.ClassifyCiPrProofs | scripts/ci-pr-proofs.ts:105-178 | a proof has a reason exactly when it is required or listed as affected but not required; the unsatisfied list holds exactly the second provider proof as unsupported when it is not accepted, and an untrusted actor's affected provider proofs as withheld |
| PrProofs.AffectedIff | scripts/ci-pr-proofs.ts:115-154 | a proof has a reason exactly when some changed runtime input affects it or the diff is empty |
| PrProofs.UnknownAffectsAll | scripts/ci-pr-proofs.ts:152-152 | a runtime input that no rule recognises affects every proof |
| PrProofs.AffectedIsAudience | scripts/ci-pr-proofs.ts:115-153 | a non-empty diff affects exactly the proofs that its runtime inputs concern: all for shared and unrecognised inputs, else the proofs of the workflows that list the path, the Windows and sandbox proofs for native code, the provider proofs for their consumers, protocol and workflows |
| PathShapes.SharedInputIff | scripts/ci-pr-proofs.ts:122-129 | shared inputs are exactly the listed trees and files, cordis overlays, a root tsconfig and model inputs |
| PathShapes.ConsumerInputsIff | scripts/ci-pr-proofs.ts:134-151 | native, provider, protocol and independent paths are exactly those below the listed trees |
| PathShapes.RuntimeInputIff | scripts/ci-pr-proofs.ts:83-88 | runtime inputs are exactly model inputs, the vendor read-me, goldens, and everything but prose and the inert trees |
| PathShapes.CordisOverlayIff | scripts/ci-pr-proofs.ts:124-124 | an overlay is a YAML file with cordis in its name |
| PrProofs.ReasonsGrow | scripts/ci-pr-proofs.ts:105-178 | growing a non-empty diff never drops a proof's last reason |
| PrProofs.RequiredGrows | scripts/ci-pr-proofs.ts:155-178 | for the same actor and acceptance, growing a non-empty diff never drops a required proof, nor one listed as affected but unsupported or withheld |
| PrProofs.RequiredIff | scripts/ci-pr-proofs.ts:115-171 | a proof is required by a non-empty diff exactly when some runtime input concerns it, the provider proofs only for a trusted actor and the second one only when accepted |
| PrProofs.EmptyRequires | scripts/ci-pr-proofs.ts:154-171 | an empty diff requires every proof that actor and acceptance permit |
| CommandTimeout.InvHolds | scripts/benchmark-npm-resolution.ts:397-500 | the protocol invariant holds in every state of every interleaving |
| CommandTimeout.DeliveredOnlyWhenSettled | scripts/benchmark-npm-resolution.ts:432-492 | SIGKILL follows SIGTERM by the grace period; a timeout result or abort reason is delivered only after the group is gone and the pipes are closed, otherwise an error; an ordinary exit sends no signal |
| CommandTimeout.NoSignalAfterGone | scripts/benchmark-npm-resolution.ts:460-483 | no signal is sent once the group was seen gone or the function returned |
| CommandTimeout.KillsOnlyTheUnseen | scripts/benchmark-npm-resolution.ts:476-483 | SIGKILL goes only to a group not seen gone, at least a grace period after SIGTERM |
| CommandTimeout.ReturnsInTime | scripts/benchmark-npm-resolution.ts:432-492 | with punctual timers the function has returned by timeout plus grace period plus forced-exit bound, whatever the outside does |
| CommandTimeout.NeverStuck | scripts/benchmark-npm-resolution.ts:432-490 | at a deadline the function can always proceed |
| CommandTimeout.ExitDelivers | scripts/benchmark-npm-resolution.ts:422-446 | when the child exits or fails first, its outcome is delivered at once and without a signal |
| CommandTimeout.Interrupts | scripts/benchmark-npm-resolution.ts:432-455 | at the timeout, or as soon as the caller has aborted, SIGTERM goes out without further waiting |
| CommandTimeout.Kills | scripts/benchmark-npm-resolution.ts:465-483 | when the grace period is over SIGKILL goes out, unless the group was seen gone, and the last five seconds begin |
| CommandTimeout.GivesUp | scripts/benchmark-npm-resolution.ts:484-490 | after these the function reports that the tree did not settle |
| CommandTimeout.SettledTreeDelivers | scripts/benchmark-npm-resolution.ts:460-492 | at any time after SIGTERM, once the group is gone and the pipes are closed, the timeout result or abort reason (or the child's error) is delivered without a further signal and without the clock moving |
| CommandTimeout.TimeoutExample | scripts/benchmark-npm-resolution.ts:432-475 | a whole run that ends in the timeout result after one signal |
| StageSupervisor.InvHolds | scripts/dev-web.ts:237-283 | the supervision invariant holds in every state of every interleaving |
| StageSupervisor.StopWaitsForAll | scripts/dev-web.ts:258-273 | stop returns only when every stage has exited that joined before it last looked at its live set, hence every stage tracked before the stop began, and all of them when none joined later |
| StageSupervisor.LateStageExample | scripts/dev-web.ts:246-273 | a run in which a stage that joins during the last wait is alive when stop returns |
| StageSupervisor.SignalsEscalate | scripts/dev-web.ts:262-273 | signals go out as requested signal, SIGTERM, SIGKILL; a stage that joined before the stop gets each only after the ones before it, a grace period later |
| StageSupervisor.NeverStuck | scripts/dev-web.ts:258-283 | the supervisor can go on by itself unless it waits for a request, a deadline that has not come or an awaited stage that has not ended |
| StageSupervisor.StopsInTime | scripts/dev-web.ts:258-283 | with punctual timers all signals are out within one grace period per escalation step after the stop began, and then only the last wait is left |
| StageSupervisor.ReturnsOnceExited | scripts/dev-web.ts:250-273 | once the awaited stages have ended, the stop returns without the clock moving, after their callbacks |
| StageSupervisor.StopsWhenNobodyLives | scripts/dev-web.ts:262-263 | with nobody left alive the stop returns at once |
| StageSupervisor.KillFollowsTerm | scripts/dev-web.ts:264-271 | a stage sent SIGKILL was sent SIGTERM at least a grace period earlier, unless it joined after the stop began |
| StageSupervisor.LastWaitIsForKilled | scripts/dev-web.ts:271-272 | the last wait is for exactly the stages that were just sent SIGKILL |
| StageSupervisor.NoSignalAfterExit | scripts/dev-web.ts:250-271 | a stage whose exit was observed is not signalled any more |
| StageSupervisor.StopIsFinal | scripts/dev-web.ts:250-355 | the first shutdown request stands, after a stop began no stale report follows, and every stage that joins from then on counts as late |
| StageSupervisor.ExitsAreReported | scripts/dev-web.ts:250-256 | before a stop every observed exit is reported and requests the shutdown |
| StageSupervisor.ExitRequestsShutdown | scripts/dev-web.ts:250-355 | an exit before a stop is reported, and requests the shutdown with code 1 and SIGTERM unless one was requested before |
| WorkerPool.InvHolds | scripts/benchmark-next-package-dependency.ts:182-199 | every call is in flight in exactly one worker, has its own result in place, or has rejected the pool, in every interleaving |
| WorkerPool.PoolResult | scripts/benchmark-next-package-dependency.ts:182-199 | on return exactly the defined values with fewer undefined ones before them than jobs were processed, once each, none rejecting, and result i is what the call made for index i delivered |
| WorkerPool.EveryValueProcessed | scripts/benchmark-next-package-dependency.ts:182-199 | over defined values and at least one job that is every index |
| WorkerPool.AtMostJobsInFlight | scripts/benchmark-next-package-dependency.ts:189-196 | at most `jobs` operations are in flight at any moment |
| WorkerPool.EveryStepProgresses | scripts/benchmark-next-package-dependency.ts:190-196 | no interleaving goes on forever |
| WorkerPool.NeverStuck | scripts/benchmark-next-package-dependency.ts:189-197 | some worker can step exactly as long as one has neither returned nor thrown |
| WorkerPool.RunCompletes | scripts/benchmark-next-package-dependency.ts:189-198 | every run can be completed to one in which all workers have returned or thrown |
| WorkerPool.SettledOutcome | scripts/benchmark-next-package-dependency.ts:189-198 | then the pool has returned exactly when no operation that it called rejects |
| WorkerPool.RejectionIsFinal | scripts/benchmark-next-package-dependency.ts:189-198 | the first rejection decides the pool's outcome for good |
| WorkerPool.LostValueExample | scripts/benchmark-next-package-dependency.ts:194-194 | a run over an undefined and a defined value with one job that returns without having processed the latter |
| GitBatch.ReadPrinted | scripts/benchmark-npm-resolution.ts:176-188 | reading a printed record returns its content and leaves what follows |
| GitBatch.AcceptedIsFramed | scripts/benchmark-npm-resolution.ts:176-188 | whatever is accepted is its header line, content of the announced size and a line feed |
| GitBatch.ReadOneCases | scripts/benchmark-npm-resolution.ts:176-188 | the outcome of one record for any header line and body, error by error in the order of the checks |
| GitBatch.SizeIsNumeral | scripts/benchmark-npm-resolution.ts:180-183 | a size is a decimal numeral after white space and a sign with anything after it, refused when negative or beyond the safe integers |
| GitBatch.SizeNeedsDigits | scripts/benchmark-npm-resolution.ts:180-183 | without a digit there is no size |
| GitBatch.FieldCases | scripts/benchmark-npm-resolution.ts:180-180 | header fields are what stands between single spaces, and there is nothing beyond the last one |
| GitBatch.ReadAllPrinted | scripts/benchmark-npm-resolution.ts:175-189 | printed records with arbitrary content bytes are read back in order |
| GitBatch.MissingIsReported | scripts/benchmark-npm-resolution.ts:179-179 | a missing object is reported for its own path, whatever surrounds it |
| GitBatch.ReadContent | scripts/benchmark-npm-resolution.ts:179-188 | missing marker, invalid size and truncation are rejected, otherwise the announced bytes are returned |
| GitBatch.ReadRecord | scripts/benchmark-npm-resolution.ts:176-188 | one iteration at an offset of the buffer reads the record there |
| GitBatch.ReadGitFiles | scripts/benchmark-npm-resolution.ts:167-191 | the offset loop returns each path's content and the end of what it consumed, or the first error with its record |
| GitBatch.RoundTrip | scripts/benchmark-npm-resolution.ts:167-191 | for any paths and objects the reader returns each path's own bytes and consumes the whole stream |
| ArtifactDigest.FramePrefix | scripts/client-build-environment.ts:378-381 | a framed artifact can be read off a stream in only one way |
| ArtifactDigest.StreamIsInjective | scripts/client-build-environment.ts:364-382 | different lists of paths and contents never feed the same bytes to the hash |
| ArtifactDigest.KeepFiles | scripts/client-build-environment.ts:358-360 | keeps the normalised paths that are files, drops directories, and fails exactly when some normalised path does not exist |
| ArtifactDigest.FeedAll | scripts/client-build-environment.ts:365-382 | feeds the framed artifacts in order, or stops at a bundle without its stamp |
| ArtifactDigest.ClientArtifactDigest | scripts/client-build-environment.ts:357-384 | digests the kept files in path order; refuses a listing with a path that does not exist once normalised, an empty one and an unstamped bundle |
| ArtifactDigest.WriteClientBuildRecord | scripts/client-build-environment.ts:307-320 | records the public environment and the digest of the current tree |
| ArtifactDigest.PublicIff | scripts/client-build-environment.ts:311-311 | the public environment is exactly the variables with the client prefix |
| ArtifactDigest.ReadClientBuildRecord | scripts/client-build-environment.ts:328-354 | accepts a record exactly when its environment is public and as expected and its digest is the current one |
| ArtifactDigest.FedDeterminesTree | scripts/client-build-environment.ts:357-382 | without backslashes in the listed paths the bytes fed are equal exactly for equal artifacts, whatever the listing order |
| ArtifactDigest.RecordBindsArtifacts | scripts/client-build-environment.ts:307-354 | with a collision-free hash a written record is accepted exactly for a disk on which the same files are read with the same content; without backslashes that is the same artifacts, file for file and byte for byte |
| ArtifactDigest.BindsIff | scripts/client-build-environment.ts:357-384 | among disks that hide no file, whatever is accepted for a record holds its artifacts, exactly when the recorded disk lists no file with a backslash and no directory with one whose normalised path is a file |
| ArtifactDigest.OverlookedIsFree | scripts/client-build-environment.ts:359-360 | adding a file whose normalised path is a directory leaves every record accepted |
| ArtifactDigest.TwinExample | scripts/client-build-environment.ts:359-366 | of two files whose paths differ by a backslash the first may change and the record is still accepted |
| ArchiveManifest.ValidateArchiveManifestExtension | scripts/archived-agent-notes.ts:76-89 | reports no error exactly for an extension, and otherwise every offending path with its kind, a missing path that spells an inherited member counting as changed |
| ArchiveManifest.FigmaTableHasNoChains | scripts/archived-agent-notes.ts:57-73 | no authorised replacement starts where another of the same path ends |
| ArchiveManifest.ExtendsIsTransitive | scripts/archived-agent-notes.ts:76-89 | validated steps compose despite the exception table, if it closes its chains |
| ArchiveManifest.ComposesIff | scripts/archived-agent-notes.ts:84-86 | validated steps compose exactly when, wherever one replacement continues another, the table also authorises both at once; a table without chains does |
| ArchiveManifest.CheckSealed | scripts/archived-agent-notes.ts:199-203 | reports exactly the sealed artifacts that are missing or changed, each with its kind |
| ArchiveManifest.AppendNew | scripts/archived-agent-notes.ts:204-209 | adds exactly the artifacts not sealed yet whose path spells no inherited member, once each, with their hashes |
| ArchiveManifest.ExtendArchiveManifest | scripts/archived-agent-notes.ts:193-211 | keeps every sealed path and hash, adds exactly the new artifacts whose path spells no inherited member, and reports exactly the missing and the changed sealed ones, each with its kind |
| ArchiveManifest.ExtensionValidates | scripts/archived-agent-notes.ts:193-211 | an extension result always passes the validator against its input |
| ArchiveManifest.ExtendIsIdempotent | scripts/archived-agent-notes.ts:204-209 | extending twice adds nothing |
| ArchiveManifest.HistoryKeepsSeals | scripts/archived-agent-notes.ts:75-89 | over any validated history every sealed path stays, with its hash or the authorised replacement |
| ArchiveManifest.ReplacedIsFinal | scripts/archived-agent-notes.ts:75-89 | a sealed hash changes at most once in a history |
| ArchiveManifest.ParseInvertsRender | scripts/archived-agent-notes.ts:31-54 | parsing accepts exactly what rendering a manifest of well-formed hashes produces, and returns that manifest without an entry named `__proto__` |
| ArchiveManifest.ValidHashIff | scripts/archived-agent-notes.ts:40-40 | a well-formed hash is sha256: and 64 lower-case hexadecimal digits |
| CandidateSearch.InstalledNamesAre | scripts/benchmark-next-package-dependency.ts:149-155 | the queued names are the dependencies, optional dependencies and non-optional peers |
| CandidateSearch.Enqueue | scripts/benchmark-next-package-dependency.ts:155-157 | appends every name not reached yet, and only such names |
| CandidateSearch.SearchIsComplete | scripts/benchmark-next-package-dependency.ts:140-158 | with the queue exhausted, reached is exactly the set of indexed packages reachable from the target |
| CandidateSearch.Reach | scripts/benchmark-next-package-dependency.ts:140-158 | the search terminates although names are queued repeatedly, and returns that set |
| CandidateSearch.DiscoverBenchmarkCandidates | scripts/benchmark-next-package-dependency.ts:134-165 | lists exactly the reachable release packages without a policy that have a peer other than Cordis, once each and sorted |

## Left out

- The Gateway's own protocols, described in prose only.
- The frozen classifier of the baseline, with its `previousConsumerSelection` and `unionConsumerSelection`: any decision it could make is admitted, provided that only a focused one names groups.
- The `changedSourceFiles` and `changedPackageFiles` lists of a selection: filters that no lane reads.
- Explanatory texts of errors and reasons, and the provider lists attached to unsupported proofs.
- Reading the policy and workflow files from disk; their validated content is a parameter.
- Spawning, Git, npm, the registry server, report collection and the merge of coverage blobs: foreign calls.
- CommandTimeout.DeliveredOnlyWhenSettled: POSIX with signalling permitted; Windows `taskkill` and denied signals are not modelled, nor is a call whose caller has aborted before the spawn (it throws at once).
- StageSupervisor.StopIsFinal: does not promise that no stage joins after a stop began, because only the entry point's order of calls ensures that; such stages are tracked as late instead.
- GitBatch.ReadGitFiles: contents stay bytes; UTF-8 decoding of headers and contents, and white space beyond ASCII before a size, are not modelled.
- ArtifactDigest.RecordBindsArtifacts: the record is a value; its JSON text and the schema checks on count and digest format are not modelled.
- ArchiveManifest.ParseInvertsRender: relates JSON values, not their text; the key order of the rendered text is not modelled.
- Archive note headers and triplets (`validateArchiveArtifacts`): one branch per claim.
- TypeScript-compiler-based generators, packaging, Android checks, the build gate graph and workspace constraint lists.
