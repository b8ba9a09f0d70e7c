# Planning, locking and acceptance: a verified model

This project models five algorithmic cores of the repository and proves what they are for.
It verifies with `dafny verify dfyconfig.toml`.

| Modules | What they model |
|---|---|
| `NodeIds`, `Lpt`, `ShardPlan`, `ShardChecker`, `ShardPlanner`, `RepositoryWeights` | the CI shard planner: identifiers, the greedy assignment, the plan, its independent checker |
| `ShardLabels`, `ShardProtocol`, `ShardVerifier`, `ShardRuns` | the write-once artifact protocol of the shard workers and the verifier, over whole runs |
| `LockGraph`, `LockResolver`, `RuntimeManifest` | the resolver of the frozen lock with extras, the runtime manifest, the marker-filtered walk over it |
| `AcceptanceRun`, `ReviewFinalization` | the NRM-006 acceptance run and the two-phase RUL-002 review, with crashes |
| `RoundRobin`, `SeasonTotals` | the circle-method double round robin and the synthetic season |
| `ChecksumManifest`, `StageArchive` | the checksum manifest of the Stage-13 archive, and the members collected for it |
| `Sorting` | orders, sorting, filtering, sums, with no counterpart of their own in the source |

## How to read it

- Python exceptions become `None`, `Err` or a `Raised` exit. Which of several errors is raised is
  not distinguished, except for the planner's (`PlannerError`).
- Foreign calls are parameters. Digests, JSON and coverage data are functions in `Commit` and
  `Codec`; `CodecLaws` (JSON and UTF-8 round-trip, digests are hexadecimal) and `PrefixLaw` (JSON of
  an object cut short does not parse, unless only the final line end is missing) are assumed only
  by the lemmas that name them. Injectivity of SHA-256 is assumed nowhere. How every command, import, write
  and build of an acceptance run goes is a `World`, and the theorems hold for every world.
- A crash of a RUL-002 invocation is a fuel: the number of changes of the disk it makes before
  it dies. `Process` does the changes one by one; `Advanced` ties them to the list an
  uninterrupted invocation would make, and runs are sequences of such invocations. The NRM-006 run
  keeps the list of its changes in order (`made`); a crash leaves the disk after a prefix of it.
- Files are a map from path to bytes held by a `Disk` and updated in place. Directories are
  entries too, so that empty ones show. A write-once creates the file and then fills it; its
  `Fate` says whether all bytes arrive, it stops after some of them, or the file can be neither
  created nor inspected; nothing is cleaned up.
- Runs of the shard workers are sequences of single steps: attempts, fills and inspections of any
  workers, in any order, repeated or broken off. A refusal ends its own worker's call only.
- `Sort` stands for the built-in `sorted`. Under a total order there is only one result
  (`SortedIsUnique`); the dependencies of a manifest are sorted by a key with ties, and there
  `SortsAlike` uses that `sorted` is stable.
- The three copies of the resolver (`scripts/generate_runtime_lock_manifest.py`,
  `scripts/validate_repository.py`, `scripts/verify_wheel.py`) differ only in the order of two
  checks and the error texts, so one model serves all three.

- Lemmas whose names end in `Means` or `Exactly` say in the terms of files, records or characters
  what the functions of the model decide or compute.

## What the code does not guarantee

Several properties one might expect hold only under a condition. Each condition is proved exact;
lemmas whose names end in `Happens` or `Fails` give failing inputs.

- An identical retry of a shard worker is not always accepted. A step is refused exactly when it
  repeats an attempt on a file that was created but not filled by then (`RefusedExactly`,
  `RunsNeverRefuse`): after a crash or a full disk inside the first write, or while an overlapping
  worker is still writing. A file whose creator broke off stays torn and refuses every later
  attempt (`TornFileBlocks`, `TornRetryHappens`). Torn data is still never staged
  (`TornIsNeverStaged`).
- Verification of the artifacts does not need every file filled: it succeeds exactly when all data
  arrived whole and all metadata can be read (`VerifiesExactly`); metadata may lack its line end.
- An NRM-006 run that returns 1 can leave a COMPLETE finalization behind: exactly when one was
  there before and the initial cleaning raised before deleting it (`OneMeans`,
  `StaleCompleteHappens`).
- An NRM-006 run can end in an exception with COMPLETE on the disk and the archive gone: when the
  write of COMPLETE raises after its replacement and the failure can then not be written over it
  (`CompleteMeans`, `OutlivingCommitMeans`, `CompleteWithoutArchiveHappens`).
- An NRM-006 run that dies in its cleaning can leave an old COMPLETE without any log, because the
  log is deleted first (`CompleteWithoutLogHappens`). Wherever it dies, COMPLETE is an old one the
  cleaning has not removed, or stands over a log that passes the gate (`CrashMeans`).
- A RUL-002 review can leave COMPLETE over a failed log: exactly when the write of COMPLETE
  raises after its replacement and the process lives on to rewrite the log but not to record
  FAILED (`CompleteMeansFinalLog`, over runs `CompleteRunsAreFinal`; `BrokenCommitHappens`).
- After a completed RUL-002 review, a run without flags that gets to open the log replaces it
  while COMPLETE stays; nothing else disturbs it (`CompletedLogSurvives`, `FullRunRewritesHappens`).
- A Stage-13 archive written without error can fail its own verification, for one reason only:
  one of the four required prefixes has no changed file (`CollectedArchiveVerifies`); so it is
  when the evidence is that of an earlier commit (`UncoveredPrefixFails`). The names the script collects always survive the manifest
  (`CollectedIsRecoverable`).
- The order of the lists in a lock does not change what is resolved, but it can change the
  manifest: it stays the same, but for the digest of the lock, exactly when in every list that is
  followed entries of one name whose markers have the same text stand in the same order
  (`ManifestIgnoresOrder`). The text of a missing marker is "None", so an entry without a marker
  is tied with one whose marker is that word (`OrderChangesManifestHappens`). The order of the
  package list matters exactly when two different entries share a name (`PackageOrderIgnored`).

## Model

| member | source | states |
|---|---|---|
| `NodeIds.NormalizeKeepsTest` | scripts/ci_coverage_shards.py:115-134 | an accepted identifier keeps its test suffix unchanged and nonempty, and its file becomes a safe path without backslashes |
| `NodeIds.NormalizeIdempotent` | scripts/ci_coverage_shards.py:115-134 | normalising an accepted result again gives the same identifier |
| `NodeIds.NormalizeIgnoresSlashes` | scripts/ci_coverage_shards.py:122-128 | respelling either slash in the file prefix changes neither the result nor the refusal |
| `NodeIds.RebuiltValue` | scripts/ci_coverage_shards.py:128-134 | splitting the path, checking its parts and joining them gives back the same path |
| `NodeIds.EligibleIsCanonical` | scripts/ci_coverage_shards.py:141-148 | the eligible population is nonempty, sorted, free of duplicates and normal |
| `NodeIds.EligibleIgnoresOrderAndSlashes` | scripts/ci_coverage_shards.py:141-148 | it does not depend on the order of collection or on the slashes of any prefix, refusals included |
| `NodeIds.SafeFileMeans` | scripts/ci_coverage_shards.py:122-133 | the accepted file prefixes, by their components: none empty, "." or "..", the first "tests", the last a name followed by ".py" |
| `NodeIds.NormalizeExactly` | scripts/ci_coverage_shards.py:115-134 | exactly which values are accepted, and what they become |
| `NodeIds.EligibleMeans` | scripts/ci_coverage_shards.py:141-148 | exactly when a collection is a population, and which identifiers it has |
| `NodeIds.FileOfMeans` | scripts/ci_coverage_shards.py:137-138 | the module of an identifier is what stands before its first separator |
| `Sorting.StringLeqMeans` | scripts/ci_coverage_shards.py:148-148 | strings are ordered by the first characters that differ, a prefix first |
| `Lpt.GreedyTook` | scripts/ci_coverage_shards.py:230-233 | every weight went to the lowest-numbered of the shards that were lightest when it was placed |
| `Lpt.LoadsConserveWeight` | scripts/ci_coverage_shards.py:229-233 | the loads of any assignment sum to the total weight |
| `Lpt.FirstWeightsSpread` | scripts/ci_coverage_shards.py:228-233 | with positive weights the first m of them open the m shards in index order |
| `Lpt.Equilibrium` | scripts/ci_coverage_shards.py:226-233 | without any one of its weights a shard is no heavier than any other shard |
| `Lpt.GreedyNearAverage` | scripts/ci_coverage_shards.py:226-233 | m times the heaviest shard is at most the total plus m-1 times the heaviest weight |
| `Lpt.LargeWeightFits` | scripts/ci_coverage_shards.py:226-233 | a last weight above a third of a load some assignment stays within is placed within that load by the greedy rule |
| `Lpt.LptBound` | scripts/ci_coverage_shards.py:226-233 | Graham's bound: against every other assignment, 3m times the greedy maximum is at most 4m-1 times the other maximum |
| `Lpt.LptBoundIsAttained` | scripts/ci_coverage_shards.py:226-233 | five weights on two shards attain the bound |
| `ShardPlan.HeavierFirstIsTotal` | scripts/ci_coverage_shards.py:226-226 | the sort key orders any two different modules strictly, so there are no ties |
| `ShardChecker.ClaimFiles` | scripts/ci_coverage_shards.py:408-411 | succeeds exactly when no module of the shard is owned by another index, and records all of them |
| `ShardChecker.CheckShard` | scripts/ci_coverage_shards.py:350-412 | a fault found means no plan with these shards is acceptable; otherwise the loop state extends by this shard |
| `ShardChecker.CheckShards` | scripts/ci_coverage_shards.py:346-415 | accepts exactly the lists of sound shards, numbered from 0, with disjoint modules, and returns their identifiers in order |
| `ShardChecker.ValidatePlan` | scripts/ci_coverage_shards.py:303-445 | decides exactly the declarative acceptance condition |
| `ShardChecker.ModulesKeepIdsApart` | scripts/ci_coverage_shards.py:408-419 | disjoint modules alone make the identifiers of the shards disjoint, so the later duplicate check cannot fail |
| `ShardChecker.AcceptedIsPartition` | scripts/ci_coverage_shards.py:346-445 | every identifier of an accepted plan is on exactly one nonempty shard, indexes run from 0, no module is split |
| `ShardChecker.AcceptedConservesWeight` | scripts/ci_coverage_shards.py:392-407 | the shard weights sum to the weight model applied to the whole population |
| `ShardChecker.AcceptedWeights` | scripts/ci_coverage_shards.py:174-178 | every accepted shard, and an accepted plan in total, weighs the overrides of its modules, 5 for each module without one, and 1 for each identifier of such a module |
| `ShardChecker.AcceptedHeader` | scripts/ci_coverage_shards.py:326-345 | every header field and digest of an accepted plan |
| `ShardChecker.AcceptedIsDetermined` | scripts/ci_coverage_shards.py:303-445 | the checker leaves no field open: accepted plans with the same identifiers on the same shards are equal |
| `ShardPlanner.GroupByFile` | scripts/ci_coverage_shards.py:210-212 | the dictionary has the modules in order of first appearance, each with its identifiers in order |
| `ShardPlanner.SortGroups` | scripts/ci_coverage_shards.py:218-226 | the groups come heaviest first, equal weights by path |
| `ShardPlanner.AssignGroups` | scripts/ci_coverage_shards.py:228-233 | groups and loads of every shard are those of the greedy assignment |
| `ShardPlanner.ListShards` | scripts/ci_coverage_shards.py:235-257 | every entry lists the groups and load of its shard; the assigned identifiers are those of the entries |
| `ShardPlanner.CountFaults` | scripts/ci_coverage_shards.py:259-267 | counts the duplicated, omitted and unexpected identifiers; there are none exactly when the assigned identifiers are the eligible ones |
| `ShardPlanner.PlanShards` | scripts/ci_coverage_shards.py:210-257 | refuses exactly when there are fewer modules than shards, otherwise gives the shards of the greedy plan |
| `ShardPlanner.BuildPlan` | scripts/ci_coverage_shards.py:199-288 | the result, refusals included, is `PlanFor`; neither the incomplete-partition error nor rejection by the checker ever happens |
| `ShardPlanner.PlanOutcome` | scripts/ci_coverage_shards.py:199-224 | which refusal there is, exactly when, by revision, shard count, collection and number of modules |
| `ShardPlanner.PlanMade` | scripts/ci_coverage_shards.py:199-288 | a plan that is made is accepted, for its revision, with so many shards, and holds the population |
| `ShardPlanner.ModulesInOrder` | scripts/ci_coverage_shards.py:226-226 | modules are placed by falling weight, those of one weight by rising path |
| `ShardPlanner.PlannedIdsComplete` | scripts/ci_coverage_shards.py:235-265 | the shards of the plan hold every eligible identifier exactly once |
| `ShardPlanner.PlannerPassesChecker` | scripts/ci_coverage_shards.py:268-288 | the checker accepts every plan of a nonempty population with at most as many shards as modules |
| `ShardPlanner.PlanningIsCanonical` | scripts/ci_coverage_shards.py:205-288 | reordered or respelled collections give the identical plan or the identical refusal |
| `ShardPlanner.PlanIsBalanced` | scripts/ci_coverage_shards.py:226-233 | the heaviest shard is within 4/3 - 1/(3m) of that of every acceptable plan of the same population and size |
| `ShardPlanner.PlanIsInEquilibrium` | scripts/ci_coverage_shards.py:226-233 | without any one of its modules a planned shard is no heavier than any other |
| `RepositoryWeights.RepositoryShardsAreEven` | scripts/ci_coverage_shards.py:38-50 | with the weights of this commit no two planned shards are further apart than 1050, or than the estimate of the largest module when that is more |
| `RepositoryWeights.OneModule` | scripts/ci_coverage_shards.py:174-178 | the weight of one module: its override, or 5 and 1 for each identifier |
| `RepositoryWeights.ServiceSuiteWeighs` | scripts/ci_coverage_shards.py:38-50 | with the weights of this commit a shard of the service suite alone weighs 650 |
| `RepositoryWeights.OverridesMean` | scripts/ci_coverage_shards.py:38-50 | the eleven overrides of this commit |
| `ShardLabels.ParseShardLabel` | scripts/ci_coverage_shards.py:475-480 | reading a zero-padded label gives back its index |
| `ShardLabels.MatchLabelledName` | scripts/ci_coverage_shards.py:746-759 | the index read off a labelled file name is the one it was made from |
| `ShardLabels.LabelIsUnique` | scripts/ci_coverage_shards.py:475-480 | the label of a shard, digit by digit: two digits up to 100 shards, above that as many as the greatest index has |
| `ShardLabels.MatchNameMeans` | scripts/ci_coverage_shards.py:54-55 | a file name is read as an index exactly when it is prefix, at least two digits and suffix |
| `ShardProtocol.Disk.WriteImmutable` | scripts/ci_coverage_shards.py:459-472 | succeeds exactly when it fills a new file or finds the same content; a write cut short leaves the bytes that arrived, one that fails leaves nothing, and an existing file never changes |
| `ShardProtocol.Disk.SelectShard` | scripts/ci_coverage_shards.py:568-571 | succeeds exactly when the stored plan is accepted for this commit, the index exists and the data is usable |
| `ShardProtocol.Disk.PublishPair` | scripts/ci_coverage_shards.py:576-604 | succeeds exactly when both writes go through and the directory then holds just the two; the files it leaves wherever a write is refused, fails or is cut short |
| `ShardProtocol.Disk.MaterializeShard` | scripts/ci_coverage_shards.py:558-604 | exactly when a worker succeeds, the names of the two files its directory then holds, and the files it leaves in every case |
| `ShardProtocol.SelectedMeans` | scripts/ci_coverage_shards.py:563-572 | what a worker demands, in the terms of the files: the plan, the index, and data that is not empty and measures some file |
| `ShardProtocol.ListingMeans` | scripts/ci_coverage_shards.py:483-493 | what a directory lists, by the paths of the files |
| `ShardProtocol.WorkerFiles` | scripts/ci_coverage_shards.py:573-604 | where a worker succeeds its directory holds just the two files named by the label: the data as it was, and metadata that describes it in every field |
| `ShardVerifier.CheckPlan` | scripts/ci_coverage_shards.py:720-731 | succeeds exactly when the stored plan is accepted and equals the plan of the fresh collection at this HEAD |
| `ShardVerifier.ArtifactPayloads` | scripts/ci_coverage_shards.py:671-707 | succeeds exactly when the download is one directory per shard with exactly its two files, and returns their paths in order |
| `ShardVerifier.IndexByName` | scripts/ci_coverage_shards.py:744-765 | the dictionary read from the names maps every index to its own path; duplicates never occur |
| `ShardVerifier.CheckShardFiles` | scripts/ci_coverage_shards.py:770-790 | gives the bytes exactly when metadata and data of the shard pass every check |
| `ShardVerifier.VerifiedMeans` | scripts/ci_coverage_shards.py:770-790 | a shard verifies exactly when its two files are there under their names, the data is usable and the metadata describes shard and data in every field |
| `ShardVerifier.PlacesMean` | scripts/ci_coverage_shards.py:671-701 | where the artifact of a shard is expected and where its data is staged |
| `ShardVerifier.StagingKeepsVerdicts` | scripts/ci_coverage_shards.py:769-799 | staging earlier shards does not change whether a later one can be staged, even in overlapping directories |
| `ShardVerifier.StageAll` | scripts/ci_coverage_shards.py:767-801 | succeeds exactly when all shards can be staged, every staging write goes through and nothing else is in the combine directory; otherwise a prefix was staged, its last file perhaps cut short |
| `ShardVerifier.VerifyArtifacts` | scripts/ci_coverage_shards.py:710-801 | exactly when verification succeeds, the new files in every case, and that no existing file is altered |
| `ShardRuns.VerificationIsSound` | scripts/ci_coverage_shards.py:723-801 | on success the stored plan is the greedy plan of the fresh collection, every staged file carries the digest, size and assignment bound by its metadata, and nothing else is staged |
| `ShardRuns.RefusedExactly` | scripts/ci_coverage_shards.py:459-472 | in any interleaving, repeated and broken off anywhere, a step is refused exactly when it attempts a file that was created and not filled by then |
| `ShardRuns.RunsNeverRefuse` | scripts/ci_coverage_shards.py:459-472 | no step of a run is refused exactly when no file is created and left unfilled before the next attempt on it |
| `ShardRuns.TornFileBlocks` | scripts/ci_coverage_shards.py:461-472 | when the creator of a file breaks off before it is filled, every later attempt on it is refused whatever else happens, and it stays a proper prefix |
| `ShardRuns.TornRetryHappens` | scripts/ci_coverage_shards.py:461-472 | a worker stopped after creating its data file, then retried identically, is refused |
| `ShardRuns.FinishedRunsAgree` | scripts/ci_coverage_shards.py:558-604 | all runs in which every file is filled end in the same files, whatever was refused on the way |
| `ShardRuns.MaterializeIsItsEvents` | scripts/ci_coverage_shards.py:576-604 | a worker's call does to the disk what its steps do, cut short or not, and succeeds exactly when it reaches its inspection and that is accepted |
| `ShardRuns.VerifiedExactly` | scripts/ci_coverage_shards.py:770-790 | along any run a shard verifies exactly when its data is whole and its metadata can be read |
| `ShardRuns.TornIsNeverStaged` | scripts/ci_coverage_shards.py:784-797 | whatever the run, what can be staged is a worker's whole data; this rests on the size in the metadata, not on the digest |
| `ShardRuns.VerifiesExactly` | scripts/ci_coverage_shards.py:710-801 | after any run of the workers verification succeeds exactly when all data is whole and all metadata readable |
| `ShardRuns.ProtocolCompletes` | scripts/ci_coverage_shards.py:558-801 | once every file is filled verification succeeds and stages each worker's original bytes; nothing was refused on the way exactly when no torn file was retried |
| `LockGraph.ReadAllMeans` | scripts/generate_runtime_lock_manifest.py:20-34 | reading a list fails exactly when an entry has malformed extras, and skips exactly the nameless ones |
| `LockGraph.ReadsAs` | scripts/generate_runtime_lock_manifest.py:20-26 | what a table of the lock asks for: the package under `name`, and the extras under `extra` or, only without that key, under `extras` |
| `LockGraph.ReadsMalformed` | scripts/generate_runtime_lock_manifest.py:20-26 | an entry is an error exactly when it names a package and its extras are not a list of strings; it is skipped exactly when it names none |
| `LockGraph.ListsMeans` | scripts/generate_runtime_lock_manifest.py:44-55 | a package lists what stands under `dependencies` and, for its extras, under `optional-dependencies` |
| `LockGraph.OffersMeans` | scripts/generate_runtime_lock_manifest.py:41-54 | exactly when a package is well formed and offers its extras |
| `LockGraph.ExpandMeans` | scripts/generate_runtime_lock_manifest.py:44-55 | expansion fails exactly when a list is malformed or an extra is not offered; its entries are those of the base and of each extra |
| `LockGraph.ResolutionIsLeast` | scripts/generate_runtime_lock_manifest.py:29-58 | the result is closed under base and activated dependencies, and is contained in every closed activation |
| `LockGraph.StoredMeans` | scripts/generate_runtime_lock_manifest.py:44-56 | the stored list of a package holds its own entries and those of its activated extras |
| `LockGraph.FollowedIsResolved` | scripts/generate_runtime_lock_manifest.py:29-58 | the package that an entry of the roots or of a stored list names is selected, with every extra the entry asks for |
| `LockGraph.ResolvedIsFollowed` | scripts/generate_runtime_lock_manifest.py:29-58 | nothing else: a selected package is named, and an activated extra asked for, by such an entry |
| `LockResolver.ExpandPackage` | scripts/generate_runtime_lock_manifest.py:44-55 | the loop over sorted extras computes the expansion |
| `LockResolver.Activate` | scripts/generate_runtime_lock_manifest.py:40-57 | one visit fails only on a real fault, keeps the worklist invariant and shrinks what is left to activate, also on a revisit |
| `LockResolver.ActivationProgress` | scripts/generate_runtime_lock_manifest.py:36-40 | activating an uncovered request leaves strictly fewer names and name-extra pairs to activate |
| `LockResolver.ResolveRuntimeGraph` | scripts/generate_runtime_lock_manifest.py:29-58 | terminates on cyclic graphs; fails exactly when something reachable is missing or malformed; otherwise names, extras and stored lists are exactly the reachable ones under the final extras |
| `LockResolver.FaultIgnoresOrder` | scripts/validate_repository.py:574-603 | rearranging roots or any dependency list does not change whether resolution fails |
| `LockResolver.ResolutionIgnoresOrder` | scripts/verify_wheel.py:138-165 | nor the selected names, nor the activated extras |
| `RuntimeManifest.WriteRecords` | scripts/generate_runtime_lock_manifest.py:79-105 | one record per selected name in order, or failure exactly when one has no version |
| `RuntimeManifest.ByPackageNameMeans` | scripts/generate_runtime_lock_manifest.py:66-70 | a name is in the dictionary exactly when an entry that is a table carries it, and its package is such an entry |
| `RuntimeManifest.PackagesMean` | scripts/generate_runtime_lock_manifest.py:62-70 | a lock has packages exactly when `package` is a list, and the package of a name is the last entry that carries it |
| `RuntimeManifest.PackageOrderIgnored` | scripts/generate_runtime_lock_manifest.py:66-70 | the dictionary does not depend on the order of the package list exactly when no two different entries share a name |
| `RuntimeManifest.BuildManifest` | scripts/generate_runtime_lock_manifest.py:61-112 | exactly when building fails, a missing package list included, and that the manifest, header included, is that of the resolution |
| `RuntimeManifest.ManifestHeader` | scripts/generate_runtime_lock_manifest.py:106-112 | the header of a manifest, and its roots: the names of the root entries in order |
| `RuntimeManifest.ManifestRecords` | scripts/generate_runtime_lock_manifest.py:78-105 | one record for each selected package, by name, with its version, its activated extras in order, and one dependency for each stored entry, by name and text of the marker |
| `RuntimeManifest.BuildIgnoresOrder` | scripts/generate_runtime_lock_manifest.py:61-112 | reordering the dependency lists of a lock does not change whether it can be written out |
| `RuntimeManifest.ManifestIgnoresOrder` | scripts/generate_runtime_lock_manifest.py:89-111 | locks that differ only in the order of their lists give the same manifest, but for the digest of the lock, exactly when entries tied in name and marker text stand in the same order in every base list and activated extra's list of a reachable package |
| `RuntimeManifest.OrderChangesManifestHappens` | scripts/generate_runtime_lock_manifest.py:89-103 | two whole locks that differ in the order of two entries of one list, and whose manifests differ in more than the digest |
| `RuntimeManifest.ResolvedOnce` | scripts/generate_runtime_lock_manifest.py:29-58 | a lock has only one resolution, stored lists included |
| `RuntimeManifest.ListedIsSelected` | scripts/verify_wheel.py:194-201 | every name in a stored list is selected |
| `RuntimeManifest.FilterDropsNothing` | scripts/verify_wheel.py:194-201 | so the filter on selected names drops no named entry |
| `RuntimeManifest.EnabledNames` | scripts/verify_wheel.py:246-251 | fails exactly at a marker the library refuses; otherwise the names followed are those with no marker or a textual one that is true |
| `RuntimeManifest.WalkRecords` | scripts/verify_wheel.py:233-251 | the walk keeps its worklist invariant and fails only at an installed name without a record or with an unreadable marker |
| `RuntimeManifest.WalkManifest` | scripts/verify_wheel.py:224-252 | fails exactly when an installed name has no record or an unreadable marker; otherwise gives exactly the names reachable over enabled dependencies, with their versions |
| `RuntimeManifest.WalkIsReachability` | scripts/verify_wheel.py:233-251 | the walk reaches exactly what is reached, whatever the markers, once the dependencies with a marker that is false or no text are removed |
| `RuntimeManifest.ReachedFollows` | scripts/verify_wheel.py:245-251 | a dependency of a reached name without a marker, or with the text of a true one, is reached |
| `RuntimeManifest.ExpectedDistributions` | scripts/verify_wheel.py:217-252 | succeeds exactly when the stored manifest is the one built from the lock and the walk over it meets no unreadable marker, so the walk's own errors never arise; the result is what is reached once the dependencies with a false or no textual marker are removed, within what the roots of the lock reach, with the locked versions |
| `RuntimeManifest.InstalledIsSelected` | scripts/verify_wheel.py:182-252 | on a manifest built from a lock the walk stays within the resolver's selection |
| `RuntimeManifest.WalkRefinesResolution` | scripts/verify_wheel.py:222-252 | there it never meets its incomplete-graph error |
| `RuntimeManifest.AllMarkersInstallAll` | scripts/verify_wheel.py:182-252 | with every marker true it gives exactly the resolver's selection |
| `RoundRobin.RotatedPlace` | scripts/verify_current_score_prior_wheel.py:193-193 | after k rotations every team but the first has moved k places round the remaining ones |
| `RoundRobin.RotationReturns` | scripts/verify_current_score_prior_wheel.py:187-193 | n-1 rotations restore the list |
| `RoundRobin.PairRound` | scripts/verify_current_score_prior_wheel.py:188-192 | a round pairs the ends inwards, home side left in leg one and right in leg two |
| `RoundRobin.Fixtures` | scripts/verify_current_score_prior_wheel.py:182-194 | the two nested loops produce the season round by round |
| `RoundRobin.MeetingRound` | scripts/verify_current_score_prior_wheel.py:187-193 | for even n any two teams stand opposite in some round of a leg |
| `RoundRobin.MeetingIsUnique` | scripts/verify_current_score_prior_wheel.py:187-193 | and in no other, because n-1 is odd |
| `RoundRobin.OncePerRound` | scripts/verify_current_score_prior_wheel.py:182-194 | every team plays exactly once in every round |
| `RoundRobin.MeetOncePerLeg` | scripts/verify_current_score_prior_wheel.py:182-194 | any two teams meet exactly once in each leg |
| `RoundRobin.OrderedPairOnce` | scripts/verify_current_score_prior_wheel.py:182-194 | each ordered pair of home and away occurs exactly once in the season |
| `RoundRobin.TeamNamesAreLeague` | scripts/verify_current_score_prior_wheel.py:183-194 | the numbered team names are distinct, so all of this holds of them; n teams play n(n-1) matches |
| `SeasonTotals.SeasonBody` | scripts/verify_current_score_prior_wheel.py:196-216 | the matches are the fixtures in order, each with the score and shape of its position |
| `SeasonTotals.MatchMeans` | scripts/verify_current_score_prior_wheel.py:198-216 | a match has the home team, away team and round of its fixture, and the goals and shape of its position |
| `SeasonTotals.PrefixTotals` | scripts/verify_current_score_prior_wheel.py:199-200 | what the goals sum to for any number of fixtures and any configuration |
| `SeasonTotals.GoalsComeOut` | scripts/verify_current_score_prior_wheel.py:199-200 | the goals sum to the configured ones exactly when these are between one and two per match |
| `SeasonTotals.ShapesComeOut` | scripts/verify_current_score_prior_wheel.py:202-207 | the score shapes occur as often as configured exactly when the counts fit the fixtures |
| `AcceptanceRun.Acceptance` | scripts/generate_nrm006_evidence.py:150-182 | rejects exactly the record lists that are not the mandatory ones in order with the four exact keys; a row passes exactly under the gate's condition |
| `AcceptanceRun.RowMeans` | scripts/generate_nrm006_evidence.py:141-175 | a row passes exactly with exit code 0, a text that passes and is not one written ahead, and a finite duration that is not negative; the last two with their fixed texts |
| `AcceptanceRun.GateMeans` | scripts/generate_nrm006_evidence.py:150-182 | the gate passes exactly the lists of such records, one for each mandatory command in order |
| `AcceptanceRun.Repository.Generate` | scripts/generate_nrm006_evidence.py:634-657 | COMPLETE evidence needs every row to pass |
| `AcceptanceRun.Repository.RunFirst` | scripts/run_acceptance.py:2113-2119 | runs the first thirty commands in order up to and with the first that does not pass, and keeps exactly the records of those that did not raise |
| `AcceptanceRun.Repository.Prepare` | scripts/run_acceptance.py:2102-2174 | how many commands run before the teardown, which records are kept, and the changes of the disk in order, in every world |
| `AcceptanceRun.Repository.Finalize` | scripts/run_acceptance.py:2219-2256 | commits exactly when the log on disk passes the gate and every step goes well; the changes of the disk it makes in every case |
| `AcceptanceRun.Repository.Conclude` | scripts/run_acceptance.py:2193-2275 | its exit and the changes of the disk it makes, in order, in every world |
| `AcceptanceRun.Repository.Run` | scripts/run_acceptance.py:2085-2275 | teardown runs exactly once and last, after a prefix of the commands ending at the first that does not pass; the exact conditions of 0, 1, 2 and an exception; every change of the disk in order, and the disk at the end |
| `AcceptanceRun.ZeroMeans` | scripts/run_acceptance.py:2203-2275 | 0 means 32 ordered passing records, none of them written ahead, the archive and COMPLETE |
| `AcceptanceRun.ZeroExactly` | scripts/run_acceptance.py:2085-2275 | a run returns 0 exactly when all 32 commands succeed, by exit code, text and duration, and every call around them goes well |
| `AcceptanceRun.AheadLogMeans` | scripts/run_acceptance.py:2133-2152 | the log written ahead, record by record |
| `AcceptanceRun.FinalLogMeans` | scripts/run_acceptance.py:2162-2203 | the final log, record by record |
| `AcceptanceRun.OneMeans` | scripts/run_acceptance.py:2193-2273 | 1 means the archive is gone and the final records are logged; COMPLETE is there exactly when a raising cleaning left an old one |
| `AcceptanceRun.CompleteMeans` | scripts/run_acceptance.py:2085-2275 | over all exits COMPLETE is on the disk for exactly three reasons: an old one was left, the run returned 0, or the commit raised late and was not overwritten |
| `AcceptanceRun.OutlivingCommitMeans` | scripts/run_acceptance.py:2256-2273 | a commit that raised late and was not overwritten ends in an exception over a passing log; the archive is there exactly when removing it failed |
| `AcceptanceRun.StaleCompleteMeans` | scripts/run_acceptance.py:2172-2201 | with an old COMPLETE left by the cleaning, when 1 is returned, and which log and archive remain |
| `AcceptanceRun.StaleCompleteHappens` | scripts/run_acceptance.py:2103-2201 | over any old COMPLETE some run returns 1 and leaves it |
| `AcceptanceRun.CompleteWithoutArchiveHappens` | scripts/run_acceptance.py:2256-2271 | some run raises and leaves COMPLETE with no archive |
| `AcceptanceRun.ChangesEnd` | scripts/run_acceptance.py:2085-2275 | the changes of a run, made one by one, lead to the disk given for its end |
| `AcceptanceRun.CrashMeans` | scripts/run_acceptance.py:2085-2275 | wherever the run dies, COMPLETE is on the disk exactly when an old one is not yet removed or the commit is made and no failure recorded over it; a commit always stands over the final log of a run that passes the gate |
| `AcceptanceRun.CompleteWithoutLogHappens` | scripts/run_acceptance.py:1513-1524 | over any old COMPLETE some run dies in its cleaning and leaves it with no log |
| `ReviewFinalization.Process.Prepare` | scripts/run_acceptance.py:2327-2361 | appends the write-ahead record only to the valid first records with no finalization; success leaves the log ready for review; the exit in every case |
| `ReviewFinalization.PrepareReadyMeans` | scripts/run_acceptance.py:2331-2352 | exactly which log can be prepared, record by record |
| `ReviewFinalization.Process.FailFinalization` | scripts/run_acceptance.py:2449-2471 | the changes of giving up, in order, cut short where the process dies, and the exit |
| `ReviewFinalization.Process.Commit` | scripts/run_acceptance.py:2475-2522 | the changes from the exact record to COMPLETE, and the exit in every case |
| `ReviewFinalization.Process.InvokeAndFinalize` | scripts/run_acceptance.py:2419-2522 | STARTED is on disk before the command is invoked; what follows, and the exit in every case |
| `ReviewFinalization.Process.ReviewOnly` | scripts/run_acceptance.py:2363-2522 | the changes of a review-only invocation from any state, and its exit in every case |
| `ReviewFinalization.ReviewReadyMeans` | scripts/run_acceptance.py:2366-2393 | exactly which log is reviewed, record by record |
| `ReviewFinalization.FinalLogMeans` | scripts/run_acceptance.py:2475-2522 | a final log, record by record |
| `ReviewFinalization.TwoPhasesSucceed` | scripts/run_acceptance.py:2327-2522 | from the passed first records the two phases, when all goes well, lead to COMPLETE, the archive, one invocation and the record of the review |
| `ReviewFinalization.FailedReviewLeads` | scripts/run_acceptance.py:2419-2471 | a review that does not pass leads to FAILED without an archive, over its failed record |
| `ReviewFinalization.Process.FullRun` | scripts/run_acceptance.py:2427-2528 | the run without flags rewrites the log in place, whatever the finalization says; its exit in every case |
| `ReviewFinalization.ExpectedMeans` | scripts/run_acceptance.py:2438-2441 | exactly when the records of a run without flags count as a success |
| `ReviewFinalization.ReviewUsesRoom` | scripts/run_acceptance.py:2389-2434 | a review invocation that invokes the command leaves a finalization file, wherever it dies |
| `ReviewFinalization.InvocationsBounded` | scripts/run_acceptance.py:2327-2528 | over any sequence of invocations dying anywhere and of deletions of the finalization file, the command is invoked at most once more than the file is deleted |
| `ReviewFinalization.AtMostOnce` | scripts/run_acceptance.py:2327-2528 | over any sequence of invocations dying anywhere, the command is invoked at most once while nobody deletes the file |
| `ReviewFinalization.CompleteMeansFinalLog` | scripts/run_acceptance.py:2442-2522 | from how the world goes and where the process dies: exactly when a review leaves COMPLETE, and exactly when it leaves it over another log than the final one |
| `ReviewFinalization.BrokenCommitHappens` | scripts/run_acceptance.py:2449-2520 | from every prepared state some world breaks the commit |
| `ReviewFinalization.CompleteRunsAreFinal` | scripts/run_acceptance.py:2327-2522 | over any run of the two phases dying anywhere, COMPLETE comes with the valid log ending in the final result exactly when no invocation broke its commit |
| `ReviewFinalization.CompletedLogSurvives` | scripts/run_acceptance.py:2327-2528 | after a completed review the log stays final exactly as long as no run without flags opens it |
| `ReviewFinalization.FullRunRewritesHappens` | scripts/run_acceptance.py:2523-2528 | over any completed review some run without flags succeeds and leaves COMPLETE over its own log |
| `ChecksumManifest.LinesHaveNoBoundary` | scripts/assurance/build_stage13_review_pack.py:140-140 | no line of a split text holds a line boundary |
| `ChecksumManifest.SplitLinesMeans` | scripts/assurance/build_stage13_review_pack.py:140-140 | a text splits at each of ten line breaks, a carriage return and a line feed in a row being one |
| `ChecksumManifest.ParseWrittenLine` | scripts/assurance/build_stage13_review_pack.py:112-144 | a written line parses back to its digest and name, blanks in the name included |
| `ChecksumManifest.ParseLineMeans` | scripts/assurance/build_stage13_review_pack.py:142-144 | a line is split at its first two blanks in a row, and refused without any |
| `ChecksumManifest.ManifestRoundTrip` | scripts/assurance/build_stage13_review_pack.py:112-144 | parsing gives back exactly the map of digests exactly when no name holds a line boundary |
| `ChecksumManifest.BoundaryNameIsLost` | scripts/assurance/build_stage13_review_pack.py:140-147 | a name with a line boundary never comes back |
| `ChecksumManifest.SafeMemberMeans` | scripts/assurance/build_stage13_review_pack.py:36-38 | which member names are safe, by their characters and components |
| `ChecksumManifest.ReviewPack.WriteMembers` | scripts/assurance/build_stage13_review_pack.py:122-128 | all members, or those before the first unsafe name |
| `ChecksumManifest.ReviewPack.WriteArchive` | scripts/assurance/build_stage13_review_pack.py:109-130 | overwrites nothing; exactly when it succeeds, and what an unsafe name leaves behind |
| `ChecksumManifest.ReviewPack.ReadManifest` | scripts/assurance/build_stage13_review_pack.py:141-144 | the loop over lines builds the dictionary in which later lines win |
| `ChecksumManifest.ReviewPack.VerifyInventory` | scripts/assurance/build_stage13_review_pack.py:140-150 | decides whether manifest and members agree in names and digests |
| `ChecksumManifest.ReviewPack.VerifyArchive` | scripts/assurance/build_stage13_review_pack.py:133-171 | succeeds exactly when the container is intact and names, inventory, hashes, required material and the first word of the digest file are right |
| `ChecksumManifest.VerifiedMeans` | scripts/assurance/build_stage13_review_pack.py:133-171 | what verification demands, written out |
| `ChecksumManifest.AlteredMemberFails` | scripts/assurance/build_stage13_review_pack.py:148-150 | an archive that verifies no longer does once the bytes of a member are replaced by others with another digest |
| `ChecksumManifest.WrittenArchiveVerifies` | scripts/assurance/build_stage13_review_pack.py:109-171 | a freshly written archive of any members verifies exactly when the names survive the manifest and the material is there |
| `ChecksumManifest.FirstWordIs` | scripts/assurance/build_stage13_review_pack.py:130-168 | the digest file reads back as the digest written to it |
| `ChecksumManifest.FirstWordMeans` | scripts/assurance/build_stage13_review_pack.py:168-168 | the first word of a text is what stands behind its leading blanks, up to the next one |
| `ChecksumManifest.DigestTextMeans` | scripts/assurance/build_stage13_review_pack.py:129-130 | the text of the detached digest file |
| `StageArchive.CollectMembers` | scripts/assurance/build_stage13_review_pack.py:61-106 | fails exactly when patch, changed files, evidence or authority files are missing; otherwise the members are the fixed texts, the changed files that are there, and the authority files, later ones winning |
| `StageArchive.CollectedNames` | scripts/assurance/build_stage13_review_pack.py:74-106 | which names are collected: the fixed ones, and those of the changed files that are there |
| `StageArchive.ChangedBytes` | scripts/assurance/build_stage13_review_pack.py:94-97 | a changed file that is there is collected with its bytes |
| `StageArchive.FixedBytes` | scripts/assurance/build_stage13_review_pack.py:74-93 | the fixed members have the generated texts, the patch, and the bytes of the evidence files |
| `StageArchive.AuthorityCollected` | scripts/assurance/build_stage13_review_pack.py:98-105 | the authority files are collected with their bytes |
| `StageArchive.PosixOfPlain` | scripts/assurance/build_stage13_review_pack.py:97-97 | a path without empty parts and without parts that start with a dot keeps its name |
| `StageArchive.PosixDrops` | scripts/assurance/build_stage13_review_pack.py:97-97 | empty parts and "." vanish between others |
| `StageArchive.PosixOfRooted` | scripts/assurance/build_stage13_review_pack.py:97-97 | a path that starts with a slash keeps one, or exactly two |
| `StageArchive.DemandedMeans` | scripts/assurance/build_stage13_review_pack.py:151-166 | the members and prefixes verification demands, by name |
| `StageArchive.FixedNames` | scripts/assurance/build_stage13_review_pack.py:74-93 | the generated texts and evidence files, by name |
| `StageArchive.CollectedIsRecoverable` | scripts/assurance/build_stage13_review_pack.py:65-106 | no collected name holds a line boundary or is the manifest's own |
| `StageArchive.WrittenExactly` | scripts/assurance/build_stage13_review_pack.py:94-124 | the archive is written exactly when the path of every included file is safe |
| `StageArchive.CollectedArchiveVerifies` | scripts/assurance/build_stage13_review_pack.py:94-171 | the written archive verifies exactly when each required prefix has a changed file that is there |
| `StageArchive.UncoveredPrefixFails` | scripts/assurance/build_stage13_review_pack.py:160-167 | with production, tests and fixtures changed and the evidence not, the archive is written and fails its verification |

## Left out

- ShardProtocol.Disk.WriteImmutable: an empty directory made for a write that then fails is not recorded; symbolic links are not modelled; a file is taken to grow only at its end.
- ShardRuns.VerifiesExactly: assumes that nothing else writes under the artifact root, that root and combine directory do not contain each other, and that the combine directory starts empty or with the right files.
- ShardVerifier.VerifyArtifacts: files that change while being read are not modelled; the collection and the Git HEAD are parameters.
- ShardChecker.ValidatePlan: works on a typed plan; missing or surplus JSON keys and values of the wrong type are among the plans that do not parse.
- ShardPlanner.SortGroups: sorts the paths by the same key and then builds the group records, where the source sorts the records.
- RuntimeManifest.BuildManifest: a root table without a string name is an error.
- RuntimeManifest.ExpectedDistributions: a stored manifest that cannot be read is a missing one.
- SeasonTotals.SeasonBody: the dates, kick-off times and the JSON text of the matches are not modelled.
- AcceptanceRun.Acceptance: exit codes are integers, so the test of their type is not modelled.
- AcceptanceRun.Repository.Generate: the evidence files it writes and its gates on coverage, migration, package and Git state are one yes or no of the world.
- AcceptanceRun.Repository.Run: the exit on exceptions outside `Exception`, such as an interrupt from the keyboard, and the suppressed manifest writes are not modelled; the disk such an interrupt leaves is that of a crash.
- ReviewFinalization.Process.ReviewOnly: evidence files, repository validation and the payload digest are yes or no of the world; invocations that overlap in time are not modelled.
- ReviewFinalization.Process.FullRun: a log being written line by line is seen at one intermediate point of any length, whole or torn.
- ChecksumManifest.ReviewPack.WriteArchive: compression, timestamps and crashes during writing are not modelled.
- ChecksumManifest.ReviewPack.VerifyArchive: the CRC test of the container is one yes or no.
- ChecksumManifest.WrittenArchiveVerifies: the ZIP container is taken to keep every member name; names with a NUL character, which the ZIP library cuts short, are not modelled.
- StageArchive.CollectMembers: Git's output and the generated texts are parameters.
- NodeIds.NormalizeKeepsTest: strings are sequences of Unicode scalar values, so lone surrogates are not modelled; path suffixes follow the library of Python 3.13.
- `write_plan_outputs` and `verify_branch_report`: file listings and one-branch checks.
- `_main_dat`, `_main_fpl`, `_main_odd` and the FND path of `main`: near copies of what is modelled.
- Wheel RECORD checks, coverage gates, sentinel patterns, evidence writers, official-source capture: text matching, reporting and network access without state that outlives one comparison.
