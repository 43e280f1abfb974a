# Verified models of the certification and workspace tooling

A Dafny model of five parts of the repository, with proofs of what each of them promises:

* **Sharded test runs** (`scripts/certification_shards.py`): a census of test nodes is cut into one exclusive
  shard and `m` ordinary shards, file by file, longest first; the cut is audited; the shards' own artifacts are
  merged into one verdict; progress documents are aggregated while the shards run. Modules `Packing`,
  `GrahamBound`, `PackingTightness`, `ShardPlan`, `PlanTheorems`, `PlanGuarantees`, `PlanMeaning`, `Partition`,
  `PartitionMeaning`, `Merge`, `MergeTheorems`, `MergeMeaning`, `PlannedRun`, `JunitKey`, `Progress`,
  `ProgressMeaning`.
* **The frozen Maven repository** (`scripts/certification_maven_repo.py`): a store of files rebuilt from a
  manifest over a network that may lie, fail and change its mind; the decision whether a store is the frozen
  one; the growth of the manifest; coordinates read from paths. Modules `MavenRepo`, `MavenTheorems`,
  `MavenSidecars`, `MavenMeaning`, `FetchMeaning`, `MavenExtend`, `ExtendMeaning`, `MavenDigest`, `Coordinates`.
* **Algorithms of the command line** (`kriya/cli.py`): the `git status -z` reader and the canonical directory
  walk of `review`, the chunker and the learned-knowledge store of `learn`, and the durable start, effect and
  completion of a directly executed tool. Modules `GitStatus`, `ReviewWalk`, `Learned`, `ToolRun`.
* **The hashed lock** (`scripts/certification_python_wheels.py`): printing pins with their hashes and reading
  them back. Modules `HashedLock`, `LockRoundTrip`, `LockMeaning`.

`Order`, `Text` and `Wrappers` hold sorting, string functions and `Option`/`Result`. The file `dfyconfig.toml`
lists the whole project for `dafny verify dfyconfig.toml`.

## How the model is built

Every loop of the source that updates variables is a method with a loop, proved equal to a specification
function (`ensures r == F(...)`); what the source promises is proved about those functions, and the modules named
`...Meaning` say in plain terms, without them, what each operation returns, stores and reports. Expressions, and the
recursive generator that walks a directory, its loop included, are functions. Objects that change in place are
classes: the store of learned rows (`Learned.Store`), the repository directory (`MavenRepo.Repository`), the
shared sample history (`Progress.Aggregator`); the packing loop fills two arrays. Steps between which the process can die (`ToolRun`)
are a transition system, and its theorems quantify over every prefix of every behaviour.

Inputs that come from outside are parameters, left arbitrary: the network of the Maven functions is any function
of the request number and the path; the clock and the shards seen by the progress loop are any sequence of
rounds; the answer of the embedding client is a refusal, another exception, or any list of vectors (what the
repository's own client keeps to is `Learned.KeepsContract`); the result key, the tier classification and the
digests of a sharded run are function parameters. Where a statement needs SHA-256 or UTF-8 to be injective, that
is a `requires`. Weights are real numbers.

## Where the code differs from what its text says

* The plan is described as a pure function of its arguments (`scripts/certification_shards.py:76`), and is
  expected to be the same for every collection order (`tests/test_prd034_shards.py:50-51`). That holds of every
  field except `exclusive_reasons`: of two exclusive tests in one file the later one decides.
  `ReasonsOrderIndependentIff` gives the exact condition.
* The audit of a shard compares sets of result keys. The key of `a.py::T::t` is the key of `a/T.py::t`, so a
  shard that says both are done and reports one result passes (`JunitKey.AuditAcceptsOneResultForTwo`), and one
  that reports both is refused (`FaithfulShardHoldsIff`); `OneResultPerNodeIff` and, for the whole merge,
  `OneResultPerCensusNodeIff` give the exact condition.
* The walk of `review` is described as ascending repository-relative paths (`kriya/cli.py:4543`). It ascends
  component by component. `WalkInStringOrderIff` says for which trees that is the order of the path strings; it is
  not for a tree with `a/x.py` and `a.py` (`WalkIsNotStringOrder`).
* The note "more than 10 reviewable files found" (`kriya/cli.py:3931`) also appears when there are exactly ten.
* The status reader skips an old path only when the *first* status letter says renamed or copied. git also
  prints an old path after ` R`, which the reader then takes for an entry of its own; if it starts with `R` or
  `C`, the reader even skips the next entry (`SwallowedEntryIsMissed`). `StatusRoundTrip` says for every printed
  list whether the reader is right: exactly when it stays in step, each such old path spelling out the entry
  after it (`MistakesMayCancel`). Where no old path makes the reader skip an entry, that means that no entry is
  renamed in its second letter only (`PlainStatusRoundTrip`).
* Exit status 0 of a directly executed tool does not always mean that its completion is recorded: a tool that
  itself ends with `sys.exit(0)` is not an ordinary exception, nothing catches it (`kriya/cli.py:844-846`,
  `kriya/tools/tool.py:77-91`), and the record says "started". `SuccessIsDurableIff` gives the exact condition
  and `ToolMayExitWithZero` such a run.
* When the completion of a tool cannot be recorded durably, the record is said to still say "started"
  (`kriya/cli.py:859-860`). What is durable does; what is visible does exactly when the durable write failed
  before its replace step (`StillStartedIff`), and otherwise already says "completed"
  (`FailedSyncShowsCompleted`).
* `extend` lists a sidecar with every new payload even if the manifest lists that sidecar already, and then
  lists one path twice (`ExtensionIsDistinctIff`).
* `coordinates_of` takes an artifact whose name starts with `maven-metadata` for metadata, and cuts a classifier
  at its first dot: `a-1.0-scala2.11.jar` is read as classifier `scala2` and type `11.jar`
  (`CoordinatesRoundTripIff`).
* The lock pattern accepts versions that spell out a hash option, which is then read as a hash of the pin;
  versions of PEP 440 cannot (`LockRoundTripsIff`, `PlainVersionHasNoHash`).
* The content digest joins path and hash with a tab and lines with line feeds, which the safety test for paths
  lets through, so one such path can have the digest of two files (`DisguisedPathCollides`).

## Model

| member | source | states |
|---|---|---|
| Packing.PackIsGreedy | scripts/certification_shards.py:97-100 | the packing loop gives each item to the first of the least loaded bins, at every iteration |
| Packing.LoadsAddUpToTotal | scripts/certification_shards.py:95-100 | at every iteration the loads add up to the weight of the items placed so far |
| Packing.SpreadBounded | scripts/certification_shards.py:97-100 | at every iteration two loads differ by at most the largest weight |
| Packing.ListSchedulingBound | scripts/certification_shards.py:97-100 | m times any load is at most the total weight plus (m - 1) times the largest weight |
| GrahamBound.ListSchedulingRatio | scripts/certification_shards.py:97-100 | any load is at most (2 - 1/m) times the maximum load of every other assignment of the same items |
| GrahamBound.LongestFirstBound | scripts/certification_shards.py:76-100 | longest first: 3m times any load is at most (4m - 1) times the maximum load of every other assignment (Graham's bound) |
| GrahamBound.PackBound | scripts/certification_shards.py:97-100 | the bound for what the packing loop itself computes |
| Packing.GreedyIsPack | scripts/certification_shards.py:97-100 | there is one assignment that follows the rule of the loop, and it is what the loop computes |
| PackingTightness.BoundIsAttained | scripts/certification_shards.py:97-100 | the factor cannot be improved for any m: on 2m + 1 items, 2m - 1 down to m + 1 twice each and m three times, the loop reaches it exactly |
| Packing.AllBinsUsedIff | scripts/certification_shards.py:97-100 | no bin stays empty if and only if there are m positive items, or m - 1 and one of weight zero |
| ShardPlan.Group | scripts/certification_shards.py:83-93 | the pass over the census computes the exclusive ids, the files in first-seen order with their members, and the last reason per file |
| ShardPlan.PackFiles | scripts/certification_shards.py:95-100 | the two arrays end as the loads and the member lists of the greedy assignment of the sorted files |
| ShardPlan.ListShards | scripts/certification_shards.py:101-105 | the shard list: the exclusive shard first, then one per load, ids sorted |
| ShardPlan.MakePlan | scripts/certification_shards.py:75-107 | the whole plan, with the two rejected inputs |
| PlanTheorems.GroupingIsExact | scripts/certification_shards.py:86-93 | after any number of records the groups hold exactly the exclusive ids and, under their own file, the ordinary ids, each once |
| PlanTheorems.PackingOrderIsComplete | scripts/certification_shards.py:94-97 | the packing order lists every ordinary file once, heaviest first, with the measured weight or half its member count |
| PlanTheorems.ShardContents | scripts/certification_shards.py:101-105 | every shard holds exactly the nodes whose home it is, each once |
| PlanGuarantees.PlanCoversCensus | scripts/certification_shards.py:75-107 | the shards of a plan together list every census id exactly once and nothing else |
| PlanGuarantees.PlanThenCheck | scripts/certification_shards.py:75-126 | auditing a plan against its own census reports exactly its empty shards |
| PlanGuarantees.Isolation | scripts/certification_shards.py:89-93 | every node is in exactly one shard, the exclusive one if and only if it has a tier or an exclusive file |
| PlanGuarantees.WholeFiles | scripts/certification_shards.py:76-100 | two ordinary nodes of one file are in the same shard |
| PlanGuarantees.OrderIndependence | scripts/certification_shards.py:75-107 | permuting the census changes no shard, weight, count or digest, nor whether the plan is rejected |
| PlanGuarantees.ReasonsOrderIndependentIff | scripts/certification_shards.py:91 | the recorded reasons are independent of the census order if and only if no file has two reasons |
| PlanGuarantees.ReasonsDependOnOrder | scripts/certification_shards.py:91 | a file with two tiers whose recorded reason depends on the census order |
| PlanGuarantees.ShardWeight | scripts/certification_shards.py:101-102 | the weight a shard shows is the sum of the weights of its files, rounded to a tenth |
| PlanGuarantees.PlanIsNearlyOptimal | scripts/certification_shards.py:76-102 | no shard of a plan is heavier than (4m - 1)/3m times the heaviest shard of any other cut of the same files |
| PlanGuarantees.PlanIsBalanced | scripts/certification_shards.py:97-102 | the files of two ordinary shards differ in total weight by at most the heaviest file |
| PlanGuarantees.OrdinaryShardsFilledIff | scripts/certification_shards.py:97-103 | no ordinary shard is empty if and only if there are m positive files, or m - 1 and a weightless one |
| PlanMeaning.FileOfIs | scripts/certification_shards.py:69-70 | the file of a node is its id up to the first double colon, or all of it |
| PlanMeaning.PlanRejects | scripts/certification_shards.py:77-82 | there is no plan if and only if less than one ordinary shard is asked for or an id occurs twice, with the error of each |
| PlanMeaning.PlanFields | scripts/certification_shards.py:106-107 | version 1, the number of tests, the digest of the sorted ids, and the inputs |
| PlanMeaning.ShardFields | scripts/certification_shards.py:101-105 | the exclusive shard first, then shards numbered from 1; ids ascending and counted; a weight on all but the first |
| PlanMeaning.ShardIdsDiffer | scripts/certification_shards.py:101-103 | no two shards have one id |
| PlanMeaning.ReasonsAre | scripts/certification_shards.py:89-91 | a reason is recorded for exactly the files with a test that has a tier or is in an exclusive file: that of the last such test, spelled out |
| PlanMeaning.ShardShowsItsSeconds | scripts/certification_shards.py:94-102 | the number an ordinary shard shows is, rounded to the nearest tenth, the sum over the files of its ids of the measured seconds, or of half a second for each of its ids in a file without a measurement |
| PlanMeaning.PlanPacksLongestFirst | scripts/certification_shards.py:83-103 | in terms of the census alone: taking the files longest first (measured seconds or half a second for each ordinary node, then by name), all ordinary nodes of a file are in the first of the shards whose files so far add up to the fewest seconds |
| Partition.CheckPartition | scripts/certification_shards.py:110-126 | the audit's loops compute the problem list of the specification, in order |
| Partition.CheckIff | scripts/certification_shards.py:110-126 | no problems if and only if no shard is empty, no id occurs twice, the union is the census and the digest is the census's; the cap of twenty hides no failure |
| Partition.ReportedNodes | scripts/certification_shards.py:122-123 | a node is reported as missing, or as not in the census, only if it is |
| Partition.SeeShardsMeaning | scripts/certification_shards.py:115-121 | the scan reports exactly the empty shards, and a double node if and only if some id occurs twice |
| PartitionMeaning.ProblemsAre | scripts/certification_shards.py:110-126 | exactly which problems the audit reports: empty shards, nodes listed again with the shard of the last time and of this time, the first twenty missing and the first twenty foreign nodes in ascending order, and another census |
| PartitionMeaning.ProblemsInOrder | scripts/certification_shards.py:110-126 | in which order: what the scan over the shards finds, the missing nodes, the foreign nodes, another census |
| PartitionMeaning.ProblemsAreCounted | scripts/certification_shards.py:110-126 | how many problems the audit reports: one for every empty shard, for every listing of a node beyond its first, for up to twenty missing and twenty foreign nodes, and for another census |
| Merge.CaseStatus | scripts/certification_shards.py:165-172 | a result is failed if any child says so, else skipped if any child says so, whatever the order of the children |
| Merge.CountTiers | scripts/certification_shards.py:153-158 | the nested loops compute the tier table |
| Merge.TierTablesAgreeIff | scripts/certification_shards.py:227-229 | two tier tables are equal if and only if every tier occurs equally often |
| Merge.AuditShard | scripts/certification_shards.py:187-226 | the problems of one shard, and what it contributes to the merged results and records |
| Merge.AuditShards | scripts/certification_shards.py:187-226 | the loop over the shards collects exactly their problems, results and records, in order |
| Merge.CountTotals | scripts/certification_shards.py:230-237 | the loop over the merged results computes the totals |
| Merge.MergeShards | scripts/certification_shards.py:175-254 | the whole audit: verdict, problems, reports and totals |
| MergeTheorems.ShardProblemsIff | scripts/certification_shards.py:191-221 | a shard has no problem if and only if its files exist, it collected the planned ids, its results are the planned keys without repetition, and exit status, progress and docker log agree |
| MergeTheorems.MergeOkIff | scripts/certification_shards.py:182-254 | ok if and only if the shards partition this census, every shard holds, the tiers of what ran are the census's, and nothing failed |
| MergeTheorems.Conservation | scripts/certification_shards.py:222-247 | whatever the verdict, the shard reports add up to the merged totals |
| MergeTheorems.OneResultPerNodeIff | scripts/certification_shards.py:202-206 | a shard that passes has one result per planned node if and only if the result key tells its nodes apart |
| MergeTheorems.MergedResultsAreTheCensus | scripts/certification_shards.py:175-254 | ok, with a key that tells the census apart: the merged results are the keys of the census, each once |
| MergeTheorems.OneResultPerCensusNodeIff | scripts/certification_shards.py:175-254 | ok: the merge has as many results as the census has nodes, no two of one key, if and only if the result key tells the census nodes apart |
| MergeTheorems.EveryNodeHasOneResult | scripts/certification_shards.py:175-254 | then every census node has exactly one terminal result, passed or skipped |
| MergeTheorems.CollisionAcceptsOneResult | scripts/certification_shards.py:202-206 | two nodes of one key: a shard that says both are done and reports one result has no problem |
| MergeMeaning.ShardProblemsAre | scripts/certification_shards.py:191-221 | exactly which problems one shard has, each with its condition and its numbers, in terms of the five files it left |
| MergeMeaning.MergeProblemsAre | scripts/certification_shards.py:182-229 | exactly which problems a merge reports: those of the partition, those of each shard, and tiers that differ |
| MergeMeaning.ShardProblemsDiffer | scripts/certification_shards.py:191-221 | a shard has its problems in the order of the checks, and none twice |
| MergeMeaning.MergeProblemsInOrder | scripts/certification_shards.py:182-229 | the problems of the partition come first, as they were found, then those of the shards in plan order, each shard's in the order of its checks, then different tiers |
| MergeMeaning.MergeProblemsAreCounted | scripts/certification_shards.py:182-229 | a merge reports as many problems as its parts have together |
| MergeMeaning.ReportsAre | scripts/certification_shards.py:222-223 | nothing is reported of a shard without all five files; of another, its results, and how many passed, failed and were skipped |
| MergeMeaning.TotalsAre | scripts/certification_shards.py:230-237 | failures are the results with a failure, errors those with an error and no failure, skips those with neither; counted over all results of the shards that left all files |
| MergeMeaning.OkMeans | scripts/certification_shards.py:175-254 | ok if and only if the shards cut this census, the plan was made from it, each shard left all five files, collected its ids, has one result per key and the planned keys, no failure, exit status 0, finished progress and no refused docker call, and every tier was used as often as in the census |
| PlannedRun.FaithfulShardHoldsIff | scripts/certification_shards.py:191-221 | a shard that ran exactly its ids, whatever their outcomes, has no problem if and only if the result key tells its nodes apart |
| PlannedRun.PlannedRunPassesIff | scripts/certification_shards.py:75-254 | from plan to verdict: a run that does what its plan says passes the merge if and only if no shard is empty, the key tells the nodes of every shard apart, and no test of the census fails |
| JunitKey.KeyOfNode | tests/_certification_collection.py:117-121 | the key of a node: its module and classes joined by dots, and its function with the parameters |
| JunitKey.ModuleIs | tests/_certification_collection.py:120-121 | the module of a file is its path without `.py`, with dots for slashes |
| JunitKey.KeyDecidesWithinFile | tests/_certification_collection.py:117-121 | two nodes of one file have one key if and only if they are one node |
| JunitKey.ClassAndFileCollide | tests/_certification_collection.py:117-121 | a class in a file and a file of that name in the package of that name share a key |
| JunitKey.AuditAcceptsOneResultForTwo | scripts/certification_shards.py:202-206 | with the real key, a shard that reports one result for two such tests, both said to be done, passes its audit |
| Progress.Aggregator.Snapshot | scripts/certification_shards.py:361-379 | one document, and the shared history with at most one sample more |
| Progress.Aggregate | scripts/certification_shards.py:382-400 | the loop over any rounds publishes and returns what the specification of the loop does |
| Progress.EachShardCountsOnce | scripts/certification_shards.py:364-377 | every counter of a document takes each shard exactly once; it is finished if and only if all shards are |
| Progress.NoShardsCountNothing | scripts/certification_shards.py:364-377 | without shards every counter is zero and the document is finished |
| Progress.LongestIsShown | scripts/certification_shards.py:375 | a document shows the longest node of its shards, 0 if there are none |
| Progress.DocumentsAreSnapshots | scripts/certification_shards.py:387-394 | every document of every run is the snapshot of one round that was not stopped and had enough shards |
| Progress.SourcesIncrease | scripts/certification_shards.py:386-399 | later documents come from later rounds |
| Progress.PublishedHistoryIsSpaced | scripts/certification_shards.py:367-376 | whatever the clock does, each document shows 1 to 1440 samples, at least 30 seconds apart, the last less than 30 seconds older than the document |
| Progress.FinishedIsLast | scripts/certification_shards.py:392-396 | only the last document says finished; the loop has then returned 0, with enough shards and all of them finished |
| Progress.DoneNeverDecreases | scripts/certification_shards.py:365-371 | if from one publishing round to another shards only appear and advance, the published done never decreases |
| Progress.VanishedShardLowersDone | scripts/certification_shards.py:365-371 | a shard that vanishes lowers done if and only if it had completed anything |
| Progress.ExitStatus | scripts/certification_shards.py:386-400 | status 1 if and only if `once` was given and the first round had too few shards; `once` always ends in the first round |
| Progress.FailuresAreNotHidden | scripts/certification_shards.py:373 | cutting the failed nodes to fifty never hides that there are some |
| ProgressMeaning.DocumentSays | scripts/certification_shards.py:370-379 | who wrote a document and when, the current node of the exclusive shard, and the summary of every shard, field by field |
| ProgressMeaning.FailuresAre | scripts/certification_shards.py:373 | a document shows the first fifty failed nodes, shard by shard in ascending order, each under the name of its shard |
| ProgressMeaning.HistoryIsShown | scripts/certification_shards.py:376 | a document shows the last 1440 samples, in order |
| ProgressMeaning.SamplesAreDocuments | scripts/certification_shards.py:365-371 | every sample is the time and the done of a published document |
| ProgressMeaning.HistoryGrowsIff | scripts/certification_shards.py:367-368 | a sample is added if and only if a document is published and the last sample is at least thirty seconds old, or there is none |
| ProgressMeaning.EveryRoundIsPublished | scripts/certification_shards.py:386-396 | as long as the loop runs it has not been told to stop and every round with enough shards has been published |
| ProgressMeaning.EndsWhen | scripts/certification_shards.py:386-400 | when a round ends the loop, and with which status |
| MavenRepo.Repository.FetchPayloads | scripts/certification_maven_repo.py:283-304 | the first phase: store, request log and problems after the loop over the entries |
| MavenRepo.Repository.DeriveSidecars | scripts/certification_maven_repo.py:305-324 | the second phase: every sidecar from its verified payload, or a problem |
| MavenRepo.Repository.Fetch | scripts/certification_maven_repo.py:275-325 | both phases |
| MavenRepo.Repository.VerifyStore | scripts/certification_maven_repo.py:107-132 | the problem list of the verification, with attestation if asked for |
| MavenTheorems.FetchWritesOnlyFrozenBytes | scripts/certification_maven_repo.py:275-325 | for every network, in failing runs too: the store is the old one with the logged writes; each write has the digest of an entry at that entry's safe path; only payloads are requested |
| MavenTheorems.FetchLeavesOthersAlone | scripts/certification_maven_repo.py:275-325 | files outside the manifest stay as they are |
| MavenTheorems.FetchReconstructs | scripts/certification_maven_repo.py:275-325 | distinct paths and no foreign files: a fetch without problems leaves exactly the frozen set |
| MavenTheorems.SecondFetchIsIdle | scripts/certification_maven_repo.py:291-308 | from any store: after a fetch without problems the next one, on any network, requests, writes and reports nothing |
| MavenTheorems.FetchIsDetermined | scripts/certification_maven_repo.py:275-325 | two fetches without problems, from stores with the same foreign files, give the same store, whatever their networks answered |
| MavenTheorems.VerifyIff | scripts/certification_maven_repo.py:107-132 | no problems if and only if the store is exactly what the entries freeze, the content digest is theirs, and, if asked for, everything is attested |
| MavenTheorems.ExactEntriesIff | scripts/certification_maven_repo.py:116-129 | with distinct paths the set that verification accepts is the set that a fetch rebuilds |
| MavenTheorems.FetchThenVerify | scripts/certification_maven_repo.py:107-325 | after a fetch without problems, from any store, verification passes if and only if the content digest matches and there was no foreign file |
| MavenMeaning.SafeMeans | scripts/certification_maven_repo.py:103-104 | a path is safe if and only if it is not empty, does not begin with a slash, holds no backslash, and nothing between two slashes, or a slash and an end, is `..` |
| MavenMeaning.KindsAre | scripts/certification_maven_repo.py:87-92 | the kind of a path, from its suffix and its file name |
| MavenMeaning.BasenameIs | scripts/certification_maven_repo.py:90 | the file name is what follows the last slash |
| MavenMeaning.EntriesAre | scripts/certification_maven_repo.py:282 | of two entries for one path the later counts |
| MavenMeaning.ContentDigestIs | scripts/certification_maven_repo.py:60-63 | the content digest is that of the lines path, tab, SHA-256 of the entries in ascending order of their paths |
| MavenMeaning.VerifyProblemsAre | scripts/certification_maven_repo.py:107-132 | exactly which problems a verification reports, each with its condition |
| MavenMeaning.VerifyProblemsDiffer | scripts/certification_maven_repo.py:107-132 | a verification reports missing attestations, then what is wrong with listed files, by path, then files that are not listed, by path, and no problem twice |
| FetchMeaning.FetchWritesAreEarned | scripts/certification_maven_repo.py:275-325 | every write of every run: its bytes have the digest listed for that safe path, and a checksum file is written only while the store holds the listed bytes of its payload, and is one of the three texts of their SHA-1 |
| FetchMeaning.FetchProblemsAre | scripts/certification_maven_repo.py:283-322 | exactly which problems a fetch reports, each with its reason at that moment |
| FetchMeaning.RequestsAre | scripts/certification_maven_repo.py:291-298 | each payload that is not held when its turn comes is asked for once, and nothing else is |
| MavenSidecars.RenderingsDiffer | scripts/certification_maven_repo.py:252-262 | the three renderings of a payload are pairwise different, for every path |
| MavenSidecars.SelectionIff | scripts/certification_maven_repo.py:265-272 | the selection returns exactly the rendering with the frozen digest, none if there is none, and is never ambiguous |
| MavenSidecars.SelectionIs | scripts/certification_maven_repo.py:265-272 | whatever the digests are worth, a text is chosen only if it alone among the candidates has the frozen digest |
| MavenSidecars.ServedEntriesAreRebuilt | scripts/certification_maven_repo.py:284-324 | a payload that the network serves, and a sidecar that is one of its renderings, are rebuilt from any store and never reported |
| MavenExtend.ExtendOne | scripts/certification_maven_repo.py:211-238 | one path: payload and published checksum downloaded, both files and entries kept only if they agree |
| MavenExtend.Extend | scripts/certification_maven_repo.py:204-246 | the loop over the new paths; the manifest is replaced only if nothing went wrong |
| MavenExtend.ExtensionLists | scripts/certification_maven_repo.py:231-240 | a successful extension lists the old entries and, for each new path, a body whose SHA-1 was published and its bare sidecar |
| MavenExtend.ExtensionIsDistinctIff | scripts/certification_maven_repo.py:208-240 | it lists every path once if and only if no new path's sidecar is listed or asked for |
| MavenExtend.ExtendThenFetch | scripts/certification_maven_repo.py:204-325 | then a network that serves the listed bytes of a new payload lets a fetch from any store rebuild payload and sidecar and refuse neither |
| MavenExtend.SidecarIsSafe | scripts/certification_maven_repo.py:103-104 | the sidecar of a safe path is safe, and is a checksum |
| ExtendMeaning.ExtensionStoresOnlyVouched | scripts/certification_maven_repo.py:211-236 | every run, failing ones too: a file that an extension changes is a new path with bytes whose SHA-1 the network published, or such a path with `.sha1` and that SHA-1; no file is removed |
| ExtendMeaning.NewPathsAscend | scripts/certification_maven_repo.py:211 | the new paths are those that the manifest does not list, ascending |
| ExtendMeaning.ExtensionProblemsAre | scripts/certification_maven_repo.py:212-227 | exactly which problems an extension reports, each with its reason |
| ExtendMeaning.DownloadsAre | scripts/certification_maven_repo.py:211-222 | an extension asks for every safe new path up to the first exception, and right after a path that came for its `.sha1`, and for nothing else |
| ExtendMeaning.FailedExtensionKeepsManifest | scripts/certification_maven_repo.py:239-245 | after an exception or a problem the manifest is what it was |
| ExtendMeaning.ExtensionDerives | scripts/certification_maven_repo.py:240-242 | a successful extension sorts its entries, derives the content digest from them, and is attested if and only if every artifact and POM is |
| ExtendMeaning.ExtensionIsHeld | scripts/certification_maven_repo.py:231-240 | after a successful extension whose sidecars are free the store holds, for every new path, the published body and its SHA-1 under the digests that the manifest lists |
| MavenDigest.DigestIdentifiesContent | scripts/certification_maven_repo.py:60-63 | two manifests, of distinct paths without tabs and line feeds, have one content digest if and only if they freeze the same bytes at the same paths, in whatever order |
| MavenDigest.DisguisedPathCollides | scripts/certification_maven_repo.py:60-63 | a path with a tab and a line feed, listed alone, has the digest of the two files it spells out |
| MavenDigest.DisguiseIsSafe | scripts/certification_maven_repo.py:103-104 | such a path passes the safety test, for all safe paths x and y and every h without a slash or backslash |
| Coordinates.ReadCoordinates | scripts/certification_maven_repo.py:66-84 | the loop over the checksum suffixes and the slicing compute the coordinates |
| Coordinates.CoordinatesAreRead | scripts/certification_maven_repo.py:66-84 | what is read from a well formed artifact path, with or without checksum suffix: nothing if its file name starts like a metadata file's, else its coordinates with the classifier cut at its first dot |
| Coordinates.CoordinatesRoundTripIff | scripts/certification_maven_repo.py:66-84 | it is read back as its own coordinates if and only if its file name does not start so and its classifier has no dot |
| Coordinates.ShortPathsHaveNone | scripts/certification_maven_repo.py:72-73 | a path of fewer than four parts has no coordinates |
| Coordinates.OtherFilesHaveNone | scripts/certification_maven_repo.py:72-77 | a file has none if and only if it is metadata or not named after its directories |
| Coordinates.TypeIsRead | scripts/certification_maven_repo.py:78-84 | what follows the version and some dots is the type, `?` if nothing does |
| Coordinates.ClassifierIsRead | scripts/certification_maven_repo.py:78-84 | what follows the version and a dash is the classifier up to the first dot, and then the type, `?` if there is none |
| HashedLock.NormalizeIsIdempotent | scripts/certification_python_wheels.py:44-45 | normalization is idempotent, and leaves a name alone if and only if it has single dashes and no upper case letter |
| HashedLock.WriteHashed | scripts/certification_python_wheels.py:76-84 | the printed lock: header, then the pins sorted by normalized name |
| HashedLock.ParseHashed | scripts/certification_python_wheels.py:58-67 | the loop over the joined lines fills the table |
| HashedLock.ParseLock | scripts/certification_python_wheels.py:48-55 | the loop over the lines of a plain lock collects its pins; its test for comments never decides |
| LockRoundTrip.LockedPinsAreLegal | scripts/certification_python_wheels.py:39-55 | whatever the lock, its pins have legal names and non-empty versions of legal characters |
| LockRoundTrip.PrintedLockIsRead | scripts/certification_python_wheels.py:58-84 | pins with legal names, versions and hashes and distinct normalized names: the printed lock is read as the map from normalized name to version and the hashes of the pin and of its version, pins without hashes included |
| LockRoundTrip.LockRoundTripsIff | scripts/certification_python_wheels.py:58-84 | that is exactly the map to version and hash set if and only if no version spells out a hash that its pin does not have |
| LockRoundTrip.PlainVersionHasNoHash | scripts/certification_python_wheels.py:63 | a version without a colon spells out none |
| LockRoundTrip.VersionMaySpellAHash | scripts/certification_python_wheels.py:39-63 | a version that the lock pattern accepts and that spells one out |
| LockRoundTrip.LockIgnoresPinOrder | scripts/certification_python_wheels.py:76-84 | the table read back does not depend on the order of the pins |
| LockMeaning.LegalIs | scripts/certification_python_wheels.py:38 | which pins the round trip is about, character by character |
| LockMeaning.NormalizeIs | scripts/certification_python_wheels.py:44-45 | a name is normalized by putting it in lower case and every run of dashes, underscores and dots into one dash |
| LockMeaning.PrintedIs | scripts/certification_python_wheels.py:76-84 | the printed text: a comment, then the pins by normalized name, each with one option on a continuation line per hash |
| LockMeaning.SplitAtLineEnd | scripts/certification_python_wheels.py:51 | the line ends that separate lines |
| LockMeaning.HashesAre | scripts/certification_python_wheels.py:66 | the hashes of a line are those of all hash options on it |
| LockMeaning.TableIs | scripts/certification_python_wheels.py:60-67 | of a hashed lock the last line for a normalized name counts, with its version and the hashes on that line |
| LockMeaning.LockIsParsed | scripts/certification_python_wheels.py:48-55 | of a lock of pins and comments exactly the pins are read, in order |
| GitStatus.SelectFiles | kriya/cli.py:3891-3919 | the reader returns the selected paths of the specification |
| GitStatus.ReadFields | kriya/cli.py:3893-3919 | the index loop over the fields, which terminates |
| GitStatus.AnyTextIsRead | kriya/cli.py:3891-3919 | for any text, printed by git or not: of all fields but empty ones and those that follow an entry starting with R or C, in order, what follows the third character, if it is chosen |
| GitStatus.PrintedIsRead | kriya/cli.py:3893-3919 | what the reader returns for anything that git prints (git-status(1), section "Porcelain Format Version 1", option `-z`), stray old paths included |
| GitStatus.StatusRoundTrip | kriya/cli.py:3893-3919 | for every printed list: the reader returns the chosen current paths in order and nothing else, for every choice of files, if and only if it stays in step: wherever it takes an old path for an entry, that path starts with R or C and spells out the next entry |
| GitStatus.PlainStatusRoundTrip | kriya/cli.py:3893-3919 | for printed lists in which no stray old path starts with R or C, that is so if and only if every entry renamed or copied in its second letter is so in its first |
| GitStatus.OrdinaryEntriesAreRead | kriya/cli.py:3893-3919 | entries that say neither renamed nor copied, and entries renamed or copied in their first letter with their old path, are read: the current paths, never an old one |
| GitStatus.StatusRoundTripIff | kriya/cli.py:3893-3919 | for such lists and one given choice of files: the reader is right if and only if no stray old path, less three characters, is a chosen file |
| GitStatus.MistakesMayCancel | kriya/cli.py:3914-3915 | an entry renamed in its second letter only, whose old path spells out the next entry, is read rightly all the same |
| GitStatus.SwallowedEntryIsMissed | kriya/cli.py:3914-3915 | a stray old path that starts with R or C takes the place of the next entry, whose path is never read, whatever comes before and after |
| GitStatus.LoneSwallowIff | kriya/cli.py:3914-3915 | between lists that are read in step, the result is then right if and only if the old path and the skipped path choose the same |
| GitStatus.WorktreeRenameIsMisread | kriya/cli.py:3914-3915 | a rename or copy in the second status letter only makes the reader take any old path, less three characters, for an entry |
| ReviewWalk.FirstFiles | kriya/cli.py:3924-3928 | the fallback scan takes the first ten files of the walk, and says so from ten on |
| ReviewWalk.WalkIsExact | kriya/cli.py:4547-4561 | the walk yields exactly the files with a wanted extension below entered, readable directories |
| ReviewWalk.ExtensionIs | kriya/cli.py:4558 | the extension is the last dot of the name and what follows, if anything but dots comes before, compared in lower case |
| ReviewWalk.WalkAscends | kriya/cli.py:4542-4561 | the walk is strictly ascending component by component, so no file comes twice |
| ReviewWalk.WalkIgnoresListingOrder | kriya/cli.py:4542-4549 | the walk does not depend on the order in which directories are listed |
| ReviewWalk.FirstFilesAreLeast | kriya/cli.py:3924-3928 | every other file comes after the ten that are taken |
| ReviewWalk.StringOrderIff | kriya/cli.py:4543 | two paths in walk order are in string order if and only if they do not clash: one enters a directory whose name the other extends by a character below the slash |
| ReviewWalk.WalkInStringOrderIff | kriya/cli.py:4542-4561 | the walk of a tree ascends as path strings if and only if no two of the files it reaches clash |
| ReviewWalk.WalkIsNotStringOrder | kriya/cli.py:4542-4561 | the walk of any tree with `a/x.py` and `a.py` does not ascend as path strings |
| Learned.CutChunks | kriya/cli.py:4427-4433 | the loop computes the chunks |
| Learned.ChunkCount | kriya/cli.py:4428-4433 | there are as many chunks as the length divided by 850, rounded up |
| Learned.ChunksCoverContent | kriya/cli.py:4431-4433 | the first 850 characters of each chunk, joined, are the content |
| Learned.ShortPassagesStayWhole | kriya/cli.py:4428-4433 | every passage of at most 151 characters is inside one chunk |
| Learned.LongerPassagesMayBeCut | kriya/cli.py:4428-4433 | in every text of 1001 characters or more some passage of 152 characters is in no chunk |
| Learned.Store.Learn | kriya/cli.py:4426-4462 | one text: the rows afterwards, and whether the embedding failed or was incomplete |
| Learned.Store.LearnAll | kriya/cli.py:4464-4524 | a run over its sources: the rows afterwards, and whether any embedding failed |
| Learned.StoreRefinesMap | kriya/cli.py:4436-4461 | for any client: after any run a source holds the rows of the last text embedded under it, as far as there were vectors; failed embeddings and other sources change nothing |
| Learned.RowsAre | kriya/cli.py:4426-4461 | row i of a source pairs characters 850 i to 850 i + 1000 of its last text, or as many as there are, with vector i, as far as there are both; there are no other rows |
| Learned.OtherRowsStay | kriya/cli.py:4436-4452 | a source under which nothing was embedded keeps its rows |
| Learned.SourceHoldsLastText | kriya/cli.py:4426-4462 | for the client's promise, one vector for every chunk or none at all (`kriya/memory/embedding.py:128-131`): after any run the texts of a source are exactly the chunks of the last text embedded under it |
| Learned.SourceHoldsAllChunksIff | kriya/cli.py:4453-4461 | for a client without that promise: a source holds all chunks of its text if and only if there are at least as many vectors |
| Learned.ManualSourcesDiffer | kriya/cli.py:4518-4519 | two inline texts have one source if and only if their digests agree in the first ten digits; the source is `Manual Entry` and these digits in parentheses |
| Learned.InlineTextsKeepEachOther | kriya/cli.py:4515-4522 | learning one of two others never touches the rows of the other |
| ToolRun.RunStepKeepsInv | kriya/cli.py:827-883 | every step of the command, every crash and every power loss keeps the invariant of a run |
| ToolRun.EffectIsPrecededByDurableStart | kriya/cli.py:834-845 | in every behaviour an effect begins in a state whose durable record says "started" |
| ToolRun.CompletedMeansReturned | kriya/cli.py:845-867 | a durable or visible "completed" means that the tool returned |
| ToolRun.PrintedIsDurable | kriya/cli.py:857-875 | a printed result means that "completed" is durable and the tool returned |
| ToolRun.SuccessIsDurableIff | kriya/cli.py:844-883 | exit status 0 means that "completed" is durable, and the result printed, if and only if the tool did not itself end by exiting with 0; otherwise the record durably says "started" |
| ToolRun.ToolMayExitWithZero | kriya/cli.py:844-846 | a behaviour that exits with 0, prints nothing and leaves "started" |
| ToolRun.ToolMayExit | kriya/cli.py:844-846 | for every code a behaviour in which the tool ends the process with it, and "started" stays |
| ToolRun.PowerLossDecides | kriya/cli.py:857-872 | two behaviours that lose power between the two steps of the durable write of "completed": the record says "completed" in one and "started" in the other, and neither has printed |
| ToolRun.EffectLeavesATrace | kriya/cli.py:834-856 | once the effect has begun no record claims that nothing was started |
| ToolRun.RecordsAreCoherent | kriya/cli.py:834-867 | in every state a record says that the run succeeded if and only if it says that the tool completed |
| ToolRun.RaisedToolFailsCommand | kriya/cli.py:846-848 | a command whose tool raised exits with 1, 2 or 4 and has printed nothing |
| ToolRun.ToolMaySucceed | kriya/cli.py:827-875 | a behaviour that exits with 0, has printed, and durably says completed |
| ToolRun.ToolMayFail | kriya/cli.py:845-883 | for each of the three codes a behaviour that exits with it and durably says failed |
| ToolRun.StillStartedIff | kriya/cli.py:859-872 | when a command whose tool returned exits with 1, the visible record says "started" if and only if the durable write of "completed" never reached its replace step, and "completed" otherwise |
| ToolRun.FailedSyncShowsCompleted | kriya/cli.py:859-872 | a behaviour of the second kind, with "started" durable |
| ToolRun.WorkspaceStepKeepsInv | kriya/control/run_coordinator.py:485-571 | every step of any run of a workspace, of its operator and of a crash keeps the invariant of the workspace |
| ToolRun.OperatorKeepsInv | kriya/control/tool_disposition.py:377-436 | abandoning a run that says "started", or recovering one that died, keeps the invariant and what is settled |
| ToolRun.NoRunAfterAnOpenEffect | kriya/control/run_coordinator.py:485-571 | in every history, operator actions included, when a run follows another whose effect began, that effect is durably completed and returned, durably failed and raised, or durably abandoned |
| ToolRun.RunMayBeginIff | kriya/control/run_coordinator.py:485-571 | as far as tool records go, a run can begin if and only if every other run is over and none visibly says "started" |
| ToolRun.OperatorCloses | kriya/control/tool_disposition.py:377-436 | the operator can durably close any run that is over, by abandoning what says "started" and recovering what died |
| ToolRun.WorkspaceMayGoOn | kriya/control/tool_disposition.py:377-436 | no workspace is blocked for good: every history can be continued, by a crash and by closing every run, so that a new run begins |
| ToolRun.PrintedIsNeverAbandoned | kriya/control/tool_disposition.py:402-435 | in every history a run that printed its result durably says "completed" |

## Left out

- Floating point: weights are real numbers, and `weight_seconds` is rounded as a real number.
- Process handling of a sharded run: starting, serving, recording and terminating shards, signals, threads, the docker shim, and reading and writing the XML and JSON artifacts.
- Merge.MergeShards: does not model the merged skip list, the durations and the summary line, nor the parts of a shard's report that repeat its plan and exit status, because no verdict depends on them.
- The evidence of the shards is given per shard, in plan order, instead of being looked up by shard id in directories.
- `build`, `attest`, `serve` and `record` of the Maven tool; building a manifest from a pool adds only members like those of `extend`.
- MavenDigest.DigestIdentifiesContent: assumes paths without tabs and line feeds, as all repository paths are; `DisguisedPathCollides` shows that it fails without.
- File systems: stores are maps from canonical paths to bytes; aliases of a path, clashes of a file with a directory, and write errors are not modelled.
- `purpose_of`, provenance texts and the ordering of JSON keys in a manifest.
- HashedLock.Normalize: letters outside ASCII are left as they are, because package names have none.
- The network access of `published_hashes`: the hashes of a pin are an input.
- The other commands of the command line, their options and messages; `learn` skips empty texts before the modelled steps, and the fetching of pages and reading of files are inputs.
- The embedding client, the vector index and the query side of learned knowledge.
- Direct execution of tools that do not change the workspace, which keeps no record.
- Creating a run record is one step; the audit ledger of the operator's dispositions, and commits of other kinds of runs, are not modelled.
- The natural-language router of `kriya/routing.py`: a ranking over embeddings that none of the above depends on.
