# Proofs about the benchmark runner, the catalog, the evaluators, the locks and the event log

This project models six parts of the repository and proves what they promise, for all inputs. Code that works
step by step is modelled by methods, with a class where the code is a class, each proved equal to a
specification function; the promises are lemmas about those functions. Nothing was executed.

**The benchmark runner** (`Workspace`, `Runner`, `RunTrace`, `RunFindings`, `RunEndings`, `RunSafety`,
`RunGuarantees`). A run executes a list of declared actions against a disposable directory tree holding a
repository, artifacts and named snapshots, and judges the trace. `ReportOkExactly` says of any fixture when its
report is ok, over the declared actions, commands, artifacts and invariants and the trees they meet. The tree is
a map from paths to directories and files. A command may leave any repository behind, end with any exit code, or
raise. The results: one event per action, counters that agree with the trace, min/max index checks that decide
the intended order properties, and file safety over whole runs. An action is *tracked* when it keeps every
uncounted path as it was set up, in the repository and in every stored snapshot; `TrackedExactly` gives the
condition a caller can check beforehand, in both directions. Four kinds of action fall outside it: a permitted
write of text that UTF-8 cannot encode (the file is emptied, the write fails, nothing is counted), the names "."
and ".." for a snapshot (the name check accepts both), the same names for a restore, and a command that edits
the repository.

**The tool catalog** (`Json`, `MetadataDiff`, `MetadataPatch`, `Catalog`, `CatalogCompare`, `CatalogAgreement`).
The recursive metadata diff with its shared output list and limit, read as a patch; refreshing digests; building
a catalog from live metadata; and the comparison by surface against the whole-catalog digest. SHA-256 is an
arbitrary injective function on JSON values. Python's `==` identifies `True`, `1` and `1.0` while their digests
differ, so a changed entry can come without a single diff row; `RowsExplainChange` says exactly when.

**Review scoring** (`Rounding`, `ReviewMatching`, `ReviewScoring`). Greedy first-fit matching, rounded ratios,
thresholds, and a pack of fixtures.

**Context retrieval** (`SearchScoring`, `TextScores`, `RetrievalMetrics`, `ContextRetrieval`,
`DistractorPlacement`, `DistractorEffect`, `DistractorDelta`, `DeltaMeaning`, `DistractorGain`,
`EfficiencyExactness`, `DistractorExactness`, `DeltaExactness`, `EfficiencyRise`, `PrecisionFall`). Token scores
of texts, ranked retrieval within a budget, harmonic-rank efficiency, and the effect of adding distractors.
Recall and precision never rise, and precision stays just where no distractor comes into a retrieval that had
something to lose (`PrecisionFallsExactly`). Efficiency can: a fixture that lists two anchors of one line as s,
t, t, s has a positive efficiency delta with the distractor text "alpha alpha" and budget 4
(`EfficiencyCanRise`). Every evidence row moves back by the number of distractors that score more, and a run is
worth what the rows still within the budget are worth (`RunWorth`). So no distractor texts raise a run in budget
b exactly when no row that can be pushed out of the budget is worth losing: for every such row n, the first n
rows, with those of the score of row n moved back b - n places, are worth no more than all that the budget
reaches (`EfficiencyNeverRisesExactly`). A row can be pushed out when some text scores more: always in the grep
and hybrid modes, where the question written often enough does, and in the vector mode when the row scores less
than 1. The same is proved for the rounded efficiency a run reports, and for single ranks. The delta of a
fixture over its three modes depends only on how many evidence rows each distractor leaves in front in each mode
(`DeltaIsCutDelta`), which follows from two numbers, and exactly those pairs of numbers occur that the
question's own tokens allow (`TextsExactly`); `DeltaNeverRisesExactly` decides the delta from them. When no row
of any mode is worth losing the delta is never positive (`RunsWithoutGain`), as for every fixture whose equal
anchors stand together in the rankings.

**Dependency locks** (`LockText`, `LockParse`, `LockRoundTrip`, `LockReport`, `LockStore`, `LockChecks`,
`LockRefresh`). The printer and the line-continuation parser of hash-pinned requirement files, which texts it
accepts and with which error it refuses the others (`ParsedExactly`), name canonicalisation as in the
"Normalized Names" section of PEP 503, and the refresh/check protocol over a file store.

**The event log and the JSON Pointer reader** (`EventLog`, `LineageLists`, `ForkDiff`, `ForkReport`,
`JsonPointer`). Artifact lineage and the digest map, two folds that agree exactly when an artifact's last
reference carries a digest or none does; the fork/parent diff; and the two-pass unescape of section 4 of RFC
6901 with the path walk. The pointer "/" is read as the whole document, where section 5 of RFC 6901 gives it to
the empty key.

`Wrappers`, `Strings` and `Sorting` hold what the others share: options and results, code-point order, splitting
and joining, and a stable sort with its uniqueness and filtering laws.

## Model

| member | source | states |
|---|---|---|
| `Workspace.WriteTextExactly` | evaluation/e2e_mcp_workflows/runner.py:395-405 | A write succeeds exactly when no file stands where a parent directory is needed, the target is no directory and the text is encodable; then the file reads back as the text and all parents are directories |
| `Workspace.NormalizedAgain` | evaluation/e2e_mcp_workflows/runner.py:1105-1131 | A normalised path written out is normalised to itself again, except that one beginning with a tilde ("./~x" gives "~x") is refused the second time |
| `Workspace.NormalizedIsLocated` | evaluation/e2e_mcp_workflows/runner.py:1105-1127 | A declared path is refused exactly when it is empty, begins with a slash or a tilde or goes up; any other leads, walked part by part from any directory, to the normalised path below that directory, so none escapes it |
| `Workspace.CopyTreeFileAt` | evaluation/e2e_mcp_workflows/runner.py:1146-1169 | A copy into an emptied target holds exactly the source's files outside the ignored directories |
| `Runner.DirectBaselineRunner.Run` | evaluation/e2e_mcp_workflows/runner.py:218-272 | The report of the step-by-step run is that of the run specification, including the cases in which an exception leaves the method |
| `Runner.DirectBaselineRunner.WriteSetupFiles` | evaluation/e2e_mcp_workflows/runner.py:274-288 | Set-up yields the declared tree, or fails exactly when some file cannot be written |
| `Runner.DirectBaselineRunner.ExecuteAction` | evaluation/e2e_mcp_workflows/runner.py:290-352 | The whole new state of the runner after one action, with its event and, when it did not pass, its failure entry |
| `Runner.DirectBaselineRunner.PerformAction` | evaluation/e2e_mcp_workflows/runner.py:290-352 | State and ending of every tool before the event is recorded, refusals included; trace and failures are not touched |
| `Runner.DirectBaselineRunner.ReadRepoFile` | evaluation/e2e_mcp_workflows/runner.py:366-370 | Changes nothing and fails with the error of the path that is missing, unsafe, blocked by a file or a directory |
| `Runner.DirectBaselineRunner.WriteRepoFile` | evaluation/e2e_mcp_workflows/runner.py:395-405 | Counts the path exactly when the write went through, and leaves the tree of a failed write as the file system does |
| `Runner.DirectBaselineRunner.WriteArtifactFile` | evaluation/e2e_mcp_workflows/runner.py:407-415 | Writes below the artifacts only, and only when artifact writes are allowed |
| `Runner.DirectBaselineRunner.TakeNamedSnapshot` | evaluation/e2e_mcp_workflows/runner.py:417-425 | Counts a snapshot exactly when it was taken; the tree is that of the snapshot operation, the names "." and ".." included |
| `Runner.DirectBaselineRunner.RestoreNamedSnapshot` | evaluation/e2e_mcp_workflows/runner.py:427-436 | Counts a rollback exactly when the snapshot was restored |
| `Runner.DirectBaselineRunner.RunCommandAction` | evaluation/e2e_mcp_workflows/runner.py:486-530 | A refused or raised command fails; an exit with another code than expected is a failed event that still counts as a test |
| `Runner.DirectBaselineRunner.RunVerificationCommands` | evaluation/e2e_mcp_workflows/runner.py:438-446 | Results of all verification commands in order, or an exception at the first one that raises |
| `Runner.DirectBaselineRunner.RecordTool` | evaluation/e2e_mcp_workflows/runner.py:546-565 | Appends one event and touches no other field |
| `Runner.DirectBaselineRunner.EvaluateInvariants` | evaluation/e2e_mcp_workflows/runner.py:567-622 | One finding per declared invariant, in order, with the status its kind calls for; an unknown kind fails |
| `RunTrace.ExecuteAppends` | evaluation/e2e_mcp_workflows/runner.py:290-352 | One action adds exactly one event, and exactly one failure entry when that event failed |
| `RunTrace.OneEventPerAction` | evaluation/e2e_mcp_workflows/runner.py:290-352 | After any number of actions there is one event per action at its own index, and failures are one-to-one with failed events |
| `RunTrace.NoFailureIffAllPassed` | evaluation/e2e_mcp_workflows/runner.py:240-246 | The failure list is empty exactly when every event passed |
| `RunTrace.OkExactly` | evaluation/e2e_mcp_workflows/runner.py:240-246 | A report is ok exactly when every event passed, every declared verification command ended with the expected code, every expected artifact is a file with the required and without the excluded texts, and no invariant failed |
| `RunTrace.OkMeansEveryEventPassed` | evaluation/e2e_mcp_workflows/runner.py:240-246 | An ok report implies a passed event for every action |
| `RunTrace.CommandEnds` | evaluation/e2e_mcp_workflows/runner.py:486-530 | A permitted command with a valid argv over an existing repository leaves a passed event exactly on the expected code; another code is a failed event with its gate, a failure entry and, when test-gated, a failed test result; no code is an error without a test result |
| `RunTrace.RefusedCommandFails` | evaluation/e2e_mcp_workflows/runner.py:1095-1102 | A command without argv, of another program than Python, or that starts pip or venv, fails and runs nothing |
| `RunTrace.VerifiedEnds` | evaluation/e2e_mcp_workflows/runner.py:438-446 | The verification commands that have run left one result each, in order, under their own gate, passed exactly on the expected code |
| `RunTrace.CommandsEnd` | evaluation/e2e_mcp_workflows/runner.py:438-446 | In a finished run a result of a verification command is a pass exactly when the command ended with the expected code |
| `RunTrace.CountersMatchTrace` | evaluation/e2e_mcp_workflows/runner.py:395-436 | Write counts, snapshots, rollbacks, retries and test results equal the passed events of their tool; gates exceed them by the gates UTF-8 cannot encode |
| `RunTrace.GatesMatchIff` | evaluation/e2e_mcp_workflows/runner.py:295-298 | The gate list matches the passed gate events exactly when every permitted gate name is encodable |
| `RunTrace.FailedGateSatisfiesRequirement` | evaluation/e2e_mcp_workflows/runner.py:295-298 | Concretely, a lone surrogate as gate name fails its action and yet satisfies `required_gate` |
| `RunTrace.ToolOrderDecides` | evaluation/e2e_mcp_workflows/runner.py:704-723 | `tool_order` passes exactly when the tool ran, prerequisites are declared and every use has a strictly earlier prerequisite |
| `RunTrace.SnapshotBeforeMutationDecides` | evaluation/e2e_mcp_workflows/runner.py:725-738 | Passes exactly when writes occur and each has an earlier snapshot event |
| `RunTrace.TestAfterMutationDecides` | evaluation/e2e_mcp_workflows/runner.py:740-755 | Passes exactly when writes occur and each has a later test-gated command |
| `RunTrace.RunsAreInOrder` | evaluation/e2e_mcp_workflows/runner.py:546-565 | Every trace of a run is in index order, which the three order results ask for |
| `RunTrace.ToolFindingsDecide` | evaluation/e2e_mcp_workflows/runner.py:701-702 | A tool counts as used exactly when some action names it, passed or not, permitted or not |
| `RunTrace.GateFindingDecides` | evaluation/e2e_mcp_workflows/runner.py:580-584 | A gate is noted exactly when a permitted gate action names it |
| `RunFindings.WriteEnds` | evaluation/e2e_mcp_workflows/runner.py:395-405 | A permitted write passes exactly when repository writes are on, a pattern allows the path and nothing is in its way; the file then reads back as the content and its path is counted once more |
| `RunFindings.ArtifactWriteEnds` | evaluation/e2e_mcp_workflows/runner.py:407-415 | A permitted artifact write passes exactly when artifact writes are on and nothing is in its way; the file then reads back as the content |
| `RunFindings.ReadEnds` | evaluation/e2e_mcp_workflows/runner.py:366-370 | A permitted read passes exactly when the declared path names a file of the repository, and changes nothing but the trace |
| `RunFindings.CountedExactly` | evaluation/e2e_mcp_workflows/runner.py:395-405 | After any number of actions the counted paths are those of the writes that passed |
| `RunFindings.FindingsDecide` | evaluation/e2e_mcp_workflows/runner.py:567-622 | The finding of every kind of invariant, over the declared actions, their events and the trees before and after: not applicable when an order has nothing to order, passed when the invariant is met, failed otherwise |
| `RunEndings.ActionPasses` | evaluation/e2e_mcp_workflows/runner.py:290-352 | Each of the ten kinds of action passes exactly when it works: its tool is permitted, and the fixture and the tree it finds give it what it needs |
| `RunEndings.PassesExactly` | evaluation/e2e_mcp_workflows/runner.py:290-352 | In a run, event i is a passed one exactly when action i works in the tree the earlier ones left, however many follow |
| `RunEndings.ReportOkExactly` | evaluation/e2e_mcp_workflows/runner.py:218-246 | A report is ok exactly when every action works in the tree the earlier ones left, every verification command ends with the expected code, every expected artifact is present, and every invariant is met or idle |
| `RunEndings.RunRaisesExactly` | evaluation/e2e_mcp_workflows/runner.py:438-484 | After its set-up a run ends in an exception exactly when a verification command raises, has no repository to run in, or an expected artifact has an unsafe path |
| `RunEndings.TestResultsFollow` | evaluation/e2e_mcp_workflows/runner.py:438-446 | The test results are one for each test-gated event, and then one for each test-gated verification command, passed on the expected code |
| `RunEndings.FileActionReasons` | evaluation/e2e_mcp_workflows/runner.py:366-415 | The error a failed read or write is recorded with: a write meets what stands above its target first, then the target, and its content last; a read looks at the target first |
| `RunSafety.SnapshotIsLocal` | evaluation/e2e_mcp_workflows/runner.py:417-425 | Under a name of its own a snapshot holds exactly the visible repository, and the repository and all other snapshots stay as they were |
| `RunSafety.RestoreIsLocal` | evaluation/e2e_mcp_workflows/runner.py:427-436 | A restore makes the repository the visible copy of the named snapshot and changes no snapshot; a failed one changes nothing |
| `RunSafety.WriteIsLocal` | evaluation/e2e_mcp_workflows/runner.py:395-415 | A write, failed or not, changes no other file of the repository or the artifacts and no snapshot |
| `RunSafety.ReplaceRepoIsLocal` | evaluation/e2e_mcp_workflows/runner.py:486-530 | A command that leaves another repository behind changes no snapshot |
| `RunSafety.TrackedKeepsGuard` | evaluation/e2e_mcp_workflows/runner.py:395-436 | One tracked action keeps repository and stored snapshots equal to the set-up on every visible path never counted as written |
| `RunSafety.TrackedExactly` | evaluation/e2e_mcp_workflows/runner.py:395-436 | The tracked actions are exactly those that keep this from every state in which it holds |
| `RunSafety.DotSnapshotListsRepo` | evaluation/e2e_mcp_workflows/runner.py:1172-1176 | The snapshot "." turns each directory of the repository into a stored snapshot |
| `RunSafety.RestoreOfParentLosesFile` | evaluation/e2e_mcp_workflows/runner.py:427-436 | Restoring "." or ".." loses a set-up file |
| `RunGuarantees.SetupHoldsFiles` | evaluation/e2e_mcp_workflows/runner.py:274-288 | After set-up every declared file holds its text unless a later declaration normalises to the same path |
| `RunGuarantees.RunKeepsGuard` | evaluation/e2e_mcp_workflows/runner.py:235-236 | Any number of tracked actions keeps uncounted paths as set up |
| `RunGuarantees.FinishIsGuarded` | evaluation/e2e_mcp_workflows/runner.py:218-246 | The end of a run, verification commands included, still agrees with the set-up wherever nothing was counted |
| `RunGuarantees.ForbiddenPathsUntouched` | evaluation/e2e_mcp_workflows/runner.py:757-771 | When `forbidden_path_mutation` passes in a tracked run, every visible path matching a forbidden pattern ends with its set-up content or absence |
| `RunGuarantees.UncountedRunChangesNothing` | evaluation/e2e_mcp_workflows/runner.py:603-606 | A tracked run without counted writes leaves the visible repository unchanged, so `no_repo_mutation` passes |
| `RunGuarantees.TruncationEscapesCheck` | evaluation/e2e_mcp_workflows/runner.py:395-405 | A write of unencodable text empties an existing file, fails, and leaves every forbidden-path check as it was |
| `RunGuarantees.SnapshotSurvives` | evaluation/e2e_mcp_workflows/runner.py:417-436 | A stored snapshot keeps its files through any actions that do not snapshot under its name, "." or ".." |
| `RunGuarantees.KeepsSnapshotExactly` | evaluation/e2e_mcp_workflows/runner.py:417-425 | Exactly those actions leave the stored snapshot as it is in every state |
| `RunGuarantees.DotSnapshotDropsSnapshots` | evaluation/e2e_mcp_workflows/runner.py:1172-1176 | The snapshot "." discards every stored snapshot the repository has no directory for |
| `RunGuarantees.TakenIsStored` | evaluation/e2e_mcp_workflows/runner.py:417-425 | In whatever state it is taken, a snapshot under a name of its own that succeeds stores exactly the visible repository |
| `RunGuarantees.RestoreRecoversSnapshot` | evaluation/e2e_mcp_workflows/runner.py:417-436 | From any state, restoring a name succeeds and gives back exactly the visible repository at its latest successful snapshot, whatever ran in between |
| `RunGuarantees.SnapshotPrecedesWrite` | evaluation/e2e_mcp_workflows/runner.py:725-738 | In an ok run that declares `snapshot_before_mutation`, some successful snapshot precedes any given write |
| `RunGuarantees.SnapshotHoldsSetup` | evaluation/e2e_mcp_workflows/runner.py:725-738 | At the first write of such a run, some stored snapshot equals the whole visible set-up repository |
| `RunGuarantees.DotSnapshotStoresNothing` | evaluation/e2e_mcp_workflows/runner.py:725-738 | Concretely, an ok run that first takes the snapshot "." of an empty repository has no stored snapshot at its first write |
| `RunGuarantees.EventTellsEnding` | evaluation/e2e_mcp_workflows/runner.py:546-565 | The status recorded for an action is how that action ended, however many actions follow |
| `MetadataDiff.DiffValues` | source/tool_catalog_integrity.py:587-616 | The recursive in-place diff appends exactly the first rows of the unbounded diff that fit under the limit |
| `MetadataDiff.DiffMetadata` | source/tool_catalog_integrity.py:619-622 | The bounded diff is a prefix of the unbounded one and no longer than the limit |
| `MetadataDiff.EmptyIffEqual` | source/tool_catalog_integrity.py:587-616 | The unbounded diff is empty exactly when Python calls the values equal |
| `MetadataDiff.SwapSwapsColumns` | source/tool_catalog_integrity.py:587-616 | Swapping the arguments swaps the two columns, row by row |
| `MetadataPatch.PatchYieldsActual` | source/tool_catalog_integrity.py:587-616 | Applying the rows in order to the expected value yields a value equal to the actual one |
| `MetadataPatch.DiffIsRelative` | source/tool_catalog_integrity.py:587-616 | The diff below a path is the diff from the root with the path put before each row |
| `Catalog.RefreshCatalogDigests` | source/tool_catalog_integrity.py:442-492 | Entries of every surface re-digested, sorted and counted, and the whole digest taken over the result |
| `Catalog.RefreshOneSurface` | source/tool_catalog_integrity.py:442-490 | The loop of one surface: non-objects dropped, digests renewed, sorted by key |
| `Catalog.RedigestTwice` | source/tool_catalog_integrity.py:402-439 | Renewing the digests of an entry twice is renewing them once, template digest of a prompt included |
| `Catalog.RefreshIsIdempotent` | source/tool_catalog_integrity.py:442-492 | Refreshing a refreshed catalog changes nothing, for any document |
| `Catalog.RedigestSets` | source/tool_catalog_integrity.py:402-422 | Renewing an entry changes nothing but its digest and, in a prompt, the template digest; both are then those of what they cover |
| `Catalog.RefreshedEntriesAreDigested` | source/tool_catalog_integrity.py:442-492 | After a refresh every entry carries the digest of its payload, and every prompt with a template the digest of that template |
| `Catalog.RefreshedInOrder` | source/tool_catalog_integrity.py:442-492 | A refreshed surface holds the renewed objects of the old list, each as often as before, in ascending order of their keys, with their number as its count |
| `Catalog.RefreshKeepsTheRest` | source/tool_catalog_integrity.py:442-492 | A refresh touches nothing but the four lists, the four counts and the whole digest |
| `Catalog.WholeDigestDetermines` | source/tool_catalog_integrity.py:425-439 | Two refreshed documents have the same whole digest exactly when their schema, algorithm, canonicalization, origin and all four lists are equal |
| `CatalogCompare.CompareSurface` | source/tool_catalog_integrity.py:625-669 | Added are the keys only the current list has, removed those only the baseline has, changed those whose last entries on the two sides have different digests, each with the digests and the diff in the order baseline, current; all three lists in key order without repeats |
| `CatalogCompare.ComparisonReports` | source/tool_catalog_integrity.py:625-669 | The same of the comparison function, over the two entry lists |
| `CatalogCompare.ChangedEntries` | source/tool_catalog_integrity.py:644-655 | A change record for exactly the common keys whose digests differ, in order |
| `CatalogCompare.MatchedMeans` | source/tool_catalog_integrity.py:625-669 | A surface matches exactly when both sides have the same keys with equal digests |
| `CatalogCompare.BuiltItems` | source/tool_catalog_integrity.py:495-561 | A built catalog lists exactly the sorted canonical entries with their count, under the constant fields and the digest of the whole |
| `CatalogCompare.CanonicalEntrySays` | source/tool_catalog_integrity.py:495-561 | A built entry has the described key, for a resource its name, and the described metadata, in a prompt with the digest of its template |
| `CatalogCompare.DigestDetermines` | source/tool_catalog_integrity.py:402-422 | Canonical entries with equal digests are the same entry |
| `CatalogCompare.BuildIgnoresOrder` | source/tool_catalog_integrity.py:495-561 | With unique keys, any permutation of the live metadata builds the identical document, whole digest included |
| `CatalogAgreement.MatchedIsEqual` | source/tool_catalog_integrity.py:625-669 | For lists of canonical entries with distinct keys, a match is equality of the lists |
| `CatalogAgreement.MatchedIffDigestsEqual` | source/tool_catalog_integrity.py:681-733 | For two built catalogs with unique keys, the four-surface comparison says matched exactly when the whole-catalog digests are equal |
| `CatalogAgreement.OrderIrrelevantExactly` | source/tool_catalog_integrity.py:442-492 | The listing order is irrelevant exactly when entries with the same key are the same entry |
| `CatalogAgreement.RowsExplainChange` | source/tool_catalog_integrity.py:644-655 | A changed entry has no diff row exactly when Python calls the two metadata values equal |
| `CatalogAgreement.ChangeWithoutRows` | source/tool_catalog_integrity.py:644-655 | Concretely, a flag turning from true into 1 changes the digest and leaves the diff empty |
| `Rounding.RoundIsNearest` | scripts/context_retrieval_eval.py:50-51 | Rounding moves by at most half a step, and by exactly half only to an even multiple |
| `Rounding.Round4IsMonotone` | scripts/context_retrieval_eval.py:50-51 | Rounding to four decimals keeps the order of two values |
| `Rounding.RoundReaches` | scripts/context_retrieval_eval.py:50-51 | A rounded number is at least k exactly when it is more than a half below k, or just a half below an even k |
| `Rounding.Round4ReachesOne` | source/review_signal_noise_evaluator.py:542-545 | A value of at most 1 is rounded to 1 exactly when at most 0.00005 is missing |
| `ReviewMatching.FirstMatchingFinding` | source/review_signal_noise_evaluator.py:432-442 | The first unused finding that matches, or nothing when no unused finding does |
| `ReviewMatching.MatchMeans` | source/review_signal_noise_evaluator.py:455-475 | A finding matches exactly when it is in the expected file and within the line tolerance, where these are known, and mentions all required terms, or without those one of the alternatives, or without either the id |
| `ReviewMatching.MatchesWiden` | source/review_signal_noise_evaluator.py:455-475 | A wider tolerance and a longer text lose no match |
| `ReviewMatching.MatchFixture` | source/review_signal_noise_evaluator.py:193-220 | The matching loops compute the greedy matching; true positives and misses make up the expectations, true positives and spurious findings the findings |
| `ReviewMatching.Conservation` | source/review_signal_noise_evaluator.py:193-220 | Both sums hold of the greedy matching for any input |
| `ReviewMatching.GreedyIsInjective` | source/review_signal_noise_evaluator.py:193-220 | No finding and no expectation is matched twice, and every matched pair does match |
| `ReviewMatching.GreedyIsMaximal` | source/review_signal_noise_evaluator.py:193-220 | No missed expectation matches any spurious finding |
| `ReviewMatching.GreedyIsHalfOptimal` | source/review_signal_noise_evaluator.py:193-220 | No one-to-one matching has more than twice the greedy true positives |
| `ReviewMatching.GreedyCanHalve` | source/review_signal_noise_evaluator.py:432-475 | Concretely, greedy finds one pair where two are possible |
| `ReviewScoring.EvaluateFixture` | source/review_signal_noise_evaluator.py:222-229 | Counts and verdict of one fixture |
| `ReviewScoring.EvaluateReviewFixtures` | source/review_signal_noise_evaluator.py:108-142 | The totals are the sums over the fixtures, and the pack is ok exactly when the totals and every fixture meet the thresholds |
| `ReviewScoring.RecallPassesExactly` | source/review_signal_noise_evaluator.py:542-545 | Rounded recall reaches 1 exactly when at most one expectation in 20000 is missed |
| `ReviewScoring.ThresholdsDecide` | source/review_signal_noise_evaluator.py:287-307 | What thresholds of four decimals decide, in whole numbers: each rounded ratio reaches its threshold within half a step, a tie only at an even one, and the spurious findings are within the limit |
| `ReviewScoring.DefaultThresholdsDecide` | source/review_signal_noise_evaluator.py:287-307 | The default thresholds are met exactly when nothing is spurious and 20000 times the misses is at most the expectations |
| `ReviewScoring.PassingIsPerfect` | source/review_signal_noise_evaluator.py:25-29 | Below 20000 expectations a fixture passes the defaults exactly when greedy pairs every expectation with its own finding and none is left over |
| `ReviewScoring.FixturesOkMakePackOk` | source/review_signal_noise_evaluator.py:134-142 | Under the defaults the aggregate check adds nothing: the pack is ok exactly when every fixture is |
| `ReviewScoring.AggregateLiesBetween` | source/review_signal_noise_evaluator.py:134-135 | Unrounded aggregate precision and recall lie between any bounds of the fixtures' own |
| `RetrievalMetrics.RanksAreLast` | scripts/context_retrieval_eval.py:155-160 | The rank of an anchor is the position of its last occurrence |
| `RetrievalMetrics.EfficiencyBounds` | scripts/context_retrieval_eval.py:155-177 | 0 <= efficiency <= recall <= 1, and efficiency times the gold count is at most the harmonic number of the hits, repeated anchors included |
| `RetrievalMetrics.RecallIsOneExactly` | scripts/context_retrieval_eval.py:155-177 | Recall is 1 exactly when every gold anchor is retrieved |
| `SearchScoring.TokensApart` | scripts/context_retrieval_eval.py:58-63 | Texts put together with a separator between them have the tokens of both, in order |
| `SearchScoring.TokensOfWords` | scripts/context_retrieval_eval.py:58-63 | Words written on one line are read back as tokens, but for those of fewer than three characters |
| `SearchScoring.TokensIgnoreCase` | scripts/context_retrieval_eval.py:58-63 | Texts that differ in the case of letters only have the same tokens |
| `SearchScoring.OccurrencesAreDot` | scripts/context_retrieval_eval.py:330-349 | The grep score, a sum over the question tokens with repeats, equals the product of the two Counters in the vector score |
| `SearchScoring.VectorScoreBounds` | scripts/context_retrieval_eval.py:330-340 | The vector score of any text is between 0 and 1 |
| `SearchScoring.ModesRelate` | scripts/context_retrieval_eval.py:343-356 | The hybrid score exceeds the vector score by the grep score over the number of question tokens, and without question tokens all scores are 0 |
| `SearchScoring.RepeatedScores` | scripts/context_retrieval_eval.py:330-356 | The question written k times has vector score 1, and a grep and a hybrid score of at least k |
| `TextScores.TextsExactly` | scripts/context_retrieval_eval.py:330-356 | A text with a given number of question-token hits and a given sum of squared counts exists exactly when some list of question tokens has these hits and no larger sum of squares |
| `ContextRetrieval.EvaluateSearchRun` | scripts/context_retrieval_eval.py:343-421 | The metrics of the best positively scored candidates within the budget, every text scored in the mode, or the error on a budget below one |
| `ContextRetrieval.BestScoresAreReturned` | scripts/context_retrieval_eval.py:385-399 | Nothing left out by the budget scores better than anything returned, and nothing returned scores zero or less |
| `ContextRetrieval.EvidenceOrderIsKept` | scripts/context_retrieval_eval.py:385-399 | Sorting with distractors and then dropping them is sorting without them |
| `ContextRetrieval.EvidenceRankingIsKept` | scripts/context_retrieval_eval.py:385-399 | The same holds of the positively scored ranking |
| `ContextRetrieval.RetrievedEvidenceIsPrefix` | scripts/context_retrieval_eval.py:385-399 | The evidence retrieved with distractors is a prefix of the evidence retrieved without them, under the same budget |
| `DistractorPlacement.EvidenceStands` | scripts/context_retrieval_eval.py:385-399 | In a ranking with distractors an evidence row stands behind the evidence before it and exactly the distractors that score more |
| `DistractorEffect.FixtureIsSeparate` | scripts/context_retrieval_eval.py:287-327 | No evidence anchor of a fixture equals a distractor anchor |
| `DistractorEffect.RankNeverImproves` | scripts/context_retrieval_eval.py:155-160 | With equal anchors in blocks, an evidence anchor found with distractors is found without them, at the same rank or a better one |
| `DistractorDelta.HitsShrink` | scripts/context_retrieval_eval.py:385-405 | Every gold anchor found with distractors is found without them |
| `DistractorDelta.RecallNeverRises` | scripts/context_retrieval_eval.py:155-177 | Recall with distractors is at most recall without |
| `DistractorDelta.PrecisionNeverRises` | scripts/context_retrieval_eval.py:155-177 | Precision with distractors is at most precision without, empty retrievals included |
| `DistractorDelta.EfficiencyNeverRises` | scripts/context_retrieval_eval.py:155-177 | So is efficiency, when equal anchors stand together with one score |
| `DistractorDelta.DistractorsNeverHelp` | scripts/context_retrieval_eval.py:471-491 | The same for the rounded metrics of a run in any mode under any budget |
| `DistractorDelta.EvaluateRuns` | scripts/context_retrieval_eval.py:461-472 | One run per mode and output profile, in order; the profile does not enter the metrics |
| `DistractorDelta.EvaluateFixtureDelta` | scripts/context_retrieval_eval.py:457-491 | The three deltas of a fixture, of which recall and precision are never positive, nor efficiency when equal anchors stand together |
| `DeltaMeaning.DeltaIsMeanDifference` | scripts/context_retrieval_eval.py:471-491 | Each delta is the rounded third of the sum over the three modes of the metric with distractors minus the metric without |
| `DeltaMeaning.PrecisionIsOneExactly` | scripts/context_retrieval_eval.py:155-177 | A non-empty retrieval has precision 1 exactly when it holds no distractor |
| `DeltaMeaning.PrecisionFallsExactly` | scripts/context_retrieval_eval.py:155-177 | In one mode and budget the unrounded precision never rises, and stays the same exactly when no distractor is retrieved, or when the run without distractors retrieves nothing of a fixture that has evidence |
| `DeltaMeaning.PrecisionDeltaIsZeroExactly` | scripts/context_retrieval_eval.py:471-491 | The mean difference of the unrounded precisions is 0 exactly when this holds in all three modes |
| `PrecisionFall.PrecisionFalls` | scripts/context_retrieval_eval.py:486-491 | Concretely, the question "alpha" with one line "alpha" and the distractor "alpha beta" in budget 2 has recall delta 0 and precision delta -0.5 |
| `DistractorDelta.DistinctAnchorsAreInBlocks` | scripts/context_retrieval_eval.py:287-314 | Fixtures with distinct evidence anchors meet that condition in every mode |
| `DistractorExactness.RankNeverImprovesExactly` | scripts/context_retrieval_eval.py:155-160 | No distractor texts and no budget improve a rank exactly when every row that can be pushed out and repeats an anchor comes right after a row of that anchor and score |
| `DistractorExactness.BlocksAreExact` | scripts/context_retrieval_eval.py:155-160 | In the grep and hybrid modes this holds exactly when equal anchors stand together with one score |
| `DistractorGain.RunWorth` | scripts/context_retrieval_eval.py:155-177 | The inverse ranks of a run sum to those of its evidence rows, each moved back by the distractors that score more, as far as they stay within the budget |
| `DistractorGain.KeptBounds` | scripts/context_retrieval_eval.py:155-177 | Whatever the distractors, a run that keeps n evidence rows is worth at most those rows with row n pushed out of the budget at the least loss; row n is lost only to a distractor that scores more |
| `DistractorGain.KeptIsReached` | scripts/context_retrieval_eval.py:155-177 | As many distractors as places are left, scored between row n and the rows before its score group, reach that bound |
| `EfficiencyExactness.EfficiencyNeverRisesExactly` | scripts/context_retrieval_eval.py:343-421 | No distractor texts raise a run's efficiency in budget b exactly when no row that can be pushed out of the budget is worth losing |
| `EfficiencyExactness.EfficiencyNeverRisesInAnyBudget` | scripts/context_retrieval_eval.py:343-421 | No distractor texts and no budget raise it exactly when this holds for the budgets within the evidence ranking |
| `EfficiencyExactness.BlocksNeverGain` | scripts/context_retrieval_eval.py:155-177 | Rankings whose equal anchors stand together with one score meet that condition |
| `EfficiencyExactness.ReportedEfficiencyNeverRisesExactly` | scripts/context_retrieval_eval.py:162-171 | For the rounded efficiency a run reports, the same condition with both sides rounded is exact |
| `EfficiencyExactness.ReportedNeverRisesInAnyBudget` | scripts/context_retrieval_eval.py:162-171 | And over all budgets those within the evidence ranking decide |
| `DeltaExactness.DeltaIsCutDelta` | scripts/context_retrieval_eval.py:457-491 | The efficiency delta is computed from the cuts of the distractors, how many rows of the evidence ranking of each mode each leaves in front, and the evidence alone |
| `DeltaExactness.AttainableExactly` | scripts/context_retrieval_eval.py:330-356 | The cuts of texts are exactly those that follow from the two numbers the question tokens allow |
| `DeltaExactness.DeltaNeverRisesExactly` | scripts/context_retrieval_eval.py:457-491 | No distractor texts make the efficiency delta positive in budget b exactly when no attainable cuts, each at most b times, give a positive delta |
| `DeltaExactness.RunsWithoutGain` | scripts/context_retrieval_eval.py:457-491 | When no row that can be pushed out is worth losing in any mode, no distractor texts and no budget make the delta positive |
| `EfficiencyRise.RunCanRise` | scripts/context_retrieval_eval.py:343-421 | Concretely, with the question "alpha" and the line "s t alpha beta gamma delta" of file p, anchors s, t, t, s in budget 4 have reported efficiency 0.2917, and 0.375 with the distractor "alpha alpha", in every mode |
| `EfficiencyRise.EfficiencyCanRise` | scripts/context_retrieval_eval.py:486-491 | So the efficiency delta of that fixture is 0.0833 |
| `EfficiencyRise.SaturatedNeverRises` | scripts/context_retrieval_eval.py:457-491 | Concretely, no distractor texts and no budget raise the delta of a fixture in the same order whose vector scores are 1 |
| `LockText.CanonicalNameIsIdempotent` | scripts/dependency_lock.py:88-89 | Canonicalising twice is canonicalising once, and the fixed points are exactly the names without upper case whose separators are single hyphens |
| `LockText.CanonicalNameOfWord` | scripts/dependency_lock.py:88-89 | A name without separators becomes its lower-case form |
| `LockText.CanonicalNameAcross` | scripts/dependency_lock.py:88-89 | Separators between two names, whichever and however many, become one hyphen |
| `LockText.ValidateLockText` | scripts/dependency_lock.py:226-268 | The two loops return the counts and content digest of the logical lines, or the first error met |
| `LockParse.ParsedExactly` | scripts/dependency_lock.py:226-268 | For every text, over its logical lines: it is accepted exactly when no continuation dangles, there is a line, each begins with an exact name==version, holds a hash and repeats no canonical name; the counts and the digest are those of the lines; otherwise the error is that of the first failing line, not exact before duplicate before missing hash |
| `LockParse.HashesFromMean` | scripts/dependency_lock.py:254-258 | The hashes found in a line are the digests at exactly the positions that have a hash mark with 64 hexadecimal digits, in order and lower-cased |
| `LockRoundTrip.FormatThenValidate` | scripts/dependency_lock.py:194-268 | A printed lock of clean rows with distinct canonical names parses, with one package and one hash per row and the digest of exactly those names and sorted hashes |
| `LockRoundTrip.AcceptedIffDistinct` | scripts/dependency_lock.py:226-268 | Printed clean rows are accepted exactly when their canonical names are distinct |
| `LockReport.LockRowsFromReport` | scripts/dependency_lock.py:121-142 | The collected rows in name order, or the error at the first incomplete or conflicting item, or the error for none |
| `LockReport.RowsOfItems` | scripts/dependency_lock.py:121-142 | The collected rows are exactly the rows of the installed items, each under its canonical name |
| `LockReport.CollectedIffConsistent` | scripts/dependency_lock.py:121-139 | Collecting gets through exactly when no item is incomplete and none gives another row under a canonical name than an item before it; otherwise the error is that of the first such item |
| `LockReport.NothingCollected` | scripts/dependency_lock.py:140-141 | Nothing is collected exactly when no item is installed |
| `LockReport.SameRowExactly` | scripts/dependency_lock.py:103-135 | Two items give the same row exactly when they agree up to the spelling of the name and the letter case of the digest |
| `LockReport.ReportRoundTrip` | scripts/dependency_lock.py:121-268 | Rows collected from clean items always print to a lock the parser accepts, with one package and one hash per row |
| `LockStore.LockProject.RefreshLocks` | scripts/dependency_lock.py:308-379 | The files and manifest a refresh leaves, also when it raises part-way |
| `LockStore.LockProject.ResolveAndFormat` | scripts/dependency_lock.py:319-353 | The lock text and manifest entry of one section, only after the text has been parsed back |
| `LockStore.LockProject.Check` | scripts/dependency_lock.py:383-453 | The errors of every section, ok exactly when there are none, and an exception exactly without a valid manifest |
| `LockStore.SectionsAreApart` | scripts/dependency_lock.py:41-61 | The repository's sections have names and lock files of their own, and no lock file is an input |
| `LockStore.FormatHasMarkers` | scripts/dependency_lock.py:194-223 | A printed lock contains the four markers that `check` looks for |
| `LockStore.RefreshedSectionsCheck` | scripts/dependency_lock.py:308-380 | After a refresh that got through, `check` reports no error for any refreshed section |
| `LockStore.OtherSectionsUnchanged` | scripts/dependency_lock.py:308-379 | A partial refresh over an existing manifest leaves the check result of every other section as it was, even when it raises |
| `LockStore.PartialRefresh` | scripts/dependency_lock.py:308-453 | Both, for every selection from the repository's own section table |
| `LockStore.RefreshStopsSomewhere` | scripts/dependency_lock.py:318-348 | Every refresh gets through some first sections, and through all of them or not through the next one |
| `LockStore.FailedRefreshShows` | scripts/dependency_lock.py:308-379 | A refresh that raises after n sections leaves the manifest alone and those n lock files printed anew; `check` reports such a file as changed exactly when the digest of the printed text is not the recorded one |
| `LockStore.CleanCheckMeans` | scripts/dependency_lock.py:383-437 | A section that checks clean has an entry describing its files; a missing lock file is always reported, a missing input unless the entry records "missing" |
| `LockStore.EditsAreDetected` | scripts/dependency_lock.py:383-437 | Over an injective digest, `check` reports a change of input or lock file exactly when that file was changed or removed |
| `LockChecks.LockErrorsMean` | scripts/dependency_lock.py:409-437 | When `check` reports that a lock text does not parse, has other contents than recorded, or lacks a marker, each exactly when it is so |
| `LockChecks.CheckErrorsMean` | scripts/dependency_lock.py:383-437 | When `check` reports each of its errors for a section with an entry: each path and digest that differs from the recorded one, a missing lock file, and what is wrong with the text of one that is there |
| `LockChecks.MissingEntryMeans` | scripts/dependency_lock.py:383-437 | A missing entry is reported exactly when the manifest has no object for the section, and then alone |
| `LockRefresh.ManifestExactly` | scripts/dependency_lock.py:308-379 | After a refresh that got through, the manifest records every refreshed section as its files are, digests and parsed counts included; any other entry is an old one, kept by a partial refresh only |
| `LockRefresh.RefreshFailsExactly` | scripts/dependency_lock.py:308-379 | A refresh gets through exactly when no section meets an obstacle in the store before it and it has not to merge into an invalid manifest; otherwise it raises the first obstacle |
| `EventLog.BuildDigestMap` | source/workflow_event_log.py:350-357 | The nested loop computes the digest map of all references in log order |
| `EventLog.ProjectLineage` | source/workflow_event_log.py:289-343 | The nested loop computes the lineage rows in id order over the sorted events |
| `EventLog.ExtendRow` | source/workflow_event_log.py:324-332 | The updates of one row by one reference, with the loop over the event's evidence |
| `EventLog.OrderedIsSorted` | source/workflow_event_log.py:290-290 | The projection walks the events of the log by sequence number, and by event id under the same number, each as often as the log has it; a log in this order is walked as it is |
| `EventLog.RowSummarises` | source/workflow_event_log.py:307-332 | One row per non-empty artifact id that occurs; its producers are the events of every such reference once and in order; its latest digest is the last non-empty one |
| `LineageLists.RowListsFirstOccurrences` | source/workflow_event_log.py:307-332 | A row has the kind of its first reference, and lists the checkpoints, forks and evidence of all its references, each distinct non-empty id once in order of first occurrence |
| `EventLog.DigestIsLast` | source/workflow_event_log.py:350-357 | The digest map knows the same ids and holds the digest of the last reference, empty or not |
| `EventLog.FoldsAgreeExactly` | source/workflow_event_log.py:289-357 | On a log in sequence order the two folds agree on an artifact exactly when its last reference carries a digest or none does |
| `EventLog.FoldsAgreeWithDigests` | source/workflow_event_log.py:289-357 | They agree on every artifact when every reference carries a digest |
| `ForkDiff.ListChanges` | source/workflow_event_log.py:379-391 | The loop lists exactly the artifacts whose digests differ, in id order |
| `ForkDiff.ChangesMean` | source/workflow_event_log.py:379-391 | An artifact is listed, once and in id order, exactly when its two digests differ, a missing one read as empty; the row has the parent's and the fork's digest and says added when the parent has none, removed when the fork has none, changed otherwise |
| `ForkDiff.PatchedParentIsFork` | source/workflow_event_log.py:379-391 | Patching the parent's digests with the listed changes gives the fork's, a missing artifact read as an empty digest |
| `ForkDiff.TypeDeltasSumToEventDelta` | source/workflow_event_log.py:392-407 | The event-type deltas add up to the event delta, for given and for inferred fork ids |
| `ForkDiff.SwapNegates` | source/workflow_event_log.py:370-407 | Swapping fork and parent negates every delta and turns added into removed on every log exactly when both ids are given |
| `ForkDiff.InferredPairIsFirst` | source/workflow_event_log.py:360-367 | The inferred pair is that of the first event that names both sides, each in its marker or itself where the marker does not, and empty when there is none |
| `ForkDiff.ForkSeesOwnEvents` | source/workflow_event_log.py:346-347 | Each side of the diff sees exactly its own fork's events, each as often as the log has it |
| `ForkReport.ReportCounts` | source/workflow_event_log.py:370-407 | The report compares the given ids, or the inferred one where none is given; its deltas are the counts of the log's events on the fork's side minus those on the parent's, in all and by each type that occurs |
| `ForkReport.ReportArtifacts` | source/workflow_event_log.py:370-407 | Its rows are the artifacts whose last digests on the two sides differ, with both digests and the label for the side that has none |
| `JsonPointer.UnescapeEscape` | source/http_mcp_contract_parity.py:36-36 | The two-pass unescape undoes escaping for every key |
| `JsonPointer.JsonPointerGet` | source/http_mcp_contract_parity.py:29-48 | The walk over the parts computes the pointer's value or nothing |
| `JsonPointer.PointerReadsPath` | source/http_mcp_contract_parity.py:29-48 | Evaluating the encoding of a path returns the value there, or nothing when there is none, except that the single empty key reads the whole document |
| `JsonPointer.IndexFromEnd` | source/http_mcp_contract_parity.py:41-45 | An index counted from the end of a list reads the same item as the one from the start, and an index beyond either end reads nothing |
| `JsonPointer.EmptyKeyIsNotReached` | source/http_mcp_contract_parity.py:29-31 | Concretely, a document with an empty key is returned instead of what it holds there |
| `JsonPointer.KeyPathsReadExactly` | source/http_mcp_contract_parity.py:29-48 | Reading back is exact for all documents just when the path is not the single empty key |

## Left out

- RunSafety.TrackedExactly: the file system refuses nothing but what the tree itself excludes; permissions, name lengths, null bytes and partial writes are not part of the model.
- Runner.DirectBaselineRunner.Run: called once on a new runner, as the suite does; byte and token counters, elapsed times, `_metrics`, `_suite_summary` and report rendering are left out, and so is `git init`, which adds ignored paths only.
- Runner.DirectBaselineRunner.RunCommandAction: a command edits the repository only, and leaves text files that UTF-8 can decode.
- Runner.DirectBaselineRunner.PerformAction: the search pattern and its globs are a given yes or no per action; `fnmatch` patterns are arbitrary predicates on paths.
- RunGuarantees.UncountedRunChangesNothing: trees are compared by content where the code compares SHA-256 digests of it; artifact texts are compared without universal-newline translation.
- Workspace.NormalizedIsLocated: symbolic links are not part of the model.
- `run_agent_hook`, fixture loading and fixture validation: process plumbing and field checks.
- MetadataDiff.DiffValues: paths are lists of keys and indexes and a missing side is an option, where the code writes dotted strings and "<missing>"; `_short_value` truncation is left out.
- Catalog.RefreshCatalogDigests: the object under the whole digest is the list of its values in a fixed order of its keys; a float is its whole part and a code for the rest, without negative zero and NaN.
- CatalogCompare.BuiltItems: how the builder reads a name and canonical metadata off a live item is an arbitrary function of the item; the document's constant fields are given.
- The metadata lints, `_lint_x_mcp_headers` among them, and the documentation references: field checks over given patterns.
- ReviewScoring.RecallPassesExactly: ratios are exact rationals where the code rounds the quotient to a double first.
- ReviewMatching.FirstMatchingFinding: findings and expectations are given normalised and lower-cased; evidence paths and `should_not_flag` annotations do not enter the verdict and are left out.
- ContextRetrieval.EvaluateSearchRun: scores are exact reals where the code has floats, over any function that is a square root on natural numbers; lower-casing is that of ASCII letters; the lines around an anchor are given, and reading them from the file is left out, and so are rendered results, output estimates and the recommendation.
- `evaluate_context_retrieval`: it applies the same metrics to lists that another module selects.
- LockText.ValidateLockText: lower-casing is that of ASCII letters; error messages are error cases.
- LockRoundTrip.FormatThenValidate: the constant header lines, the target and the time of generation are given comment texts, each on one line.
- LockStore.LockProject.RefreshLocks: the resolver's answer and the digest function are given; a manifest is a structured value whose entries have all their fields or are no object; the closing call of `check` is the method beside it.
- EventLog.ProjectLineage: the timeline, the event-type counts and the checkpoint rows are left out, as are reading, numbering, normalising and redacting the log.
- JsonPointer.JsonPointerGet: Python's `int` on a list index is a given function that reads decimal digits back; the parity report's counting and doc-surface comparison are left out.
- `validate_against_schema` and `make_tool_error` in source/tool_output_schemas.py: a recursive check that is its own definition, and one constant-shaped value.
- source/server.py is not part of this model.
