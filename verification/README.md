# Verification model of the code-graph measurement harness

code-graph is judged by Python programs: runners that spend money on retrieval and agent experiments and must survive being
killed, resolvers that turn raw syntactic call edges into an oracle, statistics, and gates in front of published reports and
releases. This project models those programs in Dafny and proves what they promise. Each module follows one component.

| file | component |
|---|---|
| `Outcomes`, `Text` | shared types; the string operations the sources use (split, join, strip, splitlines) |
| `DurableReplace` | the checkpoint writer over a file system with volatile and durable layers |
| `RetrievalArtifact` | retrieval cases, exact costs, the artifact builder and the resume loader |
| `ShardRun`, `RowCase`, `Shard`, `Resumption`, `RowsDecide` | the shard loop as a step machine and as the loop it is, and what it records for a row; resuming from any checkpoint, and the shards that survive it |
| `RunnerSystem`, `LaunchAlone` | launches, work, I/O steps, kills and power losses put together; a launch left alone and what it erases |
| `Retries` | running an operation again while its error is transient |
| `GraphBatch`, `GraphCase`, `BatchChain` | the graph batch: evaluation, counters, budget, write-ahead checkpoints, and what an instance records and costs; its resume file and chains of runs |
| `CallEdges`, `RustResolver`, `RustBuckets`, `GoResolver`, `GoBuckets`, `GoOrder`, `GoVerdicts` | the two call resolvers, which counter every call goes to, and the Go resolver's dependence on order |
| `Kappa`, `KappaCount`, `AnnotatorGate` | inter-annotator agreement, its value counted by hand, and the gate built on it |
| `Gini`, `EdgeMetrics`, `EdgeKeys`, `KeyMeaning`, `ProjectMetrics`, `ProjectName` | the accuracy comparison, and what its keys make of a name |
| `Scorer`, `ScorerMeaning`, `ReportGate`, `GateReport`, `GateOrder`, `Provenance` | the multi-mode report: scorer, refusal gate, manifest table; what hits, and what is reported and in which order, on strings and results themselves |
| `ReleaseVersion` | release tags |

Objects the sources update in place (the batch summary) are classes; their loops are methods proved against functions; the
theorems are lemmas about those functions and about a state machine's reachable states. Money is counted in integer
micro-dollars, shares and rates are exact rationals. External calls (git, the engine, search, the agent) are either a fixed
outcome of the row or arbitrary.

## What the model found

- Crash-resume equivalence is not a property of every shard, because a resumed run enters a repository from scratch. A
  `repo_too_large` bail-out skips the rest of its repository, and the resumed run does not know (`Resumption.OversizedPairDiverges`);
  a clone that was there has to be made again, and may fail (`RowsDecide.LateCloneDiverges`); and a row indexed on top of an
  earlier one is indexed in full, and paid for (`RowsDecide.ResumingPaysForFullIndex`). With the world's answers fixed per row,
  `Resumption.ResumesExactly` states exactly for which runs resuming is safe, and `RowsDecide.RowsDecideResumption` exactly for
  which rows it is, whatever the budget; neither assumes anything of the rows but distinct expected IDs.
- A checkpoint the implicit resume rejects is overwritten by the refusal (`bench/research/armC_retrieval.py:1582-1604`); the
  next launch then starts from no cases and spends again. `LaunchAlone.RejectionErasesExactly` says for which checkpoints, and
  `LaunchAlone.ErasureIsReached` reaches one from the start. A launch refused earlier, for a missing credential say, erases
  even a checkpoint it could have continued.
- With exactly two annotators no item is rejected by both, so kappa is 1 or at most 0 and the gate accepts only identical
  annotations, whatever the threshold in (0, 1]. See `AnnotatorGate.GateOnTwoMeansIdentical`.
- The Go resolver recognises a file as a package only through the first definition of each name. With `a.f`, `b.f` and `c.g`,
  the call `b.g` is kept when `b.f` is listed before `a.f` and dropped when it is not (`GoOrder.CallFlipsAtNames`);
  `GoVerdicts.VerdictsDependOnOrder` says for which definitions the order matters to no verdict, and
  `GoOrder.FileSegmentsDependOnOrder` for which it does not even matter to the files known.
- The key that strips `Impl` suffixes and type parameters needs two rounds on `FooImpl<S>.bar`;
  `EdgeKeys.CanonicalIsIdempotentExactly` lists the names that need two. A relaxed metric can score below the one it relaxes,
  because two confirmed edges can merge: `EdgeMetrics.LowersExactly` says for which keys, `EdgeMetrics.RelaxingNeverHurts` gives
  the edge sets on which no key does.
- The report's monotonicity gate cannot fire on results its own scorer produced; and with no indexed instance none of its gates
  runs, the provenance comparison included, although its documentation lists that comparison without the exception. See
  `ReportGate.ScorerSilencesMonotonicity` and `ReportGate.ProvenanceRefusedExactly`.
- The release order departs from Semantic Versioning 2.0.0, section 11, exactly for a candidate against a legacy tag of the same
  base whose word sorts behind `rc`. See `ReleaseVersion.AgreesWithSemverExactly`.

## Model

| member | source | states |
|---|---|---|
| DurableReplace.AtomicReplace | bench/research/armC_retrieval.py:599-616 | however the kernel writes back and wherever the call stops, readers now and after a power loss find exactly the old or exactly the new payload, and the new one on both once the call has returned |
| DurableReplace.PowerCutAnywhere | bench/research/eval_locbench_batch.py:197-214 | the state a crash leaves at any point is one the next process can start a write from, holding the old or the new payload |
| DurableReplace.EarlyPhasesChangeNothing | bench/research/armC_retrieval.py:603-609 | until the rename nobody can see, now or after a crash, that a write is under way |
| DurableReplace.HappenAllKeepsInv | bench/research/armC_retrieval.py:599-616 | every run of writer and kernel events keeps the file system invariant: only allowed payloads are reachable under the checkpoint's name |
| DurableReplace.OpeningTearsExactly | bench/research/armC_retrieval.py:599-604 | opening the temporary file destroys the checkpoint exactly when both names stand for one file, and otherwise leaves it |
| DurableReplace.HalfRenamedIsReached | bench/research/armC_retrieval.py:599-616 | from every quiescent file system a directory write-back during the dump leads to a state after the rename in which the temporary name is durable and stands for the new payload |
| DurableReplace.EntriesApartLoseCheckpoint | bench/research/armC_retrieval.py:599-616 | were the entries of the directory to become durable one by one, a power loss there would leave both names on one file, and a later process of the same number would truncate the checkpoint |
| RetrievalArtifact.ValidatePersistedCosts | bench/research/armC_retrieval.py:243-327 | one pass accepts exactly the artifacts whose case costs are valid exact sums and whose total is their sum, and otherwise names the first fault: the artifact's own amount, the first faulty case with the first check it fails, or the sum |
| RetrievalArtifact.ConstructedCostsAreValid | bench/research/armC_retrieval.py:814-856 | cases from the success and from the failure constructor carry costs the validator accepts, at the declared prices |
| RetrievalArtifact.BuildAccepts | bench/research/armC_retrieval.py:989-1048 | the builder accepts exactly distinct expected IDs, and then the artifact's total is the exact sum and it is complete exactly when every expected ID is recorded, nothing aborted and no case is invalid |
| RetrievalArtifact.BuiltArtifactReloads | bench/research/armC_retrieval.py:1051-1118 | what the builder wrote reloads to the same cases under the same contract, is refused when the experiment was invalid, and is refused under any other contract |
| RetrievalArtifact.LoadedCasesAreSound | bench/research/armC_retrieval.py:1080-1118 | nothing reloads but distinct expected IDs with exact costs and no invalid case |
| RetrievalArtifact.DistinctWithinCovers | bench/research/armC_retrieval.py:1017-1048 | as many distinct expected IDs as were expected are all of them, which is why comparing counts decides completeness |
| ShardRun.StepKeepsRunInv | bench/research/armC_retrieval.py:1619-1864 | every step keeps the run invariant: distinct recorded IDs drawn from the expected ones, at most one invalid case and only last, no extension after it |
| ShardRun.FinalKeepsRunInv | bench/research/armC_retrieval.py:1619-1864 | the invariant holds where the loop ends, from every state that has it |
| ShardRun.CheckpointNeverFails | bench/research/armC_retrieval.py:1609-1617 | in every reachable state the checkpoint call cannot hit its duplicate or foreign ID errors |
| ShardRun.ExitCodeMeaning | bench/research/armC_retrieval.py:1877-1880 | exit 0 means exactly that every expected ID has its one record and nothing aborted; 2 exactly that the last case is invalid |
| ShardRun.BudgetIsHeld | bench/research/armC_retrieval.py:1629-1636 | before every started case the recorded total is strictly below the allocation, so the final total exceeds it by less than the last case's cost |
| ShardRun.RunShard | bench/research/armC_retrieval.py:1619-1880 | the nested loops end in the machine's final state, and hand the writer one artifact after every recorded case holding exactly the cases so far, and a last one; what each case says and costs is `RowCase.TryDescribes` |
| RowCase.TryDescribes | bench/research/armC_retrieval.py:1657-1830 | on the row and the two flags alone: a case is indexed exactly when its tree was made ready and the index operation it gets succeeds, and ok exactly when the search then finds; its hits, its chunks, its exact cost (80 micro-dollars a chunk and 20000 for the query of every indexed row, found or not), the class and code of the stage that failed, and both flags afterwards |
| RowCase.RunDescribes | bench/research/armC_retrieval.py:1619-1880 | every case a shard run adds to the loaded ones is such a case of one of its rows |
| Resumption.ResumesExactly | bench/research/armC_retrieval.py:1583-1720 | for all distinct expected rows and all outcomes, resuming from every checkpoint reproduces the cases and the abort decision if and only if no step of the run loses a row in a bail-out or records a row otherwise than a run that has just entered the repository would |
| Resumption.OversizedPairDiverges | bench/research/armC_retrieval.py:1663-1700 | two rows of one oversized repository: the second is recorded only by a resumed run |
| Resumption.RestartKeepsUp | bench/research/armC_retrieval.py:1625-1720 | a run restarted within a repository, whatever of its clone and index it has made good since, records the same as one that loses and shifts no row |
| Resumption.PrefixesResume | bench/research/armC_retrieval.py:1583-1606 | every loadable prefix of the cases of a run that loses and shifts no row resumes to the same outcome |
| Resumption.LostRowReturns | bench/research/armC_retrieval.py:1681-1700 | the run resumed after a losing bail-out records one of the lost rows next |
| Resumption.LostRowsStayLost | bench/research/armC_retrieval.py:1681-1700 | the run that bailed out never records a row of that repository again |
| RowsDecide.RowsDecideResumption | bench/research/armC_retrieval.py:1657-1745 | for all distinct expected rows, resuming reproduces the undisturbed run at every checkpoint and for every budget exactly when every repository in which a row clashes with an earlier one stands behind an invalid row; they clash when the earlier one can be cloned and is too large, or the later one cannot be cloned, is too large, cannot be checked out, or is indexed otherwise from scratch than on top |
| RowsDecide.StraysExactly | bench/research/armC_retrieval.py:1657-1745 | going through a repository row by row with the two flags, a row is shifted or lost exactly when some row clashes with an earlier one or with what the flags say was done |
| RowsDecide.PairResumesExactly | bench/research/armC_retrieval.py:1657-1745 | two rows of one repository resume identically from every checkpoint and for every budget exactly when the first is invalid or they do not clash |
| RowsDecide.LateCloneDiverges | bench/research/armC_retrieval.py:1657-1679 | nothing is oversized, and still the second row is found by the undisturbed run and `clone_failed` by the resumed one |
| RowsDecide.ResumingPaysForFullIndex | bench/research/armC_retrieval.py:1722-1745 | nothing fails, and still the resumed total exceeds the undisturbed one by the price of the chunks an incremental index would have saved |
| RowsDecide.SafeMeans | bench/research/armC_retrieval.py:1657-1745 | the recursive check along the run is that condition on repositories and their predecessors |
| Shard.GroupRows | bench/research/armC_retrieval.py:1559-1561 | the loop that fills the dictionary of rows by repository computes the grouping function |
| Shard.GroupingIsFaithful | bench/research/armC_retrieval.py:1559-1561 | grouping neither loses, invents nor reorders rows of a repository, and lists every repository once |
| Shard.ShardSurvivesKills | bench/research/armC_retrieval.py:1559-1880 | a run over grouped rows resumes identically from every checkpoint and for every budget if no row clashes with an earlier one of its repository, and, where no row is invalid, only then |
| RunnerSystem.BehaviourKeepsInv | bench/research/armC_retrieval.py:1582-1880 | every sequence of launches, work, I/O steps, kills and power losses keeps the system invariant, for all distinct expected rows whose outcomes may differ from launch to launch; with a common goal, every run stays on course to it |
| RunnerSystem.EveryFinishAgrees | bench/research/armC_retrieval.py:1051-1118 | however often the runner is killed, loses power, fails I/O or is refused, a launch that reaches the end has the cases, cost and abort decision of the undisturbed run, when every launch's own undisturbed run loses and shifts no row and would give that outcome |
| RunnerSystem.CheckpointIsAlwaysWhole | bench/research/armC_retrieval.py:599-617 | for all distinct expected rows, at every moment what a reader sees and what a power loss would leave is nothing, one complete artifact of distinct expected exactly costed cases, or a refusal; with a common goal the cases are a prefix of it |
| RunnerSystem.NothingStartsUnsaved | bench/research/armC_retrieval.py:1846-1853 | for all distinct expected rows, a launch that goes on after recording a case has all its cases on disk |
| LaunchAlone.SettleEnds | bench/research/armC_retrieval.py:1582-1880 | a process left alone comes to its end, and the artifact its run, its closing or its refusal comes to is durable then, with the exit code |
| LaunchAlone.LeftAloneReachesGoal | bench/research/armC_retrieval.py:1846-1880 | after any history, a run in progress left alone from then on, and likewise the next launch that is not refused, ends with the undisturbed run's artifact durable and its exit code given |
| LaunchAlone.RejectionErasesExactly | bench/research/armC_retrieval.py:1051-1118 | for every checkpoint the builder wrote, the next launch left alone replaces it durably by a refusal and the one after starts from no cases if and only if provenance or expected IDs differ, a case is invalid or the abort is; otherwise its cases are continued |
| LaunchAlone.RefusedLaunchErases | bench/research/armC_retrieval.py:1475-1580 | a launch refused before loading replaces any checkpoint durably, and the launch after it starts from no cases |
| LaunchAlone.ErasureIsReached | bench/research/armC_retrieval.py:1582-1604 | from an empty disk, one launch over one invalid row leaves a checkpoint with an invalid case that the next launch erases |
| Retries.RunWithTransientRetries | bench/research/armC_retrieval.py:547-592 | the attempts made are exactly those up to the first success, the first lasting error or the limit; each is logged once, only the last is not retried, and the waits start at the given delay and double one by one |
| Retries.StopIsUnique | bench/research/armC_retrieval.py:558-592 | there is only one attempt at which the loop may stop |
| GraphBatch.ScoreItem | bench/research/eval_locbench_batch.py:879-902 | the flags one ground truth item switches on are the mentions of its file, class and function |
| GraphBatch.Score | bench/research/eval_locbench_batch.py:879-902 | each flag holds exactly when some item is mentioned that way |
| GraphBatch.EvaluateInstance | bench/research/eval_locbench_batch.py:905-1114 | the result built field by field, or by the exception path, is the evaluation of the instance; `GraphCase` says on the world's answers what that records and costs |
| GraphBatch.EvaluationIsSound | bench/research/eval_locbench_batch.py:905-1098 | hits need an agent answer, an answer needs an index and carries no failure, only answers cost and none negatively, and an answer is recorded exactly when every stage before it went through |
| GraphCase.MentionedExactly | bench/research/eval_locbench_batch.py:879-902 | an item counts as mentioned exactly when its file, the class of a dotted name, or the last part of its name occurs in the output |
| GraphCase.AnswerExactly | bench/research/eval_locbench_batch.py:1016-1071 | an answered instance records the reply's tokens, costs one micro-dollar per input token and five per output token, or 50000 without any, and has each hit exactly when the reply mentions some item at that level |
| GraphCase.FailureExactly | bench/research/eval_locbench_batch.py:905-1041 | an instance without an answer records the class, code and indexed flag of the stage that failed first, without hits, tokens or cost |
| GraphCase.SpendingExactly | bench/research/eval_locbench_batch.py:294-309 | a batch has spent what it had spent when it resumed, and the charges of exactly the instances evaluated since, in order |
| GraphBatch.BatchSummary.Record | bench/research/eval_locbench_batch.py:294-309 | recording appends the result, updates every counter by its share and says whether to go on |
| GraphBatch.BatchSummary.Replay | bench/research/eval_locbench_batch.py:1503-1533 | clearing and recording every resumed case again restores every counter |
| GraphBatch.TallyCounts | bench/research/eval_locbench_batch.py:281-309 | each of the five counters is the number of recorded instances with its flag, and each of the three totals the sum over the recorded instances |
| GraphBatch.CountersAreOrdered | bench/research/eval_locbench_batch.py:281-309 | hits never outnumber the agent's answers, and answers never outnumber indexed instances |
| GraphBatch.RunInstance | bench/research/eval_locbench_batch.py:1552-1601 | one pending instance is started, evaluated, recorded and checkpointed, or its interruption is checkpointed, and everything the loop keeps is kept |
| GraphBatch.RunLoop | bench/research/eval_locbench_batch.py:1552-1601 | the loop evaluates the pending instances in order until budget, invalidity or interruption, and starts none before a checkpoint with all earlier ones was written |
| GraphBatch.RunBatch | bench/research/eval_locbench_batch.py:1503-1626 | a batch records the resumed instances and then a prefix of the pending ones, with write-ahead and the budget held; the counters are a fold over them and ordered, and every checkpoint holds a prefix of them |
| BatchChain.LoadsExactly | bench/research/eval_locbench_batch.py:1174-1216 | any file at all is loaded exactly when its contract is this one, nothing in it is invalid, no cost is negative, and its IDs are different expected ones; otherwise the error names the first of these that fails |
| BatchChain.RunContracted | bench/research/eval_locbench_batch.py:1503-1626 | a rejected resume file ends the run before anything happens; otherwise the batch continues the loaded instances, and every checkpoint it writes is a file that holds them and evaluations of the first pending rows, none of them after a reason to stop; a run that was neither interrupted nor failed to write had one |
| BatchChain.ChainReloadsExactly | bench/research/eval_locbench_batch.py:1174-1216 | what any chain of runs leaves, whatever the world answered each time, reloads to the same instances exactly when it holds no invalid one and the contract is the same; its IDs are distinct and expected and its counters ordered |
| BatchChain.NextSummaryIsOrdered | bench/research/eval_locbench_batch.py:281-309 | in the summary of any run of any chain hits never outnumber answers, answers never outnumber indexed instances, and no ID is recorded twice |
| BatchChain.ChainedRunsContinue | bench/research/eval_locbench_batch.py:1552-1601 | a run that resumes from the first rows' evaluations continues them: together the two are again the evaluations of the first rows, in order, none twice |
| BatchChain.ChainContinues | bench/research/eval_locbench_batch.py:1503-1626 | however a batch over the same rows was cut into runs, the file left last holds the evaluations of the first rows, in order, none twice, and none after a reason to stop |
| BatchChain.ChainIsOneRun | bench/research/eval_locbench_batch.py:1503-1626 | however a batch over the same rows and budget was cut into runs, once its last run stops by itself the file holds exactly what one run nobody interrupted records |
| BatchChain.EndIsUnique | bench/research/eval_locbench_batch.py:1552-1601 | there is one point at which runs over the same rows and budget may stop by themselves |
| CallEdges.OneLabelled | bench/accuracy/oracle_rust_syn.py:144-164 | an index holds exactly one definition for a name just when that definition is the sole one |
| CallEdges.KeptSubsequence | bench/accuracy/oracle_rust_syn.py:304-402 | verdicts that agree wherever the first list keeps an edge give a subsequence of the second list's edges |
| RustResolver.BuildDefMap | bench/accuracy/oracle_rust_syn.py:144-164 | the map built in place indexes the definitions by bare name and by their last two segments |
| RustResolver.BuildImports | bench/accuracy/oracle_rust_syn.py:195-221 | the first pass builds, per module, the last import of every name |
| RustResolver.CallerModule | bench/accuracy/oracle_rust_syn.py:223-240 | popping segments one by one finds what the specification calls the longest module |
| RustResolver.LongestModuleIsLongest | bench/accuracy/oracle_rust_syn.py:223-240 | that is the longest segment-aligned prefix of the caller that emitted imports, or empty when none did |
| RustResolver.JudgeEdge | bench/accuracy/oracle_rust_syn.py:312-400 | the branch cascade on the built tables gives the verdict the definitions and imports prescribe; `RustBuckets` says which counter that is, on the definitions and imports themselves |
| RustResolver.ResolveAndFilter | bench/accuracy/oracle_rust_syn.py:167-402 | every counter counts its verdicts and the kept list is that of the keep verdicts in order |
| RustResolver.KeptExactly | bench/accuracy/oracle_rust_syn.py:312-400 | an edge is kept exactly when it is an internal call with a sole admissible definition, and then it points there |
| RustResolver.KeptEdgesAreSound | bench/accuracy/oracle_rust_syn.py:304-402 | every kept edge targets an existing definition that is the only candidate its rule admits |
| RustResolver.CountersConserve | bench/accuracy/oracle_rust_syn.py:304-402 | every CALLS edge lands in exactly one call counter, every IMPORTS edge in its own, and the kept edges are those counted as resolved |
| RustResolver.CargoOnlyRemoves | bench/accuracy/oracle_rust_syn.py:242-345 | what is kept under any cargo classification is a subsequence of what is kept without one |
| RustBuckets.BareBuckets | bench/accuracy/oracle_rust_syn.py:312-345 | a bare call goes to the chain counter exactly when its chain root is a foreign crate, else to the import counter exactly when the innermost importing module last brought the name from one, else unresolved, ambiguous or resolved exactly as no, two or one position of the definitions ends in the name |
| RustBuckets.ScopedBuckets | bench/accuracy/oracle_rust_syn.py:346-400 | a scoped call is external, ambiguous or resolved exactly as no, two different or one definition is that method of that type |
| RustBuckets.ImportedIsExternal | bench/accuracy/oracle_rust_syn.py:195-300 | a call counts as imported from outside exactly when the innermost module around the caller that imports anything has the name, by its last import of it, from an external crate that is not of the workspace |
| GoResolver.BuildDefIndexes | bench/accuracy/oracle_go_ast.py:114-155 | the two tables filled in one loop index the project's definitions by simple name and by receiver and method |
| GoResolver.BuildDefMap | bench/accuracy/oracle_go_ast.py:92-111 | the map knows exactly the non-empty last segments of the definitions, and for each the first definition that has it |
| GoResolver.ResolveAndFilter | bench/accuracy/oracle_go_ast.py:158-316 | every counter counts its verdicts and the kept list is that of the keep verdicts in order |
| GoResolver.KeptExactly | bench/accuracy/oracle_go_ast.py:231-316 | an edge is kept exactly when one of the three rules admits its target as the only candidate |
| GoResolver.KeptEdgesAreSound | bench/accuracy/oracle_go_ast.py:231-316 | every kept edge targets a definition of the project by one of the rules |
| GoResolver.CountersConserve | bench/accuracy/oracle_go_ast.py:231-316 | every CALLS edge lands in exactly one call counter and the kept edges are those counted as resolved |
| GoBuckets.BareBuckets | bench/accuracy/oracle_go_ast.py:231-316 | a bare call is unresolved, ambiguous or resolved exactly as no, two or one position of the definitions is the project's and ends in the name |
| GoBuckets.TwoPartBuckets | bench/accuracy/oracle_go_ast.py:231-316 | a call `a.b` is ambiguous or resolved by receiver exactly as two or one of the project's definitions end in that `Type.method`; with none it is resolved by path exactly when `a` is a known file and one definition bears `b`, and dropped otherwise |
| GoBuckets.LongPathBuckets | bench/accuracy/oracle_go_ast.py:231-316 | a call in three or more parts is dropped |
| GoOrder.FilesAreSegments | bench/accuracy/oracle_go_ast.py:200-217 | the resolver's file segments are the files of the definitions that come first under their last segment |
| GoOrder.FileSegmentsDependOnOrder | bench/accuracy/oracle_go_ast.py:200-217 | the files known are the same for every order of the definitions exactly when every file that holds a named definition has a last segment no definition elsewhere shares |
| GoOrder.CallFlips | bench/accuracy/oracle_go_ast.py:231-316 | with two files that share a name and a third file's own name, the call to the latter through the second file is kept when that file comes first and dropped when it does not |
| GoOrder.CallFlipsAtNames | bench/accuracy/oracle_go_ast.py:231-316 | such definitions exist for every project, three files and two names |
| GoVerdicts.VerdictsDependOnOrder | bench/accuracy/oracle_go_ast.py:200-316 | every edge gets the same verdict for every order of the definitions exactly when nothing is reached through a file without a name of its own: no definition that alone bears its simple name and whose call through that file no `Type.method` matches |
| GoVerdicts.JudgedAlike | bench/accuracy/oracle_go_ast.py:231-316 | in two orders an edge gets the same verdict exactly when every file it goes through to a sole bearer is known in both or in neither |
| Kappa.CohenKappa | bench/accuracy/check_hand_oracle_kappa.py:72-100 | the counting loops compute the statistic of the paired labels, or the length error; its value is `KappaCount.KappaExactly` |
| Kappa.KappaBounds | bench/accuracy/check_hand_oracle_kappa.py:72-100 | for any labels over any number of categories kappa lies in [-1, 1] and is 1 exactly for identical vectors, empty and certain-chance cases included |
| KappaCount.KappaExactly | bench/accuracy/check_hand_oracle_kappa.py:72-100 | of n items let A be the number of positions with equal labels and P the number of pairs of positions at which one's label is the other's: kappa times (n² - P) is nA - P, and kappa is 1 when P is n² |
| Kappa.KappaIsSymmetric | bench/accuracy/check_hand_oracle_kappa.py:72-100 | swapping the annotators changes nothing |
| Kappa.KappaIgnoresOrder | bench/accuracy/check_hand_oracle_kappa.py:72-100 | reordering the items changes nothing |
| Kappa.ChanceBounds | bench/accuracy/check_hand_oracle_kappa.py:88-97 | with M the share of the most used category, chance agreement is at most M and observed agreement at least 2M - 1; chance is certain only when everyone always says the same |
| Kappa.ProductsAreOrderFree | bench/accuracy/check_hand_oracle_kappa.py:88-97 | neither the order of the categories nor unused ones matter to chance agreement |
| AnnotatorGate.BuildLabelVectors | bench/accuracy/check_hand_oracle_kappa.py:103-127 | the vectors label every item of the union of topics, once, for every annotator |
| AnnotatorGate.OrderDoesNotMatter | bench/accuracy/check_hand_oracle_kappa.py:103-127 | any two orders of the universe give the same kappa |
| AnnotatorGate.KappaOfMarks | bench/accuracy/check_hand_oracle_kappa.py:72-127 | kappa of two annotators over any universe from four counts: of n items one lists x, the other y, both s, so they agree on n - x - y + 2s and by chance xy + (n - x)(n - y) times |
| AnnotatorGate.Gate | bench/accuracy/check_hand_oracle_kappa.py:197-216 | in whatever order the universe is taken, the exit code is 0 exactly when there are fewer than two annotators, or the threshold is at most 1 and every pair's kappa reaches it |
| AnnotatorGate.KappaWithoutIdleItems | bench/accuracy/check_hand_oracle_kappa.py:72-127 | when no item is "no" for both, kappa is 1 for identical vectors and at most 0 otherwise |
| AnnotatorGate.TwoAnnotators | bench/accuracy/check_hand_oracle_kappa.py:103-127 | exactly two annotators make the universe the union of their topics, so kappa is 1 if they list the same topics and at most 0 if not |
| AnnotatorGate.GateOnTwoMeansIdentical | bench/accuracy/check_hand_oracle_kappa.py:197-216 | for every threshold in (0, 1] the gate on two annotators passes exactly when they list the same topics |
| Gini.ComputeGini | bench/accuracy/compare.py:874-893 | the double loop computes the coefficient, with its three zero cases |
| Gini.GiniBounds | bench/accuracy/compare.py:874-893 | for non-negative shares the coefficient lies in [0, (n-1)/n], is 0 exactly when all shares are equal, and reaches the top exactly when one share holds everything |
| Gini.GiniIgnoresOrder | bench/accuracy/compare.py:874-893 | permuting the shares changes nothing |
| Gini.GiniIgnoresScale | bench/accuracy/compare.py:874-893 | multiplying all shares by a positive factor changes nothing |
| Gini.SortedFormula | bench/accuracy/compare.py:889-893 | the quadratic double sum equals twice the linear rank-weighted sum over the sorted shares |
| EdgeMetrics.AlignmentDropsOnlyFalsePositives | bench/accuracy/compare.py:1221-1262 | scope alignment leaves true positives and false negatives as they are and removes exactly the false positives of unanalysed or test callers |
| EdgeMetrics.AlignmentNeverHurts | bench/accuracy/compare.py:1221-1311 | recall is unchanged, precision and F1 never fall, and both rise once a false positive goes beside a true one |
| EdgeMetrics.F1FromCounts | bench/accuracy/compare.py:1300-1311 | the harmonic mean of precision and recall is 2tp / (2tp + fp + fn), zero cases included |
| EdgeMetrics.HighConfidenceTrades | bench/accuracy/compare.py:1275-1284 | dropping speculative edges turns true positives into false negatives one for one, adds nothing and never raises recall |
| EdgeMetrics.KeyMapsNeverAddErrors | bench/accuracy/compare.py:1287-1357 | for every key map on both sides, what is unmatched afterwards is the image of something unmatched before, so neither error count grows |
| EdgeMetrics.RelaxingNeverHurts | bench/accuracy/compare.py:1287-1357 | on edge sets whose confirmed edges the key tells apart, whatever it does to all others, precision, recall and F1 never fall |
| EdgeMetrics.LowersExactly | bench/accuracy/compare.py:1287-1357 | a key lowers some score of some pair of edge sets exactly when it rejects an edge, or merges two edges while a third has another image |
| EdgeMetrics.SeparatingKeysChangeNothing | bench/accuracy/compare.py:1287-1357 | on edge sets the key tells apart altogether it leaves every score exactly as it was |
| EdgeMetrics.MergingLowersScores | bench/accuracy/compare.py:1312-1325 | a key that merges two confirmed edges beside a wrong one lowers precision and F1 |
| EdgeKeys.NormalizeGenerics | bench/accuracy/compare.py:576-598 | the loop over the segments computes the bracket-free name |
| EdgeKeys.ForgivingMetricsAddNoErrors | bench/accuracy/compare.py:1287-1357 | the suffix, impl, generic and canonical metrics never report more false positives or negatives than the comparison they relax |
| KeyMeaning.BySuffixExactly | bench/accuracy/compare.py:564-573 | an edge's suffix key keeps its kind and holds the last three segments of both names, and there is none when a name has fewer |
| KeyMeaning.ImplExactly | bench/accuracy/compare.py:601-626 | behind any front the last but one segment loses its `Impl` exactly when something stands before it, and nothing else changes |
| KeyMeaning.GenericsOfOne | bench/accuracy/compare.py:576-598 | a segment becomes the name before its bracket exactly when there is a name, a bracket and a closing bracket at its end, and stays otherwise |
| KeyMeaning.GenericsByParts | bench/accuracy/compare.py:576-598 | type parameters are stripped segment by segment |
| KeyMeaning.RenamedExactly | bench/accuracy/compare.py:1312-1357 | the three renaming keys rename caller and callee and keep the kind, the canonical one suffix first |
| EdgeKeys.GenericsIsIdempotent | bench/accuracy/compare.py:576-598 | stripping type parameters twice is stripping them once |
| EdgeKeys.ImplIsIdempotentExactly | bench/accuracy/compare.py:601-626 | one round of suffix stripping is enough exactly when the last but one segment does not end in `ImplImpl` with something in front of it |
| EdgeKeys.CanonicalIsIdempotentExactly | bench/accuracy/compare.py:1347-1352 | one canonical round is enough exactly when the last but one segment is none of `FooImplImpl`, `FooImpl<...>` and `FooImpl<...>Impl` |
| EdgeKeys.CanonicalNeedsTwoRounds | bench/accuracy/compare.py:1347-1352 | for every bracketed type that ends in `Impl` the first round removes only the bracket, the second the suffix |
| EdgeKeys.ForgivingCanLowerScores | bench/accuracy/compare.py:1319-1325 | for every type and member, both spellings confirmed and one edge wrong, the impl metric scores below the metric it relaxes |
| ProjectMetrics.ComputePerProjectMetrics | bench/accuracy/compare.py:629-666 | one row per project, in order, each the comparison of the edges under its prefix |
| ProjectMetrics.RowExactly | bench/accuracy/compare.py:629-666 | the six numbers of a row, as sizes of sets of edges whose caller is the prefix or below it |
| ProjectMetrics.RowIsRestriction | bench/accuracy/compare.py:641-650 | a row is the exact comparison restricted to the project's callers, less the false positives of callers the oracle never analysed |
| ProjectMetrics.RowsAddUp | bench/accuracy/compare.py:629-666 | when no prefix extends another, the rows' columns add up to the covered part of the exact comparison, nothing counted twice |
| ProjectName.CollapseDashes | bench/accuracy/compare.py:132-133 | the replace-until-stable loop ends and equals a single pass that collapses dash runs |
| ProjectName.SanitizePath | bench/accuracy/compare.py:126-134 | the steps in this script's order compute its name function |
| ProjectName.ProjectForPath | bench/accuracy/check_cypher_semantics.py:41-55 | the steps in the other script's order compute its name function |
| ProjectName.ImplementationsAgree | bench/accuracy/check_cypher_semantics.py:41-55 | the two orders of steps give the same name for every path |
| ProjectName.NamesAreClean | bench/accuracy/compare.py:126-134 | a name is non-empty, has no separator, no double dash and no leading dash |
| ProjectName.SanitizingIsIdempotent | bench/accuracy/compare.py:126-134 | sanitising a name again changes nothing |
| Scorer.ScoreEntities | bench/research/eval_locbench_compare.py:753-824 | the nested loops raise each flag exactly when some ground truth item and some kept entity match that far |
| Scorer.ScoreIsHierarchical | bench/research/eval_locbench_compare.py:796-824 | for all entities, ground truths and lowerings a function hit is a class hit and a class hit is a file hit |
| ScorerMeaning.MethodItemExactly | bench/research/eval_locbench_compare.py:764-824 | an item `file:cls.fn` is hit exactly by an entity in that file: its class when the lowered name has `.cls` at the end or before a dot, its function when it ends in `.cls.fn` |
| ScorerMeaning.FunctionItemExactly | bench/research/eval_locbench_compare.py:764-824 | an item `file:fn` is hit, class included, exactly by an entity in that file, and its function when the lowered name ends in `.fn` |
| ScorerMeaning.MalformedItem | bench/research/eval_locbench_compare.py:764-795 | an item without a colon is hit by nothing |
| ScorerMeaning.NormalizedExactly | bench/research/eval_locbench_compare.py:753-783 | the entities compared are exactly those left with a name or a path once white space, backslashes and outer slashes are gone |
| ScorerMeaning.PathExactly | bench/research/eval_locbench_compare.py:747-750 | a path is normalised to exactly what its forward-slashed form is without slashes at the ends |
| Scorer.RightAnswerHits | bench/research/eval_locbench_compare.py:764-824 | an entity in the named file whose name is any prefix followed by the item's dotted name hits the file, and the class when the item names none, for every lowering; it hits file, class and function when lowering works on both sides of the two dots separately |
| Scorer.PathIsFixed | bench/research/eval_locbench_compare.py:747-750 | normalising a path twice is normalising it once |
| ReportGate.CheckReportInvariants | bench/research/eval_locbench_compare.py:1246-1397 | the gate's loops report exactly the specified violations in their order; `GateReport` and `ProvenanceRefusedExactly` say which these are, on the results and options themselves |
| ReportGate.CountMisses | bench/research/eval_locbench_compare.py:1347-1358 | the dictionary filled in place holds, per category in first-miss order, how often it was missed |
| ReportGate.ScorerSilencesMonotonicity | bench/research/eval_locbench_compare.py:1294-1339 | over results the scorer produced no monotonicity violation is reported, for any modes and options |
| ReportGate.RefusedExactly | bench/research/eval_locbench_compare.py:1357-1364 | refused are exactly the categories with at least 30% of at least five misses, each once |
| ReportGate.AtMostThreeRefused | bench/research/eval_locbench_compare.py:1341-1371 | at most three categories are refused per mode and column |
| ReportGate.SomeCategoryIsRefused | bench/research/eval_locbench_compare.py:1341-1371 | five or more misses in at most three categories always give a refusal |
| ReportGate.CellRefusals | bench/research/eval_locbench_compare.py:1341-1371 | both bounds for every mode and column of any results, as the report shows them |
| GateReport.DominantCellExactly | bench/research/eval_locbench_compare.py:1341-1371 | a dominant cell is reported exactly when something is indexed, cells are not waived, the mode was run, and of the at least five indexed instances whose first result there misses the column at least one and at least 30% are of the category; with exactly these two numbers |
| GateReport.NonMonotoneExactly | bench/research/eval_locbench_compare.py:1294-1339 | a non-monotone rate is reported exactly when the mode was run and the finer hit rate over its instances exceeds the coarser by more than 0.05, marked accepted exactly when the option says so |
| GateReport.NotesExactly | bench/research/eval_locbench_compare.py:1381-1396 | the two complaints about the comparator's note come exactly when it is named and no note given, and when the note given is not there |
| GateOrder.ReportedInOrder | bench/research/eval_locbench_compare.py:1290-1396 | violations come gate by gate; within a gate by mode, within a mode by column, the cells of a column as their categories were first missed, and the provenance fields in the order they are compared |
| GateOrder.ReportedOnce | bench/research/eval_locbench_compare.py:1290-1396 | over different modes nothing is reported twice, so that with the conditions above the report is determined |
| ReportGate.ProvenanceRefusedExactly | bench/research/eval_locbench_compare.py:1373-1379 | against a written baseline and without an override, a refusal for provenance is reported exactly when an instance was indexed and some compared field differs |
| Provenance.RenderProvenanceTable | bench/research/eval_locbench_compare.py:1162-1177 | the lines appended one by one are the table of the eleven fields |
| Provenance.ParseProvenanceManifest | bench/research/eval_locbench_compare.py:1180-1207 | the line loop with its table flag computes the manifest the parsing function defines |
| Provenance.RoundTrip | bench/research/eval_locbench_compare.py:1162-1207 | reading a written report gives back exactly its eleven fields if and only if every value is free of pipes, line breaks and edge backticks |
| Provenance.ManifestsAreClean | bench/research/eval_locbench_compare.py:1180-1207 | whatever text is read, every value the parser returns is free of pipes, line breaks and edge backticks |
| Provenance.CheckProvenanceMatch | bench/research/eval_locbench_compare.py:1210-1243 | the loop over the compared keys lists the differing fields in order |
| Provenance.ObjectsExactly | bench/research/eval_locbench_compare.py:1210-1243 | comparing with an earlier written report objects exactly when some compared field of the two manifests differs |
| Provenance.UncleanAlwaysObjected | bench/research/eval_locbench_compare.py:1210-1243 | a run whose own compared value is not clean is objected to by every report that can be read, its own included |
| ReleaseVersion.ParseExactly | scripts/release_version.py:22-77 | parsing and printing are inverse on all strings and all well-formed tags |
| ReleaseVersion.LegacyWordExactly | scripts/release_version.py:36-41 | a legacy word is a lower-case letter and then letters and digits, and not `rc` |
| ReleaseVersion.GrammarsAreDisjoint | scripts/release_version.py:22-41 | exactly the strings of the three patterns are accepted, each as its own kind, so no string matches two |
| ReleaseVersion.CompareIsStrictTotalOrder | scripts/release_version.py:85-89 | on canonical tags the comparison is antisymmetric and transitive, and 0 only between a tag and itself |
| ReleaseVersion.ReleaseLadder | scripts/release_version.py:43-50 | on one base candidates climb by number and stay below the release |
| ReleaseVersion.CanonicalBeatsLegacy | scripts/release_version.py:85-89 | a canonical tag is newer than a legacy tag, and the script exits 0, exactly when its base is the same or higher |
| ReleaseVersion.AgreesWithSemverExactly | scripts/release_version.py:85-89 | the comparison is the precedence of Semantic Versioning 2.0.0, section 11, except exactly for a candidate against a legacy tag of the same base whose word sorts behind `rc` |
| ReleaseVersion.RejectedExactly | scripts/release_version.py:92-121 | the script exits 2 exactly when the candidate is of neither canonical pattern or the current tag of none |
| ReleaseVersion.ExitCodeExactly | scripts/release_version.py:108-121 | every other pair exits 0 exactly when the standard puts the candidate behind the current tag or the exception applies, and 1 otherwise |

## Left out

- The engine itself (indexer, query executor, store), git, HTTP, SQLite and model calls: outcomes of the row, or arbitrary.
- JSON text, digests and the contents of provenance contracts: an artifact is stored and read back as a value, a contract is an identifier.
- Floating point, rounding of reported figures and the tolerance of `math.isclose`: exact rationals and integer micro-dollars instead.
- Directory durability below the level of whole snapshots: a power loss leaves the directory of some earlier moment, as a journalling file system does. `DurableReplace.EntriesApartLoseCheckpoint` shows what the protocol owes to that.
- Interrupts that arrive inside a retrieval case. A row brings two index outcomes, in full and on top of what is there; beyond that its chunk count does not depend on earlier rows.
- Git operations that raise instead of failing (a checkout that times out): recorded under the same code as a failed index, so that a resumed run may agree by accident.
- An explicit `--resume-from` file different from the output of a shard run.
- The cloning loop of `eval_locbench_batch.py` and the clone strategies of `eval_locbench_compare.py`: bounded retries like those of `Retries`, around calls that are not modelled.
- `prepare_dataset` and the validators of rank evidence, embedding and reranker identities: single-branch checks.
- The result of one graph instance is a value that `EvaluateInstance` builds up, where the source sets the fields of an object no one else holds.
- The sorted order of the annotated universe is modelled as any order; `AnnotatorGate.OrderDoesNotMatter` shows that the choice does not matter.
- Unicode lowering: the scorer's hierarchy holds for every lowering function; project names need one that leaves separators alone.
- RightAnswerHits: promises no function hit for names whose lowering depends on what stands behind a dot, such as a class name that ends in a capital sigma; there the scorer itself misses.
- Which files count as test files: an arbitrary predicate.
- `KeptEdgesAreSound` of the Go resolver covers the calls with definitions given; the legacy call without them keeps whatever the single-valued map holds.
- Stratified metrics (caller kinds, modality, ambiguity), report prose, argument parsing and threshold-only gates.
- Python's limit on the length of integer strings, which makes release tags with thousands of digits an error.
