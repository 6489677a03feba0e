# Verified core of the teaching-diagnosis platform

The platform diagnoses what students have not yet mastered. A Python backend keeps knowledge graphs,
evidence, attributions and suggested interventions; a gateway binds teachers' conversations to classes and
keeps token budgets; a router spreads LLM calls over provider keys. This project models the protocols and
reconcilers those three rest on and proves what they keep over every run.

`dafny verify dfyconfig.toml` checks everything.

## How the model is built

* A protocol is a state, a set of events and a `Step` function. One SQL statement or transaction, or the code
  between two awaits, is one step; theorems quantify over every sequence of events, so over every interleaving.
  Where the code holds a lock or runs without suspending, splitting it into more steps only adds behaviours.
* The clock is a parameter of the steps that read it. The job queue's safety theorems put no order on clock
  readings at all; the router, the triggers and the budget read a clock that does not go back where it matters.
* A reconciler (interventions, attributions) has a one-pass definition that says row by row what becomes of the
  table. Classes with loops are proved to compute that definition; theorems are about the definition.
* Objects the source updates in place are classes (`AsyncJobs`, `RouterScheduler`, `KpGraph`, `KbStore`,
  `InterventionTable`, `BudgetGuard`, `TriggerGateway`, `AttributionTable`, `ThreadScopeStore`, `BatchStore`)
  whose methods are tied to the functions of the model.
* What an operation decides is said a second time on the rows, events or history themselves, without the functions
  that compute it (`AdmittedIff`, `PlanIff`, `EveryRowBecomes`, `ActivatesIff`, `ImportedIff`, `AnsweredIff`, `BatchOutcomes`).
* Tables are sequences in id order; a query without ORDER BY returns rows in table order, and an ORDER BY
  leaves ties in table order. Floating point is `real`; roundings for display are identities.
* Powers of two in the decay are a positive function with `decay(a + b) == decay(a) * decay(b)`. JSON text is a
  printer whose output a scanner recognises whatever follows it. YAML documents are records.

| component | model | theorems | in-place form |
|---|---|---|---|
| job queue | `JobQueue` | `JobTheorems`, `JobProgress` | `JobTable` |
| LLM router | `Router` | `RouterTheorems`, `RouterAdmission`, `RouterFairness`, `RouterWindows` | `RouterScheduler` |
| knowledge graph | `KnowledgeGraph`, `KnowledgeBase`, `Versioning`, `KbTransfer` | `GraphTheorems`, `GraphRenaming`, `ForkTheorems`, `Comparison`, `TransferTheorems`, `ImportTheorems` | `KpGraph`, `KbStore` |
| interventions | `Interventions`, `InterventionPlan` | `InterventionTheorems`, `PlanTheorems`, `PlanMeaning`, `GenerationTheorems`, `GenerationOutcome` | `InterventionSteps`, `InterventionPlanner`, `InterventionTable` |
| attributions | `Attributions`, `PrerequisiteRoots` | `AttributionTheorems`, `PrerequisiteRoots`, `AttributionRoots` | `AttributionTable` |
| token budget | `Budget` | `BudgetTheorems` | `Budget` |
| triggers | `Triggers` | `TriggerTheorems`, `TriggerProgress` | `TriggerGateway` |
| thread scope | `ThreadScope` | `ThreadScopeTheorems` | `ThreadScope` |
| mastery | `Mastery` | `MasteryTheorems` | `Mastery`, `MasteryTheorems` |
| batch parsing | `Batch` | `BatchTheorems`, `BatchOutcomes` | `BatchStore` |
| access | `Access` | `Access` | `Access` |

## Where the code does not do what one might expect

Each of these is a lemma: the code is kept as it is, and the lemma gives the exact condition or an input.

* `RouterFairness.CrashIffOversizeMeetsIdleKey`: `acquire` reads the first token event of an empty deque exactly
  when a request alone exceeds the token limit and the scan meets a key that is otherwise free;
  `FirstOversizeRequestCrashes`: on a fresh scheduler the first such request does it.
* `RouterAdmission.OthersWaitUntilDeadline`: a refusal at the deadline always advises to retry after 0.05 seconds, whatever the
  keys are waiting for, because the advice is bounded by the time left.
* `GenerationTheorems.MembersAreStudentsIff`: the size of a group counts rows, and students exactly when nobody has
  a root twice; `OneStudentCanBeAGroup` plans a group of three for a single student.
* `GenerationTheorems.ArchivedIff`: a class-wide suggestion is archived only if at least one student is still weak
  at the point; `MasteredPointsAreNotLookedAt`: for a point everybody has mastered it stays.
* `ForkTheorems.ForkKeepsImportanceIff`, `TransferTheorems.RoundTripKeepsImportanceIff`: a fork, and an export read
  back, keep importance exactly when all was the default and the version's grade exactly when it had none.
* `TransferTheorems.PresentIff`: the loader's description promises a new version when the content changes, but the
  loader does nothing exactly when some version has the same name and codes; `EditsUnderSameCodesAreIgnored` edits a
  version's own export.
* `TransferTheorems.ImportKeepsOneActiveIff`, `ImportCanMakeTwoActive`: the loader takes over the document's status, so an
  import can leave a subject with two active versions.
* `ThreadScopeTheorems.MergedTextComesBackIff`: if context and text were stored as one part, surrounding white space is lost.
* `BatchTheorems.OrphansComeFromDeaths`, `DeathsOrphan`: the worker's handler is meant to leave no item parsing, and
  does unless the worker dies or the handler's own write fails; `OrphansAreRecovered`: the watchdog then gets it back.
* `BatchTheorems.MatchIsFinalIff`, `LateWorkersExist`: a match is final exactly when no worker is at work on the item,
  and a worker that the watchdog gave up on can be.
* `BatchTheorems.RestartStrandsIff`, `RestartCanStrand`, `StrandedStays`: an item retried in a finished job is queued
  while its job is done; a restart in that moment leaves it queued with no worker, and no other operation applies to it.
* `MasteryTheorems.TimeKeepsMasteryIff`, `MixedHalfLivesDrift`: with evidence of both half-lives, time alone moves
  mastery unless both kinds have the same mean.
* `Access.ExamListAgreesIff`, `ExamListAgrees`, `EmptySubjectDisagrees`: an exam whose subject is the empty text is read
  differently by filter and assertion; the lemmas say exactly when that shows.

## Model

| member | source | states |
|---|---|---|
| JobTheorems.ClaimsAreFenced | backend/app/jobs.py:155-193 | in every run, claims of a job carry strictly increasing attempt numbers, so no two claims share one and at most one owns the row |
| JobTheorems.CommitsAtMostOnce | backend/app/jobs.py:83-90 | a job's domain transaction commits at most once in any run, and only for the newest claim |
| JobTheorems.CommitsIffNotSuperseded | backend/app/jobs.py:196-204 | a claim's completion commits, lease or no lease, exactly when the row is still running and nobody claimed it again |
| JobTheorems.SupersededNeverActs | backend/app/jobs.py:43-55 | once a newer claim exists, the older worker can never complete, fail or renew the job, whatever happens in between |
| JobTheorems.TerminalRowsNeverChange | backend/app/jobs.py:155-216 | succeeded and failed rows are untouched by any continuation |
| JobTheorems.RowsStayBounded | backend/app/jobs.py:155-216 | attempts never exceed max_attempts, a queued row has one left, a failed one has none, lock fields are set exactly while running |
| JobTheorems.ClaimsAreBounded | backend/app/jobs.py:180-193 | over a whole run the queue hands out at most the sum of all max_attempts |
| JobTheorems.UndisturbedClaim | backend/app/jobs.py:155-193 | a read followed undisturbed by its compare-and-set takes the row it read |
| JobProgress.EveryDueRowIsServed | backend/app/jobs.py:155-193 | as many undisturbed passes as there are rows serve every due row: claimed by the worker if it has an attempt left, failed if it has none |
| JobProgress.PassOnOpenRow | backend/app/jobs.py:155-193 | a pass claims a given claimable row, or one before it in (available_at, id) order, which leaves fewer claimable at that time |
| JobTheorems.UnfinishedRowsBecomeDue | backend/app/jobs.py:162-176 | every row that is not terminal becomes due once the clock passes its available_at or its lease |
| JobTheorems.LeaseExcludesOthers | backend/app/jobs.py:43-55 | while a lease is live no step but the owner's changes the row, not even a claim read earlier |
| JobTheorems.LeaseWindow | backend/app/jobs.py:52-55 | a claim or renewal protects its row for 600 seconds from its own clock reading |
| JobTheorems.FailureIsRetriedAfterBackoff | backend/app/jobs.py:207-216 | a failure with attempts left is claimable again exactly from its backoff on; the last one is final |
| JobTheorems.BackoffSchedule | backend/app/jobs.py:212-216 | the backoff is 2, 4, 8, 16, 32 and then 60 seconds |
| JobTheorems.EnqueueIsIdempotent | backend/app/jobs.py:101-137 | in every run a non-empty key names one job: enqueueing it again returns that job and changes nothing |
| JobTheorems.EnqueueAdds | backend/app/jobs.py:101-137 | an enqueue answered with a new row stores the given kind, key and payload, queued, no attempts made, the larger of 1 and the requested attempts allowed, claimable exactly from its time on |
| JobTheorems.FailsOnlyAfterAllAttempts | backend/app/jobs.py:155-216 | in every run a row whose insertion asked for m attempts is failed only after it was claimed max(1, m) times |
| JobTheorems.RunKeepsInv | backend/app/jobs.py:294-335 | any continuation of a consistent queue is consistent, and rows only advance |
| JobTable.AsyncJobs.Enqueue | backend/app/jobs.py:101-137 | returns the existing row of a key, raises on a clash it may not resolve, or adds one row with the given kind, key and payload, queued, no attempts made, at least one allowed, available now |
| JobTable.AsyncJobs.SweepExpired | backend/app/jobs.py:158-162 | exactly the running rows whose lease ran out on their last attempt are failed |
| JobTable.AsyncJobs.Candidate | backend/app/jobs.py:163-178 | finds the earliest claimable row by available_at and id that no other session has locked, or none exists |
| JobTable.AsyncJobs.Claim | backend/app/jobs.py:155-193 | sweep, candidate and compare-and-set leave the table the protocol's steps leave |
| JobTable.AsyncJobs.CompareAndSet | backend/app/jobs.py:183-191 | takes the row if it is as it was read, so that the worker owns a live lease on it; every other row, and all rows otherwise, are unchanged |
| JobTable.AsyncJobs.Renew | backend/app/jobs.py:52-55 | exactly the owner of a live lease renews it, for the full lease time from now; every other row is unchanged |
| JobTable.AsyncJobs.Complete | backend/app/jobs.py:196-204 | exactly the owner of the attempt succeeds, with its result, even after the lease ran out; every other row is unchanged |
| JobTable.AsyncJobs.Fail | backend/app/jobs.py:207-216 | exactly the owner of a live lease fails, the row is queued again just while attempts are left and not claimable at once; every other row is unchanged |
| RouterTheorems.RatesAreBounded | llm_router/main.py:165-211 | over the full history of a key, every half-open 60-second window holds at most key_rpm admissions and estimates of at most key_tpm, and the history misses no lease |
| RouterWindows.WindowBound | llm_router/main.py:186-206 | if each admission fitted the window before it, no window anywhere exceeds the limit |
| RouterWindows.TotalIsAfter | llm_router/main.py:165-171 | after pruning, a deque's total is exactly the full history inside the window |
| RouterTheorems.SlotsAreConserved | llm_router/main.py:200-211 | in every run the global counter, the per-key counters and the per-capability counters all count the unreleased leases, which never exceed max_concurrency, key_concurrency and the agent, vision or text limit of their capability |
| RouterTheorems.ClampsNeverBind | llm_router/main.py:223-228 | whenever a slot is given back every counter it lowers is positive, and failures stay below the threshold |
| RouterTheorems.ReleaseIsOnce | llm_router/main.py:137-141 | a second release of a lease, however much later, changes nothing |
| RouterAdmission.AdmittedIff | llm_router/main.py:179-211 | in every reachable state an attempt is admitted on a key exactly when it is the first open key from the cursor and the leases held leave room globally and under the agent, vision or text limit |
| RouterAdmission.EligibleIffOpen | llm_router/main.py:183-199 | a key is eligible exactly when its circuit is closed, it has a slot, and the last 60 seconds of its full history leave room for one request and the estimate |
| RouterAdmission.ScanFindsFirstOpen | llm_router/main.py:183-199 | the scan finds exactly the first open key from the cursor |
| RouterAdmission.OthersWaitUntilDeadline | llm_router/main.py:212-220 | whoever is neither admitted nor crashes waits before the deadline and is refused from it on, always advised to retry after 0.05 seconds |
| RouterAdmission.ReleaseChargesOverrun | llm_router/main.py:223-233 | a release charges the key exactly what an estimated call used beyond its estimate |
| RouterFairness.RoundRobinIsFair | llm_router/main.py:183-209 | among n admissions that each found a key eligible, n the number of keys, one is on that key |
| RouterFairness.PassingOverApproaches | llm_router/main.py:183-209 | admitting on another key brings the cursor strictly closer to an eligible key |
| RouterFairness.ScanStops | llm_router/main.py:183-199 | the scan answers with the first key from the cursor that is not skipped |
| RouterFairness.CrashIffOversizeMeetsIdleKey | llm_router/main.py:195-197 | acquire fails with an index error exactly when the estimate alone exceeds key_tpm and the scan meets an idle key |
| RouterFairness.FirstOversizeRequestCrashes | llm_router/main.py:173-197 | on a scheduler just started, with any number of keys, the first request larger than key_tpm crashes |
| RouterFairness.SkipLasts | llm_router/main.py:187-197 | a skipped key stays skipped until the moment its verdict names |
| RouterFairness.WaitingMissesNothing | llm_router/main.py:212-217 | a waiting caller sleeps for a positive time and never past the first moment at which time alone frees a key |
| RouterFairness.CircuitTripsAtThreshold | llm_router/main.py:233-240 | the failure that reaches the threshold, and only it, closes the key for the cooldown |
| RouterFairness.AdmissionFindsKeyOpen | llm_router/main.py:187-201 | no admission lands on an open circuit or a full key |
| RouterScheduling.RouterScheduler.PruneKey | llm_router/main.py:165-171 | both deques lose exactly the entries at or before the cutoff |
| RouterScheduling.RouterScheduler.TryAcquire | llm_router/main.py:179-217 | one pass takes the protocol's step, whose admissions RouterAdmission.AdmittedIff decides |
| RouterScheduling.RouterScheduler.Charge | llm_router/main.py:202-211 | an admission raises the three counters by one, stamps both deques and moves the cursor past the key |
| RouterScheduling.RouterScheduler.Settle | llm_router/main.py:225-240 | the released key gives its slot back, is charged what exceeded its estimate, and counts or forgets failures |
| RouterScheduling.RouterScheduler.ReleaseSlot | llm_router/main.py:223-241 | a release lowers all three counters and settles the key |
| GraphTheorems.ChainIsExact | backend/app/kb/graph.py:102-119 | on any graph, cycles included, the chain lists exactly the nodes within max_depth steps, each once, at its shortest positive distance, in order of depth |
| GraphTheorems.ChainsAreDual | backend/app/kb/graph.py:102-139 | over opposite dictionaries, a is an ancestor of k at depth d exactly when k is a descendant of a at depth d |
| KnowledgeBase.EdgesAreLinks | backend/app/kb/graph.py:43-49 | the prerequisite and successor lists hold exactly the prerequisite relations inside the version |
| KnowledgeBase.PartnersAreLinks | backend/app/kb/graph.py:51-59 | a point's confusable partners are exactly those related to it either way round, each once |
| KnowledgeBase.PartnersAreSymmetric | backend/app/kb/graph.py:141-143 | being confusable partners is symmetric |
| KpGraphs.AncestorsAndDescendantsAreDual | backend/app/kb/graph.py:43-139 | on the dictionaries read from any table, ancestors and descendants are dual |
| KpGraphs.KpGraph.constructor | backend/app/kb/graph.py:25-59 | the loops fill the dictionaries with the version's points and relations |
| KpGraphs.KpGraph.AddRelations | backend/app/kb/graph.py:43-59 | relations with both ends inside are appended to both directions in order |
| KpGraphs.KpGraph.BoundedSearch | backend/app/kb/graph.py:109-119 | the queue loop computes the chain |
| KpGraphs.KpGraph.PrerequisiteChain | backend/app/kb/graph.py:102-119 | the method returns the chain over the prerequisite dictionary |
| KpGraphs.KpGraph.Descendants | backend/app/kb/graph.py:121-139 | the method returns the chain over the successor dictionary |
| GraphRenaming.ChainRenames | backend/app/kb/graph.py:102-119 | on an injectively renamed graph the search finds the renamed hits in the same order |
| ForkTheorems.IdMapIsRenaming | backend/app/kb/versioning.py:35-56 | the id map is injective, from exactly the source's ids to exactly the copies' ids |
| ForkTheorems.ForkKeepsChains | backend/app/kb/versioning.py:25-70 | prerequisite chains and descendants on a fork are those of the source, renamed |
| ForkTheorems.ForkLeavesOthersAlone | backend/app/kb/versioning.py:25-70 | points and graphs of every existing version are what they were |
| ForkTheorems.ForkKeepsCodes | backend/app/kb/versioning.py:35-56 | a code names the same point in fork and source, importance aside |
| ForkTheorems.ForkIsCompatible | backend/app/kb/compatibility.py:27-45 | an unedited fork has no missing code, no added code and no changed attribute against its source |
| ForkTheorems.ForkActivatesFreely | backend/app/kb/versioning.py:73-131 | activating it over its source needs neither force nor confirm and swaps just the two statuses |
| ForkTheorems.ActivationKeepsOneActive | backend/app/kb/versioning.py:73-131 | activation keeps at most one active version per subject |
| Comparison.MissingAndAdded | backend/app/kb/compatibility.py:36-38 | a code is missing exactly when a point of the active version has it and none of the target, and added in the converse case |
| Comparison.ChangesAreDifferences | backend/app/kb/compatibility.py:39-45 | a floor, prior or archival change is listed exactly when two points of its code differ in that field, old value first |
| Comparison.ActivatesIff | backend/app/kb/versioning.py:73-131 | over an active version, activation switches exactly when the target is not active, has every active code or is forced, and agrees on shared codes in the three fields or is confirmed; a refusal names exactly what is missing or differs |
| Comparison.SwitchIs | backend/app/kb/versioning.py:73-131 | a switch raises the target, lowers the version that was active to reviewed and leaves the rest |
| Comparison.ForkIsCopy | backend/app/kb/versioning.py:25-56 | the fork is a draft of the same subject and edition whose points are the source's in order, column by column, under new ids with default importance |
| Comparison.TransportIs | backend/app/kb/versioning.py:57-69 | the fork's relations are exactly the source's with both ends inside, between the copies, as drafts |
| ForkTheorems.ForkKeepsImportanceIff | backend/app/kb/versioning.py:37-54 | a fork keeps every importance exactly when all were the default, and the version's grade exactly when it had none |
| ForkTheorems.ForkKeepsWellFormed | backend/app/kb/versioning.py:25-70 | primary, foreign and unique keys survive, so forks of forks are covered |
| TransferTheorems.ImportKeepsWellFormed | backend/app/kb/loader.py:60-109 | so does any import, so the fork and transfer theorems apply to imported versions |
| TransferTheorems.ImportKeepsOneActiveIff | backend/app/kb/loader.py:60-65 | an import keeps one active version per subject exactly when its document is not active or the subject has no active version |
| TransferTheorems.ImportCanMakeTwoActive | backend/app/kb/loader.py:60-65 | an exported active version read into a store with another active one of its subject makes two |
| KbStores.KbStore.ForkVersion | backend/app/kb/versioning.py:25-70 | adds the version, its points in table order under new ids and the relations between them, and touches nothing else |
| KbStores.KbStore.CopyAll | backend/app/kb/versioning.py:35-56 | copies points in order and fills the id map |
| KbStores.KbStore.ActivateVersion | backend/app/kb/versioning.py:73-131 | lowers the active version and raises the target, or names what has to be forced or confirmed and changes nothing, as Comparison.ActivatesIff decides |
| TransferTheorems.ImportOfExportIff | backend/app/kb/loader.py:26-109 | an exported version is accepted by a store without it exactly when its levels are known and its weights lie in 0..1, and becomes the same points in strictly increasing code order under new ids |
| TransferTheorems.ExportIsInCodeOrder | backend/app/kb/versioning.py:136-142 | an export lists each point of the version once, in strictly increasing code order |
| TransferTheorems.RoundTripKeepsImportanceIff | backend/app/kb/versioning.py:156-172 | export and import keep every importance exactly when all were the default, and the grade exactly when there was none |
| TransferTheorems.RelationsRoundTrip | backend/app/kb/versioning.py:144-156 | relations written by code and read by code are the renamed relations |
| TransferTheorems.RoundTripKeepsChains | backend/app/kb/versioning.py:134-182 | chains and descendants survive export and import, renamed |
| TransferTheorems.ReimportIsPresent | backend/app/kb/loader.py:40-58 | importing a version's own export creates nothing |
| TransferTheorems.PresentIff | backend/app/kb/loader.py:33-58 | an import creates nothing and returns a version exactly when the codes are distinct and some version has the same name and codes |
| ImportTheorems.PresentIffKnown | backend/app/kb/loader.py:33-58 | said on the rows: a version of the same subject, edition and number with exactly the document's codes |
| ImportTheorems.ImportedIff | backend/app/kb/loader.py:26-122 | a document becomes a new version exactly when its codes are distinct and not known, its levels and importances are named ones, and its relations are of a named kind, between its codes, with weights in 0..1 |
| ImportTheorems.ImportedIs | backend/app/kb/loader.py:60-109 | the new version holds the document's points in order, column by column with the named importance, and its relations in order between them as drafts |
| ImportTheorems.CodeLessIff | backend/app/kb/versioning.py:136-142 | codes are in lexicographic order: the first difference decides, a prefix comes first |
| TransferTheorems.EditsUnderSameCodesAreIgnored | backend/app/kb/loader.py:40-58 | a version's own export with a changed floor and no relations is another document, yet its import creates nothing |
| KbStores.KbStore.ExportVersion | backend/app/kb/versioning.py:134-182 | the loops write the version's points in code order and its relations by code |
| KbStores.KbStore.ImportDocument | backend/app/kb/loader.py:26-109 | returns a present version, adds the document, or refuses and changes nothing |
| KbStores.FindVersion | backend/app/kb/loader.py:40-58 | finds the first version with the same name and codes |
| KbStores.LoadPoints | backend/app/kb/loader.py:70-88 | numbers valid points in order, or stops at the first invalid one |
| KbStores.LoadRelations | backend/app/kb/loader.py:90-106 | converts relations in order, or stops at the first broken one |
| GenerationTheorems.GenerationLeavesOneSuggestion | backend/app/intervention.py:284-309 | after a run there is at most one suggestion per class, student and point of the graph |
| GenerationTheorems.GenerationKeepsHistory | backend/app/intervention.py:236-251 | other classes, other graphs and everything done come through unchanged and in order, and no done or skipped row is lost |
| GenerationTheorems.GenerationIsRepeatable | backend/app/intervention.py:226-468 | a second run on the same facts leaves the same content under every need, ids and times aside |
| GenerationTheorems.RerunPlansTheSame | backend/app/intervention.py:306-340 | a plan depends on the table only through what was done, which a run does not change |
| GenerationTheorems.ArchivedIff | backend/app/intervention.py:384-393 | a pending suggestion is archived exactly when it is the newest of its need and unfounded: no kind of action the student's assessment of the point calls for is left that was not done without evidence since, or, for the class, some are weak but fewer than the ratio of at least four |
| PlanMeaning.ActionForIff | backend/app/intervention.py:88-218 | a point calls for an action exactly under the conditions of its kind (data, tier gap, then the last prerequisite, forgetting or confusion finding), and for at most one, with that finding's root or partner |
| PlanMeaning.KeptActionIff | backend/app/intervention.py:311-338 | the action is asked for unless the last dated done row of its class, graph, need and kind has no later evidence; with later evidence it is a second try, without such a row it is asked as it is |
| PlanMeaning.GroupSizeIs | backend/app/intervention.py:350-362 | the size of a root's group is the number of pairs of a committed student and a point that lead back to it |
| PlanMeaning.PlanIff | backend/app/intervention.py:262-392 | the plan holds an action exactly when the evaluation calls for it: for a student the kept action, marked if it is the first of a large enough group; for the class a reteach where at least four are assessed and the ratio is reached |
| GenerationOutcome.EveryRowBecomes | backend/app/intervention.py:271-464 | every row goes where the evaluation says: this exam's suggestions vanish, older pending ones are merged, the newest is refreshed with what is planned, archived if unfounded or left, and all others stay as they are |
| GenerationOutcome.EveryActionIsStored | backend/app/intervention.py:397-444 | a planned action whose need nothing pending covers becomes a new suggestion that says exactly it |
| GenerationOutcome.EveryRowHasGrounds | backend/app/intervention.py:271-464 | the table holds nothing else |
| GenerationTheorems.MasteredPointsAreNotLookedAt | backend/app/intervention.py:386-393 | a newest pending class-wide suggestion for a point at which nobody is weak comes through the run unchanged |
| GenerationTheorems.GoneIffUnfounded | backend/app/intervention.py:447-459 | the plan calls a need gone exactly when the evaluation leaves it unfounded, said on assessments, findings, done rows and evidence times |
| GenerationTheorems.TalliesCountStudents | backend/app/intervention.py:342-348 | the class statistics count the students past the gate with a mastery (and weak) at the point, nobody twice |
| GenerationTheorems.MembersAreStudentsIff | backend/app/intervention.py:350-369 | a group's size counts students exactly when no student has the root twice |
| GenerationTheorems.OneStudentCanBeAGroup | backend/app/intervention.py:317-369 | the evaluation of one student with three weak points under one root plans a group of three with one holder |
| InterventionTheorems.OneSuggestionPerNeed | backend/app/intervention.py:289-309 | reconciling any sound plan leaves one suggestion per need |
| InterventionTheorems.QueueIsExact | backend/app/intervention.py:395-465 | the queue says of a need what the plan asks, else the newest pending word that has not lost its ground, and nothing else |
| InterventionTheorems.RerunSaysTheSame | backend/app/intervention.py:268-465 | reconciling the same plan again, later, changes no content |
| InterventionTheorems.RerunOnlyReplaces | backend/app/intervention.py:268-465 | the second run merges and archives nothing; it only replaces its own suggestions |
| InterventionTheorems.HistoryIsKept | backend/app/intervention.py:268-315 | protected rows come through as the same sequence |
| InterventionTheorems.RowFate | backend/app/intervention.py:268-465 | every row is cleared, kept as it is, merged, refreshed, archived or left, each exactly when |
| InterventionTheorems.ReconcileKeepsKeys | backend/app/intervention.py:395-445 | ids stay distinct and below the next id |
| PlanTheorems.PlansAreSound | backend/app/intervention.py:317-393 | every plan asks at most once per need, inside the graph, and never for what it also calls gone |
| PlanTheorems.StudentActionsDistinct | backend/app/intervention.py:130-223 | a student's actions ask for distinct points of the graph |
| PlanTheorems.WeakIffTallied | backend/app/intervention.py:342-348 | the class loop visits exactly the points with at least one weak student |
| InterventionSteps.StepsReconcile | backend/app/intervention.py:268-465 | clear, merge, upsert one by one and archive one by one is the one-pass reconciliation |
| InterventionSteps.UpsertPosition | backend/app/intervention.py:398-445 | one upsert refreshes exactly the pending row of its need or adds one row |
| InterventionSteps.PlanAfterMerge | backend/app/intervention.py:306-340 | planning after clearing and merging plans the same as before |
| InterventionSteps.LossesAreUnfounded | backend/app/intervention.py:447-465 | what archiving loses are exactly the needs pending from other exams that the evaluation leaves unfounded |
| InterventionTables.InterventionTable.ClearSuggested | backend/app/intervention.py:271-282 | exactly this exam's own suggestions are deleted |
| InterventionTables.InterventionTable.MergePending | backend/app/intervention.py:288-304 | the newest suggestion of each need stays pending, the others are skipped |
| InterventionTables.InterventionTable.Upsert | backend/app/intervention.py:398-439 | refreshes in place or inserts |
| InterventionTables.InterventionTable.UpsertAll | backend/app/intervention.py:441-445 | stores the whole plan and counts it |
| InterventionTables.InterventionTable.ArchiveUnsupported | backend/app/intervention.py:447-465 | archives exactly the pending suggestions without ground and counts them |
| InterventionTables.InterventionTable.Generate | backend/app/intervention.py:226-468 | the whole run leaves the reconciliation of what it found and counts what it stored, grouped and archived; nothing changes when nobody has committed |
| InterventionPlanner.StudentRows | backend/app/intervention.py:165-223 | the loop over assessments yields the student's actions, done ones filtered |
| InterventionPlanner.AllRows | backend/app/intervention.py:317-340 | one list per student, and the points each still needs |
| InterventionPlanner.CountPoints | backend/app/intervention.py:342-348 | the counting dictionaries hold the tallies |
| InterventionPlanner.ClassRows | backend/app/intervention.py:371-382 | class actions for exactly the common points, in order |
| InterventionPlanner.MembersByRoot | backend/app/intervention.py:350-355 | everybody with a row of a root is listed, as often as they have one |
| InterventionPlanner.MarkGroups | backend/app/intervention.py:357-369 | exactly the first row of a root per student joins, for roots with enough rows |
| InterventionPlanner.PlanActions | backend/app/intervention.py:317-393 | the loops compute the plan |
| AttributionTheorems.FindingsAreDistinct | backend/app/pipeline/attribution.py:287-329 | findings have distinct keys at assessed points; weakness everywhere only lowers prerequisite confidence to the cap |
| AttributionTheorems.OneStandingRow | backend/app/pipeline/attribution.py:392-461 | over every run of materialise, override and verify there is at most one active-or-overridden row per student, point and type |
| AttributionTheorems.VerdictsAreFinal | backend/app/pipeline/attribution.py:434-455 | overridden and resolved rows stay exactly as they are |
| AttributionTheorems.VetoIsNeverRevived | backend/app/pipeline/attribution.py:434-437 | after an override no row of that student, point and type is ever active again |
| AttributionTheorems.ReadAndWriteAgree | backend/app/pipeline/attribution.py:332-461 | what materialise leaves active, with its content, is exactly what resolve shows as active |
| AttributionTheorems.ReturnedIsShown | backend/app/pipeline/attribution.py:428-461 | the rows materialise returns are, one by one and in order, what resolve shows as active |
| AttributionTheorems.MaterialisingSparesTheRest | backend/app/pipeline/attribution.py:415-427 | vetoes, other students, other graphs and resolved rows are untouched |
| AttributionTables.DeriveFindings | backend/app/pipeline/attribution.py:299-329 | the loops collect the findings and cap them in place |
| AttributionTables.AttributionTable.StoreFindings | backend/app/pipeline/attribution.py:429-453 | each finding refreshes its active row, respects its vetoed row or adds a row |
| AttributionTables.AttributionTable.ResolveMissing | backend/app/pipeline/attribution.py:455-458 | exactly the active rows not found again are resolved |
| AttributionTheorems.MaterialisedRowFate | backend/app/pipeline/attribution.py:414-461 | materialising touches the student's active rows in the graph and no others: found again they take over the claim, otherwise they are resolved |
| AttributionTheorems.MaterialisedNewRow | backend/app/pipeline/attribution.py:438-453 | a new row is an active, unannotated row for a finding whose key had no active or overridden row |
| AttributionTables.AttributionTable.MaterialiseVerdicts | backend/app/pipeline/attribution.py:392-461 | leaves the reconciled table with one standing row per key, and returns the active rows of the findings shown as active |
| AttributionTables.AttributionTable.OverrideAttribution | backend/app/api/routers/analysis.py:291-305 | only an active row is overridden |
| AttributionTables.AttributionTable.VerifyPrediction | backend/app/pipeline/attribution.py:472-514 | only an active prerequisite row with a root is judged and annotated, and it is overridden exactly on enough evidence with a mastery of at least 0.6 at the root |
| PrerequisiteRoots.RootIsFoundIff | backend/app/pipeline/attribution.py:128-139 | a root is found exactly when some prerequisite within three steps is weak on enough evidence |
| PrerequisiteRoots.RootIsBestExplanation | backend/app/pipeline/attribution.py:141-150 | it is one of those, at its shortest distance, and (0.6 - mastery) * (0.5 + 0.5 * weight) is at least that of every candidate; on equality it is no deeper and comes first |
| PrerequisiteRoots.RootComparisons | backend/app/pipeline/attribution.py:141-150 | at equal weight no candidate has a lower mastery than the root, and at equal mastery none has a heavier edge |
| PrerequisiteRoots.SortLowsSorts | backend/app/pipeline/attribution.py:141-166 | the evidence lists every weak prerequisite by falling (0.6 - mastery) * (0.5 + 0.5 * weight), at equal values by depth |
| PrerequisiteRoots.ConfidenceIsBounded | backend/app/pipeline/attribution.py:152-154 | confidence lies between 0.7 and 0.95 and never falls with more weak prerequisites |
| PrerequisiteRoots.ConfidenceIs | backend/app/pipeline/attribution.py:152-154 | 0.7, 0.8 and 0.9 for one, two and more candidates, 0.05 more for a root below 0.4 |
| AttributionRoots.BlamedConfidence | backend/app/pipeline/attribution.py:152-154 | a prerequisite claim has confidence 0.7, 0.8 or 0.9 for one, two or more candidates, 0.05 more for a root below 0.4, and at most the cap for a student weak everywhere |
| AttributionRoots.HypothesisIff | backend/app/pipeline/attribution.py:82-117 | an assessment yields a finding exactly when its gate asks for data, or when it is weak on enough evidence and the engine of that cause makes the claim |
| AttributionRoots.HypothesesInOrder | backend/app/pipeline/attribution.py:113-117 | prerequisites come before forgetting, and both before confusion |
| AttributionTheorems.SampleIs | backend/app/pipeline/attribution.py:315-316 | the sample for weakness everywhere is the number of assessments past the gate with a mastery |
| AttributionTheorems.WeightAdds | backend/app/pipeline/attribution.py:317-318 | each of them weighs its importance in the whole and, if weak, in the weak part |
| AttributionRoots.BlamedIff | backend/app/pipeline/attribution.py:82-139 | the findings blame a prerequisite of a point exactly when the point is assessed weak on enough evidence and some prerequisite within three steps explains it |
| AttributionRoots.BlamedRootIsBest | backend/app/pipeline/attribution.py:120-183 | the root a finding names explains its point, has the largest (0.6 - mastery) * (0.5 + 0.5 * weight) of all candidates, at equal values the least depth, and on the same evidence verification would not falsify it |
| BudgetTheorems.WatermarkIsBaselinePlusCharge | gateway/budget.py:112-128 | after any run, an open task's baseline plus its charge is the thread's watermark, and turns stay within the cap |
| BudgetTheorems.ChargesAreLiveIncreases | gateway/budget.py:112-128 | tokens charged to all tasks of a thread, ended and open, are exactly the positive rises of its watermark under live reports |
| BudgetTheorems.WatermarkIsChargesPlusReplays | gateway/budget.py:112-124 | charges plus replayed movement add up to the watermark |
| BudgetTheorems.GrantedTurnsAreAccounted | gateway/budget.py:82-108 | every granted turn is on the account of exactly one task |
| BudgetTheorems.GrantsArePerTask | gateway/budget.py:82-108 | a thread gets at most the cap of turns per task, and a new task needs an idle spell |
| BudgetTheorems.ReplaysAreFree | gateway/budget.py:118-124 | replays charge nothing anywhere, and reports leave other threads alone |
| BudgetTheorems.ReplayedUsageIsNotChargedAgain | gateway/budget.py:112-128 | after a replay, a live report charges only what lies above it |
| BudgetTheorems.GrantedIff | gateway/budget.py:82-108 | a turn is granted exactly when the thread's task, if it is open, has turns and tokens left |
| BudgetTheorems.ExpiresIff | gateway/budget.py:56-58 | a task outlives the events of others exactly while they read no clock later than its last activity plus the idle time, and is then unchanged |
| BudgetTheorems.ActivityIs | gateway/budget.py:82-142 | granted turns and live usage are activity; a refused turn does not prolong an open task |
| Budget.BudgetGuard.Expire | gateway/budget.py:184-186 | exactly the stale tasks are dropped, totals kept |
| Budget.BudgetGuard.CheckTurnStart | gateway/budget.py:82-108 | grants exactly when the turns and tokens of the thread's task, none if it was idle for longer than the idle time, are below both limits, and returns its account |
| Budget.BudgetGuard.ObserveTokenUsage | gateway/budget.py:112-142 | interrupts exactly when a live report brings the task to its budget |
| TriggerTheorems.OneStartInFlightPerKey | gateway/main.py:966-998 | at no time do two requests lead the same idempotency key |
| TriggerTheorems.AcceptedStartsAreSpaced | gateway/main.py:902-914 | two accepted starts of one key are more than 600 seconds apart |
| TriggerTheorems.OneThreadPerOwner | gateway/main.py:1001-1034 | all accepted starts of a class and teacher run on the one thread on disk for them |
| TriggerTheorems.MappingsAreWriteOnce | gateway/main.py:1001-1019 | a saved thread mapping is never lost or replaced, whoever else starts |
| TriggerTheorems.AnswersAreGenuine | gateway/main.py:977-998 | any receipt a request is answered with belongs to an accepted start of its own key |
| TriggerTheorems.FailuresAllowRetry | gateway/main.py:988-998 | failures are not cached: the next request leads again unless an earlier success is still cached |
| TriggerProgress.AnsweredIff | gateway/main.py:966-987 | in every reachable state a request is answered with the receipt of a start of its key in the last 600 seconds if there is one, else waits for the request leading its key if there is one, else leads |
| TriggerProgress.NobodyIsStuck | gateway/main.py:966-1034 | in every reachable state every request can still be answered by the requests under way, without one of them breaking off |
| TriggerProgress.BridgedIs | gateway/main.py:1005-1019 | a mapped thread is used at once if loaded and resumed if not; without a mapping one is asked for |
| TriggerProgress.AcceptedIs | gateway/main.py:993-1034 | an accepted turn is answered, recorded and cached under its own key and template, on its thread |
| TriggerProgress.WokenIs | gateway/main.py:980-987 | whoever waited gets the leader's receipt if the leader got one, and fails if it failed |
| TriggerTheorems.StepKeepsInv | gateway/main.py:966-1034 | every step of every request keeps the registers, the cache, the spacing and the thread map consistent |
| TriggerGateways.TriggerGateway.TriggerReplay | gateway/main.py:908-914 | drops exactly the expired receipts, then answers from the cache |
| TriggerGateways.TriggerGateway.InternalTrigger | gateway/main.py:966-987 | a request is answered from the cache, else waits for the one in flight, else takes the lead |
| TriggerGateways.TriggerGateway.SaveThread | gateway/main.py:1008-1018 | the new thread is merged into the map as it is on disk now |
| TriggerGateways.TriggerGateway.Succeed | gateway/main.py:993-998 | caches the receipt and gives lock and key back |
| TriggerGateways.TriggerGateway.Fail | gateway/main.py:988-998 | gives lock and key back and caches nothing |
| ThreadScopeTheorems.StripUndoesInject | gateway/thread_scope.py:23-66 | stripping a stored message returns exactly the user's parts, even if they begin with a context themselves |
| ThreadScopeTheorems.UninjectedIsUntouchedIff | gateway/thread_scope.py:39-66 | a message without injected context is shown as it is exactly when no part starts with one |
| ThreadScopeTheorems.MergedTextComesBackIff | gateway/thread_scope.py:23-32 | text merged with the context comes back exactly when it neither begins nor ends with white space |
| ThreadScopeTheorems.PreviewHidesContext | gateway/thread_scope.py:35-36 | a preview shows what follows the context, or a neutral title |
| ThreadScopeTheorems.ContextIff | gateway/thread_scope.py:23-32 | a context is recognised exactly where introduction, a JSON value and the closing words are whole, and gives what follows, stripped |
| ThreadScopeTheorems.PreviewIs | gateway/thread_scope.py:35-36 | a preview without the marker is shown as it is; with it, what follows a whole context, or a neutral title |
| ThreadScopeTheorems.StripIs | gateway/thread_scope.py:29-30 | stripping takes white space off both ends, and all of it |
| ThreadScopeTheorems.SpacesAre | gateway/thread_scope.py:29-30 | white space is what Python strips, by code point |
| ThreadScopeTheorems.BindingsNeverChange | gateway/thread_scope.py:95-106 | a binding of teacher and thread never changes once made |
| ThreadScopeTheorems.ForwardedTurnsAreInScope | gateway/thread_scope.py:160-188 | every forwarded turn answers a call the user made on the same thread with the class the thread is bound to, across the access check, and strips to exactly the inputs of that call |
| ThreadScopeTheorems.TurnIsTakenUpIff | gateway/thread_scope.py:160-176 | a turn is taken up exactly on a bound thread with the class it is bound to; anything else changes nothing |
| ThreadScopeTheorems.AuthorisedTurnIsForwarded | gateway/thread_scope.py:160-188 | such a turn is forwarded once access is confirmed, with class and confirmed name, and strips to the user's inputs |
| ThreadScopeTheorems.RefusedIsOver | gateway/thread_scope.py:115-133 | a call refused access forwards nothing, now or later |
| ThreadScopeTheorems.ClasslessStartIsIgnored | gateway/thread_scope.py:109-112 | a conversation is started exactly for a valid class |
| ThreadScopeTheorems.TriggeredThreadIsBound | gateway/main.py:1020-1022 | a trigger binds its thread, unless it has a binding already, which stays |
| ThreadScopeTheorems.StartedThreadIsBound | gateway/thread_scope.py:95-106 | a conversation started for a class is bound to it, unless its thread has a binding already, which stays |
| ThreadScope.PublicContent | gateway/thread_scope.py:52-62 | the loop with its removed flag drops exactly the first context |
| ThreadScope.ThreadScopeStore.Lookup | gateway/thread_scope.py:87-93 | returns the bound class, if any |
| ThreadScope.ThreadScopeStore.BindThread | gateway/thread_scope.py:95-106 | binds if unbound and accepts exactly the class already bound |
| MasteryTheorems.MasteryExistsIff | backend/app/pipeline/mastery.py:89-114 | there is a mastery exactly when some evidence carries weight |
| MasteryTheorems.MasteryIsBetweenEvidence | backend/app/pipeline/mastery.py:100-110 | mastery lies between any bounds on the evidence values |
| MasteryTheorems.ShrinkageIsBetween | backend/app/pipeline/mastery.py:111-114 | shrinkage keeps it between observation and prior |
| MasteryTheorems.MoreEvidenceTrustsTheObservation | backend/app/pipeline/mastery.py:95-114 | more evidence moves the shrunk value away from the prior |
| MasteryTheorems.TimeAloneChangesNothing | backend/app/pipeline/mastery.py:82-110 | with one half-life, advancing the clock without new evidence changes nothing |
| MasteryTheorems.TimeKeepsMasteryIff | backend/app/pipeline/mastery.py:82-110 | for any evidence, time alone keeps mastery exactly when nothing has decayed or evidence of both half-lives has the same mean |
| MasteryTheorems.MixedHalfLivesDrift | backend/app/pipeline/mastery.py:82-110 | a right exam and a wrong practice of one day give one half then and two thirds sixty days later |
| MasteryTheorems.WeightHalves | backend/app/pipeline/mastery.py:82-86 | evidence has its full weight on its day and loses half of it every thirty days for diagnostics and exercises, every sixty otherwise |
| MasteryTheorems.ShrunkIs | backend/app/pipeline/mastery.py:111-114 | shrinking averages n observations with as many prior ones as the strength says |
| MasteryTheorems.GetEventsIs | backend/app/pipeline/mastery.py:23-42 | a query returns exactly the student's rows at the point up to the date, at the level if one is named, by time |
| MasteryTheorems.SortThenKeep | backend/app/pipeline/mastery.py:31-73 | filtering the sorted table is sorting the filtered one, even under a coarser order |
| MasteryTheorems.BatchGroupIsQuery | backend/app/pipeline/mastery.py:45-79 | a pair's share of the batch is what its own query returns |
| MasteryTheorems.GetEventsBatch | backend/app/pipeline/mastery.py:45-79 | grouping one batch equals a query per requested pair, and holds no other key |
| MasteryTheorems.SeriesIsMasteryAt | backend/app/pipeline/mastery.py:145-160 | the series has strictly increasing times, each entry equals mastery_at at its time, and no time with a mastery is missing |
| Mastery.ComputeMastery | backend/app/pipeline/mastery.py:89-114 | the accumulating loop computes the weighted mean and its shrinkage |
| Mastery.MasterySeries | backend/app/pipeline/mastery.py:145-160 | the loop computes the series |
| BatchTheorems.EveryCommitPointIsConsistent | backend/app/ingestion/batch.py:137-411 | at every commit point, whatever crashes or dies, a parsing item has a running job, a start time and its file, a kept name means unmatched, and matched or duplicate items name the one response of their exam and student |
| BatchTheorems.WorkerEnds | backend/app/ingestion/batch.py:212-281 | a worker that ends in its last transaction, on a lost file or in its handler of last resort leaves its item terminal |
| BatchTheorems.OrphansComeFromDeaths | backend/app/ingestion/batch.py:212-239 | unless a worker at work on it has died, a parsing item has a worker at work on it |
| BatchTheorems.DeathsOrphan | backend/app/ingestion/batch.py:236-239 | a reachable state in which a death has left an item parsing with nobody at work on it |
| BatchTheorems.OrphansAreRecovered | backend/app/ingestion/batch.py:137-169 | past its time the watchdog fails every parsing item, and a retry then queues it with a new worker as long as its file is on disk |
| BatchTheorems.ResponsesAreKept | backend/app/ingestion/batch.py:380-411 | a stored response is never lost or replaced |
| BatchTheorems.MatchIsFinalIff | backend/app/ingestion/batch.py:262-274 | in every reachable state a match, with student and response, is final over all continuations exactly when no worker is at work on the item |
| BatchTheorems.UnattendedIsFinal | backend/app/ingestion/batch.py:262-274 | whatever happens later, a matched item nobody works on stays exactly as it is and nobody starts to work on it |
| BatchTheorems.LateWorkersExist | backend/app/ingestion/batch.py:137-169 | a reachable state with a match while the worker the watchdog gave up on is still at work |
| BatchTheorems.RestartStrandsIff | backend/app/ingestion/batch.py:104-134 | whatever workers it kills, a restart strands exactly the queued items whose job was done and whose workers it kills |
| BatchTheorems.RestartCanStrand | backend/app/ingestion/batch.py:104-134 | a reachable state in which a failed item was retried in its finished job and then stranded by a restart |
| BatchTheorems.StrandedStays | backend/app/ingestion/batch.py:528-616 | nothing but a later restart touches a stranded item |
| BatchTheorems.WatchdogFailsIff | backend/app/ingestion/batch.py:137-169 | in every reachable state the watchdog fails a parsing item exactly when its start lies before the cutoff, and otherwise leaves it as it is in a running job |
| BatchTheorems.OnlyFailuresAreRetried | backend/app/ingestion/batch.py:584-600 | an unreadable sheet keeps its file and a retry queues it with a new worker; once read, its file is gone and a retry does nothing |
| BatchTheorems.TeacherKeepsInv | backend/app/ingestion/batch.py:528-616 | assigning, retrying and discarding keep every commit point consistent |
| BatchOutcomes.UploadIs | backend/app/api/routers/ingestion.py:415-456 | every uploaded sheet is a queued item of a new running job, with its file and a worker of its own |
| BatchOutcomes.BeginIs | backend/app/ingestion/batch.py:242-260 | a worker takes up its item exactly when it is still queued, and then reopens the job |
| BatchOutcomes.PersistIs | backend/app/ingestion/batch.py:333-411 | a sheet without result or template fails, without student is unmatched and keeps its answers, with one is matched with a new response or a duplicate of the response there is; the job is done exactly if its items all are |
| BatchOutcomes.BreakdownIs | backend/app/ingestion/batch.py:212-268 | a lost file fails the item, a crash unless it is finished; the job is done exactly if its items all are |
| BatchOutcomes.AssignIs | backend/app/ingestion/batch.py:528-581 | exactly unmatched items with answers are assigned, to students of the exam's class who sit it |
| BatchOutcomes.RetryIs | backend/app/ingestion/batch.py:584-600 | exactly failed items whose file is there are queued again, and the job is not reopened |
| BatchOutcomes.DiscardIs | backend/app/ingestion/batch.py:603-616 | exactly unmatched and failed items are discarded |
| BatchOutcomes.RestartIs | backend/app/ingestion/batch.py:104-134 | a restart fails the unfinished items of running jobs and calls every job done |
| BatchOutcomes.WatchIs | backend/app/ingestion/batch.py:137-169 | the watchdog fails what has been parsing since before the cutoff; a job it touched is done exactly if its items all are |
| BatchStores.BatchStore.FinalizeJob | backend/app/ingestion/batch.py:646-656 | a job is done exactly when it has items and all are terminal |
| BatchStores.BatchStore.PersistResponse | backend/app/ingestion/batch.py:380-411 | a second response of a student turns into a duplicate of the first |
| BatchStores.BatchStore.PersistBatchResult | backend/app/ingestion/batch.py:333-411 | writes failed, unmatched, matched or duplicate with the columns each keeps, stores at most one response, and finalizes the job |
| BatchStores.BatchStore.FailStale | backend/app/ingestion/batch.py:145-166 | exactly the items parsing since before the cutoff fail |
| BatchStores.BatchStore.ReconcileStaleRuntime | backend/app/ingestion/batch.py:137-169 | exactly the stale items fail, exactly their jobs without open items are done, and their number is returned |
| BatchStores.BatchStore.AssignItem | backend/app/ingestion/batch.py:528-581 | exactly an unmatched item with answers is assigned, to a student of the exam's class who sits the exam, and names the response of its exam and student |
| Access.ClassListAgrees | backend/app/auth.py:432-535 | a signed-in teacher is listed exactly the classes the assertion allows |
| Access.ClassAllowedIff | backend/app/auth.py:432-461 | a class is open exactly to administrators, its homeroom teacher and holders of a grant, and to the anonymous where security is off |
| Access.ExamAllowedIff | backend/app/auth.py:472-496 | its exam is refused exactly to teachers whose grants name subjects, none of them the exam's |
| Access.ExamListAgreesIff | backend/app/auth.py:472-512 | for any grants and any exam, filter and assertion agree exactly when the teacher is privileged, or unrestricted without restricted grants that all miss the subject, or holds both compared subjects or neither |
| Access.ExamListAgrees | backend/app/auth.py:472-512 | with one grant per class they agree on every subject but the empty text, and on that exactly when the teacher is privileged, or the class has none either, or the grant is for neither |
| Access.EmptySubjectDisagrees | backend/app/auth.py:485-506 | a teacher of just the class's subject is allowed, but not listed, an exam with the empty subject |
| Access.CollectClassIds | backend/app/auth.py:515-535 | the growing set holds granted and homeroom classes |

## Left out

- HTTP routes, SSE framing, subprocesses, DingTalk, heartbeats as threads, retention and metrics: plumbing around the modelled steps.
- `_get_or_spawn_bridge`: its single flight per key has the shape of the trigger's, which is modelled.
- The switch that turns the action plan off, the folding of the queue for display and the effect of interventions: reads that change nothing.
- Columns the modelled operations neither read nor write (retest dates, creation times, warnings, confidences of name matches, file names).
- Evidence derivation, weakness assessment, forgetting and confusion engines: their results are parameters, one assessment per point of the graph. The prerequisite engine is modelled.
- Name matching (`_match_student`) and answer parsing: the batch takes the match as given.
- Committing exams and seeding the question bank: not part of this model.
- `thread/resume` and `thread/list` forwarding: they change no binding.
- Password hashing, tokens, throttling, the LLM circuit breaker, prompts, writers, simulators, migrations, the frontend.
- Text codecs: YAML documents are records with every field present, JSON is a prefix-decodable printer, thread keys are pairs instead of dotted text.
