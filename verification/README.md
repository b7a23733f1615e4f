# API Hero: the dependency-ordered collection run and its neighbours, verified

A Dafny model of the parts of API Hero whose behaviour is hardest to see from the code, with proofs of what they keep.
Everything is proved for all inputs, all runs, or all interleavings, except where a lemma says that it exhibits one.

The modules, by concern:

- **Ordering a run.** `DependencyGraph` defines edges, closed walks and schedules and proves their theory. `TopoSort`
  (stable Kahn sort), `CycleDetection` (three-colour search), `DependRef` and `RenameDependRefs` (references by name and
  their rename cascade), `GraphBuilder` (edges from analyses), `PlanEnricher` and `EnrichAgain` (the composition).
- **Running it.** `RunOptions` and `RetryEligibility` (caps, waits, the two retry decisions), `Attempts` (the outside
  world and the attempts of one request), `RunSteps` (what a run is, and that there is only one), `CollectionRunner`
  (the class whose methods do exactly that) and `RunProperties` (statistics, aborts, progress, preflight and skips).
- **Where a plan comes from.** `Collections`, `FolderChain` (how discovery makes folders), `PlanBuilder` (the plan's
  walk), `RunSetup` (the Setup list, tree and selection) and `TreeProjection` (the explorer).
- **Protocols as steps.** `Discovery` (single-flight refresh with a trailing re-run), `SecretRepository` with
  `SecretKeys` (per-field lock and lazy migration), `WebSocketSession` (the bounded session as an event machine),
  `Redirects` (the redirect chain against an arbitrary server).
- **Meaning and refinement.** `JsonTypes`, `TypeInference`, `TypeDeclarations` (TypeScript from JSON), `CurlTokenizer`
  and `CurlLines` (tokenizer against shell quoting and against whole command lines), `HistoryRepository` and
  `FileHistoryStore` (the file store against the in-memory repository).
- `Wrappers`, `Sequences` and `Utf8` hold what several modules share.

How the source's shape is kept: objects whose methods update fields are classes with those fields; loops are loops.
A stateful class comes with a specification function on values (`Step`, `FileStep`, `Operate`): each method equates its
new state with that function of the old one, and the lemmas are about runs of the function. Executors, servers, file
systems, clocks and abort signals are arbitrary: parameters, or functions of a clock that is read once per use. The
runner's contract accounts for every tick of that clock: which attempt was made when, what the executor did then, and
when the signal, the static names and the file were read.

Where a module defines a rule once, as a function that both the model and its properties use (what counts as a
blank, which statuses redirect, when a header goes, how a result is mapped), a lemma states that rule again in terms
of its inputs alone, literals included, so that it does not rest on its own definition: `HeaderGoesOnIff`,
`PendingReacts`, `ExecutedOutcome`, `AttemptedHadItsVariables`, `LineReads` and others in the table.

Some laws that the documentation states, or that a reader would expect, fail for some inputs. Each is given with a
concrete input and with the exact condition under which the code keeps it:

- The secret keys are said to keep fields apart because their parts are URI-encoded
  (`src/constants/secrets.ts:12`). Percent-encoding leaves `.` alone, so two fields share a secret exactly when their
  dotted names coincide (`KeysCollideIff`). When their locks differ, as they do for profile `a.b` with field `c` and
  profile `a` with field `b.c` (`DottedNamesAreUncovered`), a migrating read can bring a deleted secret back
  (`UncoveredSecretCanReturn`); calls on a set of fields behave in every run as if made one at a time exactly when
  the locks of the set cover its secrets (`SequentialIffLocksCover`). Fields whose names hold no dot are safe
  (`DotFreeNamesSeparate`).
- A rename keeps the meaning of every token that resolved, except the bare new name (`RenameKeepsMeaning`), which is
  always ambiguous afterwards (`CollidingTokenIsAmbiguous`, and `RenameCanBreakAToken` for a smallest case).
- A refresh is sure to hand its caller a scan begun no earlier than the call exactly when it is not called between a
  loop's exit and its `finally` (`SureToBeFreshIff`): in every reachable state in that gap, some continuation hands
  the caller an older snapshot (`GapCallCanBeStale`, `ExitGapIsReachable`).
- The file store's retention cap holds after a change of the cap exactly unless the list should have been trimmed and
  could not be, because the write failed or because nothing was loaded yet and the read failed
  (`FailedCapOverflowsIff`, `UnreadCapChangeOverflows`). A store opened over a file longer than its cap shows all of
  it (`OpenedStoreIsWithinCapIff`). What every operation does to the cap is `StepIsWithinCapIff`: a successful append,
  clear or cap change restores it until a cap change fails (`TrimmedRunStaysWithinCap`); a successful delete restores
  it only when the list was over by one (`DeleteIsWithinCapIff`).
- Quoting for the shell and tokenizing again returns the values exactly when none contains a backslash before a line
  break, because continuations are joined before quotes are read (`QuotingRoundTripsIff`, `ContinuationIsLost`).
- Cross-origin redirects strip every header listed as sensitive exactly when each listed name is covered in lower
  case (`SensitiveIsStrippedIff`, `MixedCaseNameIsCarriedOver`).

That the Setup list equals the plan's walk is not a theorem here: the source has the traversal twice
(`plan-builder.ts:115-164`, `collection-run-setup-model.ts:646-695`), in the same text, and the model has one function
for both (`PlanBuilder`). What is proved is that a selection mapped back to a target, the Setup tree and the explorer,
which are computed otherwise, agree with that walk.

The order that breaks ties between independent requests is that of the dependency analyses
(`src/dependencies/graph-builder.ts:53`); where it differs from the plan's own order, the code follows the analyses
although `src/dependencies/topo-sort.ts` speaks of membership order, and so does the model.

## Model

| member | source | states |
|---|---|---|
| TopoSort.TopoSort | src/dependencies/topo-sort.ts:22-73 | always a permutation of the nodes; `reordered` exactly when it differs from them; on an acyclic graph the lexicographically least schedule by original position, so a valid order is left alone; on any graph greedy as far as nodes are ready, then the rest in original order |
| TopoSort.InsertSorted | src/dependencies/topo-sort.ts:75-85 | inserts into an ascending list at its place, keeping it ascending |
| TopoSort.FirstReadyIsGreedy | src/dependencies/topo-sort.ts:46-58 | the head of the sorted ready list is the least enabled node, so taking it keeps the order greedy |
| DependencyGraph.GreedyIsLeast | src/dependencies/topo-sort.ts:46-58 | a greedy order over all nodes precedes every other schedule in lexicographic order |
| DependencyGraph.AcyclicIffSchedulable | src/dependencies/topo-sort.ts:60-70 | a graph has a schedule exactly when no closed walk runs through it |
| DependencyGraph.ValidOrderIsLeast | src/dependencies/topo-sort.ts:72 | when the original order already satisfies every edge, the least schedule is that order |
| CycleDetection.DetectCycles | src/dependencies/cycle-detector.ts:16-61 | reports a cycle exactly when the graph restricted to its nodes is not acyclic; every reported path is a closed walk along edges with distinct interior; no two cover the same nodes |
| CycleDetection.CycleDetector.Visit | src/dependencies/cycle-detector.ts:33-52 | the recursive search finishes the node, restores the stack and ends because the unvisited nodes run out |
| CycleDetection.SinksFirstIsAcyclic | src/dependencies/cycle-detector.ts:33-61 | if every node finished after all its successors, there is no closed walk |
| CycleDetection.StackSuffixIsCycle | src/dependencies/cycle-detector.ts:40-47 | an edge back into the stack closes a walk whose interior nodes are distinct |
| DependRef.RoundTrip | src/dependencies/depend-ref.ts:37-74 | parsing a formatted reference gives it back exactly when it is well formed |
| DependRef.ParsedRefIsWellFormed | src/dependencies/depend-ref.ts:37-63 | whatever the parser accepts is well formed |
| DependRef.TrimTakesBlanks | src/dependencies/depend-ref.ts:37-63 | trimming takes blanks off both ends and nothing else |
| DependRef.FoundIffDenotesOne | src/dependencies/depend-ref.ts:120-140 | resolution finds an entry exactly when the reference denotes one entry and no other, and finds that one |
| DependRef.MinimalRefResolves | src/dependencies/depend-ref.ts:101-118 | with unique folder and name pairs, the minimal reference of an entry resolves to that entry |
| RenameDependRefs.RenameKeepsMeaning | src/dependencies/rename-depend-refs.ts:40-112 | in every other document a token that resolved resolves to the same request afterwards exactly when it is not the bare new name |
| RenameDependRefs.CollidingTokenIsAmbiguous | src/dependencies/rename-depend-refs.ts:81-112 | the bare new name, where it resolved to another request, is ambiguous afterwards |
| RenameDependRefs.RenameCanBreakAToken | src/dependencies/rename-depend-refs.ts:81-112 | two requests for which that happens |
| RenameDependRefs.TargetsIffResolvesToIt | src/dependencies/rename-depend-refs.ts:114-139 | a resolving token is rewritten exactly when it resolves to the renamed request |
| RenameDependRefs.OtherTokenKeepsMeaning | src/dependencies/rename-depend-refs.ts:81-112 | an untouched token keeps its target exactly when it is not the bare new name |
| RenameDependRefs.PlanDependRefRewrites | src/dependencies/rename-depend-refs.ts:40-79 | lists exactly the documents the cascade changes, in order, never the renamed request's own |
| RenameDependRefs.ListedIffChanged | src/dependencies/rename-depend-refs.ts:49-78 | the list is, in order, every document the cascade changes, in its new form |
| RenameDependRefs.ChangesIff | src/dependencies/rename-depend-refs.ts:49-139 | another document is changed exactly when a token of it that resolved to the renamed request is spelled otherwise now |
| GraphBuilder.BuildDependencyGraph | src/dependencies/graph-builder.ts:48-113 | builds the specified edges, nodes and unresolved variables, or fails with the first token that does not resolve |
| GraphBuilder.GraphMeaning | src/dependencies/graph-builder.ts:48-113 | there is an edge exactly when one request produces what another consumes, or the other names it |
| GraphBuilder.EdgeMeaning | src/dependencies/graph-builder.ts:65-110 | an implicit edge carries a variable that one end produces and the other consumes; an explicit one carries none, and the other end names it |
| GraphBuilder.UnresolvedMeaning | src/dependencies/graph-builder.ts:65-73 | a consumed variable is reported unresolved exactly when no other request produces it |
| GraphBuilder.TokensDecide | src/dependencies/graph-builder.ts:94-110 | the explicit edges exist exactly when every token resolves to one request |
| GraphBuilder.TokenResolvesIff | src/dependencies/graph-builder.ts:123-166 | a token resolves to the one entry it refers to, is ambiguous with several and unknown with none |
| PlanEnricher.EnrichRunPlan | src/dependencies/plan-enricher.ts:35-154 | every outcome with what it means: an enriched plan in least schedule order, a rejected token, real cycles, or an unknown id |
| PlanEnricher.EnrichedIff | src/dependencies/plan-enricher.ts:35-154 | enrichment succeeds exactly when every token resolves, the graph is acyclic and the plan lists every analysed request; with analyses of the plan's own requests, in any order, the unknown-id failure is unreachable |
| PlanEnricher.EnrichedPlanIsOrdered | src/dependencies/plan-enricher.ts:85-154 | the analysed requests, numbered 0 to n-1, members kept, everything that must precede a request before it; a permutation of the membership plan exactly when the analyses are of its requests |
| PlanEnricher.EnrichedFields | src/dependencies/plan-enricher.ts:91-124 | each request carries what its own analysis produces and consumes, and exactly the ids its tokens name |
| EnrichAgain.EnrichingAgainChangesNothing | src/dependencies/plan-enricher.ts:35-154 | enriching the result again, with the analyses in their first order or in the enriched one, is never refused, lists the very same requests and reports no reordering |
| EnrichAgain.TokenResolutionIgnoresOrder | src/dependencies/graph-builder.ts:123-166 | how a token resolves does not depend on the order of the index |
| RunOptions.NormalizeCollectionRunOptions | src/collection-runner/run-options.ts:79-124 | retries at most 10, delay at most 60000 ms; retrying and skipping only if asked for; whatever is given is used, numbers that are not negative as far as the caps allow; what is missing or negative becomes 2 retries, 500 ms, exponential |
| RunOptions.KeptIffWithinCaps | src/collection-runner/collection-runner.ts:121 | options are kept exactly when within the caps, so the run, which normalizes what the plan's builder normalized, agrees with it |
| RunOptions.WaitsNeverShrink | src/collection-runner/retry-eligibility.ts:170-186 | under either backoff a later wait is no shorter |
| RunOptions.WaitsDoubleToCap | src/collection-runner/retry-eligibility.ts:170-186 | exponential waits double until the cap; the first equals the fixed wait |
| RunOptions.TotalWaitIsCapped | src/collection-runner/retry-eligibility.ts:170-186 | any number of waits add up to at most that many caps |
| RunOptions.WaitInFull | src/collection-runner/retry-eligibility.ts:170-186 | every wait in full: the delay, doubled for each wait before when exponential, at most a minute |
| RunOptions.DestructiveIff | src/collection-runner/run-options.ts:238-240 | the destructive method is DELETE in any letter case with blanks around it |
| RetryEligibility.EligibleIffRetryRule | src/collection-runner/retry-eligibility.ts:107-163 | the branches amount to one rule: a retryable status not vouched for by passed assertions, or a transport failure without status |
| RetryEligibility.DecisionsAgree | src/collection-runner/retry-eligibility.ts:261-299 | withholding side effects, decided on the facts, and retrying, decided on the mapped result, are the same decision for every mix of outcomes |
| RetryEligibility.UnexecutedIsFinal | src/collection-runner/collection-runner.ts:615-660 | outcomes reached without executing are never retried |
| RetryEligibility.ExecutedOutcome | src/collection-runner/collection-runner.ts:615-720 | what an executed attempt is reported as: cancelled, or failed with the first of transport, assertions, GraphQL and a committed extraction to fail, or else passed |
| RetryEligibility.UnexecutedOutcome | src/collection-runner/collection-runner.ts:689-720 | an attempt that never executed is cancelled, or for an unmet precondition what the policy says |
| RetryEligibility.ExecutedIsRetriedIff | src/collection-runner/retry-eligibility.ts:107-163 | an executed attempt is worth another exactly for 408, 429, 502, 503 or 504 that no report vouches for, or a transport error that may be retried |
| Attempts.CommitMeansFinal | src/collection-runner/collection-runner.ts:359-422 | while retries remain, a committed attempt is never retried and a completed uncommitted one always is |
| Attempts.RetriesAreBounded | src/collection-runner/collection-runner.ts:314-453 | after normalization at least one attempt exactly when the loop starts without abort, at most maxRetries + 1, at most 11; fewer only because one was not to be retried or the loop was cut off; waits non-decreasing and at most 600000 ms in all |
| Attempts.CommitsAtMostOnce | src/collection-runner/collection-runner.ts:359-422 | of the executor's calls for a request at most one commits, the last; one that executed and is final commits |
| Attempts.AttemptsAreDetermined | src/collection-runner/collection-runner.ts:314-453 | the loop's start and the outside world decide its attempts |
| Attempts.AttemptsAreOnRecord | src/collection-runner/collection-runner.ts:456-508 | every attempt is on record under its number and status, one that another was to follow as failed and retryable |
| Attempts.ResultIsLastOutcome | src/collection-runner/collection-runner.ts:409-453 | the result is what the executor's last call came to, or a cancellation where the loop was cut off |
| Attempts.WritesInFull | src/collection-runner/collection-runner.ts:359-370 | a call stores its extracted values exactly when it ran, was not cancelled at transport and was final |
| CollectionRunner.CollectionRunnerService.RunWithRetries | src/collection-runner/collection-runner.ts:314-453 | every attempt is what the executor did at its clock, made with the signal clear just before, and followed by another exactly when retries remain, it is eligible and neither delay nor signal cuts the loop off; result, store, clock and progress events are those of the attempts |
| CollectionRunner.CollectionRunnerService.FindPreflightSkipReason | src/collection-runner/collection-runner.ts:551-592 | no reason exactly when there is no store or every incoming variable is stored or among the static names read at that moment; a reason names the first edge that is not supplied and how its producer fared |
| CollectionRunner.CollectionRunnerService.ExecuteOne | src/collection-runner/collection-runner.ts:252-453 | how the step ended, when, and with which result: by the signal, the preflight, the destructive check, the unreadable file, or its attempts |
| RunSteps.StepIsDetermined | src/collection-runner/collection-runner.ts:252-453 | the clock, the store and the earlier results decide a step |
| CollectionRunner.CollectionRunnerService.Execute | src/collection-runner/collection-runner.ts:118-250 | the run is the run of its setting: a prefix of proper steps, each begun with the signal clear and in the store that the ones before it left, and a uniform rest; cancelled only for a cancelled request or an abort read; final store and progress events are those of its steps |
| RunSteps.RunIsDetermined | src/collection-runner/collection-runner.ts:118-250 | plan, options, store and outside world decide every result, attempt, store and the status |
| RunProperties.BuildRunStatistics | src/collection-runner/models.ts:420-500 | counts each outcome and each failure category and sums the assertions; the outcomes add up to the number of results, the categories to no more |
| RunProperties.AssertionsAddUp | src/collection-runner/collection-runner.ts:925-937 | over a run no more assertions passed or failed than there were |
| RunProperties.NothingIsAttemptedAfterAbort | src/collection-runner/collection-runner.ts:143-165 | once the signal is aborted the executor is not called again |
| RunProperties.CancelledRunHasCause | src/collection-runner/collection-runner.ts:143-250 | a run is cancelled only if, while it lasted, the signal was aborted, a delay rejected or the executor cancelled |
| RunProperties.ReachedOutcome | src/collection-runner/collection-runner.ts:252-311 | what is reported of a request that was begun, by the way its step ended |
| RunProperties.RestOutcome | src/collection-runner/collection-runner.ts:143-165 | a request never begun is skipped after a policy stop and cancelled otherwise |
| RunProperties.DestructiveIsSkippedIff | src/collection-runner/collection-runner.ts:276-290 | a request that misses nothing is skipped as destructive exactly when the option is on and its method is |
| RunProperties.ProgressClimbs | src/collection-runner/collection-runner.ts:134-245 | each progress event's counts add up to the number of requests and the completed count never falls |
| RunProperties.AttemptIsAnnounced | src/collection-runner/collection-runner.ts:335-341 | an attempt is announced when more than one is allowed, and the wait for the next behind it |
| RunProperties.AttemptedHadItsVariables | src/collection-runner/collection-runner.ts:551-592 | a request is attempted only when every variable an implicit edge carries to it was stored initially, written before, or among the static names read for it |
| RunProperties.SkippedIffMissing | src/collection-runner/collection-runner.ts:565-590 | a request reached without abort is skipped for a variable exactly when an edge carries it a missing one |
| RunProperties.BlamedEdgeIsFirst | src/collection-runner/collection-runner.ts:576-590 | the reason names the first edge, in the plan's order, that carries the request a missing variable |
| RunProperties.BlamedStateIsResult | src/collection-runner/collection-runner.ts:594-608 | the reason says how the blamed producer fared |
| RunProperties.BlamedProducerWasReached | src/collection-runner/collection-runner.ts:594-608 | where producers are listed first, no skip reason says that the producer did not run |
| RunProperties.StoppedRunHasOneFailure | src/collection-runner/collection-runner.ts:143-250 | a run stops only under stop-on-first-error, after exactly one failure and with nothing cancelled |
| RunProperties.CompletedRunIsClean | src/collection-runner/collection-runner.ts:143-250 | a completed run dealt with every request and cancelled none; under stop-on-first-error none failed |
| RunProperties.EnrichedPlanListsProducersFirst | src/collection-runner/collection-runner.ts:551-608 | in an enriched plan every implicit producer stands before its consumer, so a preflight never reports that one did not run |
| RunProperties.DiscoveredPlanRunsProducersFirst | src/collection-runner/plan-builder.ts:56-113 | the plan of a discovered collection, folder or selection without repeats, once enriched, is a permutation of the walk, names each request once and lists producers first |
| RunProperties.StarvedIsNotAttempted | src/collection-runner/collection-runner.ts:265-275 | a request waiting on a variable that is neither in the initial store, nor among the static names its preflight read, nor produced by a request attempted, is never attempted |
| RunProperties.SkipsPropagate | src/collection-runner/collection-runner.ts:551-592 | along a chain of sole producers, one request not attempted takes all later ones with it |
| FolderChain.EnsureFolderChain | src/collections/discovery.ts:485-526 | makes exactly the missing folders of a path, parents first, keeping the forest well linked and every folder's relative path the joined path to it |
| FolderChain.JoinPathIsInjective | src/collections/discovery.ts:485-526 | paths whose segments hold no slash and are not empty join to different relative paths |
| FolderChain.ForestIsRanked | src/collections/discovery.ts:485-526 | such a forest is well-founded |
| FolderChain.ForestListsByParent | src/collections/discovery.ts:485-526 | a folder is listed exactly where its parent is named, once |
| PlanBuilder.BuildRunPlan | src/collection-runner/plan-builder.ts:56-113 | fails exactly for a missing collection or folder; otherwise the target's requests in walk order, numbered, with their folder's path |
| PlanBuilder.PlannedInFull | src/collection-runner/plan-builder.ts:166-188 | what a plan takes from each listed request, and where it says the request lies |
| PlanBuilder.RefusedIff | src/collection-runner/plan-builder.ts:56-113 | a target is refused only for a collection or folder that is not there |
| PlanBuilder.CollectFolderRequests | src/collection-runner/plan-builder.ts:132-150 | child folders depth first, then the folder's own requests, missing ones left out |
| PlanBuilder.SelectRequests | src/collection-runner/plan-builder.ts:152-164 | the known ids in the caller's order |
| PlanBuilder.FolderWalkIff | src/collection-runner/plan-builder.ts:132-150 | the walk visits exactly the requests listed at or below the folder |
| PlanBuilder.CollectionWalkIsDistinct | src/collection-runner/plan-builder.ts:115-130 | where listings agree with the parents named, a whole run visits each request once |
| PlanBuilder.PlannedIdsAreDistinct | src/collection-runner/plan-builder.ts:56-113 | so every plan names each id once, as enrichment asks, unless the caller selects one twice |
| RunSetup.SelectionNamesEachOnce | src/collection-runner/collection-run-setup-model.ts:318-356 | a selection made on the Setup screen of such a target selects no request twice |
| RunSetup.SelectionPlansSelected | src/collection-runner/collection-run-setup-model.ts:318-356 | for all three kinds of target, the plan of the mapped selection is exactly the selected requests in the target's order |
| RunSetup.WholeSelectionKeepsTarget | src/collection-runner/collection-run-setup-model.ts:329-349 | the original target is kept exactly when everything listed is selected |
| RunSetup.BuildRequestTree | src/collection-runner/collection-run-setup-model.ts:539-586 | the tree shows the target's requests in walk order, ticked as selected; its folder nodes are the folders to be shown, each before the requests beside it, ordered and nested as in the collection, each with its own folder's requests |
| RunSetup.ProjectFolder | src/collection-runner/collection-run-setup-model.ts:588-627 | a folder is left out exactly when narrowed to nothing; ticked exactly when it holds requests and all are selected |
| RunSetup.TreeListsSetupIds | src/collection-runner/collection-run-setup-model.ts:252-298 | for a collection or folder the tree lists what the Setup list does, in order; for a selection, the selected ids that the collection lists |
| TreeProjection.CollectionWalksInOrder | src/collections/tree-projection.ts:70-130 | the explorer's depth-first walk of a collection is the run's order |
| TreeProjection.FolderWalksInOrder | src/collections/tree-projection.ts:105-124 | and so for a folder |
| Discovery.ScansNeverOverlap | src/collections/discovery.ts:101-138 | over every interleaving at most one scan runs and snapshots are stored in the order their scans began |
| Discovery.RestingSnapshotIsFresh | src/collections/discovery.ts:101-138 | at rest the stored snapshot's scan began no earlier than any call |
| Discovery.PromptCallIsFresh | src/collections/discovery.ts:101-119 | a call not made between a loop's exit and its `finally` resolves with a scan begun no earlier than the call |
| Discovery.SureToBeFreshIff | src/collections/discovery.ts:101-119 | in every reachable state, the next call is sure to be handed such a scan, whatever follows, exactly when the state is not in that gap |
| Discovery.GapCallCanBeStale | src/collections/discovery.ts:104-118 | from every state in that gap there is a run in which the next call is handed an older snapshot |
| Discovery.NothingIsStranded | src/collections/discovery.ts:101-138 | a state is at rest exactly when no event but a new call is possible |
| Discovery.EventsRunOut | src/collections/discovery.ts:101-138 | without a new call only so many events are possible, so the drain loop ends |
| Discovery.EveryCallResolves | src/collections/discovery.ts:101-138 | once none is possible, every call has its snapshot |
| Discovery.CollectionDiscoveryService.Refresh | src/collections/discovery.ts:101-112 | one call of refresh is the specified step and keeps the invariant |
| Discovery.CollectionDiscoveryService.TestQueue | src/collections/discovery.ts:131-138 | one turn of the drain loop is the specified step and keeps the invariant |
| Discovery.CollectionDiscoveryService.ResumeWaiter | src/collections/discovery.ts:103-107 | a waiter's continuation is the specified step and keeps the invariant |
| SecretKeys.KeysCollideIff | src/constants/secrets.ts:14-30 | two fields share a key exactly when their dotted names coincide |
| SecretKeys.DotFreeNamesSeparate | src/constants/secrets.ts:10-19 | fields whose names hold no dot share a key exactly when they are the same |
| SecretKeys.EncodeIsInjective | src/constants/secrets.ts:18 | URI-encoding can be read back |
| SecretKeys.EncodesCharacter | src/constants/secrets.ts:18 | letters, digits and nine marks stand for themselves; any other character is its UTF-8 bytes as percent signs and hexadecimal digits |
| SecretKeys.KeysInFull | src/constants/secrets.ts:1-30 | the two keys of a field |
| Utf8.EncodesInFull | src/execution/websocket-transport.ts:214 | as few bytes as do, the first telling how many, whose bits give the character again |
| SecretRepository.AnswersAreSequential | src/auth/authentication-resolver.ts:45-107 | over every interleaving each answer is what calls run one at a time in issue order on one optional value would give |
| SecretRepository.SettledSecretIsSequential | src/auth/authentication-resolver.ts:45-107 | once the calls on a secret have finished, the store shows the value they would leave one at a time |
| SecretRepository.GetReadsLastWrite | src/auth/authentication-resolver.ts:45-70 | a read answers with the last write issued before it, however many reads and failed migrations lie between |
| SecretRepository.OperateStaysOnCourse | src/auth/authentication-resolver.ts:49-69 | no store operation of a read or failed migration changes the visible value; a finished call leaves what it should |
| SecretRepository.MigrationMovesSecret | src/auth/authentication-resolver.ts:49-69 | a migration that succeeds moves the value to the canonical key and leaves no legacy key |
| SecretRepository.FailedWriteKeepsLegacy | src/auth/authentication-resolver.ts:62-68 | a migration that cannot write answers all the same and keeps the legacy key |
| SecretRepository.StoreAndDelete | src/auth/authentication-resolver.ts:72-89 | a store writes the canonical key alone; a delete removes both keys |
| SecretRepository.SequentialIffLocksCover | src/auth/authentication-resolver.ts:45-107 | calls on given fields behave, in every run, as if made one at a time exactly when fields that share a secret share a lock |
| SecretRepository.UncoveredSecretCanReturn | src/auth/authentication-resolver.ts:91-107 | for any two fields that share a secret but not a lock, a run in which a deleted secret comes back |
| SecretRepository.DottedNamesAreUncovered | src/constants/secrets.ts:14-30 | two fields that share a secret but not a lock |
| SecretRepository.NothingIsStranded | src/auth/authentication-resolver.ts:91-107 | while a call is unfinished, some call may run |
| SecretRepository.DefaultAuthenticationSecretRepository.WithFieldLock | src/auth/authentication-resolver.ts:91-107 | queues the call behind the latest one on its field and keeps the invariant |
| SecretRepository.DefaultAuthenticationSecretRepository.Resume | src/auth/authentication-resolver.ts:45-89 | one store operation of a call is the specified step and keeps the invariant |
| WebSocketSession.SettlesAtMostOnce | src/execution/websocket-transport.ts:104-137 | for every order of events the promise is settled at most once and later events leave it |
| WebSocketSession.FulfilledIsFirstFrame | src/execution/websocket-transport.ts:196-240 | a fulfilled result is the first frame delivered, a text within the limit, handed over by the timer or by the close whose code and reason it carries |
| WebSocketSession.RejectionNamesItsEvent | src/execution/websocket-transport.ts:139-268 | a rejection's kind and code are those of the event that ended the session and of what had happened before it |
| WebSocketSession.FulfilledIsWithinLimit | src/execution/websocket-transport.ts:211-221 | a fulfilled message is no longer in bytes than a positive limit |
| WebSocketSession.PendingReacts | src/execution/websocket-transport.ts:139-268 | after any events that left it pending, whether and how the session settles on the next, told from those events alone |
| WebSocketSession.BeginsSettled | src/execution/websocket-transport.ts:97-147 | a constructor that throws or a signal already aborted settles the session before any event |
| WebSocketSession.NoMessageIsUnreachable | src/execution/websocket-transport.ts:120-128 | the branch for a missing message is never taken |
| WebSocketSession.SettlementCleansUp | src/execution/websocket-transport.ts:104-116 | after settlement no timer and no listener is left and the socket is let go |
| WebSocketSession.AcceptedFrameSettles | src/execution/websocket-transport.ts:224-228 | an accepted frame keeps the timer armed until settlement, and the timer hands it over |
| WebSocketSession.PendingCanAlwaysEnd | src/execution/websocket-transport.ts:139-268 | a close, an error or an abort always ends a pending session |
| WebSocketSession.NodeWebSocketSession.OnMessage | src/execution/websocket-transport.ts:196-240 | the message handler is the specified step |
| WebSocketSession.NodeWebSocketSession.Complete | src/execution/websocket-transport.ts:104-137 | settles once, releases everything, then rejects or resolves |
| Redirects.SendsAreBounded | src/execution/node-http-transport.ts:29-41 | no sends for an invalid limit, otherwise at most the limit and one |
| Redirects.ResultMatchesChain | src/execution/node-http-transport.ts:87-162 | the response counts the hops and names the last URL; the limit is exceeded exactly when one more redirect is asked for |
| Redirects.PolicyDecidesRedirects | src/execution/node-http-transport.ts:103-152 | redirects are followed under `follow` only, rejected under `error`, and come back as a response under `manual` only |
| Redirects.ChainOfHops | src/execution/node-http-transport.ts:43-162 | each send but the first is the redirect asked for, and the last reply ends the chain |
| Redirects.ExecutionIsChain | src/execution/node-http-transport.ts:29-162 | the sends of every execution that sends at all form a chain of the kind the other results are about |
| Redirects.HopKeepsTheRest | src/execution/node-http-transport.ts:170-214 | a hop takes away exactly the entity, sensitive and Host headers it should and keeps the others as often as they stood |
| Redirects.HeadersOnlyShrink | src/execution/node-http-transport.ts:170-214 | over a chain a header is kept unless some hop strips it |
| Redirects.NoSensitiveHeaderAfterLeaving | src/execution/node-http-transport.ts:189-197 | where listed names are covered in lower case, no request after a cross-origin hop carries a sensitive header, not even back at the first origin |
| Redirects.SensitiveIsStrippedIff | src/execution/contracts.ts:172-173 | cross-origin hops strip every header listed as sensitive, in any letter case, exactly when each listed name is built in or listed in lower case, as the contract asks |
| Redirects.RewriteIsForGood | src/execution/node-http-transport.ts:177-213 | method and body are the caller's until a rewriting hop, then GET without a body for good |
| Redirects.PreservingChainKeepsMethodAndBody | src/execution/node-http-transport.ts:177-213 | a chain of 307 and 308 replies keeps method and body |
| Redirects.HostHeaderStaysWithHost | src/execution/node-http-transport.ts:198-202 | a Host header goes no further than its host |
| Redirects.HopMethodAndTarget | src/execution/node-http-transport.ts:103-214 | a hop follows 301, 302, 303, 307 or 308 to its Location: GET without a body after 303, and after 301 or 302 to a POST; else the same method and body |
| Redirects.HeaderGoesOnIff | src/execution/node-http-transport.ts:170-214 | a header goes on exactly when no rule takes it: entity headers where the method is rewritten, credentials and listed names where scheme or host change, host where the host does |
| Redirects.LimitInFull | src/execution/node-http-transport.ts:33-41 | twenty redirects by default; no send for a limit that is no safe count |
| Redirects.EndInFull | src/execution/node-http-transport.ts:87-162 | how a chain ends, by what the last reply was |
| TypeInference.InferContext.InferType | src/codegen/typescript-from-json.ts:393-449 | every value inhabits the type inferred for it, whatever the depth limit; every part of the type is exhibited by the value; every union in it, at any depth, has at least two alternatives, none a union, at most one an object, no two the same, `null` last |
| TypeInference.InferContext.MergeTypes | src/codegen/typescript-from-json.ts:587-613 | an upper bound of both sides that is tight whenever they are, with its unions in that form; the left side when they are the same, an object for objects, an array for arrays; ends because depth falls |
| TypeInference.InferContext.MergeObjects | src/codegen/typescript-from-json.ts:615-658 | an object type that is an upper bound of both, tight whenever they are |
| TypeInference.InferContext.FlattenUnion | src/codegen/typescript-from-json.ts:667-697 | every member is covered by an entry of the result |
| TypeInference.InferContext.AllocateName | src/codegen/typescript-from-json.ts:467-483 | returns the name asked for when free, else with the least number from 2 on that makes it free, and reserves it; ends because only so many are taken |
| TypeInference.ObjectSubsumes | src/codegen/typescript-from-json.ts:615-658 | merging properties key by key admits every value of both objects |
| JsonTypes.SameTypeSameValues | src/codegen/typescript-from-json.ts:539-585 | types found the same, which is symmetric, have the same values |
| JsonTypes.ReorderedIsSame | src/codegen/typescript-from-json.ts:539-585 | objects that list the same properties in any order and under any name are found the same |
| JsonTypes.SameTypeIsTransitive | src/codegen/typescript-from-json.ts:539-585 | being found the same is transitive |
| TypeDeclarations.RenamingKeepsValues | src/codegen/typescript-from-json.ts:502-537 | renaming references changes no type's values |
| TypeDeclarations.RenamedIsSame | src/codegen/typescript-from-json.ts:502-537 | a renamed type is found the same |
| TypeDeclarations.GenerateDeclarations | src/codegen/typescript-from-json.ts:174-245 | the value inhabits the root type and exhibits every part of it; the emitted names are the registered ones the root refers to, in the order met, then the root's, pairwise distinct |
| CurlTokenizer.TokenizeCurlCommand | src/curl/curl-tokenizer.ts:35-142 | the loops compute the specified reading, failures included |
| CurlTokenizer.TokensAreWords | src/curl/curl-tokenizer.ts:49-141 | every token is the word at its offset and begins behind the one before |
| CurlTokenizer.TokenizeUndoesQuoting | src/curl/shell-escape.ts:5-7 | tokenizing quoted values returns them, each with its continuations joined |
| CurlTokenizer.QuotingRoundTripsIff | src/curl/curl-tokenizer.ts:35-147 | unchanged exactly when none contains a backslash before a line break |
| CurlTokenizer.ContinuationIsLost | src/curl/curl-tokenizer.ts:144-147 | a value that does not come back |
| CurlTokenizer.ReadsDoubleQuotedBack | src/curl/curl-tokenizer.ts:93-128 | a double-quoted word reads back the value whose quotes, backslashes, `$` and backquotes stand behind backslashes |
| CurlTokenizer.JoinIsIdentityIff | src/curl/curl-tokenizer.ts:144-147 | joining changes a text exactly when it contains a continuation |
| CurlLines.LineReads | src/curl/curl-tokenizer.ts:35-151 | every line of bare, escaped, single- and double-quoted pieces, set apart by any of five blanks and by comments, tokenizes to the words it means |
| CurlLines.OpenQuoteFails | src/curl/curl-tokenizer.ts:73-128 | a word that runs into an open quote fails with that quote's error |
| CurlLines.TooLargeIff | src/curl/curl-tokenizer.ts:36-42 | input is too large exactly beyond 262144 characters |
| CurlLines.ContinuationGoes | src/curl/curl-tokenizer.ts:144-147 | a backslash before LF or CR LF goes, and all else stays in place |
| HistoryRepository.ListIsNewestFirst | src/history/repository.ts:158-211 | from empty, the list holds only entries appended last under their id and not removed since, newest first, each id once |
| HistoryRepository.LiveIsListedIff | src/history/repository.ts:158-211 | while nothing was trimmed, the list holds exactly the entries appended last under their id and not removed since |
| HistoryRepository.NewestAreKept | src/history/repository.ts:166-211 | with trimming and no removals, the list is the newest of all those entries, as many as the cap |
| HistoryRepository.PagesJoinUp | src/history/repository.ts:171-181 | consecutive pages join up; negative offsets count as none and negative limits give nothing |
| HistoryRepository.PageInFull | src/history/repository.ts:171-181 | every entry of a page and how many there are |
| HistoryRepository.RetentionInFull | src/history/repository.ts:213-218 | a retention that is missing or no positive safe integer is a thousand |
| HistoryRepository.InMemoryHistoryRepository.Append | src/history/repository.ts:166-169 | the new entry first, its older namesake gone, trimmed to the cap |
| FileHistoryStore.StepRefinesMemory | src/history/file-history-store.ts:61-139 | a successful operation answers and acts as the in-memory repository; a failed one leaves the entries, and all but a changed cap |
| FileHistoryStore.RunRefinesMemory | src/history/file-history-store.ts:61-139 | a run in which no cap change fails is a run of the in-memory repository on the operations that did not fail |
| FileHistoryStore.RunKeepsCoherence | src/history/file-history-store.ts:132-139 | over every run the cache equals the file and ids are distinct |
| FileHistoryStore.StoredListIsNewestFirst | src/history/file-history-store.ts:61-126 | the stored list is newest first by the appends that did not fail |
| FileHistoryStore.TrimmingWritesRestoreCap | src/history/file-history-store.ts:61-126 | every successful append, clear or cap change leaves the list within the cap |
| FileHistoryStore.DeleteIsWithinCapIff | src/history/file-history-store.ts:91-102 | after a successful delete the list is within the cap exactly when one entry less was |
| FileHistoryStore.FailedCapOverflowsIff | src/history/file-history-store.ts:115-126 | a cap change leaves the store over its cap exactly when it should trim and the write fails, or nothing was loaded yet and the read fails |
| FileHistoryStore.StepIsWithinCapIff | src/history/file-history-store.ts:61-126 | for every operation and failure, exactly when the list is within the cap afterwards |
| FileHistoryStore.OpenedStoreIsWithinCapIff | src/history/file-history-store.ts:47-89 | a store just opened is within its cap, through any reads, exactly when its file is no longer than the cap |
| FileHistoryStore.TrimmedRunStaysWithinCap | src/history/file-history-store.ts:61-126 | after a successful append, clear or cap change the list stays within the cap until a cap change fails |
| FileHistoryStore.UnreadCapChangeOverflows | src/history/file-history-store.ts:115-139 | a cap change before the first load whose read fails leaves three entries under a cap of one |
| FileHistoryStore.DeleteAfterFailedCapOverflows | src/history/file-history-store.ts:91-126 | a successful delete that leaves the store over its cap |
| FileHistoryStore.RunStaysWithinCap | src/history/file-history-store.ts:61-126 | within the cap over every run in which no cap change fails |
| FileHistoryStore.FileHistoryStore.Append | src/history/file-history-store.ts:61-71 | load, write, then cache: the specified step |
| FileHistoryStore.FileHistoryStore.SetMaxEntries | src/history/file-history-store.ts:115-126 | the cap changes before anything can fail: the specified step |

## Left out

- TopoSort.TopoSort: asks for distinct nodes; the source keys its maps by id and gives repeated ids no meaning of their own.
- PlanEnricher.EnrichRunPlan: asks for distinct request ids and distinct analyses, which every plan of a collection, a folder or a Setup selection has (PlannedIdsAreDistinct, SelectionNamesEachOnce); a caller of the plan builder that lists an id twice is outside the statement.
- EnrichAgain.EnrichingAgainChangesNothing: for analyses given again in their first order or in the enriched one; a third order may break ties otherwise.
- RunOptions.WaitsNeverShrink: delays are integers of any size; a doubled delay that overflows a double, which the source turns into no wait, lies far beyond the ten retries allowed.
- CycleDetection.DetectCycles: existence and soundness only; the search does not list every simple cycle, and neither does the contract.
- RetryEligibility.DecisionsAgree: assumes that the orchestrator hands both decisions the same facts, extracts only when it commits and does not throw after committing, as `src/orchestration/execution-orchestrator.ts:615-821` does.
- CollectionRunner.CollectionRunnerService.Execute: messages, durations, timestamps and the presentation fields of results are not modelled; time appears as attempt waits and as the moments at which the abort signal is read.
- RunProperties.BuildRunStatistics: response times and their average are not modelled.
- RunProperties.SkipsPropagate: asks that requests write only variables their analysis lists; explicit `@depends-on` edges do not gate a run, in the code or in the model.
- SecretRepository.AnswersAreSequential: reads, stores and deletes of the secret store succeed; only the migration inside a read may fail, before or after its effect.
- SecretKeys.EncodeIsInjective: texts are sequences of Unicode scalar values, so the error for a lone surrogate is not modelled.
- Discovery.ScansNeverOverlap: scans do not fail, and a scanner does not call refresh synchronously.
- WebSocketSession.NodeWebSocketSession.OnMessage: the socket's own state, and closing calls that raise events at once, are not modelled; letting go of the socket is recorded as asked for.
- Redirects.ChainOfHops: reading the response body is a single success or failure; the byte limit is not part of this model.
- CurlTokenizer.TokenizeCurlCommand: a character stands for one UTF-16 unit, and the two failures' message texts are not kept.
- FileHistoryStore.RunRefinesMemory: operations run in queue order and writes are atomic; unqueued reads racing the first load, and the parsing and scrubbing of stored documents, are not part of this model.
- TypeInference.InferContext.InferType: numbers are one kind as in the source; what a declared name denotes after registry updates is not modelled, only structural types.
- TypeDeclarations.GenerateDeclarations: identifier sanitizing, singularizing and rendering are arbitrary functions of their input or left out.
- FolderChain.EnsureFolderChain: takes the normalized path already split; sorting and filing of requests are not part of this model.
- RunSetup.BuildRequestTree: labels, method badges and folder names are presentation and left out.
- PlanBuilder.BuildRunPlan: run ids, creation times and the failure policy carried along are left out; the folder graph is taken to be well-founded, which discovery ensures.
- `minimalReorderForConstraints`, variable resolution, the `.api` parser, the execution orchestrator beyond its commit decision, MCP, webviews and settings migration: outside this model.
- Redaction, token detection and caches keyed by fingerprints: regular expressions and hashes would be assumptions rather than proofs.
