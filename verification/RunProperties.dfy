/** What follows for whole runs: statistics, policy stops, aborts, progress, preflight order, skip chains. */
module RunProperties {
  import opened Sequences
  import opened Wrappers
  import opened DependencyGraph
  import opened GraphBuilder
  import opened RunPlans
  import opened RunOptions
  import opened RetryEligibility
  import opened Attempts
  import opened RunSteps
  import Collections
  import DependRef
  import PlanBuilder
  import PlanEnricher

  // ---- Statistics ----

  datatype RunStatistics = RunStatistics(
    total: nat, passed: nat, failed: nat, skipped: nat, cancelled: nat,
    assertionsPassed: nat, assertionsFailed: nat, assertionsTotal: nat,
    preconditionFailures: nat, transportFailures: nat, assertionFailures: nat, extractionFailures: nat,
    protocolFailures: nat)

  function CountOutcome(results: seq<RequestRunResult>, outcome: Outcome): nat {
    if results == [] then 0
    else
      CountOutcome(results[..|results| - 1], outcome)
        + if results[|results| - 1].result.outcome == outcome then 1 else 0
  }

  function CountCategory(results: seq<RequestRunResult>, category: Category): nat {
    if results == [] then 0
    else
      CountCategory(results[..|results| - 1], category)
        + if results[|results| - 1].result.failureCategory == Some(category) then 1 else 0
  }

  datatype AssertionCounts = AssertionCounts(passed: nat, failed: nat, total: nat)

  /** A count that a result does not carry is taken as zero. */
  function OrZero(count: Option<nat>): nat {
    if count.Some? then count.value else 0
  }

  function SumAssertions(results: seq<RequestRunResult>): AssertionCounts {
    if results == [] then AssertionCounts(0, 0, 0)
    else AddAssertions(SumAssertions(results[..|results| - 1]), results[|results| - 1].result)
  }

  function AddAssertions(counts: AssertionCounts, r: RequestResult): AssertionCounts {
    AssertionCounts(
      counts.passed + OrZero(r.assertionsPassed), counts.failed + OrZero(r.assertionsFailed),
      counts.total + OrZero(r.assertionsTotal))
  }

  ghost predicate CountsOutcomes(s: RunStatistics, results: seq<RequestRunResult>) {
    && s.passed == CountOutcome(results, Passed) && s.failed == CountOutcome(results, Failed)
    && s.skipped == CountOutcome(results, Skipped) && s.cancelled == CountOutcome(results, Cancelled)
  }

  ghost predicate CountsCategories(s: RunStatistics, results: seq<RequestRunResult>) {
    && s.preconditionFailures == CountCategory(results, Precondition)
    && s.transportFailures == CountCategory(results, Transport)
    && s.assertionFailures == CountCategory(results, Assertion)
    && s.extractionFailures == CountCategory(results, Extraction)
    && s.protocolFailures == CountCategory(results, Protocol)
  }

  function AddOutcome(s: RunStatistics, outcome: Outcome): RunStatistics {
    match outcome
    case Passed => s.(passed := s.passed + 1)
    case Failed => s.(failed := s.failed + 1)
    case Skipped => s.(skipped := s.skipped + 1)
    case Cancelled => s.(cancelled := s.cancelled + 1)
  }

  function AddCategory(s: RunStatistics, category: Option<Category>): RunStatistics {
    match category
    case Some(Precondition) => s.(preconditionFailures := s.preconditionFailures + 1)
    case Some(Transport) => s.(transportFailures := s.transportFailures + 1)
    case Some(Assertion) => s.(assertionFailures := s.assertionFailures + 1)
    case Some(Extraction) => s.(extractionFailures := s.extractionFailures + 1)
    case Some(Protocol) => s.(protocolFailures := s.protocolFailures + 1)
    case _ => s
  }

  /** Every result has one outcome and at most one category. */
  lemma {:induction false} CountsAddUp(results: seq<RequestRunResult>)
    ensures CountOutcome(results, Passed) + CountOutcome(results, Failed) + CountOutcome(results, Skipped)
          + CountOutcome(results, Cancelled) == |results|
    ensures CountCategory(results, Precondition) + CountCategory(results, Transport)
          + CountCategory(results, Assertion) + CountCategory(results, Extraction)
          + CountCategory(results, Protocol) <= |results|
  {
    if results != [] {
      CountsAddUp(results[..|results| - 1]);
    }
  }

  lemma OneMoreCounts(s: RunStatistics, results: seq<RequestRunResult>, i: nat)
    requires i < |results| && CountsOutcomes(s, results[..i]) && CountsCategories(s, results[..i])
    ensures var outcome, category := results[i].result.outcome, results[i].result.failureCategory;
      CountsOutcomes(AddCategory(AddOutcome(s, outcome), category), results[..i + 1])
    ensures var outcome, category := results[i].result.outcome, results[i].result.failureCategory;
      CountsCategories(AddCategory(AddOutcome(s, outcome), category), results[..i + 1])
  {
    assert results[..i + 1][..i] == results[..i];
  }

  method BuildRunStatistics(results: seq<RequestRunResult>) returns (s: RunStatistics)
    ensures s.total == |results| && CountsOutcomes(s, results) && CountsCategories(s, results)
    ensures AssertionCounts(s.assertionsPassed, s.assertionsFailed, s.assertionsTotal) == SumAssertions(results)
    ensures s.passed + s.failed + s.skipped + s.cancelled == s.total
    ensures s.preconditionFailures + s.transportFailures + s.assertionFailures + s.extractionFailures
          + s.protocolFailures <= s.total
  {
    s := RunStatistics(|results|, 0, 0, 0, 0, 0, 0, 0, 0, 0, 0, 0, 0);
    for i := 0 to |results|
      invariant s.total == |results| && CountsOutcomes(s, results[..i]) && CountsCategories(s, results[..i])
      invariant AssertionCounts(s.assertionsPassed, s.assertionsFailed, s.assertionsTotal)
             == SumAssertions(results[..i])
    {
      OneMoreCounts(s, results, i);
      var result := results[i].result;
      s := AddCategory(AddOutcome(s, result.outcome), result.failureCategory);
      s := s.(assertionsPassed := s.assertionsPassed + OrZero(result.assertionsPassed),
              assertionsFailed := s.assertionsFailed + OrZero(result.assertionsFailed),
              assertionsTotal := s.assertionsTotal + OrZero(result.assertionsTotal));
      assert results[..i + 1][..i] == results[..i];
    }
    assert results[..|results|] == results;
    CountsAddUp(results);
  }

  lemma {:induction false} CountNone(results: seq<RequestRunResult>, outcome: Outcome)
    requires forall i :: 0 <= i < |results| ==> results[i].result.outcome != outcome
    ensures CountOutcome(results, outcome) == 0
  {
    if results != [] {
      CountNone(results[..|results| - 1], outcome);
    }
  }

  lemma {:induction false} CountOnce(results: seq<RequestRunResult>, outcome: Outcome, k: nat)
    requires k < |results|
    requires forall i :: 0 <= i < |results| ==> (results[i].result.outcome == outcome <==> i == k)
    ensures CountOutcome(results, outcome) == 1
  {
    if k == |results| - 1 {
      CountNone(results[..|results| - 1], outcome);
    } else {
      CountOnce(results[..|results| - 1], outcome, k);
    }
  }

  /** A run stops only under stop-on-first-error, after exactly one failure and with nothing cancelled. */
  lemma {:induction false} StoppedRunHasOneFailure(s: RunSetting, r: RunRecord)
    requires IsRun(s, r) && r.status == Stopped
    ensures s.policy == StopOnFirstError
    ensures CountOutcome(r.results, Failed) == 1 && CountOutcome(r.results, Cancelled) == 0
  {
    SplitOutcomes(s, r);
    CountOnce(r.results, Failed, r.reached - 1);
    CountNone(r.results, Cancelled);
  }

  lemma SplitOutcomes(s: RunSetting, r: RunRecord)
    requires Split(s, r) && r.status == Stopped
    ensures forall i :: 0 <= i < |r.results| ==>
      && (r.results[i].result.outcome == Failed <==> i == r.reached - 1) && r.results[i].result.outcome != Cancelled
  {
  }

  /** A completed run dealt with every request and cancelled none; under stop-on-first-error none failed. */
  lemma {:induction false} CompletedRunIsClean(s: RunSetting, r: RunRecord)
    requires IsRun(s, r) && r.status == Completed
    ensures r.reached == |s.requests| && CountOutcome(r.results, Cancelled) == 0
    ensures s.policy == StopOnFirstError ==> CountOutcome(r.results, Failed) == 0
  {
    CompletedOutcomes(s, r);
    CountNone(r.results, Cancelled);
    if s.policy == StopOnFirstError {
      CountNone(r.results, Failed);
    }
  }

  lemma CompletedOutcomes(s: RunSetting, r: RunRecord)
    requires Split(s, r) && r.status == Completed
    ensures forall i :: 0 <= i < |r.results| ==> LetsRunContinue(s.policy, r.results[i].result.outcome)
  {
    forall i | 0 <= i < |r.results|
      ensures LetsRunContinue(s.policy, r.results[i].result.outcome)
    {
      assert i < r.reached - 1 || i == r.reached - 1;
    }
  }

  // ---- Assertions ----

  /** A result's assertions were passed, failed or skipped. */
  predicate CountsFairly(r: RequestResult) {
    OrZero(r.assertionsPassed) + OrZero(r.assertionsFailed) <= OrZero(r.assertionsTotal)
  }

  lemma MappedCountsFairly(r: RunResult, policy: FailurePolicy)
    ensures CountsFairly(MapOrchestratorResult(r, policy))
  {
  }

  lemma ResultCountsFairly(b: Behaviour, remaining: nat, policy: FailurePolicy)
    ensures CountsFairly(ResultOf(b, remaining, policy))
  {
    match b
    case NotExecuted(outcome) => MappedCountsFairly(BareResult(outcome), policy);
    case Executed(facts) => MappedCountsFairly(Orchestrate(facts, Commits(b, remaining)), policy);
    case Interrupted(_, outcome) => MappedCountsFairly(BareResult(outcome), policy);
    case Rejected =>
  }

  lemma AttemptCountsFairly(
      w: World, policy: FailurePolicy, retry: RetryOptions, at: nat, number: nat, t: AttemptTrace)
    requires number <= MaxAttempts(retry) && t == AttemptOf(w, policy, retry, at, number)
    ensures CountsFairly(t.mapped)
  {
    ResultCountsFairly(w.behaviour(at), MaxAttempts(retry) - number, policy);
  }

  lemma RetryCountsFairly(
      w: World, policy: FailurePolicy, retry: RetryOptions, start: nat, planned: PlannedRequest,
      trace: seq<AttemptTrace>)
    requires RetryRun(w, policy, retry, start, trace)
    ensures CountsFairly(RetryResult(planned, trace).result)
  {
    if trace != [] {
      var last := |trace| - 1;
      assert MadeAt(w, policy, retry, start, trace, last);
      AttemptCountsFairly(w, policy, retry, start + 3 * last + 1, last + 1, trace[last]);
    }
  }

  lemma StepCountsFairly(
      w: World, policy: FailurePolicy, options: CollectionRunOptions, edges: seq<DependencyEdge>,
      planned: PlannedRequest, resultsById: map<RequestId, RequestRunResult>, result: RequestRunResult, log: StepLog)
    requires StepDone(w, policy, options, edges, planned, resultsById, result, log)
    ensures CountsFairly(result.result)
  {
    if log.ending == Attempted {
      RetryCountsFairly(w, policy, options.retry, FileReadAt(planned, edges, log) + 2, planned, log.attempts);
    }
  }

  lemma TurnCountsFairly(s: RunSetting, r: RunRecord, i: nat)
    requires IsRun(s, r) && i < |r.results|
    ensures CountsFairly(r.results[i].result)
  {
    assert TurnAt(s, r, i);
    if i < r.reached {
      StepCountsFairly(s.world, s.policy, s.options, s.edges, s.requests[i],
                       ResultsById(s.requests, r.results[..i]), r.results[i], r.logs[i]);
    }
  }

  /** Over a whole run no more assertions passed or failed than there were. */
  lemma {:induction false} AssertionsAddUp(s: RunSetting, r: RunRecord, i: nat)
    requires IsRun(s, r) && i <= |r.results|
    ensures var counts := SumAssertions(r.results[..i]); counts.passed + counts.failed <= counts.total
    ensures SumAssertions([]) == AssertionCounts(0, 0, 0)
  {
    if i > 0 {
      AssertionsAddUp(s, r, i - 1);
      TurnCountsFairly(s, r, i - 1);
      assert r.results[..i][..i - 1] == r.results[..i - 1];
    }
  }

  // ---- Outcomes ----

  /** What is reported of a request that was begun, by the way its step ended. */
  lemma {:induction false} ReachedOutcome(s: RunSetting, r: RunRecord, i: nat)
    requires IsRun(s, r) && i < r.reached
    ensures var result := r.results[i];
      && result.requestId == s.requests[i].requestId && result.ordinal == s.requests[i].ordinal
      && (r.logs[i].ending != Attempted ==> result.attempts == [])
      && match r.logs[i].ending
         case NotReached => false
         case CutOff => result.result.outcome == Cancelled && result.result.failureCategory == Some(Aborted)
         case VariableMissing(reason) => result.result.outcome == Skipped && result.reason == Some(reason)
         case DestructiveSkipped => result.result.outcome == Skipped && result.reason == Some(DestructiveDisabled)
         case Unreadable =>
           && result.result.outcome == (if s.policy == SkipInvalidRequests then Skipped else Failed)
           && result.result.failureCategory == Some(Unread)
         case Attempted => result.reason == None && |result.attempts| == |r.logs[i].attempts|
  {
    assert TurnAt(s, r, i);
  }

  /** What is reported of a request that was never begun. */
  lemma {:induction false} RestOutcome(s: RunSetting, r: RunRecord, i: nat)
    requires IsRun(s, r) && r.reached <= i < |r.results|
    ensures r.logs[i].attempts == [] && r.results[i].attempts == []
    ensures r.status == Stopped ==>
      r.results[i].result.outcome == Skipped && r.results[i].reason == Some(AfterEarlierFailure)
    ensures r.status != Stopped ==> r.status == CancelledRun && r.results[i].result.outcome == Cancelled
  {
    assert TurnAt(s, r, i);
  }

  /** A request reached without abort and missing nothing is skipped as destructive exactly when it should be. */
  lemma {:induction false} DestructiveIsSkippedIff(s: RunSetting, r: RunRecord, i: nat)
    requires IsRun(s, r) && i < r.reached && !s.world.aborted(r.logs[i].at) && !r.logs[i].ending.VariableMissing?
    ensures r.logs[i].ending == DestructiveSkipped <==>
      s.options.skipDestructiveRequests && IsDestructiveHttpMethod(s.requests[i].httpMethod)
  {
    MissingWhenReached(s, r, i);
    assert TurnAt(s, r, i);
  }

  /** How a run goes on after an outcome: never past a cancellation, nor past a failure under stop-on-first-error. */
  lemma {:induction false} RunGoesOnIff(s: RunSetting, r: RunRecord, i: nat)
    requires IsRun(s, r) && i < r.reached
    ensures i + 1 < r.reached ==>
      && r.results[i].result.outcome != Cancelled
      && (s.policy == StopOnFirstError ==> r.results[i].result.outcome != Failed)
    ensures i + 1 == r.reached < |r.results| && !s.world.aborted(r.logs[i].until) ==>
      || r.results[i].result.outcome == Cancelled
      || (s.policy == StopOnFirstError && r.results[i].result.outcome == Failed)
  {
    if i + 1 < |r.results| {
      ReachedIff(s, r, i + 1);
      assert TurnAt(s, r, i + 1);
    }
  }

  // ---- Aborts ----

  lemma StepTakesTime(
      w: World, policy: FailurePolicy, options: CollectionRunOptions, edges: seq<DependencyEdge>,
      planned: PlannedRequest, resultsById: map<RequestId, RequestRunResult>, result: RequestRunResult, log: StepLog)
    requires StepDone(w, policy, options, edges, planned, resultsById, result, log)
    ensures log.at < log.until
  {
  }

  /** The clock never goes back over a run. */
  lemma {:induction false} ClockGrows(s: RunSetting, r: RunRecord, i: nat, j: nat)
    requires IsRun(s, r) && i <= j <= |r.logs|
    ensures ClockAfter(s.start, r.logs, i) <= ClockAfter(s.start, r.logs, j)
    decreases j
  {
    if i < j {
      ClockGrows(s, r, i, j - 1);
      TurnTakesTime(s, r, j - 1);
    }
  }

  lemma TurnTakesTime(s: RunSetting, r: RunRecord, i: nat)
    requires IsRun(s, r) && i < |r.logs|
    ensures ClockAfter(s.start, r.logs, i) < r.logs[i].at <= r.logs[i].until
  {
    assert TurnAt(s, r, i);
    if i < r.reached {
      StepTakesTime(s.world, s.policy, s.options, s.edges, s.requests[i], ResultsById(s.requests, r.results[..i]),
                    r.results[i], r.logs[i]);
    }
  }

  /** Once the signal is aborted no request is attempted again, whatever the policy and the retries left. */
  lemma {:induction false} NothingIsAttemptedAfterAbort(s: RunSetting, r: RunRecord, t: nat, i: nat, j: nat)
    requires ValidWorld(s.world) && IsRun(s, r) && s.world.aborted(t)
    requires i < |r.logs| && j < |r.logs[i].attempts|
    ensures r.logs[i].attempts[j].at <= t
  {
    AttemptsMakeRetryRun(s, r, i);
    var start := FileReadAt(s.requests[i], s.edges, r.logs[i]) + 2;
    NoAttemptAfterAbort(s.world, s.policy, s.options.retry, start, r.logs[i].attempts, j, t);
  }

  /** The executor's own ways to cancel a request. */
  predicate Cancels(b: Behaviour) {
    match b
    case NotExecuted(outcome) => outcome in {RunCancelled, RunReplaced}
    case Executed(facts) => CancelledAtTransport(facts.execution)
    case Interrupted(_, outcome) => outcome in {RunCancelled, RunReplaced}
    case Rejected => false
  }

  lemma CancelledIffCancels(b: Behaviour, remaining: nat, policy: FailurePolicy)
    requires ValidBehaviour(b)
    ensures ResultOf(b, remaining, policy).outcome == Cancelled <==> Cancels(b)
  {
  }

  /** What may cancel a run at a clock: the signal, a delay, or the executor. */
  ghost predicate Interrupts(w: World, t: nat) {
    w.aborted(t) || (exists ms :: w.delayRejects(t, ms)) || Cancels(w.behaviour(t))
  }

  lemma CancelledRetryHasCause(
      w: World, policy: FailurePolicy, retry: RetryOptions, start: nat, planned: PlannedRequest,
      trace: seq<AttemptTrace>)
    requires ValidWorld(w) && RetryRun(w, policy, retry, start, trace)
    requires RetryResult(planned, trace).result.outcome == Cancelled
    ensures exists t :: start <= t < RetryEnd(w, start, trace) && Interrupts(w, t)
  {
    var n := |trace|;
    if n > 0 && !trace[n - 1].retried {
      assert MadeAt(w, policy, retry, start, trace, n - 1);
      CancelledIffCancels(w.behaviour(start + 3 * n - 2), MaxAttempts(retry) - n, policy);
      assert Interrupts(w, start + 3 * n - 2);
    } else if n > 0 && w.delayRejects(start + 3 * n - 1, LastWait(trace)) {
      assert Interrupts(w, start + 3 * n - 1);
    } else {
      assert Interrupts(w, start + 3 * n);
    }
  }

  lemma CancelledStepHasCause(
      w: World, policy: FailurePolicy, options: CollectionRunOptions, edges: seq<DependencyEdge>,
      planned: PlannedRequest, resultsById: map<RequestId, RequestRunResult>, result: RequestRunResult, log: StepLog)
    requires ValidWorld(w) && StepDone(w, policy, options, edges, planned, resultsById, result, log)
    requires result.result.outcome == Cancelled
    ensures exists t :: log.at <= t < log.until && Interrupts(w, t)
  {
    var fileAt := FileReadAt(planned, edges, log);
    if log.ending == Attempted {
      CancelledRetryHasCause(w, policy, options.retry, fileAt + 2, planned, log.attempts);
    } else if w.aborted(log.at) {
      assert Interrupts(w, log.at);
    } else {
      assert Interrupts(w, fileAt + 1);
    }
  }

  /** No run is cancelled unless, while it lasted, the signal, a delay or the executor said so. */
  lemma {:induction false} CancelledRunHasCause(s: RunSetting, r: RunRecord)
    requires ValidWorld(s.world) && IsRun(s, r) && r.status == CancelledRun
    ensures exists t :: s.start <= t < ClockNow(s, r) && Interrupts(s.world, t)
  {
    var i := if CancelledLast(r) then r.reached - 1 else r.reached;
    assert TurnAt(s, r, i);
    TurnTakesTime(s, r, i);
    ClockGrows(s, r, 0, i);
    ClockGrows(s, r, i + 1, |r.logs|);
    if CancelledLast(r) {
      CancelledStepHasCause(s.world, s.policy, s.options, s.edges, s.requests[i],
                            ResultsById(s.requests, r.results[..i]), r.results[i], r.logs[i]);
    } else {
      assert Interrupts(s.world, r.logs[i].at - 1);
    }
  }

  // ---- Progress ----

  ghost predicate Balanced(events: seq<ProgressEvent>, total: int) {
    forall i :: 0 <= i < |events| ==>
      && events[i].total == total && events[i].completed + events[i].remaining == total
      && 0 <= events[i].completed <= total
  }

  /** From `low` on the completed count never falls and stays within `high`. */
  ghost predicate Climbs(events: seq<ProgressEvent>, low: int, high: int) {
    && (forall i :: 0 <= i < |events| ==> low <= events[i].completed <= high)
    && (forall i, j :: 0 <= i < j < |events| ==> events[i].completed <= events[j].completed)
  }

  lemma ClimbsOn(a: seq<ProgressEvent>, b: seq<ProgressEvent>, low: int, middle: int, high: int, total: int)
    requires Climbs(a, low, middle) && Climbs(b, middle, high) && low <= middle <= high
    requires Balanced(a, total) && Balanced(b, total)
    ensures Climbs(a + b, low, high) && Balanced(a + b, total)
  {
  }

  /**
   An attempt is announced before it is made when more than one is allowed, and the wait for the next behind it; both
   name the request and how many results there were.
   */
  lemma AttemptIsAnnounced(planned: PlannedRequest, completed: nat, total: nat, max: nat, t: AttemptTrace)
    ensures var events := OneAttemptEvents(planned, completed, total, max, t);
      && |events| == (if max > 1 then 1 else 0) + (if t.retried then 1 else 0)
      && (max > 1 ==> events[0].attempt == Some(Executing(t.number, max)))
      && (t.retried ==> events[|events| - 1].attempt == Some(Waiting(t.number + 1, max)))
      && forall n :: 0 <= n < |events| ==>
           && events[n].phase == RequestStarted && events[n].current == Some(planned.requestId)
           && events[n].completed == completed && events[n].total == total
  {
  }

  /** A request that was begun is announced before its attempts and after them. */
  lemma TurnIsAnnounced(planned: PlannedRequest, i: nat, total: nat, max: nat, log: StepLog)
    ensures var events := TurnEvents(planned, i, total, max, log);
      if log.ending == NotReached then events == []
      else
        && |events| >= 2 && events[1..|events| - 1] == AttemptEvents(planned, i, total, max, log.attempts)
        && events[0].phase == RequestStarted && events[|events| - 1].phase == RequestFinished
        && events[0].completed == i && events[|events| - 1].completed == i + 1
        && events[0].current == events[|events| - 1].current == Some(planned.requestId)
        && events[0].attempt == events[|events| - 1].attempt == None
  {
  }

  /** A run is announced before its first request and behind its last. */
  lemma RunIsAnnounced(requests: seq<PlannedRequest>, max: nat, logs: seq<StepLog>)
    requires |logs| == |requests|
    ensures var events := RunEvents(requests, max, logs);
      && |events| >= 2 && events[1..|events| - 1] == TurnsEvents(requests, max, logs)
      && events[0].phase == Started && events[0].completed == 0 && events[0].remaining == |requests|
      && events[|events| - 1].phase == RunCompleted && events[|events| - 1].remaining == 0
  {
  }

  lemma {:induction false} AttemptEventsStay(
      planned: PlannedRequest, i: nat, total: nat, max: nat, trace: seq<AttemptTrace>)
    requires i <= total
    ensures var events := AttemptEvents(planned, i, total, max, trace); Climbs(events, i, i) && Balanced(events, total)
  {
    if trace != [] {
      AttemptEventsStay(planned, i, total, max, trace[..|trace| - 1]);
      ClimbsOn(AttemptEvents(planned, i, total, max, trace[..|trace| - 1]),
               OneAttemptEvents(planned, i, total, max, trace[|trace| - 1]), i, i, i, total);
    }
  }

  lemma TurnEventsClimb(planned: PlannedRequest, i: nat, total: nat, max: nat, log: StepLog)
    requires i < total
    ensures var events := TurnEvents(planned, i, total, max, log); Climbs(events, i, i + 1) && Balanced(events, total)
  {
    AttemptEventsStay(planned, i, total, max, log.attempts);
    var begun := [EventAt(RequestStarted, planned, i, total, None)];
    var attempts := AttemptEvents(planned, i, total, max, log.attempts);
    ClimbsOn(begun, attempts, i, i, i, total);
    ClimbsOn(begun + attempts, [EventAt(RequestFinished, planned, i + 1, total, None)], i, i, i + 1, total);
  }

  lemma {:induction false} TurnsEventsClimb(requests: seq<PlannedRequest>, max: nat, logs: seq<StepLog>)
    requires |logs| <= |requests|
    ensures var events := TurnsEvents(requests, max, logs);
      Climbs(events, 0, |logs|) && Balanced(events, |requests|)
  {
    if logs != [] {
      var last := |logs| - 1;
      TurnsEventsClimb(requests, max, logs[..last]);
      TurnEventsClimb(requests[last], last, |requests|, max, logs[last]);
      ClimbsOn(TurnsEvents(requests, max, logs[..last]),
               TurnEvents(requests[last], last, |requests|, max, logs[last]), 0, last, last + 1, |requests|);
    }
  }

  /** Over a whole run each event's counts add up to the number of requests and the completed count never falls. */
  lemma {:induction false} ProgressClimbs(requests: seq<PlannedRequest>, max: nat, logs: seq<StepLog>)
    requires |logs| == |requests|
    ensures var events := RunEvents(requests, max, logs);
      Climbs(events, 0, |requests|) && Balanced(events, |requests|)
  {
    var n := |requests|;
    TurnsEventsClimb(requests, max, logs);
    var begun := [ProgressEvent(Started, None, 0, n, n, None)];
    ClimbsOn(begun, TurnsEvents(requests, max, logs), 0, 0, n, n);
    ClimbsOn(begun + TurnsEvents(requests, max, logs), [ProgressEvent(RunCompleted, None, n, 0, n, None)], 0, n, n, n);
  }

  // ---- Preflight on enriched plans ----

  /** Each implicit producer is listed before its consumer. */
  ghost predicate ProducersFirst(requests: seq<PlannedRequest>, edges: seq<DependencyEdge>) {
    forall e, i :: e in edges && e.kind == Implicit && 0 <= i < |requests| && requests[i].requestId == e.to ==>
      e.from in RequestIds(requests)[..i]
  }

  lemma {:induction false} ResultsByIdIff(
      requests: seq<PlannedRequest>, results: seq<RequestRunResult>, id: RequestId)
    requires |results| <= |requests|
    ensures id in ResultsById(requests, results) <==> id in RequestIds(requests)[..|results|]
  {
    if results != [] {
      var last := |results| - 1;
      ResultsByIdIff(requests, results[..last], id);
      assert RequestIds(requests)[..last + 1] == RequestIds(requests)[..last] + [requests[last].requestId];
    }
  }

  /** The edges a preflight looks at are all those that carry a variable to the request. */
  lemma IncomingIff(edges: seq<DependencyEdge>, id: RequestId, e: DependencyEdge)
    ensures e in IncomingEdges(edges, id) <==> e in edges && e.to == id && e.kind == Implicit && e.variable.Some?
  {
  }

  /**
   In a run with a store, a request is attempted only when every variable that an implicit edge carries to it was in
   the initial store, was written by an earlier request, or was among the static names its preflight read.
   */
  lemma {:induction false} AttemptedHadItsVariables(s: RunSetting, r: RunRecord, i: nat, e: DependencyEdge)
    requires IsRun(s, r) && s.initialStore.Some? && i < |r.logs| && r.logs[i].attempts != []
    requires e in s.edges && e.to == s.requests[i].requestId && e.kind == Implicit && e.variable.Some?
    ensures var v := e.variable.value;
      v in s.initialStore.value || v in WrittenBefore(r.logs, i) || v in s.world.staticNames(r.logs[i].at + 1)
  {
    AttemptedMeansReady(s, r, i);
    IncomingIff(s.edges, s.requests[i].requestId, e);
  }

  /** A variable that is neither in the store a step begins with nor among the static names read for it. */
  predicate IsMissing(s: RunSetting, r: RunRecord, i: nat, v: string)
    requires i < |r.logs| && r.logs[i].storeBefore.Some?
  {
    v !in r.logs[i].storeBefore.value && v !in s.world.staticNames(r.logs[i].at + 1)
  }

  /** A request reached without abort is skipped for a variable exactly when some edge carries it a missing one. */
  lemma {:induction false} SkippedIffMissing(s: RunSetting, r: RunRecord, i: nat)
    requires IsRun(s, r) && i < r.reached && !s.world.aborted(r.logs[i].at)
    ensures r.logs[i].ending.VariableMissing? <==>
      && r.logs[i].storeBefore.Some?
      && exists e :: e in s.edges && e.to == s.requests[i].requestId && e.kind == Implicit && e.variable.Some?
                  && IsMissing(s, r, i, e.variable.value)
  {
    var incoming := IncomingEdges(s.edges, s.requests[i].requestId);
    MissingWhenReached(s, r, i);
    forall e
      ensures e in incoming <==>
        e in s.edges && e.to == s.requests[i].requestId && e.kind == Implicit && e.variable.Some?
    {
      IncomingIff(s.edges, s.requests[i].requestId, e);
    }
    var store, statics := r.logs[i].storeBefore, s.world.staticNames(r.logs[i].at + 1);
    if r.logs[i].ending.VariableMissing? && store.Some? {
      var e :| e in incoming && !Supplied(e, store.value, statics);
      assert IsMissing(s, r, i, e.variable.value);
    }
  }

  /** The reason names the first edge, in the plan's order, that carries the request a missing variable. */
  lemma {:induction false} BlamedEdgeIsFirst(s: RunSetting, r: RunRecord, i: nat, reason: SkipReason)
    requires IsRun(s, r) && i < |r.logs| && r.logs[i].ending == VariableMissing(reason)
    ensures r.logs[i].storeBefore.Some? && reason.MissingRunVariable?
    ensures exists k :: 0 <= k < |s.edges| && IsFirstMissing(s, r, i, reason, k)
  {
    MissingMeansBlame(s, r, i, reason);
    var earlier, store := ResultsById(s.requests, r.results[..i]), r.logs[i].storeBefore.value;
    var statics := s.world.staticNames(r.logs[i].at + 1);
    var j: nat :| BlamesAt(s.requests[i], s.edges, earlier, store, statics, reason, j);
    var k := IncomingPosition(s.edges, s.requests[i].requestId, j);
    IncomingIff(s.edges, s.requests[i].requestId, s.edges[k]);
    forall n | 0 <= n < k && s.edges[n].to == s.requests[i].requestId && s.edges[n].kind == Implicit
             && s.edges[n].variable.Some?
      ensures !IsMissing(s, r, i, s.edges[n].variable.value)
    {
      EarlierEdgeIsSupplied(s.edges, s.requests[i].requestId, j, k, n, store, statics);
    }
    assert IsFirstMissing(s, r, i, reason, k);
  }

  ghost predicate IsFirstMissing(s: RunSetting, r: RunRecord, i: nat, reason: SkipReason, k: nat)
    requires i < |r.logs| == |s.requests| && r.logs[i].storeBefore.Some? && reason.MissingRunVariable?
    requires k < |s.edges|
  {
    var id, e := s.requests[i].requestId, s.edges[k];
    && e.to == id && e.kind == Implicit && e.variable == Some(reason.variable) && e.from == reason.producer
    && IsMissing(s, r, i, reason.variable)
    && forall n :: 0 <= n < k && s.edges[n].to == id && s.edges[n].kind == Implicit && s.edges[n].variable.Some? ==>
         !IsMissing(s, r, i, s.edges[n].variable.value)
  }

  /** Where the plan lists the edge that stands at `j` among the incoming ones. */
  lemma {:induction false} IncomingPosition(edges: seq<DependencyEdge>, id: RequestId, j: nat) returns (k: nat)
    requires j < |IncomingEdges(edges, id)|
    ensures k < |edges| && edges[k] == IncomingEdges(edges, id)[j]
    ensures IncomingEdges(edges[..k], id) == IncomingEdges(edges, id)[..j]
  {
    var front := edges[..|edges| - 1];
    if j < |IncomingEdges(front, id)| {
      k := IncomingPosition(front, id, j);
      assert front[..k] == edges[..k];
    } else {
      k := |edges| - 1;
    }
  }

  lemma EarlierEdgeIsSupplied(
      edges: seq<DependencyEdge>, id: RequestId, j: nat, k: nat, n: nat, store: map<string, string>,
      statics: set<string>)
    requires n < k < |edges| && j < |IncomingEdges(edges, id)|
    requires IncomingEdges(edges[..k], id) == IncomingEdges(edges, id)[..j]
    requires forall x :: 0 <= x < j ==> Supplied(IncomingEdges(edges, id)[x], store, statics)
    requires edges[n].to == id && edges[n].kind == Implicit && edges[n].variable.Some?
    ensures edges[n].variable.value in store || edges[n].variable.value in statics
  {
    assert edges[n] == edges[..k][n];
    IncomingIff(edges[..k], id, edges[n]);
    assert edges[n] in IncomingEdges(edges, id)[..j];
    var x :| 0 <= x < j && IncomingEdges(edges, id)[x] == edges[n];
    assert Supplied(IncomingEdges(edges, id)[x], store, statics);
  }

  /** The latest result under an id, where no id is planned twice, is that of the request. */
  lemma {:induction false} ResultsByIdAt(requests: seq<PlannedRequest>, results: seq<RequestRunResult>, j: nat)
    requires |results| <= |requests| && j < |results| && Distinct(RequestIds(requests))
    ensures requests[j].requestId in ResultsById(requests, results)
    ensures ResultsById(requests, results)[requests[j].requestId] == results[j]
  {
    var last := |results| - 1;
    if j < last {
      assert RequestIds(requests)[j] != RequestIds(requests)[last];
      ResultsByIdAt(requests, results[..last], j);
    }
  }

  /** The reason says how the blamed producer fared, when the plan names each request once. */
  lemma {:induction false} BlamedStateIsResult(s: RunSetting, r: RunRecord, i: nat, reason: SkipReason, j: nat)
    requires IsRun(s, r) && Distinct(RequestIds(s.requests)) && j < i < |r.logs|
    requires r.logs[i].ending == VariableMissing(reason)
    requires reason.MissingRunVariable? && s.requests[j].requestId == reason.producer
    ensures match r.results[j].result.outcome
      case Passed => reason.state == DidNotProduceIt
      case Failed => reason.state == ProducerFailed
      case Skipped => reason.state == ProducerSkipped
      case Cancelled => reason.state == ProducerCancelled
  {
    MissingMeansBlame(s, r, i, reason);
    ResultsByIdAt(s.requests, r.results[..i], j);
  }

  /** A blamed producer that no earlier request of the plan is did not run. */
  lemma {:induction false} BlamedStrangerDidNotRun(s: RunSetting, r: RunRecord, i: nat, reason: SkipReason)
    requires IsRun(s, r) && i < |r.logs| && r.logs[i].ending == VariableMissing(reason)
    requires reason.MissingRunVariable? && reason.producer !in RequestIds(s.requests)[..i]
    ensures reason.state == DidNotRun
  {
    MissingMeansBlame(s, r, i, reason);
    ResultsByIdIff(s.requests, r.results[..i], reason.producer);
  }

  /** With producers listed first, a missing variable is never blamed on a producer that did not run. */
  lemma {:induction false} BlamedProducerWasReached(s: RunSetting, r: RunRecord, i: nat, reason: SkipReason)
    requires IsRun(s, r) && ProducersFirst(s.requests, s.edges)
    requires i < |r.logs| && r.logs[i].ending == VariableMissing(reason)
    ensures reason.MissingRunVariable? && reason.state != DidNotRun
  {
    MissingMeansBlame(s, r, i, reason);
    var log, earlier := r.logs[i], ResultsById(s.requests, r.results[..i]);
    var statics := s.world.staticNames(log.at + 1);
    var j: nat :| BlamesAt(s.requests[i], s.edges, earlier, log.storeBefore.value, statics, reason, j);
    var e := IncomingEdges(s.edges, s.requests[i].requestId)[j];
    IncomingIff(s.edges, s.requests[i].requestId, e);
    ResultsByIdIff(s.requests, r.results[..i], e.from);
  }

  /**
   In an enriched plan every implicit producer stands before its consumer, so no preflight meets one that did not
   run.
   */
  lemma {:induction false} EnrichedPlanListsProducersFirst(membership: RunPlan, analyses: seq<Analysis>, plan: RunPlan)
    requires Distinct(RequestIds(membership.requests)) && PlanEnricher.Aligned(membership, analyses)
    requires PlanEnricher.IsEnrichment(membership, analyses, true, plan)
    ensures ProducersFirst(plan.requests, plan.dependencies.value.edges)
  {
    PlanEnricher.EnrichedPlanIsOrdered(membership, analyses, plan);
    var index := MemberIndex(membership.requests);
    var ids := RequestIds(plan.requests);
    assert forall x :: x in Ids(analyses) <==> x in multiset(ids);
    forall e, i | e in plan.dependencies.value.edges && e.kind == Implicit
               && 0 <= i < |plan.requests| && plan.requests[i].requestId == e.to
      ensures e.from in ids[..i]
    {
      EdgeMeaning(analyses, index, e);
      SourceStandsBefore(analyses, index, ids, e, i);
    }
  }

  /**
   From a discovered collection to its run: the plan built for any target that repeats no id, once enriched, lists every
   producer first, keeps the plan's requests, and names each once.
   */
  lemma {:induction false} DiscoveredPlanRunsProducersFirst(
      aggregate: Collections.Aggregate, target: PlanBuilder.Target, rank: Collections.Rank,
      membership: RunPlan, analyses: seq<Analysis>, plan: RunPlan)
    requires PlanBuilder.TargetRanked(aggregate, target, rank) && PlanBuilder.NamesEachOnce(target)
    requires PlanBuilder.TargetRequests(aggregate, target, rank).Ok?
    requires Collections.Keyed(target.collectionId, aggregate[target.collectionId])
    requires Collections.LinkedToParents(aggregate[target.collectionId])
    requires PlanBuilder.IsPlanOf(
               aggregate[target.collectionId], PlanBuilder.TargetRequests(aggregate, target, rank).value, membership)
    requires PlanEnricher.Aligned(membership, analyses) && PlanEnricher.IsEnrichment(membership, analyses, true, plan)
    ensures ProducersFirst(plan.requests, plan.dependencies.value.edges)
    ensures multiset(RequestIds(plan.requests))
         == multiset(PlanBuilder.ReferenceIds(PlanBuilder.TargetRequests(aggregate, target, rank).value))
    ensures Distinct(RequestIds(plan.requests))
  {
    PlanBuilder.PlannedIdsAreDistinct(aggregate, target, rank);
    EnrichedPlanListsProducersFirst(membership, analyses, plan);
    PlanEnricher.EnrichedPlanIsOrdered(membership, analyses, plan);
    PermutationKeepsDistinct(RequestIds(membership.requests), RequestIds(plan.requests));
  }

  lemma SourceStandsBefore(
      analyses: seq<Analysis>, index: seq<DependRef.IndexEntry>, ids: seq<RequestId>, e: DependencyEdge, i: nat)
    requires PlanEnricher.DependenciesFirst(analyses, index, ids)
    requires MustPrecede(analyses, index, e.from, e.to)
    requires e.from in ids && i < |ids| && ids[i] == e.to
    ensures e.from in ids[..i]
  {
    var j := IndexOf(ids, e.from);
    assert MustPrecede(analyses, index, ids[j], ids[i]);
    assert ids[j] == ids[..i][j];
  }

  /** The variables a request may write are those its analysis says it produces. */
  ghost predicate WritesOnlyProduced(requests: seq<PlannedRequest>, logs: seq<StepLog>) {
    |logs| == |requests| &&
    forall i, v :: 0 <= i < |logs| && v in WrittenBy(logs[i].attempts) ==> Produces(requests[i], v)
  }

  ghost predicate Produces(r: PlannedRequest, v: string) {
    r.produces.Some? && v in r.produces.value
  }

  ghost predicate WasAttempted(logs: seq<StepLog>, i: nat)
    requires i < |logs|
  {
    logs[i].attempts != []
  }

  ghost predicate WaitsOn(edges: seq<DependencyEdge>, id: RequestId, v: string) {
    exists e :: e in edges && e.to == id && e.kind == Implicit && e.variable == Some(v)
  }

  ghost predicate NoProducerAttempted(requests: seq<PlannedRequest>, logs: seq<StepLog>, v: string)
    requires |logs| == |requests|
  {
    forall j :: 0 <= j < |requests| && Produces(requests[j], v) ==> !WasAttempted(logs, j)
  }

  ghost predicate SoleProducer(requests: seq<PlannedRequest>, from: nat, v: string) {
    forall j :: 0 <= j < |requests| && Produces(requests[j], v) ==> j == from
  }

  /**
   Request `i` waits on `v`, which nobody supplies: not the initial store, not the static scopes when its preflight
   reads them, no attempted producer.
   */
  ghost predicate Starved(s: RunSetting, r: RunRecord, i: nat, v: string)
    requires |r.logs| == |s.requests| && i < |s.requests|
  {
    && WaitsOn(s.edges, s.requests[i].requestId, v)
    && !HasInitially(s, v) && v !in s.world.staticNames(r.logs[i].at + 1)
    && NoProducerAttempted(s.requests, r.logs, v)
  }

  predicate HasInitially(s: RunSetting, v: string) {
    s.initialStore.Some? && v in s.initialStore.value
  }

  lemma {:induction false} WrittenOnlyByAttempted(s: RunSetting, r: RunRecord, i: nat, v: string)
    requires |r.logs| == |s.requests| && WritesOnlyProduced(s.requests, r.logs)
    requires i <= |r.logs| && v in WrittenBefore(r.logs, i)
    ensures exists j :: 0 <= j < i && Produces(s.requests[j], v) && WasAttempted(r.logs, j)
  {
    if v in WrittenBy(r.logs[i - 1].attempts) {
      assert Produces(s.requests[i - 1], v) && WasAttempted(r.logs, i - 1);
    } else {
      WrittenOnlyByAttempted(s, r, i - 1, v);
    }
  }

  /** A starved request is never attempted, in a run that keeps a store. */
  lemma {:induction false} StarvedIsNotAttempted(s: RunSetting, r: RunRecord, i: nat, v: string)
    requires IsRun(s, r) && s.initialStore.Some? && WritesOnlyProduced(s.requests, r.logs)
    requires i < |s.requests| && Starved(s, r, i, v)
    ensures !WasAttempted(r.logs, i)
  {
    if v in WrittenBefore(r.logs, i) {
      WrittenOnlyByAttempted(s, r, i, v);
    }
    var e :| e in s.edges && e.to == s.requests[i].requestId && e.kind == Implicit && e.variable == Some(v);
    if WasAttempted(r.logs, i) {
      AttemptedHadItsVariables(s, r, i, e);
    }
  }

  /** `to` waits on a variable that `from` alone produces and nothing else supplies. */
  ghost predicate Link(s: RunSetting, r: RunRecord, from: nat, to: nat, v: string)
    requires |r.logs| == |s.requests| && to < |s.requests|
  {
    && WaitsOn(s.edges, s.requests[to].requestId, v)
    && !HasInitially(s, v) && v !in s.world.staticNames(r.logs[to].at + 1)
    && SoleProducer(s.requests, from, v)
  }

  /** Link `n` of a chain of requests joined by variables. */
  ghost predicate LinkAt(s: RunSetting, r: RunRecord, chain: seq<nat>, via: seq<string>, n: nat)
    requires |r.logs| == |s.requests|
  {
    && |chain| == |via| + 1 && n < |via| && chain[n] < |s.requests| && chain[n + 1] < |s.requests|
    && Link(s, r, chain[n], chain[n + 1], via[n])
  }

  lemma LinkStarves(s: RunSetting, r: RunRecord, chain: seq<nat>, via: seq<string>, n: nat)
    requires |r.logs| == |s.requests| && LinkAt(s, r, chain, via, n) && !WasAttempted(r.logs, chain[n])
    ensures Starved(s, r, chain[n + 1], via[n])
  {
  }

  /** Along a chain of such links one request that is not attempted takes all the later ones with it. */
  lemma {:induction false} SkipsPropagate(
      s: RunSetting, r: RunRecord, chain: seq<nat>, via: seq<string>, n: nat)
    requires IsRun(s, r) && s.initialStore.Some? && WritesOnlyProduced(s.requests, r.logs)
    requires |chain| == |via| + 1 && n < |chain|
    requires forall t :: 0 <= t < |via| ==> LinkAt(s, r, chain, via, t)
    requires chain[0] < |s.requests| && !WasAttempted(r.logs, chain[0])
    ensures chain[n] < |s.requests| && !WasAttempted(r.logs, chain[n])
  {
    if n > 0 {
      SkipsPropagate(s, r, chain, via, n - 1);
      assert LinkAt(s, r, chain, via, n - 1);
      LinkStarves(s, r, chain, via, n - 1);
      StarvedIsNotAttempted(s, r, chain[n - 1 + 1], via[n - 1]);
    }
  }
}
