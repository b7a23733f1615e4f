/**
 Which attempts may be retried. The rule is consulted twice: on the bare facts, before an attempt may commit
 side effects, and on the mapped result, after it. The two answers are proved to agree.
 */
module RetryEligibility {
  import opened Wrappers

  datatype Outcome = Passed | Failed | Skipped | Cancelled

  datatype Category = Precondition | Transport | Assertion | Extraction | Protocol | Unread | Aborted

  datatype FailurePolicy = StopOnFirstError | ContinueOnError | SkipInvalidRequests

  function ClassifyInvalid(policy: FailurePolicy): Outcome {
    if policy == SkipInvalidRequests then Skipped else Failed
  }

  const RETRYABLE_STATUS_CODES: set<int> := {408, 429, 502, 503, 504}
  const NON_RETRYABLE_STATUS_CODES: set<int> := {400, 401, 403, 404, 409, 422}

  datatype AttemptView = AttemptView(
    outcome: Outcome,
    statusCode: Option<int>,
    assertionsEvaluated: bool,
    assertionFailed: bool,
    failureCategory: Option<Category>,
    presentationRetryable: Option<bool>)

  predicate IsTransportRetryable(attempt: AttemptView) {
    if attempt.statusCode.Some? then
      if attempt.statusCode.value in NON_RETRYABLE_STATUS_CODES then false
      else attempt.statusCode.value in RETRYABLE_STATUS_CODES
    else if attempt.presentationRetryable.Some? then attempt.presentationRetryable.value
    else true
  }

  predicate IsEligibleFromAttempt(attempt: AttemptView) {
    var category := attempt.failureCategory;
    if attempt.outcome == Cancelled || attempt.outcome == Skipped then false
    else if attempt.outcome == Failed
      && category in {Some(Precondition), Some(Unread), Some(Extraction), Some(Aborted)} then false
    else if attempt.statusCode.Some? && attempt.statusCode.value in NON_RETRYABLE_STATUS_CODES then false
    else if attempt.statusCode.Some? && attempt.statusCode.value in RETRYABLE_STATUS_CODES then
      if attempt.assertionsEvaluated && !attempt.assertionFailed then false else true
    else if attempt.outcome != Failed then false
    else if category == Some(Transport) then IsTransportRetryable(attempt)
    else false
  }

  // ---- One orchestrated attempt ----

  /** What the HTTP or WebSocket execution came to; a WebSocket success has no status code. */
  datatype Execution =
    | ExecutionSuccess(statusCode: Option<int>, graphqlFailed: bool)
    | ExecutionError(cancelled: bool, retryable: bool)

  /** Assertion counts; a report exists only when something was evaluated. */
  datatype AssertionSummary = AssertionSummary(passed: nat, failed: nat, skipped: nat, malformed: nat)

  function Total(s: AssertionSummary): nat {
    s.passed + s.failed + s.skipped + s.malformed
  }

  predicate HasAssertionFailures(report: Option<AssertionSummary>) {
    report.Some? && (report.value.failed > 0 || report.value.malformed > 0)
  }

  datatype ExtractionKind = Extracted | NotFound | ExtractFailed(required: bool) | Malformed

  /** The facts of an attempt that got as far as executing; `extraction` is what the observer yields if it runs. */
  datatype Facts = Facts(
    execution: Execution,
    report: Option<AssertionSummary>,
    extraction: Option<seq<ExtractionKind>>,
    writes: map<string, string>)

  ghost predicate ValidFacts(f: Facts) {
    f.report.Some? ==> Total(f.report.value) > 0
  }

  datatype SideEffectContext = SideEffectContext(
    statusCode: Option<int>,
    httpSuccess: bool,
    assertionsEvaluated: bool,
    assertionFailed: bool,
    graphqlFailed: bool,
    cancelledAtTransport: bool,
    transportRetryable: Option<bool>)

  predicate CancelledAtTransport(e: Execution) {
    e.ExecutionError? && e.cancelled
  }

  function StatusCodeOf(e: Execution): Option<int> {
    if e.ExecutionSuccess? then e.statusCode else None
  }

  /** Assertions are not evaluated for an execution cancelled at transport. */
  function EvaluatedReport(f: Facts): Option<AssertionSummary> {
    if CancelledAtTransport(f.execution) then None else f.report
  }

  function SideEffectContextOf(f: Facts): SideEffectContext {
    SideEffectContext(
      StatusCodeOf(f.execution),
      f.execution.ExecutionSuccess?,
      EvaluatedReport(f).Some?,
      HasAssertionFailures(EvaluatedReport(f)),
      f.execution.ExecutionSuccess? && f.execution.graphqlFailed,
      CancelledAtTransport(f.execution),
      if f.execution.ExecutionError? then Some(f.execution.retryable) else None)
  }

  /** Eligibility from the facts, before anything is committed. */
  predicate IsEligibleFromSideEffectContext(ctx: SideEffectContext) {
    if ctx.cancelledAtTransport then false
    else
      var (outcome, category) :=
        if !ctx.httpSuccess then (Failed, Some(Transport))
        else if ctx.assertionFailed then (Failed, Some(Assertion))
        else if ctx.graphqlFailed then (Failed, Some(Protocol))
        else (Passed, None);
      IsEligibleFromAttempt(AttemptView(
        outcome, ctx.statusCode, ctx.assertionsEvaluated, ctx.assertionFailed, category, ctx.transportRetryable))
  }

  datatype RunOutcome = RunSuccess | RunFailed | RunCancelled | RunReplaced | RunPreconditionFailed

  datatype RunResult = RunResult(
    outcome: RunOutcome,
    statusCode: Option<int>,
    assertions: Option<AssertionSummary>,
    assertionFailed: bool,
    graphqlFailed: bool,
    extraction: Option<seq<ExtractionKind>>,
    execution: Option<Execution>)

  /** A result that carries nothing but its outcome. */
  function BareResult(outcome: RunOutcome): RunResult {
    RunResult(outcome, None, None, false, false, None, None)
  }

  /** What the orchestrator reports for an executed attempt; extraction runs only on commit. */
  function Orchestrate(f: Facts, commit: bool): RunResult {
    var report := EvaluatedReport(f);
    var assertionFailed := HasAssertionFailures(report);
    var graphqlFailed := f.execution.ExecutionSuccess? && f.execution.graphqlFailed;
    var extraction := if commit && !CancelledAtTransport(f.execution) then f.extraction else None;
    if CancelledAtTransport(f.execution) then BareResult(RunCancelled).(execution := Some(f.execution))
    else if f.execution.ExecutionSuccess? && !assertionFailed && !graphqlFailed then
      RunResult(RunSuccess, StatusCodeOf(f.execution), report, false, false, extraction, Some(f.execution))
    else
      RunResult(
        RunFailed, StatusCodeOf(f.execution), report, assertionFailed, graphqlFailed, extraction, Some(f.execution))
  }

  /** The part of a request result that later decisions read. */
  datatype RequestResult = RequestResult(
    outcome: Outcome,
    statusCode: Option<int>,
    assertionsTotal: Option<nat>,
    assertionsPassed: Option<nat>,
    assertionsFailed: Option<nat>,
    failureCategory: Option<Category>,
    presentationRetryable: Option<bool>)

  predicate HasBlockingExtractionFailure(extraction: Option<seq<ExtractionKind>>) {
    extraction.Some? && exists i :: 0 <= i < |extraction.value| && IsBlocking(extraction.value[i])
  }

  predicate IsBlocking(kind: ExtractionKind) {
    kind == Malformed || kind == ExtractFailed(true)
  }

  function DescribeExecutionFailure(r: RunResult): Category {
    var httpCompleted := (r.execution.Some? && r.execution.value.ExecutionSuccess?) || r.statusCode.Some?;
    if httpCompleted && r.assertionFailed then Assertion
    else if httpCompleted && r.graphqlFailed then Protocol
    else if httpCompleted && HasBlockingExtractionFailure(r.extraction) then Extraction
    else Transport
  }

  function MapOrchestratorResult(r: RunResult, policy: FailurePolicy): RequestResult {
    var presentationRetryable :=
      if r.execution.Some? && r.execution.value.ExecutionError? then Some(r.execution.value.retryable) else None;
    var base := RequestResult(
      Passed, r.statusCode,
      if r.assertions.Some? then Some(Total(r.assertions.value)) else None,
      if r.assertions.Some? then Some(r.assertions.value.passed) else None,
      if r.assertions.Some? then Some(r.assertions.value.failed + r.assertions.value.malformed) else None,
      None, presentationRetryable);
    match r.outcome
    case RunSuccess =>
      if HasBlockingExtractionFailure(r.extraction) then base.(outcome := Failed, failureCategory := Some(Extraction))
      else base
    case RunFailed => base.(outcome := Failed, failureCategory := Some(DescribeExecutionFailure(r)))
    case RunCancelled => base.(outcome := Cancelled, failureCategory := Some(Aborted))
    case RunReplaced => base.(outcome := Cancelled, failureCategory := Some(Aborted))
    case RunPreconditionFailed => base.(outcome := ClassifyInvalid(policy), failureCategory := Some(Precondition))
  }

  function ToAttemptView(r: RequestResult): AttemptView {
    AttemptView(
      r.outcome, r.statusCode,
      r.assertionsTotal.Some? && r.assertionsTotal.value > 0,
      r.assertionsFailed.Some? && r.assertionsFailed.value > 0,
      r.failureCategory, r.presentationRetryable)
  }

  /** Eligibility from the mapped result, once the attempt is over. */
  predicate IsRetryEligible(r: RequestResult) {
    IsEligibleFromAttempt(ToAttemptView(r))
  }

  // ---- Properties ----

  /**
   The rule in one line: a retryable status not vouched for by passed assertions, or a transport failure without
   status.
   */
  predicate RetryRule(a: AttemptView) {
    && a.outcome in {Passed, Failed}
    && (a.outcome == Failed ==>
          a.failureCategory !in {Some(Precondition), Some(Unread), Some(Extraction), Some(Aborted)})
    && match a.statusCode
       case Some(code) => code in RETRYABLE_STATUS_CODES && (a.assertionsEvaluated ==> a.assertionFailed)
       case None =>
         a.outcome == Failed && a.failureCategory == Some(Transport) && a.presentationRetryable != Some(false)
  }

  lemma EligibleIffRetryRule(a: AttemptView)
    ensures IsEligibleFromAttempt(a) <==> RetryRule(a)
  {
  }

  /**
   The decision to withhold side effects, taken on the facts, and the decision to retry, taken on the mapped
   result, are the same decision for every mix of transport, assertion, GraphQL and extraction outcomes.
   */
  lemma {:induction false} DecisionsAgree(f: Facts, policy: FailurePolicy)
    requires ValidFacts(f)
    ensures var withheld := IsEligibleFromSideEffectContext(SideEffectContextOf(f));
      IsRetryEligible(MapOrchestratorResult(Orchestrate(f, !withheld), policy)) == withheld
  {
    var withheld := IsEligibleFromSideEffectContext(SideEffectContextOf(f));
    var r := Orchestrate(f, !withheld);
    var report := EvaluatedReport(f);
    assert HasBlockingExtractionFailure(r.extraction) ==> !withheld;
    if f.execution.ExecutionSuccess? {
      assert r.outcome == RunSuccess || r.outcome == RunFailed;
    } else {
      assert r.statusCode == None;
    }
  }

  /** Some extraction, if the attempt commits, fails it: one that is malformed, or required and not found. */
  ghost predicate BlocksExtraction(f: Facts) {
    f.extraction.Some? && (Malformed in f.extraction.value || ExtractFailed(true) in f.extraction.value)
  }

  lemma BlockingIff(extraction: seq<ExtractionKind>)
    ensures HasBlockingExtractionFailure(Some(extraction)) <==>
      Malformed in extraction || ExtractFailed(true) in extraction
  {
    if Malformed in extraction {
      var i :| 0 <= i < |extraction| && extraction[i] == Malformed;
      assert IsBlocking(extraction[i]);
    }
    if ExtractFailed(true) in extraction {
      var i :| 0 <= i < |extraction| && extraction[i] == ExtractFailed(true);
      assert IsBlocking(extraction[i]);
    }
  }

  /**
   What an executed attempt is reported as, whatever the policy: cancelled at transport, failed with the first of
   transport, assertions, GraphQL and a committed extraction to fail, or else passed.
   */
  lemma {:induction false} ExecutedOutcome(f: Facts, commit: bool, policy: FailurePolicy)
    ensures var r := MapOrchestratorResult(Orchestrate(f, commit), policy);
      && r.statusCode == (if f.execution.ExecutionSuccess? then f.execution.statusCode else None)
      && match f.execution
         case ExecutionError(cancelled, retryable) =>
           if cancelled then r.outcome == Cancelled && r.failureCategory == Some(Aborted)
           else
             r.outcome == Failed && r.failureCategory == Some(Transport) && r.presentationRetryable == Some(retryable)
         case ExecutionSuccess(_, graphqlFailed) =>
           if f.report.Some? && f.report.value.failed + f.report.value.malformed > 0 then
             r.outcome == Failed && r.failureCategory == Some(Assertion)
           else if graphqlFailed then r.outcome == Failed && r.failureCategory == Some(Protocol)
           else if commit && BlocksExtraction(f) then r.outcome == Failed && r.failureCategory == Some(Extraction)
           else r.outcome == Passed && r.failureCategory == None
  {
    if f.extraction.Some? {
      BlockingIff(f.extraction.value);
    }
  }

  /** The assertion counts a result carries are those of the report, skipped ones in the total alone. */
  lemma ExecutedAssertions(f: Facts, commit: bool, policy: FailurePolicy)
    requires f.execution.ExecutionSuccess? || !f.execution.cancelled
    ensures var r := MapOrchestratorResult(Orchestrate(f, commit), policy);
      match f.report
      case None => r.assertionsPassed == None && r.assertionsFailed == None && r.assertionsTotal == None
      case Some(report) =>
        && r.assertionsPassed == Some(report.passed)
        && r.assertionsFailed == Some(report.failed + report.malformed)
        && r.assertionsTotal == Some(report.passed + report.failed + report.malformed + report.skipped)
  {
  }

  /** What an attempt that never executed is reported as; only an unmet precondition heeds the policy. */
  lemma UnexecutedOutcome(outcome: RunOutcome, policy: FailurePolicy)
    requires outcome in {RunCancelled, RunReplaced, RunPreconditionFailed}
    ensures var r := MapOrchestratorResult(BareResult(outcome), policy);
      if outcome != RunPreconditionFailed then r.outcome == Cancelled && r.failureCategory == Some(Aborted)
      else
        && r.failureCategory == Some(Precondition)
        && r.outcome == match policy
           case SkipInvalidRequests => Skipped
           case StopOnFirstError => Failed
           case ContinueOnError => Failed
  {
  }

  /**
   When an executed attempt is worth another: a status of 408, 429, 502, 503 or 504 that no report vouches for, or a
   transport error that may be retried.
   */
  lemma {:induction false} ExecutedIsRetriedIff(f: Facts, commit: bool, policy: FailurePolicy)
    requires ValidFacts(f) && (commit <==> !IsEligibleFromSideEffectContext(SideEffectContextOf(f)))
    ensures IsRetryEligible(MapOrchestratorResult(Orchestrate(f, commit), policy)) <==>
      match f.execution
      case ExecutionError(cancelled, retryable) => !cancelled && retryable
      case ExecutionSuccess(statusCode, _) =>
        && (statusCode == Some(408) || statusCode == Some(429) || statusCode == Some(502) || statusCode == Some(503)
            || statusCode == Some(504))
        && (f.report.Some? ==> f.report.value.failed + f.report.value.malformed > 0)
  {
    DecisionsAgree(f, policy);
  }

  /** Outcomes reached without executing anything are never retried. */
  lemma UnexecutedIsFinal(outcome: RunOutcome, policy: FailurePolicy)
    requires outcome in {RunCancelled, RunReplaced, RunPreconditionFailed}
    ensures !IsRetryEligible(MapOrchestratorResult(BareResult(outcome), policy))
  {
  }
}
