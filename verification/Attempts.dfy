/**
 The attempts one request may make. Everything outside the runner (the orchestrated executor, the file reader, the
 abort signal, the delay, the static variable scopes) is a `World` of arbitrary functions of a clock that ticks at
 every interaction, so the attempts of a request are a matter of when its retry loop starts.
 */
module Attempts {
  import opened Wrappers
  import opened DependencyGraph
  import opened RunPlans
  import opened RunOptions
  import opened RetryEligibility

  // ---- The outside world ----

  /** How one call of the executor turns out. */
  datatype Behaviour =
    | NotExecuted(outcome: RunOutcome)                    // ended before anything was sent
    | Executed(facts: Facts)                              // sent, asked whether to commit, reported
    | Interrupted(facts: Facts, outcome: RunOutcome)      // sent, asked whether to commit, then broke off
    | Rejected                                            // threw, having committed nothing

  datatype World = World(
    aborted: nat -> bool,
    behaviour: nat -> Behaviour,
    readable: nat -> bool,
    delayRejects: (nat, nat) -> bool,
    staticNames: nat -> set<string>)

  const BROKEN_OFF: set<RunOutcome> := {RunCancelled, RunReplaced, RunPreconditionFailed}

  ghost predicate ValidBehaviour(b: Behaviour) {
    match b
    case NotExecuted(outcome) => outcome in BROKEN_OFF
    case Executed(facts) => ValidFacts(facts)
    case Interrupted(facts, outcome) => ValidFacts(facts) && outcome in BROKEN_OFF
    case Rejected => true
  }

  /** Whether the delay at a clock rejects may depend on its milliseconds. An aborted signal stays aborted. */
  ghost predicate ValidWorld(w: World) {
    && (forall t :: ValidBehaviour(w.behaviour(t)))
    && (forall s, t :: s <= t && w.aborted(s) ==> w.aborted(t))
  }

  // ---- Results ----

  datatype ProducerState = DidNotRun | ProducerFailed | ProducerSkipped | ProducerCancelled | DidNotProduceIt

  datatype SkipReason =
    | MissingRunVariable(variable: string, producer: RequestId, state: ProducerState)
    | DestructiveDisabled
    | AfterEarlierFailure

  datatype AttemptRecord = AttemptRecord(
    attemptNumber: nat, outcome: Outcome, statusCode: Option<int>, retryable: Option<bool>)

  datatype RequestRunResult = RequestRunResult(
    requestId: RequestId, ordinal: nat, result: RequestResult, reason: Option<SkipReason>, attempts: seq<AttemptRecord>)

  function BareRequestResult(outcome: Outcome, category: Option<Category>): RequestResult {
    RequestResult(outcome, None, None, None, None, category, None)
  }

  function CancelledResult(planned: PlannedRequest): RequestRunResult {
    RequestRunResult(planned.requestId, planned.ordinal, BareRequestResult(Cancelled, Some(Aborted)), None, [])
  }

  function SkippedResult(planned: PlannedRequest, reason: SkipReason): RequestRunResult {
    RequestRunResult(planned.requestId, planned.ordinal, BareRequestResult(Skipped, None), Some(reason), [])
  }

  predicate ShouldStopAfter(policy: FailurePolicy, outcome: Outcome) {
    if policy == StopOnFirstError then outcome == Failed || outcome == Cancelled else outcome == Cancelled
  }

  function DescribeProducerState(result: Option<RequestRunResult>): ProducerState {
    match result
    case None => DidNotRun
    case Some(r) =>
      match r.result.outcome
      case Failed => ProducerFailed
      case Skipped => ProducerSkipped
      case Cancelled => ProducerCancelled
      case Passed => DidNotProduceIt
  }

  function ToAttemptRecord(attemptNumber: nat, r: RequestResult, willRetry: bool): AttemptRecord {
    AttemptRecord(
      attemptNumber,
      if willRetry then Failed else r.outcome,
      r.statusCode,
      if willRetry then Some(true) else if r.outcome == Failed then Some(IsRetryEligible(r)) else None)
  }

  // ---- What one attempt does ----

  /** The commit gate handed to the executor: always open on the last attempt. */
  predicate GateOpens(remaining: nat, ctx: SideEffectContext) {
    remaining == 0 || !IsEligibleFromSideEffectContext(ctx)
  }

  predicate Commits(b: Behaviour, remaining: nat) {
    (b.Executed? || b.Interrupted?) && GateOpens(remaining, SideEffectContextOf(b.facts))
  }

  /** The run variables an attempt stores: those of its extraction, and only if it commits. */
  function Writes(b: Behaviour, remaining: nat): map<string, string> {
    if Commits(b, remaining) && !CancelledAtTransport(b.facts.execution) then b.facts.writes else map[]
  }

  function ResultOf(b: Behaviour, remaining: nat, policy: FailurePolicy): RequestResult {
    match b
    case NotExecuted(outcome) => MapOrchestratorResult(BareResult(outcome), policy)
    case Executed(facts) => MapOrchestratorResult(Orchestrate(facts, Commits(b, remaining)), policy)
    case Interrupted(_, outcome) => MapOrchestratorResult(BareResult(outcome), policy)
    case Rejected => BareRequestResult(Failed, Some(Transport))
  }

  /** While retries remain, an attempt that commits is never retried and one that completes uncommitted always is. */
  lemma {:induction false} CommitMeansFinal(b: Behaviour, remaining: nat, policy: FailurePolicy)
    requires ValidBehaviour(b) && remaining > 0
    ensures Commits(b, remaining) ==> !IsRetryEligible(ResultOf(b, remaining, policy))
    ensures b.Executed? ==> Commits(b, remaining) == !IsRetryEligible(ResultOf(b, remaining, policy))
  {
    match b
    case NotExecuted(outcome) => UnexecutedIsFinal(outcome, policy);
    case Executed(facts) => DecisionsAgree(facts, policy);
    case Interrupted(_, outcome) => UnexecutedIsFinal(outcome, policy);
    case Rejected =>
  }

  /** One attempt: when the executor was called and what became of it. */
  datatype AttemptTrace = AttemptTrace(
    at: nat, number: nat, mapped: RequestResult, completed: bool, committed: bool, written: map<string, string>,
    retried: bool, wait: nat)

  function MaxAttempts(retry: RetryOptions): (n: nat)
    ensures n >= 1
  {
    if retry.enabled then retry.maxRetries + 1 else 1
  }

  /** The attempt that the executor's behaviour at `at` amounts to. */
  function AttemptOf(w: World, policy: FailurePolicy, retry: RetryOptions, at: nat, number: nat): AttemptTrace
    requires number <= MaxAttempts(retry)
  {
    var b, remaining := w.behaviour(at), MaxAttempts(retry) - number;
    var mapped := ResultOf(b, remaining, policy);
    var retried := remaining > 0 && IsRetryEligible(mapped);
    AttemptTrace(
      at, number, mapped, b.Executed?, Commits(b, remaining), Writes(b, remaining), retried,
      if retried then ComputeRetryDelayMs(number, retry.delayMs, retry.backoff) else 0)
  }

  /**
   The attempts of a loop that starts at clock `start`: before each the signal is read, after each that is retried
   the delay is awaited. The loop ends with an attempt that is not retried, or because it is cut off.
   */
  ghost predicate RetryRun(
      w: World, policy: FailurePolicy, retry: RetryOptions, start: nat, trace: seq<AttemptTrace>)
  {
    && |trace| <= MaxAttempts(retry)
    && (forall i :: 0 <= i < |trace| ==> MadeAt(w, policy, retry, start, trace, i))
    && (trace == [] || trace[|trace| - 1].retried ==> CutOffAfter(w, start, |trace|, LastWait(trace)))
  }

  ghost predicate MadeAt(
      w: World, policy: FailurePolicy, retry: RetryOptions, start: nat, trace: seq<AttemptTrace>, i: nat)
    requires i < |trace|
  {
    && i < MaxAttempts(retry) && !w.aborted(start + 3 * i)
    && trace[i] == AttemptOf(w, policy, retry, start + 3 * i + 1, i + 1)
    && (i < |trace| - 1 ==> trace[i].retried && !w.delayRejects(start + 3 * i + 2, trace[i].wait))
  }

  /** After `n` attempts the delay of `ms` rejected, or the signal was found aborted. */
  predicate CutOffAfter(w: World, start: nat, n: nat, ms: nat) {
    w.aborted(start + 3 * n) || (n > 0 && w.delayRejects(start + 3 * n - 1, ms))
  }

  function LastWait(trace: seq<AttemptTrace>): nat {
    if trace == [] then 0 else trace[|trace| - 1].wait
  }

  /** The clock when the loop is over. */
  function RetryEnd(w: World, start: nat, trace: seq<AttemptTrace>): nat {
    var n := 3 * |trace|;
    if trace != [] && !trace[|trace| - 1].retried then start + n - 1
    else if trace != [] && w.delayRejects(start + n - 1, LastWait(trace)) then start + n
    else start + n + 1
  }

  /** What the attempts leave in the run store: only the last may have written. */
  function WrittenBy(trace: seq<AttemptTrace>): map<string, string> {
    if trace == [] then map[] else trace[|trace| - 1].written
  }

  /** The attempt records a result carries. */
  function Records(trace: seq<AttemptTrace>): seq<AttemptRecord> {
    seq(|trace|, i requires 0 <= i < |trace| => ToAttemptRecord(trace[i].number, trace[i].mapped, trace[i].retried))
  }

  /**
   What the retry loop returns: the last attempt's own result when it was final, a cancellation when the run was cut
   off before an attempt or during a wait; either way with the record of every attempt made.
   */
  function RetryResult(planned: PlannedRequest, trace: seq<AttemptTrace>): RequestRunResult {
    if trace != [] && !trace[|trace| - 1].retried then
      RequestRunResult(planned.requestId, planned.ordinal, trace[|trace| - 1].mapped, None, Records(trace))
    else CancelledResult(planned).(attempts := Records(trace))
  }

  // ---- While the loop goes on ----

  /** Attempts all of which were retried, with no wait rejected. */
  ghost predicate Ongoing(
      w: World, policy: FailurePolicy, retry: RetryOptions, start: nat, trace: seq<AttemptTrace>)
  {
    forall i :: 0 <= i < |trace| ==> OngoingAt(w, policy, retry, start, trace, i)
  }

  ghost predicate OngoingAt(
      w: World, policy: FailurePolicy, retry: RetryOptions, start: nat, trace: seq<AttemptTrace>, i: nat)
    requires i < |trace|
  {
    && i < MaxAttempts(retry) && !w.aborted(start + 3 * i)
    && trace[i] == AttemptOf(w, policy, retry, start + 3 * i + 1, i + 1)
    && trace[i].retried && !w.delayRejects(start + 3 * i + 2, trace[i].wait)
  }

  lemma OngoingIsCutOff(
      w: World, policy: FailurePolicy, retry: RetryOptions, start: nat, trace: seq<AttemptTrace>)
    requires ValidWorld(w) && Ongoing(w, policy, retry, start, trace) && |trace| <= MaxAttempts(retry)
    requires w.aborted(start + 3 * |trace|)
    ensures RetryRun(w, policy, retry, start, trace)
    ensures RetryEnd(w, start, trace) == start + 3 * |trace| + 1 && WrittenBy(trace) == map[]
    ensures trace != [] ==> trace[|trace| - 1].retried
  {
    if trace != [] {
      var last := |trace| - 1;
      assert OngoingAt(w, policy, retry, start, trace, last);
      AttemptCommitsWhenFinal(w, policy, retry, start + 3 * last + 1, last + 1, trace[last]);
    }
    forall i | 0 <= i < |trace|
      ensures MadeAt(w, policy, retry, start, trace, i)
    {
      assert OngoingAt(w, policy, retry, start, trace, i);
    }
  }

  lemma OngoingThenLast(
      w: World, policy: FailurePolicy, retry: RetryOptions, start: nat, earlier: seq<AttemptTrace>, t: AttemptTrace)
    requires Ongoing(w, policy, retry, start, earlier) && |earlier| < MaxAttempts(retry)
    requires !w.aborted(start + 3 * |earlier|)
    requires t == AttemptOf(w, policy, retry, start + 3 * |earlier| + 1, |earlier| + 1)
    requires !t.retried || w.delayRejects(start + 3 * |earlier| + 2, t.wait)
    ensures RetryRun(w, policy, retry, start, earlier + [t])
  {
    forall i | 0 <= i < |earlier| + 1
      ensures MadeAt(w, policy, retry, start, earlier + [t], i)
    {
      if i < |earlier| {
        assert OngoingAt(w, policy, retry, start, earlier, i);
      }
    }
  }

  lemma OngoingGoesOn(
      w: World, policy: FailurePolicy, retry: RetryOptions, start: nat, earlier: seq<AttemptTrace>, t: AttemptTrace)
    requires Ongoing(w, policy, retry, start, earlier)
    requires OngoingAt(w, policy, retry, start, earlier + [t], |earlier|)
    ensures Ongoing(w, policy, retry, start, earlier + [t])
  {
    forall i | 0 <= i < |earlier| + 1
      ensures OngoingAt(w, policy, retry, start, earlier + [t], i)
    {
      assert i < |earlier| ==> OngoingAt(w, policy, retry, start, earlier, i);
    }
  }

  lemma RecordsOfOneMore(earlier: seq<AttemptTrace>, t: AttemptTrace)
    ensures Records(earlier + [t]) == Records(earlier) + [ToAttemptRecord(t.number, t.mapped, t.retried)]
  {
  }

  /** What one more attempt does to a loop that has gone on so far. */
  lemma OneMoreAttempt(
      w: World, policy: FailurePolicy, retry: RetryOptions, start: nat, earlier: seq<AttemptTrace>, t: AttemptTrace)
    requires ValidWorld(w) && Ongoing(w, policy, retry, start, earlier) && |earlier| < MaxAttempts(retry)
    requires !w.aborted(start + 3 * |earlier|)
    requires t == AttemptOf(w, policy, retry, start + 3 * |earlier| + 1, |earlier| + 1)
    ensures t.retried ==> t.written == map[]
    ensures !t.retried || w.delayRejects(start + 3 * |earlier| + 2, t.wait) ==>
      RetryRun(w, policy, retry, start, earlier + [t])
    ensures t.retried && !w.delayRejects(start + 3 * |earlier| + 2, t.wait) ==>
      Ongoing(w, policy, retry, start, earlier + [t])
  {
    AttemptCommitsWhenFinal(w, policy, retry, start + 3 * |earlier| + 1, |earlier| + 1, t);
    if !t.retried || w.delayRejects(start + 3 * |earlier| + 2, t.wait) {
      OngoingThenLast(w, policy, retry, start, earlier, t);
    } else {
      OngoingGoesOn(w, policy, retry, start, earlier, t);
    }
  }

  // ---- What follows for every request ----

  /** An attempt commits only when final, and does when it completed; what does not commit writes nothing. */
  predicate CommitsWhenFinal(t: AttemptTrace) {
    && (t.committed ==> !t.retried) && (t.completed ==> t.committed == !t.retried)
    && (!t.committed ==> t.written == map[])
  }

  lemma AttemptCommitsWhenFinal(
      w: World, policy: FailurePolicy, retry: RetryOptions, at: nat, number: nat, t: AttemptTrace)
    requires ValidWorld(w) && number <= MaxAttempts(retry) && t == AttemptOf(w, policy, retry, at, number)
    ensures CommitsWhenFinal(t)
  {
    if number < MaxAttempts(retry) {
      CommitMeansFinal(w.behaviour(at), MaxAttempts(retry) - number, policy);
    }
  }

  /** When a loop starts and what the world does leave no choice about its attempts. */
  lemma {:induction false} AttemptsAreDetermined(
      w: World, policy: FailurePolicy, retry: RetryOptions, start: nat, a: seq<AttemptTrace>, b: seq<AttemptTrace>)
    requires RetryRun(w, policy, retry, start, a) && RetryRun(w, policy, retry, start, b)
    ensures a == b
  {
    SameAttempt(w, policy, retry, start, a, b, |a| - 1);
    SameAttempt(w, policy, retry, start, a, b, |b| - 1);
    GoesOnUntilItsEnd(w, policy, retry, start, a, |b|);
    GoesOnUntilItsEnd(w, policy, retry, start, b, |a|);
    SameWait(w, policy, retry, start, a, b);
    SameWait(w, policy, retry, start, b, a);
    assert |a| == |b|;
    forall i | 0 <= i < |a|
      ensures a[i] == b[i]
    {
      SameAttempt(w, policy, retry, start, a, b, i);
    }
  }

  lemma SameAttempt(
      w: World, policy: FailurePolicy, retry: RetryOptions, start: nat, a: seq<AttemptTrace>, b: seq<AttemptTrace>,
      i: int)
    requires RetryRun(w, policy, retry, start, a) && RetryRun(w, policy, retry, start, b)
    ensures 0 <= i < |a| && i < |b| ==> a[i] == b[i]
  {
    if 0 <= i < |a| && i < |b| {
      assert MadeAt(w, policy, retry, start, a, i) && MadeAt(w, policy, retry, start, b, i);
    }
  }

  lemma SameWait(
      w: World, policy: FailurePolicy, retry: RetryOptions, start: nat, a: seq<AttemptTrace>, b: seq<AttemptTrace>)
    requires RetryRun(w, policy, retry, start, a) && RetryRun(w, policy, retry, start, b)
    ensures |a| <= |b| ==> LastWait(b[..|a|]) == LastWait(a)
  {
    SameAttempt(w, policy, retry, start, a, b, |a| - 1);
  }

  lemma GoesOnUntilItsEnd(
      w: World, policy: FailurePolicy, retry: RetryOptions, start: nat, trace: seq<AttemptTrace>, n: nat)
    requires RetryRun(w, policy, retry, start, trace)
    ensures n < |trace| ==> !CutOffAfter(w, start, n, LastWait(trace[..n]))
    ensures 0 < n < |trace| ==> trace[n - 1].retried
  {
    if n < |trace| {
      assert MadeAt(w, policy, retry, start, trace, n);
      if n > 0 {
        assert MadeAt(w, policy, retry, start, trace, n - 1);
      }
    }
  }

  /** The executor is called only while the signal was not aborted when last read. */
  lemma {:induction false} NoAttemptAfterAbort(
      w: World, policy: FailurePolicy, retry: RetryOptions, start: nat, trace: seq<AttemptTrace>, i: nat, t: nat)
    requires ValidWorld(w) && RetryRun(w, policy, retry, start, trace)
    requires i < |trace| && w.aborted(t)
    ensures trace[i].at <= t
  {
    assert MadeAt(w, policy, retry, start, trace, i);
  }

  /** What a sequence of attempts that ends at its last one looks like. */
  ghost predicate RetryDiscipline(trace: seq<AttemptTrace>) {
    forall i :: 0 <= i < |trace| ==> DisciplinedAt(trace, i)
  }

  /** Attempts are numbered from 1; all but the last are retried, and so have not committed. */
  ghost predicate DisciplinedAt(trace: seq<AttemptTrace>, i: nat)
    requires i < |trace|
  {
    && trace[i].number == i + 1 && CommitsWhenFinal(trace[i])
    && (i < |trace| - 1 ==> trace[i].retried)
  }

  lemma {:induction false} RetryRunIsDisciplined(
      w: World, policy: FailurePolicy, retry: RetryOptions, start: nat, trace: seq<AttemptTrace>)
    requires ValidWorld(w) && RetryRun(w, policy, retry, start, trace)
    ensures RetryDiscipline(trace)
  {
    forall i | 0 <= i < |trace|
      ensures DisciplinedAt(trace, i)
    {
      MadeIsDisciplined(w, policy, retry, start, trace, i);
    }
  }

  lemma MadeIsDisciplined(
      w: World, policy: FailurePolicy, retry: RetryOptions, start: nat, trace: seq<AttemptTrace>, i: nat)
    requires ValidWorld(w) && i < |trace| && MadeAt(w, policy, retry, start, trace, i)
    ensures DisciplinedAt(trace, i)
  {
    AttemptCommitsWhenFinal(w, policy, retry, start + 3 * i + 1, i + 1, trace[i]);
    MadeIsNumbered(w, policy, retry, start, trace, i);
  }

  lemma MadeIsNumbered(
      w: World, policy: FailurePolicy, retry: RetryOptions, start: nat, trace: seq<AttemptTrace>, i: nat)
    requires i < |trace| && MadeAt(w, policy, retry, start, trace, i)
    ensures trace[i].number == i + 1 && (i < |trace| - 1 ==> trace[i].retried)
  {
  }

  /** How many of the executor's calls committed side effects. */
  ghost function CommitCount(trace: seq<AttemptTrace>): nat {
    if trace == [] then 0
    else CommitCount(trace[..|trace| - 1]) + if trace[|trace| - 1].committed then 1 else 0
  }

  lemma {:induction false} NoCommit(trace: seq<AttemptTrace>)
    requires forall i :: 0 <= i < |trace| ==> !trace[i].committed
    ensures CommitCount(trace) == 0
  {
    if trace != [] {
      NoCommit(trace[..|trace| - 1]);
    }
  }

  /**
   However many attempts a request makes, at most one commits side effects, and it is the last; a request whose
   last attempt completed and was not left waiting for another commits exactly once.
   */
  lemma {:induction false} CommitsAtMostOnce(
      w: World, policy: FailurePolicy, retry: RetryOptions, start: nat, trace: seq<AttemptTrace>)
    requires ValidWorld(w) && RetryRun(w, policy, retry, start, trace)
    ensures CommitCount(trace) <= 1
    ensures forall i :: 0 <= i < |trace| - 1 ==> !Commits(w.behaviour(trace[i].at), MaxAttempts(retry) - i - 1)
    ensures trace != [] ==> var t := trace[|trace| - 1];
      w.behaviour(t.at).Executed? && !t.retried ==> CommitCount(trace) == 1
  {
    RetryRunIsDisciplined(w, policy, retry, start, trace);
    forall i | 0 <= i < |trace|
      ensures trace[i].committed ==> i == |trace| - 1
      ensures trace[i].committed == Commits(w.behaviour(trace[i].at), MaxAttempts(retry) - i - 1)
      ensures trace[i].completed == w.behaviour(trace[i].at).Executed?
    {
      assert DisciplinedAt(trace, i) && MadeAt(w, policy, retry, start, trace, i);
    }
    if trace != [] {
      assert DisciplinedAt(trace, |trace| - 1);
      NoCommit(trace[..|trace| - 1]);
    }
  }

  function Waits(trace: seq<AttemptTrace>): seq<nat> {
    seq(|trace|, i requires 0 <= i < |trace| => trace[i].wait)
  }

  lemma WaitIsComputed(
      w: World, policy: FailurePolicy, retry: RetryOptions, start: nat, trace: seq<AttemptTrace>, i: nat)
    requires RetryRun(w, policy, retry, start, trace) && i < |trace|
    ensures trace[i].retried ==> i + 1 < MaxAttempts(retry)
    ensures trace[i].wait == if trace[i].retried then ComputeRetryDelayMs(i + 1, retry.delayMs, retry.backoff) else 0
    ensures i < |trace| - 1 ==> trace[i].retried
  {
    assert MadeAt(w, policy, retry, start, trace, i);
  }

  lemma WaitsGrow(
      w: World, policy: FailurePolicy, retry: RetryOptions, start: nat, trace: seq<AttemptTrace>, i: nat, j: nat)
    requires RetryRun(w, policy, retry, start, trace) && i <= j < |trace| && trace[j].retried
    ensures trace[i].wait <= trace[j].wait
  {
    WaitIsComputed(w, policy, retry, start, trace, i);
    WaitIsComputed(w, policy, retry, start, trace, j);
    WaitsNeverShrink(i + 1, j + 1, retry.delayMs, retry.backoff);
  }

  lemma TotalWaitIsBounded(
      w: World, policy: FailurePolicy, retry: RetryOptions, start: nat, trace: seq<AttemptTrace>)
    requires RetryRun(w, policy, retry, start, trace) && MaxAttempts(retry) <= 11
    ensures TotalWait(Waits(trace)) <= 600000
  {
    var waits := Waits(trace);
    forall ms | ms in waits
      ensures ms <= MAX_DELAY_MS_CAP
    {
      var i :| 0 <= i < |trace| && waits[i] == ms;
      WaitIsComputed(w, policy, retry, start, trace, i);
    }
    if |trace| == 11 {
      WaitIsComputed(w, policy, retry, start, trace, 10);
      assert waits == waits[..10] + [0];
      assert forall ms :: ms in waits[..10] ==> ms in waits;
      TotalWaitIsCapped(waits[..10]);
    } else {
      TotalWaitIsCapped(waits);
    }
  }

  lemma LoopStartsAndStops(
      w: World, policy: FailurePolicy, retry: RetryOptions, start: nat, trace: seq<AttemptTrace>)
    requires RetryRun(w, policy, retry, start, trace)
    ensures trace != [] <==> !w.aborted(start)
    ensures trace != [] && |trace| < MaxAttempts(retry) ==>
      !IsRetryEligible(trace[|trace| - 1].mapped) || CutOffAfter(w, start, |trace|, LastWait(trace))
  {
    if trace != [] {
      assert MadeAt(w, policy, retry, start, trace, 0) && MadeAt(w, policy, retry, start, trace, |trace| - 1);
    }
  }

  /**
   After normalization a request whose loop starts makes between one and eleven attempts and waits at most ten
   minutes in all, no wait shorter than an earlier one. It stops short of its maximum only because an attempt was not
   to be retried or the loop was cut off.
   */
  lemma {:induction false} RetriesAreBounded(
      w: World, policy: FailurePolicy, input: Option<RunOptionsInput>, start: nat, trace: seq<AttemptTrace>)
    requires RetryRun(w, policy, NormalizeCollectionRunOptions(input).retry, start, trace)
    ensures |trace| >= 1 <==> !w.aborted(start)
    ensures |trace| <= NormalizeCollectionRunOptions(input).retry.maxRetries + 1 <= 11
    ensures !NormalizeCollectionRunOptions(input).retry.enabled ==> |trace| <= 1
    ensures var retry := NormalizeCollectionRunOptions(input).retry;
      retry.enabled && 1 <= |trace| <= retry.maxRetries ==>
      !IsRetryEligible(trace[|trace| - 1].mapped) || CutOffAfter(w, start, |trace|, LastWait(trace))
    ensures TotalWait(Waits(trace)) <= 600000
    ensures forall i, j :: 0 <= i <= j < |trace| && trace[j].retried ==> trace[i].wait <= trace[j].wait
  {
    var retry := NormalizeCollectionRunOptions(input).retry;
    LoopStartsAndStops(w, policy, retry, start, trace);
    TotalWaitIsBounded(w, policy, retry, start, trace);
    forall i, j | 0 <= i <= j < |trace| && trace[j].retried
      ensures trace[i].wait <= trace[j].wait
    {
      WaitsGrow(w, policy, retry, start, trace, i, j);
    }
  }

  // ---- What is reported, in terms of the executor alone ----

  /** What the executor's call number `k + 1` came to. */
  function OutcomeAt(w: World, policy: FailurePolicy, retry: RetryOptions, start: nat, k: nat): RequestResult
    requires k < MaxAttempts(retry)
  {
    ResultOf(w.behaviour(start + 3 * k + 1), MaxAttempts(retry) - k - 1, policy)
  }

  lemma MadeAsReported(
      w: World, policy: FailurePolicy, retry: RetryOptions, start: nat, trace: seq<AttemptTrace>, k: nat)
    requires RetryRun(w, policy, retry, start, trace) && k < |trace|
    ensures k < MaxAttempts(retry) && trace[k].number == k + 1
    ensures trace[k].mapped == OutcomeAt(w, policy, retry, start, k)
    ensures trace[k].retried <==> k + 1 < MaxAttempts(retry) && IsRetryEligible(trace[k].mapped)
    ensures k < |trace| - 1 ==> trace[k].retried
  {
    assert MadeAt(w, policy, retry, start, trace, k);
  }

  /** Every attempt is on record, under its number and status; one that another was to follow, as failed. */
  lemma {:induction false} AttemptsAreOnRecord(
      w: World, policy: FailurePolicy, retry: RetryOptions, start: nat, planned: PlannedRequest,
      trace: seq<AttemptTrace>, k: nat)
    requires RetryRun(w, policy, retry, start, trace) && k < |trace|
    ensures k < MaxAttempts(retry) && |RetryResult(planned, trace).attempts| == |trace|
    ensures var outcome, record := OutcomeAt(w, policy, retry, start, k), RetryResult(planned, trace).attempts[k];
      && record.attemptNumber == k + 1 && record.statusCode == outcome.statusCode
      && if k + 1 < MaxAttempts(retry) && IsRetryEligible(outcome) then
           record.outcome == Failed && record.retryable == Some(true)
         else
           && record.outcome == outcome.outcome
           && record.retryable == if outcome.outcome == Failed then Some(IsRetryEligible(outcome)) else None
  {
    MadeAsReported(w, policy, retry, start, trace, k);
  }

  /**
   What the request's result is: cancelled when the loop was cut off before an attempt or while one was to follow,
   else what the last attempt came to.
   */
  lemma {:induction false} ResultIsLastOutcome(
      w: World, policy: FailurePolicy, retry: RetryOptions, start: nat, planned: PlannedRequest,
      trace: seq<AttemptTrace>)
    requires RetryRun(w, policy, retry, start, trace)
    ensures |trace| <= MaxAttempts(retry)
    ensures var r := RetryResult(planned, trace);
      && r.requestId == planned.requestId && r.ordinal == planned.ordinal && r.reason == None
      && if trace == [] then r.result.outcome == Cancelled && r.result.failureCategory == Some(Aborted)
         else
           var last := OutcomeAt(w, policy, retry, start, |trace| - 1);
           if |trace| < MaxAttempts(retry) && IsRetryEligible(last) then
             r.result.outcome == Cancelled && r.result.failureCategory == Some(Aborted)
           else r.result == last
  {
    if trace != [] {
      MadeAsReported(w, policy, retry, start, trace, |trace| - 1);
    }
  }

  /**
   What a call of the executor stores: its extracted values when it ran, was not cancelled at transport, and was the
   last allowed or not to be repeated; otherwise nothing.
   */
  lemma WritesInFull(b: Behaviour, remaining: nat)
    ensures Writes(b, remaining) ==
      match b
      case Executed(facts) =>
        if !CancelledAtTransport(facts.execution)
           && (remaining == 0 || !IsEligibleFromSideEffectContext(SideEffectContextOf(facts)))
        then facts.writes else map[]
      case Interrupted(facts, _) =>
        if !CancelledAtTransport(facts.execution)
           && (remaining == 0 || !IsEligibleFromSideEffectContext(SideEffectContextOf(facts)))
        then facts.writes else map[]
      case _ => map[]
  {
  }

  /** A call that throws is a failure of transport. */
  lemma ThrownIsTransport(remaining: nat, policy: FailurePolicy)
    ensures ResultOf(Rejected, remaining, policy).outcome == Failed
    ensures ResultOf(Rejected, remaining, policy).failureCategory == Some(Transport)
    ensures ResultOf(Rejected, remaining, policy).statusCode == None
  {
  }
}
