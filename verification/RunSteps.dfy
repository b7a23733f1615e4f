/**
 What a collection run is: which requests it reaches, how each is dealt with and when, what the store then holds, and
 how the run ends. Given the outside world, the plan and the store at the start, there is exactly one such run.
 */
module RunSteps {
  import opened Sequences
  import opened Wrappers
  import opened DependencyGraph
  import opened RunPlans
  import opened RunOptions
  import opened RetryEligibility
  import opened Attempts

  // ---- Preflight ----

  function IncomingEdges(edges: seq<DependencyEdge>, id: RequestId): seq<DependencyEdge> {
    Filter(edges, (e: DependencyEdge) => e.to == id && e.kind == Implicit && e.variable.Some?)
  }

  /** The variable of an incoming edge is at hand. */
  predicate Supplied(e: DependencyEdge, store: map<string, string>, statics: set<string>) {
    e.variable.Some? && (e.variable.value in store || e.variable.value in statics)
  }

  /** Every incoming variable is stored or static, or the run keeps no store. */
  ghost predicate VariablesAtHand(
      planned: PlannedRequest, edges: seq<DependencyEdge>, store: Option<map<string, string>>, statics: set<string>)
  {
    store.Some? ==> forall e :: e in IncomingEdges(edges, planned.requestId) ==> Supplied(e, store.value, statics)
  }

  function StateIn(resultsById: map<RequestId, RequestRunResult>, id: RequestId): ProducerState {
    DescribeProducerState(if id in resultsById then Some(resultsById[id]) else None)
  }

  /** The reason names the first incoming edge that is not supplied, and how its producer fared. */
  ghost predicate BlamesFirst(
      planned: PlannedRequest, edges: seq<DependencyEdge>, resultsById: map<RequestId, RequestRunResult>,
      store: map<string, string>, statics: set<string>, reason: SkipReason)
  {
    exists j: nat :: BlamesAt(planned, edges, resultsById, store, statics, reason, j)
  }

  ghost predicate BlamesAt(
      planned: PlannedRequest, edges: seq<DependencyEdge>, resultsById: map<RequestId, RequestRunResult>,
      store: map<string, string>, statics: set<string>, reason: SkipReason, j: nat)
  {
    var incoming := IncomingEdges(edges, planned.requestId);
    && j < |incoming| && !Supplied(incoming[j], store, statics)
    && (forall i :: 0 <= i < j ==> Supplied(incoming[i], store, statics))
    && incoming[j].variable.Some?
    && reason == MissingRunVariable(
                   incoming[j].variable.value, incoming[j].from, StateIn(resultsById, incoming[j].from))
  }

  /** The static names are read only for a request with incoming edges, in a run with a store. */
  function PreflightTicks(
      planned: PlannedRequest, edges: seq<DependencyEdge>, store: Option<map<string, string>>): nat
  {
    if store.Some? && IncomingEdges(edges, planned.requestId) != [] then 1 else 0
  }

  // ---- One request ----

  /** Which way a planned request was dealt with. */
  datatype Ending =
    | NotReached
    | CutOff
    | VariableMissing(reason: SkipReason)
    | DestructiveSkipped
    | Unreadable
    | Attempted

  /** One planned request: the clock before and after, how it ended, its attempts, and the store before it. */
  datatype StepLog = StepLog(
    at: nat, until: nat, ending: Ending, attempts: seq<AttemptTrace>, storeBefore: Option<map<string, string>>)

  /** The store after these variables are written; without a store nothing is kept. */
  function StoreWith(
      store: Option<map<string, string>>, written: map<string, string>): (r: Option<map<string, string>>)
    ensures written == map[] ==> r == store
  {
    if store.None? then None
    else
      assert written == map[] ==> store.value + written == store.value;
      Some(store.value + written)
  }

  /** When the request's file is read, should the step get so far. */
  function FileReadAt(planned: PlannedRequest, edges: seq<DependencyEdge>, log: StepLog): nat {
    log.at + 1 + PreflightTicks(planned, edges, log.storeBefore)
  }

  function UnreadResult(planned: PlannedRequest, policy: FailurePolicy): RequestRunResult {
    RequestRunResult(
      planned.requestId, planned.ordinal, BareRequestResult(ClassifyInvalid(policy), Some(Unread)), None, [])
  }

  /** Whether the preflight finds every incoming variable. */
  ghost predicate PassesPreflight(w: World, edges: seq<DependencyEdge>, planned: PlannedRequest, log: StepLog) {
    VariablesAtHand(planned, edges, log.storeBefore, w.staticNames(log.at + 1))
  }

  predicate IsDisabled(options: CollectionRunOptions, planned: PlannedRequest) {
    options.skipDestructiveRequests && IsDestructiveHttpMethod(planned.httpMethod)
  }

  /** A step from the reading of its file on: the file, the signal again, the attempts. */
  ghost predicate DoneFromFile(
      w: World, policy: FailurePolicy, retry: RetryOptions, planned: PlannedRequest, fileAt: nat,
      result: RequestRunResult, log: StepLog)
  {
    match log.ending
    case Unreadable =>
      !w.readable(fileAt) && result == UnreadResult(planned, policy) && log.attempts == [] && log.until == fileAt + 1
    case CutOff =>
      && w.readable(fileAt) && w.aborted(fileAt + 1)
      && result == CancelledResult(planned) && log.attempts == [] && log.until == fileAt + 2
    case Attempted =>
      && w.readable(fileAt) && !w.aborted(fileAt + 1) && RetryRun(w, policy, retry, fileAt + 2, log.attempts)
      && result == RetryResult(planned, log.attempts) && log.until == RetryEnd(w, fileAt + 2, log.attempts)
    case _ => false
  }

  /** Whether a step is over before its file is read. */
  ghost predicate EndsEarly(
      w: World, options: CollectionRunOptions, edges: seq<DependencyEdge>, planned: PlannedRequest, log: StepLog)
  {
    w.aborted(log.at) || !PassesPreflight(w, edges, planned, log) || IsDisabled(options, planned)
  }

  /** A step that the signal, the preflight or the destructive check ended, whichever comes first. */
  ghost predicate DoneEarly(
      w: World, edges: seq<DependencyEdge>, planned: PlannedRequest, resultsById: map<RequestId, RequestRunResult>,
      result: RequestRunResult, log: StepLog)
  {
    && log.attempts == []
    && if w.aborted(log.at) then
         log.ending == CutOff && result == CancelledResult(planned) && log.until == log.at + 1
       else if !PassesPreflight(w, edges, planned, log) then
         && log.ending.VariableMissing? && log.until == FileReadAt(planned, edges, log) && log.storeBefore.Some?
         && BlamesFirst(
              planned, edges, resultsById, log.storeBefore.value, w.staticNames(log.at + 1), log.ending.reason)
         && result == SkippedResult(planned, log.ending.reason)
       else
         && log.ending == DestructiveSkipped && log.until == FileReadAt(planned, edges, log)
         && result == SkippedResult(planned, DestructiveDisabled)
  }

  /** What holds of every request the runner got to. */
  ghost predicate StepDone(
      w: World, policy: FailurePolicy, options: CollectionRunOptions, edges: seq<DependencyEdge>,
      planned: PlannedRequest, resultsById: map<RequestId, RequestRunResult>,
      result: RequestRunResult, log: StepLog)
  {
    if EndsEarly(w, options, edges, planned, log) then DoneEarly(w, edges, planned, resultsById, result, log)
    else DoneFromFile(w, policy, options.retry, planned, FileReadAt(planned, edges, log), result, log)
  }

  /** At most one reason blames the first missing variable. */
  lemma {:induction false} BlameIsDetermined(
      planned: PlannedRequest, edges: seq<DependencyEdge>, resultsById: map<RequestId, RequestRunResult>,
      store: map<string, string>, statics: set<string>, a: SkipReason, b: SkipReason)
    requires BlamesFirst(planned, edges, resultsById, store, statics, a)
    requires BlamesFirst(planned, edges, resultsById, store, statics, b)
    ensures a == b
  {
    var i: nat :| BlamesAt(planned, edges, resultsById, store, statics, a, i);
    var j: nat :| BlamesAt(planned, edges, resultsById, store, statics, b, j);
    assert i == j;
  }

  lemma DoneFromFileIsDetermined(
      w: World, policy: FailurePolicy, retry: RetryOptions, planned: PlannedRequest, fileAt: nat,
      result: RequestRunResult, log: StepLog, result': RequestRunResult, log': StepLog)
    requires DoneFromFile(w, policy, retry, planned, fileAt, result, log)
    requires DoneFromFile(w, policy, retry, planned, fileAt, result', log')
    requires log.at == log'.at && log.storeBefore == log'.storeBefore
    ensures result == result' && log == log'
  {
    if log.ending == Attempted {
      AttemptsAreDetermined(w, policy, retry, fileAt + 2, log.attempts, log'.attempts);
    }
  }

  /** The clock, the store and the earlier results leave no choice about a step. */
  lemma {:induction false} StepIsDetermined(
      w: World, policy: FailurePolicy, options: CollectionRunOptions, edges: seq<DependencyEdge>,
      planned: PlannedRequest, resultsById: map<RequestId, RequestRunResult>,
      result: RequestRunResult, log: StepLog, result': RequestRunResult, log': StepLog)
    requires StepDone(w, policy, options, edges, planned, resultsById, result, log)
    requires StepDone(w, policy, options, edges, planned, resultsById, result', log')
    requires log.at == log'.at && log.storeBefore == log'.storeBefore
    ensures result == result' && log == log'
  {
    if EndsEarly(w, options, edges, planned, log) {
      DoneEarlyIsDetermined(w, edges, planned, resultsById, result, log, result', log');
    } else {
      var fileAt := FileReadAt(planned, edges, log);
      DoneFromFileIsDetermined(w, policy, options.retry, planned, fileAt, result, log, result', log');
    }
  }

  lemma DoneEarlyIsDetermined(
      w: World, edges: seq<DependencyEdge>, planned: PlannedRequest, resultsById: map<RequestId, RequestRunResult>,
      result: RequestRunResult, log: StepLog, result': RequestRunResult, log': StepLog)
    requires DoneEarly(w, edges, planned, resultsById, result, log)
    requires DoneEarly(w, edges, planned, resultsById, result', log')
    requires log.at == log'.at && log.storeBefore == log'.storeBefore
    ensures result == result' && log == log'
  {
    if !w.aborted(log.at) && !PassesPreflight(w, edges, planned, log) {
      BlameIsDetermined(planned, edges, resultsById, log.storeBefore.value, w.staticNames(log.at + 1),
                        log.ending.reason, log'.ending.reason);
    }
  }

  lemma AttemptsArePermitted(
      w: World, policy: FailurePolicy, options: CollectionRunOptions, edges: seq<DependencyEdge>,
      planned: PlannedRequest, resultsById: map<RequestId, RequestRunResult>, result: RequestRunResult, log: StepLog)
    requires StepDone(w, policy, options, edges, planned, resultsById, result, log)
    ensures log.attempts != [] ==>
      && VariablesAtHand(planned, edges, log.storeBefore, w.staticNames(log.at + 1))
      && !IsDisabled(options, planned)
  {
  }

  // ---- The run ----

  datatype RunStatus = Completed | CancelledRun | Stopped

  /** All that a run depends on. */
  datatype RunSetting = RunSetting(
    world: World, requests: seq<PlannedRequest>, edges: seq<DependencyEdge>, policy: FailurePolicy,
    options: CollectionRunOptions, initialStore: Option<map<string, string>>, start: nat)

  /** What came of a run; `reached` counts the requests that were begun. */
  datatype RunRecord = RunRecord(
    results: seq<RequestRunResult>, status: RunStatus, logs: seq<StepLog>, reached: nat)

  /** The request let the run go on under this policy. */
  predicate LetsRunContinue(policy: FailurePolicy, outcome: Outcome) {
    outcome != Cancelled && (policy == StopOnFirstError ==> outcome != Failed)
  }

  function StatusAfter(policy: FailurePolicy, outcome: Outcome): RunStatus {
    if outcome == Cancelled then CancelledRun
    else if ShouldStopAfter(policy, outcome) then Stopped
    else Completed
  }

  function RestStatus(status: RunStatus): RunStatus {
    if status == Stopped then Stopped else CancelledRun
  }

  /** The result of a request that was never begun. */
  function RestResult(planned: PlannedRequest, status: RunStatus): RequestRunResult {
    if status == Stopped then SkippedResult(planned, AfterEarlierFailure) else CancelledResult(planned)
  }

  function RestLog(at: nat, store: Option<map<string, string>>): StepLog {
    StepLog(at, at, NotReached, [], store)
  }

  /** The latest result of each request dealt with. */
  function ResultsById(
      requests: seq<PlannedRequest>, results: seq<RequestRunResult>): map<RequestId, RequestRunResult>
    requires |results| <= |requests|
  {
    if results == [] then map[]
    else
      var last := |results| - 1;
      ResultsById(requests, results[..last])[requests[last].requestId := results[last]]
  }

  /** The clock after the first `i` requests. */
  function ClockAfter(start: nat, logs: seq<StepLog>, i: nat): nat
    requires i <= |logs|
  {
    if i == 0 then start else logs[i - 1].until
  }

  /** The variables that the first `i` requests stored, later values winning. */
  function WrittenBefore(logs: seq<StepLog>, i: nat): map<string, string>
    requires i <= |logs|
  {
    if i == 0 then map[] else WrittenBefore(logs, i - 1) + WrittenBy(logs[i - 1].attempts)
  }

  /**
   Turn `i`: the signal is read where the turn before left off; a reached request is a proper step in the store that
   the steps before it left.
   */
  ghost predicate TurnAt(s: RunSetting, r: RunRecord, i: nat)
    requires i < |r.results| == |r.logs| <= |s.requests|
  {
    && r.logs[i].at == ClockAfter(s.start, r.logs, i) + 1
    && r.logs[i].storeBefore == StoreWith(s.initialStore, WrittenBefore(r.logs, i))
    && if i < r.reached then
         && !s.world.aborted(r.logs[i].at - 1)
         && StepDone(s.world, s.policy, s.options, s.edges, s.requests[i], ResultsById(s.requests, r.results[..i]),
                     r.results[i], r.logs[i])
       else r.logs[i] == RestLog(r.logs[i].at, r.logs[i].storeBefore)
  }

  /** Results split into those of reached requests and a uniform rest that depends on how the run ended. */
  ghost predicate Split(s: RunSetting, r: RunRecord) {
    && r.reached <= |r.results| <= |s.requests|
    && (forall i :: 0 <= i < |r.results| ==>
          r.results[i].requestId == s.requests[i].requestId && r.results[i].ordinal == s.requests[i].ordinal)
    && (forall i :: 0 <= i < r.reached - 1 ==> LetsRunContinue(s.policy, r.results[i].result.outcome))
    && (forall i :: r.reached <= i < |r.results| ==> r.results[i] == RestResult(s.requests[i], r.status))
    && match r.status
       case Completed => r.reached == |r.results| && GoesOnAfterLast(s, r)
       case Stopped =>
         r.reached > 0 && s.policy == StopOnFirstError && r.results[r.reached - 1].result.outcome == Failed
       case CancelledRun =>
         && (CancelledLast(r) || (r.reached < |r.results| && GoesOnAfterLast(s, r)))
  }

  ghost predicate GoesOnAfterLast(s: RunSetting, r: RunRecord)
    requires r.reached <= |r.results|
  {
    r.reached > 0 ==> LetsRunContinue(s.policy, r.results[r.reached - 1].result.outcome)
  }

  ghost predicate CancelledLast(r: RunRecord)
    requires r.reached <= |r.results|
  {
    r.reached > 0 && r.results[r.reached - 1].result.outcome == Cancelled
  }

  /** A run is cancelled by a cancelled request or by the signal, found aborted at the first request not begun. */
  ghost predicate CancelledForCause(s: RunSetting, r: RunRecord)
    requires r.reached <= |r.results| == |r.logs|
  {
    r.status == CancelledRun && !CancelledLast(r) ==>
      r.reached < |r.logs| && r.logs[r.reached].at > 0 && s.world.aborted(r.logs[r.reached].at - 1)
  }

  /** A run as far as it has come. */
  ghost predicate IsRunSoFar(s: RunSetting, r: RunRecord) {
    && |r.results| == |r.logs| && Split(s, r)
    && (forall i :: 0 <= i < |r.logs| ==> TurnAt(s, r, i))
    && CancelledForCause(s, r)
  }

  ghost predicate IsRun(s: RunSetting, r: RunRecord) {
    IsRunSoFar(s, r) && |r.results| == |s.requests|
  }

  /** A run before its first request. */
  const NOTHING_RUN: RunRecord := RunRecord([], Completed, [], 0)

  lemma NothingIsRun(s: RunSetting)
    ensures IsRunSoFar(s, NOTHING_RUN) && ClockNow(s, NOTHING_RUN) == s.start
    ensures StoreNow(s, NOTHING_RUN) == s.initialStore
  {
  }

  lemma MissingWhenReached(s: RunSetting, r: RunRecord, i: nat)
    requires IsRunSoFar(s, r) && i < r.reached && !s.world.aborted(r.logs[i].at)
    ensures r.logs[i].ending.VariableMissing? <==>
      !VariablesAtHand(s.requests[i], s.edges, r.logs[i].storeBefore, s.world.staticNames(r.logs[i].at + 1))
  {
    assert TurnAt(s, r, i);
  }

  /** A reason given at a step blames the first variable missing there. */
  lemma MissingMeansBlame(s: RunSetting, r: RunRecord, i: nat, reason: SkipReason)
    requires IsRunSoFar(s, r) && i < |r.logs| && r.logs[i].ending == VariableMissing(reason)
    ensures r.logs[i].storeBefore.Some?
    ensures BlamesFirst(s.requests[i], s.edges, ResultsById(s.requests, r.results[..i]), r.logs[i].storeBefore.value,
                        s.world.staticNames(r.logs[i].at + 1), reason)
  {
    assert TurnAt(s, r, i);
  }

  /** An attempted request had its variables at hand, in the store the steps before it left, and was not disabled. */
  lemma AttemptedMeansReady(s: RunSetting, r: RunRecord, i: nat)
    requires IsRunSoFar(s, r) && i < |r.logs|
    ensures r.logs[i].storeBefore == StoreWith(s.initialStore, WrittenBefore(r.logs, i))
    ensures r.logs[i].attempts != [] ==>
      && VariablesAtHand(s.requests[i], s.edges, r.logs[i].storeBefore, s.world.staticNames(r.logs[i].at + 1))
      && !IsDisabled(s.options, s.requests[i])
  {
    assert TurnAt(s, r, i);
    if i < r.reached {
      AttemptsArePermitted(s.world, s.policy, s.options, s.edges, s.requests[i],
                            ResultsById(s.requests, r.results[..i]), r.results[i], r.logs[i]);
    }
  }

  lemma AttemptsMakeRetryRun(s: RunSetting, r: RunRecord, i: nat)
    requires IsRunSoFar(s, r) && i < |r.logs| && r.logs[i].attempts != []
    ensures RetryRun(s.world, s.policy, s.options.retry, FileReadAt(s.requests[i], s.edges, r.logs[i]) + 2,
                     r.logs[i].attempts)
  {
    assert TurnAt(s, r, i);
  }

  function ClockNow(s: RunSetting, r: RunRecord): nat {
    ClockAfter(s.start, r.logs, |r.logs|)
  }

  function StoreNow(s: RunSetting, r: RunRecord): Option<map<string, string>> {
    StoreWith(s.initialStore, WrittenBefore(r.logs, |r.logs|))
  }

  // ---- A run grows ----

  /** The run with its next request filled in, the run being over. */
  function WithRest(s: RunSetting, r: RunRecord): RunRecord
    requires |r.results| < |s.requests|
  {
    var status := RestStatus(r.status);
    r.(results := r.results + [RestResult(s.requests[|r.results|], status)],
       logs := r.logs + [RestLog(ClockNow(s, r) + 1, StoreNow(s, r))],
       status := status)
  }

  /** The run with its next request dealt with. */
  function WithStep(s: RunSetting, r: RunRecord, result: RequestRunResult, log: StepLog): RunRecord {
    RunRecord(
      r.results + [result], StatusAfter(s.policy, result.result.outcome), r.logs + [log], |r.results| + 1)
  }

  lemma {:induction false} WrittenBeforeOfPrefix(logs: seq<StepLog>, longer: seq<StepLog>, i: nat)
    requires i <= |logs| && logs <= longer
    ensures WrittenBefore(longer, i) == WrittenBefore(logs, i)
  {
    if i > 0 {
      WrittenBeforeOfPrefix(logs, longer, i - 1);
    }
  }

  lemma TurnStays(s: RunSetting, r: RunRecord, longer: RunRecord, i: nat)
    requires i < |r.results| == |r.logs| && |longer.results| == |longer.logs| <= |s.requests|
    requires r.results <= longer.results && r.logs <= longer.logs
    requires i < r.reached <==> i < longer.reached
    requires |r.results| <= |s.requests| && TurnAt(s, r, i)
    ensures TurnAt(s, longer, i)
  {
    WrittenBeforeOfPrefix(r.logs, longer.logs, i);
    assert longer.results[..i] == r.results[..i];
  }

  lemma SplitWithRest(s: RunSetting, r: RunRecord)
    requires |r.results| == |r.logs| && Split(s, r) && CancelledForCause(s, r) && |r.results| < |s.requests|
    requires r.status == Completed ==> s.world.aborted(ClockNow(s, r))
    ensures Split(s, WithRest(s, r)) && CancelledForCause(s, WithRest(s, r))
  {
  }

  lemma SplitWithStep(s: RunSetting, r: RunRecord, result: RequestRunResult, log: StepLog)
    requires |r.results| == |r.logs| && Split(s, r) && |r.results| < |s.requests| && r.status == Completed
    requires var planned := s.requests[|r.results|];
      result.requestId == planned.requestId && result.ordinal == planned.ordinal
    ensures Split(s, WithStep(s, r, result, log)) && CancelledForCause(s, WithStep(s, r, result, log))
  {
  }

  lemma TurnsStay(s: RunSetting, r: RunRecord, longer: RunRecord)
    requires IsRunSoFar(s, r) && |longer.results| == |longer.logs| <= |s.requests|
    requires r.results <= longer.results && r.logs <= longer.logs
    requires r.reached == longer.reached || r.reached == |r.results| <= longer.reached
    ensures forall i :: 0 <= i < |r.logs| ==> TurnAt(s, longer, i)
  {
    forall i | 0 <= i < |r.logs|
      ensures TurnAt(s, longer, i)
    {
      TurnStays(s, r, longer, i);
    }
  }

  lemma NewTurnIsRest(s: RunSetting, r: RunRecord)
    requires |r.results| == |r.logs| < |s.requests| && r.reached <= |r.results|
    ensures TurnAt(s, WithRest(s, r), |r.results|)
  {
    WrittenBeforeOfPrefix(r.logs, WithRest(s, r).logs, |r.logs|);
  }

  lemma NewTurnIsStep(s: RunSetting, r: RunRecord, result: RequestRunResult, log: StepLog)
    requires |r.results| == |r.logs| < |s.requests| && !s.world.aborted(ClockNow(s, r))
    requires log.at == ClockNow(s, r) + 1 && log.storeBefore == StoreNow(s, r)
    requires StepDone(s.world, s.policy, s.options, s.edges, s.requests[|r.results|],
                      ResultsById(s.requests, r.results), result, log)
    ensures TurnAt(s, WithStep(s, r, result, log), |r.results|)
  {
    WrittenBeforeOfPrefix(r.logs, r.logs + [log], |r.logs|);
    assert (r.results + [result])[..|r.results|] == r.results;
  }

  lemma RestExtendsRun(s: RunSetting, r: RunRecord)
    requires IsRunSoFar(s, r) && |r.results| < |s.requests|
    requires r.status == Completed ==> s.world.aborted(ClockNow(s, r))
    ensures IsRunSoFar(s, WithRest(s, r))
  {
    SplitWithRest(s, r);
    TurnsStay(s, r, WithRest(s, r));
    NewTurnIsRest(s, r);
  }

  lemma StepExtendsRun(s: RunSetting, r: RunRecord, result: RequestRunResult, log: StepLog)
    requires IsRunSoFar(s, r) && |r.results| < |s.requests|
    requires r.status == Completed && !s.world.aborted(ClockNow(s, r))
    requires log.at == ClockNow(s, r) + 1 && log.storeBefore == StoreNow(s, r)
    requires StepDone(s.world, s.policy, s.options, s.edges, s.requests[|r.results|],
                      ResultsById(s.requests, r.results), result, log)
    ensures IsRunSoFar(s, WithStep(s, r, result, log))
  {
    StepKeepsIdentity(s.world, s.policy, s.options, s.edges, s.requests[|r.results|],
                      ResultsById(s.requests, r.results), result, log);
    SplitWithStep(s, r, result, log);
    TurnsStay(s, r, WithStep(s, r, result, log));
    NewTurnIsStep(s, r, result, log);
  }

  lemma StepKeepsIdentity(
      w: World, policy: FailurePolicy, options: CollectionRunOptions, edges: seq<DependencyEdge>,
      planned: PlannedRequest, resultsById: map<RequestId, RequestRunResult>,
      result: RequestRunResult, log: StepLog)
    requires StepDone(w, policy, options, edges, planned, resultsById, result, log)
    ensures result.requestId == planned.requestId && result.ordinal == planned.ordinal
  {
  }

  lemma StoreAfterStep(
      initial: Option<map<string, string>>, logs: seq<StepLog>, log: StepLog)
    ensures StoreWith(StoreWith(initial, WrittenBefore(logs, |logs|)), WrittenBy(log.attempts))
         == StoreWith(initial, WrittenBefore(logs + [log], |logs| + 1))
  {
    WrittenBeforeOfPrefix(logs, logs + [log], |logs|);
    StoreWithBoth(initial, WrittenBefore(logs, |logs|), WrittenBy(log.attempts));
  }

  lemma StoreWithBoth(store: Option<map<string, string>>, first: map<string, string>, second: map<string, string>)
    ensures StoreWith(StoreWith(store, first), second) == StoreWith(store, first + second)
  {
    if store.Some? {
      assert (store.value + first) + second == store.value + (first + second);
    }
  }

  // ---- One run only ----

  /** Whether a request is reached is decided by the one before it and by the signal. */
  lemma ReachedIff(s: RunSetting, r: RunRecord, i: nat)
    requires IsRunSoFar(s, r) && i < |r.results|
    ensures i < r.reached <==>
      && i <= r.reached && (i > 0 ==> LetsRunContinue(s.policy, r.results[i - 1].result.outcome))
      && r.logs[i].at > 0 && !s.world.aborted(r.logs[i].at - 1)
  {
    assert TurnAt(s, r, i);
  }

  ghost predicate AgreeOn(a: RunRecord, b: RunRecord, i: nat) {
    && i <= |a.results| && i <= |b.results| && i <= |a.logs| && i <= |b.logs|
    && a.results[..i] == b.results[..i] && a.logs[..i] == b.logs[..i]
  }

  lemma AgreeOnOneMore(a: RunRecord, b: RunRecord, i: nat)
    requires AgreeOn(a, b, i) && i < |a.results| && i < |b.results| && i < |a.logs| && i < |b.logs|
    requires a.results[i] == b.results[i] && a.logs[i] == b.logs[i]
    ensures AgreeOn(a, b, i + 1)
  {
    assert a.results[..i + 1] == a.results[..i] + [a.results[i]];
    assert b.results[..i + 1] == b.results[..i] + [b.results[i]];
    assert a.logs[..i + 1] == a.logs[..i] + [a.logs[i]];
    assert b.logs[..i + 1] == b.logs[..i] + [b.logs[i]];
  }

  lemma SameStep(s: RunSetting, a: RunRecord, b: RunRecord, i: nat)
    requires IsRun(s, a) && IsRun(s, b) && i < a.reached && i < b.reached && AgreeOn(a, b, i)
    ensures a.results[i] == b.results[i] && a.logs[i] == b.logs[i]
  {
    assert TurnAt(s, a, i) && TurnAt(s, b, i);
    SameClockAndStore(s, a, b, i);
    StepIsDetermined(s.world, s.policy, s.options, s.edges, s.requests[i], ResultsById(s.requests, a.results[..i]),
                     a.results[i], a.logs[i], b.results[i], b.logs[i]);
  }

  /** Two runs of one setting begin alike, as far as both reach. */
  lemma {:induction false} RunsBeginAlike(s: RunSetting, a: RunRecord, b: RunRecord, i: nat)
    requires IsRun(s, a) && IsRun(s, b) && i <= a.reached && i <= b.reached
    ensures AgreeOn(a, b, i)
  {
    if i > 0 {
      RunsBeginAlike(s, a, b, i - 1);
      SameStep(s, a, b, i - 1);
      AgreeOnOneMore(a, b, i - 1);
    }
  }

  lemma SameClockAndStore(s: RunSetting, a: RunRecord, b: RunRecord, i: nat)
    requires AgreeOn(a, b, i)
    ensures ClockAfter(s.start, a.logs, i) == ClockAfter(s.start, b.logs, i)
    ensures WrittenBefore(a.logs, i) == WrittenBefore(b.logs, i)
  {
    if i > 0 {
      assert a.logs[i - 1] == a.logs[..i][i - 1] == b.logs[..i][i - 1] == b.logs[i - 1];
    }
    WrittenBeforeOfPrefix(a.logs[..i], a.logs, i);
    WrittenBeforeOfPrefix(b.logs[..i], b.logs, i);
  }

  lemma SameLast(a: RunRecord, b: RunRecord, i: nat)
    requires AgreeOn(a, b, i) && i > 0
    ensures a.results[i - 1] == b.results[i - 1] && a.logs[i - 1] == b.logs[i - 1]
  {
    assert a.results[i - 1] == a.results[..i][i - 1] && b.results[i - 1] == b.results[..i][i - 1];
    assert a.logs[i - 1] == a.logs[..i][i - 1] && b.logs[i - 1] == b.logs[..i][i - 1];
  }

  lemma ReachedAlike(s: RunSetting, a: RunRecord, b: RunRecord, i: nat)
    requires IsRun(s, a) && IsRun(s, b) && i < |s.requests|
    requires i <= a.reached && i <= b.reached && AgreeOn(a, b, i)
    ensures i < a.reached <==> i < b.reached
  {
    ReachedIff(s, a, i);
    ReachedIff(s, b, i);
    assert TurnAt(s, a, i) && TurnAt(s, b, i);
    SameClockAndStore(s, a, b, i);
    if i > 0 {
      SameLast(a, b, i);
    }
  }

  lemma RunsReachAsFar(s: RunSetting, a: RunRecord, b: RunRecord)
    requires IsRun(s, a) && IsRun(s, b)
    ensures a.reached >= b.reached
  {
    if a.reached < b.reached {
      RunsBeginAlike(s, a, b, a.reached);
      ReachedAlike(s, a, b, a.reached);
    }
  }

  lemma SameStatus(s: RunSetting, a: RunRecord, b: RunRecord)
    requires IsRun(s, a) && IsRun(s, b) && a.reached == b.reached && AgreeOn(a, b, a.reached)
    ensures a.status == b.status
  {
    if a.reached > 0 {
      SameLast(a, b, a.reached);
    }
  }

  lemma SameRest(s: RunSetting, a: RunRecord, b: RunRecord, i: nat)
    requires IsRun(s, a) && IsRun(s, b) && a.reached == b.reached <= i < |s.requests| && AgreeOn(a, b, i)
    requires a.status == b.status
    ensures a.results[i] == b.results[i] && a.logs[i] == b.logs[i]
  {
    assert TurnAt(s, a, i) && TurnAt(s, b, i);
    SameClockAndStore(s, a, b, i);
  }

  /** The rest of a run follows from what was reached. */
  lemma {:induction false} RunsEndAlike(s: RunSetting, a: RunRecord, b: RunRecord, i: nat)
    requires IsRun(s, a) && IsRun(s, b) && a.reached == b.reached <= i <= |s.requests|
    ensures a.status == b.status && AgreeOn(a, b, i)
  {
    if i == a.reached {
      RunsBeginAlike(s, a, b, i);
      SameStatus(s, a, b);
    } else {
      RunsEndAlike(s, a, b, i - 1);
      SameRest(s, a, b, i - 1);
      AgreeOnOneMore(a, b, i - 1);
    }
  }

  /** What a run is leaves no choice: the setting decides every result, attempt, store and the status. */
  lemma {:induction false} RunIsDetermined(s: RunSetting, a: RunRecord, b: RunRecord)
    requires IsRun(s, a) && IsRun(s, b)
    ensures a == b
  {
    RunsReachAsFar(s, a, b);
    RunsReachAsFar(s, b, a);
    RunsEndAlike(s, a, b, |s.requests|);
    assert a.results == a.results[..|s.requests|] && b.results == b.results[..|s.requests|];
    assert a.logs == a.logs[..|s.requests|] && b.logs == b.logs[..|s.requests|];
  }

  // ---- Progress ----

  datatype Phase = Started | RequestStarted | RequestFinished | RunCompleted

  datatype ProgressAttempt = Executing(current: nat, max: nat) | Waiting(current: nat, max: nat)

  datatype ProgressEvent = ProgressEvent(
    phase: Phase, current: Option<RequestId>, completed: int, remaining: int, total: int,
    attempt: Option<ProgressAttempt>)

  /** An event about a request with `completed` results before it. */
  function EventAt(
      phase: Phase, planned: PlannedRequest, completed: nat, total: nat, attempt: Option<ProgressAttempt>)
    : ProgressEvent
  {
    ProgressEvent(phase, Some(planned.requestId), completed, total - completed, total, attempt)
  }

  /** Each attempt is announced when more than one is allowed, and each wait before the next. */
  function OneAttemptEvents(
      planned: PlannedRequest, completed: nat, total: nat, max: nat, t: AttemptTrace): seq<ProgressEvent>
  {
    (if max > 1 then [EventAt(RequestStarted, planned, completed, total, Some(Executing(t.number, max)))] else [])
    + (if t.retried then [EventAt(RequestStarted, planned, completed, total, Some(Waiting(t.number + 1, max)))] else [])
  }

  function AttemptEvents(
      planned: PlannedRequest, completed: nat, total: nat, max: nat, trace: seq<AttemptTrace>): seq<ProgressEvent>
  {
    if trace == [] then []
    else
      AttemptEvents(planned, completed, total, max, trace[..|trace| - 1])
        + OneAttemptEvents(planned, completed, total, max, trace[|trace| - 1])
  }

  /** After one more attempt, the events so far and its own are those of all. */
  lemma AttemptEventsGrow(
      planned: PlannedRequest, completed: nat, total: nat, max: nat, earlier: seq<AttemptTrace>,
      trace: seq<AttemptTrace>, before: seq<ProgressEvent>)
    requires |trace| == |earlier| + 1 && trace[..|earlier|] == earlier
    ensures (before + AttemptEvents(planned, completed, total, max, earlier))
            + OneAttemptEvents(planned, completed, total, max, trace[|earlier|])
      == before + AttemptEvents(planned, completed, total, max, trace)
  {
  }

  function TurnEvents(
      planned: PlannedRequest, i: nat, total: nat, max: nat, log: StepLog): seq<ProgressEvent>
  {
    if log.ending == NotReached then []
    else
      [EventAt(RequestStarted, planned, i, total, None)]
        + AttemptEvents(planned, i, total, max, log.attempts)
        + [EventAt(RequestFinished, planned, i + 1, total, None)]
  }

  /** The events of the first requests. */
  function TurnsEvents(requests: seq<PlannedRequest>, max: nat, logs: seq<StepLog>): seq<ProgressEvent>
    requires |logs| <= |requests|
  {
    if logs == [] then []
    else
      var last := |logs| - 1;
      TurnsEvents(requests, max, logs[..last]) + TurnEvents(requests[last], last, |requests|, max, logs[last])
  }

  function RunEvents(requests: seq<PlannedRequest>, max: nat, logs: seq<StepLog>): seq<ProgressEvent>
    requires |logs| == |requests|
  {
    [ProgressEvent(Started, None, 0, |requests|, |requests|, None)]
      + TurnsEvents(requests, max, logs)
      + [ProgressEvent(RunCompleted, None, |requests|, 0, |requests|, None)]
  }

  lemma TurnEventsInOrder(
      planned: PlannedRequest, i: nat, total: nat, max: nat, log: StepLog, before: seq<ProgressEvent>)
    requires log.ending != NotReached
    ensures ((before + [EventAt(RequestStarted, planned, i, total, None)])
            + AttemptEvents(planned, i, total, max, log.attempts))
            + [EventAt(RequestFinished, planned, i + 1, total, None)]
      == before + TurnEvents(planned, i, total, max, log)
  {
  }

  lemma TurnsEventsGrow(
      requests: seq<PlannedRequest>, max: nat, logs: seq<StepLog>, log: StepLog, before: seq<ProgressEvent>)
    requires |logs| < |requests|
    ensures (before + TurnsEvents(requests, max, logs)) + TurnEvents(requests[|logs|], |logs|, |requests|, max, log)
      == before + TurnsEvents(requests, max, logs + [log])
  {
    assert (logs + [log])[..|logs|] == logs;
  }
}
