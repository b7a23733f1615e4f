/**
 The sequential collection runner: preflight, retry loop, failure policy, abort. Each method does what its
 specification says of the world, clock for clock, and the whole run is the one run of its setting.
 */
module CollectionRunner {
  import opened Sequences
  import opened Wrappers
  import opened DependencyGraph
  import opened RunPlans
  import opened RunOptions
  import opened RetryEligibility
  import opened Attempts
  import opened RunSteps

  class CollectionRunnerService {
    const world: World
    var clock: nat
    var store: Option<map<string, string>>
    var events: seq<ProgressEvent>

    ghost predicate Valid() {
      ValidWorld(world)
    }

    constructor (world: World, runVariableStore: Option<map<string, string>>)
      requires ValidWorld(world)
      ensures Valid() && this.world == world
      ensures clock == 0 && store == runVariableStore && events == []
    {
      this.world := world;
      clock, store, events := 0, runVariableStore, [];
    }

    /** Reads the abort signal. */
    method Aborted() returns (aborted: bool)
      modifies this`clock
      ensures clock == old(clock) + 1 && aborted == world.aborted(old(clock))
    {
      aborted := world.aborted(clock);
      clock := clock + 1;
    }

    method Emit(event: ProgressEvent)
      modifies this`events
      ensures events == old(events) + [event]
    {
      events := events + [event];
    }

    /** The first incoming implicit edge whose variable is neither stored nor static decides the reason. */
    method FindPreflightSkipReason(
        planned: PlannedRequest, edges: seq<DependencyEdge>, resultsById: map<RequestId, RequestRunResult>)
      returns (reason: Option<SkipReason>)
      modifies this`clock
      ensures clock == old(clock) + PreflightTicks(planned, edges, store)
      ensures reason.None? <==> VariablesAtHand(planned, edges, store, world.staticNames(old(clock)))
      ensures reason.Some? ==>
        && store.Some?
        && BlamesFirst(planned, edges, resultsById, store.value, world.staticNames(old(clock)), reason.value)
    {
      if store.None? {
        return None;
      }
      var incoming := IncomingEdges(edges, planned.requestId);
      if |incoming| == 0 {
        return None;
      }
      var staticNames := world.staticNames(clock);
      clock := clock + 1;
      for i := 0 to |incoming|
        invariant store == old(store) && clock == old(clock) + 1
        invariant forall j :: 0 <= j < i ==> Supplied(incoming[j], store.value, staticNames)
      {
        var edge := incoming[i];
        assert edge in incoming;
        var variable := edge.variable.value;
        if variable in store.value {
          continue;
        }
        if variable in staticNames {
          continue;
        }
        reason := Some(MissingRunVariable(variable, edge.from, StateIn(resultsById, edge.from)));
        assert BlamesAt(planned, edges, resultsById, store.value, staticNames, reason.value, i);
        return;
      }
      reason := None;
    }

    /** One executor call; a committed extraction lands in the run store. */
    method RunAttempt(
        policy: FailurePolicy, retry: RetryOptions, attemptNumber: nat, ghost start: nat,
        ghost earlier: seq<AttemptTrace>)
      returns (mapped: RequestResult, ghost t: AttemptTrace)
      requires Valid() && Ongoing(world, policy, retry, start, earlier)
      requires attemptNumber == |earlier| + 1 <= MaxAttempts(retry)
      requires clock == start + 3 * |earlier| + 1 && !world.aborted(clock - 1)
      modifies this`clock, this`store
      ensures clock == old(clock) + 1 && mapped == t.mapped && store == StoreWith(old(store), t.written)
      ensures t.retried <==> attemptNumber < MaxAttempts(retry) && IsRetryEligible(mapped)
      ensures t.retried ==> store == old(store)
      ensures t.retried ==> t.wait == ComputeRetryDelayMs(attemptNumber, retry.delayMs, retry.backoff)
      ensures t.number == attemptNumber
      ensures if t.retried && !world.delayRejects(clock, t.wait) then
          Ongoing(world, policy, retry, start, earlier + [t])
        else
          && RetryRun(world, policy, retry, start, earlier + [t])
          && RetryEnd(world, start, earlier + [t]) == if t.retried then clock + 1 else clock
    {
      t := AttemptOf(world, policy, retry, clock, attemptNumber);
      OneMoreAttempt(world, policy, retry, start, earlier, t);
      var remaining := MaxAttempts(retry) - attemptNumber;
      var behaviour := world.behaviour(clock);
      clock := clock + 1;
      mapped := ResultOf(behaviour, remaining, policy);
      if store.Some? {
        store := Some(store.value + Writes(behaviour, remaining));
      }
    }

    /** The rest of a pass of the retry loop: the attempt, and the wait when another is to follow. */
    method AttemptOnce(
        planned: PlannedRequest, policy: FailurePolicy, retry: RetryOptions, completed: nat, count: nat,
        attemptNumber: nat, attempts0: seq<AttemptRecord>, ghost start: nat, ghost earlier: seq<AttemptTrace>)
      returns (done: Option<RequestRunResult>, attempts: seq<AttemptRecord>, ghost trace: seq<AttemptTrace>)
      requires Valid() && Ongoing(world, policy, retry, start, earlier) && attempts0 == Records(earlier)
      requires attemptNumber == |earlier| + 1 <= MaxAttempts(retry)
      requires clock == start + 3 * |earlier| + 1 && !world.aborted(clock - 1)
      modifies this
      ensures attempts == Records(trace) && |trace| == |earlier| + 1 && trace[..|earlier|] == earlier
      ensures done.Some? ==>
        && RetryRun(world, policy, retry, start, trace) && done.value == RetryResult(planned, trace)
        && clock == RetryEnd(world, start, trace) && store == StoreWith(old(store), WrittenBy(trace))
      ensures done.None? ==>
        && Ongoing(world, policy, retry, start, trace) && attemptNumber < MaxAttempts(retry)
        && clock == start + 3 * |trace| && store == old(store)
      ensures events ==
        old(events) + OneAttemptEvents(planned, completed, count, MaxAttempts(retry), trace[|earlier|])
    {
      var maxAttempts := MaxAttempts(retry);
      if maxAttempts > 1 {
        Emit(EventAt(RequestStarted, planned, completed, count, Some(Executing(attemptNumber, maxAttempts))));
      }
      var mapped;
      ghost var t;
      mapped, t := RunAttempt(policy, retry, attemptNumber, start, earlier);
      var willRetry := maxAttempts - attemptNumber > 0 && IsRetryEligible(mapped);
      attempts := attempts0 + [ToAttemptRecord(attemptNumber, mapped, willRetry)];
      RecordsOfOneMore(earlier, t);
      trace := earlier + [t];
      if mapped.outcome == Cancelled || !willRetry {
        done := Some(RequestRunResult(planned.requestId, planned.ordinal, mapped, None, attempts));
        return;
      }
      var waitMs := ComputeRetryDelayMs(attemptNumber, retry.delayMs, retry.backoff);
      Emit(EventAt(RequestStarted, planned, completed, count, Some(Waiting(attemptNumber + 1, maxAttempts))));
      var rejected := world.delayRejects(clock, waitMs);
      clock := clock + 1;
      done := if rejected then Some(CancelledResult(planned).(attempts := attempts)) else None;
    }

    /** The retry loop. */
    method RunWithRetries(
        planned: PlannedRequest, policy: FailurePolicy, retry: RetryOptions, completed: nat, count: nat)
      returns (result: RequestRunResult, ghost trace: seq<AttemptTrace>)
      requires Valid()
      modifies this
      ensures RetryRun(world, policy, retry, old(clock), trace)
      ensures result == RetryResult(planned, trace)
      ensures clock == RetryEnd(world, old(clock), trace)
      ensures store == StoreWith(old(store), WrittenBy(trace))
      ensures events == old(events) + AttemptEvents(planned, completed, count, MaxAttempts(retry), trace)
    {
      var maxAttempts := MaxAttempts(retry);
      var attempts: seq<AttemptRecord> := [];
      trace := [];
      var attemptNumber := 1;
      // The source loops while attemptNumber <= maxAttempts; that always holds here, so the return behind the loop
      // is dead.
      while true
        invariant attemptNumber == |trace| + 1 <= maxAttempts
        invariant clock == old(clock) + 3 * |trace| && store == old(store)
        invariant Ongoing(world, policy, retry, old(clock), trace) && attempts == Records(trace)
        invariant events == old(events) + AttemptEvents(planned, completed, count, maxAttempts, trace)
        decreases maxAttempts - attemptNumber
      {
        var aborted := Aborted();
        if aborted {
          OngoingIsCutOff(world, policy, retry, old(clock), trace);
          return CancelledResult(planned).(attempts := attempts), trace;
        }
        var done;
        ghost var earlier := trace;
        done, attempts, trace :=
          AttemptOnce(planned, policy, retry, completed, count, attemptNumber, attempts, old(clock), trace);
        AttemptEventsGrow(planned, completed, count, maxAttempts, earlier, trace, old(events));
        if done.Some? {
          return done.value, trace;
        }
        attemptNumber := attemptNumber + 1;
      }
    }

    /** What may end a step before its file is read: the signal, the preflight, the destructive check. */
    method CheckBeforeFile(
        planned: PlannedRequest, options: CollectionRunOptions, edges: seq<DependencyEdge>,
        resultsById: map<RequestId, RequestRunResult>)
      returns (done: Option<RequestRunResult>, ghost log: StepLog)
      modifies this`clock
      ensures log.at == old(clock) && log.until == clock && log.storeBefore == store && log.attempts == []
      ensures done.Some? <==> EndsEarly(world, options, edges, planned, log)
      ensures done.Some? ==> DoneEarly(world, edges, planned, resultsById, done.value, log)
      ensures done.None? ==> clock == FileReadAt(planned, edges, log)
    {
      log := StepLog(clock, clock + 1, CutOff, [], store);
      var aborted := Aborted();
      if aborted {
        return Some(CancelledResult(planned)), log;
      }
      var skipReason := FindPreflightSkipReason(planned, edges, resultsById);
      log := log.(until := clock);
      if skipReason.Some? {
        return Some(SkippedResult(planned, skipReason.value)), log.(ending := VariableMissing(skipReason.value));
      }
      if options.skipDestructiveRequests && IsDestructiveHttpMethod(planned.httpMethod) {
        return Some(SkippedResult(planned, DestructiveDisabled)), log.(ending := DestructiveSkipped);
      }
      done := None;
    }

    /** One planned request: the checks, then the file and the retry loop. */
    method ExecuteOne(
        planned: PlannedRequest, policy: FailurePolicy, options: CollectionRunOptions,
        edges: seq<DependencyEdge>, resultsById: map<RequestId, RequestRunResult>, completed: nat, count: nat)
      returns (result: RequestRunResult, ghost log: StepLog)
      requires Valid()
      modifies this
      ensures StepDone(world, policy, options, edges, planned, resultsById, result, log)
      ensures log.at == old(clock) && log.until == clock && log.storeBefore == old(store)
      ensures store == StoreWith(old(store), WrittenBy(log.attempts))
      ensures events ==
        old(events) + AttemptEvents(planned, completed, count, MaxAttempts(options.retry), log.attempts)
    {
      var done;
      done, log := CheckBeforeFile(planned, options, edges, resultsById);
      if done.Some? {
        return done.value, log;
      }
      result, log := ReadAndRun(planned, policy, options.retry, completed, count, log);
    }

    /** The rest of a step once the preflight has passed: the file, the signal again, the attempts. */
    method ReadAndRun(
        planned: PlannedRequest, policy: FailurePolicy, retry: RetryOptions, completed: nat, count: nat,
        ghost log0: StepLog)
      returns (result: RequestRunResult, ghost log: StepLog)
      requires Valid()
      modifies this
      ensures DoneFromFile(world, policy, retry, planned, old(clock), result, log)
      ensures log.at == log0.at && log.until == clock && log.storeBefore == log0.storeBefore
      ensures store == StoreWith(old(store), WrittenBy(log.attempts))
      ensures events == old(events) + AttemptEvents(planned, completed, count, MaxAttempts(retry), log.attempts)
    {
      log := log0.(ending := CutOff, attempts := []);
      var readable := world.readable(clock);
      clock := clock + 1;
      if !readable {
        return UnreadResult(planned, policy), log.(ending := Unreadable, until := clock);
      }
      var aborted := Aborted();
      if aborted {
        return CancelledResult(planned), log.(until := clock);
      }
      ghost var trace;
      result, trace := RunWithRetries(planned, policy, retry, completed, count);
      log := log.(ending := Attempted, attempts := trace, until := clock);
    }

    /** One turn of the run's loop: run the request, or fill its result in when the run is over. */
    method Turn(
        planned: PlannedRequest, i: nat, count: nat, edges: seq<DependencyEdge>, policy: FailurePolicy,
        options: CollectionRunOptions, resultsById: map<RequestId, RequestRunResult>,
        status0: RunStatus, stop0: bool)
      returns (result: RequestRunResult, status: RunStatus, stop: bool, ghost log: StepLog)
      requires Valid() && (!stop0 && !world.aborted(clock) ==> status0 == Completed)
      modifies this
      ensures log.at == old(clock) + 1 && log.until == clock && log.storeBefore == old(store)
      ensures store == StoreWith(old(store), WrittenBy(log.attempts))
      ensures events == old(events) + TurnEvents(planned, i, count, MaxAttempts(options.retry), log)
      ensures if stop0 || world.aborted(old(clock)) then
          && status == RestStatus(status0) && stop == stop0
          && result == RestResult(planned, status) && log == RestLog(old(clock) + 1, old(store))
        else
          && StepDone(world, policy, options, edges, planned, resultsById, result, log)
          && status == StatusAfter(policy, result.result.outcome) && stop == (status != Completed)
    {
      status, stop, log := status0, stop0, RestLog(clock + 1, store);
      var aborted := Aborted();
      if stop || aborted {
        status := if status == Stopped then Stopped else CancelledRun;
        if status == Stopped {
          result := SkippedResult(planned, AfterEarlierFailure);
        } else {
          result := CancelledResult(planned);
        }
        return;
      }
      Emit(EventAt(RequestStarted, planned, i, count, None));
      result, log := ExecuteOne(planned, policy, options, edges, resultsById, i, count);
      Emit(EventAt(RequestFinished, planned, i + 1, count, None));
      TurnEventsInOrder(planned, i, count, MaxAttempts(options.retry), log, old(events));
      if result.result.outcome == Cancelled {
        status, stop := CancelledRun, true;
      } else if ShouldStopAfter(policy, result.result.outcome) {
        status, stop := Stopped, true;
      }
    }

    /** Where the loop stands: the run so far, with the clock, the store and the latest results to go with it. */
    ghost predicate Along(
        s: RunSetting, r: RunRecord, resultsById: map<RequestId, RequestRunResult>, stop: bool)
      reads this
    {
      && s.world == world && IsRunSoFar(s, r)
      && clock == ClockNow(s, r) && store == StoreNow(s, r)
      && resultsById == ResultsById(s.requests, r.results)
      && StatusAgrees(r.status, stop, world.aborted(clock))
    }

    /** A turn of the loop, and the run it makes of the run so far. */
    method Advance(
        ghost s: RunSetting, ghost r0: RunRecord, edges: seq<DependencyEdge>, policy: FailurePolicy,
        options: CollectionRunOptions, planned: PlannedRequest, count: nat,
        i: nat, resultsById: map<RequestId, RequestRunResult>, status0: RunStatus, stop0: bool)
      returns (result: RequestRunResult, status: RunStatus, stop: bool, ghost r: RunRecord, ghost log: StepLog)
      requires Valid() && Along(s, r0, resultsById, stop0) && status0 == r0.status
      requires i == |r0.results| < |s.requests| == count && planned == s.requests[i]
      requires edges == s.edges && policy == s.policy && options == s.options
      modifies this
      ensures Along(s, r, resultsById[planned.requestId := result], stop) && status == r.status
      ensures r.results == r0.results + [result] && r.logs == r0.logs + [log]
      ensures events == old(events) + TurnEvents(planned, i, count, MaxAttempts(options.retry), log)
    {
      ghost var over := stop0 || world.aborted(clock);
      result, status, stop, log := Turn(planned, i, count, edges, policy, options, resultsById, status0, stop0);
      RunGrows(s, r0, result, log, over);
      r := if over then WithRest(s, r0) else WithStep(s, r0, result, log);
      RecordGrows(s, r0, r, result, log);
    }

    /** The run: walks the plan in order, then fills the rest in once the policy or the signal has stopped it. */
    method Execute(
        requests: seq<PlannedRequest>, edges: seq<DependencyEdge>, policy: FailurePolicy,
        input: Option<RunOptionsInput>)
      returns (results: seq<RequestRunResult>, status: RunStatus, ghost s: RunSetting, ghost r: RunRecord)
      requires Valid()
      modifies this
      ensures s == RunSetting(
        world, requests, edges, policy, NormalizeCollectionRunOptions(input), old(store), old(clock))
      ensures IsRun(s, r) && results == r.results && status == r.status
      ensures clock == ClockNow(s, r) && store == StoreNow(s, r)
      ensures events == old(events) + RunEvents(requests, MaxAttempts(s.options.retry), r.logs)
    {
      var options := NormalizeCollectionRunOptions(input);
      var resultsById: map<RequestId, RequestRunResult> := map[];
      var stop := false;
      results, status := [], Completed;
      s := RunSetting(world, requests, edges, policy, options, store, clock);
      r := NOTHING_RUN;
      NothingIsRun(s);
      Emit(ProgressEvent(Started, None, 0, |requests|, |requests|, None));
      ghost var begun := events;
      for i := 0 to |requests|
        invariant |r.results| == |r.logs| == i && results == r.results && status == r.status
        invariant Along(s, r, resultsById, stop)
        invariant events == begun + TurnsEvents(requests, MaxAttempts(options.retry), r.logs)
      {
        var result;
        ghost var log;
        ghost var logs := r.logs;
        result, status, stop, r, log :=
          Advance(s, r, edges, policy, options, requests[i], |requests|, i, resultsById, status, stop);
        TurnsEventsGrow(requests, MaxAttempts(options.retry), logs, log, begun);
        results := results + [result];
        resultsById := resultsById[requests[i].requestId := result];
      }
      Emit(ProgressEvent(RunCompleted, None, |results|, 0, |requests|, None));
    }
  }

  /** How the loop's status, stop flag and the signal hang together. */
  predicate StatusAgrees(status: RunStatus, stop: bool, aborted: bool) {
    && (stop ==> status != Completed)
    && (status == Stopped ==> stop)
    && (status == CancelledRun && !stop ==> aborted)
  }

  /** What a turn adds to the run so far is the run so far. */
  lemma RunGrows(s: RunSetting, r: RunRecord, result: RequestRunResult, log: StepLog, over: bool)
    requires IsRunSoFar(s, r) && |r.results| < |s.requests|
    requires log.at == ClockNow(s, r) + 1 && log.storeBefore == StoreNow(s, r)
    requires over && r.status == Completed ==> s.world.aborted(ClockNow(s, r))
    requires !over ==>
      && r.status == Completed && !s.world.aborted(ClockNow(s, r))
      && StepDone(s.world, s.policy, s.options, s.edges, s.requests[|r.results|], ResultsById(s.requests, r.results),
                  result, log)
    ensures IsRunSoFar(s, if over then WithRest(s, r) else WithStep(s, r, result, log))
  {
    if over {
      RestExtendsRun(s, r);
    } else {
      StepExtendsRun(s, r, result, log);
    }
  }

  /** Clock, store and latest results after one more turn. */
  lemma RecordGrows(s: RunSetting, r: RunRecord, longer: RunRecord, result: RequestRunResult, log: StepLog)
    requires |r.results| == |r.logs| < |s.requests|
    requires longer.results == r.results + [result] && longer.logs == r.logs + [log]
    ensures ClockNow(s, longer) == log.until
    ensures StoreNow(s, longer) == StoreWith(StoreNow(s, r), WrittenBy(log.attempts))
    ensures ResultsById(s.requests, longer.results)
         == ResultsById(s.requests, r.results)[s.requests[|r.results|].requestId := result]
  {
    StoreAfterStep(s.initialStore, r.logs, log);
    assert (r.results + [result])[..|r.results|] == r.results;
  }
}
