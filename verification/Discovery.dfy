/**
 Single-flight refresh with a trailing re-run, as the atomic steps between which other code may run. A drain is
 one execution of the drain loop; several can exist over time, and that no two overlap is proved, not assumed.
 Scans are numbered in the order they begin. Scans do not fail here.
 */
module Discovery {
  import opened Wrappers

  datatype Phase = Scanning | Stored | Exited | Settled

  /** A drain loop and the scan it is at: being awaited, stored, returned by the loop, handed to the driver. */
  datatype Drain = Drain(phase: Phase, scan: nat)

  datatype CallStatus = Driving(drain: nat) | Waiting(drain: nat) | Resolved(scan: nat)

  /** `prompt` says that no drain was between leaving its loop and its `finally` when the call was made. */
  datatype Call = Call(at: nat, prompt: bool, status: CallStatus)

  datatype State = State(
    refreshQueued: bool,
    refreshInFlight: Option<nat>,
    drains: seq<Drain>,
    scanStarts: seq<nat>,
    stored: seq<nat>,
    calls: seq<Call>,
    now: nat)

  datatype Event =
    | Refresh                 // some caller invokes refresh()
    | ScanDone(drain: nat)    // the awaited scan completes and its snapshot is stored
    | LoopTest(drain: nat)    // the drain loop tests refreshQueued
    | Finally(drain: nat)     // the driver's finally clears refreshInFlight
    | Resume(call: nat)       // a waiter's continuation runs

  const INITIAL: State := State(false, None, [], [], [], [], 0)

  predicate Enabled(s: State, e: Event) {
    match e
    case Refresh => true
    case ScanDone(d) => d < |s.drains| && s.drains[d].phase == Scanning
    case LoopTest(d) => d < |s.drains| && s.drains[d].phase == Stored
    case Finally(d) => d < |s.drains| && s.drains[d].phase == Exited
    case Resume(c) =>
      && c < |s.calls| && s.calls[c].status.Waiting?
      && s.calls[c].status.drain < |s.drains| && s.drains[s.calls[c].status.drain].phase == Settled
  }

  /** The synchronous part of refresh(): join the drain in flight or become the driver of a new one. */
  function Enter(s: State, prompt: bool, at: nat): (State, Call) {
    match s.refreshInFlight
    case Some(d) => (s.(refreshQueued := true), Call(at, prompt, Waiting(d)))
    case None =>
      var d := |s.drains|;
      (s.(refreshQueued := false, refreshInFlight := Some(d),
          drains := s.drains + [Drain(Scanning, |s.scanStarts|)], scanStarts := s.scanStarts + [s.now]),
       Call(at, prompt, Driving(d)))
  }

  predicate InExitGap(s: State) {
    s.refreshInFlight.Some? && s.refreshInFlight.value < |s.drains| && s.drains[s.refreshInFlight.value].phase == Exited
  }

  function Resolve(calls: seq<Call>, drain: nat, scan: nat): seq<Call> {
    seq(|calls|, i requires 0 <= i < |calls| =>
      if calls[i].status == Driving(drain) then calls[i].(status := Resolved(scan)) else calls[i])
  }

  function Step(s0: State, e: Event): State
    requires Enabled(s0, e)
  {
    var s := s0.(now := s0.now + 1);
    match e
    case Refresh =>
      var (next, call) := Enter(s, !InExitGap(s), s.now);
      next.(calls := s.calls + [call])
    case ScanDone(d) =>
      s.(drains := s.drains[d := s.drains[d].(phase := Stored)], stored := s.stored + [s.drains[d].scan])
    case LoopTest(d) =>
      if s.refreshQueued then
        s.(refreshQueued := false, scanStarts := s.scanStarts + [s.now],
           drains := s.drains[d := Drain(Scanning, |s.scanStarts|)])
      else s.(drains := s.drains[d := s.drains[d].(phase := Exited)])
    case Finally(d) =>
      s.(refreshInFlight := None, drains := s.drains[d := s.drains[d].(phase := Settled)],
         calls := Resolve(s.calls, d, s.drains[d].scan))
    case Resume(c) =>
      var call := s.calls[c];
      if s.refreshQueued then
        var (next, again) := Enter(s, call.prompt, call.at);
        next.(calls := s.calls[c := again])
      else s.(calls := s.calls[c := call.(status := Resolved(s.drains[call.status.drain].scan))])
  }

  /** Each event of the run is possible when its turn comes. */
  predicate Runs(s: State, events: seq<Event>)
    decreases |events|
  {
    events == [] || (Enabled(s, events[0]) && Runs(Step(s, events[0]), events[1..]))
  }

  function RunFrom(s: State, events: seq<Event>): State
    requires Runs(s, events)
    decreases |events|
  {
    if events == [] then s else RunFrom(Step(s, events[0]), events[1..])
  }

  // ---- The invariant ----

  /** Only the drain in flight is unsettled. */
  ghost predicate SingleFlight(s: State) {
    && (s.refreshInFlight.Some? ==>
          s.refreshInFlight.value < |s.drains| && s.drains[s.refreshInFlight.value].phase != Settled)
    && forall d :: 0 <= d < |s.drains| && s.drains[d].phase != Settled ==> s.refreshInFlight == Some(d)
  }

  predicate IsScanning(s: State) {
    && s.refreshInFlight.Some? && s.refreshInFlight.value < |s.drains|
    && s.drains[s.refreshInFlight.value].phase == Scanning
  }

  /**
   Scans begin in clock order; each finished one was stored once, in that order; the drain in flight is at the
   newest.
   */
  ghost predicate ScansInOrder(s: State) {
    && (forall i, j :: 0 <= i <= j < |s.scanStarts| ==> s.scanStarts[i] <= s.scanStarts[j])
    && (forall i :: 0 <= i < |s.scanStarts| ==> s.scanStarts[i] <= s.now)
    && |s.scanStarts| == |s.stored| + (if IsScanning(s) then 1 else 0)
    && (forall i :: 0 <= i < |s.stored| ==> s.stored[i] == i)
    && (forall d :: 0 <= d < |s.drains| ==> s.drains[d].scan < |s.scanStarts|)
    && (forall d :: 0 <= d < |s.drains| && s.refreshInFlight == Some(d) ==> s.drains[d].scan == |s.scanStarts| - 1)
  }

  predicate LoopRuns(d: Drain) {
    d.phase == Scanning || d.phase == Stored
  }

  /** A queued refresh will be seen: by the running loop, or by a waiter still to resume. */
  ghost predicate QueueIsSeen(s: State) {
    s.refreshQueued ==>
      || (exists d :: 0 <= d < |s.drains| && LoopRuns(s.drains[d]))
      || exists c :: 0 <= c < |s.calls| && PendingWaiter(s, s.calls[c])
  }

  ghost predicate PendingWaiter(s: State, c: Call) {
    c.status.Waiting? && c.status.drain < |s.drains| && !LoopRuns(s.drains[c.status.drain])
  }

  /** With nothing queued the newest scan began no earlier than any call. */
  ghost predicate NewestScanCoversCalls(s: State) {
    !s.refreshQueued ==>
      forall c :: 0 <= c < |s.calls| ==> |s.scanStarts| > 0 && s.calls[c].at <= s.scanStarts[|s.scanStarts| - 1]
  }

  /** A prompt call is bound for a scan that begins no earlier than the call. */
  ghost predicate CallServed(s: State, c: Call) {
    && c.at <= s.now
    && match c.status
       case Resolved(scan) => scan < |s.scanStarts| && (c.prompt ==> c.at <= s.scanStarts[scan])
       case Driving(d) => d < |s.drains| && s.refreshInFlight == Some(d) && (c.prompt ==> Covers(s, d, c.at))
       case Waiting(d) =>
         d < |s.drains| && (c.prompt ==> Covers(s, d, c.at) || (LoopRuns(s.drains[d]) && s.refreshQueued))
  }

  ghost predicate Covers(s: State, d: nat, at: nat) {
    d < |s.drains| && s.drains[d].scan < |s.scanStarts| && at <= s.scanStarts[s.drains[d].scan]
  }

  ghost predicate CallsServed(s: State) {
    forall c :: 0 <= c < |s.calls| ==> CallServed(s, s.calls[c])
  }

  ghost predicate Inv(s: State) {
    SingleFlight(s) && ScansInOrder(s) && QueueIsSeen(s) && NewestScanCoversCalls(s) && CallsServed(s)
  }

  lemma {:induction false} StepKeepsFlight(s: State, e: Event)
    requires SingleFlight(s) && ScansInOrder(s) && Enabled(s, e)
    ensures SingleFlight(Step(s, e))
  {
  }

  lemma {:induction false} StepKeepsScanOrder(s: State, e: Event)
    requires SingleFlight(s) && ScansInOrder(s) && Enabled(s, e)
    ensures ScansInOrder(Step(s, e))
  {
    StepKeepsFlight(s, e);
    match e
    case ScanDone(d) => assert IsScanning(s) && !IsScanning(Step(s, e));
    case LoopTest(d) => assert !IsScanning(s) && IsScanning(Step(s, e)) == s.refreshQueued;
    case _ =>
  }

  lemma {:induction false} StepKeepsQueueSeen(s: State, e: Event)
    requires Inv(s) && Enabled(s, e)
    ensures QueueIsSeen(Step(s, e))
  {
    var t := Step(s, e);
    match e
    case Refresh =>
      assert t.refreshQueued ==> t.calls[|s.calls|].status == Waiting(s.refreshInFlight.value);
    case Resume(c) =>
      assert t.refreshQueued ==> t.calls[c].status == Waiting(s.refreshInFlight.value);
    case ScanDone(d) =>
      assert LoopRuns(t.drains[d]);
    case LoopTest(d) =>
    case Finally(d) =>
      if s.refreshQueued {
        if i :| 0 <= i < |s.calls| && PendingWaiter(s, s.calls[i]) {
          assert PendingWaiter(t, t.calls[i]);
        }
      }
  }

  lemma {:induction false} StepKeepsCoverage(s: State, e: Event)
    requires Inv(s) && Enabled(s, e)
    ensures NewestScanCoversCalls(Step(s, e))
  {
  }

  /** No event takes away what a call has been promised. */
  lemma {:induction false} CallStaysServed(s: State, e: Event, c: nat)
    requires SingleFlight(s) && ScansInOrder(s) && Enabled(s, e)
    requires c < |s.calls| && CallServed(s, s.calls[c])
    ensures c < |Step(s, e).calls| && CallServed(Step(s, e), Step(s, e).calls[c])
  {
    var t := Step(s, e);
    match e
    case Refresh => ServedAfterEnter(s, s.calls[c], !InExitGap(s), s.now + 1, t.calls);
    case Resume(w) =>
      if c == w {
        ResumedIsServed(s, w);
      } else if s.refreshQueued {
        ServedAfterEnter(s, s.calls[c], s.calls[w].prompt, s.calls[w].at, t.calls);
      }
    case LoopTest(d) => ServedAfterLoopTest(s, d, s.calls[c]);
    case _ =>
  }

  /** The queued re-run begins now, so it serves whoever waits for this drain. */
  lemma ServedAfterLoopTest(s: State, d: nat, call: Call)
    requires SingleFlight(s) && ScansInOrder(s) && Enabled(s, LoopTest(d)) && CallServed(s, call)
    ensures CallServed(Step(s, LoopTest(d)), call)
  {
  }

  lemma ServedAfterEnter(s: State, call: Call, prompt: bool, at: nat, calls: seq<Call>)
    requires SingleFlight(s) && ScansInOrder(s) && CallServed(s, call)
    ensures CallServed(Enter(s.(now := s.now + 1), prompt, at).0.(calls := calls), call)
  {
  }

  lemma ResumedIsServed(s: State, w: nat)
    requires SingleFlight(s) && ScansInOrder(s) && Enabled(s, Resume(w)) && CallServed(s, s.calls[w])
    ensures CallServed(Step(s, Resume(w)), Step(s, Resume(w)).calls[w])
  {
    var d := s.calls[w].status.drain;
    assert s.calls[w].prompt ==> Covers(s, d, s.calls[w].at);
    assert s.scanStarts[s.drains[d].scan] <= s.scanStarts[|s.scanStarts| - 1] <= s.now;
  }

  lemma {:induction false} StepKeepsCallsServed(s: State, e: Event)
    requires Inv(s) && Enabled(s, e)
    ensures CallsServed(Step(s, e))
  {
    var t := Step(s, e);
    forall c | 0 <= c < |t.calls|
      ensures CallServed(t, t.calls[c])
    {
      if c < |s.calls| {
        CallStaysServed(s, e, c);
      }
    }
  }

  lemma {:induction false} InvIsKept(s: State, e: Event)
    requires Inv(s) && Enabled(s, e)
    ensures Inv(Step(s, e))
  {
    StepKeepsFlight(s, e);
    StepKeepsScanOrder(s, e);
    StepKeepsQueueSeen(s, e);
    StepKeepsCoverage(s, e);
    StepKeepsCallsServed(s, e);
  }

  lemma {:induction false} RunKeepsInv(s: State, events: seq<Event>)
    requires Inv(s) && Runs(s, events)
    ensures Inv(RunFrom(s, events))
    decreases |events|
  {
    if events != [] {
      InvIsKept(s, events[0]);
      RunKeepsInv(Step(s, events[0]), events[1..]);
    }
  }

  // ---- What callers rely on ----

  ghost predicate Quiescent(s: State) {
    && (forall d :: 0 <= d < |s.drains| ==> s.drains[d].phase == Settled)
    && (forall c :: 0 <= c < |s.calls| ==> s.calls[c].status.Resolved?)
  }

  ghost predicate ScanRuns(s: State, d: nat) {
    d < |s.drains| && s.drains[d].phase == Scanning
  }

  /** Whatever the interleaving, at most one scan runs and snapshots are stored in the order their scans began. */
  lemma {:induction false} ScansNeverOverlap(events: seq<Event>)
    requires Runs(INITIAL, events)
    ensures var s := RunFrom(INITIAL, events);
      && (forall d, d' :: ScanRuns(s, d) && ScanRuns(s, d') ==> d == d')
      && (forall i, j :: 0 <= i < j < |s.stored| ==> s.stored[i] < s.stored[j])
  {
    RunKeepsInv(INITIAL, events);
  }

  /** Once everything has come to rest, the stored snapshot's scan began no earlier than any call. */
  lemma {:induction false} RestingSnapshotIsFresh(events: seq<Event>, c: nat)
    requires Runs(INITIAL, events)
    requires Quiescent(RunFrom(INITIAL, events)) && c < |RunFrom(INITIAL, events).calls|
    ensures var s := RunFrom(INITIAL, events);
      && s.stored != []
      && var newest := s.stored[|s.stored| - 1];
      newest < |s.scanStarts| && s.calls[c].at <= s.scanStarts[newest]
  {
    RunKeepsInv(INITIAL, events);
    var s := RunFrom(INITIAL, events);
    assert !IsScanning(s) && !s.refreshQueued;
    assert s.calls[c].at <= s.scanStarts[|s.scanStarts| - 1];
  }

  /** No call is stranded: until everything is at rest, some event other than a new refresh is possible. */
  lemma {:induction false} NothingIsStranded(events: seq<Event>)
    requires Runs(INITIAL, events)
    ensures Quiescent(RunFrom(INITIAL, events)) <==> !exists e :: e != Refresh && Enabled(RunFrom(INITIAL, events), e)
  {
    RunKeepsInv(INITIAL, events);
    var s := RunFrom(INITIAL, events);
    if d :| 0 <= d < |s.drains| && s.drains[d].phase != Settled {
      assert Enabled(s, ScanDone(d)) || Enabled(s, LoopTest(d)) || Enabled(s, Finally(d));
    } else if c :| 0 <= c < |s.calls| && !s.calls[c].status.Resolved? {
      assert CallServed(s, s.calls[c]);
      assert Enabled(s, Resume(c));
    }
  }

  // ---- Without new calls everything comes to rest ----

  predicate CanResume(drains: seq<Drain>, c: Call) {
    c.status.Waiting? && c.status.drain < |drains| && drains[c.status.drain].phase == Settled
  }

  /** How many waiters may resume. */
  function Ready(calls: seq<Call>, drains: seq<Drain>): (n: nat)
    ensures n <= |calls|
  {
    if calls == [] then 0
    else Ready(calls[..|calls| - 1], drains) + if CanResume(drains, calls[|calls| - 1]) then 1 else 0
  }

  /** How far the drain in flight is from being settled. */
  function PhasesLeft(s: State): nat {
    if s.refreshInFlight.None? || s.refreshInFlight.value >= |s.drains| then 0
    else match s.drains[s.refreshInFlight.value].phase
      case Scanning => 3
      case Stored => 2
      case Exited => 1
      case Settled => 0
  }

  /** A bound on the events left when no call is made any more. */
  function StepsLeft(s: State): nat {
    ((if s.refreshQueued then 4 else 0) + PhasesLeft(s)) * (|s.calls| + 1) + Ready(s.calls, s.drains)
  }

  lemma {:induction false} SameReady(calls: seq<Call>, before: seq<Drain>, after: seq<Drain>)
    requires forall c :: 0 <= c < |calls| ==> (CanResume(before, calls[c]) <==> CanResume(after, calls[c]))
    ensures Ready(calls, before) == Ready(calls, after)
  {
    if calls != [] {
      SameReady(calls[..|calls| - 1], before, after);
    }
  }

  lemma {:induction false} OneReadyLess(calls: seq<Call>, drains: seq<Drain>, c: nat, next: Call)
    requires c < |calls| && CanResume(drains, calls[c]) && !CanResume(drains, next)
    ensures Ready(calls[c := next], drains) == Ready(calls, drains) - 1
  {
    var last := |calls| - 1;
    if c < last {
      assert calls[c := next][..last] == calls[..last][c := next];
      OneReadyLess(calls[..last], drains, c, next);
    } else {
      assert calls[c := next][..last] == calls[..last];
    }
  }

  lemma LessTimes(a: nat, b: nat, n: nat, r: nat, q: nat)
    requires a < b && r < n
    ensures a * n + r < b * n + q
  {
    Distributes(a, b - a, n);
    Distributes(1, b - a - 1, n);
    ProductIsNat(b - a - 1, n);
  }

  lemma Distributes(a: nat, d: nat, n: nat)
    ensures (a + d) * n == a * n + d * n
  {
  }

  lemma ProductIsNat(d: nat, n: nat)
    ensures d * n >= 0
  {
  }

  lemma DrainStepIsTaken(s: State, e: Event)
    requires Inv(s) && Enabled(s, e) && (e.ScanDone? || e.LoopTest? || e.Finally?)
    ensures StepsLeft(Step(s, e)) < StepsLeft(s)
  {
    var t := Step(s, e);
    if e.Finally? {
      LessTimes(if t.refreshQueued then 4 else 0, (if s.refreshQueued then 4 else 0) + 1, |s.calls| + 1,
                Ready(t.calls, t.drains), Ready(s.calls, s.drains));
    } else {
      SameReady(s.calls, s.drains, t.drains);
      LessTimes((if t.refreshQueued then 4 else 0) + PhasesLeft(t), (if s.refreshQueued then 4 else 0) + PhasesLeft(s),
                |s.calls| + 1, Ready(t.calls, t.drains), Ready(s.calls, s.drains));
    }
  }

  lemma ResumeIsTaken(s: State, c: nat)
    requires Inv(s) && Enabled(s, Resume(c))
    ensures StepsLeft(Step(s, Resume(c))) < StepsLeft(s)
  {
    var t := Step(s, Resume(c));
    forall i | 0 <= i < |s.calls|
      ensures CanResume(t.drains, s.calls[i]) <==> CanResume(s.drains, s.calls[i])
    {
      assert CallServed(s, s.calls[i]);
    }
    SameReady(s.calls, s.drains, t.drains);
    OneReadyLess(s.calls, t.drains, c, t.calls[c]);
    if s.refreshQueued && s.refreshInFlight.None? {
      LessTimes(3, 4, |s.calls| + 1, Ready(t.calls, t.drains), Ready(s.calls, s.drains));
    }
  }

  /** However the events fall, only so many are possible without a new call, so the drain loop ends. */
  lemma {:induction false} EventsRunOut(s: State, events: seq<Event>)
    requires Inv(s) && Runs(s, events) && Refresh !in events
    ensures |events| <= StepsLeft(s)
    decreases |events|
  {
    if events != [] {
      var e := events[0];
      assert e in events;
      if e.Resume? {
        ResumeIsTaken(s, e.call);
      } else {
        DrainStepIsTaken(s, e);
      }
      InvIsKept(s, e);
      EventsRunOut(Step(s, e), events[1..]);
    }
  }

  /** Once as many events have passed as there can be, every call has its snapshot. */
  lemma {:induction false} EveryCallResolves(before: seq<Event>, after: seq<Event>)
    requires Runs(INITIAL, before) && Runs(RunFrom(INITIAL, before), after) && Refresh !in after
    requires |after| == StepsLeft(RunFrom(INITIAL, before))
          || !exists e :: e != Refresh && Enabled(RunFrom(RunFrom(INITIAL, before), after), e)
    ensures forall c :: 0 <= c < |RunFrom(RunFrom(INITIAL, before), after).calls| ==>
      RunFrom(RunFrom(INITIAL, before), after).calls[c].status.Resolved?
  {
    var s := RunFrom(INITIAL, before);
    var t := RunFrom(s, after);
    RunKeepsInv(INITIAL, before);
    RunKeepsInv(s, after);
    if e :| e != Refresh && Enabled(t, e) {
      RunGrows(s, after, e);
      EventsRunOut(s, after + [e]);
    }
    RunsJoin(INITIAL, before, after);
    NothingIsStranded(before + after);
  }

  lemma {:induction false} RunGrows(s: State, events: seq<Event>, e: Event)
    requires Runs(s, events) && Enabled(RunFrom(s, events), e)
    ensures Runs(s, events + [e])
    decreases |events|
  {
    if events != [] {
      RunGrows(Step(s, events[0]), events[1..], e);
      assert (events + [e])[1..] == events[1..] + [e];
    } else {
      assert (events + [e])[1..] == [];
    }
  }

  lemma {:induction false} RunsJoin(s: State, a: seq<Event>, b: seq<Event>)
    requires Runs(s, a) && Runs(RunFrom(s, a), b)
    ensures Runs(s, a + b) && RunFrom(s, a + b) == RunFrom(RunFrom(s, a), b)
    decreases |a|
  {
    if a == [] {
      assert a + b == b;
    } else {
      var t := Step(s, a[0]);
      RunsJoin(t, a[1..], b);
      OneStepFirst(s, t, a, b);
    }
  }

  lemma OneStepFirst(s: State, t: State, a: seq<Event>, b: seq<Event>)
    requires a != [] && Enabled(s, a[0]) && t == Step(s, a[0]) && Runs(t, a[1..] + b)
    ensures Runs(s, a + b) && RunFrom(s, a + b) == RunFrom(t, a[1..] + b)
  {
    assert (a + b)[1..] == a[1..] + b;
  }

  /** A call not made in the exit gap resolves with a scan that began no earlier than the call. */
  lemma {:induction false} PromptCallIsFresh(events: seq<Event>, c: nat)
    requires Runs(INITIAL, events)
    requires c < |RunFrom(INITIAL, events).calls|
    requires RunFrom(INITIAL, events).calls[c].prompt && RunFrom(INITIAL, events).calls[c].status.Resolved?
    ensures var s := RunFrom(INITIAL, events);
      s.calls[c].status.scan < |s.scanStarts| && s.calls[c].at <= s.scanStarts[s.calls[c].status.scan]
  {
    RunKeepsInv(INITIAL, events);
    assert CallServed(RunFrom(INITIAL, events), RunFrom(INITIAL, events).calls[c]);
  }

  /** What refresh() promises its caller: the scan it resolves with began no earlier than the call. */
  predicate IsFresh(s: State, c: nat)
    requires c < |s.calls| && s.calls[c].status.Resolved?
  {
    var scan := s.calls[c].status.scan;
    scan < |s.scanStarts| && s.calls[c].at <= s.scanStarts[scan]
  }

  /** A call made now resolves fresh however the run goes on. */
  ghost predicate SureToBeFresh(s: State) {
    forall rest :: Runs(Step(s, Refresh), rest) ==> NextCallIsFresh(s, rest)
  }

  ghost predicate NextCallIsFresh(s: State, rest: seq<Event>)
    requires Runs(Step(s, Refresh), rest)
  {
    var t := RunFrom(Step(s, Refresh), rest);
    |s.calls| < |t.calls| && (t.calls[|s.calls|].status.Resolved? ==> IsFresh(t, |s.calls|))
  }

  lemma {:induction false} RunKeepsCall(s: State, events: seq<Event>, c: nat)
    requires Runs(s, events) && c < |s.calls|
    ensures var t := RunFrom(s, events);
      c < |t.calls| && t.calls[c].at == s.calls[c].at && t.calls[c].prompt == s.calls[c].prompt
    decreases |events|
  {
    if events != [] {
      RunKeepsCall(Step(s, events[0]), events[1..], c);
    }
  }

  /** In every reachable state, a call is sure to resolve fresh exactly when it is not made in the exit gap. */
  lemma {:induction false} SureToBeFreshIff(events: seq<Event>)
    requires Runs(INITIAL, events)
    ensures SureToBeFresh(RunFrom(INITIAL, events)) <==> !InExitGap(RunFrom(INITIAL, events))
  {
    RunKeepsInv(INITIAL, events);
    var s := RunFrom(INITIAL, events);
    if InExitGap(s) {
      GapCallCanBeStale(s);
      var d := s.refreshInFlight.value;
      assert !NextCallIsFresh(s, GapRest(d, |s.calls|));
    } else {
      InvIsKept(s, Refresh);
      forall rest | Runs(Step(s, Refresh), rest)
        ensures NextCallIsFresh(s, rest)
      {
        RunKeepsInv(Step(s, Refresh), rest);
        RunKeepsCall(Step(s, Refresh), rest, |s.calls|);
        var t := RunFrom(Step(s, Refresh), rest);
        assert CallServed(t, t.calls[|s.calls|]);
      }
    }
  }

  /** The driver settles, another call starts a new drain, and the first caller is handed the old snapshot. */
  function GapRest(drain: nat, call: nat): seq<Event> {
    [Finally(drain), Refresh, Resume(call)]
  }

  /** From every reachable state in the exit gap, a call made there can be handed a scan begun before it. */
  lemma {:induction false} GapCallCanBeStale(s: State)
    requires Inv(s) && InExitGap(s)
    ensures var rest := GapRest(s.refreshInFlight.value, |s.calls|);
      && Runs(Step(s, Refresh), rest)
      && var t := RunFrom(Step(s, Refresh), rest);
      && |s.calls| < |t.calls| && t.calls[|s.calls|].status.Resolved? && !IsFresh(t, |s.calls|)
  {
    var d, c := s.refreshInFlight.value, |s.calls|;
    var s1 := Step(s, Refresh);
    assert s1.calls[c] == Call(s.now + 1, false, Waiting(d)) && s1.drains == s.drains;
    var s2 := Step(s1, Finally(d));
    assert s2.calls[c] == s1.calls[c] && s2.drains[d].phase == Settled && s2.refreshInFlight == None;
    var s3 := Step(s2, Refresh);
    assert !s3.refreshQueued && s3.calls[c] == s1.calls[c] && s3.drains[d] == s2.drains[d];
    var s4 := Step(s3, Resume(c));
    RunStep(s3, Resume(c), []);
    RunStep(s2, Refresh, [Resume(c)]);
    RunStep(s1, Finally(d), [Refresh, Resume(c)]);
    assert GapRest(d, c) == [Finally(d)] + ([Refresh] + ([Resume(c)] + []));
    assert s4.calls[c] == Call(s.now + 1, false, Resolved(s.drains[d].scan));
    assert s4.scanStarts[s.drains[d].scan] == s.scanStarts[s.drains[d].scan] <= s.now;
  }

  /** The gap is reached: after one refresh, one scan and the loop's exit. */
  lemma ExitGapIsReachable()
    ensures Runs(INITIAL, [Refresh, ScanDone(0), LoopTest(0)])
    ensures InExitGap(RunFrom(INITIAL, [Refresh, ScanDone(0), LoopTest(0)]))
  {
    var s1 := Step(INITIAL, Refresh);
    var s2 := Step(s1, ScanDone(0));
    RunStep(s2, LoopTest(0), []);
    RunStep(s1, ScanDone(0), [LoopTest(0)]);
    RunStep(INITIAL, Refresh, [ScanDone(0), LoopTest(0)]);
  }

  lemma RunStep(s: State, e: Event, rest: seq<Event>)
    requires Enabled(s, e) && Runs(Step(s, e), rest)
    ensures Runs(s, [e] + rest) && RunFrom(s, [e] + rest) == RunFrom(Step(s, e), rest)
  {
    assert ([e] + rest)[1..] == rest;
  }

  // ---- The service ----

  /** The two fields of the service, and beside them what its suspended calls and drain loops are waiting for. */
  class CollectionDiscoveryService {
    var refreshQueued: bool
    var refreshInFlight: Option<nat>
    var drains: seq<Drain>
    var scanStarts: seq<nat>
    var stored: seq<nat>
    var calls: seq<Call>
    var now: nat

    ghost function View(): State
      reads this
    {
      State(refreshQueued, refreshInFlight, drains, scanStarts, stored, calls, now)
    }

    constructor ()
      ensures View() == INITIAL
    {
      refreshQueued, refreshInFlight, drains, scanStarts, stored, calls, now := false, None, [], [], [], [], 0;
    }

    /** One pass of the loop up to its await: the flag is dropped before the scan begins. */
    method BeginScan(drain: nat)
      requires drain <= |drains|
      modifies this
      ensures !refreshQueued && scanStarts == old(scanStarts) + [now]
      ensures var at := Drain(Scanning, |old(scanStarts)|);
        drains == if drain < |old(drains)| then old(drains)[drain := at] else old(drains) + [at]
      ensures unchanged(`refreshInFlight) && unchanged(`stored) && unchanged(`calls) && unchanged(`now)
    {
      refreshQueued := false;
      if drain < |drains| {
        drains := drains[drain := Drain(Scanning, |scanStarts|)];
      } else {
        drains := drains + [Drain(Scanning, |scanStarts|)];
      }
      scanStarts := scanStarts + [now];
    }

    /** refresh() up to its first await. */
    method Join(prompt: bool, at: nat) returns (call: Call)
      modifies this
      ensures (View(), call) == Enter(old(View()), prompt, at)
    {
      refreshQueued := true;
      if refreshInFlight.Some? {
        return Call(at, prompt, Waiting(refreshInFlight.value));
      }
      var drain := |drains|;
      BeginScan(drain);
      refreshInFlight := Some(drain);
      return Call(at, prompt, Driving(drain));
    }

    method Refresh()
      requires Inv(View())
      modifies this
      ensures View() == Step(old(View()), Event.Refresh) && Inv(View())
    {
      InvIsKept(View(), Event.Refresh);
      now := now + 1;
      var gap :=
        refreshInFlight.Some? && refreshInFlight.value < |drains| && drains[refreshInFlight.value].phase == Exited;
      var call := Join(!gap, now);
      calls := calls + [call];
    }

    method StoreSnapshot(drain: nat)
      requires Inv(View()) && Enabled(View(), ScanDone(drain))
      modifies this
      ensures View() == Step(old(View()), ScanDone(drain)) && Inv(View())
    {
      InvIsKept(View(), ScanDone(drain));
      now := now + 1;
      stored := stored + [drains[drain].scan];
      drains := drains[drain := drains[drain].(phase := Stored)];
    }

    method TestQueue(drain: nat)
      requires Inv(View()) && Enabled(View(), LoopTest(drain))
      modifies this
      ensures View() == Step(old(View()), LoopTest(drain)) && Inv(View())
    {
      InvIsKept(View(), LoopTest(drain));
      now := now + 1;
      if refreshQueued {
        BeginScan(drain);
      } else {
        drains := drains[drain := drains[drain].(phase := Exited)];
      }
    }

    method Settle(drain: nat)
      requires Inv(View()) && Enabled(View(), Finally(drain))
      modifies this
      ensures View() == Step(old(View()), Finally(drain)) && Inv(View())
    {
      InvIsKept(View(), Finally(drain));
      now := now + 1;
      refreshInFlight := None;
      calls := Resolve(calls, drain, drains[drain].scan);
      drains := drains[drain := drains[drain].(phase := Settled)];
    }

    /** A waiter's continuation: refresh again if something is queued, else hand over the drain's result. */
    method ResumeWaiter(waiter: nat)
      requires Inv(View()) && Enabled(View(), Resume(waiter))
      modifies this
      ensures View() == Step(old(View()), Resume(waiter)) && Inv(View())
    {
      InvIsKept(View(), Resume(waiter));
      now := now + 1;
      var call := calls[waiter];
      if refreshQueued {
        var again := Join(call.prompt, call.at);
        calls := calls[waiter := again];
      } else {
        calls := calls[waiter := call.(status := Resolved(drains[call.status.drain].scan))];
      }
    }
  }
}
