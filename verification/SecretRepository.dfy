/**
 The per-field lock of the secret repository and the lazy migration it protects, as the awaited store operations
 between which calls on other fields may run. Outside the migration the secret store does not fail.
 */
module SecretRepository {
  import opened Wrappers
  import opened SecretKeys

  datatype Operation = Get | Store(value: string) | Delete

  datatype Request = Request(field: Field, op: Operation)

  /** What a call awaits next. */
  datatype Progress =
    | Start
    | ReadLegacy                  // get: the canonical secret was absent
    | SetCanonical(value: string) // get: copying the legacy secret
    | DropMigrated(value: string) // get: the copy is made
    | DropLegacy                  // delete: the canonical secret is gone
    | Done(result: Option<string>)

  datatype Outcome = Succeeds | FailsWithoutEffect | FailsAfterEffect

  datatype Event = Issue(request: Request) | Advance(call: nat, outcome: Outcome)

  type Secrets = map<string, string>

  datatype State = State(
    fieldLocks: map<string, nat>,
    secrets: Secrets,
    issued: seq<Request>,
    previous: seq<Option<nat>>,
    progress: seq<Progress>)

  function Initial(secrets: Secrets): State {
    State(map[], secrets, [], [], [])
  }

  function LockKey(f: Field): string {
    f.profile + "\0" + f.name
  }

  predicate Migrating(p: Progress) {
    p.SetCanonical? || p.DropMigrated?
  }

  /** One awaited store operation of a call and what the call awaits after it. */
  function Operate(secrets: Secrets, request: Request, p: Progress, outcome: Outcome): (Secrets, Progress)
    requires !p.Done?
  {
    var canonical, legacy := CanonicalKey(request.field), LegacyKey(request.field);
    match p
    case Start => (
      match request.op
      case Get => (secrets, if canonical in secrets then Done(Some(secrets[canonical])) else ReadLegacy)
      case Store(v) => (secrets[canonical := v], Done(None))
      case Delete => (secrets - {canonical}, DropLegacy))
    case ReadLegacy => (secrets, if legacy in secrets then SetCanonical(secrets[legacy]) else Done(None))
    case SetCanonical(v) =>
      (if outcome == FailsWithoutEffect then secrets else secrets[canonical := v],
       if outcome == Succeeds then DropMigrated(v) else Done(Some(v)))
    case DropMigrated(v) =>
      (if outcome == FailsWithoutEffect then secrets else secrets - {legacy}, Done(Some(v)))
    case DropLegacy => (secrets - {legacy}, Done(None))
  }

  predicate MayRun(s: State, c: nat) {
    && c < |s.progress| && c < |s.previous| && c < |s.issued| && !s.progress[c].Done?
    && (s.previous[c].Some? ==> s.previous[c].value < |s.progress| && s.progress[s.previous[c].value].Done?)
  }

  predicate Enabled(s: State, e: Event) {
    match e
    case Issue(_) => true
    case Advance(c, outcome) => MayRun(s, c) && (outcome == Succeeds || Migrating(s.progress[c]))
  }

  function Step(s: State, e: Event): State
    requires Enabled(s, e)
  {
    match e
    case Issue(request) =>
      var key := LockKey(request.field);
      State(s.fieldLocks[key := |s.issued|], s.secrets, s.issued + [request],
            s.previous + [if key in s.fieldLocks then Some(s.fieldLocks[key]) else None], s.progress + [Start])
    case Advance(c, outcome) =>
      var (secrets, p) := Operate(s.secrets, s.issued[c], s.progress[c], outcome);
      s.(secrets := secrets, progress := s.progress[c := p])
  }

  predicate Runs(s: State, events: seq<Event>)
    decreases |events|
  {
    events == [] || (Enabled(s, events[0]) && Runs(Step(s, events[0]), events[1..]))
  }

  function RunFrom(s: State, events: seq<Event>): State
    requires Runs(s, events)
    decreases |events|
  {
    if events == [] then s else RunFrom(Step(s, events[0]), events[1..])
  }

  // ---- The specification: one optional value per secret, calls run one at a time in issue order ----

  predicate SameSecret(f: Field, g: Field) {
    Dotted(f) == Dotted(g)
  }

  /** The secret a reader sees: canonical, else legacy. */
  function Visible(secrets: Secrets, f: Field): Option<string> {
    if CanonicalKey(f) in secrets then Some(secrets[CanonicalKey(f)])
    else if LegacyKey(f) in secrets then Some(secrets[LegacyKey(f)])
    else None
  }

  function Apply(op: Operation, value: Option<string>): Option<string> {
    match op
    case Get => value
    case Store(v) => Some(v)
    case Delete => None
  }

  function Answer(op: Operation, value: Option<string>): Option<string> {
    if op.Get? then value else None
  }

  function Expected(initial: Secrets, issued: seq<Request>, n: nat, f: Field): Option<string>
    requires n <= |issued|
  {
    if n == 0 then Visible(initial, f)
    else
      var before := Expected(initial, issued, n - 1, f);
      if SameSecret(issued[n - 1].field, f) then Apply(issued[n - 1].op, before) else before
  }

  /** Fields that share a secret share its lock. */
  ghost predicate LocksCover(fields: set<Field>) {
    forall f, g :: f in fields && g in fields && SameSecret(f, g) ==> LockKey(f) == LockKey(g)
  }

  // ---- The invariant ----

  predicate SharesLock(s: State, i: nat, j: nat)
    requires i < |s.issued| && j < |s.issued|
  {
    LockKey(s.issued[i].field) == LockKey(s.issued[j].field)
  }

  /** Each call waits for the latest earlier call under its lock, which is where the lock map points. */
  ghost predicate LockChain(s: State) {
    && |s.issued| == |s.previous| == |s.progress|
    && (forall c :: 0 <= c < |s.issued| ==> PreviousIsLatest(s, c))
    && (forall j :: 0 <= j < |s.issued| ==> PointsAtOrAfter(s, j))
    && (forall k :: k in s.fieldLocks ==> s.fieldLocks[k] < |s.issued| && LockKey(s.issued[s.fieldLocks[k]].field) == k)
  }

  ghost predicate PointsAtOrAfter(s: State, j: nat)
    requires j < |s.issued|
  {
    var k := LockKey(s.issued[j].field);
    k in s.fieldLocks && j <= s.fieldLocks[k]
  }

  ghost predicate PreviousIsLatest(s: State, c: nat)
    requires c < |s.issued| == |s.previous|
  {
    && (s.previous[c].Some? ==> s.previous[c].value < c && SharesLock(s, s.previous[c].value, c))
    && forall j :: 0 <= j < c && SharesLock(s, j, c) ==> s.previous[c].Some? && j <= s.previous[c].value
  }

  ghost predicate OneAtATime(s: State) {
    && |s.issued| == |s.progress|
    && forall c, j :: 0 <= j < c < |s.issued| && SharesLock(s, j, c) && s.progress[c] != Start ==> s.progress[j].Done?
  }

  /** Every call on this secret among the first `n` has finished. */
  ghost predicate ClearBefore(s: State, n: nat, f: Field)
    requires n <= |s.issued| == |s.progress|
  {
    forall j :: 0 <= j < n && SameSecret(s.issued[j].field, f) ==> s.progress[j].Done?
  }

  /** How far a call has come, given the value its secret had before it. */
  ghost predicate OnCourse(secrets: Secrets, request: Request, p: Progress, before: Option<string>) {
    var f := request.field;
    match p
    case Start => Visible(secrets, f) == before
    case ReadLegacy => request.op.Get? && CanonicalKey(f) !in secrets && Visible(secrets, f) == before
    case SetCanonical(v) => request.op.Get? && CanonicalKey(f) !in secrets && Visible(secrets, f) == before == Some(v)
    case DropMigrated(v) => request.op.Get? && CanonicalKey(f) in secrets && Visible(secrets, f) == before == Some(v)
    case DropLegacy => request.op.Delete? && CanonicalKey(f) !in secrets
    case Done(r) => r == Answer(request.op, before)
  }

  ghost predicate CallOnCourse(initial: Secrets, s: State, c: nat)
    requires c < |s.issued| == |s.progress|
  {
    s.progress[c].Done? || ClearBefore(s, c, s.issued[c].field) ==>
      OnCourse(s.secrets, s.issued[c], s.progress[c], Expected(initial, s.issued, c, s.issued[c].field))
  }

  ghost predicate FieldOnCourse(initial: Secrets, s: State, f: Field)
    requires |s.issued| == |s.progress|
  {
    ClearBefore(s, |s.issued|, f) ==> Visible(s.secrets, f) == Expected(initial, s.issued, |s.issued|, f)
  }

  ghost predicate Inv(initial: Secrets, s: State, fields: set<Field>) {
    && LockChain(s) && OneAtATime(s)
    && (forall c :: 0 <= c < |s.issued| ==> s.issued[c].field in fields)
    && (forall c :: 0 <= c < |s.issued| ==> CallOnCourse(initial, s, c))
    && (forall f :: FieldOnCourse(initial, s, f))
  }

  // ---- One step ----

  lemma OperateKeepsOthers(secrets: Secrets, request: Request, p: Progress, outcome: Outcome, g: Field)
    requires !p.Done? && !SameSecret(request.field, g)
    ensures var after := Operate(secrets, request, p, outcome).0;
      && (CanonicalKey(g) in after <==> CanonicalKey(g) in secrets)
      && Visible(after, g) == Visible(secrets, g)
  {
    KeysCollideIff(request.field, g);
    CanonicalIsNotLegacy(request.field, g);
    CanonicalIsNotLegacy(g, request.field);
  }

  lemma OperateStaysOnCourse(secrets: Secrets, request: Request, p: Progress, outcome: Outcome, before: Option<string>)
    requires !p.Done? && OnCourse(secrets, request, p, before)
    requires outcome == Succeeds || Migrating(p)
    ensures var (after, q) := Operate(secrets, request, p, outcome);
      && OnCourse(after, request, q, before)
      && (q.Done? ==> Visible(after, request.field) == Apply(request.op, before))
  {
    CanonicalIsNotLegacy(request.field, request.field);
  }

  lemma SameSecretSameView(f: Field, g: Field, secrets: Secrets)
    requires SameSecret(f, g)
    ensures Visible(secrets, f) == Visible(secrets, g)
  {
    KeysCollideIff(f, g);
  }

  lemma {:induction false} SameSecretSameExpectation(initial: Secrets, issued: seq<Request>, n: nat, f: Field, g: Field)
    requires n <= |issued| && SameSecret(f, g)
    ensures Expected(initial, issued, n, f) == Expected(initial, issued, n, g)
  {
    if n == 0 {
      SameSecretSameView(f, g, initial);
    } else {
      SameSecretSameExpectation(initial, issued, n - 1, f, g);
    }
  }

  /** Calls on other secrets do not move the expected value. */
  lemma {:induction false} OthersKeepExpectation(initial: Secrets, issued: seq<Request>, m: nat, n: nat, f: Field)
    requires m <= n <= |issued|
    requires forall j :: m <= j < n ==> !SameSecret(issued[j].field, f)
    ensures Expected(initial, issued, n, f) == Expected(initial, issued, m, f)
    decreases n
  {
    if m < n {
      OthersKeepExpectation(initial, issued, m, n - 1, f);
    }
  }

  lemma {:induction false} ExpectationIsPrefixed(
      initial: Secrets, issued: seq<Request>, more: seq<Request>, n: nat, f: Field)
    requires n <= |issued|
    ensures Expected(initial, issued + more, n, f) == Expected(initial, issued, n, f)
  {
    if n > 0 {
      ExpectationIsPrefixed(initial, issued, more, n - 1, f);
    }
  }

  lemma IssueKeepsCall(initial: Secrets, s: State, request: Request, c: nat, fields: set<Field>)
    requires Inv(initial, s, fields) && c <= |s.issued|
    ensures CallOnCourse(initial, Step(s, Issue(request)), c)
  {
    var t := Step(s, Issue(request));
    var f := t.issued[c].field;
    ExpectationIsPrefixed(initial, s.issued, [request], c, f);
    assert forall j :: 0 <= j < |s.issued| ==> t.issued[j] == s.issued[j] && t.progress[j] == s.progress[j];
    if c < |s.issued| {
      assert CallOnCourse(initial, s, c);
    } else {
      assert FieldOnCourse(initial, s, f);
    }
  }

  lemma IssueKeepsField(initial: Secrets, s: State, request: Request, f: Field, fields: set<Field>)
    requires Inv(initial, s, fields)
    ensures FieldOnCourse(initial, Step(s, Issue(request)), f)
  {
    var t := Step(s, Issue(request));
    var n := |s.issued|;
    if ClearBefore(t, n + 1, f) {
      assert t.issued[n] == request && t.progress[n] == Start;
      assert forall j :: 0 <= j < n ==> t.issued[j] == s.issued[j] && t.progress[j] == s.progress[j];
      assert FieldOnCourse(initial, s, f);
      ExpectationIsPrefixed(initial, s.issued, [request], n, f);
    }
  }

  lemma IssueKeepsChain(s: State, request: Request)
    requires LockChain(s) && OneAtATime(s)
    ensures LockChain(Step(s, Issue(request))) && OneAtATime(Step(s, Issue(request)))
  {
    var t := Step(s, Issue(request));
    forall c | 0 <= c < |t.issued|
      ensures PreviousIsLatest(t, c)
    {
      forall j | 0 <= j < c && SharesLock(t, j, c)
        ensures t.previous[c].Some? && j <= t.previous[c].value
      {
        assert PointsAtOrAfter(s, j);
        if c < |s.issued| {
          assert PreviousIsLatest(s, c) && SharesLock(s, j, c);
        }
      }
      if c < |s.issued| {
        assert PreviousIsLatest(s, c);
      }
    }
    forall j | 0 <= j < |t.issued|
      ensures PointsAtOrAfter(t, j)
    {
      if j < |s.issued| {
        assert PointsAtOrAfter(s, j);
      }
    }
  }

  /** When a call may run, every earlier call under its lock has finished. */
  lemma TurnIsExclusive(s: State, c: nat, j: nat)
    requires LockChain(s) && OneAtATime(s) && MayRun(s, c)
    requires j < c && SharesLock(s, j, c)
    ensures s.progress[j].Done?
  {
    assert PreviousIsLatest(s, c);
    var p := s.previous[c].value;
    assert j < p ==> SharesLock(s, j, p);
  }

  lemma AdvanceKeepsOrder(s: State, c: nat, outcome: Outcome)
    requires LockChain(s) && OneAtATime(s) && Enabled(s, Advance(c, outcome))
    ensures LockChain(Step(s, Advance(c, outcome))) && OneAtATime(Step(s, Advance(c, outcome)))
  {
    var t := Step(s, Advance(c, outcome));
    forall i | 0 <= i < |t.issued|
      ensures PreviousIsLatest(t, i) && PointsAtOrAfter(t, i)
    {
      assert PreviousIsLatest(s, i) && PointsAtOrAfter(s, i);
      assert forall j :: 0 <= j < i && SharesLock(t, j, i) ==> SharesLock(s, j, i);
    }
    forall i, j | 0 <= j < i < |t.issued| && SharesLock(t, j, i) && t.progress[i] != Start
      ensures t.progress[j].Done?
    {
      if i == c {
        TurnIsExclusive(s, c, j);
      } else {
        assert SharesLock(s, j, i);
      }
    }
  }

  /** While a call runs, the later calls on its secret have not begun. */
  lemma LaterHaveNotBegun(s: State, c: nat, fields: set<Field>)
    requires LocksCover(fields) && LockChain(s) && OneAtATime(s) && MayRun(s, c)
    requires forall j :: 0 <= j < |s.issued| ==> s.issued[j].field in fields
    ensures forall j :: c < j < |s.issued| && SameSecret(s.issued[c].field, s.issued[j].field) ==>
      s.progress[j] == Start
  {
    forall j | c < j < |s.issued| && SameSecret(s.issued[c].field, s.issued[j].field)
      ensures s.progress[j] == Start
    {
      assert SharesLock(s, c, j);
    }
  }

  /** Once a call finishes, its secret shows the value expected after it. */
  lemma FinishedShowsExpectation(
      initial: Secrets, s: State, c: nat, outcome: Outcome, n: nat, f: Field, fields: set<Field>)
    requires LocksCover(fields) && Inv(initial, s, fields) && Enabled(s, Advance(c, outcome))
    requires c < n <= |s.issued| && SameSecret(s.issued[c].field, f)
    requires ClearBefore(Step(s, Advance(c, outcome)), n, f)
    ensures Visible(Step(s, Advance(c, outcome)).secrets, f) == Expected(initial, s.issued, n, f)
  {
    var t := Step(s, Advance(c, outcome));
    var g := s.issued[c].field;
    assert t.progress[c].Done?;
    FinishedAppliesOperation(initial, s, c, outcome, fields);
    SameSecretSameView(g, f, t.secrets);
    LaterHaveNotBegun(s, c, fields);
    assert forall j :: c < j < n ==> t.progress[j] == s.progress[j];
    SameSecretSameExpectation(initial, s.issued, c, g, f);
    OthersKeepExpectation(initial, s.issued, c + 1, n, f);
  }

  lemma FinishedAppliesOperation(initial: Secrets, s: State, c: nat, outcome: Outcome, fields: set<Field>)
    requires LocksCover(fields) && Inv(initial, s, fields) && Enabled(s, Advance(c, outcome))
    requires Step(s, Advance(c, outcome)).progress[c].Done?
    ensures var g := s.issued[c].field;
      Visible(Step(s, Advance(c, outcome)).secrets, g) == Apply(s.issued[c].op, Expected(initial, s.issued, c, g))
  {
    CallWasOnCourse(initial, s, c, fields);
    OperateStaysOnCourse(
      s.secrets, s.issued[c], s.progress[c], outcome, Expected(initial, s.issued, c, s.issued[c].field));
  }

  lemma CallWasOnCourse(initial: Secrets, s: State, c: nat, fields: set<Field>)
    requires LocksCover(fields) && Inv(initial, s, fields) && MayRun(s, c)
    ensures OnCourse(s.secrets, s.issued[c], s.progress[c], Expected(initial, s.issued, c, s.issued[c].field))
  {
    forall j | 0 <= j < c && SameSecret(s.issued[j].field, s.issued[c].field)
      ensures s.progress[j].Done?
    {
      assert SharesLock(s, j, c);
      TurnIsExclusive(s, c, j);
    }
    assert CallOnCourse(initial, s, c);
  }

  lemma AdvanceKeepsCall(initial: Secrets, s: State, c: nat, outcome: Outcome, i: nat, fields: set<Field>)
    requires LocksCover(fields) && Inv(initial, s, fields) && Enabled(s, Advance(c, outcome)) && i < |s.issued|
    ensures CallOnCourse(initial, Step(s, Advance(c, outcome)), i)
  {
    var t := Step(s, Advance(c, outcome));
    var f := s.issued[i].field;
    assert CallOnCourse(initial, s, i);
    if i == c {
      CallWasOnCourse(initial, s, c, fields);
      OperateStaysOnCourse(s.secrets, s.issued[c], s.progress[c], outcome, Expected(initial, s.issued, c, f));
    } else if !t.progress[i].Done? && ClearBefore(t, i, f) {
      if SameSecret(s.issued[c].field, f) {
        SameSecretWaits(s, c, outcome, i, fields);
        FinishedShowsExpectation(initial, s, c, outcome, i, f, fields);
      } else {
        assert ClearBefore(s, i, f);
        OperateKeepsOthers(s.secrets, s.issued[c], s.progress[c], outcome, f);
      }
    }
  }

  /** An unfinished call on the advancing call's secret comes later and has not begun. */
  lemma SameSecretWaits(s: State, c: nat, outcome: Outcome, i: nat, fields: set<Field>)
    requires LocksCover(fields) && LockChain(s) && OneAtATime(s) && Enabled(s, Advance(c, outcome))
    requires forall j :: 0 <= j < |s.issued| ==> s.issued[j].field in fields
    requires i < |s.issued| && i != c && SameSecret(s.issued[c].field, s.issued[i].field) && !s.progress[i].Done?
    ensures c < i && s.progress[i] == Start
  {
    assert SharesLock(s, c, i) && SharesLock(s, i, c);
    if i < c {
      TurnIsExclusive(s, c, i);
    }
  }

  lemma AdvanceKeepsField(initial: Secrets, s: State, c: nat, outcome: Outcome, f: Field, fields: set<Field>)
    requires LocksCover(fields) && Inv(initial, s, fields) && Enabled(s, Advance(c, outcome))
    ensures FieldOnCourse(initial, Step(s, Advance(c, outcome)), f)
  {
    var t := Step(s, Advance(c, outcome));
    if ClearBefore(t, |t.issued|, f) {
      if SameSecret(s.issued[c].field, f) {
        FinishedShowsExpectation(initial, s, c, outcome, |s.issued|, f, fields);
      } else {
        assert ClearBefore(s, |s.issued|, f);
        assert FieldOnCourse(initial, s, f);
        OperateKeepsOthers(s.secrets, s.issued[c], s.progress[c], outcome, f);
      }
    }
  }

  predicate IssuesWithin(e: Event, fields: set<Field>) {
    e.Issue? ==> e.request.field in fields
  }

  lemma {:induction false} StepKeepsInv(initial: Secrets, s: State, e: Event, fields: set<Field>)
    requires LocksCover(fields) && Inv(initial, s, fields) && Enabled(s, e) && IssuesWithin(e, fields)
    ensures Inv(initial, Step(s, e), fields)
  {
    match e
    case Issue(request) =>
      IssueKeepsChain(s, request);
      forall i | 0 <= i <= |s.issued|
        ensures CallOnCourse(initial, Step(s, e), i)
      {
        IssueKeepsCall(initial, s, request, i, fields);
      }
      forall f
        ensures FieldOnCourse(initial, Step(s, e), f)
      {
        IssueKeepsField(initial, s, request, f, fields);
      }
    case Advance(c, outcome) =>
      AdvanceKeepsOrder(s, c, outcome);
      forall i | 0 <= i < |s.issued|
        ensures CallOnCourse(initial, Step(s, e), i)
      {
        AdvanceKeepsCall(initial, s, c, outcome, i, fields);
      }
      forall f
        ensures FieldOnCourse(initial, Step(s, e), f)
      {
        AdvanceKeepsField(initial, s, c, outcome, f, fields);
      }
  }

  lemma {:induction false} RunKeepsInv(initial: Secrets, s: State, events: seq<Event>, fields: set<Field>)
    requires LocksCover(fields) && Inv(initial, s, fields) && Runs(s, events)
    requires forall e :: e in events ==> IssuesWithin(e, fields)
    ensures Inv(initial, RunFrom(s, events), fields)
    decreases |events|
  {
    if events != [] {
      StepKeepsInv(initial, s, events[0], fields);
      RunKeepsInv(initial, Step(s, events[0]), events[1..], fields);
    }
  }

  lemma InitialInv(initial: Secrets, fields: set<Field>)
    ensures Inv(initial, Initial(initial), fields)
  {
  }

  // ---- What callers rely on ----

  /** Whatever the interleaving, each answer is the one calls run one at a time in issue order would give. */
  lemma {:induction false} AnswersAreSequential(initial: Secrets, events: seq<Event>, fields: set<Field>, c: nat)
    requires Runs(Initial(initial), events) && LocksCover(fields)
    requires forall e :: e in events ==> IssuesWithin(e, fields)
    requires var s := RunFrom(Initial(initial), events); c < |s.issued| && c < |s.progress| && s.progress[c].Done?
    ensures var s := RunFrom(Initial(initial), events);
      s.progress[c].result == Answer(s.issued[c].op, Expected(initial, s.issued, c, s.issued[c].field))
  {
    InitialInv(initial, fields);
    RunKeepsInv(initial, Initial(initial), events, fields);
    assert CallOnCourse(initial, RunFrom(Initial(initial), events), c);
  }

  /** Once every call on a secret has finished, the store shows the value the calls would leave one at a time. */
  lemma {:induction false} SettledSecretIsSequential(initial: Secrets, events: seq<Event>, fields: set<Field>, f: Field)
    requires Runs(Initial(initial), events) && LocksCover(fields)
    requires forall e :: e in events ==> IssuesWithin(e, fields)
    requires var s := RunFrom(Initial(initial), events); |s.issued| == |s.progress| && ClearBefore(s, |s.issued|, f)
    ensures var s := RunFrom(Initial(initial), events);
      Visible(s.secrets, f) == Expected(initial, s.issued, |s.issued|, f)
  {
    InitialInv(initial, fields);
    RunKeepsInv(initial, Initial(initial), events, fields);
    assert FieldOnCourse(initial, RunFrom(Initial(initial), events), f);
  }

  /**
   A get answers with the last write issued before it, however many gets and migrations lie between; a deleted
   secret stays deleted.
   */
  lemma {:induction false} GetReadsLastWrite(initial: Secrets, events: seq<Event>, fields: set<Field>, w: nat, c: nat)
    requires Runs(Initial(initial), events) && LocksCover(fields)
    requires forall e :: e in events ==> IssuesWithin(e, fields)
    requires var s := RunFrom(Initial(initial), events); IsLastWrite(s, w, c)
    requires var s := RunFrom(Initial(initial), events); s.issued[c].op == Get && s.progress[c].Done?
    ensures var s := RunFrom(Initial(initial), events);
      s.progress[c].result == match s.issued[w].op case Store(v) => Some(v) case _ => None
  {
    var s := RunFrom(Initial(initial), events);
    var f := s.issued[c].field;
    AnswersAreSequential(initial, events, fields, c);
    GetsKeepExpectation(initial, s.issued, w + 1, c, f);
  }

  ghost predicate IsLastWrite(s: State, w: nat, c: nat) {
    && w < c < |s.issued| == |s.progress|
    && !s.issued[w].op.Get? && SameSecret(s.issued[w].field, s.issued[c].field)
    && forall j :: w < j < c && SameSecret(s.issued[j].field, s.issued[c].field) ==> s.issued[j].op == Get
  }

  lemma {:induction false} GetsKeepExpectation(initial: Secrets, issued: seq<Request>, m: nat, n: nat, f: Field)
    requires m <= n <= |issued|
    requires forall j :: m <= j < n && SameSecret(issued[j].field, f) ==> issued[j].op == Get
    ensures Expected(initial, issued, n, f) == Expected(initial, issued, m, f)
    decreases n
  {
    if m < n {
      GetsKeepExpectation(initial, issued, m, n - 1, f);
    }
  }

  /** No call is stranded: some unfinished call may always run. */
  lemma {:induction false} NothingIsStranded(initial: Secrets, events: seq<Event>, c: nat)
    requires Runs(Initial(initial), events)
    requires var s := RunFrom(Initial(initial), events); c < |s.progress| && !s.progress[c].Done?
    ensures var s := RunFrom(Initial(initial), events); exists i :: Enabled(s, Advance(i, Succeeds))
  {
    RunKeepsChain(Initial(initial), events);
    EarliestMayRun(RunFrom(Initial(initial), events), c);
  }

  lemma {:induction false} RunKeepsChain(s: State, events: seq<Event>)
    requires Runs(s, events) && LockChain(s) && OneAtATime(s)
    ensures LockChain(RunFrom(s, events)) && OneAtATime(RunFrom(s, events))
    decreases |events|
  {
    if events != [] {
      match events[0] {
        case Issue(request) => IssueKeepsChain(s, request);
        case Advance(c, outcome) => AdvanceKeepsOrder(s, c, outcome);
      }
      RunKeepsChain(Step(s, events[0]), events[1..]);
    }
  }

  lemma {:induction false} EarliestMayRun(s: State, c: nat)
    requires LockChain(s) && c < |s.progress| && !s.progress[c].Done?
    ensures exists i :: Enabled(s, Advance(i, Succeeds))
    decreases c
  {
    assert PreviousIsLatest(s, c);
    if s.previous[c].Some? && !s.progress[s.previous[c].value].Done? {
      EarliestMayRun(s, s.previous[c].value);
    } else {
      assert Enabled(s, Advance(c, Succeeds));
    }
  }

  // ---- One call on its own, in terms of the two keys of its field ----

  /** The run of one call whose store operations have these outcomes. */
  function CallAlone(request: Request, outcomes: seq<Outcome>): seq<Event> {
    [Issue(request)] + seq(|outcomes|, i requires 0 <= i < |outcomes| => Advance(0, outcomes[i]))
  }

  ghost predicate EndsIn(secrets: Secrets, run: seq<Event>, after: Secrets, result: Option<string>) {
    && Runs(Initial(secrets), run)
    && RunFrom(Initial(secrets), run).secrets == after
    && RunFrom(Initial(secrets), run).progress == [Done(result)]
  }

  /** A call alone is issued and then advanced, one store operation at a time. */
  lemma {:induction false} AdvanceAlone(
      s: State, request: Request, outcomes: seq<Outcome>, after: Secrets, result: Option<string>)
    requires s.issued == [request] && s.previous == [None] && |s.progress| == 1
    requires Operates(s.secrets, request, s.progress[0], outcomes, after, result)
    ensures var events := seq(|outcomes|, i requires 0 <= i < |outcomes| => Advance(0, outcomes[i]));
      Runs(s, events) && RunFrom(s, events).secrets == after && RunFrom(s, events).progress == [Done(result)]
    decreases |outcomes|
  {
    var events := seq(|outcomes|, i requires 0 <= i < |outcomes| => Advance(0, outcomes[i]));
    if outcomes != [] {
      AdvanceAlone(Step(s, events[0]), request, outcomes[1..], after, result);
      assert events[1..] == seq(|outcomes[1..]|, i requires 0 <= i < |outcomes[1..]| => Advance(0, outcomes[1..][i]));
    }
  }

  /** These outcomes take a call from `p` to its end. */
  ghost predicate Operates(
      secrets: Secrets, request: Request, p: Progress, outcomes: seq<Outcome>, after: Secrets, result: Option<string>)
    decreases |outcomes|
  {
    if outcomes == [] then p == Done(result) && secrets == after
    else
      && !p.Done? && (outcomes[0] == Succeeds || Migrating(p))
      && var (next, q) := Operate(secrets, request, p, outcomes[0]);
      Operates(next, request, q, outcomes[1..], after, result)
  }

  lemma AloneEndsIn(
      secrets: Secrets, request: Request, outcomes: seq<Outcome>, after: Secrets, result: Option<string>)
    requires Operates(secrets, request, Start, outcomes, after, result)
    ensures EndsIn(secrets, CallAlone(request, outcomes), after, result)
  {
    var s := Step(Initial(secrets), Issue(request));
    AdvanceAlone(s, request, outcomes, after, result);
    var run := CallAlone(request, outcomes);
    assert run[1..] == seq(|outcomes|, i requires 0 <= i < |outcomes| => Advance(0, outcomes[i]));
  }

  /** A get answers from the canonical key and touches nothing. */
  lemma CanonicalIsRead(secrets: Secrets, f: Field)
    requires CanonicalKey(f) in secrets
    ensures EndsIn(secrets, CallAlone(Request(f, Get), [Succeeds]), secrets, Some(secrets[CanonicalKey(f)]))
  {
    AloneEndsIn(secrets, Request(f, Get), [Succeeds], secrets, Some(secrets[CanonicalKey(f)]));
  }

  /** With neither key there is no secret. */
  lemma NothingIsRead(secrets: Secrets, f: Field)
    requires CanonicalKey(f) !in secrets && LegacyKey(f) !in secrets
    ensures EndsIn(secrets, CallAlone(Request(f, Get), [Succeeds, Succeeds]), secrets, None)
  {
    assert [Succeeds, Succeeds][1..] == [Succeeds];
    AloneEndsIn(secrets, Request(f, Get), [Succeeds, Succeeds], secrets, None);
  }

  /** A migration that succeeds moves the value to the canonical key and leaves no legacy key. */
  lemma {:induction false} MigrationMovesSecret(secrets: Secrets, f: Field)
    requires CanonicalKey(f) !in secrets && LegacyKey(f) in secrets
    ensures var v := secrets[LegacyKey(f)];
      EndsIn(secrets, CallAlone(Request(f, Get), [Succeeds, Succeeds, Succeeds, Succeeds]),
             secrets[CanonicalKey(f) := v] - {LegacyKey(f)}, Some(v))
  {
    var all := [Succeeds, Succeeds, Succeeds, Succeeds];
    assert all[1..] == [Succeeds, Succeeds, Succeeds] && all[1..][1..] == [Succeeds, Succeeds];
    assert all[1..][1..][1..] == [Succeeds];
    var v := secrets[LegacyKey(f)];
    AloneEndsIn(secrets, Request(f, Get), all, secrets[CanonicalKey(f) := v] - {LegacyKey(f)}, Some(v));
  }

  /** A migration that cannot write answers all the same; the legacy key stays. */
  lemma {:induction false} FailedWriteKeepsLegacy(secrets: Secrets, f: Field, failure: Outcome)
    requires CanonicalKey(f) !in secrets && LegacyKey(f) in secrets && failure != Succeeds
    ensures var v := secrets[LegacyKey(f)];
      EndsIn(secrets, CallAlone(Request(f, Get), [Succeeds, Succeeds, failure]),
             if failure == FailsAfterEffect then secrets[CanonicalKey(f) := v] else secrets, Some(v))
  {
    var all := [Succeeds, Succeeds, failure];
    assert all[1..] == [Succeeds, failure] && all[1..][1..] == [failure] && all[1..][1..][1..] == [];
    var v := secrets[LegacyKey(f)];
    var after := if failure == FailsAfterEffect then secrets[CanonicalKey(f) := v] else secrets;
    assert Operates(after, Request(f, Get), Done(Some(v)), [], after, Some(v));
    assert Operates(secrets, Request(f, Get), SetCanonical(v), [failure], after, Some(v));
    AloneEndsIn(secrets, Request(f, Get), all, after, Some(v));
  }

  /** A store writes the canonical key alone; a delete removes both keys. */
  lemma {:induction false} StoreAndDelete(secrets: Secrets, f: Field, v: string)
    ensures EndsIn(secrets, CallAlone(Request(f, Store(v)), [Succeeds]), secrets[CanonicalKey(f) := v], None)
    ensures EndsIn(secrets, CallAlone(Request(f, Delete), [Succeeds, Succeeds]),
                   secrets - {CanonicalKey(f), LegacyKey(f)}, None)
  {
    assert [Succeeds, Succeeds][1..] == [Succeeds];
    AloneEndsIn(secrets, Request(f, Store(v)), [Succeeds], secrets[CanonicalKey(f) := v], None);
    assert secrets - {CanonicalKey(f)} - {LegacyKey(f)} == secrets - {CanonicalKey(f), LegacyKey(f)};
    AloneEndsIn(secrets, Request(f, Delete), [Succeeds, Succeeds], secrets - {CanonicalKey(f), LegacyKey(f)}, None);
  }

  // ---- Where the lock does not cover the secret ----

  function RacingRun(f: Field, g: Field): seq<Event> {
    [Issue(Request(f, Get)), Issue(Request(g, Delete)), Advance(0, Succeeds), Advance(0, Succeeds),
     Advance(1, Succeeds), Advance(1, Succeeds), Advance(0, Succeeds), Advance(0, Succeeds)]
  }

  /** For any two fields that share a secret but not a lock, a migrating get can bring back a deleted secret. */
  lemma {:induction false} UncoveredSecretCanReturn(f: Field, g: Field, value: string)
    requires SameSecret(f, g) && LockKey(f) != LockKey(g)
    ensures var initial := map[LegacyKey(f) := value];
      && Runs(Initial(initial), RacingRun(f, g))
      && var s := RunFrom(Initial(initial), RacingRun(f, g));
      && |s.issued| == |s.progress| && ClearBefore(s, |s.issued|, g)
      && Expected(initial, s.issued, |s.issued|, g) == None
      && Visible(s.secrets, g) == Some(value)
  {
    var initial := map[LegacyKey(f) := value];
    var s2 := BothIssued(initial, f, g);
    GetReadsLegacy(s2, f, g, value);
    DeleteIsLast(initial, f, g);
  }

  /** Every finished call has its sequential answer, and every settled secret shows its sequential value. */
  ghost predicate IsSequential(initial: Secrets, s: State) {
    && |s.issued| == |s.progress|
    && (forall c :: 0 <= c < |s.issued| ==> AnswersInTurn(initial, s, c))
    && (forall f :: FieldOnCourse(initial, s, f))
  }

  ghost predicate AnswersInTurn(initial: Secrets, s: State, c: nat)
    requires c < |s.issued| == |s.progress|
  {
    s.progress[c].Done? ==>
      s.progress[c].result == Answer(s.issued[c].op, Expected(initial, s.issued, c, s.issued[c].field))
  }

  ghost predicate RunIsSequential(initial: Secrets, events: seq<Event>, fields: set<Field>) {
    Runs(Initial(initial), events) && (forall e :: e in events ==> IssuesWithin(e, fields)) ==>
      IsSequential(initial, RunFrom(Initial(initial), events))
  }

  /** Calls on these fields always behave as if run one at a time exactly when their locks cover their secrets. */
  lemma {:induction false} SequentialIffLocksCover(fields: set<Field>)
    ensures (forall initial: Secrets, events: seq<Event> :: RunIsSequential(initial, events, fields))
      <==> LocksCover(fields)
  {
    if LocksCover(fields) {
      forall initial: Secrets, events: seq<Event>
        ensures RunIsSequential(initial, events, fields)
      {
        CoveredRunIsSequential(initial, events, fields);
      }
    } else {
      var f, g :| f in fields && g in fields && SameSecret(f, g) && LockKey(f) != LockKey(g);
      UncoveredSecretCanReturn(f, g, "");
      var initial := map[LegacyKey(f) := ""];
      assert !FieldOnCourse(initial, RunFrom(Initial(initial), RacingRun(f, g)), g);
      assert !RunIsSequential(initial, RacingRun(f, g), fields);
    }
  }

  lemma CoveredRunIsSequential(initial: Secrets, events: seq<Event>, fields: set<Field>)
    requires LocksCover(fields)
    ensures RunIsSequential(initial, events, fields)
  {
    if Runs(Initial(initial), events) && forall e :: e in events ==> IssuesWithin(e, fields) {
      var s := RunFrom(Initial(initial), events);
      InitialInv(initial, fields);
      RunKeepsInv(initial, Initial(initial), events, fields);
      forall c | 0 <= c < |s.issued|
        ensures AnswersInTurn(initial, s, c)
      {
        assert CallOnCourse(initial, s, c);
      }
    }
  }

  /** Such a pair: a dotted profile beside a dotted field name. */
  lemma DottedNamesAreUncovered()
    ensures SameSecret(Field("a.b", "c"), Field("a", "b.c")) && LockKey(Field("a.b", "c")) != LockKey(Field("a", "b.c"))
  {
    assert Dotted(Field("a.b", "c")) == "a.b.c" == Dotted(Field("a", "b.c"));
    assert LockKey(Field("a.b", "c"))[1] == '.' && LockKey(Field("a", "b.c"))[1] == '\0';
  }

  lemma BothIssued(initial: Secrets, f: Field, g: Field) returns (s2: State)
    requires LockKey(f) != LockKey(g)
    ensures Racing(s2, f, g, Start, Start) && s2.secrets == initial
    ensures var run := RacingRun(f, g);
      Runs(s2, run[2..]) ==> Runs(Initial(initial), run) && RunFrom(Initial(initial), run) == RunFrom(s2, run[2..])
  {
    var run := RacingRun(f, g);
    var s0 := Initial(initial);
    var s1 := Step(s0, run[0]);
    s2 := Step(s1, run[1]);
    if Runs(s2, run[2..]) {
      RunStep(s1, run, 1);
      RunStep(s0, run, 0);
      assert run[0..] == run;
    }
  }

  lemma DeleteIsLast(initial: Secrets, f: Field, g: Field)
    ensures Expected(initial, [Request(f, Get), Request(g, Delete)], 2, g) == None
  {
  }

  ghost predicate Racing(s: State, f: Field, g: Field, ofGet: Progress, ofDelete: Progress) {
    && s.issued == [Request(f, Get), Request(g, Delete)] && s.previous == [None, None]
    && s.progress == [ofGet, ofDelete]
  }

  lemma GetReadsLegacy(s2: State, f: Field, g: Field, value: string)
    requires SameSecret(f, g) && Racing(s2, f, g, Start, Start) && s2.secrets == map[LegacyKey(f) := value]
    ensures Runs(s2, RacingRun(f, g)[2..])
    ensures var s := RunFrom(s2, RacingRun(f, g)[2..]);
      Racing(s, f, g, Done(Some(value)), Done(None)) && Visible(s.secrets, g) == Some(value)
  {
    CanonicalIsNotLegacy(f, f);
    var run := RacingRun(f, g);
    var s3 := Step(s2, run[2]);
    assert Racing(s3, f, g, ReadLegacy, Start);
    var s4 := Step(s3, run[3]);
    assert Racing(s4, f, g, SetCanonical(value), Start);
    DeleteRunsInside(s4, f, g, value);
    RunStep(s3, run, 3);
    RunStep(s2, run, 2);
  }

  lemma DeleteRunsInside(s4: State, f: Field, g: Field, value: string)
    requires SameSecret(f, g) && Racing(s4, f, g, SetCanonical(value), Start)
    ensures Runs(s4, RacingRun(f, g)[4..])
    ensures var s := RunFrom(s4, RacingRun(f, g)[4..]);
      Racing(s, f, g, Done(Some(value)), Done(None)) && Visible(s.secrets, g) == Some(value)
  {
    var run := RacingRun(f, g);
    var s5 := Step(s4, run[4]);
    assert Racing(s5, f, g, SetCanonical(value), DropLegacy);
    var s6 := Step(s5, run[5]);
    assert Racing(s6, f, g, SetCanonical(value), Done(None));
    MigrationEnds(s6, f, g, value);
    RunStep(s5, run, 5);
    RunStep(s4, run, 4);
  }

  lemma MigratedIsVisible(secrets: Secrets, f: Field, g: Field, value: string)
    requires SameSecret(f, g)
    ensures Visible(secrets[CanonicalKey(f) := value] - {LegacyKey(f)}, g) == Some(value)
  {
    KeysCollideIff(f, g);
    CanonicalIsNotLegacy(f, f);
  }

  lemma MigrationEnds(s6: State, f: Field, g: Field, value: string)
    requires SameSecret(f, g) && Racing(s6, f, g, SetCanonical(value), Done(None))
    ensures Runs(s6, RacingRun(f, g)[6..])
    ensures var s := RunFrom(s6, RacingRun(f, g)[6..]);
      Racing(s, f, g, Done(Some(value)), Done(None)) && Visible(s.secrets, g) == Some(value)
  {
    var run := RacingRun(f, g);
    var s7 := Step(s6, run[6]);
    assert Racing(s7, f, g, DropMigrated(value), Done(None));
    var s8 := Step(s7, run[7]);
    assert Racing(s8, f, g, Done(Some(value)), Done(None));
    MigratedIsVisible(s6.secrets, f, g, value);
    assert run[8..] == [];
    RunStep(s7, run, 7);
    RunStep(s6, run, 6);
  }

  lemma RunStep(s: State, run: seq<Event>, k: nat)
    requires k < |run| && Enabled(s, run[k]) && Runs(Step(s, run[k]), run[k + 1..])
    ensures Runs(s, run[k..]) && RunFrom(s, run[k..]) == RunFrom(Step(s, run[k]), run[k + 1..])
  {
    assert run[k..][1..] == run[k + 1..];
  }

  // ---- The repository ----

  class DefaultAuthenticationSecretRepository {
    var fieldLocks: map<string, nat>
    var secrets: Secrets
    var issued: seq<Request>
    var previous: seq<Option<nat>>
    var progress: seq<Progress>

    ghost function View(): State
      reads this
    {
      State(fieldLocks, secrets, issued, previous, progress)
    }

    constructor (store: Secrets)
      ensures View() == Initial(store)
    {
      fieldLocks, secrets, issued, previous, progress := map[], store, [], [], [];
    }

    /** Queue a call behind the latest one on its field. */
    method WithFieldLock(request: Request, ghost initial: Secrets, ghost fields: set<Field>) returns (call: nat)
      requires LocksCover(fields) && Inv(initial, View(), fields) && request.field in fields
      modifies this
      ensures View() == Step(old(View()), Issue(request)) && call == |old(issued)|
      ensures Inv(initial, View(), fields)
    {
      StepKeepsInv(initial, View(), Issue(request), fields);
      var lockKey := LockKey(request.field);
      var behind := if lockKey in fieldLocks then Some(fieldLocks[lockKey]) else None;
      call := |issued|;
      fieldLocks := fieldLocks[lockKey := call];
      issued := issued + [request];
      previous := previous + [behind];
      progress := progress + [Start];
    }

    /** One awaited store operation of a call whose turn it is. */
    method Resume(call: nat, outcome: Outcome, ghost initial: Secrets, ghost fields: set<Field>)
      requires LocksCover(fields) && Inv(initial, View(), fields) && Enabled(View(), Advance(call, outcome))
      modifies `secrets, `progress
      ensures View() == Step(old(View()), Advance(call, outcome))
      ensures Inv(initial, View(), fields)
    {
      StepKeepsInv(initial, View(), Advance(call, outcome), fields);
      var canonical, legacy := CanonicalKey(issued[call].field), LegacyKey(issued[call].field);
      var next: Progress;
      match progress[call] {
        case Start =>
          match issued[call].op {
            case Get =>
              next := if canonical in secrets then Done(Some(secrets[canonical])) else ReadLegacy;
            case Store(value) =>
              secrets := secrets[canonical := value];
              next := Done(None);
            case Delete =>
              secrets := secrets - {canonical};
              next := DropLegacy;
          }
        case ReadLegacy =>
          next := if legacy in secrets then SetCanonical(secrets[legacy]) else Done(None);
        case SetCanonical(value) =>
          if outcome != FailsWithoutEffect {
            secrets := secrets[canonical := value];
          }
          next := if outcome == Succeeds then DropMigrated(value) else Done(Some(value));
        case DropMigrated(value) =>
          if outcome != FailsWithoutEffect {
            secrets := secrets - {legacy};
          }
          next := Done(Some(value));
        case DropLegacy =>
          secrets := secrets - {legacy};
          next := Done(None);
      }
      progress := progress[call := next];
    }
  }
}
