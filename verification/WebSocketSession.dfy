/**
 One bounded WebSocket session as an event machine. Any event may come at any time; what the session does with it
 depends on the listeners it still has.
 */
module WebSocketSession {
  import opened Wrappers
  import opened Utf8

  datatype ErrorKind =
    Dns | SslTls | ConnectionRefused | Network | Connect | SendFailed | Receive | ResponseTooLarge | UnsupportedFrame

  /** An error raised by the socket or by a conversion: its code and whether its message speaks of TLS. */
  datatype Cause = Cause(code: Option<string>, mentionsTls: bool)

  /** `NoMessage` is the last branch of finish(), kept apart from the close handler's error of the same text. */
  datatype TransportError = TransportError(kind: ErrorKind, code: Option<string>) | NoMessage

  datatype TransportResult = TransportResult(
    message: string, sent: bool, closeCode: Option<int>, closeReason: Option<string>)

  datatype Outcome = Fulfilled(result: TransportResult) | Rejected(error: TransportError)

  datatype Frame = Binary | Text(text: string) | Unreadable(cause: Cause)

  datatype Event =
    | Opened(sendThrows: Option<Cause>)  // the send the handler makes may throw
    | Delivered(frame: Frame)
    | SendDone(error: Option<Cause>)
    | Errored(cause: Cause)
    | Closed(code: int, reason: string)
    | AbortSignal
    | TimerFires

  datatype Config = Config(message: Option<string>, maxResponseBytes: Option<int>)

  datatype Session = Session(
    settled: bool,
    hasOpened: bool,
    sent: bool,
    received: Option<string>,
    closeCode: Option<int>,
    closeReason: Option<string>,
    closeWaitArmed: bool,
    listening: bool,       // the socket's open, message, error and close listeners are attached
    openFired: bool,       // the once listeners that have run
    abortListening: bool,
    sendQueued: bool,      // send() took the callback
    socketReleased: bool,  // close() or terminate() was asked for, or no socket was made
    outcomes: seq<Outcome> // the calls made to resolve and reject
  )

  function Classify(cause: Cause, hasOpened: bool): TransportError {
    if cause.code == Some("ENOTFOUND") || cause.code == Some("EAI_AGAIN") then TransportError(Dns, cause.code)
    else if cause.code == Some("ECONNREFUSED") then TransportError(ConnectionRefused, cause.code)
    else if cause.code == Some("UNABLE_TO_VERIFY_LEAF_SIGNATURE") || cause.code == Some("CERT_HAS_EXPIRED")
         || cause.code == Some("DEPTH_ZERO_SELF_SIGNED_CERT") || cause.mentionsTls
         then TransportError(SslTls, cause.code)
    else TransportError(if hasOpened then Network else Connect, cause.code)
  }

  predicate TooLarge(config: Config, text: string) {
    && config.maxResponseBytes.Some? && config.maxResponseBytes.value > 0
    && ByteLength(text) > config.maxResponseBytes.value
  }

  function Result(s: Session): Outcome {
    if s.received.None? then Rejected(NoMessage)
    else Fulfilled(TransportResult(s.received.value, s.sent, s.closeCode,
                                   if s.closeReason == Some("") then None else s.closeReason))
  }

  function Finish(s: Session, error: Option<TransportError>): Session {
    if s.settled then s
    else s.(settled := true, abortListening := false, closeWaitArmed := false, listening := false,
            socketReleased := true,
            outcomes := s.outcomes + [if error.Some? then Rejected(error.value) else Result(s)])
  }

  function Fail(s: Session, kind: ErrorKind, code: Option<string>): Session {
    Finish(s, Some(TransportError(kind, code)))
  }

  /** The constructor may throw, and the signal may be aborted already. */
  function Start(constructThrows: Option<Cause>, aborted: bool): Session {
    var unstarted := Session(false, false, false, None, None, None, false, false, false, false, false, false, []);
    if constructThrows.Some? then
      unstarted.(socketReleased := true, outcomes := [Rejected(Classify(constructThrows.value, false))])
    else if aborted then Fail(unstarted, Network, Some("ABORTED"))
    else unstarted.(abortListening := true, listening := true)
  }

  function Step(config: Config, s: Session, e: Event): Session {
    match e
    case Opened(sendThrows) =>
      if !s.listening || s.openFired then s
      else
        var o := s.(hasOpened := true, openFired := true);
        if config.message.None? then o
        else if sendThrows.Some? then Fail(o, SendFailed, sendThrows.value.code)
        else o.(sent := true, sendQueued := true)
    case Delivered(frame) =>
      if !s.listening || s.settled || s.received.Some? then s
      else (match frame
            case Binary => Fail(s, UnsupportedFrame, None)
            case Unreadable(cause) => Fail(s, Network, cause.code)
            case Text(text) =>
              if TooLarge(config, text) then Fail(s, ResponseTooLarge, None)
              else s.(received := Some(text), closeWaitArmed := true, socketReleased := true))
    case SendDone(error) =>
      if !s.sendQueued || error.None? || s.received.Some? then s else Fail(s, SendFailed, error.value.code)
    case Errored(cause) =>
      if !s.listening then s else Finish(s, Some(Classify(cause, s.hasOpened)))
    case Closed(code, reason) =>
      if !s.listening then s
      else
        var c := s.(closeCode := Some(code), closeReason := Some(reason));
        if c.received.Some? then Finish(c, None)
        else Fail(c, if c.hasOpened then Receive else Connect, None)
    case AbortSignal =>
      if !s.abortListening then s else Fail(s, Network, Some("ABORTED"))
    case TimerFires =>
      if !s.closeWaitArmed then s else Finish(s.(closeWaitArmed := false), None)
  }

  function Run(config: Config, start: Session, events: seq<Event>): Session {
    if events == [] then start
    else Step(config, Run(config, start, events[..|events| - 1]), events[|events| - 1])
  }

  // ---- The invariant, with the events so far ----

  ghost predicate NoFrameIn(past: seq<Event>) {
    forall j :: 0 <= j < |past| ==> !past[j].Delivered?
  }

  ghost predicate OpenIn(past: seq<Event>) {
    exists j :: 0 <= j < |past| && past[j].Opened?
  }

  /** The first frame of the run, at `k`, is this text. */
  ghost predicate FirstFrameAt(past: seq<Event>, k: nat, text: string) {
    k < |past| && past[k] == Delivered(Text(text)) && NoFrameIn(past[..k])
  }

  ghost predicate Accepted(config: Config, past: seq<Event>, text: string) {
    !TooLarge(config, text) && exists k :: FirstFrameAt(past, k, text)
  }

  /** A fulfilled result: the first frame, and the timer or the close that handed it over at `m`. */
  ghost predicate HandedOverAt(config: Config, past: seq<Event>, m: nat, r: TransportResult) {
    && m < |past| && Accepted(config, past[..m], r.message)
    && (r.sent <==> config.message.Some? && OpenIn(past[..m]))
    && match past[m]
       case TimerFires => r.closeCode == None && r.closeReason == None
       case Closed(code, reason) =>
         r.closeCode == Some(code) && r.closeReason == if reason == "" then None else Some(reason)
       case _ => false
  }

  /** A rejection: the event at `m` that brought it about, and what had happened before it. */
  ghost predicate RejectedAt(config: Config, past: seq<Event>, m: nat, error: TransportError) {
    && m < |past|
    && var before := past[..m];
    match past[m]
    case Opened(sendThrows) =>
      && config.message.Some? && sendThrows.Some? && !OpenIn(before)
      && error == TransportError(SendFailed, sendThrows.value.code)
    case SendDone(failed) =>
      && config.message.Some? && failed.Some? && OpenIn(before) && NoFrameIn(before)
      && error == TransportError(SendFailed, failed.value.code)
    case Delivered(frame) => NoFrameIn(before) && FrameRejected(config, frame, error)
    case Errored(cause) => error == Classify(cause, OpenIn(before))
    case Closed(_, _) => NoFrameIn(before) && error == TransportError(if OpenIn(before) then Receive else Connect, None)
    case AbortSignal => error == TransportError(Network, Some("ABORTED"))
    case TimerFires => false
  }

  ghost predicate FrameRejected(config: Config, frame: Frame, error: TransportError) {
    match frame
    case Binary => error == TransportError(UnsupportedFrame, None)
    case Unreadable(cause) => error == TransportError(Network, cause.code)
    case Text(text) => TooLarge(config, text) && error == TransportError(ResponseTooLarge, None)
  }

  ghost predicate DecidedAt(config: Config, past: seq<Event>, m: nat, outcome: Outcome) {
    match outcome
    case Fulfilled(r) => HandedOverAt(config, past, m, r)
    case Rejected(error) => RejectedAt(config, past, m, error)
  }

  ghost predicate Pending(config: Config, s: Session, past: seq<Event>) {
    && !s.settled && s.listening && s.abortListening && s.closeCode.None? && s.closeReason.None?
    && (s.hasOpened <==> OpenIn(past)) && (s.openFired <==> OpenIn(past))
    && (s.sent <==> config.message.Some? && OpenIn(past)) && s.sendQueued == s.sent
    && (s.closeWaitArmed <==> s.received.Some?)
    && (if s.received.Some? then Accepted(config, past, s.received.value) && s.socketReleased else NoFrameIn(past))
  }

  predicate Cleaned(s: Session) {
    !s.closeWaitArmed && !s.abortListening && !s.listening && s.socketReleased
  }

  /** `begun` is what the session was settled with before any event, if it was. */
  ghost predicate Settled(config: Config, s: Session, past: seq<Event>, begun: seq<Outcome>) {
    && |s.outcomes| == 1 && Cleaned(s) && (s.settled || !s.sendQueued)
    && if begun != [] then s.outcomes == begun else exists m :: DecidedAt(config, past, m, s.outcomes[0])
  }

  ghost predicate Inv(config: Config, s: Session, past: seq<Event>, begun: seq<Outcome>) {
    if s.outcomes == [] then begun == [] && Pending(config, s, past) else Settled(config, s, past, begun)
  }

  lemma DecisionStays(config: Config, past: seq<Event>, e: Event, outcome: Outcome)
    requires exists m :: DecidedAt(config, past, m, outcome)
    ensures exists m :: DecidedAt(config, past + [e], m, outcome)
  {
    var m: nat :| DecidedAt(config, past, m, outcome);
    assert (past + [e])[..m] == past[..m];
    assert DecidedAt(config, past + [e], m, outcome);
  }

  lemma AcceptedStays(config: Config, past: seq<Event>, e: Event, text: string)
    requires Accepted(config, past, text)
    ensures Accepted(config, past + [e], text)
  {
    var k: nat :| FirstFrameAt(past, k, text);
    assert (past + [e])[..k] == past[..k];
    assert FirstFrameAt(past + [e], k, text);
  }

  lemma {:induction false} SettledStays(config: Config, s: Session, past: seq<Event>, e: Event, begun: seq<Outcome>)
    requires Settled(config, s, past, begun)
    ensures Step(config, s, e).outcomes == s.outcomes && Settled(config, Step(config, s, e), past + [e], begun)
  {
    if begun == [] {
      DecisionStays(config, past, e, s.outcomes[0]);
    }
  }

  lemma OpenGrows(past: seq<Event>, e: Event)
    ensures OpenIn(past + [e]) <==> OpenIn(past) || e.Opened?
  {
    var now := past + [e];
    if OpenIn(past) {
      var j :| 0 <= j < |past| && past[j].Opened?;
      assert now[j].Opened?;
    }
    if e.Opened? {
      assert now[|past|].Opened?;
    }
  }

  /** The event that settles a pending session is the one its outcome speaks of. */
  lemma {:induction false} DecidedNow(config: Config, s: Session, past: seq<Event>, e: Event)
    requires Pending(config, s, past) && s.outcomes == []
    requires Step(config, s, e).outcomes != [] && DecidedAt(config, past + [e], |past|, Step(config, s, e).outcomes[0])
    ensures Inv(config, Step(config, s, e), past + [e], [])
  {
  }

  /** A pending session that settles on success hands over what it received. */
  lemma {:induction false} HandsOver(config: Config, s: Session, past: seq<Event>, e: Event)
    requires Pending(config, s, past) && s.outcomes == [] && s.received.Some?
    requires e.Closed? || e.TimerFires?
    ensures Inv(config, Step(config, s, e), past + [e], [])
  {
    assert (past + [e])[..|past|] == past;
    DecidedNow(config, s, past, e);
  }

  lemma {:induction false} FrameKeepsInv(config: Config, s: Session, past: seq<Event>, frame: Frame)
    requires Pending(config, s, past) && s.outcomes == []
    ensures Inv(config, Step(config, s, Delivered(frame)), past + [Delivered(frame)], [])
  {
    var e := Delivered(frame);
    var now := past + [e];
    OpenGrows(past, e);
    assert now[..|past|] == past;
    if s.received.Some? {
      AcceptedStays(config, past, e, s.received.value);
    } else if frame.Text? && !TooLarge(config, frame.text) {
      assert FirstFrameAt(now, |past|, frame.text);
    } else {
      DecidedNow(config, s, past, e);
    }
  }

  lemma {:induction false} StepKeepsInv(config: Config, s: Session, past: seq<Event>, e: Event, begun: seq<Outcome>)
    requires Inv(config, s, past, begun)
    ensures Inv(config, Step(config, s, e), past + [e], begun)
  {
    if s.outcomes != [] {
      SettledStays(config, s, past, e, begun);
    } else if e.Delivered? {
      FrameKeepsInv(config, s, past, e.frame);
    } else if s.received.Some? && (e.Closed? || e.TimerFires?) {
      HandsOver(config, s, past, e);
    } else if e.Opened? || e.SendDone? {
      OpenOrSendKeepsInv(config, s, past, e);
    } else if e.TimerFires? {
      OpenGrows(past, e);
    } else {
      EndsInError(config, s, past, e);
    }
  }

  lemma {:induction false} EndsInError(config: Config, s: Session, past: seq<Event>, e: Event)
    requires Pending(config, s, past) && s.outcomes == []
    requires e.AbortSignal? || e.Errored? || (e.Closed? && s.received.None?)
    ensures Inv(config, Step(config, s, e), past + [e], [])
  {
    assert (past + [e])[..|past|] == past;
    DecidedNow(config, s, past, e);
  }

  lemma {:induction false} OpenOrSendKeepsInv(config: Config, s: Session, past: seq<Event>, e: Event)
    requires Pending(config, s, past) && s.outcomes == [] && (e.Opened? || e.SendDone?)
    ensures Inv(config, Step(config, s, e), past + [e], [])
  {
    OpenGrows(past, e);
    if Step(config, s, e).outcomes != [] {
      assert (past + [e])[..|past|] == past;
      DecidedNow(config, s, past, e);
    } else if s.received.Some? {
      AcceptedStays(config, past, e, s.received.value);
    }
  }

  lemma {:induction false} RunKeepsInv(
      config: Config, constructThrows: Option<Cause>, aborted: bool, events: seq<Event>)
    ensures var start := Start(constructThrows, aborted);
      Inv(config, Run(config, start, events), events, start.outcomes)
  {
    if events != [] {
      var front := events[..|events| - 1];
      RunKeepsInv(config, constructThrows, aborted, front);
      StepKeepsInv(config, Run(config, Start(constructThrows, aborted), front), front, events[|events| - 1],
                   Start(constructThrows, aborted).outcomes);
      assert front + [events[|events| - 1]] == events;
    }
  }

  // ---- What callers rely on ----

  /** However the events fall, the promise is settled at most once and later events leave it as it is. */
  lemma {:induction false} SettlesAtMostOnce(
      config: Config, constructThrows: Option<Cause>, aborted: bool, events: seq<Event>, e: Event)
    ensures var s := Run(config, Start(constructThrows, aborted), events);
      |s.outcomes| <= 1 && s.outcomes <= Step(config, s, e).outcomes && |Step(config, s, e).outcomes| <= 1
  {
    RunKeepsInv(config, constructThrows, aborted, events);
    var s := Run(config, Start(constructThrows, aborted), events);
    StepKeepsInv(config, s, events, e, Start(constructThrows, aborted).outcomes);
    if s.outcomes != [] {
      SettledStays(config, s, events, e, Start(constructThrows, aborted).outcomes);
    }
  }

  /** A fulfilled session reports the first frame delivered, a text within the limit, and how it was handed over. */
  lemma {:induction false} FulfilledIsFirstFrame(
      config: Config, constructThrows: Option<Cause>, aborted: bool, events: seq<Event>)
    requires var s := Run(config, Start(constructThrows, aborted), events); |s.outcomes| > 0 && s.outcomes[0].Fulfilled?
    ensures var s := Run(config, Start(constructThrows, aborted), events);
      exists m :: HandedOverAt(config, events, m, s.outcomes[0].result)
  {
    RunKeepsInv(config, constructThrows, aborted, events);
    var s := Run(config, Start(constructThrows, aborted), events);
    var m: nat :| DecidedAt(config, events, m, s.outcomes[0]);
    assert HandedOverAt(config, events, m, s.outcomes[0].result);
  }

  /** A rejected session names the event that ended it; the error says what had and had not happened by then. */
  lemma {:induction false} RejectionNamesItsEvent(config: Config, events: seq<Event>)
    requires var s := Run(config, Start(None, false), events); |s.outcomes| > 0 && s.outcomes[0].Rejected?
    ensures var s := Run(config, Start(None, false), events);
      exists m :: RejectedAt(config, events, m, s.outcomes[0].error)
  {
    RunKeepsInv(config, None, false, events);
    var s := Run(config, Start(None, false), events);
    var m: nat :| DecidedAt(config, events, m, s.outcomes[0]);
    assert RejectedAt(config, events, m, s.outcomes[0].error);
  }

  /** finish() never reaches the branch for a missing message. */
  lemma {:induction false} NoMessageIsUnreachable(
      config: Config, constructThrows: Option<Cause>, aborted: bool, events: seq<Event>)
    ensures Rejected(NoMessage) !in Run(config, Start(constructThrows, aborted), events).outcomes
  {
    RunKeepsInv(config, constructThrows, aborted, events);
    var s := Run(config, Start(constructThrows, aborted), events);
    assert s.outcomes == [] || s.outcomes == [s.outcomes[0]];
    if s.outcomes != [] && Start(constructThrows, aborted).outcomes == [] {
      var m: nat :| DecidedAt(config, events, m, s.outcomes[0]);
    }
  }

  /** Once settled, no timer, no listener and no socket is left. */
  lemma {:induction false} SettlementCleansUp(
      config: Config, constructThrows: Option<Cause>, aborted: bool, events: seq<Event>)
    ensures var s := Run(config, Start(constructThrows, aborted), events);
      s.outcomes != [] ==> Cleaned(s)
  {
    RunKeepsInv(config, constructThrows, aborted, events);
  }

  /**
   An accepted frame is never stranded: the close timer runs until settlement, and its firing hands the frame over.
   */
  lemma {:induction false} AcceptedFrameSettles(
      config: Config, constructThrows: Option<Cause>, aborted: bool, events: seq<Event>)
    requires var s := Run(config, Start(constructThrows, aborted), events); s.received.Some? && s.outcomes == []
    ensures var s := Run(config, Start(constructThrows, aborted), events);
      && s.closeWaitArmed && s.socketReleased
      && var after := Step(config, s, TimerFires).outcomes;
      |after| == 1 && after[0].Fulfilled? && after[0].result.message == s.received.value
  {
    RunKeepsInv(config, constructThrows, aborted, events);
  }

  /** While it is pending, a session can be ended by the socket or the caller at any moment. */
  lemma {:induction false} PendingCanAlwaysEnd(
      config: Config, constructThrows: Option<Cause>, aborted: bool, events: seq<Event>, e: Event)
    requires e.Closed? || e.Errored? || e.AbortSignal?
    ensures Step(config, Run(config, Start(constructThrows, aborted), events), e).outcomes != []
  {
    RunKeepsInv(config, constructThrows, aborted, events);
  }

  // ---- The session in terms of its events alone ----

  /** Whether a text keeps to the limit, when there is a positive one. */
  predicate WithinLimit(config: Config, text: string) {
    match config.maxResponseBytes
    case None => true
    case Some(n) => n <= 0 || ByteLength(text) <= n
  }

  /** A fulfilled message is no longer than the limit. */
  lemma {:induction false} FulfilledIsWithinLimit(
      config: Config, constructThrows: Option<Cause>, aborted: bool, events: seq<Event>, n: int)
    requires var s := Run(config, Start(constructThrows, aborted), events); |s.outcomes| > 0 && s.outcomes[0].Fulfilled?
    requires config.maxResponseBytes == Some(n) && n > 0
    ensures ByteLength(Run(config, Start(constructThrows, aborted), events).outcomes[0].result.message) <= n
  {
    FulfilledIsFirstFrame(config, constructThrows, aborted, events);
  }

  /** The first frame delivered. */
  function FirstFrame(events: seq<Event>): Option<Frame> {
    if events == [] then None
    else if events[0].Delivered? then Some(events[0].frame)
    else FirstFrame(events[1..])
  }

  lemma {:induction false} FirstFrameMeans(events: seq<Event>)
    ensures FirstFrame(events) == None <==> NoFrameIn(events)
    ensures forall k: nat, text :: FirstFrameAt(events, k, text) ==> FirstFrame(events) == Some(Text(text))
  {
    if events != [] && !events[0].Delivered? {
      FirstFrameMeans(events[1..]);
      forall k: nat, text | FirstFrameAt(events, k, text)
        ensures FirstFrame(events) == Some(Text(text))
      {
        assert events[1..][..k - 1] == events[..k][1..];
        assert FirstFrameAt(events[1..], k - 1, text);
      }
    }
  }

  /** A pending session has received its first frame, if any, which was a text within the limit. */
  lemma {:induction false} PendingReceivedFirst(config: Config, events: seq<Event>)
    requires Run(config, Start(None, false), events).outcomes == []
    ensures match FirstFrame(events)
      case None => Run(config, Start(None, false), events).received == None
      case Some(Text(text)) =>
        WithinLimit(config, text) && Run(config, Start(None, false), events).received == Some(text)
      case _ => false
  {
    RunKeepsInv(config, None, false, events);
    FirstFrameMeans(events);
    var s := Run(config, Start(None, false), events);
    if s.received.Some? {
      var k: nat :| FirstFrameAt(events, k, s.received.value);
    }
  }

  /** How a pending session settles on each event, if it does, in terms of what has happened before. */
  function Reaction(config: Config, before: seq<Event>, e: Event): Option<Outcome> {
    var wasOpen := exists j :: 0 <= j < |before| && before[j].Opened?;
    var first := FirstFrame(before);
    match e
    case Opened(sendThrows) =>
      if !wasOpen && config.message.Some? && sendThrows.Some? then
        Some(Rejected(TransportError(SendFailed, sendThrows.value.code)))
      else None
    case SendDone(error) =>
      if wasOpen && config.message.Some? && error.Some? && first == None then
        Some(Rejected(TransportError(SendFailed, error.value.code)))
      else None
    case Delivered(frame) =>
      if first != None then None
      else (match frame
            case Binary => Some(Rejected(TransportError(UnsupportedFrame, None)))
            case Unreadable(cause) => Some(Rejected(TransportError(Network, cause.code)))
            case Text(text) =>
              if WithinLimit(config, text) then None else Some(Rejected(TransportError(ResponseTooLarge, None))))
    case Errored(cause) => Some(Rejected(TransportError(KindOf(cause, wasOpen), cause.code)))
    case Closed(code, reason) =>
      if first.Some? && first.value.Text? then
        var closeReason := if reason == "" then None else Some(reason);
        Some(Fulfilled(TransportResult(first.value.text, wasOpen && config.message.Some?, Some(code), closeReason)))
      else Some(Rejected(TransportError(if wasOpen then Receive else Connect, None)))
    case AbortSignal => Some(Rejected(TransportError(Network, Some("ABORTED"))))
    case TimerFires =>
      if first.Some? && first.value.Text? then
        Some(Fulfilled(TransportResult(first.value.text, wasOpen && config.message.Some?, None, None)))
      else None
  }

  /** What an error raised by the socket is called. */
  function KindOf(cause: Cause, wasOpen: bool): ErrorKind {
    match cause.code
    case Some("ENOTFOUND") => Dns
    case Some("EAI_AGAIN") => Dns
    case Some("ECONNREFUSED") => ConnectionRefused
    case Some("UNABLE_TO_VERIFY_LEAF_SIGNATURE") => SslTls
    case Some("CERT_HAS_EXPIRED") => SslTls
    case Some("DEPTH_ZERO_SELF_SIGNED_CERT") => SslTls
    case _ => if cause.mentionsTls then SslTls else if wasOpen then Network else Connect
  }

  /** After any events that left it pending, the session settles on the next exactly as `Reaction` says. */
  lemma {:induction false} PendingReacts(config: Config, events: seq<Event>, e: Event)
    requires Run(config, Start(None, false), events).outcomes == []
    ensures Run(config, Start(None, false), events + [e]).outcomes ==
      match Reaction(config, events, e)
      case None => []
      case Some(outcome) => [outcome]
  {
    RunKeepsInv(config, None, false, events);
    PendingReceivedFirst(config, events);
    assert (events + [e])[..|events|] == events;
    StepReacts(config, Run(config, Start(None, false), events), events, e);
  }

  lemma StepReacts(config: Config, s: Session, events: seq<Event>, e: Event)
    requires Pending(config, s, events) && s.outcomes == []
    requires match FirstFrame(events)
      case None => s.received == None
      case Some(Text(text)) => s.received == Some(text)
      case _ => false
    ensures Step(config, s, e).outcomes ==
      match Reaction(config, events, e)
      case None => []
      case Some(outcome) => [outcome]
  {
  }

  /** A constructor that throws, or a signal already aborted, settles the session before any event. */
  lemma BeginsSettled(constructThrows: Option<Cause>, aborted: bool)
    ensures Start(constructThrows, aborted).outcomes ==
      if constructThrows.Some? then
        [Rejected(TransportError(KindOf(constructThrows.value, false), constructThrows.value.code))]
      else if aborted then [Rejected(TransportError(Network, Some("ABORTED")))]
      else []
    ensures var s := Start(constructThrows, aborted);
      constructThrows.None? && !aborted ==> s.listening && s.abortListening && !s.socketReleased
  {
  }

  // ---- The session object ----

  class NodeWebSocketSession {
    const config: Config
    var settled: bool
    var hasOpened: bool
    var sent: bool
    var received: Option<string>
    var closeCode: Option<int>
    var closeReason: Option<string>
    var closeWaitArmed: bool
    var listening: bool
    var openFired: bool
    var abortListening: bool
    var sendQueued: bool
    var socketReleased: bool
    var outcomes: seq<Outcome>

    ghost function View(): Session
      reads this
    {
      Session(settled, hasOpened, sent, received, closeCode, closeReason, closeWaitArmed, listening, openFired,
              abortListening,
              sendQueued, socketReleased, outcomes)
    }

    constructor (config: Config, constructThrows: Option<Cause>, aborted: bool)
      ensures View() == Start(constructThrows, aborted) && this.config == config
    {
      this.config := config;
      settled, hasOpened, sent, received, closeCode, closeReason := false, false, false, None, None, None;
      closeWaitArmed, listening, openFired, abortListening, sendQueued := false, false, false, false, false;
      socketReleased, outcomes := false, [];
      new;
      if constructThrows.Some? {
        socketReleased := true;
        outcomes := [Rejected(Classify(constructThrows.value, false))];
        return;
      }
      if aborted {
        Complete(Some(TransportError(Network, Some("ABORTED"))));
        return;
      }
      abortListening := true;
      listening := true;
    }

    /** finish(): settle once, release everything, then reject or resolve. */
    method Complete(error: Option<TransportError>)
      modifies this
      ensures View() == Finish(old(View()), error)
    {
      if settled {
        return;
      }
      settled := true;
      abortListening := false;
      closeWaitArmed := false;
      listening := false;
      socketReleased := true;
      if error.Some? {
        outcomes := outcomes + [Rejected(error.value)];
        return;
      }
      if received.None? {
        outcomes := outcomes + [Rejected(NoMessage)];
        return;
      }
      var reason := if closeReason == Some("") then None else closeReason;
      outcomes := outcomes + [Fulfilled(TransportResult(received.value, sent, closeCode, reason))];
    }

    method OnOpen(sendThrows: Option<Cause>)
      modifies this
      ensures View() == Step(config, old(View()), Opened(sendThrows))
    {
      if !listening || openFired {
        return;
      }
      openFired := true;
      hasOpened := true;
      if config.message.None? {
        return;
      }
      if sendThrows.Some? {
        Complete(Some(TransportError(SendFailed, sendThrows.value.code)));
        return;
      }
      sendQueued := true;
      sent := true;
    }

    method OnMessage(frame: Frame)
      modifies this
      ensures View() == Step(config, old(View()), Delivered(frame))
    {
      if !listening || settled || received.Some? {
        return;
      }
      match frame {
        case Binary => Complete(Some(TransportError(UnsupportedFrame, None)));
        case Unreadable(cause) => Complete(Some(TransportError(Network, cause.code)));
        case Text(text) =>
          if TooLarge(config, text) {
            Complete(Some(TransportError(ResponseTooLarge, None)));
            return;
          }
          received := Some(text);
          closeWaitArmed := true;
          socketReleased := true;
      }
    }

    method OnSendDone(error: Option<Cause>)
      modifies this
      ensures View() == Step(config, old(View()), SendDone(error))
    {
      if !sendQueued || error.None? || received.Some? {
        return;
      }
      Complete(Some(TransportError(SendFailed, error.value.code)));
    }

    method OnError(cause: Cause)
      modifies this
      ensures View() == Step(config, old(View()), Errored(cause))
    {
      if listening {
        Complete(Some(Classify(cause, hasOpened)));
      }
    }

    method OnClose(code: int, reason: string)
      modifies this
      ensures View() == Step(config, old(View()), Closed(code, reason))
    {
      if !listening {
        return;
      }
      closeCode, closeReason := Some(code), Some(reason);
      if received.Some? {
        Complete(None);
      } else if !hasOpened {
        Complete(Some(TransportError(Connect, None)));
      } else {
        Complete(Some(TransportError(Receive, None)));
      }
    }

    method OnAbort()
      modifies this
      ensures View() == Step(config, old(View()), AbortSignal)
    {
      if abortListening {
        Complete(Some(TransportError(Network, Some("ABORTED"))));
      }
    }

    method OnCloseWait()
      modifies this
      ensures View() == Step(config, old(View()), TimerFires)
    {
      if closeWaitArmed {
        closeWaitArmed := false;
        Complete(None);
      }
    }
  }
}
