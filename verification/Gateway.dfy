/** Session identifiers: how the two ends of one OCPP transaction find each other. */
module SessionIds {

  function Digit(n: nat): char
    requires n < 10
  {
    "0123456789"[n]
  }

  function Digits(n: nat): (s: string)
    ensures s != []
  {
    if n < 10 then [Digit(n)] else Digits(n / 10) + [Digit(n % 10)]
  }

  function Decimal(n: int): (s: string)
    ensures s != []
  {
    if n < 0 then "-" + Digits(-n) else Digits(n)
  }

  lemma DigitIsInjective(a: nat, b: nat)
    requires a < 10 && b < 10 && Digit(a) == Digit(b)
    ensures a == b
  {
  }

  lemma {:induction false} DigitsAreInjective(a: nat, b: nat)
    requires Digits(a) == Digits(b)
    ensures a == b
  {
    var s, t := Digits(a), Digits(b);
    assert s[|s| - 1] == Digit(a % 10) && t[|t| - 1] == Digit(b % 10);
    DigitIsInjective(a % 10, b % 10);
    if a >= 10 && b >= 10 {
      assert s[..|s| - 1] == Digits(a / 10) && t[..|t| - 1] == Digits(b / 10);
      DigitsAreInjective(a / 10, b / 10);
    }
  }

  lemma {:induction false} DigitsAreDigits(n: nat, i: nat)
    requires i < |Digits(n)|
    ensures '0' <= Digits(n)[i] <= '9'
  {
    if n >= 10 && i < |Digits(n / 10)| {
      DigitsAreDigits(n / 10, i);
    }
  }

  lemma DecimalIsInjective(a: int, b: int)
    requires Decimal(a) == Decimal(b)
    ensures a == b
  {
    var x: nat, y: nat := if a < 0 then -a else a, if b < 0 then -b else b;
    DigitsAreDigits(x, 0);
    DigitsAreDigits(y, 0);
    if a < 0 && b < 0 {
      assert Decimal(a)[1..] == Digits(x) && Decimal(b)[1..] == Digits(y);
    }
    assert (a < 0) == (b < 0);
    DigitsAreInjective(x, y);
  }

  /** The number a string of digits stands for. */
  function ReadDigits(s: string): int {
    if s == [] then 0 else 10 * ReadDigits(s[..|s| - 1]) + (s[|s| - 1] as int - '0' as int)
  }

  lemma {:induction false} DigitsReadBack(n: nat)
    ensures ReadDigits(Digits(n)) == n && (n > 0 ==> Digits(n)[0] != '0')
  {
    var s := Digits(n);
    assert s[|s| - 1] as int - '0' as int == n % 10;
    if n < 10 {
      assert s[..0] == [];
    } else {
      assert s[..|s| - 1] == Digits(n / 10);
      DigitsReadBack(n / 10);
    }
  }

  /** Integers are written in decimal, with a minus sign if negative and no leading zeros. */
  lemma DecimalReadsBack(n: int)
    ensures if n < 0 then Decimal(n)[0] == '-' && ReadDigits(Decimal(n)[1..]) == -n && Decimal(n)[1..][..1] != "0"
            else ReadDigits(Decimal(n)) == n && (Decimal(n)[0] == '0' ==> Decimal(n) == "0")
    ensures forall i :: (if n < 0 then 1 else 0) <= i < |Decimal(n)| ==> '0' <= Decimal(n)[i] <= '9'
  {
    hide ReadDigits;
    var m: nat := if n < 0 then -n else n;
    DigitsReadBack(m);
    forall i | 0 <= i < |Digits(m)| ensures '0' <= Digits(m)[i] <= '9' {
      DigitsAreDigits(m, i);
    }
    if n < 0 {
      assert Decimal(n)[1..] == Digits(m);
    }
  }

  lemma DecimalHasNoColon(n: int)
    ensures ':' !in Decimal(n)
  {
    var m: nat := if n < 0 then -n else n;
    forall i | 0 <= i < |Digits(m)| ensures Digits(m)[i] != ':' {
      DigitsAreDigits(m, i);
    }
  }

  function SessionId(chargePointId: string, transactionId: int): string {
    "ocpp16:" + chargePointId + ":" + Decimal(transactionId)
  }

  /** Different transactions have different identifiers, even if charge point names contain colons. */
  lemma SessionIdIsInjective(c: string, t: int, d: string, u: int)
    requires SessionId(c, t) == SessionId(d, u)
    ensures c == d && t == u
  {
    var s, x, y := SessionId(c, t), Decimal(t), Decimal(u);
    DecimalHasNoColon(t);
    DecimalHasNoColon(u);
    if |x| < |y| {
      ColonInside(s, "ocpp16:" + c, x, "ocpp16:" + d, y);
    } else if |y| < |x| {
      ColonInside(s, "ocpp16:" + d, y, "ocpp16:" + c, x);
    }
    assert |x| == |y|;
    assert s[|s| - |x|..] == x && s[|s| - |y|..] == y;
    DecimalIsInjective(t, u);
    assert s[7..|s| - |x| - 1] == c && s[7..|s| - |y| - 1] == d;
  }

  lemma ColonInside(s: string, head: string, short: string, head': string, long: string)
    requires s == head + ":" + short && s == head' + ":" + long && |short| < |long|
    ensures ':' in long
  {
    var at := |s| - |short| - 1;
    assert s[at] == ':';
    assert s[at] == long[at - |head'| - 1];
  }
}

/** The transaction steps of the OCPP gateway. */
module Gateway {
  import opened Prelude
  import opened SessionIds
  import opened Sessions

  datatype Mode = DenyAll | AllowAll

  /** Publishing can also report an error for an event that did get through. */
  datatype PublishOutcome = Delivered | NotDelivered | DeliveredButUnconfirmed

  datatype StartRequest = StartRequest(connectorId: int, idTag: string, meterStart: int, timestamp: Option<int>)
  datatype StopRequest = StopRequest(transactionId: int, idTag: string, meterStop: int, timestamp: Option<int>,
      reason: string)
  datatype MeterValue = MeterValue(registerWh: Option<int>, timestamp: Option<int>)

  datatype StartResult = Accepted(transactionId: int) | Invalid | StartFailed

  /** A transaction as the charge point knows it. */
  datatype Transaction = Transaction(chargePointId: string, transactionId: int)

  function TimestampOr(timestamp: Option<int>, fallback: int): int {
    if timestamp.Some? then timestamp.value else fallback
  }

  function EventOf(siteId: string, chargePointId: string, connectorId: int, transactionId: int, kind: EventType,
                   occurredAt: int, tokenHash: Option<string>, registerWh: Option<int>,
                   stopReason: string): SessionEvent
  {
    SessionEvent(SessionId(chargePointId, transactionId), chargePointId, Decimal(connectorId), siteId, kind,
        occurredAt, 0,
                 if tokenHash.Some? then "RFID" else "UNSPECIFIED", if tokenHash.Some? then tokenHash.value else "", "",
                 registerWh, stopReason, "OCPP_1_6", Decimal(transactionId))
  }

  /** Everything the gateway has done: what it published, and what it told charge points. */
  datatype State = State(counter: int, published: seq<SessionEvent>, accepted: seq<Transaction>,
      stopped: seq<Transaction>)

  // ----- what holds of every state

  ghost predicate Recorded(published: seq<SessionEvent>, t: Transaction, kind: EventType) {
    exists e :: e in published && e.kind == kind && e.sessionId == SessionId(t.chargePointId, t.transactionId)
  }

  /** Nobody was told that a transaction started or stopped before the event saying so was published. */
  ghost predicate Honest(s: State) {
    && (forall i :: 0 <= i < |s.accepted| ==> Recorded(s.published, s.accepted[i], Started))
    && (forall i :: 0 <= i < |s.stopped| ==> Recorded(s.published, s.stopped[i], Stopped))
  }

  ghost predicate IssuedUpTo(e: SessionEvent, counter: int) {
    exists c: string, t: int :: t <= counter && e.sessionId == SessionId(c, t)
  }

  /** Every session was started at most once, by a number no later one reuses. */
  ghost predicate Unambiguous(s: State) {
    && (forall i :: 0 <= i < |s.published| && s.published[i].kind.Started? ==> IssuedUpTo(s.published[i], s.counter))
    && (forall i, j :: 0 <= i < j < |s.published| && s.published[i].kind.Started? && s.published[j].kind.Started? ==>
          s.published[i].sessionId != s.published[j].sessionId)
    && (forall i :: 0 <= i < |s.accepted| ==> s.accepted[i].transactionId <= s.counter)
    && (forall i, j :: 0 <= i < j < |s.accepted| ==> s.accepted[i].transactionId < s.accepted[j].transactionId)
  }

  function Publish(s: State, e: SessionEvent, outcome: PublishOutcome): State {
    if outcome.NotDelivered? then s else s.(published := s.published + [e])
  }

  lemma PublishingKeepsHonest(s: State, e: SessionEvent)
    requires Honest(s)
    ensures Honest(s.(published := s.published + [e]))
  {
    var more := s.published + [e];
    forall t, k | Recorded(s.published, t, k) ensures Recorded(more, t, k) {
      var d :| d in s.published && d.kind == k && d.sessionId == SessionId(t.chargePointId, t.transactionId);
      assert d in more;
    }
  }

  /** Publishing the start of a fresh number keeps sessions unambiguous. */
  lemma FreshStart(s: State, e: SessionEvent, c: string)
    requires Unambiguous(s) && e.sessionId == SessionId(c, s.counter + 1)
    ensures Unambiguous(s.(counter := s.counter + 1))
    ensures Unambiguous(s.(counter := s.counter + 1, published := s.published + [e]))
  {
    var s' := s.(counter := s.counter + 1, published := s.published + [e]);
    forall i | 0 <= i < |s.published| && s.published[i].kind.Started?
      ensures IssuedUpTo(s.published[i], s'.counter) && s.published[i].sessionId != e.sessionId
    {
      var d, t :| t <= s.counter && s.published[i].sessionId == SessionId(d, t);
      if s.published[i].sessionId == e.sessionId {
        SessionIdIsInjective(d, t, c, s.counter + 1);
      }
    }
    assert IssuedUpTo(e, s'.counter);
  }

  lemma OtherEventKeeps(s: State, e: SessionEvent)
    requires Unambiguous(s) && !e.kind.Started?
    ensures Unambiguous(s.(published := s.published + [e]))
  {
  }

  class Handler {
    const mode: Mode
    const siteId: string
    const hash: string -> string
    var state: State

    /** A new process numbers transactions from its start time in seconds; everything published stays. */
    constructor (mode: Mode, siteId: string, hash: string -> string, seconds: int, before: State)
      ensures this.mode == mode && this.siteId == siteId && this.hash == hash
      ensures state == before.(counter := seconds)
    {
      this.mode, this.siteId, this.hash, this.state := mode, siteId, hash, before.(counter := seconds);
    }

    method NextTransactionId() returns (id: int)
      modifies this
      ensures id == old(state).counter + 1 && state == old(state).(counter := id)
    {
      id := state.counter + 1;
      state := state.(counter := id);
    }

    /** Nobody is given a transaction number whose start could not be put on record. */
    method OnStartTransaction(chargePointId: string, request: StartRequest, now: int, outcome: PublishOutcome)
      returns (result: StartResult)
      requires Honest(state)
      modifies this
      ensures Honest(state)
      ensures old(Unambiguous(state)) ==> Unambiguous(state)
      ensures mode == DenyAll ==> result == Invalid && state == old(state)
      ensures mode == AllowAll ==>
                var id := old(state).counter + 1;
                var e := EventOf(siteId, chargePointId, request.connectorId, id, Started,
                    TimestampOr(request.timestamp, now),
                                 Some(hash(request.idTag)), Some(request.meterStart), "");
                && result == (if outcome.Delivered? then Accepted(id) else StartFailed)
                && state == Publish(old(state), e, outcome).(counter := id,
                     accepted := if outcome.Delivered? then old(state).accepted + [Transaction(chargePointId, id)]
                                 else old(state).accepted)
    {
      hide SessionId, Decimal;
      if mode == DenyAll {
        return Invalid;
      }
      ghost var was := state;
      var id := NextTransactionId();
      var e := EventOf(siteId, chargePointId, request.connectorId, id, Started, TimestampOr(request.timestamp, now),
                       Some(hash(request.idTag)), Some(request.meterStart), "");
      PublishingKeepsHonest(was, e);
      if Unambiguous(was) {
        FreshStart(was, e, chargePointId);
      }
      state := Publish(state, e, outcome);
      if !outcome.Delivered? {
        return StartFailed;
      }
      assert e in state.published;
      state := state.(accepted := state.accepted + [Transaction(chargePointId, id)]);
      result := Accepted(id);
    }

    /** A stop is acknowledged only once it is on record. */
    method OnStopTransaction(chargePointId: string, request: StopRequest, now: int,
                             outcome: PublishOutcome) returns (ok: bool)
      requires Honest(state)
      modifies this
      ensures Honest(state) && (ok <==> outcome.Delivered?)
      ensures old(Unambiguous(state)) ==> Unambiguous(state)
      ensures var t := Transaction(chargePointId, request.transactionId);
              var e := StopEvent(siteId, chargePointId, request, TimestampOr(request.timestamp, now), hash);
              state == Publish(old(state), e, outcome).(
                stopped := if ok then old(state).stopped + [t] else old(state).stopped)
    {
      hide SessionId, Decimal;
      ghost var was := state;
      var e := StopEvent(siteId, chargePointId, request, TimestampOr(request.timestamp, now), hash);
      PublishingKeepsHonest(was, e);
      if Unambiguous(was) {
        OtherEventKeeps(was, e);
      }
      state := Publish(state, e, outcome);
      if !outcome.Delivered? {
        return false;
      }
      assert e in state.published;
      state := state.(stopped := state.stopped + [Transaction(chargePointId, request.transactionId)]);
      ok := true;
    }

    /** Every reading with a register becomes an event of its session, if it can be published. */
    method OnMeterValues(chargePointId: string, connectorId: int, transactionId: Option<int>, values: seq<MeterValue>,
                         now: int, outcomes: nat -> PublishOutcome)
      requires Honest(state)
      modifies this
      ensures Honest(state) && (old(Unambiguous(state)) ==> Unambiguous(state))
      ensures state == old(state).(published := old(state).published
                + UpdatesOf(siteId, chargePointId, connectorId, transactionId, values, now, outcomes))
    {
      hide SessionId, Decimal;
      ghost var was := state;
      for n := 0 to |values|
        invariant Honest(state) && (Unambiguous(was) ==> Unambiguous(state))
        invariant state == was.(published := was.published
                    + UpdatesOf(siteId, chargePointId, connectorId, transactionId, values[..n], now, outcomes))
      {
        assert values[..n + 1][..n] == values[..n];
        if transactionId.Some? && values[n].registerWh.Some? {
          var e := EventOf(siteId, chargePointId, connectorId, transactionId.value, Updated,
                           TimestampOr(values[n].timestamp, now), None, values[n].registerWh, "");
          PublishingKeepsHonest(state, e);
          if Unambiguous(state) {
            OtherEventKeeps(state, e);
          }
          state := Publish(state, e, outcomes(n));
        }
      }
      assert values[..|values|] == values;
    }
  }

  /**
   * The events a list of readings amounts to: one for each that has a register, belongs to a
   * transaction and got through.
   */
  function UpdatesOf(siteId: string, chargePointId: string, connectorId: int, transactionId: Option<int>,
                     values: seq<MeterValue>, now: int, outcomes: nat -> PublishOutcome): seq<SessionEvent>
  {
    if values == [] then []
    else
      var n := |values| - 1;
      var init := UpdatesOf(siteId, chargePointId, connectorId, transactionId, values[..n], now, outcomes);
      if transactionId.None? || values[n].registerWh.None? || outcomes(n).NotDelivered? then init
      else init + [EventOf(siteId, chargePointId, connectorId, transactionId.value, Updated,
                           TimestampOr(values[n].timestamp, now), None, values[n].registerWh, "")]
  }

  /** A reading that got through is reflected in the register of its session, however events are delivered later. */
  lemma {:induction false} ReadingCounts(siteId: string, chargePointId: string, connectorId: int, transactionId: int,
                                         values: seq<MeterValue>, now: int, outcomes: nat -> PublishOutcome, n: nat)
    returns (e: SessionEvent)
    requires n < |values| && values[n].registerWh.Some? && !outcomes(n).NotDelivered?
    ensures e in UpdatesOf(siteId, chargePointId, connectorId, Some(transactionId), values, now, outcomes)
    ensures e.sessionId == SessionId(chargePointId, transactionId) && e.kind == Updated
    ensures forall events: seq<SessionEvent> :: e in events ==>
              var last := Fold(NO_BILLING, events).meterLastWh;
              last.Some? && values[n].registerWh.value <= last.value
  {
    var m := |values| - 1;
    if n < m {
      e := ReadingCounts(siteId, chargePointId, connectorId, transactionId, values[..m], now, outcomes, n);
    } else {
      e := EventOf(siteId, chargePointId, connectorId, transactionId, Updated,
                   TimestampOr(values[n].timestamp, now), None, values[n].registerWh, "");
      forall events: seq<SessionEvent> | e in events
        ensures var last := Fold(NO_BILLING, events).meterLastWh;
                last.Some? && values[n].registerWh.value <= last.value
      {
        FoldIsColumnwise(events);
        LargestIsMaximum(events, Register);
      }
    }
  }

  /** A stop carries no connector; zero stands in for it. */
  function StopEvent(siteId: string, chargePointId: string, request: StopRequest, occurredAt: int,
                     hash: string -> string): SessionEvent {
    EventOf(siteId, chargePointId, 0, request.transactionId, Stopped, occurredAt,
            if request.idTag != "" then Some(hash(request.idTag)) else None, Some(request.meterStop), request.reason)
  }

  // ----- runs of the gateway, restarts included

  datatype Event =
    | Start(chargePointId: string, start: StartRequest, now: int, outcome: PublishOutcome)
    | Stop(chargePointId: string, stop: StopRequest, now: int, outcome: PublishOutcome)
    | Meter(chargePointId: string, connectorId: int, transactionId: Option<int>, values: seq<MeterValue>, now: int,
            outcomes: nat -> PublishOutcome)
    | Restart(seconds: int)

  /** The last number issued, or the start time if none was, after running a script. */
  function CounterAfter(mode: Mode, seconds: int, script: seq<Event>): int {
    if script == [] then seconds
    else
      var before, last := CounterAfter(mode, seconds, script[..|script| - 1]), script[|script| - 1];
      if last.Restart? then last.seconds
      else if last.Start? && mode == AllowAll then before + 1
      else before
  }

  /** No process issued more numbers than seconds passed before the next one started. */
  predicate Paced(mode: Mode, seconds: int, script: seq<Event>) {
    forall i :: 0 <= i < |script| && script[i].Restart? ==>
      CounterAfter(mode, seconds, script[..i]) <= script[i].seconds
  }

  /** What one event makes of the gateway's state. */
  function Next(mode: Mode, siteId: string, hash: string -> string, s: State, event: Event): State {
    match event
    case Start(c, request, now, outcome) =>
      if mode == DenyAll then s
      else
        var id := s.counter + 1;
        var e := EventOf(siteId, c, request.connectorId, id, Started, TimestampOr(request.timestamp, now),
                         Some(hash(request.idTag)), Some(request.meterStart), "");
        Publish(s, e, outcome).(counter := id,
          accepted := if outcome.Delivered? then s.accepted + [Transaction(c, id)] else s.accepted)
    case Stop(c, request, now, outcome) =>
      var e := StopEvent(siteId, c, request, TimestampOr(request.timestamp, now), hash);
      var t := Transaction(c, request.transactionId);
      Publish(s, e, outcome).(stopped := if outcome.Delivered? then s.stopped + [t] else s.stopped)
    case Meter(c, connector, transaction, values, now, outcomes) =>
      s.(published := s.published + UpdatesOf(siteId, c, connector, transaction, values, now, outcomes))
    case Restart(seconds) => s.(counter := seconds)
  }

  function StateAfter(mode: Mode, siteId: string, hash: string -> string, seconds: int, script: seq<Event>): State {
    if script == [] then State(seconds, [], [], [])
    else
      Next(mode, siteId, hash, StateAfter(mode, siteId, hash, seconds, script[..|script| - 1]), script[|script| - 1])
  }

  lemma {:induction false} CounterIs(mode: Mode, siteId: string, hash: string -> string, seconds: int,
                                     script: seq<Event>)
    ensures StateAfter(mode, siteId, hash, seconds, script).counter == CounterAfter(mode, seconds, script)
  {
    if script != [] {
      hide EventOf, UpdatesOf;
      CounterIs(mode, siteId, hash, seconds, script[..|script| - 1]);
    }
  }

  lemma StateOfNone(mode: Mode, siteId: string, hash: string -> string, seconds: int, script: seq<Event>)
    ensures StateAfter(mode, siteId, hash, seconds, script[..0]) == State(seconds, [], [], [])
  {
  }

  lemma StateNext(mode: Mode, siteId: string, hash: string -> string, seconds: int, script: seq<Event>, i: nat)
    requires i < |script|
    ensures StateAfter(mode, siteId, hash, seconds, script[..i + 1])
            == Next(mode, siteId, hash, StateAfter(mode, siteId, hash, seconds, script[..i]), script[i])
  {
    hide Next;
    assert script[..i + 1][..i] == script[..i];
  }

  lemma PacedAt(mode: Mode, seconds: int, script: seq<Event>, i: nat)
    requires i < |script| && script[i].Restart?
    ensures Paced(mode, seconds, script) ==> CounterAfter(mode, seconds, script[..i]) <= script[i].seconds
  {
  }

  /** Any sequence of requests, publishing outcomes and restarts. */
  method Run(mode: Mode, siteId: string, hash: string -> string, seconds: int,
             script: seq<Event>) returns (state: State)
    ensures state == StateAfter(mode, siteId, hash, seconds, script)
    ensures Honest(state) && (Paced(mode, seconds, script) ==> Unambiguous(state))
  {
    hide SessionId, Decimal, Honest, Unambiguous, EventOf, UpdatesOf, StateAfter, CounterAfter, Paced;
    var handler := new Handler(mode, siteId, hash, seconds, State(seconds, [], [], []));
    NothingYet(handler.state);
    StateOfNone(mode, siteId, hash, seconds, script);
    for i := 0 to |script|
      invariant fresh(handler) && handler.mode == mode && handler.siteId == siteId && handler.hash == hash
      invariant handler.state == StateAfter(mode, siteId, hash, seconds, script[..i])
      invariant Honest(handler.state) && (Paced(mode, seconds, script) ==> Unambiguous(handler.state))
    {
      StateNext(mode, siteId, hash, seconds, script, i);
      match script[i] {
        case Start(c, request, now, outcome) =>
          var _ := handler.OnStartTransaction(c, request, now, outcome);
        case Stop(c, request, now, outcome) =>
          var _ := handler.OnStopTransaction(c, request, now, outcome);
        case Meter(c, connector, transaction, values, now, outcomes) =>
          handler.OnMeterValues(c, connector, transaction, values, now, outcomes);
        case Restart(restarted) =>
          RestartKeeps(handler.state, restarted);
          CounterIs(mode, siteId, hash, seconds, script[..i]);
          PacedAt(mode, seconds, script, i);
          handler := new Handler(mode, siteId, hash, restarted, handler.state);
      }
    }
    assert script[..|script|] == script;
    state := handler.state;
  }

  lemma NothingYet(s: State)
    requires s.published == [] && s.accepted == [] && s.stopped == []
    ensures Honest(s) && Unambiguous(s)
  {
  }

  lemma RestartKeeps(s: State, seconds: int)
    requires Honest(s)
    ensures Honest(s.(counter := seconds))
    ensures Unambiguous(s) && s.counter <= seconds ==> Unambiguous(s.(counter := seconds))
  {
    if Unambiguous(s) && s.counter <= seconds {
      forall i | 0 <= i < |s.published| && s.published[i].kind.Started? ensures IssuedUpTo(s.published[i], seconds) {
        assert IssuedUpTo(s.published[i], s.counter);
      }
    }
  }

  // ----- the numbers a run issues

  /** The transaction numbers a run issues, in order, accepted or not. */
  function Issued(mode: Mode, seconds: int, script: seq<Event>): seq<int> {
    if script == [] then []
    else
      var init, last := script[..|script| - 1], script[|script| - 1];
      Issued(mode, seconds, init)
      + if last.Start? && mode == AllowAll then [CounterAfter(mode, seconds, init) + 1] else []
  }

  /** When the process now running started. */
  function LifetimeStart(seconds: int, script: seq<Event>): int {
    if script == [] then seconds
    else if script[|script| - 1].Restart? then script[|script| - 1].seconds
    else LifetimeStart(seconds, script[..|script| - 1])
  }

  /** A process issues every number from its start time on. */
  lemma {:induction false} LifetimeIssues(mode: Mode, seconds: int, script: seq<Event>, id: int)
    requires LifetimeStart(seconds, script) < id <= CounterAfter(mode, seconds, script)
    ensures id in Issued(mode, seconds, script)
  {
    var init, last := script[..|script| - 1], script[|script| - 1];
    if id <= CounterAfter(mode, seconds, init) {
      LifetimeIssues(mode, seconds, init, id);
    }
  }

  lemma {:induction false} IssuedGrows(mode: Mode, seconds: int, script: seq<Event>, i: nat)
    requires i <= |script|
    ensures Issued(mode, seconds, script[..i]) <= Issued(mode, seconds, script)
  {
    if i < |script| {
      var last := |script| - 1;
      IssuedGrows(mode, seconds, script[..last], i);
      assert script[..last][..i] == script[..i];
    } else {
      assert script[..i] == script;
    }
  }

  ghost predicate Increasing(ids: seq<int>) {
    forall i, j :: 0 <= i < j < |ids| ==> ids[i] < ids[j]
  }

  ghost predicate Distinct(ids: seq<int>) {
    forall i, j :: 0 <= i < j < |ids| ==> ids[i] != ids[j]
  }

  lemma {:induction false} PacedIncreases(mode: Mode, seconds: int, script: seq<Event>)
    requires Paced(mode, seconds, script)
    ensures var ids := Issued(mode, seconds, script);
            Increasing(ids) && forall i :: 0 <= i < |ids| ==> ids[i] <= CounterAfter(mode, seconds, script)
  {
    if script != [] {
      var last := |script| - 1;
      var init := script[..last];
      forall i | 0 <= i < |init| && init[i].Restart? ensures CounterAfter(mode, seconds, init[..i]) <= init[i].seconds {
        assert init[..i] == script[..i] && init[i] == script[i];
      }
      PacedIncreases(mode, seconds, init);
      assert script[last].Restart? ==> CounterAfter(mode, seconds, init) <= script[last].seconds;
    }
  }

  /** One process: the second it started in, and the last number it issued, or that second. */
  datatype Lifetime = Lifetime(start: int, counter: int)

  predicate Forward(all: seq<Lifetime>) {
    forall i :: 0 <= i < |all| ==> all[i].start <= all[i].counter
  }

  /** The processes of a run, in order. */
  function Lifetimes(mode: Mode, seconds: int, script: seq<Event>): (all: seq<Lifetime>)
    ensures all != [] && Forward(all)
  {
    if script == [] then [Lifetime(seconds, seconds)]
    else
      var before, last := Lifetimes(mode, seconds, script[..|script| - 1]), script[|script| - 1];
      var now := before[|before| - 1];
      if last.Restart? then before + [Lifetime(last.seconds, last.seconds)]
      else if last.Start? && mode == AllowAll then before[..|before| - 1] + [now.(counter := now.counter + 1)]
      else before
  }

  /** The numbers after `start`, up to `counter`. */
  function Counting(start: int, counter: int): seq<int>
    requires start <= counter
  {
    seq(counter - start, i => start + 1 + i)
  }

  function NumbersOf(all: seq<Lifetime>): seq<int>
    requires Forward(all)
  {
    if all == [] then []
    else NumbersOf(all[..|all| - 1]) + Counting(all[|all| - 1].start, all[|all| - 1].counter)
  }

  lemma NumbersSnoc(all: seq<Lifetime>, last: Lifetime)
    requires Forward(all) && last.start <= last.counter
    ensures Forward(all + [last])
    ensures NumbersOf(all + [last]) == NumbersOf(all) + Counting(last.start, last.counter)
  {
    assert (all + [last])[..|all|] == all;
  }

  /** A run issues what its processes do. */
  lemma {:induction false} IssuedByLifetimes(mode: Mode, seconds: int, script: seq<Event>)
    ensures var all := Lifetimes(mode, seconds, script);
            && Issued(mode, seconds, script) == NumbersOf(all)
            && all[|all| - 1] == Lifetime(LifetimeStart(seconds, script), CounterAfter(mode, seconds, script))
  {
    hide NumbersOf, Counting, Forward;
    if script == [] {
      OneProcess(Lifetime(seconds, seconds));
    } else {
      var init, event := script[..|script| - 1], script[|script| - 1];
      IssuedByLifetimes(mode, seconds, init);
      var before := Lifetimes(mode, seconds, init);
      AllButLast(before);
      NumberAdded(before[..|before| - 1], before[|before| - 1]);
      if event.Restart? {
        ProcessAdded(before, event.seconds);
      }
    }
  }

  lemma OneProcess(l: Lifetime)
    requires l.start == l.counter
    ensures Forward([l]) && NumbersOf([l]) == []
  {
    assert [l][..0] == [];
  }

  lemma NumberAdded(first: seq<Lifetime>, now: Lifetime)
    requires Forward(first) && now.start <= now.counter
    ensures Forward(first + [now]) && Forward(first + [now.(counter := now.counter + 1)])
    ensures NumbersOf(first + [now.(counter := now.counter + 1)]) == NumbersOf(first + [now]) + [now.counter + 1]
  {
    hide NumbersOf, Counting, Forward;
    NumbersSnoc(first, now);
    NumbersSnoc(first, now.(counter := now.counter + 1));
    CountingNext(now.start, now.counter);
  }

  lemma ProcessAdded(before: seq<Lifetime>, seconds: int)
    requires Forward(before)
    ensures Forward(before + [Lifetime(seconds, seconds)])
    ensures NumbersOf(before + [Lifetime(seconds, seconds)]) == NumbersOf(before)
  {
    hide NumbersOf, Counting, Forward;
    NumbersSnoc(before, Lifetime(seconds, seconds));
    CountingNext(seconds, seconds);
  }

  lemma AllButLast(all: seq<Lifetime>)
    requires all != [] && Forward(all)
    ensures all == all[..|all| - 1] + [all[|all| - 1]]
    ensures Forward(all[..|all| - 1]) && all[|all| - 1].start <= all[|all| - 1].counter
  {
  }

  lemma CountingNext(start: int, counter: int)
    requires start <= counter
    ensures Counting(start, start) == []
    ensures Counting(start, counter + 1) == Counting(start, counter) + [counter + 1]
  {
  }

  /** The numbers of two processes do not overlap. */
  predicate Apart(a: Lifetime, b: Lifetime) {
    Min(a.counter, b.counter) <= Max(a.start, b.start)
  }

  predicate AllApart(all: seq<Lifetime>) {
    forall i, j :: 0 <= i < j < |all| ==> Apart(all[i], all[j])
  }

  predicate Has(l: Lifetime, id: int) {
    l.start < id <= l.counter
  }

  lemma {:induction false} NumbersHas(all: seq<Lifetime>, id: int)
    requires Forward(all)
    ensures id in NumbersOf(all) <==> exists i :: 0 <= i < |all| && Has(all[i], id)
  {
    if all != [] {
      var init, last := all[..|all| - 1], all[|all| - 1];
      NumbersHas(init, id);
      var ids := Counting(last.start, last.counter);
      if Has(last, id) {
        assert ids[id - last.start - 1] == id;
      }
      if i :| 0 <= i < |init| && Has(init[i], id) {
        assert all[i] == init[i];
      }
      if i :| 0 <= i < |all| && Has(all[i], id) {
        assert i < |init| ==> init[i] == all[i];
      }
    }
  }

  lemma DistinctConcat(a: seq<int>, b: seq<int>)
    ensures Distinct(a + b) <==> Distinct(a) && Distinct(b) && forall id :: !(id in a && id in b)
  {
    var all := a + b;
    if Distinct(all) {
      ApartInConcat(a, b);
    } else {
      var i, j :| 0 <= i < j < |all| && all[i] == all[j];
      assert i < |a| <= j ==> a[i] in a && b[j - |a|] in b && a[i] == b[j - |a|];
      assert |a| <= i ==> b[i - |a|] == b[j - |a|];
    }
  }

  lemma ApartInConcat(a: seq<int>, b: seq<int>)
    requires Distinct(a + b)
    ensures Distinct(a) && Distinct(b) && forall id :: !(id in a && id in b)
  {
    var all := a + b;
    forall i, j | 0 <= i < j < |a| ensures a[i] != a[j] {
      assert all[i] != all[j];
    }
    forall i, j | 0 <= i < j < |b| ensures b[i] != b[j] {
      assert all[|a| + i] != all[|a| + j];
    }
    forall i, j | 0 <= i < |a| && 0 <= j < |b| ensures a[i] != b[j] {
      assert all[i] != all[|a| + j];
    }
  }

  lemma {:induction false} NumbersDistinctIff(all: seq<Lifetime>)
    requires Forward(all)
    ensures Distinct(NumbersOf(all)) <==> AllApart(all)
  {
    if all != [] {
      var init, last := all[..|all| - 1], all[|all| - 1];
      NumbersDistinctIff(init);
      DistinctConcat(NumbersOf(init), Counting(last.start, last.counter));
      LastApartIff(init, last);
      hide NumbersOf, Distinct, Apart;
      assert AllApart(all) <==> AllApart(init) && forall i :: 0 <= i < |init| ==> Apart(init[i], last) by {
        assert all == init + [last];
      }
    }
  }

  lemma LastApartIff(init: seq<Lifetime>, last: Lifetime)
    requires Forward(init) && last.start <= last.counter
    ensures (forall id :: !(id in NumbersOf(init) && id in Counting(last.start, last.counter)))
            <==> forall i :: 0 <= i < |init| ==> Apart(init[i], last)
    ensures Distinct(Counting(last.start, last.counter))
  {
    hide NumbersOf;
    var ids := Counting(last.start, last.counter);
    forall id ensures id in ids <==> Has(last, id) {
      assert Has(last, id) ==> ids[id - last.start - 1] == id;
    }
    forall id ensures id in NumbersOf(init) <==> exists i :: 0 <= i < |init| && Has(init[i], id) {
      NumbersHas(init, id);
    }
    if i :| 0 <= i < |init| && !Apart(init[i], last) {
      var id := Max(init[i].start, last.start) + 1;
      assert Has(init[i], id) && Has(last, id);
    }
  }

  /** Whatever the clock does over restarts: no number is issued twice exactly when no two processes overlap. */
  lemma DistinctIffApart(mode: Mode, seconds: int, script: seq<Event>)
    ensures Distinct(Issued(mode, seconds, script)) <==> AllApart(Lifetimes(mode, seconds, script))
  {
    IssuedByLifetimes(mode, seconds, script);
    NumbersDistinctIff(Lifetimes(mode, seconds, script));
  }

  /** The first number issued after the restart at `i` is issued by the event at `j`. */
  predicate IssuesNext(script: seq<Event>, i: nat, j: nat) {
    && i < j < |script| && script[j].Start?
    && forall k :: i < k < j ==> !script[k].Start? && !script[k].Restart?
  }

  /** The clock does not run backwards over a restart, and no process is restarted before it issued a number. */
  ghost predicate Steady(seconds: int, script: seq<Event>) {
    forall i :: 0 <= i < |script| && script[i].Restart? ==>
      LifetimeStart(seconds, script[..i]) <= script[i].seconds && exists j: nat :: IssuesNext(script, i, j)
  }

  /** The processes of a run never issue a number twice exactly when each kept, on average, to one per second. */
  lemma DistinctIffPaced(seconds: int, script: seq<Event>)
    requires Steady(seconds, script)
    ensures Distinct(Issued(AllowAll, seconds, script)) <==> Paced(AllowAll, seconds, script)
  {
    if Paced(AllowAll, seconds, script) {
      PacedIncreases(AllowAll, seconds, script);
    } else {
      var i :| 0 <= i < |script| && script[i].Restart?
        && CounterAfter(AllowAll, seconds, script[..i]) > script[i].seconds;
      assert LifetimeStart(seconds, script[..i]) <= script[i].seconds;
      RestartRepeats(seconds, script, i);
    }
  }

  lemma RestartRepeats(seconds: int, script: seq<Event>, i: nat)
    requires i < |script| && script[i].Restart? && exists j: nat :: IssuesNext(script, i, j)
    requires LifetimeStart(seconds, script[..i]) <= script[i].seconds < CounterAfter(AllowAll, seconds, script[..i])
    ensures !Distinct(Issued(AllowAll, seconds, script))
  {
    hide Issued, CounterAfter, LifetimeStart;
    var id := script[i].seconds + 1;
    LifetimeIssues(AllowAll, seconds, script[..i], id);
    var before := Issued(AllowAll, seconds, script[..i]);
    var a :| 0 <= a < |before| && before[a] == id;
    var j: nat :| IssuesNext(script, i, j);
    CounterWaits(seconds, script, i, j);
    IssuedAt(seconds, script, j);
    assert script[..j][..i] == script[..i];
    IssuedGrows(AllowAll, seconds, script[..j], i);
    IssuedGrows(AllowAll, seconds, script, j);
  }

  lemma {:induction false} CounterWaits(seconds: int, script: seq<Event>, i: nat, j: nat)
    requires i < j <= |script| && script[i].Restart?
    requires forall k :: i < k < j ==> !script[k].Start? && !script[k].Restart?
    ensures CounterAfter(AllowAll, seconds, script[..j]) == script[i].seconds
  {
    assert script[..j][..j - 1] == script[..j - 1];
    if i < j - 1 {
      CounterWaits(seconds, script, i, j - 1);
    }
  }

  lemma IssuedAt(seconds: int, script: seq<Event>, j: nat)
    requires j < |script| && script[j].Start?
    ensures var n, ids := |Issued(AllowAll, seconds, script[..j])|, Issued(AllowAll, seconds, script);
            n < |ids| && ids[n] == CounterAfter(AllowAll, seconds, script[..j]) + 1
  {
    IssuedGrows(AllowAll, seconds, script, j + 1);
    assert script[..j + 1][..j] == script[..j];
  }

  /**
   * Two starts within a second of a process started at 1000, a restart at 1001, and the next start
   * repeats number 1002.
   */
  lemma NumbersCanRepeat(start: Event)
    requires start.Start?
    ensures var script := [start, start, Restart(1001), start];
            Issued(AllowAll, 1000, script) == [1001, 1002, 1002] && !Paced(AllowAll, 1000, script)
  {
    var two, three := [] + [start] + [start], [] + [start] + [start] + [Restart(1001)];
    assert [start, start, Restart(1001), start] == three + [start] && two == [start, start] == (three + [start])[..2];
    IssuedSnoc(1000, [], start);
    IssuedSnoc(1000, [] + [start], start);
    IssuedSnoc(1000, two, Restart(1001));
    IssuedSnoc(1000, three, start);
    assert (three + [start])[2].Restart?;
  }

  lemma IssuedSnoc(seconds: int, script: seq<Event>, event: Event)
    ensures var counter, ids := CounterAfter(AllowAll, seconds, script), Issued(AllowAll, seconds, script);
            && CounterAfter(AllowAll, seconds, script + [event])
               == (if event.Restart? then event.seconds else if event.Start? then counter + 1 else counter)
            && Issued(AllowAll, seconds, script + [event]) == ids + if event.Start? then [counter + 1] else []
  {
    assert (script + [event])[..|script|] == script;
  }

  // ----- what this means for the bill

  /**
   * A session of an unambiguous run has one opening, so delivery order cannot decide when it began
   * or at what reading.
   */
  lemma StartsAgree(s: State, sessionId: string)
    requires Unambiguous(s)
    ensures Agree(OfSession(s.published, sessionId), StartTime)
    ensures Agree(OfSession(s.published, sessionId), StartRegister)
  {
    var mine := OfSession(s.published, sessionId);
    forall d, e | d in mine && e in mine && d.kind.Started? && e.kind.Started? ensures d == e {
      OfSessionMembers(s.published, sessionId, d);
      OfSessionMembers(s.published, sessionId, e);
      OneOpening(s, d, e);
    }
  }

  lemma OneOpening(s: State, d: SessionEvent, e: SessionEvent)
    requires Unambiguous(s) && d in s.published && e in s.published && d.kind.Started? && e.kind.Started?
    requires d.sessionId == e.sessionId
    ensures d == e
  {
    var i :| 0 <= i < |s.published| && s.published[i] == d;
    var j :| 0 <= j < |s.published| && s.published[j] == e;
  }

  /** So the bill of such a session is safe from delivery order exactly when the stops published for it agree. */
  lemma BillDependsOnStopsOnly(s: State, sessionId: string)
    requires Unambiguous(s)
    ensures var mine := OfSession(s.published, sessionId);
            OrderIndependent(mine) <==> Agree(mine, StopTime) && Agree(mine, StopRegister)
  {
    StartsAgree(s, sessionId);
    OrderIndependentIff(OfSession(s.published, sessionId));
  }

  // ----- from the requests to the bill

  /** What every event of a transaction says about where it comes from. */
  ghost predicate Concerns(e: SessionEvent, siteId: string, chargePointId: string, transactionId: int) {
    && e.sessionId == SessionId(chargePointId, transactionId) && e.stationId == chargePointId && e.siteId == siteId
    && e.transactionReference == Decimal(transactionId) && e.sourceProtocol == "OCPP_1_6" && e.authorizationRef == ""
  }

  /** A charge point's own time, or that of the gateway if it sent none. */
  ghost predicate AtTime(time: int, timestamp: Option<int>, now: int) {
    match timestamp case Some(t) => time == t case None => time == now
  }

  /** `e` reports the start that was given number `id`. */
  ghost predicate ReportsStart(e: SessionEvent, event: Event, id: int, siteId: string, hash: string -> string) {
    && event.Start? && !event.outcome.NotDelivered? && Concerns(e, siteId, event.chargePointId, id) && e.kind.Started?
    && AtTime(e.occurredAt, event.start.timestamp, event.now) && e.energyRegisterWh == Some(event.start.meterStart)
    && e.connectorId == Decimal(event.start.connectorId) && e.tokenType == "RFID"
    && e.tokenHash == hash(event.start.idTag) && e.stopReason == ""
  }

  ghost predicate ReportsStop(e: SessionEvent, event: Event, siteId: string, hash: string -> string) {
    && event.Stop? && !event.outcome.NotDelivered?
    && Concerns(e, siteId, event.chargePointId, event.stop.transactionId) && e.kind.Stopped?
    && AtTime(e.occurredAt, event.stop.timestamp, event.now) && e.energyRegisterWh == Some(event.stop.meterStop)
    && e.connectorId == "0" && e.stopReason == event.stop.reason
    && (if event.stop.idTag == "" then e.tokenType == "UNSPECIFIED" && e.tokenHash == ""
        else e.tokenType == "RFID" && e.tokenHash == hash(event.stop.idTag))
  }

  ghost predicate ReportsReading(e: SessionEvent, event: Event, n: nat, siteId: string) {
    && event.Meter? && n < |event.values| && event.transactionId.Some? && !event.outcomes(n).NotDelivered?
    && Concerns(e, siteId, event.chargePointId, event.transactionId.value) && e.kind.Updated?
    && AtTime(e.occurredAt, event.values[n].timestamp, event.now)
    && e.energyRegisterWh == event.values[n].registerWh && e.energyRegisterWh.Some?
    && e.connectorId == Decimal(event.connectorId) && e.stopReason == ""
    && e.tokenType == "UNSPECIFIED" && e.tokenHash == ""
  }

  ghost predicate Reports(e: SessionEvent, event: Event, id: int, siteId: string, hash: string -> string) {
    || ReportsStart(e, event, id, siteId, hash)
    || ReportsStop(e, event, siteId, hash)
    || exists n :: ReportsReading(e, event, n, siteId)
  }

  /** `e` reports some request of the script. */
  ghost predicate Reported(e: SessionEvent, script: seq<Event>, seconds: int, siteId: string, hash: string -> string) {
    exists k :: 0 <= k < |script| && Reports(e, script[k], NumberAt(seconds, script, k), siteId, hash)
  }

  /** The number a start at position `k` is given. */
  function NumberAt(seconds: int, script: seq<Event>, k: nat): int
    requires k <= |script|
  {
    CounterAfter(AllowAll, seconds, script[..k]) + 1
  }

  lemma EventReports(siteId: string, hash: string -> string, event: Event, id: int)
    ensures event.Start? && !event.outcome.NotDelivered? ==>
              ReportsStart(EventOf(siteId, event.chargePointId, event.start.connectorId, id, Started,
                                   TimestampOr(event.start.timestamp, event.now), Some(hash(event.start.idTag)),
                                   Some(event.start.meterStart), ""), event, id, siteId, hash)
    ensures event.Stop? && !event.outcome.NotDelivered? ==>
              ReportsStop(StopEvent(siteId, event.chargePointId, event.stop,
                                    TimestampOr(event.stop.timestamp, event.now), hash), event, siteId, hash)
  {
    hide SessionId;
    assert Decimal(0) == "0";
  }

  lemma {:induction false} UpdatesReport(siteId: string, event: Event, m: nat)
    requires event.Meter? && m <= |event.values|
    ensures forall e :: e in UpdatesOf(siteId, event.chargePointId, event.connectorId, event.transactionId,
                                       event.values[..m], event.now, event.outcomes) ==>
              exists n :: ReportsReading(e, event, n, siteId)
  {
    if m > 0 {
      UpdatesReport(siteId, event, m - 1);
      assert event.values[..m][..m - 1] == event.values[..m - 1];
      hide SessionId, Decimal;
      if event.transactionId.Some? {
        var value := event.values[m - 1];
        var e := EventOf(siteId, event.chargePointId, event.connectorId, event.transactionId.value, Updated,
                         TimestampOr(value.timestamp, event.now), None, value.registerWh, "");
        assert value.registerWh.Some? && !event.outcomes(m - 1).NotDelivered? ==>
            ReportsReading(e, event, m - 1, siteId);
      }
    }
  }

  /** What one event of a script adds to what is published reports that event. */
  lemma NextReports(siteId: string, hash: string -> string, s: State, event: Event)
    ensures var after := Next(AllowAll, siteId, hash, s, event).published;
            && s.published <= after
            && forall e :: e in after[|s.published|..] ==> Reports(e, event, s.counter + 1, siteId, hash)
    ensures (event.Start? || event.Stop?) && !event.outcome.NotDelivered? ==>
              |Next(AllowAll, siteId, hash, s, event).published| == |s.published| + 1
  {
    hide SessionId, Decimal, UpdatesOf, EventOf, StopEvent, ReportsStart, ReportsStop, ReportsReading;
    EventReports(siteId, hash, event, s.counter + 1);
    if event.Meter? {
      assert event.values[..|event.values|] == event.values;
      UpdatesReport(siteId, event, |event.values|);
    }
  }

  /** Everything published reports a request, and every start and stop that got through is reported. */
  lemma {:induction false} PublishedIsReported(siteId: string, hash: string -> string, seconds: int, script: seq<Event>)
    ensures forall e :: e in StateAfter(AllowAll, siteId, hash, seconds, script).published ==>
              Reported(e, script, seconds, siteId, hash)
  {
    if script != [] {
      var m := |script| - 1;
      var s := StateAfter(AllowAll, siteId, hash, seconds, script[..m]);
      PublishedIsReported(siteId, hash, seconds, script[..m]);
      CounterIs(AllowAll, siteId, hash, seconds, script[..m]);
      NextReports(siteId, hash, s, script[m]);
      hide Next, Reports, CounterAfter;
      var after := StateAfter(AllowAll, siteId, hash, seconds, script).published;
      forall e | e in after ensures Reported(e, script, seconds, siteId, hash) {
        if e in s.published {
          ReportedLater(e, script, m, seconds, siteId, hash);
        } else {
          assert after == s.published + after[|s.published|..];
          assert Reports(e, script[m], NumberAt(seconds, script, m), siteId, hash);
        }
      }
    }
  }

  lemma ReportedLater(e: SessionEvent, script: seq<Event>, m: nat, seconds: int, siteId: string, hash: string -> string)
    requires m <= |script| && Reported(e, script[..m], seconds, siteId, hash)
    ensures Reported(e, script, seconds, siteId, hash)
  {
    hide Reports, CounterAfter;
    var k :| 0 <= k < m && Reports(e, script[..m][k], NumberAt(seconds, script[..m], k), siteId, hash);
    assert script[..m][..k] == script[..k];
  }

  lemma {:induction false} PublishedGrows(siteId: string, hash: string -> string, seconds: int, script: seq<Event>,
                                          k: nat)
    requires k <= |script|
    ensures StateAfter(AllowAll, siteId, hash, seconds, script[..k]).published
            <= StateAfter(AllowAll, siteId, hash, seconds, script).published
  {
    var m := |script| - 1;
    if k == |script| {
      assert script[..k] == script;
    } else {
      PublishedGrows(siteId, hash, seconds, script[..m], k);
      assert script[..m][..k] == script[..k];
      NextReports(siteId, hash, StateAfter(AllowAll, siteId, hash, seconds, script[..m]), script[m]);
      hide Next, Reports;
    }
  }

  lemma RequestIsReported(siteId: string, hash: string -> string, seconds: int, script: seq<Event>, k: nat)
    returns (e: SessionEvent)
    requires k < |script| && (script[k].Start? || script[k].Stop?) && !script[k].outcome.NotDelivered?
    ensures e in StateAfter(AllowAll, siteId, hash, seconds, script).published
    ensures Reports(e, script[k], NumberAt(seconds, script, k), siteId, hash)
  {
    hide Next, Reports, CounterAfter, StateAfter;
    var s := StateAfter(AllowAll, siteId, hash, seconds, script[..k]);
    CounterIs(AllowAll, siteId, hash, seconds, script[..k]);
    NextReports(siteId, hash, s, script[k]);
    StateNext(AllowAll, siteId, hash, seconds, script, k);
    PublishedGrows(siteId, hash, seconds, script, k + 1);
    var after := StateAfter(AllowAll, siteId, hash, seconds, script[..k + 1]).published;
    e := after[|s.published|];
    assert e in after[|s.published|..];
  }

  /** The start at `i` got through. */
  predicate StartsAt(script: seq<Event>, i: nat) {
    i < |script| && script[i].Start? && !script[i].outcome.NotDelivered?
  }

  /** A stop of this transaction got through at `k`. */
  predicate StopsAt(script: seq<Event>, k: nat, chargePointId: string, id: int) {
    && k < |script| && script[k].Stop? && !script[k].outcome.NotDelivered?
    && script[k].chargePointId == chargePointId && script[k].stop.transactionId == id
  }

  /** What is known of an event of a session whose opening event is `opening`. */
  ghost predicate Belongs(e: SessionEvent, opening: SessionEvent, script: seq<Event>, id: int, siteId: string,
                          hash: string -> string)
  {
    && Concerns(e, siteId, opening.stationId, id)
    && (e.kind.Started? ==> e == opening)
    && (e.kind.Updated? ==> e.tokenType == "UNSPECIFIED" && e.tokenHash == "" && e.stopReason == "")
    && (e.kind.Stopped? ==>
          exists k: nat :: StopsAt(script, k, opening.stationId, id) && ReportsStop(e, script[k], siteId, hash))
  }

  lemma ReportBelongs(e: SessionEvent, opening: SessionEvent, script: seq<Event>, seconds: int, id: int, siteId: string,
                      hash: string -> string)
    requires Reported(e, script, seconds, siteId, hash) && e.sessionId == opening.sessionId
    requires Concerns(opening, siteId, opening.stationId, id) && (e.kind.Started? ==> e == opening)
    ensures Belongs(e, opening, script, id, siteId, hash)
  {
    hide SessionId, Decimal, CounterAfter, AtTime;
    var k :| 0 <= k < |script| && Reports(e, script[k], NumberAt(seconds, script, k), siteId, hash);
    var event := script[k];
    var number := if event.Start? then NumberAt(seconds, script, k)
                  else if event.Stop? then event.stop.transactionId
                  else event.transactionId.value;
    SessionIdIsInjective(event.chargePointId, number, opening.stationId, id);
    assert e.kind.Stopped? ==> StopsAt(script, k, opening.stationId, id);
  }

  /** These events are, as far as the session is concerned, what the gateway published, in any order and repetition. */
  ghost predicate Delivers(events: seq<SessionEvent>, published: seq<SessionEvent>, sessionId: string) {
    forall e: SessionEvent :: e.sessionId == sessionId ==> (e in events <==> e in published)
  }

  /** The row the events of a session make, and what every one of them is. */
  lemma SessionOf(siteId: string, hash: string -> string, seconds: int, script: seq<Event>, i: nat,
                  events: seq<SessionEvent>) returns (opening: SessionEvent)
    requires StartsAt(script, i) && Unambiguous(StateAfter(AllowAll, siteId, hash, seconds, script))
    requires Delivers(events, StateAfter(AllowAll, siteId, hash, seconds, script).published,
                      SessionId(script[i].chargePointId, NumberAt(seconds, script, i)))
    ensures ReportsStart(opening, script[i], NumberAt(seconds, script, i), siteId, hash)
    ensures var mine := OfSession(events, opening.sessionId);
            && opening in mine
            && forall e :: e in mine ==> Belongs(e, opening, script, NumberAt(seconds, script, i), siteId, hash)
  {
    hide SessionId, Decimal, CounterAfter, StateAfter, AtTime, OfSession, Unambiguous, Reported, Belongs;
    var s := StateAfter(AllowAll, siteId, hash, seconds, script);
    opening := RequestIsReported(siteId, hash, seconds, script, i);
    PublishedIsReported(siteId, hash, seconds, script);
    OfSessionMembers(events, opening.sessionId, opening);
    forall e | e in OfSession(events, opening.sessionId)
      ensures Belongs(e, opening, script, NumberAt(seconds, script, i), siteId, hash)
    {
      OfSessionMembers(events, opening.sessionId, e);
      if e.kind.Started? {
        OneOpening(s, e, opening);
      }
      ReportBelongs(e, opening, script, seconds, NumberAt(seconds, script, i), siteId, hash);
    }
  }

  /** A row with what the start request said. */
  ghost predicate ShowsStart(row: Row, start: Event, id: int, siteId: string)
    requires start.Start?
  {
    && row.billing.startedAt.Some? && AtTime(row.billing.startedAt.value, start.start.timestamp, start.now)
    && row.billing.meterStartWh == Some(start.start.meterStart)
    && row.stationId == start.chargePointId && row.siteId == siteId && row.transactionReference == Decimal(id)
    && row.sourceProtocol == "OCPP_1_6" && row.tokenType == "RFID"
  }

  /** A row with what the stop request said, and the energy between the two readings. */
  ghost predicate ShowsStop(row: Row, start: Event, stop: Event)
    requires start.Start? && stop.Stop?
  {
    var energy := EnergyWh(row.billing);
    && row.billing.stoppedAt.Some? && AtTime(row.billing.stoppedAt.value, stop.stop.timestamp, stop.now)
    && row.billing.meterStopWh == Some(stop.stop.meterStop)
    && energy.Some? && start.start.meterStart + energy.value == Max(start.start.meterStart, stop.stop.meterStop)
  }

  lemma RowOf(events: seq<SessionEvent>, sessionId: string) returns (row: Row)
    requires OfSession(events, sessionId) != []
    ensures var sessions := ApplyAll(EMPTY_TABLES, events).sessions;
            sessionId in sessions && row == sessions[sessionId]
    ensures Described(row, OfSession(events, sessionId))
    ensures var mine := OfSession(events, sessionId);
            row.billing == Billing(First(mine, StartTime), First(mine, StopTime), First(mine, StartRegister),
                                   Largest(mine, Register), First(mine, StopRegister))
  {
    hide ApplyAll, OfSession, Fold, Described;
    ProjectionIsFold(events, sessionId);
    RowIsLastNamed(events, sessionId);
    FoldIsColumnwise(OfSession(events, sessionId));
    row := ApplyAll(EMPTY_TABLES, events).sessions[sessionId];
  }

  /** What a run without ambiguous sessions published for the start at `i` is delivered, in any order and repetition. */
  ghost predicate Arrives(siteId: string, hash: string -> string, seconds: int, script: seq<Event>, i: nat,
                          events: seq<SessionEvent>)
  {
    var s := StateAfter(AllowAll, siteId, hash, seconds, script);
    && StartsAt(script, i) && Unambiguous(s)
    && Delivers(events, s.published, SessionId(script[i].chargePointId, NumberAt(seconds, script, i)))
  }

  /**
   * A session's row has the time and reading of its start request, and the charge point, site,
   * number and kind of token it was opened with.
   */
  lemma SessionShowsStart(siteId: string, hash: string -> string, seconds: int, script: seq<Event>, i: nat,
                          events: seq<SessionEvent>)
    requires Arrives(siteId, hash, seconds, script, i, events)
    ensures var start, id := script[i], NumberAt(seconds, script, i);
            var sessions, sessionId := ApplyAll(EMPTY_TABLES, events).sessions, SessionId(start.chargePointId, id);
            sessionId in sessions && ShowsStart(sessions[sessionId], start, id, siteId)
  {
    hide SessionId, Decimal, CounterAfter, StateAfter, AtTime, OfSession, Unambiguous, ApplyAll, First, Largest,
      LastNamed, StopsAt;
    var opening := SessionOf(siteId, hash, seconds, script, i, events);
    var row := RowOf(events, opening.sessionId);
    var mine := OfSession(events, opening.sessionId);
    FirstOfSame(mine, StartTime, opening);
    FirstOfSame(mine, StartRegister, opening);
    LastNamedSame(mine, StationOf, "", opening);
    LastNamedSame(mine, SiteOf, "", opening);
    LastNamedSame(mine, ReferenceOf, "", opening);
    LastNamedSame(mine, ProtocolOf, "", opening);
    LastNamedSame(mine, TokenTypeOf, "UNSPECIFIED", opening);
  }

  /** Its token is that of the start, unless a stop named another. */
  lemma SessionShowsToken(siteId: string, hash: string -> string, seconds: int, script: seq<Event>, i: nat,
                          events: seq<SessionEvent>)
    requires Arrives(siteId, hash, seconds, script, i, events)
    requires forall k: nat :: StopsAt(script, k, script[i].chargePointId, NumberAt(seconds, script, i)) ==>
               script[k].stop.idTag == "" || script[k].stop.idTag == script[i].start.idTag
    ensures var sessions := ApplyAll(EMPTY_TABLES, events).sessions;
            var sessionId := SessionId(script[i].chargePointId, NumberAt(seconds, script, i));
            sessionId in sessions && sessions[sessionId].tokenHash == hash(script[i].start.idTag)
  {
    hide SessionId, Decimal, CounterAfter, StateAfter, AtTime, OfSession, Unambiguous, ApplyAll, First, Largest,
      LastNamed;
    var opening := SessionOf(siteId, hash, seconds, script, i, events);
    var row := RowOf(events, opening.sessionId);
    LastNamedSame(OfSession(events, opening.sessionId), TokenHashOf, "", opening);
  }

  /** It is open exactly as long as no stop of its transaction got through. */
  lemma SessionIsOpenIff(siteId: string, hash: string -> string, seconds: int, script: seq<Event>, i: nat,
                         events: seq<SessionEvent>)
    requires Arrives(siteId, hash, seconds, script, i, events)
    ensures var start, id := script[i], NumberAt(seconds, script, i);
            var sessions, sessionId := ApplyAll(EMPTY_TABLES, events).sessions, SessionId(start.chargePointId, id);
            && sessionId in sessions
            && (Open(sessions[sessionId].billing) <==> forall k: nat :: !StopsAt(script, k, start.chargePointId, id))
  {
    hide SessionId, Decimal, CounterAfter, StateAfter, AtTime, OfSession, Unambiguous, ApplyAll, First, Largest,
      LastNamed;
    var opening := SessionOf(siteId, hash, seconds, script, i, events);
    var row := RowOf(events, opening.sessionId);
    FirstIsSome(OfSession(events, opening.sessionId), StopTime);
    if k: nat :| StopsAt(script, k, script[i].chargePointId, NumberAt(seconds, script, i)) {
      var closing := StopArrives(siteId, hash, seconds, script, i, k, events);
    }
  }

  /** A stop of the session that got through is among its events. */
  lemma StopArrives(siteId: string, hash: string -> string, seconds: int, script: seq<Event>, i: nat, k: nat,
                    events: seq<SessionEvent>) returns (closing: SessionEvent)
    requires Arrives(siteId, hash, seconds, script, i, events)
    requires StopsAt(script, k, script[i].chargePointId, NumberAt(seconds, script, i))
    ensures ReportsStop(closing, script[k], siteId, hash)
    ensures closing in OfSession(events, SessionId(script[i].chargePointId, NumberAt(seconds, script, i)))
  {
    hide SessionId, Decimal, CounterAfter, StateAfter, AtTime, OfSession, Unambiguous;
    closing := RequestIsReported(siteId, hash, seconds, script, k);
    OfSessionMembers(events, closing.sessionId, closing);
  }

  /** Two stops say the same of when and at what reading charging ended. */
  ghost predicate SameEnd(a: Event, b: Event)
    requires a.Stop? && b.Stop?
  {
    && a.stop.meterStop == b.stop.meterStop
    && forall t :: AtTime(t, a.stop.timestamp, a.now) ==> AtTime(t, b.stop.timestamp, b.now)
  }

  /**
   * Once stopped, it has the time and reading of the stop request, and bills what the meter
   * advanced by between the two requests. Repeated stops have to agree, or the first to arrive counts.
   */
  lemma SessionShowsStop(siteId: string, hash: string -> string, seconds: int, script: seq<Event>, i: nat, j: nat,
                         events: seq<SessionEvent>)
    requires Arrives(siteId, hash, seconds, script, i, events)
    requires StopsAt(script, j, script[i].chargePointId, NumberAt(seconds, script, i))
    requires forall k: nat :: StopsAt(script, k, script[i].chargePointId, NumberAt(seconds, script, i)) ==>
               SameEnd(script[k], script[j])
    ensures var start, id := script[i], NumberAt(seconds, script, i);
            var sessions, sessionId := ApplyAll(EMPTY_TABLES, events).sessions, SessionId(start.chargePointId, id);
            sessionId in sessions && ShowsStop(sessions[sessionId], start, script[j])
  {
    hide SessionId, Decimal, CounterAfter, StateAfter, OfSession, Unambiguous, ApplyAll, First, Largest, LastNamed,
      Described;
    var opening := SessionOf(siteId, hash, seconds, script, i, events);
    var closing := StopArrives(siteId, hash, seconds, script, i, j, events);
    var row := RowOf(events, opening.sessionId);
    var mine := OfSession(events, opening.sessionId);
    FirstOfSame(mine, StartRegister, opening);
    FirstOfSame(mine, StopTime, closing);
    FirstOfSame(mine, StopRegister, closing);
  }

  /** The reason shown is that of the stops, if they give the same one. */
  lemma SessionShowsReason(siteId: string, hash: string -> string, seconds: int, script: seq<Event>, i: nat, j: nat,
                           events: seq<SessionEvent>)
    requires Arrives(siteId, hash, seconds, script, i, events)
    requires StopsAt(script, j, script[i].chargePointId, NumberAt(seconds, script, i))
    requires forall k: nat :: StopsAt(script, k, script[i].chargePointId, NumberAt(seconds, script, i)) ==>
               script[k].stop.reason == script[j].stop.reason
    ensures var sessions := ApplyAll(EMPTY_TABLES, events).sessions;
            var sessionId := SessionId(script[i].chargePointId, NumberAt(seconds, script, i));
            sessionId in sessions && sessions[sessionId].stopReason == script[j].stop.reason
  {
    hide SessionId, Decimal, CounterAfter, StateAfter, AtTime, OfSession, Unambiguous, ApplyAll, First, Largest,
      LastNamed;
    var opening := SessionOf(siteId, hash, seconds, script, i, events);
    var closing := StopArrives(siteId, hash, seconds, script, i, j, events);
    var row := RowOf(events, opening.sessionId);
    LastNamedSame(OfSession(events, opening.sessionId), StopReasonOf, "", closing);
  }

  /** What every event of the gateway has: a connector, which for a stop is zero. */
  predicate FromGateway(e: SessionEvent) {
    e.connectorId != "" && (e.kind.Stopped? ==> e.connectorId == "0")
  }

  ghost predicate AllFromGateway(events: seq<SessionEvent>) {
    forall e :: e in events ==> FromGateway(e)
  }

  lemma {:induction false} PublishedFromGateway(mode: Mode, siteId: string, hash: string -> string, seconds: int,
                                                script: seq<Event>)
    ensures AllFromGateway(StateAfter(mode, siteId, hash, seconds, script).published)
  {
    hide UpdatesOf, SessionId;
    if script != [] {
      var last := script[|script| - 1];
      PublishedFromGateway(mode, siteId, hash, seconds, script[..|script| - 1]);
      assert Decimal(0) == "0";
      if last.Meter? {
        UpdatesFromGateway(siteId, last.chargePointId, last.connectorId, last.transactionId, last.values, last.now,
            last.outcomes);
      }
    }
  }

  lemma {:induction false} UpdatesFromGateway(siteId: string, chargePointId: string, connectorId: int,
                                              transactionId: Option<int>,
                                              values: seq<MeterValue>, now: int, outcomes: nat -> PublishOutcome)
    ensures AllFromGateway(UpdatesOf(siteId, chargePointId, connectorId, transactionId, values, now, outcomes))
  {
    hide SessionId;
    if values != [] {
      UpdatesFromGateway(siteId, chargePointId, connectorId, transactionId, values[..|values| - 1], now, outcomes);
    }
  }

  /**
   * However the gateway's events are delivered, a session's row has the connector it was opened
   * on exactly when the event delivered last carries it. A stop carries none, so from then on the
   * connector is "0", until an update of the session arrives late.
   */
  lemma KeepsConnectorIff(events: seq<SessionEvent>, sessionId: string, i: nat, connector: string)
    requires AllFromGateway(events)
    requires i < |events| && events[i].sessionId == sessionId
    requires forall j :: i < j < |events| ==> events[j].sessionId != sessionId
    ensures var sessions := ApplyAll(EMPTY_TABLES, events).sessions;
            && sessionId in sessions
            && (sessions[sessionId].connectorId == connector <==> events[i].connectorId == connector)
            && (events[i].kind.Stopped? ==> sessions[sessionId].connectorId == "0")
  {
    hide ApplyAll;
    assert FromGateway(events[i]);
    ConnectorIsLastNamed(events, sessionId, i);
  }

  /** A session opened on any connector but zero, stopped, and delivered in order has lost it. */
  lemma StopErasesConnector(siteId: string, hash: string -> string, seconds: int, chargePointId: string,
                            start: StartRequest, stop: StopRequest, now: int)
    requires stop.transactionId == seconds + 1 && start.connectorId != 0
    ensures var script := [Start(chargePointId, start, now, Delivered), Stop(chargePointId, stop, now, Delivered)];
            var published := StateAfter(AllowAll, siteId, hash, seconds, script).published;
            var sessions := ApplyAll(EMPTY_TABLES, published).sessions;
            && |published| == 2 && published[0].connectorId == Decimal(start.connectorId) != "0"
            && published[0].sessionId in sessions && sessions[published[0].sessionId].connectorId == "0"
  {
    var first, second := Start(chargePointId, start, now, Delivered), Stop(chargePointId, stop, now, Delivered);
    assert [first, second] == [] + [first] + [second];
    StateSnoc(siteId, hash, seconds, [], first);
    StateSnoc(siteId, hash, seconds, [] + [first], second);
    hide ApplyAll, StateAfter, SessionId;
    PublishedFromGateway(AllowAll, siteId, hash, seconds, [first, second]);
    var published := StateAfter(AllowAll, siteId, hash, seconds, [first, second]).published;
    assert published[0].connectorId == Decimal(start.connectorId);
    ZeroIsZero(start.connectorId);
    KeepsConnectorIff(published, published[1].sessionId, 1, "0");
  }

  lemma StateSnoc(siteId: string, hash: string -> string, seconds: int, script: seq<Event>, event: Event)
    ensures StateAfter(AllowAll, siteId, hash, seconds, script + [event])
            == Next(AllowAll, siteId, hash, StateAfter(AllowAll, siteId, hash, seconds, script), event)
  {
    assert (script + [event])[..|script|] == script;
  }

  lemma ZeroIsZero(n: int)
    requires n != 0
    ensures Decimal(n) != "0"
  {
    assert Decimal(0) == "0";
    if Decimal(n) == Decimal(0) {
      DecimalIsInjective(n, 0);
    }
  }
}
