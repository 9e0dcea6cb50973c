/** The charging-session projection: one row per session, merged from events in whatever order they arrive. */
module Sessions {
  import opened Prelude

  datatype EventType = Started | Updated | Stopped

  datatype SessionEvent = SessionEvent(sessionId: string, stationId: string, connectorId: string, siteId: string,
                                       kind: EventType, occurredAt: int, ingestedAt: int, tokenType: string,
                                       tokenHash: string, authorizationRef: string, energyRegisterWh: Option<int>,
                                       stopReason: string, sourceProtocol: string, transactionReference: string)

  /** The columns a bill is computed from. */
  datatype Billing = Billing(startedAt: Option<int>, stoppedAt: Option<int>, meterStartWh: Option<int>,
                             meterLastWh: Option<int>, meterStopWh: Option<int>)

  const NO_BILLING := Billing(None, None, None, None, None)

  datatype Row = Row(stationId: string, connectorId: string, siteId: string, sourceProtocol: string,
                     transactionReference: string, tokenType: string, tokenHash: string, authorizationRef: string,
                     stopReason: string, billing: Billing)

  // ----- the SQL functions used

  function Coalesce<T>(a: Option<T>, b: Option<T>): Option<T> {
    if a.Some? then a else b
  }

  /** PostgreSQL's GREATEST ignores NULLs. */
  function Greatest(a: Option<int>, b: Option<int>): Option<int> {
    if a.None? then b else if b.None? || b.value <= a.value then a else b
  }

  /** COALESCE(NULLIF(incoming, ''), stored) */
  function NewUnlessEmpty(incoming: string, stored: string): string {
    if incoming == "" then stored else incoming
  }

  // ----- what one event contributes

  function StartTime(e: SessionEvent): Option<int> { if e.kind.Started? then Some(e.occurredAt) else None }
  function StopTime(e: SessionEvent): Option<int> { if e.kind.Stopped? then Some(e.occurredAt) else None }
  function StartRegister(e: SessionEvent): Option<int> { if e.kind.Started? then e.energyRegisterWh else None }
  function StopRegister(e: SessionEvent): Option<int> { if e.kind.Stopped? then e.energyRegisterWh else None }
  function Register(e: SessionEvent): Option<int> { e.energyRegisterWh }

  function Contribution(e: SessionEvent): Billing {
    Billing(StartTime(e), StopTime(e), StartRegister(e), Register(e), StopRegister(e))
  }

  /** The upsert, restricted to the billing columns. */
  function Merge(b: Billing, c: Billing): Billing {
    Billing(Coalesce(b.startedAt, c.startedAt), Coalesce(b.stoppedAt, c.stoppedAt),
            Coalesce(b.meterStartWh, c.meterStartWh), Greatest(b.meterLastWh, c.meterLastWh),
            Coalesce(b.meterStopWh, c.meterStopWh))
  }

  function Fold(b: Billing, events: seq<SessionEvent>): Billing {
    if events == [] then b else Merge(Fold(b, events[..|events| - 1]), Contribution(events[|events| - 1]))
  }

  lemma FoldSnoc(b: Billing, events: seq<SessionEvent>, e: SessionEvent)
    ensures Fold(b, events + [e]) == Merge(Fold(b, events), Contribution(e))
  {
    assert (events + [e])[..|events|] == events;
  }

  /** Delivered energy; nothing is known without a reading from the start. */
  function EnergyWh(b: Billing): Option<int> {
    var end := Coalesce(b.meterStopWh, b.meterLastWh);
    if b.meterStartWh.Some? && end.Some? then Some(Max(end.value - b.meterStartWh.value, 0)) else None
  }

  predicate Open(b: Billing) {
    b.stoppedAt.None?
  }

  // ----- the columns as functions of the whole history

  type Column = SessionEvent -> Option<int>

  /** The first value the events give for a column. */
  function First(events: seq<SessionEvent>, column: Column): Option<int> {
    if events == [] then None
    else Coalesce(First(events[..|events| - 1], column), column(events[|events| - 1]))
  }

  function Largest(events: seq<SessionEvent>, column: Column): Option<int> {
    if events == [] then None
    else Greatest(Largest(events[..|events| - 1], column), column(events[|events| - 1]))
  }

  lemma {:induction false} FoldIsColumnwise(events: seq<SessionEvent>)
    ensures Fold(NO_BILLING, events)
            == Billing(First(events, StartTime), First(events, StopTime), First(events, StartRegister),
                       Largest(events, Register), First(events, StopRegister))
  {
    if events != [] {
      FoldIsColumnwise(events[..|events| - 1]);
    }
  }

  ghost predicate SameEvents(a: seq<SessionEvent>, b: seq<SessionEvent>) {
    forall e :: e in a <==> e in b
  }

  /** No two events give the column different values. */
  ghost predicate Agree(events: seq<SessionEvent>, column: Column) {
    forall d, e :: d in events && e in events && column(d).Some? && column(e).Some? ==> column(d) == column(e)
  }

  lemma {:induction false} FirstIsSome(events: seq<SessionEvent>, column: Column)
    ensures First(events, column).Some? ==> exists e :: e in events && column(e) == First(events, column)
    ensures First(events, column).None? ==> forall e :: e in events ==> column(e).None?
  {
    if events != [] {
      var init, last := events[..|events| - 1], events[|events| - 1];
      FirstIsSome(init, column);
      assert events == init + [last];
      assert last in events;
    }
  }

  lemma {:induction false} LargestIsMaximum(events: seq<SessionEvent>, column: Column)
    ensures Largest(events, column).Some? ==> exists e :: e in events && column(e) == Largest(events, column)
    ensures forall e :: e in events && column(e).Some? ==>
              Largest(events, column).Some? && column(e).value <= Largest(events, column).value
  {
    if events != [] {
      var init, last := events[..|events| - 1], events[|events| - 1];
      LargestIsMaximum(init, column);
      assert events == init + [last];
      assert last in events;
    }
  }

  lemma FirstOfAgreeing(a: seq<SessionEvent>, b: seq<SessionEvent>, column: Column)
    requires SameEvents(a, b) && Agree(a, column)
    ensures First(a, column) == First(b, column)
  {
    FirstIsSome(a, column);
    FirstIsSome(b, column);
  }

  lemma LargestOfSame(a: seq<SessionEvent>, b: seq<SessionEvent>, column: Column)
    requires SameEvents(a, b)
    ensures Largest(a, column) == Largest(b, column)
  {
    LargestIsMaximum(a, column);
    LargestIsMaximum(b, column);
  }

  // ----- order and redelivery

  /** What delivery order must not be able to decide. */
  ghost predicate BoundariesAgree(events: seq<SessionEvent>) {
    Agree(events, StartTime) && Agree(events, StopTime) && Agree(events, StartRegister) && Agree(events, StopRegister)
  }

  /** The bill is the same for every order and repetition of delivery. */
  ghost predicate OrderIndependent(events: seq<SessionEvent>) {
    forall other :: SameEvents(events, other) ==> Fold(NO_BILLING, other) == Fold(NO_BILLING, events)
  }

  lemma SameBill(a: seq<SessionEvent>, b: seq<SessionEvent>)
    requires SameEvents(a, b) && BoundariesAgree(a)
    ensures Fold(NO_BILLING, a) == Fold(NO_BILLING, b)
  {
    FoldIsColumnwise(a);
    FoldIsColumnwise(b);
    FirstOfAgreeing(a, b, StartTime);
    FirstOfAgreeing(a, b, StopTime);
    FirstOfAgreeing(a, b, StartRegister);
    FirstOfAgreeing(a, b, StopRegister);
    LargestOfSame(a, b, Register);
  }

  lemma {:induction false} FirstIsFirst(e: SessionEvent, events: seq<SessionEvent>, column: Column)
    requires column(e).Some?
    ensures First([e] + events, column) == column(e)
  {
    var all := [e] + events;
    if events == [] {
      assert all[..0] == [];
    } else {
      assert all[..|all| - 1] == [e] + events[..|events| - 1];
      FirstIsFirst(e, events[..|events| - 1], column);
    }
  }

  /**
   * The bill is independent of delivery order exactly when the events agree on when the session
   * started and stopped and on the readings taken then.
   */
  lemma OrderIndependentIff(events: seq<SessionEvent>)
    ensures OrderIndependent(events) <==> BoundariesAgree(events)
  {
    if BoundariesAgree(events) {
      forall other | SameEvents(events, other) ensures Fold(NO_BILLING, other) == Fold(NO_BILLING, events) {
        SameBill(events, other);
      }
    }
    if OrderIndependent(events) {
      ColumnMustAgree(events, StartTime);
      ColumnMustAgree(events, StopTime);
      ColumnMustAgree(events, StartRegister);
      ColumnMustAgree(events, StopRegister);
    }
  }

  lemma ColumnMustAgree(events: seq<SessionEvent>, column: Column)
    requires OrderIndependent(events)
    requires column == StartTime || column == StopTime || column == StartRegister || column == StopRegister
    ensures Agree(events, column)
  {
    forall d, e | d in events && e in events && column(d).Some? && column(e).Some?
      ensures column(d) == column(e)
    {
      FirstIsFirst(d, events, column);
      FirstIsFirst(e, events, column);
      FoldIsColumnwise([d] + events);
      FoldIsColumnwise([e] + events);
      assert SameEvents(events, [d] + events) && SameEvents(events, [e] + events);
      assert Fold(NO_BILLING, [d] + events) == Fold(NO_BILLING, events) == Fold(NO_BILLING, [e] + events);
    }
  }

  /** Events folded earlier leave their mark: each column already holds at least what they would contribute. */
  ghost predicate Absorbs(b: Billing, e: SessionEvent) {
    Merge(b, Contribution(e)) == b
  }

  lemma {:induction false} RedeliveryIsHarmless(events: seq<SessionEvent>, e: SessionEvent)
    requires e in events
    ensures Absorbs(Fold(NO_BILLING, events), e)
  {
    var init, last := events[..|events| - 1], events[|events| - 1];
    assert events == init + [last];
    if e != last {
      RedeliveryIsHarmless(init, e);
    }
  }

  // ----- the immutable event log

  /** A row of the log: what the unique key and the register columns keep of an event. */
  datatype LogEntry = LogEntry(sessionId: string, kind: EventType, occurredAt: int, energyRegisterWh: Option<int>)

  function Entry(e: SessionEvent): LogEntry {
    LogEntry(e.sessionId, e.kind, e.occurredAt, e.energyRegisterWh)
  }

  predicate SameKey(a: LogEntry, b: LogEntry) {
    a.sessionId == b.sessionId && a.kind == b.kind && a.occurredAt == b.occurredAt
  }

  predicate Logged(log: seq<LogEntry>, entry: LogEntry) {
    exists i :: 0 <= i < |log| && SameKey(log[i], entry)
  }

  /** INSERT ... ON CONFLICT DO NOTHING */
  function InsertEntry(log: seq<LogEntry>, entry: LogEntry): seq<LogEntry> {
    if Logged(log, entry) then log else log + [entry]
  }

  function EntryContribution(l: LogEntry): Billing {
    Billing(if l.kind.Started? then Some(l.occurredAt) else None,
            if l.kind.Stopped? then Some(l.occurredAt) else None,
            if l.kind.Started? then l.energyRegisterWh else None,
            l.energyRegisterWh,
            if l.kind.Stopped? then l.energyRegisterWh else None)
  }

  /** The bill of a session, recomputed from the log alone. */
  function Rebuild(log: seq<LogEntry>, sessionId: string): Billing {
    if log == [] then NO_BILLING
    else
      var b, last := Rebuild(log[..|log| - 1], sessionId), log[|log| - 1];
      if last.sessionId == sessionId then Merge(b, EntryContribution(last)) else b
  }

  // ----- the tables

  datatype Tables = Tables(sessions: map<string, Row>, log: seq<LogEntry>)

  function NewRow(e: SessionEvent): Row {
    Row(e.stationId, e.connectorId, e.siteId, e.sourceProtocol, e.transactionReference, e.tokenType, e.tokenHash,
        e.authorizationRef, e.stopReason, Contribution(e))
  }

  function MergeRow(row: Row, e: SessionEvent): Row {
    Row(NewUnlessEmpty(e.stationId, row.stationId), NewUnlessEmpty(e.connectorId, row.connectorId),
        NewUnlessEmpty(e.siteId, row.siteId), NewUnlessEmpty(e.sourceProtocol, row.sourceProtocol),
        NewUnlessEmpty(e.transactionReference, row.transactionReference),
        if e.tokenType != "UNSPECIFIED" then e.tokenType else row.tokenType,
        NewUnlessEmpty(e.tokenHash, row.tokenHash), NewUnlessEmpty(e.authorizationRef, row.authorizationRef),
        NewUnlessEmpty(e.stopReason, row.stopReason), Merge(row.billing, Contribution(e)))
  }

  function Apply(t: Tables, e: SessionEvent): Tables {
    var row := if e.sessionId in t.sessions then MergeRow(t.sessions[e.sessionId], e) else NewRow(e);
    Tables(t.sessions[e.sessionId := row],
           InsertEntry(t.log, Entry(e)))
  }

  function ApplyAll(t: Tables, events: seq<SessionEvent>): Tables {
    if events == [] then t else Apply(ApplyAll(t, events[..|events| - 1]), events[|events| - 1])
  }

  function OfSession(events: seq<SessionEvent>, sessionId: string): seq<SessionEvent> {
    if events == [] then []
    else
      var init, last := OfSession(events[..|events| - 1], sessionId), events[|events| - 1];
      if last.sessionId == sessionId then init + [last] else init
  }

  const EMPTY_TABLES := Tables(map[], [])

  /** The billing columns of the projection are the fold of the session's own events, in arrival order. */
  lemma {:induction false} ProjectionIsFold(events: seq<SessionEvent>, sessionId: string)
    ensures var t := ApplyAll(EMPTY_TABLES, events);
            && (sessionId in t.sessions <==> OfSession(events, sessionId) != [])
            && (sessionId in t.sessions ==>
                  t.sessions[sessionId].billing == Fold(NO_BILLING, OfSession(events, sessionId)))
  {
    if events != [] {
      var init, last := events[..|events| - 1], events[|events| - 1];
      ProjectionIsFold(init, sessionId);
      if last.sessionId == sessionId {
        FoldSnoc(NO_BILLING, OfSession(init, sessionId), last);
        assert Merge(NO_BILLING, Contribution(last)) == Contribution(last);
      }
    }
  }

  lemma {:induction false} OfSessionMembers(events: seq<SessionEvent>, sessionId: string, e: SessionEvent)
    ensures e in OfSession(events, sessionId) <==> e in events && e.sessionId == sessionId
  {
    if events != [] {
      var init, last := events[..|events| - 1], events[|events| - 1];
      assert events == init + [last];
      OfSessionMembers(init, sessionId, e);
    }
  }

  /** Session, type and time determine the register: redeliveries are exact repetitions. */
  ghost predicate KeyDeterminesRegister(events: seq<SessionEvent>) {
    forall d, e :: d in events && e in events && SameKey(Entry(d), Entry(e)) ==>
      d.energyRegisterWh == e.energyRegisterWh
  }

  lemma {:induction false} LogHasEveryKey(events: seq<SessionEvent>, entry: LogEntry) returns (e: SessionEvent)
    requires Logged(ApplyAll(EMPTY_TABLES, events).log, entry)
    ensures e in events && SameKey(Entry(e), entry)
  {
    var init, last := events[..|events| - 1], events[|events| - 1];
    assert events == init + [last] && last in events;
    var log := ApplyAll(EMPTY_TABLES, init).log;
    if Logged(log, entry) {
      e := LogHasEveryKey(init, entry);
    } else {
      e := last;
    }
  }

  predicate SameMoment(a: LogEntry, b: SessionEvent) {
    a.sessionId == b.sessionId && a.kind == b.kind && a.occurredAt == b.occurredAt
  }

  ghost predicate InLog(log: seq<LogEntry>, e: SessionEvent) {
    exists i :: 0 <= i < |log| && SameMoment(log[i], e)
  }

  /** The entry is that of the first event of its session, kind and time. */
  ghost predicate FirstLogged(events: seq<SessionEvent>, entry: LogEntry, n: nat) {
    && n < |events| && SameMoment(entry, events[n]) && entry.energyRegisterWh == events[n].energyRegisterWh
    && forall m :: 0 <= m < n ==> !SameMoment(entry, events[m])
  }

  ghost predicate IsFirst(events: seq<SessionEvent>, entry: LogEntry) {
    exists n: nat :: FirstLogged(events, entry, n)
  }

  /** For each session, kind and time there is one entry, that of the first such event, and no others. */
  ghost predicate KeepsFirsts(log: seq<LogEntry>, events: seq<SessionEvent>) {
    && (forall e :: e in events ==> InLog(log, e))
    && (forall i :: 0 <= i < |log| ==> IsFirst(events, log[i]))
    && (forall i, j :: 0 <= i < j < |log| ==>
          log[i].sessionId != log[j].sessionId || log[i].kind != log[j].kind || log[i].occurredAt != log[j].occurredAt)
  }

  lemma {:induction false} LogKeepsFirsts(events: seq<SessionEvent>)
    ensures KeepsFirsts(ApplyAll(EMPTY_TABLES, events).log, events)
  {
    if events != [] {
      var init, last := events[..|events| - 1], events[|events| - 1];
      LogKeepsFirsts(init);
      assert events == init + [last];
      LogGrows(init, last, ApplyAll(EMPTY_TABLES, init).log);
    }
  }

  lemma LogGrows(events: seq<SessionEvent>, e: SessionEvent, log: seq<LogEntry>)
    requires KeepsFirsts(log, events)
    ensures KeepsFirsts(InsertEntry(log, Entry(e)), events + [e])
  {
    var log' := InsertEntry(log, Entry(e));
    forall d | d in events + [e] ensures InLog(log', d) {
      if d in events {
        var i :| 0 <= i < |log| && SameMoment(log[i], d);
        assert log'[i] == log[i];
      } else if !Logged(log, Entry(e)) {
        assert SameMoment(log'[|log|], e);
      }
    }
    forall i | 0 <= i < |log'| ensures IsFirst(events + [e], log'[i]) {
      if i < |log| {
        assert IsFirst(events, log[i]);
        var n: nat :| FirstLogged(events, log[i], n);
        assert FirstLogged(events + [e], log'[i], n);
      } else {
        NewEntryIsFirst(events, e, log);
      }
    }
    forall i, j | 0 <= i < j < |log'|
      ensures log'[i].sessionId != log'[j].sessionId || log'[i].kind != log'[j].kind
              || log'[i].occurredAt != log'[j].occurredAt
    {
      if j == |log| {
        assert !SameKey(log[i], Entry(e));
      }
    }
  }

  lemma NewEntryIsFirst(events: seq<SessionEvent>, e: SessionEvent, log: seq<LogEntry>)
    requires KeepsFirsts(log, events) && !Logged(log, Entry(e))
    ensures IsFirst(events + [e], Entry(e))
  {
    forall m | 0 <= m < |events| ensures !SameMoment(Entry(e), events[m]) {
      assert events[m] in events;
      var i :| 0 <= i < |log| && SameMoment(log[i], events[m]);
      assert !SameKey(log[i], Entry(e));
    }
    assert FirstLogged(events + [e], Entry(e), |events|);
  }

  /** Recomputed from the log, every bill is the one in the projection. */
  ghost predicate LogAgrees(events: seq<SessionEvent>) {
    forall id: string :: LogAgreesOn(events, id)
  }

  ghost predicate LogAgreesOn(events: seq<SessionEvent>, id: string) {
    Rebuild(ApplyAll(EMPTY_TABLES, events).log, id) == Fold(NO_BILLING, OfSession(events, id))
  }

  /** If the log has an event's key already, the bill has all the event could add to it. */
  ghost predicate Expendable(events: seq<SessionEvent>, e: SessionEvent) {
    Logged(ApplyAll(EMPTY_TABLES, events).log, Entry(e)) ==>
      Absorbs(Fold(NO_BILLING, OfSession(events, e.sessionId)), e)
  }

  /** Where log and projection agree, they still do after one more event exactly when it is expendable. */
  lemma LogStaysRightIff(events: seq<SessionEvent>, e: SessionEvent)
    requires LogAgrees(events)
    ensures LogAgrees(events + [e]) <==> Expendable(events, e)
  {
    hide LogAgreesOn;
    forall id: string ensures LogAgreesOn(events + [e], id) <==> id != e.sessionId || Expendable(events, e) {
      assert LogAgreesOn(events, id);
      LogAfterOne(events, e, id);
    }
    assert LogAgreesOn(events + [e], e.sessionId) <==> Expendable(events, e);
  }

  lemma LogAfterOne(events: seq<SessionEvent>, e: SessionEvent, id: string)
    requires LogAgreesOn(events, id)
    ensures LogAgreesOn(events + [e], id) <==> id != e.sessionId || Expendable(events, e)
  {
    var log, mine := ApplyAll(EMPTY_TABLES, events).log, OfSession(events, id);
    ApplySnoc(EMPTY_TABLES, events, e);
    assert (events + [e])[..|events|] == events;
    hide Merge, Contribution, EntryContribution, Rebuild, Fold, ApplyAll, Logged;
    FoldSnoc(NO_BILLING, mine, e);
    RebuildSnoc(log, e, id);
  }

  /**
   * The log, deduplicated, rebuilds every bill at every moment exactly when no event it turned
   * away had anything to add.
   */
  lemma {:induction false} LogRebuildsIff(events: seq<SessionEvent>)
    ensures (forall n :: 0 <= n <= |events| ==> LogAgrees(events[..n]))
            <==> (forall i :: 0 <= i < |events| ==> Expendable(events[..i], events[i]))
  {
    hide LogAgrees, Expendable;
    if events == [] {
      NothingLogged();
    } else {
      var init, last := events[..|events| - 1], |events| - 1;
      LogRebuildsIff(init);
      SamePrefixes(events, last);
      assert init == events[..last] && events == events[..|events|];
      if LogAgrees(init) {
        LogStaysRightIff(init, events[last]);
        assert init + [events[last]] == events;
      }
    }
  }

  lemma SamePrefixes(events: seq<SessionEvent>, m: nat)
    requires m <= |events|
    ensures forall n :: 0 <= n <= m ==> events[..m][..n] == events[..n]
  {
  }

  lemma NothingLogged()
    ensures LogAgrees([])
  {
  }

  /** The events the log has kept. */
  function LoggedOf(events: seq<SessionEvent>): seq<SessionEvent> {
    if events == [] then []
    else
      var init, last := events[..|events| - 1], events[|events| - 1];
      LoggedOf(init) + if Logged(ApplyAll(EMPTY_TABLES, init).log, Entry(last)) then [] else [last]
  }

  lemma LoggedSnoc(events: seq<SessionEvent>, e: SessionEvent)
    ensures var log, kept := ApplyAll(EMPTY_TABLES, events).log, LoggedOf(events);
            && ApplyAll(EMPTY_TABLES, events + [e]).log == (if Logged(log, Entry(e)) then log else log + [Entry(e)])
            && LoggedOf(events + [e]) == if Logged(log, Entry(e)) then kept else kept + [e]
  {
    assert (events + [e])[..|events|] == events;
  }

  lemma {:induction false} RebuildIsFold(events: seq<SessionEvent>, id: string)
    ensures Rebuild(ApplyAll(EMPTY_TABLES, events).log, id) == Fold(NO_BILLING, OfSession(LoggedOf(events), id))
  {
    if events != [] {
      var init, last := events[..|events| - 1], events[|events| - 1];
      RebuildIsFold(init, id);
      hide Merge, Contribution, Logged, ApplyAll, LoggedOf, OfSession, Fold, Rebuild;
      assert events == init + [last];
      LoggedSnoc(init, last);
      OfSessionSnoc(LoggedOf(init), last, id);
      RebuildSnoc(ApplyAll(EMPTY_TABLES, init).log, last, id);
      FoldSnoc(NO_BILLING, OfSession(LoggedOf(init), id), last);
    }
  }

  lemma OfSessionSnoc(events: seq<SessionEvent>, e: SessionEvent, id: string)
    ensures OfSession(events + [e], id)
            == if e.sessionId == id then OfSession(events, id) + [e] else OfSession(events, id)
  {
    assert (events + [e])[..|events|] == events;
  }

  lemma FirstSnoc(events: seq<SessionEvent>, e: SessionEvent, column: Column)
    ensures First(events + [e], column) == Coalesce(First(events, column), column(e))
  {
    assert (events + [e])[..|events|] == events;
  }

  /** The log never misses when a session started or stopped. */
  lemma {:induction false} TimesAgree(events: seq<SessionEvent>, id: string)
    ensures First(OfSession(LoggedOf(events), id), StartTime) == First(OfSession(events, id), StartTime)
    ensures First(OfSession(LoggedOf(events), id), StopTime) == First(OfSession(events, id), StopTime)
  {
    if events != [] {
      var init, last := events[..|events| - 1], events[|events| - 1];
      TimesAgree(init, id);
      hide Logged, ApplyAll, LoggedOf, OfSession, First;
      assert events == init + [last];
      LoggedSnoc(init, last);
      OfSessionSnoc(init, last, id);
      OfSessionSnoc(LoggedOf(init), last, id);
      if last.sessionId == id {
        var mine, kept := OfSession(init, id), OfSession(LoggedOf(init), id);
        FirstSnoc(mine, last, StartTime);
        FirstSnoc(mine, last, StopTime);
        FirstSnoc(kept, last, StartTime);
        FirstSnoc(kept, last, StopTime);
        if Logged(ApplyAll(EMPTY_TABLES, init).log, Entry(last)) {
          TimeIsKnown(init, last);
        }
      }
    }
  }

  lemma TimeIsKnown(events: seq<SessionEvent>, e: SessionEvent)
    requires Logged(ApplyAll(EMPTY_TABLES, events).log, Entry(e))
    ensures e.kind.Started? ==> First(OfSession(events, e.sessionId), StartTime).Some?
    ensures e.kind.Stopped? ==> First(OfSession(events, e.sessionId), StopTime).Some?
  {
    var d := LogHasEveryKey(events, Entry(e));
    OfSessionMembers(events, e.sessionId, d);
    FirstIsSome(OfSession(events, e.sessionId), StartTime);
    FirstIsSome(OfSession(events, e.sessionId), StopTime);
  }

  /**
   * At the end alone, where a later reading may have made good for an earlier one: the log
   * rebuilds a session's bill exactly when the events it kept have the same first start reading,
   * the same first stop reading and the same largest register.
   */
  lemma LogAgreesFinallyIff(events: seq<SessionEvent>, id: string)
    ensures var mine, kept := OfSession(events, id), OfSession(LoggedOf(events), id);
            LogAgreesOn(events, id) <==>
              && First(kept, StartRegister) == First(mine, StartRegister)
              && First(kept, StopRegister) == First(mine, StopRegister)
              && Largest(kept, Register) == Largest(mine, Register)
  {
    hide ApplyAll, LoggedOf, OfSession, Fold, Rebuild, First, Largest;
    RebuildIsFold(events, id);
    TimesAgree(events, id);
    FoldIsColumnwise(OfSession(events, id));
    FoldIsColumnwise(OfSession(LoggedOf(events), id));
  }

  /** Of an event whose key is logged, all but the register is known: nothing is missed unless the register is news. */
  lemma ExpendableIff(events: seq<SessionEvent>, e: SessionEvent)
    requires Logged(ApplyAll(EMPTY_TABLES, events).log, Entry(e))
    ensures var b := Fold(NO_BILLING, OfSession(events, e.sessionId));
            Expendable(events, e) <==>
              (e.energyRegisterWh.Some? ==>
                 && b.meterLastWh.Some? && e.energyRegisterWh.value <= b.meterLastWh.value
                 && (e.kind.Started? ==> b.meterStartWh.Some?) && (e.kind.Stopped? ==> b.meterStopWh.Some?))
  {
    var d := LogHasEveryKey(events, Entry(e));
    OfSessionMembers(events, e.sessionId, d);
    RedeliveryIsHarmless(OfSession(events, e.sessionId), d);
  }

  /** In particular it does as long as redelivered events carry the register they carried before. */
  lemma LogRebuildsTheBill(events: seq<SessionEvent>, sessionId: string)
    requires KeyDeterminesRegister(events)
    ensures Rebuild(ApplyAll(EMPTY_TABLES, events).log, sessionId) == Fold(NO_BILLING, OfSession(events, sessionId))
  {
    forall i | 0 <= i < |events| ensures Expendable(events[..i], events[i]) {
      RepetitionIsExpendable(events, i);
    }
    hide Expendable;
    LogRebuildsIff(events);
    assert LogAgrees(events[..|events|]) && events[..|events|] == events;
    assert LogAgreesOn(events, sessionId);
  }

  lemma RepetitionIsExpendable(events: seq<SessionEvent>, i: nat)
    requires KeyDeterminesRegister(events) && i < |events|
    ensures Expendable(events[..i], events[i])
  {
    hide Merge, Contribution, Fold, ApplyAll, OfSession;
    var init, e := events[..i], events[i];
    if Logged(ApplyAll(EMPTY_TABLES, init).log, Entry(e)) {
      var d := LogHasEveryKey(init, Entry(e));
      OfSessionMembers(init, e.sessionId, d);
      RedeliveryIsHarmless(OfSession(init, e.sessionId), d);
      assert d in events && e in events;
      SameContribution(d, e);
    }
  }

  lemma SameContribution(d: SessionEvent, e: SessionEvent)
    requires SameKey(Entry(d), Entry(e)) && d.energyRegisterWh == e.energyRegisterWh
    ensures Contribution(d) == Contribution(e)
  {
  }

  lemma RebuildSnoc(log: seq<LogEntry>, e: SessionEvent, sessionId: string)
    ensures Rebuild(log + [Entry(e)], sessionId)
            == if e.sessionId == sessionId then Merge(Rebuild(log, sessionId), Contribution(e))
               else Rebuild(log, sessionId)
  {
    assert (log + [Entry(e)])[..|log|] == log;
  }

  /** Otherwise the log can miss a reading the bill has: it keeps the first of two updates stamped alike. */
  lemma LogCanMissAReading(d: SessionEvent, e: SessionEvent)
    requires SameKey(Entry(d), Entry(e)) && d.kind.Updated?
    requires d.energyRegisterWh.Some? && e.energyRegisterWh.Some? && d.energyRegisterWh.value < e.energyRegisterWh.value
    ensures Rebuild(ApplyAll(EMPTY_TABLES, [d, e]).log, d.sessionId).meterLastWh == d.energyRegisterWh
    ensures Fold(NO_BILLING, [d, e]).meterLastWh == e.energyRegisterWh
  {
    ApplySnoc(EMPTY_TABLES, [], d);
    ApplySnoc(EMPTY_TABLES, [d], e);
    assert [] + [d] == [d] && [d] + [e] == [d, e];
    var log := ApplyAll(EMPTY_TABLES, [d]).log;
    assert log == [] + [Entry(d)];
    assert SameKey(log[0], Entry(e));
    RebuildSnoc([], d, d.sessionId);
    FoldSnoc(NO_BILLING, [], d);
    FoldSnoc(NO_BILLING, [d], e);
  }

  lemma ApplySnoc(t: Tables, events: seq<SessionEvent>, e: SessionEvent)
    ensures ApplyAll(t, events + [e]) == Apply(ApplyAll(t, events), e)
  {
    assert (events + [e])[..|events|] == events;
  }

  // ----- what a bill does over time

  lemma {:induction false} FoldKeepsBoundaries(b: Billing, events: seq<SessionEvent>)
    ensures var c := Fold(b, events);
            && (b.startedAt.Some? ==> c.startedAt == b.startedAt) && (b.stoppedAt.Some? ==> c.stoppedAt == b.stoppedAt)
            && (b.meterStartWh.Some? ==> c.meterStartWh == b.meterStartWh)
            && (b.meterStopWh.Some? ==> c.meterStopWh == b.meterStopWh)
            && (b.meterLastWh.Some? ==> c.meterLastWh.Some? && b.meterLastWh.value <= c.meterLastWh.value)
  {
    if events != [] {
      FoldKeepsBoundaries(b, events[..|events| - 1]);
    }
  }

  /** Once both boundary readings are known the bill is final, and a stopped session never reopens. */
  lemma SettledBillIsFinal(b: Billing, events: seq<SessionEvent>)
    ensures b.meterStartWh.Some? && b.meterStopWh.Some? ==> EnergyWh(Fold(b, events)) == EnergyWh(b)
    ensures !Open(b) ==> !Open(Fold(b, events))
  {
    FoldKeepsBoundaries(b, events);
  }

  /** Until the closing reading arrives, a known amount of energy only grows. */
  lemma OpenBillOnlyGrows(b: Billing, events: seq<SessionEvent>)
    requires EnergyWh(b).Some? && Fold(b, events).meterStopWh.None?
    ensures EnergyWh(Fold(b, events)).Some? && 0 <= EnergyWh(b).value <= EnergyWh(Fold(b, events)).value
  {
    FoldKeepsBoundaries(b, events);
  }

  // ----- what is billed

  predicate Opens(e: SessionEvent) { e.kind.Started? && e.energyRegisterWh.Some? }
  predicate Closes(e: SessionEvent) { e.kind.Stopped? && e.energyRegisterWh.Some? }

  lemma {:induction false} FirstIsAt(events: seq<SessionEvent>, column: Column, i: nat)
    requires i < |events| && column(events[i]).Some? && forall j :: 0 <= j < i ==> column(events[j]).None?
    ensures First(events, column) == column(events[i])
  {
    var init := events[..|events| - 1];
    if i < |init| {
      FirstIsAt(init, column, i);
    } else {
      FirstIsSome(init, column);
    }
  }

  lemma FirstOfSame(events: seq<SessionEvent>, column: Column, e: SessionEvent)
    requires e in events && column(e).Some?
    requires forall d :: d in events && column(d).Some? ==> column(d) == column(e)
    ensures First(events, column) == column(e)
  {
    hide First;
    FirstIsSome(events, column);
  }

  lemma EnergyIsKnownIff(events: seq<SessionEvent>)
    ensures EnergyWh(Fold(NO_BILLING, events)).Some? <==> exists e :: e in events && Opens(e)
  {
    FoldIsColumnwise(events);
    FirstIsSome(events, StartRegister);
    LargestIsMaximum(events, Register);
  }

  ghost predicate ClosesFirst(events: seq<SessionEvent>, k: nat) {
    k < |events| && Closes(events[k]) && forall j :: 0 <= j < k ==> !Closes(events[j])
  }

  /** The reading a session is billed up to: the first one of a stop or, while there is none, the largest of all. */
  ghost predicate BilledUpTo(events: seq<SessionEvent>, reading: int) {
    if exists e :: e in events && Closes(e) then
      exists k: nat :: ClosesFirst(events, k) && events[k].energyRegisterWh == Some(reading)
    else
      && (exists e :: e in events && e.energyRegisterWh == Some(reading))
      && (forall e :: e in events && e.energyRegisterWh.Some? ==> e.energyRegisterWh.value <= reading)
  }

  /** The energy of a session is what its meter advanced by since the first opening reading, and never negative. */
  lemma EnergyIsTheAdvance(events: seq<SessionEvent>, i: nat, reading: int)
    requires i < |events| && Opens(events[i]) && forall j :: 0 <= j < i ==> !Opens(events[j])
    requires BilledUpTo(events, reading)
    ensures var opening, energy := events[i].energyRegisterWh.value, EnergyWh(Fold(NO_BILLING, events));
            energy.Some? && opening + energy.value == Max(opening, reading)
  {
    hide First, Largest, Fold;
    FoldIsColumnwise(events);
    FirstIsAt(events, StartRegister, i);
    if exists e :: e in events && Closes(e) {
      var k: nat :| ClosesFirst(events, k) && events[k].energyRegisterWh == Some(reading);
      FirstIsAt(events, StopRegister, k);
    } else {
      FirstIsSome(events, StopRegister);
      LargestIsMaximum(events, Register);
    }
  }

  /** There is always one such reading once anything was read. */
  lemma SomeReadingIsBilled(events: seq<SessionEvent>) returns (reading: int)
    requires exists e :: e in events && Opens(e)
    ensures BilledUpTo(events, reading)
  {
    if k :| 0 <= k < |events| && Closes(events[k]) {
      var first := FirstClosing(events, k);
      reading := events[first].energyRegisterWh.value;
    } else {
      LargestIsMaximum(events, Register);
      reading := Largest(events, Register).value;
    }
  }

  lemma {:induction false} FirstClosing(events: seq<SessionEvent>, k: nat) returns (first: nat)
    requires k < |events| && Closes(events[k])
    ensures ClosesFirst(events, first)
    decreases k
  {
    if j :| 0 <= j < k && Closes(events[j]) {
      first := FirstClosing(events, j);
    } else {
      first := k;
    }
  }

  // ----- the descriptive columns

  type TextColumn = SessionEvent -> string

  function StationOf(e: SessionEvent): string { e.stationId }
  function ConnectorOf(e: SessionEvent): string { e.connectorId }
  function SiteOf(e: SessionEvent): string { e.siteId }
  function ProtocolOf(e: SessionEvent): string { e.sourceProtocol }
  function ReferenceOf(e: SessionEvent): string { e.transactionReference }
  function TokenTypeOf(e: SessionEvent): string { e.tokenType }
  function TokenHashOf(e: SessionEvent): string { e.tokenHash }
  function AuthorizationOf(e: SessionEvent): string { e.authorizationRef }
  function StopReasonOf(e: SessionEvent): string { e.stopReason }

  /** What the last event that says something says. */
  function LastNamed(events: seq<SessionEvent>, column: TextColumn, blank: string): string {
    if events == [] then blank
    else
      var last := column(events[|events| - 1]);
      if last != blank then last else LastNamed(events[..|events| - 1], column, blank)
  }

  lemma {:induction false} LastNamedIs(events: seq<SessionEvent>, column: TextColumn, blank: string)
    ensures LastNamed(events, column, blank) == blank ==> forall e :: e in events ==> column(e) == blank
    ensures LastNamed(events, column, blank) != blank ==>
              exists i :: 0 <= i < |events| && column(events[i]) == LastNamed(events, column, blank)
                && forall j :: i < j < |events| ==> column(events[j]) == blank
  {
    if events != [] {
      var init, last := events[..|events| - 1], events[|events| - 1];
      assert events == init + [last];
      if column(last) == blank {
        LastNamedIs(init, column, blank);
      } else {
        assert column(events[|events| - 1]) == LastNamed(events, column, blank);
      }
    }
  }

  lemma LastNamedSame(events: seq<SessionEvent>, column: TextColumn, blank: string, e: SessionEvent)
    requires e in events && forall d :: d in events ==> column(d) == blank || column(d) == column(e)
    ensures LastNamed(events, column, blank) == column(e)
  {
    hide LastNamed;
    LastNamedIs(events, column, blank);
  }

  /** Each descriptive column has what the last event of the session that says something there says. */
  lemma {:induction false} RowIsLastNamed(events: seq<SessionEvent>, sessionId: string)
    requires OfSession(events, sessionId) != []
    ensures var sessions, mine := ApplyAll(EMPTY_TABLES, events).sessions, OfSession(events, sessionId);
            && sessionId in sessions
            && Described(sessions[sessionId], mine)
  {
    var init, last := events[..|events| - 1], events[|events| - 1];
    var mine := OfSession(init, sessionId);
    ProjectionIsFold(init, sessionId);
    if last.sessionId != sessionId {
      RowIsLastNamed(init, sessionId);
    } else {
      hide ApplyAll, OfSession, Fold, LastNamed, Logged;
      if mine == [] {
        FirstDescribes(last);
        assert [] + [last] == [last];
      } else {
        RowIsLastNamed(init, sessionId);
        MergeDescribes(ApplyAll(EMPTY_TABLES, init).sessions[sessionId], mine, last);
      }
      LastOfSession(events, sessionId);
    }
  }

  ghost predicate Described(row: Row, mine: seq<SessionEvent>) {
    && row.stationId == LastNamed(mine, StationOf, "") && row.connectorId == LastNamed(mine, ConnectorOf, "")
    && row.siteId == LastNamed(mine, SiteOf, "") && row.sourceProtocol == LastNamed(mine, ProtocolOf, "")
    && row.transactionReference == LastNamed(mine, ReferenceOf, "")
    && row.tokenType == LastNamed(mine, TokenTypeOf, "UNSPECIFIED")
    && row.tokenHash == LastNamed(mine, TokenHashOf, "")
    && row.authorizationRef == LastNamed(mine, AuthorizationOf, "")
    && row.stopReason == LastNamed(mine, StopReasonOf, "")
  }

  lemma LastOfSession(events: seq<SessionEvent>, sessionId: string)
    requires events != [] && events[|events| - 1].sessionId == sessionId
    ensures var init, last := events[..|events| - 1], events[|events| - 1];
            var before, after := ApplyAll(EMPTY_TABLES, init).sessions, ApplyAll(EMPTY_TABLES, events).sessions;
            && OfSession(events, sessionId) == OfSession(init, sessionId) + [last]
            && sessionId in after
            && after[sessionId] == if sessionId in before then MergeRow(before[sessionId], last) else NewRow(last)
  {
    hide MergeRow, NewRow, Logged;
  }

  lemma FirstDescribes(e: SessionEvent)
    ensures Described(NewRow(e), [e])
  {
    assert [e][..0] == [];
  }

  lemma MergeDescribes(row: Row, mine: seq<SessionEvent>, e: SessionEvent)
    requires Described(row, mine)
    ensures Described(MergeRow(row, e), mine + [e])
  {
    assert (mine + [e])[..|mine|] == mine;
  }

  predicate Names(e: SessionEvent, sessionId: string) {
    e.sessionId == sessionId && e.connectorId != ""
  }

  /** The last event that names a connector decides it, whatever kind of event it is. */
  lemma {:induction false} ConnectorIsLastNamed(events: seq<SessionEvent>, sessionId: string, i: nat)
    requires i < |events| && Names(events[i], sessionId)
    requires forall j :: i < j < |events| ==> !Names(events[j], sessionId)
    ensures var sessions := ApplyAll(EMPTY_TABLES, events).sessions;
            sessionId in sessions && sessions[sessionId].connectorId == events[i].connectorId
  {
    if i < |events| - 1 {
      ConnectorIsLastNamed(events[..|events| - 1], sessionId, i);
      assert !Names(events[|events| - 1], sessionId);
    }
  }

  lemma {:induction false} ConnectorIsUnknown(events: seq<SessionEvent>, sessionId: string)
    requires forall j :: 0 <= j < |events| ==> !Names(events[j], sessionId)
    ensures var sessions := ApplyAll(EMPTY_TABLES, events).sessions;
            sessionId in sessions ==> sessions[sessionId].connectorId == ""
  {
    if events != [] {
      ConnectorIsUnknown(events[..|events| - 1], sessionId);
      assert !Names(events[|events| - 1], sessionId);
    }
  }
}

/** The tables as the control plane writes them. */
module SessionStore {
  import opened Prelude
  import opened Sessions

  class Postgres {
    var tables: Tables

    /** Writes a batch of events, two statements each, in one transaction. */
    method PersistSessionEventBatch(events: seq<SessionEvent>, outcome: TransactionOutcome) returns (ok: bool)
      modifies this
      ensures ok <==> events == [] || outcome.Committed?
      ensures tables == if outcome.RolledBack? then old(tables) else ApplyAll(old(tables), events)
    {
      if |events| == 0 {
        return true;
      }
      var transaction := tables;
      for n := 0 to |events|
        invariant transaction == ApplyAll(old(tables), events[..n]) && tables == old(tables)
      {
        assert events[..n + 1][..n] == events[..n];
        if outcome == RolledBack(2 * n) {
          return false;
        }
        transaction := transaction.(log := InsertEntry(transaction.log, Entry(events[n])));
        if outcome == RolledBack(2 * n + 1) {
          return false;
        }
        var id := events[n].sessionId;
        var row := if id in transaction.sessions
          then MergeRow(transaction.sessions[id], events[n]) else NewRow(events[n]);
        transaction := transaction.(sessions := transaction.sessions[id := row]);
      }
      assert events[..|events|] == events;
      if outcome.RolledBack? {
        return false;
      }
      tables := transaction;
      ok := outcome.Committed?;
    }
  }
}
