/**
 * What every run of the edge agent guarantees: enqueues, drains against a sink that may fail,
 * restarts, and crashes after any single change to the device, in any order.
 */
module Delivery {
  import opened Prelude
  import opened Records
  import opened SegmentLog
  import opened EdgeDevice
  import opened CrashPoints
  import opened SpoolSteps
  import opened Spooling
  import opened Forwarding
  import opened Ledgers

  // ----- runs

  datatype Op = Enqueue(payload: Bytes) | Drain(answers: Answers) | Reopen

  /** One operation, run to its end or cut off by a crash after some number of changes to the device. */
  datatype Event = Event(op: Op, crashAfter: Option<nat>)

  /** Bytes of flash an operation asks for. */
  function Cost(op: Op): nat {
    if op.Enqueue? && Storable(op.payload) then HEADER_BYTES + |op.payload| else 0
  }

  /** Bytes waiting for delivery. */
  ghost function Backlog(l: Ledger): nat {
    if l.next <= |l.accepted| then Size(l.accepted[l.next..]) else 0
  }

  /** What is on flash is the backlog, and less than one segment of what was delivered already. */
  ghost predicate Fits(l: Ledger, config: SpoolConfig) {
    Backlog(l) <= l.stored <= Backlog(l) + SegmentLimit(config)
  }

  /**
   * What accepting a payload may do. The oldest payloads are lost only if the directory would
   * exceed its ceiling, never the new one. A completed call leaves the directory one record
   * larger if that fits, otherwise within the ceiling or one segment, and after a loss less than
   * a segment short of the ceiling.
   */
  ghost predicate Accepts(l: Ledger, l': Ledger, payload: Bytes, crashed: bool, config: SpoolConfig) {
    var dropped := l'.next - l.next;
    && dropped >= 0 && l'.next <= |l.accepted| && l' == Accept(l, payload, dropped, l'.stored)
    && (dropped > 0 ==> l.stored + Cost(Enqueue(payload)) > config.maxTotalBytes)
    && (!crashed ==> l'.stored <= Max(config.maxTotalBytes, SegmentLimit(config)))
    && (!crashed && l.stored + Cost(Enqueue(payload)) <= config.maxTotalBytes ==>
          l'.stored == l.stored + Cost(Enqueue(payload)))
    && (!crashed && dropped > 0 ==> l'.stored + SegmentLimit(config) > config.maxTotalBytes)
  }

  /**
   * What a drain may do: as many batches leave the spool as the sink confirms before anything
   * else, and the cloud has those, and what arrived of the batch that failed. A drain cut off has
   * handed over a first part of that, at most a batch more than left the spool.
   */
  ghost predicate Delivers(l: Ledger, l': Ledger, answers: Answers, crashed: bool, batch: nat) {
    var n, c, kept := |l.accepted| - l.next, |l'.delivered| - |l.delivered|, l'.next - l.next;
    && n >= 0
    && var taken := TakenBy(answers, n, batch);
    && 0 <= kept <= c <= kept + batch && c <= |taken| && kept <= KeptBy(answers, n, batch)
    && l' == Deliver(l, taken[..c], kept, l'.stored)
    && (!crashed ==> kept == KeptBy(answers, n, batch) && c == |taken| && l'.stored <= l.stored)
  }

  /** Recovery may have cut a torn record off the newest segment, but nothing else happened. */
  ghost predicate Unmoved(l: Ledger, l': Ledger) {
    l' == l.(stored := l'.stored)
  }

  /** What an event may turn the ledger into. */
  ghost predicate Follows(l: Ledger, l': Ledger, event: Event, config: SpoolConfig, batch: nat) {
    var crashed := event.crashAfter.Some?;
    && Fits(l', config)
    && match event.op
       case Enqueue(payload) =>
         || (Storable(payload) && Accepts(l, l', payload, crashed, config))
         || ((!Storable(payload) || crashed) && Unmoved(l, l'))
       case Drain(answers) => Delivers(l, l', answers, crashed, batch)
       case Reopen => Unmoved(l, l')
  }

  /** The ledgers before, between and after the events of a script. */
  ghost predicate IsTrace(trace: seq<Ledger>, script: seq<Event>, config: SpoolConfig, batch: nat) {
    && |trace| == |script| + 1 && trace[0] == NEW_LEDGER
    && forall i :: 0 <= i < |script| ==> Follows(trace[i], trace[i + 1], script[i], config, batch)
  }

  // ----- what holds of every trace

  /** A batch failed, but not all of it. */
  predicate SomeArrive(answer: Answer) {
    answer.Failed? && answer.arrived != {}
  }

  /** What arrived of a batch that failed is its first part, as over a link that breaks. */
  ghost predicate Orderly(answer: Answer) {
    answer.Failed? ==> forall i: nat, j: nat :: j < i && i in answer.arrived ==> j in answer.arrived
  }

  ghost predicate OrderlyEvent(event: Event) {
    event.op.Drain? ==> forall n :: Orderly(event.op.answers(n))
  }

  /** Whether an event can make the edge repeat itself. */
  ghost predicate MayRepeat(event: Event) {
    event.crashAfter.Some? || (event.op.Drain? && exists n :: SomeArrive(event.op.answers(n)))
  }

  ghost function Interruptions(script: seq<Event>): nat {
    if script == [] then 0
    else Interruptions(script[..|script| - 1]) + if MayRepeat(script[|script| - 1]) then 1 else 0
  }

  /** Over links that break, deliveries are in order; whatever the sink does, they are less than a batch out of it. */
  lemma FollowsIsSafe(l: Ledger, l': Ledger, event: Event, config: SpoolConfig, batch: nat, slack: nat)
    requires Safe(l) && Ordered(l, slack) && Follows(l, l', event, config, batch)
    requires 1 <= batch && (slack == batch || (slack == 1 && OrderlyEvent(event)))
    ensures Safe(l') && Ordered(l', slack)
    ensures l.replayed <= l'.replayed <= l.replayed + if MayRepeat(event) then batch else 0
  {
    hide Safe, Ordered, Fits, Accepts, Delivers, SomeArrive;
    match event.op
    case Enqueue(payload) =>
      if Unmoved(l, l') {
        StoredIsFree(l, l'.stored, slack);
      } else {
        AcceptedIsSafe(l, l', payload, event.crashAfter.Some?, config, slack);
      }
    case Drain(answers) =>
      DrainedIsSafe(l, l', answers, event.crashAfter.Some?, batch, slack);
    case Reopen =>
      StoredIsFree(l, l'.stored, slack);
  }

  lemma AcceptedIsSafe(l: Ledger, l': Ledger, payload: Bytes, crashed: bool, config: SpoolConfig, slack: nat)
    requires Safe(l) && Ordered(l, slack) && Accepts(l, l', payload, crashed, config)
    ensures Safe(l') && Ordered(l', slack) && l'.replayed == l.replayed
  {
    hide Safe, Ordered, Between;
    AcceptIsSafe(l, payload, l'.next - l.next, l'.stored);
    AcceptKeepsOrder(l, payload, l'.next - l.next, l'.stored, slack);
  }

  lemma DrainedIsSafe(l: Ledger, l': Ledger, answers: Answers, crashed: bool, batch: nat, slack: nat)
    requires Safe(l) && Ordered(l, slack) && Delivers(l, l', answers, crashed, batch)
    requires 1 <= batch && (slack == batch || (slack == 1 && forall n :: Orderly(answers(n))))
    ensures Safe(l') && Ordered(l', slack) && l.replayed <= l'.replayed <= l.replayed + batch
    ensures !crashed && (forall n :: !SomeArrive(answers(n))) ==> l'.replayed == l.replayed
  {
    hide Safe, Ordered, KeptBy, TakenBy, Close, SomeArrive, Orderly;
    SafeBounds(l);
    var n, c, kept := |l.accepted| - l.next, |l'.delivered| - |l.delivered|, l'.next - l.next;
    TakenIsWithin(answers, n, batch);
    TakenIsClose(answers, n, batch, slack);
    var taken := TakenBy(answers, n, batch);
    ClosePrefix(taken, c, kept, KeptBy(answers, n, batch), slack);
    DeliverIsSafe(l, taken[..c], kept, l'.stored);
    DeliverKeepsOrder(l, taken[..c], kept, l'.stored, slack);
    if forall n :: !SomeArrive(answers(n)) {
      NothingMoreTaken(answers, n, batch);
    }
  }

  lemma ClosePrefix(taken: seq<nat>, c: nat, kept: nat, all: nat, slack: nat)
    requires kept <= c <= |taken| && kept <= all && Range(0, all) <= taken && Close(taken, slack)
    ensures Range(0, kept) <= taken[..c] && Close(taken[..c], slack)
  {
    assert forall i :: 0 <= i < c ==> taken[..c][..i] == taken[..i];
    assert forall i :: 0 <= i < kept ==> taken[i] == Range(0, all)[i] == i;
  }

  lemma TakenIsWithin(answers: Answers, n: nat, batch: nat)
    ensures var taken, kept := TakenBy(answers, n, batch), KeptBy(answers, n, batch);
            kept <= n && Within(taken, n) && Range(0, kept) <= taken && |taken| <= kept + batch
  {
    hide Leading, Arriving;
    var kept := KeptBy(answers, n, batch);
    if kept < n {
      ArrivingWithin(answers(Leading(answers, n)), kept, Min(batch, n - kept));
    }
  }

  lemma NothingMoreTaken(answers: Answers, n: nat, batch: nat)
    requires batch >= 1 && forall i :: !SomeArrive(answers(i))
    ensures |TakenBy(answers, n, batch)| == KeptBy(answers, n, batch)
  {
    hide Leading;
    var kept := KeptBy(answers, n, batch);
    if kept < n {
      StopIsFailure(answers, n, batch);
      assert !SomeArrive(answers(Leading(answers, n)));
      NoneArrive(kept, Min(batch, n - kept));
    }
  }

  lemma {:induction false} NoneArrive(from: nat, m: nat)
    ensures Arriving(Failed({}), from, m) == []
  {
    if m > 0 {
      NoneArrive(from, m - 1);
    }
  }

  lemma StopIsFailure(answers: Answers, n: nat, batch: nat)
    requires batch >= 1 && KeptBy(answers, n, batch) < n
    ensures answers(Leading(answers, n)).Failed?
  {
    LeadingStops(answers, n);
    assert Leading(answers, n) == n ==> batch * Leading(answers, n) >= n;
  }

  lemma {:induction false} LeadingStops(answers: Answers, bound: nat)
    ensures Leading(answers, bound) <= bound
    ensures Leading(answers, bound) < bound ==> answers(Leading(answers, bound)).Failed?
  {
    if bound > 0 {
      LeadingStops(answers, bound - 1);
    }
  }

  lemma TakenIsClose(answers: Answers, n: nat, batch: nat, slack: nat)
    requires 1 <= batch && (slack == batch || (slack == 1 && forall i :: Orderly(answers(i))))
    ensures Close(TakenBy(answers, n, batch), slack)
  {
    hide Leading, Arriving, Orderly;
    var kept := KeptBy(answers, n, batch);
    var taken := TakenBy(answers, n, batch);
    if kept < n {
      var answer, m := answers(Leading(answers, n)), Min(batch, n - kept);
      ArrivingWithin(answer, kept, m);
      if slack == 1 {
        assert Orderly(answer) || m == 1;
        ArrivingInOrder(answer, kept, m);
        assert taken == Range(0, kept) + Range(kept, kept + |Arriving(answer, kept, m)|) == Range(0, |taken|);
      }
    }
    forall i, m: nat | 0 <= i < |taken| && m + slack <= taken[i] ensures m in taken[..i] {
      assert taken[..i][m] == m;
    }
  }

  lemma {:induction false} ArrivingInOrder(answer: Answer, from: nat, m: nat)
    requires Orderly(answer) || m <= 1
    ensures var arriving := Arriving(answer, from, m);
            && |arriving| <= m && arriving == Range(from, from + |arriving|)
            && (|arriving| < m ==> answer.Failed? && |arriving| !in answer.arrived)
  {
    if m > 0 {
      ArrivingInOrder(answer, from, m - 1);
      var before := Arriving(answer, from, m - 1);
      if |before| < m - 1 {
        assert m - 1 !in answer.arrived;
      } else {
        assert Range(from, from + m) == Range(from, from + m - 1) + [from + m - 1];
      }
    }
  }

  /** Order does need that: of two records, a sink that takes only the second delivers out of order. */
  lemma GapsBreakOrder(l: Ledger, l': Ledger)
    requires l.next == 0 && |l.accepted| == 2 && l.delivered == [] && l.evicted == {}
    requires Delivers(l, l', _ => Failed({1}), false, 2)
    ensures l'.delivered == [1] && !Ordered(l', 1)
  {
    hide TakenBy, KeptBy, Ordered;
    SecondArrives(_ => Failed({1}));
    assert Shift([1], 0) == [1];
    SkipsFirst(l');
  }

  lemma SecondArrives(answers: Answers)
    requires answers(0) == Failed({1})
    ensures TakenBy(answers, 2, 2) == [1]
  {
    LeadingIs(answers, 2, 0);
    assert Arriving(Failed({1}), 0, 1) == [] && Arriving(Failed({1}), 0, 2) == [1];
  }

  lemma SkipsFirst(l: Ledger)
    requires l.delivered == [1] && l.evicted == {}
    ensures !Ordered(l, 1)
  {
    assert !InOrder(l, 0, 1) by {
      assert !Settled(0, l.delivered[..0], l.evicted);
    }
  }

  lemma SafeBounds(l: Ledger)
    requires Safe(l)
    ensures l.next <= |l.accepted|
  {
  }

  /**
   * At every point of a run everything passed over was received or evicted, and repetitions are
   * at most a batch per interruption. Deliveries are less than a batch out of order, and in order
   * if every batch that failed arrived up to some point.
   */
  lemma {:induction false} TraceIsSafe(trace: seq<Ledger>, script: seq<Event>, config: SpoolConfig, batch: nat, i: nat)
    requires IsTrace(trace, script, config, batch) && i <= |script| && 1 <= batch
    ensures Safe(trace[i]) && trace[i].replayed <= Interruptions(script[..i]) * batch
    ensures Ordered(trace[i], batch)
    ensures (forall j :: 0 <= j < i ==> OrderlyEvent(script[j])) ==> Ordered(trace[i], 1)
  {
    hide Follows, Interruptions, Safe, Ordered, OrderlyEvent;
    if i == 0 {
      NewIsSafe(batch);
      NewIsSafe(1);
      InterruptionsOfNone(script);
    } else {
      TraceIsSafe(trace, script, config, batch, i - 1);
      FollowsIsSafe(trace[i - 1], trace[i], script[i - 1], config, batch, batch);
      if forall j :: 0 <= j < i ==> OrderlyEvent(script[j]) {
        FollowsIsSafe(trace[i - 1], trace[i], script[i - 1], config, batch, 1);
      }
      InterruptionsNext(script, i - 1, batch);
    }
  }

  lemma InterruptionsOfNone(script: seq<Event>)
    ensures Interruptions(script[..0]) == 0
  {
  }

  lemma InterruptionsNext(script: seq<Event>, i: nat, batch: nat)
    requires i < |script|
    ensures Interruptions(script[..i + 1]) * batch
            == Interruptions(script[..i]) * batch + if MayRepeat(script[i]) then batch else 0
  {
    assert script[..i + 1][..i] == script[..i];
  }

  /** Which sequences of accepted payloads a script can produce: all it enqueued, except that the
      payload of an enqueue cut off by a crash may be missing. */
  ghost predicate Explains(script: seq<Event>, accepted: seq<Bytes>) {
    if script == [] then accepted == []
    else
      var init, last := script[..|script| - 1], script[|script| - 1];
      if last.op.Enqueue? && Storable(last.op.payload) then
        || (accepted != [] && accepted[|accepted| - 1] == last.op.payload && Explains(init, accepted[..|accepted| - 1]))
        || (last.crashAfter.Some? && Explains(init, accepted))
      else Explains(init, accepted)
  }

  lemma {:induction false} TraceExplains(trace: seq<Ledger>, script: seq<Event>, config: SpoolConfig, batch: nat,
                                         i: nat)
    requires IsTrace(trace, script, config, batch) && i <= |script|
    ensures Explains(script[..i], trace[i].accepted)
  {
    if i > 0 {
      TraceExplains(trace, script, config, batch, i - 1);
      var l, l', event := trace[i - 1], trace[i], script[i - 1];
      assert script[..i][..i - 1] == script[..i - 1];
      assert Follows(l, l', event, config, batch);
      if event.op.Enqueue? && l'.accepted == l.accepted + [event.op.payload] {
        assert l'.accepted[..|l'.accepted| - 1] == l.accepted;
      }
    }
  }

  /** A payload was enqueued on top of a backlog that, with one segment more, is too much for the ceiling. */
  ghost predicate Crowded(l: Ledger, event: Event, config: SpoolConfig) {
    event.op.Enqueue? && Backlog(l) + SegmentLimit(config) + Cost(event.op) > config.maxTotalBytes
  }

  /** However much was ever sent, something is lost only where the backlog itself was too large. */
  lemma {:induction false} LossNeedsBacklog(trace: seq<Ledger>, script: seq<Event>, config: SpoolConfig, batch: nat,
                                            n: nat)
    returns (i: nat)
    requires IsTrace(trace, script, config, batch) && n <= |script| && trace[n].lost > 0
    ensures i < n && trace[i].lost < trace[i + 1].lost && Crowded(trace[i], script[i], config)
    ensures trace[i].stored + Cost(script[i].op) > config.maxTotalBytes
    ensures script[i].crashAfter.None? ==> Backlog(trace[i + 1]) + 2 * SegmentLimit(config) > config.maxTotalBytes
  {
    hide Follows, Crowded, Fits;
    NewFits(config);
    assert n > 0;
    if trace[n - 1].lost > 0 {
      i := LossNeedsBacklog(trace, script, config, batch, n - 1);
    } else {
      i := n - 1;
      if i > 0 {
        FollowsFits(trace[i - 1], trace[i], script[i - 1], config, batch);
      }
      LosingStep(trace[i], trace[i + 1], script[i], config, batch);
    }
  }

  /**
   * An agent whose backlog always leaves room for the next payload and one segment loses nothing,
   * however long it runs.
   */
  lemma RoomyLosesNothing(trace: seq<Ledger>, script: seq<Event>, config: SpoolConfig, batch: nat)
    requires IsTrace(trace, script, config, batch)
    requires forall i :: 0 <= i < |script| ==> !Crowded(trace[i], script[i], config)
    ensures trace[|script|].lost == 0
  {
    hide Follows, Crowded;
    if trace[|script|].lost > 0 {
      var _ := LossNeedsBacklog(trace, script, config, batch, |script|);
    }
  }

  lemma NewFits(config: SpoolConfig)
    ensures Fits(NEW_LEDGER, config)
  {
  }

  lemma FollowsFits(l: Ledger, l': Ledger, event: Event, config: SpoolConfig, batch: nat)
    requires Follows(l, l', event, config, batch)
    ensures Fits(l', config)
  {
  }

  lemma LosingStep(l: Ledger, l': Ledger, event: Event, config: SpoolConfig, batch: nat)
    requires Fits(l, config) && Follows(l, l', event, config, batch) && l'.lost > l.lost
    ensures Crowded(l, event, config) && l.stored + Cost(event.op) > config.maxTotalBytes
    ensures event.crashAfter.None? ==> Backlog(l') + 2 * SegmentLimit(config) > config.maxTotalBytes
  {
    hide Size, Between;
  }

  // ----- from what the spool promises to what the ledger records

  /** A ledger for the state a spool is in. */
  ghost predicate Matches(l: Ledger, spool: Spool)
    reads spool, spool.device
  {
    Tracks(l, spool.Pending(), spool.device.received) && l.stored == TotalLength(spool.Data())
  }

  ghost predicate WithinSegment(pending: seq<Bytes>, stored: nat, config: SpoolConfig) {
    Size(pending) <= stored <= Size(pending) + SegmentLimit(config)
  }

  lemma EnqueueFollows(crc: Checksum, l: Ledger, was: View, now: View, after: seq<Bytes>, stored: nat, payload: Bytes,
                       crashAfter: Option<nat>, config: SpoolConfig, batch: nat)
    returns (l': Ledger)
    requires Tracks(l, was.pending, was.received) && l.stored == TotalLength(was.data) && Storable(payload)
    requires Appended(crc, was, now, payload, config) && WithinSegment(after, stored, config)
    requires if crashAfter.None? then after == now.pending && stored == TotalLength(now.data)
             else after == was.pending || (SuffixOf(after, was.pending + [payload]) && SuffixOf(now.pending, after))
    ensures Follows(l, l', Event(Enqueue(payload), crashAfter), config, batch)
    ensures Tracks(l', after, was.received) && l'.stored == stored
  {
    hide TotalLength, Appended, Tracks, SuffixOf, Accept, Accepts, Fits, WithinSegment;
    if crashAfter.Some? && after == was.pending {
      l' := StoredTracks(l, was.pending, was.received, stored);
    } else {
      AppendedSuffix(crc, was, now, payload, config, after);
      var dropped: nat := |was.pending| + 1 - |after|;
      l' := AcceptTracks(l, was.pending, was.received, payload, dropped, stored);
      AppendedAccepts(crc, l, l', was, now, payload, dropped, crashAfter.Some?, config);
    }
    FitsIfWithin(l', after, stored, config);
  }

  lemma AppendedAccepts(crc: Checksum, l: Ledger, l': Ledger, was: View, now: View, payload: Bytes, dropped: nat,
                        crashed: bool, config: SpoolConfig)
    requires Appended(crc, was, now, payload, config) && Storable(payload) && l.stored == TotalLength(was.data)
    requires l' == Accept(l, payload, dropped, l'.stored) && l.next + dropped <= |l.accepted|
    requires dropped > 0 ==> now.pending != was.pending + [payload]
    requires !crashed ==> l'.stored == TotalLength(now.data)
    ensures Accepts(l, l', payload, crashed, config)
  {
    hide TotalLength, SuffixOf, Added, AllAppend, Between;
  }

  lemma FitsIfWithin(l: Ledger, pending: seq<Bytes>, stored: nat, config: SpoolConfig)
    requires WithinSegment(pending, stored, config) && l.stored == stored
    requires l.next <= |l.accepted| && pending == l.accepted[l.next..]
    ensures Fits(l, config)
  {
  }

  lemma AppendedSuffix(crc: Checksum, was: View, now: View, payload: Bytes, config: SpoolConfig, after: seq<Bytes>)
    requires Appended(crc, was, now, payload, config)
    requires after == now.pending || (SuffixOf(after, was.pending + [payload]) && SuffixOf(now.pending, after))
    ensures 0 < |after| <= |was.pending| + 1 && after == (was.pending + [payload])[|was.pending| + 1 - |after|..]
    ensures |after| < |was.pending| + 1 ==> now.pending != was.pending + [payload]
  {
    hide TotalLength, Added, AllAppend;
  }

  lemma StoredTracks(l: Ledger, pending: seq<Bytes>, received: seq<Bytes>, stored: nat) returns (l': Ledger)
    requires Tracks(l, pending, received)
    ensures l' == l.(stored := stored) && Tracks(l', pending, received)
    ensures l.next <= |l.accepted| && pending == l.accepted[l.next..]
  {
    l' := l.(stored := stored);
    StoredIsFree(l, stored, 0);
  }

  lemma AcceptTracks(l: Ledger, pending: seq<Bytes>, received: seq<Bytes>, payload: Bytes, dropped: nat, stored: nat)
    returns (l': Ledger)
    requires Tracks(l, pending, received) && dropped <= |pending|
    ensures l' == Accept(l, payload, dropped, stored) && Tracks(l', (pending + [payload])[dropped..], received)
    ensures l.next + dropped <= |l.accepted| && l'.stored == stored
    ensures (pending + [payload])[dropped..] == l'.accepted[l'.next..] && l'.next <= |l'.accepted|
  {
    l' := Accept(l, payload, dropped, stored);
    AcceptIsSafe(l, payload, dropped, stored);
    assert pending + [payload] == l'.accepted[l.next..];
  }

  lemma UnmovedFollows(l: Ledger, pending: seq<Bytes>, received: seq<Bytes>, stored: nat, event: Event,
                       config: SpoolConfig, batch: nat)
    returns (l': Ledger)
    requires Tracks(l, pending, received) && WithinSegment(pending, stored, config)
    requires event.op.Reopen? || (event.op.Enqueue? && !Storable(event.op.payload))
    ensures Follows(l, l', event, config, batch)
    ensures Tracks(l', pending, received) && l'.stored == stored
  {
    l' := l.(stored := stored);
    StoredIsFree(l, stored, 0);
  }

  lemma DrainFollows(l: Ledger, was: View, pending: seq<Bytes>, received: seq<Bytes>, stored: nat, c: nat, kept: nat,
                     answers: Answers, crashAfter: Option<nat>, config: SpoolConfig, batch: nat)
    returns (l': Ledger)
    requires Tracks(l, was.pending, was.received) && WithinSegment(pending, stored, config)
    requires crashAfter.None? ==> stored <= l.stored
    requires var taken := TakenBy(answers, |was.pending|, batch);
             && Within(taken, |was.pending|) && kept <= c <= kept + batch && c <= |taken|
             && kept <= KeptBy(answers, |was.pending|, batch) && kept <= |was.pending|
             && (crashAfter.None? ==> kept == KeptBy(answers, |was.pending|, batch) && c == |taken|)
             && pending == was.pending[kept..] && received == was.received + Pick(was.pending, taken)[..c]
    ensures Follows(l, l', Event(Drain(answers), crashAfter), config, batch)
    ensures Tracks(l', pending, received) && l'.stored == stored
  {
    hide Size, KeptBy, TakenBy, Remaining, Settled, Fits, WithinSegment;
    var n, taken := |was.pending|, TakenBy(answers, |was.pending|, batch);
    TakenIsWithin(answers, n, batch);
    PrefixKept(taken, c, kept, KeptBy(answers, n, batch));
    l' := Deliver(l, taken[..c], kept, stored);
    DeliverIsSafe(l, taken[..c], kept, stored);
    assert Pick(was.pending, taken)[..c] == Pick(was.pending, taken[..c]);
    assert was.pending[kept..] == l.accepted[l.next + kept..];
    FitsIfWithin(l', pending, stored, config);
  }

  lemma PrefixKept(taken: seq<nat>, c: nat, kept: nat, all: nat)
    requires kept <= c <= |taken| && kept <= all && Range(0, all) <= taken
    ensures Range(0, kept) <= taken[..c]
  {
    assert forall i :: 0 <= i < kept ==> taken[i] == Range(0, all)[i] == i;
  }

  /** The process dies after `k` changes and a new one opens what it left; `points[0]` is the state before the first. */
  method CrashAndReopen(crc: Checksum, config: SpoolConfig, points: seq<Snapshot>, k: nat, ghost bounds: Bounds)
    returns (spool: Spool, at: Snapshot)
    requires points != [] && BoundsFit(bounds, config)
    requires forall i :: 0 <= i < |points| ==>
               DiskOk(crc, points[i].disk) && Sized(points[i].disk.files, bounds)
    ensures fresh(spool) && fresh(spool.device) && spool.crc == crc && spool.config == config
    ensures spool.device.bounds == bounds
    ensures at == points[Crashed(points, k)] && spool.Valid()
    ensures spool.Pending() == Replay(crc, at.disk) && spool.device.received == at.received
  {
    hide Spool.Valid, DiskOk, Replay, Resume, Listing, Sized, AllHold;
    at := points[Crashed(points, k)];
    var device := new Device(at, bounds);
    spool := Spool.Open(crc, device, config);
  }

  /** Where a crash during a call can leave the device: as it was, or as any of the snapshots the call added. */
  function Points(start: Snapshot, history: seq<Snapshot>, n: nat): seq<Snapshot>
    requires n <= |history|
  {
    [start] + history[n..]
  }

  lemma PointsAreSized(device: Device, start: Snapshot, n: nat)
    requires device.Bounded() && Sized(start.disk.files, device.bounds) && n <= |device.history|
    ensures forall i :: 0 <= i < |Points(start, device.history, n)| ==>
              Sized(Points(start, device.history, n)[i].disk.files, device.bounds)
  {
  }

  lemma AppendPoints(crc: Checksum, was: View, now: View, payload: Bytes, config: SpoolConfig, start: Snapshot, k: nat)
    requires Appended(crc, was, now, payload, config) && k < |Points(start, now.history, |was.history|)|
    requires DiskOk(crc, start.disk) && Replay(crc, start.disk) == was.pending && start.received == was.received
    ensures var s := Points(start, now.history, |was.history|)[k];
            && DiskOk(crc, s.disk) && s.received == was.received
            && var after := Replay(crc, s.disk);
               after == was.pending || (SuffixOf(after, was.pending + [payload]) && SuffixOf(now.pending, after))
  {
    hide DiskOk, Replay, SuffixOf, TotalLength;
    var added := Added(now.history, was.history);
    assert k > 0 ==> HoldsAppend(crc, added[k - 1], was.received, was.pending, payload, now.pending);
  }

  lemma DrainPoints(crc: Checksum, was: View, now: View, kept: nat, taken: seq<nat>, batch: nat, start: Snapshot,
                    k: nat)
    requires Forwarded(crc, was, now, kept, taken, batch) && k < |Points(start, now.history, |was.history|)|
    requires DiskOk(crc, start.disk) && Replay(crc, start.disk) == was.pending && start.received == was.received
    ensures HoldsDrain(crc, Points(start, now.history, |was.history|)[k], was, kept, taken, batch)
  {
    hide DiskOk, Replay;
    var added := Added(now.history, was.history);
    assert k > 0 ==> HoldsDrain(crc, added[k - 1], was, kept, taken, batch);
    assert was.received + Pick(was.pending, taken)[..0] == was.received;
  }

  lemma AppendedGrows(crc: Checksum, was: View, now: View, payload: Bytes, config: SpoolConfig)
    requires Appended(crc, was, now, payload, config)
    ensures |was.history| <= |now.history| && now.received == was.received
  {
  }

  /** The state a crash after `k` changes leaves. */
  function Crashed(points: seq<Snapshot>, k: nat): nat
    requires points != []
  {
    if k < |points| then k else |points| - 1
  }

  /** The number of records the forwarder reads at a time. */
  function BatchOf(batchSize: nat): nat {
    Max(batchSize, 1)
  }

  method StepEnqueue(spool: Spool, batchSize: nat, payload: Bytes, crashAfter: Option<nat>, ghost l: Ledger)
    returns (next: Spool, ghost l': Ledger)
    requires spool.Valid() && Matches(l, spool)
    modifies spool, spool.device
    ensures next.Valid() && Matches(l', next) && next.crc == spool.crc && next.config == spool.config
    ensures next.device.bounds == spool.device.bounds
    ensures next == spool || (fresh(next) && fresh(next.device))
    ensures Follows(l, l', Event(Enqueue(payload), crashAfter), spool.config, BatchOf(batchSize))
  {
    hide Spool.Valid, Tracks, DiskOk, Replay, Appended, TotalLength, Size, SuffixOf, Contents, Sized, Follows,
      Device.Bounded;
    ghost var was := spool.Now();
    var start, n := Snapshot(spool.device.disk, spool.device.received), |spool.device.history|;
    spool.ValidMeans();
    var forwarder := new Forwarder(spool, batchSize);
    var _ := forwarder.Enqueue(payload);
    ghost var now := spool.Now();
    spool.ValidMeans();
    next := spool;
    if Storable(payload) {
      AppendedGrows(spool.crc, was, now, payload, spool.config);
    }
    if crashAfter.Some? {
      var points := if Storable(payload) then Points(start, spool.device.history, n) else [start];
      if Storable(payload) {
        forall k | 0 <= k < |points| ensures DiskOk(spool.crc, points[k].disk) {
          AppendPoints(spool.crc, was, now, payload, spool.config, start, k);
        }
        PointsAreSized(spool.device, start, n);
        AppendPoints(spool.crc, was, now, payload, spool.config, start, Crashed(points, crashAfter.value));
      }
      var at;
      next, at := CrashAndReopen(spool.crc, spool.config, points, crashAfter.value, spool.device.bounds);
    }
    next.ValidMeans();
    if Storable(payload) {
      l' := EnqueueFollows(spool.crc, l, was, now, next.Pending(), TotalLength(next.Data()), payload, crashAfter,
                           spool.config, BatchOf(batchSize));
    } else {
      l' := UnmovedFollows(l, was.pending, was.received, TotalLength(next.Data()), Event(Enqueue(payload), crashAfter),
                           spool.config, BatchOf(batchSize));
    }
  }

  method StepDrain(spool: Spool, batchSize: nat, answers: Answers, crashAfter: Option<nat>, ghost l: Ledger)
    returns (next: Spool, ghost l': Ledger)
    requires spool.Valid() && Matches(l, spool)
    modifies spool, spool.device
    ensures next.Valid() && Matches(l', next) && next.crc == spool.crc && next.config == spool.config
    ensures next.device.bounds == spool.device.bounds
    ensures next == spool || (fresh(next) && fresh(next.device))
    ensures Follows(l, l', Event(Drain(answers), crashAfter), spool.config, BatchOf(batchSize))
  {
    hide Spool.Valid, Tracks, DiskOk, Replay, Forwarded, TotalLength, Size, Contents, Sized, Follows, Device.Bounded,
      KeptBy, TakenBy, Within, Pick;
    ghost var was, batch := spool.Now(), BatchOf(batchSize);
    var start, n := Snapshot(spool.device.disk, spool.device.received), |spool.device.history|;
    spool.ValidMeans();
    var forwarder := new Forwarder(spool, batchSize);
    var published, _ := forwarder.Drain(answers);
    ghost var now, taken := spool.Now(), TakenBy(answers, |was.pending|, batch);
    ForwardedGrows(spool.crc, was, now, published, taken, batch);
    spool.ValidMeans();
    next := spool;
    ghost var c, kept := |taken|, published;
    if crashAfter.Some? {
      var points := Points(start, spool.device.history, n);
      forall k | 0 <= k < |points| ensures DiskOk(spool.crc, points[k].disk) {
        DrainPoints(spool.crc, was, now, published, taken, batch, start, k);
      }
      PointsAreSized(spool.device, start, n);
      DrainPoints(spool.crc, was, now, published, taken, batch, start, Crashed(points, crashAfter.value));
      var at;
      next, at := CrashAndReopen(spool.crc, spool.config, points, crashAfter.value, spool.device.bounds);
      c, kept := |at.received| - |was.received|, |was.pending| - |next.Pending()|;
    }
    next.ValidMeans();
    l' := DrainFollows(l, was, next.Pending(), next.device.received, TotalLength(next.Data()), c, kept, answers,
                       crashAfter, spool.config, batch);
  }

  lemma ForwardedGrows(crc: Checksum, was: View, now: View, kept: nat, taken: seq<nat>, batch: nat)
    requires Forwarded(crc, was, now, kept, taken, batch)
    ensures |was.history| <= |now.history| && Within(taken, |was.pending|)
    ensures kept <= |taken| <= kept + batch && kept <= |was.pending|
    ensures now.pending == was.pending[kept..] && now.received == was.received + Pick(was.pending, taken)[..|taken|]
    ensures TotalLength(now.data) <= TotalLength(was.data)
  {
    assert |Range(0, kept)| == kept;
  }

  method StepReopen(spool: Spool, batchSize: nat, crashAfter: Option<nat>, ghost l: Ledger) returns (next: Spool,
                    ghost l': Ledger)
    requires spool.Valid() && Matches(l, spool)
    modifies spool, spool.device
    ensures next.Valid() && Matches(l', next) && next.crc == spool.crc && next.config == spool.config
    ensures next.device.bounds == spool.device.bounds
    ensures fresh(next) && (next.device == spool.device || fresh(next.device))
    ensures Follows(l, l', Event(Reopen, crashAfter), spool.config, BatchOf(batchSize))
  {
    hide Spool.Valid, Tracks, DiskOk, Replay, Resume, Listing, TotalLength, Size, Contents, Sized, Follows,
      Device.Bounded;
    ghost var pending, received := spool.Pending(), spool.device.received;
    var start, n := Snapshot(spool.device.disk, spool.device.received), |spool.device.history|;
    spool.ValidMeans();
    next := Spool.Open(spool.crc, spool.device, spool.config);
    if crashAfter.Some? {
      var points := Points(start, spool.device.history, n);
      assert spool.device.history[n..] == Added(spool.device.history, old(spool.device.history));
      PointsAreSized(spool.device, start, n);
      var at;
      next, at := CrashAndReopen(spool.crc, spool.config, points, crashAfter.value, spool.device.bounds);
    }
    next.ValidMeans();
    l' := UnmovedFollows(l, pending, received, TotalLength(next.Data()), Event(Reopen, crashAfter), spool.config,
                         BatchOf(batchSize));
  }

  /** An agent that always had the same configuration leaves only full segments behind the newest. */
  ghost function FullBounds(config: SpoolConfig): Bounds {
    Bounds(config.segmentBytes, SegmentLimit(config))
  }

  /** The segment files of a directory: full but for the newest, and so no more than their bytes call for. */
  ghost predicate FewFiles(files: Files, stored: nat, config: SpoolConfig) {
    Sized(files, FullBounds(config)) && (files != map[] ==> (|files| - 1) * config.segmentBytes <= stored)
  }

  lemma FilesAreFew(spool: Spool)
    requires spool.Valid() && spool.device.bounds == FullBounds(spool.config)
    ensures FewFiles(spool.device.disk.files, TotalLength(spool.Data()), spool.config)
  {
    hide Spool.Valid, Spool.Data, Spool.Pending, Device.Bounded, Sized, TotalLength, Lists, DiskOk, Size, Content;
    spool.ValidMeans();
    spool.SegmentsAreFew();
    spool.ValidParts();
    CountOfListing(spool.segments, spool.device.disk.files);
  }

  method OpenEmpty(crc: Checksum, config: SpoolConfig) returns (spool: Spool)
    ensures fresh(spool) && fresh(spool.device) && spool.Valid() && spool.crc == crc && spool.config == config
    ensures Matches(NEW_LEDGER, spool) && spool.device.bounds == FullBounds(config)
  {
    hide Spool.Valid, Tracks, DiskOk, Replay, Resume, Listing, Contents, Sized, Device.Bounded;
    var empty := Snapshot(Disk(map[], None), []);
    EmptyDirectory(crc, empty.disk, FullBounds(config));
    var device := new Device(empty, FullBounds(config));
    spool := Spool.Open(crc, device, config);
    NewIsSafe(1);
  }

  lemma EmptyDirectory(crc: Checksum, disk: Disk, bounds: Bounds)
    requires disk == Disk(map[], None)
    ensures DiskOk(crc, disk) && Replay(crc, disk) == [] && Sized(disk.files, bounds) && Listing(disk.files) == []
  {
    ReadsMeans(crc, disk, [], 0, []);
  }

  lemma TraceStarts(script: seq<Event>, config: SpoolConfig, batch: nat)
    ensures IsTrace([NEW_LEDGER], script[..0], config, batch)
  {
  }

  lemma TraceGrows(trace: seq<Ledger>, script: seq<Event>, i: nat, config: SpoolConfig, batch: nat, l: Ledger)
    requires i < |script| && IsTrace(trace, script[..i], config, batch)
    requires Follows(trace[i], l, script[i], config, batch)
    ensures IsTrace(trace + [l], script[..i + 1], config, batch) && (trace + [l])[i + 1] == l
  {
    hide Follows;
    var longer := trace + [l];
    forall j | 0 <= j < i + 1 ensures Follows(longer[j], longer[j + 1], script[..i + 1][j], config, batch) {
      assert j < i ==> Follows(trace[j], trace[j + 1], script[..i][j], config, batch);
    }
  }

  lemma {:induction false} CountBelowSize(payloads: seq<Bytes>)
    ensures |payloads| <= Size(payloads)
  {
    if payloads != [] {
      CountBelowSize(payloads[1..]);
    }
  }

  /** One event of a run. */
  method Step(spool: Spool, batchSize: nat, event: Event, ghost l: Ledger) returns (next: Spool, ghost l': Ledger)
    requires spool.Valid() && Matches(l, spool)
    modifies spool, spool.device
    ensures next.Valid() && Matches(l', next) && next.crc == spool.crc && next.config == spool.config
    ensures next.device.bounds == spool.device.bounds
    ensures (next == spool || fresh(next)) && (next.device == spool.device || fresh(next.device))
    ensures Follows(l, l', event, spool.config, BatchOf(batchSize))
  {
    hide Spool.Valid, Matches, Follows;
    match event.op {
      case Enqueue(payload) =>
        next, l' := StepEnqueue(spool, batchSize, payload, event.crashAfter, l);
      case Drain(answers) =>
        next, l' := StepDrain(spool, batchSize, answers, event.crashAfter, l);
      case Reopen =>
        next, l' := StepReopen(spool, batchSize, event.crashAfter, l);
    }
  }

  /** Everything still in the spool. */
  method ReadAll(spool: Spool) returns (pending: seq<Bytes>)
    requires spool.Valid()
    modifies spool
    ensures spool.Valid() && spool.Now() == old(spool.Now()) && pending == spool.Pending()
  {
    hide Spool.Valid, Spool.Pending, Spool.Data, Size, Content;
    var bytes := spool.PendingBytes();
    CountBelowSize(spool.Pending());
    ghost var all := spool.Pending();
    var to;
    pending, to := spool.ReadBatch(bytes);
    assert pending == all;
  }

  /** The whole agent: any script of operations and crashes on a directory that starts empty. */
  method Run(crc: Checksum, config: SpoolConfig, batchSize: nat, script: seq<Event>)
    returns (received: seq<Bytes>, pending: seq<Bytes>, files: Files)
    ensures exists trace: seq<Ledger> ::
              && IsTrace(trace, script, config, BatchOf(batchSize)) && Tracks(trace[|script|], pending, received)
              && FewFiles(files, trace[|script|].stored, config)
  {
    hide Spool.Valid, Tracks, Follows, IsTrace, TotalLength, Contents, Replay, FewFiles;
    var spool := OpenEmpty(crc, config);
    ghost var trace, batch := [NEW_LEDGER], BatchOf(batchSize);
    TraceStarts(script, config, batch);
    for i := 0 to |script|
      invariant fresh(spool) && fresh(spool.device) && spool.Valid() && spool.crc == crc && spool.config == config
      invariant spool.device.bounds == FullBounds(config)
      invariant |trace| == i + 1 && IsTrace(trace, script[..i], config, batch) && Matches(trace[i], spool)
    {
      ghost var l;
      spool, l := Step(spool, batchSize, script[i], trace[i]);
      TraceGrows(trace, script, i, config, batch, l);
      trace := trace + [l];
    }
    assert script[..|script|] == script;
    FilesAreFew(spool);
    received, files := spool.device.received, spool.device.disk.files;
    pending := ReadAll(spool);
  }
}
