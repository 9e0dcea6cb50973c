/** Why replaying is harmless: the edge repeats itself after a crash, and the table does not notice. */
module EndToEnd {
  import opened Prelude
  import opened EdgeDevice
  import opened SpoolSteps
  import opened Spooling
  import opened Forwarding
  import opened Ledgers
  import opened Delivery
  import opened TelemetryTable
  import Ingest

  /** A payload's record, if it has one. */
  type Decode = Bytes -> Option<Telemetry>

  /** The telemetry table after these payloads arrived in this order. */
  function TableOf(payloads: seq<Bytes>, decode: Decode): Rows {
    if payloads == [] then map[]
    else
      var rows, record := TableOf(payloads[..|payloads| - 1], decode), decode(payloads[|payloads| - 1]);
      if record.Some? then InsertRow(rows, record.value) else rows
  }

  lemma TableSnoc(payloads: seq<Bytes>, last: Bytes, decode: Decode)
    ensures TableOf(payloads + [last], decode)
            == if decode(last).Some? then InsertRow(TableOf(payloads, decode), decode(last).value)
               else TableOf(payloads, decode)
  {
    assert (payloads + [last])[..|payloads|] == payloads;
  }

  lemma {:induction false} TableHasKey(payloads: seq<Bytes>, i: nat, decode: Decode)
    requires i < |payloads| && decode(payloads[i]).Some?
    ensures decode(payloads[i]).value.key in TableOf(payloads, decode)
  {
    if i < |payloads| - 1 {
      TableHasKey(payloads[..|payloads| - 1], i, decode);
    }
  }

  lemma {:induction false} TableRowIs(payloads: seq<Bytes>, key: Key, decode: Decode) returns (i: nat)
    requires key in TableOf(payloads, decode)
    ensures i < |payloads| && decode(payloads[i]).Some? && decode(payloads[i]).value.key == key
    ensures TableOf(payloads, decode)[key] == decode(payloads[i]).value
  {
    var init := payloads[..|payloads| - 1];
    if key in TableOf(init, decode) {
      i := TableRowIs(init, key, decode);
    } else {
      i := |payloads| - 1;
    }
  }

  // ----- what the ceiling took for good

  /** Evicted without ever having been received. */
  function Lost(l: Ledger): set<nat> {
    l.evicted - Members(l.delivered)
  }

  /** Accepted, but not among the first `k` deliveries. */
  function Missing(l: Ledger, k: nat): set<nat>
    requires k <= |l.delivered|
  {
    Between(0, |l.accepted|) - Members(l.delivered[..k])
  }

  lemma {:induction false} SparedOneMore(accepted: seq<Bytes>, gone: set<nat>, n: nat)
    requires n < |accepted| && n in gone && forall m: nat :: n < m < |accepted| ==> m in gone
    ensures Spared(accepted, gone - {n}) == Spared(accepted, gone) + [accepted[n]]
  {
    var last := |accepted| - 1;
    if n == last {
      SparedBelow(accepted[..last], gone, n);
    } else {
      SparedOneMore(accepted[..last], gone, n);
    }
  }

  lemma {:induction false} SparedBelow(accepted: seq<Bytes>, gone: set<nat>, n: nat)
    requires |accepted| <= n
    ensures Spared(accepted, gone - {n}) == Spared(accepted, gone)
  {
    if accepted != [] {
      SparedBelow(accepted[..|accepted| - 1], gone, n);
    }
  }

  lemma {:induction false} NoneSpared(accepted: seq<Bytes>, gone: set<nat>)
    requires Between(0, |accepted|) <= gone
    ensures Spared(accepted, gone) == []
  {
    hide Between;
    if accepted != [] {
      assert |accepted| - 1 in Between(0, |accepted|);
      assert Between(0, |accepted| - 1) <= Between(0, |accepted|);
      NoneSpared(accepted[..|accepted| - 1], gone);
    }
  }

  /** After `k` deliveries the table is what the payloads among them, once each and in order, would have made it. */
  lemma {:induction false} TableAfter(l: Ledger, k: nat, decode: Decode)
    requires Safe(l) && Ordered(l, 1) && k <= |l.delivered|
    ensures TableOf(Sent(l)[..k], decode) == TableOf(Spared(l.accepted, Missing(l, k)), decode)
  {
    hide Remaining, Between, Spared, Settled, InOrder, Missing, TableOf, InsertRow;
    if k == 0 {
      NothingYet(l, decode);
    } else {
      TableAfter(l, k - 1, decode);
      var n, before := l.delivered[k - 1], Missing(l, k - 1);
      SentNext(l, k - 1);
      TableSnoc(Sent(l)[..k - 1], l.accepted[n], decode);
      MissingNext(l, k - 1);
      if n in l.delivered[..k - 1] {
        DeliveredHasKey(l, k - 1, decode);
      } else {
        SparedOneMore(l.accepted, before, n);
        TableSnoc(Spared(l.accepted, before), l.accepted[n], decode);
      }
    }
  }

  lemma NothingYet(l: Ledger, decode: Decode)
    requires Safe(l)
    ensures TableOf(Sent(l)[..0], decode) == TableOf(Spared(l.accepted, Missing(l, 0)), decode)
  {
    hide Remaining, Between, Spared, Settled, InOrder;
    NoneSpared(l.accepted, Missing(l, 0));
  }

  lemma SentNext(l: Ledger, k: nat)
    requires Safe(l) && k < |l.delivered|
    ensures Sent(l)[..k + 1] == Sent(l)[..k] + [l.accepted[l.delivered[k]]]
  {
    hide Remaining, Settled, InOrder;
  }

  lemma MissingNext(l: Ledger, k: nat)
    requires Safe(l) && Ordered(l, 1) && k < |l.delivered|
    ensures var n := l.delivered[k];
            && Missing(l, k + 1) == Missing(l, k) - {n}
            && (n in l.delivered[..k] ==> Missing(l, k + 1) == Missing(l, k))
            && (n !in l.delivered[..k] ==>
                  n in Missing(l, k) && forall m: nat :: n < m < |l.accepted| ==> m in Missing(l, k))
  {
    hide Remaining, Between, Settled, Missing, InOrder;
    assert InOrder(l, k, 1);
    OneLessMissing(l, k);
    if l.delivered[k] !in l.delivered[..k] {
      NewestMissing(l, k);
    }
  }

  lemma OneLessMissing(l: Ledger, k: nat)
    requires k < |l.delivered|
    ensures var n := l.delivered[k];
            && Missing(l, k + 1) == Missing(l, k) - {n}
            && (n in l.delivered[..k] ==> Missing(l, k + 1) == Missing(l, k))
  {
    hide Between;
    assert l.delivered[..k + 1] == l.delivered[..k] + [l.delivered[k]];
  }

  lemma NewestMissing(l: Ledger, k: nat)
    requires k < |l.delivered| && l.delivered[k] < |l.accepted| && InOrder(l, k, 1)
    requires l.delivered[k] !in l.delivered[..k]
    ensures forall m: nat :: l.delivered[k] <= m < |l.accepted| ==> m in Missing(l, k)
  {
    hide Between, Settled;
  }

  lemma DeliveredHasKey(l: Ledger, k: nat, decode: Decode)
    requires Safe(l) && k < |l.delivered| && l.delivered[k] in l.delivered[..k]
    ensures var payload := l.accepted[l.delivered[k]];
            decode(payload).Some? ==>
              InsertRow(TableOf(Sent(l)[..k], decode), decode(payload).value) == TableOf(Sent(l)[..k], decode)
  {
    hide Remaining, InOrder, Settled;
    var j :| 0 <= j < k && l.delivered[j] == l.delivered[k];
    var payload := l.accepted[l.delivered[k]];
    assert Sent(l)[..k][j] == payload;
    if decode(payload).Some? {
      TableHasKey(Sent(l)[..k], j, decode);
    }
  }

  lemma DrainedInOrder(l: Ledger, received: seq<Bytes>, decode: Decode)
    requires Tracks(l, [], received) && Ordered(l, 1)
    ensures TableOf(received, decode) == TableOf(Spared(l.accepted, Lost(l)), decode)
  {
    hide Remaining, InOrder, Between, Spared, TableOf;
    TableAfter(l, |l.delivered|, decode);
    assert l.delivered[..|l.delivered|] == l.delivered && received[..|l.delivered|] == received;
    NothingElseMissing(l);
  }

  lemma NothingElseMissing(l: Ledger)
    requires Safe(l) && l.next == |l.accepted|
    ensures Missing(l, |l.delivered|) == Lost(l)
  {
    hide Remaining, Between;
    assert l.delivered[..|l.delivered|] == l.delivered;
    forall n: nat | n < |l.accepted| && n !in l.delivered ensures n in l.evicted {
      assert Settled(n, l.delivered, l.evicted);
    }
  }

  // ----- without order

  /** Two of these payloads with one key say the same. */
  ghost predicate Determined(payloads: seq<Bytes>, decode: Decode) {
    forall p, q :: p in payloads && q in payloads && decode(p).Some? && decode(q).Some? ==>
      decode(p).value.key == decode(q).value.key ==> decode(p) == decode(q)
  }

  /** Then only which payloads arrived matters, not in what order or how often. */
  lemma SameTable(a: seq<Bytes>, b: seq<Bytes>, decode: Decode)
    requires Determined(a, decode) && forall p :: p in a <==> p in b
    ensures TableOf(a, decode) == TableOf(b, decode)
  {
    hide TableOf;
    forall key | key in TableOf(a, decode)
      ensures key in TableOf(b, decode) && TableOf(a, decode)[key] == TableOf(b, decode)[key]
    {
      RowInBoth(a, b, key, decode);
    }
    forall key | key in TableOf(b, decode) ensures key in TableOf(a, decode) {
      var i := TableRowIs(b, key, decode);
      assert b[i] in a;
      var j :| 0 <= j < |a| && a[j] == b[i];
      TableHasKey(a, j, decode);
    }
  }

  lemma RowInBoth(a: seq<Bytes>, b: seq<Bytes>, key: Key, decode: Decode)
    requires Determined(a, decode) && (forall p :: p in a <==> p in b) && key in TableOf(a, decode)
    ensures key in TableOf(b, decode) && TableOf(a, decode)[key] == TableOf(b, decode)[key]
  {
    hide TableOf;
    var i := TableRowIs(a, key, decode);
    assert a[i] in b;
    var j :| 0 <= j < |b| && b[j] == a[i];
    TableHasKey(b, j, decode);
    var m := TableRowIs(b, key, decode);
    assert b[m] in a && a[i] in a;
  }

  ghost predicate SparedAt(accepted: seq<Bytes>, gone: set<nat>, p: Bytes, n: nat) {
    n < |accepted| && n !in gone && accepted[n] == p
  }

  lemma {:induction false} SparedMembers(accepted: seq<Bytes>, gone: set<nat>, p: Bytes)
    ensures p in Spared(accepted, gone) <==> exists n: nat :: SparedAt(accepted, gone, p, n)
  {
    if accepted != [] {
      var last := |accepted| - 1;
      SparedMembers(accepted[..last], gone, p);
      forall n: nat | n < last ensures SparedAt(accepted, gone, p, n) <==> SparedAt(accepted[..last], gone, p, n) {
      }
      assert SparedAt(accepted, gone, p, last) <==> last !in gone && accepted[last] == p;
    }
  }

  lemma ReceivedMembers(l: Ledger, received: seq<Bytes>, p: Bytes)
    requires Tracks(l, [], received)
    ensures p in received <==> p in Spared(l.accepted, Lost(l))
  {
    hide Remaining, Spared;
    SparedMembers(l.accepted, Lost(l), p);
    if p in received {
      var k :| 0 <= k < |received| && received[k] == p;
      assert l.delivered[k] in l.delivered && SparedAt(l.accepted, Lost(l), p, l.delivered[k]);
    }
    if n: nat :| SparedAt(l.accepted, Lost(l), p, n) {
      assert Settled(n, l.delivered, l.evicted);
      var k :| 0 <= k < |l.delivered| && l.delivered[k] == n;
      assert received[k] == p;
    }
  }

  lemma DrainedOnce(l: Ledger, received: seq<Bytes>, decode: Decode)
    requires Tracks(l, [], received) && (Ordered(l, 1) || Determined(l.accepted, decode))
    ensures TableOf(received, decode) == TableOf(Spared(l.accepted, Lost(l)), decode)
  {
    hide Remaining, Spared, TableOf, Ordered, Lost;
    if Ordered(l, 1) {
      DrainedInOrder(l, received, decode);
    } else {
      forall p ensures p in received <==> p in Spared(l.accepted, Lost(l)) {
        ReceivedMembers(l, received, p);
      }
      ReceivedWasAccepted(l, received);
      SameTable(received, Spared(l.accepted, Lost(l)), decode);
    }
  }

  lemma ReceivedWasAccepted(l: Ledger, received: seq<Bytes>)
    requires Safe(l) && received == Sent(l)
    ensures forall p :: p in received ==> p in l.accepted
  {
    hide Remaining, Settled;
  }

  /**
   * However often crashes and failures made the edge repeat itself, and whatever is still
   * waiting, once the rest arrives the table is what delivering each accepted payload once, in
   * order, would make it, but for those the ceiling took before they were ever received. This
   * needs deliveries in order, or a key that determines its record.
   */
  lemma EffectivelyOnce(l: Ledger, pending: seq<Bytes>, received: seq<Bytes>, decode: Decode)
    requires Tracks(l, pending, received) && (Ordered(l, 1) || Determined(l.accepted, decode))
    ensures TableOf(received + pending, decode) == TableOf(Spared(l.accepted, Lost(l)), decode)
    ensures |Lost(l)| <= l.lost && (l.lost == 0 ==> Spared(l.accepted, Lost(l)) == l.accepted)
  {
    hide Remaining, Spared, Settled, TableOf, Lost, Ordered, Close;
    var n, all := |pending|, Range(0, |pending|);
    var drained := Deliver(l, all, n, l.stored);
    DeliverIsSafe(l, all, n, l.stored);
    assert Pick(l.accepted[l.next..], all) == pending;
    if Ordered(l, 1) {
      RangeIsClose(n);
      DeliverKeepsOrder(l, all, n, l.stored, 1);
    }
    LostStaysLost(l, n);
    DrainedOnce(drained, received + pending, decode);
    LostIsSmall(l);
    if l.lost == 0 {
      AllSpared(l.accepted);
    }
  }

  lemma RangeIsClose(n: nat)
    ensures Close(Range(0, n), 1)
  {
    var all := Range(0, n);
    forall i, m: nat | 0 <= i < |all| && m + 1 <= all[i] ensures m in all[..i] {
      assert all[..i][m] == m;
    }
  }

  lemma LostStaysLost(l: Ledger, n: nat)
    requires forall m <- l.evicted :: m < l.next
    ensures Lost(Deliver(l, Range(0, n), n, l.stored)) == Lost(l)
  {
  }

  lemma AllSpared(accepted: seq<Bytes>)
    ensures Spared(accepted, {}) == accepted
  {
    hide Spared;
    SparedAll(accepted, 0, {});
    NothingSpared({});
    assert accepted[..0] == [] && accepted[0..] == accepted;
  }

  lemma LostIsSmall(l: Ledger)
    requires |l.evicted| == l.lost
    ensures |Lost(l)| <= l.lost && (l.lost == 0 ==> Lost(l) == {})
  {
    assert l.evicted == Lost(l) + l.evicted * Members(l.delivered);
  }

  ghost predicate OrderlyScript(script: seq<Event>) {
    forall i :: 0 <= i < |script| ==> OrderlyEvent(script[i])
  }

  /**
   * For every script the edge and the table together repeat nothing, and lose what the ceiling
   * took and nothing else.
   */
  method RunIntoTable(crc: Checksum, config: SpoolConfig, batchSize: nat, script: seq<Event>, ghost decode: Decode)
    returns (received: seq<Bytes>, pending: seq<Bytes>)
    ensures exists trace: seq<Ledger> ::
              && IsTrace(trace, script, config, BatchOf(batchSize))
              && var l := trace[|script|];
                 OrderlyScript(script) || Determined(l.accepted, decode) ==>
                   TableOf(received + pending, decode) == TableOf(Spared(l.accepted, Lost(l)), decode)
  {
    hide Tracks, Follows, TableOf, Spared, Ordered, Safe;
    var files;
    received, pending, files := Run(crc, config, batchSize, script);
    ghost var trace: seq<Ledger> :| IsTrace(trace, script, config, BatchOf(batchSize))
      && Tracks(trace[|script|], pending, received);
    ghost var l := trace[|script|];
    TraceIsSafe(trace, script, config, BatchOf(batchSize), |script|);
    if OrderlyScript(script) || Determined(l.accepted, decode) {
      EffectivelyOnce(l, pending, received, decode);
    }
  }

  // ----- through the broker

  /** What the broker holds under a device's subject is what the device handed over. */
  ghost predicate Carries(stream: seq<Ingest.Message>, subject: string, received: seq<Bytes>) {
    && (forall i :: 0 <= i < |received| ==> Ingest.Message(subject, received[i]) in stream)
    && (forall m :: 0 <= m < |stream| && stream[m].subject == subject ==> stream[m].payload in received)
  }

  /** Where a payload can be, from the moment the spool accepted it. */
  ghost predicate Somewhere(l: Ledger, pending: seq<Bytes>, judge: Ingest.Judge, c: Ingest.Cloud, subject: string,
                            n: nat)
    requires n < |l.accepted|
  {
    var message := Ingest.Message(subject, l.accepted[n]);
    || n in Lost(l)
    || (l.next <= n && n - l.next < |pending| && pending[n - l.next] == l.accepted[n])
    || (exists m :: 0 <= m < |c.stream| && c.stream[m] == message && m !in c.settled)
    || message.payload in c.parked
    || (judge(message).Ok? && judge(message).key in c.rows && Ingest.Said(judge, c.stream, c.rows[judge(message).key]))
  }

  /**
   * From flash to table, with both ends crashing, refusing and redelivering as they like: an
   * accepted payload was lost to the ceiling, waits on flash, waits in the broker, is parked, or
   * has a row under its key.
   */
  lemma NothingFallsBetween(l: Ledger, pending: seq<Bytes>, received: seq<Bytes>, judge: Ingest.Judge, c: Ingest.Cloud,
                            subject: string, n: nat)
    requires Tracks(l, pending, received) && Ingest.Accounted(judge, true, c) && Carries(c.stream, subject, received)
    requires n < |l.accepted|
    ensures Somewhere(l, pending, judge, c, subject, n)
  {
    hide Remaining, Ingest.Accounted;
    if n < l.next && n !in Lost(l) {
      assert Settled(n, l.delivered, l.evicted);
      var k :| 0 <= k < |l.delivered| && l.delivered[k] == n;
      assert received[k] == l.accepted[n];
      var m :| 0 <= m < |c.stream| && c.stream[m] == Ingest.Message(subject, received[k]);
      Ingest.NothingIsLost(judge, c, m);
    }
  }

  ghost predicate AllSomewhere(l: Ledger, pending: seq<Bytes>, judge: Ingest.Judge, c: Ingest.Cloud, subject: string) {
    forall n: nat :: n < |l.accepted| ==> Somewhere(l, pending, judge, c, subject, n)
  }

  lemma NothingFallsAnywhere(l: Ledger, pending: seq<Bytes>, received: seq<Bytes>, judge: Ingest.Judge, c: Ingest.Cloud,
                             subject: string)
    requires Tracks(l, pending, received) && Ingest.Accounted(judge, true, c) && Carries(c.stream, subject, received)
    ensures AllSomewhere(l, pending, judge, c, subject)
  {
    hide Tracks, Ingest.Accounted, Carries, Somewhere;
    forall n: nat | n < |l.accepted| ensures Somewhere(l, pending, judge, c, subject, n) {
      NothingFallsBetween(l, pending, received, judge, c, subject, n);
    }
  }

  /** A row under the device's subject says what some payload the spool accepted says. */
  lemma RowsWereAccepted(l: Ledger, pending: seq<Bytes>, received: seq<Bytes>, judge: Ingest.Judge, deadLetter: bool,
                         c: Ingest.Cloud, subject: string, key: Key)
    returns (m: nat)
    requires Tracks(l, pending, received) && Ingest.Accounted(judge, deadLetter, c)
    requires Carries(c.stream, subject, received)
    requires key in c.rows
    ensures m < |c.stream| && judge(c.stream[m]) == Ingest.Ok(key, c.rows[key].measured)
    ensures c.stream[m].subject == subject ==> c.stream[m].payload in l.accepted
  {
    hide Remaining, Settled;
    var i := RowIsFirst(c.persisted, key);
    assert Ingest.Said(judge, c.stream, c.persisted[i]);
    m :| 0 <= m < |c.stream| && judge(c.stream[m]) == Ingest.Ok(key, c.rows[key].measured);
  }

  function DecodeWith(judge: Ingest.Judge, subject: string, ingestedAt: int): Decode {
    payload =>
      var said := judge(Ingest.Message(subject, payload));
      if said.Ok? then Some(Telemetry(said.key, said.measured, ingestedAt)) else None
  }

  /**
   * Once flash is drained and the broker has nothing left to deliver, the database holds exactly
   * the rows of the payloads that were not lost to the ceiling, each delivered once: the same
   * keys, and the same measurements.
   */
  lemma Converged(l: Ledger, received: seq<Bytes>, judge: Ingest.Judge, deadLetter: bool, c: Ingest.Cloud,
                  subject: string,
                  ingestedAt: int)
    requires Tracks(l, [], received) && Ingest.Accounted(judge, deadLetter, c) && Carries(c.stream, subject, received)
    requires forall m :: 0 <= m < |c.stream| ==>
               c.stream[m].subject == subject && (judge(c.stream[m]).Ok? ==> m in c.settled)
    requires Determined(l.accepted, DecodeWith(judge, subject, ingestedAt))
    ensures var table := TableOf(Spared(l.accepted, Lost(l)), DecodeWith(judge, subject, ingestedAt));
            c.rows.Keys == table.Keys && forall key <- table :: c.rows[key].measured == table[key].measured
  {
    hide Remaining, Settled, Spared, TableOf, Lost;
    var decode := DecodeWith(judge, subject, ingestedAt);
    DrainedOnce(l, received, decode);
    var table := TableOf(received, decode);
    forall key | key in c.rows ensures key in table && c.rows[key].measured == table[key].measured {
      RowIsInTable(l, received, judge, deadLetter, c, subject, ingestedAt, key);
    }
    forall key | key in table ensures key in c.rows {
      var i := TableRowIs(received, key, decode);
      var m :| 0 <= m < |c.stream| && c.stream[m] == Ingest.Message(subject, received[i]);
      assert m in c.settled;
    }
  }

  lemma RowIsInTable(l: Ledger, received: seq<Bytes>, judge: Ingest.Judge, deadLetter: bool, c: Ingest.Cloud,
                     subject: string,
                     ingestedAt: int, key: Key)
    requires Tracks(l, [], received) && Ingest.Accounted(judge, deadLetter, c) && Carries(c.stream, subject, received)
    requires forall m :: 0 <= m < |c.stream| ==> c.stream[m].subject == subject
    requires Determined(l.accepted, DecodeWith(judge, subject, ingestedAt)) && key in c.rows
    ensures var table := TableOf(received, DecodeWith(judge, subject, ingestedAt));
            key in table && c.rows[key].measured == table[key].measured
  {
    hide Remaining, Settled, Ingest.Accounted, TableOf;
    var decode := DecodeWith(judge, subject, ingestedAt);
    var m := RowsWereAccepted(l, [], received, judge, deadLetter, c, subject, key);
    assert c.stream[m] == Ingest.Message(subject, c.stream[m].payload);
    var i :| 0 <= i < |received| && received[i] == c.stream[m].payload;
    TableHasKey(received, i, decode);
    var j := TableRowIs(received, key, decode);
    ReceivedWasAccepted(l, received);
    assert received[i] in received && received[j] in received;
  }

  // ----- one run of everything

  /** Something happens at the edge, an ingest runner processes a batch, or another device publishes. */
  datatype Happening =
    | AtEdge(event: Event)
    | AtIngest(batch: seq<nat>, ingestedAt: int, answers: Ingest.Answers, crashAfter: Option<nat>)
    | Elsewhere(message: Ingest.Message)

  function EdgeEvents(script: seq<Happening>): seq<Event> {
    if script == [] then []
    else
      var last := script[|script| - 1];
      EdgeEvents(script[..|script| - 1]) + if last.AtEdge? then [last.event] else []
  }

  /** The broker delivers what it has. */
  function Deliverable(batch: seq<nat>, n: nat): (ids: seq<nat>)
    ensures forall i :: 0 <= i < |ids| ==> ids[i] < n
  {
    if batch == [] then []
    else Deliverable(batch[..|batch| - 1], n) + if batch[|batch| - 1] < n then [batch[|batch| - 1]] else []
  }

  lemma ReceivedGrows(l: Ledger, l': Ledger, event: Event, config: SpoolConfig, batch: nat)
    requires Safe(l) && Safe(l') && Follows(l, l', event, config, batch)
    ensures Sent(l) <= Sent(l')
  {
    hide Remaining, Settled, Fits, KeptBy, TakenBy, Between;
    assert l.delivered <= l'.delivered && l.accepted <= l'.accepted;
  }

  /** Each record the cloud received in a step is a message in the broker. */
  method Relay(judge: Ingest.Judge, deadLetter: bool, cloud: Ingest.Cloud, subject: string, before: seq<Bytes>,
               received: seq<Bytes>)
    returns (after: Ingest.Cloud)
    requires Ingest.Accounted(judge, deadLetter, cloud) && Carries(cloud.stream, subject, before) && before <= received
    ensures Ingest.Accounted(judge, deadLetter, after) && Carries(after.stream, subject, received)
  {
    hide Ingest.Accounted, Carries;
    after := cloud;
    assert received[..|before|] == before;
    for i := |before| to |received|
      invariant Ingest.Accounted(judge, deadLetter, after) && Carries(after.stream, subject, received[..i])
    {
      var message := Ingest.Message(subject, received[i]);
      Ingest.AccountedAfterPublish(judge, deadLetter, after, message);
      OneMoreCarried(after.stream, subject, received, i);
      after := after.(stream := after.stream + [message]);
    }
    assert received[..|received|] == received;
  }

  lemma OneMoreCarried(stream: seq<Ingest.Message>, subject: string, received: seq<Bytes>, i: nat)
    requires i < |received| && Carries(stream, subject, received[..i])
    ensures Carries(stream + [Ingest.Message(subject, received[i])], subject, received[..i + 1])
  {
    var more, longer := received[..i + 1], stream + [Ingest.Message(subject, received[i])];
    assert more == received[..i] + [received[i]];
    forall j | 0 <= j < |more| ensures Ingest.Message(subject, more[j]) in longer {
      assert j < i ==> Ingest.Message(subject, received[..i][j]) in stream;
    }
  }

  lemma OtherCarried(stream: seq<Ingest.Message>, subject: string, received: seq<Bytes>, message: Ingest.Message)
    requires Carries(stream, subject, received) && message.subject != subject
    ensures Carries(stream + [message], subject, received)
  {
    var longer := stream + [message];
    forall i | 0 <= i < |received| ensures Ingest.Message(subject, received[i]) in longer {
      assert Ingest.Message(subject, received[i]) in stream;
    }
  }

  /** Everything the system can tell about itself at any moment of a run. */
  ghost predicate Whole(script: seq<Happening>, config: SpoolConfig, batch: nat, judge: Ingest.Judge, deadLetter: bool,
                        cloud: Ingest.Cloud, subject: string, received: seq<Bytes>, pending: seq<Bytes>,
                        trace: seq<Ledger>)
  {
    && IsTrace(trace, EdgeEvents(script), config, batch)
    && Tracks(trace[|trace| - 1], pending, received)
    && Ingest.Accounted(judge, deadLetter, cloud) && Carries(cloud.stream, subject, received)
  }

  /**
   * The edge, the broker, the ingest runner and other devices, interleaved and crashing in any
   * way: every payload the spool ever accepted is somewhere.
   */
  method RunSystem(crc: Checksum, config: SpoolConfig, batchSize: nat, judge: Ingest.Judge, subject: string,
                   script: seq<Happening>)
    returns (received: seq<Bytes>, pending: seq<Bytes>, cloud: Ingest.Cloud)
    requires forall i :: 0 <= i < |script| && script[i].Elsewhere? ==> script[i].message.subject != subject
    ensures exists trace: seq<Ledger> ::
              && Whole(script, config, BatchOf(batchSize), judge, true, cloud, subject, received, pending, trace)
              && AllSomewhere(trace[|trace| - 1], pending, judge, cloud, subject)
  {
    hide Spool.Valid, Tracks, Follows, IsTrace, TotalLength, Spool.Data, Spool.Pending, Ingest.Accounted, Carries,
      EdgeEvents, AllSomewhere;
    var spool := OpenEmpty(crc, config);
    ghost var trace, batch := [NEW_LEDGER], BatchOf(batchSize);
    NothingHappened(script, config, batch, judge, subject);
    cloud := Ingest.Cloud([], {}, [], map[], []);
    for i := 0 to |script|
      invariant fresh(spool) && fresh(spool.device) && spool.Valid() && spool.crc == crc && spool.config == config
      invariant |trace| > 0 && Matches(trace[|trace| - 1], spool)
      invariant IsTrace(trace, EdgeEvents(script[..i]), config, batch)
      invariant Ingest.Accounted(judge, true, cloud) && Carries(cloud.stream, subject, spool.device.received)
    {
      EdgeEventsNext(script, i);
      match script[i] {
        case AtEdge(event) =>
          var before := spool.device.received;
          ghost var l, waiting := trace[|trace| - 1], spool.Pending();
          ghost var l';
          spool, l' := Step(spool, batchSize, event, l);
          StepRelays(l, l', event, config, batch, waiting, before, spool);
          TraceExtends(trace, EdgeEvents(script[..i]), event, config, batch, l');
          trace := trace + [l'];
          cloud := Relay(judge, true, cloud, subject, before, spool.device.received);
        case AtIngest(ids, ingestedAt, answers, crashAfter) =>
          cloud := Ingest.ProcessOrCrash(judge, true, cloud, Deliverable(ids, |cloud.stream|), ingestedAt, answers,
              crashAfter);
        case Elsewhere(message) =>
          Ingest.AccountedAfterPublish(judge, true, cloud, message);
          OtherCarried(cloud.stream, subject, spool.device.received, message);
          cloud := cloud.(stream := cloud.stream + [message]);
      }
    }
    assert script[..|script|] == script;
    received := spool.device.received;
    pending := ReadAll(spool);
    NothingFallsAnywhere(trace[|trace| - 1], pending, received, judge, cloud, subject);
    assert Whole(script, config, batch, judge, true, cloud, subject, received, pending, trace);
  }

  lemma NothingHappened(script: seq<Happening>, config: SpoolConfig, batch: nat, judge: Ingest.Judge, subject: string)
    ensures EdgeEvents(script[..0]) == [] && IsTrace([NEW_LEDGER], EdgeEvents(script[..0]), config, batch)
    ensures Ingest.Accounted(judge, true, Ingest.Cloud([], {}, [], map[], [])) && Carries([], subject, [])
    ensures forall pending, received :: Tracks(NEW_LEDGER, pending, received) ==> received == []
  {
    Ingest.NothingToPersist(map[]);
  }

  lemma EdgeEventsNext(script: seq<Happening>, i: nat)
    requires i < |script|
    ensures var events := EdgeEvents(script[..i]);
            EdgeEvents(script[..i + 1]) == if script[i].AtEdge? then events + [script[i].event] else events
  {
    assert script[..i + 1][..i] == script[..i];
  }

  lemma StepRelays(l: Ledger, l': Ledger, event: Event, config: SpoolConfig, batch: nat, waiting: seq<Bytes>,
                   before: seq<Bytes>, spool: Spool)
    requires Tracks(l, waiting, before) && Matches(l', spool) && Follows(l, l', event, config, batch)
    ensures before <= spool.device.received
  {
    hide Safe, Follows;
    ReceivedGrows(l, l', event, config, batch);
  }

  lemma TraceExtends(trace: seq<Ledger>, events: seq<Event>, event: Event, config: SpoolConfig, batch: nat, l: Ledger)
    requires IsTrace(trace, events, config, batch) && Follows(trace[|trace| - 1], l, event, config, batch)
    ensures IsTrace(trace + [l], events + [event], config, batch)
  {
    hide Follows;
    var script := events + [event];
    assert script[..|events|] == events && script[..|events| + 1] == script;
    TraceGrows(trace, script, |events|, config, batch, l);
  }
}
