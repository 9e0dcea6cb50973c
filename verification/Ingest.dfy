/** The telemetry table: the first record persisted under a key stays. */
module TelemetryTable {

  datatype Key = Key(stationId: string, connectorId: string, timestamp: int, edgeId: string)

  datatype Measured = Measured(voltage: real, current: real, powerKW: real, energyKWh: real, soc: real,
      temperatureC: real,
                               state: string, siteId: string, receivedAt: int, edgeSequence: nat, clockSync: string)

  datatype Telemetry = Telemetry(key: Key, measured: Measured, ingestedAt: int)

  type Rows = map<Key, Telemetry>

  /** INSERT ... ON CONFLICT DO NOTHING */
  function InsertRow(rows: Rows, t: Telemetry): Rows {
    if t.key in rows then rows else rows[t.key := t]
  }

  function InsertAll(rows: Rows, batch: seq<Telemetry>): Rows {
    if batch == [] then rows else InsertRow(InsertAll(rows, batch[..|batch| - 1]), batch[|batch| - 1])
  }

  lemma {:induction false} InsertAllConcat(rows: Rows, a: seq<Telemetry>, b: seq<Telemetry>)
    ensures InsertAll(rows, a + b) == InsertAll(InsertAll(rows, a), b)
  {
    if b == [] {
      assert a + b == a;
    } else {
      assert (a + b)[..|a + b| - 1] == a + b[..|b| - 1];
      InsertAllConcat(rows, a, b[..|b| - 1]);
    }
  }

  /** Nothing stored is ever changed, and every record of the batch has a row under its key. */
  lemma {:induction false} InsertAllKeeps(rows: Rows, batch: seq<Telemetry>)
    ensures forall k :: k in rows ==> k in InsertAll(rows, batch) && InsertAll(rows, batch)[k] == rows[k]
    ensures forall i :: 0 <= i < |batch| ==> batch[i].key in InsertAll(rows, batch)
    ensures forall k :: k in InsertAll(rows, batch) ==> k in rows || exists i :: 0 <= i < |batch| && batch[i].key == k
  {
    if batch != [] {
      InsertAllKeeps(rows, batch[..|batch| - 1]);
    }
  }

  lemma {:induction false} RowIsFirst(log: seq<Telemetry>, key: Key) returns (n: nat)
    requires key in InsertAll(map[], log)
    ensures n < |log| && log[n].key == key && InsertAll(map[], log)[key] == log[n]
    ensures forall i :: 0 <= i < n ==> log[i].key != key
  {
    var init := log[..|log| - 1];
    if key in InsertAll(map[], init) {
      n := RowIsFirst(init, key);
    } else {
      n := |log| - 1;
      InsertAllKeeps(map[], init);
      assert forall i :: 0 <= i < n ==> init[i] == log[i];
    }
  }

  /** However often and in whatever batches records arrive, a row holds the first one persisted under its key. */
  lemma FirstPersistedStays(log: seq<Telemetry>, n: nat)
    requires n < |log| && forall i :: 0 <= i < n ==> log[i].key != log[n].key
    ensures log[n].key in InsertAll(map[], log) && InsertAll(map[], log)[log[n].key] == log[n]
  {
    var before, after := log[..n], log[n + 1..];
    assert log == before + [log[n]] + after;
    InsertAllKeeps(map[], before);
    InsertAllConcat(map[], before + [log[n]], after);
    assert (before + [log[n]])[..n] == before;
    InsertAllKeeps(InsertAll(map[], before + [log[n]]), after);
  }
}

/** Consuming telemetry from a broker that redelivers until a message is settled. */
module Ingest {
  import opened Prelude
  import opened TelemetryTable

  datatype Message = Message(subject: string, payload: Bytes)

  datatype Decoded = Ok(key: Key, measured: Measured) | Permanent | Transient

  /** Decoding a payload and checking that its sender may have sent it. */
  type Judge = Message -> Decoded

  /** What outlives the ingest process. Messages are numbered by their position in the stream. */
  datatype Cloud = Cloud(stream: seq<Message>, settled: set<nat>, parked: seq<Bytes>, rows: Rows,
      persisted: seq<Telemetry>)

  /** Why a settled message need not come again. */
  ghost predicate Represented(judge: Judge, c: Cloud, n: nat)
    requires n < |c.stream|
  {
    judge(c.stream[n]).Ok? && judge(c.stream[n]).key in c.rows
  }

  ghost predicate Rejected(judge: Judge, deadLetter: bool, c: Cloud, n: nat)
    requires n < |c.stream|
  {
    judge(c.stream[n]).Permanent? && (deadLetter ==> c.stream[n].payload in c.parked)
  }

  /** Some published message says exactly this. */
  ghost predicate Said(judge: Judge, stream: seq<Message>, t: Telemetry) {
    exists m :: 0 <= m < |stream| && judge(stream[m]) == Ok(t.key, t.measured)
  }

  ghost predicate AllSaid(judge: Judge, stream: seq<Message>, records: seq<Telemetry>) {
    forall i :: 0 <= i < |records| ==> Said(judge, stream, records[i])
  }

  /**
   * Every settled message has a row or was rejected; every row holds the first record persisted
   * under its key, and no record was persisted that was not published.
   */
  ghost predicate Accounted(judge: Judge, deadLetter: bool, c: Cloud) {
    && (forall n <- c.settled :: n < |c.stream| && (Represented(judge, c, n) || Rejected(judge, deadLetter, c, n)))
    && c.rows == InsertAll(map[], c.persisted) && AllSaid(judge, c.stream, c.persisted)
  }

  /**
   * How the outside world answers while one batch is processed. A park in `parkUnheard` went
   * through and reports an error.
   */
  datatype Answers = Answers(parkFails: set<nat>, parkUnheard: set<nat>, termLost: set<nat>, ackLost: set<nat>,
                             persist: TransactionOutcome)

  /** The runner hears that a payload was parked. */
  predicate HearsParked(answers: Answers, n: nat) {
    n !in answers.parkFails && n !in answers.parkUnheard
  }

  // ----- what a batch amounts to

  /** The messages of a batch that decode, in order. */
  function AcceptedOf(judge: Judge, stream: seq<Message>, batch: seq<nat>): (ids: seq<nat>)
    requires forall i :: 0 <= i < |batch| ==> batch[i] < |stream|
    ensures forall i :: 0 <= i < |ids| ==> ids[i] < |stream| && judge(stream[ids[i]]).Ok?
  {
    if batch == [] then []
    else
      var init, n := AcceptedOf(judge, stream, batch[..|batch| - 1]), batch[|batch| - 1];
      if judge(stream[n]).Ok? then init + [n] else init
  }

  lemma {:induction false} AcceptedMembers(judge: Judge, stream: seq<Message>, batch: seq<nat>, n: nat)
    requires forall i :: 0 <= i < |batch| ==> batch[i] < |stream|
    ensures n in AcceptedOf(judge, stream, batch) <==> n in batch && judge(stream[n]).Ok?
  {
    if batch != [] {
      var init, last := batch[..|batch| - 1], batch[|batch| - 1];
      assert batch == init + [last];
      AcceptedMembers(judge, stream, init, n);
    }
  }

  function RecordsOf(judge: Judge, stream: seq<Message>, ids: seq<nat>, ingestedAt: int): (records: seq<Telemetry>)
    requires forall i :: 0 <= i < |ids| ==> ids[i] < |stream| && judge(stream[ids[i]]).Ok?
    ensures |records| == |ids|
  {
    seq(|ids|, i requires 0 <= i < |ids| =>
      Telemetry(judge(stream[ids[i]]).key, judge(stream[ids[i]]).measured, ingestedAt))
  }

  /** The first message of the batch that decodes to a record under this key is the one at `i`. */
  ghost predicate FirstWith(judge: Judge, stream: seq<Message>, batch: seq<nat>, key: Key, i: nat)
    requires forall j :: 0 <= j < |batch| ==> batch[j] < |stream|
  {
    && i < |batch| && judge(stream[batch[i]]).Ok? && judge(stream[batch[i]]).key == key
    && forall j :: 0 <= j < i ==> judge(stream[batch[j]]).Ok? ==> judge(stream[batch[j]]).key != key
  }

  /** This is the record of the first message of the batch that has one under its key, stamped with the time given. */
  ghost predicate FromBatch(judge: Judge, stream: seq<Message>, batch: seq<nat>, ingestedAt: int, t: Telemetry)
    requires forall j :: 0 <= j < |batch| ==> batch[j] < |stream|
  {
    t.ingestedAt == ingestedAt
    && exists i: nat :: FirstWith(judge, stream, batch, t.key, i) && judge(stream[batch[i]]).measured == t.measured
  }

  /** What a batch adds to the table: under each key not there yet, the first record the batch has for it. */
  ghost predicate Stores(judge: Judge, stream: seq<Message>, before: Rows, after: Rows, batch: seq<nat>,
                         ingestedAt: int)
    requires forall j :: 0 <= j < |batch| ==> batch[j] < |stream|
  {
    && (forall k :: k in before ==> k in after && after[k] == before[k])
    && (forall k :: k in after && k !in before ==>
          after[k].key == k && FromBatch(judge, stream, batch, ingestedAt, after[k]))
    && (forall i :: 0 <= i < |batch| ==> judge(stream[batch[i]]).Ok? ==> judge(stream[batch[i]]).key in after)
  }

  lemma {:induction false} BatchIsStored(judge: Judge, stream: seq<Message>, rows: Rows, batch: seq<nat>,
                                         ingestedAt: int)
    requires forall j :: 0 <= j < |batch| ==> batch[j] < |stream|
    ensures Stores(judge, stream, rows,
                   InsertAll(rows, RecordsOf(judge, stream, AcceptedOf(judge, stream, batch), ingestedAt)),
                   batch, ingestedAt)
  {
    if batch != [] {
      var m := |batch| - 1;
      var init, n := batch[..m], batch[m];
      BatchIsStored(judge, stream, rows, init, ingestedAt);
      AcceptedOfOneMore(judge, stream, batch, m, ingestedAt);
      assert batch[..m + 1] == batch;
      hide AcceptedOf, RecordsOf;
      var records := RecordsOf(judge, stream, AcceptedOf(judge, stream, init), ingestedAt);
      if judge(stream[n]).Ok? {
        var t := Telemetry(judge(stream[n]).key, judge(stream[n]).measured, ingestedAt);
        assert (records + [t])[..|records|] == records;
      }
      OneMoreStored(judge, stream, rows, InsertAll(rows, records), batch, ingestedAt);
    }
  }

  lemma OneMoreStored(judge: Judge, stream: seq<Message>, rows: Rows, mid: Rows, batch: seq<nat>, ingestedAt: int)
    requires batch != [] && forall j :: 0 <= j < |batch| ==> batch[j] < |stream|
    requires Stores(judge, stream, rows, mid, batch[..|batch| - 1], ingestedAt)
    ensures var said := judge(stream[batch[|batch| - 1]]);
            Stores(judge, stream, rows,
                   if said.Ok? then InsertRow(mid, Telemetry(said.key, said.measured, ingestedAt)) else mid,
                   batch, ingestedAt)
  {
    hide FromBatch;
    var m := |batch| - 1;
    var said := judge(stream[batch[m]]);
    var after := if said.Ok? then InsertRow(mid, Telemetry(said.key, said.measured, ingestedAt)) else mid;
    forall k | k in after && k !in rows
      ensures after[k].key == k && FromBatch(judge, stream, batch, ingestedAt, after[k])
    {
      if k in mid {
        FromLonger(judge, stream, batch, ingestedAt, mid[k]);
      } else {
        FromLast(judge, stream, batch, ingestedAt);
      }
    }
  }

  lemma FromLonger(judge: Judge, stream: seq<Message>, batch: seq<nat>, ingestedAt: int, t: Telemetry)
    requires batch != [] && forall j :: 0 <= j < |batch| ==> batch[j] < |stream|
    requires FromBatch(judge, stream, batch[..|batch| - 1], ingestedAt, t)
    ensures FromBatch(judge, stream, batch, ingestedAt, t)
  {
    var init := batch[..|batch| - 1];
    var i: nat :| FirstWith(judge, stream, init, t.key, i) && judge(stream[init[i]]).measured == t.measured;
    assert FirstWith(judge, stream, batch, t.key, i);
  }

  lemma FromLast(judge: Judge, stream: seq<Message>, batch: seq<nat>, ingestedAt: int)
    requires batch != [] && forall j :: 0 <= j < |batch| ==> batch[j] < |stream|
    requires judge(stream[batch[|batch| - 1]]).Ok?
    requires var key := judge(stream[batch[|batch| - 1]]).key;
             forall j :: 0 <= j < |batch| - 1 ==> judge(stream[batch[j]]).Ok? ==> judge(stream[batch[j]]).key != key
    ensures var said := judge(stream[batch[|batch| - 1]]);
            FromBatch(judge, stream, batch, ingestedAt, Telemetry(said.key, said.measured, ingestedAt))
  {
    assert FirstWith(judge, stream, batch, judge(stream[batch[|batch| - 1]]).key, |batch| - 1);
  }

  /** The payloads a batch puts on the dead-letter stream, in order. */
  function ParksOf(judge: Judge, stream: seq<Message>, deadLetter: bool, batch: seq<nat>, answers: Answers): seq<Bytes>
    requires forall i :: 0 <= i < |batch| ==> batch[i] < |stream|
  {
    if batch == [] then []
    else
      var init, n := ParksOf(judge, stream, deadLetter, batch[..|batch| - 1], answers), batch[|batch| - 1];
      if deadLetter && judge(stream[n]).Permanent? && n !in answers.parkFails then init + [stream[n].payload] else init
  }

  predicate ParksWith(judge: Judge, stream: seq<Message>, answers: Answers, n: nat, payload: Bytes) {
    n < |stream| && stream[n].payload == payload && judge(stream[n]).Permanent? && n !in answers.parkFails
  }

  lemma {:induction false} ParksMembers(judge: Judge, stream: seq<Message>, deadLetter: bool, batch: seq<nat>,
                                        answers: Answers, payload: Bytes)
    requires forall i :: 0 <= i < |batch| ==> batch[i] < |stream|
    ensures payload in ParksOf(judge, stream, deadLetter, batch, answers) <==>
              deadLetter && exists n :: n in batch && ParksWith(judge, stream, answers, n, payload)
    ensures |ParksOf(judge, stream, deadLetter, batch, answers)| <= |batch|
  {
    if batch != [] {
      var init, last := batch[..|batch| - 1], batch[|batch| - 1];
      assert batch == init + [last];
      ParksMembers(judge, stream, deadLetter, init, answers, payload);
      assert last in batch && forall n :: n in batch <==> n in init || n == last;
      assert deadLetter && ParksWith(judge, stream, answers, last, payload) ==>
          payload in ParksOf(judge, stream, deadLetter, batch, answers);
    }
  }

  /** The rejected messages of a batch that are settled: parked, unless there is nowhere to park them. */
  function ParkedOf(judge: Judge, stream: seq<Message>, deadLetter: bool, batch: seq<nat>, answers: Answers): set<nat>
    requires forall i :: 0 <= i < |batch| ==> batch[i] < |stream|
  {
    set n | n in batch && n < |stream| && judge(stream[n]).Permanent?
            && (deadLetter ==> HearsParked(answers, n)) && n !in answers.termLost
  }

  function AckedOf(ids: seq<nat>, answers: Answers): set<nat> {
    set n | n in ids && n !in answers.ackLost
  }

  class Runner {
    const judge: Judge
    const deadLetter: bool
    var cloud: Cloud
    /** Every state the cloud passes through; a crash of the runner can leave any of them. */
    var history: seq<Cloud>

    constructor (judge: Judge, deadLetter: bool, cloud: Cloud)
      ensures this.judge == judge && this.deadLetter == deadLetter && this.cloud == cloud && history == []
    {
      this.judge, this.deadLetter, this.cloud, this.history := judge, deadLetter, cloud, [];
    }

    ghost predicate Valid()
      reads this
    {
      && Accounted(judge, deadLetter, cloud)
      && forall i :: 0 <= i < |history| ==>
           Accounted(judge, deadLetter, history[i]) && history[i].stream == cloud.stream
    }

    /** The broker will not deliver a message again. It takes a reason. */
    method Settle(n: nat)
      requires Valid() && n < |cloud.stream| && (Represented(judge, cloud, n) || Rejected(judge, deadLetter, cloud, n))
      modifies this
      ensures Valid() && cloud == old(cloud).(settled := old(cloud).settled + {n})
      ensures history == old(history) + [cloud]
    {
      cloud := cloud.(settled := cloud.settled + {n});
      history := history + [cloud];
    }

    method Park(payload: Bytes)
      requires Valid()
      modifies this
      ensures Valid() && cloud == old(cloud).(parked := old(cloud).parked + [payload])
      ensures history == old(history) + [cloud]
    {
      cloud := cloud.(parked := cloud.parked + [payload]);
      AccountedAfterPark(judge, deadLetter, old(cloud), payload);
      history := history + [cloud];
    }

    /** Makes what a transaction did to the table visible, all at once. */
    method Commit(transaction: Rows, batch: seq<Telemetry>)
      requires Valid() && transaction == InsertAll(cloud.rows, batch) && AllSaid(judge, cloud.stream, batch)
      modifies this
      ensures Valid()
      ensures cloud == old(cloud).(rows := InsertAll(old(cloud).rows, batch), persisted := old(cloud).persisted + batch)
      ensures history == old(history) + [cloud]
    {
      cloud := cloud.(rows := transaction, persisted := cloud.persisted + batch);
      AccountedAfterCommit(judge, deadLetter, old(cloud), batch);
      history := history + [cloud];
    }

    /** A message is given up only after its payload is safely parked, if there is anywhere to park it. */
    method ParkMessage(n: nat, answers: Answers)
      requires Valid() && n < |cloud.stream| && judge(cloud.stream[n]).Permanent?
      modifies this
      ensures Valid() && cloud.stream == old(cloud).stream && cloud.rows == old(cloud).rows
      ensures cloud.persisted == old(cloud).persisted
      ensures cloud.settled == old(cloud).settled
              + if (deadLetter ==> HearsParked(answers, n)) && n !in answers.termLost then {n} else {}
      ensures cloud.parked == old(cloud).parked
              + if deadLetter && n !in answers.parkFails then [cloud.stream[n].payload] else []
    {
      if deadLetter {
        if n in answers.parkFails {
          return;
        }
        Park(cloud.stream[n].payload);
        if n in answers.parkUnheard {
          return;
        }
      }
      if n !in answers.termLost {
        Settle(n);
      }
    }

    /** All records of a batch become visible, or, on an error before the commit, none. */
    method PersistBatch(batch: seq<Telemetry>, outcome: TransactionOutcome) returns (ok: bool)
      requires Valid() && AllSaid(judge, cloud.stream, batch)
      modifies this
      ensures Valid() && (ok <==> outcome.Committed?)
      ensures cloud == if outcome.RolledBack? then old(cloud) else
                old(cloud).(rows := InsertAll(old(cloud).rows, batch), persisted := old(cloud).persisted + batch)
    {
      var transaction := cloud.rows;
      for i := 0 to |batch|
        invariant cloud == old(cloud) && history == old(history)
        invariant transaction == InsertAll(cloud.rows, batch[..i])
      {
        if outcome == RolledBack(i) {
          return false;
        }
        assert batch[..i + 1][..i] == batch[..i];
        transaction := InsertRow(transaction, batch[i]);
      }
      assert batch[..|batch|] == batch;
      if outcome.RolledBack? {
        return false;
      }
      Commit(transaction, batch);
      ok := outcome.Committed?;
    }

    /** One batch: what can be read is stored together, and only then settled. */
    method ProcessBatch(batch: seq<nat>, ingestedAt: int, answers: Answers)
      requires Valid() && forall i :: 0 <= i < |batch| ==> batch[i] < |cloud.stream|
      modifies this
      ensures Valid() && cloud.stream == old(cloud).stream
      ensures if answers.persist.RolledBack?
              then cloud.rows == old(cloud).rows && cloud.persisted == old(cloud).persisted
              else Stores(judge, cloud.stream, old(cloud).rows, cloud.rows, batch, ingestedAt)
      ensures cloud.parked == old(cloud).parked + ParksOf(judge, cloud.stream, deadLetter, batch, answers)
      ensures var was := old(cloud);
              var accepted := AcceptedOf(judge, was.stream, batch);
              && cloud.rows == (if answers.persist.RolledBack? then was.rows
                                else InsertAll(was.rows, RecordsOf(judge, was.stream, accepted, ingestedAt)))
              && cloud.settled == was.settled + ParkedOf(judge, was.stream, deadLetter, batch, answers)
                                  + (if answers.persist.Committed? then AckedOf(accepted, answers) else {})
    {
      hide Accounted, InsertAll, AllSaid, Stores, ParksOf;
      BatchIsStored(judge, cloud.stream, cloud.rows, batch, ingestedAt);
      var accepted, decoded := Triage(batch, ingestedAt, answers);
      RecordsAreSaid(judge, cloud.stream, accepted, ingestedAt);
      if decoded == [] {
        NothingToPersist(cloud.rows);
        return;
      }
      var ok := PersistBatch(decoded, answers.persist);
      if ok {
        Acknowledge(accepted, ingestedAt, answers, old(cloud).rows);
      }
    }

    /** The first loop of `ProcessBatch`: keep what decodes, park what never will, leave the rest to be redelivered. */
    method Triage(batch: seq<nat>, ingestedAt: int, answers: Answers) returns (accepted: seq<nat>,
                  decoded: seq<Telemetry>)
      requires Valid() && forall i :: 0 <= i < |batch| ==> batch[i] < |cloud.stream|
      modifies this
      ensures Valid() && cloud.stream == old(cloud).stream && cloud.rows == old(cloud).rows
      ensures accepted == AcceptedOf(judge, cloud.stream, batch)
      ensures decoded == RecordsOf(judge, cloud.stream, accepted, ingestedAt)
      ensures cloud.persisted == old(cloud).persisted
      ensures cloud.parked == old(cloud).parked + ParksOf(judge, cloud.stream, deadLetter, batch, answers)
      ensures cloud.settled == old(cloud).settled + ParkedOf(judge, cloud.stream, deadLetter, batch, answers)
    {
      TriageOfNone(judge, cloud.stream, deadLetter, ingestedAt, answers);
      hide Accounted, AcceptedOf, RecordsOf, ParkedOf, ParksOf;
      accepted, decoded := [], [];
      for i := 0 to |batch|
        invariant Valid() && cloud.stream == old(cloud).stream && cloud.rows == old(cloud).rows
        invariant accepted == AcceptedOf(judge, cloud.stream, batch[..i])
        invariant decoded == RecordsOf(judge, cloud.stream, accepted, ingestedAt)
        invariant cloud.persisted == old(cloud).persisted
        invariant cloud.parked == old(cloud).parked + ParksOf(judge, cloud.stream, deadLetter, batch[..i], answers)
        invariant cloud.settled == old(cloud).settled + ParkedOf(judge, cloud.stream, deadLetter, batch[..i], answers)
      {
        var n := batch[i];
        AcceptedOfOneMore(judge, cloud.stream, batch, i, ingestedAt);
        ParkedOfOneMore(judge, cloud.stream, deadLetter, batch, i, answers);
        ParksOfOneMore(judge, cloud.stream, deadLetter, batch, i, answers);
        match judge(cloud.stream[n]) {
          case Ok(key, measured) =>
            accepted, decoded := accepted + [n], decoded + [Telemetry(key, measured, ingestedAt)];
          case Permanent =>
            ParkMessage(n, answers);
          case Transient =>
        }
      }
      assert batch[..|batch|] == batch;
    }

    /** The last loop of `ProcessBatch`: everything accepted is on record, so it may be acknowledged. */
    method Acknowledge(accepted: seq<nat>, ghost ingestedAt: int, answers: Answers, ghost before: Rows)
      requires Valid()
      requires forall i :: 0 <= i < |accepted| ==> accepted[i] < |cloud.stream| && judge(cloud.stream[accepted[i]]).Ok?
      requires cloud.rows == InsertAll(before, RecordsOf(judge, cloud.stream, accepted, ingestedAt))
      modifies this
      ensures Valid() && cloud == old(cloud).(settled := old(cloud).settled + AckedOf(accepted, answers))
    {
      hide Accounted, InsertAll;
      for i := 0 to |accepted|
        invariant Valid() && cloud == old(cloud).(settled := old(cloud).settled + AckedOf(accepted[..i], answers))
      {
        var n := accepted[i];
        assert accepted[..i + 1] == accepted[..i] + [n];
        if n !in answers.ackLost {
          RecordsHaveKeys(judge, cloud.(rows := before), accepted, ingestedAt, n);
          Settle(n);
        }
      }
      assert accepted[..|accepted|] == accepted;
    }
  }

  lemma TriageOfNone(judge: Judge, stream: seq<Message>, deadLetter: bool, ingestedAt: int, answers: Answers)
    ensures AcceptedOf(judge, stream, []) == [] && RecordsOf(judge, stream, [], ingestedAt) == []
    ensures ParkedOf(judge, stream, deadLetter, [], answers) == {}
    ensures ParksOf(judge, stream, deadLetter, [], answers) == []
  {
  }

  lemma AcceptedOfOneMore(judge: Judge, stream: seq<Message>, batch: seq<nat>, i: nat, ingestedAt: int)
    requires i < |batch| && forall j :: 0 <= j < |batch| ==> batch[j] < |stream|
    ensures var n, ids := batch[i], AcceptedOf(judge, stream, batch[..i]);
            && AcceptedOf(judge, stream, batch[..i + 1]) == (if judge(stream[n]).Ok? then ids + [n] else ids)
            && (judge(stream[n]).Ok? ==>
                  RecordsOf(judge, stream, ids + [n], ingestedAt)
                  == RecordsOf(judge, stream, ids, ingestedAt)
                     + [Telemetry(judge(stream[n]).key, judge(stream[n]).measured, ingestedAt)])
  {
    hide RecordsOf;
    assert batch[..i + 1][..i] == batch[..i];
    if judge(stream[batch[i]]).Ok? {
      RecordsSnoc(judge, stream, AcceptedOf(judge, stream, batch[..i]), batch[i], ingestedAt);
    }
  }

  lemma RecordsSnoc(judge: Judge, stream: seq<Message>, ids: seq<nat>, n: nat, ingestedAt: int)
    requires forall i :: 0 <= i < |ids| ==> ids[i] < |stream| && judge(stream[ids[i]]).Ok?
    requires n < |stream| && judge(stream[n]).Ok?
    ensures RecordsOf(judge, stream, ids + [n], ingestedAt)
            == RecordsOf(judge, stream, ids, ingestedAt)
               + [Telemetry(judge(stream[n]).key, judge(stream[n]).measured, ingestedAt)]
  {
  }

  lemma ParkedOfOneMore(judge: Judge, stream: seq<Message>, deadLetter: bool, batch: seq<nat>, i: nat, answers: Answers)
    requires i < |batch| && forall j :: 0 <= j < |batch| ==> batch[j] < |stream|
    ensures var n := batch[i];
            ParkedOf(judge, stream, deadLetter, batch[..i + 1], answers)
            == ParkedOf(judge, stream, deadLetter, batch[..i], answers)
               + if judge(stream[n]).Permanent? && (deadLetter ==> HearsParked(answers, n)) && n !in answers.termLost
                 then {n} else {}
  {
    assert batch[..i + 1] == batch[..i] + [batch[i]];
  }

  lemma ParksOfOneMore(judge: Judge, stream: seq<Message>, deadLetter: bool, batch: seq<nat>, i: nat, answers: Answers)
    requires i < |batch| && forall j :: 0 <= j < |batch| ==> batch[j] < |stream|
    ensures var n := batch[i];
            ParksOf(judge, stream, deadLetter, batch[..i + 1], answers)
            == ParksOf(judge, stream, deadLetter, batch[..i], answers)
               + if deadLetter && judge(stream[n]).Permanent? && n !in answers.parkFails then [stream[n].payload]
                 else []
  {
    assert batch[..i + 1][..i] == batch[..i];
  }

  lemma RecordsHaveKeys(judge: Judge, c: Cloud, ids: seq<nat>, ingestedAt: int, n: nat)
    requires forall i :: 0 <= i < |ids| ==> ids[i] < |c.stream| && judge(c.stream[ids[i]]).Ok?
    requires n in ids
    ensures n < |c.stream| && judge(c.stream[n]).Ok?
    ensures judge(c.stream[n]).key in InsertAll(c.rows, RecordsOf(judge, c.stream, ids, ingestedAt))
  {
    var records := RecordsOf(judge, c.stream, ids, ingestedAt);
    InsertAllKeeps(c.rows, records);
    var i :| 0 <= i < |ids| && ids[i] == n;
    assert records[i].key == judge(c.stream[n]).key;
  }

  lemma RecordsAreSaid(judge: Judge, stream: seq<Message>, ids: seq<nat>, ingestedAt: int)
    requires forall i :: 0 <= i < |ids| ==> ids[i] < |stream| && judge(stream[ids[i]]).Ok?
    ensures AllSaid(judge, stream, RecordsOf(judge, stream, ids, ingestedAt))
  {
    var records := RecordsOf(judge, stream, ids, ingestedAt);
    forall i | 0 <= i < |records| ensures Said(judge, stream, records[i]) {
      assert judge(stream[ids[i]]) == Ok(records[i].key, records[i].measured);
    }
  }

  lemma AccountedAfterPublish(judge: Judge, deadLetter: bool, c: Cloud, message: Message)
    requires Accounted(judge, deadLetter, c)
    ensures Accounted(judge, deadLetter, c.(stream := c.stream + [message]))
  {
    hide InsertAll;
    var c' := c.(stream := c.stream + [message]);
    forall i | 0 <= i < |c.persisted| ensures Said(judge, c'.stream, c.persisted[i]) {
      assert Said(judge, c.stream, c.persisted[i]);
      var m :| 0 <= m < |c.stream| && judge(c.stream[m]) == Ok(c.persisted[i].key, c.persisted[i].measured);
      assert c'.stream[m] == c.stream[m];
    }
  }

  lemma AccountedAfterPark(judge: Judge, deadLetter: bool, c: Cloud, payload: Bytes)
    requires Accounted(judge, deadLetter, c)
    ensures Accounted(judge, deadLetter, c.(parked := c.parked + [payload]))
  {
    var c' := c.(parked := c.parked + [payload]);
    forall n | n in c'.settled
      ensures n < |c'.stream| && (Represented(judge, c', n) || Rejected(judge, deadLetter, c', n))
    {
      assert n in c.settled;
    }
  }

  lemma AccountedAfterCommit(judge: Judge, deadLetter: bool, c: Cloud, batch: seq<Telemetry>)
    requires Accounted(judge, deadLetter, c) && AllSaid(judge, c.stream, batch)
    ensures Accounted(judge, deadLetter, c.(rows := InsertAll(c.rows, batch), persisted := c.persisted + batch))
  {
    var c' := c.(rows := InsertAll(c.rows, batch), persisted := c.persisted + batch);
    InsertAllConcat(map[], c.persisted, batch);
    InsertAllKeeps(c.rows, batch);
    forall n | n in c'.settled
      ensures n < |c'.stream| && (Represented(judge, c', n) || Rejected(judge, deadLetter, c', n))
    {
      assert n in c.settled;
    }
  }

  lemma NothingToPersist(rows: Rows)
    ensures InsertAll(rows, []) == rows
  {
  }

  /** With nothing failing, one pass settles everything that can be decided. */
  lemma CalmPassSettles(judge: Judge, deadLetter: bool, stream: seq<Message>, batch: seq<nat>, n: nat)
    requires forall i :: 0 <= i < |batch| ==> batch[i] < |stream|
    requires n in batch && !judge(stream[n]).Transient?
    ensures var calm := Answers({}, {}, {}, {}, Committed);
            n in ParkedOf(judge, stream, deadLetter, batch, calm) + AckedOf(AcceptedOf(judge, stream, batch), calm)
  {
    AcceptedMembers(judge, stream, batch, n);
  }

  // ----- runs

  datatype Event = Publish(message: Message) | Process(batch: seq<nat>, ingestedAt: int, answers: Answers,
      crashAfter: Option<nat>)

  function Published(script: seq<Event>): seq<Message> {
    if script == [] then []
    else
      var init, last := Published(script[..|script| - 1]), script[|script| - 1];
      if last.Publish? then init + [last.message] else init
  }

  /** One batch, run to its end or cut off by a crash after some number of effects. */
  method ProcessOrCrash(judge: Judge, deadLetter: bool, before: Cloud, batch: seq<nat>, ingestedAt: int,
                        answers: Answers,
                        crashAfter: Option<nat>)
    returns (cloud: Cloud)
    requires Accounted(judge, deadLetter, before) && forall i :: 0 <= i < |batch| ==> batch[i] < |before.stream|
    ensures Accounted(judge, deadLetter, cloud) && cloud.stream == before.stream
  {
    hide Accounted, InsertAll;
    var runner := new Runner(judge, deadLetter, before);
    runner.ProcessBatch(batch, ingestedAt, answers);
    cloud := runner.cloud;
    if crashAfter.Some? {
      var points := [before] + runner.history;
      cloud := points[if crashAfter.value < |points| then crashAfter.value else |points| - 1];
    }
  }

  /** Any interleaving of publishing, processing any deliverable batch against any answers, and crashing part-way. */
  method Run(judge: Judge, deadLetter: bool, script: seq<Event>) returns (cloud: Cloud)
    requires forall i :: 0 <= i < |script| && script[i].Process? ==>
               forall j :: 0 <= j < |script[i].batch| ==> script[i].batch[j] < |Published(script[..i])|
    ensures Accounted(judge, deadLetter, cloud) && cloud.stream == Published(script)
  {
    NothingToPersist(map[]);
    hide InsertAll, Represented, Rejected;
    cloud := Cloud([], {}, [], map[], []);
    for i := 0 to |script|
      invariant Accounted(judge, deadLetter, cloud) && cloud.stream == Published(script[..i])
    {
      assert script[..i + 1][..i] == script[..i];
      match script[i] {
        case Publish(message) =>
          AccountedAfterPublish(judge, deadLetter, cloud, message);
          cloud := cloud.(stream := cloud.stream + [message]);
        case Process(batch, ingestedAt, answers, crashAfter) =>
          cloud := ProcessOrCrash(judge, deadLetter, cloud, batch, ingestedAt, answers, crashAfter);
      }
    }
    assert script[..|script|] == script;
  }

  /**
   * In every reachable state each published message can still be delivered, is parked, or has a
   * row under its key that says what a published message with that key said.
   */
  lemma NothingIsLost(judge: Judge, c: Cloud, n: nat)
    requires Accounted(judge, true, c) && n < |c.stream|
    ensures || n !in c.settled
            || c.stream[n].payload in c.parked
            || (judge(c.stream[n]).Ok? && judge(c.stream[n]).key in c.rows
                && c.rows[judge(c.stream[n]).key].key == judge(c.stream[n]).key
                && Said(judge, c.stream, c.rows[judge(c.stream[n]).key]))
  {
    if n in c.settled && Represented(judge, c, n) {
      var i := RowIsFirst(c.persisted, judge(c.stream[n]).key);
      assert Said(judge, c.stream, c.persisted[i]);
    }
  }
}
