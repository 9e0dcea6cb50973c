/** The drain: batches are offered to a sink, and leave the spool only once it has confirmed them. */
module Forwarding {
  import opened Prelude
  import opened Records
  import opened SegmentLog
  import opened EdgeDevice
  import opened CrashPoints
  import opened SpoolSteps
  import opened Spooling

  // ----- how far a sink's answers let a drain go

  /** What the sink says to the first, second, ... batch it is offered. */
  type Answers = nat -> Answer

  /** How many of the first `bound` answers are confirmations before anything else is said. */
  function Leading(answers: Answers, bound: nat): nat {
    if bound == 0 then 0
    else
      var before := Leading(answers, bound - 1);
      if before == bound - 1 && answers(before).Confirmed? then bound else before
  }

  lemma {:induction false} LeadingIs(answers: Answers, bound: nat, m: nat)
    requires m <= bound && forall i :: 0 <= i < m ==> answers(i).Confirmed?
    ensures m <= Leading(answers, bound) <= bound
    ensures m < bound && !answers(m).Confirmed? ==> Leading(answers, bound) == m
  {
    if bound > 0 {
      LeadingIs(answers, bound - 1, if m < bound then m else bound - 1);
    }
  }

  /** How many of `n` pending records leave the spool: whole batches, up to the first that is not confirmed. */
  function KeptBy(answers: Answers, n: nat, batch: nat): nat {
    Min(n, batch * Leading(answers, n))
  }

  /** Which of them the cloud has then, as they arrived: those, and what came through of the batch that failed. */
  function TakenBy(answers: Answers, n: nat, batch: nat): seq<nat> {
    var kept := KeptBy(answers, n, batch);
    Range(0, kept)
    + if kept < n then Arriving(answers(Leading(answers, n)), kept, Min(batch, n - kept)) else []
  }

  /** `attempts` confirmed batches so far account for the first `done` of `n` records. */
  ghost predicate Progress(answers: Answers, n: nat, batch: nat, attempts: nat, done: nat) {
    && attempts <= done == Min(n, batch * attempts)
    && forall i :: 0 <= i < attempts ==> answers(i).Confirmed?
  }

  lemma OneMoreBatch(answers: Answers, n: nat, batch: nat, attempts: nat, done: nat, got: nat)
    requires Progress(answers, n, batch, attempts, done) && batch >= 1 && got == Min(batch, n - done) > 0
    requires answers(attempts).Confirmed?
    ensures Progress(answers, n, batch, attempts + 1, done + got)
  {
    assert batch * (attempts + 1) == batch * attempts + batch;
  }

  lemma EverythingTaken(answers: Answers, n: nat, batch: nat, attempts: nat)
    requires Progress(answers, n, batch, attempts, n)
    ensures KeptBy(answers, n, batch) == n && TakenBy(answers, n, batch) == Range(0, n)
  {
    LeadingIs(answers, n, attempts);
    TimesGrows(batch, attempts, Leading(answers, n));
  }

  lemma TimesGrows(batch: nat, a: nat, b: nat)
    requires a <= b
    ensures batch * a <= batch * b
  {
  }

  lemma StoppedAt(answers: Answers, n: nat, batch: nat, attempts: nat, done: nat)
    requires Progress(answers, n, batch, attempts, done) && done < n && !answers(attempts).Confirmed?
    ensures KeptBy(answers, n, batch) == done
    ensures TakenBy(answers, n, batch) == Range(0, done) + Arriving(answers(attempts), done, Min(batch, n - done))
  {
    LeadingIs(answers, n, attempts);
  }

  // ----- what a drain promises

  ghost predicate Within(positions: seq<nat>, n: nat) {
    forall i :: 0 <= i < |positions| ==> positions[i] < n
  }

  /**
   * A crash here has handed over the first `c` of those the drain hands over, and resumes behind
   * the first `k`, where everything skipped was handed over and at most one batch is repeated.
   */
  ghost predicate HoldsDrain(crc: Checksum, s: Snapshot, was: View, kept: nat, taken: seq<nat>, batch: nat) {
    && DiskOk(crc, s.disk) && SuffixOf(Replay(crc, s.disk), was.pending) && Within(taken, |was.pending|)
    && var c, k := |s.received| - |was.received|, |was.pending| - |Replay(crc, s.disk)|;
    && k <= kept && 0 <= k <= c <= k + batch && c <= |taken|
    && s.received == was.received + Pick(was.pending, taken)[..c]
  }

  ghost predicate AllDrain(crc: Checksum, added: seq<Snapshot>, was: View, kept: nat, taken: seq<nat>, batch: nat) {
    forall i :: 0 <= i < |added| ==> HoldsDrain(crc, added[i], was, kept, taken, batch)
  }

  /**
   * The first `kept` pending records left the spool. The cloud got them, once each and in order,
   * and then less than a batch of those that follow.
   */
  ghost predicate Forwarded(crc: Checksum, was: View, now: View, kept: nat, taken: seq<nat>, batch: nat) {
    && kept <= |was.pending| && Within(taken, |was.pending|) && Range(0, kept) <= taken && |taken| <= kept + batch
    && now.pending == was.pending[kept..] && now.received == was.received + Pick(was.pending, taken)
    && now.dropped == was.dropped && was.history <= now.history && TotalLength(now.data) <= TotalLength(was.data)
    && AllDrain(crc, Added(now.history, was.history), was, kept, taken, batch)
  }

  lemma NoneForwarded(crc: Checksum, was: View, batch: nat)
    ensures Forwarded(crc, was, was, 0, Range(0, 0), batch)
  {
    assert was.pending[0..] == was.pending && was.received + Pick(was.pending, Range(0, 0)) == was.received;
  }

  /** What arrives of a batch continues what has arrived before. */
  lemma PickMore(pending: seq<Bytes>, n: nat, m: nat, answer: Answer)
    requires n + m <= |pending|
    ensures Within(Range(0, n) + Arriving(answer, n, m), |pending|) && |Arriving(answer, n, m)| <= m
    ensures Pick(pending, Range(0, n) + Arriving(answer, n, m))
              == Pick(pending, Range(0, n)) + Handed(pending[n..n + m], answer)
  {
    hide Arriving;
    ArrivingWithin(answer, n, m);
    ArrivingWithin(answer, 0, m);
    ArrivingShift(answer, n, m);
  }

  lemma PickRange(pending: seq<Bytes>, n: nat)
    requires n <= |pending|
    ensures Pick(pending, Range(0, n)) == pending[..n]
  {
  }

  /** What held at a crash point before more was handed over holds with what was handed over then. */
  lemma DrainPointStays(crc: Checksum, s: Snapshot, was: View, kept: nat, taken: seq<nat>, more: seq<nat>, batch: nat)
    requires HoldsDrain(crc, s, was, kept, taken, batch) && Within(taken + more, |was.pending|)
    ensures HoldsDrain(crc, s, was, kept, taken + more, batch)
  {
    hide DiskOk, Replay;
    var c := |s.received| - |was.received|;
    assert Pick(was.pending, taken + more)[..c] == Pick(was.pending, taken)[..c];
  }

  /** Part of a batch was handed over and the spool does not know yet, which a crash can leave behind. */
  lemma BatchTaken(crc: Checksum, was: View, mid: View, sent: View, disk: Disk, n: nat, records: seq<Bytes>,
                   answer: Answer,
                   batch: nat)
    requires Forwarded(crc, was, mid, n, Range(0, n), batch)
    requires |records| <= batch && records <= mid.pending
    requires Offered(mid, sent, disk, Handed(records, answer))
    requires DiskOk(crc, disk) && Replay(crc, disk) == mid.pending
    ensures Forwarded(crc, was, sent, n, Range(0, n) + Arriving(answer, n, |records|), batch)
  {
    hide DiskOk, Replay, Arriving, Handed, HoldsDrain, TotalLength;
    var m, arriving := |records|, Arriving(answer, n, |records|);
    assert records == was.pending[n..n + m];
    PickMore(was.pending, n, m, answer);
    assert sent.received == was.received + Pick(was.pending, Range(0, n) + arriving);
    AddedInTurn(was.history, mid.history, sent.history);
    var first, last := Added(mid.history, was.history), Added(sent.history, mid.history);
    forall i | 0 <= i < |first| ensures HoldsDrain(crc, first[i], was, n, Range(0, n) + arriving, batch) {
      DrainPointStays(crc, first[i], was, n, Range(0, n), arriving, batch);
    }
    forall i | 0 <= i < |last| ensures HoldsDrain(crc, last[i], was, n, Range(0, n) + arriving, batch) {
      var handed := Handed(records, answer);
      assert last[i] == sent.history[|mid.history| + i] == Snapshot(disk, mid.received + handed[..i + 1]);
      PublishPoint(crc, last[i], was, mid, n, arriving, handed, i + 1, batch);
    }
  }

  lemma PublishPoint(crc: Checksum, s: Snapshot, was: View, mid: View, n: nat, arriving: seq<nat>, handed: seq<Bytes>,
                     i: nat,
                     batch: nat)
    requires n <= |was.pending| && mid.pending == was.pending[n..] && Within(Range(0, n) + arriving, |was.pending|)
    requires mid.received == was.received + Pick(was.pending, Range(0, n))
    requires Pick(was.pending, Range(0, n) + arriving) == Pick(was.pending, Range(0, n)) + handed
    requires i <= |handed| == |arriving| <= batch && s.received == mid.received + handed[..i]
    requires DiskOk(crc, s.disk) && Replay(crc, s.disk) == mid.pending
    ensures HoldsDrain(crc, s, was, n, Range(0, n) + arriving, batch)
  {
    hide DiskOk, Replay;
    var start, c := Pick(was.pending, Range(0, n)), n + i;
    assert |s.received| - |was.received| == c;
    assert (start + handed)[..c] == start + handed[..i];
    SuffixOfAppend(was.pending[..n], was.pending[n..]);
    assert was.pending == was.pending[..n] + was.pending[n..];
  }

  /** Committing a confirmed batch then brings the spool level. */
  lemma BatchForwarded(crc: Checksum, was: View, sent: View, now: View, n: nat, m: nat, batch: nat)
    requires n <= m <= |was.pending| && Forwarded(crc, was, sent, n, Range(0, m), batch)
    requires Released(crc, sent, now, was.pending[m..])
    ensures Forwarded(crc, was, now, m, Range(0, m), batch)
  {
    hide HoldsDrain, HoldsBetween, TotalLength, SuffixOf, Pick;
    PickRange(was.pending, m);
    AddedInTurn(was.history, sent.history, now.history);
    SentSizes(sent, now);
    var first, last := Added(sent.history, was.history), Added(now.history, sent.history);
    assert m <= n + batch;
    forall i | 0 <= i < |first| ensures HoldsDrain(crc, first[i], was, m, Range(0, m), batch) {
      LaterKept(crc, first[i], was, n, m, Range(0, m), batch);
    }
    forall i | 0 <= i < |last| ensures HoldsDrain(crc, last[i], was, m, Range(0, m), batch) {
      DrainPoint(crc, last[i], was, was.pending[n..], n, m, batch);
    }
  }

  lemma SentSizes(sent: View, now: View)
    requires SuffixOf(now.data, sent.data)
    ensures TotalLength(now.data) <= TotalLength(sent.data)
  {
    TotalOfSuffix(now.data, sent.data);
  }

  lemma LaterKept(crc: Checksum, s: Snapshot, was: View, n: nat, m: nat, taken: seq<nat>, batch: nat)
    requires n <= m && HoldsDrain(crc, s, was, n, taken, batch)
    ensures HoldsDrain(crc, s, was, m, taken, batch)
  {
  }

  lemma DrainPoint(crc: Checksum, s: Snapshot, was: View, pending: seq<Bytes>, n: nat, m: nat, batch: nat)
    requires n <= m <= |was.pending| && m <= n + batch && pending == was.pending[n..]
    requires HoldsBetween(crc, s, was.received + was.pending[..m], pending, was.pending[m..])
    ensures HoldsDrain(crc, s, was, m, Range(0, m), batch)
  {
    hide DiskOk, Replay;
    PickRange(was.pending, m);
    SuffixTransitive(Replay(crc, s.disk), pending, was.pending);
  }

  class Forwarder {
    const spool: Spool
    const batchSize: nat

    constructor (spool: Spool, batchSize: nat)
      ensures this.spool == spool && this.batchSize == Max(batchSize, 1)
    {
      this.spool, this.batchSize := spool, Max(batchSize, 1);
    }

    /** Appends to the spool and does nothing else. */
    method Enqueue(payload: Bytes) returns (ok: bool)
      requires spool.Valid()
      modifies spool, spool.device
      ensures spool.Valid() && (ok <==> |payload| <= MAX_RECORD_BYTES)
      ensures !Storable(payload) ==> spool.Now() == old(spool.Now()) && spool.device.disk == old(spool.device.disk)
      ensures Storable(payload) ==> Appended(spool.crc, old(spool.Now()), spool.Now(), payload, spool.config)
    {
      ok := spool.Append(payload);
    }

    /** Offers the next batch, if there is one, and commits it if that is confirmed. */
    method ForwardBatch(answer: Answer, ghost was: View, ghost n: nat) returns (got: nat, ok: bool)
      requires spool.Valid() && Forwarded(spool.crc, was, spool.Now(), n, Range(0, n), batchSize)
      modifies spool, spool.device
      ensures spool.Valid() && got == Min(batchSize, |old(spool.Pending())|)
      ensures got > 0 ==> (ok <==> answer.Confirmed?)
      ensures Forwarded(spool.crc, was, spool.Now(), if answer.Confirmed? then n + got else n,
                        Range(0, n) + Arriving(answer, n, got), batchSize)
    {
      hide Spool.Valid, Spool.Data, Spool.Committed, Ahead, Replay, Unread, Added, Released, Forwarded, HoldsBetween,
        DiskOk, MovedTo, Offered, Arriving, Handed, Range;
      ghost var mid := spool.Now();
      var records, to := spool.ReadBatch(batchSize);
      got, ok := |records|, false;
      NothingArrives(answer, n);
      if records == [] {
        return;
      }
      spool.ValidMeans();
      ok := spool.Offer(records, answer);
      ghost var sent := spool.Now();
      BatchTaken(spool.crc, was, mid, sent, spool.device.disk, n, records, answer, batchSize);
      OfferedMeans(mid, sent, spool.device.disk, Handed(records, answer));
      if ok {
        RangeThenAll(n, got);
        RestOfPending(spool.crc, was, mid, n, got, batchSize);
        spool.Commit(to);
        BatchForwarded(spool.crc, was, sent, spool.Now(), n, n + got, batchSize);
      }
    }

    /** Hands batches to the sink for as long as it confirms them. */
    method Drain(answers: Answers) returns (published: nat, blocked: bool)
      requires spool.Valid() && batchSize >= 1
      modifies spool, spool.device
      ensures spool.Valid()
      ensures published == KeptBy(answers, |old(spool.Pending())|, batchSize)
      ensures Forwarded(spool.crc, old(spool.Now()), spool.Now(), published,
                        TakenBy(answers, |old(spool.Pending())|, batchSize), batchSize)
      ensures blocked <==> spool.Pending() != []
    {
      hide Spool.Valid, Spool.Data, Spool.Committed, Replay, Forwarded, Progress, KeptBy, TakenBy, Arriving, Range;
      published, blocked := 0, false;
      ghost var was, n := spool.Now(), |spool.Pending()|;
      var attempts := 0;
      NoneForwarded(spool.crc, was, batchSize);
      NothingTried(answers, n, batchSize);
      while true
        invariant spool.Valid() && !blocked
        invariant Forwarded(spool.crc, was, spool.Now(), published, Range(0, published), batchSize)
        invariant Progress(answers, n, batchSize, attempts, published)
        decreases |spool.Pending()|
      {
        ForwardedMeans(spool.crc, was, spool.Now(), published, Range(0, published), batchSize);
        var got, ok := ForwardBatch(answers(attempts), was, published);
        NothingArrives(answers(attempts), published);
        if got == 0 {
          ForwardedMeans(spool.crc, was, spool.Now(), published, Range(0, published), batchSize);
          EverythingTaken(answers, n, batchSize, attempts);
          return;
        }
        if !ok {
          StoppedAt(answers, n, batchSize, attempts, published);
          ForwardedMeans(spool.crc, was, spool.Now(), published, TakenBy(answers, n, batchSize), batchSize);
          blocked := true;
          return;
        }
        OneMoreBatch(answers, n, batchSize, attempts, published, got);
        RangeThenAll(published, got);
        published, attempts := published + got, attempts + 1;
        ForwardedMeans(spool.crc, was, spool.Now(), published, Range(0, published), batchSize);
      }
    }
  }

  lemma NothingArrives(answer: Answer, n: nat)
    ensures Range(0, n) + Arriving(answer, n, 0) == Range(0, n)
  {
  }

  lemma RangeThenAll(n: nat, m: nat)
    ensures Range(0, n) + Arriving(Confirmed, n, m) == Range(0, n + m)
  {
    AllArrive(n, m);
  }

  lemma RestOfPending(crc: Checksum, was: View, mid: View, n: nat, got: nat, batch: nat)
    requires Forwarded(crc, was, mid, n, Range(0, n), batch) && got <= |mid.pending|
    ensures n + got <= |was.pending| && mid.pending[got..] == was.pending[n + got..]
  {
  }

  lemma OfferedMeans(was: View, now: View, disk: Disk, arriving: seq<Bytes>)
    requires Offered(was, now, disk, arriving)
    ensures now.pending == was.pending
  {
  }

  lemma ForwardedMeans(crc: Checksum, was: View, now: View, kept: nat, taken: seq<nat>, batch: nat)
    requires Forwarded(crc, was, now, kept, taken, batch)
    ensures kept <= |was.pending| && |now.pending| == |was.pending| - kept
  {
  }

  lemma NothingTried(answers: Answers, n: nat, batch: nat)
    ensures Progress(answers, n, batch, 0, 0)
  {
  }

  // ----- the batch size does not matter

  function Total(sizes: seq<nat>): nat {
    if sizes == [] then 0 else Total(sizes[..|sizes| - 1]) + sizes[|sizes| - 1]
  }

  /** Reads a batch and commits it. */
  method ConsumeBatch(spool: Spool, size: nat) returns (records: seq<Bytes>)
    requires spool.Valid()
    modifies spool, spool.device
    ensures spool.Valid()
    ensures records == old(spool.Pending())[..Min(size, |old(spool.Pending())|)]
    ensures spool.Pending() == old(spool.Pending())[|records|..]
  {
    hide Spool.Valid, Ahead, Replay, Unread, AllBetween, SuffixOf, Added, MovedTo, Contents;
    var to;
    records, to := spool.ReadBatch(size);
    spool.Commit(to);
  }

  /**
   * Reading and committing in batches of any sizes hands out the stream as it is, nothing twice
   * and nothing skipped.
   */
  method ConsumeInBatches(spool: Spool, sizes: seq<nat>) returns (all: seq<Bytes>)
    requires spool.Valid()
    modifies spool, spool.device
    ensures spool.Valid()
    ensures all == old(spool.Pending())[..Min(Total(sizes), |old(spool.Pending())|)]
    ensures spool.Pending() == old(spool.Pending())[|all|..]
  {
    hide Spool.Valid, Spool.Pending, Total;
    ghost var stream := spool.Pending();
    all := [];
    NothingConsumed(stream, sizes);
    var i := 0;
    while i < |sizes|
      invariant i <= |sizes| && spool.Valid() && Consumed(stream, sizes, i, all, spool.Pending())
    {
      var records := ConsumeBatch(spool, sizes[i]);
      ConsumedMore(stream, sizes, i, all, records);
      all := all + records;
      i := i + 1;
    }
    assert sizes[..i] == sizes;
  }

  /** The first `i` batches have handed out `all` and left `rest`. */
  ghost predicate Consumed(stream: seq<Bytes>, sizes: seq<nat>, i: nat, all: seq<Bytes>, rest: seq<Bytes>)
    requires i <= |sizes|
  {
    all == stream[..Min(Total(sizes[..i]), |stream|)] && rest == stream[|all|..]
  }

  lemma NothingConsumed(stream: seq<Bytes>, sizes: seq<nat>)
    ensures Consumed(stream, sizes, 0, [], stream)
  {
  }

  lemma ConsumedMore(stream: seq<Bytes>, sizes: seq<nat>, i: nat, all: seq<Bytes>, records: seq<Bytes>)
    requires i < |sizes| && |all| <= |stream| && Consumed(stream, sizes, i, all, stream[|all|..])
    requires records == stream[|all|..][..Min(sizes[i], |stream| - |all|)]
    ensures Consumed(stream, sizes, i + 1, all + records, stream[|all|..][|records|..])
  {
    hide Total;
    TotalNext(sizes, i);
    assert records == stream[|all|..|all| + |records|];
  }

  lemma TotalNext(sizes: seq<nat>, i: nat)
    requires i < |sizes|
    ensures Total(sizes[..i + 1]) == Total(sizes[..i]) + sizes[i]
  {
    assert sizes[..i + 1][..i] == sizes[..i];
  }
}
