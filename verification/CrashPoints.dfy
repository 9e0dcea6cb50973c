/** What a crash inside an operation can leave behind, as conditions on the snapshots the operation adds. */
module CrashPoints {
  import opened Prelude
  import opened SegmentLog
  import opened EdgeDevice

  /** A crash here replays exactly `stream`. */
  ghost predicate Holds(crc: Checksum, s: Snapshot, received: seq<Bytes>, stream: seq<Bytes>) {
    s.received == received && DiskOk(crc, s.disk) && Replay(crc, s.disk) == stream
  }

  ghost predicate AllHold(crc: Checksum, added: seq<Snapshot>, received: seq<Bytes>, stream: seq<Bytes>) {
    forall i :: 0 <= i < |added| ==> Holds(crc, added[i], received, stream)
  }

  /** A crash here resumes no earlier than `before` and no later than `after`. */
  ghost predicate HoldsBetween(crc: Checksum, s: Snapshot, received: seq<Bytes>,
                               before: seq<Bytes>, after: seq<Bytes>)
  {
    && s.received == received && DiskOk(crc, s.disk)
    && SuffixOf(Replay(crc, s.disk), before) && SuffixOf(after, Replay(crc, s.disk))
  }

  ghost predicate AllBetween(crc: Checksum, added: seq<Snapshot>, received: seq<Bytes>,
                             before: seq<Bytes>, after: seq<Bytes>)
  {
    forall i :: 0 <= i < |added| ==> HoldsBetween(crc, added[i], received, before, after)
  }

  /** A crash here, while a record is being written, replays what was there before, with the record or without it. */
  ghost predicate HoldsRecord(crc: Checksum, s: Snapshot, received: seq<Bytes>, before: seq<Bytes>, payload: Bytes) {
    && s.received == received && DiskOk(crc, s.disk)
    && (Replay(crc, s.disk) == before || Replay(crc, s.disk) == before + [payload])
  }

  ghost predicate AllRecord(crc: Checksum, added: seq<Snapshot>, received: seq<Bytes>,
                            before: seq<Bytes>, payload: Bytes)
  {
    forall i :: 0 <= i < |added| ==> HoldsRecord(crc, added[i], received, before, payload)
  }

  /** A crash here, while `payload` is being appended, replays what was there before or, once the
      record is whole, something between that with the payload and what is left after evicting. */
  ghost predicate HoldsAppend(crc: Checksum, s: Snapshot, received: seq<Bytes>, before: seq<Bytes>, payload: Bytes,
                              after: seq<Bytes>)
  {
    Holds(crc, s, received, before) || HoldsBetween(crc, s, received, before + [payload], after)
  }

  ghost predicate AllAppend(crc: Checksum, added: seq<Snapshot>, received: seq<Bytes>,
                            before: seq<Bytes>, payload: Bytes, after: seq<Bytes>)
  {
    forall i :: 0 <= i < |added| ==> HoldsAppend(crc, added[i], received, before, payload, after)
  }

  /** The snapshots a call added to the history it found. */
  ghost function Added(history: seq<Snapshot>, before: seq<Snapshot>): seq<Snapshot> {
    if before <= history then history[|before|..] else history
  }

  lemma AddedAtMostOne(before: seq<Snapshot>, after: seq<Snapshot>)
    ensures after == before ==> Added(after, before) == []
    ensures forall s: Snapshot :: after == before + [s] ==> Added(after, before) == [s]
  {
  }

  lemma AddedTwo(before: seq<Snapshot>, s: Snapshot, t: Snapshot)
    ensures before <= before + [s] + [t] && Added(before + [s] + [t], before) == [s, t]
  {
  }

  lemma AddedInTurn(h0: seq<Snapshot>, h1: seq<Snapshot>, h2: seq<Snapshot>)
    requires h0 <= h1 <= h2
    ensures h0 <= h2 && Added(h2, h0) == Added(h1, h0) + Added(h2, h1)
  {
  }

  lemma BetweenJoins(crc: Checksum, h0: seq<Snapshot>, h1: seq<Snapshot>, h2: seq<Snapshot>,
                     received: seq<Bytes>, first: seq<Bytes>, second: seq<Bytes>, third: seq<Bytes>)
    requires h0 <= h1 <= h2
    requires AllBetween(crc, Added(h1, h0), received, first, second)
    requires AllBetween(crc, Added(h2, h1), received, second, third)
    requires SuffixOf(second, first) && SuffixOf(third, second)
    ensures AllBetween(crc, Added(h2, h0), received, first, third)
  {
    hide DiskOk, Replay, SuffixOf;
    AddedInTurn(h0, h1, h2);
    var a, b := Added(h1, h0), Added(h2, h1);
    forall i | 0 <= i < |a + b| ensures HoldsBetween(crc, (a + b)[i], received, first, third) {
      var replay := Replay(crc, (a + b)[i].disk);
      if i < |a| {
        SuffixTransitive(third, second, replay);
      } else {
        SuffixTransitive(replay, second, first);
      }
    }
  }

  lemma BetweenOneMore(crc: Checksum, h0: seq<Snapshot>, h1: seq<Snapshot>, s: Snapshot, received: seq<Bytes>,
                       before: seq<Bytes>, after: seq<Bytes>)
    requires h0 <= h1 && AllBetween(crc, Added(h1, h0), received, before, after)
    requires HoldsBetween(crc, s, received, before, after)
    ensures h0 <= h1 + [s] && AllBetween(crc, Added(h1 + [s], h0), received, before, after)
  {
    hide HoldsBetween;
    assert Added(h1 + [s], h0) == Added(h1, h0) + [s];
  }
}
