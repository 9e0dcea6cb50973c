/** The operations of the spool as relations between values, and the steps their proofs are made of. */
module SpoolSteps {
  import opened Prelude
  import opened Records
  import opened SegmentLog
  import opened SegmentNumbers
  import opened EdgeDevice
  import opened CrashPoints

  // ----- sizes

  datatype SpoolConfig = SpoolConfig(segmentBytes: nat, maxTotalBytes: nat)

  /** A segment is left once it has reached its size, so one record is the most it can be over. */
  function SegmentLimit(config: SpoolConfig): nat {
    config.segmentBytes + HEADER_BYTES + MAX_RECORD_BYTES
  }

  function TotalLength(data: seq<Bytes>): nat {
    if data == [] then 0 else |data[0]| + TotalLength(data[1..])
  }

  lemma {:induction false} TotalSplit(data: seq<Bytes>, i: nat)
    requires i < |data|
    ensures TotalLength(data[i..]) == |data[i]| + TotalLength(data[i + 1..])
  {
    assert data[i..][1..] == data[i + 1..];
  }

  lemma {:induction false} TotalSnoc(data: seq<Bytes>, last: Bytes)
    ensures TotalLength(data + [last]) == TotalLength(data) + |last|
  {
    if data == [] {
      assert (data + [last])[1..] == [];
    } else {
      assert (data + [last])[1..] == data[1..] + [last];
      TotalSnoc(data[1..], last);
    }
  }

  lemma {:induction false} TotalOfSuffix(tail: seq<Bytes>, whole: seq<Bytes>)
    requires SuffixOf(tail, whole)
    ensures TotalLength(tail) <= TotalLength(whole)
  {
    if |tail| < |whole| {
      assert tail == whole[1..][|whole[1..]| - |tail|..];
      TotalOfSuffix(tail, whole[1..]);
    }
  }

  lemma TotalOfOne(data: seq<Bytes>)
    requires |data| == 1
    ensures TotalLength(data) == |data[0]|
  {
    assert data[1..] == [];
  }

  function Front(bytes: Bytes, offset: nat): Bytes {
    if offset <= |bytes| then bytes[..offset] else bytes
  }

  /** How many records of the oldest segment lie before the cursor. */
  ghost function Behind(crc: Checksum, data: seq<Bytes>, offset: nat): nat {
    if data == [] then 0 else |Parsed(crc, Front(data[0], offset))|
  }

  lemma BehindSplits(crc: Checksum, bytes: Bytes, offset: nat)
    requires Boundary(crc, bytes, offset)
    ensures |Parsed(crc, bytes)| == |Parsed(crc, Front(bytes, offset))| + |Parsed(crc, From(bytes, offset))|
  {
    hide Parsed, Size;
    assert bytes == bytes[..offset] + bytes[offset..];
    ScanAfterClean(crc, bytes[..offset], bytes[offset..]);
  }

  lemma BehindStart(crc: Checksum, data: seq<Bytes>)
    ensures Behind(crc, data, 0) == 0
  {
    ScanOfNothing(crc);
    if data != [] {
      assert data[0][..0] == [];
    }
  }

  /** Every segment but the newest is meant to be full. */
  ghost predicate BoundsFit(bounds: Bounds, config: SpoolConfig) {
    bounds.least <= config.segmentBytes && bounds.most == SegmentLimit(config)
  }

  /** The segments there are once there is room for a record: one more only if there was none, or the newest is full. */
  ghost function Rotated(segs: seq<nat>, data: seq<Bytes>, config: SpoolConfig): seq<nat>
    requires |segs| == |data|
  {
    if segs == [] then [0]
    else if |data[|data| - 1]| < config.segmentBytes then segs
    else segs + [segs[|segs| - 1] + 1]
  }

  lemma NewestIsLast(segs: seq<nat>, files: Files)
    requires Lists(segs, files)
    ensures segs != [] ==> segs[|segs| - 1] in files && forall n <- files :: n <= segs[|segs| - 1]
  {
    forall n <- files ensures segs != [] && n <= segs[|segs| - 1] {
      assert n in segs;
    }
  }

  lemma {:induction false} FullTotal(data: seq<Bytes>, least: nat)
    requires data != [] && forall i :: 0 <= i < |data| - 1 ==> least <= |data[i]|
    ensures (|data| - 1) * least <= TotalLength(data)
  {
    if |data| > 1 {
      FullTotal(data[1..], least);
      TotalSplit(data, 0);
      assert data[0..] == data && (|data| - 1) * least == (|data| - 2) * least + least;
    }
  }

  // ----- what the operations promise

  /** Everything the contracts below say about a spool, as one value. */
  datatype View = View(segments: seq<nat>, data: seq<Bytes>, pending: seq<Bytes>, committed: nat,
                       dropped: nat, received: seq<Bytes>, history: seq<Snapshot>)

  /** Each of the first `n` suffixes exceeds the ceiling: fewer segments could not have been dropped. */
  ghost predicate OverWithout(data: seq<Bytes>, n: nat, ceiling: nat) {
    forall i :: 0 <= i < n <= |data| ==> TotalLength(data[i..]) > ceiling
  }

  /**
   * `n` of the oldest segments were discarded, and no fewer would have met the ceiling. The
   * records discarded, pending and already delivered are conserved, so the drop count exceeds
   * the undelivered loss by exactly the delivered records of the first segment discarded. A
   * crash on the way resumes between the old and the new position.
   */
  ghost predicate Discarded(crc: Checksum, was: View, now: View, n: nat, ceiling: nat) {
    && n <= |was.segments| == |was.data|
    && now.segments == was.segments[n..] && now.data == was.data[n..]
    && OverWithout(was.data, n, ceiling)
    && now.pending != [] && SuffixOf(now.pending, was.pending)
    && now.dropped + |now.pending| + now.committed == was.dropped + |was.pending| + was.committed
    && (if n == 0 then now.pending == was.pending && now.committed == was.committed else now.committed == 0)
    && now.received == was.received && was.history <= now.history
    && AllBetween(crc, Added(now.history, was.history), now.received, was.pending, now.pending)
  }

  /**
   * One payload was appended and the directory brought back under its ceiling. The new payload
   * is never what is discarded, nothing is while the ceiling allows, and what is left then is
   * less than a segment short of the ceiling.
   */
  ghost predicate Appended(crc: Checksum, was: View, now: View, payload: Bytes, config: SpoolConfig) {
    && now.pending != [] && SuffixOf(now.pending, was.pending + [payload])
    && now.dropped + |now.pending| + now.committed == was.dropped + |was.pending| + was.committed + 1
    && (now.committed == was.committed || now.committed == 0)
    && TotalLength(now.data) <= Max(config.maxTotalBytes, SegmentLimit(config))
    && (TotalLength(was.data) + HEADER_BYTES + |payload| <= config.maxTotalBytes ==>
          TotalLength(now.data) == TotalLength(was.data) + HEADER_BYTES + |payload|)
    && (now.pending != was.pending + [payload] || now.dropped != was.dropped ==>
          && TotalLength(was.data) + HEADER_BYTES + |payload| > config.maxTotalBytes
          && TotalLength(now.data) + SegmentLimit(config) > config.maxTotalBytes)
    && |was.segments| == |was.data| && SuffixOf(now.segments, Rotated(was.segments, was.data, config))
    && (TotalLength(was.data) + HEADER_BYTES + |payload| <= config.maxTotalBytes ==>
          now.segments == Rotated(was.segments, was.data, config))
    && now.received == was.received && was.history <= now.history
    && AllAppend(crc, Added(now.history, was.history), now.received, was.pending, payload, now.pending)
  }

  /**
   * Everything before a position was released, and nothing else changed. A crash on the way
   * resumes between the old and the new position.
   */
  ghost predicate Released(crc: Checksum, was: View, now: View, target: seq<Bytes>) {
    && now.pending == target && SuffixOf(target, was.pending)
    && SuffixOf(now.segments, was.segments) && SuffixOf(now.data, was.data)
    && now.dropped == was.dropped && now.received == was.received && was.history <= now.history
    && AllBetween(crc, Added(now.history, was.history), now.received, was.pending, target)
  }

  /** These records were received, one after the other, and nothing else happened. */
  ghost predicate Offered(was: View, now: View, disk: Disk, arriving: seq<Bytes>) {
    && now == was.(received := was.received + arriving, history := now.history)
    && was.history <= now.history && |now.history| == |was.history| + |arriving|
    && forall i :: |was.history| <= i < |now.history| ==>
         now.history[i] == Snapshot(disk, was.received + arriving[..i - |was.history| + 1])
  }

  // ----- scanning a segment

  lemma SizeOfNothing()
    ensures Size([]) == 0
  {
  }

  /** One step of any scan. */
  lemma NextRecord(crc: Checksum, bytes: Bytes, at: nat)
    requires at <= |bytes| && ReadRecord(crc, bytes[at..]).Record?
    ensures var read := ReadRecord(crc, bytes[at..]);
            && HEADER_BYTES < read.consumed <= |bytes| - at
            && Parsed(crc, bytes[at..]) == [read.payload] + Parsed(crc, bytes[at + read.consumed..])
            && Size(Parsed(crc, bytes[at..])) == read.consumed + Size(Parsed(crc, bytes[at + read.consumed..]))
  {
    ReadsOnlyWhatWasWritten(crc, bytes[at..]);
    hide ReadRecord, Encode;
    var read := ReadRecord(crc, bytes[at..]);
    assert bytes[at..][read.consumed..] == bytes[at + read.consumed..];
    assert Parsed(crc, bytes[at..])[1..] == Parsed(crc, bytes[at + read.consumed..]);
  }

  lemma NextBoundary(crc: Checksum, bytes: Bytes, at: nat)
    requires Boundary(crc, bytes, at) && ReadRecord(crc, bytes[at..]).Record?
    ensures var to := at + ReadRecord(crc, bytes[at..]).consumed;
            to <= |bytes| && Boundary(crc, bytes, to)
  {
    ReadsOnlyWhatWasWritten(crc, bytes[at..]);
    hide ReadRecord, Encode, Parsed;
    var read := ReadRecord(crc, bytes[at..]);
    var to := at + read.consumed;
    assert bytes[..to] == bytes[..at] + bytes[at..][..read.consumed];
    ScanOfOneRecord(crc, read.payload);
    ScanAfterClean(crc, bytes[..at], bytes[at..][..read.consumed]);
  }

  lemma NoMoreRecords(crc: Checksum, bytes: Bytes)
    requires !ReadRecord(crc, bytes).Record?
    ensures Parsed(crc, bytes) == []
  {
  }

  lemma NotPastEnd(crc: Checksum, bytes: Bytes, at: nat)
    requires ReadRecord(crc, From(bytes, at)).Record?
    ensures at <= |bytes|
  {
  }

  lemma ScanStep(crc: Checksum, bytes: Bytes, at: nat)
    requires ReadRecord(crc, From(bytes, at)).Record?
    ensures var read := ReadRecord(crc, From(bytes, at));
            && at + read.consumed <= |bytes|
            && Parsed(crc, From(bytes, at)) == [read.payload] + Parsed(crc, From(bytes, at + read.consumed))
            && (Boundary(crc, bytes, at) ==> Boundary(crc, bytes, at + read.consumed))
  {
    hide ReadRecord, Parsed, Clean, Boundary;
    NotPastEnd(crc, bytes, at);
    NextRecord(crc, bytes, at);
    if Boundary(crc, bytes, at) {
      NextBoundary(crc, bytes, at);
    }
  }

  // ----- opening

  /** A directory after its newest segment was cut back to its last intact record. */
  ghost function Recovered(crc: Checksum, disk: Disk, segs: seq<nat>): Disk {
    if segs == [] then disk
    else
      var last := segs[|segs| - 1];
      var bytes := Content(disk.files, last);
      disk.(files := disk.files[last := Front(bytes, Size(Parsed(crc, bytes)))])
  }

  /** Recovery changes nothing that `open` would deliver. */
  lemma RecoveryKeepsStream(crc: Checksum, disk: Disk, segs: seq<nat>)
    requires Lists(segs, disk.files)
    ensures var disk' := Recovered(crc, disk, segs);
            DiskOk(crc, disk) ==>
            && DiskOk(crc, disk')
            && Replay(crc, disk') == Replay(crc, disk)
            && Reads(crc, disk', segs, Resume(disk).offset, Replay(crc, disk))
            && Resume(disk).segment == (if segs == [] then 0 else segs[0])
            && (segs != [] ==> Clean(crc, Content(disk'.files, segs[|segs| - 1])))
  {
    hide Boundary, Clean, Parsed, Stream, Size, Lists, DiskOk;
    if DiskOk(crc, disk) {
      var at, stream := Resume(disk), Replay(crc, disk);
      ReadsFrom(crc, disk, segs);
      ReadsMeans(crc, disk, segs, at.offset, stream);
      if segs != [] {
        NewestTruncated(crc, disk, segs, at.offset, stream);
        ReadsMeans(crc, Recovered(crc, disk, segs), segs, at.offset, stream);
      }
    }
  }

  // ----- appending

  lemma NumberIsFree(files: Files, segs: seq<nat>, index: nat)
    requires Lists(segs, files)
    requires index == if segs == [] then 0 else segs[|segs| - 1] + 1
    ensures index !in files
  {
    assert forall n <- segs :: n < index;
    assert index in files <==> index in segs;
  }

  lemma NewSegment(crc: Checksum, disk: Disk, segs: seq<nat>, offset: nat, stream: seq<Bytes>, index: nat)
    requires Reads(crc, disk, segs, offset, stream)
    requires segs != [] ==> Clean(crc, Content(disk.files, segs[|segs| - 1]))
    requires index == if segs == [] then 0 else segs[|segs| - 1] + 1
    ensures index !in disk.files
    ensures var disk' := disk.(files := disk.files[index := []]);
            var data, data' := Contents(disk.files, segs), Contents(disk'.files, segs + [index]);
            && Reads(crc, disk', segs + [index], offset, stream)
            && DiskOk(crc, disk') && Replay(crc, disk') == stream
            && TotalLength(data') == TotalLength(data)
            && Behind(crc, data', offset) == Behind(crc, data, offset)
            && Clean(crc, [])
  {
    hide Ascending, Lists, Boundary, Stream, Parsed, DiskOk, Replay;
    NumberIsFree(disk.files, segs, index);
    var disk' := disk.(files := disk.files[index := []]);
    var data := Contents(disk.files, segs);
    SegmentCreated(crc, disk, segs, offset, stream, index);
    CreatedContents(disk.files, segs, index);
    ReadsMeans(crc, disk', segs + [index], offset, stream);
    TotalSnoc(data, []);
    ScanOfNothing(crc);
    if segs == [] {
      BehindStart(crc, Contents(disk'.files, segs + [index]));
    }
  }

  ghost predicate RecordPoint(crc: Checksum, disk: Disk, stream: seq<Bytes>, payload: Bytes) {
    DiskOk(crc, disk) && (Replay(crc, disk) == stream || Replay(crc, disk) == stream + [payload])
  }

  /** However many bytes of a record have reached the newest segment, it counts whole or not at all. */
  lemma RecordReaches(crc: Checksum, disk: Disk, segs: seq<nat>, offset: nat, stream: seq<Bytes>, payload: Bytes,
                      n: nat)
    requires Reads(crc, disk, segs, offset, stream) && segs != []
    requires Clean(crc, Content(disk.files, segs[|segs| - 1]))
    requires Storable(payload) && n <= |Encode(crc, payload)|
    ensures var disk' := Extended(disk, segs[|segs| - 1], Encode(crc, payload)[..n]);
            && Reads(crc, disk', segs, offset, if n < |Encode(crc, payload)| then stream else stream + [payload])
            && RecordPoint(crc, disk', stream, payload)
  {
    hide Ascending, Lists, DiskOk, Clean, Replay, Boundary, Stream, Encode, ReadRecord;
    var record := Encode(crc, payload);
    if n < |record| {
      TornRecordIsUnreadable(crc, payload, n);
      assert stream + [] == stream;
    } else {
      assert record[..n] == record;
      ScanOfOneRecord(crc, payload);
    }
    NewestExtended(crc, disk, segs, offset, stream, record[..n]);
    ReadsMeans(crc, Extended(disk, segs[|segs| - 1], record[..n]), segs, offset, stream + Parsed(crc, record[..n]));
  }

  lemma LastGrows(crc: Checksum, data: seq<Bytes>, offset: nat, more: Bytes)
    requires data != [] && offset <= |data[0]|
    ensures var data' := data[|data| - 1 := data[|data| - 1] + more];
            && TotalLength(data') == TotalLength(data) + |more|
            && Behind(crc, data', offset) == Behind(crc, data, offset)
  {
    hide Parsed;
    var init, last := data[..|data| - 1], data[|data| - 1];
    assert data == init + [last];
    assert data[|data| - 1 := last + more] == init + [last + more];
    TotalSnoc(init, last);
    TotalSnoc(init, last + more);
    assert |data| == 1 ==> Front(last + more, offset) == Front(last, offset);
  }

  lemma RecordWritten(crc: Checksum, disk: Disk, segs: seq<nat>, offset: nat, stream: seq<Bytes>, payload: Bytes)
    requires Reads(crc, disk, segs, offset, stream) && segs != []
    requires Clean(crc, Content(disk.files, segs[|segs| - 1])) && Storable(payload)
    ensures var last := segs[|segs| - 1];
            var disk' := Extended(disk, last, Encode(crc, payload));
            var data, data' := Contents(disk.files, segs), Contents(disk'.files, segs);
            && Reads(crc, disk', segs, offset, stream + [payload])
            && Replay(crc, disk') == stream + [payload]
            && TotalLength(data') == TotalLength(data) + HEADER_BYTES + |payload|
            && Behind(crc, data', offset) == Behind(crc, data, offset)
            && Clean(crc, Content(disk'.files, last))
            && Parsed(crc, Content(disk'.files, last)) != []
  {
    hide Ascending, Lists, DiskOk, Clean, Replay, Stream, Encode, ReadRecord, Parsed;
    var last, record := segs[|segs| - 1], Encode(crc, payload);
    var bytes := Content(disk.files, last);
    assert record[..|record|] == record;
    RecordReaches(crc, disk, segs, offset, stream, payload, |record|);
    ReadsMeans(crc, Extended(disk, last, record), segs, offset, stream + [payload]);
    ScanOfOneRecord(crc, payload);
    ScanAfterClean(crc, bytes, record);
    ReplacedContents(disk.files, segs, bytes + record);
    LastGrows(crc, Contents(disk.files, segs), offset, record);
  }

  lemma AppendedInTurn(crc: Checksum, was: View, ready: View, written: View, now: View, payload: Bytes,
                       evicted: nat, config: SpoolConfig)
    requires ready.pending == was.pending && written.pending == was.pending + [payload]
    requires was.committed == ready.committed == written.committed
    requires was.dropped == ready.dropped == written.dropped
    requires was.received == ready.received == written.received
    requires |was.segments| == |was.data| && written.segments == Rotated(was.segments, was.data, config)
    requires TotalLength(ready.data) == TotalLength(was.data)
    requires TotalLength(written.data) == TotalLength(ready.data) + HEADER_BYTES + |payload|
    requires Discarded(crc, written, now, evicted, config.maxTotalBytes)
    requires TotalLength(now.data) <= Max(config.maxTotalBytes, SegmentLimit(config))
    requires forall i :: 0 <= i < |written.data| ==> |written.data[i]| <= SegmentLimit(config)
    requires was.history <= ready.history <= written.history
    requires AllHold(crc, Added(ready.history, was.history), was.received, was.pending)
    requires AllRecord(crc, Added(written.history, ready.history), was.received, was.pending, payload)
    ensures Appended(crc, was, now, payload, config)
  {
    hide TotalLength, DiskOk, Replay, SuffixOf;
    assert written.data[0..] == written.data;
    if evicted > 0 {
      TotalSplit(written.data, evicted - 1);
    }
    assert written.segments == written.segments[..evicted] + now.segments;
    SuffixOfAppend(written.segments[..evicted], now.segments);
    AddedInTurn(was.history, ready.history, written.history);
    AddedInTurn(was.history, written.history, now.history);
    SuffixOfSelf(written.pending);
  }

  // ----- evicting

  lemma OldestIsAlone(files: Files, segs: seq<nat>)
    requires Lists(segs, files) && |segs| >= 2
    ensures segs[0] != segs[|segs| - 1]
    ensures Without(segs, segs[0]) == segs[1..]
  {
    assert forall n <- segs[1..] :: segs[0] < n;
  }

  lemma OldestIsNewest(crc: Checksum, disk: Disk, segs: seq<nat>, offset: nat, stream: seq<Bytes>)
    requires Reads(crc, disk, segs, offset, stream) && segs != [] && segs[0] == segs[|segs| - 1]
    ensures |segs| == 1
  {
  }

  /** What unlinking the oldest segment and then moving the cursor does to a directory. */
  lemma Evicted(crc: Checksum, disk: Disk, segs: seq<nat>, offset: nat, stream: seq<Bytes>) returns (kept: seq<Bytes>)
    requires Reads(crc, disk, segs, offset, stream) && |segs| >= 2
    ensures Without(segs, segs[0]) == segs[1..]
    ensures var disk1 := disk.(files := disk.files - {segs[0]});
            var disk2 := disk1.(cursorFile := Some(Cursor(segs[1], 0)));
            && DiskOk(crc, disk1) && Replay(crc, disk1) == kept
            && DiskOk(crc, disk2) && Replay(crc, disk2) == kept
            && Reads(crc, disk1, segs[1..], 0, kept) && Reads(crc, disk2, segs[1..], 0, kept)
            && Contents(disk2.files, segs[1..]) == Contents(disk.files, segs)[1..]
    ensures var last := segs[|segs| - 1];
            && segs[0] != last
            && Content(disk.files - {segs[0]}, last) == Content(disk.files, last)
            && (Parsed(crc, Content(disk.files, last)) != [] ==> kept != [])
    ensures SuffixOf(kept, stream) && kept == Stream(crc, Contents(disk.files, segs)[1..], 0)
    ensures Behind(crc, Contents(disk.files, segs)[1..], 0) == 0
    ensures |Parsed(crc, Content(disk.files, segs[0]))| + |kept|
            == |stream| + Behind(crc, Contents(disk.files, segs), offset)
  {
    hide Ascending, Lists, DiskOk, Clean, Replay, Boundary, Parsed, Flatten, Stream, Without;
    OldestIsAlone(disk.files, segs);
    var segs', data := segs[1..], Contents(disk.files, segs);
    kept := OldestUnlinked(crc, disk, segs, offset, stream);
    RemainingContents(disk.files, segs);
    var disk1 := disk.(files := disk.files - {segs[0]});
    ReadsMeans(crc, disk1, segs', 0, kept);
    FlattenIsStream(crc, data[1..]);
    CursorMoved(crc, disk1, segs', Cursor(segs[1], 0));
    ReadsMeans(crc, disk1.(cursorFile := Some(Cursor(segs[1], 0))), segs', 0, kept);
    BehindStart(crc, data[1..]);
    BehindSplits(crc, data[0], offset);
    assert data[1..] == data[1..|data| - 1] + [data[|data| - 1]];
    FlattenSnoc(crc, data[1..|data| - 1], data[|data| - 1]);
  }

  lemma OneDiscarded(crc: Checksum, was: View, now: View, ceiling: nat)
    requires |was.segments| == |was.data| >= 1 && TotalLength(was.data) > ceiling
    requires now.segments == was.segments[1..] && now.data == was.data[1..]
    requires now.pending != [] && SuffixOf(now.pending, was.pending)
    requires now.dropped + |now.pending| == was.dropped + |was.pending| + was.committed && now.committed == 0
    requires now.received == was.received && was.history <= now.history
    requires AllHold(crc, Added(now.history, was.history), now.received, now.pending)
    ensures Discarded(crc, was, now, 1, ceiling)
  {
    hide TotalLength, DiskOk, Replay;
    assert was.data[0..] == was.data;
  }

  lemma NoneDiscarded(crc: Checksum, was: View, ceiling: nat)
    requires |was.segments| == |was.data| && was.pending != []
    ensures Discarded(crc, was, was, 0, ceiling)
  {
    assert was.segments[0..] == was.segments && was.data[0..] == was.data;
  }

  lemma OneMoreDiscarded(crc: Checksum, was: View, mid: View, now: View, n: nat, ceiling: nat)
    requires Discarded(crc, was, mid, n, ceiling) && Discarded(crc, mid, now, 1, ceiling)
    ensures Discarded(crc, was, now, n + 1, ceiling) && |now.segments| < |mid.segments|
  {
    hide HoldsBetween, TotalLength;
    assert was.segments[n..][1..] == was.segments[n + 1..];
    assert was.data[n..][1..] == was.data[n + 1..];
    assert mid.data[0..] == mid.data;
    SuffixTransitive(now.pending, mid.pending, was.pending);
    BetweenJoins(crc, was.history, mid.history, now.history, now.received, was.pending, mid.pending, now.pending);
  }

  // ----- reading

  lemma SliceNext<T>(a: seq<T>, n: nat)
    requires n < |a|
    ensures a[n..] == [a[n]] + a[n + 1..] && a[n..][1..] == a[n + 1..]
  {
  }

  lemma SliceOf<T>(a: seq<T>, i: nat, j: nat)
    requires i <= j < |a|
    ensures a[i..][j - i] == a[j] && a[i..][j - i..] == a[j..]
  {
  }

  lemma Regroup<T>(a: seq<T>, b: seq<T>, n: nat, c: seq<T>)
    requires n <= |b|
    ensures a + (b + c) == (a + b[..n]) + (b[n..] + c)
  {
    assert b == b[..n] + b[n..];
  }

  lemma EmptyFlatten(crc: Checksum, data: seq<Bytes>)
    requires data == []
    ensures Flatten(crc, data) == []
  {
  }

  lemma StreamFrom(crc: Checksum, disk: Disk, segs: seq<nat>, j: nat, to: nat)
    requires Ascending(segs) && j < |segs|
    ensures Unread(crc, disk.files, segs, Cursor(segs[j], to)) == Stream(crc, Contents(disk.files, segs)[j..], to)
  {
    hide Ascending, Stream, AtOrAfter, FirstFrom;
    FirstFromAt(segs, j);
    assert Contents(disk.files, segs[j..]) == Contents(disk.files, segs)[j..];
  }

  /** `records` came before a position `offset` bytes into the `j`th segment, the rest of `stream` comes after it. */
  ghost predicate ReadingAt(crc: Checksum, disk: Disk, segs: seq<nat>, stream: seq<Bytes>,
                            j: nat, offset: nat, records: seq<Bytes>)
  {
    && j < |segs| && Boundary(crc, Content(disk.files, segs[j]), offset)
    && stream == records + Stream(crc, Contents(disk.files, segs)[j..], offset)
  }

  lemma StartOfRead(crc: Checksum, disk: Disk, segs: seq<nat>, offset: nat, stream: seq<Bytes>)
    requires Reads(crc, disk, segs, offset, stream)
    ensures segs == [] ==> stream == [] && FirstFrom(segs, 0) == None && offset == 0
    ensures segs != [] ==>
              && FirstFrom(segs, segs[0]) == Some(segs[0]) && segs[0] in segs
              && Boundary(crc, Content(disk.files, segs[0]), offset)
              && ReadingAt(crc, disk, segs, stream, 0, offset, [])
    ensures Unread(crc, disk.files, segs, Cursor(if segs == [] then 0 else segs[0], offset)) == stream
  {
    hide Ascending, Boundary, Flatten, Parsed;
    var data := Contents(disk.files, segs);
    assert data[0..] == data && [] + stream == stream;
    if segs != [] {
      FirstFromAt(segs, 0);
      assert segs[0..] == segs;
    }
  }

  lemma PositionMeans(crc: Checksum, disk: Disk, segs: seq<nat>, stream: seq<Bytes>, j: nat, to: nat,
                      records: seq<Bytes>)
    requires Ascending(segs) && j < |segs|
    requires stream == records + Stream(crc, Contents(disk.files, segs)[j..], to)
    ensures |records| <= |stream| && records == stream[..|records|]
    ensures Unread(crc, disk.files, segs, Cursor(segs[j], to)) == stream[|records|..]
  {
    hide Ascending, Stream, Unread;
    StreamFrom(crc, disk, segs, j, to);
  }

  /** Reading `all` on top of `records` consumed exactly the bytes between the two offsets. */
  ghost predicate Taken(crc: Checksum, bytes: Bytes, from: nat, to: nat, records: seq<Bytes>, all: seq<Bytes>,
                        max: nat, exhausted: bool)
  {
    var found := Parsed(crc, From(bytes, from));
    && |records| <= |all| <= max && |all| - |records| <= |found| && from <= to
    && all == records + found[..|all| - |records|]
    && Parsed(crc, From(bytes, to)) == found[|all| - |records|..]
    && (if exhausted then |all| - |records| == |found| else |all| == max)
  }

  lemma StreamAdvances(crc: Checksum, data: seq<Bytes>, j: nat, from: nat, to: nat, before: seq<Bytes>,
                       records: seq<Bytes>, max: nat, exhausted: bool)
    requires j < |data| && Taken(crc, data[j], from, to, before, records, max, exhausted)
    ensures before + Stream(crc, data[j..], from) == records + Stream(crc, data[j..], to)
    ensures exhausted ==> Stream(crc, data[j..], to) == Stream(crc, data[j + 1..], 0)
    ensures exhausted && j + 1 == |data| ==> Stream(crc, data[j..], to) == []
  {
    hide Parsed, Flatten, From;
    var rest := Flatten(crc, data[j + 1..]);
    var found := Parsed(crc, From(data[j], from));
    SliceNext(data, j);
    FlattenIsStream(crc, data[j + 1..]);
    assert Stream(crc, data[j..], from) == found + rest;
    assert Stream(crc, data[j..], to) == Parsed(crc, From(data[j], to)) + rest;
    hide Stream;
    Regroup(before, found, |records| - |before|, rest);
    assert exhausted ==> Parsed(crc, From(data[j], to)) == [];
    assert [] + rest == rest;
    if j + 1 == |data| {
      EmptyFlatten(crc, data[j + 1..]);
    }
  }

  /** A clean segment runs out exactly at its end, not at something unreadable. */
  lemma CleanlyExhausted(crc: Checksum, bytes: Bytes, to: nat)
    requires Clean(crc, bytes) && Boundary(crc, bytes, to) && Parsed(crc, From(bytes, to)) == []
    ensures !ReadRecord(crc, From(bytes, to)).Corrupt?
  {
    assert bytes == bytes[..to] + bytes[to..];
    ScanAfterClean(crc, bytes[..to], bytes[to..]);
  }

  lemma ReadAdvances(crc: Checksum, disk: Disk, segs: seq<nat>, offset: nat, stream: seq<Bytes>, j: nat,
                     from: nat, to: nat, before: seq<Bytes>, records: seq<Bytes>, max: nat, exhausted: bool)
    requires Reads(crc, disk, segs, offset, stream) && segs != []
    requires Clean(crc, Content(disk.files, segs[|segs| - 1]))
    requires ReadingAt(crc, disk, segs, stream, j, from, before)
    requires Taken(crc, Content(disk.files, segs[j]), from, to, before, records, max, exhausted)
    requires Boundary(crc, Content(disk.files, segs[j]), from) ==> Boundary(crc, Content(disk.files, segs[j]), to)
    ensures from <= to && Boundary(crc, Content(disk.files, segs[j]), to)
    ensures segs[j] in segs && (segs[j] == segs[0] ==> j == 0)
    ensures |records| <= |stream| && records == stream[..|records|] && |records| <= max
    ensures Unread(crc, disk.files, segs, Cursor(segs[j], to)) == stream[|records|..]
    ensures exhausted ==> !ReadRecord(crc, From(Content(disk.files, segs[j]), to)).Corrupt?
    ensures !exhausted ==> |records| == max
    ensures exhausted && j + 1 < |segs| ==>
              && FirstFrom(segs, segs[j] + 1) == Some(segs[j + 1])
              && FirstFrom(segs, segs[j + 1]) == Some(segs[j + 1])
              && ReadingAt(crc, disk, segs, stream, j + 1, 0, records)
    ensures exhausted && j + 1 == |segs| ==> FirstFrom(segs, segs[j] + 1) == None && records == stream
  {
    hide Ascending, Boundary, Parsed, ReadRecord, Clean, FirstFrom, AtOrAfter, Stream, Flatten, Unread;
    var data := Contents(disk.files, segs);
    FirstFromAt(segs, j);
    if segs[j] == segs[0] {
      FirstIsSmallest(segs, j);
    }
    StreamAdvances(crc, data, j, from, to, before, records, max, exhausted);
    assert exhausted ==> Parsed(crc, From(data[j], to)) == [];
    assert from <= to && |records| <= max && (!exhausted ==> |records| == max);
    hide Taken;
    PositionMeans(crc, disk, segs, stream, j, to, records);
    if exhausted {
      CleanlyExhausted(crc, data[j], to);
      if j + 1 < |segs| {
        FirstFromAt(segs, j + 1);
        StartIsBoundary(crc, data[j + 1]);
      }
    }
  }

  // ----- committing

  lemma SuffixGrows<T>(tail: seq<T>, whole: seq<T>, more: seq<T>)
    requires SuffixOf(tail, whole)
    ensures SuffixOf(tail + more, whole + more)
  {
  }

  /** A later position leaves a suffix of what an earlier one leaves. */
  lemma {:induction false} LaterIsSuffix(crc: Checksum, data: seq<Bytes>, from: nat, j: nat, to: nat)
    requires j < |data| && Boundary(crc, data[0], from) && Boundary(crc, data[j], to) && (j == 0 ==> from <= to)
    ensures SuffixOf(Stream(crc, data[j..], to), Stream(crc, data, from))
  {
    hide Boundary, Parsed, Flatten, From;
    var rest := Flatten(crc, data[1..]);
    if j == 0 {
      assert data[0..] == data;
      BoundaryAdvanced(crc, data[0], from, to);
      SuffixGrows(Parsed(crc, From(data[0], to)), Parsed(crc, From(data[0], from)), rest);
    } else {
      StartIsBoundary(crc, data[1]);
      LaterIsSuffix(crc, data[1..], 0, j - 1, to);
      assert data[1..][j - 1..] == data[j..];
      FlattenIsStream(crc, data[1..]);
      SuffixOfAppend(Parsed(crc, From(data[0], from)), rest);
      SuffixTransitive(Stream(crc, data[j..], to), rest, Stream(crc, data, from));
    }
  }

  /** How far `commit` has got after unlinking `i` of the `j` segments behind its new position. */
  ghost predicate Reclaiming(crc: Checksum, was: View, disk: Disk, history: seq<Snapshot>, i: nat, offset: nat,
                             j: nat, to: Cursor, target: seq<Bytes>)
  {
    && i <= j <= |was.segments| == |was.data|
    && Contents(disk.files, was.segments[i..]) == was.data[i..]
    && Reads(crc, disk, was.segments[i..], offset, Stream(crc, was.data[i..], offset))
    && SuffixOf(Stream(crc, was.data[i..], offset), was.pending)
    && SuffixOf(target, Stream(crc, was.data[i..], offset))
    && target == Stream(crc, was.data[j..], to.offset)
    && (if j == |was.data| then j == 0 && to == Cursor(0, 0)
        else was.segments[j] == to.segment && Boundary(crc, was.data[j], to.offset))
    && was.history <= history
    && AllBetween(crc, Added(history, was.history), was.received, was.pending, target)
  }

  /** A position between two records, at or after the one `offset` bytes into the oldest segment. */
  ghost predicate Ahead(crc: Checksum, files: Files, segs: seq<nat>, offset: nat, to: Cursor) {
    if segs == [] then to == Cursor(0, 0)
    else
      && to.segment in segs && Boundary(crc, Content(files, to.segment), to.offset)
      && (to.segment == segs[0] ==> offset <= to.offset)
  }

  /** What moving to any position does to a directory: the segments numbered below it are gone, and it is stored. */
  ghost predicate MovedTo(segs: seq<nat>, disk: Disk, segs': seq<nat>, disk': Disk, to: Cursor) {
    var gone := |Below(segs, to.segment)|;
    && gone <= |segs| && segs' == segs[gone..]
    && disk' == Disk(disk.files - FirstOf(segs, gone), Some(to))
  }

  /** The first `i` segments are gone, and nothing else changed. */
  ghost predicate Unlinked(segs: seq<nat>, disk: Disk, segs': seq<nat>, disk': Disk, i: nat) {
    i <= |segs| && segs' == segs[i..] && disk' == disk.(files := disk.files - FirstOf(segs, i))
  }

  lemma NoneUnlinked(segs: seq<nat>, disk: Disk)
    ensures Unlinked(segs, disk, segs, disk, 0)
  {
    FirstOfNone(segs, disk.files);
  }

  lemma OneMoreUnlinked(segs: seq<nat>, disk: Disk, segs': seq<nat>, disk': Disk, i: nat)
    requires Ascending(segs) && Unlinked(segs, disk, segs', disk', i) && i < |segs|
    ensures Unlinked(segs, disk, Without(segs', segs[i]), disk'.(files := disk'.files - {segs[i]}), i + 1)
  {
    hide Ascending, Without, FirstOf;
    WithoutFirst(segs, i);
    FirstOfNext(segs, i);
  }

  lemma MovedWhere(segs: seq<nat>, disk: Disk, segs': seq<nat>, disk': Disk, j: nat, to: Cursor)
    requires Ascending(segs) && j == |Below(segs, to.segment)| && Unlinked(segs, disk, segs', disk', j)
    ensures j <= |segs| && segs' == segs[j..]
    ensures MovedTo(segs, disk, segs', disk'.(cursorFile := Some(to)), to)
    ensures segs != [] && to.segment == segs[0] ==> j == 0 && segs' == segs && disk' == disk
  {
    if segs != [] && to.segment == segs[0] {
      NoneBelow(segs, segs[0]);
    }
  }

  lemma NothingToReclaim(to: Cursor)
    ensures Below([], to.segment) == [] && AtOrAfter([], to.segment) == []
  {
  }

  lemma ReclaimStarts(crc: Checksum, was: View, disk: Disk, offset: nat, to: Cursor) returns (j: nat)
    requires Reads(crc, disk, was.segments, offset, was.pending) && was.data == Contents(disk.files, was.segments)
    requires Ahead(crc, disk.files, was.segments, offset, to)
    ensures j <= |was.segments| && Below(was.segments, to.segment) == was.segments[..j]
    ensures was.segments != [] ==> was.data[|was.data| - 1] == Content(disk.files, was.segments[|was.segments| - 1])
    ensures Reclaiming(crc, was, disk, was.history, 0, offset, j, to, Unread(crc, disk.files, was.segments, to))
  {
    hide Ascending, Boundary, Parsed, Flatten, Clean, Sealed, Stream, AtOrAfter, FirstFrom, Below, SuffixOf;
    var segs, data := was.segments, was.data;
    assert segs[0..] == segs && data[0..] == data;
    AddedAtMostOne(was.history, was.history);
    SuffixOfSelf(was.pending);
    if segs == [] {
      j := 0;
      NothingToReclaim(to);
    } else {
      j :| 0 <= j < |segs| && segs[j] == to.segment;
      BelowIsPrefix(segs, j);
      StreamFrom(crc, disk, segs, j, to.offset);
      LaterIsSuffix(crc, data, offset, j, to.offset);
    }
  }

  lemma ReclaimContinues(crc: Checksum, was: View, disk: Disk, history: seq<Snapshot>, i: nat, offset: nat,
                         j: nat, to: Cursor, target: seq<Bytes>) returns (next: nat)
    requires Reclaiming(crc, was, disk, history, i, offset, j, to, target) && i < j
    ensures next == 0 && i < |was.segments|
    ensures var oldest := was.segments[i];
            var disk' := disk.(files := disk.files - {oldest});
            && oldest != was.segments[|was.segments| - 1]
            && Reclaiming(crc, was, disk', history + [Snapshot(disk', was.received)], i + 1, next, j, to, target)
  {
    hide Ascending, Lists, Boundary, Clean, Sealed, Stream, SuffixOf, DiskOk, Replay, Without, Behind, Parsed, Added,
      AllBetween, Contents, Content, Reads, From;
    next := 0;
    var segs, stream := was.segments[i..], Stream(crc, was.data[i..], offset);
    SliceNext(was.segments, i);
    SliceNext(was.data, i);
    var kept := OldestReclaimed(crc, disk, segs, offset, stream);
    ReclaimedStream(crc, was.data, i, j, to);
    SuffixTransitive(kept, stream, was.pending);
    BetweenOneMore(crc, was.history, history, Snapshot(disk.(files := disk.files - {segs[0]}), was.received),
                   was.received, was.pending, target);
  }

  lemma OldestReclaimed(crc: Checksum, disk: Disk, segs: seq<nat>, offset: nat,
                        stream: seq<Bytes>) returns (kept: seq<Bytes>)
    requires Reads(crc, disk, segs, offset, stream) && |segs| >= 2
    ensures segs[0] != segs[|segs| - 1] && SuffixOf(kept, stream)
    ensures kept == Stream(crc, Contents(disk.files, segs)[1..], 0)
    ensures var disk' := disk.(files := disk.files - {segs[0]});
            && DiskOk(crc, disk') && Replay(crc, disk') == kept && Reads(crc, disk', segs[1..], 0, kept)
            && Contents(disk'.files, segs[1..]) == Contents(disk.files, segs)[1..]
  {
    hide Reads, DiskOk, Replay, Stream, Contents, Content, SuffixOf, Parsed, Behind, Without;
    kept := Evicted(crc, disk, segs, offset, stream);
  }

  lemma ReclaimedStream(crc: Checksum, data: seq<Bytes>, i: nat, j: nat, to: Cursor)
    requires i < j < |data| && Boundary(crc, data[j], to.offset)
    ensures SuffixOf(Stream(crc, data[j..], to.offset), Stream(crc, data[i + 1..], 0))
  {
    hide Boundary, Stream, SuffixOf;
    StartIsBoundary(crc, data[i + 1]);
    SliceOf(data, i + 1, j);
    LaterIsSuffix(crc, data[i + 1..], 0, j - (i + 1), to.offset);
  }

  lemma ReclaimEnds(crc: Checksum, was: View, disk: Disk, history: seq<Snapshot>, offset: nat, j: nat,
                    to: Cursor, target: seq<Bytes>)
    requires Reclaiming(crc, was, disk, history, j, offset, j, to, target)
    ensures j <= |was.segments| == |was.data|
    ensures var disk' := disk.(cursorFile := Some(to));
            && Reads(crc, disk', was.segments[j..], to.offset, target)
            && Replay(crc, disk') == target && SuffixOf(target, was.pending)
            && was.history <= history + [Snapshot(disk', was.received)]
            && AllBetween(crc, Added(history + [Snapshot(disk', was.received)], was.history), was.received,
                was.pending, target)
    ensures Contents(disk.files, was.segments[j..]) == was.data[j..]
    ensures if was.segments == [] then j == 0 && to.segment == 0
            else
              && j < |was.segments| && to.segment == was.segments[j]
              && Content(disk.files, was.segments[|was.segments| - 1]) == was.data[|was.data| - 1]
  {
    hide Ascending, Lists, Boundary, Clean, Stream, SuffixOf, DiskOk, Replay, Added, AllBetween;
    var disk' := disk.(cursorFile := Some(to));
    CursorMoved(crc, disk, was.segments[j..], to);
    ReadsMeans(crc, disk', was.segments[j..], to.offset, target);
    SuffixTransitive(target, Stream(crc, was.data[j..], offset), was.pending);
    SuffixOfSelf(target);
    BetweenOneMore(crc, was.history, history, Snapshot(disk', was.received), was.received, was.pending, target);
    if was.segments != [] {
      assert Contents(disk.files, was.segments[j..])[|was.segments| - j - 1] == was.data[|was.data| - 1];
    }
  }

  lemma IsReleased(crc: Checksum, was: View, now: View, j: nat, target: seq<Bytes>)
    requires j <= |was.segments| == |was.data|
    requires now.segments == was.segments[j..] && now.data == was.data[j..]
    requires now.pending == target && SuffixOf(target, was.pending)
    requires now.dropped == was.dropped && now.received == was.received && was.history <= now.history
    requires AllBetween(crc, Added(now.history, was.history), now.received, was.pending, target)
    ensures Released(crc, was, now, target)
  {
    hide AllBetween, Added;
    SuffixOfAppend(was.segments[..j], was.segments[j..]);
    assert was.segments == was.segments[..j] + was.segments[j..];
    SuffixOfAppend(was.data[..j], was.data[j..]);
    assert was.data == was.data[..j] + was.data[j..];
  }

  // ----- pending bytes

  lemma NothingPending(crc: Checksum)
    ensures Size(Stream(crc, [], 0)) == 0 == TotalLength([])
  {
  }

  lemma {:induction false} FlattenSize(crc: Checksum, data: seq<Bytes>)
    requires forall i :: 0 <= i < |data| ==> Clean(crc, data[i])
    ensures Size(Flatten(crc, data)) == TotalLength(data)
  {
    if data != [] {
      hide Parsed, Size;
      FlattenSize(crc, data[1..]);
      SizeOfConcat(Parsed(crc, data[0]), Flatten(crc, data[1..]));
    }
  }

  lemma RestSize(crc: Checksum, bytes: Bytes, offset: nat)
    requires Boundary(crc, bytes, offset) && Clean(crc, bytes)
    ensures Size(Parsed(crc, bytes[offset..])) + offset == |bytes|
  {
    hide Parsed, Size;
    var head, tail := bytes[..offset], bytes[offset..];
    assert bytes == head + tail;
    ScanAfterClean(crc, head, tail);
    SizeOfConcat(Parsed(crc, head), Parsed(crc, tail));
  }

  /** In a directory of whole records, what lies behind the cursor and what is pending make up the files. */
  lemma PendingSize(crc: Checksum, data: seq<Bytes>, offset: nat)
    requires data == [] ==> offset == 0
    requires data != [] ==> Boundary(crc, data[0], offset) && Sealed(crc, data) && Clean(crc, data[|data| - 1])
    ensures Size(Stream(crc, data, offset)) + offset == TotalLength(data)
  {
    hide Parsed, Flatten, TotalLength, Size;
    if data != [] {
      assert forall i :: 0 <= i < |data| ==> Clean(crc, data[i]);
      hide Sealed, Clean;
      assert data[0..] == data;
      RestSize(crc, data[0], offset);
      FlattenSize(crc, data[1..]);
      SizeOfConcat(Parsed(crc, data[0][offset..]), Flatten(crc, data[1..]));
      TotalSplit(data, 0);
    } else {
      NothingPending(crc);
    }
  }

  lemma SizeIsPositive(payloads: seq<Bytes>)
    ensures Size(payloads) == 0 <==> payloads == []
  {
  }
}
