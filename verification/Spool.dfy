/** The spool: records go in at the newest segment and are handed out from a cursor. */
module Spooling {
  import opened Prelude
  import opened Records
  import opened SegmentLog
  import opened SegmentNumbers
  import opened EdgeDevice
  import opened CrashPoints
  import opened SpoolSteps

  datatype ActiveSegment = ActiveSegment(index: nat, bytes: nat)

  /** Scans a segment for the length of its intact part. */
  method IntactLength(crc: Checksum, bytes: Bytes) returns (valid: nat)
    ensures valid == Size(Parsed(crc, bytes)) <= |bytes|
  {
    hide ReadRecord, Size;
    valid := 0;
    assert bytes[0..] == bytes;
    var read := ReadRecord(crc, bytes);
    while read.Record?
      invariant valid <= |bytes| && read == ReadRecord(crc, bytes[valid..])
      invariant valid + Size(Parsed(crc, bytes[valid..])) == Size(Parsed(crc, bytes))
      decreases |bytes| - valid
    {
      NextRecord(crc, bytes, valid);
      valid := valid + read.consumed;
      read := ReadRecord(crc, bytes[valid..]);
    }
    SizeOfNothing();
  }

  method CountRecords(crc: Checksum, bytes: Bytes) returns (count: nat)
    ensures count == |Parsed(crc, bytes)|
  {
    hide ReadRecord, Size;
    count := 0;
    var at := 0;
    assert bytes[0..] == bytes;
    var read := ReadRecord(crc, bytes);
    while read.Record?
      invariant at <= |bytes| && read == ReadRecord(crc, bytes[at..])
      invariant count + |Parsed(crc, bytes[at..])| == |Parsed(crc, bytes)|
      decreases |bytes| - at
    {
      NextRecord(crc, bytes, at);
      count := count + 1;
      at := at + read.consumed;
      read := ReadRecord(crc, bytes[at..]);
    }
  }

  class Spool {
    const crc: Checksum
    const device: Device
    const config: SpoolConfig
    var segments: seq<nat>
    var active: Option<ActiveSegment>
    var cursor: Cursor
    var dropped: nat
    var corrupt: nat

    /** The records still to be delivered. */
    ghost function Pending(): seq<Bytes>
      reads this, device
    {
      Replay(crc, device.disk)
    }

    ghost function Data(): seq<Bytes>
      reads this, device
    {
      Contents(device.disk.files, segments)
    }

    /** Records already delivered but still on flash. */
    ghost function Committed(): nat
      reads this, device
    {
      Behind(crc, Data(), cursor.offset)
    }

    ghost function Now(): View
      reads this, device
    {
      View(segments, Data(), Pending(), Committed(), dropped, device.received, device.history)
    }

    /** The newest segment is the one being appended to, and holds whole records only. */
    ghost predicate ActiveOk()
      reads this, device
    {
      match active
      case None => segments == []
      case Some(a) =>
        && segments != [] && a.index == segments[|segments| - 1]
        && a.bytes == |Content(device.disk.files, a.index)|
        && Clean(crc, Content(device.disk.files, a.index))
    }

    ghost predicate Valid()
      reads this, device
    {
      && Reads(crc, device.disk, segments, cursor.offset, Pending())
      && cursor.segment == (if segments == [] then 0 else segments[0])
      && ActiveOk() && device.Bounded() && BoundsFit(device.bounds, config)
    }

    constructor (crc: Checksum, device: Device, config: SpoolConfig, segments: seq<nat>, cursor: Cursor)
      ensures this.crc == crc && this.device == device && this.config == config
      ensures this.segments == segments && this.cursor == cursor
      ensures active == None && dropped == 0 && corrupt == 0
    {
      this.crc, this.device, this.config := crc, device, config;
      this.segments, this.cursor := segments, cursor;
      active, dropped, corrupt := None, 0, 0;
    }

    /** Opens a directory, whatever it holds, cutting a torn tail off its newest segment. */
    static method Open(crc: Checksum, device: Device, config: SpoolConfig) returns (spool: Spool)
      modifies device
      ensures fresh(spool) && spool.crc == crc && spool.device == device && spool.config == config
      ensures device.received == old(device.received) && old(device.history) <= device.history
      ensures old(device.Bounded()) ==> device.Bounded()
      ensures spool.segments == Listing(old(device.disk.files)) && spool.cursor == old(Resume(device.disk))
      ensures device.disk == Recovered(crc, old(device.disk), spool.segments)
      ensures spool.dropped == 0 && spool.corrupt == if device.disk == old(device.disk) then 0 else 1
      ensures spool.active == if spool.segments == [] then None else
                var newest := spool.segments[|spool.segments| - 1];
                Some(ActiveSegment(newest, |Content(device.disk.files, newest)|))
      ensures old(DiskOk(crc, device.disk) && device.Bounded()) && BoundsFit(device.bounds, config) ==>
                && spool.Valid() && spool.Pending() == old(Replay(crc, device.disk))
                && AllHold(crc, Added(device.history, old(device.history)), device.received, spool.Pending())
    {
      hide Device.Bounded, Ascending, Lists, Listing, DiskOk, Reads, Clean, Recovered, Replay, LoadCursor;
      ghost var disk0, history0 := device.disk, device.history;
      var segments := ListSegments(device.disk.files);
      spool := new Spool(crc, device, config, segments, LoadCursor(device.disk.cursorFile, segments));
      ListingIs(segments, disk0.files);
      assert spool.cursor == Resume(disk0);
      RecoveryKeepsStream(crc, disk0, segments);
      spool.RecoverNewestSegment();
      AddedAtMostOne(history0, device.history);
    }

    /** Reading the directory: names arrive in no particular order. */
    static method ListSegments(files: Files) returns (segs: seq<nat>)
      ensures Lists(segs, files)
    {
      segs := [];
      var unseen := files.Keys;
      while unseen != {}
        invariant unseen <= files.Keys && Ascending(segs)
        invariant forall n: nat :: n in segs <==> n in files && n !in unseen
      {
        var n :| n in unseen;
        InsertKeepsOrder(segs, n);
        segs := Insert(segs, n);
        unseen := unseen - {n};
      }
    }

    /** Cuts the newest segment back to its last intact record and reopens it for appending. */
    method RecoverNewestSegment()
      requires Lists(segments, device.disk.files)
      modifies this`active, this`corrupt, device
      ensures device.disk == Recovered(crc, old(device.disk), segments)
      ensures device.received == old(device.received)
      ensures old(device.Bounded()) ==> device.Bounded()
      ensures device.history == old(device.history)
                                + if device.disk == old(device.disk) then []
                                  else [Snapshot(device.disk, device.received)]
      ensures corrupt == old(corrupt) + if device.disk == old(device.disk) then 0 else 1
      ensures segments != [] ==>
                var newest := segments[|segments| - 1];
                active == Some(ActiveSegment(newest, |Content(device.disk.files, newest)|))
      ensures segments == [] ==> active == old(active)
    {
      hide Device.Bounded, Ascending, Lists, Parsed, Size;
      NewestIsLast(segments, device.disk.files);
      ghost var files := device.disk.files;
      if segments != [] {
        var newest := segments[|segments| - 1];
        var bytes := device.disk.files[newest];
        var valid := IntactLength(crc, bytes);
        if valid < |bytes| {
          device.Truncate(newest, valid);
          assert |device.disk.files[newest]| < |files[newest]|;
          corrupt := corrupt + 1;
        } else {
          assert bytes[..valid] == bytes;
          assert files[newest := bytes] == files;
        }
        active := Some(ActiveSegment(newest, valid));
      }
    }

    /** Starts a new segment when there is none or the current one is full. */
    method EnsureActiveSegment()
      requires Valid()
      modifies this`segments, this`active, device
      ensures Valid() && Pending() == old(Pending())
      ensures active.Some? && (active.value.bytes == 0 || active.value.bytes < config.segmentBytes)
      ensures segments == Rotated(old(segments), old(Data()), config)
      ensures segments == old(segments) ==> active == old(active) && device.disk == old(device.disk)
      ensures segments != old(segments) ==>
                device.disk == old(device.disk).(files := old(device.disk.files)[segments[|segments| - 1] := []])
      ensures TotalLength(Data()) == old(TotalLength(Data())) && Committed() == old(Committed())
      ensures device.received == old(device.received) && old(device.history) <= device.history
      ensures AllHold(crc, Added(device.history, old(device.history)), device.received, Pending())
    {
      hide Device.Bounded, Ascending, Lists, Listing, DiskOk, Clean, Replay, Boundary, Stream;
      ghost var history0 := device.history;
      if active.None? || active.value.bytes >= config.segmentBytes {
        var index := if segments == [] then 0 else segments[|segments| - 1] + 1;
        NewSegment(crc, device.disk, segments, cursor.offset, Pending(), index);
        AllAreFull(index);
        device.Create(index);
        segments := segments + [index];
        active := Some(ActiveSegment(index, 0));
      }
      AddedAtMostOne(history0, device.history);
    }

    /** A new segment follows only ones that are full. */
    lemma AllAreFull(index: nat)
      requires Valid() && (active.None? || config.segmentBytes <= active.value.bytes)
      requires index == if segments == [] then 0 else segments[|segments| - 1] + 1
      ensures FullBelow(device.disk.files, index, device.bounds.least)
    {
      hide Reads, Clean, Replay;
      ValidParts();
      forall n <- device.disk.files ensures n < index && device.bounds.least <= |device.disk.files[n]| {
        assert n in segments;
      }
    }

    lemma ActiveFile()
      requires Valid() && active.Some?
      ensures active.value.index in device.disk.files
      ensures |device.disk.files[active.value.index]| == active.value.bytes
    {
      hide Reads, Clean, Replay, Device.Bounded;
      ValidParts();
      NewestIsLast(segments, device.disk.files);
    }

    /** Writes one record behind the newest one. */
    method WriteRecord(payload: Bytes)
      requires Valid() && active.Some? && Storable(payload)
      requires active.value.bytes == 0 || active.value.bytes < config.segmentBytes
      modifies this`active, device
      ensures Valid() && Pending() == old(Pending()) + [payload]
      ensures active == Some(ActiveSegment(old(active.value.index), old(active.value.bytes) + HEADER_BYTES + |payload|))
      ensures TotalLength(Data()) == old(TotalLength(Data())) + HEADER_BYTES + |payload|
      ensures Committed() == old(Committed())
      ensures Parsed(crc, Content(device.disk.files, active.value.index)) != []
      ensures device.received == old(device.received) && old(device.history) <= device.history
      ensures AllRecord(crc, Added(device.history, old(device.history)), device.received, old(Pending()), payload)
    {
      hide Device.Bounded, Ascending, Lists, Listing, DiskOk, Clean, Replay, Reads, Boundary, Stream, Parsed, Encode,
        TotalLength, Behind, Contents, Extended;
      ghost var disk0, history0, stream := device.disk, device.history, Pending();
      ActiveFile();
      var record := Encode(crc, payload);
      RecordWritten(crc, disk0, segments, cursor.offset, stream, payload);
      ExtendedContent(disk0, active.value.index, record);
      forall n | 0 <= n <= |record|
        ensures RecordPoint(crc, Extended(disk0, active.value.index, record[..n]), stream, payload)
      {
        RecordReaches(crc, disk0, segments, cursor.offset, stream, payload, n);
      }
      device.Write(active.value.index, record);
      active := Some(ActiveSegment(active.value.index, active.value.bytes + HEADER_BYTES + |payload|));
    }

    /** Bytes on flash. */
    method TotalBytes() returns (total: nat)
      ensures total == TotalLength(Data())
    {
      total := 0;
      var i := 0;
      assert Data()[0..] == Data();
      while i < |segments|
        invariant 0 <= i <= |segments|
        invariant total + TotalLength(Data()[i..]) == TotalLength(Data())
      {
        TotalSplit(Data(), i);
        total := total + |Content(device.disk.files, segments[i])|;
        i := i + 1;
      }
    }

    /** Unlinks one segment, counting its records if they are being thrown away. */
    method RemoveSegment(segment: nat, countAsDropped: bool)
      modifies this`segments, this`active, this`dropped, device
      ensures segments == Without(old(segments), segment)
      ensures active == if old(active).Some? && old(active).value.index == segment then None else old(active)
      ensures dropped == old(dropped)
                         + if countAsDropped then |Parsed(crc, Content(old(device.disk.files), segment))| else 0
      ensures device.disk == old(device.disk).(files := old(device.disk.files) - {segment})
      ensures device.received == old(device.received) && device.Changed(old(device.history))
      ensures old(device.Bounded()) ==> device.Bounded()
    {
      if countAsDropped {
        var count := CountRecords(crc, Content(device.disk.files, segment));
        dropped := dropped + count;
      }
      device.Unlink(segment);
      segments := Without(segments, segment);
      if active.Some? && active.value.index == segment {
        active := None;
      }
    }

    /** One round of eviction: whichever of the two writes a crash falls behind, the reopened spool agrees. */
    method EvictOldest()
      requires Valid() && active.Some? && |segments| >= 2 && TotalLength(Data()) > config.maxTotalBytes
      requires Parsed(crc, Content(device.disk.files, active.value.index)) != []
      modifies this`segments, this`active, this`dropped, this`cursor, device
      ensures Valid() && active == old(active)
      ensures Discarded(crc, old(Now()), Now(), 1, config.maxTotalBytes)
      ensures Content(device.disk.files, active.value.index) == old(Content(device.disk.files, active.value.index))
    {
      hide Device.Bounded, Ascending, Lists, Listing, DiskOk, Clean, Replay, Reads, Boundary, Stream, Parsed,
        TotalLength, Behind, Discarded, SuffixOf, Added, Without;
      ghost var was := Now();
      var oldest := segments[0];
      ghost var kept := Evicted(crc, device.disk, segments, cursor.offset, Pending());
      RemoveSegment(oldest, true);
      ghost var unlinked := Snapshot(device.disk, device.received);
      if cursor.segment <= oldest {
        cursor := Cursor(FirstOr(segments, oldest + 1), 0);
        device.StoreCursor(cursor);
      }
      AddedTwo(was.history, unlinked, Snapshot(device.disk, device.received));
      OneDiscarded(crc, was, Now(), config.maxTotalBytes);
    }

    /** Discards the oldest segments while the directory is over its ceiling, but never the one being written. */
    method EnforceCapacity() returns (ghost evicted: nat)
      requires Valid() && active.Some? && Pending() != []
      requires Parsed(crc, Content(device.disk.files, active.value.index)) != []
      modifies this`segments, this`active, this`dropped, this`cursor, device
      ensures Valid() && active == old(active)
      ensures Discarded(crc, old(Now()), Now(), evicted, config.maxTotalBytes)
      ensures TotalLength(Data()) <= config.maxTotalBytes || |segments| == 1
    {
      hide Device.Bounded, Ascending, Lists, Listing, DiskOk, Clean, Replay, Reads, Boundary, Stream, Parsed,
        TotalLength, Behind, Discarded, Content, Contents;
      ghost var was := Now();
      evicted := 0;
      NoneDiscarded(crc, was, config.maxTotalBytes);
      var total := TotalBytes();
      while total > config.maxTotalBytes && segments[0] != active.value.index
        invariant Valid() && active == old(active) && total == TotalLength(Data())
        invariant Parsed(crc, Content(device.disk.files, active.value.index)) != []
        invariant Discarded(crc, was, Now(), evicted, config.maxTotalBytes)
        decreases |segments|
      {
        ghost var mid := Now();
        EvictOldest();
        OneMoreDiscarded(crc, was, mid, Now(), evicted, config.maxTotalBytes);
        evicted := evicted + 1;
        total := TotalBytes();
      }
      if segments[0] == active.value.index {
        OldestIsNewest(crc, device.disk, segments, cursor.offset, Pending());
      }
    }

    /** Appends one payload: skips an empty one, refuses an oversized one. */
    method Append(payload: Bytes) returns (ok: bool)
      requires Valid()
      modifies this`segments, this`active, this`dropped, this`cursor, device
      ensures Valid()
      ensures ok <==> |payload| <= MAX_RECORD_BYTES
      ensures !Storable(payload) ==> Now() == old(Now()) && device.disk == old(device.disk) && cursor == old(cursor)
      ensures Storable(payload) ==> Appended(crc, old(Now()), Now(), payload, config)
    {
      hide Spool.Valid, DiskOk, Clean, Replay, Stream, Parsed, TotalLength, Behind, Discarded, Appended, Added,
        AllHold, AllRecord, Contents;
      if payload == [] {
        return true;
      }
      if |payload| > MAX_RECORD_BYTES {
        return false;
      }
      ghost var was := Now();
      EnsureActiveSegment();
      ghost var ready := Now();
      WriteRecord(payload);
      ghost var written := Now();
      ValidMeans();
      ghost var evicted := EnforceCapacity();
      ValidMeans();
      if |segments| == 1 {
        TotalOfOne(Data());
      }
      AppendedInTurn(crc, was, ready, written, Now(), payload, evicted, config);
      ok := true;
    }

    /** Reads records from one segment until `max` are held or the segment has no more. */
    method ReadFromSegment(segment: nat, at: Cursor, max: nat, records: seq<Bytes>)
      returns (exhausted: bool, to: Cursor, all: seq<Bytes>)
      requires |records| <= max
      modifies this`corrupt
      ensures Taken(crc, Content(device.disk.files, segment), at.offset, to.offset, records, all, max, exhausted)
      ensures to.segment == at.segment
      ensures var bytes := Content(device.disk.files, segment);
              && (Boundary(crc, bytes, at.offset) ==> Boundary(crc, bytes, to.offset))
              && corrupt == old(corrupt)
                            + if exhausted && ReadRecord(crc, From(bytes, to.offset)).Corrupt? then 1 else 0
    {
      hide Parsed, ReadRecord, Clean, Boundary, From, Content;
      to, all, exhausted := at, records, false;
      var bytes := Content(device.disk.files, segment);
      ghost var found := Parsed(crc, From(bytes, at.offset));
      assert found[0..] == found && records + [] == records;
      while |all| < max
        invariant |records| <= |all| <= max && |all| - |records| <= |found|
        invariant all == records + found[..|all| - |records|]
        invariant Parsed(crc, From(bytes, to.offset)) == found[|all| - |records|..]
        invariant at.offset <= to.offset && to.segment == at.segment && corrupt == old(corrupt)
        invariant Boundary(crc, bytes, at.offset) ==> Boundary(crc, bytes, to.offset)
      {
        var read := ReadRecord(crc, From(bytes, to.offset));
        if !read.Record? {
          NoMoreRecords(crc, From(bytes, to.offset));
          if read.Corrupt? {
            corrupt := corrupt + 1;
          }
          exhausted := true;
          return;
        }
        ScanStep(crc, bytes, to.offset);
        all := all + [read.payload];
        to := Cursor(to.segment, to.offset + read.consumed);
      }
    }

    /** Positions that make sense to commit: between two records, at or after the current one. */
    ghost predicate CanCommit(to: Cursor)
      reads this, device
    {
      Ahead(crc, device.disk.files, segments, cursor.offset, to)
    }

    /** Returns the first `max` pending records without consuming them, and the position after them. */
    method ReadBatch(max: nat) returns (records: seq<Bytes>, to: Cursor)
      requires Valid()
      modifies this`corrupt
      ensures Valid() && Now() == old(Now()) && corrupt == old(corrupt)
      ensures records == Pending()[..Min(max, |Pending()|)]
      ensures CanCommit(to) && Unread(crc, device.disk.files, segments, to) == Pending()[|records|..]
    {
      hide Device.Bounded, Ascending, Lists, Listing, DiskOk, Clean, Replay, Reads, Boundary, Parsed, Behind,
        FirstFrom, ReadRecord, Unread, ReadingAt, Taken;
      ghost var stream := Pending();
      records, to := [], cursor;
      StartOfRead(crc, device.disk, segments, cursor.offset, stream);
      if max == 0 {
        return;
      }
      ghost var j := 0;
      var segment := FirstFrom(segments, to.segment);
      while segment.Some?
        invariant corrupt == old(corrupt) && |records| < max
        invariant segment.None? ==> segments == [] && records == [] && to == cursor
        invariant segment.Some? ==>
                    && j < |segments| && to.segment == segments[j] == segment.value
                    && ReadingAt(crc, device.disk, segments, stream, j, to.offset, records)
                    && (j == 0 ==> cursor.offset <= to.offset)
        decreases |segments| - j
      {
        to := Cursor(segment.value, if segment.value == to.segment then to.offset else 0);
        ghost var from, before := to.offset, records;
        var exhausted;
        exhausted, to, records := ReadFromSegment(segment.value, to, max, records);
        ReadAdvances(crc, device.disk, segments, cursor.offset, stream, j, from, to.offset, before, records, max,
            exhausted);
        if |records| >= max || !exhausted {
          break;
        }
        var next := FirstFrom(segments, segment.value + 1);
        if next.None? {
          break;
        }
        to := Cursor(next.value, 0);
        j := j + 1;
        segment := FirstFrom(segments, to.segment);
      }
    }

    /** Hands a batch to the sink; the spool itself does not change. */
    method Offer(records: seq<Bytes>, answer: Answer) returns (ok: bool)
      requires Valid()
      modifies device
      ensures Valid() && (ok <==> answer.Confirmed?)
      ensures device.disk == old(device.disk)
      ensures Offered(old(Now()), Now(), device.disk, Handed(records, answer))
    {
      hide Device.Bounded, Reads, Clean, Replay, Handed;
      ok := device.Publish(records, answer);
    }

    /** A position between two records of the oldest segment, before the current one or not. */
    ghost predicate CanRewind(to: Cursor)
      reads this, device
    {
      segments != [] && to.segment == segments[0] && Boundary(crc, Content(device.disk.files, to.segment), to.offset)
    }

    /**
     * Moves to any position at all and unlinks the segments before it. Between two records that
     * is where the stream goes on; at or after the current position, exactly what lies before it
     * is released.
     */
    method Commit(to: Cursor)
      requires Valid()
      modifies this`cursor, this`segments, this`active, this`dropped, device
      ensures cursor == to && dropped == old(dropped) && device.received == old(device.received)
      ensures MovedTo(old(segments), old(device.disk), segments, device.disk, to)
      ensures active == if old(active).Some? && old(active).value.index < to.segment then None else old(active)
      ensures old(CanCommit(to)) ==>
                Valid() && Released(crc, old(Now()), Now(), old(Unread(crc, device.disk.files, segments, to)))
      ensures old(CanRewind(to)) ==>
                && Valid() && Pending() == old(Unread(crc, device.disk.files, segments, to))
                && segments == old(segments) && Data() == old(Data())
    {
      hide Device.Bounded, Ascending, Lists, Listing, DiskOk, Clean, Replay, Reads, Boundary, Stream, Parsed, Behind,
        SuffixOf, Unread, Added, AllBetween, Released, Below, FirstOf, Without, Reclaiming, Contents, Content, Ahead,
        MovedTo;
      SegmentsAscend();
      ghost var back, start := CanRewind(to), device.disk;
      ValidParts();
      ghost var was, offset, ok := Now(), cursor.offset, CanCommit(to);
      ghost var target := Unread(crc, device.disk.files, segments, to);
      assert segments != [] ==> NewestIs(was.data[|was.data| - 1]);
      cursor := to;
      ghost var j;
      j, offset := ReclaimBehind(was, offset, to, target, ok);
      ghost var disk, history := device.disk, device.history;
      device.StoreCursor(cursor);
      MovedWhere(was.segments, start, segments, disk, j, to);
      if ok {
        CommitEnds(was, disk, history, offset, j, to, target);
      }
      if back {
        RewindEnds(was, start, to, target);
      }
    }

    lemma RewindEnds(was: View, start: Disk, to: Cursor, target: seq<Bytes>)
      requires Lists(was.segments, start.files) && Sealed(crc, was.data)
      requires was.data == Contents(start.files, was.segments)
      requires was.segments != [] && to.segment == was.segments[0]
      requires Boundary(crc, Content(start.files, to.segment), to.offset)
      requires target == Unread(crc, start.files, was.segments, to)
      requires segments == was.segments && device.disk == start.(cursorFile := Some(to)) && cursor == to
      requires active.Some? && active.value.index == was.segments[|was.segments| - 1]
      requires NewestIs(was.data[|was.data| - 1])
      requires device.Bounded() && BoundsFit(device.bounds, config)
      ensures Valid() && Pending() == target && Data() == was.data
    {
      assert Ascending(segments);
      hide Device.Bounded, Ascending, Lists, Listing, DiskOk, Clean, Replay, Reads, Boundary, Stream, Unread, Content,
        Sealed;
      StreamFrom(crc, start, segments, 0, to.offset);
      assert was.data[0..] == was.data;
      CursorMoved(crc, start, segments, to);
      ReadsMeans(crc, device.disk, segments, to.offset, target);
    }

    lemma SegmentsAscend()
      requires Valid()
      ensures Ascending(segments)
    {
    }

    lemma ValidParts()
      requires Valid()
      ensures Lists(segments, device.disk.files) && Sealed(crc, Data())
    {
    }

    /** The segment being appended to holds this. */
    ghost predicate NewestIs(bytes: Bytes)
      reads this
    {
      active.Some? && active.value.bytes == |bytes| && Clean(crc, bytes)
    }

    lemma CommitEnds(was: View, disk: Disk, history: seq<Snapshot>, offset: nat, j: nat, to: Cursor, target: seq<Bytes>)
      requires Reclaiming(crc, was, disk, history, j, offset, j, to, target)
      requires device.disk == disk.(cursorFile := Some(to))
      requires device.history == history + [Snapshot(device.disk, device.received)]
      requires device.received == was.received && dropped == was.dropped && cursor == to
      requires segments == was.segments[j..]
      requires active.Some? ==> was.segments != [] && active.value.index == was.segments[|was.segments| - 1]
      requires was.segments != [] ==> NewestIs(was.data[|was.data| - 1])
      requires device.Bounded() && BoundsFit(device.bounds, config)
      ensures Valid() && Released(crc, was, Now(), target)
    {
      hide Device.Bounded, Ascending, Lists, Listing, DiskOk, Clean, Replay, Reads, Boundary, Stream, Parsed, Behind,
        SuffixOf, Added, AllBetween, Released, Reclaiming, Content;
      ReclaimEnds(crc, was, disk, history, offset, j, to, target);
      IsReleased(crc, was, Now(), j, target);
    }

    /** The loop of `Commit`: unlinks, oldest first, every segment before the new position. */
    method ReclaimBehind(ghost was: View, ghost start: nat, to: Cursor, ghost target: seq<Bytes>, ghost ok: bool)
      returns (ghost j: nat, ghost offset: nat)
      requires Ascending(segments) && was.segments == segments
      requires was.received == device.received && was.history == device.history
      requires ok ==> was.data == Data() && Reads(crc, device.disk, segments, start, was.pending)
      requires ok ==> Ahead(crc, device.disk.files, segments, start, to)
      requires target == Unread(crc, device.disk.files, segments, to)
      requires active.Some? ==> segments != [] && active.value.index == segments[|segments| - 1]
      modifies this`segments, this`active, this`dropped, device
      ensures j == |Below(was.segments, to.segment)|
      ensures Unlinked(was.segments, old(device.disk), segments, device.disk, j)
      ensures dropped == old(dropped) && device.received == was.received
      ensures old(device.Bounded()) ==> device.Bounded()
      ensures ok ==> Reclaiming(crc, was, device.disk, device.history, j, offset, j, to, target)
      ensures ok ==> active == old(active)
      ensures active == if old(active).Some? && old(active).value.index < to.segment then None else old(active)
    {
      hide Device.Bounded, Ascending, Reads, Unread, Below, Without, Reclaiming, Contents, Content, Ahead, Unlinked;
      ghost var disk := device.disk;
      var reclaimable := Below(segments, to.segment);
      BelowComesFirst(segments, to.segment);
      offset, j := start, |reclaimable|;
      if ok {
        ghost var _ := ReclaimStarts(crc, was, device.disk, offset, to);
      }
      NoneUnlinked(segments, disk);
      if active.Some? {
        BelowMembers(segments, to.segment, active.value.index);
      }
      var i := 0;
      while i < |reclaimable|
        invariant i <= |reclaimable| && Unlinked(was.segments, disk, segments, device.disk, i)
        invariant dropped == old(dropped) && device.received == was.received && (ok ==> active == old(active))
        invariant active ==
                  if old(active).Some? && old(active).value.index in reclaimable[..i] then None else old(active)
        invariant old(device.Bounded()) ==> device.Bounded()
        invariant ok ==> Reclaiming(crc, was, device.disk, device.history, i, offset, j, to, target)
      {
        if ok {
          offset := ReclaimContinues(crc, was, device.disk, device.history, i, offset, j, to, target);
        }
        OneMoreUnlinked(was.segments, disk, segments, device.disk, i);
        RemoveSegment(reclaimable[i], false);
        assert reclaimable[..i + 1] == reclaimable[..i] + [reclaimable[i]];
        i := i + 1;
      }
      assert reclaimable[..i] == reclaimable;
    }

    /** A valid spool stands on a well-formed directory, whose bytes are the backlog and at most one segment more. */
    lemma ValidMeans()
      requires Valid()
      ensures DiskOk(crc, device.disk)
      ensures Size(Pending()) <= TotalLength(Data()) <= Size(Pending()) + SegmentLimit(config)
      ensures forall i :: 0 <= i < |Data()| ==> |Data()[i]| <= SegmentLimit(config)
      ensures device.Bounded() && Sized(device.disk.files, device.bounds) && BoundsFit(device.bounds, config)
    {
      hide DiskOk, TotalLength, Listing, Ascending, Parsed, Size, Clean, Replay, Stream;
      ReadsMeans(crc, device.disk, segments, cursor.offset, Pending());
      PendingSize(crc, Data(), cursor.offset);
      forall i | 0 <= i < |Data()| ensures |Data()[i]| <= SegmentLimit(config) {
        assert segments[i] in segments && segments[i] in device.disk.files;
      }
    }

    /** All segments but the newest are full, so there are no more of them than their bytes call for. */
    lemma SegmentsAreFew()
      requires Valid()
      ensures forall i :: 0 <= i < |segments| - 1 ==> device.bounds.least <= |Content(device.disk.files, segments[i])|
      ensures segments != [] ==> (|segments| - 1) * device.bounds.least <= TotalLength(Data())
    {
      hide Reads, TotalLength, Clean, Replay;
      ValidParts();
      forall i | 0 <= i < |segments| - 1
        ensures device.bounds.least <= |Content(device.disk.files, segments[i])|
      {
        assert segments[i] in device.disk.files && segments[|segments| - 1] in device.disk.files;
      }
      if segments != [] {
        FullTotal(Data(), device.bounds.least);
      }
    }

    /** The size of the backlog, from file sizes and the cursor alone. */
    method PendingBytes() returns (bytes: nat)
      requires Valid()
      ensures bytes == Size(Pending())
      ensures bytes == 0 <==> Pending() == []
    {
      hide Ascending, Lists, DiskOk, Replay, Boundary, Stream, Parsed, TotalLength, Size, Clean;
      var total := TotalBytes();
      bytes := if total >= cursor.offset then total - cursor.offset else 0;
      PendingSize(crc, Data(), cursor.offset);
      SizeIsPositive(Pending());
    }

    method IsEmpty() returns (empty: bool)
      requires Valid()
      modifies this`corrupt
      ensures Valid() && Now() == old(Now()) && empty == (Pending() == [])
    {
      var records, _ := ReadBatch(1);
      empty := records == [];
    }
  }
}
