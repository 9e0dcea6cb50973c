/**
 * Losing power can also take back bytes the operating system had not yet written. `open` loads
 * the cursor before it truncates the newest segment and never moves it, so whether this is
 * harmless depends on where the cursor was.
 */
module PowerLoss {
  import opened Prelude
  import opened Records
  import opened SegmentLog
  import opened SegmentNumbers
  import opened EdgeDevice
  import opened SpoolSteps

  /** The directory with only the first `n` bytes of its newest segment. */
  ghost function Cut(disk: Disk, segs: seq<nat>, n: nat): Disk
    requires segs != []
  {
    var last := segs[|segs| - 1];
    disk.(files := disk.files[last := Front(Content(disk.files, last), n)])
  }

  /** The stored cursor does not point past what is left of the newest segment. */
  ghost predicate CursorSurvives(disk: Disk, segs: seq<nat>, n: nat)
    requires segs != []
  {
    disk.cursorFile.Some? && disk.cursorFile.value.segment == segs[|segs| - 1] ==> disk.cursorFile.value.offset <= n
  }

  lemma ShorterScan(crc: Checksum, bytes: Bytes, n: nat)
    requires n <= |bytes|
    ensures Parsed(crc, bytes[..n]) <= Parsed(crc, bytes)
  {
    hide Parsed, EncodeAll, Size, ReadRecord;
    var found := Parsed(crc, bytes[..n]);
    ScanCoversAnEncoding(crc, bytes[..n]);
    assert bytes[..n][..Size(found)] == bytes[..Size(found)];
    assert bytes == bytes[..Size(found)] + bytes[Size(found)..];
    ScanFindsEverything(crc, found, bytes[Size(found)..]);
  }

  /**
   * After losing the tail of its newest segment a directory is still well formed exactly when
   * the stored cursor survives, and then only records from the end of the stream are missing.
   */
  lemma TailLossIsHarmlessIff(crc: Checksum, disk: Disk, segs: seq<nat>, n: nat)
    requires DiskOk(crc, disk) && Lists(segs, disk.files) && segs != []
    requires n <= |Content(disk.files, segs[|segs| - 1])|
    ensures DiskOk(crc, Cut(disk, segs, n)) <==> CursorSurvives(disk, segs, n)
    ensures CursorSurvives(disk, segs, n) ==> Replay(crc, Cut(disk, segs, n)) <= Replay(crc, disk)
  {
    hide Ascending, Lists, DiskOk, Clean, Parsed, Stream, Replay, Resume, Reads;
    var offset, stream := Resume(disk).offset, Replay(crc, disk);
    ReadsFrom(crc, disk, segs);
    ReadsMeans(crc, disk, segs, offset, stream);
    if CursorSurvives(disk, segs, n) {
      CutKeepsCursor(crc, disk, segs, offset, stream, n);
    } else {
      CutBreaksCursor(crc, disk, segs, offset, stream, n);
    }
  }

  lemma CutKeepsCursor(crc: Checksum, disk: Disk, segs: seq<nat>, offset: nat, stream: seq<Bytes>, n: nat)
    requires Reads(crc, disk, segs, offset, stream) && segs != []
    requires n <= |Content(disk.files, segs[|segs| - 1])| && CursorSurvives(disk, segs, n)
    ensures DiskOk(crc, Cut(disk, segs, n)) && Replay(crc, Cut(disk, segs, n)) <= stream
  {
    hide Ascending, Lists, DiskOk, Clean, Parsed, Stream, Replay, Boundary;
    var cut, data := Cut(disk, segs, n), Contents(disk.files, segs);
    ReplacedContents(disk.files, segs, data[|data| - 1][..n]);
    CutStream(crc, data, offset, n);
    ReadsMeans(crc, cut, segs, offset, Stream(crc, Contents(cut.files, segs), offset));
  }

  lemma CutStream(crc: Checksum, data: seq<Bytes>, offset: nat, n: nat)
    requires data != [] && n <= |data[|data| - 1]| && Boundary(crc, data[0], offset)
    requires |data| == 1 ==> offset <= n
    ensures var data' := data[|data| - 1 := data[|data| - 1][..n]];
            Boundary(crc, data'[0], offset) && Stream(crc, data', offset) <= Stream(crc, data, offset)
  {
    hide Clean, Parsed, Flatten;
    var init, last := data[..|data| - 1], data[|data| - 1];
    var data' := data[|data| - 1 := last[..n]];
    assert data == init + [last] && data' == init + [last[..n]];
    if init == [] {
      assert last[..n][..offset] == last[..offset];
      assert last[..n][offset..] == last[offset..][..n - offset];
      ShorterScan(crc, last[offset..], n - offset);
      EmptyFlatten(crc, data[1..]);
    } else {
      StreamSnoc(crc, init, last, offset);
      StreamSnoc(crc, init, last[..n], offset);
      ShorterScan(crc, last, n);
    }
  }

  lemma CutBreaksCursor(crc: Checksum, disk: Disk, segs: seq<nat>, offset: nat, stream: seq<Bytes>, n: nat)
    requires Reads(crc, disk, segs, offset, stream) && segs != []
    requires n <= |Content(disk.files, segs[|segs| - 1])| && !CursorSurvives(disk, segs, n)
    ensures !DiskOk(crc, Cut(disk, segs, n))
  {
    assert segs[0] <= segs[|segs| - 1];
    hide Ascending, Clean, Parsed, Stream;
    var cut := Cut(disk, segs, n);
    ReplacedContents(disk.files, segs, Content(disk.files, segs[|segs| - 1])[..n]);
    ListingIs(segs, cut.files);
  }

  /** The directory after `open` recovered what is left and one more payload was written to the same segment. */
  ghost function AfterNext(crc: Checksum, disk: Disk, segs: seq<nat>, n: nat, payload: Bytes): Disk
    requires segs != [] && Storable(payload)
  {
    Extended(Recovered(crc, Cut(disk, segs, n), segs), segs[|segs| - 1], Encode(crc, payload))
  }

  /**
   * What is written next is replayed, behind everything that was left, exactly when the stored
   * cursor survived. Otherwise the record is on flash, intact, and is never delivered.
   */
  lemma NextIsReplayedIff(crc: Checksum, disk: Disk, segs: seq<nat>, n: nat, payload: Bytes)
    requires DiskOk(crc, disk) && Lists(segs, disk.files) && segs != [] && Storable(payload)
    requires n <= |Content(disk.files, segs[|segs| - 1])|
    ensures var after := AfterNext(crc, disk, segs, n, payload);
            && payload in Parsed(crc, Content(after.files, segs[|segs| - 1]))
            && (payload in Replay(crc, after) <==> CursorSurvives(disk, segs, n))
            && (CursorSurvives(disk, segs, n) ==> Replay(crc, after) == Replay(crc, Cut(disk, segs, n)) + [payload])
  {
    hide Ascending, Lists, DiskOk, Clean, Parsed, Replay, Recovered, Encode, Size, Cut, CursorSurvives, AfterNext;
    NextIsIntact(crc, disk, segs, n, payload);
    if CursorSurvives(disk, segs, n) {
      NextFollows(crc, disk, segs, n, payload);
    } else {
      NextIsHidden(crc, disk, segs, n, payload);
    }
  }

  lemma NextIsIntact(crc: Checksum, disk: Disk, segs: seq<nat>, n: nat, payload: Bytes)
    requires segs != [] && Storable(payload) && n <= |Content(disk.files, segs[|segs| - 1])|
    ensures var last := segs[|segs| - 1];
            var left, after := Content(disk.files, last)[..n], AfterNext(crc, disk, segs, n, payload);
            var intact := Size(Parsed(crc, left));
            && intact <= n && Content(after.files, last) == left[..intact] + Encode(crc, payload)
            && after.cursorFile == disk.cursorFile
            && payload in Parsed(crc, Content(after.files, last))
  {
    hide Clean, Parsed, Size, Encode;
    var left := Content(disk.files, segs[|segs| - 1])[..n];
    IntactPrefixIsClean(crc, left);
    ScanAfterClean(crc, left[..Size(Parsed(crc, left))], Encode(crc, payload));
    ScanOfOneRecord(crc, payload);
  }

  lemma NextFollows(crc: Checksum, disk: Disk, segs: seq<nat>, n: nat, payload: Bytes)
    requires DiskOk(crc, disk) && Lists(segs, disk.files) && segs != [] && Storable(payload)
    requires n <= |Content(disk.files, segs[|segs| - 1])| && CursorSurvives(disk, segs, n)
    ensures Replay(crc, AfterNext(crc, disk, segs, n, payload)) == Replay(crc, Cut(disk, segs, n)) + [payload]
  {
    hide Ascending, Lists, DiskOk, Clean, Parsed, Replay, Recovered, Encode, Reads, Resume;
    var cut := Cut(disk, segs, n);
    TailLossIsHarmlessIff(crc, disk, segs, n);
    CutListed(disk, segs, n);
    RecoveryKeepsStream(crc, cut, segs);
    RecordWritten(crc, Recovered(crc, cut, segs), segs, Resume(cut).offset, Replay(crc, cut), payload);
  }

  lemma CutListed(disk: Disk, segs: seq<nat>, n: nat)
    requires Lists(segs, disk.files) && segs != []
    ensures Lists(segs, Cut(disk, segs, n).files)
  {
    hide Ascending;
    ReplacedContents(disk.files, segs, Front(Content(disk.files, segs[|segs| - 1]), n));
  }

  lemma NextIsHidden(crc: Checksum, disk: Disk, segs: seq<nat>, n: nat, payload: Bytes)
    requires DiskOk(crc, disk) && Lists(segs, disk.files) && segs != [] && Storable(payload)
    requires n <= |Content(disk.files, segs[|segs| - 1])| && !CursorSurvives(disk, segs, n)
    ensures payload !in Replay(crc, AfterNext(crc, disk, segs, n, payload))
  {
    hide Ascending, DiskOk, Clean, Parsed, Replay, Encode, Size, AfterNext;
    var after, offset := AfterNext(crc, disk, segs, n, payload), disk.cursorFile.value.offset;
    CursorIsAlone(crc, disk, segs);
    NextIsIntact(crc, disk, segs, n, payload);
    AfterNextListed(crc, disk, segs, n, payload);
    ReplayFromCursor(crc, after, segs, offset);
    TooShortToHold(crc, From(Content(after.files, segs[0]), offset), payload);
  }

  lemma AfterNextListed(crc: Checksum, disk: Disk, segs: seq<nat>, n: nat, payload: Bytes)
    requires Lists(segs, disk.files) && segs != [] && Storable(payload)
    ensures Lists(segs, AfterNext(crc, disk, segs, n, payload).files)
  {
    assert segs[|segs| - 1] in segs;
    hide Ascending, Encode, Parsed, Size;
  }

  /** A record does not fit into fewer bytes than it takes. */
  lemma TooShortToHold(crc: Checksum, bytes: Bytes, payload: Bytes)
    requires |bytes| < HEADER_BYTES + |payload|
    ensures payload !in Parsed(crc, bytes)
  {
    hide Parsed, EncodeAll;
    ScanCoversAnEncoding(crc, bytes);
    if payload in Parsed(crc, bytes) {
      MemberSize(Parsed(crc, bytes), payload);
    }
  }

  lemma {:induction false} MemberSize(payloads: seq<Bytes>, payload: Bytes)
    requires payload in payloads
    ensures HEADER_BYTES + |payload| <= Size(payloads)
  {
    if payloads[0] != payload {
      MemberSize(payloads[1..], payload);
    }
  }

  // ----- and what comes after that

  ghost function AfterAll(crc: Checksum, disk: Disk, segs: seq<nat>, n: nat, payloads: seq<Bytes>): Disk
    requires segs != [] && AllStorable(payloads)
  {
    Extended(Recovered(crc, Cut(disk, segs, n), segs), segs[|segs| - 1], EncodeAll(crc, payloads))
  }

  /**
   * Whatever is appended to the same segment: with the cursor, everything follows what was left.
   * Without it, nothing is replayed until the file has grown past the stored position, and if
   * that falls between two of the new records, exactly those behind it are.
   */
  lemma LaterAppends(crc: Checksum, disk: Disk, segs: seq<nat>, n: nat, payloads: seq<Bytes>)
    requires DiskOk(crc, disk) && Lists(segs, disk.files) && segs != [] && AllStorable(payloads)
    requires n <= |Content(disk.files, segs[|segs| - 1])|
    ensures var replayed := Replay(crc, AfterAll(crc, disk, segs, n, payloads));
            if CursorSurvives(disk, segs, n) then replayed == Replay(crc, Cut(disk, segs, n)) + payloads
            else
              var intact := Size(Parsed(crc, Content(disk.files, segs[|segs| - 1])[..n]));
              && (intact + Size(payloads) <= disk.cursorFile.value.offset ==> replayed == [])
              && forall j :: 0 <= j <= |payloads| && intact + Size(payloads[..j]) == disk.cursorFile.value.offset ==>
                   replayed == payloads[j..]
  {
    hide Ascending, Lists, DiskOk, Clean, Parsed, Replay, Recovered, EncodeAll, Size, Cut, AfterAll;
    if CursorSurvives(disk, segs, n) {
      AllFollow(crc, disk, segs, n, payloads);
    } else {
      AllBehind(crc, disk, segs, n, payloads);
    }
  }

  lemma AllFollow(crc: Checksum, disk: Disk, segs: seq<nat>, n: nat, payloads: seq<Bytes>)
    requires DiskOk(crc, disk) && Lists(segs, disk.files) && segs != [] && AllStorable(payloads)
    requires n <= |Content(disk.files, segs[|segs| - 1])| && CursorSurvives(disk, segs, n)
    ensures Replay(crc, AfterAll(crc, disk, segs, n, payloads)) == Replay(crc, Cut(disk, segs, n)) + payloads
  {
    hide Ascending, Lists, DiskOk, Clean, Parsed, Replay, Recovered, EncodeAll, Reads, Resume;
    var cut, stream := Cut(disk, segs, n), Replay(crc, Cut(disk, segs, n));
    TailLossIsHarmlessIff(crc, disk, segs, n);
    CutListed(disk, segs, n);
    RecoveryKeepsStream(crc, cut, segs);
    NewestExtended(crc, Recovered(crc, cut, segs), segs, Resume(cut).offset, stream, EncodeAll(crc, payloads));
    ParsedEncoding(crc, payloads);
    ReadsMeans(crc, AfterAll(crc, disk, segs, n, payloads), segs, Resume(cut).offset, stream + payloads);
  }

  lemma ParsedEncoding(crc: Checksum, payloads: seq<Bytes>)
    requires AllStorable(payloads)
    ensures Parsed(crc, EncodeAll(crc, payloads)) == payloads
  {
    hide EncodeAll, Parsed;
    ScanFindsEverything(crc, payloads, []);
    ScanOfNothing(crc);
    assert EncodeAll(crc, payloads) + [] == EncodeAll(crc, payloads);
  }

  lemma AllBehind(crc: Checksum, disk: Disk, segs: seq<nat>, n: nat, payloads: seq<Bytes>)
    requires DiskOk(crc, disk) && Lists(segs, disk.files) && segs != [] && AllStorable(payloads)
    requires n <= |Content(disk.files, segs[|segs| - 1])| && !CursorSurvives(disk, segs, n)
    ensures var replayed, offset := Replay(crc, AfterAll(crc, disk, segs, n, payloads)), disk.cursorFile.value.offset;
            var intact := Size(Parsed(crc, Content(disk.files, segs[|segs| - 1])[..n]));
            && (intact + Size(payloads) <= offset ==> replayed == [])
            && forall j :: 0 <= j <= |payloads| && intact + Size(payloads[..j]) == offset ==> replayed == payloads[j..]
  {
    hide Ascending, DiskOk, Clean, Parsed, Replay, EncodeAll, Size, AfterAll, From;
    var after, offset := AfterAll(crc, disk, segs, n, payloads), disk.cursorFile.value.offset;
    var left := Content(disk.files, segs[|segs| - 1])[..n];
    CursorIsAlone(crc, disk, segs);
    AfterAllIs(crc, disk, segs, n, payloads);
    ReplayFromCursor(crc, after, segs, offset);
    ScanOfNothing(crc);
    var intact := Size(Parsed(crc, left));
    BehindAll(crc, left[..intact], payloads, offset);
    forall j | 0 <= j <= |payloads| && intact + Size(payloads[..j]) == offset
      ensures Parsed(crc, From(Content(after.files, segs[0]), offset)) == payloads[j..]
    {
      BehindSome(crc, left[..intact], payloads, j);
    }
  }

  lemma BehindAll(crc: Checksum, head: Bytes, payloads: seq<Bytes>, offset: nat)
    requires AllStorable(payloads)
    ensures |head| + Size(payloads) <= offset ==> Parsed(crc, From(head + EncodeAll(crc, payloads), offset)) == []
  {
    hide EncodeAll, Parsed, Size;
    ScanOfNothing(crc);
    var bytes := head + EncodeAll(crc, payloads);
    assert |bytes| <= offset ==> From(bytes, offset) == [];
  }

  lemma BehindSome(crc: Checksum, head: Bytes, payloads: seq<Bytes>, j: nat)
    requires AllStorable(payloads) && j <= |payloads|
    ensures Parsed(crc, From(head + EncodeAll(crc, payloads), |head| + Size(payloads[..j]))) == payloads[j..]
  {
    hide EncodeAll, Parsed, Size, From, AllStorable;
    EncodingSplits(crc, payloads, j);
    FromMiddle(head, EncodeAll(crc, payloads[..j]), EncodeAll(crc, payloads[j..]));
    ParsedEncoding(crc, payloads[j..]);
  }

  lemma FromMiddle(a: Bytes, b: Bytes, c: Bytes)
    ensures From(a + (b + c), |a| + |b|) == c
  {
  }

  lemma AfterAllIs(crc: Checksum, disk: Disk, segs: seq<nat>, n: nat, payloads: seq<Bytes>)
    requires Lists(segs, disk.files) && segs != [] && AllStorable(payloads)
    requires n <= |Content(disk.files, segs[|segs| - 1])|
    ensures var last := segs[|segs| - 1];
            var left, after := Content(disk.files, last)[..n], AfterAll(crc, disk, segs, n, payloads);
            var intact := Size(Parsed(crc, left));
            && intact <= n && Content(after.files, last) == left[..intact] + EncodeAll(crc, payloads)
            && Lists(segs, after.files) && after.cursorFile == disk.cursorFile
  {
    assert segs[|segs| - 1] in segs;
    hide Ascending, Clean, Parsed, Size, EncodeAll;
    IntactPrefixIsClean(crc, Content(disk.files, segs[|segs| - 1])[..n]);
  }

  lemma {:induction false} EncodingSplits(crc: Checksum, payloads: seq<Bytes>, j: nat)
    requires AllStorable(payloads) && j <= |payloads|
    ensures AllStorable(payloads[..j]) && AllStorable(payloads[j..])
    ensures EncodeAll(crc, payloads) == EncodeAll(crc, payloads[..j]) + EncodeAll(crc, payloads[j..])
    ensures |EncodeAll(crc, payloads[..j])| == Size(payloads[..j])
  {
    hide Encode;
    if j == 0 {
      assert payloads[0..] == payloads;
    } else {
      EncodingSplits(crc, payloads[1..], j - 1);
      assert payloads[..j][1..] == payloads[1..][..j - 1] && payloads[1..][j - 1..] == payloads[j..];
    }
  }

  lemma CursorIsAlone(crc: Checksum, disk: Disk, segs: seq<nat>)
    requires DiskOk(crc, disk) && Lists(segs, disk.files) && segs != []
    requires disk.cursorFile.Some? && disk.cursorFile.value.segment == segs[|segs| - 1]
    ensures |segs| == 1
  {
    ListingIs(segs, disk.files);
  }

  lemma ReplayFromCursor(crc: Checksum, disk: Disk, segs: seq<nat>, offset: nat)
    requires Lists(segs, disk.files) && |segs| == 1 && disk.cursorFile == Some(Cursor(segs[0], offset))
    ensures Replay(crc, disk) == Parsed(crc, From(Content(disk.files, segs[0]), offset))
  {
    hide Ascending, Parsed, Flatten, Listing, AtOrAfter, FirstFrom;
    ListingIs(segs, disk.files);
    assert segs[0] in segs;
    StreamFrom(crc, disk, segs, 0, offset);
    var data := Contents(disk.files, segs);
    EmptyFlatten(crc, data[1..]);
    assert data[0..] == data;
  }
}
