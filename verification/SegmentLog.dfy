/**
 * What a spool directory means. A directory is a set of numbered segment files and a cursor
 * file; `Replay` is the stream of records a spool opened on it would still deliver.
 */
module SegmentLog {
  import opened Prelude
  import opened Records

  datatype Cursor = Cursor(segment: nat, offset: nat)

  type Files = map<nat, Bytes>

  datatype Disk = Disk(files: Files, cursorFile: Option<Cursor>)

  // ----- segment indices in ascending order

  predicate Ascending(s: seq<nat>) {
    forall i, j :: 0 <= i < j < |s| ==> s[i] < s[j]
  }

  ghost predicate Lists(s: seq<nat>, files: Files) {
    Ascending(s) && forall n: nat :: n in s <==> n in files
  }

  ghost function Newest(files: Files): (n: nat)
    requires files != map[]
    ensures n in files && forall m <- files :: m <= n
  {
    var some :| some in files;
    var others := files - {some};
    if others == map[] then
      assert forall m <- files :: m == some || m in others;
      some
    else
      assert forall m <- files :: m == some || m in others;
      if Newest(others) < some then some else Newest(others)
  }

  /** The segment numbers of a directory in ascending order. */
  ghost function Listing(files: Files): seq<nat> {
    if files == map[] then [] else Listing(files - {Newest(files)}) + [Newest(files)]
  }

  lemma {:induction false} ListingLists(files: Files)
    ensures Lists(Listing(files), files)
  {
    if files != map[] {
      var newest := Newest(files);
      var older := Listing(files - {newest});
      ListingLists(files - {newest});
      forall i | 0 <= i < |older| ensures older[i] < newest {
        assert older[i] in files - {newest};
      }
      forall n: nat ensures n in older + [newest] <==> n in files {
        assert n in older <==> n in files - {newest};
      }
    }
  }

  lemma {:induction false} ListingIsUnique(s: seq<nat>, t: seq<nat>)
    requires Ascending(s) && Ascending(t)
    requires forall n: nat :: n in s <==> n in t
    ensures s == t
  {
    assert s == [] <==> t == [] by {
      if |s| > 0 { assert s[0] in t; }
      if |t| > 0 { assert t[0] in s; }
    }
    if s != [] {
      var a, b := s[|s| - 1], t[|t| - 1];
      assert a in t && b in s;
      var s', t' := s[..|s| - 1], t[..|t| - 1];
      assert s == s' + [a] && t == t' + [b];
      forall n: nat ensures n in s' <==> n in t' {
        assert n in s' <==> n in s && n != a;
        assert n in t' <==> n in t && n != b;
      }
      ListingIsUnique(s', t');
    }
  }

  lemma ListingIs(s: seq<nat>, files: Files)
    requires Lists(s, files)
    ensures Listing(files) == s
  {
    ListingLists(files);
    ListingIsUnique(s, Listing(files));
  }

  lemma {:induction false} CountOfListing(s: seq<nat>, files: Files)
    requires Lists(s, files)
    ensures |s| == |files|
  {
    if s == [] {
      assert files == map[];
    } else {
      var newest := s[|s| - 1];
      assert newest in files;
      ListsAllButLast(s, files);
      hide Lists;
      CountOfListing(s[..|s| - 1], files - {newest});
    }
  }

  lemma ListsAllButLast(s: seq<nat>, files: Files)
    requires Lists(s, files) && s != []
    ensures Lists(s[..|s| - 1], files - {s[|s| - 1]})
  {
    var init, newest := s[..|s| - 1], s[|s| - 1];
    assert s == init + [newest];
    forall n: nat ensures n in init <==> n in files - {newest} {
      assert n in init ==> n != newest;
    }
  }

  /** How large segment files are: the newest at most `most`, all others at least `least` too. */
  datatype Bounds = Bounds(least: nat, most: nat)

  ghost predicate Sized(files: Files, bounds: Bounds) {
    && (forall n <- files :: |files[n]| <= bounds.most)
    && (forall m, n :: m in files && n in files && m < n ==> bounds.least <= |files[m]|)
  }

  // ----- the stream a list of segment contents holds

  /** Seeking past the end of a file and reading yields nothing. */
  function From(bytes: Bytes, offset: nat): Bytes {
    if offset <= |bytes| then bytes[offset..] else []
  }

  ghost function Flatten(crc: Checksum, data: seq<Bytes>): seq<Bytes> {
    if data == [] then [] else Parsed(crc, data[0]) + Flatten(crc, data[1..])
  }

  /** The records of the segments, starting `offset` bytes into the first of them. */
  ghost function Stream(crc: Checksum, data: seq<Bytes>, offset: nat): seq<Bytes> {
    if data == [] then [] else Parsed(crc, From(data[0], offset)) + Flatten(crc, data[1..])
  }

  /** `offset` sits between two whole records. */
  ghost predicate Boundary(crc: Checksum, bytes: Bytes, offset: nat) {
    offset <= |bytes| && Clean(crc, bytes[..offset])
  }

  lemma StartIsBoundary(crc: Checksum, bytes: Bytes)
    ensures Boundary(crc, bytes, 0)
  {
    ScanOfNothing(crc);
    assert bytes[..0] == [];
  }

  lemma {:induction false} FlattenSnoc(crc: Checksum, data: seq<Bytes>, last: Bytes)
    ensures Flatten(crc, data + [last]) == Flatten(crc, data) + Parsed(crc, last)
  {
    hide Parsed;
    if data == [] {
      assert (data + [last])[1..] == [];
    } else {
      assert (data + [last])[1..] == data[1..] + [last];
      FlattenSnoc(crc, data[1..], last);
    }
  }

  lemma FlattenIsStream(crc: Checksum, data: seq<Bytes>)
    ensures Stream(crc, data, 0) == Flatten(crc, data)
  {
    if data != [] {
      assert From(data[0], 0) == data[0];
    }
  }

  lemma StreamSnoc(crc: Checksum, data: seq<Bytes>, last: Bytes, offset: nat)
    requires data != []
    ensures Stream(crc, data + [last], offset) == Stream(crc, data, offset) + Parsed(crc, last)
  {
    hide Parsed, Flatten;
    assert (data + [last])[1..] == data[1..] + [last];
    FlattenSnoc(crc, data[1..], last);
  }

  lemma BoundaryExtended(crc: Checksum, bytes: Bytes, offset: nat, more: Bytes)
    requires Boundary(crc, bytes, offset) && Clean(crc, bytes)
    ensures Boundary(crc, bytes + more, offset)
    ensures Parsed(crc, From(bytes + more, offset)) == Parsed(crc, From(bytes, offset)) + Parsed(crc, more)
  {
    hide Parsed, Size;
    var head, tail := bytes[..offset], bytes[offset..];
    assert bytes == head + tail;
    ScanAfterClean(crc, head, tail);
    ScanAfterClean(crc, tail, more);
    assert (bytes + more)[..offset] == head;
    assert (bytes + more)[offset..] == tail + more;
  }

  lemma BoundaryTruncated(crc: Checksum, bytes: Bytes, offset: nat)
    requires Boundary(crc, bytes, offset)
    ensures var intact := Size(Parsed(crc, bytes));
            && offset <= intact <= |bytes|
            && Boundary(crc, bytes[..intact], offset)
            && Parsed(crc, From(bytes[..intact], offset)) == Parsed(crc, From(bytes, offset))
  {
    hide Parsed, Size;
    var head, tail := bytes[..offset], bytes[offset..];
    assert bytes == head + tail;
    ScanAfterClean(crc, head, tail);
    SizeOfConcat(Parsed(crc, head), Parsed(crc, tail));
    IntactPrefixIsClean(crc, bytes);
    IntactPrefixIsClean(crc, tail);
    var intact := Size(Parsed(crc, bytes));
    assert bytes[..intact][..offset] == head;
    assert bytes[..intact][offset..] == tail[..intact - offset];
  }

  /** Moving a cursor forward inside one segment drops the records in between. */
  lemma BoundaryAdvanced(crc: Checksum, bytes: Bytes, from: nat, to: nat)
    requires Boundary(crc, bytes, from) && Boundary(crc, bytes, to) && from <= to
    ensures SuffixOf(Parsed(crc, From(bytes, to)), Parsed(crc, From(bytes, from)))
  {
    hide Parsed, Size;
    var middle := bytes[from..to];
    assert bytes[..to] == bytes[..from] + middle;
    ScanAfterClean(crc, bytes[..from], middle);
    assert bytes[from..] == middle + bytes[to..];
    ScanAfterClean(crc, middle, bytes[to..]);
  }

  // ----- a directory

  function Content(files: Files, n: nat): Bytes {
    if n in files then files[n] else []
  }

  ghost function Contents(files: Files, segs: seq<nat>): (data: seq<Bytes>)
    ensures |data| == |segs| && forall i :: 0 <= i < |segs| ==> data[i] == Content(files, segs[i])
  {
    seq(|segs|, i requires 0 <= i < |segs| => Content(files, segs[i]))
  }

  /** The segments numbered `n` or later. */
  ghost function AtOrAfter(segs: seq<nat>, n: nat): (rest: seq<nat>)
    ensures SuffixOf(rest, segs)
    ensures rest != [] ==> rest[0] >= n
  {
    if segs == [] || segs[0] >= n then segs else AtOrAfter(segs[1..], n)
  }

  /** The records at and after a cursor, wherever it points. */
  ghost function Unread(crc: Checksum, files: Files, segs: seq<nat>, cursor: Cursor): seq<Bytes> {
    var rest := AtOrAfter(segs, cursor.segment);
    Stream(crc, Contents(files, rest), if rest != [] && rest[0] == cursor.segment then cursor.offset else 0)
  }

  /** Only the newest segment may end in a torn record. */
  ghost predicate Sealed(crc: Checksum, data: seq<Bytes>) {
    forall i :: 0 <= i < |data| - 1 ==> Clean(crc, data[i])
  }

  /** The position `open` resumes from. */
  function LoadCursor(cursorFile: Option<Cursor>, segs: seq<nat>): Cursor {
    var cursor := if cursorFile.Some? then cursorFile.value else Cursor(0, 0);
    if cursor.segment in segs then cursor
    else Cursor(if segs == [] then 0 else segs[0], 0)
  }

  ghost function Resume(disk: Disk): Cursor {
    LoadCursor(disk.cursorFile, Listing(disk.files))
  }

  /** Everything a spool opened on this directory would deliver, in order. */
  ghost function Replay(crc: Checksum, disk: Disk): seq<Bytes> {
    Unread(crc, disk.files, Listing(disk.files), Resume(disk))
  }

  /**
   * The invariant of every directory the agent leaves behind: the stored position is at or
   * before the oldest segment, and between two records if it is inside it; only the newest
   * segment can be torn.
   */
  ghost predicate DiskOk(crc: Checksum, disk: Disk) {
    var segs := Listing(disk.files);
    var stored := if disk.cursorFile.Some? then disk.cursorFile.value else Cursor(0, 0);
    if segs == [] then stored == Cursor(0, 0)
    else
      && stored.segment <= segs[0]
      && (stored.segment == segs[0] ==> Boundary(crc, Content(disk.files, segs[0]), stored.offset))
      && Sealed(crc, Contents(disk.files, segs))
  }

  /** The stored position resumes `offset` bytes into the oldest of these segments. */
  ghost predicate StoredAt(cursorFile: Option<Cursor>, segs: seq<nat>, offset: nat) {
    var stored := if cursorFile.Some? then cursorFile.value else Cursor(0, 0);
    if segs == [] then stored == Cursor(0, 0) && offset == 0
    else if stored.segment == segs[0] then offset == stored.offset
    else stored.segment < segs[0] && offset == 0
  }

  /** `DiskOk` and `Replay` unfolded for a known list of segments. */
  ghost predicate Reads(crc: Checksum, disk: Disk, segs: seq<nat>, offset: nat, stream: seq<Bytes>) {
    && Lists(segs, disk.files)
    && StoredAt(disk.cursorFile, segs, offset)
    && (segs != [] ==> Boundary(crc, Content(disk.files, segs[0]), offset))
    && Sealed(crc, Contents(disk.files, segs))
    && stream == Stream(crc, Contents(disk.files, segs), offset)
  }

  lemma ReadsMeans(crc: Checksum, disk: Disk, segs: seq<nat>, offset: nat, stream: seq<Bytes>)
    requires Reads(crc, disk, segs, offset, stream)
    ensures DiskOk(crc, disk)
    ensures Listing(disk.files) == segs
    ensures Resume(disk) == Cursor(if segs == [] then 0 else segs[0], offset)
    ensures Replay(crc, disk) == stream
  {
    assert forall n <- segs :: segs[0] <= n;
    hide Boundary, Stream, Ascending, Sealed;
    ListingIs(segs, disk.files);
    if segs != [] {
      assert segs[0] in segs;
      assert AtOrAfter(segs, segs[0]) == segs;
    }
  }

  lemma ReadsFrom(crc: Checksum, disk: Disk, segs: seq<nat>)
    requires DiskOk(crc, disk) && Lists(segs, disk.files)
    ensures Reads(crc, disk, segs, Resume(disk).offset, Replay(crc, disk))
  {
    hide Boundary, Stream, Ascending, Lists, Listing, Sealed, Contents, Resume, Replay;
    ListingIs(segs, disk.files);
    var stored := if disk.cursorFile.Some? then disk.cursorFile.value else Cursor(0, 0);
    var offset := if segs != [] && stored.segment == segs[0] then stored.offset else 0;
    if segs != [] {
      StartIsBoundary(crc, Content(disk.files, segs[0]));
    } else {
      NothingIsSealed(crc, disk.files);
    }
    ReadsMeans(crc, disk, segs, offset, Stream(crc, Contents(disk.files, segs), offset));
  }

  lemma NothingIsSealed(crc: Checksum, files: Files)
    ensures Sealed(crc, Contents(files, []))
  {
  }

  // ----- one lemma for each way the agent changes the directory

  /** Starting a new segment file. */
  lemma SegmentCreated(crc: Checksum, disk: Disk, segs: seq<nat>, offset: nat, stream: seq<Bytes>, index: nat)
    requires Reads(crc, disk, segs, offset, stream)
    requires segs != [] ==> Clean(crc, Content(disk.files, segs[|segs| - 1]))
    requires index == if segs == [] then 0 else segs[|segs| - 1] + 1
    ensures Reads(crc, disk.(files := disk.files[index := []]), segs + [index], offset, stream)
  {
    hide Boundary, Stream, Clean;
    CreatedContents(disk.files, segs, index);
    hide Lists;
    ScanOfNothing(crc);
    if segs == [] {
      StartIsBoundary(crc, []);
      StreamOfNothing(crc, Contents(disk.files[index := []], segs + [index]));
    } else {
      StreamSnoc(crc, Contents(disk.files, segs), [], offset);
    }
  }

  lemma CreatedContents(files: Files, segs: seq<nat>, index: nat)
    requires Lists(segs, files)
    requires index == if segs == [] then 0 else segs[|segs| - 1] + 1
    ensures Lists(segs + [index], files[index := []])
    ensures Contents(files[index := []], segs + [index]) == Contents(files, segs) + [[]]
  {
    assert forall n <- segs :: n < index;
  }

  lemma StreamOfNothing(crc: Checksum, data: seq<Bytes>)
    requires data == [[]]
    ensures Stream(crc, data, 0) == Stream(crc, [], 0)
  {
    ScanOfNothing(crc);
    assert data[1..] == [];
  }

  /** Bytes reaching the end of the newest segment. */
  lemma NewestExtended(crc: Checksum, disk: Disk, segs: seq<nat>, offset: nat, stream: seq<Bytes>, more: Bytes)
    requires Reads(crc, disk, segs, offset, stream) && segs != []
    requires Clean(crc, Content(disk.files, segs[|segs| - 1]))
    ensures var last := segs[|segs| - 1];
            Reads(crc, disk.(files := disk.files[last := Content(disk.files, last) + more]), segs, offset,
                  stream + Parsed(crc, more))
  {
    hide Boundary, Stream, Clean, Parsed;
    var last := segs[|segs| - 1];
    var bytes := Content(disk.files, last);
    var files' := disk.files[last := bytes + more];
    ReplacedContents(disk.files, segs, bytes + more);
    StreamExtended(crc, Contents(disk.files, segs), offset, more);
    ScanAfterClean(crc, bytes, more);
  }

  lemma ReplacedContents(files: Files, segs: seq<nat>, bytes: Bytes)
    requires Lists(segs, files) && segs != []
    ensures var last := segs[|segs| - 1];
            && Lists(segs, files[last := bytes])
            && Contents(files[last := bytes], segs) == Contents(files, segs)[|segs| - 1 := bytes]
  {
  }

  lemma StreamExtended(crc: Checksum, data: seq<Bytes>, offset: nat, more: Bytes)
    requires data != [] && Boundary(crc, data[0], offset) && Clean(crc, data[|data| - 1])
    ensures var data' := data[|data| - 1 := data[|data| - 1] + more];
            && Boundary(crc, data'[0], offset)
            && Stream(crc, data', offset) == Stream(crc, data, offset) + Parsed(crc, more)
  {
    hide Boundary, Clean, Parsed, From;
    var init, last := data[..|data| - 1], data[|data| - 1];
    var data' := data[|data| - 1 := last + more];
    assert data == init + [last] && data' == init + [last + more];
    if init == [] {
      BoundaryExtended(crc, last, offset, more);
      assert data[1..] == [] == data'[1..];
    } else {
      StreamSnoc(crc, init, last, offset);
      StreamSnoc(crc, init, last + more, offset);
      ScanAfterClean(crc, last, more);
    }
  }

  /** Removing the oldest segment of several. */
  lemma OldestUnlinked(crc: Checksum, disk: Disk, segs: seq<nat>, offset: nat, stream: seq<Bytes>)
    returns (kept: seq<Bytes>)
    requires Reads(crc, disk, segs, offset, stream) && |segs| >= 2
    ensures kept == Flatten(crc, Contents(disk.files, segs[1..]))
    ensures Reads(crc, disk.(files := disk.files - {segs[0]}), segs[1..], 0, kept)
    ensures stream == Parsed(crc, From(Content(disk.files, segs[0]), offset)) + kept
  {
    hide Boundary, Clean, Flatten, From;
    var files', segs' := disk.files - {segs[0]}, segs[1..];
    RemainingContents(disk.files, segs);
    var data := Contents(disk.files, segs);
    kept := Flatten(crc, data[1..]);
    FlattenIsStream(crc, data[1..]);
    StartIsBoundary(crc, Content(files', segs'[0]));
  }

  lemma RemainingContents(files: Files, segs: seq<nat>)
    requires Lists(segs, files) && segs != []
    ensures Ascending(segs[1..])
    ensures Lists(segs[1..], files - {segs[0]})
    ensures Contents(files - {segs[0]}, segs[1..]) == Contents(files, segs)[1..] == Contents(files, segs[1..])
  {
    RemainingSegments(files, segs);
    hide Ascending, Lists;
    assert Contents(files - {segs[0]}, segs[1..]) == Contents(files, segs[1..]);
  }

  lemma RemainingSegments(files: Files, segs: seq<nat>)
    requires Lists(segs, files) && segs != []
    ensures Ascending(segs[1..]) && Lists(segs[1..], files - {segs[0]})
    ensures forall i :: 0 <= i < |segs[1..]| ==> segs[1..][i] in files - {segs[0]}
  {
    var segs' := segs[1..];
    forall i | 0 <= i < |segs'| ensures segs'[i] != segs[0] && segs'[i] in files {
      assert segs'[i] == segs[i + 1] && segs[i + 1] in segs;
    }
    hide Ascending;
    assert segs == [segs[0]] + segs';
    assert forall n: nat :: n in segs <==> n == segs[0] || n in segs';
  }

  /** Renaming a freshly written cursor file into place. */
  lemma CursorMoved(crc: Checksum, disk: Disk, segs: seq<nat>, cursor: Cursor)
    requires Lists(segs, disk.files) && Sealed(crc, Contents(disk.files, segs))
    requires segs == [] ==> cursor == Cursor(0, 0)
    requires segs != [] ==> cursor.segment == segs[0] && Boundary(crc, Content(disk.files, segs[0]), cursor.offset)
    ensures Reads(crc, disk.(cursorFile := Some(cursor)), segs, cursor.offset,
                  Stream(crc, Contents(disk.files, segs), cursor.offset))
  {
  }

  /** Recovery cutting the newest segment back to its last intact record. */
  lemma NewestTruncated(crc: Checksum, disk: Disk, segs: seq<nat>, offset: nat, stream: seq<Bytes>)
    requires Reads(crc, disk, segs, offset, stream) && segs != []
    ensures var last := segs[|segs| - 1];
            var bytes := Content(disk.files, last);
            var intact := Size(Parsed(crc, bytes));
            && intact <= |bytes|
            && Clean(crc, bytes[..intact])
            && Reads(crc, disk.(files := disk.files[last := bytes[..intact]]), segs, offset, stream)
  {
    hide Boundary, Clean, Parsed, Stream, Size;
    var bytes := Content(disk.files, segs[|segs| - 1]);
    IntactPrefixIsClean(crc, bytes);
    var intact := Size(Parsed(crc, bytes));
    ReplacedContents(disk.files, segs, bytes[..intact]);
    StreamTruncated(crc, Contents(disk.files, segs), offset);
  }

  lemma StreamTruncated(crc: Checksum, data: seq<Bytes>, offset: nat)
    requires data != [] && Boundary(crc, data[0], offset)
    ensures var last := data[|data| - 1];
            var intact := Size(Parsed(crc, last));
            && intact <= |last|
            && var data' := data[|data| - 1 := last[..intact]];
            && Boundary(crc, data'[0], offset)
            && Stream(crc, data', offset) == Stream(crc, data, offset)
  {
    hide Boundary, Clean, Parsed, From, Size;
    var init, last := data[..|data| - 1], data[|data| - 1];
    IntactPrefixIsClean(crc, last);
    var kept := last[..Size(Parsed(crc, last))];
    var data' := data[|data| - 1 := kept];
    assert data == init + [last] && data' == init + [kept];
    if init == [] {
      BoundaryTruncated(crc, last, offset);
      assert data[1..] == [] == data'[1..];
    } else {
      StreamSnoc(crc, init, last, offset);
      StreamSnoc(crc, init, kept, offset);
    }
  }
}
