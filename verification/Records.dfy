/** The on-flash record format: `u32 length | u32 checksum | payload`, both integers little-endian. */
module Records {
  import opened Prelude

  const HEADER_BYTES: nat := 8
  const MAX_RECORD_BYTES: nat := 0x10_0000

  // ----- little-endian 32-bit integers

  function FromLe16(b: Bytes): (n: int)
    requires |b| == 2
    ensures 0 <= n < 0x1_0000
  {
    var low: int, high: int := b[0], b[1];
    low + 0x100 * high
  }

  function FromLe32(b: Bytes): U32
    requires |b| == 4
  {
    FromLe16(b[..2]) + 0x1_0000 * FromLe16(b[2..])
  }

  function Le16(n: int): (b: Bytes)
    requires 0 <= n < 0x1_0000
    ensures |b| == 2 && FromLe16(b) == n
  {
    [n % 0x100, n / 0x100]
  }

  function Le32(n: U32): (b: Bytes)
    ensures |b| == 4 && FromLe32(b) == n
  {
    var low, high := Le16(n % 0x1_0000), Le16(n / 0x1_0000);
    assert (low + high)[..2] == low && (low + high)[2..] == high;
    low + high
  }

  lemma Le16Inverse(b: Bytes)
    requires |b| == 2
    ensures Le16(FromLe16(b)) == b
  {
  }

  lemma Le32Inverse(b: Bytes)
    requires |b| == 4
    ensures Le32(FromLe32(b)) == b
  {
    var low, high := FromLe16(b[..2]), FromLe16(b[2..]);
    var n := low + 0x1_0000 * high;
    assert n % 0x1_0000 == low && n / 0x1_0000 == high;
    Le16Inverse(b[..2]);
    Le16Inverse(b[2..]);
    assert b == b[..2] + b[2..];
  }

  // ----- writing

  /** What `append` stores as it is: the empty payload is skipped, an oversized one refused. */
  predicate Storable(payload: Bytes) {
    0 < |payload| <= MAX_RECORD_BYTES
  }

  predicate AllStorable(payloads: seq<Bytes>) {
    forall i :: 0 <= i < |payloads| ==> Storable(payloads[i])
  }

  function Encode(crc: Checksum, payload: Bytes): (bytes: Bytes)
    requires Storable(payload)
    ensures |bytes| == HEADER_BYTES + |payload|
  {
    Le32(|payload|) + Le32(crc(payload)) + payload
  }

  /** Where the length, the checksum and the payload of a record are. */
  lemma Layout(crc: Checksum, payload: Bytes)
    requires Storable(payload)
    ensures var b := Encode(crc, payload);
            && b[0] as int + 0x100 * b[1] as int + 0x1_0000 * b[2] as int + 0x100_0000 * b[3] as int == |payload|
            && b[4] as int + 0x100 * b[5] as int + 0x1_0000 * b[6] as int + 0x100_0000 * b[7] as int == crc(payload)
            && b[HEADER_BYTES..] == payload
  {
    var b, length, checksum := Encode(crc, payload), Le32(|payload|), Le32(crc(payload));
    assert b[..4] == length && b[4..8] == checksum;
  }

  function EncodeAll(crc: Checksum, payloads: seq<Bytes>): (bytes: Bytes)
    requires AllStorable(payloads)
    ensures |bytes| == Size(payloads)
  {
    if payloads == [] then [] else Encode(crc, payloads[0]) + EncodeAll(crc, payloads[1..])
  }

  /** Bytes the records of these payloads occupy. */
  function Size(payloads: seq<Bytes>): nat {
    if payloads == [] then 0 else HEADER_BYTES + |payloads[0]| + Size(payloads[1..])
  }

  lemma {:induction false} SizeOfConcat(a: seq<Bytes>, b: seq<Bytes>)
    ensures Size(a + b) == Size(a) + Size(b)
  {
    if a == [] {
      assert a + b == b;
    } else {
      assert (a + b)[1..] == a[1..] + b;
      SizeOfConcat(a[1..], b);
    }
  }

  // ----- reading

  datatype RecordRead = Record(payload: Bytes, consumed: nat) | EndOfSegment | Corrupt

  /** What a reader positioned at the start of `bytes` finds. */
  function ReadRecord(crc: Checksum, bytes: Bytes): RecordRead {
    if |bytes| < HEADER_BYTES then EndOfSegment
    else
      var length := FromLe32(bytes[..4]);
      var expected := FromLe32(bytes[4..HEADER_BYTES]);
      if length == 0 || length > MAX_RECORD_BYTES then Corrupt
      else if |bytes| < HEADER_BYTES + length then Corrupt
      else
        var payload := bytes[HEADER_BYTES..HEADER_BYTES + length];
        if crc(payload) != expected then Corrupt
        else Record(payload, HEADER_BYTES + length)
  }

  lemma ReadsWhatWasWritten(crc: Checksum, payload: Bytes, rest: Bytes)
    requires Storable(payload)
    ensures ReadRecord(crc, Encode(crc, payload) + rest) == Record(payload, HEADER_BYTES + |payload|)
  {
    var bytes := Encode(crc, payload) + rest;
    assert bytes[..4] == Le32(|payload|);
    assert bytes[4..HEADER_BYTES] == Le32(crc(payload));
    assert bytes[HEADER_BYTES..HEADER_BYTES + |payload|] == payload;
  }

  /** For arbitrary bytes: a record is only ever read where exactly that record was written. */
  lemma ReadsOnlyWhatWasWritten(crc: Checksum, bytes: Bytes)
    requires ReadRecord(crc, bytes).Record?
    ensures var read := ReadRecord(crc, bytes);
            && Storable(read.payload)
            && HEADER_BYTES < read.consumed <= |bytes|
            && bytes[..read.consumed] == Encode(crc, read.payload)
  {
    var read := ReadRecord(crc, bytes);
    Le32Inverse(bytes[..4]);
    Le32Inverse(bytes[4..HEADER_BYTES]);
    assert bytes[..read.consumed] == bytes[..4] + bytes[4..HEADER_BYTES] + read.payload;
  }

  ghost predicate StartsWith(crc: Checksum, bytes: Bytes, payload: Bytes) {
    Storable(payload) && Encode(crc, payload) <= bytes
  }

  /** What a reader finds: the end if there is no room for a header, a record where one was written, else corruption. */
  lemma ReadIff(crc: Checksum, bytes: Bytes)
    ensures ReadRecord(crc, bytes).EndOfSegment? <==> |bytes| < HEADER_BYTES
    ensures ReadRecord(crc, bytes).Record? <==> exists payload :: StartsWith(crc, bytes, payload)
  {
    if ReadRecord(crc, bytes).Record? {
      ReadsOnlyWhatWasWritten(crc, bytes);
      assert StartsWith(crc, bytes, ReadRecord(crc, bytes).payload);
    }
    if payload :| StartsWith(crc, bytes, payload) {
      var record := Encode(crc, payload);
      ReadsWhatWasWritten(crc, payload, bytes[|record|..]);
      assert bytes == record + bytes[|record|..];
    }
  }

  /** A write cut short anywhere inside a record is never mistaken for a record. */
  lemma TornRecordIsUnreadable(crc: Checksum, payload: Bytes, n: nat)
    requires Storable(payload) && n < |Encode(crc, payload)|
    ensures !ReadRecord(crc, Encode(crc, payload)[..n]).Record?
  {
    var whole := Encode(crc, payload);
    if n >= HEADER_BYTES {
      assert whole[..n][..4] == Le32(|payload|);
    }
  }

  // ----- scanning a segment

  /** The records of a segment: everything up to the first byte that does not start one. */
  function Parsed(crc: Checksum, bytes: Bytes): seq<Bytes>
    decreases |bytes|
  {
    var read := ReadRecord(crc, bytes);
    if read.Record? then [read.payload] + Parsed(crc, bytes[read.consumed..]) else []
  }

  /** Nothing but whole records. */
  ghost predicate Clean(crc: Checksum, bytes: Bytes) {
    Size(Parsed(crc, bytes)) == |bytes|
  }

  /** Scanning is faithful on arbitrary bytes: what it covers is the encoding of what it returns. */
  lemma {:induction false} ScanCoversAnEncoding(crc: Checksum, bytes: Bytes)
    ensures var found := Parsed(crc, bytes);
            && AllStorable(found)
            && Size(found) <= |bytes|
            && bytes[..Size(found)] == EncodeAll(crc, found)
            && !ReadRecord(crc, bytes[Size(found)..]).Record?
    decreases |bytes|
  {
    hide ReadRecord, Encode;
    var read := ReadRecord(crc, bytes);
    if read.Record? {
      ReadsOnlyWhatWasWritten(crc, bytes);
      var rest := bytes[read.consumed..];
      ScanCoversAnEncoding(crc, rest);
      var found, later := Parsed(crc, bytes), Parsed(crc, rest);
      assert found[1..] == later;
      assert bytes[..Size(found)] == bytes[..read.consumed] + rest[..Size(later)];
      assert bytes[Size(found)..] == rest[Size(later)..];
    } else {
      assert bytes[0..] == bytes;
    }
  }

  lemma {:induction false} ScanFindsEverything(crc: Checksum, payloads: seq<Bytes>, rest: Bytes)
    requires AllStorable(payloads)
    ensures Parsed(crc, EncodeAll(crc, payloads) + rest) == payloads + Parsed(crc, rest)
  {
    hide ReadRecord, Encode;
    var bytes := EncodeAll(crc, payloads) + rest;
    if payloads == [] {
      assert bytes == rest;
    } else {
      var later := EncodeAll(crc, payloads[1..]) + rest;
      assert bytes == Encode(crc, payloads[0]) + later;
      ReadsWhatWasWritten(crc, payloads[0], later);
      assert bytes[HEADER_BYTES + |payloads[0]|..] == later;
      ScanFindsEverything(crc, payloads[1..], rest);
    }
  }

  lemma ScanAfterClean(crc: Checksum, head: Bytes, rest: Bytes)
    requires Clean(crc, head)
    ensures Parsed(crc, head + rest) == Parsed(crc, head) + Parsed(crc, rest)
    ensures Clean(crc, head + rest) <==> Clean(crc, rest)
  {
    ScanCoversAnEncoding(crc, head);
    assert head == EncodeAll(crc, Parsed(crc, head));
    ScanFindsEverything(crc, Parsed(crc, head), rest);
    SizeOfConcat(Parsed(crc, head), Parsed(crc, rest));
  }

  lemma ScanOfNothing(crc: Checksum)
    ensures Parsed(crc, []) == []
  {
  }

  lemma ScanOfOneRecord(crc: Checksum, payload: Bytes)
    requires Storable(payload)
    ensures Parsed(crc, Encode(crc, payload)) == [payload]
    ensures Clean(crc, Encode(crc, payload))
  {
    assert [payload][1..] == [];
    assert EncodeAll(crc, [payload]) + [] == Encode(crc, payload);
    ScanFindsEverything(crc, [payload], []);
  }

  lemma IntactPrefixIsClean(crc: Checksum, bytes: Bytes)
    ensures var intact := Size(Parsed(crc, bytes));
            && intact <= |bytes|
            && Clean(crc, bytes[..intact])
            && Parsed(crc, bytes[..intact]) == Parsed(crc, bytes)
  {
    hide ReadRecord, Encode, EncodeAll, Parsed, Size;
    var found := Parsed(crc, bytes);
    ScanCoversAnEncoding(crc, bytes);
    ScanFindsEverything(crc, found, []);
    ScanOfNothing(crc);
    assert bytes[..Size(found)] + [] == bytes[..Size(found)];
    assert found + [] == found;
  }

  /**
   * Cutting an encoding anywhere leaves exactly its longest whole-record prefix readable,
   * and a record appended after recovery follows that prefix.
   */
  lemma {:induction false} CutKeepsLongestPrefix(crc: Checksum, payloads: seq<Bytes>, n: nat) returns (kept: nat)
    requires AllStorable(payloads) && n <= Size(payloads)
    ensures kept <= |payloads|
    ensures Parsed(crc, EncodeAll(crc, payloads)[..n]) == payloads[..kept]
    ensures Size(payloads[..kept]) <= n
    ensures kept < |payloads| ==> n < Size(payloads[..kept + 1])
    ensures forall next: Bytes | Storable(next) ::
              Parsed(crc, EncodeAll(crc, payloads)[..Size(payloads[..kept])] + Encode(crc, next))
              == payloads[..kept] + [next]
  {
    kept := LongestPrefix(crc, payloads, n);
    var bytes := EncodeAll(crc, payloads);
    var intact := Size(payloads[..kept]);
    IntactPrefixIsClean(crc, bytes[..n]);
    assert bytes[..n][..intact] == bytes[..intact];
    forall next: Bytes | Storable(next)
      ensures Parsed(crc, bytes[..intact] + Encode(crc, next)) == payloads[..kept] + [next]
    {
      ScanAfterClean(crc, bytes[..intact], Encode(crc, next));
      ScanOfOneRecord(crc, next);
    }
  }

  lemma {:induction false} LongestPrefix(crc: Checksum, payloads: seq<Bytes>, n: nat) returns (kept: nat)
    requires AllStorable(payloads) && n <= Size(payloads)
    ensures kept <= |payloads|
    ensures Parsed(crc, EncodeAll(crc, payloads)[..n]) == payloads[..kept]
    ensures Size(payloads[..kept]) <= n
    ensures kept < |payloads| ==> n < Size(payloads[..kept + 1])
  {
    hide ReadRecord, Encode;
    if payloads == [] {
      kept := 0;
      ScanOfNothing(crc);
    } else {
      var first, bytes := Encode(crc, payloads[0]), EncodeAll(crc, payloads);
      if n < |first| {
        kept := 0;
        assert bytes[..n] == first[..n];
        TornRecordIsUnreadable(crc, payloads[0], n);
        assert payloads[..1][1..] == [];
      } else {
        var later := LongestPrefix(crc, payloads[1..], n - |first|);
        kept := later + 1;
        var tail := EncodeAll(crc, payloads[1..])[..n - |first|];
        assert bytes[..n] == first + tail;
        ScanOfOneRecord(crc, payloads[0]);
        ScanAfterClean(crc, first, tail);
        assert payloads[..kept] == [payloads[0]] + payloads[1..][..later];
        assert payloads[..kept][1..] == payloads[1..][..later];
        if kept < |payloads| {
          assert payloads[..kept + 1][1..] == payloads[1..][..later + 1];
        }
      }
    }
  }
}
