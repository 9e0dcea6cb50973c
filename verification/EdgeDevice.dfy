/** The charger's flash and uplink, as far as a crash can observe them. */
module EdgeDevice {
  import opened Prelude
  import opened SegmentLog

  /** What outlives the process: the directory, and what the cloud has received so far. */
  datatype Snapshot = Snapshot(disk: Disk, received: seq<Bytes>)

  /**
   * What becomes of a batch offered to the cloud, record by record. The agent hears of success
   * only if every record is acknowledged; otherwise any of them may have arrived all the same.
   */
  datatype Answer = Confirmed | Failed(arrived: set<nat>)

  /** Which of `m` records offered at and after position `from` arrive, in order. */
  function Arriving(answer: Answer, from: nat, m: nat): seq<nat> {
    if m == 0 then []
    else Arriving(answer, from, m - 1) + if answer.Confirmed? || m - 1 in answer.arrived then [from + m - 1] else []
  }

  /** The records at these positions. */
  function Pick(records: seq<Bytes>, positions: seq<nat>): seq<Bytes>
    requires forall i :: 0 <= i < |positions| ==> positions[i] < |records|
  {
    seq(|positions|, i requires 0 <= i < |positions| => records[positions[i]])
  }

  lemma {:induction false} AllArrive(from: nat, m: nat)
    ensures Arriving(Confirmed, from, m) == Range(from, from + m)
  {
    if m > 0 {
      AllArrive(from, m - 1);
    }
  }

  lemma {:induction false} ArrivingShift(answer: Answer, from: nat, m: nat)
    ensures |Arriving(answer, from, m)| == |Arriving(answer, 0, m)|
    ensures forall i :: 0 <= i < |Arriving(answer, 0, m)| ==>
              Arriving(answer, from, m)[i] == from + Arriving(answer, 0, m)[i]
  {
    if m > 0 {
      ArrivingShift(answer, from, m - 1);
    }
  }

  lemma {:induction false} ArrivingWithin(answer: Answer, from: nat, m: nat)
    ensures |Arriving(answer, from, m)| <= m
    ensures forall i :: 0 <= i < |Arriving(answer, from, m)| ==> from <= Arriving(answer, from, m)[i] < from + m
  {
    if m > 0 {
      ArrivingWithin(answer, from, m - 1);
    }
  }

  /**
   * Every change is one atomic operation and leaves a snapshot in `history`, so the
   * snapshots added by a call are exactly the states a crash inside it can leave behind.
   */
  class Device {
    var disk: Disk
    var received: seq<Bytes>
    var history: seq<Snapshot>
    /** Segment files keep to these sizes. */
    ghost const bounds: Bounds

    constructor (at: Snapshot, ghost bounds: Bounds)
      requires Sized(at.disk.files, bounds)
      ensures disk == at.disk && received == at.received && history == [] && this.bounds == bounds && Bounded()
    {
      disk, received, history, this.bounds := at.disk, at.received, [], bounds;
    }

    /** The segment files are within their bounds, now and at every crash point. */
    ghost predicate Bounded()
      reads this
    {
      && Sized(disk.files, bounds)
      && forall i :: 0 <= i < |history| ==> Sized(history[i].disk.files, bounds)
    }

    ghost predicate Changed(before: seq<Snapshot>)
      reads this
    {
      history == before + [Snapshot(disk, received)]
    }

    method Create(segment: nat)
      requires segment !in disk.files
      modifies this
      ensures disk == old(disk).(files := old(disk).files[segment := []])
      ensures received == old(received) && Changed(old(history))
      ensures old(Bounded() && FullBelow(disk.files, segment, bounds.least)) ==> Bounded()
    {
      disk := disk.(files := disk.files[segment := []]);
      history := history + [Snapshot(disk, received)];
    }

    /** Appends to a file; a crash can leave any prefix of the bytes behind. */
    method Write(segment: nat, bytes: Bytes)
      modifies this
      ensures disk == Extended(old(disk), segment, bytes)
      ensures received == old(received)
      ensures old(history) <= history && |history| == |old(history)| + |bytes|
      ensures forall i :: |old(history)| <= i < |history| ==>
                history[i] == Snapshot(Extended(old(disk), segment, bytes[..i - |old(history)| + 1]), received)
      ensures old(Bounded() && segment in disk.files && |disk.files[segment]| + |bytes| <= bounds.most) ==> Bounded()
    {
      hide Sized, Extended;
      ghost var before := history;
      var start := disk;
      for n := 0 to |bytes|
        invariant before <= history && |history| == |before| + n
        invariant received == old(received)
        invariant forall i :: |before| <= i < |history| ==>
                    history[i] == Snapshot(Extended(start, segment, bytes[..i - |before| + 1]), received)
      {
        disk := Extended(start, segment, bytes[..n + 1]);
        history := history + [Snapshot(disk, received)];
      }
      disk := Extended(start, segment, bytes);
      if old(Bounded()) && segment in start.files && |start.files[segment]| + |bytes| <= bounds.most {
        ExtendedIsSized(start, segment, bytes, bounds);
      }
    }

    method Unlink(segment: nat)
      modifies this
      ensures disk == old(disk).(files := old(disk).files - {segment})
      ensures received == old(received) && Changed(old(history))
      ensures old(Bounded()) ==> Bounded()
    {
      disk := disk.(files := disk.files - {segment});
      history := history + [Snapshot(disk, received)];
    }

    method Truncate(segment: nat, length: nat)
      requires segment in disk.files && length <= |disk.files[segment]|
      modifies this
      ensures disk == old(disk).(files := old(disk).files[segment := old(disk).files[segment][..length]])
      ensures received == old(received) && Changed(old(history))
      ensures old(Bounded() && forall n <- disk.files :: n <= segment) ==> Bounded()
    {
      disk := disk.(files := disk.files[segment := disk.files[segment][..length]]);
      history := history + [Snapshot(disk, received)];
    }

    /** Writing a temporary file is invisible to `open`; the rename is what counts. */
    method StoreCursor(cursor: Cursor)
      modifies this
      ensures disk == old(disk).(cursorFile := Some(cursor))
      ensures received == old(received) && Changed(old(history))
      ensures old(Bounded()) ==> Bounded()
    {
      disk := disk.(cursorFile := Some(cursor));
      history := history + [Snapshot(disk, received)];
    }

    /** Offers a batch to the cloud, record by record; `ok` is what the agent hears. */
    method Publish(batch: seq<Bytes>, answer: Answer) returns (ok: bool)
      modifies this
      ensures ok <==> answer.Confirmed?
      ensures disk == old(disk) && HandedOver(old(received), old(history), batch, answer)
      ensures old(Bounded()) ==> Bounded()
    {
      hide Sized;
      ghost var before := history;
      NothingOffered(batch, answer);
      for n := 0 to |batch|
        invariant disk == old(disk) && (old(Bounded()) ==> Bounded())
        invariant HandedOver(old(received), before, batch[..n], answer)
      {
        OneMoreOffered(batch, answer, n);
        if answer.Confirmed? || n in answer.arrived {
          received := received + [batch[n]];
          history := history + [Snapshot(disk, received)];
        }
      }
      assert batch[..|batch|] == batch;
      ok := answer.Confirmed?;
    }

    /** Exactly the arriving records of a batch were received, one after the other. */
    ghost predicate HandedOver(before: seq<Bytes>, history0: seq<Snapshot>, batch: seq<Bytes>, answer: Answer)
      reads this
    {
      var arriving := Handed(batch, answer);
      && received == before + arriving
      && history0 <= history && |history| == |history0| + |arriving|
      && forall i :: |history0| <= i < |history| ==>
           history[i] == Snapshot(disk, before + arriving[..i - |history0| + 1])
    }
  }

  /** The records of a batch that arrive. */
  function Handed(batch: seq<Bytes>, answer: Answer): seq<Bytes> {
    ArrivingWithin(answer, 0, |batch|);
    Pick(batch, Arriving(answer, 0, |batch|))
  }

  lemma NothingOffered(batch: seq<Bytes>, answer: Answer)
    ensures Handed(batch[..0], answer) == []
  {
  }

  lemma OneMoreOffered(batch: seq<Bytes>, answer: Answer, n: nat)
    requires n < |batch|
    ensures Handed(batch[..n + 1], answer)
            == Handed(batch[..n], answer) + if answer.Confirmed? || n in answer.arrived then [batch[n]] else []
  {
    ArrivingWithin(answer, 0, n);
    ArrivingWithin(answer, 0, n + 1);
  }

  function Extended(disk: Disk, segment: nat, more: Bytes): Disk {
    disk.(files := disk.files[segment := Content(disk.files, segment) + more])
  }

  lemma ExtendedContent(disk: Disk, segment: nat, more: Bytes)
    ensures Content(Extended(disk, segment, more).files, segment) == Content(disk.files, segment) + more
  {
  }

  /** Every file is older than `segment` and holds at least this much. */
  ghost predicate FullBelow(files: Files, segment: nat, least: nat) {
    forall n <- files :: n < segment && least <= |files[n]|
  }

  lemma ExtendedIsSized(disk: Disk, segment: nat, bytes: Bytes, bounds: Bounds)
    requires Sized(disk.files, bounds) && segment in disk.files && |disk.files[segment]| + |bytes| <= bounds.most
    ensures Sized(Extended(disk, segment, bytes).files, bounds)
    ensures forall n :: 0 <= n <= |bytes| ==> Sized(Extended(disk, segment, bytes[..n]).files, bounds)
  {
  }
}
