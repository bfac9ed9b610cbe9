/** The write-ahead log: length, checksum and payload per record, appended to a file of bytes and
    read back up to the first record that is not whole. */
module Wal {
  import opened Bytes

  const WAL_MAGIC: Bytes := [65, 87, 65, 76]

  type Checksum = Bytes -> U32

  /** What `append` writes: the length is cut to 32 bits by the `as u32` cast. */
  function EncodeRecord(crc: Checksum, record: Bytes): (b: Bytes)
    ensures |b| == 8 + |record|
  {
    BigEndian(|record| % U32_END, 4) + BigEndian(crc(record), 4) + record
  }

  function Encode(crc: Checksum, records: seq<Bytes>): Bytes {
    if records == [] then [] else EncodeRecord(crc, records[0]) + Encode(crc, records[1..])
  }

  predicate Fits(record: Bytes) {
    |record| < U32_END
  }

  /** One turn of the read loop at the head of the unread bytes: the record there, if it is whole. */
  function ReadRecord(crc: Checksum, b: Bytes): (r: Option<Bytes>)
    ensures r.Some? ==> 8 + |r.value| <= |b| && Fits(r.value)
  {
    if |b| < 8 then None
    else
      LengthFits(b[..4]);
      var len := FromBigEndian(b[..4]);
      if |b| < 8 + len then None
      else if crc(b[8..8 + len]) != FromBigEndian(b[4..8]) then None
      else Some(b[8..8 + len])
  }

  lemma LengthFits(b: Bytes)
    requires |b| == 4
    ensures FromBigEndian(b) < U32_END
  {
    assert b[..3][..2] == b[..2] && b[..2][..1] == b[..1] && b[..1][..0] == [];
    assert FromBigEndian(b[..1]) == b[0];
    assert FromBigEndian(b[..2]) == 256 * FromBigEndian(b[..1]) + b[1];
    assert FromBigEndian(b[..3]) == 256 * FromBigEndian(b[..2]) + b[2];
  }

  function Decode(crc: Checksum, b: Bytes): seq<Bytes>
    decreases |b|
  {
    match ReadRecord(crc, b)
    case None => []
    case Some(record) => [record] + Decode(crc, b[8 + |record|..])
  }

  class WriteAheadLog {
    const crc: Checksum
    var file: Bytes

    /** `open` on a file with these bytes: a new or empty file gets the magic, which is "AWAL". */
    constructor (crc: Checksum, existing: Bytes)
      ensures this.crc == crc && file == if existing == [] then [65, 87, 65, 76] else existing
    {
      this.crc := crc;
      file := if existing == [] then WAL_MAGIC else existing;
    }

    method Append(record: Bytes)
      modifies this
      ensures file == old(file) + EncodeRecord(crc, record)
    {
      var checksum := crc(record);
      var len := |record| % U32_END;
      file := file + BigEndian(len, 4);
      file := file + BigEndian(checksum, 4);
      file := file + record;
      assert file == old(file) + EncodeRecord(crc, record);
    }

    /** None stands for `InvalidMagic`. */
    method RecoverAndTruncate() returns (recovered: Option<seq<Bytes>>)
      modifies this
      ensures recovered.None? <==> !(WAL_MAGIC <= old(file))
      ensures recovered.None? ==> file == old(file)
      ensures recovered.Some? ==>
        && recovered.value == Decode(crc, old(file)[4..])
        && file == WAL_MAGIC + Encode(crc, recovered.value)
        && file <= old(file)
    {
      hide ReadRecord, EncodeRecord;
      if |file| < 4 || file[..4] != WAL_MAGIC {
        return None;
      }
      var records: seq<Bytes> := [];
      var lastValidOffset := 4;
      while true
        invariant 4 <= lastValidOffset <= |file| && file == old(file)
        invariant file[..lastValidOffset] == WAL_MAGIC + Encode(crc, records)
        invariant Decode(crc, file[4..]) == records + Decode(crc, file[lastValidOffset..])
        decreases |file| - lastValidOffset
      {
        var unread := file[lastValidOffset..];
        var payload := ReadNext(unread);
        if payload.None? {
          assert Decode(crc, unread) == [];
          break;
        }
        StepEncodes(crc, file, lastValidOffset, records, payload.value);
        StepDecodes(crc, file, lastValidOffset, records, payload.value);
        lastValidOffset := lastValidOffset + 8 + |payload.value|;
        records := records + [payload.value];
      }
      file := file[..lastValidOffset];
      return Some(records);
    }

    /** One turn of the read loop, stopping where the bytes run out or the checksum fails. */
    method ReadNext(unread: Bytes) returns (payload: Option<Bytes>)
      ensures payload == ReadRecord(crc, unread)
    {
      if |unread| < 8 {
        return None;
      }
      LengthFits(unread[..4]);
      var len := FromBigEndian(unread[..4]);
      var expectedCrc := FromBigEndian(unread[4..8]);
      if |unread| < 8 + len {
        return None;
      }
      var bytes := unread[8..8 + len];
      if crc(bytes) != expectedCrc {
        return None;
      }
      return Some(bytes);
    }
  }

  lemma {:induction false} EncodeConcat(crc: Checksum, a: seq<Bytes>, b: seq<Bytes>)
    ensures Encode(crc, a + b) == Encode(crc, a) + Encode(crc, b)
  {
    hide EncodeRecord;
    if a == [] {
      assert a + b == b;
    } else {
      EncodeConcat(crc, a[1..], b);
      assert (a + b)[1..] == a[1..] + b;
      ConcatAssociative(EncodeRecord(crc, a[0]), Encode(crc, a[1..]), Encode(crc, b));
    }
  }

  lemma EncodeSnoc(crc: Checksum, records: seq<Bytes>, record: Bytes)
    ensures Encode(crc, records + [record]) == Encode(crc, records) + EncodeRecord(crc, record)
  {
    EncodeConcat(crc, records, [record]);
    assert Encode(crc, [record]) == EncodeRecord(crc, record) + Encode(crc, []);
  }

  lemma {:induction false} BigEndianOfFrom(b: Bytes)
    ensures BigEndian(FromBigEndian(b), |b|) == b
  {
    hide *;
    EndianUnfolds(b);
    if b != [] {
      var high := FromBigEndian(b[..|b| - 1]);
      BigEndianOfFrom(b[..|b| - 1]);
      BigEndianAppends(high, b[|b| - 1], |b| - 1);
      assert b == b[..|b| - 1] + [b[|b| - 1]];
    }
  }

  lemma EndianUnfolds(b: Bytes)
    ensures BigEndian(FromBigEndian([]), 0) == []
    ensures b != [] ==> FromBigEndian(b) == 256 * FromBigEndian(b[..|b| - 1]) + b[|b| - 1]
  {
  }

  lemma BigEndianAppends(high: nat, low: Byte, width: nat)
    ensures BigEndian(256 * high + low, width + 1) == BigEndian(high, width) + [low]
  {
    assert (256 * high + low) / 256 == high && (256 * high + low) % 256 == low;
  }

  /** A record read is the encoding of itself, byte for byte. */
  lemma RecordIsItsEncoding(crc: Checksum, b: Bytes)
    requires ReadRecord(crc, b).Some?
    ensures var record := ReadRecord(crc, b).value;
      8 + |record| <= |b| && b[..8 + |record|] == EncodeRecord(crc, record)
  {
    var record := ReadRecord(crc, b).value;
    BigEndianOfFrom(b[..4]);
    BigEndianOfFrom(b[4..8]);
    assert b[..8 + |record|] == b[..4] + b[4..8] + record;
  }

  /** What one successful read adds to the bytes kept, and to the records found. */
  lemma StepEncodes(crc: Checksum, file: Bytes, offset: nat, records: seq<Bytes>, payload: Bytes)
    requires offset <= |file| && ReadRecord(crc, file[offset..]) == Some(payload)
    requires file[..offset] == WAL_MAGIC + Encode(crc, records)
    ensures offset + 8 + |payload| <= |file|
    ensures file[..offset + 8 + |payload|] == WAL_MAGIC + Encode(crc, records + [payload])
  {
    hide *;
    RecordIsItsEncoding(crc, file[offset..]);
    EncodeSnoc(crc, records, payload);
    TakeMore(file, offset, 8 + |payload|);
    ConcatAssociative(WAL_MAGIC, Encode(crc, records), EncodeRecord(crc, payload));
  }

  lemma TakeMore<T>(s: seq<T>, i: nat, n: nat)
    requires i + n <= |s|
    ensures s[..i + n] == s[..i] + s[i..][..n] && s[i..][n..] == s[i + n..]
  {
  }

  lemma StepDecodes(crc: Checksum, file: Bytes, offset: nat, records: seq<Bytes>, payload: Bytes)
    requires offset <= |file| && ReadRecord(crc, file[offset..]) == Some(payload)
    ensures offset + 8 + |payload| <= |file|
    ensures records + Decode(crc, file[offset..]) == (records + [payload]) + Decode(crc, file[offset + 8 + |payload|..])
  {
    hide ReadRecord;
    var unread, size := file[offset..], 8 + |payload|;
    assert unread[size..] == file[offset + size..];
    assert Decode(crc, unread) == [payload] + Decode(crc, unread[size..]);
  }

  /** A whole record is read back whatever follows it. */
  lemma ReadsBack(crc: Checksum, record: Bytes, rest: Bytes)
    requires Fits(record)
    ensures ReadRecord(crc, EncodeRecord(crc, record) + rest) == Some(record)
  {
    var len, sum := BigEndian(|record|, 4), BigEndian(crc(record), 4);
    assert EncodeRecord(crc, record) == len + sum + record;
    U32Width();
    BigEndianRoundTrip(|record|, 4);
    BigEndianRoundTrip(crc(record), 4);
    hide *;
    RecordSlices(len, sum, record, rest);
    ReadsWhole(crc, len + sum + record + rest, record);
  }

  lemma ReadsWhole(crc: Checksum, b: Bytes, record: Bytes)
    requires 8 + |record| <= |b| && b[8..8 + |record|] == record
    requires FromBigEndian(b[..4]) == |record| && FromBigEndian(b[4..8]) == crc(record)
    ensures ReadRecord(crc, b) == Some(record)
  {
    hide FromBigEndian;
  }

  lemma RecordSlices(len: Bytes, sum: Bytes, record: Bytes, rest: Bytes)
    requires |len| == 4 && |sum| == 4
    ensures var b := len + sum + record + rest;
      |b| == 8 + |record| + |rest| && b[..4] == len && b[4..8] == sum && b[8..8 + |record|] == record
  {
  }

  ghost predicate AllFit(records: seq<Bytes>) {
    forall r :: r in records ==> Fits(r)
  }

  lemma DecodesRecord(crc: Checksum, record: Bytes, rest: Bytes)
    requires Fits(record)
    ensures Decode(crc, EncodeRecord(crc, record) + rest) == [record] + Decode(crc, rest)
  {
    var b := EncodeRecord(crc, record) + rest;
    assert b[8 + |record|..] == rest;
    ReadsBack(crc, record, rest);
  }

  /** Crash recovery: whatever bytes follow, the records written come first. */
  lemma {:induction false} DecodesPrefix(crc: Checksum, records: seq<Bytes>, tail: Bytes)
    requires AllFit(records)
    ensures Decode(crc, Encode(crc, records) + tail) == records + Decode(crc, tail)
  {
    hide *;
    EncodeUnfolds(crc, records);
    if records == [] {
      assert Encode(crc, records) + tail == tail;
      assert records + Decode(crc, tail) == Decode(crc, tail);
    } else {
      var first, later := records[0], records[1..];
      TailFits(records);
      DecodesPrefix(crc, later, tail);
      DecodesRecord(crc, first, Encode(crc, later) + tail);
      ConcatAssociative(EncodeRecord(crc, first), Encode(crc, later), tail);
      ConcatAssociative([first], later, Decode(crc, tail));
      assert records == [first] + later;
    }
  }

  lemma EncodeUnfolds(crc: Checksum, records: seq<Bytes>)
    ensures Encode(crc, records) == if records == [] then []
      else EncodeRecord(crc, records[0]) + Encode(crc, records[1..])
  {
    hide EncodeRecord;
  }

  lemma TailFits(records: seq<Bytes>)
    requires records != [] && AllFit(records)
    ensures Fits(records[0]) && AllFit(records[1..])
  {
  }

  /** A torn append, cut anywhere before its end, yields exactly the earlier records. */
  lemma TornAppendIsDropped(crc: Checksum, records: seq<Bytes>, record: Bytes, cut: nat)
    requires AllFit(records) && Fits(record) && cut < |EncodeRecord(crc, record)|
    ensures Decode(crc, Encode(crc, records) + EncodeRecord(crc, record)[..cut]) == records
  {
    hide *;
    var torn := EncodeRecord(crc, record)[..cut];
    DecodesPrefix(crc, records, torn);
    TornReadsNothing(crc, record, cut);
    assert records + [] == records;
  }

  lemma TornReadsNothing(crc: Checksum, record: Bytes, cut: nat)
    requires Fits(record) && cut < |EncodeRecord(crc, record)|
    ensures Decode(crc, EncodeRecord(crc, record)[..cut]) == []
  {
    var len, sum := BigEndian(|record|, 4), BigEndian(crc(record), 4);
    assert EncodeRecord(crc, record) == len + sum + record;
    U32Width();
    BigEndianRoundTrip(|record|, 4);
    hide *;
    if cut >= 8 {
      TornHead(len, sum, record, cut);
    }
    TooShort(crc, EncodeRecord(crc, record)[..cut]);
  }

  lemma TornHead(len: Bytes, sum: Bytes, record: Bytes, cut: nat)
    requires |len| == 4 && |sum| == 4 && 8 <= cut < 8 + |record|
    ensures (len + sum + record)[..cut][..4] == len
  {
  }

  lemma TooShort(crc: Checksum, b: Bytes)
    requires |b| < 8 || |b| < 8 + FromBigEndian(b[..4])
    ensures Decode(crc, b) == []
  {
    hide FromBigEndian;
  }

  lemma {:induction false} DecodedFit(crc: Checksum, b: Bytes)
    ensures AllFit(Decode(crc, b))
    decreases |b|
  {
    match ReadRecord(crc, b)
    case None =>
    case Some(record) => DecodedFit(crc, b[8 + |record|..]);
  }

  /** Recovering a second time finds the same records. */
  lemma RecoveryIsIdempotent(crc: Checksum, b: Bytes)
    ensures Decode(crc, Encode(crc, Decode(crc, b))) == Decode(crc, b)
  {
    var records := Decode(crc, b);
    DecodedFit(crc, b);
    DecodesPrefix(crc, records, []);
    assert Encode(crc, records) + [] == Encode(crc, records);
    assert records + [] == records;
  }

  /** Appending to a recovered log and recovering adds just the new record, exactly when its
      length fits the 32-bit field: a longer record is never read back. */
  lemma AppendThenRecover(crc: Checksum, records: seq<Bytes>, record: Bytes)
    requires AllFit(records)
    ensures Decode(crc, Encode(crc, records) + EncodeRecord(crc, record)) == records + [record] <==> Fits(record)
  {
    var written := EncodeRecord(crc, record);
    DecodesPrefix(crc, records, written);
    if Fits(record) {
      ReadsBack(crc, record, []);
      assert written + [] == written;
      assert written[8 + |record|..] == [];
    }
    if Decode(crc, Encode(crc, records) + written) == records + [record] {
      assert (records + [record])[|records|..] == [record];
      assert (records + Decode(crc, written))[|records|..] == Decode(crc, written);
      DecodedFit(crc, written);
      assert record in Decode(crc, written);
    }
  }

  /** How a record lies in the file: length, checksum of the payload, payload. */
  lemma RecordLayout(crc: Checksum, record: Bytes)
    requires Fits(record)
    ensures var b := EncodeRecord(crc, record);
      && FromBigEndian(b[..4]) == |record| && FromBigEndian(b[4..8]) == crc(record) && b[8..] == record
  {
    var len, sum := BigEndian(|record|, 4), BigEndian(crc(record), 4);
    assert EncodeRecord(crc, record) == len + sum + record;
    U32Width();
    BigEndianRoundTrip(|record|, 4);
    BigEndianRoundTrip(crc(record), 4);
    hide *;
    RecordSlices(len, sum, record, []);
    assert len + sum + record + [] == len + sum + record;
    assert (len + sum + record)[8..] == record;
  }

  /** A damaged payload is noticed exactly when its checksum is another: then the log ends before the
      record, whatever follows; otherwise what is there is read as the record. */
  lemma DamageNoticedIff(crc: Checksum, records: seq<Bytes>, record: Bytes, damaged: Bytes, rest: Bytes)
    requires AllFit(records) && Fits(record) && |damaged| == |record|
    ensures var file := Encode(crc, records) + (EncodeRecord(crc, record)[..8] + damaged + rest);
      Decode(crc, file) == if crc(damaged) == crc(record) then records + ([damaged] + Decode(crc, rest)) else records
  {
    hide *;
    var head := EncodeRecord(crc, record)[..8];
    var b := head + damaged + rest;
    DecodesPrefix(crc, records, b);
    RecordLayout(crc, record);
    HeadKept(head, EncodeRecord(crc, record), damaged, rest);
    FitsAlike(record, damaged);
    if crc(damaged) == crc(record) {
      ReadsWhole(crc, b, damaged);
      DecodeUnfolds(crc, b);
    } else {
      ChecksumFails(crc, b, |record|);
      assert records + [] == records;
    }
  }

  lemma HeadKept(head: Bytes, encoded: Bytes, damaged: Bytes, rest: Bytes)
    requires |encoded| >= 8 && head == encoded[..8]
    ensures var b := head + damaged + rest;
      && |b| == 8 + |damaged| + |rest| && b[..4] == encoded[..4] && b[4..8] == encoded[4..8]
      && b[8..8 + |damaged|] == damaged && b[8 + |damaged|..] == rest
  {
  }

  lemma FitsAlike(record: Bytes, damaged: Bytes)
    requires Fits(record) && |damaged| == |record|
    ensures Fits(damaged)
  {
  }

  lemma DecodeUnfolds(crc: Checksum, b: Bytes)
    ensures var r := ReadRecord(crc, b);
      r.Some? ==> 8 + |r.value| <= |b| && Decode(crc, b) == [r.value] + Decode(crc, b[8 + |r.value|..])
  {
    hide ReadRecord;
  }

  lemma ChecksumFails(crc: Checksum, b: Bytes, len: nat)
    requires 8 + len <= |b| && FromBigEndian(b[..4]) == len && FromBigEndian(b[4..8]) != crc(b[8..8 + len])
    ensures Decode(crc, b) == []
  {
    hide FromBigEndian;
  }

  // ---------------------------------------------------------------------------------------------
  // Histories.

  /** What happens to a log file: an append that returned, an append the process died in after some
      of its bytes, and a recovery. */
  datatype LogEvent = Appended(record: Bytes) | Torn(record: Bytes, cut: nat) | Recovered

  function Reached(crc: Checksum, record: Bytes, cut: nat): Bytes {
    var bytes := EncodeRecord(crc, record);
    if cut < |bytes| then bytes[..cut] else bytes
  }

  /** The file after one event, as `append` and `recover_and_truncate` leave it. */
  function FileNext(crc: Checksum, file: Bytes, event: LogEvent): Bytes {
    match event
    case Appended(record) => file + EncodeRecord(crc, record)
    case Torn(record, cut) => file + Reached(crc, record, cut)
    case Recovered => if WAL_MAGIC <= file then WAL_MAGIC + Encode(crc, Decode(crc, file[4..])) else file
  }

  function FileAfter(crc: Checksum, events: seq<LogEvent>): Bytes {
    if events == [] then WAL_MAGIC
    else FileNext(crc, FileAfter(crc, events[..|events| - 1]), events[|events| - 1])
  }

  /** The log is recovered before it is appended to after a crash, and its records fit. */
  predicate Careful(events: seq<LogEvent>) {
    && (forall i :: 0 <= i < |events| && !events[i].Recovered? ==> Fits(events[i].record))
    && (forall i :: 0 <= i < |events| - 1 && events[i].Torn? ==> events[i + 1].Recovered?)
  }

  /** All bytes of the record were written. */
  predicate IsWhole(event: LogEvent) {
    event.Appended? || (event.Torn? && event.cut >= 8 + |event.record|)
  }

  /** Every record whose append returned, and of the others those that had been written in full. */
  function Kept(events: seq<LogEvent>): seq<Bytes> {
    if events == [] then [] else
      var last := events[|events| - 1];
      Kept(events[..|events| - 1]) + if IsWhole(last) then [last.record] else []
  }

  /** What a crash has left after the last whole record. */
  function Remnant(crc: Checksum, events: seq<LogEvent>): Bytes {
    if events == [] then [] else
      var last := events[|events| - 1];
      if last.Torn? && !IsWhole(last) then EncodeRecord(crc, last.record)[..last.cut] else []
  }

  lemma {:induction false} FileIs(crc: Checksum, events: seq<LogEvent>)
    requires Careful(events)
    ensures AllFit(Kept(events)) && Decode(crc, Encode(crc, Kept(events)) + Remnant(crc, events)) == Kept(events)
    ensures FileAfter(crc, events) == WAL_MAGIC + (Encode(crc, Kept(events)) + Remnant(crc, events))
  {
    hide *;
    HistoryStep(crc, events);
    if events == [] {
      NothingKept(crc);
    } else {
      var before, last := events[..|events| - 1], events[|events| - 1];
      FileIs(crc, before);
      NextFile(crc, Kept(before), Remnant(crc, before), last);
    }
  }

  /** The log over any history of appends, crashes and recoveries: a recovery finds exactly the
      records kept, and cuts the file to their encoding. */
  lemma HistoryIsKept(crc: Checksum, events: seq<LogEvent>)
    requires Careful(events)
    ensures WAL_MAGIC <= FileAfter(crc, events) && Decode(crc, FileAfter(crc, events)[4..]) == Kept(events)
    ensures FileAfter(crc, events + [Recovered]) == WAL_MAGIC + Encode(crc, Kept(events))
  {
    hide *;
    var body := Encode(crc, Kept(events)) + Remnant(crc, events);
    FileIs(crc, events);
    Behind(body, [], []);
    assert WAL_MAGIC + body + [] + [] == WAL_MAGIC + body && body + ([] + []) == body;
    RecoveredFile(crc, body);
    assert (events + [Recovered])[..|events|] == events;
    FileUnfolds(crc, events + [Recovered]);
  }

  lemma NothingKept(crc: Checksum)
    ensures AllFit([]) && Encode(crc, []) + [] == [] && Decode(crc, []) == [] && WAL_MAGIC + [] == WAL_MAGIC
  {
  }

  lemma FileUnfolds(crc: Checksum, events: seq<LogEvent>)
    ensures FileAfter(crc, events)
         == if events == [] then WAL_MAGIC
             else FileNext(crc, FileAfter(crc, events[..|events| - 1]), events[|events| - 1])
  {
    hide FileNext;
  }

  lemma HistoryStep(crc: Checksum, events: seq<LogEvent>)
    requires Careful(events)
    ensures events == [] ==> FileAfter(crc, events) == WAL_MAGIC && Kept(events) == [] && Remnant(crc, events) == []
    ensures events != [] ==>
      var before, last := events[..|events| - 1], events[|events| - 1];
      && Careful(before) && (!last.Recovered? ==> Fits(last.record) && Remnant(crc, before) == [])
      && FileAfter(crc, events) == FileNext(crc, FileAfter(crc, before), last)
      && Kept(events) == Kept(before) + (if IsWhole(last) then [last.record] else [])
      && Remnant(crc, events) == if last.Torn? && !IsWhole(last) then EncodeRecord(crc, last.record)[..last.cut] else []
  {
    hide EncodeRecord, FileNext, Fits, IsWhole;
    if events != [] {
      var before := events[..|events| - 1];
      assert forall i :: 0 <= i < |before| ==> before[i] == events[i];
      if before != [] && !events[|events| - 1].Recovered? {
        assert !before[|before| - 1].Torn?;
      }
    }
  }

  /** One event on a file that holds these records. */
  lemma NextFile(crc: Checksum, records: seq<Bytes>, remnant: Bytes, event: LogEvent)
    requires AllFit(records) && (!event.Recovered? ==> Fits(event.record) && remnant == [])
    requires Decode(crc, Encode(crc, records) + remnant) == records
    ensures var kept := records + (if IsWhole(event) then [event.record] else []);
      var left := if event.Torn? && !IsWhole(event) then EncodeRecord(crc, event.record)[..event.cut] else [];
      && AllFit(kept) && Decode(crc, Encode(crc, kept) + left) == kept
      && FileNext(crc, WAL_MAGIC + (Encode(crc, records) + remnant), event) == WAL_MAGIC + (Encode(crc, kept) + left)
  {
    hide *;
    var encoded := Encode(crc, records);
    EventParts(crc, WAL_MAGIC + (encoded + remnant), event);
    assert records + [] == records && encoded + [] == encoded;
    if event.Recovered? {
      RecoveredFile(crc, encoded + remnant);
      DecodesPrefix(crc, records, []);
      NothingKept(crc);
    } else if IsWhole(event) {
      FitsMore(records, event.record);
      EncodeSnoc(crc, records, event.record);
      DecodesPrefix(crc, records + [event.record], []);
      NothingKept(crc);
      var kept := records + [event.record];
      assert Encode(crc, kept) + [] == Encode(crc, kept) && kept + [] == kept;
      ConcatAssociative(WAL_MAGIC, encoded, EncodeRecord(crc, event.record));
    } else {
      TornAppendIsDropped(crc, records, event.record, event.cut);
      ConcatAssociative(WAL_MAGIC, encoded, EncodeRecord(crc, event.record)[..event.cut]);
    }
  }

  lemma EventParts(crc: Checksum, file: Bytes, event: LogEvent)
    ensures event.Recovered? ==> !IsWhole(event)
    ensures !event.Recovered? && IsWhole(event) ==> FileNext(crc, file, event) == file + EncodeRecord(crc, event.record)
    ensures !event.Recovered? && !IsWhole(event) ==>
      && event.Torn? && event.cut < |EncodeRecord(crc, event.record)|
      && FileNext(crc, file, event) == file + EncodeRecord(crc, event.record)[..event.cut]
  {
    hide EncodeRecord;
  }

  lemma RecoveredFile(crc: Checksum, body: Bytes)
    ensures FileNext(crc, WAL_MAGIC + body, Recovered) == WAL_MAGIC + Encode(crc, Decode(crc, body))
  {
    hide Encode, Decode;
    assert (WAL_MAGIC + body)[4..] == body;
  }

  lemma FitsMore(records: seq<Bytes>, record: Bytes)
    requires AllFit(records) && Fits(record)
    ensures AllFit(records + [record])
  {
  }

  /** And recovering first is needed: a record appended behind the four length bytes of a longer one
      is lost, although its append returned. */
  lemma UnrecoveredAppendIsLost(crc: Checksum, events: seq<LogEvent>, torn: Bytes, record: Bytes)
    requires Careful(events) && (events != [] ==> !events[|events| - 1].Torn?)
    requires Fits(torn) && |record| + 4 < |torn|
    ensures Decode(crc, FileAfter(crc, events + [Torn(torn, 4), Appended(record)])[4..]) == Kept(events)
  {
    hide *;
    var first, both := events + [Torn(torn, 4)], events + [Torn(torn, 4), Appended(record)];
    assert both[..|first|] == first && first[..|events|] == events;
    var encoded, tail := Encode(crc, Kept(events)), EncodeRecord(crc, torn)[..4] + EncodeRecord(crc, record);
    FileIs(crc, events);
    RemnantParts(crc, events);
    LastTwo(torn, record);
    assert encoded + [] == encoded;
    FileUnfolds(crc, first);
    FileUnfolds(crc, both);
    EventParts(crc, FileAfter(crc, events), Torn(torn, 4));
    EventParts(crc, FileAfter(crc, first), Appended(record));
    Behind(encoded, EncodeRecord(crc, torn)[..4], EncodeRecord(crc, record));
    DecodesPrefix(crc, Kept(events), tail);
    LengthOf(crc, torn);
    assert tail[..4] == EncodeRecord(crc, torn)[..4];
    TooShort(crc, tail);
    assert Kept(events) + [] == Kept(events);
  }

  lemma RemnantParts(crc: Checksum, events: seq<LogEvent>)
    requires events != [] ==> !events[|events| - 1].Torn?
    ensures Remnant(crc, events) == []
  {
  }

  lemma LastTwo(torn: Bytes, record: Bytes)
    ensures !IsWhole(Torn(torn, 4)) && IsWhole(Appended(record))
  {
  }

  lemma Behind(encoded: Bytes, remnant: Bytes, written: Bytes)
    ensures (WAL_MAGIC + encoded + remnant + written)[4..] == encoded + (remnant + written)
  {
  }

  lemma LengthOf(crc: Checksum, record: Bytes)
    requires Fits(record)
    ensures FromBigEndian(EncodeRecord(crc, record)[..4]) == |record|
  {
    var len, sum := BigEndian(|record|, 4), BigEndian(crc(record), 4);
    assert EncodeRecord(crc, record) == len + sum + record;
    U32Width();
    BigEndianRoundTrip(|record|, 4);
    hide *;
    TakeFirst(len, sum, record);
  }

  lemma TakeFirst<T>(a: seq<T>, b: seq<T>, c: seq<T>)
    ensures (a + b + c)[..|a|] == a
  {
  }
}
