/** What the log reader makes of a log writer's file, or of any prefix of it. */
module LogRoundTrip {
  import opened Wrappers
  import opened LogFormat
  import opened LogReader
  import LogWriter

  /** The file holds these bytes at offset q, as far as it goes. */
  ghost predicate Agrees(file: seq<Byte>, q: nat, bytes: seq<Byte>) {
    forall i :: 0 <= i < |bytes| && q + i < |file| ==> file[q + i] == bytes[i]
  }

  lemma AgreesParts(file: seq<Byte>, q: nat, a: seq<Byte>, b: seq<Byte>)
    requires Agrees(file, q, a + b)
    ensures Agrees(file, q, a) && Agrees(file, q + |a|, b)
  {
    forall i | 0 <= i < |a| && q + i < |file|
      ensures file[q + i] == a[i]
    {
      assert (a + b)[i] == a[i];
    }
    forall i | 0 <= i < |b| && q + |a| + i < |file|
      ensures file[q + |a| + i] == b[i]
    {
      assert (a + b)[|a| + i] == b[i];
    }
  }

  lemma AgreesWhole(file: seq<Byte>, q: nat, bytes: seq<Byte>, i: nat, j: nat)
    requires Agrees(file, q, bytes) && i <= j <= |bytes| && q + j <= |file|
    ensures file[q + i..q + j] == bytes[i..j]
  {
    forall k | 0 <= k < j - i
      ensures file[q + i..q + j][k] == bytes[i..j][k]
    {
      assert file[q + i..q + j][k] == file[q + (i + k)];
    }
  }

  /** The parts of a physical record. */
  lemma PhysicalParts(sum: Checksum, t: RecordType, payload: seq<Byte>)
    requires |payload| <= BLOCK_SIZE
    ensures var bytes := Physical(sum, t, payload);
            && bytes[0..4] == EncodeFixed32(Mask(sum.Value([t.Code()] + payload)))
            && bytes[4] == |payload| % 256 && bytes[5] == |payload| / 256 && bytes[6] == t.Code()
            && bytes[6..HEADER_SIZE + |payload|] == [t.Code()] + payload
            && bytes[HEADER_SIZE..HEADER_SIZE + |payload|] == payload
  {
    sum.ExtendAppends(0, [t.Code()], payload);
  }

  /** A complete physical record parses to its type and payload. */
  lemma PhysicalParses(sum: Checksum, file: seq<Byte>, q: nat, t: RecordType, payload: seq<Byte>)
    requires t != Zero && HEADER_SIZE + |payload| <= Leftover(q)
    requires q + HEADER_SIZE + |payload| <= |file| && Agrees(file, q, Physical(sum, t, payload))
    ensures q + HEADER_SIZE <= BufferEnd(file, q)
    ensures ParseAt(sum, file, q) == Step(Got(t.Code(), payload), q + HEADER_SIZE + |payload|, 0)
  {
    StoredChecksum(sum, file, q, t, payload);
    StoredHeader(sum, file, q, t, payload);
  }

  lemma StoredHeader(sum: Checksum, file: seq<Byte>, q: nat, t: RecordType, payload: seq<Byte>)
    requires |payload| <= BLOCK_SIZE && q + HEADER_SIZE <= |file| && Agrees(file, q, Physical(sum, t, payload))
    ensures file[q + 4] as int + file[q + 5] as int * 256 == |payload| && file[q + 6] == t.Code()
    ensures q + HEADER_SIZE + |payload| <= |file| ==> file[q + HEADER_SIZE..q + HEADER_SIZE + |payload|] == payload
  {
    var bytes := Physical(sum, t, payload);
    PhysicalParts(sum, t, payload);
    assert file[q + 4] == bytes[4] && file[q + 5] == bytes[5] && file[q + 6] == bytes[6];
    if q + HEADER_SIZE + |payload| <= |file| {
      AgreesWhole(file, q, bytes, HEADER_SIZE, HEADER_SIZE + |payload|);
    }
  }

  lemma StoredChecksum(sum: Checksum, file: seq<Byte>, q: nat, t: RecordType, payload: seq<Byte>)
    requires |payload| <= BLOCK_SIZE && q + HEADER_SIZE + |payload| <= |file|
             && Agrees(file, q, Physical(sum, t, payload))
    ensures Unmask(DecodeFixed32(file[q..q + 4])) == sum.Value(file[q + 6..q + HEADER_SIZE + |payload|])
  {
    var bytes, n := Physical(sum, t, payload), |payload|;
    AgreesWhole(file, q, bytes, 0, 4);
    AgreesWhole(file, q, bytes, 6, HEADER_SIZE + n);
    ChecksumField(sum, t, payload);
  }

  /** The checksum stored in a record is the one the reader computes. */
  lemma ChecksumField(sum: Checksum, t: RecordType, payload: seq<Byte>)
    requires |payload| <= BLOCK_SIZE
    ensures var bytes := Physical(sum, t, payload);
            Unmask(DecodeFixed32(bytes[0..4])) == sum.Value(bytes[6..HEADER_SIZE + |payload|])
  {
    PhysicalParts(sum, t, payload);
    var crc := sum.Value([t.Code()] + payload);
    DecodeEncode(Mask(crc));
    UnmaskMask(crc);
  }

  /** A physical record cut off by the end of the file reads as the end, not as damage. */
  lemma TruncatedParses(sum: Checksum, file: seq<Byte>, q: nat, t: RecordType, payload: seq<Byte>)
    requires HEADER_SIZE + |payload| <= Leftover(q) && q + HEADER_SIZE <= |file| < q + HEADER_SIZE + |payload|
    requires Agrees(file, q, Physical(sum, t, payload))
    ensures q + HEADER_SIZE <= BufferEnd(file, q)
    ensures ParseAt(sum, file, q) == Step(Eof, |file|, 0)
  {
    StoredHeader(sum, file, q, t, payload);
  }

  lemma PhysicalIsNext(sum: Checksum, file: seq<Byte>, q: nat, t: RecordType, payload: seq<Byte>)
    requires q <= |file| && t != Zero && HEADER_SIZE + |payload| <= Leftover(q)
    requires Agrees(file, q, Physical(sum, t, payload))
    ensures NextPhysical(sum, file, q)
         == if q + HEADER_SIZE + |payload| <= |file| then Step(Got(t.Code(), payload), q + HEADER_SIZE + |payload|, 0)
            else Step(Eof, |file|, 0)
  {
    if q + HEADER_SIZE + |payload| <= |file| {
      PhysicalParses(sum, file, q, t, payload);
    } else if q + HEADER_SIZE <= |file| {
      TruncatedParses(sum, file, q, t, payload);
    }
  }

  /** The stream recognises physical records framed this way, in full or cut off by the end
      of the file, and skips the trailer of a block. */
  ghost predicate Understands(frame: Framing, next: Stream, file: seq<Byte>) {
    && (forall q: nat, t: RecordType, payload: seq<Byte> {:trigger Agrees(file, q, frame(t, payload))} ::
         q <= |file| && t != Zero && HEADER_SIZE + |payload| <= Leftover(q) && Agrees(file, q, frame(t, payload))
         ==> next(q) == StepTo(t, payload, q + HEADER_SIZE + |payload|, |file|))
    && (forall q: nat :: SkipsTrailer(next, q, |file|))
  }

  /** A physical record that ends at the given offset, or the end of the file before it. */
  function StepTo(t: RecordType, payload: seq<Byte>, after: nat, size: nat): Step {
    if after <= size then Step(Got(t.Code(), payload), after, 0) else Step(Eof, size, 0)
  }

  /** Where no header fits, the stream goes on with the next block. */
  ghost predicate SkipsTrailer(next: Stream, q: nat, size: nat) {
    q <= size && Leftover(q) < HEADER_SIZE
    ==> next(q) == if BlockEnd(q) <= size then next(BlockEnd(q)) else Step(Eof, size, 0)
  }

  lemma TrailerIsSkipped(sum: Checksum, file: seq<Byte>, q: nat)
    ensures SkipsTrailer(StreamOf(sum, file), q, |file|)
  {
    LeftoverAhead(q, Leftover(q));
  }

  lemma ReaderUnderstands(sum: Checksum, file: seq<Byte>)
    ensures Understands(FramingOf(sum), StreamOf(sum, file), file)
  {
    var next, frame := StreamOf(sum, file), FramingOf(sum);
    forall q: nat, t: RecordType, payload: seq<Byte>
      | q <= |file| && t != Zero && HEADER_SIZE + |payload| <= Leftover(q) && Agrees(file, q, frame(t, payload))
      ensures next(q) == StepTo(t, payload, q + HEADER_SIZE + |payload|, |file|)
    {
      PhysicalIsNext(sum, file, q, t, payload);
    }
    forall q: nat
      ensures SkipsTrailer(next, q, |file|)
    {
      TrailerIsSkipped(sum, file, q);
    }
  }

  /** A physical record with the trailer of zeros the writer may have put first. */
  lemma FragmentIsNext(frame: Framing, next: Stream, file: seq<Byte>, q: nat, data: seq<Byte>, begin: bool)
    requires Understands(frame, next, file)
    requires q <= |file| && Agrees(file, q, Fragment(frame, q, data, begin))
    ensures var n := Taken(q, |data|);
            next(q) == StepTo(FragmentType(begin, n == |data|), data[..n], q + PadLength(q) + HEADER_SIZE + n, |file|)
  {
    var n := Taken(q, |data|);
    var t := FragmentType(begin, n == |data|);
    var pad := PadLength(q);
    AgreesParts(file, q, Zeros(pad), frame(t, data[..n]));
    assert SkipsTrailer(next, q, |file|);
    assert q + pad <= |file| ==> next(q + pad) == StepTo(t, data[..n], q + pad + HEADER_SIZE + n, |file|);
  }

  /** The stream delivers the fragments of a record, up to the end of the file. */
  ghost predicate Delivers(next: Stream, size: nat, q: nat, data: seq<Byte>, begin: bool)
    decreases |data|, Leftover(q + PadLength(q)) == HEADER_SIZE
  {
    var n := Taken(q, |data|);
    var after := q + PadLength(q) + HEADER_SIZE + n;
    && next(q) == StepTo(FragmentType(begin, n == |data|), data[..n], after, size)
    && (if n < |data|
       && after <= size then (TakenFillsBlock(q, |data|); Delivers(next, size, after, data[n..], false)) else true)
  }

  /** Where the bytes of a record end. */
  ghost function EndOf(q: nat, data: seq<Byte>): nat
    decreases |data|, Leftover(q + PadLength(q)) == HEADER_SIZE
  {
    var n := Taken(q, |data|);
    var after := q + PadLength(q) + HEADER_SIZE + n;
    if n == |data| then after else (TakenFillsBlock(q, |data|); EndOf(after, data[n..]))
  }

  lemma {:induction false} EmitEndsAt(frame: Framing, q: nat, data: seq<Byte>, begin: bool)
    ensures q + |Emit(frame, q, data, begin)| == EndOf(q, data)
    ensures q < EndOf(q, data)
    decreases |data|, Leftover(q + PadLength(q)) == HEADER_SIZE
  {
    var n := Taken(q, |data|);
    if n < |data| {
      TakenFillsBlock(q, |data|);
      EmitEndsAt(frame, q + |Fragment(frame, q, data, begin)|, data[n..], false);
    }
  }

  lemma DeliversFragment(next: Stream, size: nat, q: nat, data: seq<Byte>, begin: bool, n: nat, after: nat)
    requires n == Taken(q, |data|) && after == q + PadLength(q) + HEADER_SIZE + n
    requires next(q) == StepTo(FragmentType(begin, n == |data|), data[..n], after, size)
    requires n < |data| && after <= size ==> Delivers(next, size, after, data[n..], false)
    ensures Delivers(next, size, q, data, begin)
  {
  }

  /** From bytes to fragments. */
  lemma {:induction false} BytesDeliver(frame: Framing, next: Stream, file: seq<Byte>, q: nat, data: seq<Byte>,
                                        begin: bool)
    requires Understands(frame, next, file)
    requires q <= |file| && Agrees(file, q, Emit(frame, q, data, begin))
    ensures Delivers(next, |file|, q, data, begin)
    decreases |data|, Leftover(q + PadLength(q)) == HEADER_SIZE, 1
  {
    var n := Taken(q, |data|);
    var after := q + PadLength(q) + HEADER_SIZE + n;
    FirstBytes(frame, next, file, q, data, begin, n, after);
    if n < |data| && after <= |file| {
      RestOf(frame, next, file, q, data, n, after);
    }
    DeliversFragment(next, |file|, q, data, begin, n, after);
  }

  lemma {:induction false} RestOf(frame: Framing, next: Stream, file: seq<Byte>, q: nat, data: seq<Byte>, n: nat,
                                  after: nat)
    requires n == Taken(q, |data|) < |data| && after == q + PadLength(q) + HEADER_SIZE + n <= |file|
    requires Understands(frame, next, file) && Agrees(file, after, Emit(frame, after, data[n..], false))
    ensures Delivers(next, |file|, after, data[n..], false)
    decreases |data|, Leftover(q + PadLength(q)) == HEADER_SIZE, 0
  {
    TakenFillsBlock(q, |data|);
    BytesDeliver(frame, next, file, after, data[n..], false);
  }

  lemma FirstBytes(frame: Framing, next: Stream, file: seq<Byte>, q: nat, data: seq<Byte>, begin: bool, n: nat,
                   after: nat)
    requires n == Taken(q, |data|) && after == q + PadLength(q) + HEADER_SIZE + n
    requires Understands(frame, next, file)
    requires q <= |file| && Agrees(file, q, Emit(frame, q, data, begin))
    ensures next(q) == StepTo(FragmentType(begin, n == |data|), data[..n], after, |file|)
    ensures n < |data| ==> Agrees(file, after, Emit(frame, after, data[n..], false))
  {
    if n < |data| {
      EmitParts(frame, file, q, data, begin, n, after);
    }
    FragmentIsNext(frame, next, file, q, data, begin);
  }

  lemma EmitParts(frame: Framing, file: seq<Byte>, q: nat, data: seq<Byte>, begin: bool, n: nat, after: nat)
    requires n == Taken(q, |data|) < |data| && after == q + |Fragment(frame, q, data, begin)|
    requires Agrees(file, q, Emit(frame, q, data, begin))
    ensures Agrees(file, q, Fragment(frame, q, data, begin))
    ensures Agrees(file, after, Emit(frame, after, data[n..], false))
  {
    AgreesParts(file, q, Fragment(frame, q, data, begin), Emit(frame, after, data[n..], false));
  }

  /** What the reader makes of a fragment's type: it collects exactly the data. */
  lemma AbsorbFragment(begin: bool, end: bool, part: seq<Byte>, scratch: seq<Byte>)
    requires begin ==> scratch == []
    ensures Absorb(Got(FragmentType(begin, end).Code(), part), !begin, scratch)
         == if end then Stop(Some(scratch + part), 0) else GoOn(true, scratch + part, 0)
  {
    assert begin ==> scratch + part == part;
  }

  lemma RejoinedScratch(scratch: seq<Byte>, data: seq<Byte>, n: nat)
    requires n <= |data|
    ensures scratch + data[..n] + data[n..] == scratch + data
    ensures n == |data| ==> data[..n] == data
  {
  }

  lemma ReportNothing(r: Result)
    ensures Report(0, r) == r
  {
  }

  lemma FirstFragment(next: Stream, size: nat, q: nat, data: seq<Byte>, begin: bool, n: nat, after: nat)
    requires n == Taken(q, |data|) && after == q + PadLength(q) + HEADER_SIZE + n
    requires Delivers(next, size, q, data, begin)
    ensures next(q) == StepTo(FragmentType(begin, n == |data|), data[..n], after, size)
    ensures n < |data| && after <= size ==> Delivers(next, size, after, data[n..], false)
    ensures EndOf(q, data) == if n == |data| then after else EndOf(after, data[n..])
  {
  }

  /** One turn of ReadRecord's loop on a fragment the file holds. */
  lemma ReadFragment(next: Stream, size: nat, q: nat, begin: bool, end: bool, part: seq<Byte>, after: nat,
                     scratch: seq<Byte>)
    requires WellBehaved(next, size) && q <= size && after <= size && (begin ==> scratch == [])
    requires next(q) == Step(Got(FragmentType(begin, end).Code(), part), after, 0)
    ensures ReadFrom(next, size, q, !begin, scratch)
         == if end then Result(Some(scratch + part), after, 0) else ReadFrom(next, size, after, true, scratch + part)
  {
    AbsorbFragment(begin, end, part, scratch);
    if !end {
      ReportNothing(ReadFrom(next, size, after, true, scratch + part));
    }
  }

  /** From fragments to the record: all of it when the file holds all of it, else nothing,
      and never a report. */
  lemma {:induction false} RecordReads(next: Stream, size: nat, q: nat, data: seq<Byte>, begin: bool,
                                       scratch: seq<Byte>)
    requires WellBehaved(next, size) && q <= size && Delivers(next, size, q, data, begin) && (begin ==> scratch == [])
    ensures ReadFrom(next, size, q, !begin, scratch)
         == if EndOf(q, data) <= size then Result(Some(scratch + data), EndOf(q, data), 0) else Result(None, size, 0)
    decreases |data|, Leftover(q + PadLength(q)) == HEADER_SIZE
  {
    var n := Taken(q, |data|);
    var after := q + PadLength(q) + HEADER_SIZE + n;
    FirstFragment(next, size, q, data, begin, n, after);
    RejoinedScratch(scratch, data, n);
    if after <= size {
      ReadFragment(next, size, q, begin, n == |data|, data[..n], after, scratch);
      if n < |data| {
        TakenFillsBlock(q, |data|);
        RecordReads(next, size, after, data[n..], false, scratch + data[..n]);
      }
    } else if n < |data| {
      EndIsLater(after, data[n..]);
    }
  }

  lemma {:induction false} EndIsLater(q: nat, data: seq<Byte>)
    ensures q < EndOf(q, data)
    decreases |data|, Leftover(q + PadLength(q)) == HEADER_SIZE
  {
    var n := Taken(q, |data|);
    if n < |data| {
      TakenFillsBlock(q, |data|);
      EndIsLater(q + PadLength(q) + HEADER_SIZE + n, data[n..]);
    }
  }

  // ---- Whole files ----

  /** The stream delivers these records one after the other and then ends. */
  ghost predicate DeliversAll(next: Stream, size: nat, q: nat, records: seq<seq<Byte>>)
    decreases |records|
  {
    if records == [] then q <= size ==> q == size && next(q) == Step(Eof, size, 0)
    else
      && Delivers(next, size, q, records[0], true)
      && (EndOf(q, records[0]) <= size ==> DeliversAll(next, size, EndOf(q, records[0]), records[1..]))
  }

  /** How many of the records the file holds completely. */
  ghost function Complete(size: nat, q: nat, records: seq<seq<Byte>>): (k: nat)
    ensures k <= |records|
    decreases |records|
  {
    if records == [] || EndOf(q, records[0]) > size then 0
    else 1 + Complete(size, EndOf(q, records[0]), records[1..])
  }

  lemma EncodeParts(frame: Framing, file: seq<Byte>, q: nat, records: seq<seq<Byte>>)
    requires records != [] && Agrees(file, q, Encode(frame, q, records))
    ensures var after := EndOf(q, records[0]);
            && Agrees(file, q, Emit(frame, q, records[0], true))
            && Agrees(file, after, Encode(frame, after, records[1..]))
            && q + |Encode(frame, q, records)| == after + |Encode(frame, after, records[1..])|
  {
    var first := Emit(frame, q, records[0], true);
    EmitEndsAt(frame, q, records[0], true);
    AgreesParts(file, q, first, Encode(frame, q + |first|, records[1..]));
  }

  lemma DeliversFirst(next: Stream, size: nat, q: nat, records: seq<seq<Byte>>)
    requires records != [] && Delivers(next, size, q, records[0], true)
    requires EndOf(q, records[0]) <= size ==> DeliversAll(next, size, EndOf(q, records[0]), records[1..])
    ensures DeliversAll(next, size, q, records)
  {
  }

  lemma StreamEnds(sum: Checksum, file: seq<Byte>)
    ensures StreamOf(sum, file)(|file|) == Step(Eof, |file|, 0)
  {
  }

  lemma {:induction false} FileDelivers(frame: Framing, next: Stream, file: seq<Byte>, q: nat, records: seq<seq<Byte>>)
    requires q <= |file| <= q + |Encode(frame, q, records)| && Agrees(file, q, Encode(frame, q, records))
    requires Understands(frame, next, file) && next(|file|) == Step(Eof, |file|, 0)
    ensures DeliversAll(next, |file|, q, records)
    decreases |records|
  {
    if records != [] {
      EncodeParts(frame, file, q, records);
      BytesDeliver(frame, next, file, q, records[0], true);
      if EndOf(q, records[0]) <= |file| {
        FileDelivers(frame, next, file, EndOf(q, records[0]), records[1..]);
      }
      DeliversFirst(next, |file|, q, records);
    }
  }

  /** The first k records are read, and nothing is reported. */
  ghost predicate ReadsBack(next: Stream, size: nat, q: nat, records: seq<seq<Byte>>, k: nat)
    requires WellBehaved(next, size) && q <= size && k <= |records|
  {
    var all := ReadAll(next, size, q);
    all.0 == records[..k] && all.1 == 0
  }

  lemma {:induction false} StreamReads(next: Stream, size: nat, q: nat, records: seq<seq<Byte>>)
    requires WellBehaved(next, size) && q <= size && DeliversAll(next, size, q, records)
    ensures ReadsBack(next, size, q, records, Complete(size, q, records))
    decreases |records|
  {
    if records != [] {
      var after := EndOf(q, records[0]);
      RecordReads(next, size, q, records[0], true, []);
      EndIsLater(q, records[0]);
      PrefixStep(records[0], records);
      if after <= size {
        StreamReads(next, size, after, records[1..]);
      }
    }
  }

  lemma PrefixStep(first: seq<Byte>, records: seq<seq<Byte>>)
    requires records != [] && first == records[0]
    ensures [] + first == first
    ensures forall k :: 0 <= k <= |records| - 1 ==> [first] + records[1..][..k] == records[..k + 1]
  {
  }

  /** Crash: records written from offset q on, in a file cut off anywhere after q, read back
      as those the file holds completely, in order, without a corruption report. */
  lemma CrashPrefix(sum: Checksum, file: seq<Byte>, q: nat, records: seq<seq<Byte>>)
    requires q <= |file| <= q + |Encode(FramingOf(sum), q, records)|
             && Agrees(file, q, Encode(FramingOf(sum), q, records))
    ensures ReadsBack(StreamOf(sum, file), |file|, q, records, Complete(|file|, q, records))
  {
    ReaderUnderstands(sum, file);
    StreamEnds(sum, file);
    FileDelivers(FramingOf(sum), StreamOf(sum, file), file, q, records);
    StreamReads(StreamOf(sum, file), |file|, q, records);
  }

  lemma {:induction false} AllComplete(frame: Framing, size: nat, q: nat, records: seq<seq<Byte>>)
    requires size == q + |Encode(frame, q, records)|
    ensures Complete(size, q, records) == |records|
    decreases |records|
  {
    if records != [] {
      EmitEndsAt(frame, q, records[0], true);
      EncodeIsLonger(frame, q, records);
      AllComplete(frame, size, EndOf(q, records[0]), records[1..]);
    }
  }

  lemma EncodeIsLonger(frame: Framing, q: nat, records: seq<seq<Byte>>)
    requires records != [] && q + |Emit(frame, q, records[0], true)| == EndOf(q, records[0])
    ensures var after := EndOf(q, records[0]);
            q + |Encode(frame, q, records)| == after + |Encode(frame, after, records[1..])|
  {
  }

  /** Round trip: with nothing cut off, the records read back exactly. */
  lemma RoundTrip(sum: Checksum, file: seq<Byte>, q: nat, records: seq<seq<Byte>>)
    requires |file| == q + |Encode(FramingOf(sum), q, records)| && Agrees(file, q, Encode(FramingOf(sum), q, records))
    ensures ReadAll(StreamOf(sum, file), |file|, q) == (records, 0)
  {
    CrashPrefix(sum, file, q, records);
    AllComplete(FramingOf(sum), |file|, q, records);
    ReadsBackWhole(StreamOf(sum, file), |file|, q, records);
  }

  lemma ReadsBackWhole(next: Stream, size: nat, q: nat, records: seq<seq<Byte>>)
    requires WellBehaved(next, size) && q <= size && ReadsBack(next, size, q, records, |records|)
    ensures ReadAll(next, size, q) == (records, 0)
  {
    assert records[..|records|] == records;
  }

  /** What a client that calls ReadRecord in a loop still has to see. */
  ghost predicate StillToRead(goal: (seq<seq<Byte>>, nat), next: Stream, size: nat, records: seq<seq<Byte>>, q: nat,
                              reports: nat)
    requires WellBehaved(next, size) && q <= size
  {
    var rest := ReadAll(next, size, q);
    goal.0 == records + rest.0 && goal.1 == reports + rest.1
  }

  lemma ReadOn(goal: (seq<seq<Byte>>, nat), next: Stream, size: nat, records: seq<seq<Byte>>, q: nat, reports: nat)
    requires WellBehaved(next, size) && q <= size && StillToRead(goal, next, size, records, q, reports)
    ensures var r := ReadFrom(next, size, q, false, []);
            match r.record
            case None => goal == (records, reports + r.reports)
            case Some(data) => StillToRead(goal, next, size, records + [data], r.next, reports + r.reports)
  {
    var r := ReadFrom(next, size, q, false, []);
    match r.record
    case None =>
      assert records + [] == records;
    case Some(data) =>
      var rest := ReadAll(next, size, r.next);
      assert records + ([data] + rest.0) == records + [data] + rest.0;
  }

  /** A client that reads a log file to its end. */
  method ReadFile(sum: Checksum, file: seq<Byte>) returns (records: seq<seq<Byte>>, reports: nat)
    ensures (records, reports) == ReadAll(StreamOf(sum, file), |file|, 0)
  {
    var reader := new Reader(sum, file);
    records := [];
    ghost var goal := ReadAll(StreamOf(sum, file), |file|, 0);
    assert [] + goal.0 == goal.0;
    var done := false;
    while !done
      invariant reader.Valid() && reader.sum == sum && reader.file == file
      invariant Progress(goal, reader, records, done)
      decreases !done, |file| - reader.Offset()
    {
      done, records := ReadNext(reader, records, goal);
    }
    reports := reader.reports;
  }

  /** The client has read everything, or what is missing comes from the reader's offset on. */
  ghost predicate Progress(goal: (seq<seq<Byte>>, nat), reader: Reader, records: seq<seq<Byte>>, done: bool)
    requires reader.Valid()
    reads reader
  {
    if done then goal == (records, reader.reports)
    else StillToRead(goal, StreamOf(reader.sum, reader.file), |reader.file|, records, reader.Offset(), reader.reports)
  }

  method ReadNext(reader: Reader, records: seq<seq<Byte>>, ghost goal: (seq<seq<Byte>>, nat))
      returns (done: bool, grown: seq<seq<Byte>>)
    requires reader.Valid() && Progress(goal, reader, records, false)
    modifies reader
    ensures reader.Valid() && Progress(goal, reader, grown, done)
    ensures !done ==> old(reader.Offset()) < reader.Offset()
  {
    ReadOn(goal, StreamOf(reader.sum, reader.file), |reader.file|, records, reader.Offset(), reader.reports);
    var record := reader.ReadRecord();
    match record
    case None => return true, records;
    case Some(data) => return false, records + [data];
  }

  /** A writer's file, cut off anywhere by a crash, and read again: a prefix of the records
      comes back, all of them if nothing was cut off, and no corruption is reported. */
  method WriteCrashRead(sum: Checksum, records: seq<seq<Byte>>, cut: nat) returns (got: seq<seq<Byte>>, reports: nat)
    ensures got <= records && reports == 0
    ensures |Encode(FramingOf(sum), 0, records)| <= cut ==> got == records
  {
    var w := new LogWriter.Writer(sum, []);
    LogWriter.WriteAll(w, records);
    var file := w.dest;
    if cut < |file| {
      file := file[..cut];
    }
    CrashPrefix(sum, file, 0, records);
    got, reports := ReadFile(sum, file);
    if |file| == |w.dest| {
      RoundTrip(sum, file, 0, records);
    }
  }
}
