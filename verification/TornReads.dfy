/** What is read of a log file behind an append that failed: the reader rejects the tear, drops
    the rest of its block, and goes on wherever the next block begins. That place depends on
    file offsets only, not on where the writer put its records. */
module TornReads {
  import opened Wrappers
  import opened LogFormat
  import opened LogWriter
  import opened LogReader
  import opened LogRoundTrip
  import opened LogPrefixes
  import opened TornLogs

  /** The end of the block in which the reader at offset g looks. */
  function Resume(g: nat): nat { BlockEnd(Here(g)) }

  /** The reader finds no physical record at g. */
  predicate Rejected(sum: Checksum, file: seq<Byte>, g: nat)
    requires g <= |file|
  {
    !NextPhysical(sum, file, g).outcome.Got?
  }

  lemma ResumesAtBlock(g: nat)
    ensures Leftover(Resume(g)) == BLOCK_SIZE && PadLength(Resume(g)) == 0 && g <= Resume(g)
  {
    LeftoverAhead(Here(g), Leftover(Here(g)));
  }

  /** A rejected place costs the rest of its block. */
  lemma RejectedStep(sum: Checksum, file: seq<Byte>, g: nat)
    requires g <= |file| && Rejected(sum, file, g)
    ensures var s := NextPhysical(sum, file, g);
            if Resume(g) <= |file| then s.outcome == Bad && s.next == Resume(g)
            else s.outcome == Eof || (s.outcome == Bad && s.next == |file|)
  {
    ResumesAtBlock(g);
    LeftoverAhead(g, Leftover(g));
  }

  lemma AtTheEnd(sum: Checksum, file: seq<Byte>, q: nat, inFragment: bool, scratch: seq<Byte>)
    requires q == |file| || (q <= |file| < q + HEADER_SIZE && Leftover(q) == BLOCK_SIZE)
    ensures ReadFrom(StreamOf(sum, file), |file|, q, inFragment, scratch).record == None
  {
    assert NextPhysical(sum, file, q).outcome == Eof;
  }

  /** The same record as from the next block on, if the file reaches it. */
  ghost predicate Restarts(sum: Checksum, file: seq<Byte>, g: nat, r: Result) {
    if Resume(g) <= |file| then
      var b := ReadFrom(StreamOf(sum, file), |file|, Resume(g), false, []);
      r.record == b.record && r.next == b.next
    else r.record == None
  }

  /** One record: reading on from a rejected place is reading afresh from the next block, with
      nothing collected any more. */
  lemma RejectedRead(sum: Checksum, file: seq<Byte>, g: nat, inFragment: bool, scratch: seq<Byte>)
    requires g <= |file| && Rejected(sum, file, g) && (!inFragment ==> scratch == [])
    ensures Restarts(sum, file, g, ReadFrom(StreamOf(sum, file), |file|, g, inFragment, scratch))
  {
    RejectedStep(sum, file, g);
    ReadFromUnfolds(sum, file, g, inFragment, scratch);
    if Resume(g) > |file| {
      AtTheEnd(sum, file, |file|, false, []);
    }
  }

  /** What is read from the next block on, if the file reaches it. */
  ghost function FromNextBlock(sum: Checksum, file: seq<Byte>, g: nat): seq<seq<Byte>> {
    if Resume(g) <= |file| then ReadAll(StreamOf(sum, file), |file|, Resume(g)).0 else []
  }

  ghost function ReadsFrom(sum: Checksum, file: seq<Byte>, q: nat): seq<seq<Byte>>
    requires q <= |file|
  {
    ReadAll(StreamOf(sum, file), |file|, q).0
  }

  /** All records: behind a rejected place there is just what the following blocks hold. */
  lemma RejectedReads(sum: Checksum, file: seq<Byte>, g: nat)
    requires g <= |file| && Rejected(sum, file, g)
    ensures ReadsFrom(sum, file, g) == FromNextBlock(sum, file, g)
  {
    RejectedRead(sum, file, g, false, []);
  }

  /** A file that does not reach a header in the next block holds nothing more. */
  lemma NothingBehind(sum: Checksum, file: seq<Byte>, g: nat)
    requires |file| < Resume(g) + HEADER_SIZE
    ensures FromNextBlock(sum, file, g) == []
  {
    ResumesAtBlock(g);
    if Resume(g) <= |file| {
      AtTheEnd(sum, file, Resume(g), false, []);
    }
  }

  // ---- Before the tear ----

  lemma {:induction false} RecordIsNext(sum: Checksum, file: seq<Byte>, q: nat, data: seq<Byte>)
    requires q + |Emit(FramingOf(sum), q, data, true)| <= |file| && Agrees(file, q, Emit(FramingOf(sum), q, data, true))
    ensures EndOf(q, data) == q + |Emit(FramingOf(sum), q, data, true)|
    ensures ReadFrom(StreamOf(sum, file), |file|, q, false, []) == Result(Some(data), EndOf(q, data), 0)
  {
    ReaderUnderstands(sum, file);
    EmitEndsAt(FramingOf(sum), q, data, true);
    BytesDeliver(FramingOf(sum), StreamOf(sum, file), file, q, data, true);
    RecordReads(StreamOf(sum, file), |file|, q, data, true, []);
    assert [] + data == data;
  }

  lemma FirstThenRest(sum: Checksum, file: seq<Byte>, q: nat, data: seq<Byte>, after: nat)
    requires q + |Emit(FramingOf(sum), q, data, true)| <= |file| && Agrees(file, q, Emit(FramingOf(sum), q, data, true))
    requires after == EndOf(q, data)
    ensures after <= |file| && ReadsFrom(sum, file, q) == [data] + ReadsFrom(sum, file, after)
  {
    RecordIsNext(sum, file, q, data);
  }

  lemma EncodeParted(frame: Framing, file: seq<Byte>, q: nat, records: seq<seq<Byte>>, after: nat)
    requires records != [] && after == EndOf(q, records[0])
    requires q + |Encode(frame, q, records)| <= |file| && Agrees(file, q, Encode(frame, q, records))
    ensures q + |Emit(frame, q, records[0], true)| <= |file| && Agrees(file, q, Emit(frame, q, records[0], true))
    ensures Agrees(file, after, Encode(frame, after, records[1..]))
    ensures after + |Encode(frame, after, records[1..])| == q + |Encode(frame, q, records)|
  {
    EmitEndsAt(frame, q, records[0], true);
    EncodeParts(frame, file, q, records);
  }

  /** Records that were written completely are read, and reading goes on right behind them. */
  lemma {:induction false} EarlierThenRest(sum: Checksum, file: seq<Byte>, q: nat, records: seq<seq<Byte>>, end: nat)
    requires end == q + |Encode(FramingOf(sum), q, records)| <= |file|
             && Agrees(file, q, Encode(FramingOf(sum), q, records))
    ensures ReadsFrom(sum, file, q) == records + ReadsFrom(sum, file, end)
    decreases |records|
  {
    if records == [] {
      assert [] + ReadsFrom(sum, file, q) == ReadsFrom(sum, file, q);
    } else {
      var after := EndOf(q, records[0]);
      EncodeParted(FramingOf(sum), file, q, records, after);
      FirstThenRest(sum, file, q, records[0], after);
      EarlierThenRest(sum, file, after, records[1..], end);
      Joined(records, ReadsFrom(sum, file, end));
    }
  }

  lemma Joined(records: seq<seq<Byte>>, rest: seq<seq<Byte>>)
    requires records != []
    ensures [records[0]] + (records[1..] + rest) == records + rest
  {
  }

  // ---- A tear inside a record ----

  /** Where the fragment that fails begins. */
  function TearAt(v: nat, size: nat, fragment: nat): nat
    decreases fragment
  {
    var n := Taken(v, size);
    if fragment == 0 || n == size then v else TearAt(v + PadLength(v) + HEADER_SIZE + n, size - n, fragment - 1)
  }

  /** A file that holds what a failing AddRecord left, up to the tear in step with the writer. */
  ghost predicate HoldsTorn(sum: Checksum, file: seq<Byte>, v: nat, data: seq<Byte>, begin: bool, fault: Fault) {
    var t := Tried(FramingOf(sum), v, data, begin, fault);
    fault.FaultAt? && !t.ok && v + |t.bytes| <= |file| && Agrees(file, v, t.bytes)
  }

  lemma TearGoesOn(v: nat, data: seq<Byte>, fault: Fault, n: nat, after: nat)
    requires fault.FaultAt? && fault.fragment > 0 && n == Taken(v, |data|) < |data|
             && after == v + PadLength(v) + HEADER_SIZE + n
    ensures fault.Later().FaultAt?
    ensures TearAt(v, |data|, fault.fragment) == TearAt(after, |data[n..]|, fault.Later().fragment)
  {
  }

  lemma TornGoesOn(sum: Checksum, file: seq<Byte>, v: nat, data: seq<Byte>, begin: bool, fault: Fault, n: nat,
                   after: nat)
    requires HoldsTorn(sum, file, v, data, begin, fault) && fault.fragment > 0
    requires n == Taken(v, |data|) && after == v + PadLength(v) + HEADER_SIZE + n
    ensures n < |data| && after <= |file| && HoldsTorn(sum, file, after, data[n..], false, fault.Later())
    ensures Leftover(after) == BLOCK_SIZE && PadLength(after) == 0
    ensures StreamOf(sum, file)(v) == Step(Got(FragmentType(begin, false).Code(), data[..n]), after, 0)
  {
    var frame := FramingOf(sum);
    var here := Fragment(frame, v, data, begin);
    assert n < |data|;
    TakenFillsBlock(v, |data|);
    AgreesParts(file, v, here, Tried(frame, after, data[n..], false, fault.Later()).bytes);
    ReaderUnderstands(sum, file);
    FragmentIsNext(frame, StreamOf(sum, file), file, v, data, begin);
  }

  /** Fragments before the tear are collected; where the tear is rejected they are given up. */
  lemma {:induction false} TornRecordRead(sum: Checksum, file: seq<Byte>, v: nat, data: seq<Byte>, begin: bool,
                                          fault: Fault, scratch: seq<Byte>, g: nat)
    requires HoldsTorn(sum, file, v, data, begin, fault) && (begin ==> scratch == [])
    requires g == TearAt(v, |data|, fault.fragment) <= |file| && Rejected(sum, file, g)
    ensures Restarts(sum, file, g, ReadFrom(StreamOf(sum, file), |file|, v, !begin, scratch))
    decreases fault.fragment, 0
  {
    if fault.fragment == 0 {
      RejectedRead(sum, file, g, !begin, scratch);
    } else {
      var n := Taken(v, |data|);
      var after := v + PadLength(v) + HEADER_SIZE + n;
      TornGoesOn(sum, file, v, data, begin, fault, n, after);
      TearGoesOn(v, data, fault, n, after);
      TornRestRead(sum, file, after, data[n..], fault.Later(), Collected(begin, scratch, data[..n]), g);
      CollectedFirst(sum, file, v, begin, data[..n], after, scratch, g);
    }
  }

  lemma {:induction false} TornRestRead(sum: Checksum, file: seq<Byte>, v: nat, rest: seq<Byte>, fault: Fault,
                                        scratch: seq<Byte>, g: nat)
    requires HoldsTorn(sum, file, v, rest, false, fault)
    requires g == TearAt(v, |rest|, fault.fragment) <= |file| && Rejected(sum, file, g)
    ensures Restarts(sum, file, g, ReadFrom(StreamOf(sum, file), |file|, v, true, scratch))
    decreases fault.fragment, 1
  {
    TornRecordRead(sum, file, v, rest, false, fault, scratch, g);
  }

  lemma CollectedFirst(sum: Checksum, file: seq<Byte>, v: nat, begin: bool, part: seq<Byte>, after: nat,
                       scratch: seq<Byte>, g: nat)
    requires v <= |file| && after <= |file|
    requires StreamOf(sum, file)(v) == Step(Got(FragmentType(begin, false).Code(), part), after, 0)
    requires Restarts(sum, file, g, ReadFrom(StreamOf(sum, file), |file|, after, true, Collected(begin, scratch, part)))
    ensures Restarts(sum, file, g, ReadFrom(StreamOf(sum, file), |file|, v, !begin, scratch))
  {
    OneTurn(StreamOf(sum, file), |file|, v, begin, false, part, after, !begin, scratch);
  }

  /** A log in which one append has failed and its tear is rejected: the records before it, and
      what the blocks behind the tear hold, wherever they begin to. */
  lemma TornLogReads(sum: Checksum, file: seq<Byte>, records: seq<seq<Byte>>, v: nat, data: seq<Byte>, fault: Fault,
                     g: nat)
    requires v == |Encode(FramingOf(sum), 0, records)| && Encode(FramingOf(sum), 0, records) <= file
    requires HoldsTorn(sum, file, v, data, true, fault)
    requires g == TearAt(v, |data|, fault.fragment) <= |file| && Rejected(sum, file, g)
    ensures Records(sum, file) == records + FromNextBlock(sum, file, g)
  {
    EarlierThenRest(sum, file, 0, records, v);
    TornRecordRead(sum, file, v, data, true, fault, [], g);
  }

  // ---- Physical records and records ----

  /** All records that reading on returns, in the middle of a record or not. */
  ghost function ReadsWith(next: Stream, size: nat, q: nat, inFragment: bool, scratch: seq<Byte>): seq<seq<Byte>>
    requires WellBehaved(next, size) && q <= size
  {
    var r := ReadFrom(next, size, q, inFragment, scratch);
    if r.record.Some? then [r.record.value] + ReadAll(next, size, r.next).0 else []
  }

  lemma ReadsWithStep(next: Stream, size: nat, q: nat, inFragment: bool, scratch: seq<Byte>)
    requires WellBehaved(next, size) && q <= size && !next(q).outcome.ActsAsEof()
    ensures match Absorb(next(q).outcome, inFragment, scratch)
            case Stop(record, _) =>
              record.Some?
                && ReadsWith(next, size, q, inFragment, scratch) == [record.value] + ReadsWith(next, size,
                next(q).next, false, [])
            case GoOn(in', scratch', _) =>
              ReadsWith(next, size, q, inFragment, scratch) == ReadsWith(next, size, next(q).next, in', scratch')
  {
  }

  /** A complete record in one fragment that the reader is delivered is one of those it returns. */
  lemma {:induction false} DeliveredIsReturned(next: Stream, size: nat, q: nat, inFragment: bool, scratch: seq<Byte>,
      x: nat, payload: seq<Byte>)
    requires WellBehaved(next, size) && q <= size && DeliversAt(next, size, q, x, GotAt(x, Full, payload))
    ensures payload in ReadsWith(next, size, q, inFragment, scratch)
    decreases size - q
  {
    if Here(q) == x && next(q) == GotAt(x, Full, payload) {
      assert Absorb(next(q).outcome, inFragment, scratch).record == Some(payload);
    } else {
      ReadsWithStep(next, size, q, inFragment, scratch);
      match Absorb(next(q).outcome, inFragment, scratch)
      case Stop(_, _) => DeliveredIsReturned(next, size, next(q).next, false, [], x, payload);
      case GoOn(in', scratch', _) => DeliveredIsReturned(next, size, next(q).next, in', scratch', x, payload);
    }
  }

  /** So is what NextRecordReadIff says to be delivered. */
  lemma DeliveredIsInRecords(sum: Checksum, file: seq<Byte>, records: seq<seq<Byte>>, g: nat, x: nat,
                             payload: seq<Byte>)
    requires g == |Encode(FramingOf(sum), 0, records)| && Encode(FramingOf(sum), 0, records) <= file
    requires DeliversAt(StreamOf(sum, file), |file|, g, x, GotAt(x, Full, payload))
    ensures payload in Records(sum, file)
  {
    EarlierThenRest(sum, file, 0, records, g);
    DeliveredIsReturned(StreamOf(sum, file), |file|, g, false, [], x, payload);
  }
}
