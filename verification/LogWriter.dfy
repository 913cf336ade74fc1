/** log::Writer of db/log_writer.cc. */
module LogWriter {
  import opened Wrappers
  import opened LogFormat

  /** What the file does during one AddRecord: it takes everything, or the write of one of the
      fragments fails after some of its bytes. */
  datatype Fault = NoFault | FaultAt(fragment: nat, bytes: nat)
  {
    predicate Now() { FaultAt? && fragment == 0 }
    function Bytes(): Option<nat> { if Now() then Some(bytes) else None }
    function Later(): Fault { if FaultAt? && fragment > 0 then FaultAt(fragment - 1, bytes) else this }
  }

  datatype Attempt = Attempt(bytes: seq<Byte>, offset: nat, ok: bool)

  function Cut(bytes: seq<Byte>, k: nat): seq<Byte> { if k <= |bytes| then bytes[..k] else bytes }

  /** What AddRecord leaves in the file, and where the writer believes to be afterwards: behind
      the failed fragment, as if it had been written. */
  function Tried(frame: Framing, v: nat, data: seq<Byte>, begin: bool, fault: Fault): Attempt
    decreases |data|, Leftover(v + PadLength(v)) == HEADER_SIZE
  {
    var n := Taken(v, |data|);
    var here := Fragment(frame, v, data, begin);
    if fault.Now() then Attempt(Cut(here, fault.bytes), v + |here|, false)
    else if n == |data| then Attempt(here, v + |here|, true)
    else
      assert Leftover(v + |here|) == BLOCK_SIZE by { TakenFillsBlock(v, |data|); }
      var rest := Tried(frame, v + |here|, data[n..], false, fault.Later());
      rest.(bytes := here + rest.bytes)
  }

  lemma OnlyFragment(frame: Framing, v: nat, data: seq<Byte>, begin: bool)
    requires Taken(v, |data|) == |data|
    ensures Tried(frame, v, data, begin, NoFault)
         == Attempt(Emit(frame, v, data, begin), v + |Emit(frame, v, data, begin)|, true)
  {
  }

  lemma FragmentAndRest(frame: Framing, v: nat, data: seq<Byte>, begin: bool, v': nat, data': seq<Byte>)
    requires var n := Taken(v, |data|); n < |data| && v' == v + |Fragment(frame, v, data, begin)| && data' == data[n..]
    requires var e := Emit(frame, v', data', false);
             Tried(frame, v', data', false, NoFault) == Attempt(e, v' + |e|, true)
    ensures Tried(frame, v, data, begin, NoFault)
         == Attempt(Emit(frame, v, data, begin), v + |Emit(frame, v, data, begin)|, true)
  {
    assert NoFault.Later() == NoFault;
  }

  lemma {:induction false} NoFaultTries(frame: Framing, v: nat, data: seq<Byte>, begin: bool)
    ensures Tried(frame, v, data, begin, NoFault)
         == Attempt(Emit(frame, v, data, begin), v + |Emit(frame, v, data, begin)|, true)
    decreases |data|, Leftover(v + PadLength(v)) == HEADER_SIZE
  {
    var n := Taken(v, |data|);
    if n == |data| {
      OnlyFragment(frame, v, data, begin);
    } else {
      var v', data' := v + |Fragment(frame, v, data, begin)|, data[n..];
      TakenFillsBlock(v, |data|);
      NoFaultTries(frame, v', data', false);
      FragmentAndRest(frame, v, data, begin, v', data');
    }
  }

  class Writer {
    const sum: Checksum
    var dest: seq<Byte>
    var blockOffset: nat
    ghost var offset: nat

    /** block_offset_ follows the offset the writer believes to be at, which is the length of
        the file until a write fails; a block just filled may still count as offset kBlockSize. */
    ghost predicate Valid()
      reads this
    {
      && blockOffset <= BLOCK_SIZE
      && Leftover(offset) == if blockOffset == BLOCK_SIZE then BLOCK_SIZE else BLOCK_SIZE - blockOffset
    }

    /** Writer(dest, dest_length): also used to go on with a reused file. */
    constructor (sum: Checksum, dest: seq<Byte>)
      ensures Valid() && this.sum == sum && this.dest == dest && offset == |dest|
    {
      this.sum, this.dest, offset := sum, dest, |dest|;
      blockOffset := |dest| % BLOCK_SIZE;
      LeftoverIsRemainder(|dest|);
    }

    /** Appends header and payload, after a trailer still in the file's buffer; block_offset_
        moves on even when the file takes only some of the bytes. */
    method EmitPhysicalRecord(trailer: seq<Byte>, t: RecordType, payload: seq<Byte>, fault: Option<nat>)
        returns (ok: bool)
      requires Valid() && blockOffset + HEADER_SIZE + |payload| <= BLOCK_SIZE
      modifies this
      ensures Valid() && offset == old(offset) + HEADER_SIZE + |payload| && ok == fault.None?
      ensures var bytes := trailer + Physical(sum, t, payload);
              dest == old(dest) + if fault.Some? then Cut(bytes, fault.value) else bytes
    {
      var crc := sum.Extend(sum.Value([t.Code()]), payload);
      var header := EncodeFixed32(Mask(crc)) + [|payload| % 256, |payload| / 256 % 256, t.Code()];
      var bytes := trailer + (header + payload);
      dest := dest + if fault.Some? then Cut(bytes, fault.value) else bytes;
      LeftoverAhead(offset, HEADER_SIZE + |payload|);
      blockOffset := blockOffset + HEADER_SIZE + |payload|;
      offset := offset + HEADER_SIZE + |payload|;
      ok := fault.None?;
    }

    /** Switch to a new block when no header fits. */
    method FillTrailer() returns (trailer: seq<Byte>)
      requires Valid()
      modifies this`blockOffset, this`offset
      ensures Valid() && HEADER_SIZE <= BLOCK_SIZE - blockOffset
      ensures trailer == Zeros(PadLength(old(offset))) && offset == old(offset) + |trailer|
      ensures BLOCK_SIZE - blockOffset == Leftover(offset)
    {
      var leftover := BLOCK_SIZE - blockOffset;
      LeftoverAhead(offset, Leftover(offset));
      trailer := [];
      if leftover < HEADER_SIZE {
        trailer := Zeros(leftover);
        blockOffset := 0;
        offset := offset + leftover;
      }
    }

    /** One turn of AddRecord's loop. */
    method EmitFragment(left: seq<Byte>, begin: bool, fault: Option<nat>) returns (rest: seq<Byte>, end: bool, ok: bool)
      requires Valid()
      modifies this
      ensures Valid() && ok == fault.None?
      ensures var here := Fragment(FramingOf(sum), old(offset), left, begin);
              && dest == old(dest) + (if fault.Some? then Cut(here, fault.value) else here)
              && offset == old(offset) + |here|
      ensures rest == left[Taken(old(offset), |left|)..] && end == (Taken(old(offset), |left|) == |left|)
    {
      var trailer := FillTrailer();
      var avail := BLOCK_SIZE - blockOffset - HEADER_SIZE;
      var n := if |left| < avail then |left| else avail;
      end := |left| == n;
      ok := EmitPhysicalRecord(trailer, FragmentType(begin, end), left[..n], fault);
      rest := left[n..];
    }

    /** EmitFragment, towards a goal. */
    method Turn(left: seq<Byte>, begin: bool, fault: Fault, ghost frame: Framing, ghost goal: Attempt)
        returns (rest: seq<Byte>, done: bool, ok: bool)
      requires Valid() && frame == FramingOf(sum) && Pending(frame, dest, offset, left, begin, fault, goal)
      modifies this
      ensures Valid()
      ensures done ==> goal == Attempt(dest, offset, ok)
      ensures !done ==> ok && Pending(frame, dest, offset, rest, false, fault.Later(), goal)
      ensures !done ==>
                |rest| < |left|
                || (|rest| == |left| && Leftover(old(offset) + PadLength(old(offset))) == HEADER_SIZE)
      ensures !done ==> Leftover(offset + PadLength(offset)) == BLOCK_SIZE
    {
      ghost var was, at := dest, offset;
      TriedUnfolds(frame, was, at, left, begin, fault, goal);
      var end;
      rest, end, ok := EmitFragment(left, begin, fault.Bytes());
      done := end || !ok;
      if !done {
        TakenFillsBlock(at, |left|);
      }
    }

    /** The file grows by the bytes of the record, or by what a failing write lets through. */
    method AddRecord(slice: seq<Byte>, fault: Fault) returns (ok: bool)
      requires Valid()
      modifies this
      ensures Valid()
      ensures var t := Tried(FramingOf(sum), old(offset), slice, true, fault);
              dest == old(dest) + t.bytes && offset == t.offset && ok == t.ok
    {
      var left, begin, ahead, done := slice, true, fault, false;
      ok := true;
      ghost var frame := FramingOf(sum);
      ghost var goal := Then(dest, Tried(frame, offset, slice, true, fault));
      while !done
        invariant Valid() && frame == FramingOf(sum)
        invariant if done then goal == Attempt(dest, offset, ok)
                  else Pending(frame, dest, offset, left, begin, ahead, goal)
        decreases !done, |left|, Leftover(offset + PadLength(offset)) == HEADER_SIZE
      {
        left, done, ok := Turn(left, begin, ahead, frame, goal);
        begin, ahead := false, ahead.Later();
      }
    }
  }

  function Then(dest: seq<Byte>, t: Attempt): Attempt { t.(bytes := dest + t.bytes) }

  /** The file still lacks what is left of the record, as far as it will take it. */
  ghost predicate Pending(frame: Framing, dest: seq<Byte>, v: nat, left: seq<Byte>, begin: bool, fault: Fault,
                          goal: Attempt) {
    goal == Then(dest, Tried(frame, v, left, begin, fault))
  }

  /** One turn: the fragment fails, or ends the record, or is followed by the rest. */
  lemma TriedUnfolds(frame: Framing, dest: seq<Byte>, v: nat, left: seq<Byte>, begin: bool, fault: Fault, goal: Attempt)
    requires Pending(frame, dest, v, left, begin, fault, goal)
    ensures var here, n := Fragment(frame, v, left, begin), Taken(v, |left|);
            if fault.Now() then goal == Attempt(dest + Cut(here, fault.bytes), v + |here|, false)
            else if n == |left| then goal == Attempt(dest + here, v + |here|, true)
            else Pending(frame, dest + here, v + |here|, left[n..], false, fault.Later(), goal)
  {
    var here, n := Fragment(frame, v, left, begin), Taken(v, |left|);
    if !fault.Now() && n < |left| {
      TakenFillsBlock(v, |left|);
      var rest := Tried(frame, v + |here|, left[n..], false, fault.Later());
      assert dest + (here + rest.bytes) == dest + here + rest.bytes;
    }
  }

  /** Writing a list of records to a file that takes them all. */
  method WriteAll(w: Writer, records: seq<seq<Byte>>)
    requires w.Valid() && w.offset == |w.dest|
    modifies w
    ensures w.Valid() && w.offset == |w.dest|
    ensures w.dest == old(w.dest) + Encode(FramingOf(w.sum), |old(w.dest)|, records)
  {
    ghost var goal := w.dest + Encode(FramingOf(w.sum), |w.dest|, records);
    for i := 0 to |records|
      invariant w.Valid() && w.offset == |w.dest|
      invariant w.dest + Encode(FramingOf(w.sum), |w.dest|, records[i..]) == goal
    {
      EncodeUnfolds(FramingOf(w.sum), w.dest, records, i);
      NoFaultTries(FramingOf(w.sum), w.offset, records[i], true);
      var ok := w.AddRecord(records[i], NoFault);
    }
  }

  lemma EncodeUnfolds(frame: Framing, dest: seq<Byte>, records: seq<seq<Byte>>, i: nat)
    requires i < |records|
    ensures var grown := dest + Emit(frame, |dest|, records[i], true);
            dest + Encode(frame, |dest|, records[i..]) == grown + Encode(frame, |grown|, records[i + 1..])
  {
    var first := Emit(frame, |dest|, records[i], true);
    assert records[i..][1..] == records[i + 1..];
    Regroup(dest, first, Encode(frame, |dest| + |first|, records[i + 1..]), Encode(frame, |dest|, records[i..]));
  }
}
