/** log::Reader of db/log_reader.cc, reading from the start of the file. */
module LogReader {
  import opened Wrappers
  import opened LogFormat

  /** What ReadPhysicalRecord returns: kEof, kBadRecord, or a type byte and a payload. The
      first two share their codes with type bytes. */
  datatype Outcome = Eof | Bad | Got(code: Byte, payload: seq<Byte>)
  {
    /** ReadRecord cannot tell a type byte of 5 from kEof, nor one of 6 from kBadRecord. */
    predicate ActsAsEof() { Eof? || (Got? && code == 5) }
    predicate ActsAsBad() { Bad? || (Got? && code == 6) }
  }

  /** An outcome, the file offset to go on from, and how many corruptions were reported. */
  datatype Step = Step(outcome: Outcome, next: nat, reports: nat)

  /** The end of the block that contains offset q. */
  function BlockEnd(q: nat): nat { q + Leftover(q) }

  /** The end of what the reader's buffer can hold at offset q. */
  function BufferEnd(file: seq<Byte>, q: nat): nat {
    if BlockEnd(q) <= |file| then BlockEnd(q) else |file|
  }

  /** The second half of ReadPhysicalRecord: a header is in the buffer. */
  function ParseAt(sum: Checksum, file: seq<Byte>, q: nat): (s: Step)
    requires q + HEADER_SIZE <= BufferEnd(file, q)
    ensures s.next <= |file| && q < s.next
  {
    var length: nat := file[q + 4] as int + file[q + 5] as int * 256;
    var code := file[q + 6];
    var end := BufferEnd(file, q);
    if q + HEADER_SIZE + length > end then
      if BlockEnd(q) <= |file| then Step(Bad, end, 1) else Step(Eof, end, 0)
    else if code == 0 && length == 0 then Step(Bad, end, 0)
    else if Unmask(DecodeFixed32(file[q..q + 4])) != sum.Value(file[q + 6..q + HEADER_SIZE + length]) then Step(Bad,
      end, 1)
    else Step(Got(code, file[q + HEADER_SIZE..q + HEADER_SIZE + length]), q + HEADER_SIZE + length, 0)
  }

  /** ReadPhysicalRecord as a function of the file and the offset: a short rest of a full
      block is a trailer to skip, a short rest of the file is the end. */
  function NextPhysical(sum: Checksum, file: seq<Byte>, q: nat): (s: Step)
    requires q <= |file|
    ensures s.next <= |file|
    ensures s.outcome != Eof ==> q < s.next
  {
    if q + HEADER_SIZE <= BufferEnd(file, q) then ParseAt(sum, file, q)
    else if BlockEnd(q) <= |file| then
      var b := BlockEnd(q);
      if b + HEADER_SIZE <= BufferEnd(file, b) then ParseAt(sum, file, b) else Step(Eof, |file|, 0)
    else Step(Eof, |file|, 0)
  }

  /** What ReadRecord's switch does with a physical record: return, or go on collecting. */
  datatype Verdict =
    | Stop(record: Option<seq<Byte>>, reports: nat)
    | GoOn(inFragment: bool, scratch: seq<Byte>, reports: nat)

  function Absorb(outcome: Outcome, inFragment: bool, scratch: seq<Byte>): Verdict {
    var partial := if inFragment && scratch != [] then 1 else 0;
    if outcome.ActsAsEof() then Stop(None, 0)
    else if outcome.ActsAsBad() then (if inFragment then GoOn(false, [], 1) else GoOn(false, scratch, 0))
    else
      var code, fragment := outcome.code, outcome.payload;
      if code == Full.Code() then Stop(Some(fragment), partial)
      else if code == First.Code() then GoOn(true, fragment, partial)
      else if code == Middle.Code() then
        if inFragment then GoOn(true, scratch + fragment, 0) else GoOn(false, scratch, 1)
      else if code == Last.Code() then
        if inFragment then Stop(Some(scratch + fragment), 0) else GoOn(false, scratch, 1)
      else GoOn(false, [], 1)
  }

  datatype Result = Result(record: Option<seq<Byte>>, next: nat, reports: nat)

  function Report(n: nat, r: Result): Result { r.(reports := n + r.reports) }

  /** A file seen through ReadPhysicalRecord: what comes next at each offset. */
  type Stream = nat -> Step

  ghost predicate WellBehaved(next: Stream, size: nat) {
    forall q: nat :: q <= size ==> next(q).next <= size && (next(q).outcome != Eof ==> q < next(q).next)
  }

  function StreamOf(sum: Checksum, file: seq<Byte>): (next: Stream)
    ensures WellBehaved(next, |file|)
  {
    (q: nat) => if q <= |file| then NextPhysical(sum, file, q) else Step(Eof, |file|, 0)
  }

  /** ReadRecord as a function of the stream, the offset and the fragments collected so far. */
  ghost function ReadFrom(next: Stream, size: nat, q: nat, inFragment: bool, scratch: seq<Byte>): (r: Result)
    requires WellBehaved(next, size) && q <= size
    ensures r.next <= size
    ensures r.record.Some? ==> q < r.next
    decreases size - q
  {
    var s := next(q);
    match Absorb(s.outcome, inFragment, scratch)
    case Stop(record, reports) => Result(record, s.next, s.reports + reports)
    case GoOn(in', scratch', reports) => Report(s.reports + reports, ReadFrom(next, size, s.next, in', scratch'))
  }

  /** Calling ReadRecord until it returns false. */
  ghost function ReadAll(next: Stream, size: nat, q: nat): (all: (seq<seq<Byte>>, nat))
    requires WellBehaved(next, size) && q <= size
    decreases size - q
  {
    var r := ReadFrom(next, size, q, false, []);
    match r.record
    case None => ([], r.reports)
    case Some(record) =>
      var rest := ReadAll(next, size, r.next);
      ([record] + rest.0, r.reports + rest.1)
  }

  lemma SubSlice(file: seq<Byte>, a: nat, b: nat, i: nat, j: nat)
    requires a <= b <= |file| && i <= j <= b - a
    ensures file[a..b][i..j] == file[a + i..a + j]
  {
    var x, y := file[a..b][i..j], file[a + i..a + j];
    assert |x| == |y|;
    forall k | 0 <= k < |x|
      ensures x[k] == y[k]
    {
      assert x[k] == file[a..b][i + k] && y[k] == file[a + i + k];
    }
  }

  lemma ReadFromUnfolds(sum: Checksum, file: seq<Byte>, q: nat, inFragment: bool, scratch: seq<Byte>)
    requires q <= |file|
    ensures var s := NextPhysical(sum, file, q);
            ReadFrom(StreamOf(sum, file), |file|, q, inFragment, scratch)
            == match Absorb(s.outcome, inFragment, scratch)
               case Stop(record, reports) => Result(record, s.next, s.reports + reports)
               case GoOn(in', scratch', reports) =>
                 Report(s.reports + reports, ReadFrom(StreamOf(sum, file), |file|, s.next, in', scratch'))
  {
  }

  // ---- The reader object ----

  class Reader {
    const sum: Checksum
    const file: seq<Byte>
    var filePos: nat
    var buffer: seq<Byte>
    var eof: bool
    var reports: nat

    /** The offset of the first byte not yet consumed. */
    ghost function Offset(): int
      reads this
    {
      filePos - |buffer|
    }

    /** The buffer is the rest of one block, as far as the file goes. */
    ghost predicate Valid()
      reads this
    {
      && |buffer| <= filePos <= |file|
      && buffer == file[Offset()..filePos]
      && (eof ==> filePos == |file| && BlockEnd(Offset()) > |file|)
      && (!eof ==> Leftover(filePos) == BLOCK_SIZE && (buffer != [] ==> filePos == BlockEnd(Offset())))
    }

    constructor (sum: Checksum, file: seq<Byte>)
      ensures Valid() && Offset() == 0 && reports == 0 && this.sum == sum && this.file == file
    {
      this.sum, this.file := sum, file;
      filePos, buffer, eof, reports := 0, [], false, 0;
      new;
      assert Offset() == 0 && Leftover(0) == BLOCK_SIZE;
    }

    /** file_->Read(kBlockSize): a short read means the end of the file. */
    method ReadBlock()
      requires Valid() && !eof
      modifies this
      ensures Valid() && reports == old(reports)
      ensures Offset() == old(filePos) && filePos == BufferEnd(file, old(filePos))
      ensures eof == (BlockEnd(old(filePos)) > |file|)
    {
      var n := if BLOCK_SIZE <= |file| - filePos then BLOCK_SIZE else |file| - filePos;
      LeftoverAhead(filePos, BLOCK_SIZE);
      buffer := file[filePos..filePos + n];
      filePos := filePos + n;
      if n < BLOCK_SIZE {
        eof := true;
      }
    }

    /** Fills the buffer until a header is in it, or reports the end. */
    method Refill() returns (more: bool)
      requires Valid()
      modifies this
      ensures Valid() && reports == old(reports)
      ensures more ==> HEADER_SIZE <= |buffer|
      ensures more ==> Offset() + HEADER_SIZE <= BufferEnd(file, Offset()) && filePos == BufferEnd(file, Offset())
      ensures more ==> NextPhysical(sum, file, old(Offset())) == ParseAt(sum, file, Offset())
      ensures !more ==> NextPhysical(sum, file, old(Offset())) == Step(Eof, |file|, 0) && Offset() == |file|
    {
      while |buffer| < HEADER_SIZE
        invariant Valid() && reports == old(reports)
        invariant Offset() == old(Offset())
                  || (Offset() == BlockEnd(old(Offset())) && old(Offset()) + HEADER_SIZE > BlockEnd(old(Offset()))
                  && BlockEnd(old(Offset())) <= |file|)
        decreases !eof, |file| - filePos
      {
        if eof {
          buffer := [];
          return false;
        }
        ReadBlock();
      }
      return true;
    }

    /** buffer_.clear(). */
    method DropBuffer()
      requires Valid()
      modifies this`buffer
      ensures Valid() && Offset() == filePos
    {
      buffer := [];
    }

    /** buffer_.remove_prefix(k). */
    method Consume(k: nat)
      requires Valid() && 0 < k <= |buffer|
      modifies this`buffer
      ensures Valid() && Offset() == old(Offset()) + k
    {
      ghost var q := Offset();
      if k <= Leftover(q) {
        LeftoverAhead(q, k);
      }
      buffer := buffer[k..];
    }

    /** The parse of the file at the offset, seen through the buffer. */
    ghost predicate BufferParses(s: Step, length: nat, code: Byte)
      requires Valid() && HEADER_SIZE <= |buffer|
      reads this
    {
      if HEADER_SIZE + length > |buffer| then s == (if eof then Step(Eof, filePos, 0) else Step(Bad, filePos, 1))
      else if code == 0 && length == 0 then s == Step(Bad, filePos, 0)
      else if Unmask(DecodeFixed32(buffer[..4])) != sum.Value(buffer[6..HEADER_SIZE + length]) then s == Step(Bad,
        filePos, 1)
      else s == Step(Got(code, buffer[HEADER_SIZE..HEADER_SIZE + length]), Offset() + HEADER_SIZE + length, 0)
    }

    lemma ParseSeenInBuffer(length: nat, code: Byte)
      requires Valid() && HEADER_SIZE <= |buffer|
      requires Offset() + HEADER_SIZE <= BufferEnd(file, Offset()) && filePos == BufferEnd(file, Offset())
      requires length == buffer[4] as int + buffer[5] as int * 256 && code == buffer[6]
      ensures BufferParses(ParseAt(sum, file, Offset()), length, code)
    {
      var q := Offset();
      assert buffer[4] == file[q + 4] && buffer[5] == file[q + 5] && buffer[6] == file[q + 6];
      if HEADER_SIZE + length <= |buffer| {
        SameSlices(q, length);
      }
    }

    /** The second half of ReadPhysicalRecord. */
    method ParseBuffer() returns (outcome: Outcome)
      requires Valid() && HEADER_SIZE <= |buffer|
      requires Offset() + HEADER_SIZE <= BufferEnd(file, Offset()) && filePos == BufferEnd(file, Offset())
      modifies this
      ensures Valid()
      ensures var s := ParseAt(sum, file, old(Offset()));
              outcome == s.outcome && Offset() == s.next && reports == old(reports) + s.reports
    {
      var length := buffer[4] as int + buffer[5] as int * 256;
      var code := buffer[6];
      ParseSeenInBuffer(length, code);
      if HEADER_SIZE + length > |buffer| {
        DropBuffer();
        if eof {
          return Eof;
        }
        reports := reports + 1;
        return Bad;
      }
      if code == 0 && length == 0 {
        DropBuffer();
        return Bad;
      }
      var stored, payload := buffer[..4], buffer[HEADER_SIZE..HEADER_SIZE + length];
      var actual := sum.Value(buffer[6..HEADER_SIZE + length]);
      if Unmask(DecodeFixed32(stored)) != actual {
        DropBuffer();
        reports := reports + 1;
        return Bad;
      }
      Consume(HEADER_SIZE + length);
      return Got(code, payload);
    }

    lemma SameSlices(q: nat, length: nat)
      requires Valid() && q == Offset() && HEADER_SIZE + length <= |buffer|
      ensures buffer[..4] == file[q..q + 4]
      ensures buffer[6..HEADER_SIZE + length] == file[q + 6..q + HEADER_SIZE + length]
      ensures buffer[HEADER_SIZE..HEADER_SIZE + length] == file[q + HEADER_SIZE..q + HEADER_SIZE + length]
    {
      SubSlice(file, q, filePos, 0, 4);
      SubSlice(file, q, filePos, 6, HEADER_SIZE + length);
      SubSlice(file, q, filePos, HEADER_SIZE, HEADER_SIZE + length);
    }

    method ReadPhysicalRecord() returns (outcome: Outcome)
      requires Valid()
      modifies this
      ensures Valid()
      ensures var s := NextPhysical(sum, file, old(Offset()));
              outcome == s.outcome && Offset() == s.next && reports == old(reports) + s.reports
    {
      var more := Refill();
      if !more {
        return Eof;
      }
      outcome := ParseBuffer();
    }

    /** Going on from here ends in the given result. */
    ghost predicate Heading(goal: Result, inFragment: bool, scratch: seq<Byte>)
      requires Valid()
      reads this
    {
      goal == Report(reports, ReadFrom(StreamOf(sum, file), |file|, Offset(), inFragment, scratch))
    }

    /** One turn of ReadRecord's loop: read a physical record and decide what it means. */
    method Advance(inFragment: bool, scratch: seq<Byte>, ghost goal: Result) returns (v: Verdict)
      requires Valid() && Heading(goal, inFragment, scratch)
      modifies this
      ensures Valid()
      ensures v.Stop? ==> goal == Result(v.record, Offset(), reports)
      ensures v.GoOn? ==> Heading(goal, v.inFragment, v.scratch) && old(Offset()) < Offset()
    {
      ReadFromUnfolds(sum, file, Offset(), inFragment, scratch);
      var outcome := ReadPhysicalRecord();
      v := Absorb(outcome, inFragment, scratch);
      reports := reports + v.reports;
    }

    method ReadRecord() returns (record: Option<seq<Byte>>)
      requires Valid()
      modifies this
      ensures Valid()
      ensures var r := ReadFrom(StreamOf(sum, file), |file|, old(Offset()), false, []);
              record == r.record && Offset() == r.next && reports == old(reports) + r.reports
    {
      var scratch: seq<Byte> := [];
      var inFragment := false;
      ghost var goal := Report(reports, ReadFrom(StreamOf(sum, file), |file|, Offset(), false, []));
      while true
        invariant Valid()
        invariant Heading(goal, inFragment, scratch)
        decreases |file| - Offset()
      {
        var v := Advance(inFragment, scratch, goal);
        match v
        case Stop(result, _) => return result;
        case GoOn(in', scratch', _) => inFragment, scratch := in', scratch';
      }
    }
  }
}
