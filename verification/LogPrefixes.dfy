/** What cutting a file off does to the log reader: whatever a file holds, a prefix of it
    reads as a prefix of its records. */
module LogPrefixes {
  import opened Wrappers
  import opened LogFormat
  import opened LogReader

  /** The step of the shorter stream at q agrees with the longer one, or ends the reading. */
  ghost predicate AgreesOrEnds(short: Step, long: Step, size: nat) {
    || short == long
    || (short.outcome == Eof && short.next <= size)
    || (short.outcome == Bad && short.next == size)
  }

  lemma ShorterParse(sum: Checksum, file: seq<Byte>, c: nat, q: nat)
    requires c <= |file| && q + HEADER_SIZE <= BufferEnd(file[..c], q)
    ensures q + HEADER_SIZE <= BufferEnd(file, q)
    ensures AgreesOrEnds(ParseAt(sum, file[..c], q), ParseAt(sum, file, q), c)
  {
    var short := file[..c];
    var length := short[q + 4] as int + short[q + 5] as int * 256;
    assert short[q..q + 4] == file[q..q + 4];
    if q + HEADER_SIZE + length <= c {
      assert short[q + 6..q + HEADER_SIZE + length] == file[q + 6..q + HEADER_SIZE + length];
      assert short[q + HEADER_SIZE..q + HEADER_SIZE + length] == file[q + HEADER_SIZE..q + HEADER_SIZE + length];
    }
  }

  lemma ShorterPhysical(sum: Checksum, file: seq<Byte>, c: nat, q: nat)
    requires q <= c <= |file|
    ensures AgreesOrEnds(NextPhysical(sum, file[..c], q), NextPhysical(sum, file, q), c)
  {
    var short, b := file[..c], BlockEnd(q);
    if q + HEADER_SIZE <= BufferEnd(short, q) {
      ShorterParse(sum, file, c, q);
    } else if b <= c && b + HEADER_SIZE <= BufferEnd(short, b) {
      ShorterParse(sum, file, c, b);
    }
  }

  lemma EndOfFile(sum: Checksum, file: seq<Byte>)
    ensures NextPhysical(sum, file, |file|) == Step(Eof, |file|, 0)
  {
  }

  ghost predicate Shorter(short: Stream, size: nat, long: Stream) {
    && (forall q: nat :: q <= size ==> AgreesOrEnds(short(q), long(q), size))
    && short(size) == Step(Eof, size, 0)
  }

  lemma PrefixIsShorter(sum: Checksum, file: seq<Byte>, c: nat)
    requires c <= |file|
    ensures Shorter(StreamOf(sum, file[..c]), c, StreamOf(sum, file))
  {
    forall q: nat | q <= c
      ensures AgreesOrEnds(StreamOf(sum, file[..c])(q), StreamOf(sum, file)(q), c)
    {
      ShorterPhysical(sum, file, c, q);
    }
    EndOfFile(sum, file[..c]);
  }

  /** A record read from the shorter stream is read from the longer one, with the same end. */
  lemma {:induction false} ShorterRecord(short: Stream, size: nat, long: Stream, whole: nat, q: nat, inFragment: bool,
                                         scratch: seq<Byte>)
    requires WellBehaved(short, size) && WellBehaved(long, whole) && Shorter(short, size, long) && q <= size <= whole
    ensures var a, b := ReadFrom(short, size, q, inFragment, scratch), ReadFrom(long, whole, q, inFragment, scratch);
            a.record.Some? ==> b.record == a.record && b.next == a.next
    decreases size - q
  {
    var s := short(q);
    assert AgreesOrEnds(s, long(q), size);
    match Absorb(s.outcome, inFragment, scratch)
    case Stop(_, _) =>
    case GoOn(in', scratch', _) =>
      if s == long(q) {
        ShorterRecord(short, size, long, whole, s.next, in', scratch');
      } else {
        NothingAtTheEnd(short, size, in', scratch');
      }
  }

  lemma NothingAtTheEnd(short: Stream, size: nat, inFragment: bool, scratch: seq<Byte>)
    requires WellBehaved(short, size) && short(size) == Step(Eof, size, 0)
    ensures ReadFrom(short, size, size, inFragment, scratch).record == None
  {
  }

  lemma {:induction false} ShorterReads(short: Stream, size: nat, long: Stream, whole: nat, q: nat)
    requires WellBehaved(short, size) && WellBehaved(long, whole) && Shorter(short, size, long) && q <= size <= whole
    ensures ReadAll(short, size, q).0 <= ReadAll(long, whole, q).0
    decreases size - q
  {
    ShorterRecord(short, size, long, whole, q, false, []);
    var a := ReadFrom(short, size, q, false, []);
    if a.record.Some? {
      ShorterReads(short, size, long, whole, a.next);
      SamePrefix(a.record.value, ReadAll(short, size, a.next).0, ReadAll(long, whole, a.next).0);
    }
  }

  lemma SamePrefix(record: seq<Byte>, a: seq<seq<Byte>>, b: seq<seq<Byte>>)
    requires a <= b
    ensures [record] + a <= [record] + b
  {
  }

  /** The records of a file. */
  ghost function Records(sum: Checksum, file: seq<Byte>): seq<seq<Byte>> { ReadAll(StreamOf(sum, file), |file|, 0).0 }

  /** However a file came about, a crash that cuts it off takes records from its end only. */
  lemma CutLosesOnlyTheEnd(sum: Checksum, file: seq<Byte>, c: nat)
    requires c <= |file|
    ensures Records(sum, file[..c]) <= Records(sum, file)
  {
    PrefixIsShorter(sum, file, c);
    ShorterReads(StreamOf(sum, file[..c]), c, StreamOf(sum, file), |file|, 0);
  }
}
