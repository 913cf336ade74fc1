/** Records that nobody appended. After an append that left less than the writer believes, a
    later record lies askew in the blocks, and the reader may look for a header in the middle of
    its payload. */
module ForeignRecords {
  import opened LogFormat
  import opened LogReader
  import opened LogRoundTrip
  import opened TornLogs
  import opened TornReads

  // ---- Where the payload lies ----

  /** How much of the data the writer at offset v puts in front of the block that begins at e. */
  function TakenBefore(v: nat, e: nat): nat
    requires v <= e
  {
    if e - v < HEADER_SIZE then 0 else e - v - HEADER_SIZE
  }

  /** The writer at v has its next block begin at e. */
  predicate NextBlockAt(v: nat, e: nat) {
    v <= e && Leftover(e) == BLOCK_SIZE && (v == e || e - v == Leftover(v))
  }

  lemma PaddedFragment(frame: Framing, v: nat, e: nat, data: seq<Byte>, begin: bool)
    requires NextBlockAt(v, e) && v < e < v + HEADER_SIZE
    ensures PadLength(v) == e - v && PadLength(e) == 0 && Taken(v, |data|) == Taken(e, |data|)
    ensures Fragment(frame, v, data, begin) == Zeros(e - v) + Fragment(frame, e, data, begin)
  {
    var here := frame(FragmentType(begin, Taken(e, |data|) == |data|), data[..Taken(e, |data|)]);
    assert Zeros(0) + here == here;
  }

  lemma PaddedFirst(frame: Framing, v: nat, e: nat, data: seq<Byte>, begin: bool)
    requires NextBlockAt(v, e) && v < e < v + HEADER_SIZE
    ensures Emit(frame, v, data, begin) == Zeros(e - v) + Emit(frame, e, data, begin)
  {
    var n := Taken(e, |data|);
    PaddedFragment(frame, v, e, data, begin);
    if n < |data| {
      EmitGoesOn(frame, v, data, begin, n, e + HEADER_SIZE + n);
      EmitGoesOn(frame, e, data, begin, n, e + HEADER_SIZE + n);
      Regrouped(Zeros(e - v), Fragment(frame, e, data, begin), Emit(frame, e + HEADER_SIZE + n, data[n..], false));
    }
  }

  lemma Regrouped(a: seq<Byte>, b: seq<Byte>, c: seq<Byte>)
    ensures a + b + c == a + (b + c)
  {
  }

  /** The bytes of a record that goes on beyond the block. */
  lemma EmitReaches(frame: Framing, v: nat, e: nat, data: seq<Byte>) returns (before: seq<Byte>, begin: bool)
    requires NextBlockAt(v, e) && (e - v >= HEADER_SIZE ==> TakenBefore(v, e) < |data|)
    ensures |before| == e - v && TakenBefore(v, e) <= |data|
    ensures Emit(frame, v, data, true) == before + Emit(frame, e, data[TakenBefore(v, e)..], begin)
  {
    assert data[0..] == data;
    if v == e {
      before, begin := [], true;
      assert [] + Emit(frame, e, data, true) == Emit(frame, e, data, true);
    } else if e - v < HEADER_SIZE {
      before, begin := Zeros(e - v), true;
      PaddedFirst(frame, v, e, data, true);
    } else {
      before, begin := Fragment(frame, v, data, true), false;
      assert Taken(v, |data|) == TakenBefore(v, e);
    }
  }

  ghost predicate HoldsAt(bytes: seq<Byte>, at: nat, part: seq<Byte>) {
    at + |part| <= |bytes| && forall i :: 0 <= i < |part| ==> bytes[at + i] == part[i]
  }

  lemma PayloadPart(here: seq<Byte>, payload: seq<Byte>, at: nat, part: seq<Byte>)
    requires |here| == HEADER_SIZE + |payload| && here[HEADER_SIZE..] == payload && HEADER_SIZE <= at
    requires at - HEADER_SIZE + |part| <= |payload| && payload[at - HEADER_SIZE..at - HEADER_SIZE + |part|] == part
    ensures HoldsAt(here, at, part)
  {
    forall i | 0 <= i < |part|
      ensures here[at + i] == part[i]
    {
      assert here[HEADER_SIZE..][at - HEADER_SIZE + i] == payload[at - HEADER_SIZE..at - HEADER_SIZE + |part|][i];
    }
  }

  lemma SubPart(data: seq<Byte>, n: nat, i: nat, part: seq<Byte>)
    requires i + |part| <= n <= |data| && data[i..i + |part|] == part
    ensures data[..n][i..i + |part|] == part
  {
  }

  lemma TailPart(data: seq<Byte>, n: nat, i: nat, part: seq<Byte>)
    requires n + i + |part| <= |data| && data[n + i..n + i + |part|] == part
    ensures data[n..][i..i + |part|] == part
  {
  }

  lemma BlockBegins(sum: Checksum, e: nat, data: seq<Byte>, begin: bool, n: nat)
    requires Leftover(e) == BLOCK_SIZE && n == Taken(e, |data|)
    ensures n == if |data| < BLOCK_SIZE - HEADER_SIZE then |data| else BLOCK_SIZE - HEADER_SIZE
    ensures Physical(sum, FragmentType(begin, n == |data|), data[..n]) <= Emit(FramingOf(sum), e, data, begin)
  {
    var here := Physical(sum, FragmentType(begin, n == |data|), data[..n]);
    assert Fragment(FramingOf(sum), e, data, begin) == Zeros(0) + here == here;
    if n < |data| {
      EmitGoesOn(FramingOf(sum), e, data, begin, n, e + HEADER_SIZE + n);
    }
  }

  /** In a whole block the payload begins behind the header. */
  lemma PayloadOfBlock(sum: Checksum, e: nat, data: seq<Byte>, begin: bool, at: nat, part: seq<Byte>)
    requires Leftover(e) == BLOCK_SIZE && HEADER_SIZE <= at && at + |part| <= BLOCK_SIZE
    requires at - HEADER_SIZE + |part| <= |data| && data[at - HEADER_SIZE..at - HEADER_SIZE + |part|] == part
    ensures HoldsAt(Emit(FramingOf(sum), e, data, begin), at, part)
  {
    var n := Taken(e, |data|);
    var t := FragmentType(begin, n == |data|);
    BlockBegins(sum, e, data, begin, n);
    PhysicalParts(sum, t, data[..n]);
    SubPart(data, n, at - HEADER_SIZE, part);
    PayloadPart(Physical(sum, t, data[..n]), data[..n], at, part);
  }

  /** The file goes on, after losing `missing` bytes, with a record that holds these bytes at
      the place which the reader takes for the beginning of a block. */
  lemma PartLiesAt(sum: Checksum, left: seq<Byte>, v: nat, e: nat, missing: nat, data: seq<Byte>, i: nat,
                   part: seq<Byte>, rest: seq<Byte>)
    requires NextBlockAt(v, e) && |left| + missing == v && HEADER_SIZE <= missing && missing + |part| <= BLOCK_SIZE
    requires i == TakenBefore(v, e) + missing - HEADER_SIZE && part != [] && i + |part| <= |data|
             && data[i..i + |part|] == part
    ensures LiesIn(left + Emit(FramingOf(sum), v, data, true) + rest, e, part)
  {
    var before, begin := EmitReaches(FramingOf(sum), v, e, data);
    var block := Emit(FramingOf(sum), e, data[TakenBefore(v, e)..], begin);
    PartInBlock(sum, e, data, TakenBefore(v, e), begin, missing, part, block);
    PartInFile(left, before, block, rest, missing, part, e, left + Emit(FramingOf(sum), v, data, true) + rest);
  }

  lemma PartInBlock(sum: Checksum, e: nat, data: seq<Byte>, t: nat, begin: bool, at: nat, part: seq<Byte>,
                    block: seq<Byte>)
    requires Leftover(e) == BLOCK_SIZE && HEADER_SIZE <= at && at + |part| <= BLOCK_SIZE && t <= |data|
    requires block == Emit(FramingOf(sum), e, data[t..], begin)
    requires var i := t + at - HEADER_SIZE; i + |part| <= |data| && data[i..i + |part|] == part
    ensures HoldsAt(block, at, part)
  {
    TailPart(data, t, at - HEADER_SIZE, part);
    PayloadOfBlock(sum, e, data[t..], begin, at, part);
  }

  ghost predicate LiesIn(file: seq<Byte>, e: nat, part: seq<Byte>) { e + |part| <= |file| && Agrees(file, e, part) }

  lemma PartInFile(left: seq<Byte>, before: seq<Byte>, block: seq<Byte>, rest: seq<Byte>, missing: nat,
                   part: seq<Byte>, e: nat, file: seq<Byte>)
    requires HoldsAt(block, missing, part) && file == left + (before + block) + rest && e == |left| + |before| + missing
    ensures LiesIn(file, e, part)
  {
    forall i | 0 <= i < |part|
      ensures file[e + i] == part[i]
    {
      assert file[e + i] == block[missing + i];
    }
  }

  // ---- The foreign record ----

  /** A physical record at the beginning of the next block is the first thing that is read. */
  lemma BlockIsRead(sum: Checksum, file: seq<Byte>, g: nat, p: seq<Byte>)
    requires HEADER_SIZE + |p| <= BLOCK_SIZE && Resume(g) + HEADER_SIZE + |p| <= |file|
    requires Agrees(file, Resume(g), Physical(sum, Full, p))
    ensures FromNextBlock(sum, file, g) != [] && FromNextBlock(sum, file, g)[0] == p
  {
    var e := Resume(g);
    ResumesAtBlock(g);
    PhysicalParses(sum, file, e, Full, p);
    OneTurn(StreamOf(sum, file), |file|, e, true, true, p, e + HEADER_SIZE + |p|, false, []);
  }

  /** An append fails at g and leaves the file `missing` bytes shorter than the writer believes.
      A later record, appended completely, whose payload holds the bytes of a log record at the
      right place: the reader returns that record, which nobody appended. */
  lemma ForeignRecordIsRead(sum: Checksum, left: seq<Byte>, g: nat, v: nat, missing: nat, x: seq<Byte>, p: seq<Byte>,
                            y: seq<Byte>, rest: seq<Byte>, file: seq<Byte>)
    requires NextBlockAt(v, Resume(g)) && |left| + missing == v && HEADER_SIZE <= missing
             && missing + HEADER_SIZE + |p| <= BLOCK_SIZE
    requires |x| == TakenBefore(v, Resume(g)) + missing - HEADER_SIZE
    requires file == left + Emit(FramingOf(sum), v, x + Physical(sum, Full, p) + y, true) + rest
    requires g <= |file| && Rejected(sum, file, g)
    ensures ReadsFrom(sum, file, g) != [] && ReadsFrom(sum, file, g)[0] == p
  {
    var data, part := x + Physical(sum, Full, p) + y, Physical(sum, Full, p);
    assert data[|x|..|x| + |part|] == part;
    PartLiesAt(sum, left, v, Resume(g), missing, data, |x|, part, rest);
    RejectedReads(sum, file, g);
    BlockIsRead(sum, file, g, p);
  }

  // ---- When no later record can do that ----

  /** The length of what is written for a record depends on the record's length only. */
  lemma {:induction false} SameLength(frame: Framing, v: nat, a: seq<Byte>, b: seq<Byte>, begin: bool)
    requires |a| == |b|
    ensures |Emit(frame, v, a, begin)| == |Emit(frame, v, b, begin)|
    decreases |a|, Leftover(v + PadLength(v)) == HEADER_SIZE
  {
    var n := Taken(v, |a|);
    if n < |a| {
      var after := v + PadLength(v) + HEADER_SIZE + n;
      TakenFillsBlock(v, |a|);
      EmitGoesOn(frame, v, a, begin, n, after);
      EmitGoesOn(frame, v, b, begin, n, after);
      SameLength(frame, after, a[n..], b[n..], false);
    }
  }

  /** A record that ends before the reader's block has a header's room holds too little data. */
  lemma ShortRecord(frame: Framing, v: nat, e: nat, missing: nat, data: seq<Byte>)
    requires NextBlockAt(v, e) && HEADER_SIZE <= missing <= BLOCK_SIZE - HEADER_SIZE
    requires |data| < TakenBefore(v, e) + missing
    ensures v + |Emit(frame, v, data, true)| < e + missing + HEADER_SIZE
  {
    if e - v >= HEADER_SIZE && |data| <= TakenBefore(v, e) {
      assert Taken(v, |data|) == |data|;
    } else {
      var before, begin := EmitReaches(frame, v, e, data);
      var tail := data[TakenBefore(v, e)..];
      assert Taken(e, |tail|) == |tail|;
    }
  }

  /** Some data of the size whose record has a foreign one read. */
  lemma SomeData(sum: Checksum, left: seq<Byte>, g: nat, v: nat, missing: nat, m: nat) returns (data: seq<Byte>)
    requires NextBlockAt(v, Resume(g)) && |left| + missing == v && HEADER_SIZE <= missing <= BLOCK_SIZE - HEADER_SIZE
             && g <= |left|
    requires TakenBefore(v, Resume(g)) + missing <= m
    ensures |data| == m
    ensures Rejected(sum, left + Emit(FramingOf(sum), v, data, true), g)
            ==> ReadsFrom(sum, left + Emit(FramingOf(sum), v, data, true), g) != []
  {
    var x, y := Zeros(TakenBefore(v, Resume(g)) + missing - HEADER_SIZE),
      Zeros(m - TakenBefore(v, Resume(g)) - missing);
    data := x + Physical(sum, Full, []) + y;
    var file := left + Emit(FramingOf(sum), v, data, true);
    if Rejected(sum, file, g) {
      assert file + [] == file;
      ForeignRecordIsRead(sum, left, g, v, missing, x, [], y, [], file);
    }
  }

  /** Whatever the next record holds, nothing is read behind the tear. */
  ghost predicate HarmlessFor(sum: Checksum, left: seq<Byte>, g: nat, v: nat, m: nat)
    requires g <= |left|
  {
    forall data: seq<Byte> :: |data| == m ==> ReadsFrom(sum, left + Emit(FramingOf(sum), v, data, true), g) == []
  }

  ghost predicate RejectedFor(sum: Checksum, left: seq<Byte>, g: nat, v: nat, m: nat)
    requires g <= |left|
  {
    forall data: seq<Byte> :: |data| == m ==> Rejected(sum, left + Emit(FramingOf(sum), v, data, true), g)
  }

  /** Where the file ends when a record of m bytes has been appended. */
  ghost function EndAfter(sum: Checksum, left: seq<Byte>, v: nat, m: nat): nat {
    |left| + |Emit(FramingOf(sum), v, Zeros(m), true)|
  }

  /** A failed append at g that left the file at least a header short is harmless for every next
      record of m bytes if, and only if, that record ends before there is room for a header in
      the next block of the file. Both are known before the record is written. */
  lemma HarmlessIff(sum: Checksum, left: seq<Byte>, g: nat, v: nat, missing: nat, m: nat)
    requires NextBlockAt(v, Resume(g)) && |left| + missing == v && HEADER_SIZE <= missing <= BLOCK_SIZE - HEADER_SIZE
             && g <= |left|
    requires RejectedFor(sum, left, g, v, m)
    ensures HarmlessFor(sum, left, g, v, m) <==> EndAfter(sum, left, v, m) < Resume(g) + HEADER_SIZE
  {
    if EndAfter(sum, left, v, m) < Resume(g) + HEADER_SIZE {
      forall data: seq<Byte> | |data| == m
        ensures ReadsFrom(sum, left + Emit(FramingOf(sum), v, data, true), g) == []
      {
        SameLength(FramingOf(sum), v, data, Zeros(m), true);
        RejectedReads(sum, left + Emit(FramingOf(sum), v, data, true), g);
        NothingBehind(sum, left + Emit(FramingOf(sum), v, data, true), g);
      }
    } else {
      if m < TakenBefore(v, Resume(g)) + missing {
        ShortRecord(FramingOf(sum), v, Resume(g), missing, Zeros(m));
        assert false;
      }
      var data := SomeData(sum, left, g, v, missing, m);
      assert Rejected(sum, left + Emit(FramingOf(sum), v, data, true), g);
    }
  }
}
