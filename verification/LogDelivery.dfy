/** What the log reader returns and reports for any file at all, damaged ones included, in terms
    of the physical records it meets and nothing else. */
module LogDelivery {
  import opened Wrappers
  import opened LogFormat
  import opened LogReader

  // ---- Physical records, on the bytes ----

  /** Where the next header is looked for: a rest of a block too short for one is skipped. */
  function HeaderAt(q: nat): nat { q + PadLength(q) }

  /** The header bytes of a physical record: checksum of type and payload, length, type. */
  function Header(sum: Checksum, code: Byte, payload: seq<Byte>): (bytes: seq<Byte>)
    requires |payload| < 0x1_0000
    ensures |bytes| == HEADER_SIZE
  {
    EncodeFixed32(Mask(sum.Value([code] + payload))) + [|payload| % 256, |payload| / 256, code]
  }

  /** The file holds a whole physical record there, inside one block. */
  ghost predicate Holds(sum: Checksum, file: seq<Byte>, h: nat, code: Byte, payload: seq<Byte>) {
    && |payload| < 0x1_0000 && h + HEADER_SIZE + |payload| <= BufferEnd(file, h)
    && file[h..h + HEADER_SIZE + |payload|] == Header(sum, code, payload) + payload
    && (code != 0 || payload != [])
  }

  lemma {:induction false} MaskUnmask(masked: Word)
    ensures Mask(Unmask(masked)) == masked
  {
    var rot := (masked - MASK_DELTA) % WORD_LIMIT;
    var hi, lo := rot / 0x2_0000, rot % 0x2_0000;
    RotatedBack(hi, lo);
    assert rot == hi * 0x2_0000 + lo;
    ShiftUndone(rot, masked);
  }

  lemma ShiftUndone(rot: int, masked: Word)
    requires rot == (masked - MASK_DELTA) % WORD_LIMIT
    ensures (rot + MASK_DELTA) % WORD_LIMIT == masked
  {
    if masked >= MASK_DELTA {
      assert rot == masked - MASK_DELTA;
    } else {
      assert rot == masked - MASK_DELTA + WORD_LIMIT;
    }
  }

  lemma RotatedBack(hi: int, lo: int)
    requires 0 <= hi < 0x8000 && 0 <= lo < 0x2_0000
    ensures (hi + lo * 0x8000) / 0x8000 == lo && (hi + lo * 0x8000) % 0x8000 == hi
  {
  }

  lemma EncodeDecode(b: seq<Byte>)
    requires |b| == 4
    ensures EncodeFixed32(DecodeFixed32(b)) == b
  {
    var w := DecodeFixed32(b);
    BytesOf(b[0], b[1], b[2], b[3], w);
  }

  lemma BytesOf(a: Byte, b: Byte, c: Byte, d: Byte, w: Word)
    requires w == a + b * 256 + c * 0x1_0000 + d * 0x100_0000
    ensures w % 256 == a && w / 256 % 256 == b && w / 0x1_0000 % 256 == c && w / 0x100_0000 == d
  {
    assert w / 256 == b + c * 256 + d * 0x1_0000;
    assert w / 0x1_0000 == c + d * 256;
  }

  /** The stored checksum is right exactly if it is the masked checksum of the rest. */
  lemma ChecksumIff(stored: seq<Byte>, crc: Word)
    requires |stored| == 4
    ensures Unmask(DecodeFixed32(stored)) == crc <==> stored == EncodeFixed32(Mask(crc))
  {
    if Unmask(DecodeFixed32(stored)) == crc {
      MaskUnmask(DecodeFixed32(stored));
      EncodeDecode(stored);
    } else if stored == EncodeFixed32(Mask(crc)) {
      DecodeEncode(Mask(crc));
      UnmaskMask(crc);
    }
  }

  function LengthAt(file: seq<Byte>, h: nat): nat
    requires h + HEADER_SIZE <= |file|
  {
    file[h + 4] as int + file[h + 5] as int * 256
  }

  lemma Pieces(file: seq<Byte>, h: nat, n: nat)
    requires h + HEADER_SIZE + n <= |file|
    ensures file[h..h + HEADER_SIZE + n]
         == file[h..h + 4] + [file[h + 4], file[h + 5], file[h + 6]] + file[h + HEADER_SIZE..h + HEADER_SIZE + n]
    ensures file[h + 6..h + HEADER_SIZE + n] == [file[h + 6]] + file[h + HEADER_SIZE..h + HEADER_SIZE + n]
  {
  }

  lemma SamePieces(a: seq<Byte>, b: seq<Byte>, c: seq<Byte>, a': seq<Byte>, b': seq<Byte>, c': seq<Byte>)
    requires |a| == |a'| && |b| == |b'|
    ensures a + b + c == a' + b' + c' <==> a == a' && b == b' && c == c'
  {
    if a + b + c == a' + b' + c' {
      assert a == (a + b + c)[..|a|] && a' == (a' + b' + c')[..|a|];
      assert b == (a + b + c)[|a|..|a| + |b|] && b' == (a' + b' + c')[|a|..|a| + |b|];
      assert c == (a + b + c)[|a| + |b|..] && c' == (a' + b' + c')[|a| + |b|..];
    }
  }

  lemma LengthBytes(x: Byte, y: Byte, n: nat)
    ensures x + y * 256 == n <==> n < 0x1_0000 && x == n % 256 && y == n / 256
  {
  }

  /** The bytes at h are a header and payload exactly if length, type and checksum say so. */
  lemma HoldsIff(sum: Checksum, file: seq<Byte>, h: nat, code: Byte, payload: seq<Byte>)
    requires h + HEADER_SIZE + |payload| <= |file| && |payload| < 0x1_0000
    ensures file[h..h + HEADER_SIZE + |payload|] == Header(sum, code, payload) + payload
       <==> LengthAt(file, h) == |payload| && file[h + 6] == code
            && file[h + HEADER_SIZE..h + HEADER_SIZE + |payload|] == payload
            && file[h..h + 4] == EncodeFixed32(Mask(sum.Value([code] + payload)))
  {
    var n := |payload|;
    var crc := EncodeFixed32(Mask(sum.Value([code] + payload)));
    Pieces(file, h, n);
    SamePieces(file[h..h + 4], [file[h + 4], file[h + 5], file[h + 6]], file[h + HEADER_SIZE..h + HEADER_SIZE + n],
      crc, [n % 256, n / 256, code], payload);
    LengthBytes(file[h + 4], file[h + 5], n);
  }

  lemma ParseGotIff(sum: Checksum, file: seq<Byte>, h: nat, code: Byte, payload: seq<Byte>)
    requires h + HEADER_SIZE <= BufferEnd(file, h)
    ensures ParseAt(sum, file, h).outcome == Got(code, payload) <==> Holds(sum, file, h, code, payload)
    ensures ParseAt(sum, file, h).outcome == Got(code, payload) ==>
              ParseAt(sum, file, h).next == h + HEADER_SIZE + |payload|
  {
    var n := LengthAt(file, h);
    if h + HEADER_SIZE + |payload| <= BufferEnd(file, h) && |payload| < 0x1_0000 {
      HoldsIff(sum, file, h, code, payload);
    }
    if h + HEADER_SIZE + n <= BufferEnd(file, h) {
      Pieces(file, h, n);
      ChecksumIff(file[h..h + 4], sum.Value(file[h + 6..h + HEADER_SIZE + n]));
    }
  }

  /** A header whose record runs out of a block that is all there, or whose checksum is wrong. */
  ghost predicate Damaged(sum: Checksum, file: seq<Byte>, h: nat) {
    && h + HEADER_SIZE <= BufferEnd(file, h)
    && var end := h + HEADER_SIZE + LengthAt(file, h);
       if end > BufferEnd(file, h) then BlockEnd(h) <= |file|
       else
         && !(file[h + 6] == 0 && LengthAt(file, h) == 0)
         && file[h..h + 4] != EncodeFixed32(Mask(sum.Value(file[h + 6..end])))
  }

  lemma ParseReportsIff(sum: Checksum, file: seq<Byte>, h: nat)
    requires h + HEADER_SIZE <= BufferEnd(file, h)
    ensures ParseAt(sum, file, h).reports == if Damaged(sum, file, h) then 1 else 0
    ensures Damaged(sum, file, h) ==> ParseAt(sum, file, h).outcome == Bad
  {
    var end := h + HEADER_SIZE + LengthAt(file, h);
    if end <= BufferEnd(file, h) {
      ChecksumIff(file[h..h + 4], sum.Value(file[h + 6..end]));
    }
  }

  lemma HeaderPlace(file: seq<Byte>, q: nat)
    requires q <= |file|
    ensures HeaderAt(q) == if Leftover(q) < HEADER_SIZE then BlockEnd(q) else q
    ensures q + HEADER_SIZE <= BufferEnd(file, q) ==> HeaderAt(q) == q
    ensures q + HEADER_SIZE > BufferEnd(file, q) && BlockEnd(q) <= |file| ==> HeaderAt(q) == BlockEnd(q)
    ensures BlockEnd(q) > |file| && q + HEADER_SIZE > |file| ==>
              HeaderAt(q) + HEADER_SIZE > BufferEnd(file, HeaderAt(q))
  {
    LeftoverAhead(q, Leftover(q));
  }

  /** ReadPhysicalRecord delivers exactly what the file holds, and it reports exactly damage. */
  lemma DeliversIff(sum: Checksum, file: seq<Byte>, q: nat, code: Byte, payload: seq<Byte>)
    requires q <= |file|
    ensures var s := NextPhysical(sum, file, q);
            && (s.outcome == Got(code, payload) <==> Holds(sum, file, HeaderAt(q), code, payload))
            && (s.outcome == Got(code, payload) ==> s.next == HeaderAt(q) + HEADER_SIZE + |payload|)
            && s.reports == (if Damaged(sum, file, HeaderAt(q)) then 1 else 0)
            && (s.reports > 0 ==> s.outcome == Bad)
  {
    var h := HeaderAt(q);
    HeaderPlace(file, q);
    if h + HEADER_SIZE <= BufferEnd(file, h) {
      ParseGotIff(sum, file, h, code, payload);
      ParseReportsIff(sum, file, h);
    }
  }

  /** The writer's physical records have this form. */
  lemma WriterHolds(sum: Checksum, t: RecordType, payload: seq<Byte>)
    requires |payload| < 0x1_0000
    ensures Physical(sum, t, payload) == Header(sum, t.Code(), payload) + payload
  {
    sum.ExtendAppends(0, [t.Code()], payload);
  }

  // ---- Records, in terms of what was delivered ----

  /** The end of the file; ReadRecord takes a type byte of 5 for it. */
  predicate Ends(o: Outcome) { o.Eof? || (o.Got? && o.code == 5) }

  /** A bad record; ReadRecord takes a type byte of 6 for it. */
  predicate Breaks(o: Outcome) { o.Bad? || (o.Got? && o.code == 6) }

  /** What ReadPhysicalRecord returns, call after call, up to what ends the reading. */
  ghost function Delivered(next: Stream, size: nat, q: nat): seq<Step>
    requires WellBehaved(next, size) && q <= size
    decreases size - q
  {
    var s := next(q);
    if Ends(s.outcome) then [] else [s] + Delivered(next, size, s.next)
  }

  predicate Is(s: Step, t: RecordType) { s.outcome.Got? && s.outcome.code == t.Code() }

  function Payloads(ds: seq<Step>): seq<Byte> {
    if ds == [] then []
    else Payloads(ds[..|ds| - 1]) + if ds[|ds| - 1].outcome.Got? then ds[|ds| - 1].outcome.payload else []
  }

  /** A first fragment at i, and only middle ones from there up to j. */
  ghost predicate Begun(ds: seq<Step>, i: nat, j: nat) {
    && i < j <= |ds| && Is(ds[i], First)
    && forall k :: i < k < j ==> Is(ds[k], Middle)
  }

  /** Deliveries i to j are one record: a full one, or a first, middles and a last fragment with
      nothing between them. */
  ghost predicate Spans(ds: seq<Step>, i: nat, j: nat) {
    i <= j < |ds| && if i == j then Is(ds[j], Full) else Begun(ds, i, j) && Is(ds[j], Last)
  }

  /** How many reports ReadRecord adds for delivery j: a middle or last fragment that belongs to no
      first one, an unknown type, and a record broken off after some data. */
  ghost function Complaints(ds: seq<Step>, j: nat): nat
    requires j < |ds|
  {
    var begun := exists i: nat :: Begun(ds, i, j);
    var some := exists i: nat :: Begun(ds, i, j) && Payloads(ds[i..j]) != [];
    if Is(ds[j], Middle) || Is(ds[j], Last) then if begun then 0 else 1
    else if Is(ds[j], Full) || Is(ds[j], First) then if some then 1 else 0
    else if Breaks(ds[j].outcome) then if begun then 1 else 0
    else 1
  }

  /** All reports for deliveries i to j - 1. */
  ghost function Faults(ds: seq<Step>, i: nat, j: nat): nat
    requires i <= j <= |ds|
    decreases j - i
  {
    if i == j then 0 else ds[i].reports + Complaints(ds, i) + Faults(ds, i + 1, j)
  }

  /** The fragments collected before delivery j. */
  ghost predicate Collecting(ds: seq<Step>, j: nat, inFragment: bool, scratch: seq<Byte>) {
    && j <= |ds|
    && if inFragment then exists i: nat :: Begun(ds, i, j) && scratch == Payloads(ds[i..j])
       else forall i: nat :: !Begun(ds, i, j)
  }

  lemma BegunAtOne(ds: seq<Step>, i: nat, i': nat, j: nat)
    requires Begun(ds, i, j) && Begun(ds, i', j)
    ensures i == i'
  {
  }

  lemma MorePayload(ds: seq<Step>, i: nat, j: nat)
    requires i <= j < |ds| && ds[j].outcome.Got?
    ensures Payloads(ds[i..j + 1]) == Payloads(ds[i..j]) + ds[j].outcome.payload
  {
    assert ds[i..j + 1][..j - i] == ds[i..j] && ds[i..j + 1][j - i] == ds[j];
  }

  lemma PartialIff(ds: seq<Step>, j: nat, inFragment: bool, scratch: seq<Byte>)
    requires Collecting(ds, j, inFragment, scratch)
    ensures inFragment <==> exists i: nat :: Begun(ds, i, j)
    ensures inFragment && scratch != [] <==> exists i: nat :: Begun(ds, i, j) && Payloads(ds[i..j]) != []
  {
    if inFragment {
      var i: nat :| Begun(ds, i, j) && scratch == Payloads(ds[i..j]);
      forall i' | Begun(ds, i', j)
        ensures i' == i
      {
        BegunAtOne(ds, i, i', j);
      }
    }
  }

  /** What the switch counts is what delivery j gives rise to. */
  lemma AbsorbReports(ds: seq<Step>, j: nat, inFragment: bool, scratch: seq<Byte>)
    requires j < |ds| && Collecting(ds, j, inFragment, scratch) && !Ends(ds[j].outcome)
    ensures Absorb(ds[j].outcome, inFragment, scratch).reports == Complaints(ds, j)
  {
    PartialIff(ds, j, inFragment, scratch);
  }

  lemma BegunLater(ds: seq<Step>, i: nat, j: nat)
    requires j < |ds|
    ensures Begun(ds, i, j + 1) <==> (i == j && Is(ds[j], First)) || (Begun(ds, i, j) && Is(ds[j], Middle))
  {
  }

  lemma NothingBegun(ds: seq<Step>, j: nat)
    requires j < |ds| && !Is(ds[j], First) && (Is(ds[j], Middle) ==> forall i: nat :: !Begun(ds, i, j))
    ensures Collecting(ds, j + 1, false, [])
  {
    var end := j + 1;
    forall i: nat
      ensures !Begun(ds, i, end)
    {
      BegunLater(ds, i, j);
    }
  }

  /** When the switch goes on, no record ends here, and it has collected what was begun. */
  lemma AbsorbGoesOn(ds: seq<Step>, j: nat, inFragment: bool, scratch: seq<Byte>)
    requires j < |ds| && Collecting(ds, j, inFragment, scratch)
    requires Absorb(ds[j].outcome, inFragment, scratch).GoOn?
    ensures var v := Absorb(ds[j].outcome, inFragment, scratch); Collecting(ds, j + 1, v.inFragment, v.scratch)
    ensures forall i: nat :: !Spans(ds, i, j)
  {
    if Is(ds[j], First) {
      MorePayload(ds, j, j);
      assert ds[j..j] == [] && Begun(ds, j, j + 1);
    } else if Is(ds[j], Middle) && inFragment {
      var i: nat :| Begun(ds, i, j) && scratch == Payloads(ds[i..j]);
      MorePayload(ds, i, j);
      assert Begun(ds, i, j + 1);
    } else {
      NothingBegun(ds, j);
    }
  }

  /** When the switch returns a record, it is one that ends here. */
  lemma AbsorbReturns(ds: seq<Step>, j: nat, inFragment: bool, scratch: seq<Byte>) returns (i: nat)
    requires j < |ds| && Collecting(ds, j, inFragment, scratch) && !Ends(ds[j].outcome)
    requires Absorb(ds[j].outcome, inFragment, scratch).Stop?
    ensures Spans(ds, i, j) && Absorb(ds[j].outcome, inFragment, scratch).record == Some(Payloads(ds[i..j + 1]))
    ensures Collecting(ds, j + 1, false, [])
  {
    NothingBegun(ds, j);
    if Is(ds[j], Full) {
      i := j;
      assert ds[j..j] == [] && [] + ds[j].outcome.payload == ds[j].outcome.payload;
    } else {
      i :| Begun(ds, i, j) && scratch == Payloads(ds[i..j]);
    }
    MorePayload(ds, i, j);
  }

  // ---- ReadRecord, and reading a whole file ----

  /** What ends the reading is not reported. */
  ghost predicate EndsQuietly(next: Stream, size: nat) {
    forall q: nat :: q <= size && Ends(next(q).outcome) ==> next(q).reports == 0
  }

  lemma FilesEndQuietly(sum: Checksum, file: seq<Byte>)
    ensures EndsQuietly(StreamOf(sum, file), |file|)
  {
    forall q: nat | q <= |file| && Ends(NextPhysical(sum, file, q).outcome)
      ensures NextPhysical(sum, file, q).reports == 0
    {
      DeliversIff(sum, file, q, 0, []);
    }
  }

  /** The rest of the stream at q is what is delivered from j on. */
  ghost predicate At(next: Stream, size: nat, q: nat, ds: seq<Step>, j: nat) {
    WellBehaved(next, size) && q <= size && j <= |ds| && Delivered(next, size, q) == ds[j..]
  }

  lemma AtStep(next: Stream, size: nat, q: nat, ds: seq<Step>, j: nat)
    requires At(next, size, q, ds, j)
    ensures Ends(next(q).outcome) <==> j == |ds|
    ensures j < |ds| ==> next(q) == ds[j] && At(next, size, next(q).next, ds, j + 1)
  {
    if j < |ds| {
      assert ds[j..][1..] == ds[j + 1..];
    }
  }

  /** One call returned the record that ends at delivery k, the first from j on, or none is left. */
  ghost predicate Returned(next: Stream, size: nat, ds: seq<Step>, j: nat, r: Result, i: nat, k: nat) {
    && j <= k <= |ds| && (forall x: nat, m: nat :: j <= m < k ==> !Spans(ds, x, m))
    && if r.record.None? then k == |ds| && r.reports == Faults(ds, j, |ds|)
       else
         && Spans(ds, i, k) && r.record == Some(Payloads(ds[i..k + 1])) && r.reports == Faults(ds, j, k + 1)
         && At(next, size, r.next, ds, k + 1) && Collecting(ds, k + 1, false, [])
  }

  lemma ReturnedLater(next: Stream, size: nat, ds: seq<Step>, j: nat, r: Result, i: nat, k: nat)
    requires j < |ds| && Returned(next, size, ds, j + 1, r, i, k) && forall x: nat :: !Spans(ds, x, j)
    ensures Returned(next, size, ds, j, Report(ds[j].reports + Complaints(ds, j), r), i, k)
  {
  }

  lemma NothingReturned(next: Stream, size: nat, q: nat, inFragment: bool, scratch: seq<Byte>, ds: seq<Step>)
    requires At(next, size, q, ds, |ds|) && EndsQuietly(next, size)
    ensures Returned(next, size, ds, |ds|, ReadFrom(next, size, q, inFragment, scratch), 0, |ds|)
  {
    AtStep(next, size, q, ds, |ds|);
  }

  lemma ReturnedNow(next: Stream, size: nat, q: nat, inFragment: bool, scratch: seq<Byte>, ds: seq<Step>, j: nat)
      returns (i: nat)
    requires At(next, size, q, ds, j) && Collecting(ds, j, inFragment, scratch) && j < |ds|
    requires Absorb(ds[j].outcome, inFragment, scratch).Stop?
    ensures Returned(next, size, ds, j, ReadFrom(next, size, q, inFragment, scratch), i, j)
  {
    AtStep(next, size, q, ds, j);
    AbsorbReports(ds, j, inFragment, scratch);
    i := AbsorbReturns(ds, j, inFragment, scratch);
    assert Faults(ds, j, j + 1) == ds[j].reports + Complaints(ds, j) + Faults(ds, j + 1, j + 1);
  }

  lemma {:induction false} ReadFromReturns(next: Stream, size: nat, q: nat, inFragment: bool, scratch: seq<Byte>,
                                           ds: seq<Step>, j: nat)
      returns (i: nat, k: nat)
    requires At(next, size, q, ds, j) && Collecting(ds, j, inFragment, scratch) && EndsQuietly(next, size)
    ensures Returned(next, size, ds, j, ReadFrom(next, size, q, inFragment, scratch), i, k)
    decreases size - q
  {
    AtStep(next, size, q, ds, j);
    if j == |ds| {
      NothingReturned(next, size, q, inFragment, scratch, ds);
      i, k := 0, j;
    } else {
      var v := Absorb(ds[j].outcome, inFragment, scratch);
      if v.Stop? {
        i := ReturnedNow(next, size, q, inFragment, scratch, ds, j);
        k := j;
      } else {
        AbsorbReports(ds, j, inFragment, scratch);
        AbsorbGoesOn(ds, j, inFragment, scratch);
        i, k := ReadFromReturns(next, size, next(q).next, v.inFragment, v.scratch, ds, j + 1);
        ReturnedLater(next, size, ds, j, ReadFrom(next, size, next(q).next, v.inFragment, v.scratch), i, k);
      }
    }
  }

  ghost predicate EndsWith(ds: seq<Step>, j: nat, end: (nat, nat), record: seq<Byte>) {
    j <= end.1 && Spans(ds, end.0, end.1) && record == Payloads(ds[end.0..end.1 + 1])
  }

  ghost predicate Apart(ends: seq<(nat, nat)>) { forall m, n :: 0 <= m < n < |ends| ==> ends[m].1 < ends[n].0 }

  ghost predicate Complete(ds: seq<Step>, j: nat, ends: seq<(nat, nat)>) {
    forall x: nat, y: nat :: j <= y && Spans(ds, x, y) ==> (x, y) in ends
  }

  /** The records are exactly those that end at delivery j or later, each once and in order. */
  ghost predicate Assembled(ds: seq<Step>, j: nat, ends: seq<(nat, nat)>, records: seq<seq<Byte>>) {
    && |ends| == |records|
    && (forall n :: 0 <= n < |ends| ==> EndsWith(ds, j, ends[n], records[n]))
    && Apart(ends) && Complete(ds, j, ends)
  }

  lemma SpansApart(ds: seq<Step>, i: nat, j: nat, i': nat, j': nat)
    requires Spans(ds, i, j) && Spans(ds, i', j') && j <= j'
    ensures j < i' || (i == i' && j == j')
  {
    if j == j' && i < j && i' < j {
      BegunAtOne(ds, i, i', j);
    }
  }

  lemma ApartMore(ds: seq<Step>, i: nat, k: nat, ends: seq<(nat, nat)>)
    requires Spans(ds, i, k) && Apart(ends)
    requires forall n :: 0 <= n < |ends| ==> k < ends[n].1 && Spans(ds, ends[n].0, ends[n].1)
    ensures Apart([(i, k)] + ends)
  {
    forall n | 0 <= n < |ends|
      ensures k < ends[n].0
    {
      SpansApart(ds, i, k, ends[n].0, ends[n].1);
    }
  }

  lemma CompleteMore(ds: seq<Step>, j: nat, i: nat, k: nat, ends: seq<(nat, nat)>)
    requires Spans(ds, i, k) && Complete(ds, k + 1, ends)
    requires forall x: nat, m: nat :: j <= m < k ==> !Spans(ds, x, m)
    ensures Complete(ds, j, [(i, k)] + ends)
  {
    forall x: nat, y: nat | j <= y && Spans(ds, x, y)
      ensures (x, y) in [(i, k)] + ends
    {
      if y == k {
        SpansApart(ds, i, k, x, y);
      } else {
        assert (x, y) in ends;
      }
    }
  }

  lemma EachMore(ds: seq<Step>, j: nat, i: nat, k: nat, ends: seq<(nat, nat)>, records: seq<seq<Byte>>)
    requires j <= k && Spans(ds, i, k) && |ends| == |records|
    requires forall n :: 0 <= n < |ends| ==> EndsWith(ds, k + 1, ends[n], records[n])
    ensures var ends', records' := [(i, k)] + ends, [Payloads(ds[i..k + 1])] + records;
            forall n :: 0 <= n < |ends'| ==> EndsWith(ds, j, ends'[n], records'[n])
    ensures forall n :: 0 <= n < |ends| ==> k < ends[n].1 && Spans(ds, ends[n].0, ends[n].1)
  {
    forall n | 0 <= n < |ends|
      ensures EndsWith(ds, j, ends[n], records[n]) && k < ends[n].1
    {
      assert EndsWith(ds, k + 1, ends[n], records[n]);
    }
  }

  lemma AssembledMore(ds: seq<Step>, j: nat, i: nat, k: nat, ends: seq<(nat, nat)>, records: seq<seq<Byte>>)
    requires j <= k && Spans(ds, i, k) && Assembled(ds, k + 1, ends, records)
    requires forall x: nat, m: nat :: j <= m < k ==> !Spans(ds, x, m)
    ensures Assembled(ds, j, [(i, k)] + ends, [Payloads(ds[i..k + 1])] + records)
  {
    EachMore(ds, j, i, k, ends, records);
    ApartMore(ds, i, k, ends);
    CompleteMore(ds, j, i, k, ends);
  }

  lemma {:induction false} ReadAllAssembles(next: Stream, size: nat, q: nat, ds: seq<Step>, j: nat)
      returns (ends: seq<(nat, nat)>)
    requires At(next, size, q, ds, j) && Collecting(ds, j, false, []) && EndsQuietly(next, size)
    ensures Assembled(ds, j, ends, ReadAll(next, size, q).0) && ReadAll(next, size, q).1 == Faults(ds, j, |ds|)
    decreases size - q
  {
    var r := ReadFrom(next, size, q, false, []);
    var i, k := ReadFromReturns(next, size, q, false, [], ds, j);
    if r.record.None? {
      ends := [];
    } else {
      var rest := ReadAllAssembles(next, size, r.next, ds, k + 1);
      AssembledMore(ds, j, i, k, rest, ReadAll(next, size, r.next).0);
      FaultsAdd(ds, j, k + 1, |ds|);
      ends := [(i, k)] + rest;
    }
  }

  lemma {:induction false} FaultsAdd(ds: seq<Step>, i: nat, j: nat, k: nat)
    requires i <= j <= k <= |ds|
    ensures Faults(ds, i, k) == Faults(ds, i, j) + Faults(ds, j, k)
    decreases j - i
  {
    if i < j {
      FaultsAdd(ds, i + 1, j, k);
    }
  }

  /** What ReadPhysicalRecord delivers of a file. */
  ghost function DeliveredOf(sum: Checksum, file: seq<Byte>): seq<Step> { Delivered(StreamOf(sum, file), |file|, 0) }

  /** For every file: the records returned are the full ones delivered and the first, middle and
      last fragments delivered in a row, all of them, in order; and the reports are one for each
      damaged physical record and each fragment or record left incomplete. */
  lemma RecordsAreDelivered(sum: Checksum, file: seq<Byte>) returns (ends: seq<(nat, nat)>)
    ensures var ds, all := DeliveredOf(sum, file), ReadAll(StreamOf(sum, file), |file|, 0);
            Assembled(ds, 0, ends, all.0) && all.1 == Faults(ds, 0, |ds|)
  {
    FilesEndQuietly(sum, file);
    ends := ReadAllAssembles(StreamOf(sum, file), |file|, 0, DeliveredOf(sum, file), 0);
  }

  lemma {:induction false} FaultCounts(ds: seq<Step>, i: nat, j: nat, at: nat)
    requires i <= at < j <= |ds|
    ensures Faults(ds, i, j) >= ds[at].reports + Complaints(ds, at)
    decreases j - i
  {
    if i < at {
      FaultCounts(ds, i + 1, j, at);
    }
  }

  /** Reading without a report: nothing delivered was damaged, and every middle or last fragment
      belongs to a first one. */
  lemma NoReportMeansWhole(sum: Checksum, file: seq<Byte>, at: nat)
    requires ReadAll(StreamOf(sum, file), |file|, 0).1 == 0 && at < |DeliveredOf(sum, file)|
    ensures var ds := DeliveredOf(sum, file);
            && ds[at].reports == 0
            && (Is(ds[at], Middle) || Is(ds[at], Last) ==> exists i: nat :: Begun(ds, i, at))
            && (Breaks(ds[at].outcome) ==> !exists i: nat :: Begun(ds, i, at))
  {
    var ends := RecordsAreDelivered(sum, file);
    FaultCounts(DeliveredOf(sum, file), 0, |DeliveredOf(sum, file)|, at);
  }
}
