/** A log file in which an append has failed. The writer's block offset moves on as if the
    fragment had been written, so everything later may lie askew in the blocks. */
module TornLogs {
  import opened Wrappers
  import opened LogFormat
  import opened LogWriter
  import opened LogReader
  import opened LogRoundTrip
  import opened LogPrefixes

  // ---- Where the reader looks ----

  /** Where the reader at offset q looks for a header: behind a trailer, if q is in one. */
  function Here(q: nat): nat { q + PadLength(q) }

  /** Reading on from an offset, the physical record at x is delivered. */
  ghost predicate DeliversAt(next: Stream, size: nat, from: nat, x: nat, step: Step)
    requires WellBehaved(next, size) && from <= size
    decreases size - from
  {
    || (Here(from) == x && next(from) == step)
    || (!next(from).outcome.ActsAsEof() && DeliversAt(next, size, next(from).next, x, step))
  }

  lemma HereGrows(p: nat, q: nat)
    requires Here(p) <= q
    ensures Here(p) <= Here(q)
  {
  }

  /** The reader never looks at or before a header again. */
  lemma StepPasses(sum: Checksum, file: seq<Byte>, q: nat)
    requires q <= |file| && NextPhysical(sum, file, q).outcome != Eof
    ensures Here(q) + HEADER_SIZE <= NextPhysical(sum, file, q).next
  {
    LeftoverAhead(q, Leftover(q));
  }

  lemma {:induction false} DeliveredAhead(sum: Checksum, file: seq<Byte>, from: nat, x: nat, step: Step)
    requires from <= |file| && x < Here(from)
    ensures !DeliversAt(StreamOf(sum, file), |file|, from, x, step)
    decreases |file| - from
  {
    var s := StreamOf(sum, file)(from);
    if !s.outcome.ActsAsEof() {
      StepPasses(sum, file, from);
      HereGrows(from, s.next);
      DeliveredAhead(sum, file, s.next, x, step);
    }
  }

  // ---- One header, wherever it lies ----

  /** Reading at q is reading at the header's place. */
  lemma ReadsHere(sum: Checksum, file: seq<Byte>, q: nat)
    requires q <= |file| && Here(q) <= |file|
    ensures NextPhysical(sum, file, q) == NextPhysical(sum, file, Here(q))
    ensures HEADER_SIZE <= Leftover(Here(q))
  {
    LeftoverAhead(q, Leftover(q));
  }

  /** A complete physical record at x is read exactly if the block at x has room for it. */
  lemma PhysicalReadIff(sum: Checksum, file: seq<Byte>, q: nat, t: RecordType, payload: seq<Byte>)
    requires q <= |file| && t != Zero && HEADER_SIZE + |payload| <= BLOCK_SIZE
    requires Here(q) + HEADER_SIZE + |payload| <= |file| && Agrees(file, Here(q), Physical(sum, t, payload))
    ensures NextPhysical(sum, file, q) == Step(Got(t.Code(), payload), Here(q) + HEADER_SIZE + |payload|, 0)
            <==> HEADER_SIZE + |payload| <= Leftover(Here(q))
  {
    var x := Here(q);
    ReadsHere(sum, file, q);
    if HEADER_SIZE + |payload| <= Leftover(x) {
      PhysicalParses(sum, file, x, t, payload);
    } else {
      StoredHeader(sum, file, x, t, payload);
    }
  }

  // ---- After the tear ----

  /** The file holds the first k bytes of the fragment written at g, the end of what was
      written before. */
  ghost predicate TornAt(file: seq<Byte>, g: nat, here: seq<Byte>, k: nat) {
    k <= |here| && g + k <= |file| && file[g..g + k] == here[..k]
  }

  /** What was left is nothing, or part of a trailer that the next fragment completes, or all
      of the fragment. */
  predicate StaysInStep(g: nat, v: nat, k: nat) { k == v - g || k + PadLength(v) == PadLength(g) }

  lemma BeforeBlockEnd(g: nat, size: nat, k: nat)
    requires k < PadLength(g) + HEADER_SIZE + Taken(g, size)
    ensures var v := g + PadLength(g) + HEADER_SIZE + Taken(g, size);
            g + k + PadLength(v) < BlockEnd(Here(g))
  {
    var h, n := Here(g), Taken(g, size);
    LeftoverAhead(h, HEADER_SIZE + n);
  }

  /** Unless the next header lies where the reader looks, it is passed over. */
  lemma PassedOver(sum: Checksum, file: seq<Byte>, g: nat, x: nat, step: Step)
    requires g <= |file| && x + HEADER_SIZE <= |file|
    requires Here(g) < x < BlockEnd(Here(g)) && !NextPhysical(sum, file, g).outcome.Got?
    ensures !DeliversAt(StreamOf(sum, file), |file|, g, x, step)
  {
    var s := NextPhysical(sum, file, g);
    ReadsHere(sum, file, g);
    if !s.outcome.ActsAsEof() {
      assert s.next > x;
      HereIsLater(s.next);
      DeliveredAhead(sum, file, s.next, x, step);
    }
  }

  lemma HereIsLater(q: nat)
    ensures q <= Here(q)
  {
  }

  /** What a torn fragment is: the writer moves on by its length, and if nothing is missing it
      is read. */
  lemma TornFragment(sum: Checksum, file: seq<Byte>, g: nat, data: seq<Byte>, begin: bool, here: seq<Byte>, k: nat)
    requires here == Fragment(FramingOf(sum), g, data, begin) && TornAt(file, g, here, k)
    ensures Torn(sum, file, g, |data|, k, g + |here|)
  {
    if k == |here| {
      assert here[..k] == here;
      forall i | 0 <= i < |here| && g + i < |file|
        ensures file[g + i] == here[i]
      {
        assert file[g..g + |here|][i] == here[i];
      }
      ReaderUnderstands(sum, file);
      FragmentIsNext(FramingOf(sum), StreamOf(sum, file), file, g, data, begin);
    }
  }

  /** Some fragment at g, for `size` bytes of data, left k bytes; the writer went on at v. */
  ghost predicate Torn(sum: Checksum, file: seq<Byte>, g: nat, size: nat, k: nat, v: nat) {
    && v == g + PadLength(g) + HEADER_SIZE + Taken(g, size) && k <= v - g && g + k <= |file|
    && (k == v - g ==> ReadUpTo(StreamOf(sum, file), g, v))
  }

  /** One step leads from g to v. */
  ghost predicate ReadUpTo(next: Stream, g: nat, v: nat) { !next(g).outcome.ActsAsEof() && next(g).next == v }

  /** The physical record lies complete at x. */
  ghost predicate LiesAt(sum: Checksum, file: seq<Byte>, x: nat, t: RecordType, payload: seq<Byte>) {
    x + HEADER_SIZE + |payload| <= |file| && Agrees(file, x, Physical(sum, t, payload))
  }

  function GotAt(x: nat, t: RecordType, payload: seq<Byte>): Step {
    Step(Got(t.Code(), payload), x + HEADER_SIZE + |payload|, 0)
  }

  /** A fragment fails after k of its bytes. The writer goes on at offset v as if it had been
      written, while the file goes on at g + k. The next physical record is read, after any
      number of others, if and only if what was left keeps it in step and the block it really
      lies in has room for it; the checksum need only not take the torn bytes for a record. */
  lemma NextRecordReadIff(sum: Checksum, file: seq<Byte>, g: nat, size: nat, k: nat, v: nat, t: RecordType,
                          payload: seq<Byte>, x: nat, step: Step)
    requires Torn(sum, file, g, size, k, v)
    requires t != Zero && HEADER_SIZE + |payload| <= BLOCK_SIZE
    requires x == g + k + PadLength(v) && step == GotAt(x, t, payload) && LiesAt(sum, file, x, t, payload)
    requires !StaysInStep(g, v, k) ==> !NextPhysical(sum, file, g).outcome.Got?
    ensures DeliversAt(StreamOf(sum, file), |file|, g, x, step)
            <==> StaysInStep(g, v, k) && HEADER_SIZE + |payload| <= Leftover(x)
  {
    if k + PadLength(v) == PadLength(g) {
      DirectlyRead(sum, file, g, x, t, payload, step);
    } else if k == v - g {
      ReadBehind(sum, file, g, v, x, t, payload, step);
    } else {
      LiesInside(sum, file, x, t, payload);
      OutOfStep(sum, file, g, size, k, v, step);
    }
  }

  lemma ReadBehind(sum: Checksum, file: seq<Byte>, g: nat, v: nat, x: nat, t: RecordType, payload: seq<Byte>,
                   step: Step)
    requires g <= |file| && v <= |file| && ReadUpTo(StreamOf(sum, file), g, v) && Here(g) < v && x == Here(v)
    requires t != Zero && HEADER_SIZE + |payload| <= BLOCK_SIZE
    requires LiesAt(sum, file, x, t, payload) && step == GotAt(x, t, payload)
    ensures DeliversAt(StreamOf(sum, file), |file|, g, x, step) <==> HEADER_SIZE + |payload| <= Leftover(x)
  {
    DirectlyRead(sum, file, v, x, t, payload, step);
    StepFirst(StreamOf(sum, file), |file|, g, v, x, step);
  }

  lemma LiesInside(sum: Checksum, file: seq<Byte>, x: nat, t: RecordType, payload: seq<Byte>)
    requires LiesAt(sum, file, x, t, payload)
    ensures x + HEADER_SIZE <= |file|
  {
  }

  lemma StepFirst(next: Stream, size: nat, g: nat, v: nat, x: nat, step: Step)
    requires WellBehaved(next, size) && g <= size && v <= size && ReadUpTo(next, g, v) && Here(g) != x
    ensures DeliversAt(next, size, g, x, step) <==> DeliversAt(next, size, v, x, step)
  {
  }

  lemma OutOfStep(sum: Checksum, file: seq<Byte>, g: nat, size: nat, k: nat, v: nat, step: Step)
    requires v == g + PadLength(g) + HEADER_SIZE + Taken(g, size) && k < v - g && k + PadLength(v) != PadLength(g)
    requires g <= |file| && g + k + PadLength(v) + HEADER_SIZE <= |file| && !NextPhysical(sum, file, g).outcome.Got?
    ensures !DeliversAt(StreamOf(sum, file), |file|, g, g + k + PadLength(v), step)
  {
    var x := g + k + PadLength(v);
    if x < Here(g) {
      DeliveredAhead(sum, file, g, x, step);
    } else {
      BeforeBlockEnd(g, size, k);
      PassedOver(sum, file, g, x, step);
    }
  }

  lemma DirectlyRead(sum: Checksum, file: seq<Byte>, q: nat, x: nat, t: RecordType, payload: seq<Byte>, step: Step)
    requires q <= |file| && x == Here(q) && t != Zero && HEADER_SIZE + |payload| <= BLOCK_SIZE
    requires LiesAt(sum, file, x, t, payload) && step == GotAt(x, t, payload)
    ensures DeliversAt(StreamOf(sum, file), |file|, q, x, step) <==> HEADER_SIZE + |payload| <= Leftover(x)
  {
    PhysicalReadIff(sum, file, q, t, payload);
    NotLater(sum, file, q, x, step);
  }

  lemma NotLater(sum: Checksum, file: seq<Byte>, q: nat, x: nat, step: Step)
    requires q <= |file| && x == Here(q)
    ensures DeliversAt(StreamOf(sum, file), |file|, q, x, step) <==> NextPhysical(sum, file, q) == step
  {
    var s := StreamOf(sum, file)(q);
    if !s.outcome.ActsAsEof() {
      StepPasses(sum, file, q);
      HereIsLater(s.next);
      DeliveredAhead(sum, file, s.next, x, step);
    }
  }

  // ---- Whole records after a tear ----

  /** Written at offset v, read from offset r: every fragment fits into the block it lies in. */
  ghost predicate Lands(v: nat, r: nat, data: seq<Byte>)
    decreases |data|, Leftover(v + PadLength(v)) == HEADER_SIZE
  {
    var n := Taken(v, |data|);
    var end := Here(r) + HEADER_SIZE + n;
    && HEADER_SIZE + n <= Leftover(Here(r))
    && (if n < |data| then (TakenFillsBlock(v, |data|); PadLength(end) == 0
       && Lands(v + PadLength(v) + HEADER_SIZE + n, end, data[n..])) else true)
  }

  /** The file holds the record's bytes, its first header being where the reader looks. */
  ghost predicate HoldsRecord(sum: Checksum, file: seq<Byte>, v: nat, r: nat, data: seq<Byte>, begin: bool) {
    var q := Here(r) - PadLength(v);
    && 0 <= q && r <= |file|
    && q + |Emit(FramingOf(sum), v, data, begin)| <= |file|
    && Agrees(file, q, Emit(FramingOf(sum), v, data, begin))
  }

  lemma FirstPart(sum: Checksum, file: seq<Byte>, v: nat, r: nat, data: seq<Byte>, begin: bool)
    requires HoldsRecord(sum, file, v, r, data, begin)
    ensures var n := Taken(v, |data|);
            var x := Here(r);
            && x + HEADER_SIZE + n <= |file|
               && Agrees(file, x, Physical(sum, FragmentType(begin, n == |data|), data[..n]))
            && (n == |data| ==> x + HEADER_SIZE + n == x - PadLength(v) + |Emit(FramingOf(sum), v, data, begin)|)
  {
    var frame, n, q := FramingOf(sum), Taken(v, |data|), Here(r) - PadLength(v);
    var here := Fragment(frame, v, data, begin);
    if n < |data| {
      AgreesParts(file, q, here, Emit(frame, v + |here|, data[n..], false));
    }
    AgreesParts(file, q, Zeros(PadLength(v)), Physical(sum, FragmentType(begin, n == |data|), data[..n]));
  }

  /** The stream delivers the fragments of a record, the last one ending at `end`. */
  ghost predicate DeliversFrom(next: Stream, v: nat, r: nat, data: seq<Byte>, begin: bool, end: nat)
    decreases |data|, Leftover(v + PadLength(v)) == HEADER_SIZE
  {
    var n := Taken(v, |data|);
    var after := Here(r) + HEADER_SIZE + n;
    && next(r) == Step(Got(FragmentType(begin, n == |data|).Code(), data[..n]), after, 0)
    && (if n == |data| then end == after
        else (TakenFillsBlock(v, |data|); DeliversFrom(next, v + PadLength(v) + HEADER_SIZE + n, after, data[n..],
          false, end)))
  }

  lemma FirstOfLanding(sum: Checksum, file: seq<Byte>, v: nat, r: nat, data: seq<Byte>, begin: bool)
    requires HoldsRecord(sum, file, v, r, data, begin) && HEADER_SIZE + Taken(v, |data|) <= Leftover(Here(r))
    ensures var n := Taken(v, |data|);
            StreamOf(sum, file)(r) == Step(Got(FragmentType(begin, n == |data|).Code(), data[..n]),
              Here(r) + HEADER_SIZE + n, 0)
  {
    var n := Taken(v, |data|);
    FirstPart(sum, file, v, r, data, begin);
    PhysicalReadIff(sum, file, r, FragmentType(begin, n == |data|), data[..n]);
  }

  lemma LandsStep(v: nat, r: nat, data: seq<Byte>, n: nat, after: nat)
    requires Lands(v, r, data) && n == Taken(v, |data|) && after == Here(r) + HEADER_SIZE + n
    ensures HEADER_SIZE + n <= Leftover(Here(r))
    ensures n < |data| ==> PadLength(after) == 0 && Lands(v + PadLength(v) + HEADER_SIZE + n, after, data[n..])
  {
  }

  lemma DeliversStep(next: Stream, v: nat, r: nat, data: seq<Byte>, begin: bool, end: nat, n: nat, after: nat)
    requires n == Taken(v, |data|) && after == Here(r) + HEADER_SIZE + n
    requires next(r) == Step(Got(FragmentType(begin, n == |data|).Code(), data[..n]), after, 0)
    requires if n == |data| then end == after
             else DeliversFrom(next, v + PadLength(v) + HEADER_SIZE + n, after, data[n..], false, end)
    ensures DeliversFrom(next, v, r, data, begin, end)
  {
  }

  /** The record's bytes end there. */
  ghost predicate EndsAt(sum: Checksum, v: nat, r: nat, data: seq<Byte>, begin: bool, end: nat) {
    end == Here(r) - PadLength(v) + |Emit(FramingOf(sum), v, data, begin)|
  }

  lemma LastEnds(sum: Checksum, file: seq<Byte>, v: nat, r: nat, data: seq<Byte>, begin: bool, end: nat)
    requires HoldsRecord(sum, file, v, r, data, begin) && EndsAt(sum, v, r, data, begin, end)
             && Taken(v, |data|) == |data|
    ensures end == Here(r) + HEADER_SIZE + |data|
  {
    FirstPart(sum, file, v, r, data, begin);
  }

  lemma EmitGoesOn(frame: Framing, v: nat, data: seq<Byte>, begin: bool, n: nat, v': nat)
    requires n == Taken(v, |data|) < |data| && v' == v + PadLength(v) + HEADER_SIZE + n
    ensures PadLength(v') == 0
    ensures Emit(frame, v, data, begin) == Fragment(frame, v, data, begin) + Emit(frame, v', data[n..], false)
  {
    TakenFillsBlock(v, |data|);
  }

  lemma BytesHoldRecord(sum: Checksum, file: seq<Byte>, v: nat, r: nat, data: seq<Byte>, bytes: seq<Byte>, end: nat)
    requires bytes == Emit(FramingOf(sum), v, data, false) && PadLength(v) == 0 && PadLength(r) == 0
    requires Agrees(file, r, bytes) && end == r + |bytes| <= |file|
    ensures HoldsRecord(sum, file, v, r, data, false) && EndsAt(sum, v, r, data, false, end)
  {
  }

  lemma RestHolds(sum: Checksum, file: seq<Byte>, v: nat, r: nat, data: seq<Byte>, begin: bool, end: nat, n: nat,
                  after: nat)
    requires HoldsRecord(sum, file, v, r, data, begin) && EndsAt(sum, v, r, data, begin, end)
    requires n == Taken(v, |data|) < |data| && after == Here(r) + HEADER_SIZE + n && PadLength(after) == 0
    ensures HoldsRecord(sum, file, v + PadLength(v) + HEADER_SIZE + n, after, data[n..], false)
    ensures EndsAt(sum, v + PadLength(v) + HEADER_SIZE + n, after, data[n..], false, end)
  {
    var frame, v' := FramingOf(sum), v + PadLength(v) + HEADER_SIZE + n;
    var rest := Emit(frame, v', data[n..], false);
    EmitGoesOn(frame, v, data, begin, n, v');
    AgreesParts(file, Here(r) - PadLength(v), Fragment(frame, v, data, begin), rest);
    BytesHoldRecord(sum, file, v', after, data[n..], rest, end);
  }

  lemma {:induction false} LandingDelivers(sum: Checksum, file: seq<Byte>, v: nat, r: nat, data: seq<Byte>,
                                           begin: bool, end: nat)
    requires HoldsRecord(sum, file, v, r, data, begin) && Lands(v, r, data) && EndsAt(sum, v, r, data, begin, end)
    ensures DeliversFrom(StreamOf(sum, file), v, r, data, begin, end)
    decreases |data|, Leftover(v + PadLength(v)) == HEADER_SIZE, 1
  {
    var n := Taken(v, |data|);
    var after := Here(r) + HEADER_SIZE + n;
    LandsStep(v, r, data, n, after);
    FirstOfLanding(sum, file, v, r, data, begin);
    if n == |data| {
      LastEnds(sum, file, v, r, data, begin, end);
    } else {
      RestHolds(sum, file, v, r, data, begin, end, n, after);
      RestDelivers(sum, file, v, data, end, n, after);
    }
    DeliversStep(StreamOf(sum, file), v, r, data, begin, end, n, after);
  }

  lemma {:induction false} RestDelivers(sum: Checksum, file: seq<Byte>, v: nat, data: seq<Byte>, end: nat, n: nat,
                                        after: nat)
    requires n == Taken(v, |data|) < |data| && Lands(v + PadLength(v) + HEADER_SIZE + n, after, data[n..])
    requires HoldsRecord(sum, file, v + PadLength(v) + HEADER_SIZE + n, after, data[n..], false)
    requires EndsAt(sum, v + PadLength(v) + HEADER_SIZE + n, after, data[n..], false, end)
    ensures DeliversFrom(StreamOf(sum, file), v + PadLength(v) + HEADER_SIZE + n, after, data[n..], false, end)
    decreases |data|, Leftover(v + PadLength(v)) == HEADER_SIZE, 0
  {
    TakenFillsBlock(v, |data|);
    LandingDelivers(sum, file, v + PadLength(v) + HEADER_SIZE + n, after, data[n..], false, end);
  }

  function Collected(begin: bool, scratch: seq<Byte>, part: seq<Byte>): seq<Byte> {
    if begin then part else scratch + part
  }

  function Unfinished(begin: bool, inFragment: bool, scratch: seq<Byte>): nat {
    if begin && inFragment && scratch != [] then 1 else 0
  }

  lemma OneTurn(next: Stream, size: nat, r: nat, begin: bool, last: bool, part: seq<Byte>, after: nat,
                inFragment: bool, scratch: seq<Byte>)
    requires WellBehaved(next, size) && r <= size && after <= size && (!begin ==> inFragment)
    requires next(r) == Step(Got(FragmentType(begin, last).Code(), part), after, 0)
    ensures ReadFrom(next, size, r, inFragment, scratch)
         == if last then Result(Some(Collected(begin, scratch, part)), after, Unfinished(begin, inFragment, scratch))
            else Report(Unfinished(begin, inFragment, scratch),
              ReadFrom(next, size, after, true, Collected(begin, scratch, part)))
  {
    AbsorbsFragment(begin, last, part, inFragment, scratch);
  }

  lemma {:induction false} DeliveredIsRead(next: Stream, size: nat, v: nat, r: nat, data: seq<Byte>, begin: bool,
                                           inFragment: bool, scratch: seq<Byte>, end: nat)
    requires WellBehaved(next, size) && r <= size && DeliversFrom(next, v, r, data, begin, end)
             && (!begin ==> inFragment)
    ensures ReadFrom(next, size, r, inFragment, scratch) == Result(Some(Collected(begin, scratch, data)), end,
            Unfinished(begin, inFragment, scratch))
    decreases |data|, Leftover(v + PadLength(v)) == HEADER_SIZE
  {
    var n := Taken(v, |data|);
    var after := Here(r) + HEADER_SIZE + n;
    OneTurn(next, size, r, begin, n == |data|, data[..n], after, inFragment, scratch);
    CollectedTogether(begin, scratch, data, n);
    if n < |data| {
      TakenFillsBlock(v, |data|);
      DeliveredIsRead(next, size, v + PadLength(v) + HEADER_SIZE + n, after, data[n..], false, true,
        Collected(begin, scratch, data[..n]), end);
    }
  }

  lemma CollectedTogether(begin: bool, scratch: seq<Byte>, data: seq<Byte>, n: nat)
    requires n <= |data|
    ensures Collected(false, Collected(begin, scratch, data[..n]), data[n..]) == Collected(begin, scratch, data)
    ensures n == |data| ==> data[..n] == data
  {
  }

  /** A record that lands is read as the next one, whatever the reader was in the middle of;
      at most that unfinished record is reported. */
  lemma LandedIsRead(sum: Checksum, file: seq<Byte>, v: nat, r: nat, data: seq<Byte>, inFragment: bool,
                     scratch: seq<Byte>)
    requires HoldsRecord(sum, file, v, r, data, true) && Lands(v, r, data)
    ensures var end := Here(r) - PadLength(v) + |Emit(FramingOf(sum), v, data, true)|;
            ReadFrom(StreamOf(sum, file), |file|, r, inFragment, scratch) == Result(Some(data), end,
              Unfinished(true, inFragment, scratch))
  {
    var end := Here(r) - PadLength(v) + |Emit(FramingOf(sum), v, data, true)|;
    LandingDelivers(sum, file, v, r, data, true, end);
    DeliveredIsRead(StreamOf(sum, file), |file|, v, r, data, true, inFragment, scratch, end);
  }

  lemma AbsorbsFragment(begin: bool, last: bool, part: seq<Byte>, inFragment: bool, scratch: seq<Byte>)
    requires !begin ==> inFragment
    ensures Absorb(Got(FragmentType(begin, last).Code(), part), inFragment, scratch)
            == if last then Stop(Some(Collected(begin, scratch, part)), Unfinished(begin, inFragment, scratch))
               else GoOn(true, Collected(begin, scratch, part), Unfinished(begin, inFragment, scratch))
  {
  }

  // ---- Earlier records ----

  /** Whatever follows them in the file, records once written completely read back. */
  lemma EarlierRecordsStay(sum: Checksum, records: seq<seq<Byte>>, file: seq<Byte>)
    requires Encode(FramingOf(sum), 0, records) <= file
    ensures records <= Records(sum, file)
  {
    var whole := Encode(FramingOf(sum), 0, records);
    assert file[..|whole|] == whole;
    RoundTrip(sum, whole, 0, records);
    CutLosesOnlyTheEnd(sum, file, |whole|);
  }

  // ---- Two failing appends ----

  /** Both records fit into the first block, one behind the other. */
  ghost predicate FitTogether(first: seq<Byte>, second: seq<Byte>) {
    2 * HEADER_SIZE + |first| + |second| <= BLOCK_SIZE
  }

  lemma OneFragment(frame: Framing, v: nat, data: seq<Byte>)
    requires v + HEADER_SIZE + |data| <= BLOCK_SIZE
    ensures PadLength(v) == 0 && Taken(v, |data|) == |data| && Fragment(frame, v, data, true) == frame(Full, data)
    ensures Emit(frame, v, data, true) == frame(Full, data)
  {
    assert data[..|data|] == data;
    assert Zeros(0) + frame(Full, data) == frame(Full, data);
  }

  /** The header of a first record without its payload, and a complete second record: the
      reader takes the second for the payload of the first and finds neither. */
  lemma HeaderWithoutPayload(sum: Checksum, first: seq<Byte>, second: seq<Byte>, file: seq<Byte>)
    requires FitTogether(first, second) && HEADER_SIZE + |second| < |first|
    requires file == Cut(Physical(sum, Full, first), HEADER_SIZE) + Physical(sum, Full, second)
    ensures Records(sum, file) == []
  {
    var bytes := Physical(sum, Full, first);
    assert forall i :: 0 <= i < HEADER_SIZE ==> file[i] == bytes[i];
    HeaderOnly(sum, file, first);
  }

  lemma HeaderOnly(sum: Checksum, file: seq<Byte>, first: seq<Byte>)
    requires HEADER_SIZE <= |file| < HEADER_SIZE + |first| <= BLOCK_SIZE
    requires forall i :: 0 <= i < HEADER_SIZE ==> file[i] == Physical(sum, Full, first)[i]
    ensures Records(sum, file) == []
  {
    PhysicalParts(sum, Full, first);
    assert file[4] == |first| % 256 && file[5] == |first| / 256;
    assert ParseAt(sum, file, 0) == Step(Eof, |file|, 0);
  }

  /** The first record leaves nothing: the second one is read, though the writer believes it
      to be elsewhere. */
  lemma NothingLeft(sum: Checksum, first: seq<Byte>, second: seq<Byte>)
    requires FitTogether(first, second)
    ensures Records(sum, Physical(sum, Full, second)) == [second]
  {
    var file := Physical(sum, Full, second);
    OneFragment(FramingOf(sum), 0, second);
    Whole(sum, file, second);
  }

  lemma Whole(sum: Checksum, file: seq<Byte>, data: seq<Byte>)
    requires file == Emit(FramingOf(sum), 0, data, true)
    ensures Records(sum, file) == [data]
  {
    assert [data][1..] == [];
    assert Encode(FramingOf(sum), 0, [data]) == file + [];
    RoundTrip(sum, file, 0, [data]);
  }

  /** A writer whose first append fails after some bytes and whose second one succeeds, and
      what a reader then finds. */
  method FailThenWrite(sum: Checksum, first: seq<Byte>, second: seq<Byte>, k: nat)
      returns (ok1: bool, ok2: bool, got: seq<seq<Byte>>)
    requires FitTogether(first, second) && HEADER_SIZE + |second| < |first|
    ensures !ok1 && ok2
    ensures k == 0 ==> got == [second]
    ensures k == HEADER_SIZE ==> got == []
  {
    var w := new Writer(sum, []);
    ok1 := w.AddRecord(first, FaultAt(0, k));
    FirstFails(FramingOf(sum), first, k);
    ghost var left := w.dest;
    ok2 := w.AddRecord(second, NoFault);
    SecondIsWritten(FramingOf(sum), |first|, second);
    TwoAppends(sum, first, second, k, left, w.dest);
    var reports;
    got, reports := ReadFile(sum, w.dest);
  }

  lemma FirstFails(frame: Framing, first: seq<Byte>, k: nat)
    requires HEADER_SIZE + |first| <= BLOCK_SIZE
    ensures Tried(frame, 0, first, true, FaultAt(0, k)) == Attempt(Cut(frame(Full, first), k), HEADER_SIZE + |first|,
            false)
  {
    OneFragment(frame, 0, first);
  }

  lemma SecondIsWritten(frame: Framing, size: nat, second: seq<Byte>)
    requires 2 * HEADER_SIZE + size + |second| <= BLOCK_SIZE
    ensures Tried(frame, HEADER_SIZE + size, second, true, NoFault).bytes == frame(Full, second)
    ensures Tried(frame, HEADER_SIZE + size, second, true, NoFault).ok
  {
    OneFragment(frame, HEADER_SIZE + size, second);
    NoFaultTries(frame, HEADER_SIZE + size, second, true);
  }

  lemma TwoAppends(sum: Checksum, first: seq<Byte>, second: seq<Byte>, k: nat, left: seq<Byte>, file: seq<Byte>)
    requires FitTogether(first, second) && HEADER_SIZE + |second| < |first|
    requires left == Cut(Physical(sum, Full, first), k) && file == left + Physical(sum, Full, second)
    ensures k == 0 ==> Records(sum, file) == [second]
    ensures k == HEADER_SIZE ==> Records(sum, file) == []
  {
    if k == 0 {
      NothingLeft(sum, first, second);
      assert file == Physical(sum, Full, second);
    } else if k == HEADER_SIZE {
      HeaderWithoutPayload(sum, first, second, file);
    }
  }
}
