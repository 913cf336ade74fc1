/** The log writer and reader as the medium of the durability protocol. */
module LogMedium {
  import opened Wrappers
  import opened LogFormat
  import opened LogWriter
  import opened LogRoundTrip
  import opened LogPrefixes
  import opened Durability

  /** How write batches are stored in log records: which ones the format has room for, and how. */
  datatype BatchCodec = BatchCodec(fits: Record -> bool, encode: Record -> seq<Byte>,
    decode: seq<Byte> -> Option<Record>)

  ghost predicate RoundTrips(codec: BatchCodec) {
    forall r :: codec.fits(r) ==> codec.decode(codec.encode(r)) == Some(r)
  }

  /** RecoverLogFile without paranoid checks: log records that are no batches are skipped. */
  function Understood(codec: BatchCodec, records: seq<seq<Byte>>): seq<Record> {
    if records == [] then []
    else
      var rest := Understood(codec, records[1..]);
      match codec.decode(records[0])
      case None => rest
      case Some(r) => [r] + rest
  }

  function Encoded(codec: BatchCodec, records: seq<Record>): (bytes: seq<seq<Byte>>)
    ensures |bytes| == |records| && forall i :: 0 <= i < |records| ==> bytes[i] == codec.encode(records[i])
  {
    seq(|records|, i requires 0 <= i < |records| => codec.encode(records[i]))
  }

  ghost function LogEnv(sum: Checksum, codec: BatchCodec): Env {
    Env(codec.fits,
        (file: seq<Byte>) => Understood(codec, Records(sum, file)),
        (offset: nat, r: Record) => Emit(FramingOf(sum), offset, codec.encode(r), true),
        (offset: nat, r: Record, bytes: seq<Byte>, offset': nat) => MayLeave(sum, offset, codec.encode(r), bytes,
          offset'))
  }

  /** A failing AddRecord may leave these bytes and end at this offset. */
  ghost predicate MayLeave(sum: Checksum, offset: nat, data: seq<Byte>, bytes: seq<Byte>, offset': nat) {
    exists fault: Fault :: fault.FaultAt?
      && Tried(FramingOf(sum), offset, data, true, fault) == Attempt(bytes, offset', false)
  }

  // ---- The two laws ----

  lemma {:induction false} UnderstoodAppends(codec: BatchCodec, a: seq<seq<Byte>>, b: seq<seq<Byte>>)
    ensures Understood(codec, a + b) == Understood(codec, a) + Understood(codec, b)
    decreases |a|
  {
    if a == [] {
      assert a + b == b;
    } else {
      assert (a + b)[1..] == a[1..] + b;
      UnderstoodAppends(codec, a[1..], b);
    }
  }

  lemma UnderstoodPrefix(codec: BatchCodec, a: seq<seq<Byte>>, b: seq<seq<Byte>>)
    requires a <= b
    ensures Understood(codec, a) <= Understood(codec, b)
  {
    assert b == a + b[|a|..];
    UnderstoodAppends(codec, a, b[|a|..]);
  }

  lemma {:induction false} EncodedIsUnderstood(codec: BatchCodec, records: seq<Record>)
    requires RoundTrips(codec) && forall r :: r in records ==> codec.fits(r)
    ensures Understood(codec, Encoded(codec, records)) == records
    decreases |records|
  {
    if records != [] {
      EncodedIsUnderstood(codec, records[1..]);
      assert Encoded(codec, records)[1..] == Encoded(codec, records[1..]);
      assert [records[0]] + records[1..] == records;
    }
  }

  lemma EncodeCons(frame: Framing, q: nat, records: seq<seq<Byte>>, first: seq<Byte>, after: nat)
    requires records != [] && first == Emit(frame, q, records[0], true) && after == q + |first|
    ensures Encode(frame, q, records) == first + Encode(frame, after, records[1..])
  {
  }

  lemma EncodeOne(frame: Framing, q: nat, last: seq<Byte>)
    ensures Encode(frame, q, [last]) == Emit(frame, q, last, true)
  {
    assert [last][1..] == [];
    assert Emit(frame, q, last, true) + [] == Emit(frame, q, last, true);
  }

  lemma {:induction false} EncodeSnoc(frame: Framing, q: nat, records: seq<seq<Byte>>, last: seq<Byte>)
    ensures Encode(frame, q, records + [last])
         == Encode(frame, q, records) + Emit(frame, q + |Encode(frame, q, records)|, last, true)
    decreases |records|
  {
    var all := records + [last];
    if records == [] {
      assert all == [last];
      EncodeOne(frame, q, last);
    } else {
      var first := Emit(frame, q, records[0], true);
      var after := q + |first|;
      EncodeSnoc(frame, after, records[1..], last);
      assert all[1..] == records[1..] + [last];
      ConsSnoc(frame, q, records, all, first, after, last);
    }
  }

  lemma ConsSnoc(frame: Framing, q: nat, records: seq<seq<Byte>>, all: seq<seq<Byte>>, first: seq<Byte>, after: nat,
                 last: seq<Byte>)
    requires records != [] && first == Emit(frame, q, records[0], true) && after == q + |first|
    requires all != [] && all[0] == records[0]
    requires Encode(frame, after, all[1..]) == Encode(frame, after, records[1..]) + Emit(frame,
             after + |Encode(frame, after, records[1..])|, last, true)
    ensures Encode(frame, q, all) == Encode(frame, q, records) + Emit(frame, q + |Encode(frame, q, records)|, last,
            true)
  {
    EncodeCons(frame, q, records, first, after);
    EncodeCons(frame, q, all, first, after);
    SameSum(first, Encode(frame, after, records[1..]), Encode(frame, after, all[1..]), q);
  }

  lemma SameSum(a: seq<Byte>, b: seq<Byte>, c: seq<Byte>, q: nat)
    ensures q + |a + b| == q + |a| + |b|
    ensures forall d :: c == b + d ==> a + c == a + b + d
  {
  }

  lemma EncodedSnoc(codec: BatchCodec, records: seq<Record>)
    requires records != []
    ensures Encoded(codec, records) == Encoded(codec, records[..|records| - 1]) + [codec.encode(records[|records| - 1])]
  {
  }

  ghost predicate WritesWith(env: Env, frame: Framing, codec: BatchCodec) {
    forall offset, r :: env.write(offset, r) == Emit(frame, offset, codec.encode(r), true)
  }

  lemma {:induction false} ImageIsEncode(env: Env, frame: Framing, codec: BatchCodec, records: seq<Record>)
    requires WritesWith(env, frame, codec)
    ensures Image(env, records) == Encode(frame, 0, Encoded(codec, records))
    decreases |records|
  {
    if records != [] {
      var n := |records| - 1;
      var file := Image(env, records[..n]);
      ImageIsEncode(env, frame, codec, records[..n]);
      EncodedSnoc(codec, records);
      EncodeSnoc(frame, 0, Encoded(codec, records[..n]), codec.encode(records[n]));
      assert env.write(|file|, records[n]) == Emit(frame, |file|, codec.encode(records[n]), true);
    }
  }

  lemma ReadsImage(sum: Checksum, codec: BatchCodec, records: seq<Record>)
    requires RoundTrips(codec) && forall r :: r in records ==> codec.fits(r)
    ensures LogEnv(sum, codec).read(Image(LogEnv(sum, codec), records)) == records
  {
    var bytes := Encoded(codec, records);
    var file := Encode(FramingOf(sum), 0, bytes);
    ImageIsEncode(LogEnv(sum, codec), FramingOf(sum), codec, records);
    LogRoundTrip.RoundTrip(sum, file, 0, bytes);
    EncodedIsUnderstood(codec, records);
  }

  /** Any checksum and any batch format that decodes what it encodes make a lawful medium. */
  lemma LogEnvIsLawful(sum: Checksum, codec: BatchCodec)
    requires RoundTrips(codec)
    ensures Lawful(LogEnv(sum, codec))
  {
    var env := LogEnv(sum, codec);
    forall file: seq<Byte>, c: nat | c <= |file|
      ensures env.read(file[..c]) <= env.read(file)
    {
      CutLosesOnlyTheEnd(sum, file, c);
      UnderstoodPrefix(codec, Records(sum, file[..c]), Records(sum, file));
    }
    forall records | RecordsFit(env, records)
      ensures env.read(Image(env, records)) == records
    {
      ReadsImage(sum, codec, records);
    }
  }
}
