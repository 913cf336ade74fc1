/** A log in which an append has failed, as the durability protocol sees it: what is read of it,
    and exactly when that is only what was appended. */
module TornMedium {
  import opened LogFormat
  import opened LogWriter
  import opened TornReads
  import opened Durability
  import opened LogMedium

  /** After some complete records an append failed, and its tear at g is rejected; anything may
      have been appended since. */
  ghost predicate TornOnce(sum: Checksum, codec: BatchCodec, log: Log, data: seq<Byte>, fault: Fault, g: nat) {
    var file, before := log.file, Encode(FramingOf(sum), 0, Encoded(codec, log.records));
    && before <= file && HoldsTorn(sum, file, |before|, data, true, fault)
    && g == TearAt(|before|, |data|, fault.fragment) <= |file| && Rejected(sum, file, g)
  }

  /** The batches in the blocks behind the tear, as the reader finds them. */
  ghost function BehindTear(sum: Checksum, codec: BatchCodec, log: Log, g: nat): seq<Record> {
    Understood(codec, FromNextBlock(sum, log.file, g))
  }

  lemma TornOnceReads(sum: Checksum, codec: BatchCodec, log: Log, data: seq<Byte>, fault: Fault, g: nat)
    requires RoundTrips(codec) && RecordsFit(LogEnv(sum, codec), log.records)
             && TornOnce(sum, codec, log, data, fault, g)
    ensures LogEnv(sum, codec).read(log.file) == log.records + BehindTear(sum, codec, log, g)
  {
    var bytes := Encoded(codec, log.records);
    TornLogReads(sum, log.file, bytes, |Encode(FramingOf(sum), 0, bytes)|, data, fault, g);
    EncodedIsUnderstood(codec, log.records);
    UnderstoodAppends(codec, bytes, FromNextBlock(sum, log.file, g));
  }

  /** The log reads only what was appended if, and only if, that holds for the blocks behind the
      tear, read from the first file offset that is a multiple of the block size. */
  lemma GenuineIff(sum: Checksum, codec: BatchCodec, log: Log, data: seq<Byte>, fault: Fault, g: nat)
    requires RoundTrips(codec) && RecordsFit(LogEnv(sum, codec), log.records)
             && TornOnce(sum, codec, log, data, fault, g)
    ensures log.Genuine(LogEnv(sum, codec)) <==> forall r :: r in BehindTear(sum, codec, log, g) ==> Recorded(log, r)
  {
    TornOnceReads(sum, codec, log, data, fault, g);
  }

  /** So it does if nothing appended since has room for a header behind that block. */
  lemma HarmlessTear(sum: Checksum, codec: BatchCodec, log: Log, data: seq<Byte>, fault: Fault, g: nat)
    requires RoundTrips(codec) && RecordsFit(LogEnv(sum, codec), log.records)
             && TornOnce(sum, codec, log, data, fault, g)
    requires |log.file| < Resume(g) + HEADER_SIZE
    ensures LogEnv(sum, codec).read(log.file) == log.records
    ensures log.Genuine(LogEnv(sum, codec)) && (InOrder(log.records) ==> log.Faithful(LogEnv(sum, codec)))
  {
    TornOnceReads(sum, codec, log, data, fault, g);
    NothingBehind(sum, log.file, g);
  }
}
