/** In LevelDB's own batch format, some value does what TornWrites says a record may do: once an
    append has failed, a value that holds the bytes of a log record can come back as a write. */
module ForeignWrites {
  import opened InternalKeys
  import opened LogFormat
  import opened Coding
  import opened TornReads
  import opened Durability
  import opened LogMedium
  import opened WriteBatchFormat
  import opened TornWrites
  import WrittenOnly

  lemma BytesAreAValue(bytes: seq<Byte>)
    ensures ValueBytes(ValueOf(bytes)) == bytes && forall i :: 0 <= i < |bytes| ==> ValueOf(bytes)[i] as int < 256
  {
  }

  lemma VarintOfThree(v: nat)
    requires 0x4000 <= v < 0x20_0000
    ensures |Varint(v)| == 3
  {
    assert |Varint(v / 128 / 128)| == 1 && |Varint(v / 128)| == 1 + |Varint(v / 128 / 128)|;
  }

  const BEFORE_VALUE := 25   // header, tag, length-prefixed key, length of the value

  /** A Put whose value ends in some bytes. */
  function PutOf(user: UserKey, filler: nat, part: seq<Byte>): Op { Op(user, Put, ValueOf(Zeros(filler) + part)) }

  /** Its batch ends in them, too, behind a known number of bytes. */
  lemma BatchEndsWith(keys: KeyFormat, user: UserKey, sequence: nat, filler: nat, part: seq<Byte>)
      returns (x: seq<Byte>)
    requires |keys.bytes(user)| == 8
    requires 0x4000 <= filler + |part| < 0x20_0000
    ensures |x| == BEFORE_VALUE + filler && BatchBytes(keys, Record(sequence, [PutOf(user, filler, part)])) == x + part
  {
    var op, value := PutOf(user, filler, part), Zeros(filler) + part;
    var key := keys.bytes(user);
    var head := EncodeFixed64(sequence) + CountBytes(1) + ([1] + LengthPrefixed(key) + Varint(|value|));
    BytesAreAValue(value);
    VarintOfThree(|value|);
    x := head + Zeros(filler);
    OneOp(keys, op);
    assert LengthPrefixed(value) == Varint(|value|) + value;
    Shifted(EncodeFixed64(sequence) + CountBytes(1), [1] + LengthPrefixed(key), Varint(|value|), Zeros(filler), part);
  }

  lemma OneOp(keys: KeyFormat, op: Op)
    ensures OpsBytes(keys, [op]) == OpBytes(keys, op)
  {
    assert [op][1..] == [];
    assert OpBytes(keys, op) + [] == OpBytes(keys, op);
  }

  lemma Shifted(a: seq<Byte>, b: seq<Byte>, c: seq<Byte>, d: seq<Byte>, e: seq<Byte>)
    ensures a + (b + (c + (d + e))) == a + (b + c) + d + e
  {
  }

  lemma PutFits(keys: KeyFormat, user: UserKey, filler: nat, part: seq<Byte>)
    requires keys.has(user) && filler + |part| < WORD_LIMIT
    ensures OpFits(keys, PutOf(user, filler, part))
  {
    BytesAreAValue(Zeros(filler) + part);
  }

  const FILLER := BLOCK_SIZE - 3 * HEADER_SIZE - BEFORE_VALUE

  lemma FormatIs(keys: KeyFormat, r: Record)
    ensures BatchFormat(keys).fits(r) == BatchFits(keys, r) && BatchFormat(keys).encode(r) == BatchBytes(keys, r)
  {
  }

  lemma SceneFits(sum: Checksum, codec: BatchCodec, first: seq<Op>, second: Op)
    requires RoundTrips(codec) && codec.fits(Record(1, first)) && codec.fits(Record(1 + |first|, [second]))
    requires HEADER_SIZE + |codec.encode(Record(1, first))| <= BLOCK_SIZE
    ensures IsScene(sum, codec, SceneOf(sum, codec, first, second, HEADER_SIZE), HEADER_SIZE)
  {
  }

  lemma SceneSmuggles(sum: Checksum, codec: BatchCodec, first: seq<Op>, second: Op, foreign: Record, x: seq<Byte>,
                      s: Scene)
    requires s.First() == Record(1, first) && s.Second() == Record(1 + |first|, [second])
    requires HEADER_SIZE <= |codec.encode(Record(1, first))|
    requires |codec.encode(Record(1, first))| + 2 * HEADER_SIZE + |codec.encode(foreign)| <= BLOCK_SIZE
    requires codec.encode(Record(1 + |first|, [second])) == x + Physical(sum, Full, codec.encode(foreign))
             && |x| == BLOCK_SIZE - 3 * HEADER_SIZE
    ensures Smuggles(sum, codec, s, foreign, x, [])
  {
    NothingMore(x, Physical(sum, Full, codec.encode(foreign)));
  }

  lemma NothingMore(x: seq<Byte>, part: seq<Byte>)
    ensures x + part + [] == x + part
  {
  }

  /** In the run, after all calls have returned, recovery may bring back an entry nobody wrote. */
  ghost predicate BringsBack(s: Scene, e: Entry) {
    Acknowledged(s) && !Durability.Known(s.States()[9], e)
      && !WrittenOnly.InventsNothing(s.States()[9], s.States()[9].saved)
  }

  /** For any first write and any foreign batch that leave room in a block, there is a second
      write which makes the foreign batch come back, if just the header of the first reaches the
      file and the reader rejects it. */
  lemma SomeValueComesBack(sum: Checksum, keys: KeyFormat, user: UserKey, first: seq<Op>, foreign: Record, e: Entry)
      returns (s: Scene)
    requires ReadsKeys(keys) && keys.has(user) && |keys.bytes(user)| == 8
    requires BatchFits(keys, Record(1, first)) && BatchFits(keys, foreign) && |first| + 1 < LONG_LIMIT
    requires |BatchBytes(keys, Record(1, first))| + 2 * HEADER_SIZE + |BatchBytes(keys, foreign)| <= BLOCK_SIZE
    requires foreign.Holds(e) && !Record(1, first).Holds(e) && foreign.sequence > |first| + 1
    ensures IsScene(sum, BatchFormat(keys), s, HEADER_SIZE) && s.first == first
    ensures Rejected(sum, s.File(), 0) ==> BringsBack(s, e)
  {
    var second, x := SmugglingBatch(sum, keys, BatchFormat(keys), user, first, foreign, e);
    s := SceneEnds(sum, BatchFormat(keys), first, second, foreign, x, e);
  }

  /** The second batch ends in the log record of a foreign batch, at the place where the reader
      resumes. */
  ghost predicate Prepared(sum: Checksum, codec: BatchCodec, first: seq<Op>, second: Op, foreign: Record,
                           x: seq<Byte>, e: Entry) {
    && RoundTrips(codec) && codec.fits(Record(1, first)) && codec.fits(Record(1 + |first|, [second]))
    && codec.fits(foreign) && HEADER_SIZE <= |codec.encode(Record(1, first))|
    && |codec.encode(Record(1, first))| + 2 * HEADER_SIZE + |codec.encode(foreign)| <= BLOCK_SIZE
    && codec.encode(Record(1 + |first|, [second])) == x + Physical(sum, Full, codec.encode(foreign))
    && |x| == BLOCK_SIZE - 3 * HEADER_SIZE
    && foreign.Holds(e) && !Record(1, first).Holds(e) && foreign.sequence > |first| + 1
  }

  lemma SmugglingBatch(sum: Checksum, keys: KeyFormat, codec: BatchCodec, user: UserKey, first: seq<Op>,
                       foreign: Record, e: Entry)
      returns (second: Op, x: seq<Byte>)
    requires codec == BatchFormat(keys) && ReadsKeys(keys) && keys.has(user) && |keys.bytes(user)| == 8
    requires BatchFits(keys, Record(1, first)) && BatchFits(keys, foreign) && |first| + 1 < LONG_LIMIT
    requires |BatchBytes(keys, Record(1, first))| + 2 * HEADER_SIZE + |BatchBytes(keys, foreign)| <= BLOCK_SIZE
    requires foreign.Holds(e) && !Record(1, first).Holds(e) && foreign.sequence > |first| + 1
    ensures Prepared(sum, codec, first, second, foreign, x, e)
  {
    FormatIs(keys, Record(1, first));
    FormatIs(keys, foreign);
    second, x := SmugglingPut(sum, keys, codec, user, 1 + |first|, codec.encode(foreign));
    BatchesRoundTrip(keys);
  }

  /** A Put whose batch ends in a log record, behind as many bytes as the reader drops. */
  lemma SmugglingPut(sum: Checksum, keys: KeyFormat, codec: BatchCodec, user: UserKey, sequence: nat, p: seq<Byte>)
      returns (second: Op, x: seq<Byte>)
    requires codec == BatchFormat(keys)
    requires keys.has(user) && |keys.bytes(user)| == 8 && sequence < LONG_LIMIT && |p| <= BLOCK_SIZE
    ensures codec.fits(Record(sequence, [second]))
    ensures codec.encode(Record(sequence, [second])) == x + Physical(sum, Full, p)
            && |x| == BLOCK_SIZE - 3 * HEADER_SIZE
  {
    second := PutOf(user, FILLER, Physical(sum, Full, p));
    PutFits(keys, user, FILLER, Physical(sum, Full, p));
    x := BatchEndsWith(keys, user, sequence, FILLER, Physical(sum, Full, p));
    FormatIs(keys, Record(sequence, [second]));
  }

  lemma SceneEnds(sum: Checksum, codec: BatchCodec, first: seq<Op>, second: Op, foreign: Record, x: seq<Byte>,
                  e: Entry)
      returns (s: Scene)
    requires Prepared(sum, codec, first, second, foreign, x, e)
    ensures IsScene(sum, codec, s, HEADER_SIZE) && s.first == first
    ensures Rejected(sum, s.File(), 0) ==> BringsBack(s, e)
  {
    s := SceneOf(sum, codec, first, second, HEADER_SIZE);
    SceneFits(sum, codec, first, second);
    SceneSmuggles(sum, codec, first, second, foreign, x, s);
    if Rejected(sum, s.File(), 0) {
      ForeignEntryComesBack(sum, codec, s, foreign, x, [], e);
    }
  }
}
