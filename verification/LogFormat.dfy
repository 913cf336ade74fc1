/** The log file format of db/log_format.h: checksums, headers and the bytes a writer emits. */
module LogFormat {

  type Byte = x: int | 0 <= x < 256
  const WORD_LIMIT := 0x1_0000_0000
  type Word = x: int | 0 <= x < WORD_LIMIT

  const BLOCK_SIZE := 32768
  const HEADER_SIZE := 7

  /** A checksum is any per-byte update; CRC32C is one. */
  datatype Checksum = Checksum(update: (Word, Byte) -> Word)
  {
    /** crc32c::Extend. */
    function Extend(crc: Word, data: seq<Byte>): Word
      decreases |data|
    {
      if data == [] then crc else Extend(update(crc, data[0]), data[1..])
    }

    /** crc32c::Value. */
    function Value(data: seq<Byte>): Word { Extend(0, data) }

    /** The writer extends a precomputed checksum of the type byte; the reader checks
        type and payload together. */
    lemma {:induction false} ExtendAppends(crc: Word, a: seq<Byte>, b: seq<Byte>)
      ensures Extend(Extend(crc, a), b) == Extend(crc, a + b)
      decreases |a|
    {
      if a == [] {
        assert a + b == b;
      } else {
        ExtendAppends(update(crc, a[0]), a[1..], b);
        assert (a + b)[1..] == a[1..] + b;
      }
    }
  }

  const MASK_DELTA: Word := 0xa282ead8

  /** crc32c::Mask: rotate right by 15 bits and add a constant. */
  function Mask(crc: Word): Word {
    (crc / 0x8000 + (crc % 0x8000) * 0x2_0000 + MASK_DELTA) % WORD_LIMIT
  }

  /** crc32c::Unmask. */
  function Unmask(masked: Word): Word {
    var rot := (masked - MASK_DELTA) % WORD_LIMIT;
    rot / 0x2_0000 + (rot % 0x2_0000) * 0x8000
  }

  lemma UnmaskMask(crc: Word)
    ensures Unmask(Mask(crc)) == crc
  {
    var hi, lo := crc / 0x8000, crc % 0x8000;
    var rot := hi + lo * 0x2_0000;
    assert 0 <= hi < 0x2_0000;
    RotationUndone(rot, Mask(crc));
    SplitRotation(hi, lo);
  }

  lemma RotationUndone(rot: int, masked: Word)
    requires 0 <= rot < WORD_LIMIT && masked == (rot + MASK_DELTA) % WORD_LIMIT
    ensures (masked - MASK_DELTA) % WORD_LIMIT == rot
  {
    if rot + MASK_DELTA < WORD_LIMIT {
      assert masked == rot + MASK_DELTA;
    } else {
      assert masked == rot + MASK_DELTA - WORD_LIMIT;
    }
  }

  lemma SplitRotation(hi: int, lo: int)
    requires 0 <= hi < 0x2_0000 && 0 <= lo
    ensures (hi + lo * 0x2_0000) / 0x2_0000 == lo && (hi + lo * 0x2_0000) % 0x2_0000 == hi
  {
  }

  function EncodeFixed32(w: Word): (bytes: seq<Byte>)
    ensures |bytes| == 4
  {
    [w % 256, w / 256 % 256, w / 0x1_0000 % 256, w / 0x100_0000]
  }

  function DecodeFixed32(b: seq<Byte>): Word
    requires |b| == 4
  {
    (b[0] as int) + (b[1] as int) * 256 + (b[2] as int) * 0x1_0000 + (b[3] as int) * 0x100_0000
  }

  lemma DecodeEncode(w: Word)
    ensures DecodeFixed32(EncodeFixed32(w)) == w
  {
    assert w / 0x1_0000 == w / 256 / 256;
    assert w / 0x100_0000 == w / 0x1_0000 / 256;
  }

  /** kZeroType .. kLastType. */
  datatype RecordType = Zero | Full | First | Middle | Last
  {
    function Code(): Byte {
      match this case Zero => 0 case Full => 1 case First => 2 case Middle => 3 case Last => 4
    }
  }

  /** EmitPhysicalRecord: header and payload; the length field has two bytes. */
  function Physical(sum: Checksum, t: RecordType, payload: seq<Byte>): (bytes: seq<Byte>)
    ensures |bytes| == HEADER_SIZE + |payload|
  {
    EncodeFixed32(Mask(sum.Extend(sum.Value([t.Code()]), payload)))
    + [|payload| % 256, |payload| / 256 % 256, t.Code()]
    + payload
  }

  /** How physical records look in a file. What follows depends only on their length. */
  type Framing = frame: (RecordType, seq<Byte>) -> seq<Byte> |
    forall t, payload :: |frame(t, payload)| == HEADER_SIZE + |payload|
    witness (t: RecordType, payload: seq<Byte>) => Zeros(HEADER_SIZE) + payload

  function FramingOf(sum: Checksum): Framing {
    (t: RecordType, payload: seq<Byte>) => Physical(sum, t, payload)
  }

  function FragmentType(begin: bool, end: bool): RecordType {
    if begin && end then Full else if begin then First else if end then Last else Middle
  }

  function Zeros(n: nat): (z: seq<Byte>)
    ensures |z| == n
  {
    seq(n, _ => 0)
  }

  /** Bytes left in the block that contains file offset q. */
  function Leftover(q: nat): (n: nat)
    ensures 0 < n <= BLOCK_SIZE
  {
    if q < BLOCK_SIZE then BLOCK_SIZE - q else Leftover(q - BLOCK_SIZE)
  }

  lemma {:induction false} LeftoverIsRemainder(q: nat)
    ensures Leftover(q) == BLOCK_SIZE - q % BLOCK_SIZE
  {
    if q >= BLOCK_SIZE {
      LeftoverIsRemainder(q - BLOCK_SIZE);
    }
  }

  /** Within a block the rest shrinks byte by byte; at its end a new block starts. */
  lemma {:induction false} LeftoverAhead(q: nat, n: nat)
    requires n <= Leftover(q)
    ensures Leftover(q + n) == if n == Leftover(q) then BLOCK_SIZE else Leftover(q) - n
  {
    if q >= BLOCK_SIZE {
      LeftoverAhead(q - BLOCK_SIZE, n);
    }
  }

  /** Too few bytes for a header are filled with zeros. */
  function PadLength(q: nat): (n: nat)
    ensures n < HEADER_SIZE && n <= Leftover(q)
    ensures HEADER_SIZE <= Leftover(q + n)
  {
    LeftoverAhead(q, Leftover(q));
    if Leftover(q) < HEADER_SIZE then Leftover(q) else 0
  }

  /** How much of the data fits into the block at offset q, a place with room for a header. */
  function FragmentLength(q: nat, size: nat): (n: nat)
    requires HEADER_SIZE <= Leftover(q)
    ensures n <= size && HEADER_SIZE + n <= Leftover(q)
    ensures n == size || HEADER_SIZE + n == Leftover(q)
  {
    var avail := Leftover(q) - HEADER_SIZE;
    if size < avail then size else avail
  }

  /** How much of the data goes into the next physical record. */
  function Taken(q: nat, size: nat): (n: nat)
    ensures n <= size
  {
    FragmentLength(q + PadLength(q), size)
  }

  /** A record that does not end here fills the block, and takes something unless only a
      header fits. */
  lemma TakenFillsBlock(q: nat, size: nat)
    requires Taken(q, size) < size
    ensures var after := q + PadLength(q) + HEADER_SIZE + Taken(q, size);
            Leftover(after) == BLOCK_SIZE && PadLength(after) == 0
    ensures Taken(q, size) > 0 || Leftover(q + PadLength(q)) == HEADER_SIZE
  {
    LeftoverAhead(q + PadLength(q), HEADER_SIZE + Taken(q, size));
  }

  lemma Regroup(a: seq<Byte>, b: seq<Byte>, c: seq<Byte>, bc: seq<Byte>)
    requires bc == b + c
    ensures a + bc == (a + b) + c
    ensures |a + b| == |a| + |b|
  {
  }

  /** The next physical record, with the trailer of zeros before it. */
  function Fragment(frame: Framing, q: nat, data: seq<Byte>, begin: bool): (bytes: seq<Byte>)
    ensures |bytes| == PadLength(q) + HEADER_SIZE + Taken(q, |data|)
  {
    var n := Taken(q, |data|);
    Zeros(PadLength(q)) + frame(FragmentType(begin, n == |data|), data[..n])
  }

  /** The bytes of one logical record (or of what is left of it) written at file offset q. */
  function Emit(frame: Framing, q: nat, data: seq<Byte>, begin: bool): (bytes: seq<Byte>)
    ensures |bytes| >= HEADER_SIZE
    decreases |data|, Leftover(q + PadLength(q)) == HEADER_SIZE
  {
    var n := Taken(q, |data|);
    var here := Fragment(frame, q, data, begin);
    assert n < |data| ==> Leftover(q + |here|) == BLOCK_SIZE by { if n < |data| { TakenFillsBlock(q, |data|); } }
    if n == |data| then here else here + Emit(frame, q + |here|, data[n..], false)
  }

  /** The bytes of a list of records, written from file offset q on. */
  function Encode(frame: Framing, q: nat, records: seq<seq<Byte>>): seq<Byte>
    decreases |records|
  {
    if records == [] then []
    else
      var first := Emit(frame, q, records[0], true);
      first + Encode(frame, q + |first|, records[1..])
  }
}
