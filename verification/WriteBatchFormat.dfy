/** The batch format of db/write_batch.cc: what a log record holds. */
module WriteBatchFormat {
  import opened Wrappers
  import opened InternalKeys
  import opened LogFormat
  import opened Coding
  import opened Durability
  import opened LogMedium

  /** kHeader. */
  const BATCH_HEADER := 12

  /** How user keys look; the model knows them by their rank. */
  datatype KeyFormat = KeyFormat(has: UserKey -> bool, bytes: UserKey -> seq<Byte>, rank: seq<Byte> -> Option<UserKey>)

  ghost predicate ReadsKeys(keys: KeyFormat) {
    forall user :: keys.has(user) ==> |keys.bytes(user)| < WORD_LIMIT && keys.rank(keys.bytes(user)) == Some(user)
  }

  function EncodeFixed64(v: nat): (bytes: seq<Byte>)
    ensures |bytes| == 8
  {
    EncodeFixed32(v % WORD_LIMIT) + EncodeFixed32(v / WORD_LIMIT % WORD_LIMIT)
  }

  function DecodeFixed64(b: seq<Byte>): nat
    requires |b| == 8
  {
    DecodeFixed32(b[..4]) + DecodeFixed32(b[4..]) * WORD_LIMIT
  }

  lemma WordsAreRead(low: Word, high: Word)
    ensures DecodeFixed64(EncodeFixed32(low) + EncodeFixed32(high)) == low + high * WORD_LIMIT
  {
    var l, h := EncodeFixed32(low), EncodeFixed32(high);
    assert (l + h)[..4] == l && (l + h)[4..] == h;
    DecodeEncode(low);
    DecodeEncode(high);
  }

  lemma Fixed64IsRead(v: nat)
    requires v < LONG_LIMIT
    ensures DecodeFixed64(EncodeFixed64(v)) == v
  {
    var low, high := v % WORD_LIMIT, v / WORD_LIMIT;
    assert high < WORD_LIMIT;
    SmallRemainder(high);
    WordsAreRead(low, high);
  }

  lemma SmallRemainder(w: nat)
    requires w < WORD_LIMIT
    ensures w % WORD_LIMIT == w
  {
  }

  // ---- Operations ----

  function ValueBytes(value: string): (bytes: seq<Byte>)
    ensures |bytes| == |value|
  {
    seq(|value|, i requires 0 <= i < |value| => value[i] as int % 256)
  }

  function ValueOf(bytes: seq<Byte>): (value: string)
    ensures |value| == |bytes|
  {
    seq(|bytes|, i requires 0 <= i < |bytes| => bytes[i] as char)
  }

  lemma ValueIsRead(value: string)
    requires forall i :: 0 <= i < |value| ==> value[i] as int < 256
    ensures ValueOf(ValueBytes(value)) == value
  {
  }

  /** kTypeValue = 1 with key and value, or kTypeDeletion = 0 with a key. */
  function OpBytes(keys: KeyFormat, op: Op): seq<Byte> {
    if op.kind.Put? then [1] + LengthPrefixed(keys.bytes(op.user)) + LengthPrefixed(ValueBytes(op.value))
    else [0] + LengthPrefixed(keys.bytes(op.user))
  }

  predicate OpFits(keys: KeyFormat, op: Op) {
    && keys.has(op.user) && |op.value| < WORD_LIMIT
    && (forall i :: 0 <= i < |op.value| ==> op.value[i] as int < 256)
    && (op.kind.Deletion? ==> op.value == "")
  }

  function OpsBytes(keys: KeyFormat, ops: seq<Op>): seq<Byte> {
    if ops == [] then [] else OpBytes(keys, ops[0]) + OpsBytes(keys, ops[1..])
  }

  /** The count, in 32 bits. */
  function CountBytes(n: nat): (bytes: seq<Byte>)
    ensures |bytes| == 4
  {
    EncodeFixed32(n % WORD_LIMIT)
  }

  function BatchBytes(keys: KeyFormat, r: Record): (bytes: seq<Byte>)
    ensures |bytes| >= BATCH_HEADER
  {
    EncodeFixed64(r.sequence) + CountBytes(|r.ops|) + OpsBytes(keys, r.ops)
  }

  /** Room for the sequence number, the count and all lengths. */
  predicate BatchFits(keys: KeyFormat, r: Record) {
    r.sequence < LONG_LIMIT && |r.ops| < WORD_LIMIT && forall i :: 0 <= i < |r.ops| ==> OpFits(keys, r.ops[i])
  }

  // ---- Reading ----

  /** One turn of Iterate's loop. */
  function ReadOp(keys: KeyFormat, input: seq<Byte>): (r: Option<Parsed<Op>>)
    requires input != []
    ensures r.Some? ==> |r.value.rest| < |input|
  {
    if input[0] != 1 && input[0] != 0 then None
    else
      match LengthPrefixedSlice(input[1..])
      case None => None
      case Some(key) =>
        match keys.rank(key.value)
        case None => None
        case Some(user) =>
          if input[0] == 0 then Some(Parsed(Op(user, Deletion, ""), key.rest))
          else
            match LengthPrefixedSlice(key.rest)
            case None => None
            case Some(value) => Some(Parsed(Op(user, Put, ValueOf(value.value)), value.rest))
  }

  function ReadOps(keys: KeyFormat, input: seq<Byte>): Option<seq<Op>>
    decreases |input|
  {
    if input == [] then Some([])
    else
      match ReadOp(keys, input)
      case None => None
      case Some(op) =>
        match ReadOps(keys, op.rest)
        case None => None
        case Some(ops) => Some([op.value] + ops)
  }

  /** Too small, a bad operation, an unknown tag, and a wrong count are errors. */
  function ReadBatch(keys: KeyFormat, bytes: seq<Byte>): Option<Record> {
    if |bytes| < BATCH_HEADER then None
    else
      match ReadOps(keys, bytes[BATCH_HEADER..])
      case None => None
      case Some(ops) => if |ops| == DecodeFixed32(bytes[8..12]) then Some(Record(DecodeFixed64(bytes[..8]), ops))
        else None
  }

  /** The operations handed over, and those still to come. */
  ghost predicate Iterating(keys: KeyFormat, goal: Option<seq<Op>>, ops: seq<Op>, input: seq<Byte>) {
    goal == match ReadOps(keys, input) case None => None case Some(rest) => Some(ops + rest)
  }

  lemma NothingYet(keys: KeyFormat, goal: Option<seq<Op>>, input: seq<Byte>)
    requires goal == ReadOps(keys, input)
    ensures Iterating(keys, goal, [], input)
  {
    assert goal.Some? ==> [] + goal.value == goal.value;
  }

  lemma OneOperation(keys: KeyFormat, goal: Option<seq<Op>>, ops: seq<Op>, input: seq<Byte>)
    requires Iterating(keys, goal, ops, input) && input != []
    ensures match ReadOp(keys, input) case None => goal == None case Some(op) => Iterating(keys, goal,
            ops + [op.value], op.rest)
  {
    var op := ReadOp(keys, input);
    if op.Some? && ReadOps(keys, op.value.rest).Some? {
      var rest := ReadOps(keys, op.value.rest).value;
      assert ops + ([op.value.value] + rest) == ops + [op.value.value] + rest;
    }
  }

  /** Iterate, collecting what it hands over. */
  method Iterate(keys: KeyFormat, rep: seq<Byte>) returns (r: Option<seq<Op>>)
    ensures r == match ReadBatch(keys, rep) case None => None case Some(batch) => Some(batch.ops)
  {
    if |rep| < BATCH_HEADER {
      return None;
    }
    var input, ops: seq<Op> := rep[BATCH_HEADER..], [];
    ghost var goal := ReadOps(keys, input);
    NothingYet(keys, goal, input);
    while input != []
      invariant Iterating(keys, goal, ops, input)
      decreases |input|
    {
      OneOperation(keys, goal, ops, input);
      var op := ReadOp(keys, input);
      if op.None? {
        return None;
      }
      ops, input := ops + [op.value.value], op.value.rest;
    }
    assert ops + [] == ops;
    return if |ops| == DecodeFixed32(rep[8..12]) then Some(ops) else None;
  }

  // ---- Round trip ----

  lemma OpIsRead(keys: KeyFormat, op: Op, rest: seq<Byte>)
    requires ReadsKeys(keys) && OpFits(keys, op)
    ensures ReadOp(keys, OpBytes(keys, op) + rest) == Some(Parsed(op, rest))
  {
    var key := LengthPrefixed(keys.bytes(op.user));
    var behind := if op.kind.Put? then LengthPrefixed(ValueBytes(op.value)) + rest else rest;
    var input := OpBytes(keys, op) + rest;
    assert input[1..] == key + behind;
    LengthPrefixedReadIff(keys.bytes(op.user), behind);
    if op.kind.Put? {
      LengthPrefixedReadIff(ValueBytes(op.value), rest);
      ValueIsRead(op.value);
    }
  }

  lemma OpThenOps(keys: KeyFormat, input: seq<Byte>, op: Op, rest: seq<Byte>, ops: seq<Op>)
    requires input != [] && ReadOp(keys, input) == Some(Parsed(op, rest)) && ReadOps(keys, rest) == Some(ops)
    ensures ReadOps(keys, input) == Some([op] + ops)
  {
  }

  lemma {:induction false} OpsAreRead(keys: KeyFormat, ops: seq<Op>)
    requires ReadsKeys(keys) && forall i :: 0 <= i < |ops| ==> OpFits(keys, ops[i])
    ensures ReadOps(keys, OpsBytes(keys, ops)) == Some(ops)
    decreases |ops|
  {
    if ops != [] {
      var behind := OpsBytes(keys, ops[1..]);
      OpIsRead(keys, ops[0], behind);
      OpsAreRead(keys, ops[1..]);
      OpThenOps(keys, OpBytes(keys, ops[0]) + behind, ops[0], behind, ops[1..]);
      assert [ops[0]] + ops[1..] == ops;
    }
  }

  ghost predicate HeaderSays(bytes: seq<Byte>, r: Record) {
    |bytes| >= BATCH_HEADER && DecodeFixed64(bytes[..8]) == r.sequence && DecodeFixed32(bytes[8..12]) == |r.ops|
  }

  lemma HeaderIsRead(keys: KeyFormat, r: Record)
    requires r.sequence < LONG_LIMIT && |r.ops| < WORD_LIMIT
    ensures HeaderSays(BatchBytes(keys, r), r)
  {
    CountIsRead(keys, r);
    Fixed64IsRead(r.sequence);
  }

  lemma BodyIsRead(keys: KeyFormat, r: Record)
    requires ReadsKeys(keys) && forall i :: 0 <= i < |r.ops| ==> OpFits(keys, r.ops[i])
    ensures ReadOps(keys, BatchBytes(keys, r)[BATCH_HEADER..]) == Some(r.ops)
  {
    CountIsRead(keys, r);
    OpsAreRead(keys, r.ops);
  }

  lemma BatchParsed(keys: KeyFormat, bytes: seq<Byte>, r: Record)
    requires HeaderSays(bytes, r) && ReadOps(keys, bytes[BATCH_HEADER..]) == Some(r.ops)
    ensures ReadBatch(keys, bytes) == Some(r)
  {
  }

  /** Every batch that fits is read back. */
  lemma BatchIsRead(keys: KeyFormat, r: Record)
    requires ReadsKeys(keys) && BatchFits(keys, r)
    ensures ReadBatch(keys, BatchBytes(keys, r)) == Some(r)
  {
    HeaderIsRead(keys, r);
    BodyIsRead(keys, r);
    BatchParsed(keys, BatchBytes(keys, r), r);
  }

  function BatchFormat(keys: KeyFormat): BatchCodec {
    BatchCodec((r: Record) => BatchFits(keys, r), (r: Record) => BatchBytes(keys, r),
      (bytes: seq<Byte>) => ReadBatch(keys, bytes))
  }

  /** The batch format is one over which the durability protocol runs. */
  lemma BatchesRoundTrip(keys: KeyFormat)
    requires ReadsKeys(keys)
    ensures RoundTrips(BatchFormat(keys))
  {
    forall r: Record | BatchFits(keys, r)
      ensures ReadBatch(keys, BatchBytes(keys, r)) == Some(r)
    {
      BatchIsRead(keys, r);
    }
  }

  /** Keys of eight bytes. */
  function EightBytes(): KeyFormat {
    KeyFormat((user: UserKey) => 0 <= user < LONG_LIMIT,
              (user: UserKey) => if 0 <= user then EncodeFixed64(user) else [],
              (bytes: seq<Byte>) => if |bytes| == 8 then Some(DecodeFixed64(bytes)) else None)
  }

  lemma EightBytesAreKeys()
    ensures ReadsKeys(EightBytes())
  {
    forall user: UserKey | 0 <= user < LONG_LIMIT
      ensures DecodeFixed64(EncodeFixed64(user)) == user
    {
      Fixed64IsRead(user);
    }
  }

  // ---- The object ----

  lemma {:induction false} OneMoreOp(keys: KeyFormat, ops: seq<Op>, op: Op)
    ensures OpsBytes(keys, ops + [op]) == OpsBytes(keys, ops) + OpBytes(keys, op)
  {
    OpsBytesAppend(keys, ops, [op]);
    assert [op][1..] == [];
    assert OpBytes(keys, op) + [] == OpBytes(keys, op);
  }

  lemma {:induction false} OpsBytesAppend(keys: KeyFormat, a: seq<Op>, b: seq<Op>)
    ensures OpsBytes(keys, a + b) == OpsBytes(keys, a) + OpsBytes(keys, b)
    decreases |a|
  {
    if a == [] {
      assert a + b == b;
    } else {
      assert (a + b)[1..] == a[1..] + b;
      OpsBytesAppend(keys, a[1..], b);
    }
  }

  class WriteBatch {
    const keys: KeyFormat
    var rep: seq<Byte>
    ghost var batch: Record

    ghost predicate Valid()
      reads this
    {
      rep == BatchBytes(keys, batch)
    }

    constructor (keys: KeyFormat)
      ensures Valid() && this.keys == keys && batch == Record(0, [])
    {
      this.keys := keys;
      rep, batch := Zeros(BATCH_HEADER), Record(0, []);
      new;
      assert EncodeFixed64(0) + EncodeFixed32(0) == Zeros(BATCH_HEADER);
    }

    method SetSequence(sequence: nat)
      requires Valid()
      modifies this
      ensures Valid() && batch == old(batch).(sequence := sequence)
    {
      SequenceSet(keys, batch, sequence);
      rep := EncodeFixed64(sequence) + rep[8..];
      batch := batch.(sequence := sequence);
    }

    method Count() returns (n: nat)
      requires Valid()
      ensures n == |batch.ops| % WORD_LIMIT
      ensures rep[..8] == EncodeFixed64(batch.sequence) && rep[BATCH_HEADER..] == OpsBytes(keys, batch.ops)
    {
      CountIsRead(keys, batch);
      n := DecodeFixed32(rep[8..12]);
    }

    /** SetCount(Count() + more), in 32 bits, and then the bytes of the operations. */
    method AddOps(more: nat, bytes: seq<Byte>, ghost ops: seq<Op>)
      requires Valid() && |ops| % WORD_LIMIT == more % WORD_LIMIT && bytes == OpsBytes(keys, ops)
      modifies this
      ensures Valid() && batch == old(batch).(ops := old(batch).ops + ops)
    {
      var count := Count();
      OpsAdded(keys, batch, ops, more, rep[..8], count, rep[12..]);
      rep := rep[..8] + CountBytes(count + more) + rep[12..] + bytes;
      batch := batch.(ops := batch.ops + ops);
    }

    method Put(user: UserKey, value: string)
      requires Valid()
      modifies this
      ensures Valid() && batch == old(batch).(ops := old(batch).ops + [Op(user, InternalKeys.Put, value)])
    {
      var op := Op(user, InternalKeys.Put, value);
      OneMoreOp(keys, [], op);
      assert [] + [op] == [op] && [] + OpBytes(keys, op) == OpBytes(keys, op);
      AddOps(1, [1] + LengthPrefixed(keys.bytes(user)) + LengthPrefixed(ValueBytes(value)), [op]);
    }

    method Delete(user: UserKey)
      requires Valid()
      modifies this
      ensures Valid() && batch == old(batch).(ops := old(batch).ops + [Op(user, Deletion, "")])
    {
      var op := Op(user, Deletion, "");
      OneMoreOp(keys, [], op);
      assert [] + [op] == [op] && [] + OpBytes(keys, op) == OpBytes(keys, op);
      AddOps(1, [0] + LengthPrefixed(keys.bytes(user)), [op]);
    }

    /** The operations of the other batch behind the own ones: how a write group is put together. */
    method Append(source: WriteBatch)
      requires Valid() && source.Valid() && source != this && source.keys == keys
      modifies this
      ensures Valid() && batch == old(batch).(ops := old(batch).ops + source.batch.ops)
    {
      var more := source.Count();
      AddOps(more, source.rep[BATCH_HEADER..], source.batch.ops);
    }
  }

  lemma ThreeParts(a: seq<Byte>, b: seq<Byte>, c: seq<Byte>, bytes: seq<Byte>)
    requires |a| == 8 && |b| == 4 && bytes == a + b + c
    ensures bytes[..8] == a && bytes[8..12] == b && bytes[12..] == c && bytes[8..] == b + c
  {
  }

  lemma CountIsRead(keys: KeyFormat, r: Record)
    ensures DecodeFixed32(BatchBytes(keys, r)[8..12]) == |r.ops| % WORD_LIMIT
    ensures BatchBytes(keys, r)[..8] == EncodeFixed64(r.sequence) && BatchBytes(keys, r)[12..] == OpsBytes(keys, r.ops)
    ensures BatchBytes(keys, r)[8..] == CountBytes(|r.ops|) + OpsBytes(keys, r.ops)
  {
    ThreeParts(EncodeFixed64(r.sequence), CountBytes(|r.ops|), OpsBytes(keys, r.ops), BatchBytes(keys, r));
    DecodeEncode(|r.ops| % WORD_LIMIT);
  }

  lemma SameCount(a: nat, b: nat)
    requires a % WORD_LIMIT == b % WORD_LIMIT
    ensures CountBytes(a) == CountBytes(b)
  {
  }

  lemma CountAdds(a: nat, b: nat, more: nat)
    requires b % WORD_LIMIT == more % WORD_LIMIT
    ensures (a % WORD_LIMIT + more) % WORD_LIMIT == (a + b) % WORD_LIMIT
  {
  }

  lemma SequenceSet(keys: KeyFormat, r: Record, sequence: nat)
    ensures EncodeFixed64(sequence) + BatchBytes(keys, r)[8..] == BatchBytes(keys, r.(sequence := sequence))
  {
    CountIsRead(keys, r);
    SameThree(EncodeFixed64(sequence), CountBytes(|r.ops|), OpsBytes(keys, r.ops));
  }

  lemma SameThree(a: seq<Byte>, b: seq<Byte>, c: seq<Byte>)
    ensures a + (b + c) == a + b + c
  {
  }

  lemma BatchIs(keys: KeyFormat, r: Record, head: seq<Byte>, n: nat, body: seq<Byte>)
    requires head == EncodeFixed64(r.sequence) && n == |r.ops| && body == OpsBytes(keys, r.ops)
    ensures head + CountBytes(n) + body == BatchBytes(keys, r)
  {
  }

  lemma OpsJoin(keys: KeyFormat, r: Record, ops: seq<Op>, head: seq<Byte>, count: seq<Byte>, n: nat)
    requires head == EncodeFixed64(r.sequence) && count == CountBytes(n) && n == |r.ops| + |ops|
    ensures head + count + OpsBytes(keys, r.ops) + OpsBytes(keys, ops) == BatchBytes(keys, r.(ops := r.ops + ops))
  {
    var body := OpsBytes(keys, r.ops) + OpsBytes(keys, ops);
    OpsBytesAppend(keys, r.ops, ops);
    BatchIs(keys, r.(ops := r.ops + ops), head, n, body);
    SamePieces(head, count, OpsBytes(keys, r.ops), OpsBytes(keys, ops));
  }

  lemma OpsAdded(keys: KeyFormat, r: Record, ops: seq<Op>, more: nat, head: seq<Byte>, count: nat, body: seq<Byte>)
    requires |ops| % WORD_LIMIT == more % WORD_LIMIT && count == |r.ops| % WORD_LIMIT
    requires head == EncodeFixed64(r.sequence) && body == OpsBytes(keys, r.ops)
    ensures head + CountBytes(count + more) + body + OpsBytes(keys, ops) == BatchBytes(keys, r.(ops := r.ops + ops))
  {
    var n := |r.ops| + |ops|;
    NewCount(|r.ops|, |ops|, more, count, n);
    OpsJoin(keys, r, ops, head, CountBytes(count + more), n);
  }

  lemma NewCount(a: nat, b: nat, more: nat, count: nat, n: nat)
    requires b % WORD_LIMIT == more % WORD_LIMIT && count == a % WORD_LIMIT && n == a + b
    ensures CountBytes(count + more) == CountBytes(n)
  {
    CountAdds(a, b, more);
    SameCount(count + more, n);
  }

  lemma SamePieces(a: seq<Byte>, b: seq<Byte>, c: seq<Byte>, d: seq<Byte>)
    ensures a + b + c + d == a + b + (c + d)
  {
  }
}
