/** Batches that are not whole: Iterate in db/write_batch.cc reports an error for every batch cut
    short, and for a count that does not fit the operations. */
module ShortBatches {
  import opened Wrappers
  import opened LogFormat
  import opened Coding
  import opened Durability
  import opened WriteBatchFormat

  lemma {:induction false} ShortVarint(v: nat, k: nat, most: nat)
    requires k < |Varint(v)|
    ensures ParseVarint(Varint(v)[..k], most) == None
    decreases v
  {
    if v >= 128 && k > 0 && most > 0 {
      ShortVarint(v / 128, k - 1, most - 1);
      assert Varint(v)[..k][1..] == Varint(v / 128)[..k - 1];
    }
  }

  lemma ShortString(value: seq<Byte>, k: nat)
    requires |value| < WORD_LIMIT && k < |LengthPrefixed(value)|
    ensures LengthPrefixedSlice(LengthPrefixed(value)[..k]) == None
  {
    var number := Varint(|value|);
    if k < |number| {
      ShortVarint(|value|, k, MostBytes(false));
      assert LengthPrefixed(value)[..k] == number[..k];
    } else {
      NumberIsRead(|value|, value[..k - |number|], false);
      assert LengthPrefixed(value)[..k] == number + value[..k - |number|];
    }
  }

  lemma ShortKey(keys: KeyFormat, tag: Byte, key: seq<Byte>, tail: seq<Byte>, k: nat)
    requires |key| < WORD_LIMIT && tag <= 1 && 0 < k <= |LengthPrefixed(key)|
    ensures ReadOp(keys, ([tag] + LengthPrefixed(key) + tail)[..k]) == None
  {
    var input := ([tag] + LengthPrefixed(key) + tail)[..k];
    ShortString(key, k - 1);
    assert input[0] == tag && input[1..] == LengthPrefixed(key)[..k - 1];
  }

  lemma ShortValue(keys: KeyFormat, key: seq<Byte>, value: seq<Byte>, k: nat)
    requires |key| < WORD_LIMIT && |value| < WORD_LIMIT && k < |LengthPrefixed(value)|
    ensures ReadOp(keys, [1] + LengthPrefixed(key) + LengthPrefixed(value)[..k]) == None
  {
    var input := [1] + LengthPrefixed(key) + LengthPrefixed(value)[..k];
    LengthPrefixedReadIff(key, LengthPrefixed(value)[..k]);
    ShortString(value, k);
    assert input[0] == 1 && input[1..] == LengthPrefixed(key) + LengthPrefixed(value)[..k];
  }

  lemma ShortPut(keys: KeyFormat, key: seq<Byte>, value: seq<Byte>, k: nat)
    requires |key| < WORD_LIMIT && |value| < WORD_LIMIT
    requires 0 < k < 1 + |LengthPrefixed(key)| + |LengthPrefixed(value)|
    ensures ReadOp(keys, ([1] + LengthPrefixed(key) + LengthPrefixed(value))[..k]) == None
  {
    var first := [1] + LengthPrefixed(key);
    if k < |first| {
      ShortKey(keys, 1, key, LengthPrefixed(value), k);
    } else {
      ShortValue(keys, key, value, k - |first|);
      CutInside(first, LengthPrefixed(value), k);
    }
  }

  lemma ShortDeletion(keys: KeyFormat, key: seq<Byte>, k: nat)
    requires |key| < WORD_LIMIT && 0 < k <= |LengthPrefixed(key)|
    ensures ReadOp(keys, ([0] + LengthPrefixed(key))[..k]) == None
  {
    ShortKey(keys, 0, key, [], k);
    assert [0] + LengthPrefixed(key) + [] == [0] + LengthPrefixed(key);
  }

  lemma ShortOp(keys: KeyFormat, op: Op, k: nat)
    requires ReadsKeys(keys) && OpFits(keys, op) && 0 < k < |OpBytes(keys, op)|
    ensures ReadOp(keys, OpBytes(keys, op)[..k]) == None
  {
    if op.kind.Put? {
      ShortPut(keys, keys.bytes(op.user), ValueBytes(op.value), k);
    } else {
      ShortDeletion(keys, keys.bytes(op.user), k);
    }
  }

  ghost predicate Fewer(keys: KeyFormat, input: seq<Byte>, n: nat) {
    ReadOps(keys, input).Some? ==> |ReadOps(keys, input).value| < n
  }

  lemma NothingRead(keys: KeyFormat, input: seq<Byte>, n: nat)
    requires 0 < n && (input == [] || ReadOp(keys, input) == None)
    ensures Fewer(keys, input, n)
  {
  }

  lemma OneRead(keys: KeyFormat, op: Op, rest: seq<Byte>, n: nat)
    requires ReadsKeys(keys) && OpFits(keys, op) && Fewer(keys, rest, n)
    ensures Fewer(keys, OpBytes(keys, op) + rest, n + 1)
  {
    OpIsRead(keys, op, rest);
  }

  lemma CutInside(a: seq<Byte>, b: seq<Byte>, k: nat)
    requires k <= |a| + |b|
    ensures k <= |a| ==> (a + b)[..k] == a[..k]
    ensures |a| <= k ==> (a + b)[..k] == a + b[..k - |a|]
  {
  }

  /** Of operations cut short, fewer are read, or none at all. */
  lemma {:induction false} ShortOps(keys: KeyFormat, ops: seq<Op>, k: nat)
    requires ReadsKeys(keys) && (forall i :: 0 <= i < |ops| ==> OpFits(keys, ops[i])) && k < |OpsBytes(keys, ops)|
    ensures Fewer(keys, OpsBytes(keys, ops)[..k], |ops|)
    decreases |ops|
  {
    var first, behind := OpBytes(keys, ops[0]), OpsBytes(keys, ops[1..]);
    CutInside(first, behind, k);
    if k < |first| {
      if k > 0 {
        ShortOp(keys, ops[0], k);
      }
      NothingRead(keys, first[..k], |ops|);
    } else {
      ShortOps(keys, ops[1..], k - |first|);
      OneRead(keys, ops[0], behind[..k - |first|], |ops| - 1);
    }
  }

  lemma BodyDecides(keys: KeyFormat, head: seq<Byte>, body: seq<Byte>)
    requires |head| == BATCH_HEADER
    requires ReadOps(keys, body).Some? ==> |ReadOps(keys, body).value| != DecodeFixed32(head[8..])
    ensures ReadBatch(keys, head + body) == None
  {
    assert (head + body)[8..BATCH_HEADER] == head[8..] && (head + body)[BATCH_HEADER..] == body;
  }

  function HeadOf(sequence: nat, n: Word): (head: seq<Byte>)
    ensures |head| == BATCH_HEADER
  {
    EncodeFixed64(sequence) + EncodeFixed32(n)
  }

  lemma CountInHead(sequence: nat, n: Word)
    ensures DecodeFixed32(HeadOf(sequence, n)[8..]) == n
  {
    DecodeEncode(n);
    assert HeadOf(sequence, n)[8..] == EncodeFixed32(n);
  }

  lemma HeadAndBody(keys: KeyFormat, r: Record)
    requires |r.ops| < WORD_LIMIT
    ensures BatchBytes(keys, r) == HeadOf(r.sequence, |r.ops|) + OpsBytes(keys, r.ops)
  {
    SmallRemainder(|r.ops|);
  }

  /** A batch cut short is an error. */
  lemma ShortBatchIsRejected(keys: KeyFormat, r: Record, k: nat)
    requires ReadsKeys(keys) && BatchFits(keys, r) && k < |BatchBytes(keys, r)|
    ensures ReadBatch(keys, BatchBytes(keys, r)[..k]) == None
  {
    var head, body := HeadOf(r.sequence, |r.ops|), OpsBytes(keys, r.ops);
    HeadAndBody(keys, r);
    if k >= BATCH_HEADER {
      ShortOps(keys, r.ops, k - BATCH_HEADER);
      CountInHead(r.sequence, |r.ops|);
      CutInside(head, body, k);
      BodyDecides(keys, head, body[..k - BATCH_HEADER]);
    }
  }

  /** So is a batch with a wrong count. */
  lemma WrongCountIsRejected(keys: KeyFormat, r: Record, n: Word)
    requires ReadsKeys(keys) && BatchFits(keys, r) && n != |r.ops|
    ensures ReadBatch(keys, EncodeFixed64(r.sequence) + EncodeFixed32(n) + OpsBytes(keys, r.ops)) == None
  {
    OpsAreRead(keys, r.ops);
    CountInHead(r.sequence, n);
    BodyDecides(keys, HeadOf(r.sequence, n), OpsBytes(keys, r.ops));
  }
}
