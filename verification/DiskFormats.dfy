/** The formats byte by byte: what small examples look like on disk, with the numbers written out
    (db/log_format.h, db/version_edit.cc, db/write_batch.cc, util/coding.cc). */
module DiskFormats {
  import opened Wrappers
  import opened LogFormat
  import opened Coding
  import opened InternalKeys
  import opened Durability
  import opened EditCodec
  import opened WriteBatchFormat

  /** Little-endian words, the lowest seven bits of a varint first, and the rotated checksum. */
  lemma NumbersOnDisk()
    ensures EncodeFixed32(0x0403_0201) == [1, 2, 3, 4]
    ensures EncodeFixed64(0x0102_0304_0506_0708) == [8, 7, 6, 5, 4, 3, 2, 1]
    ensures Varint(300) == [0x80 + 44, 2] && LengthPrefixed([7, 8]) == [2, 7, 8]
    ensures Mask(0) == 0xa282_ead8 && Mask(0x8001) == 0xa284_ead9
  {
  }

  /** A physical record: checksum of type and payload, two bytes of length, the type, the payload. */
  lemma RecordOnDisk(sum: Checksum)
    ensures Full.Code() == 1 && First.Code() == 2 && Middle.Code() == 3 && Last.Code() == 4
    ensures Physical(sum, First, [9, 8]) == EncodeFixed32(Mask(sum.Value([2, 9, 8]))) + [2, 0, 2, 9, 8]
    ensures Leftover(0) == 32768 && Leftover(32767) == 1
  {
    sum.ExtendAppends(0, [2], [9, 8]);
    assert [2] + [9, 8] == [2, 9, 8];
  }

  /** A field of a version edit: its tag, then its value. */
  lemma FieldsOnDisk()
    ensures Comparator([99]).Bytes() == [1, 1, 99] && LogNumber(3).Bytes() == [2, 3]
    ensures NextFileNumber(4).Bytes() == [3, 4] && EditCodec.LastSequence(5).Bytes() == [4, 5]
    ensures PrevLogNumber(0).Bytes() == [9, 0] && CompactPointer(1, [7]).Bytes() == [5, 1, 1, 7]
    ensures DeletedFile(2, 300).Bytes() == [6, 2, 172, 2]
    ensures NewFile(0, FileMeta(6, 127, [8], [9, 9])).Bytes() == [7, 0, 6, 127, 1, 8, 2, 9, 9]
  {
  }

  /** The order of the fields, each kind once. */
  lemma EditOnDisk(name: seq<Byte>, log: nat, prev: nat, next: nat, last: nat, pointer: (nat, seq<Byte>),
                   deleted: (nat, nat), added: (nat, FileMeta))
    ensures Fields(Edit(Some(name), Some(log), Some(prev), Some(next), Some(last), [pointer], [deleted], [added]))
         == [Comparator(name), LogNumber(log), PrevLogNumber(prev), NextFileNumber(next), EditCodec.LastSequence(last),
             CompactPointer(pointer.0, pointer.1), DeletedFile(deleted.0, deleted.1), NewFile(added.0, added.1)]
  {
  }

  /** One operation of a batch: kTypeValue with key and value, or kTypeDeletion with the key. */
  lemma OpsOnDisk(keys: KeyFormat, user: UserKey)
    requires keys.bytes(user) == [75]
    ensures OpBytes(keys, Op(user, Put, "v")) == [1, 1, 75, 1, 118]
    ensures OpBytes(keys, Op(user, Deletion, "")) == [0, 1, 75]
  {
    assert ValueBytes("v") == [118];
  }

  /** A batch: eight bytes of sequence number, four of count, and the operations in order. */
  lemma BatchOnDisk(keys: KeyFormat, a: Op, b: Op)
    ensures BatchBytes(keys, Record(258, [a, b]))
         == [2, 1, 0, 0, 0, 0, 0, 0] + [2, 0, 0, 0] + (OpBytes(keys, a) + OpBytes(keys, b))
  {
    assert [a, b][1..] == [b] && [b][1..] == [];
    assert OpsBytes(keys, [b]) == OpBytes(keys, b);
  }
}
