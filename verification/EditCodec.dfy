/** Manifest records: VersionEdit::EncodeTo and DecodeFrom of db/version_edit.cc. */
module EditCodec {
  import opened Wrappers
  import opened TableFiles
  import opened LogFormat
  import opened Coding

  datatype FileMeta = FileMeta(number: nat, size: nat, smallest: seq<Byte>, largest: seq<Byte>)

  /** A tagged field of a record. */
  datatype Field =
    | Comparator(name: seq<Byte>)
    | LogNumber(number: nat)
    | NextFileNumber(number: nat)
    | LastSequence(number: nat)
    | CompactPointer(level: nat, key: seq<Byte>)
    | DeletedFile(level: nat, number: nat)
    | NewFile(level: nat, file: FileMeta)
    | PrevLogNumber(number: nat)
  {
    function Tag(): nat {
      match this
      case Comparator(_) => 1
      case LogNumber(_) => 2
      case NextFileNumber(_) => 3
      case LastSequence(_) => 4
      case CompactPointer(_, _) => 5
      case DeletedFile(_, _) => 6
      case NewFile(_, _) => 7
      case PrevLogNumber(_) => 9
    }

    function Body(): seq<Byte> {
      match this
      case Comparator(name) => LengthPrefixed(name)
      case CompactPointer(level, key) => Varint(level) + LengthPrefixed(key)
      case DeletedFile(level, number) => Varint(level) + Varint(number)
      case NewFile(level, f) => Varint(level) + Varint(f.number) + Varint(f.size) + LengthPrefixed(f.smallest)
        + LengthPrefixed(f.largest)
      case _ => Varint(number)
    }

    function Bytes(): seq<Byte> { Varint(Tag()) + Body() }

    /** Levels exist, numbers fit into 64 bits, and lengths into 32. */
    predicate Fits() {
      match this
      case Comparator(name) => |name| < WORD_LIMIT
      case CompactPointer(level, key) => level < NUM_LEVELS && |key| < WORD_LIMIT
      case DeletedFile(level, number) => level < NUM_LEVELS && number < LONG_LIMIT
      case NewFile(level, f) =>
        level < NUM_LEVELS && f.number < LONG_LIMIT && f.size < LONG_LIMIT && |f.smallest| < WORD_LIMIT
          && |f.largest| < WORD_LIMIT
      case _ => number < LONG_LIMIT
    }
  }

  /** What a VersionEdit holds; deleted_files_ is an ordered set. */
  datatype Edit = Edit(
    comparator: Option<seq<Byte>>,
    logNumber: Option<nat>,
    prevLogNumber: Option<nat>,
    nextFile: Option<nat>,
    lastSequence: Option<nat>,
    compactPointers: seq<(nat, seq<Byte>)>,
    deletedFiles: seq<(nat, nat)>,
    newFiles: seq<(nat, FileMeta)>)

  // ---- Writing ----

  predicate PairLess(a: (nat, nat), b: (nat, nat)) { a.0 < b.0 || (a.0 == b.0 && a.1 < b.1) }

  predicate Increasing(s: seq<(nat, nat)>) { forall i, j :: 0 <= i < j < |s| ==> PairLess(s[i], s[j]) }

  function OptionalField(number: Option<nat>, f: nat -> Field): seq<Field> {
    if number.Some? then [f(number.value)] else []
  }

  function PointerFields(s: seq<(nat, seq<Byte>)>): seq<Field> {
    seq(|s|, i requires 0 <= i < |s| => CompactPointer(s[i].0, s[i].1))
  }
  function DeletedFields(s: seq<(nat, nat)>): seq<Field> {
    seq(|s|, i requires 0 <= i < |s| => DeletedFile(s[i].0, s[i].1))
  }
  function NewFields(s: seq<(nat, FileMeta)>): seq<Field> {
    seq(|s|, i requires 0 <= i < |s| => NewFile(s[i].0, s[i].1))
  }

  /** The fields of a record, in the order in which they are written. */
  function NumberFields(e: Edit): seq<Field> {
    (if e.comparator.Some? then [Comparator(e.comparator.value)] else [])
    + OptionalField(e.logNumber, (n: nat) => LogNumber(n)) + OptionalField(e.prevLogNumber,
      (n: nat) => PrevLogNumber(n))
    + OptionalField(e.nextFile, (n: nat) => NextFileNumber(n)) + OptionalField(e.lastSequence,
      (n: nat) => LastSequence(n))
  }

  function Fields(e: Edit): seq<Field> {
    NumberFields(e) + PointerFields(e.compactPointers) + DeletedFields(e.deletedFiles) + NewFields(e.newFiles)
  }

  function AllBytes(fields: seq<Field>): seq<Byte> {
    if fields == [] then [] else fields[0].Bytes() + AllBytes(fields[1..])
  }

  function Encoded(e: Edit): seq<Byte> { AllBytes(Fields(e)) }

  // ---- Reading ----

  /** GetLevel. */
  function ReadLevel(input: seq<Byte>): (r: Option<Parsed<nat>>)
    ensures r.Some? ==> |r.value.rest| < |input|
  {
    match GetNumber(input, false)
    case None => None
    case Some(p) => if p.value < NUM_LEVELS then Some(p) else None
  }

  function ReadNumber(input: seq<Byte>, f: nat -> Field): (r: Option<Parsed<Field>>)
    ensures r.Some? ==> |r.value.rest| < |input|
  {
    match GetNumber(input, true)
    case None => None
    case Some(p) => Some(Parsed(f(p.value), p.rest))
  }

  function ReadPointer(input: seq<Byte>): (r: Option<Parsed<Field>>)
    ensures r.Some? ==> |r.value.rest| < |input|
  {
    match ReadLevel(input)
    case None => None
    case Some(level) =>
      match LengthPrefixedSlice(level.rest)
      case None => None
      case Some(key) => Some(Parsed(CompactPointer(level.value, key.value), key.rest))
  }

  function ReadDeleted(input: seq<Byte>): (r: Option<Parsed<Field>>)
    ensures r.Some? ==> |r.value.rest| < |input|
  {
    match ReadLevel(input)
    case None => None
    case Some(level) => ReadNumber(level.rest, (n: nat) => DeletedFile(level.value, n))
  }

  function ReadMeta(input: seq<Byte>): (r: Option<Parsed<FileMeta>>)
    ensures r.Some? ==> |r.value.rest| < |input|
  {
    match GetNumber(input, true)
    case None => None
    case Some(number) =>
      match GetNumber(number.rest, true)
      case None => None
      case Some(size) =>
        match LengthPrefixedSlice(size.rest)
        case None => None
        case Some(smallest) =>
          match LengthPrefixedSlice(smallest.rest)
          case None => None
          case Some(largest) => Some(Parsed(FileMeta(number.value, size.value, smallest.value, largest.value),
            largest.rest))
  }

  function ReadNew(input: seq<Byte>): (r: Option<Parsed<Field>>)
    ensures r.Some? ==> |r.value.rest| < |input|
  {
    match ReadLevel(input)
    case None => None
    case Some(level) =>
      match ReadMeta(level.rest)
      case None => None
      case Some(f) => Some(Parsed(NewFile(level.value, f.value), f.rest))
  }

  /** The switch of DecodeFrom; tag 8 and those above 9 are unknown. */
  function ReadField(tag: nat, input: seq<Byte>): (r: Option<Parsed<Field>>)
    ensures r.Some? ==> |r.value.rest| < |input|
  {
    if tag == 1 then
      match LengthPrefixedSlice(input)
      case None => None
      case Some(p) => Some(Parsed(Comparator(p.value), p.rest))
    else if tag == 2 then ReadNumber(input, (n: nat) => LogNumber(n))
    else if tag == 3 then ReadNumber(input, (n: nat) => NextFileNumber(n))
    else if tag == 4 then ReadNumber(input, (n: nat) => LastSequence(n))
    else if tag == 5 then ReadPointer(input)
    else if tag == 6 then ReadDeleted(input)
    else if tag == 7 then ReadNew(input)
    else if tag == 9 then ReadNumber(input, (n: nat) => PrevLogNumber(n))
    else None
  }

  function Insert(s: seq<(nat, nat)>, x: (nat, nat)): seq<(nat, nat)> {
    if s == [] || PairLess(s[|s| - 1], x) then s + [x]
    else if s[|s| - 1] == x then s
    else Insert(s[..|s| - 1], x) + [s[|s| - 1]]
  }

  function Set(e: Edit, f: Field): Edit {
    match f
    case Comparator(name) => e.(comparator := Some(name))
    case LogNumber(n) => e.(logNumber := Some(n))
    case PrevLogNumber(n) => e.(prevLogNumber := Some(n))
    case NextFileNumber(n) => e.(nextFile := Some(n))
    case LastSequence(n) => e.(lastSequence := Some(n))
    case CompactPointer(level, key) => e.(compactPointers := e.compactPointers + [(level, key)])
    case DeletedFile(level, n) => e.(deletedFiles := Insert(e.deletedFiles, (level, n)))
    case NewFile(level, file) => e.(newFiles := e.newFiles + [(level, file)])
  }

  datatype Message = InvalidTag | BadField(tag: nat)
  datatype Outcome = Outcome(edit: Edit, error: Option<Message>)

  /** The loop of DecodeFrom. */
  function ReadFields(e: Edit, input: seq<Byte>): Outcome
    decreases |input|
  {
    match GetNumber(input, false)
    case None => Outcome(e, if input == [] then None else Some(InvalidTag))
    case Some(tag) =>
      match ReadField(tag.value, tag.rest)
      case None => Outcome(e, Some(BadField(tag.value)))
      case Some(f) => ReadFields(Set(e, f.value), f.rest)
  }

  /** Clear leaves compact_pointers_ alone. */
  function Cleared(e: Edit): Edit { Edit(None, None, None, None, None, e.compactPointers, [], []) }

  function SetAll(e: Edit, fields: seq<Field>): Edit
    decreases |fields|
  {
    if fields == [] then e else SetAll(Set(e, fields[0]), fields[1..])
  }

  // ---- The object ----

  class VersionEdit {
    var comparator: Option<seq<Byte>>
    var logNumber: Option<nat>
    var prevLogNumber: Option<nat>
    var nextFile: Option<nat>
    var lastSequence: Option<nat>
    var compactPointers: seq<(nat, seq<Byte>)>
    var deletedFiles: seq<(nat, nat)>
    var newFiles: seq<(nat, FileMeta)>

    function Value(): Edit
      reads this
    {
      Edit(comparator, logNumber, prevLogNumber, nextFile, lastSequence, compactPointers, deletedFiles, newFiles)
    }

    constructor ()
      ensures Value() == Edit(None, None, None, None, None, [], [], [])
    {
      comparator, logNumber, prevLogNumber, nextFile, lastSequence := None, None, None, None, None;
      compactPointers, deletedFiles, newFiles := [], [], [];
    }

    constructor Of(e: Edit)
      ensures Value() == e
    {
      comparator, logNumber, prevLogNumber, nextFile, lastSequence := e.comparator, e.logNumber, e.prevLogNumber,
        e.nextFile, e.lastSequence;
      compactPointers, deletedFiles, newFiles := e.compactPointers, e.deletedFiles, e.newFiles;
    }

    method Clear()
      modifies this
      ensures Value() == Cleared(old(Value()))
    {
      comparator, logNumber, prevLogNumber, nextFile, lastSequence := None, None, None, None, None;
      deletedFiles, newFiles := [], [];
    }

    method Store(f: Field)
      modifies this
      ensures Value() == Set(old(Value()), f)
    {
      match f
      case Comparator(name) => comparator := Some(name);
      case LogNumber(n) => logNumber := Some(n);
      case PrevLogNumber(n) => prevLogNumber := Some(n);
      case NextFileNumber(n) => nextFile := Some(n);
      case LastSequence(n) => lastSequence := Some(n);
      case CompactPointer(level, key) => compactPointers := compactPointers + [(level, key)];
      case DeletedFile(level, n) => deletedFiles := Insert(deletedFiles, (level, n));
      case NewFile(level, file) => newFiles := newFiles + [(level, file)];
    }

    /** What was read before an error stays in the object. */
    method DecodeFrom(src: seq<Byte>) returns (error: Option<Message>)
      modifies this
      ensures Outcome(Value(), error) == ReadFields(Cleared(old(Value())), src)
    {
      Clear();
      var input := src;
      ghost var goal := ReadFields(Value(), src);
      while true
        invariant goal == ReadFields(Value(), input)
        decreases |input|
      {
        var tag := GetVarint(input, false);
        if tag.None? {
          return if input == [] then None else Some(InvalidTag);
        }
        var f := ReadField(tag.value.value, tag.value.rest);
        if f.None? {
          return Some(BadField(tag.value.value));
        }
        Store(f.value.value);
        input := f.value.rest;
      }
    }

    /** Every field that is set is appended, in this order. */
    method EncodeTo(dst: seq<Byte>) returns (dst': seq<Byte>)
      requires forall f :: f in Fields(Value()) ==> f.Fits()
      ensures dst' == dst + Encoded(Value())
    {
      var fields := Fields(Value());
      dst' := dst;
      for i := 0 to |fields|
        invariant dst' + AllBytes(fields[i..]) == dst + AllBytes(fields)
      {
        BytesCons(dst', fields, i);
        dst' := PutField(dst', fields[i]);
      }
    }
  }

  lemma BytesCons(dst: seq<Byte>, fields: seq<Field>, i: nat)
    requires i < |fields|
    ensures dst + AllBytes(fields[i..]) == dst + fields[i].Bytes() + AllBytes(fields[i + 1..])
  {
    assert fields[i..][1..] == fields[i + 1..];
  }

  method PutLengthPrefixedSlice(dst: seq<Byte>, value: seq<Byte>) returns (dst': seq<Byte>)
    ensures dst' == dst + LengthPrefixed(value)
  {
    dst' := PutVarint32(dst, |value| % WORD_LIMIT);
    dst' := dst' + value;
  }

  method PutPointer(dst: seq<Byte>, f: Field) returns (dst': seq<Byte>)
    requires f.CompactPointer? && f.Fits()
    ensures dst' == dst + f.Body()
  {
    dst' := PutVarint32(dst, f.level);
    dst' := PutLengthPrefixedSlice(dst', f.key);
  }

  method PutDeleted(dst: seq<Byte>, f: Field) returns (dst': seq<Byte>)
    requires f.DeletedFile? && f.Fits()
    ensures dst' == dst + f.Body()
  {
    dst' := PutVarint32(dst, f.level);
    dst' := PutVarint64(dst', f.number);
  }

  method PutNewFile(dst: seq<Byte>, f: Field) returns (dst': seq<Byte>)
    requires f.NewFile? && f.Fits()
    ensures dst' == dst + f.Body()
  {
    dst' := PutVarint32(dst, f.level);
    dst' := PutVarint64(dst', f.file.number);
    dst' := PutVarint64(dst', f.file.size);
    dst' := PutLengthPrefixedSlice(dst', f.file.smallest);
    dst' := PutLengthPrefixedSlice(dst', f.file.largest);
    FiveParts(dst, Varint(f.level), Varint(f.file.number), Varint(f.file.size), LengthPrefixed(f.file.smallest),
      LengthPrefixed(f.file.largest));
  }

  lemma FiveParts(dst: seq<Byte>, a: seq<Byte>, b: seq<Byte>, c: seq<Byte>, d: seq<Byte>, e: seq<Byte>)
    ensures dst + a + b + c + d + e == dst + (a + b + c + d + e)
  {
  }

  method PutBody(dst: seq<Byte>, f: Field) returns (dst': seq<Byte>)
    requires f.Fits()
    ensures dst' == dst + f.Body()
  {
    match f
    case Comparator(name) => dst' := PutLengthPrefixedSlice(dst, name);
    case CompactPointer(_, _) => dst' := PutPointer(dst, f);
    case DeletedFile(_, _) => dst' := PutDeleted(dst, f);
    case NewFile(_, _) => dst' := PutNewFile(dst, f);
    case _ => dst' := PutVarint64(dst, f.number);
  }

  method PutField(dst: seq<Byte>, f: Field) returns (dst': seq<Byte>)
    requires f.Fits()
    ensures dst' == dst + f.Bytes()
  {
    ghost var tag, body := Varint(f.Tag()), f.Body();
    dst' := PutVarint32(dst, f.Tag());
    dst' := PutBody(dst', f);
    assert dst + tag + body == dst + (tag + body);
  }

  // ---- Round trip ----

  lemma LevelIsRead(level: nat, rest: seq<Byte>)
    requires level < NUM_LEVELS
    ensures ReadLevel(Varint(level) + rest) == Got(level, rest)
  {
    NumberIsRead(level, rest, false);
  }

  lemma PointerIsRead(f: Field, rest: seq<Byte>)
    requires f.CompactPointer? && f.Fits()
    ensures ReadPointer(f.Body() + rest) == Some(Parsed(f, rest))
  {
    var a, b := Varint(f.level), LengthPrefixed(f.key);
    assert a + b + rest == a + (b + rest);
    LevelIsRead(f.level, b + rest);
    LengthPrefixedReadIff(f.key, rest);
  }

  lemma DeletedIsRead(f: Field, rest: seq<Byte>)
    requires f.DeletedFile? && f.Fits()
    ensures ReadDeleted(f.Body() + rest) == Some(Parsed(f, rest))
  {
    var a, b := Varint(f.level), Varint(f.number);
    assert a + b + rest == a + (b + rest);
    LevelIsRead(f.level, b + rest);
    NumberIsRead(f.number, rest, true);
  }

  lemma MetaIsRead(f: FileMeta, rest: seq<Byte>, fromSmallest: seq<Byte>, fromSize: seq<Byte>)
    requires f.number < LONG_LIMIT && f.size < LONG_LIMIT && |f.smallest| < WORD_LIMIT && |f.largest| < WORD_LIMIT
    requires fromSmallest == LengthPrefixed(f.smallest) + (LengthPrefixed(f.largest) + rest)
    requires fromSize == Varint(f.size) + fromSmallest
    ensures ReadMeta(Varint(f.number) + fromSize) == Some(Parsed(f, rest))
  {
    NumberIsRead(f.number, fromSize, true);
    NumberIsRead(f.size, fromSmallest, true);
    LengthPrefixedReadIff(f.smallest, LengthPrefixed(f.largest) + rest);
    LengthPrefixedReadIff(f.largest, rest);
  }

  lemma NewIsRead(f: Field, rest: seq<Byte>)
    requires f.NewFile? && f.Fits()
    ensures ReadNew(f.Body() + rest) == Some(Parsed(f, rest))
  {
    var fromSmallest := LengthPrefixed(f.file.smallest) + (LengthPrefixed(f.file.largest) + rest);
    var fromSize := Varint(f.file.size) + fromSmallest;
    MetaIsRead(f.file, rest, fromSmallest, fromSize);
    LevelIsRead(f.level, Varint(f.file.number) + fromSize);
    FivePartsBefore(Varint(f.level), Varint(f.file.number), Varint(f.file.size), LengthPrefixed(f.file.smallest),
      LengthPrefixed(f.file.largest), rest);
  }

  lemma FivePartsBefore(a: seq<Byte>, b: seq<Byte>, c: seq<Byte>, d: seq<Byte>, e: seq<Byte>, rest: seq<Byte>)
    ensures a + b + c + d + e + rest == a + (b + (c + (d + (e + rest))))
  {
  }

  lemma NumberBodyIsRead(f: Field, rest: seq<Byte>)
    requires f.LogNumber? || f.PrevLogNumber? || f.NextFileNumber? || f.LastSequence?
    requires f.Fits()
    ensures ReadField(f.Tag(), f.Body() + rest) == Some(Parsed(f, rest))
  {
    NumberIsRead(f.number, rest, true);
  }

  lemma StringBodyIsRead(f: Field, rest: seq<Byte>)
    requires f.Comparator? && f.Fits()
    ensures ReadField(f.Tag(), f.Body() + rest) == Some(Parsed(f, rest))
  {
    LengthPrefixedReadIff(f.name, rest);
  }

  lemma BodyIsRead(f: Field, rest: seq<Byte>)
    requires f.Fits()
    ensures ReadField(f.Tag(), f.Body() + rest) == Some(Parsed(f, rest))
  {
    match f.Tag()
    case 1 => StringBodyIsRead(f, rest);
    case 5 => PointerIsRead(f, rest);
    case 6 => DeletedIsRead(f, rest);
    case 7 => NewIsRead(f, rest);
    case _ => NumberBodyIsRead(f, rest);
  }

  lemma FieldIsRead(e: Edit, f: Field, rest: seq<Byte>)
    requires f.Fits()
    ensures ReadFields(e, f.Bytes() + rest) == ReadFields(Set(e, f), rest)
  {
    assert f.Bytes() + rest == Varint(f.Tag()) + (f.Body() + rest);
    NumberIsRead(f.Tag(), f.Body() + rest, false);
    BodyIsRead(f, rest);
  }

  lemma {:induction false} FieldsAreRead(e: Edit, fields: seq<Field>)
    requires forall f :: f in fields ==> f.Fits()
    ensures ReadFields(e, AllBytes(fields)) == Outcome(SetAll(e, fields), None)
    decreases |fields|
  {
    if fields != [] {
      FieldIsRead(e, fields[0], AllBytes(fields[1..]));
      FieldsAreRead(Set(e, fields[0]), fields[1..]);
    }
  }

  lemma {:induction false} SetAllAppends(e: Edit, a: seq<Field>, b: seq<Field>)
    ensures SetAll(e, a + b) == SetAll(SetAll(e, a), b)
    decreases |a|
  {
    if a == [] {
      assert a + b == b;
    } else {
      assert (a + b)[1..] == a[1..] + b;
      SetAllAppends(Set(e, a[0]), a[1..], b);
    }
  }

  lemma {:induction false} PointersAreSet(e: Edit, s: seq<(nat, seq<Byte>)>)
    ensures SetAll(e, PointerFields(s)) == e.(compactPointers := e.compactPointers + s)
    decreases |s|
  {
    if s == [] {
      assert e.compactPointers + s == e.compactPointers;
    } else {
      assert PointerFields(s)[1..] == PointerFields(s[1..]);
      PointersAreSet(Set(e, CompactPointer(s[0].0, s[0].1)), s[1..]);
      assert e.compactPointers + [s[0]] + s[1..] == e.compactPointers + s;
    }
  }

  lemma {:induction false} NewFilesAreSet(e: Edit, s: seq<(nat, FileMeta)>)
    ensures SetAll(e, NewFields(s)) == e.(newFiles := e.newFiles + s)
    decreases |s|
  {
    if s == [] {
      assert e.newFiles + s == e.newFiles;
    } else {
      assert NewFields(s)[1..] == NewFields(s[1..]);
      NewFilesAreSet(Set(e, NewFile(s[0].0, s[0].1)), s[1..]);
      assert e.newFiles + [s[0]] + s[1..] == e.newFiles + s;
    }
  }

  /** Pairs that come in increasing order go to the end of the set. */
  lemma {:induction false} DeletedAreSet(e: Edit, s: seq<(nat, nat)>)
    requires Increasing(e.deletedFiles + s)
    ensures SetAll(e, DeletedFields(s)) == e.(deletedFiles := e.deletedFiles + s)
    decreases |s|
  {
    var d := e.deletedFiles;
    if s == [] {
      assert d + s == d;
    } else {
      assert DeletedFields(s)[1..] == DeletedFields(s[1..]);
      assert d != [] ==> (d + s)[|d| - 1] == d[|d| - 1];
      assert (d + s)[|d|] == s[0];
      assert Insert(d, s[0]) == d + [s[0]];
      assert d + [s[0]] + s[1..] == d + s;
      DeletedAreSet(Set(e, DeletedFile(s[0].0, s[0].1)), s[1..]);
    }
  }

  lemma NumbersAreSet(e: Edit, pointers: seq<(nat, seq<Byte>)>)
    ensures SetAll(Edit(None, None, None, None, None, pointers, [], []), NumberFields(e))
         == Edit(e.comparator, e.logNumber, e.prevLogNumber, e.nextFile, e.lastSequence, pointers, [], [])
  {
    var e0 := Edit(None, None, None, None, None, pointers, [], []);
    var a := if e.comparator.Some? then [Comparator(e.comparator.value)] else [];
    var b, c := OptionalField(e.logNumber, (n: nat) => LogNumber(n)),
      OptionalField(e.prevLogNumber, (n: nat) => PrevLogNumber(n));
    var d, f := OptionalField(e.nextFile, (n: nat) => NextFileNumber(n)),
      OptionalField(e.lastSequence, (n: nat) => LastSequence(n));
    SetAllAppends(e0, a + b + c + d, f);
    SetAllAppends(e0, a + b + c, d);
    SetAllAppends(e0, a + b, c);
    SetAllAppends(e0, a, b);
  }

  /** An edit whose parts fit, with deleted_files_ in order. */
  predicate WellFormed(e: Edit) { Increasing(e.deletedFiles) && forall f :: f in Fields(e) ==> f.Fits() }

  lemma FieldsRebuild(e: Edit, pointers: seq<(nat, seq<Byte>)>)
    requires Increasing(e.deletedFiles)
    ensures SetAll(Edit(None, None, None, None, None, pointers, [], []), Fields(e))
         == e.(compactPointers := pointers + e.compactPointers)
  {
    var e0 := Edit(None, None, None, None, None, pointers, [], []);
    var a, b, c, d := NumberFields(e), PointerFields(e.compactPointers), DeletedFields(e.deletedFiles),
      NewFields(e.newFiles);
    NumbersAreSet(e, pointers);
    var e1 := SetAll(e0, a);
    PointersAreSet(e1, e.compactPointers);
    var e2 := SetAll(e1, b);
    assert [] + e.deletedFiles == e.deletedFiles && [] + e.newFiles == e.newFiles;
    DeletedAreSet(e2, e.deletedFiles);
    NewFilesAreSet(SetAll(e2, c), e.newFiles);
    SetAllAppends(e0, a + b + c, d);
    SetAllAppends(e0, a + b, c);
    SetAllAppends(e0, a, b);
  }

  /** Decoding a record gives back the edit that was encoded, into an object that keeps its
      compaction pointers. */
  lemma DecodeEncoded(before: Edit, e: Edit)
    requires WellFormed(e)
    ensures ReadFields(Cleared(before), Encoded(e))
            == Outcome(e.(compactPointers := before.compactPointers + e.compactPointers), None)
  {
    FieldsAreRead(Cleared(before), Fields(e));
    FieldsRebuild(e, before.compactPointers);
  }

  // ---- Records that are no edits ----

  lemma FirstField(e: Edit, fields: seq<Field>, rest: seq<Byte>)
    requires fields != [] && fields[0].Fits()
    ensures ReadFields(e, AllBytes(fields) + rest) == ReadFields(Set(e, fields[0]), AllBytes(fields[1..]) + rest)
  {
    var behind := AllBytes(fields[1..]) + rest;
    assert AllBytes(fields) + rest == fields[0].Bytes() + behind;
    FieldIsRead(e, fields[0], behind);
  }

  lemma {:induction false} FieldsThenRest(e: Edit, fields: seq<Field>, rest: seq<Byte>)
    requires forall f :: f in fields ==> f.Fits()
    ensures ReadFields(e, AllBytes(fields) + rest) == ReadFields(SetAll(e, fields), rest)
    decreases |fields|
  {
    if fields == [] {
      assert AllBytes(fields) + rest == rest;
    } else {
      FirstField(e, fields, rest);
      FieldsThenRest(Set(e, fields[0]), fields[1..], rest);
    }
  }

  /** An unknown tag is an error, whatever stands before and behind it. */
  lemma UnknownTagIsRejected(e: Edit, fields: seq<Field>, tag: Word, rest: seq<Byte>)
    requires (forall f :: f in fields ==> f.Fits()) && !(1 <= tag <= 7 || tag == 9)
    ensures ReadFields(e, AllBytes(fields) + (Varint(tag) + rest)).error == Some(BadField(tag))
  {
    FieldsThenRest(e, fields, Varint(tag) + rest);
    NumberIsRead(tag, rest, false);
  }

  /** So is a level that does not exist, in a compaction pointer, a deleted or a new file. */
  lemma UnknownLevelIsRejected(e: Edit, fields: seq<Field>, tag: nat, level: Word, rest: seq<Byte>)
    requires (forall f :: f in fields ==> f.Fits()) && 5 <= tag <= 7 && level >= NUM_LEVELS
    ensures ReadFields(e, AllBytes(fields) + (Varint(tag) + (Varint(level) + rest))).error == Some(BadField(tag))
  {
    FieldsThenRest(e, fields, Varint(tag) + (Varint(level) + rest));
    NumberIsRead(tag, Varint(level) + rest, false);
    NumberIsRead(level, rest, false);
  }

  /** And a number that ends in the middle. */
  lemma CutTagIsRejected(e: Edit, fields: seq<Field>, tail: seq<Byte>)
    requires (forall f :: f in fields ==> f.Fits()) && tail != [] && forall i :: 0 <= i < |tail| ==> tail[i] >= 128
    ensures ReadFields(e, AllBytes(fields) + tail).error == Some(InvalidTag)
  {
    FieldsThenRest(e, fields, tail);
    NoEndNoNumber(tail, MostBytes(false));
  }

  lemma {:induction false} NoEndNoNumber(input: seq<Byte>, most: nat)
    requires forall i :: 0 <= i < |input| ==> input[i] >= 128
    ensures ParseVarint(input, most) == None
    decreases most
  {
    if most > 0 && input != [] {
      NoEndNoNumber(input[1..], most - 1);
    }
  }
}
